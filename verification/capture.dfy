/**
 * What one recording run sees of the browser, and what it keeps: the request
 * that starts it, the outcomes of loading and playing the source, the
 * recorder's chunks, the blob they are finalised into, and the progress sample.
 */
module Capture {
  import opened Common
  import opened Text

  /** The `data` of a conversion request: `{fileData, fileName, outputFormat, quality}`. */
  datatype Request = Request(fileData: seq<byte>, fileName: string, outputFormat: string, quality: string)

  /** A `Blob`: its bytes (its `size` is their number) and its recorded `type`. */
  datatype Blob = Blob(bytes: seq<byte>, mimeType: string)

  /** What `handleConversion` resolves with: `{data, mimeType, size}`. */
  datatype ConversionData = ConversionData(data: seq<byte>, mimeType: string, size: nat)

  /** When, if ever, the media element reports its metadata or an error. */
  datatype LoadOutcome =
    | MetadataAt(ms: nat)   // `loadedmetadata` fires `ms` milliseconds after the source is set
    | LoadErrorAt(ms: nat)  // `error` fires `ms` milliseconds after the source is set
    | NoLoadEvent           // neither ever fires

  /** How playback and recording end. */
  datatype PlaybackOutcome =
    | PlayedToEnd(events: seq<seq<byte>>)  // `ended` fired; the recorder delivered these `dataavailable` payloads
    | PlayRejected(reason: string)         // `play()` rejected with this message
    | RecorderFailed(reason: string)       // the recorder's `error` event fired; `reason` is its `error` as text
    | StoppedWithoutEnd                    // playback stopped (a decode error, say) without `ended` or a recorder error

  /** The browser capabilities one run depends on. */
  datatype MediaEnv = MediaEnv(isTypeSupported: string -> bool, load: LoadOutcome, playback: PlaybackOutcome)

  /** How a promise ends up: never settled, resolved, or rejected with an error whose `message` may be missing. */
  datatype Settlement<+T> = Pending | Resolved(value: T) | Rejected(message: Option<string>)

  /** The load timeout converter.js arms for the media element, in milliseconds. */
  const LoadTimeoutMs: nat := 30000

  /** The bytes of a sequence of chunks, one after the other. */
  function Concat(chunks: seq<seq<byte>>): seq<byte>
    decreases |chunks|
  {
    if |chunks| == 0 then [] else Concat(chunks[..|chunks| - 1]) + chunks[|chunks| - 1]
  }

  /** Total size of a sequence of chunks. */
  function TotalSize(chunks: seq<seq<byte>>): nat
    decreases |chunks|
  {
    if |chunks| == 0 then 0 else TotalSize(chunks[..|chunks| - 1]) + |chunks[|chunks| - 1]|
  }

  /** The size of the concatenation is the sum of the sizes. */
  lemma {:induction false} ConcatSize(chunks: seq<seq<byte>>)
    ensures |Concat(chunks)| == TotalSize(chunks)
    decreases |chunks|
  {
    if |chunks| > 0 {
      ConcatSize(chunks[..|chunks| - 1]);
    }
  }

  /** Reference definition of the `dataavailable` handler: the non-empty payloads, in arrival order. */
  function NonEmpty(events: seq<seq<byte>>): (kept: seq<seq<byte>>)
    ensures |kept| <= |events|
    ensures forall i :: 0 <= i < |kept| ==> |kept[i]| > 0
    decreases |events|
  {
    if |events| == 0 then []
    else
      var last := events[|events| - 1];
      NonEmpty(events[..|events| - 1]) + (if |last| > 0 then [last] else [])
  }

  /** Dropping the empty payloads loses no byte: the kept chunks hold all recorded data. */
  lemma {:induction false} NonEmptyKeepsBytes(events: seq<seq<byte>>)
    ensures Concat(NonEmpty(events)) == Concat(events)
    decreases |events|
  {
    if |events| > 0 {
      var init := events[..|events| - 1];
      var last := events[|events| - 1];
      NonEmptyKeepsBytes(init);
      ConcatAppend(NonEmpty(init), if |last| > 0 then [last] else []);
      if |last| == 0 {
        assert Concat(events) == Concat(init) + last;
        assert last == [];
      }
    }
  }

  /** Concatenation distributes over appending sequences of chunks. */
  lemma {:induction false} ConcatAppend(a: seq<seq<byte>>, b: seq<seq<byte>>)
    ensures Concat(a + b) == Concat(a) + Concat(b)
    decreases |b|
  {
    if |b| > 0 {
      var b' := b[..|b| - 1];
      assert (a + b)[..|a + b| - 1] == a + b';
      ConcatAppend(a, b');
    } else {
      assert a + b == a;
    }
  }

  /** A run whose payloads are all non-empty keeps every one of them. */
  lemma {:induction false} NonEmptyKeepsAllNonEmpty(events: seq<seq<byte>>)
    requires forall i :: 0 <= i < |events| ==> |events[i]| > 0
    ensures NonEmpty(events) == events
    decreases |events|
  {
    if |events| > 0 {
      NonEmptyKeepsAllNonEmpty(events[..|events| - 1]);
      assert events == events[..|events| - 1] + [events[|events| - 1]];
    }
  }

  /**
   * The `dataavailable` handler run over a whole recording: `chunks.push(e.data)`
   * for every payload with `size > 0`, in arrival order.
   */
  method CollectChunks(events: seq<seq<byte>>) returns (chunks: seq<seq<byte>>)
    ensures chunks == NonEmpty(events)
    ensures forall i :: 0 <= i < |chunks| ==> |chunks[i]| > 0
    ensures Concat(chunks) == Concat(events)
  {
    chunks := [];
    var i := 0;
    while i < |events|
      invariant 0 <= i <= |events|
      invariant chunks == NonEmpty(events[..i])
    {
      assert events[..i + 1][..i] == events[..i];
      if |events[i]| > 0 {
        chunks := chunks + [events[i]];
      }
      i := i + 1;
    }
    assert events[..|events|] == events;
    NonEmptyKeepsBytes(events);
  }

  /**
   * The `onstop` handler: `new Blob(chunks, { type: mimeType })` over the kept
   * chunks, tagged with the negotiated type.
   */
  function Finalize(events: seq<seq<byte>>, mimeType: string): (blob: Blob)
    ensures blob.bytes == Concat(events)
    ensures |blob.bytes| == TotalSize(events)
    ensures CanonicalMime(mimeType) ==> blob.mimeType == mimeType
  {
    NonEmptyKeepsBytes(events);
    ConcatSize(events);
    if CanonicalMime(mimeType) then CanonicalMimeKept(mimeType); Blob(Concat(NonEmpty(events)), BlobType(mimeType))
    else Blob(Concat(NonEmpty(events)), BlobType(mimeType))
  }

  /** What `handleConversion` hands back for a result blob: its bytes, its type and its size. */
  function Describe(blob: Blob): (data: ConversionData)
    ensures data.size == |data.data|
    ensures data.data == blob.bytes && data.mimeType == blob.mimeType
  {
    ConversionData(blob.bytes, blob.mimeType, |blob.bytes|)
  }

  /** A recording that produced nothing still finalises, into an empty blob. */
  lemma EmptyRecordingFinalises(mimeType: string)
    requires CanonicalMime(mimeType)
    ensures Finalize([], mimeType) == Blob([], mimeType)
    ensures Finalize([[], []], mimeType) == Blob([], mimeType)
  {
    assert Concat([[], []]) == Concat([[]]) + [];
  }

  /** `video.duration` as the media element reports it. */
  datatype Duration = Seconds(value: real) | NotANumber | Infinite

  /** `if (video.duration)`: zero and NaN are falsy, every other duration is truthy. */
  predicate DurationIsTruthy(d: Duration)
  {
    match d
    case Seconds(v) => v != 0.0
    case NotANumber => false
    case Infinite => true
  }

  /**
   * One tick of the progress interval: `currentTime / duration * 100` when the
   * duration is truthy, no update otherwise (before `toFixed(0)` rounds it).
   */
  function ProgressPercent(currentTime: real, duration: Duration): (p: Option<real>)
    ensures p.None? <==> !DurationIsTruthy(duration)
    ensures p.Some? && duration.Seconds? ==> p.value * duration.value == currentTime * 100.0
    ensures duration.Infinite? ==> p == Some(0.0)
    ensures duration.Seconds? && 0.0 < duration.value && 0.0 <= currentTime <= duration.value ==> p.Some? && 0.0 <= p.value <= 100.0
  {
    match duration
    case Seconds(d) =>
      if d != 0.0 then
        assert 0.0 < d && 0.0 <= currentTime <= d ==> 0.0 <= currentTime / d <= 1.0 by {
          if 0.0 < d && 0.0 <= currentTime <= d {
            FractionOfDuration(currentTime, d);
          }
        }
        Some(currentTime / d * 100.0)
      else None
    case NotANumber => None
    case Infinite => Some(0.0)
  }

  /** A time within a positive duration is a fraction of it between 0 and 1. */
  lemma FractionOfDuration(t: real, d: real)
    requires 0.0 < d && 0.0 <= t <= d
    ensures 0.0 <= t / d <= 1.0
  {
    assert t / d * d == t;
  }
}
