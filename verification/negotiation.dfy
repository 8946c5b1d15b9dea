/**
 * Choosing the container the recorder actually writes: the preferred type if
 * the runtime can record it, else the webm fallbacks, else an error. The
 * runtime's `MediaRecorder.isTypeSupported` is a parameter.
 */
module Negotiation {
  import opened Common
  import opened Text

  /** Which family of fallbacks applies: the audio variants' or the video variant's. */
  datatype Kind = AudioKind | VideoKind

  /** The first fallback: webm with explicit codecs. */
  function CodecFallback(kind: Kind): string
  {
    match kind
    case AudioKind => "audio/webm;codecs=opus"
    case VideoKind => "video/webm;codecs=vp9,opus"
  }

  /** The last fallback: bare webm. */
  function BareFallback(kind: Kind): string
  {
    match kind
    case AudioKind => "audio/webm"
    case VideoKind => "video/webm"
  }

  /** The rejection message when the runtime records none of the candidates. */
  function NoFormatMessage(kind: Kind): string
  {
    match kind
    case AudioKind => "No supported audio format found"
    case VideoKind => "No supported video format found"
  }

  /** The types tried, in order. */
  function Candidates(kind: Kind, preferred: string): seq<string>
  {
    [preferred, CodecFallback(kind), BareFallback(kind)]
  }

  /** What negotiation did: the capability queries it made, in order, and what it chose. */
  datatype Negotiated = Negotiated(queries: seq<string>, chosen: Result<string>)

  /**
   * The fallback block of every conversion: query the preferred type, then the
   * codec fallback, then the bare fallback; the first supported one wins.
   */
  function Negotiate(kind: Kind, preferred: string, isTypeSupported: string -> bool): (n: Negotiated)
    ensures 1 <= |n.queries| <= 3
    ensures n.queries == Candidates(kind, preferred)[..|n.queries|]
    ensures forall i :: 0 <= i < |n.queries| - 1 ==> !isTypeSupported(n.queries[i])
    ensures n.chosen.Ok? ==> n.chosen.value == n.queries[|n.queries| - 1] && isTypeSupported(n.chosen.value)
    ensures n.chosen.Ok? ==> n.chosen.value in Candidates(kind, preferred)
    ensures n.chosen.Err? <==> forall c :: c in Candidates(kind, preferred) ==> !isTypeSupported(c)
    ensures n.chosen.Err? ==> n.chosen.error == NoFormatMessage(kind) && |n.queries| == 3
    ensures isTypeSupported(preferred) ==> n.chosen == Ok(preferred)
  {
    var codecs := CodecFallback(kind);
    var bare := BareFallback(kind);
    if isTypeSupported(preferred) then Negotiated([preferred], Ok(preferred))
    else if isTypeSupported(codecs) then Negotiated([preferred, codecs], Ok(codecs))
    else if isTypeSupported(bare) then Negotiated([preferred, codecs, bare], Ok(bare))
    else Negotiated([preferred, codecs, bare], Err(NoFormatMessage(kind)))
  }

  /** Reference definition: the first element of `candidates` the runtime supports, if any. */
  function FirstSupported(candidates: seq<string>, isTypeSupported: string -> bool): (r: Option<string>)
    ensures r.Some? ==> r.value in candidates && isTypeSupported(r.value)
    ensures r.None? <==> forall c :: c in candidates ==> !isTypeSupported(c)
    decreases |candidates|
  {
    if |candidates| == 0 then None
    else if isTypeSupported(candidates[0]) then Some(candidates[0])
    else FirstSupported(candidates[1..], isTypeSupported)
  }

  /** The fallback chain is "the first supported candidate", with the fixed error when there is none. */
  lemma NegotiateIsFirstSupported(kind: Kind, preferred: string, isTypeSupported: string -> bool)
    ensures var first := FirstSupported(Candidates(kind, preferred), isTypeSupported);
            var n := Negotiate(kind, preferred, isTypeSupported);
            (first.Some? ==> n.chosen == Ok(first.value)) && (first.None? ==> n.chosen == Err(NoFormatMessage(kind)))
  {
    var c := Candidates(kind, preferred);
    assert c[1..][1..][1..] == [];
  }

  /** The fallbacks are of the requested kind and are recorded by a `Blob` exactly as written. */
  lemma FallbacksKeepKind(kind: Kind)
    ensures kind == AudioKind ==> "audio/" <= CodecFallback(kind) && "audio/" <= BareFallback(kind)
    ensures kind == VideoKind ==> "video/" <= CodecFallback(kind) && "video/" <= BareFallback(kind)
    ensures CanonicalMime(CodecFallback(kind)) && CanonicalMime(BareFallback(kind))
  {
    FallbackTypesCanonical();
  }

  /** The four fallback types are already in the form a `Blob` keeps. */
  lemma FallbackTypesCanonical()
    ensures CanonicalMime("audio/webm;codecs=opus") && CanonicalMime("audio/webm")
    ensures CanonicalMime("video/webm;codecs=vp9,opus") && CanonicalMime("video/webm")
  {
  }
}
