/**
 * The lookup tables and the variant dispatch that converter.js and
 * offscreen.js both carry (their helper functions are identical copies), and
 * the extension computation every surface of the extension uses.
 */
module Media {
  import opened Common
  import opened Text
  import opened Negotiation

  /** `fileName.split('.').pop().toLowerCase()`: a dot-free text without ASCII capitals. */
  function Extension(fileName: string): (ext: string)
    ensures '.' !in ext && |ext| == |AfterLastDot(fileName)|
    ensures forall i :: 0 <= i < |ext| ==> !('A' <= ext[i] <= 'Z')
  {
    Lower(AfterLastDot(fileName))
  }

  /** The extension is the lower-cased text after the last dot, or the whole lower-cased name. */
  lemma ExtensionIsLastSegment(fileName: string)
    ensures exists r :: IsLastDotSegment(fileName, r) && Extension(fileName) == Lower(r)
    ensures '.' !in fileName ==> Extension(fileName) == Lower(fileName)
  {
    AfterLastDotIsLastSegment(fileName);
    if '.' !in fileName {
      NoDotIsWholeName(fileName);
    }
  }

  /** The table `getMimeTypeFromFileName` consults. */
  const SourceMimeTypes: map<string, string> := map[
    "mp4" := "video/mp4",
    "webm" := "video/webm",
    "mkv" := "video/x-matroska",
    "avi" := "video/x-msvideo",
    "mov" := "video/quicktime",
    "mp3" := "audio/mpeg",
    "wav" := "audio/wav",
    "ogg" := "audio/ogg",
    "m4a" := "audio/mp4"
  ]

  /** The type given to anything the table does not know. */
  const OctetStream: string := "application/octet-stream"

  /** The extensions whose table entry is a `video/` type. */
  const VideoSourceExtensions: set<string> := {"mp4", "webm", "mkv", "avi", "mov"}

  /** `getMimeTypeFromFileName`: the table entry for the name's extension, else `application/octet-stream`. */
  function SourceMimeType(fileName: string): (mime: string)
    ensures mime == OctetStream <==> Extension(fileName) !in SourceMimeTypes
    ensures mime != OctetStream ==> mime in SourceMimeTypes.Values
    ensures Extension(fileName) in SourceMimeTypes ==> mime == SourceMimeTypes[Extension(fileName)]
    ensures CanonicalMime(mime)
  {
    var ext := Extension(fileName);
    SourceTypesCanonical();
    if ext in SourceMimeTypes then SourceMimeTypes[ext] else OctetStream
  }

  /** Every type of the source table, and the fallback, is a lower-case MIME literal. */
  lemma SourceTypesCanonical()
    ensures forall ext :: ext in SourceMimeTypes ==> CanonicalMime(SourceMimeTypes[ext])
    ensures CanonicalMime(OctetStream)
  {
    SourceVideoTypesCanonical();
    SourceAudioTypesCanonical();
  }

  /** The video types of the source table are lower-case MIME literals. */
  lemma SourceVideoTypesCanonical()
    ensures CanonicalMime("video/mp4") && CanonicalMime("video/webm") && CanonicalMime("video/x-matroska")
    ensures CanonicalMime("video/x-msvideo") && CanonicalMime("video/quicktime")
  {
  }

  /** The audio types of the source table, and the fallback, are lower-case MIME literals. */
  lemma SourceAudioTypesCanonical()
    ensures CanonicalMime("audio/mpeg") && CanonicalMime("audio/wav") && CanonicalMime("audio/ogg")
    ensures CanonicalMime("audio/mp4") && CanonicalMime(OctetStream)
  {
  }

  /**
   * `blob.type.startsWith('video/')` for the blob built from the transferred
   * bytes: the source counts as video exactly for the five video extensions of
   * the table, in any letter case.
   */
  function IsSourceVideo(fileName: string): (video: bool)
    ensures video <==> Extension(fileName) in VideoSourceExtensions
  {
    CanonicalMimeKept(SourceMimeType(fileName));
    if Extension(fileName) in SourceMimeTypes then
      VideoEntriesAreVideoExtensions();
      "video/" <= BlobType(SourceMimeType(fileName))
    else
      OctetStreamIsNotVideo();
      "video/" <= BlobType(SourceMimeType(fileName))
  }

  /** `application/octet-stream` does not start with `video/`. */
  lemma OctetStreamIsNotVideo()
    ensures !("video/" <= OctetStream)
  {
    assert OctetStream[0] != "video/"[0];
  }

  /** Exactly the five video extensions have a `video/` entry in the table. */
  lemma VideoEntriesAreVideoExtensions()
    ensures forall ext :: ext in SourceMimeTypes ==> ("video/" <= SourceMimeTypes[ext] <==> ext in VideoSourceExtensions)
  {
    forall ext | ext in SourceMimeTypes
      ensures "video/" <= SourceMimeTypes[ext] <==> ext in VideoSourceExtensions
    {
      if ext !in VideoSourceExtensions {
        assert SourceMimeTypes[ext][0] == 'a';
      }
    }
  }

  /** Lower-casing a text without capitals returns it unchanged. */
  lemma LowerKeepsLowercase(s: string)
    requires forall i :: 0 <= i < |s| ==> 'a' <= s[i] <= 'z' || '0' <= s[i] <= '9'
    ensures Lower(s) == s
  {
  }

  /** The extension of `base.ext` is the lower-cased `ext` whenever `ext` has no dot. */
  lemma ExtensionOfDotted(base: string, ext: string)
    requires '.' !in ext
    ensures Extension(base + "." + ext) == Lower(ext)
  {
    AfterLastDotOfAppended(base, ext);
  }

  /** An extension the table does not know is never classed as video. */
  lemma UnknownSourceIsNotVideo(fileName: string)
    requires Extension(fileName) !in SourceMimeTypes
    ensures !IsSourceVideo(fileName)
    ensures BlobType(SourceMimeType(fileName)) == OctetStream
  {
    CanonicalMimeKept(SourceMimeType(fileName));
    OctetStreamIsNotVideo();
  }

  /** The target formats `handleConversion` treats as audio. */
  const AudioTargets: seq<string> := ["mp3", "wav", "ogg", "m4a"]

  /** `['mp3', 'wav', 'ogg', 'm4a'].includes(outputFormat)`. */
  predicate IsTargetAudio(outputFormat: string)
  {
    outputFormat in AudioTargets
  }

  /** The three conversion shapes `handleConversion` dispatches to. */
  datatype Variant = VideoToAudio | AudioToAudio | VideoToVideo

  /**
   * The dispatch of `handleConversion`: audio target and video source extracts
   * audio, audio target otherwise transcodes audio, and every other request,
   * an audio source with a video target included, goes video to video.
   */
  function SelectVariant(fileName: string, outputFormat: string): (v: Variant)
    ensures v == VideoToAudio <==> Extension(fileName) in VideoSourceExtensions && outputFormat in AudioTargets
    ensures v == AudioToAudio <==> Extension(fileName) !in VideoSourceExtensions && outputFormat in AudioTargets
    ensures v == VideoToVideo <==> outputFormat !in AudioTargets
  {
    var isSourceVideo := IsSourceVideo(fileName);
    var isTargetAudio := IsTargetAudio(outputFormat);
    if isTargetAudio && isSourceVideo then VideoToAudio
    else if isTargetAudio then AudioToAudio
    else VideoToVideo
  }

  /** Nothing is rejected: an audio file asked for a video format goes the video-to-video way. */
  lemma AudioSourceToVideoTargetIsVideoToVideo()
    ensures SelectVariant("song.mp3", "mp4") == VideoToVideo
    ensures SelectVariant("song.mp3", "aac") == VideoToVideo
    ensures SelectVariant("song.flac", "flac") == VideoToVideo
  {
    ExtensionOfDotted("song", "mp3");
    LowerKeepsLowercase("mp3");
    assert "mp4" !in AudioTargets && "aac" !in AudioTargets && "flac" !in AudioTargets;
  }

  /** Upper-case extensions are classified like lower-case ones. */
  lemma UpperCaseVideoIsVideo()
    ensures SelectVariant("CLIP.MP4", "mp3") == VideoToAudio
  {
    UpperCaseExtensionLowered();
    assert "mp4" in VideoSourceExtensions;
  }

  /** The extension of `CLIP.MP4` is `mp4`. */
  lemma UpperCaseExtensionLowered()
    ensures Extension("CLIP.MP4") == "mp4"
  {
    assert "CLIP.MP4" == "CLIP" + "." + "MP4";
    ExtensionOfDotted("CLIP", "MP4");
  }

  /** `getAudioMimeType`: the container an audio target asks the recorder for. */
  function AudioMimeType(format: string): (mime: string)
    ensures "audio/" <= mime
    ensures CanonicalMime(mime)
    ensures format !in AudioTargets ==> mime == "audio/webm;codecs=opus"
    ensures format in AudioTargets ==> mime != "audio/webm;codecs=opus"
  {
    match format
    case "mp3" => "audio/mpeg"
    case "wav" => "audio/wav"
    case "ogg" => "audio/ogg;codecs=opus"
    case "m4a" => "audio/mp4"
    case _ => "audio/webm;codecs=opus"
  }

  /** `getVideoMimeType`: mp4 asks for mp4; webm, mkv and every unknown format ask for VP9/Opus webm. */
  function VideoMimeType(format: string): (mime: string)
    ensures "video/" <= mime
    ensures CanonicalMime(mime)
    ensures mime == "video/mp4" <==> format == "mp4"
    ensures format != "mp4" ==> mime == "video/webm;codecs=vp9,opus"
  {
    match format
    case "mp4" => "video/mp4"
    case "webm" => "video/webm;codecs=vp9,opus"
    case "mkv" => "video/webm;codecs=vp9,opus"
    case _ => "video/webm;codecs=vp9,opus"
  }

  /** The quality tiers the bitrate tables know. */
  datatype Tier = High | Medium | Low

  /** The tier a quality string names, if any. */
  function TierOf(quality: string): Option<Tier>
  {
    match quality
    case "high" => Some(High)
    case "medium" => Some(Medium)
    case "low" => Some(Low)
    case _ => None
  }

  /** `getAudioBitrate`: bits per second for the recorder's audio track. */
  function AudioBitrate(quality: string): (bps: nat)
    ensures bps in {128000, 192000, 320000}
  {
    match TierOf(quality)
    case Some(High) => 320000
    case Some(Medium) => 192000
    case Some(Low) => 128000
    case None => 192000
  }

  /** `getVideoBitrate`: bits per second for the recorder's video track. */
  function VideoBitrate(quality: string): (bps: nat)
    ensures bps in {1000000, 2500000, 5000000}
  {
    match TierOf(quality)
    case Some(High) => 5000000
    case Some(Medium) => 2500000
    case Some(Low) => 1000000
    case None => 2500000
  }

  /** Higher tiers get strictly more bits, for both tracks; unknown tiers sit with medium. */
  lemma BitratesOrderedByTier(quality: string)
    ensures AudioBitrate("low") < AudioBitrate("medium") < AudioBitrate("high")
    ensures VideoBitrate("low") < VideoBitrate("medium") < VideoBitrate("high")
    ensures AudioBitrate("high") == 320000 && AudioBitrate("low") == 128000
    ensures VideoBitrate("high") == 5000000 && VideoBitrate("low") == 1000000
    ensures AudioBitrate("medium") == 192000 && VideoBitrate("medium") == 2500000
    ensures AudioBitrate(quality) == AudioBitrate("medium") <==> quality != "high" && quality != "low"
    ensures VideoBitrate(quality) == VideoBitrate("medium") <==> quality != "high" && quality != "low"
  {
  }

  /** The negotiation family of a variant: only video to video records video. */
  function KindOf(v: Variant): Kind
  {
    if v == VideoToVideo then VideoKind else AudioKind
  }

  /** The type a variant asks the recorder for before any fallback. */
  function PreferredMime(v: Variant, outputFormat: string): (mime: string)
    ensures CanonicalMime(mime)
    ensures v == VideoToVideo ==> "video/" <= mime
    ensures v != VideoToVideo ==> "audio/" <= mime
  {
    if v == VideoToVideo then VideoMimeType(outputFormat) else AudioMimeType(outputFormat)
  }

  /** The options object the `MediaRecorder` is constructed with. */
  datatype RecorderOptions = RecorderOptions(mimeType: string, audioBitsPerSecond: nat, videoBitsPerSecond: Option<nat>)

  /** `{ mimeType, audioBitsPerSecond }`, plus `videoBitsPerSecond` for video to video. */
  function OptionsFor(v: Variant, mimeType: string, quality: string): (o: RecorderOptions)
    ensures o.mimeType == mimeType
    ensures o.audioBitsPerSecond == AudioBitrate(quality)
    ensures o.videoBitsPerSecond.Some? <==> v == VideoToVideo
    ensures o.videoBitsPerSecond.Some? ==> o.videoBitsPerSecond.value == VideoBitrate(quality)
  {
    RecorderOptions(mimeType, AudioBitrate(quality), if v == VideoToVideo then Some(VideoBitrate(quality)) else None)
  }

  /** A negotiated type is one of the variant's candidates, of the variant's family, and kept as written by a `Blob`. */
  lemma NegotiatedMimeFamily(v: Variant, outputFormat: string, isTypeSupported: string -> bool)
    ensures var chosen := Negotiate(KindOf(v), PreferredMime(v, outputFormat), isTypeSupported).chosen;
            chosen.Ok? ==>
              && chosen.value in Candidates(KindOf(v), PreferredMime(v, outputFormat))
              && CanonicalMime(chosen.value)
              && (v == VideoToVideo ==> "video/" <= chosen.value)
              && (v != VideoToVideo ==> "audio/" <= chosen.value)
  {
    var preferred := PreferredMime(v, outputFormat);
    var chosen := Negotiate(KindOf(v), preferred, isTypeSupported).chosen;
    FallbacksKeepKind(KindOf(v));
    if chosen.Ok? {
      assert chosen.value in [preferred, CodecFallback(KindOf(v)), BareFallback(KindOf(v))];
    }
  }
}
