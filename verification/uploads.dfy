/**
 * The upload check both popups perform (popup.js and popup-alternative.js
 * carry the same two format lists and the same `handleFile` classification):
 * the lower-cased last-dot extension must be in one of the lists, and it
 * decides the default target.
 */
module Uploads {
  import opened Common
  import opened Text
  import opened Media

  /** `VIDEO_FORMATS`. */
  const VideoFormats: seq<string> := ["mp4", "mov", "avi", "mkv", "webm", "flv", "wmv", "mpeg", "mpg", "m4v", "3gp"]

  /** `AUDIO_FORMATS`. */
  const AudioFormats: seq<string> := ["mp3", "wav", "aac", "flac", "alac", "ogg", "m4a", "amr"]

  /** The message shown for a file in neither list. */
  const UnsupportedMessage: string := "Unsupported file format. Please upload a valid video or audio file."

  /** A picked or dropped file: its name and its contents. */
  datatype File = File(name: string, bytes: seq<byte>)

  /** Which section a popup shows, with the text its logic puts there. */
  datatype View =
    | Blank                       // nothing but the upload area
    | FileDetails                 // the file information and the conversion options
    | Working(status: string)     // the progress section, with its status line
    | ResultReady(fileName: string)  // the result section, naming the file to download
    | ErrorShown(message: string)    // the error section

  /** What a popup takes an accepted upload to be. */
  datatype SourceKind = VideoSource | AudioSource

  /** `handleFile`'s check: video if the extension is a video format, audio if an audio one, else unsupported. */
  function Classify(fileName: string): (r: Result<SourceKind>)
    ensures r == Ok(VideoSource) <==> Extension(fileName) in VideoFormats
    ensures r == Ok(AudioSource) <==> Extension(fileName) in AudioFormats
    ensures r.Err? <==> Extension(fileName) !in VideoFormats && Extension(fileName) !in AudioFormats
    ensures r.Err? ==> r.error == UnsupportedMessage
  {
    FormatListsDisjoint();
    var ext := Extension(fileName);
    if ext in VideoFormats then Ok(VideoSource)
    else if ext in AudioFormats then Ok(AudioSource)
    else Err(UnsupportedMessage)
  }

  /** The output format preselected for an accepted upload. */
  function DefaultTarget(kind: SourceKind): (format: string)
    ensures kind == VideoSource ==> format == "mp4" && format in VideoFormats
    ensures kind == AudioSource ==> format == "mp3" && format in AudioFormats && IsTargetAudio(format)
  {
    match kind
    case VideoSource => "mp4"
    case AudioSource => "mp3"
  }

  /** No extension is in both lists, so the classification is never ambiguous. */
  lemma FormatListsDisjoint()
    ensures forall f :: f in VideoFormats ==> f !in AudioFormats
  {
    forall f | f in VideoFormats
      ensures f !in AudioFormats
    {
      var i :| 0 <= i < |VideoFormats| && VideoFormats[i] == f;
      assert f[0] == 'm' || f[0] == 'a' || f[0] == 'w' || f[0] == 'f' || f[0] == '3';
      if f[0] == 'm' || f[0] == 'a' {
        assert f[1] != 'p' || f[2] != '3';
      }
    }
  }

  /**
   * Every video extension the converter's own table knows is accepted as a
   * video upload, and every audio extension of that table as an audio upload.
   */
  lemma TableExtensionsAreAccepted(ext: string)
    requires ext in SourceMimeTypes
    ensures ext in VideoSourceExtensions ==> ext in VideoFormats
    ensures ext !in VideoSourceExtensions ==> ext in AudioFormats
  {
  }

  /**
   * The popup accepts more video formats than the converter recognises: a
   * `.flv` upload is offered as video, yet the converter types it
   * `application/octet-stream`, so an audio target takes the audio-to-audio path.
   */
  lemma AcceptedVideoNotRecognised()
    ensures Classify("clip.flv") == Ok(VideoSource)
    ensures !IsSourceVideo("clip.flv")
    ensures SelectVariant("clip.flv", "mp3") == AudioToAudio
  {
    FlvAccepted();
    FlvExtension();
    assert "flv" !in VideoSourceExtensions;
    assert "mp3" == AudioTargets[0];
  }

  /** The popups accept `clip.flv` as a video. */
  lemma FlvAccepted()
    ensures Classify("clip.flv") == Ok(VideoSource)
  {
    FlvExtension();
    FlvIsVideoFormat();
  }

  /** `flv` is in the popups' video list. */
  lemma FlvIsVideoFormat()
    ensures "flv" in VideoFormats
  {
    assert VideoFormats[5] == "flv";
  }

  /** The extension of `clip.flv`, which the converter's table lacks. */
  lemma FlvExtension()
    ensures Extension("clip.flv") == "flv"
    ensures "flv" !in SourceMimeTypes
  {
    assert "clip.flv" == "clip" + "." + "flv";
    ExtensionOfDotted("clip", "flv");
    FlvIsLowerCase();
  }

  /** `flv` is already lower case. */
  lemma FlvIsLowerCase()
    ensures Lower("flv") == "flv"
  {
    LowerKeepsLowercase("flv");
  }
}
