/**
 * The FFmpeg.wasm popup (popup-alternative.js): it classifies the upload like
 * the other popup, builds an FFmpeg command line from the target format and
 * the quality level, and tags the output with a type from its own table.
 * Loading the library and running FFmpeg are outcomes supplied from outside.
 */
module FfmpegPopup {
  import opened Common
  import opened Text
  import opened Rename
  import opened Media
  import opened Capture
  import opened Uploads

  /** The encoder settings a quality level selects, as FFmpeg option values. */
  datatype Encoding = Encoding(videoBitrate: string, audioBitrate: string, crf: string)

  /** The `switch (qualityLevel)` of `buildFFmpegArgs`: high, low, and everything else. */
  function QualityEncoding(level: string): (e: Encoding)
    ensures level == "high" ==> e == Encoding("5000k", "320k", "18")
    ensures level == "low" ==> e == Encoding("1000k", "128k", "28")
    ensures level != "high" && level != "low" ==> e == Encoding("2500k", "192k", "23")
  {
    match level
    case "high" => Encoding("5000k", "320k", "18")
    case "low" => Encoding("1000k", "128k", "28")
    case _ => Encoding("2500k", "192k", "23")
  }

  /**
   * The FFmpeg popup and the recorder pipeline agree on bitrates: for every
   * quality string, the `k` values are the recorder's bits per second in thousands.
   */
  lemma EncodingAgreesWithRecorder(level: string)
    ensures QualityEncoding(level).audioBitrate == Decimal(AudioBitrate(level) / 1000) + "k"
    ensures QualityEncoding(level).videoBitrate == Decimal(VideoBitrate(level) / 1000) + "k"
  {
    BitratesOrderedByTier(level);
    if level == "high" {
      assert AudioBitrate(level) / 1000 == 320 && VideoBitrate(level) / 1000 == 5000;
      Kilo320();
      Kilo5000();
    } else if level == "low" {
      assert AudioBitrate(level) / 1000 == 128 && VideoBitrate(level) / 1000 == 1000;
      Kilo128();
      Kilo1000();
    } else {
      assert AudioBitrate(level) / 1000 == 192 && VideoBitrate(level) / 1000 == 2500;
      Kilo192();
      Kilo2500();
    }
  }

  /** The decimal spellings of the bitrate tables' values in thousands. */
  lemma Kilo320()
    ensures Decimal(320) + "k" == "320k"
  {
    assert Decimal(3) == "3";
    assert Decimal(32) == "32";
    assert Decimal(320) == "320";
  }

  lemma Kilo192()
    ensures Decimal(192) + "k" == "192k"
  {
    assert Decimal(1) == "1";
    assert Decimal(19) == "19";
    assert Decimal(192) == "192";
  }

  lemma Kilo128()
    ensures Decimal(128) + "k" == "128k"
  {
    assert Decimal(1) == "1";
    assert Decimal(12) == "12";
    assert Decimal(128) == "128";
  }

  lemma Kilo5000()
    ensures Decimal(5000) + "k" == "5000k"
  {
    assert Decimal(5) == "5";
    assert Decimal(50) == "50";
    assert Decimal(500) == "500";
    assert Decimal(5000) == "5000";
  }

  lemma Kilo2500()
    ensures Decimal(2500) + "k" == "2500k"
  {
    assert Decimal(2) == "2";
    assert Decimal(25) == "25";
    assert Decimal(250) == "250";
    assert Decimal(2500) == "2500";
  }

  lemma Kilo1000()
    ensures Decimal(1000) + "k" == "1000k"
  {
    assert Decimal(1) == "1";
    assert Decimal(10) == "10";
    assert Decimal(100) == "100";
    assert Decimal(1000) == "1000";
  }

  /** The codec options between the input pair and the output name, per target format. */
  function CodecOptions(format: string, e: Encoding): (options: seq<string>)
    ensures format in VideoFormats ==>
              && |options| == 8 && options[0] == "-c:v" && options[4] == "-c:a"
              && options[6] == "-b:a" && options[7] == e.audioBitrate
              && (options[2] == "-b:v" <==> format == "webm")
    ensures format !in VideoFormats ==>
              && |options| >= 3 && options[..2] == ["-vn", "-c:a"]
              && (|options| == 3 <==> format == "wav")
              && (format != "wav" ==> options[3..] == ["-b:a", e.audioBitrate])
  {
    if format in VideoFormats then
      match format
      case "mp4" => ["-c:v", "libx264", "-crf", e.crf, "-c:a", "aac", "-b:a", e.audioBitrate]
      case "mov" => ["-c:v", "libx264", "-crf", e.crf, "-c:a", "aac", "-b:a", e.audioBitrate]
      case "m4v" => ["-c:v", "libx264", "-crf", e.crf, "-c:a", "aac", "-b:a", e.audioBitrate]
      case "webm" => ["-c:v", "libvpx", "-b:v", e.videoBitrate, "-c:a", "libvorbis", "-b:a", e.audioBitrate]
      case "mkv" => ["-c:v", "libx264", "-crf", e.crf, "-c:a", "aac", "-b:a", e.audioBitrate]
      case "avi" => ["-c:v", "libx264", "-crf", e.crf, "-c:a", "mp3", "-b:a", e.audioBitrate]
      case _ => ["-c:v", "libx264", "-crf", e.crf, "-c:a", "aac", "-b:a", e.audioBitrate]
    else
      match format
      case "mp3" => ["-vn", "-c:a", "libmp3lame", "-b:a", e.audioBitrate]
      case "wav" => ["-vn", "-c:a", "pcm_s16le"]
      case "aac" => ["-vn", "-c:a", "aac", "-b:a", e.audioBitrate]
      case "m4a" => ["-vn", "-c:a", "aac", "-b:a", e.audioBitrate]
      case "ogg" => ["-vn", "-c:a", "libvorbis", "-b:a", e.audioBitrate]
      case _ => ["-vn", "-c:a", "aac", "-b:a", e.audioBitrate]
  }

  /** `buildFFmpegArgs`: the input pair, the codec options, the output name. */
  function BuildArgs(input: string, output: string, format: string, level: string): (args: seq<string>)
    ensures |args| >= 4 && args[0] == "-i" && args[1] == input && args[|args| - 1] == output
    ensures format !in VideoFormats <==> args[2] == "-vn"
  {
    ["-i", input] + CodecOptions(format, QualityEncoding(level)) + [output]
  }

  /** An FFmpeg option name: a word that starts with `-`. */
  predicate IsOption(s: string)
  {
    |s| > 0 && s[0] == '-'
  }

  /** How FFmpeg reads an option off a command line: the word after its first occurrence. */
  function OptionValue(args: seq<string>, option: string): Option<string>
    decreases |args|
  {
    if |args| < 2 then None
    else if args[0] == option then Some(args[1])
    else OptionValue(args[1..], option)
  }

  /** The word after the first occurrence of an option is its value. */
  lemma {:induction false} OptionValueAt(args: seq<string>, option: string, i: nat)
    requires i < |args| - 1 && args[i] == option
    requires forall j :: 0 <= j < i ==> args[j] != option
    ensures OptionValue(args, option) == Some(args[i + 1])
    decreases i
  {
    if i > 0 {
      OptionValueAt(args[1..], option, i - 1);
    }
  }

  /** An option that never occurs before the last word has no value. */
  lemma {:induction false} OptionValueAbsent(args: seq<string>, option: string)
    requires forall j :: 0 <= j < |args| - 1 ==> args[j] != option
    ensures OptionValue(args, option) == None
    decreases |args|
  {
    if |args| >= 2 {
      OptionValueAbsent(args[1..], option);
    }
  }

  /** The video half of what FFmpeg reads off an H.264 command line. */
  lemma X264LineVideo(input: string, output: string, crf: string, acodec: string, audioBitrate: string)
    requires !IsOption(input) && !IsOption(output) && !IsOption(crf) && !IsOption(acodec) && !IsOption(audioBitrate)
    ensures var args := ["-i", input, "-c:v", "libx264", "-crf", crf, "-c:a", acodec, "-b:a", audioBitrate, output];
            && OptionValue(args, "-i") == Some(input)
            && OptionValue(args, "-c:v") == Some("libx264")
            && OptionValue(args, "-crf") == Some(crf)
            && OptionValue(args, "-b:v") == None
  {
    var args := ["-i", input, "-c:v", "libx264", "-crf", crf, "-c:a", acodec, "-b:a", audioBitrate, output];
    OptionValueAt(args, "-i", 0);
    OptionValueAt(args, "-c:v", 2);
    OptionValueAt(args, "-crf", 4);
    OptionValueAbsent(args, "-b:v");
  }

  /** The audio half of what FFmpeg reads off an H.264 command line. */
  lemma X264LineAudio(input: string, output: string, crf: string, acodec: string, audioBitrate: string)
    requires !IsOption(input) && !IsOption(output) && !IsOption(crf) && !IsOption(acodec) && !IsOption(audioBitrate)
    ensures var args := ["-i", input, "-c:v", "libx264", "-crf", crf, "-c:a", acodec, "-b:a", audioBitrate, output];
            && OptionValue(args, "-c:a") == Some(acodec)
            && OptionValue(args, "-b:a") == Some(audioBitrate)
            && "-vn" !in args
  {
    var args := ["-i", input, "-c:v", "libx264", "-crf", crf, "-c:a", acodec, "-b:a", audioBitrate, output];
    OptionValueAt(args, "-c:a", 6);
    OptionValueAt(args, "-b:a", 8);
  }

  /** The video half of what FFmpeg reads off a VP8 command line. */
  lemma VpxLineVideo(input: string, output: string, videoBitrate: string, audioBitrate: string)
    requires !IsOption(input) && !IsOption(output) && !IsOption(videoBitrate) && !IsOption(audioBitrate)
    ensures var args := ["-i", input, "-c:v", "libvpx", "-b:v", videoBitrate, "-c:a", "libvorbis", "-b:a", audioBitrate, output];
            && OptionValue(args, "-i") == Some(input)
            && OptionValue(args, "-c:v") == Some("libvpx")
            && OptionValue(args, "-b:v") == Some(videoBitrate)
            && OptionValue(args, "-crf") == None
  {
    var args := ["-i", input, "-c:v", "libvpx", "-b:v", videoBitrate, "-c:a", "libvorbis", "-b:a", audioBitrate, output];
    OptionValueAt(args, "-i", 0);
    OptionValueAt(args, "-c:v", 2);
    OptionValueAt(args, "-b:v", 4);
    OptionValueAbsent(args, "-crf");
  }

  /** The audio half of what FFmpeg reads off a VP8 command line. */
  lemma VpxLineAudio(input: string, output: string, videoBitrate: string, audioBitrate: string)
    requires !IsOption(input) && !IsOption(output) && !IsOption(videoBitrate) && !IsOption(audioBitrate)
    ensures var args := ["-i", input, "-c:v", "libvpx", "-b:v", videoBitrate, "-c:a", "libvorbis", "-b:a", audioBitrate, output];
            && OptionValue(args, "-c:a") == Some("libvorbis")
            && OptionValue(args, "-b:a") == Some(audioBitrate)
            && "-vn" !in args
  {
    var args := ["-i", input, "-c:v", "libvpx", "-b:v", videoBitrate, "-c:a", "libvorbis", "-b:a", audioBitrate, output];
    OptionValueAt(args, "-c:a", 6);
    OptionValueAt(args, "-b:a", 8);
  }

  /** The values FFmpeg reads off an audio-only command line, with or without a bitrate. */
  lemma AudioLineReadBack(input: string, output: string, acodec: string, tail: seq<string>)
    requires !IsOption(input) && !IsOption(output) && !IsOption(acodec)
    requires tail == [] || (|tail| == 2 && tail[0] == "-b:a" && !IsOption(tail[1]))
    ensures var args := ["-i", input, "-vn", "-c:a", acodec] + tail + [output];
            && OptionValue(args, "-i") == Some(input)
            && OptionValue(args, "-c:v") == None
            && OptionValue(args, "-b:v") == None
            && OptionValue(args, "-crf") == None
            && OptionValue(args, "-c:a") == Some(acodec)
            && OptionValue(args, "-b:a") == (if tail == [] then None else Some(tail[1]))
            && "-vn" in args
  {
    var args := ["-i", input, "-vn", "-c:a", acodec] + tail + [output];
    assert args[2] == "-vn";
    OptionValueAt(args, "-i", 0);
    OptionValueAbsent(args, "-c:v");
    OptionValueAbsent(args, "-b:v");
    OptionValueAbsent(args, "-crf");
    OptionValueAt(args, "-c:a", 3);
    if tail == [] {
      OptionValueAbsent(args, "-b:a");
    } else {
      OptionValueAt(args, "-b:a", 5);
    }
  }

  /** The FFmpeg option values of every quality level are values, not options. */
  lemma EncodingValuesAreNotOptions(level: string)
    ensures var e := QualityEncoding(level);
            !IsOption(e.videoBitrate) && !IsOption(e.audioBitrate) && !IsOption(e.crf)
  {
  }

  /**
   * What FFmpeg reads off the built command line: the input; `-vn` exactly for
   * the non-video formats; `libvpx` at the video bitrate for webm only,
   * `libx264` at the quality's CRF for every other video format; and the audio
   * bitrate for every format except wav.
   */
  lemma ArgsReadBack(input: string, output: string, format: string, level: string)
    requires !IsOption(input) && !IsOption(output)
    ensures var args := BuildArgs(input, output, format, level);
            var e := QualityEncoding(level);
            && OptionValue(args, "-i") == Some(input)
            && ("-vn" in args <==> format !in VideoFormats)
            && OptionValue(args, "-c:v") == (if format == "webm" then Some("libvpx") else if format in VideoFormats then Some("libx264") else None)
            && OptionValue(args, "-b:v") == (if format == "webm" then Some(e.videoBitrate) else None)
            && OptionValue(args, "-crf") == (if format in VideoFormats && format != "webm" then Some(e.crf) else None)
            && OptionValue(args, "-b:a") == (if format == "wav" then None else Some(e.audioBitrate))
            && OptionValue(args, "-c:a") == Some(if format == "wav" then "pcm_s16le" else if format == "mp3" then "libmp3lame"
                                                 else if format == "ogg" || format == "webm" then "libvorbis"
                                                 else if format == "avi" then "mp3" else "aac")
  {
    if format in VideoFormats {
      VideoArgsReadBack(input, output, format, level);
    } else {
      AudioArgsReadBack(input, output, format, level);
    }
  }

  /** What FFmpeg reads off the command line of a video target. */
  lemma VideoArgsReadBack(input: string, output: string, format: string, level: string)
    requires !IsOption(input) && !IsOption(output) && format in VideoFormats
    ensures var args := BuildArgs(input, output, format, level);
            var e := QualityEncoding(level);
            && OptionValue(args, "-i") == Some(input)
            && "-vn" !in args
            && OptionValue(args, "-c:v") == Some(if format == "webm" then "libvpx" else "libx264")
            && OptionValue(args, "-b:v") == (if format == "webm" then Some(e.videoBitrate) else None)
            && OptionValue(args, "-crf") == (if format != "webm" then Some(e.crf) else None)
            && OptionValue(args, "-b:a") == Some(e.audioBitrate)
            && OptionValue(args, "-c:a") == Some(if format == "avi" then "mp3" else if format == "webm" then "libvorbis" else "aac")
  {
    var e := QualityEncoding(level);
    EncodingValuesAreNotOptions(level);
    var args := BuildArgs(input, output, format, level);
    var acodec := if format == "avi" then "mp3" else if format == "webm" then "libvorbis" else "aac";
    if format == "webm" {
      assert args == ["-i", input, "-c:v", "libvpx", "-b:v", e.videoBitrate, "-c:a", acodec, "-b:a", e.audioBitrate, output];
      VpxLineVideo(input, output, e.videoBitrate, e.audioBitrate);
      VpxLineAudio(input, output, e.videoBitrate, e.audioBitrate);
    } else {
      assert args == ["-i", input, "-c:v", "libx264", "-crf", e.crf, "-c:a", acodec, "-b:a", e.audioBitrate, output];
      X264LineVideo(input, output, e.crf, acodec, e.audioBitrate);
      X264LineAudio(input, output, e.crf, acodec, e.audioBitrate);
    }
  }

  /** What FFmpeg reads off the command line of an audio target. */
  lemma AudioArgsReadBack(input: string, output: string, format: string, level: string)
    requires !IsOption(input) && !IsOption(output) && format !in VideoFormats
    ensures var args := BuildArgs(input, output, format, level);
            var e := QualityEncoding(level);
            && OptionValue(args, "-i") == Some(input)
            && "-vn" in args
            && OptionValue(args, "-c:v") == None
            && OptionValue(args, "-b:v") == None
            && OptionValue(args, "-crf") == None
            && OptionValue(args, "-b:a") == (if format == "wav" then None else Some(e.audioBitrate))
            && OptionValue(args, "-c:a") == Some(if format == "mp3" then "libmp3lame" else if format == "wav" then "pcm_s16le"
                                                 else if format == "ogg" then "libvorbis" else "aac")
  {
    var e := QualityEncoding(level);
    EncodingValuesAreNotOptions(level);
    var args := BuildArgs(input, output, format, level);
    var acodec := if format == "mp3" then "libmp3lame" else if format == "wav" then "pcm_s16le"
                  else if format == "ogg" then "libvorbis" else "aac";
    var tail := if format == "wav" then [] else ["-b:a", e.audioBitrate];
    assert args == ["-i", input, "-vn", "-c:a", acodec] + tail + [output];
    AudioLineReadBack(input, output, acodec, tail);
  }

  /** The table `getMimeType` consults, keyed by target format. */
  const OutputMimeTypes: map<string, string> := map[
    "mp4" := "video/mp4",
    "mov" := "video/quicktime",
    "avi" := "video/x-msvideo",
    "mkv" := "video/x-matroska",
    "webm" := "video/webm",
    "flv" := "video/x-flv",
    "wmv" := "video/x-ms-wmv",
    "mpeg" := "video/mpeg",
    "mpg" := "video/mpeg",
    "m4v" := "video/x-m4v",
    "3gp" := "video/3gpp",
    "mp3" := "audio/mpeg",
    "wav" := "audio/wav",
    "aac" := "audio/aac",
    "flac" := "audio/flac",
    "ogg" := "audio/ogg",
    "m4a" := "audio/mp4",
    "amr" := "audio/amr"
  ]

  /** `getMimeType`: the table entry for the target format, else `application/octet-stream`. */
  function GetMimeType(format: string): (mime: string)
    ensures mime == OctetStream <==> format !in OutputMimeTypes
    ensures format in OutputMimeTypes ==> mime == OutputMimeTypes[format]
  {
    if format in OutputMimeTypes then OutputMimeTypes[format] else OctetStream
  }

  /**
   * The output type follows the upload lists: every video format gets a
   * `video/` type and every audio format but `alac`, which the table lacks,
   * an `audio/` type.
   */
  lemma OutputTypeMatchesFormatList(format: string)
    ensures format in VideoFormats ==> "video/" <= GetMimeType(format)
    ensures format in AudioFormats && format != "alac" ==> "audio/" <= GetMimeType(format)
    ensures GetMimeType("alac") == OctetStream
  {
  }

  /** The converter's source table is contained in this popup's output table, entry for entry. */
  lemma SourceTableContained()
    ensures forall ext :: ext in SourceMimeTypes ==> ext in OutputMimeTypes && OutputMimeTypes[ext] == SourceMimeTypes[ext]
  {
  }

  /** Every entry of the output table is kept by a `Blob` as written. */
  lemma OutputTypesCanonical(format: string)
    ensures CanonicalMime(GetMimeType(format))
  {
    if format in VideoFormats {
      VideoOutputTypesCanonical(format);
    } else {
      AudioOutputTypesCanonical(format);
    }
  }

  /** The entries for the video formats are lower-case MIME literals. */
  lemma VideoOutputTypesCanonical(format: string)
    requires format in VideoFormats
    ensures CanonicalMime(GetMimeType(format))
  {
    CommonVideoTypesCanonical();
    OtherVideoTypesCanonical();
    assert GetMimeType(format) in {"video/mp4", "video/quicktime", "video/x-msvideo", "video/x-matroska", "video/webm",
                                   "video/x-flv", "video/x-ms-wmv", "video/mpeg", "video/x-m4v", "video/3gpp"};
  }

  /** The video types the converter's source table shares with this table. */
  lemma CommonVideoTypesCanonical()
    ensures CanonicalMime("video/mp4") && CanonicalMime("video/quicktime") && CanonicalMime("video/x-msvideo")
    ensures CanonicalMime("video/x-matroska") && CanonicalMime("video/webm")
  {
  }

  /** The video types only this table has. */
  lemma OtherVideoTypesCanonical()
    ensures CanonicalMime("video/x-flv") && CanonicalMime("video/x-ms-wmv") && CanonicalMime("video/mpeg")
    ensures CanonicalMime("video/x-m4v") && CanonicalMime("video/3gpp")
  {
  }

  /** Every other format gets a lower-case `audio/` literal or `application/octet-stream`. */
  lemma AudioOutputTypesCanonical(format: string)
    requires format !in VideoFormats
    ensures CanonicalMime(GetMimeType(format))
  {
    assert GetMimeType(format) in {"audio/mpeg", "audio/wav", "audio/aac", "audio/flac", "audio/ogg", "audio/mp4", "audio/amr", OctetStream};
  }

  /**
   * The popup's state: the upload, the last output, whether FFmpeg is loaded,
   * and `nameText`, the text of the page's output-file-name element, which the
   * result section shows and the download button names the file by.
   */
  datatype State = State(currentFile: Option<File>, outputBlob: Option<Blob>, ffmpegLoaded: bool,
                         outputFormat: string, nameText: string, view: View)

  /** The popup when it opens; `nameText` is whatever the page's markup puts in the name element. */
  function Opened(outputFormat: string, nameText: string): (s: State)
    ensures s.currentFile.None? && s.outputBlob.None? && !s.ffmpegLoaded && s.view == Blank
    ensures s.outputFormat == outputFormat && s.nameText == nameText
  {
    State(None, None, false, outputFormat, nameText, Blank)
  }

  /** `handleFile`: the file is always kept; an accepted one preselects its default target. */
  function HandleFile(s: State, file: File): (r: State)
    ensures r.currentFile == Some(file)
    ensures r.outputBlob == s.outputBlob && r.ffmpegLoaded == s.ffmpegLoaded
    ensures Classify(file.name).Err? ==> r.view == ErrorShown(UnsupportedMessage) && r.outputFormat == s.outputFormat
    ensures Classify(file.name).Ok? ==> r.view == FileDetails && r.outputFormat == DefaultTarget(Classify(file.name).value)
  {
    match Classify(file.name)
    case Err(message) => s.(currentFile := Some(file), view := ErrorShown(message))
    case Ok(kind) => s.(currentFile := Some(file), view := FileDetails, outputFormat := DefaultTarget(kind))
  }

  /** How the outside world answers one conversion. */
  datatype FfmpegEnv = FfmpegEnv(
    loadError: Option<string>,      // the message loading the library fails with, if it fails
    produced: Result<seq<byte>>)    // the bytes of the output file, or the message running FFmpeg fails with

  /** The prefix of every failure the convert button reports. */
  const FailurePrefix: string := "Conversion failed: "

  /** The message of a failed library load, before the failure's own message. */
  const LoadFailurePrefix: string := "Failed to initialize FFmpeg: "

  /** The name the upload is written under in FFmpeg's file system. */
  function InputName(fileName: string): (name: string)
    ensures "input." <= name
  {
    "input." + Extension(fileName)
  }

  /** The name FFmpeg writes its output under; its extension picks the container. */
  function OutputName(format: string): (name: string)
    ensures "output." <= name
  {
    "output." + format
  }

  /** The outcome of a click: the new state, and the FFmpeg command line run, if one was. */
  datatype Click = Click(state: State, command: Option<seq<string>>)

  /**
   * The convert button: nothing without a file; otherwise load FFmpeg unless it
   * is loaded, run the command for the chosen format and quality, and tag the
   * output with `getMimeType`'s type. There is no in-progress guard. The renamed
   * file name is assigned to the block's own `outputFileName` string, which
   * shadows the page element, so in a classic (non-strict) script the
   * assignment is ignored and the name element keeps its text.
   */
  function ConvertClick(s: State, level: string, env: FfmpegEnv): (r: Click)
    ensures s.currentFile.None? ==> r == Click(s, None)
    ensures r.state.currentFile == s.currentFile && r.state.outputFormat == s.outputFormat
    ensures s.currentFile.Some? ==> r.state.ffmpegLoaded == (s.ffmpegLoaded || env.loadError.None?)
    ensures r.command.Some? <==> s.currentFile.Some? && (s.ffmpegLoaded || env.loadError.None?)
    ensures r.command.Some? ==> r.command.value == BuildArgs(InputName(s.currentFile.value.name), OutputName(s.outputFormat), s.outputFormat, level)
    ensures s.currentFile.Some? && r.command.None? ==> r.state.view == ErrorShown(FailurePrefix + LoadFailurePrefix + env.loadError.value)
    ensures r.state.outputBlob != s.outputBlob ==> r.command.Some? && env.produced.Ok?
    ensures r.command.Some? && env.produced.Ok? ==>
              && r.state.outputBlob == Some(Blob(env.produced.value, GetMimeType(s.outputFormat)))
              && r.state.view == ResultReady(s.nameText)
    ensures r.state.nameText == s.nameText
    ensures r.command.Some? && env.produced.Err? ==> r.state.view == ErrorShown(FailurePrefix + env.produced.error)
  {
    match s.currentFile
    case None => Click(s, None)
    case Some(file) =>
      if !s.ffmpegLoaded && env.loadError.Some? then
        Click(s.(view := ErrorShown(FailurePrefix + LoadFailurePrefix + env.loadError.value)), None)
      else
        var args := BuildArgs(InputName(file.name), OutputName(s.outputFormat), s.outputFormat, level);
        var loaded := s.(ffmpegLoaded := true);
        match env.produced
        case Err(message) => Click(loaded.(view := ErrorShown(FailurePrefix + message)), Some(args))
        case Ok(bytes) =>
          OutputTypesCanonical(s.outputFormat);
          CanonicalMimeKept(GetMimeType(s.outputFormat));
          Click(loaded.(outputBlob := Some(Blob(bytes, BlobType(GetMimeType(s.outputFormat)))),
                        view := ResultReady(s.nameText)), Some(args))
  }

  /** What the download button saves: the output blob under a file name. */
  datatype Saved = Saved(blob: Blob, fileName: string)

  /** The download button: nothing without an output; otherwise the blob, named by the name element's text. */
  function Download(s: State): (d: Option<Saved>)
    ensures d.None? <==> s.outputBlob.None?
    ensures d.Some? ==> d.value == Saved(s.outputBlob.value, s.nameText)
  {
    match s.outputBlob
    case None => None
    case Some(blob) => Some(Saved(blob, s.nameText))
  }

  /**
   * As written, a successful conversion never names its output: `clip.mp4`
   * converted to mp3 is shown and saved under the name element's old text,
   * not under `clip.mp3`.
   */
  lemma RenamedNameNeverShown(nameText: string, bytes: seq<byte>, level: string)
    requires nameText != "clip.mp3"
    ensures var s := Opened("mp3", nameText).(currentFile := Some(File("clip.mp4", bytes)));
            var r := ConvertClick(s, level, FfmpegEnv(None, Ok(bytes))).state;
            && r.view == ResultReady(nameText) && r.view != ResultReady(RenameOutput("clip.mp4", "mp3"))
            && Download(r).value.fileName == nameText
            && RenameOutput("clip.mp4", "mp3") == "clip.mp3"
  {
    RenameReplacesExtension();
  }

  /**
   * The convert button as evidently intended: the same conversion, with the
   * renamed file name written into the page's name element on success.
   */
  function ConvertClickIntended(s: State, level: string, env: FfmpegEnv): (r: Click)
    ensures r.command == ConvertClick(s, level, env).command
    ensures r.state.outputBlob == ConvertClick(s, level, env).state.outputBlob
    ensures r.command.Some? && env.produced.Ok? ==>
              && r.state.nameText == RenameOutput(s.currentFile.value.name, s.outputFormat)
              && r.state.view == ResultReady(r.state.nameText)
    ensures !(r.command.Some? && env.produced.Ok?) ==> r == ConvertClick(s, level, env)
  {
    var written := ConvertClick(s, level, env);
    if written.command.Some? && env.produced.Ok? then
      var name := RenameOutput(s.currentFile.value.name, s.outputFormat);
      Click(written.state.(nameText := name, view := ResultReady(name)), written.command)
    else written
  }

  /**
   * With the intended behaviour, a successful conversion is saved as the
   * produced bytes, typed by `getMimeType`, under a name whose extension is the
   * target format.
   */
  lemma IntendedDownloadNamedByTarget(s: State, level: string, env: FfmpegEnv)
    requires s.currentFile.Some? && (s.ffmpegLoaded || env.loadError.None?) && env.produced.Ok?
    requires '.' !in s.outputFormat
    ensures var d := Download(ConvertClickIntended(s, level, env).state);
            && d.Some?
            && d.value.blob == Blob(env.produced.value, GetMimeType(s.outputFormat))
            && AfterLastDot(d.value.fileName) == s.outputFormat
  {
    RenameGivesExtension(s.currentFile.value.name, s.outputFormat);
  }

  /** The command line names the upload by its own extension and the output by the target format. */
  lemma CommandNamesFiles(s: State, level: string, env: FfmpegEnv)
    requires s.currentFile.Some? && (s.ffmpegLoaded || env.loadError.None?)
    requires '.' !in s.outputFormat
    ensures var command := ConvertClick(s, level, env).command.value;
            && command[1] == InputName(s.currentFile.value.name)
            && Extension(command[1]) == Lower(Extension(s.currentFile.value.name))
            && AfterLastDot(command[|command| - 1]) == s.outputFormat
  {
    var ext := Extension(s.currentFile.value.name);
    ExtensionIsLastSegment(s.currentFile.value.name);
    var r :| IsLastDotSegment(s.currentFile.value.name, r) && ext == Lower(r);
    LowerKeepsDots(r);
    assert InputName(s.currentFile.value.name) == "input" + "." + ext;
    ExtensionOfDotted("input", ext);
    assert OutputName(s.outputFormat) == "output" + "." + s.outputFormat;
    AfterLastDotOfAppended("output", s.outputFormat);
  }

  /** Lower-casing adds no dot. */
  lemma LowerKeepsDots(s: string)
    requires '.' !in s
    ensures '.' !in Lower(s)
  {
    assert forall i :: 0 <= i < |s| ==> LowerChar(s[i]) != '.';
  }

  /** `resetConverter`: forget the upload and the output; a loaded FFmpeg stays loaded. */
  function Reset(s: State): (r: State)
    ensures r.currentFile.None? && r.outputBlob.None? && r.view == Blank
    ensures r.ffmpegLoaded == s.ffmpegLoaded && r.outputFormat == s.outputFormat && r.nameText == s.nameText
  {
    s.(currentFile := None, outputBlob := None, view := Blank)
  }

  /** After a reset the convert button does nothing, whatever the outside world would do. */
  lemma ClickAfterResetIsNoOp(s: State, level: string, env: FfmpegEnv)
    ensures ConvertClick(Reset(s), level, env) == Click(Reset(s), None)
  {
  }

  /** Once loaded, FFmpeg is never loaded again: a later load failure cannot stop a conversion. */
  lemma LoadedStaysLoaded(s: State, level: string, env: FfmpegEnv)
    requires s.ffmpegLoaded && s.currentFile.Some?
    ensures ConvertClick(s, level, env).state.ffmpegLoaded
    ensures ConvertClick(s, level, env).command.Some?
  {
  }
}
