# Media converter extension: the decision core, in Dafny

The extension converts an uploaded audio or video file to another container
in the browser. There are two ways it does this.

- **Recorder pipeline.** A popup (`popup.js`) sends the file to an offscreen
  document (`offscreen.js`). A converter window (`converter.js`) runs the same
  pipeline. Either one types the source by its extension. It picks one of three
  conversion shapes and negotiates a container the browser's `MediaRecorder`
  can write. It then plays the source into the recorder and finalises the
  non-empty chunks into a blob. A background worker (`background.js`) keeps a
  "conversion in progress" flag and the converter window's record.
- **FFmpeg.wasm popup** (`popup-alternative.js`). It builds an FFmpeg command
  line from the target format and the quality level. It tags the output with a
  type from its own table.

This project models the parts of that behaviour that are decisions:

- extension extraction and lower-casing, and the lookup tables;
- the variant dispatch and the MIME negotiation;
- the chunk fold and the blob it produces;
- the FFmpeg argument builder;
- the output rename;
- the state machines that guard a job: the converter window's `isProcessing`,
  the worker's flag and window record, and the popup's `isConverting`.

Browser capabilities are parameters:

- `MediaRecorder.isTypeSupported` is a function `string -> bool`.
- Whether and when the media element reports its metadata is a `LoadOutcome`.
- How playback and recording end, with the recorder's payloads, is a
  `PlaybackOutcome`.
- Whether FFmpeg loads and what it produces is an `FfmpegEnv`.
- What a message gets as its answer is an `Answer`.

Modules follow the program's files:

| module | models |
|---|---|
| `Common` | `Option`, `Result`, bytes |
| `Text` | `split('.').pop()`, `toLowerCase()`, the `Blob` type normalisation |
| `Rename` | `name.replace(/\.[^/.]+$/, '') + '.' + ext` |
| `Media` | the tables and the dispatch that `converter.js` and `offscreen.js` both carry. Their helper functions are identical copies, so they are defined once. |
| `Negotiation` | the three-step MIME fallback |
| `Capture` | requests, the browser outcomes, the chunk fold, finalisation, the progress sample |
| `Messaging` | the `chrome.runtime` messages and responses, as values |
| `Converter` | `converter.js` |
| `Offscreen` | `offscreen.js` |
| `Background` | `background.js` |
| `Uploads` | the format lists and `handleFile` classification shared by both popups |
| `Popup` | `popup.js` |
| `FfmpegPopup` | `popup-alternative.js` |

Behaviour of the code that the model makes explicit:

- **Unknown extensions.** An audio source with a video target is not rejected;
  it goes video to video. The same holds for unknown source extensions and for
  `aac`/`flac` targets.
- **Popup accepts more than the converter recognises.** The popups accept
  `flv`, `wmv`, `mpeg`, `mpg`, `m4v` and `3gp` as video. The converter's table
  types them `application/octet-stream`, so an audio target takes the
  audio-to-audio path.
- **Load timeout.** The converter window gives up loading after a fixed
  30000 ms. The offscreen document has no timeout. A source that never loads
  leaves its promise, and so the popup, waiting forever, with `isConverting`
  and the worker's flag both still set.
- **Unhandled `play()`.** The offscreen document does not handle a rejected
  `play()`. That conversion also never settles.
- **Load error.** An offscreen load error rejects with the `error` event itself,
  which has no `message`. The popup then shows the bare text
  `Conversion failed: `.
- **Playback that stops without ending.** Both documents settle only on
  `ended`, a rejected `play()` (converter window only) or a recorder error.
  Playback that stops otherwise, a decode error part-way through say, leaves
  the conversion waiting. The converter window then keeps `isProcessing` set
  and refuses every later `startConversion`.
- **No single flight in the worker.** The worker's flag does not enforce single
  flight. Only the converter window refuses a second `startConversion`.
- **The FFmpeg popup never names its output.** The convert handler declares a
  block-local `outputFileName` string, which shadows the page's name element.
  The renamed name is therefore never shown, and the download is saved under
  the element's unchanged text (see Findings).

## Model

| member | source | states |
|---|---|---|
| `Text.Split` | converter.js:389 | `split` returns at least one piece, and no piece contains the separator |
| `Text.JoinSplit` | converter.js:389 | splitting loses nothing: joining the pieces with the separator gives back the input |
| `Text.AfterLastDotIsLastSegment` | converter.js:389 | `split('.').pop()` is exactly the dot-free suffix after the last dot, or the whole name when there is no dot |
| `Text.LastDotSegmentUnique` | converter.js:389 | at most one suffix of a name follows its last dot |
| `Text.NoDotIsWholeName` | popup.js:83 | a name without a dot is its own extension |
| `Text.AfterLastDotOfAppended` | popup.js:205 | appending `.` and a dot-free text makes that text the extension |
| `Text.Lower` | converter.js:389 | `toLowerCase` keeps the length and lowers each ASCII capital and the Kelvin sign |
| `Text.LowerIdempotent` | converter.js:389 | lower-casing twice is lower-casing once |
| `Text.LowerHasNoCapitals` | popup.js:83 | a lower-cased extension holds no ASCII capital, so lookups are case-insensitive |
| `Text.AfterLastDot` | converter.js:389 | the text after the last dot holds no dot |
| `Text.BlobType` | converter.js:49 | a `Blob` records a printable-ASCII type lower-cased, at its own length, and any other type as empty; what it records is always printable ASCII |
| `Text.CanonicalMimeKept` | converter.js:142 | every lower-case MIME literal the extension writes is recorded by a `Blob` unchanged |
| `Text.BlobTypeIdempotent` | popup.js:194 | a blob built from another blob's type keeps that type |
| `Rename.ExtensionMatchUnique` | popup.js:205 | `/\.[^/.]+$/` can match at only one position, so "first match" is "the match" |
| `Rename.StripExtension` | popup.js:205 | the regex replace removes exactly the matched final `.X` and leaves an unmatched name unchanged |
| `Rename.RenameOutput` | popup-alternative.js:186 | the new name starts with the stripped source name, and its extension is the target format whenever the format has no dot |
| `Rename.RenameGivesExtension` | popup-alternative.js:186 | the renamed file's extension is the target format |
| `Rename.RenameIdempotent` | popup-alternative.js:186 | renaming an already renamed file to the same format changes nothing |
| `Rename.StripIsPrefix` | popup.js:205 | the rename only removes a suffix that starts with a dot |
| `Rename.RenameReplacesExtension` | popup-alternative.js:186 | `clip.mp4` becomes `clip.mp3` |
| `Rename.RenameKeepsInnerDots` | popup-alternative.js:186 | `a.b.c` becomes `a.b.mp3` |
| `Rename.RenameAppendsWithoutDot` | popup-alternative.js:186 | `noext` becomes `noext.mp3` |
| `Rename.RenameIgnoresDotBeforeSlash` | popup.js:205 | a dot before a `/` is not an extension: `dir.v/f` becomes `dir.v/f.mp3` |
| `Rename.RenameKeepsTrailingDot` | popup.js:205 | a trailing dot with nothing after it is kept: `end.` becomes `end..mp3` |
| `Media.Extension` | converter.js:389 | the extension holds no dot and no ASCII capital, and is as long as the text after the last dot |
| `Media.ExtensionIsLastSegment` | converter.js:389 | the source extension is the lower-cased text after the last dot, or the whole lower-cased name |
| `Media.SourceMimeType` | converter.js:388-402 | the table's entry for the lower-cased extension when it has one, and `application/octet-stream` exactly when it has none; always recorded as written |
| `Media.IsSourceVideo` | converter.js:49-52 | the blob's type starts with `video/` exactly when the extension is one of the table's video extensions (mp4, webm, mkv, avi, mov), in any letter case |
| `Media.UnknownSourceIsNotVideo` | offscreen.js:302-316 | an extension not in the table is never classed as video |
| `Media.SelectVariant` | converter.js:52-66 | video to audio iff video source and audio target; audio to audio iff non-video source and audio target; video to video iff the target is not an audio format |
| `Media.AudioSourceToVideoTargetIsVideoToVideo` | offscreen.js:20-34 | audio sources with mp4, aac or flac targets go video to video; nothing is rejected |
| `Media.UpperCaseVideoIsVideo` | converter.js:389 | `CLIP.MP4` to mp3 extracts audio |
| `Media.AudioMimeType` | converter.js:404-412 | an `audio/` type; the opus webm default exactly for formats outside the audio targets |
| `Media.VideoMimeType` | converter.js:414-421 | a `video/` type; `video/mp4` exactly for mp4, VP9/Opus webm for everything else (mkv included) |
| `Media.AudioBitrate` | converter.js:423-430 | one of 128000, 192000, 320000 bits per second |
| `Media.VideoBitrate` | converter.js:432-439 | one of 1000000, 2500000, 5000000 bits per second |
| `Media.BitratesOrderedByTier` | offscreen.js:337-353 | high > medium > low for both tracks, with the table's values; an unknown tier gets medium's bitrate, and only an unknown or medium tier does |
| `Media.PreferredMime` | converter.js:309 | the preferred type is of the variant's family and recorded as written |
| `Media.OptionsFor` | converter.js:322-330 | the recorder gets the negotiated type and the quality's audio bitrate; a video bitrate only for video to video |
| `Media.NegotiatedMimeFamily` | converter.js:114-126 | a negotiated type is a candidate of the variant's family, recorded by a `Blob` unchanged |
| `Negotiation.Negotiate` | converter.js:114-126 | 1 to 3 queries in candidate order; the result is the first supported candidate; the error carries "No supported audio/video format found" exactly when none is supported |
| `Negotiation.FirstSupported` | converter.js:309-320 | reference definition: the first supported element, or none exactly when no element is supported |
| `Negotiation.NegotiateIsFirstSupported` | offscreen.js:236-247 | the fallback chain equals the first-supported reference definition |
| `Negotiation.FallbacksKeepKind` | converter.js:118-121 | the fallbacks are of the requested family and are recorded as written |
| `Capture.ConcatSize` | converter.js:142 | the size of the concatenated chunks is the sum of their sizes |
| `Capture.NonEmpty` | converter.js:135-139 | the kept payloads are all non-empty and no more than those delivered |
| `Capture.NonEmptyKeepsBytes` | converter.js:135-139 | dropping empty payloads loses no byte |
| `Capture.NonEmptyKeepsAllNonEmpty` | offscreen.js:94-98 | a run of non-empty payloads is kept whole, in order |
| `Capture.CollectChunks` | converter.js:135-139 | the handler's loop keeps exactly the non-empty payloads, in arrival order, with all recorded bytes |
| `Capture.Finalize` | converter.js:141-147 | the blob holds the chunks' bytes in order, its size is the sum of the chunk sizes, and it is tagged with the negotiated type |
| `Capture.Describe` | converter.js:73-77 | `{data, mimeType, size}` mirrors the blob, and `size` is the length of `data` |
| `Capture.EmptyRecordingFinalises` | offscreen.js:100-104 | a recording with no or only empty payloads still resolves, with an empty blob |
| `Capture.FractionOfDuration` | converter.js:165 | a current time within the duration is a fraction of it between 0 and 1 |
| `Capture.ProgressPercent` | converter.js:163-167 | no update exactly when the duration is 0 or NaN; otherwise the percentage times the duration is the current time times 100, within 0 to 100 |
| `Converter.RecordVariant` | converter.js:85-183 | a load error or the 30 s timeout rejects with the variant's message; a failed negotiation rejects with its message; once the recorder is configured, a rejected `play()` or a recorder error rejects, playing to the end resolves with the finalised blob, and playback that stops without `ended` leaves it pending, the only pending case |
| `Converter.RecordedMimeFamily` | converter.js:114-146 | a resolved recording carries a supported candidate type of the variant's family |
| `Converter.HandleConversion` | converter.js:44-82 | pending exactly when the recorder was configured and playback stopped without `ended`; a success holds the recorded bytes and their total size, under a supported type that is `audio/` for audio targets and `video/` otherwise |
| `Converter.Receive` | converter.js:16-42 | `startConversion` while processing is refused with "Already processing" and changes nothing; otherwise it starts processing with the message's data; other actions are ignored |
| `Converter.Conversion` | converter.js:28 | a `startConversion` without data rejects, with the destructuring error; a conversion stays pending only with data, a timely load and playback that stops without `ended` |
| `Converter.Settle` | converter.js:29-38 | whichever way the conversion settles, `isProcessing` is false again and the response mirrors the outcome |
| `Converter.StartThenSettleIsIdle` | converter.js:23-38 | from an idle window, a start sets `isProcessing`, and a conversion that settles leaves the window idle again |
| `Converter.StoppedPlaybackBlocksWindow` | converter.js:157-177 | playback that stops without `ended` after negotiation leaves the conversion pending, and every later `startConversion` is refused |
| `Converter.SingleFlight` | converter.js:17-24 | over any history, conversions started minus finished is 1 while processing and 0 otherwise |
| `Offscreen.RecordVariant` | offscreen.js:51-127 | a load error rejects with no message; no load event, a rejected `play()` or playback that stops without `ended` leaves it pending; a recorder error appends its own text |
| `Offscreen.HandleConversion` | offscreen.js:14-48 | pending exactly when loading or recording never settles; a success holds the recorded bytes under a supported type of the target's family |
| `Offscreen.Receive` | offscreen.js:5-12 | every `convert` is handled with no single-flight check, and answered once settled with success and data or failure and message |
| `Offscreen.AgreesWithConverter` | offscreen.js:20-34 | where the media loads in time and plays to the end or no type is supported, both documents settle identically |
| `Offscreen.WaitsWhereConverterTimesOut` | offscreen.js:58-61 | without a load event the offscreen conversion stays pending while the converter's times out |
| `Offscreen.BothWaitWhenPlaybackStops` | offscreen.js:112-121 | playback that stops without `ended` after negotiation leaves both documents pending, and the offscreen caller gets no answer |
| `Offscreen.LoadErrorHasNoMessage` | offscreen.js:136-139 | a load error is answered as a failure with no message |
| `Background.Receive` | background.js:6-40 | start sets and complete clears the flag with success; status reports the flag and changes nothing; open returns the recorded window or creates one; close removes and forgets it and answers success; window actions never touch the flag |
| `Background.WindowRemoved` | background.js:43-47 | the record is cleared only when the removed window is the recorded one |
| `Background.StartIsNotSingleFlight` | background.js:7-9 | a second `startConversion` is accepted like the first |
| `Background.StatusQueryIdempotent` | background.js:13-14 | asking twice answers the same and changes nothing |
| `Background.OpenTwiceCreatesOnce` | background.js:15-31 | opening twice creates one window and answers its id both times |
| `Background.FlagIsLastWritten` | background.js:7-14 | over any history, the flag is what the latest start or complete wrote; window messages and removals never change it |
| `Background.RecordedWindowWasCreated` | background.js:15-31 | a recorded window was created by a step of the history that handled `openConverterWindow` by creating a window with that id, and no later step created another |
| `Uploads.Classify` | popup.js:83-90 | video iff the extension is a video format, audio iff an audio format, unsupported with the fixed message iff neither |
| `Uploads.DefaultTarget` | popup.js:102-106 | video preselects mp4, which is a video format; audio preselects mp3, which is an audio format and an audio target |
| `Uploads.FormatListsDisjoint` | popup-alternative.js:33-34 | no extension is in both lists |
| `Uploads.TableExtensionsAreAccepted` | popup.js:30-31 | every extension the converter's table knows is accepted by the popups with the same kind |
| `Uploads.AcceptedVideoNotRecognised` | popup-alternative.js:114-130 | `clip.flv` is accepted as video but typed `application/octet-stream` by the converter, which then converts it audio to audio |
| `FfmpegPopup.QualityEncoding` | popup-alternative.js:201-216 | high is (5000k, 320k, 18), low is (1000k, 128k, 28), everything else is (2500k, 192k, 23) |
| `FfmpegPopup.EncodingAgreesWithRecorder` | popup-alternative.js:201-216 | for every quality string, FFmpeg's `k` bitrates are the recorder's bits per second in thousands |
| `FfmpegPopup.BuildArgs` | popup-alternative.js:196-259 | the command starts with `-i input`, ends with the output name, and has `-vn` right after the input exactly for non-video formats |
| `FfmpegPopup.OptionValueAt` | popup-alternative.js:257-258 | the word after an option's first occurrence is its value |
| `FfmpegPopup.OptionValueAbsent` | popup-alternative.js:257-258 | an option that never occurs has no value |
| `FfmpegPopup.CodecOptions` | popup-alternative.js:218-255 | a video format gets eight words, a video codec, `-b:v` only for webm, then `-c:a` and the audio bitrate; any other format gets `-vn -c:a` and its codec, plus the audio bitrate for every format but wav |
| `FfmpegPopup.ArgsReadBack` | popup-alternative.js:218-255 | FFmpeg reads back the input; `-vn` iff non-video; `libvpx` at the video bitrate only for webm; `libx264` at the CRF for other video; `-c:a` is `pcm_s16le` for wav, `libmp3lame` for mp3, `libvorbis` for ogg and webm, `mp3` for avi and `aac` otherwise; the audio bitrate for every format but wav |
| `FfmpegPopup.GetMimeType` | popup-alternative.js:261-283 | the table entry, and `application/octet-stream` exactly for formats outside the table |
| `FfmpegPopup.OutputTypeMatchesFormatList` | popup-alternative.js:261-283 | every video format gets a `video/` type, every audio format but `alac` an `audio/` type; `alac` gets `application/octet-stream` |
| `FfmpegPopup.SourceTableContained` | popup-alternative.js:262-281 | the converter's source table is contained entry for entry in this table |
| `FfmpegPopup.OutputTypesCanonical` | popup-alternative.js:176 | every output type is recorded by the `Blob` as written |
| `FfmpegPopup.Opened` | popup-alternative.js:4-7 | no upload, no output, FFmpeg not loaded, nothing shown; the format menu and the name element as the page gives them |
| `FfmpegPopup.HandleFile` | popup-alternative.js:111-131 | the file is always kept; an unsupported one shows the error; an accepted one preselects its default target |
| `FfmpegPopup.InputName` | popup-alternative.js:162 | the upload is written as `input.` plus its extension |
| `FfmpegPopup.OutputName` | popup-alternative.js:163 | FFmpeg writes `output.` plus the target format |
| `FfmpegPopup.ConvertClick` | popup-alternative.js:141-194 | nothing without a file; a load failure reports "Failed to initialize FFmpeg" and runs nothing; otherwise it runs the built command; the output blob changes only on success, typed by `getMimeType`; success shows the result with the name element's text unchanged |
| `FfmpegPopup.Download` | popup-alternative.js:285-296 | nothing without an output; otherwise the output blob, saved under the name element's text |
| `FfmpegPopup.RenamedNameNeverShown` | popup-alternative.js:163-187 | `clip.mp4` converted to mp3 is shown and saved under the name element's old text, although the rename yields `clip.mp3` |
| `FfmpegPopup.ConvertClickIntended` | popup-alternative.js:186-187 | the same command and output blob as the click; on success the name element holds the renamed name and the result shows it |
| `FfmpegPopup.IntendedDownloadNamedByTarget` | popup-alternative.js:176-187 | with the rename written to the element, a successful conversion is saved as the produced bytes, typed by `getMimeType`, under a name whose extension is the target format |
| `FfmpegPopup.CommandNamesFiles` | popup-alternative.js:158-169 | the command's input has the upload's extension and its output the target format |
| `FfmpegPopup.Reset` | popup-alternative.js:301-311 | the upload and output are forgotten; a loaded FFmpeg stays loaded |
| `FfmpegPopup.ClickAfterResetIsNoOp` | popup-alternative.js:142 | after a reset the convert button does nothing |
| `FfmpegPopup.LoadedStaysLoaded` | popup-alternative.js:37-38 | once FFmpeg is loaded, it is not loaded again and a click always runs a command |
| `Popup.Opened` | popup.js:34-38 | the progress section shows on opening exactly when the worker reports a conversion in progress |
| `Popup.FailureMessage` | popup.js:189-194 | a failure's own message, empty for a failure without one; the missing-`data` error for a success without data |
| `Popup.HandleFile` | popup.js:79-107 | the file is always kept; an unsupported one shows the error; an accepted one preselects its default target |
| `Popup.Animate` | popup.js:165-171 | painted widths stay within 0 to 90 and never decrease; progress stays below 100; ticks stop painting only once progress reaches 90 |
| `Popup.BarWidth` | popup.js:153-169 | the bar before completion is between 0% and 90% |
| `Popup.ConvertClick` | popup.js:136-217 | a no-op without a file or while converting; otherwise `startConversion` then `convert`, and `conversionComplete` last exactly when an answer comes; the output blob changes only on success; success paints 100% and names the renamed file; failures show "Conversion failed: " and the message |
| `Popup.Reset` | popup.js:246-257 | the upload, the output and the guard are cleared |
| `Popup.ClickAfterResetIsNoOp` | popup.js:137 | after a reset the convert button does nothing |
| `Popup.StuckUntilReset` | popup.js:137-140 | a click that never gets an answer leaves the guard set, refusing every later click |
| `Popup.BackgroundFlagFollowsClick` | popup.js:143-215 | after a click, the worker's flag is false exactly when the answer came, and its window record is untouched |
| `Popup.ConversionReachesPopup` | popup.js:177-207 | when the offscreen conversion resolves, the popup's blob holds the recorded bytes under the negotiated, supported type, with 100% and the renamed name |
| `Popup.NoLoadLeavesPopupConverting` | popup.js:177-185 | a source that never loads leaves the popup converting and the worker's flag set |
| `Popup.LoadErrorShowsBarePrefix` | popup.js:189-212 | an offscreen load error is shown as the bare `Conversion failed: ` |

## Findings

| source | as written | input that shows it | evidently intended | confidence | as-written member | corrected member |
|---|---|---|---|---|---|---|
| popup-alternative.js:163-187 | the block-local `const outputFileName` (line 163) shadows the name element of line 24, so line 187 sets a property on a string and the element keeps its text, which the download at line 291 uses | `clip.mp4` converted to mp3 | the result shows, and the download saves, `clip.mp3` | not executed; high | `FfmpegPopup.RenamedNameNeverShown` | `FfmpegPopup.ConvertClickIntended` |

`FfmpegPopup.IntendedDownloadNamedByTarget` proves the corrected click's
download is named with the target format's extension.

## Left out

- DOM presentation is not modelled. This covers display toggling, drag and
  drop, the download anchor, `beforeunload`, `updateStatus` texts and
  `formatBytes`, which uses floating-point logarithms. Only the section a popup
  shows and the text its logic computes for it are kept.
- Browser media internals (`MediaRecorder`, `AudioContext`, canvas capture,
  `drawImage`, `requestAnimationFrame`) are not modelled. They appear only as
  their observable outcomes: the capability predicate, the load outcome and the
  payloads delivered.
- Timers are reduced to the converter's 30000 ms constant and to the order of
  events. The 500 ms grace periods, the interval periods and `toFixed(0)`
  rounding are left out.
- `chrome.runtime` messaging is treated as delivering values intact. Its JSON
  serialisation of `ArrayBuffer` payloads is platform behaviour outside the
  code and is not modelled.
- Failures of the host APIs `getContexts`, `offscreen.createDocument`,
  `file.arrayBuffer()` and `chrome.windows` are not modelled.
- Exceptions thrown synchronously inside a conversion's `try` are left out.
  One example is an `AudioContext` that cannot be constructed; its rejection
  path is the generic one.
- FFmpeg.wasm loading from the CDN, its virtual file system and `exec` are
  outcomes supplied as `FfmpegEnv`. The load error's text is a parameter.
- Async races are not modelled: two `openConverterWindow` calls before the
  creation callback, a reset during the 500 ms result timeout, a second click
  in the FFmpeg popup while one runs, and a popup `startConversion` also
  reaching an open converter window. Each handler runs atomically.
- Property lookups on plain objects see inherited keys such as `constructor`.
  The model's tables have own keys only. Target formats come from the popup's
  menus and never name an inherited key. A source named `x.constructor` gets a
  type that does not start with `video/`, so the dispatch is the same.
- `Text.Lower` lowers ASCII capitals and the Kelvin sign only. Every other
  non-ASCII character is kept, which is exact for lookups in the ASCII-keyed
  tables and lists. It is not exact for the FFmpeg input name of a file with a
  non-ASCII extension.
- `Text.BlobType` does not model the code-unit view of JavaScript strings:
  characters outside the Basic Multilingual Plane are one `char` here.
- `Popup.ConvertClick` takes the progress ticks before the answer as a
  sequence of steps. It does not model ticks that continue after the answer
  never comes.
- The popup scripts are taken to be classic, non-strict scripts. In strict
  mode the assignment at popup-alternative.js:187 would throw a `TypeError`
  after the output blob is set, and the popup would report a failure instead.
- Resource release is not modelled: `revokeObjectURL`, removing the media
  element, closing the `AudioContext`, stopping tracks and deleting FFmpeg's
  files. None of them affects a decision or a result.
