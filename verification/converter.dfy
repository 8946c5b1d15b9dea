/**
 * The converter window (converter.js): its single-flight message handler and
 * its `handleConversion`, whose three recording variants reject on a load
 * error, a 30-second load timeout, a failed negotiation, a failed `play()` or
 * a recorder error, resolve with the finalised blob when playback ends, and
 * never settle when playback stops without ending.
 */
module Converter {
  import opened Common
  import opened Text
  import opened Media
  import opened Negotiation
  import opened Capture
  import opened Messaging

  /** The `Error` message when the media element reports an error. */
  function LoadErrorMessage(v: Variant): string
  {
    if v == AudioToAudio then "Failed to load audio" else "Failed to load video"
  }

  /** The `Error` message when the load timeout fires first. */
  function LoadTimeoutMessage(v: Variant): string
  {
    if v == AudioToAudio then "Audio load timeout" else "Video load timeout"
  }

  /** The `Error` message when `play()` rejects, before the browser's own message. */
  function PlayFailurePrefix(v: Variant): string
  {
    if v == AudioToAudio then "Failed to play audio: " else "Failed to play video: "
  }

  /** The `Error` message when the recorder reports an error. */
  function RecorderFailureMessage(v: Variant): string
  {
    match v
    case VideoToAudio => "Audio extraction failed"
    case AudioToAudio => "Audio conversion failed"
    case VideoToVideo => "Video conversion failed"
  }

  /** One recording run: the recorder it configured (if it got that far) and how its promise settled. */
  datatype Recording = Recording(options: Option<RecorderOptions>, result: Settlement<Blob>)

  /** The metadata arrived before the 30-second timer fired. */
  predicate LoadedInTime(load: LoadOutcome)
  {
    load.MetadataAt? && load.ms < LoadTimeoutMs
  }

  /**
   * `convertVideoToAudio`, `convertAudioToAudio` and `convertVideoToVideo`,
   * which differ only in their messages, their negotiation family and the
   * options of their recorder.
   */
  function RecordVariant(v: Variant, outputFormat: string, quality: string, env: MediaEnv): (r: Recording)
    ensures r.result.Pending? <==> r.options.Some? && env.playback.StoppedWithoutEnd?
    ensures env.load.LoadErrorAt? && env.load.ms < LoadTimeoutMs ==> r.result == Rejected(Some(LoadErrorMessage(v)))
    ensures !env.load.MetadataAt? && !(env.load.LoadErrorAt? && env.load.ms < LoadTimeoutMs) ==> r.result == Rejected(Some(LoadTimeoutMessage(v)))
    ensures env.load.MetadataAt? && env.load.ms >= LoadTimeoutMs ==> r.result == Rejected(Some(LoadTimeoutMessage(v)))
    ensures r.options.Some? <==> LoadedInTime(env.load) && Negotiate(KindOf(v), PreferredMime(v, outputFormat), env.isTypeSupported).chosen.Ok?
    ensures r.options.Some? ==> r.options.value == OptionsFor(v, Negotiate(KindOf(v), PreferredMime(v, outputFormat), env.isTypeSupported).chosen.value, quality)
    ensures LoadedInTime(env.load) && r.options.None? ==> r.result == Rejected(Some(NoFormatMessage(KindOf(v))))
    ensures r.result.Resolved? <==> r.options.Some? && env.playback.PlayedToEnd?
    ensures r.result.Resolved? ==> r.result.value == Finalize(env.playback.events, r.options.value.mimeType)
    ensures r.options.Some? && env.playback.PlayRejected? ==> r.result == Rejected(Some(PlayFailurePrefix(v) + env.playback.reason))
    ensures r.options.Some? && env.playback.RecorderFailed? ==> r.result == Rejected(Some(RecorderFailureMessage(v)))
  {
    if !LoadedInTime(env.load) then
      if env.load.LoadErrorAt? && env.load.ms < LoadTimeoutMs then Recording(None, Rejected(Some(LoadErrorMessage(v))))
      else Recording(None, Rejected(Some(LoadTimeoutMessage(v))))
    else
      var negotiated := Negotiate(KindOf(v), PreferredMime(v, outputFormat), env.isTypeSupported);
      match negotiated.chosen
      case Err(message) => Recording(None, Rejected(Some(message)))
      case Ok(mimeType) =>
        var options := OptionsFor(v, mimeType, quality);
        match env.playback
        case PlayedToEnd(events) => Recording(Some(options), Resolved(Finalize(events, mimeType)))
        case PlayRejected(reason) => Recording(Some(options), Rejected(Some(PlayFailurePrefix(v) + reason)))
        case RecorderFailed(_) => Recording(Some(options), Rejected(Some(RecorderFailureMessage(v))))
        case StoppedWithoutEnd => Recording(Some(options), Pending)
  }

  /** A resolved recording carries the negotiated type, of the variant's family and supported by the runtime. */
  lemma RecordedMimeFamily(v: Variant, outputFormat: string, quality: string, env: MediaEnv)
    ensures var r := RecordVariant(v, outputFormat, quality, env);
            r.result.Resolved? ==>
              && r.result.value.mimeType == r.options.value.mimeType
              && r.result.value.mimeType in Candidates(KindOf(v), PreferredMime(v, outputFormat))
              && env.isTypeSupported(r.result.value.mimeType)
              && (v == VideoToVideo ==> "video/" <= r.result.value.mimeType)
              && (v != VideoToVideo ==> "audio/" <= r.result.value.mimeType)
  {
    NegotiatedMimeFamily(v, outputFormat, env.isTypeSupported);
  }

  /**
   * `handleConversion`: type the source from its name, dispatch on the
   * variant, and describe the result blob as `{data, mimeType, size}`.
   */
  function HandleConversion(request: Request, env: MediaEnv): (s: Settlement<ConversionData>)
    ensures s.Pending? <==> RecordVariant(SelectVariant(request.fileName, request.outputFormat), request.outputFormat,
                                          request.quality, env).options.Some? && env.playback.StoppedWithoutEnd?
    ensures s.Resolved? ==> env.playback.PlayedToEnd? && LoadedInTime(env.load)
    ensures s.Resolved? ==> s.value.data == Concat(env.playback.events) && s.value.size == TotalSize(env.playback.events)
    ensures s.Resolved? ==> s.value.mimeType in Candidates(KindOf(SelectVariant(request.fileName, request.outputFormat)),
                                                         PreferredMime(SelectVariant(request.fileName, request.outputFormat), request.outputFormat))
    ensures s.Resolved? ==> env.isTypeSupported(s.value.mimeType)
    ensures s.Resolved? && request.outputFormat in AudioTargets ==> "audio/" <= s.value.mimeType
    ensures s.Resolved? && request.outputFormat !in AudioTargets ==> "video/" <= s.value.mimeType
  {
    var v := SelectVariant(request.fileName, request.outputFormat);
    var recording := RecordVariant(v, request.outputFormat, request.quality, env);
    RecordedMimeFamily(v, request.outputFormat, request.quality, env);
    match recording.result
    case Resolved(blob) => Resolved(Describe(blob))
    case Rejected(message) => Rejected(message)
    case Pending => Pending
  }

  /** The state of the converter window's script. */
  datatype WindowState = WindowState(isProcessing: bool, conversionData: Option<Request>)

  /** The window's state when its script loads. */
  const InitialWindow: WindowState := WindowState(false, None)

  /** What the listener does with the response channel of a message. */
  datatype Reply =
    | NoReply                   // the listener does not handle the action
    | ReplyNow(response: Response)  // `sendResponse` is called before the listener returns
    | ReplyLater                // a conversion started; the response comes when it settles

  /** The response of a `startConversion` that arrives while a conversion runs. */
  const AlreadyProcessing: Response := Failure(Some("Already processing"))

  /**
   * The `onMessage` listener: a `startConversion` is refused while a conversion
   * runs and otherwise starts one; every other action is ignored.
   */
  function Receive(s: WindowState, msg: Message): (r: (WindowState, Reply))
    ensures msg.StartConversion? && s.isProcessing ==> r == (s, ReplyNow(AlreadyProcessing))
    ensures msg.StartConversion? && !s.isProcessing ==> r.0 == WindowState(true, msg.data) && r.1 == ReplyLater
    ensures !msg.StartConversion? ==> r == (s, NoReply)
    ensures r.0.isProcessing
            || (r.0 == s && !s.isProcessing)
  {
    match msg
    case StartConversion(data) =>
      if s.isProcessing then (s, ReplyNow(AlreadyProcessing))
      else (WindowState(true, data), ReplyLater)
    case _ => (s, NoReply)
  }

  /** The error a `startConversion` without `data` fails with (V8's message for destructuring `undefined`). */
  const MissingDataMessage: string := "Cannot destructure property 'fileData' of 'undefined' as it is undefined."

  /** `handleConversion(request.data)`, including the call with no `data` at all. */
  function Conversion(data: Option<Request>, env: MediaEnv): (s: Settlement<ConversionData>)
    ensures s.Pending? ==> data.Some? && env.playback.StoppedWithoutEnd? && LoadedInTime(env.load)
    ensures data.None? ==> s == Rejected(Some(MissingDataMessage))
  {
    match data
    case None => Rejected(Some(MissingDataMessage))
    case Some(request) => HandleConversion(request, env)
  }

  /**
   * The `.then` / `.catch` continuations: whichever way the conversion
   * settled, `isProcessing` is false again and the response mirrors the outcome.
   */
  function Settle(s: WindowState, outcome: Settlement<ConversionData>): (r: (WindowState, Response))
    requires s.isProcessing && !outcome.Pending?
    ensures !r.0.isProcessing && r.0.conversionData == s.conversionData
    ensures outcome.Resolved? ==> r.1 == Done(outcome.value)
    ensures outcome.Rejected? ==> r.1 == Failure(outcome.message)
  {
    var idle := s.(isProcessing := false);
    match outcome
    case Resolved(data) => (idle, Done(data))
    case Rejected(message) => (idle, Failure(message))
  }

  /** Start then settle: from an idle window a conversion that settles leaves the window idle again. */
  lemma StartThenSettleIsIdle(s: WindowState, data: Option<Request>, env: MediaEnv)
    requires !s.isProcessing
    ensures var started := Receive(s, StartConversion(data)).0;
            started.isProcessing && (Conversion(data, env).Pending? || !Settle(started, Conversion(data, env)).0.isProcessing)
  {
  }

  /**
   * A playback that stops without `ended` after the type was negotiated never
   * settles: `isProcessing` stays set and every later `startConversion` is refused.
   */
  lemma StoppedPlaybackBlocksWindow(s: WindowState, request: Request, env: MediaEnv, later: Option<Request>)
    requires !s.isProcessing && env.playback.StoppedWithoutEnd? && LoadedInTime(env.load)
    requires Negotiate(KindOf(SelectVariant(request.fileName, request.outputFormat)),
                       PreferredMime(SelectVariant(request.fileName, request.outputFormat), request.outputFormat),
                       env.isTypeSupported).chosen.Ok?
    ensures var started := Receive(s, StartConversion(Some(request))).0;
            && Conversion(Some(request), env).Pending?
            && Receive(started, StartConversion(later)) == (started, ReplyNow(AlreadyProcessing))
  {
  }

  /** Something that happens to the converter window. */
  datatype WindowEvent =
    | Deliver(msg: Message)     // a message reaches the listener
    | Finish(env: MediaEnv)     // the running conversion, recorded in `conversionData`, settles in `env`

  /** The window after a sequence of events, with the conversions started and finished so far. */
  datatype Tally = Tally(state: WindowState, started: nat, finished: nat, refused: nat)

  /** Replays events from `t`; a `Finish` with no conversion running, or in an outcome that never settles, changes nothing. */
  function Replay(t: Tally, events: seq<WindowEvent>): Tally
    decreases |events|
  {
    if |events| == 0 then t
    else
      var e := events[|events| - 1];
      var before := Replay(t, events[..|events| - 1]);
      match e
      case Deliver(msg) =>
        var (next, reply) := Receive(before.state, msg);
        Tally(next, before.started + (if reply.ReplyLater? then 1 else 0),
              before.finished, before.refused + (if reply == ReplyNow(AlreadyProcessing) then 1 else 0))
      case Finish(env) =>
        if before.state.isProcessing && !Conversion(before.state.conversionData, env).Pending? then
          var (next, _) := Settle(before.state, Conversion(before.state.conversionData, env));
          Tally(next, before.started, before.finished + 1, before.refused)
        else before
  }

  /**
   * Single flight: over any history, the conversions started but not yet
   * finished number exactly one while `isProcessing` holds and zero otherwise.
   */
  lemma {:induction false} SingleFlight(events: seq<WindowEvent>)
    ensures var t := Replay(Tally(InitialWindow, 0, 0, 0), events);
            t.started == t.finished + (if t.state.isProcessing then 1 else 0)
    decreases |events|
  {
    if |events| > 0 {
      SingleFlight(events[..|events| - 1]);
    }
  }
}
