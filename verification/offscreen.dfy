/**
 * The offscreen document (offscreen.js): the same dispatch, negotiation and
 * chunk fold as the converter window, but with no single-flight guard, no
 * load timeout, an unhandled `play()` rejection, a load error that carries no
 * message, and recorder errors that append the recorder's own error text.
 */
module Offscreen {
  import opened Common
  import opened Text
  import opened Media
  import opened Negotiation
  import opened Capture
  import opened Messaging
  import Converter

  /** The `Error` message when the recorder reports an error, before the error's own text. */
  function RecorderFailurePrefix(v: Variant): string
  {
    match v
    case VideoToAudio => "Audio extraction failed: "
    case AudioToAudio => "Audio conversion failed: "
    case VideoToVideo => "Video conversion failed: "
  }

  /**
   * The three conversion functions of the offscreen document. A load error
   * rejects with the `error` event itself, which has no `message`; a load that
   * never reports, a `play()` that rejects, or a playback that stops without
   * ending leaves the promise pending.
   */
  function RecordVariant(v: Variant, outputFormat: string, quality: string, env: MediaEnv): (r: Converter.Recording)
    ensures env.load.LoadErrorAt? ==> r == Converter.Recording(None, Rejected(None))
    ensures env.load.NoLoadEvent? ==> r == Converter.Recording(None, Pending)
    ensures r.options.Some? <==> env.load.MetadataAt? && Negotiate(KindOf(v), PreferredMime(v, outputFormat), env.isTypeSupported).chosen.Ok?
    ensures r.options.Some? ==> r.options.value == OptionsFor(v, Negotiate(KindOf(v), PreferredMime(v, outputFormat), env.isTypeSupported).chosen.value, quality)
    ensures env.load.MetadataAt? && r.options.None? ==> r.result == Rejected(Some(NoFormatMessage(KindOf(v))))
    ensures r.result.Resolved? <==> r.options.Some? && env.playback.PlayedToEnd?
    ensures r.result.Resolved? ==> r.result.value == Finalize(env.playback.events, r.options.value.mimeType)
    ensures r.options.Some? && (env.playback.PlayRejected? || env.playback.StoppedWithoutEnd?) ==> r.result == Pending
    ensures r.options.Some? && env.playback.RecorderFailed? ==> r.result == Rejected(Some(RecorderFailurePrefix(v) + env.playback.reason))
  {
    match env.load
    case LoadErrorAt(_) => Converter.Recording(None, Rejected(None))
    case NoLoadEvent => Converter.Recording(None, Pending)
    case MetadataAt(_) =>
      var negotiated := Negotiate(KindOf(v), PreferredMime(v, outputFormat), env.isTypeSupported);
      match negotiated.chosen
      case Err(message) => Converter.Recording(None, Rejected(Some(message)))
      case Ok(mimeType) =>
        var options := OptionsFor(v, mimeType, quality);
        match env.playback
        case PlayedToEnd(events) => Converter.Recording(Some(options), Resolved(Finalize(events, mimeType)))
        case PlayRejected(_) => Converter.Recording(Some(options), Pending)
        case RecorderFailed(reason) => Converter.Recording(Some(options), Rejected(Some(RecorderFailurePrefix(v) + reason)))
        case StoppedWithoutEnd => Converter.Recording(Some(options), Pending)
  }

  /** `handleConversion` of the offscreen document: the same dispatch, and `{data, mimeType, size}` from the result blob. */
  function HandleConversion(request: Request, env: MediaEnv): (s: Settlement<ConversionData>)
    ensures s.Pending? <==> env.load.NoLoadEvent? || RecordVariant(SelectVariant(request.fileName, request.outputFormat),
                                                                    request.outputFormat, request.quality, env).result.Pending?
    ensures env.load.LoadErrorAt? ==> s == Rejected(None)
    ensures s.Resolved? ==> env.playback.PlayedToEnd? && env.load.MetadataAt?
    ensures s.Resolved? ==> s.value.data == Concat(env.playback.events) && s.value.size == TotalSize(env.playback.events)
    ensures s.Resolved? ==> env.isTypeSupported(s.value.mimeType)
    ensures s.Resolved? && request.outputFormat in AudioTargets ==> "audio/" <= s.value.mimeType
    ensures s.Resolved? && request.outputFormat !in AudioTargets ==> "video/" <= s.value.mimeType
  {
    var v := SelectVariant(request.fileName, request.outputFormat);
    var recording := RecordVariant(v, request.outputFormat, request.quality, env);
    NegotiatedMimeFamily(v, request.outputFormat, env.isTypeSupported);
    match recording.result
    case Resolved(blob) => Resolved(Describe(blob))
    case Rejected(message) => Rejected(message)
    case Pending => Pending
  }

  /**
   * The `onMessage` listener: every `convert` is handled, whatever is already
   * running, and answered once its conversion settles; other actions get no answer.
   */
  function Receive(msg: Message, env: MediaEnv): (a: Answer)
    ensures !msg.Convert? ==> a == Unanswered
    ensures msg.Convert? ==> (a.Answered? <==> !HandleConversion(msg.request, env).Pending?)
    ensures msg.Convert? && HandleConversion(msg.request, env).Resolved? ==> a == Answered(Done(HandleConversion(msg.request, env).value))
    ensures msg.Convert? && HandleConversion(msg.request, env).Rejected? ==> a == Answered(Failure(HandleConversion(msg.request, env).message))
  {
    match msg
    case Convert(request) =>
      (match HandleConversion(request, env)
       case Resolved(data) => Answered(Done(data))
       case Rejected(message) => Answered(Failure(message))
       case Pending => Unanswered)
    case _ => Unanswered
  }

  /**
   * Where the media loads in time and either plays to the end or no type can
   * be negotiated, the two documents settle identically.
   */
  lemma AgreesWithConverter(request: Request, env: MediaEnv)
    requires Converter.LoadedInTime(env.load)
    requires env.playback.PlayedToEnd?
             || Negotiate(KindOf(SelectVariant(request.fileName, request.outputFormat)),
                          PreferredMime(SelectVariant(request.fileName, request.outputFormat), request.outputFormat),
                          env.isTypeSupported).chosen.Err?
    ensures HandleConversion(request, env) == Converter.HandleConversion(request, env)
  {
  }

  /** A source that never reports loading leaves the offscreen conversion pending; the window's times out. */
  lemma WaitsWhereConverterTimesOut(request: Request, env: MediaEnv)
    requires env.load.NoLoadEvent?
    ensures HandleConversion(request, env).Pending?
    ensures Converter.HandleConversion(request, env).Rejected?
    ensures Converter.HandleConversion(request, env).message.Some?
  {
  }

  /**
   * A playback that stops without `ended` after the type was negotiated leaves
   * both documents' conversions pending: nothing answers the caller.
   */
  lemma BothWaitWhenPlaybackStops(request: Request, env: MediaEnv)
    requires Converter.LoadedInTime(env.load) && env.playback.StoppedWithoutEnd?
    requires Negotiate(KindOf(SelectVariant(request.fileName, request.outputFormat)),
                       PreferredMime(SelectVariant(request.fileName, request.outputFormat), request.outputFormat),
                       env.isTypeSupported).chosen.Ok?
    ensures HandleConversion(request, env).Pending?
    ensures Converter.HandleConversion(request, env).Pending?
    ensures Receive(Convert(request), env) == Unanswered
  {
  }

  /** A load error reaches the offscreen document's caller as a failure with no message. */
  lemma LoadErrorHasNoMessage(request: Request, env: MediaEnv)
    requires env.load.LoadErrorAt?
    ensures Receive(Convert(request), env) == Answered(Failure(None))
  {
  }
}
