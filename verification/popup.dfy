/**
 * The recorder popup (popup.js): it classifies the upload, guards the convert
 * button with `isConverting`, brackets every conversion between a
 * `startConversion` and a `conversionComplete` message, asks the offscreen
 * document to convert, and keeps the answer's bytes as the output blob.
 */
module Popup {
  import opened Common
  import opened Text
  import opened Rename
  import opened Media
  import opened Negotiation
  import opened Capture
  import opened Messaging
  import opened Uploads
  import Offscreen
  import Background

  /** The popup's globals, the selected output format, the progress bar width and the visible section. */
  datatype State = State(currentFile: Option<File>, outputBlob: Option<Blob>, isConverting: bool,
                         outputFormat: string, progressWidth: real, view: View)

  /** The status line shown while the background worker reports a conversion in progress. */
  const ElsewhereStatus: string := "Conversion in progress..."

  /** The status line while waiting for the offscreen document. */
  const ConvertingStatus: string := "Converting... This may take a while."

  /**
   * The popup as it opens, given the worker's answer to `isConversionInProgress`:
   * the progress section shows only when the answer says a conversion runs.
   */
  function Opened(outputFormat: string, answer: Answer): (s: State)
    ensures s.currentFile.None? && s.outputBlob.None? && !s.isConverting
    ensures s.view == Working(ElsewhereStatus) <==> answer == Answered(InProgress(true))
  {
    var start := State(None, None, false, outputFormat, 0.0, Blank);
    if answer == Answered(InProgress(true)) then start.(view := Working(ElsewhereStatus)) else start
  }

  /** `handleFile`: the file is always kept; an accepted one preselects its default target. */
  function HandleFile(s: State, file: File): (r: State)
    ensures r.currentFile == Some(file)
    ensures r.outputBlob == s.outputBlob && r.isConverting == s.isConverting
    ensures Classify(file.name).Err? ==> r.view == ErrorShown(UnsupportedMessage) && r.outputFormat == s.outputFormat
    ensures Classify(file.name).Ok? ==> r.view == FileDetails && r.outputFormat == DefaultTarget(Classify(file.name).value)
  {
    match Classify(file.name)
    case Err(message) => s.(currentFile := Some(file), view := ErrorShown(message))
    case Ok(kind) => s.(currentFile := Some(file), view := FileDetails, outputFormat := DefaultTarget(kind))
  }

  /** `Math.random() * 10`: every step of the simulated progress lies in [0, 10). */
  predicate ValidSteps(steps: seq<real>)
  {
    forall i :: 0 <= i < |steps| ==> 0.0 <= steps[i] < 10.0
  }

  /** `Math.min`. */
  function Min(a: real, b: real): real
  {
    if a <= b then a else b
  }

  /**
   * The progress interval over its ticks: while `progress < 90` a tick adds its
   * step and paints `min(progress, 90)`; afterwards ticks paint nothing.
   * Returns the accumulated progress and the widths painted, in order.
   */
  function Animate(steps: seq<real>): (r: (real, seq<real>))
    requires ValidSteps(steps)
    ensures 0.0 <= r.0 < 100.0
    ensures |r.1| <= |steps|
    ensures |r.1| < |steps| ==> r.0 >= 90.0
    ensures forall i :: 0 <= i < |r.1| ==> 0.0 <= r.1[i] <= 90.0 && r.1[i] <= r.0
    ensures forall i, j :: 0 <= i <= j < |r.1| ==> r.1[i] <= r.1[j]
    decreases |steps|
  {
    if |steps| == 0 then (0.0, [])
    else
      var (progress, widths) := Animate(steps[..|steps| - 1]);
      if progress < 90.0 then
        var next := progress + steps[|steps| - 1];
        (next, widths + [Min(next, 90.0)])
      else (progress, widths)
  }

  /** The width the bar shows after the ticks: the last width painted, or the initial 0%. */
  function BarWidth(steps: seq<real>): (w: real)
    requires ValidSteps(steps)
    ensures 0.0 <= w <= 90.0
  {
    var widths := Animate(steps).1;
    if |widths| == 0 then 0.0 else widths[|widths| - 1]
  }

  /** The prefix of every failure the convert button reports. */
  const FailurePrefix: string := "Conversion failed: "

  /** V8's message when a `{ success: true }` answer has no `data` to read. */
  const NoDataMessage: string := "Cannot read properties of undefined (reading 'data')"

  /**
   * The `message` of the error the handler throws for an answer that is not a
   * success with data: the failure's own message (`new Error(undefined)` has
   * the empty one), the missing-`data` error, or empty for an answer with no `success`.
   */
  function FailureMessage(response: Response): (message: string)
    ensures response.Failure? && response.error.Some? ==> message == response.error.value
    ensures response.Failure? && response.error.None? ==> message == ""
    ensures response == Ack ==> message == NoDataMessage
    ensures !response.Failure? && response != Ack ==> message == ""
  {
    match response
    case Failure(error) => if error.Some? then error.value else ""
    case Ack => NoDataMessage
    case _ => ""
  }

  /** The outcome of a click: the new state and the messages sent, in order. */
  datatype Click = Click(state: State, sent: seq<Message>)

  /** The request the popup sends with `convert`. */
  function RequestFor(file: File, outputFormat: string, quality: string): Request
  {
    Request(file.bytes, file.name, outputFormat, quality)
  }

  /**
   * The convert button. `steps` are the progress ticks before the answer comes;
   * `answer` is what the `convert` message gets. With no answer the `await`
   * never returns, so the `finally` block never runs.
   */
  function ConvertClick(s: State, quality: string, steps: seq<real>, answer: Answer): (r: Click)
    requires ValidSteps(steps)
    ensures s.currentFile.None? || s.isConverting ==> r == Click(s, [])
    ensures s.currentFile.Some? && !s.isConverting ==>
              && |r.sent| >= 2
              && r.sent[0] == StartConversion(None)
              && r.sent[1] == Convert(RequestFor(s.currentFile.value, s.outputFormat, quality))
              && (r.sent[|r.sent| - 1] == ConversionComplete <==> answer.Answered?)
              && (r.state.isConverting <==> answer.Unanswered?)
              && r.state.currentFile == s.currentFile
    ensures r.state.outputBlob != s.outputBlob ==> answer.Answered? && answer.response.Done?
    ensures s.currentFile.Some? && !s.isConverting && answer.Answered? && answer.response.Done? ==>
              && r.state.outputBlob == Some(Blob(answer.response.data.data, BlobType(answer.response.data.mimeType)))
              && r.state.progressWidth == 100.0
              && r.state.view == ResultReady(RenameOutput(s.currentFile.value.name, s.outputFormat))
    ensures s.currentFile.Some? && !s.isConverting && answer.Answered? && !answer.response.Done? ==>
              r.state.view == ErrorShown(FailurePrefix + FailureMessage(answer.response))
    ensures r.state.progressWidth != s.progressWidth ==> r.state.progressWidth <= 90.0 || r.state.progressWidth == 100.0
  {
    if s.currentFile.None? || s.isConverting then Click(s, [])
    else
      var file := s.currentFile.value;
      var started := [StartConversion(None), Convert(RequestFor(file, s.outputFormat, quality))];
      var width := BarWidth(steps);
      match answer
      case Unanswered =>
        Click(s.(isConverting := true, progressWidth := width, view := Working(ConvertingStatus)), started)
      case Answered(response) =>
        var finished := s.(isConverting := false);
        var sent := started + [ConversionComplete];
        if response.Done? then
          Click(finished.(outputBlob := Some(Blob(response.data.data, BlobType(response.data.mimeType))),
                          progressWidth := 100.0,
                          view := ResultReady(RenameOutput(file.name, s.outputFormat))), sent)
        else
          Click(finished.(progressWidth := width, view := ErrorShown(FailurePrefix + FailureMessage(response))), sent)
  }

  /** `resetConverter`: forget the upload and the output, and drop the guard. */
  function Reset(s: State): (r: State)
    ensures r.currentFile.None? && r.outputBlob.None? && !r.isConverting && r.view == Blank
    ensures r.outputFormat == s.outputFormat
  {
    s.(currentFile := None, outputBlob := None, isConverting := false, view := Blank)
  }

  /** After a reset the convert button does nothing. */
  lemma ClickAfterResetIsNoOp(s: State, quality: string, steps: seq<real>, answer: Answer)
    requires ValidSteps(steps)
    ensures ConvertClick(Reset(s), quality, steps, answer) == Click(Reset(s), [])
  {
  }

  /** A popup stuck waiting for an answer refuses every further click until it is reset. */
  lemma StuckUntilReset(s: State, quality: string, steps: seq<real>, steps2: seq<real>, answer2: Answer)
    requires ValidSteps(steps) && ValidSteps(steps2)
    requires s.currentFile.Some? && !s.isConverting
    ensures var stuck := ConvertClick(s, quality, steps, Unanswered).state;
            stuck.isConverting && ConvertClick(stuck, quality, steps2, answer2) == Click(stuck, [])
  {
  }

  /** The messages a click sends, as events reaching the background worker. */
  function Delivered(sent: seq<Message>, createdId: int): (events: seq<Background.Event>)
    ensures |events| == |sent|
    ensures forall i :: 0 <= i < |sent| ==> events[i] == Background.Deliver(sent[i], createdId)
  {
    seq(|sent|, i requires 0 <= i < |sent| => Background.Deliver(sent[i], createdId))
  }

  /**
   * The worker's flag tracks the popup: after a click that started a
   * conversion, the flag is false exactly when the answer came, and window
   * state is untouched.
   */
  lemma BackgroundFlagFollowsClick(s: State, quality: string, steps: seq<real>, answer: Answer,
                                   bg: Background.State, createdId: int)
    requires ValidSteps(steps)
    requires s.currentFile.Some? && !s.isConverting
    ensures var click := ConvertClick(s, quality, steps, answer);
            var after := Background.Replay(bg, Delivered(click.sent, createdId));
            && after.conversionInProgress == answer.Unanswered?
            && after.converterWindow == bg.converterWindow
  {
    var click := ConvertClick(s, quality, steps, answer);
    var events := Delivered(click.sent, createdId);
    assert events[..1] == [Background.Deliver(StartConversion(None), createdId)];
    assert events[..1][..0] == [];
    assert events[..2][..1] == events[..1];
    assert Background.Replay(bg, events[..1]).converterWindow == bg.converterWindow;
    assert Background.Replay(bg, events[..2]).converterWindow == bg.converterWindow;
    if answer.Answered? {
      assert events[..3][..2] == events[..2];
      assert events == events[..3];
      assert Background.Replay(bg, events[..3]).converterWindow == bg.converterWindow;
    } else {
      assert events == events[..2];
    }
  }

  /**
   * End to end with the offscreen document: when its conversion resolves, the
   * popup's output blob holds exactly the recorded bytes, tagged with the
   * negotiated type, under the renamed file name, and the bar reaches 100%.
   */
  lemma ConversionReachesPopup(s: State, quality: string, steps: seq<real>, env: MediaEnv)
    requires ValidSteps(steps)
    requires s.currentFile.Some? && !s.isConverting
    requires Offscreen.HandleConversion(RequestFor(s.currentFile.value, s.outputFormat, quality), env).Resolved?
    ensures var request := RequestFor(s.currentFile.value, s.outputFormat, quality);
            var v := SelectVariant(request.fileName, request.outputFormat);
            var r := ConvertClick(s, quality, steps, Offscreen.Receive(Convert(request), env)).state;
            && r.outputBlob.Some?
            && r.outputBlob.value.bytes == Concat(env.playback.events)
            && r.outputBlob.value.mimeType in Candidates(KindOf(v), PreferredMime(v, request.outputFormat))
            && env.isTypeSupported(r.outputBlob.value.mimeType)
            && r.progressWidth == 100.0
            && r.view == ResultReady(RenameOutput(s.currentFile.value.name, s.outputFormat))
            && !r.isConverting
  {
    var request := RequestFor(s.currentFile.value, s.outputFormat, quality);
    var v := SelectVariant(request.fileName, request.outputFormat);
    var data := Offscreen.HandleConversion(request, env).value;
    var recording := Offscreen.RecordVariant(v, request.outputFormat, request.quality, env);
    NegotiatedMimeFamily(v, request.outputFormat, env.isTypeSupported);
    assert data.mimeType == recording.options.value.mimeType;
    CanonicalMimeKept(data.mimeType);
  }

  /**
   * A source that never loads leaves the offscreen conversion pending, so the
   * popup stays converting and the worker keeps reporting a conversion in progress.
   */
  lemma NoLoadLeavesPopupConverting(s: State, quality: string, steps: seq<real>, env: MediaEnv,
                                    bg: Background.State, createdId: int)
    requires ValidSteps(steps)
    requires s.currentFile.Some? && !s.isConverting
    requires env.load.NoLoadEvent?
    ensures var request := RequestFor(s.currentFile.value, s.outputFormat, quality);
            var click := ConvertClick(s, quality, steps, Offscreen.Receive(Convert(request), env));
            && click.state.isConverting
            && click.state.progressWidth <= 90.0
            && Background.Replay(bg, Delivered(click.sent, createdId)).conversionInProgress
  {
    var request := RequestFor(s.currentFile.value, s.outputFormat, quality);
    BackgroundFlagFollowsClick(s, quality, steps, Offscreen.Receive(Convert(request), env), bg, createdId);
  }

  /** A load error in the offscreen document reaches the user as the bare failure prefix. */
  lemma LoadErrorShowsBarePrefix(s: State, quality: string, steps: seq<real>, env: MediaEnv)
    requires ValidSteps(steps)
    requires s.currentFile.Some? && !s.isConverting
    requires env.load.LoadErrorAt?
    ensures var request := RequestFor(s.currentFile.value, s.outputFormat, quality);
            ConvertClick(s, quality, steps, Offscreen.Receive(Convert(request), env)).state.view == ErrorShown(FailurePrefix)
  {
    var request := RequestFor(s.currentFile.value, s.outputFormat, quality);
    Offscreen.LoadErrorHasNoMessage(request, env);
    assert FailurePrefix + "" == FailurePrefix;
  }
}
