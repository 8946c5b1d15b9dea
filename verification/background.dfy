/**
 * The background service worker (background.js): the `conversionInProgress`
 * flag and the `converterWindow` record, driven by messages and by the
 * browser's window-removed event. Window creation is an id supplied from outside.
 */
module Background {
  import opened Common
  import opened Messaging

  /** A browser window, as far as the worker looks at it. */
  datatype Window = Window(id: int)

  /** The worker's two globals. */
  datatype State = State(conversionInProgress: bool, converterWindow: Option<Window>)

  /** The worker's state when it starts. */
  const Initial: State := State(false, None)

  /** What the worker asks of `chrome.windows`. */
  datatype WindowAction = NoWindowAction | CreateWindow | RemoveWindow(id: int)

  /** The outcome of one message: the new state, the answer, and the window action taken. */
  datatype Step = Step(state: State, answer: Answer, action: WindowAction)

  /**
   * The `onMessage` listener. `createdId` is the id the browser gives a window
   * created for `openConverterWindow`; the creation callback is taken to run
   * before the next message.
   */
  function Receive(s: State, msg: Message, createdId: int): (r: Step)
    ensures msg.StartConversion? ==> r == Step(s.(conversionInProgress := true), Answered(Ack), NoWindowAction)
    ensures msg.ConversionComplete? ==> r == Step(s.(conversionInProgress := false), Answered(Ack), NoWindowAction)
    ensures msg.IsConversionInProgress? ==> r == Step(s, Answered(InProgress(s.conversionInProgress)), NoWindowAction)
    ensures msg.OpenConverterWindow? && s.converterWindow.Some? ==> r == Step(s, Answered(WindowId(s.converterWindow.value.id)), NoWindowAction)
    ensures msg.OpenConverterWindow? && s.converterWindow.None? ==>
              r == Step(s.(converterWindow := Some(Window(createdId))), Answered(WindowId(createdId)), CreateWindow)
    ensures msg.CloseConverterWindow? ==> r.state.converterWindow.None? && r.answer == Answered(Ack)
    ensures msg.CloseConverterWindow? ==> r.action == (if s.converterWindow.Some? then RemoveWindow(s.converterWindow.value.id) else NoWindowAction)
    ensures msg.Convert? || msg.OtherAction? ==> r == Step(s, Unanswered, NoWindowAction)
    ensures msg.OpenConverterWindow? || msg.CloseConverterWindow? || msg.IsConversionInProgress? ==>
              r.state.conversionInProgress == s.conversionInProgress
    ensures !(msg.OpenConverterWindow? || msg.CloseConverterWindow?) ==> r.state.converterWindow == s.converterWindow
  {
    match msg
    case StartConversion(_) => Step(s.(conversionInProgress := true), Answered(Ack), NoWindowAction)
    case ConversionComplete => Step(s.(conversionInProgress := false), Answered(Ack), NoWindowAction)
    case IsConversionInProgress => Step(s, Answered(InProgress(s.conversionInProgress)), NoWindowAction)
    case OpenConverterWindow =>
      (match s.converterWindow
       case None => Step(s.(converterWindow := Some(Window(createdId))), Answered(WindowId(createdId)), CreateWindow)
       case Some(w) => Step(s, Answered(WindowId(w.id)), NoWindowAction))
    case CloseConverterWindow =>
      (match s.converterWindow
       case Some(w) => Step(s.(converterWindow := None), Answered(Ack), RemoveWindow(w.id))
       case None => Step(s, Answered(Ack), NoWindowAction))
    case _ => Step(s, Unanswered, NoWindowAction)
  }

  /** `chrome.windows.onRemoved`: forget the converter window only when it is the one removed. */
  function WindowRemoved(s: State, windowId: int): (r: State)
    ensures r.conversionInProgress == s.conversionInProgress
    ensures s.converterWindow.Some? && s.converterWindow.value.id == windowId ==> r.converterWindow.None?
    ensures !(s.converterWindow.Some? && s.converterWindow.value.id == windowId) ==> r == s
  {
    if s.converterWindow.Some? && s.converterWindow.value.id == windowId then s.(converterWindow := None) else s
  }

  /** A second `startConversion` is accepted like the first: the worker enforces no single flight. */
  lemma StartIsNotSingleFlight(s: State, createdId: int)
    requires s.conversionInProgress
    ensures Receive(s, StartConversion(None), createdId).answer == Answered(Ack)
    ensures Receive(s, StartConversion(None), createdId).state == s
  {
  }

  /** Asking whether a conversion runs changes nothing, so asking twice answers the same. */
  lemma StatusQueryIdempotent(s: State, id1: int, id2: int)
    ensures var once := Receive(s, IsConversionInProgress, id1);
            once.state == s && Receive(once.state, IsConversionInProgress, id2) == once
  {
  }

  /** Opening the converter window twice creates one window; the second answer names it. */
  lemma OpenTwiceCreatesOnce(s: State, id1: int, id2: int)
    requires s.converterWindow.None?
    ensures var first := Receive(s, OpenConverterWindow, id1);
            var second := Receive(first.state, OpenConverterWindow, id2);
            first.action == CreateWindow && second.action == NoWindowAction
            && second.answer == Answered(WindowId(id1)) && second.state == first.state
  {
  }

  /** Something the worker reacts to. */
  datatype Event =
    | Deliver(msg: Message, createdId: int)   // a message, with the id a window created for it would get
    | Removed(windowId: int)                  // the browser removed a window

  /** The worker's state after a sequence of events. */
  function Replay(s: State, events: seq<Event>): State
    decreases |events|
  {
    if |events| == 0 then s
    else
      var before := Replay(s, events[..|events| - 1]);
      match events[|events| - 1]
      case Deliver(msg, createdId) => Receive(before, msg, createdId).state
      case Removed(windowId) => WindowRemoved(before, windowId)
  }

  /** Whether an event sets or clears the conversion flag, if it touches it at all. */
  function FlagWritten(e: Event): Option<bool>
  {
    if e.Deliver? && e.msg.StartConversion? then Some(true)
    else if e.Deliver? && e.msg.ConversionComplete? then Some(false)
    else None
  }

  /** Reference definition: the value the last flag-writing event wrote, or the starting value. */
  function LastFlagWritten(initial: bool, events: seq<Event>): bool
    decreases |events|
  {
    if |events| == 0 then initial
    else match FlagWritten(events[|events| - 1])
      case Some(b) => b
      case None => LastFlagWritten(initial, events[..|events| - 1])
  }

  /**
   * `isConversionInProgress` answers what the most recent `startConversion` or
   * `conversionComplete` said; window messages and window removals never touch it.
   */
  lemma {:induction false} FlagIsLastWritten(s: State, events: seq<Event>)
    ensures Replay(s, events).conversionInProgress == LastFlagWritten(s.conversionInProgress, events)
    decreases |events|
  {
    if |events| > 0 {
      FlagIsLastWritten(s, events[..|events| - 1]);
    }
  }

  /** The window action the worker took for the `i`-th event of a history replayed from `s`. */
  function ActionAt(s: State, events: seq<Event>, i: nat): WindowAction
    requires i < |events|
  {
    match events[i]
    case Deliver(msg, createdId) => Receive(Replay(s, events[..i]), msg, createdId).action
    case Removed(_) => NoWindowAction
  }

  /** Appending an event does not change the actions taken for the events before it. */
  lemma ActionAtPrefix(s: State, events: seq<Event>, i: nat)
    requires i < |events| - 1
    ensures ActionAt(s, events, i) == ActionAt(s, events[..|events| - 1], i)
  {
    assert events[..|events| - 1][..i] == events[..i];
  }

  /**
   * The recorded window, when there is one, is the window created by the last
   * `CreateWindow` the worker performed: that step carried its id, and no later
   * step created a window.
   */
  lemma {:induction false} RecordedWindowWasCreated(s: State, events: seq<Event>)
    requires s.converterWindow.None?
    ensures var r := Replay(s, events);
            r.converterWindow.Some? ==>
              exists i :: 0 <= i < |events| && ActionAt(s, events, i) == CreateWindow
                          && events[i].Deliver? && events[i].createdId == r.converterWindow.value.id
                          && (forall j :: i < j < |events| ==> ActionAt(s, events, j) != CreateWindow)
    decreases |events|
  {
    if |events| > 0 {
      var init := events[..|events| - 1];
      var last := |events| - 1;
      RecordedWindowWasCreated(s, init);
      var before := Replay(s, init);
      var r := Replay(s, events);
      assert events[..last] == init;
      if r.converterWindow.Some? {
        if before.converterWindow.Some? && r.converterWindow == before.converterWindow {
          var i :| 0 <= i < |init| && ActionAt(s, init, i) == CreateWindow
                   && init[i].Deliver? && init[i].createdId == before.converterWindow.value.id
                   && (forall j :: i < j < |init| ==> ActionAt(s, init, j) != CreateWindow);
          ActionAtPrefix(s, events, i);
          forall j | i < j < |events|
            ensures ActionAt(s, events, j) != CreateWindow
          {
            if j < last {
              ActionAtPrefix(s, events, j);
            }
          }
          assert events[i] == init[i];
        } else {
          assert events[last].Deliver? && events[last].msg.OpenConverterWindow?;
          assert ActionAt(s, events, last) == CreateWindow;
        }
      }
    }
  }
}
