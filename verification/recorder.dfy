/**
  The session event recorder: the app's state and the handlers that append
  to it. Each handler is a pure transition; the clock value it reads is a
  parameter (`now`), and where the handler reads the clock twice it takes
  two parameters.
 */
module Recorder {
  import opened Wrappers
  import opened Types
  import opened TextSearch

  /** Texts longer than this many code units are generation requests. */
  const GenerationLength: int := 300

  /** The two method keywords: U+5982 U+4F55 ("how to") and U+89E3 U+91CA
      ("explain"). */
  const HowTo: Text := [0x5982, 0x4F55]
  const Explain: Text := [0x89E3, 0x91CA]

  /** An activity event is recorded only after more than this many ms
      since the last event. */
  const ActivitySpacing: int := 10000

  /** The sidebar item selected when the app opens ("ai"). */
  const InitialItem: Text := [0x61, 0x69]

  /** The app's state: the UI fields the handlers set, the chat transcript
      and the learning session. */
  datatype AppState = AppState(
    activeItem: Text,
    isSubmitted: bool,
    submittedFileName: Text,
    history: seq<Message>,
    session: Session)

  /** The state when the app opens. The start time and the OPEN_APP event
      read the clock separately. */
  function Init(startNow: int, openNow: int): (st: AppState)
    ensures st.session.events == [Event(OpenApp, openNow, NoMetadata)]
    ensures st.session.submitTime == None && st.session.startTime == startNow
    ensures st.history == [] && !st.isSubmitted
  {
    AppState(InitialItem, false, [], [], Session(startNow, None, [Event(OpenApp, openNow, NoMetadata)]))
  }

  function Append(st: AppState, e: Event): AppState {
    st.(session := st.session.(events := st.session.events + [e]))
  }

  /** The mouse-move / key-down handler: it records an ACTIVITY event only
      when strictly more than 10 s have passed since the last event. */
  function HandleActivity(st: AppState, now: int): (r: AppState)
    requires |st.session.events| > 0
    ensures
      var last := st.session.events[|st.session.events| - 1];
      && (now - last.time > ActivitySpacing <==>
            r.session.events == st.session.events + [Event(Activity, now, NoMetadata)])
      && (now - last.time <= ActivitySpacing <==> r == st)
    ensures r.history == st.history && r.session.submitTime == st.session.submitTime
    ensures r.session.startTime == st.session.startTime
    ensures r.activeItem == st.activeItem && r.isSubmitted == st.isSubmitted
    ensures r.submittedFileName == st.submittedFileName
  {
    var last := st.session.events[|st.session.events| - 1];
    if now - last.time > ActivitySpacing then Append(st, Event(Activity, now, NoMetadata))
    else st
  }

  /** A tab switch selects the item and records where it went. */
  function HandleSidebarClick(st: AppState, id: Text, now: int): (r: AppState)
    ensures r.activeItem == id
    ensures r.session.events == st.session.events + [Event(SwitchTab, now, TabTarget(id))]
    ensures r.history == st.history && r.session.submitTime == st.session.submitTime
    ensures r.session.startTime == st.session.startTime
    ensures r.isSubmitted == st.isSubmitted && r.submittedFileName == st.submittedFileName
  {
    Append(st.(activeItem := id), Event(SwitchTab, now, TabTarget(id)))
  }

  /** Long texts are generation requests; otherwise a text naming one of the
      method keywords asks for a method; anything else is conceptual. */
  function ClassifyIntent(text: Text): (i: Intent)
    ensures i == Generation <==> |text| > GenerationLength
    ensures i == Method <==>
      |text| <= GenerationLength && (Contains(text, HowTo) || Contains(text, Explain))
    ensures i == Concept <==>
      |text| <= GenerationLength && !Contains(text, HowTo) && !Contains(text, Explain)
  {
    IncludesSpec(text, HowTo);
    IncludesSpec(text, Explain);
    if |text| > GenerationLength then Generation
    else if Includes(text, HowTo) || Includes(text, Explain) then Method
    else Concept
  }

  /** The event recorded for a chat turn. */
  function TurnEvent(m: Message): Event {
    Event(if m.role == User then AiAsk else AiReply, m.unixTime,
          MessageInfo(|m.text|, m.intent.GetOr(Concept)))
  }

  /** A chat turn: one message in the transcript and one event in the log,
      sharing the time and the intent. */
  function HandleMessageUpdate(st: AppState, role: Role, text: Text, now: int): (r: AppState)
    ensures |r.history| == |st.history| + 1 && r.history[..|st.history|] == st.history
    ensures |r.session.events| == |st.session.events| + 1
    ensures r.session.events[..|st.session.events|] == st.session.events
    ensures
      var m := r.history[|st.history|];
      var e := r.session.events[|st.session.events|];
      && m.role == role && m.text == text && m.unixTime == now
      && m.intent == Some(ClassifyIntent(text))
      && (e.kind == AiAsk <==> role == User)
      && (e.kind == AiReply <==> role == Model)
      && e.time == m.unixTime
      && e.metadata == MessageInfo(|text|, m.intent.value)
    ensures r.session.submitTime == st.session.submitTime
    ensures r.session.startTime == st.session.startTime
    ensures r.activeItem == st.activeItem && r.isSubmitted == st.isSubmitted
    ensures r.submittedFileName == st.submittedFileName
  {
    var m := Message(role, text, now, Some(ClassifyIntent(text)));
    Append(st.(history := st.history + [m]), TurnEvent(m))
  }

  /** A successful upload sets the submit time and records a SUBMIT event;
      the two read the clock separately. Nothing stops a second upload from
      overwriting an earlier submit time. */
  function HandleUploadSuccess(st: AppState, fileName: Text, lockNow: int, eventNow: int): (r: AppState)
    ensures r.session.submitTime == Some(lockNow)
    ensures r.session.events == st.session.events + [Event(Submit, eventNow, NoMetadata)]
    ensures r.isSubmitted && r.submittedFileName == fileName
    ensures r.history == st.history && r.session.startTime == st.session.startTime
    ensures r.activeItem == st.activeItem
  {
    var locked := st.(session := st.session.(submitTime := Some(lockNow)));
    Append(locked.(submittedFileName := fileName, isSubmitted := true), Event(Submit, eventNow, NoMetadata))
  }

  // ---------------------------------------------------------------------------
  // Runs of handlers
  // ---------------------------------------------------------------------------

  /** One handler invocation with the clock values it reads. */
  datatype Action =
    | UserActivity(now: int)
    | SidebarClick(id: Text, now: int)
    | MessageUpdate(role: Role, text: Text, now: int)
    | UploadSuccess(fileName: Text, lockNow: int, eventNow: int)

  function Step(st: AppState, a: Action): AppState
    requires |st.session.events| > 0
  {
    match a
    case UserActivity(now) => HandleActivity(st, now)
    case SidebarClick(id, now) => HandleSidebarClick(st, id, now)
    case MessageUpdate(role, text, now) => HandleMessageUpdate(st, role, text, now)
    case UploadSuccess(fileName, lockNow, eventNow) => HandleUploadSuccess(st, fileName, lockNow, eventNow)
  }

  /** The chat-turn events of a log, in order. */
  function ChatEvents(es: seq<Event>): seq<Event> {
    if |es| == 0 then []
    else
      var n := |es| - 1;
      ChatEvents(es[..n]) + (if es[n].kind == AiAsk || es[n].kind == AiReply then [es[n]] else [])
  }

  /** The events the transcript's turns were recorded with, in order. */
  function TurnEvents(ms: seq<Message>): seq<Event> {
    seq(|ms|, k requires 0 <= k < |ms| => TurnEvent(ms[k]))
  }

  /** The state invariant: the log starts with the only OPEN_APP event, and
      its chat-turn events are exactly the events of the transcript's turns,
      one for one and in order. */
  predicate Valid(st: AppState) {
    var es := st.session.events;
    && |es| > 0
    && es[0].kind == OpenApp
    && (forall k :: 1 <= k < |es| ==> es[k].kind != OpenApp)
    && ChatEvents(es) == TurnEvents(st.history)
  }

  lemma InitValid(startNow: int, openNow: int)
    ensures Valid(Init(startNow, openNow))
  {
    var es := Init(startNow, openNow).session.events;
    assert es[..0] == [];
  }

  /** Appending an event that is neither OPEN_APP nor a chat turn keeps the
      invariant when the transcript is unchanged. */
  lemma AppendOtherValid(st: AppState, r: AppState, e: Event)
    requires Valid(st)
    requires e.kind != OpenApp && e.kind != AiAsk && e.kind != AiReply
    requires r.session.events == st.session.events + [e] && r.history == st.history
    ensures Valid(r)
  {
    var es := st.session.events;
    assert r.session.events[..|es|] == es;
  }

  /** Appending the event of a chat turn together with the turn keeps the
      invariant. */
  lemma AppendTurnValid(st: AppState, r: AppState, m: Message)
    requires Valid(st)
    requires r.session.events == st.session.events + [TurnEvent(m)]
    requires r.history == st.history + [m]
    ensures Valid(r)
  {
    var es := st.session.events;
    assert r.session.events[..|es|] == es;
    assert ChatEvents(r.session.events) == ChatEvents(es) + [TurnEvent(m)];
    assert TurnEvents(r.history) == TurnEvents(st.history) + [TurnEvent(m)];
  }

  /** `r` extends `st`: the session keeps its start time, the old log is a
      prefix of the new one, which holds at most one more event, and the old
      transcript is a prefix of the new one. */
  predicate Grows(st: AppState, r: AppState) {
    && r.session.startTime == st.session.startTime
    && |st.session.events| <= |r.session.events| <= |st.session.events| + 1
    && r.session.events[..|st.session.events|] == st.session.events
    && |st.history| <= |r.history|
    && r.history[..|st.history|] == st.history
  }

  lemma ActivityValid(st: AppState, now: int)
    requires Valid(st)
    ensures Valid(HandleActivity(st, now)) && Grows(st, HandleActivity(st, now))
  {
    var r := HandleActivity(st, now);
    var es := st.session.events;
    if now - es[|es| - 1].time > ActivitySpacing {
      AppendOtherValid(st, r, Event(Activity, now, NoMetadata));
      assert r.session.events[..|es|] == es;
    } else {
      assert es[..|es|] == es;
    }
    assert r.history[..|st.history|] == st.history;
  }

  lemma SidebarClickValid(st: AppState, id: Text, now: int)
    requires Valid(st)
    ensures Valid(HandleSidebarClick(st, id, now)) && Grows(st, HandleSidebarClick(st, id, now))
  {
    var r := HandleSidebarClick(st, id, now);
    AppendOtherValid(st, r, Event(SwitchTab, now, TabTarget(id)));
    assert r.session.events[..|st.session.events|] == st.session.events;
    assert r.history[..|st.history|] == st.history;
  }

  lemma MessageUpdateValid(st: AppState, role: Role, text: Text, now: int)
    requires Valid(st)
    ensures Valid(HandleMessageUpdate(st, role, text, now))
    ensures Grows(st, HandleMessageUpdate(st, role, text, now))
  {
    var r := HandleMessageUpdate(st, role, text, now);
    var m := Message(role, text, now, Some(ClassifyIntent(text)));
    assert r == Append(st.(history := st.history + [m]), TurnEvent(m));
    AppendTurnValid(st, r, m);
  }

  lemma UploadSuccessValid(st: AppState, fileName: Text, lockNow: int, eventNow: int)
    requires Valid(st)
    ensures Valid(HandleUploadSuccess(st, fileName, lockNow, eventNow))
    ensures Grows(st, HandleUploadSuccess(st, fileName, lockNow, eventNow))
  {
    var r := HandleUploadSuccess(st, fileName, lockNow, eventNow);
    AppendOtherValid(st, r, Event(Submit, eventNow, NoMetadata));
    assert r.session.events[..|st.session.events|] == st.session.events;
    assert r.history[..|st.history|] == st.history;
  }

  /** Every handler keeps the invariant, only appends to the log and the
      transcript, and appends at most one event. */
  lemma StepValid(st: AppState, a: Action)
    requires Valid(st)
    ensures Valid(Step(st, a)) && Grows(st, Step(st, a))
  {
    match a
    case UserActivity(now) => ActivityValid(st, now);
    case SidebarClick(id, now) => SidebarClickValid(st, id, now);
    case MessageUpdate(role, text, now) => MessageUpdateValid(st, role, text, now);
    case UploadSuccess(fileName, lockNow, eventNow) => UploadSuccessValid(st, fileName, lockNow, eventNow);
  }

  /** Any sequence of handler calls after opening the app. */
  function Run(st: AppState, actions: seq<Action>): AppState
    requires Valid(st)
    decreases |actions|
  {
    if |actions| == 0 then st
    else
      StepValid(st, actions[0]);
      Run(Step(st, actions[0]), actions[1..])
  }

  /** Every state reached from opening the app satisfies the invariant; the
      event log and transcript only grow, and the start time never changes. */
  lemma {:induction false} RunValid(st: AppState, actions: seq<Action>)
    requires Valid(st)
    ensures Valid(Run(st, actions))
    ensures |st.session.events| <= |Run(st, actions).session.events|
    ensures Run(st, actions).session.events[..|st.session.events|] == st.session.events
    ensures |st.history| <= |Run(st, actions).history|
    ensures Run(st, actions).history[..|st.history|] == st.history
    ensures Run(st, actions).session.startTime == st.session.startTime
    decreases |actions|
  {
    if |actions| > 0 {
      StepValid(st, actions[0]);
      var next := Step(st, actions[0]);
      RunValid(next, actions[1..]);
      var fin := Run(next, actions[1..]);
      assert fin.session.events[..|next.session.events|][..|st.session.events|]
        == fin.session.events[..|st.session.events|];
      assert fin.history[..|next.history|][..|st.history|] == fin.history[..|st.history|];
    }
  }
}
