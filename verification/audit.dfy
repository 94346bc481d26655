/**
  How the recorder and the scoring engine meet: what an upload does to the
  audit horizon, and which later handler calls can still change a report.
 */
module Audit {
  import opened Types
  import opened Scoring
  import opened ScoringProperties
  import opened Recorder

  /** The time an action reads for the event it appends. */
  function ActionTime(a: Action): int {
    match a
    case UserActivity(now) => now
    case SidebarClick(_, now) => now
    case MessageUpdate(_, _, now) => now
    case UploadSuccess(_, _, eventNow) => eventNow
  }

  /** An upload at a non-zero clock value locks the report at that value,
      whatever the clock reads later; an upload at 0 leaves it unlocked. */
  lemma UploadLocks(st: AppState, fileName: Text, lockNow: int, eventNow: int, now: int)
    ensures
      var r := HandleUploadSuccess(st, fileName, lockNow, eventNow);
      && (lockNow != 0 ==> Locked(r.session) && Horizon(r.session, now) == lockNow)
      && (lockNow == 0 ==> !Locked(r.session) && Horizon(r.session, now) == now)
  {
  }

  /** The SUBMIT event counts towards the report exactly when the second
      clock read did not pass the first. */
  lemma SubmitEventCounted(st: AppState, fileName: Text, lockNow: int, eventNow: int)
    requires lockNow != 0
    ensures
      var r := HandleUploadSuccess(st, fileName, lockNow, eventNow);
      var e := Event(Submit, eventNow, NoMetadata);
      e in EventsUpTo(r.session.events, Horizon(r.session, 0)) <==> eventNow <= lockNow
  {
  }

  /** Once locked, an activity, a tab switch or a chat turn stamped after the
      submit time leaves the report unchanged. */
  lemma LateActionKeepsScore(st: AppState, a: Action, now: int, laterNow: int, hash: UnitHash)
    requires |st.session.events| > 0
    requires Locked(st.session)
    requires !a.UploadSuccess?
    requires ActionTime(a) > st.session.submitTime.value
    ensures
      var r := Step(st, a);
      Score(r.history, r.session, laterNow, hash) == Score(st.history, st.session, now, hash)
  {
    var r := Step(st, a);
    match a {
      case UserActivity(n) =>
        var last := st.session.events[|st.session.events| - 1];
        if n - last.time > ActivitySpacing {
          LateAppendKeepsScore(st, r, [], [Event(Activity, n, NoMetadata)], now, laterNow, hash);
        } else {
          LateAppendKeepsScore(st, r, [], [], now, laterNow, hash);
        }
      case SidebarClick(id, n) =>
        LateAppendKeepsScore(st, r, [], [Event(SwitchTab, n, TabTarget(id))], now, laterNow, hash);
      case MessageUpdate(role, text, n) =>
        var m := r.history[|st.history|];
        var e := r.session.events[|st.session.events|];
        assert r.history == st.history[..|st.history|] + [m];
        assert r.session.events == st.session.events[..|st.session.events|] + [e];
        LateAppendKeepsScore(st, r, [m], [e], now, laterNow, hash);
    }
  }

  /** A state reached by appending only late turns and events keeps the
      locked report. */
  lemma LateAppendKeepsScore(
    st: AppState, r: AppState, turns: seq<Message>, events: seq<Event>,
    now: int, laterNow: int, hash: UnitHash)
    requires Locked(st.session)
    requires r.history == st.history + turns
    requires r.session.events == st.session.events + events
    requires r.session.startTime == st.session.startTime
    requires r.session.submitTime == st.session.submitTime
    requires forall k :: 0 <= k < |turns| ==> turns[k].unixTime > st.session.submitTime.value
    requires forall k :: 0 <= k < |events| ==> events[k].time > st.session.submitTime.value
    ensures Score(r.history, r.session, laterNow, hash) == Score(st.history, st.session, now, hash)
  {
    assert r.session == st.session.(events := st.session.events + events);
    LockStability(st.history, turns, st.session, events, now, laterNow, hash);
  }

  /** A second upload is not refused: it moves the horizon to its own clock
      value, so the report is no longer frozen at the first submission. */
  lemma SecondUploadMovesHorizon(
    st: AppState, first: Text, second: Text,
    lock1: int, event1: int, lock2: int, event2: int, now: int)
    requires lock1 != 0 && lock2 != 0 && lock1 != lock2
    ensures
      var once := HandleUploadSuccess(st, first, lock1, event1);
      var twice := HandleUploadSuccess(once, second, lock2, event2);
      Horizon(once.session, now) == lock1 && Horizon(twice.session, now) == lock2
  {
  }
}
