/**
  Properties of the scoring engine that relate several calls: which inputs
  the result depends on (the horizon, the lock, the order of events), what
  opens an influence window, and the edge cases of the formula.
 */
module ScoringProperties {
  import opened Wrappers
  import opened Types
  import opened Sorting
  import opened Scoring

  // ---------------------------------------------------------------------------
  // Influence windows
  // ---------------------------------------------------------------------------

  /** `m` is a model reply whose window contains `mid`. */
  predicate ReplyCovers(m: Message, mid: real) {
    m.role == Model && m.unixTime as real <= mid <= (m.unixTime + Tau) as real
  }

  /** A midpoint is influenced exactly when some model reply at time `t`
      satisfies `t <= mid <= t + Tau`; user turns play no part. */
  lemma {:induction false} InfluenceSpec(ms: seq<Message>, mid: real)
    ensures Influenced(mid, Windows(ms)) <==>
      exists k :: 0 <= k < |ms| && ReplyCovers(ms[k], mid)
    decreases |ms|
  {
    if |ms| > 0 {
      InfluenceSpec(ms[1..], mid);
      var ws := Windows(ms);
      var rest := Windows(ms[1..]);
      if ms[0].role == Model {
        assert ws == [Window(ms[0].unixTime, ms[0].unixTime + Tau)] + rest;
        if Influenced(mid, ws) {
          var i :| 0 <= i < |ws| && Covers(ws[i], mid);
          if i == 0 {
            assert ReplyCovers(ms[0], mid);
          } else {
            assert Covers(rest[i - 1], mid);
            var k :| 0 <= k < |ms[1..]| && ReplyCovers(ms[1..][k], mid);
            assert ReplyCovers(ms[k + 1], mid);
          }
        }
        if exists k :: 0 <= k < |ms| && ReplyCovers(ms[k], mid) {
          var k :| 0 <= k < |ms| && ReplyCovers(ms[k], mid);
          if k == 0 {
            assert Covers(ws[0], mid);
          } else {
            assert ReplyCovers(ms[1..][k - 1], mid);
            var i :| 0 <= i < |rest| && Covers(rest[i], mid);
            assert Covers(ws[i + 1], mid);
          }
        }
      } else {
        assert ws == rest;
        if exists k :: 0 <= k < |ms| && ReplyCovers(ms[k], mid) {
          var k :| 0 <= k < |ms| && ReplyCovers(ms[k], mid);
          assert k != 0;
          assert ReplyCovers(ms[1..][k - 1], mid);
        }
        if Influenced(mid, rest) {
          var k :| 0 <= k < |ms[1..]| && ReplyCovers(ms[1..][k], mid);
          assert ReplyCovers(ms[k + 1], mid);
        }
      }
    }
  }

  lemma {:induction false} WindowsAppend(a: seq<Message>, b: seq<Message>)
    ensures Windows(a + b) == Windows(a) + Windows(b)
    decreases |a|
  {
    if |a| > 0 {
      assert (a + b)[1..] == a[1..] + b;
      WindowsAppend(a[1..], b);
    } else {
      assert a + b == b;
    }
  }

  /** A user turn opens no window; a model reply at `t` opens `[t, t + Tau]`. */
  lemma TurnWindows(ms: seq<Message>, m: Message)
    ensures m.role == User ==> Windows(ms + [m]) == Windows(ms)
    ensures m.role == Model ==>
      Windows(ms + [m]) == Windows(ms) + [Window(m.unixTime, m.unixTime + Tau)]
  {
    WindowsAppend(ms, [m]);
    assert [m][1..] == [];
  }

  /** A transcript without model replies opens no window at all. */
  lemma {:induction false} NoRepliesNoWindows(ms: seq<Message>)
    requires forall k :: 0 <= k < |ms| ==> ms[k].role == User
    ensures Windows(ms) == []
    decreases |ms|
  {
    if |ms| > 0 {
      NoRepliesNoWindows(ms[1..]);
    }
  }

  // ---------------------------------------------------------------------------
  // Filtering by the horizon
  // ---------------------------------------------------------------------------

  lemma {:induction false} MessagesUpToAppend(a: seq<Message>, b: seq<Message>, h: int)
    ensures MessagesUpTo(a + b, h) == MessagesUpTo(a, h) + MessagesUpTo(b, h)
    decreases |a|
  {
    if |a| > 0 {
      assert (a + b)[1..] == a[1..] + b;
      MessagesUpToAppend(a[1..], b, h);
    } else {
      assert a + b == b;
    }
  }

  lemma {:induction false} EventsUpToAppend(a: seq<Event>, b: seq<Event>, h: int)
    ensures EventsUpTo(a + b, h) == EventsUpTo(a, h) + EventsUpTo(b, h)
    decreases |a|
  {
    if |a| > 0 {
      assert (a + b)[1..] == a[1..] + b;
      EventsUpToAppend(a[1..], b, h);
    } else {
      assert a + b == b;
    }
  }

  lemma {:induction false} MessagesAfter(ms: seq<Message>, h: int)
    requires forall k :: 0 <= k < |ms| ==> ms[k].unixTime > h
    ensures MessagesUpTo(ms, h) == []
    decreases |ms|
  {
    if |ms| > 0 {
      MessagesAfter(ms[1..], h);
    }
  }

  lemma {:induction false} EventsAfter(es: seq<Event>, h: int)
    requires forall k :: 0 <= k < |es| ==> es[k].time > h
    ensures EventsUpTo(es, h) == []
    decreases |es|
  {
    if |es| > 0 {
      EventsAfter(es[1..], h);
    }
  }

  /** Filtering an already filtered transcript changes nothing. */
  lemma {:induction false} MessagesUpToIdempotent(ms: seq<Message>, h: int)
    ensures MessagesUpTo(MessagesUpTo(ms, h), h) == MessagesUpTo(ms, h)
    decreases |ms|
  {
    if |ms| > 0 {
      MessagesUpToIdempotent(ms[1..], h);
      var head := if ms[0].unixTime <= h then [ms[0]] else [];
      MessagesUpToAppend(head, MessagesUpTo(ms[1..], h), h);
      assert MessagesUpTo(head, h) == head by {
        if ms[0].unixTime <= h {
          assert head[1..] == [];
        }
      }
    }
  }

  lemma {:induction false} EventsUpToIdempotent(es: seq<Event>, h: int)
    ensures EventsUpTo(EventsUpTo(es, h), h) == EventsUpTo(es, h)
    decreases |es|
  {
    if |es| > 0 {
      EventsUpToIdempotent(es[1..], h);
      var head := if es[0].time <= h then [es[0]] else [];
      EventsUpToAppend(head, EventsUpTo(es[1..], h), h);
      assert EventsUpTo(head, h) == head by {
        if es[0].time <= h {
          assert head[1..] == [];
        }
      }
    }
  }

  /** Only chat turns and events at or before the horizon affect the
      result: dropping the later ones beforehand gives the same score. */
  lemma HorizonOnly(history: seq<Message>, session: Session, now: int, hash: UnitHash)
    ensures
      var h := Horizon(session, now);
      Score(history, session, now, hash)
      == Score(MessagesUpTo(history, h),
               session.(events := EventsUpTo(session.events, h)), now, hash)
  {
    var h := Horizon(session, now);
    MessagesUpToIdempotent(history, h);
    EventsUpToIdempotent(session.events, h);
  }

  /** Once the session is locked, chat turns and events stamped after the
      submit time leave every field of the result unchanged, and so does the
      clock. */
  lemma LockStability(
    history: seq<Message>, laterTurns: seq<Message>,
    session: Session, laterEvents: seq<Event>,
    now: int, laterNow: int, hash: UnitHash)
    requires Locked(session)
    requires forall k :: 0 <= k < |laterTurns| ==> laterTurns[k].unixTime > session.submitTime.value
    requires forall k :: 0 <= k < |laterEvents| ==> laterEvents[k].time > session.submitTime.value
    ensures Score(history + laterTurns, session.(events := session.events + laterEvents), laterNow, hash)
         == Score(history, session, now, hash)
  {
    var h := session.submitTime.value;
    MessagesUpToAppend(history, laterTurns, h);
    EventsUpToAppend(session.events, laterEvents, h);
    MessagesAfter(laterTurns, h);
    EventsAfter(laterEvents, h);
    assert MessagesUpTo(history + laterTurns, h) == MessagesUpTo(history, h);
    assert EventsUpTo(session.events + laterEvents, h) == EventsUpTo(session.events, h);
  }

  // ---------------------------------------------------------------------------
  // Order of the events
  // ---------------------------------------------------------------------------

  /** The times the engine sorts, before sorting. */
  function Projected(es: seq<Event>, h: int): seq<int> {
    Times(EventsUpTo(es, h))
  }

  lemma TimesAppend(a: seq<Event>, b: seq<Event>)
    ensures Times(a + b) == Times(a) + Times(b)
  {
    var l, r := Times(a + b), Times(a) + Times(b);
    assert |l| == |r|;
    forall k | 0 <= k < |l|
      ensures l[k] == r[k]
    {
      if k < |a| {
        assert l[k] == (a + b)[k].time == a[k].time;
      } else {
        assert l[k] == (a + b)[k].time == b[k - |a|].time;
      }
    }
  }

  lemma ProjectedAppend(a: seq<Event>, b: seq<Event>, h: int)
    ensures Projected(a + b, h) == Projected(a, h) + Projected(b, h)
  {
    EventsUpToAppend(a, b, h);
    TimesAppend(EventsUpTo(a, h), EventsUpTo(b, h));
  }

  /** Reordering the events does not change which times survive the filter. */
  lemma {:induction false} ProjectedPermutation(a: seq<Event>, b: seq<Event>, h: int)
    requires multiset(a) == multiset(b)
    ensures multiset(Projected(a, h)) == multiset(Projected(b, h))
    decreases |a|
  {
    if |a| == 0 {
      assert |b| == |multiset(b)| == 0;
    } else {
      var e := a[0];
      assert e in multiset(b);
      var k :| 0 <= k < |b| && b[k] == e;
      var b' := b[..k] + b[k + 1..];
      assert b == b[..k] + [e] + b[k + 1..];
      assert a == [e] + a[1..];
      assert multiset(a[1..]) == multiset(a) - multiset{e};
      assert multiset(b') == multiset(b) - multiset{e};
      ProjectedPermutation(a[1..], b', h);
      ProjectedAppend([e], a[1..], h);
      ProjectedAppend(b[..k], [e], h);
      ProjectedAppend(b[..k] + [e], b[k + 1..], h);
      ProjectedAppend(b[..k], b[k + 1..], h);
      MoveToFront(Projected([e], h), Projected(a[1..], h), Projected(b[..k], h), Projected(b[k + 1..], h));
    }
  }

  /** Moving a block to the front of a sequence keeps its multiset. */
  lemma MoveToFront(p: seq<int>, y: seq<int>, l: seq<int>, r: seq<int>)
    requires multiset(y) == multiset(l + r)
    ensures multiset(p + y) == multiset(l + p + r)
  {
  }

  /** Any permutation of the session's events yields the same result. */
  lemma EventOrderIrrelevant(
    history: seq<Message>, session: Session, reordered: seq<Event>, now: int, hash: UnitHash)
    requires multiset(reordered) == multiset(session.events)
    ensures Score(history, session.(events := reordered), now, hash) == Score(history, session, now, hash)
  {
    var h := Horizon(session, now);
    ProjectedPermutation(reordered, session.events, h);
    SortPermutation(Projected(reordered, h), Projected(session.events, h));
  }

  // ---------------------------------------------------------------------------
  // Edge cases of the formula
  // ---------------------------------------------------------------------------

  /** With a turn on record, the result is the one the sums build. */
  lemma ScoreWithTurns(history: seq<Message>, session: Session, now: int, hash: UnitHash)
    requires |MessagesUpTo(history, Horizon(session, now))| > 0
    ensures
      var h := Horizon(session, now);
      Score(history, session, now, hash)
        == Finish(Tally(MessagesUpTo(history, h), SortedTimesUpTo(session.events, h), hash),
                  LogMinutes(h, session.startTime), Locked(session))
  {
  }

  /** With a turn on record and positive weight, self is within half a
      point of the share of weight whose midpoint lies in no reply window,
      assist within half a point of the light influenced share, and collab
      within one point of the heavy influenced share. With no weight the
      shares are 0, 0 and 100. */
  lemma ScoreShares(history: seq<Message>, session: Session, now: int, hash: UnitHash)
    requires HasTurnUpTo(history, Horizon(session, now))
    ensures
      var h := Horizon(session, now);
      var ivs := Intervals(SortedTimesUpTo(session.events, h), hash);
      var ws := Windows(MessagesUpTo(history, h));
      var total := PartWeight(ivs, ws, Everything);
      var r := Score(history, session, now, hash);
      && (total == 0.0 ==> r.self == 0 && r.assist == 0 && r.collab == 100)
      && (total > 0.0 ==>
        var selfShare := Percent(PartWeight(ivs, ws, Unaided), total);
        var assistShare := Percent(PartWeight(ivs, ws, Light), total);
        var collabShare := Percent(PartWeight(ivs, ws, Heavy), total);
        && selfShare - 0.5 < r.self as real <= selfShare + 0.5
        && assistShare - 0.5 < r.assist as real <= assistShare + 0.5
        && collabShare - 1.0 <= r.collab as real < collabShare + 1.0)
  {
    var h := Horizon(session, now);
    var messages := MessagesUpTo(history, h);
    var ts := SortedTimesUpTo(session.events, h);
    var ivs := Intervals(ts, hash);
    var ws := Windows(messages);
    TurnSurvives(history, h);
    ScoreWithTurns(history, session, now, hash);
    var s := Tally(messages, ts, hash);
    TallyWeights(messages, ts, hash);
    PartWeightSplit(ivs, ws);
    if s.total > 0.0 {
      SharesNearParts(s, PartWeight(ivs, ws, Unaided), PartWeight(ivs, ws, Light), PartWeight(ivs, ws, Heavy));
    } else if s.total == 0.0 {
      SharesWithoutWeight(s);
    }
  }

  /** The share bounds of `SharesNearExact`, with the parts named. */
  lemma SharesNearParts(s: Sums, unaided: real, light: real, heavy: real)
    requires Consistent(s) && s.total > 0.0
    requires s.total - s.ai == unaided && s.under == light && s.collab == heavy
    ensures
      var selfShare := Percent(unaided, s.total);
      var assistShare := Percent(light, s.total);
      var collabShare := Percent(heavy, s.total);
      && selfShare - 0.5 < SharesOf(s).self as real <= selfShare + 0.5
      && assistShare - 0.5 < SharesOf(s).assist as real <= assistShare + 0.5
      && collabShare - 1.0 <= SharesOf(s).collab as real < collabShare + 1.0
  {
    SharesNearExact(s);
  }

  /** With a turn on record, the ratio is the influenced share of the
      weight in percent, rounded and clamped to [2, 98]; with no weight it
      is 2. */
  lemma ScoreRatio(history: seq<Message>, session: Session, now: int, hash: UnitHash)
    requires HasTurnUpTo(history, Horizon(session, now))
    ensures
      var h := Horizon(session, now);
      var ivs := Intervals(SortedTimesUpTo(session.events, h), hash);
      var ws := Windows(MessagesUpTo(history, h));
      var total := PartWeight(ivs, ws, Everything);
      var r := Score(history, session, now, hash);
      && (total == 0.0 ==> r.ratio == 2)
      && (total > 0.0 ==>
            var a := Percent(PartWeight(ivs, ws, AiInfluenced), total);
            && (a < 1.5 ==> r.ratio == 2)
            && (a >= 98.5 ==> r.ratio == 98)
            && (1.5 <= a < 98.5 ==> a - 0.5 < r.ratio as real <= a + 0.5))
  {
    var h := Horizon(session, now);
    var messages := MessagesUpTo(history, h);
    var ts := SortedTimesUpTo(session.events, h);
    TurnSurvives(history, h);
    ScoreWithTurns(history, session, now, hash);
    TallyWeights(messages, ts, hash);
  }

  /** A turn at or before the horizon survives the filter. */
  lemma TurnSurvives(history: seq<Message>, h: int)
    requires HasTurnUpTo(history, h)
    ensures |MessagesUpTo(history, h)| > 0
  {
    var k :| 0 <= k < |history| && history[k].unixTime <= h;
    assert history[k] in MessagesUpTo(history, h);
  }

  /** Without influenced weight the ratio is clamped up to 2 and assist is 0. */
  lemma FinishWithoutInfluence(s: Sums, minutes: int, locked: bool)
    requires s.ai == 0.0 && s.under == 0.0
    ensures Finish(s, minutes, locked).ratio == 2
    ensures Finish(s, minutes, locked).assist == 0
  {
    var d := Denominator(s.total);
    assert Percent(s.ai, d) == 0.0;
    assert Percent(s.under, d) == 0.0;
    assert Round(0.0) == 0;
  }

  /** Filtering keeps only turns of the history, so user turns stay user turns. */
  lemma FilteredUsers(history: seq<Message>, h: int)
    requires forall k :: 0 <= k < |history| && history[k].unixTime <= h ==> history[k].role == User
    ensures forall k :: 0 <= k < |MessagesUpTo(history, h)| ==> MessagesUpTo(history, h)[k].role == User
  {
    var ms := MessagesUpTo(history, h);
    forall k | 0 <= k < |ms|
      ensures ms[k].role == User
    {
      assert ms[k] in history;
      var j :| 0 <= j < |history| && history[j] == ms[k];
    }
  }

  /** Without windows nothing is influenced: the AI and assist sums are 0. */
  lemma NoReplyTally(messages: seq<Message>, ts: seq<int>, hash: UnitHash)
    requires Sorted(ts)
    requires forall k :: 0 <= k < |messages| ==> messages[k].role == User
    ensures Tally(messages, ts, hash).ai == 0.0
    ensures Tally(messages, ts, hash).under == 0.0
  {
    var ws := Windows(messages);
    NoRepliesNoWindows(messages);
    var ivs := Intervals(ts, hash);
    assert forall k :: 0 <= k < |ivs| ==> !Influenced(ivs[k].mid, ws);
    AccumulateNoInfluence(ivs, ws);
    SortedIntervalsNonNegative(ts, hash);
    assert Tally(messages, ts, hash) == Accumulate(ivs, ws);
  }

  /** With turns on record but no model reply among them, nothing is
      influenced; the clamp still lifts the ratio from 0 to 2. */
  lemma NoReplyRatio(history: seq<Message>, session: Session, now: int, hash: UnitHash)
    requires HasTurnUpTo(history, Horizon(session, now))
    requires forall k :: 0 <= k < |history| && history[k].unixTime <= Horizon(session, now) ==>
      history[k].role == User
    ensures Score(history, session, now, hash).ratio == 2
    ensures Score(history, session, now, hash).assist == 0
  {
    var h := Horizon(session, now);
    var messages := MessagesUpTo(history, h);
    TurnSurvives(history, h);
    FilteredUsers(history, h);
    var ts := SortedTimesUpTo(session.events, h);
    NoReplyTally(messages, ts, hash);
    ScoreWithTurns(history, session, now, hash);
    FinishWithoutInfluence(Tally(messages, ts, hash), LogMinutes(h, session.startTime), Locked(session));
  }

  /** When every adjacent pair of the surviving events is idle (in
      particular when fewer than two survive), no interval is emitted, the
      denominator is 1, and all of the 100 goes to collab. */
  lemma NoEffortBranch(history: seq<Message>, session: Session, now: int, hash: UnitHash)
    requires HasTurnUpTo(history, Horizon(session, now))
    requires
      var ts := SortedTimesUpTo(session.events, Horizon(session, now));
      forall i :: 1 <= i < |ts| ==> !ShortGap(ts, i)
    ensures
      var r := Score(history, session, now, hash);
      r.self == 0 && r.assist == 0 && r.collab == 100 && r.ratio == 2
      && r.tags == StructuredCollaboration
  {
    var h := Horizon(session, now);
    var messages := MessagesUpTo(history, h);
    var ts := SortedTimesUpTo(session.events, h);
    TurnSurvives(history, h);
    IdlePairsNoWeight(messages, ts, hash);
    ScoreWithTurns(history, session, now, hash);
    FinishWithoutWeight(LogMinutes(h, session.startTime), Locked(session));
  }

  /** Idle pairs only: the sums are all zero. */
  lemma IdlePairsNoWeight(messages: seq<Message>, ts: seq<int>, hash: UnitHash)
    requires Sorted(ts)
    requires forall i :: 1 <= i < |ts| ==> !ShortGap(ts, i)
    ensures Tally(messages, ts, hash) == Sums(0.0, 0.0, 0.0, 0.0)
  {
    IdleIntervals(ts, hash);
    assert Intervals(ts, hash) == [];
  }

  /** Zero sums: denominator 1, ratio clamped up to 2, everything to collab. */
  lemma FinishWithoutWeight(minutes: int, locked: bool)
    ensures
      var r := Finish(Sums(0.0, 0.0, 0.0, 0.0), minutes, locked);
      r.self == 0 && r.assist == 0 && r.collab == 100 && r.ratio == 2
      && r.tags == StructuredCollaboration
  {
    SharesWithoutWeight(Sums(0.0, 0.0, 0.0, 0.0));
    assert Percent(0.0, 1.0) == 0.0;
  }

  /** Events that all lie at or before the horizon all survive the filter. */
  lemma {:induction false} EventsUpToAll(es: seq<Event>, h: int)
    requires forall k :: 0 <= k < |es| ==> es[k].time <= h
    ensures EventsUpTo(es, h) == es
    decreases |es|
  {
    if |es| > 0 {
      EventsUpToAll(es[1..], h);
    }
  }

  /** Surviving times that are already ascending come out of the sort as they are. */
  lemma SortedTimesKept(es: seq<Event>, h: int, ts: seq<int>)
    requires forall k :: 0 <= k < |es| ==> es[k].time <= h
    requires Times(es) == ts && Sorted(ts)
    ensures SortedTimesUpTo(es, h) == ts
  {
    EventsUpToAll(es, h);
    SortedUnique(SortedTimesUpTo(es, h), ts);
  }

  /** The sorted times of two events at 0 and 600000 (ten minutes). */
  lemma TenMinutePair(es: seq<Event>, h: int)
    requires |es| == 2 && es[0].time == 0 && es[1].time == 600000 && h >= 600000
    ensures SortedTimesUpTo(es, h) == [0, 600000]
  {
    assert Times(es) == [0, 600000];
    SortedTimesKept(es, h, [0, 600000]);
  }

  /** A non-empty branch whose whole weight is influenced and at or above
      the threshold reports everything as collaboration. */
  lemma AllCollaborative(s: Sums, minutes: int, locked: bool)
    requires s.total >= Theta && s.ai == s.total && s.collab == s.total && s.under == 0.0
    ensures
      var r := Finish(s, minutes, locked);
      r.collab == 100 && r.self == 0 && r.assist == 0 && r.ratio == 98
      && r.tags == StructuredCollaboration
  {
    var d := s.total;
    assert Denominator(d) == d;
    assert Percent(0.0, d) == 0.0;
    assert d / d == 1.0;
    assert Percent(d, d) == 100.0;
  }

  /** The ten-minute pair is short, has its midpoint at five minutes and
      weighs at least 400. */
  lemma TenMinuteInterval(ts: seq<int>, hash: UnitHash)
    requires ts == [0, 600000]
    ensures Intervals(ts, hash) == [PairAt(ts, 1, hash)]
    ensures PairAt(ts, 1, hash).mid == 300000.0
    ensures PairAt(ts, 1, hash).delta >= 400.0
  {
    assert ts[..1] == [0];
    assert ShortGap(ts, 1);
    assert Intervals([0], hash) == [];
    assert (600000 - 0) as real / MsPerMinute == 10.0;
  }

  /** A single influenced interval at or above the threshold. */
  lemma SingleCollaborative(iv: Interval, ws: seq<Window>)
    requires Influenced(iv.mid, ws) && iv.delta >= Theta
    ensures Accumulate([iv], ws).ai == iv.delta
    ensures Accumulate([iv], ws).total == iv.delta
    ensures Accumulate([iv], ws).under == 0.0
    ensures Accumulate([iv], ws).collab == iv.delta
  {
    assert [iv][..0] == [];
    assert Accumulate([iv], ws) == AddInterval(Sums(0.0, 0.0, 0.0, 0.0), iv, ws);
    AddIntervalFields(Sums(0.0, 0.0, 0.0, 0.0), iv, ws);
  }

  /** The tally of that pair against the window of a reply at 0. */
  lemma CollaborativeTally(reply: Message, ts: seq<int>, hash: UnitHash)
    requires reply.role == Model && reply.unixTime == 0
    requires ts == [0, 600000]
    ensures
      var s := Tally([reply], ts, hash);
      s.total >= Theta && s.ai == s.total && s.collab == s.total && s.under == 0.0
  {
    var iv := PairAt(ts, 1, hash);
    TenMinuteInterval(ts, hash);
    var ws := Windows([reply]);
    assert ws == [Window(0, Tau)] by {
      assert [reply][1..] == [];
      assert Windows([]) == [];
    }
    assert Covers(ws[0], iv.mid);
    SingleCollaborative(iv, ws);
  }

  /** One model reply at 0 and one ten-minute pair whose midpoint (five
      minutes) lies in its window: the pair weighs at least 400, above the
      threshold, so all effort is collaborative, whatever `hash` is. */
  lemma CollaborativeInterval(reply: Message, session: Session, now: int, hash: UnitHash)
    requires reply.role == Model && reply.unixTime == 0
    requires session.submitTime == None && now >= 600000
    requires |session.events| == 2
    requires session.events[0].time == 0 && session.events[1].time == 600000
    ensures
      var r := Score([reply], session, now, hash);
      r.collab == 100 && r.self == 0 && r.assist == 0 && r.ratio == 98
      && r.tags == StructuredCollaboration
  {
    var h := now;
    assert MessagesUpTo([reply], h) == [reply] by {
      assert [reply][1..] == [];
    }
    var ts := SortedTimesUpTo(session.events, h);
    TenMinutePair(session.events, h);
    CollaborativeTally(reply, ts, hash);
    var s := Tally([reply], ts, hash);
    ScoreWithTurns([reply], session, now, hash);
    AllCollaborative(s, LogMinutes(h, session.startTime), false);
  }

  // ---------------------------------------------------------------------------
  // Collab is not always non-negative
  // ---------------------------------------------------------------------------

  /** Self 49.5% and assist 50.5% both round up, so collab is 100 - 50 - 51. */
  lemma SharesMinusOne()
    ensures SharesOf(Sums(1.01, 2.0, 1.01, 0.0)) == Shares(50, 51, -1)
  {
    assert Denominator(2.0) == 2.0;
    assert Percent(0.99, 2.0) == 49.5;
    assert Percent(1.01, 2.0) == 50.5;
    assert Round(49.5) == 50;
    assert Round(50.5) == 51;
  }

  /** The report built from those sums carries collab -1. */
  lemma RoundingLeavesMinusOne(minutes: int, locked: bool)
    ensures
      var r := Finish(Sums(1.01, 2.0, 1.01, 0.0), minutes, locked);
      r.self == 50 && r.assist == 51 && r.collab == -1
  {
    SharesMinusOne();
  }

  /** The sorted times of events at 0, 1485 and 3000 ms. */
  lemma ThreeEventTimes(es: seq<Event>, h: int)
    requires |es| == 3 && es[0].time == 0 && es[1].time == 1485 && es[2].time == 3000
    requires h >= 3000
    ensures SortedTimesUpTo(es, h) == [0, 1485, 3000]
  {
    assert Times(es) == [0, 1485, 3000];
    SortedTimesKept(es, h, [0, 1485, 3000]);
  }

  /** With a hash that is constantly 0 the multiplier is 40, so a gap of
      `g` ms weighs `g / 1500`. */
  lemma ThreeEventIntervals(ts: seq<int>, hash: UnitHash)
    requires ts == [0, 1485, 3000]
    requires hash(1485) == 0.0 && hash(3000) == 0.0
    ensures |Intervals(ts, hash)| == 2
    ensures Intervals(ts, hash)[0].mid == 742.5 && Intervals(ts, hash)[0].delta == 0.99
    ensures Intervals(ts, hash)[1].mid == 2242.5 && Intervals(ts, hash)[1].delta == 1.01
  {
    assert ts[..2] == [0, 1485];
    assert ts[..2][..1] == [0];
    assert Intervals([0], hash) == [];
    assert ShortGap(ts[..2], 1) && ShortGap(ts, 2);
    assert Intervals(ts, hash) == [PairAt(ts[..2], 1, hash), PairAt(ts, 2, hash)];
  }

  /** The tally of one uninfluenced and one influenced light interval. */
  lemma TwoPairTally(ivs: seq<Interval>, ws: seq<Window>)
    requires |ivs| == 2
    requires !Influenced(ivs[0].mid, ws) && Influenced(ivs[1].mid, ws) && ivs[1].delta < Theta
    ensures Accumulate(ivs, ws).ai == ivs[1].delta
    ensures Accumulate(ivs, ws).total == ivs[0].delta + ivs[1].delta
    ensures Accumulate(ivs, ws).under == ivs[1].delta
    ensures Accumulate(ivs, ws).collab == 0.0
  {
    var front := ivs[..1];
    assert front[..0] == [] && front[0] == ivs[0];
    var s0 := Accumulate([], ws);
    assert s0 == Sums(0.0, 0.0, 0.0, 0.0);
    var s1 := AddInterval(s0, ivs[0], ws);
    assert Accumulate(front, ws) == s1;
    AddIntervalFields(s0, ivs[0], ws);
    AddIntervalFields(s1, ivs[1], ws);
    assert Accumulate(ivs, ws) == AddInterval(s1, ivs[1], ws);
  }

  /** The tally of those three times against the window of a reply at 2000 ms:
      the first pair (weight 0.99, midpoint 742.5) is not influenced; the
      second (weight 1.01, midpoint 2242.5) is, and lies below the threshold. */
  lemma NegativeTally(ms: seq<Message>, ts: seq<int>, hash: UnitHash)
    requires |ms| == 1 && ms[0].role == Model && ms[0].unixTime == 2000
    requires ts == [0, 1485, 3000]
    requires hash(1485) == 0.0 && hash(3000) == 0.0
    ensures Tally(ms, ts, hash) == Sums(1.01, 2.0, 1.01, 0.0)
  {
    ThreeEventIntervals(ts, hash);
    var ivs := Intervals(ts, hash);
    var ws := Windows(ms);
    assert ws == [Window(2000, 602000)] by {
      assert ms[1..] == [];
      assert Windows([]) == [];
    }
    assert !Influenced(ivs[0].mid, ws);
    assert Covers(ws[0], ivs[1].mid);
    TwoPairTally(ivs, ws);
  }

  /** A session that reaches that case: events at 0, 1485 and 3000 ms, a
      model reply at 2000 ms, and a hash that is constantly 0. */
  lemma NegativeCollabSession(reply: Message, session: Session)
    requires reply.role == Model && reply.unixTime == 2000
    requires session.submitTime == None
    requires |session.events| == 3
    requires session.events[0].time == 0
    requires session.events[1].time == 1485
    requires session.events[2].time == 3000
    ensures Score([reply], session, 3000, (t: int) => 0.0).collab == -1
  {
    var hash: UnitHash := (t: int) => 0.0;
    var h := 3000;
    var messages := MessagesUpTo([reply], h);
    assert messages == [reply] by {
      assert [reply][1..] == [];
    }
    ThreeEventTimes(session.events, h);
    var ts := SortedTimesUpTo(session.events, h);
    NegativeTally(messages, ts, hash);
    ScoreWithTurns([reply], session, h, hash);
    RoundingLeavesMinusOne(LogMinutes(h, session.startTime), false);
  }
}
