/**
  The AI-participation scoring engine: the `stats` computation of the audit
  dashboard. It is a pure function of the chat history, the session and the
  current time `now` (read only while the session is unlocked). The float
  arithmetic of the source is modelled on `real`, and `seededRandom` is the
  parameter `hash`, of which only its range [0, 1) is known.
 */
module Scoring {
  import opened Wrappers
  import opened Types
  import opened Sorting

  /** A gap of 15 minutes or more between two events is idle time. */
  const IdleGap: int := 15 * 60 * 1000

  /** Length of the influence window after a model reply (10 minutes). */
  const Tau: int := 10 * 60 * 1000

  /** Weight from which an influenced interval counts as collaboration. */
  const Theta: real := 50.0

  const MsPerMinute: real := 60000.0

  /** `seededRandom`: a deterministic map from a timestamp into [0, 1). */
  type UnitHash = f: int -> real | forall t :: 0.0 <= f(t) < 1.0
    witness (t: int) => 0.0

  function Min(a: int, b: int): int { if a <= b then a else b }

  function Max(a: int, b: int): int { if a >= b then a else b }

  /** `Math.round`: the nearest integer, a half rounded upwards. */
  function Round(x: real): (n: int)
    ensures x - 0.5 < n as real <= x + 0.5
  {
    (x + 0.5).Floor
  }

  // ---------------------------------------------------------------------------
  // The audit horizon
  // ---------------------------------------------------------------------------

  /** `!!session.submitTime`: a submit time of 0 is falsy, hence unlocked. */
  predicate Locked(s: Session) {
    s.submitTime.Some? && s.submitTime.value != 0
  }

  /** `session.submitTime || Date.now()`. */
  function Horizon(s: Session, now: int): (h: int)
    ensures s.submitTime.Some? && s.submitTime.value != 0 ==> h == s.submitTime.value
    ensures s.submitTime == None || s.submitTime == Some(0) ==> h == now
  {
    if Locked(s) then s.submitTime.value else now
  }

  /** The chat turns at or before the horizon, in their original order. */
  function MessagesUpTo(ms: seq<Message>, h: int): (r: seq<Message>)
    ensures forall m :: m in r <==> m in ms && m.unixTime <= h
    ensures |r| <= |ms|
  {
    if |ms| == 0 then []
    else (if ms[0].unixTime <= h then [ms[0]] else []) + MessagesUpTo(ms[1..], h)
  }

  /** The events at or before the horizon, in their original order. */
  function EventsUpTo(es: seq<Event>, h: int): (r: seq<Event>)
    ensures forall e :: e in r <==> e in es && e.time <= h
    ensures |r| <= |es|
  {
    if |es| == 0 then []
    else (if es[0].time <= h then [es[0]] else []) + EventsUpTo(es[1..], h)
  }

  /** The filter keeps every copy of an event at or before the horizon and
      no copy of a later one. */
  lemma {:induction false} EventsUpToCount(es: seq<Event>, h: int)
    ensures forall e :: multiset(EventsUpTo(es, h))[e] == if e.time <= h then multiset(es)[e] else 0
  {
    if |es| > 0 {
      EventsUpToCount(es[1..], h);
      assert es == [es[0]] + es[1..];
    }
  }

  function Times(es: seq<Event>): seq<int> {
    seq(|es|, i requires 0 <= i < |es| => es[i].time)
  }

  /** No surviving time lies after the horizon. */
  lemma TimesUpTo(es: seq<Event>, h: int)
    ensures forall t :: t in Times(EventsUpTo(es, h)) ==> t <= h
  {
    var kept := EventsUpTo(es, h);
    forall t | t in Times(kept)
      ensures t <= h
    {
      var k :| 0 <= k < |kept| && Times(kept)[k] == t;
      assert kept[k] in kept;
    }
  }

  /** The times of the events the engine pairs up: filtered, then sorted.
      The sort compares only `time` and nothing else of an event is read
      afterwards, so sorting the times is sorting the events. */
  function SortedTimesUpTo(es: seq<Event>, h: int): (ts: seq<int>)
    ensures Sorted(ts)
    ensures multiset(ts) == multiset(Times(EventsUpTo(es, h)))
    ensures forall k :: 0 <= k < |ts| ==> ts[k] <= h
  {
    var kept := Times(EventsUpTo(es, h));
    TimesUpTo(es, h);
    SortBounded(kept, h);
    Sort(kept)
  }

  // ---------------------------------------------------------------------------
  // Influence windows
  // ---------------------------------------------------------------------------

  datatype Window = Window(start: int, end: int)

  /** One window `[t, t + Tau]` per model reply; user turns open none. */
  function Windows(ms: seq<Message>): seq<Window> {
    if |ms| == 0 then []
    else
      (if ms[0].role == Model then [Window(ms[0].unixTime, ms[0].unixTime + Tau)] else [])
      + Windows(ms[1..])
  }

  /** Every window spans exactly `Tau` from the time of a model reply, and
      there is at most one window per turn. */
  lemma {:induction false} WindowsShape(ms: seq<Message>)
    ensures |Windows(ms)| <= |ms|
    ensures forall k :: 0 <= k < |Windows(ms)| ==> Windows(ms)[k].end == Windows(ms)[k].start + Tau
    ensures forall w :: w in Windows(ms) ==>
      exists k :: 0 <= k < |ms| && ms[k].role == Model && ms[k].unixTime == w.start
    decreases |ms|
  {
    if |ms| > 0 {
      WindowsShape(ms[1..]);
      var ws := Windows(ms);
      var rest := Windows(ms[1..]);
      forall w | w in ws
        ensures exists k :: 0 <= k < |ms| && ms[k].role == Model && ms[k].unixTime == w.start
      {
        if w in rest {
          var k :| 0 <= k < |ms[1..]| && ms[1..][k].role == Model && ms[1..][k].unixTime == w.start;
          assert ms[k + 1] == ms[1..][k];
        } else {
          assert ms[0].role == Model && ms[0].unixTime == w.start;
        }
      }
    }
  }

  /** Membership is inclusive at both ends. */
  predicate Covers(w: Window, mid: real) {
    w.start as real <= mid <= w.end as real
  }

  /** `aiWindows.some(...)`. */
  predicate Influenced(mid: real, ws: seq<Window>) {
    exists i :: 0 <= i < |ws| && Covers(ws[i], mid)
  }

  // ---------------------------------------------------------------------------
  // Effort intervals
  // ---------------------------------------------------------------------------

  datatype Interval = Interval(mid: real, delta: real)

  /** The interval between two consecutive event times: its midpoint, and
      the gap in minutes times a multiplier in [40, 70). */
  function PairInterval(prev: int, cur: int, hash: UnitHash): (iv: Interval)
    ensures prev <= cur ==> prev as real <= iv.mid <= cur as real
    ensures prev <= cur ==>
      var minutes := (cur - prev) as real / MsPerMinute;
      40.0 * minutes <= iv.delta <= 70.0 * minutes
    ensures prev < cur ==> 0.0 < iv.delta < 70.0 * ((cur - prev) as real / MsPerMinute)
  {
    var minutes := (cur - prev) as real / MsPerMinute;
    var r := hash(cur);
    var multiplier := 40.0 + r * 30.0;
    assert 40.0 <= multiplier < 70.0;
    assert prev <= cur ==> 40.0 * minutes <= multiplier * minutes <= 70.0 * minutes;
    Interval((cur + prev) as real / 2.0, minutes * multiplier)
  }

  /** The multiplier is drawn from the later time of the pair: two hashes
      that agree there give the same interval. */
  lemma PairIntervalSeed(prev: int, cur: int, h1: UnitHash, h2: UnitHash)
    requires h1(cur) == h2(cur)
    ensures PairInterval(prev, cur, h1) == PairInterval(prev, cur, h2)
  {
  }

  /** The pair ending at index `i` is closer than the idle gap. */
  predicate ShortGap(ts: seq<int>, i: int)
    requires 1 <= i < |ts|
  {
    ts[i] - ts[i - 1] < IdleGap
  }

  function PairAt(ts: seq<int>, i: int, hash: UnitHash): Interval
    requires 1 <= i < |ts|
  {
    PairInterval(ts[i - 1], ts[i], hash)
  }

  /** The loop over adjacent pairs: one interval per short gap, none for an
      idle gap, in the order of the pairs. */
  function Intervals(ts: seq<int>, hash: UnitHash): (r: seq<Interval>)
    ensures |r| < |ts| || |ts| == 0
    decreases |ts|
  {
    if |ts| < 2 then []
    else
      var n := |ts| - 1;
      Intervals(ts[..n], hash) + (if ShortGap(ts, n) then [PairAt(ts, n, hash)] else [])
  }

  /** Every emitted interval is the interval of a short-gap pair, and every
      short-gap pair emits its interval. */
  lemma {:induction false} IntervalsSpec(ts: seq<int>, hash: UnitHash)
    ensures forall k :: 0 <= k < |Intervals(ts, hash)| ==>
      exists i :: 1 <= i < |ts| && ShortGap(ts, i) && Intervals(ts, hash)[k] == PairAt(ts, i, hash)
    ensures forall i :: 1 <= i < |ts| && ShortGap(ts, i) ==> PairAt(ts, i, hash) in Intervals(ts, hash)
    decreases |ts|
  {
    if |ts| < 2 {
      assert Intervals(ts, hash) == [];
    } else {
      var n := |ts| - 1;
      var front := ts[..n];
      IntervalsSpec(front, hash);
      var earlier := Intervals(front, hash);
      var r := Intervals(ts, hash);
      assert forall i :: 1 <= i < n ==> PairAt(front, i, hash) == PairAt(ts, i, hash);
      assert forall i :: 1 <= i < n ==> ShortGap(front, i) == ShortGap(ts, i);
      forall k | 0 <= k < |r|
        ensures exists i :: 1 <= i < |ts| && ShortGap(ts, i) && r[k] == PairAt(ts, i, hash)
      {
        if k < |earlier| {
          assert r[k] == earlier[k];
          assert exists i :: 1 <= i < |front| && ShortGap(front, i) && earlier[k] == PairAt(front, i, hash);
          var i :| 1 <= i < |front| && ShortGap(front, i) && earlier[k] == PairAt(front, i, hash);
          assert ShortGap(ts, i) && r[k] == PairAt(ts, i, hash);
        } else {
          assert ShortGap(ts, n) && r[k] == PairAt(ts, n, hash);
        }
      }
      forall i | 1 <= i < |ts| && ShortGap(ts, i)
        ensures PairAt(ts, i, hash) in r
      {
        if i < n {
          assert ShortGap(front, i);
          assert PairAt(front, i, hash) in earlier;
        }
      }
    }
  }

  /** The indices of the short-gap pairs among the first `n` times,
      ascending: each index once, and nothing else. */
  function GapIndices(ts: seq<int>, n: nat): (idx: seq<int>)
    requires n <= |ts|
    ensures forall k :: 0 <= k < |idx| ==> 1 <= idx[k] < n && ShortGap(ts, idx[k])
    ensures forall j, k :: 0 <= j < k < |idx| ==> idx[j] < idx[k]
    ensures forall i :: 1 <= i < n && ShortGap(ts, i) ==> i in idx
    decreases n
  {
    if n < 2 then []
    else GapIndices(ts, n - 1) + (if ShortGap(ts, n - 1) then [n - 1] else [])
  }

  /** The short-gap indices of a prefix are those of the whole below its length. */
  lemma {:induction false} GapIndicesPrefix(ts: seq<int>, m: nat, n: nat)
    requires n <= m <= |ts|
    ensures GapIndices(ts[..m], n) == GapIndices(ts, n)
    decreases n
  {
    if n >= 2 {
      GapIndicesPrefix(ts, m, n - 1);
      assert ShortGap(ts[..m], n - 1) == ShortGap(ts, n - 1);
    }
  }

  /** The loop emits, in order, the interval of each short-gap pair and of
      no other pair: the k-th interval belongs to the k-th short gap. */
  lemma {:induction false} IntervalsInOrder(ts: seq<int>, hash: UnitHash)
    ensures
      var idx := GapIndices(ts, |ts|);
      && |Intervals(ts, hash)| == |idx|
      && forall k :: 0 <= k < |idx| ==> Intervals(ts, hash)[k] == PairAt(ts, idx[k], hash)
    decreases |ts|
  {
    if |ts| >= 2 {
      var n := |ts| - 1;
      var front := ts[..n];
      IntervalsInOrder(front, hash);
      GapIndicesPrefix(ts, n, n);
      assert front[..n] == front;
      var earlier := GapIndices(ts, n);
      assert GapIndices(front, |front|) == earlier;
      var idx := GapIndices(ts, |ts|);
      var r := Intervals(ts, hash);
      forall k | 0 <= k < |idx|
        ensures r[k] == PairAt(ts, idx[k], hash)
      {
        if k < |earlier| {
          assert r[k] == Intervals(front, hash)[k] == PairAt(front, earlier[k], hash);
          assert idx[k] == earlier[k];
        }
      }
    }
  }

  /** When every adjacent pair is idle, nothing is emitted. */
  lemma {:induction false} IdleIntervals(ts: seq<int>, hash: UnitHash)
    requires forall i :: 1 <= i < |ts| ==> !ShortGap(ts, i)
    ensures Intervals(ts, hash) == []
    decreases |ts|
  {
    if |ts| >= 2 {
      var n := |ts| - 1;
      assert forall i :: 1 <= i < n ==> ShortGap(ts[..n], i) == ShortGap(ts, i);
      IdleIntervals(ts[..n], hash);
      assert !ShortGap(ts, n);
    }
  }

  predicate NonNegative(ivs: seq<Interval>) {
    forall k :: 0 <= k < |ivs| ==> 0.0 <= ivs[k].delta
  }

  /** Pairs of an ascending sequence have non-negative weight. */
  lemma SortedIntervalsNonNegative(ts: seq<int>, hash: UnitHash)
    requires Sorted(ts)
    ensures NonNegative(Intervals(ts, hash))
  {
    var r := Intervals(ts, hash);
    IntervalsSpec(ts, hash);
    forall k | 0 <= k < |r|
      ensures 0.0 <= r[k].delta
    {
      assert exists i :: 1 <= i < |ts| && ShortGap(ts, i) && r[k] == PairAt(ts, i, hash);
      var i :| 1 <= i < |ts| && ShortGap(ts, i) && r[k] == PairAt(ts, i, hash);
      assert ts[i - 1] <= ts[i];
    }
  }

  // ---------------------------------------------------------------------------
  // Aggregation
  // ---------------------------------------------------------------------------

  /** The four running sums of the `forEach` over the intervals. */
  datatype Sums = Sums(ai: real, total: real, under: real, collab: real)

  /** The influenced weight splits into the under-threshold and the
      collaborative parts, and is part of the total. */
  predicate Consistent(s: Sums) {
    0.0 <= s.under && 0.0 <= s.collab && s.under + s.collab == s.ai && s.ai <= s.total
  }

  /** The body of the `forEach`: one interval's weight goes to the total,
      and, if influenced, to the AI sum and to one side of the threshold. */
  function AddInterval(s: Sums, iv: Interval, ws: seq<Window>): Sums {
    var total := s.total + iv.delta;
    if Influenced(iv.mid, ws) then
      if iv.delta < Theta then Sums(s.ai + iv.delta, total, s.under + iv.delta, s.collab)
      else Sums(s.ai + iv.delta, total, s.under, s.collab + iv.delta)
    else Sums(s.ai, total, s.under, s.collab)
  }

  /** What one step adds to each of the four sums. */
  lemma AddIntervalFields(s: Sums, iv: Interval, ws: seq<Window>)
    ensures
      var r := AddInterval(s, iv, ws);
      var influenced := Influenced(iv.mid, ws);
      && r.total == s.total + iv.delta
      && r.ai == s.ai + (if influenced then iv.delta else 0.0)
      && r.under == s.under + (if influenced && iv.delta < Theta then iv.delta else 0.0)
      && r.collab == s.collab + (if influenced && iv.delta >= Theta then iv.delta else 0.0)
  {
  }

  function Accumulate(ivs: seq<Interval>, ws: seq<Window>): (s: Sums)
    ensures s.under + s.collab == s.ai
    ensures NonNegative(ivs) ==> Consistent(s)
    decreases |ivs|
  {
    if |ivs| == 0 then Sums(0.0, 0.0, 0.0, 0.0)
    else
      var n := |ivs| - 1;
      AddInterval(Accumulate(ivs[..n], ws), ivs[n], ws)
  }

  /** Without any influenced interval the AI weight is zero. */
  lemma {:induction false} AccumulateNoInfluence(ivs: seq<Interval>, ws: seq<Window>)
    requires forall k :: 0 <= k < |ivs| ==> !Influenced(ivs[k].mid, ws)
    ensures Accumulate(ivs, ws).ai == 0.0
    decreases |ivs|
  {
    if |ivs| > 0 {
      var n := |ivs| - 1;
      assert !Influenced(ivs[n].mid, ws);
      AccumulateNoInfluence(ivs[..n], ws);
      AddIntervalFields(Accumulate(ivs[..n], ws), ivs[n], ws);
    }
  }

  /** With every interval influenced the AI weight is the whole total. */
  lemma {:induction false} AccumulateAllInfluenced(ivs: seq<Interval>, ws: seq<Window>)
    requires forall k :: 0 <= k < |ivs| ==> Influenced(ivs[k].mid, ws)
    ensures Accumulate(ivs, ws).ai == Accumulate(ivs, ws).total
    decreases |ivs|
  {
    if |ivs| > 0 {
      var n := |ivs| - 1;
      assert Influenced(ivs[n].mid, ws);
      AccumulateAllInfluenced(ivs[..n], ws);
      AddIntervalFields(Accumulate(ivs[..n], ws), ivs[n], ws);
    }
  }

  /** Influenced intervals below the threshold never reach the collaborative
      sum. */
  lemma {:induction false} AccumulateBelowTheta(ivs: seq<Interval>, ws: seq<Window>)
    requires forall k :: 0 <= k < |ivs| ==> ivs[k].delta < Theta
    ensures Accumulate(ivs, ws).collab == 0.0
    decreases |ivs|
  {
    if |ivs| > 0 {
      var n := |ivs| - 1;
      assert ivs[n].delta < Theta;
      AccumulateBelowTheta(ivs[..n], ws);
      AddIntervalFields(Accumulate(ivs[..n], ws), ivs[n], ws);
    }
  }

  /** Influenced intervals at or above the threshold never reach the
      under-threshold sum. */
  lemma {:induction false} AccumulateAtLeastTheta(ivs: seq<Interval>, ws: seq<Window>)
    requires forall k :: 0 <= k < |ivs| ==> ivs[k].delta >= Theta
    ensures Accumulate(ivs, ws).under == 0.0
    decreases |ivs|
  {
    if |ivs| > 0 {
      var n := |ivs| - 1;
      assert ivs[n].delta >= Theta;
      AccumulateAtLeastTheta(ivs[..n], ws);
      AddIntervalFields(Accumulate(ivs[..n], ws), ivs[n], ws);
    }
  }

  /** The four parts of the effort the sums measure. */
  datatype Part =
    | Everything     // every interval
    | AiInfluenced   // intervals whose midpoint lies in a reply window
    | Unaided        // intervals whose midpoint lies in no reply window
    | Light          // influenced and below the threshold
    | Heavy          // influenced and at or above the threshold

  predicate InPart(p: Part, iv: Interval, ws: seq<Window>) {
    match p
    case Everything => true
    case AiInfluenced => Influenced(iv.mid, ws)
    case Unaided => !Influenced(iv.mid, ws)
    case Light => Influenced(iv.mid, ws) && iv.delta < Theta
    case Heavy => Influenced(iv.mid, ws) && iv.delta >= Theta
  }

  /** The weight of the intervals of part `p`, summed from the front: a
      reference definition independent of the running sums. */
  function PartWeight(ivs: seq<Interval>, ws: seq<Window>, p: Part): real
    decreases |ivs|
  {
    if |ivs| == 0 then 0.0
    else (if InPart(p, ivs[0], ws) then ivs[0].delta else 0.0) + PartWeight(ivs[1..], ws, p)
  }

  lemma {:induction false} PartWeightAppend(a: seq<Interval>, b: seq<Interval>, ws: seq<Window>, p: Part)
    ensures PartWeight(a + b, ws, p) == PartWeight(a, ws, p) + PartWeight(b, ws, p)
    decreases |a|
  {
    if |a| == 0 {
      assert a + b == b;
    } else {
      assert (a + b)[0] == a[0];
      assert (a + b)[1..] == a[1..] + b;
      PartWeightAppend(a[1..], b, ws, p);
    }
  }

  /** Every interval is either influenced or unaided. */
  lemma {:induction false} PartWeightSplit(ivs: seq<Interval>, ws: seq<Window>)
    ensures PartWeight(ivs, ws, Everything)
         == PartWeight(ivs, ws, AiInfluenced) + PartWeight(ivs, ws, Unaided)
    ensures NonNegative(ivs) ==>
      0.0 <= PartWeight(ivs, ws, Unaided) && 0.0 <= PartWeight(ivs, ws, AiInfluenced)
    decreases |ivs|
  {
    if |ivs| > 0 {
      PartWeightSplit(ivs[1..], ws);
    }
  }

  /** The weight of one more interval at the end. */
  lemma PartWeightSnoc(ivs: seq<Interval>, ws: seq<Window>, p: Part)
    requires |ivs| > 0
    ensures
      var n := |ivs| - 1;
      PartWeight(ivs, ws, p)
        == PartWeight(ivs[..n], ws, p) + (if InPart(p, ivs[n], ws) then ivs[n].delta else 0.0)
  {
    var n := |ivs| - 1;
    assert ivs == ivs[..n] + [ivs[n]];
    PartWeightAppend(ivs[..n], [ivs[n]], ws, p);
    assert [ivs[n]][1..] == [];
  }

  /** The running sums are the weights of the parts: the total is all the
      weight, the AI sum the influenced weight, and the under-threshold and
      collaborative sums its split at the threshold. */
  lemma {:induction false} AccumulateWeights(ivs: seq<Interval>, ws: seq<Window>)
    ensures Accumulate(ivs, ws).total == PartWeight(ivs, ws, Everything)
    ensures Accumulate(ivs, ws).ai == PartWeight(ivs, ws, AiInfluenced)
    ensures Accumulate(ivs, ws).under == PartWeight(ivs, ws, Light)
    ensures Accumulate(ivs, ws).collab == PartWeight(ivs, ws, Heavy)
    decreases |ivs|
  {
    if |ivs| > 0 {
      var n := |ivs| - 1;
      AccumulateWeights(ivs[..n], ws);
      AddIntervalFields(Accumulate(ivs[..n], ws), ivs[n], ws);
      PartWeightSnoc(ivs, ws, Everything);
      PartWeightSnoc(ivs, ws, AiInfluenced);
      PartWeightSnoc(ivs, ws, Light);
      PartWeightSnoc(ivs, ws, Heavy);
    }
  }

  /** `sumDeltaTotal || 1`: a zero total is replaced by 1. */
  function Denominator(total: real): (d: real)
    ensures d != 0.0
    ensures total != 0.0 ==> d == total
    ensures total == 0.0 ==> d == 1.0
  {
    if total == 0.0 then 1.0 else total
  }

  datatype Shares = Shares(self: int, assist: int, collab: int)

  /** `(x / d) * 100`. */
  function Percent(x: real, d: real): real
    requires d != 0.0
  {
    x / d * 100.0
  }

  /** The three percentages: self and assist are rounded independently and
      collab takes what remains of 100. */
  function SharesOf(s: Sums): (p: Shares)
    ensures p.self + p.assist + p.collab == 100
  {
    var denominator := Denominator(s.total);
    var selfWeight := if s.total - s.ai >= 0.0 then s.total - s.ai else 0.0;
    var pSelf := Round(Percent(selfWeight, denominator));
    var pUnder := Round(Percent(s.under, denominator));
    Shares(pSelf, pUnder, 100 - pSelf - pUnder)
  }

  /** A part `x` of a positive whole `t`, as a percentage, lies in [0, 100]. */
  lemma PercentBounds(x: real, t: real)
    requires 0.0 <= x <= t && t > 0.0
    ensures 0.0 <= Percent(x, t) <= 100.0
  {
    var q := x / t;
    assert q * t == x;
  }

  /** The exact self, under and collab percentages of a positive total add
      to 100. */
  lemma ShareSum(s: Sums)
    requires Consistent(s) && s.total > 0.0
    ensures Percent(s.total - s.ai, s.total) + Percent(s.under, s.total)
            + Percent(s.collab, s.total) == 100.0
  {
    var t := s.total;
    assert (s.total - s.ai) + s.under + s.collab == t;
    assert (s.total - s.ai) / t + s.under / t + s.collab / t == t / t;
  }

  /** Rounding two percentages that add up to at most 100 leaves at least
      -1 for the remainder. */
  lemma RoundedPair(a: real, b: real)
    requires 0.0 <= a && 0.0 <= b && a + b <= 100.0
    ensures 0 <= Round(a) <= 100 && 0 <= Round(b) <= 100
    ensures -1 <= 100 - Round(a) - Round(b) <= 100
  {
  }

  /** For a positive total, self and assist are the rounded exact shares. */
  lemma SharesOfPositive(s: Sums)
    requires Consistent(s) && s.total > 0.0
    ensures SharesOf(s).self == Round(Percent(s.total - s.ai, s.total))
    ensures SharesOf(s).assist == Round(Percent(s.under, s.total))
  {
  }

  /** Self and assist are true percentages, and collab is at least -1. */
  lemma SharesBounds(s: Sums)
    ensures Consistent(s) ==>
      && 0 <= SharesOf(s).self <= 100
      && 0 <= SharesOf(s).assist <= 100
      && -1 <= SharesOf(s).collab <= 100
  {
    if !Consistent(s) {
    } else if s.total > 0.0 {
      var t := s.total;
      PercentBounds(t - s.ai, t);
      PercentBounds(s.under, t);
      PercentBounds(s.collab, t);
      ShareSum(s);
      SharesOfPositive(s);
      RoundedPair(Percent(t - s.ai, t), Percent(s.under, t));
    } else {
      SharesWithoutWeight(s);
    }
  }

  /** Self is its exact share rounded, and collab lies within one point of
      its exact share: the rounding of the other two is charged to it. */
  lemma SharesNearExact(s: Sums)
    requires Consistent(s) && s.total > 0.0
    ensures
      var selfShare := Percent(s.total - s.ai, s.total);
      var assistShare := Percent(s.under, s.total);
      var collabShare := Percent(s.collab, s.total);
      && selfShare - 0.5 < SharesOf(s).self as real <= selfShare + 0.5
      && assistShare - 0.5 < SharesOf(s).assist as real <= assistShare + 0.5
      && collabShare - 1.0 <= SharesOf(s).collab as real < collabShare + 1.0
  {
    ShareSum(s);
    SharesOfPositive(s);
  }

  /** With no weight at all the denominator is 1, and all of it goes to
      collab. */
  lemma SharesWithoutWeight(s: Sums)
    requires Consistent(s) && s.total == 0.0
    ensures SharesOf(s) == Shares(0, 0, 100)
  {
    assert Percent(0.0, 1.0) == 0.0;
  }

  // ---------------------------------------------------------------------------
  // The result
  // ---------------------------------------------------------------------------

  /** The label set chosen for the report; the label strings are display. */
  datatype TagSet =
    | SelfStudy                 // the single tag of the empty-history result
    | StructuredCollaboration   // collab above 35
    | AutonomousConstruction    // otherwise

  datatype Stats = Stats(
    ratio: int,
    self: int,
    assist: int,
    collab: int,
    totalLogTime: int,
    tags: TagSet,
    isLocked: bool)

  /** Some chat turn lies at or before the horizon. */
  predicate HasTurnUpTo(history: seq<Message>, h: int) {
    exists k :: 0 <= k < |history| && history[k].unixTime <= h
  }

  /** The four sums over the intervals of the sorted times `ts`, measured
      against the windows of the filtered turns. */
  function Tally(messages: seq<Message>, ts: seq<int>, hash: UnitHash): (s: Sums)
    requires Sorted(ts)
    ensures Consistent(s)
  {
    SortedIntervalsNonNegative(ts, hash);
    Accumulate(Intervals(ts, hash), Windows(messages))
  }

  /** The tally is the weights of the parts over the intervals of `ts`,
      measured against the windows of `messages`. */
  lemma TallyWeights(messages: seq<Message>, ts: seq<int>, hash: UnitHash)
    requires Sorted(ts)
    ensures
      var ivs := Intervals(ts, hash);
      var ws := Windows(messages);
      var s := Tally(messages, ts, hash);
      && s.total == PartWeight(ivs, ws, Everything)
      && s.ai == PartWeight(ivs, ws, AiInfluenced)
      && s.under == PartWeight(ivs, ws, Light)
      && s.collab == PartWeight(ivs, ws, Heavy)
  {
    AccumulateWeights(Intervals(ts, hash), Windows(messages));
  }

  /** The AI-participation ratio: the influenced share of the weight in
      percent, rounded and clamped to [2, 98]. */
  function Ratio(sums: Sums): (r: int)
    ensures
      var a := Percent(sums.ai, Denominator(sums.total));
      && (a < 1.5 ==> r == 2)
      && (a >= 98.5 ==> r == 98)
      && (1.5 <= a < 98.5 ==> a - 0.5 < r as real <= a + 0.5)
    ensures Consistent(sums) && sums.total == 0.0 ==> r == 2
  {
    var a := Percent(sums.ai, Denominator(sums.total));
    assert Consistent(sums) && sums.total == 0.0 ==> a == 0.0;
    Min(98, Max(2, Round(a)))
  }

  /** The log time in whole minutes from the session start to the horizon,
      at least 1. */
  function LogMinutes(h: int, startTime: int): (m: int)
    ensures m >= 1
    ensures var x := (h - startTime) as real / MsPerMinute;
      && (x >= 0.5 ==> x - 0.5 < m as real <= x + 0.5)
      && (x < 0.5 ==> m == 1)
  {
    Max(1, Round((h - startTime) as real / MsPerMinute))
  }

  /** The result of the non-empty branch, from the sums and the log time. */
  function Finish(sums: Sums, minutes: int, locked: bool): (r: Stats)
    ensures r.self + r.assist + r.collab == 100
    ensures r.isLocked == locked && r.totalLogTime == minutes
    ensures r.ratio == Ratio(sums) && 2 <= r.ratio <= 98
    ensures r.self == SharesOf(sums).self && r.assist == SharesOf(sums).assist
    ensures r.collab == SharesOf(sums).collab
    ensures r.tags != SelfStudy
    ensures r.tags == StructuredCollaboration <==> r.collab > 35
    ensures Consistent(sums) ==>
      0 <= r.self <= 100 && 0 <= r.assist <= 100 && -1 <= r.collab <= 100
  {
    var p := SharesOf(sums);
    SharesBounds(sums);
    Stats(
      Ratio(sums),
      p.self,
      p.assist,
      p.collab,
      minutes,
      if p.collab > 35 then StructuredCollaboration else AutonomousConstruction,
      locked)
  }

  /** The result of the whole computation. The degenerate branch is taken
      when no chat turn lies at or before the horizon, whatever the events
      are; it reports a log time of 0. */
  function Score(history: seq<Message>, session: Session, now: int, hash: UnitHash): (r: Stats)
    ensures r.self + r.assist + r.collab == 100
    ensures r.isLocked <==> session.submitTime.Some? && session.submitTime.value != 0
    ensures !HasTurnUpTo(history, Horizon(session, now)) ==>
      r == Stats(0, 100, 0, 0, 0, SelfStudy, r.isLocked)
    ensures HasTurnUpTo(history, Horizon(session, now)) ==>
      && 2 <= r.ratio <= 98
      && r.totalLogTime >= 1
      && 0 <= r.self <= 100 && 0 <= r.assist <= 100 && -1 <= r.collab <= 100
      && r.tags != SelfStudy
      && (r.tags == StructuredCollaboration <==> r.collab > 35)
  {
    var locked := Locked(session);
    var h := Horizon(session, now);
    var messages := MessagesUpTo(history, h);
    if |messages| == 0 then
      assert !HasTurnUpTo(history, h);
      Stats(0, 100, 0, 0, 0, SelfStudy, locked)
    else
      assert messages[0] in history;
      Finish(Tally(messages, SortedTimesUpTo(session.events, h), hash), LogMinutes(h, session.startTime), locked)
  }
}
