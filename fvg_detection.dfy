/**
 * Range-breakout fair-value-gap detector.
 *
 * One pass over chronologically ordered OHLC bars:
 *  1. fold the bars of the first time-of-day session window `[start, end)`
 *     into a high/low range,
 *  2. find the first later bar that breaks out of that range (up before down),
 *  3. report the first gap between two adjacent bars in the breakout
 *     direction, and stop.
 *
 * `Detect` is the specification of the whole routine, built from one
 * function per phase; `DetectFvgAfterAsiaBreak` is the routine itself, with
 * the loops of the original, proved equal to `Detect`. The lemmas say what
 * each phase computes in declarative terms.
 */
module FvgDetection {
  import opened Wrappers

  /** Microseconds in a day: the resolution of a time of day. */
  const DayMicros: int := 86_400_000_000

  /** A time of day, in microseconds since midnight; compared like a clock time. */
  type TimeOfDay = t: int | 0 <= t < DayMicros

  /** The window the original uses when none is given: from midnight up to, not including, 09:00. */
  const DefaultAsiaStart: TimeOfDay := 0
  const DefaultAsiaEnd: TimeOfDay := 9 * 3_600_000_000

  /** A bar's time stamp: a calendar day number and the time of day within it. */
  datatype Timestamp = Timestamp(day: int, time: TimeOfDay)

  /** One OHLC bar. Prices are only compared, never combined arithmetically. */
  datatype Bar = Bar(ts: Timestamp, open: real, high: real, low: real, close: real)

  datatype Direction = Up | Down

  /**
   * A detected gap: the time stamp of the bar where it appears, the
   * direction, and the pair stored under "gap". For both directions
   * the first component is the lower price.
   */
  datatype Gap = Gap(time: Timestamp, direction: Direction, gap: (real, real))

  /** The reference range: highest high, lowest low, and the index of the last bar folded in. */
  datatype SessionRange = SessionRange(high: real, low: real, last: nat)

  function Max(a: real, b: real): real { if a >= b then a else b }
  function Min(a: real, b: real): real { if a <= b then a else b }

  /** Half-open membership in the session window, on the time of day only. */
  predicate InWindow(t: TimeOfDay, start: TimeOfDay, end: TimeOfDay)
  {
    start <= t < end
  }

  predicate WindowBar(bars: seq<Bar>, k: nat, start: TimeOfDay, end: TimeOfDay)
    requires k < |bars|
  {
    InWindow(bars[k].ts.time, start, end)
  }

  // ---------------------------------------------------------------------------
  // Phase 1: the session range
  // ---------------------------------------------------------------------------

  /** Folds bars `i..` of the session into `acc`; stops at the first bar at or after `end` once a window bar was seen. */
  function RangeFrom(bars: seq<Bar>, start: TimeOfDay, end: TimeOfDay, i: nat, acc: Option<SessionRange>): (r: Option<SessionRange>)
    requires i <= |bars|
    requires acc.Some? ==> acc.value.last < i
    ensures r.Some? ==> r.value.last < |bars|
    ensures acc.Some? ==> r.Some?
    decreases |bars| - i
  {
    if i == |bars| then acc
    else
      var b := bars[i];
      if InWindow(b.ts.time, start, end) then
        var next := match acc
          case None => SessionRange(b.high, b.low, i)
          case Some(s) => SessionRange(Max(s.high, b.high), Min(s.low, b.low), i);
        RangeFrom(bars, start, end, i + 1, Some(next))
      else if b.ts.time >= end && acc.Some? then acc
      else RangeFrom(bars, start, end, i + 1, acc)
  }

  /** The range of the first session in `bars`, or `None` when no bar falls in the window. */
  function AsiaSession(bars: seq<Bar>, start: TimeOfDay, end: TimeOfDay): (r: Option<SessionRange>)
    ensures r.Some? ==> r.value.last < |bars|
  {
    RangeFrom(bars, start, end, 0, None)
  }

  // ---------------------------------------------------------------------------
  // Phase 2: the breakout
  // ---------------------------------------------------------------------------

  predicate BreaksOut(b: Bar, s: SessionRange)
  {
    b.high > s.high || b.low < s.low
  }

  /** The first bar at index `i` or later that leaves the range, with its direction; up is tested first. */
  function BreakoutFrom(bars: seq<Bar>, s: SessionRange, i: nat): (r: Option<(nat, Direction)>)
    requires i <= |bars|
    ensures r.Some? ==> i <= r.value.0 < |bars|
    decreases |bars| - i
  {
    if i == |bars| then None
    else if bars[i].high > s.high then Some((i, Up))
    else if bars[i].low < s.low then Some((i, Down))
    else BreakoutFrom(bars, s, i + 1)
  }

  // ---------------------------------------------------------------------------
  // Phase 3: the gap
  // ---------------------------------------------------------------------------

  /** Whether `cur` leaves a gap after `prev` in direction `d`. */
  predicate IsGap(prev: Bar, cur: Bar, d: Direction)
  {
    match d
    case Up => cur.low > prev.high
    case Down => cur.high < prev.low
  }

  /** The event reported for a gap between `prev` and `cur` in direction `d`. */
  function GapEvent(prev: Bar, cur: Bar, d: Direction): (g: Gap)
    requires IsGap(prev, cur, d)
    ensures g.time == cur.ts && g.direction == d
    ensures g.gap.0 < g.gap.1
    ensures d == Up ==> g.gap == (prev.high, cur.low)
    ensures d == Down ==> g.gap == (cur.high, prev.low)
  {
    match d
    case Up => Gap(cur.ts, Up, (prev.high, cur.low))
    case Down => Gap(cur.ts, Down, (cur.high, prev.low))
  }

  /** The first index `j >= i` whose bar leaves a gap after bar `j - 1` in direction `d`. */
  function GapFrom(bars: seq<Bar>, d: Direction, i: nat): (r: Option<nat>)
    requires 1 <= i <= |bars|
    ensures r.Some? ==> i <= r.value < |bars| && IsGap(bars[r.value - 1], bars[r.value], d)
    decreases |bars| - i
  {
    if i == |bars| then None
    else if IsGap(bars[i - 1], bars[i], d) then Some(i)
    else GapFrom(bars, d, i + 1)
  }

  // ---------------------------------------------------------------------------
  // The whole routine
  // ---------------------------------------------------------------------------

  /** The gap reported after a breakout at `k` in direction `d`, if any. */
  function GapAfter(bars: seq<Bar>, k: nat, d: Direction): (r: seq<Gap>)
    requires k < |bars|
    ensures |r| <= 1
  {
    var gap := GapFrom(bars, d, k + 1);
    if gap.None? then [] else [GapEvent(bars[gap.value - 1], bars[gap.value], d)]
  }

  /** The gap reported after the session `s`, if any. */
  function GapAfterSession(bars: seq<Bar>, s: SessionRange): (r: seq<Gap>)
    requires s.last < |bars|
    ensures |r| <= 1
  {
    var breakout := BreakoutFrom(bars, s, s.last + 1);
    if breakout.None? then [] else GapAfter(bars, breakout.value.0, breakout.value.1)
  }

  /** The result of the detector: at most one gap, after the breakout that follows the first session. */
  function Detect(bars: seq<Bar>, start: TimeOfDay, end: TimeOfDay): (r: seq<Gap>)
    ensures |r| <= 1
  {
    var session := AsiaSession(bars, start, end);
    if session.None? then [] else GapAfterSession(bars, session.value)
  }

  /**
   * The detector as the original runs it: phase 1 folds the session range,
   * then one loop looks for the breakout and, once there is one, for the gap.
   */
  method DetectFvgAfterAsiaBreak(candles: seq<Bar>, asiaStart: TimeOfDay := DefaultAsiaStart,
                                 asiaEnd: TimeOfDay := DefaultAsiaEnd)
    returns (results: seq<Gap>)
    ensures results == Detect(candles, asiaStart, asiaEnd)
  {
    if |candles| == 0 {
      return [];
    }
    var asiaHigh, asiaLow, asiaEndIdx := ScanAsiaSession(candles, asiaStart, asiaEnd);
    if asiaEndIdx.None? {
      return [];
    }
    results := ScanBreakoutAndGap(candles, asiaHigh, asiaLow, asiaEndIdx.value);
  }

  /**
   * Phases 2 and 3: one loop over the bars after the session that sets the
   * breakout direction once and then stops at the first gap in it.
   */
  method ScanBreakoutAndGap(candles: seq<Bar>, asiaHigh: real, asiaLow: real, asiaEndIdx: nat)
    returns (results: seq<Gap>)
    requires asiaEndIdx < |candles|
    ensures results == GapAfterSession(candles, SessionRange(asiaHigh, asiaLow, asiaEndIdx))
  {
    ghost var s := SessionRange(asiaHigh, asiaLow, asiaEndIdx);

    var breakoutDir: Option<Direction> := None;
    ghost var breakoutIdx: nat := 0;
    results := [];
    var j := asiaEndIdx + 1;
    while j < |candles|
      invariant s.last + 1 <= j <= |candles|
      invariant results == []
      invariant breakoutDir.None? ==>
        BreakoutFrom(candles, s, j) == BreakoutFrom(candles, s, s.last + 1)
      invariant breakoutDir.Some? ==>
        && BreakoutFrom(candles, s, s.last + 1) == Some((breakoutIdx, breakoutDir.value))
        && breakoutIdx < j
        && GapFrom(candles, breakoutDir.value, j) == GapFrom(candles, breakoutDir.value, breakoutIdx + 1)
      decreases |candles| - j
    {
      var bar := candles[j];
      if breakoutDir.None? {
        if bar.high > asiaHigh {
          breakoutDir := Some(Up);
          breakoutIdx := j;
        } else if bar.low < asiaLow {
          breakoutDir := Some(Down);
          breakoutIdx := j;
        }
        j := j + 1;
        continue;
      }

      var prev := candles[j - 1];
      if breakoutDir == Some(Up) {
        if bar.low > prev.high {
          results := results + [Gap(bar.ts, Up, (prev.high, bar.low))];
          break;
        }
      } else {
        if bar.high < prev.low {
          results := results + [Gap(bar.ts, Down, (bar.high, prev.low))];
          break;
        }
      }
      j := j + 1;
    }
  }

  /**
   * Phase 1 of the detector: the loop over the bars that folds the session
   * range. `asiaHigh` and `asiaLow` only mean something once `asiaEndIdx` is set.
   */
  method ScanAsiaSession(candles: seq<Bar>, asiaStart: TimeOfDay, asiaEnd: TimeOfDay)
    returns (asiaHigh: real, asiaLow: real, asiaEndIdx: Option<nat>)
    ensures Acc(asiaHigh, asiaLow, asiaEndIdx) == AsiaSession(candles, asiaStart, asiaEnd)
  {
    asiaHigh, asiaLow := 0.0, 0.0;
    asiaEndIdx := None;
    var i := 0;
    while i < |candles|
      invariant 0 <= i <= |candles|
      invariant asiaEndIdx.Some? ==> asiaEndIdx.value < i
      invariant RangeFrom(candles, asiaStart, asiaEnd, i, Acc(asiaHigh, asiaLow, asiaEndIdx))
                == AsiaSession(candles, asiaStart, asiaEnd)
    {
      var bar := candles[i];
      var t := bar.ts.time;
      if asiaStart <= t < asiaEnd {
        if asiaEndIdx.None? {
          asiaHigh, asiaLow := bar.high, bar.low;
        } else {
          asiaHigh, asiaLow := Max(asiaHigh, bar.high), Min(asiaLow, bar.low);
        }
        asiaEndIdx := Some(i);
      } else if t >= asiaEnd && asiaEndIdx.Some? {
        break;
      }
      i := i + 1;
    }
  }

  /** The accumulator of phase 1, read off the routine's three variables. */
  function Acc(high: real, low: real, endIdx: Option<nat>): Option<SessionRange>
  {
    match endIdx
    case None => None
    case Some(k) => Some(SessionRange(high, low, k))
  }

  // ---------------------------------------------------------------------------
  // What each phase computes, stated declaratively
  // ---------------------------------------------------------------------------

  /** `r.high` and `r.low` are the highest high and lowest low of the window bars up to `r.last`. */
  ghost predicate IsRangeOver(bars: seq<Bar>, start: TimeOfDay, end: TimeOfDay, r: SessionRange)
    requires r.last < |bars|
  {
    && (forall k :: 0 <= k <= r.last && WindowBar(bars, k, start, end) ==>
          bars[k].high <= r.high && r.low <= bars[k].low)
    && (exists k :: 0 <= k <= r.last && WindowBar(bars, k, start, end) && bars[k].high == r.high)
    && (exists k :: 0 <= k <= r.last && WindowBar(bars, k, start, end) && bars[k].low == r.low)
  }

  /**
   * `r` is the range of the first session: `r.last` is a window bar, no bar
   * at or after `end` comes between a window bar and `r.last`, and every
   * later window bar comes after such a bar (bars before the window are
   * skipped, they do not end the session).
   */
  ghost predicate IsFirstSession(bars: seq<Bar>, start: TimeOfDay, end: TimeOfDay, r: SessionRange)
  {
    && r.last < |bars|
    && WindowBar(bars, r.last, start, end)
    && IsRangeOver(bars, start, end, r)
    && (forall j, k :: 0 <= j < k <= r.last && WindowBar(bars, j, start, end) ==> bars[k].ts.time < end)
    && (forall k :: r.last < k < |bars| && WindowBar(bars, k, start, end) ==>
          exists m :: r.last < m < k && bars[m].ts.time >= end)
  }

  /** What the fold has established after bars `0..i`. */
  ghost predicate FoldedUpTo(bars: seq<Bar>, start: TimeOfDay, end: TimeOfDay, i: nat, acc: Option<SessionRange>)
    requires i <= |bars|
  {
    match acc
    case None => forall k :: 0 <= k < i ==> !WindowBar(bars, k, start, end)
    case Some(r) =>
      && r.last < i
      && WindowBar(bars, r.last, start, end)
      && IsRangeOver(bars, start, end, r)
      && (forall k :: r.last < k < i ==> !WindowBar(bars, k, start, end))
      && (forall j, k :: 0 <= j < k < i && WindowBar(bars, j, start, end) ==> bars[k].ts.time < end)
  }

  /** Folding one more window bar keeps `FoldedUpTo`. */
  lemma FoldWindowBar(bars: seq<Bar>, start: TimeOfDay, end: TimeOfDay, i: nat, acc: Option<SessionRange>)
    requires i < |bars| && WindowBar(bars, i, start, end)
    requires FoldedUpTo(bars, start, end, i, acc)
    ensures var b := bars[i];
            var next := match acc
              case None => SessionRange(b.high, b.low, i)
              case Some(s) => SessionRange(Max(s.high, b.high), Min(s.low, b.low), i);
            FoldedUpTo(bars, start, end, i + 1, Some(next))
  {
    var b := bars[i];
    match acc
    case None =>
      var next := SessionRange(b.high, b.low, i);
      assert bars[i].high == next.high && bars[i].low == next.low;
      assert IsRangeOver(bars, start, end, next);
    case Some(s) =>
      var next := SessionRange(Max(s.high, b.high), Min(s.low, b.low), i);
      var wh :| 0 <= wh <= s.last && WindowBar(bars, wh, start, end) && bars[wh].high == s.high;
      var wl :| 0 <= wl <= s.last && WindowBar(bars, wl, start, end) && bars[wl].low == s.low;
      var kh := if b.high >= s.high then i else wh;
      var kl := if b.low <= s.low then i else wl;
      assert bars[kh].high == next.high && bars[kl].low == next.low;
      assert IsRangeOver(bars, start, end, next);
  }

  lemma {:induction false} RangeFromIsFirstSession(bars: seq<Bar>, start: TimeOfDay, end: TimeOfDay, i: nat, acc: Option<SessionRange>)
    requires i <= |bars|
    requires acc.Some? ==> acc.value.last < i
    requires FoldedUpTo(bars, start, end, i, acc)
    ensures var r := RangeFrom(bars, start, end, i, acc);
            r.Some? ==> IsFirstSession(bars, start, end, r.value)
    decreases |bars| - i
  {
    if i == |bars| {
    } else {
      var b := bars[i];
      if InWindow(b.ts.time, start, end) {
        FoldWindowBar(bars, start, end, i, acc);
        var next := match acc
          case None => SessionRange(b.high, b.low, i)
          case Some(s) => SessionRange(Max(s.high, b.high), Min(s.low, b.low), i);
        RangeFromIsFirstSession(bars, start, end, i + 1, Some(next));
      } else if b.ts.time >= end && acc.Some? {
        SessionEndsAt(bars, start, end, i, acc.value);
      } else {
        FoldSkippedBar(bars, start, end, i, acc);
        RangeFromIsFirstSession(bars, start, end, i + 1, acc);
      }
    }
  }

  /** A bar at or after `end` once a session has started closes that session. */
  lemma SessionEndsAt(bars: seq<Bar>, start: TimeOfDay, end: TimeOfDay, i: nat, r: SessionRange)
    requires i < |bars| && bars[i].ts.time >= end
    requires FoldedUpTo(bars, start, end, i, Some(r))
    ensures IsFirstSession(bars, start, end, r)
  {
    forall k | r.last < k < |bars| && WindowBar(bars, k, start, end)
      ensures exists m :: r.last < m < k && bars[m].ts.time >= end
    {
      assert i < k;
    }
  }

  /** A bar outside the window that does not close a session leaves the fold as it was. */
  lemma FoldSkippedBar(bars: seq<Bar>, start: TimeOfDay, end: TimeOfDay, i: nat, acc: Option<SessionRange>)
    requires i < |bars| && !InWindow(bars[i].ts.time, start, end)
    requires !(bars[i].ts.time >= end && acc.Some?)
    requires FoldedUpTo(bars, start, end, i, acc)
    ensures FoldedUpTo(bars, start, end, i + 1, acc)
  {
  }

  lemma {:induction false} RangeFromNoneIff(bars: seq<Bar>, start: TimeOfDay, end: TimeOfDay, i: nat)
    requires i <= |bars|
    ensures RangeFrom(bars, start, end, i, None).None? <==>
            forall k :: i <= k < |bars| ==> !WindowBar(bars, k, start, end)
    decreases |bars| - i
  {
    if i < |bars| {
      if InWindow(bars[i].ts.time, start, end) {
        assert WindowBar(bars, i, start, end);
      } else {
        RangeFromNoneIff(bars, start, end, i + 1);
      }
    }
  }

  /** No session is found exactly when no bar's time of day falls in `[start, end)`. */
  lemma AsiaSessionNoneIff(bars: seq<Bar>, start: TimeOfDay, end: TimeOfDay)
    ensures AsiaSession(bars, start, end).None? <==>
            forall k :: 0 <= k < |bars| ==> !WindowBar(bars, k, start, end)
  {
    RangeFromNoneIff(bars, start, end, 0);
  }

  /** A session found is the first session of the data, with its range. */
  lemma AsiaSessionIsFirstSession(bars: seq<Bar>, start: TimeOfDay, end: TimeOfDay)
    ensures var r := AsiaSession(bars, start, end);
            r.Some? ==> IsFirstSession(bars, start, end, r.value)
  {
    RangeFromIsFirstSession(bars, start, end, 0, None);
  }

  /** The first session is determined by the bars and the window. */
  lemma FirstSessionUnique(bars: seq<Bar>, start: TimeOfDay, end: TimeOfDay, r: SessionRange, r': SessionRange)
    requires IsFirstSession(bars, start, end, r) && IsFirstSession(bars, start, end, r')
    ensures r == r'
  {
    assert r.last == r'.last;
    var kh :| 0 <= kh <= r.last && WindowBar(bars, kh, start, end) && bars[kh].high == r.high;
    var kh' :| 0 <= kh' <= r'.last && WindowBar(bars, kh', start, end) && bars[kh'].high == r'.high;
    var kl :| 0 <= kl <= r.last && WindowBar(bars, kl, start, end) && bars[kl].low == r.low;
    var kl' :| 0 <= kl' <= r'.last && WindowBar(bars, kl', start, end) && bars[kl'].low == r'.low;
    assert r.high <= r'.high && r'.high <= r.high;
    assert r.low <= r'.low && r'.low <= r.low;
  }

  /** `k` is the first bar after the session that leaves the range. */
  ghost predicate IsFirstBreakout(bars: seq<Bar>, s: SessionRange, k: nat)
  {
    && s.last < k < |bars|
    && BreaksOut(bars[k], s)
    && forall m :: s.last < m < k ==> !BreaksOut(bars[m], s)
  }

  /** Up when the breakout bar's high is above the range, even if its low is also below it. */
  function BreakoutDirection(b: Bar, s: SessionRange): Direction
  {
    if b.high > s.high then Up else Down
  }

  lemma {:induction false} BreakoutFromSpec(bars: seq<Bar>, s: SessionRange, i: nat)
    requires i <= |bars|
    ensures var r := BreakoutFrom(bars, s, i);
            && (r.None? <==> forall m :: i <= m < |bars| ==> !BreaksOut(bars[m], s))
            && (r.Some? ==>
                  && BreaksOut(bars[r.value.0], s)
                  && r.value.1 == BreakoutDirection(bars[r.value.0], s)
                  && forall m :: i <= m < r.value.0 ==> !BreaksOut(bars[m], s))
    decreases |bars| - i
  {
    if i < |bars| && !BreaksOut(bars[i], s) {
      BreakoutFromSpec(bars, s, i + 1);
    }
  }

  /** `j` is the first bar after breakout bar `k` that leaves a gap after its predecessor in direction `d`. */
  ghost predicate IsFirstGap(bars: seq<Bar>, d: Direction, k: nat, j: nat)
  {
    && k < j < |bars|
    && IsGap(bars[j - 1], bars[j], d)
    && forall m :: k < m < j ==> !IsGap(bars[m - 1], bars[m], d)
  }

  lemma {:induction false} GapFromSpec(bars: seq<Bar>, d: Direction, i: nat)
    requires 1 <= i <= |bars|
    ensures var r := GapFrom(bars, d, i);
            && (r.None? <==> forall m :: i <= m < |bars| ==> !IsGap(bars[m - 1], bars[m], d))
            && (r.Some? ==> forall m :: i <= m < r.value ==> !IsGap(bars[m - 1], bars[m], d))
    decreases |bars| - i
  {
    if i < |bars| && !IsGap(bars[i - 1], bars[i], d) {
      GapFromSpec(bars, d, i + 1);
    }
  }

  /**
   * `g` is the gap the detector is meant to report: it follows the first
   * breakout after the first session, it is the first gap in the breakout
   * direction, and its time is that of the gap bar.
   */
  ghost predicate IsReportedGap(bars: seq<Bar>, start: TimeOfDay, end: TimeOfDay, g: Gap)
  {
    exists s: SessionRange, k: nat, j: nat :: ReportedAt(bars, start, end, g, s, k, j)
  }

  /** `g` is reported for session `s`, breakout bar `k` and gap bar `j`. */
  ghost predicate ReportedAt(bars: seq<Bar>, start: TimeOfDay, end: TimeOfDay, g: Gap, s: SessionRange, k: nat, j: nat)
  {
    && IsFirstSession(bars, start, end, s)
    && IsFirstBreakout(bars, s, k)
    && IsFirstGap(bars, BreakoutDirection(bars[k], s), k, j)
    && g == GapEvent(bars[j - 1], bars[j], BreakoutDirection(bars[k], s))
  }

  /** Whatever the detector reports is the gap the declarative definition describes. */
  lemma DetectSound(bars: seq<Bar>, start: TimeOfDay, end: TimeOfDay, g: Gap)
    requires Detect(bars, start, end) == [g]
    ensures IsReportedGap(bars, start, end, g)
  {
    AsiaSessionIsFirstSession(bars, start, end);
    var s := AsiaSession(bars, start, end).value;
    BreakoutFromSpec(bars, s, s.last + 1);
    var (k, d) := BreakoutFrom(bars, s, s.last + 1).value;
    GapFromSpec(bars, d, k + 1);
    var j := GapFrom(bars, d, k + 1).value;
    assert IsFirstBreakout(bars, s, k);
    assert IsFirstGap(bars, d, k, j);
    assert ReportedAt(bars, start, end, g, s, k, j);
  }

  /** The first session of the declarative definition is the one the fold finds. */
  lemma SessionFound(bars: seq<Bar>, start: TimeOfDay, end: TimeOfDay, s: SessionRange)
    requires IsFirstSession(bars, start, end, s)
    ensures AsiaSession(bars, start, end) == Some(s)
  {
    AsiaSessionNoneIff(bars, start, end);
    assert WindowBar(bars, s.last, start, end);
    AsiaSessionIsFirstSession(bars, start, end);
    FirstSessionUnique(bars, start, end, s, AsiaSession(bars, start, end).value);
  }

  lemma BreakoutFound(bars: seq<Bar>, s: SessionRange, k: nat)
    requires IsFirstBreakout(bars, s, k)
    ensures BreakoutFrom(bars, s, s.last + 1) == Some((k, BreakoutDirection(bars[k], s)))
  {
    BreakoutFromSpec(bars, s, s.last + 1);
    var r := BreakoutFrom(bars, s, s.last + 1);
    assert r.Some? by {
      assert BreaksOut(bars[k], s);
    }
  }

  lemma GapFound(bars: seq<Bar>, d: Direction, k: nat, j: nat)
    requires IsFirstGap(bars, d, k, j)
    ensures GapFrom(bars, d, k + 1) == Some(j)
  {
    GapFromSpec(bars, d, k + 1);
    var r := GapFrom(bars, d, k + 1);
    assert r.Some? by {
      assert IsGap(bars[j - 1], bars[j], d);
    }
  }

  lemma DetectFromPhases(bars: seq<Bar>, start: TimeOfDay, end: TimeOfDay, s: SessionRange, k: nat, d: Direction, j: nat)
    requires AsiaSession(bars, start, end) == Some(s)
    requires BreakoutFrom(bars, s, s.last + 1) == Some((k, d))
    requires k + 1 <= |bars| && GapFrom(bars, d, k + 1) == Some(j)
    ensures Detect(bars, start, end) == [GapEvent(bars[j - 1], bars[j], d)]
  {
    GapAfterIs(bars, k, d, j);
    GapAfterSessionIs(bars, s, k, d);
  }

  lemma GapAfterIs(bars: seq<Bar>, k: nat, d: Direction, j: nat)
    requires k < |bars| && GapFrom(bars, d, k + 1) == Some(j)
    ensures GapAfter(bars, k, d) == [GapEvent(bars[j - 1], bars[j], d)]
  {
  }

  lemma GapAfterSessionIs(bars: seq<Bar>, s: SessionRange, k: nat, d: Direction)
    requires s.last < |bars| && BreakoutFrom(bars, s, s.last + 1) == Some((k, d))
    ensures GapAfterSession(bars, s) == GapAfter(bars, k, d)
  {
  }

  /** The gap the declarative definition describes is what the detector reports. */
  lemma DetectComplete(bars: seq<Bar>, start: TimeOfDay, end: TimeOfDay, g: Gap)
    requires IsReportedGap(bars, start, end, g)
    ensures Detect(bars, start, end) == [g]
  {
    var s: SessionRange, k: nat, j: nat :| ReportedAt(bars, start, end, g, s, k, j);
    SessionFound(bars, start, end, s);
    BreakoutFound(bars, s, k);
    GapFound(bars, BreakoutDirection(bars[k], s), k, j);
    DetectFromPhases(bars, start, end, s, k, BreakoutDirection(bars[k], s), j);
  }

  /** No bar in the window, including every case with `start >= end`, gives no result. */
  lemma NoSessionNoResult(bars: seq<Bar>, start: TimeOfDay, end: TimeOfDay)
    requires forall k :: 0 <= k < |bars| ==> !WindowBar(bars, k, start, end)
    ensures Detect(bars, start, end) == []
  {
    AsiaSessionNoneIff(bars, start, end);
  }

  lemma EmptyWindowNoResult(bars: seq<Bar>, start: TimeOfDay, end: TimeOfDay)
    requires start >= end
    ensures Detect(bars, start, end) == []
  {
    NoSessionNoResult(bars, start, end);
  }

  /** When no bar after the session leaves its range, there is no result. */
  lemma NoBreakoutNoResult(bars: seq<Bar>, start: TimeOfDay, end: TimeOfDay, s: SessionRange)
    requires IsFirstSession(bars, start, end, s)
    requires forall m :: s.last < m < |bars| ==> !BreaksOut(bars[m], s)
    ensures Detect(bars, start, end) == []
  {
    SessionFound(bars, start, end, s);
    BreakoutFromSpec(bars, s, s.last + 1);
  }

  /** When no bar after the breakout leaves a gap in its direction, there is no result. */
  lemma NoGapNoResult(bars: seq<Bar>, start: TimeOfDay, end: TimeOfDay, s: SessionRange, k: nat)
    requires IsFirstSession(bars, start, end, s) && IsFirstBreakout(bars, s, k)
    requires forall m :: k < m < |bars| ==> !IsGap(bars[m - 1], bars[m], BreakoutDirection(bars[k], s))
    ensures Detect(bars, start, end) == []
  {
    SessionFound(bars, start, end, s);
    BreakoutFromSpec(bars, s, s.last + 1);
    GapFromSpec(bars, BreakoutDirection(bars[k], s), k + 1);
  }
}
