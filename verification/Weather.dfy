/**
 The weather schedule: a piecewise constant function of time, given by its change points.

 The sweeps over a window are proved against the pointwise meaning of the schedule, one
 millisecond at a time. Times are unbounded integers except where the code checks for overflow.
 */
module Weather {
  import opened Prelude

  datatype WeatherType = Unspecified | Clear | PartlyCloudy | Overcast | LightRain | MediumRain | HeavyRain

  datatype ScheduleEntry = ScheduleEntry(startsAt: int, weatherType: WeatherType, temperatureC: int)
  type Schedule = seq<ScheduleEntry>

  const HOUR_MS := 60 * 60 * 1000
  const MINUTE_MS := 60 * 1000
  const TEMPERATURE_MIN_C := 1
  const TEMPERATURE_MAX_C := 30

  ghost predicate Sorted(s: Schedule) {
    forall i, j | 0 <= i < j < |s| :: s[i].startsAt <= s[j].startsAt
  }

  predicate IsRain(w: WeatherType) {
    w.LightRain? || w.MediumRain? || w.HeavyRain?
  }

  /** `partition_point`: how many entries of a sorted schedule start by time t. */
  function PartitionPoint(s: Schedule, t: int): (n: nat)
    requires Sorted(s)
    ensures n <= |s|
    ensures forall i | 0 <= i < n :: s[i].startsAt <= t
    ensures forall i | n <= i < |s| :: t < s[i].startsAt
  {
    if s == [] then 0
    else if s[|s| - 1].startsAt <= t then |s|
    else PartitionPoint(s[..|s| - 1], t)
  }

  lemma {:induction false} PartitionPointIs(s: Schedule, t: int, n: nat)
    requires Sorted(s) && n <= |s|
    requires forall i | 0 <= i < n :: s[i].startsAt <= t
    requires forall i | n <= i < |s| :: t < s[i].startsAt
    ensures PartitionPoint(s, t) == n
  {
    if s != [] && t < s[|s| - 1].startsAt {
      PartitionPointIs(s[..|s| - 1], t, n);
    }
  }

  /** The entry in force at time t. */
  function WeatherAt(s: Schedule, t: int): Option<ScheduleEntry>
    requires Sorted(s)
  {
    var n := PartitionPoint(s, t);
    if n == 0 then None else Some(s[n - 1])
  }

  function TypeAt(s: Schedule, t: int): WeatherType
    requires Sorted(s)
  {
    var e := WeatherAt(s, t);
    if e.None? then Unspecified else e.value.weatherType
  }

  /** An entry is in force from its start until the next one starts. */
  ghost predicate InForce(s: Schedule, i: nat, t: int)
    requires i < |s|
  {
    s[i].startsAt <= t && (i + 1 < |s| ==> t < s[i + 1].startsAt)
  }

  lemma {:induction false} WeatherIsTheEntryInForce(s: Schedule, t: int)
    requires Sorted(s)
    ensures WeatherAt(s, t).None? <==> forall i | 0 <= i < |s| :: t < s[i].startsAt
    ensures forall i | 0 <= i < |s| && InForce(s, i, t) :: WeatherAt(s, t) == Some(s[i])
    ensures WeatherAt(s, t).Some? ==> exists i :: 0 <= i < |s| && InForce(s, i, t)
  {
    var n := PartitionPoint(s, t);
    if n > 0 {
      assert InForce(s, n - 1, t);
    }
    forall i | 0 <= i < |s| && InForce(s, i, t) ensures WeatherAt(s, t) == Some(s[i]) {
      PartitionPointIs(s, t, i + 1);
    }
  }

  // ----- Pointwise sums -----

  /** f(a) + f(a + 1) + ... + f(b - 1) */
  ghost function Sum(f: int -> int, a: int, b: int): int
    decreases b - a
  {
    if b <= a then 0 else Sum(f, a, b - 1) + f(b - 1)
  }

  lemma {:induction false} SumSplit(f: int -> int, a: int, b: int, c: int)
    requires a <= b <= c
    ensures Sum(f, a, c) == Sum(f, a, b) + Sum(f, b, c)
    decreases c - b
  {
    if b < c {
      SumSplit(f, a, b, c - 1);
    }
  }

  lemma {:induction false} SumBounds(f: int -> int, a: int, b: int, lo: int, hi: int)
    requires a <= b && forall t | a <= t < b :: lo <= f(t) <= hi
    ensures lo * (b - a) <= Sum(f, a, b) <= hi * (b - a)
    decreases b - a
  {
    if a < b {
      SumBounds(f, a, b - 1, lo, hi);
      assert lo * (b - a) == lo * (b - 1 - a) + lo && hi * (b - a) == hi * (b - 1 - a) + hi;
    }
  }

  /** Appending a stretch on which f is constant. */
  lemma {:induction false} SumAppendConstant(f: int -> int, a: int, b: int, c: int, v: int)
    requires a <= b <= c && forall t | b <= t < c :: f(t) == v
    ensures Sum(f, a, c) == Sum(f, a, b) + v * (c - b)
  {
    SumSplit(f, a, b, c);
    SumBounds(f, b, c, v, v);
  }

  ghost function Indicator(s: Schedule, w: WeatherType): int -> int
    requires Sorted(s)
  {
    t => if TypeAt(s, t) == w then 1 else 0
  }

  ghost function RainIndicator(s: Schedule): int -> int
    requires Sorted(s)
  {
    t => if IsRain(TypeAt(s, t)) then 1 else 0
  }

  ghost function Temperature(s: Schedule): int -> int
    requires Sorted(s)
  {
    t => if WeatherAt(s, t).None? then 0 else WeatherAt(s, t).value.temperatureC
  }

  /** The number of rainy milliseconds in [a, b). */
  ghost function RainMillis(s: Schedule, a: int, b: int): int
    requires Sorted(s)
  {
    Sum(RainIndicator(s), a, b)
  }

  /** The number of milliseconds in [a, b) with the given weather. */
  ghost function Duration(s: Schedule, w: WeatherType, a: int, b: int): int
    requires Sorted(s)
  {
    Sum(Indicator(s, w), a, b)
  }

  /** Adjacent windows add up. */
  lemma {:induction false} WindowsAreAdditive(s: Schedule, a: int, b: int, c: int)
    requires Sorted(s) && a <= b <= c
    ensures RainMillis(s, a, c) == RainMillis(s, a, b) + RainMillis(s, b, c)
    ensures Sum(Temperature(s), a, c) == Sum(Temperature(s), a, b) + Sum(Temperature(s), b, c)
    ensures forall w :: Duration(s, w, a, c) == Duration(s, w, a, b) + Duration(s, w, b, c)
  {
    SumSplit(RainIndicator(s), a, b, c);
    SumSplit(Temperature(s), a, b, c);
    forall w ensures Duration(s, w, a, c) == Duration(s, w, a, b) + Duration(s, w, b, c) {
      SumSplit(Indicator(s, w), a, b, c);
    }
  }

  /** It rains exactly while the rain is light, medium or heavy. */
  lemma {:induction false} RainIsOfThreeKinds(s: Schedule, a: int, b: int)
    requires Sorted(s)
    ensures RainMillis(s, a, b) ==
            Duration(s, LightRain, a, b) + Duration(s, MediumRain, a, b) + Duration(s, HeavyRain, a, b)
    decreases b - a
  {
    if a < b {
      RainIsOfThreeKinds(s, a, b - 1);
    }
  }

  // ----- The sweep -----

  /** Where a sweep stands: the entries before `next` have started by `cursor`, the others not before it. */
  ghost predicate SweepAt(s: Schedule, cursor: int, next: nat) {
    && next <= |s|
    && (forall i | 0 <= i < next :: s[i].startsAt <= cursor)
    && (forall i | next <= i < |s| :: cursor <= s[i].startsAt)
  }

  /** The end of the stretch that begins at the cursor. */
  function NextChange(s: Schedule, next: nat, end: int): int
    requires next <= |s|
  {
    if next < |s| && s[next].startsAt < end then s[next].startsAt else end
  }

  /** Up to the next change, the weather is that of the last entry passed. */
  lemma {:induction false} StretchIsConstant(s: Schedule, cursor: int, next: nat, end: int)
    requires Sorted(s) && SweepAt(s, cursor, next) && cursor < end
    ensures cursor <= NextChange(s, next, end) <= end
    ensures forall t | cursor <= t < NextChange(s, next, end) :: PartitionPoint(s, t) == next
  {
    forall t | cursor <= t < NextChange(s, next, end) ensures PartitionPoint(s, t) == next {
      PartitionPointIs(s, t, next);
    }
  }

  /** The loop of the rain probability. */
  method SweepRain(s: Schedule, start: int, end: int) returns (rainMs: int)
    requires Sorted(s) && start < end
    ensures rainMs == RainMillis(s, start, end)
  {
    rainMs := 0;
    ghost var f := RainIndicator(s);
    var cursor := start;
    var next := PartitionPoint(s, start);
    var current := if next == 0 then Unspecified else s[next - 1].weatherType;
    while cursor < end
      invariant start <= cursor < end
      invariant SweepAt(s, cursor, next)
      invariant current == if next == 0 then Unspecified else s[next - 1].weatherType
      invariant rainMs == Sum(f, start, cursor)
      decreases |s| - next
    {
      var change := NextChange(s, next, end);
      StretchIsConstant(s, cursor, next, end);
      SumAppendConstant(f, start, cursor, change, if IsRain(current) then 1 else 0);
      if change > cursor && IsRain(current) {
        rainMs := rainMs + (change - cursor);
      }
      if change >= end {
        break;
      }
      cursor := change;
      current := s[next].weatherType;
      next := next + 1;
    }
  }

  /** The share of the window [start, end) that is rainy. */
  method RainProbability(s: Schedule, start: int, end: int) returns (p: real)
    requires Sorted(s)
    ensures end <= start ==> p == 0.0
    ensures start < end ==> p == RainMillis(s, start, end) as real / (end - start) as real
    ensures 0.0 <= p <= 1.0
  {
    if end <= start {
      return 0.0;
    }
    SumBounds(RainIndicator(s), start, end, 0, 1);
    if s == [] {
      SumBounds(RainIndicator(s), start, end, 0, 0);
      return 0.0;
    }
    var rainMs := SweepRain(s, start, end);
    RatioBounds(rainMs, end - start);
    p := rainMs as real / (end - start) as real;
    p := if p < 0.0 then 0.0 else if p > 1.0 then 1.0 else p;
  }

  lemma {:induction false} RatioBounds(part: int, whole: int)
    requires 0 <= part <= whole && 0 < whole
    ensures 0.0 <= part as real / whole as real <= 1.0
  {
  }

  // ----- The dominant type -----

  datatype Stat = Stat(duration: int, firstSeen: int)

  /** t is the first millisecond of [a, b) with weather w. */
  ghost predicate FirstSeenAt(s: Schedule, w: WeatherType, a: int, b: int, t: int)
    requires Sorted(s)
  {
    a <= t < b && TypeAt(s, t) == w && forall x | a <= x < t :: TypeAt(s, x) != w
  }

  lemma {:induction false} DurationZero(s: Schedule, w: WeatherType, a: int, b: int)
    requires Sorted(s) && a <= b
    ensures 0 <= Duration(s, w, a, b) <= b - a
    ensures Duration(s, w, a, b) == 0 <==> forall t | a <= t < b :: TypeAt(s, t) != w
    decreases b - a
  {
    if a < b {
      DurationZero(s, w, a, b - 1);
      assert Indicator(s, w)(b - 1) == if TypeAt(s, b - 1) == w then 1 else 0;
    }
  }

  /** Every millisecond of a window has exactly one type. */
  lemma {:induction false} DurationsFillTheWindow(s: Schedule, a: int, b: int)
    requires Sorted(s) && a <= b
    ensures Duration(s, Unspecified, a, b) + Duration(s, Clear, a, b) + Duration(s, PartlyCloudy, a, b)
            + Duration(s, Overcast, a, b) + Duration(s, LightRain, a, b) + Duration(s, MediumRain, a, b)
            + Duration(s, HeavyRain, a, b) == b - a
    decreases b - a
  {
    if a < b {
      DurationsFillTheWindow(s, a, b - 1);
    }
  }

  ghost predicate StatsOf(s: Schedule, a: int, b: int, stats: map<WeatherType, Stat>)
    requires Sorted(s)
  {
    && (forall w :: w in stats <==> Duration(s, w, a, b) > 0)
    && (forall w | w in stats ::
          stats[w].duration == Duration(s, w, a, b) && FirstSeenAt(s, w, a, b, stats[w].firstSeen))
  }

  /** Recording one more stretch of constant weather. */
  lemma {:induction false} StatsExtend(
    s: Schedule, a: int, b: int, c: int, w: WeatherType, stats: map<WeatherType, Stat>)
    requires Sorted(s) && a <= b < c && StatsOf(s, a, b, stats)
    requires forall t | b <= t < c :: TypeAt(s, t) == w
    ensures var was := if w in stats then stats[w] else Stat(0, b);
            StatsOf(s, a, c, stats[w := Stat(was.duration + (c - b), was.firstSeen)])
  {
    DurationZero(s, w, a, b);
    forall u ensures Duration(s, u, a, c) == Duration(s, u, a, b) + (if u == w then c - b else 0) {
      SumAppendConstant(Indicator(s, u), a, b, c, if u == w then 1 else 0);
    }
    var was := if w in stats then stats[w] else Stat(0, b);
    assert FirstSeenAt(s, w, a, c, was.firstSeen) by {
      assert TypeAt(s, b) == w;
    }
    forall u | u in stats && u != w ensures FirstSeenAt(s, u, a, c, stats[u].firstSeen) {
      assert FirstSeenAt(s, u, a, b, stats[u].firstSeen);
    }
  }

  /** The loop of the dominant-type search: how long each type lasts, and when it first shows. */
  method CollectStats(s: Schedule, start: int, end: int) returns (stats: map<WeatherType, Stat>)
    requires Sorted(s) && start < end
    ensures StatsOf(s, start, end, stats)
  {
    stats := map[];
    var cursor := start;
    var next := PartitionPoint(s, start);
    var current := if next == 0 then Unspecified else s[next - 1].weatherType;
    while cursor < end
      invariant start <= cursor < end
      invariant SweepAt(s, cursor, next)
      invariant current == if next == 0 then Unspecified else s[next - 1].weatherType
      invariant StatsOf(s, start, cursor, stats)
      decreases |s| - next
    {
      var change := NextChange(s, next, end);
      StretchIsConstant(s, cursor, next, end);
      if change > cursor {
        StatsExtend(s, start, cursor, change, current, stats);
        var slot := if current in stats then stats[current] else Stat(0, cursor);
        stats := stats[current := Stat(slot.duration + (change - cursor), slot.firstSeen)];
      }
      if change >= end {
        break;
      }
      cursor := change;
      current := s[next].weatherType;
      next := next + 1;
    }
  }

  function Rank(w: WeatherType): nat {
    match w
    case Unspecified => 0 case Clear => 1 case PartlyCloudy => 2 case Overcast => 3
    case LightRain => 4 case MediumRain => 5 case HeavyRain => 6
  }

  /** The comparison of (duration, reversed first appearance, reversed type). */
  predicate AtLeast(w: WeatherType, x: Stat, v: WeatherType, y: Stat) {
    || x.duration > y.duration
    || (x.duration == y.duration && x.firstSeen < y.firstSeen)
    || (x.duration == y.duration && x.firstSeen == y.firstSeen && Rank(w) <= Rank(v))
  }

  /** w shows up in the window before u does, if u does at all. */
  ghost predicate AppearsBefore(s: Schedule, w: WeatherType, u: WeatherType, a: int, b: int)
    requires Sorted(s)
  {
    exists t | a <= t < b :: TypeAt(s, t) == w && forall x | a <= x <= t :: TypeAt(s, x) != u
  }

  /** Longest in the window; among the longest, the first to appear. */
  ghost predicate IsDominant(s: Schedule, w: WeatherType, a: int, b: int)
    requires Sorted(s)
  {
    forall u ::
      && Duration(s, u, a, b) <= Duration(s, w, a, b)
      && (u != w && Duration(s, u, a, b) == Duration(s, w, a, b) ==> AppearsBefore(s, w, u, a, b))
  }

  /** So the choice never depends on the order in which the candidates are compared. */
  lemma {:induction false} DominantIsUnique(s: Schedule, v: WeatherType, w: WeatherType, a: int, b: int)
    requires Sorted(s) && IsDominant(s, v, a, b) && IsDominant(s, w, a, b)
    ensures v == w
  {
    assert Duration(s, v, a, b) == Duration(s, w, a, b);
  }

  lemma {:induction false} BestIsDominant(s: Schedule, w: WeatherType, a: int, b: int, stats: map<WeatherType, Stat>)
    requires Sorted(s) && a < b && StatsOf(s, a, b, stats) && w in stats
    requires forall u | u in stats :: AtLeast(w, stats[w], u, stats[u])
    ensures IsDominant(s, w, a, b)
  {
    forall u
      ensures Duration(s, u, a, b) <= Duration(s, w, a, b)
      ensures u != w && Duration(s, u, a, b) == Duration(s, w, a, b) ==> AppearsBefore(s, w, u, a, b)
    {
      DurationZero(s, u, a, b);
      if u in stats && u != w && Duration(s, u, a, b) == Duration(s, w, a, b) {
        var t := stats[w].firstSeen;
        assert t < stats[u].firstSeen;
        assert TypeAt(s, t) == w;
      }
    }
  }

  /** An empty schedule leaves the whole window unspecified. */
  lemma {:induction false} NothingScheduled(s: Schedule, a: int, b: int)
    requires s == [] && a < b
    ensures IsDominant(s, Unspecified, a, b)
  {
    forall u ensures Duration(s, u, a, b) == if u == Unspecified then b - a else 0 {
      SumAppendConstant(Indicator(s, u), a, a, b, if u == Unspecified then 1 else 0);
    }
  }

  /** `max_by_key` over the map, whose entries come in no particular order. */
  method PickBest(stats: map<WeatherType, Stat>) returns (best: Option<WeatherType>)
    ensures best.None? <==> stats == map[]
    ensures best.Some? ==> best.value in stats
    ensures best.Some? ==> forall u | u in stats :: AtLeast(best.value, stats[best.value], u, stats[u])
  {
    var rest := stats.Keys;
    best := None;
    while rest != {}
      invariant rest <= stats.Keys
      invariant best.None? ==> rest == stats.Keys
      invariant best.Some? ==> best.value in stats
      invariant best.Some? ==>
                  forall u | u in stats && u !in rest :: AtLeast(best.value, stats[best.value], u, stats[u])
      decreases |rest|
    {
      var u :| u in rest;
      rest := rest - {u};
      if best.None? || AtLeast(u, stats[u], best.value, stats[best.value]) {
        best := Some(u);
      }
    }
  }

  method DominantType(s: Schedule, start: int, end: int) returns (w: WeatherType)
    requires Sorted(s)
    ensures end <= start || s == [] ==> w == Unspecified
    ensures start < end ==> IsDominant(s, w, start, end)
  {
    if end <= start || s == [] {
      if start < end {
        NothingScheduled(s, start, end);
      }
      return Unspecified;
    }
    var stats := CollectStats(s, start, end);
    var best := PickBest(stats);
    DurationZero(s, TypeAt(s, start), start, end);
    assert TypeAt(s, start) in stats;
    w := if best.None? then Unspecified else best.value;
    BestIsDominant(s, w, start, end, stats);
  }

  // ----- The average temperature -----

  function RoundHalfAwayFromZero(x: real): int {
    if x >= 0.0 then (x + 0.5).Floor else -((-x + 0.5).Floor)
  }

  /** The nearest whole number, and of two that are equally near the one farther from zero. */
  predicate IsNearest(n: int, x: real) {
    && -0.5 <= n as real - x <= 0.5
    && (n as real - x == 0.5 ==> x > 0.0) && (n as real - x == -0.5 ==> x < 0.0)
  }

  lemma {:induction false} RoundingIsToTheNearest(x: real)
    ensures IsNearest(RoundHalfAwayFromZero(x), x)
    ensures forall n | IsNearest(n, x) :: n == RoundHalfAwayFromZero(x)
  {
    var r := RoundHalfAwayFromZero(x);
    forall n | IsNearest(n, x) ensures n == r {
      assert -1.0 <= (n - r) as real <= 1.0 by {
        assert (n - r) as real == n as real - r as real;
      }
    }
  }

  function ClampTemperature(t: int): int {
    if t < TEMPERATURE_MIN_C then TEMPERATURE_MIN_C
    else if t > TEMPERATURE_MAX_C then TEMPERATURE_MAX_C
    else t
  }

  /** The exact mean over the milliseconds of a window. */
  ghost function MeanTemperature(s: Schedule, a: int, b: int): real
    requires Sorted(s) && a < b
  {
    Sum(Temperature(s), a, b) as real / (b - a) as real
  }

  /** The mean rounded to the nearest degree, within one and thirty. */
  predicate IsShownMean(shown: int, mean: real) {
    && 1 <= shown <= 30
    && (IsNearest(shown, mean) || (shown == 1 && mean < 1.0) || (shown == 30 && mean > 30.0))
  }

  lemma {:induction false} ClampedMean(mean: real)
    ensures IsShownMean(ClampTemperature(RoundHalfAwayFromZero(mean)), mean)
  {
    RoundingIsToTheNearest(mean);
  }

  method AverageTemperature(s: Schedule, start: int, end: int) returns (r: Option<int>)
    requires Sorted(s)
    ensures r.None? <==> end <= start || WeatherAt(s, start).None?
    ensures r.Some? ==> r.value == ClampTemperature(RoundHalfAwayFromZero(MeanTemperature(s, start, end)))
    ensures r.Some? ==> IsShownMean(r.value, MeanTemperature(s, start, end))
  {
    if end <= start || s == [] {
      return None;
    }
    var cursor := start;
    var next := PartitionPoint(s, start);
    if next == 0 {
      return None;
    }
    ghost var f := Temperature(s);
    var current := s[next - 1].temperatureC;
    var weighted := 0;
    var duration := 0;
    while cursor < end
      invariant start <= cursor < end
      invariant 0 < next && SweepAt(s, cursor, next)
      invariant current == s[next - 1].temperatureC
      invariant weighted == Sum(f, start, cursor)
      invariant duration == cursor - start
      decreases |s| - next
    {
      var change := NextChange(s, next, end);
      StretchIsConstant(s, cursor, next, end);
      SumAppendConstant(f, start, cursor, change, current);
      if change > cursor {
        duration := duration + (change - cursor);
        weighted := weighted + current * (change - cursor);
      }
      if change >= end {
        break;
      }
      cursor := change;
      current := s[next].temperatureC;
      next := next + 1;
    }
    assert duration == end - start && weighted == Sum(f, start, end);
    if duration <= 0 {
      return None;
    }
    r := Some(ClampTemperature(RoundHalfAwayFromZero(weighted as real / duration as real)));
    ClampedMean(MeanTemperature(s, start, end));
  }

  /** With schedule temperatures in range, the average lies between the coldest and the warmest. */
  lemma {:induction false} AverageIsBetween(s: Schedule, a: int, b: int, lo: int, hi: int)
    requires Sorted(s) && a < b && WeatherAt(s, a).Some?
    requires TEMPERATURE_MIN_C <= lo <= hi <= TEMPERATURE_MAX_C
    requires forall t | a <= t < b :: WeatherAt(s, t).Some? ==> lo <= WeatherAt(s, t).value.temperatureC <= hi
    ensures lo <= ClampTemperature(RoundHalfAwayFromZero(MeanTemperature(s, a, b))) <= hi
  {
    forall t | a <= t < b ensures lo <= Temperature(s)(t) <= hi {
      assert PartitionPoint(s, t) >= PartitionPoint(s, a);
    }
    SumBounds(Temperature(s), a, b, lo, hi);
    MeanBounds(Sum(Temperature(s), a, b), b - a, lo, hi);
  }

  lemma {:induction false} MeanBounds(sum: int, n: int, lo: int, hi: int)
    requires 0 < n && lo * n <= sum <= hi * n
    ensures lo as real <= sum as real / n as real <= hi as real
  {
    var x := sum as real / n as real;
    assert x * n as real == sum as real;
    assert (lo * n) as real == lo as real * n as real && (hi * n) as real == hi as real * n as real;
  }

  // ----- Validation -----

  datatype DomainError =
    | UnspecifiedPreset
    | UnspecifiedNotTail(index: nat)
    | NonIncreasingTimestamp(index: nat, prev: int, current: int)
    | TimestampOverflow

  datatype UnspecifiedPolicy = AllowAnywhere | AllowOnlyTail

  /** What entry i does wrong, if anything; misplaced weather is reported before a bad time. */
  function EntryError(s: Schedule, policy: UnspecifiedPolicy, i: nat): Check<DomainError>
    requires i < |s|
  {
    if s[i].weatherType == Unspecified && policy == AllowOnlyTail && i + 1 != |s| then Fail(UnspecifiedNotTail(i))
    else if 0 < i && s[i].startsAt <= s[i - 1].startsAt then
      Fail(NonIncreasingTimestamp(i, s[i - 1].startsAt, s[i].startsAt))
    else Pass
  }

  method ValidateSchedule(s: Schedule, policy: UnspecifiedPolicy) returns (r: Check<DomainError>)
    ensures r.Pass? <==> forall i | 0 <= i < |s| :: EntryError(s, policy, i).Pass?
    ensures r.Fail? ==> exists i | 0 <= i < |s| ::
              r == EntryError(s, policy, i) && forall j | 0 <= j < i :: EntryError(s, policy, j).Pass?
  {
    var prev := None;
    for i := 0 to |s|
      invariant prev == if i == 0 then None else Some(s[i - 1].startsAt)
      invariant forall j | 0 <= j < i :: EntryError(s, policy, j).Pass?
    {
      if s[i].weatherType == Unspecified && policy == AllowOnlyTail && i + 1 != |s| {
        assert EntryError(s, policy, i).Fail?;
        return Fail(UnspecifiedNotTail(i));
      }
      if prev.Some? && s[i].startsAt <= prev.value {
        assert EntryError(s, policy, i).Fail?;
        return Fail(NonIncreasingTimestamp(i, prev.value, s[i].startsAt));
      }
      prev := Some(s[i].startsAt);
    }
    return Pass;
  }

  ghost predicate StrictlyIncreasing(s: Schedule) {
    forall i, j | 0 <= i < j < |s| :: s[i].startsAt < s[j].startsAt
  }

  /** A validated schedule is strictly increasing, hence sorted, and conversely. */
  lemma {:induction false} ValidIffIncreasing(s: Schedule)
    ensures (forall i | 0 <= i < |s| :: EntryError(s, AllowAnywhere, i).Pass?) <==> StrictlyIncreasing(s)
  {
    if forall i | 0 <= i < |s| :: EntryError(s, AllowAnywhere, i).Pass? {
      forall i, j | 0 <= i < j < |s| ensures s[i].startsAt < s[j].startsAt {
        IncreasingBetween(s, i, j);
      }
    }
  }

  /** The other policy in addition keeps unspecified weather to the last entry. */
  lemma {:induction false} ValidAtTheTailIff(s: Schedule)
    ensures (forall i | 0 <= i < |s| :: EntryError(s, AllowOnlyTail, i).Pass?) <==>
            StrictlyIncreasing(s) && forall i | 0 <= i < |s| - 1 :: s[i].weatherType != Unspecified
  {
    if forall i | 0 <= i < |s| :: EntryError(s, AllowOnlyTail, i).Pass? {
      forall i | 0 <= i < |s| ensures EntryError(s, AllowAnywhere, i).Pass? {
        assert EntryError(s, AllowOnlyTail, i).Pass?;
      }
      ValidIffIncreasing(s);
      forall i | 0 <= i < |s| - 1 ensures s[i].weatherType != Unspecified {
        assert EntryError(s, AllowOnlyTail, i).Pass?;
      }
    }
  }

  /** What is said of a failing entry is true, in the numbers that are named. */
  lemma {:induction false} EntryErrorsAreTrue(s: Schedule, policy: UnspecifiedPolicy, i: nat)
    requires i < |s| && EntryError(s, policy, i).Fail?
    ensures match EntryError(s, policy, i).reason
            case UnspecifiedNotTail(k) => k == i < |s| - 1 && policy == AllowOnlyTail && s[i].weatherType == Unspecified
            case NonIncreasingTimestamp(k, prev, current) =>
              k == i > 0 && prev == s[i - 1].startsAt >= s[i].startsAt == current
            case _ => false
  {
  }

  lemma {:induction false} IncreasingBetween(s: Schedule, i: nat, j: nat)
    requires i < j < |s|
    requires forall k | 0 <= k < |s| :: EntryError(s, AllowAnywhere, k).Pass?
    ensures s[i].startsAt < s[j].startsAt
    decreases j
  {
    assert EntryError(s, AllowAnywhere, j).Pass?;
    if i < j - 1 {
      IncreasingBetween(s, i, j - 1);
    }
  }

  // ----- The forecast -----

  datatype ForecastPreset = UnspecifiedForecast | OneHourStep15Min | TwelveHoursStep1Hour
  datatype ForecastPoint = ForecastPoint(time: int, weatherType: WeatherType)

  /** The horizon of a preset, in slots, and the length of a slot. */
  function SlotCount(preset: ForecastPreset): nat {
    if preset.OneHourStep15Min? then 4 else 12
  }

  function PresetWindow(preset: ForecastPreset): Result<(int, int), DomainError> {
    match preset
    case OneHourStep15Min => Success((HOUR_MS, 15 * MINUTE_MS))
    case TwelveHoursStep1Hour => Success((12 * HOUR_MS, HOUR_MS))
    case UnspecifiedForecast => Failure(UnspecifiedPreset)
  }

  function CheckedAdd(t: int, delta: int): Result<int, DomainError> {
    if t + delta > I64_MAX then Failure(TimestampOverflow) else Success(t + delta)
  }

  function NextAlignedBucketStart(t: int, step: int): Result<int, DomainError>
    requires 0 < step
  {
    var rem := t % step;
    CheckedAdd(t, if rem == 0 then step else step - rem)
  }

  /** Slot 0 is the start itself, slot 1 the first step boundary after it, then one a step. */
  function SlotTime(start: int, step: int, k: nat): int
    requires 0 < step
  {
    if k == 0 then start
    else if k == 1 then start + (step - start % step)
    else SlotTime(start, step, k - 1) + step
  }

  /** Slot k is the k-th multiple of the step after the start. */
  lemma {:induction false} SlotIsMultiple(start: int, step: int, k: nat)
    requires 0 < step && 0 < k
    ensures SlotTime(start, step, k) == start - start % step + k * step
  {
    if k > 1 {
      SlotIsMultiple(start, step, k - 1);
      assert k * step == (k - 1) * step + step;
    }
  }

  lemma {:induction false} SlotsIncrease(start: int, step: int, j: nat, k: nat)
    requires 0 < step && j < k
    ensures SlotTime(start, step, j) < SlotTime(start, step, k)
  {
    if j < k - 1 {
      SlotsIncrease(start, step, j, k - 1);
    }
  }

  /** The horizon ends in slot n. */
  lemma {:induction false} HorizonIsSlot(start: int, step: int, n: nat)
    requires 0 < step && 0 < n
    ensures SlotTime(start, step, n) <= start + n * step < SlotTime(start, step, n + 1)
  {
    SlotIsMultiple(start, step, n);
  }

  /** The forecast points of the slots before slot k. */
  function PointsBefore(s: Schedule, start: int, step: int, k: nat): seq<ForecastPoint>
    requires Sorted(s) && 0 < step
  {
    if k == 0 then []
    else
      var t := SlotTime(start, step, k - 1);
      PointsBefore(s, start, step, k - 1)
      + (if WeatherAt(s, t).Some? then [ForecastPoint(t, TypeAt(s, t))] else [])
  }

  lemma {:induction false} SlotQuotient(start: int, step: int, k: nat)
    requires 0 < step && 1 <= k
    ensures SlotTime(start, step, k) == (start / step + k) * step
  {
    SlotIsMultiple(start, step, k);
    Distribute(start / step, k, step);
  }

  lemma {:induction false} Distribute(a: int, b: int, step: int)
    ensures (a + b) * step == a * step + b * step
  {
  }

  lemma {:induction false} SlotIsBoundary(start: int, step: int, n: nat, k: nat)
    requires 0 < step && 1 <= k <= n
    ensures start < SlotTime(start, step, k) <= start + n * step
    ensures SlotTime(start, step, k) % step == 0
  {
    SlotQuotient(start, step, k);
    ModOfMultiple(start / step + k, step);
    SlotIsMultiple(start, step, k);
    FactorMonotone(k, n, step);
    FactorMonotone(1, k, step);
  }

  lemma {:induction false} BoundaryIsSlot(start: int, step: int, n: nat, t: int) returns (k: nat)
    requires 0 < step && start < t <= start + n * step && t % step == 0
    ensures 1 <= k <= n && SlotTime(start, step, k) == t
  {
    var q, m := start / step, t / step;
    assert t == step * m && start == step * q + start % step;
    assert (m - q) * step == step * m - step * q;
    assert (n + 1) * step == n * step + step;
    FactorBounds(m - q, n + 1, step);
    k := m - q;
    SlotIsMultiple(start, step, k);
  }

  /** The slots: the start, then every step boundary up to the horizon, and no other time. */
  lemma {:induction false} SlotsAreTheBoundaries(start: int, step: int, n: nat, t: int)
    requires 0 < step
    ensures (exists k | 1 <= k <= n :: SlotTime(start, step, k) == t) <==>
            (start < t <= start + n * step && t % step == 0)
  {
    if start < t <= start + n * step && t % step == 0 {
      var k := BoundaryIsSlot(start, step, n, t);
    }
    if k :| 1 <= k <= n && SlotTime(start, step, k) == t {
      SlotIsBoundary(start, step, n, k);
    }
  }

  lemma {:induction false} ModOfMultiple(q: int, step: int)
    requires 0 < step
    ensures q * step % step == 0
  {
    assert q * step == step * q;
    DivModUnique(q * step, step, q, 0);
  }

  lemma {:induction false} DivModUnique(x: int, step: int, q: int, r: int)
    requires 0 < step && 0 <= r < step && x == step * q + r
    ensures x / step == q && x % step == r
  {
    var d := q - x / step;
    assert d * step == step * q - step * (x / step);
    if d >= 1 {
      FactorMonotone(1, d, step);
    } else if d <= -1 {
      FactorMonotone(d, -1, step);
    }
  }

  lemma {:induction false} FactorBounds(k: int, n: int, step: int)
    requires 0 < step && 0 < k * step < n * step
    ensures 0 < k < n
  {
    assert (n - k) * step == n * step - k * step;
  }

  lemma {:induction false} FactorMonotone(k: int, n: int, step: int)
    requires 0 < step && k <= n
    ensures k * step <= n * step
  {
    assert (n - k) * step >= 0;
    assert (n - k) * step == n * step - k * step;
  }

  /** Once weather is in force it stays so. */
  lemma {:induction false} InForceIsMonotone(s: Schedule, t: int, t': int)
    requires Sorted(s) && t <= t' && WeatherAt(s, t).Some?
    ensures WeatherAt(s, t').Some?
  {
    assert s[0].startsAt <= t;
  }

  lemma {:induction false} StaysInForce(s: Schedule, start: int, step: int, i: nat, j: nat)
    requires Sorted(s) && 0 < step && i < j && WeatherAt(s, SlotTime(start, step, i)).Some?
    ensures WeatherAt(s, SlotTime(start, step, j)).Some?
  {
    SlotsIncrease(start, step, i, j);
    InForceIsMonotone(s, SlotTime(start, step, i), SlotTime(start, step, j));
  }

  /** The slot's time, and the weather in force then. */
  ghost predicate IsPointOfSlot(s: Schedule, start: int, step: int, k: nat, point: ForecastPoint)
    requires Sorted(s) && 0 < step
  {
    var t := SlotTime(start, step, k);
    WeatherAt(s, t).Some? && point == ForecastPoint(t, TypeAt(s, t))
  }

  /** No weather in force at the first `skipped` slots, then one point a slot. */
  ghost predicate CoversSlots(s: Schedule, start: int, step: int, skipped: nat, points: seq<ForecastPoint>)
    requires Sorted(s) && 0 < step
  {
    && (forall j | 0 <= j < skipped :: WeatherAt(s, SlotTime(start, step, j)).None?)
    && (forall i | 0 <= i < |points| :: IsPointOfSlot(s, start, step, skipped + i, points[i]))
  }

  lemma {:induction false} CoverageGrows(s: Schedule, start: int, step: int, skipped: nat, points: seq<ForecastPoint>)
    requires Sorted(s) && 0 < step && CoversSlots(s, start, step, skipped, points)
    requires WeatherAt(s, SlotTime(start, step, skipped + |points|)).Some?
    ensures var t := SlotTime(start, step, skipped + |points|);
            CoversSlots(s, start, step, skipped, points + [ForecastPoint(t, TypeAt(s, t))])
  {
    var t := SlotTime(start, step, skipped + |points|);
    var next := points + [ForecastPoint(t, TypeAt(s, t))];
    forall i | 0 <= i < |next| ensures IsPointOfSlot(s, start, step, skipped + i, next[i]) {
      assert i < |points| ==> next[i] == points[i];
    }
  }

  /** Once a slot has a point, so has the next one. */
  lemma {:induction false} CoverageStays(s: Schedule, start: int, step: int, skipped: nat, points: seq<ForecastPoint>)
    requires Sorted(s) && 0 < step && CoversSlots(s, start, step, skipped, points) && points != []
    ensures WeatherAt(s, SlotTime(start, step, skipped + |points|)).Some?
  {
    assert IsPointOfSlot(s, start, step, skipped + 0, points[0]);
    StaysInForce(s, start, step, skipped, skipped + |points|);
  }

  lemma {:induction false} CoverageSkips(s: Schedule, start: int, step: int, skipped: nat)
    requires Sorted(s) && 0 < step && CoversSlots(s, start, step, skipped, [])
    requires WeatherAt(s, SlotTime(start, step, skipped)).None?
    ensures CoversSlots(s, start, step, skipped + 1, [])
  {
  }

  /**
   The points are those of a suffix of the k slots: it begins at the first slot with weather in
   force and has one point a slot, with the slot's time and the weather of that time.
   */
  lemma {:induction false} ForecastIsASuffixOfTheSlots(s: Schedule, start: int, step: int, k: nat)
    returns (skipped: nat)
    requires Sorted(s) && 0 < step
    ensures k == skipped + |PointsBefore(s, start, step, k)|
    ensures CoversSlots(s, start, step, skipped, PointsBefore(s, start, step, k))
  {
    if k == 0 {
      return 0;
    }
    skipped := ForecastIsASuffixOfTheSlots(s, start, step, k - 1);
    var points := PointsBefore(s, start, step, k - 1);
    if points != [] {
      CoverageStays(s, start, step, skipped, points);
    }
    if WeatherAt(s, SlotTime(start, step, k - 1)).Some? {
      CoverageGrows(s, start, step, skipped, points);
    } else {
      CoverageSkips(s, start, step, skipped);
      skipped := skipped + 1;
    }
  }

  /**
   The projection: it fails on an unordered schedule, on an unspecified preset, or when the slot
   after the last one is not representable, and otherwise yields the points of all slots.
   */
  method ProjectForecast(s: Schedule, start: i64, preset: ForecastPreset)
    returns (r: Result<seq<ForecastPoint>, DomainError>)
    ensures !StrictlyIncreasing(s) ==> r.Failure? && r.error.NonIncreasingTimestamp?
    ensures StrictlyIncreasing(s) && preset.UnspecifiedForecast? ==> r == Failure(UnspecifiedPreset)
    ensures StrictlyIncreasing(s) && !preset.UnspecifiedForecast? ==>
              var (n, step) := if preset.OneHourStep15Min? then (4, 900_000) else (12, 3_600_000);
              r == if SlotTime(start, step, n + 1) <= I64_MAX
                   then Success(PointsBefore(s, start, step, n + 1)) else Failure(TimestampOverflow)
  {
    ValidIffIncreasing(s);
    var valid := ValidateSchedule(s, AllowAnywhere);
    if valid.Fail? {
      return Failure(valid.reason);
    }
    var window :- PresetWindow(preset);
    var horizon, step := window.0, window.1;
    HorizonIsSlot(start, step, SlotCount(preset));
    if start + horizon > I64_MAX {
      return Failure(TimestampOverflow);
    }
    r := ProjectSlots(s, start, step, SlotCount(preset), start + horizon);
  }

  /** The projection loop. */
  method ProjectSlots(s: Schedule, start: int, step: int, ghost n: nat, end: int)
    returns (r: Result<seq<ForecastPoint>, DomainError>)
    requires Sorted(s) && 0 < step && SlotTime(start, step, n) <= end < SlotTime(start, step, n + 1)
    requires start <= end <= I64_MAX
    ensures r == if SlotTime(start, step, n + 1) <= I64_MAX
                 then Success(PointsBefore(s, start, step, n + 1)) else Failure(TimestampOverflow)
  {
    var points := [];
    var time := start;
    var first := true;
    ghost var k := 0;
    while time <= end
      invariant 0 <= k <= n
      invariant time == SlotTime(start, step, k) <= end
      invariant first <==> k == 0
      invariant points == PointsBefore(s, start, step, k)
      decreases n - k
    {
      if WeatherAt(s, time).Some? {
        points := points + [ForecastPoint(time, WeatherAt(s, time).value.weatherType)];
      }
      SlotsUpTo(start, step, k + 1, n);
      var next :- NextSlot(first, time, step, start, k);
      first := false;
      assert points == PointsBefore(s, start, step, k + 1);
      if next > end {
        assert k == n;
        break;
      }
      time := next;
      k := k + 1;
    }
    return Success(points);
  }

  method NextSlot(first: bool, time: int, step: int, ghost start: int, ghost k: nat)
    returns (next: Result<int, DomainError>)
    requires 0 < step && time == SlotTime(start, step, k) && (first <==> k == 0)
    ensures next == CheckedAdd(SlotTime(start, step, k + 1), 0)
  {
    next := if first then NextAlignedBucketStart(time, step) else CheckedAdd(time, step);
  }

  lemma {:induction false} SlotsUpTo(start: int, step: int, k: nat, n: nat)
    requires 0 < step && k <= n + 1
    ensures if k <= n then SlotTime(start, step, k) <= SlotTime(start, step, n)
            else SlotTime(start, step, k) == SlotTime(start, step, n + 1)
  {
    if k < n {
      SlotsIncrease(start, step, k, n);
    }
  }
}
