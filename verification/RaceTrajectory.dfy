/**
 The path of a car as the race table remembers it (services/race_table.rs): points of progress and
 time, pruned as they come in, and searched for the time at which the leader passed a place.
 */
module RaceTrajectory {
  import opened Prelude

  const MAX_AGE_MS := 24 * 60 * 60 * 1000
  const MIN_PROGRESS_DELTA_M := 0.1
  const PROGRESS_EPSILON_M := 0.001
  const RESET_BACKTRACK_M := 5.0

  datatype Point = Point(progress: real, elapsed: nat)

  type Trajectory = seq<Point>

  /** Time moves on with every point, and progress by at least a tenth of a metre. */
  predicate Advancing(t: Trajectory) {
    forall i, j | 0 <= i < j < |t| ::
      t[i].elapsed < t[j].elapsed && t[i].progress + MIN_PROGRESS_DELTA_M <= t[j].progress
  }

  // ----- Recording -----

  function Last(t: Trajectory): Point
    requires t != []
  {
    t[|t| - 1]
  }

  /** A car that is five metres or more behind its last point starts a new trajectory. */
  function Restarted(t: Trajectory, progress: real): Trajectory {
    if t != [] && progress + PROGRESS_EPSILON_M < Last(t).progress
       && Last(t).progress - progress >= RESET_BACKTRACK_M
    then [] else t
  }

  predicate ShouldAppend(t: Trajectory, p: Point) {
    t == [] || (Last(t).elapsed < p.elapsed && Last(t).progress < p.progress
                && p.progress - Last(t).progress >= MIN_PROGRESS_DELTA_M)
  }

  /** Drops points older than `minKeep` from the front, but never the last one. */
  function WithoutOld(t: Trajectory, minKeep: nat): Trajectory {
    if |t| > 1 && t[0].elapsed < minKeep then WithoutOld(t[1..], minKeep) else t
  }

  function MinKeep(elapsed: nat): nat {
    if elapsed < MAX_AGE_MS then 0 else elapsed - MAX_AGE_MS
  }

  function Recorded(t: Trajectory, p: Point): Trajectory {
    var kept := Restarted(t, p.progress);
    WithoutOld(if ShouldAppend(kept, p) then kept + [p] else kept, MinKeep(p.elapsed))
  }

  /** How the table records where a car is now. */
  method Record(trajectory: Trajectory, p: Point) returns (t: Trajectory)
    ensures t == Recorded(trajectory, p)
  {
    t := trajectory;
    if t != [] && p.progress + PROGRESS_EPSILON_M < Last(t).progress {
      var backtrack := Last(t).progress - p.progress;
      if backtrack >= RESET_BACKTRACK_M {
        t := [];
      }
    }
    var shouldAppend;
    if t == [] {
      shouldAppend := true;
    } else if p.elapsed <= Last(t).elapsed || p.progress <= Last(t).progress {
      shouldAppend := false;
    } else {
      shouldAppend := p.progress - Last(t).progress >= MIN_PROGRESS_DELTA_M;
    }
    if shouldAppend {
      t := t + [p];
    }
    var minKeep := MinKeep(p.elapsed);
    while t != [] && t[0].elapsed < minKeep && |t| > 1
      invariant WithoutOld(t, minKeep) == Recorded(trajectory, p)
      decreases |t|
    {
      t := t[1..];
    }
  }

  lemma {:induction false} WithoutOldIsASuffix(t: Trajectory, minKeep: nat)
    ensures |WithoutOld(t, minKeep)| <= |t|
    ensures WithoutOld(t, minKeep) == t[|t| - |WithoutOld(t, minKeep)|..]
    ensures t != [] ==> WithoutOld(t, minKeep) != []
  {
    if |t| > 1 && t[0].elapsed < minKeep {
      WithoutOldIsASuffix(t[1..], minKeep);
    }
  }

  lemma {:induction false} AppendAdvances(t: Trajectory, p: Point)
    requires Advancing(t) && ShouldAppend(t, p)
    ensures Advancing(t + [p])
  {
    var next := t + [p];
    forall i, j | 0 <= i < j < |next|
      ensures next[i].elapsed < next[j].elapsed && next[i].progress + MIN_PROGRESS_DELTA_M <= next[j].progress
    {
      if j == |t| {
        assert next[j] == p && next[i] == t[i];
        assert i < |t| - 1 ==> t[i].elapsed < Last(t).elapsed && t[i].progress < Last(t).progress;
      }
    }
  }

  /** Recording keeps a trajectory advancing, and it ends close to where the car is. */
  lemma {:induction false} RecordingKeepsAdvancing(t: Trajectory, p: Point)
    requires Advancing(t)
    ensures Advancing(Recorded(t, p)) && Recorded(t, p) != []
    ensures forall q | q in Recorded(t, p) :: q == p || q in t
    ensures p.progress > Last(Recorded(t, p)).progress - RESET_BACKTRACK_M
  {
    var kept := Restarted(t, p.progress);
    var next := if ShouldAppend(kept, p) then kept + [p] else kept;
    if ShouldAppend(kept, p) {
      AppendAdvances(kept, p);
    }
    PruningKeepsAdvancing(next, MinKeep(p.elapsed));
  }

  lemma {:induction false} PruningKeepsAdvancing(t: Trajectory, minKeep: nat)
    requires Advancing(t) && t != []
    ensures var rest := WithoutOld(t, minKeep);
            Advancing(rest) && rest != [] && Last(rest) == Last(t) && forall q | q in rest :: q in t
  {
    WithoutOldIsASuffix(t, minKeep);
    SuffixAdvances(t, |t| - |WithoutOld(t, minKeep)|);
  }

  lemma {:induction false} SuffixAdvances(t: Trajectory, k: nat)
    requires Advancing(t) && k <= |t|
    ensures Advancing(t[k..])
  {
  }

  // ----- What recording amounts to -----

  /** The car is at least five metres behind its last point. */
  predicate HasTurnedBack(t: Trajectory, p: Point) {
    t != [] && p.progress <= t[|t| - 1].progress - 5.0
  }

  /** The car is at least ten centimetres farther, at a later time. */
  predicate HasGoneOn(t: Trajectory, p: Point) {
    t != [] && t[|t| - 1].elapsed < p.elapsed && t[|t| - 1].progress + 0.1 <= p.progress
  }

  predicate IsOlderThanADay(q: Point, p: Point) {
    q.elapsed + 86_400_000 < p.elapsed
  }

  /**
   What a trajectory becomes when its car is at p: it begins anew with p, or it is what it was, with p
   at its end if the car has gone on; of these points exactly those older than a day are gone, but
   never the last one.
   */
  ghost predicate Records(t: Trajectory, p: Point, next: Trajectory) {
    if t == [] || HasTurnedBack(t, p) then next == [p]
    else KeepsTheYoung(if HasGoneOn(t, p) then t + [p] else t, p, next)
  }

  ghost predicate KeepsTheYoung(all: Trajectory, p: Point, next: Trajectory) {
    && 0 < |next| <= |all| && next == all[|all| - |next|..]
    && forall i | 0 <= i < |all| :: i < |all| - |next| <==> IsOlderThanADay(all[i], p) && i < |all| - 1
  }

  lemma {:induction false} PruningDropsTheOld(t: Trajectory, minKeep: nat)
    requires Advancing(t) && t != []
    ensures var n := |t| - |WithoutOld(t, minKeep)|;
            0 <= n < |t| && forall i | 0 <= i < |t| :: i < n <==> t[i].elapsed < minKeep && i < |t| - 1
  {
    if |t| > 1 && t[0].elapsed < minKeep {
      PruningDropsTheOld(t[1..], minKeep);
      forall i | 0 < i < |t|
        ensures i < |t| - |WithoutOld(t, minKeep)| <==> t[i].elapsed < minKeep && i < |t| - 1
      {
        assert t[i] == t[1..][i - 1];
      }
    } else if |t| > 1 {
      assert forall i | 0 < i < |t| :: t[0].elapsed < t[i].elapsed;
    }
  }

  lemma {:induction false} PruningKeepsTheYoung(all: Trajectory, p: Point)
    requires Advancing(all) && all != []
    ensures KeepsTheYoung(all, p, WithoutOld(all, MinKeep(p.elapsed)))
  {
    WithoutOldIsASuffix(all, MinKeep(p.elapsed));
    PruningDropsTheOld(all, MinKeep(p.elapsed));
    assert forall q: Point :: q.elapsed < MinKeep(p.elapsed) <==> IsOlderThanADay(q, p);
  }

  lemma {:induction false} RecordingRecords(t: Trajectory, p: Point)
    requires Advancing(t)
    ensures Records(t, p, Recorded(t, p))
  {
    if t == [] || HasTurnedBack(t, p) {
      assert Restarted(t, p.progress) == [] && [] + [p] == [p];
    } else {
      assert Restarted(t, p.progress) == t;
      assert HasGoneOn(t, p) <==> ShouldAppend(t, p);
      if HasGoneOn(t, p) {
        AppendAdvances(t, p);
        PruningKeepsTheYoung(t + [p], p);
      } else {
        PruningKeepsTheYoung(t, p);
      }
    }
  }

  // ----- Looking up when a place was passed -----

  /** The first point at or beyond the place. */
  function UpperIndex(t: Trajectory, progress: real): (i: nat)
    requires t != [] && progress <= Last(t).progress
    ensures i < |t| && progress <= t[i].progress
    ensures forall j | 0 <= j < i :: t[j].progress < progress
  {
    if progress <= t[0].progress then 0 else 1 + UpperIndex(t[1..], progress)
  }

  function Abs(x: real): real {
    if x < 0.0 then -x else x
  }

  function Clamp01(x: real): real {
    if x < 0.0 then 0.0 else if x > 1.0 then 1.0 else x
  }

  /** A place within a millimetre of the next point counts as that point. */
  function TimeBefore(t: Trajectory, upper: nat, progress: real): real
    requires upper < |t|
  {
    if Abs(t[upper].progress - progress) <= PROGRESS_EPSILON_M || upper == 0 then t[upper].elapsed as real
    else
      var lower := t[upper - 1];
      var deltaProgress := t[upper].progress - lower.progress;
      if deltaProgress <= PROGRESS_EPSILON_M then t[upper].elapsed as real
      else
        var deltaTime := if lower.elapsed <= t[upper].elapsed then t[upper].elapsed - lower.elapsed else 0;
        lower.elapsed as real + Clamp01((progress - lower.progress) / deltaProgress) * deltaTime as real
  }

  function TimeAt(t: Trajectory, progress: real): Option<real> {
    if t == [] || progress < t[0].progress || progress > Last(t).progress then None
    else Some(TimeBefore(t, UpperIndex(t, progress), progress))
  }

  /** The binary search finds the first point at or beyond the place. */
  method InterpolateLeaderTimeMs(t: Trajectory, progress: real) returns (time: Option<real>)
    requires Advancing(t)
    ensures time == TimeAt(t, progress)
  {
    if t == [] {
      return None;
    }
    if progress < t[0].progress || progress > Last(t).progress {
      return None;
    }
    var lo, hi := 0, |t| - 1;
    while lo < hi
      invariant 0 <= lo <= hi < |t|
      invariant (0 < lo ==> t[lo - 1].progress < progress) && progress <= t[hi].progress
    {
      var mid := lo + (hi - lo) / 2;
      if t[mid].progress < progress {
        lo := mid + 1;
      } else {
        hi := mid;
      }
    }
    UpperIndexIs(t, lo, progress);
    var found := TimeBetween(t, lo, progress);
    return Some(found);
  }

  /** The time of a place from the first point at or beyond it and the one before. */
  method TimeBetween(t: Trajectory, upperIdx: nat, progress: real) returns (time: real)
    requires upperIdx < |t|
    ensures time == TimeBefore(t, upperIdx, progress)
  {
    var upper := t[upperIdx];
    if Abs(upper.progress - progress) <= PROGRESS_EPSILON_M {
      return upper.elapsed as real;
    }
    if upperIdx == 0 {
      return upper.elapsed as real;
    }
    var lower := t[upperIdx - 1];
    var deltaProgress := upper.progress - lower.progress;
    if deltaProgress <= PROGRESS_EPSILON_M {
      return upper.elapsed as real;
    }
    var ratio := Clamp01((progress - lower.progress) / deltaProgress);
    var deltaTime := if lower.elapsed <= upper.elapsed then upper.elapsed - lower.elapsed else 0;
    return lower.elapsed as real + ratio * deltaTime as real;
  }

  // ----- What the looked-up time means -----

  /** The straight line between two points. */
  function Linear(a: Point, b: Point, progress: real): real
    requires a.progress < b.progress
  {
    a.elapsed as real + (progress - a.progress) / (b.progress - a.progress) * (b.elapsed - a.elapsed) as real
  }

  /** A fraction of a span, and what is left of it. */
  lemma {:induction false} FractionOf(part: real, whole: real, span: real)
    requires 0.0 <= part <= whole && 0.0 < whole && 0.0 <= span
    ensures 0.0 <= part / whole <= 1.0
    ensures 0.0 <= part / whole * span <= span
  {
    assert part / whole * whole == part;
  }

  lemma {:induction false} UpperIndexIs(t: Trajectory, i: nat, progress: real)
    requires Advancing(t) && i < |t| && progress <= t[i].progress
    requires i > 0 ==> t[i - 1].progress < progress
    ensures progress <= Last(t).progress && UpperIndex(t, progress) == i
  {
    assert i < |t| - 1 ==> t[i].progress < Last(t).progress;
    if i > 0 {
      assert t[0].progress <= t[i - 1].progress;
      UpperIndexIs(t[1..], i - 1, progress);
    }
  }

  lemma {:induction false} UpperIndexGrows(t: Trajectory, p: real, q: real)
    requires t != [] && p <= q <= Last(t).progress
    ensures UpperIndex(t, p) <= UpperIndex(t, q)
  {
    if p > t[0].progress {
      UpperIndexGrows(t[1..], p, q);
    }
  }

  /** The time of a place between two points is between theirs. */
  lemma {:induction false} TimeIsWithinTheSegment(t: Trajectory, i: nat, progress: real)
    requires Advancing(t) && 0 < i < |t| && t[i - 1].progress < progress <= t[i].progress
    ensures t[i - 1].elapsed as real <= TimeBefore(t, i, progress) <= t[i].elapsed as real
    ensures Abs(t[i].progress - progress) <= PROGRESS_EPSILON_M ==> TimeBefore(t, i, progress) == t[i].elapsed as real
    ensures Abs(t[i].progress - progress) > PROGRESS_EPSILON_M ==>
              TimeBefore(t, i, progress) == Linear(t[i - 1], t[i], progress)
  {
    var lower, upper := t[i - 1], t[i];
    FractionOf(progress - lower.progress, upper.progress - lower.progress,
               (upper.elapsed - lower.elapsed) as real);
  }

  /** A time is found exactly for the places between the first and the last point. */
  lemma {:induction false} TimeIsKnownExactlyInBetween(t: Trajectory, progress: real)
    requires Advancing(t)
    ensures TimeAt(t, progress).Some? <==> t != [] && t[0].progress <= progress <= Last(t).progress
    ensures TimeAt(t, progress).Some? ==>
              t[0].elapsed as real <= TimeAt(t, progress).value <= Last(t).elapsed as real
  {
    if TimeAt(t, progress).Some? {
      var u := UpperIndex(t, progress);
      assert u < |t| - 1 ==> t[u].elapsed < Last(t).elapsed;
      if u > 0 {
        TimeIsWithinTheSegment(t, u, progress);
        assert u > 1 ==> t[0].elapsed < t[u - 1].elapsed;
      }
    }
  }

  /** At a recorded point it is the recorded time. */
  lemma {:induction false} TimeIsExactAtPoints(t: Trajectory, i: nat)
    requires Advancing(t) && i < |t|
    ensures TimeAt(t, t[i].progress) == Some(t[i].elapsed as real)
  {
    assert i > 0 ==> t[i - 1].progress < t[i].progress && t[0].progress <= t[i].progress;
    assert i > 1 ==> t[0].progress < t[i].progress;
    UpperIndexIs(t, i, t[i].progress);
  }

  /** Places farther on were passed no earlier. */
  lemma {:induction false} TimeIsMonotone(t: Trajectory, p: real, q: real)
    requires Advancing(t) && p <= q && TimeAt(t, p).Some? && TimeAt(t, q).Some?
    ensures TimeAt(t, p).value <= TimeAt(t, q).value
  {
    var i, j := UpperIndex(t, p), UpperIndex(t, q);
    UpperIndexGrows(t, p, q);
    if i == j {
      if i > 0 {
        MonotoneInSegment(t, i, p, q);
      }
    } else {
      TimeIsKnownExactlyInBetween(t, p);
      if i > 0 {
        TimeIsWithinTheSegment(t, i, p);
      }
      TimeIsWithinTheSegment(t, j, q);
      assert i < j - 1 ==> t[i].elapsed < t[j - 1].elapsed;
    }
  }

  lemma {:induction false} MonotoneInSegment(t: Trajectory, i: nat, p: real, q: real)
    requires Advancing(t) && 0 < i < |t| && t[i - 1].progress < p <= q <= t[i].progress
    ensures TimeBefore(t, i, p) <= TimeBefore(t, i, q)
  {
    TimeIsWithinTheSegment(t, i, p);
    TimeIsWithinTheSegment(t, i, q);
    var lower, upper := t[i - 1], t[i];
    if Abs(upper.progress - q) > PROGRESS_EPSILON_M {
      LinearIsMonotone(lower, upper, p, q);
    }
  }

  lemma {:induction false} LinearIsMonotone(a: Point, b: Point, p: real, q: real)
    requires a.progress < b.progress && a.elapsed <= b.elapsed && p <= q
    ensures Linear(a, b, p) <= Linear(a, b, q)
  {
    var whole, span := b.progress - a.progress, (b.elapsed - a.elapsed) as real;
    var x, y := (p - a.progress) / whole, (q - a.progress) / whole;
    assert x <= y by {
      assert x * whole == p - a.progress && y * whole == q - a.progress;
      if y < x {
        Scaled(y, x, whole);
      }
    }
    assert x * span <= y * span;
  }

  lemma {:induction false} Scaled(x: real, y: real, factor: real)
    requires x < y && 0.0 < factor
    ensures x * factor < y * factor
  {
  }

  /** Off the straight line by at most a hundredth of the time between the two points. */
  predicate NearlyOn(a: Point, b: Point, progress: real, time: real)
    requires a.progress < b.progress
  {
    Abs(time - Linear(a, b, progress)) <= 0.01 * (b.elapsed - a.elapsed) as real
  }

  lemma {:induction false} TimeIsNearlyLinear(t: Trajectory, i: nat, progress: real)
    requires Advancing(t) && 0 < i < |t| && t[i - 1].progress <= progress <= t[i].progress
    ensures TimeAt(t, progress).Some?
    ensures NearlyOn(t[i - 1], t[i], progress, TimeAt(t, progress).value)
  {
    var lower, upper := t[i - 1], t[i];
    assert i > 1 ==> t[0].progress < lower.progress;
    assert i < |t| - 1 ==> upper.progress < Last(t).progress;
    if progress == lower.progress {
      TimeIsExactAtPoints(t, i - 1);
      LineStartsAt(lower, upper);
    } else {
      UpperIndexIs(t, i, progress);
      TimeIsWithinTheSegment(t, i, progress);
      if Abs(upper.progress - progress) <= PROGRESS_EPSILON_M {
        SnapIsSmall(lower, upper, progress);
      } else {
        OnTheLine(lower, upper, progress);
      }
    }
  }

  lemma {:induction false} LineStartsAt(a: Point, b: Point)
    requires a.progress < b.progress && a.elapsed < b.elapsed
    ensures NearlyOn(a, b, a.progress, a.elapsed as real)
  {
    var whole := b.progress - a.progress;
    assert 0.0 / whole == 0.0;
    assert Linear(a, b, a.progress) == a.elapsed as real;
  }

  lemma {:induction false} OnTheLine(a: Point, b: Point, progress: real)
    requires a.progress < b.progress && a.elapsed < b.elapsed
    ensures NearlyOn(a, b, progress, Linear(a, b, progress))
  {
  }

  lemma {:induction false} SnapIsSmall(a: Point, b: Point, progress: real)
    requires a.progress + MIN_PROGRESS_DELTA_M <= b.progress && a.elapsed < b.elapsed
    requires a.progress < progress <= b.progress && b.progress - progress <= PROGRESS_EPSILON_M
    ensures NearlyOn(a, b, progress, b.elapsed as real)
  {
    var whole, span := b.progress - a.progress, (b.elapsed - a.elapsed) as real;
    var x := (progress - a.progress) / whole;
    assert x * whole == progress - a.progress;
    Distribute(x, whole);
    RatioBound(1.0 - x, whole);
    SnapBound(a.elapsed as real, span, x);
  }

  lemma {:induction false} SnapBound(start: real, span: real, x: real)
    requires 0.0 <= 1.0 - x <= 0.01 && 0.0 <= span
    ensures Abs(start + span - (start + x * span)) <= 0.01 * span
  {
    Distribute(x, span);
    SmallShare(1.0 - x, span);
  }

  lemma {:induction false} RatioBound(ratio: real, whole: real)
    requires MIN_PROGRESS_DELTA_M <= whole && 0.0 <= ratio * whole <= PROGRESS_EPSILON_M
    ensures 0.0 <= ratio <= 0.01
  {
    if 0.01 < ratio {
      Scaled(0.01, ratio, whole);
    }
    if ratio < 0.0 {
      Scaled(ratio, 0.0, whole);
    }
  }

  lemma {:induction false} Distribute(x: real, span: real)
    ensures (1.0 - x) * span == span - x * span
  {
  }

  lemma {:induction false} SmallShare(x: real, span: real)
    requires 0.0 <= x <= 0.01 && 0.0 <= span
    ensures 0.0 <= x * span <= 0.01 * span
  {
  }
}
