/**
 The numbers in the official race table, in terms of the calls made so far: what the table remembers
 of a car's way and of its last gap, and how large the gap and the laps are that it shows.
 */
module RaceTableGaps {
  import opened Prelude
  import opened RaceTrajectory
  import opened RaceTable
  import opened RaceTableHistory

  // ----- The ways that are recorded -----

  /** What is recorded of a car when a call begins. */
  ghost function WayBefore(calls: Calls, k: nat): Trajectory
    requires calls != []
  {
    if BeginsAfresh(calls) || k !in CacheOf(Earlier(calls)).trajectories then []
    else CacheOf(Earlier(calls)).trajectories[k]
  }

  lemma {:induction false} RecordAllAt(m: map<nat, Trajectory>, elapsed: nat, s: seq<Sample>, i: nat)
    requires DistinctCars(s) && i < |s|
    ensures s[i].row.carId in RecordAll(m, elapsed, s)
    ensures RecordAll(m, elapsed, s)[s[i].row.carId] ==
            Recorded(TrajectoryOf(m, s[i].row.carId), Point(s[i].progress, elapsed))
  {
    var front := s[..|s| - 1];
    if i < |front| {
      RecordAllAt(m, elapsed, front, i);
    } else {
      TrajectoriesOfOthersStay(m, elapsed, front, s[i].row.carId);
    }
  }

  lemma {:induction false} RecordAllKeys(m: map<nat, Trajectory>, elapsed: nat, s: seq<Sample>)
    ensures RecordAll(m, elapsed, s).Keys == m.Keys + CarIds(s)
  {
    if s != [] {
      var front, last := s[..|s| - 1], s[|s| - 1];
      RecordAllKeys(m, elapsed, front);
      assert s == front + [last];
      assert CarIds(s) == CarIds(front) + {last.row.carId};
    }
  }

  /** The ways that are kept are those of the cars on track. */
  lemma {:induction false} WaysAreOfTheCarsOnTrack(calls: Calls)
    requires DistinctCalls(calls)
    ensures CacheOf(calls).trajectories.Keys == Now(calls)
  {
    if calls != [] {
      var c := EnteredCache(calls);
      SortedSamples(c, Latest(calls));
      RecordAllKeys(Kept(c.trajectories, Now(calls)), Latest(calls).elapsed, RaceOrder(calls));
    }
  }

  lemma {:induction false} EnteredWay(calls: Calls, k: nat)
    requires calls != [] && DistinctCalls(calls) && k in Now(calls)
    ensures TrajectoryOf(Kept(EnteredCache(calls).trajectories, Now(calls)), k) == WayBefore(calls, k)
    ensures Advancing(WayBefore(calls, k))
  {
    if Earlier(calls) != [] {
      CacheRemembers(Earlier(calls));
      WaysAreOfTheCarsOnTrack(Earlier(calls));
    }
    EnteringForgets(calls);
  }

  /** A car's way goes on, in every call, from where it was to where the car is now. */
  lemma {:induction false} WaysAreRecorded(calls: Calls, i: nat)
    requires calls != [] && DistinctCalls(calls) && i < |RaceOrder(calls)|
    ensures var s := RaceOrder(calls)[i];
            && s.row.carId in CacheOf(calls).trajectories
            && Records(WayBefore(calls, s.row.carId), Point(s.progress, Latest(calls).elapsed),
                       CacheOf(calls).trajectories[s.row.carId])
  {
    var c, s := EnteredCache(calls), RaceOrder(calls)[i];
    SortedSamples(c, Latest(calls));
    assert s.row.carId in CarIds(RaceOrder(calls));
    RecordAllAt(Kept(c.trajectories, Now(calls)), Latest(calls).elapsed, RaceOrder(calls), i);
    EnteredWay(calls, s.row.carId);
    RecordingRecords(WayBefore(calls, s.row.carId), Point(s.progress, Latest(calls).elapsed));
  }

  // ----- The gaps that are remembered -----

  ghost predicate IsHidden(calls: Calls, k: nat)
    requires calls != []
  {
    exists s | s in RaceOrder(calls) :: s.row.carId == k && s.hideGap
  }

  ghost predicate IsLeader(calls: Calls, k: nat)
    requires calls != []
  {
    RaceOrder(calls) != [] && RaceOrder(calls)[0].row.carId == k
  }

  /**
   The last gap shown for a car while it was not the leader, unless the car has since been away, had
   its gap hidden, or the table has started afresh.
   */
  ghost function LastShownGap(calls: Calls, k: nat): Option<nat>
    decreases |calls|
  {
    if calls == [] || k !in ById(OnTrack(calls)) then None
    else
      var before := if BeginsAfresh(calls) then None else LastShownGap(Earlier(calls), k);
      var shown := ById(OnTrack(calls))[k].gapToLeaderMs;
      if IsLeader(calls, k) then before
      else if shown.Some? then shown
      else if IsHidden(calls, k) then None
      else before
  }

  function Lookup(m: map<nat, nat>, k: nat): Option<nat> {
    if k in m then Some(m[k]) else None
  }

  lemma {:induction false} GapsWithAt(m: map<nat, nat>, leader: Sample, s: seq<Sample>, rows: seq<Row>, i: nat)
    requires |rows| == |s| && DistinctCars(s) && i < |s|
    ensures Lookup(GapsWith(m, leader, s, rows), s[i].row.carId) ==
            Lookup(GapKept(m, leader, s[i], rows[i].gapToLeaderMs), s[i].row.carId)
  {
    var front := s[..|s| - 1];
    if i < |front| {
      GapsWithAt(m, leader, front, rows[..|s| - 1], i);
    } else {
      GapsOfOthersStay(m, leader, front, rows[..|s| - 1], s[i].row.carId);
    }
  }

  lemma {:induction false} HiddenInPlace(calls: Calls, i: nat)
    requires calls != [] && DistinctCars(Latest(calls).samples) && i < |RaceOrder(calls)|
    ensures IsHidden(calls, RaceOrder(calls)[i].row.carId) <==> RaceOrder(calls)[i].hideGap
  {
    SortedSamples(EnteredCache(calls), Latest(calls));
    if s :| s in RaceOrder(calls) && s.row.carId == RaceOrder(calls)[i].row.carId && s.hideGap {
      var j :| 0 <= j < |RaceOrder(calls)| && RaceOrder(calls)[j] == s;
    }
  }

  ghost function GapBefore(calls: Calls, k: nat): Option<nat>
    requires calls != []
  {
    if BeginsAfresh(calls) then None else LastShownGap(Earlier(calls), k)
  }

  lemma {:induction false} EnteredGap(calls: Calls, k: nat)
    requires calls != [] && DistinctCalls(calls)
    requires Lookup(CacheOf(Earlier(calls)).lastGap, k) == LastShownGap(Earlier(calls), k)
    ensures Lookup(EnteredCache(calls).lastGap, k) == GapBefore(calls, k)
  {
    if Earlier(calls) != [] {
      CacheRemembers(Earlier(calls));
    }
    EnteringForgets(calls);
  }

  lemma {:induction false} PlaceOf(calls: Calls, k: nat) returns (i: nat)
    requires calls != [] && DistinctCars(Latest(calls).samples) && k in Now(calls)
    ensures i < |RaceOrder(calls)| && RaceOrder(calls)[i].row.carId == k
    ensures k in ById(OnTrack(calls)) && i < |OnTrack(calls)| && ById(OnTrack(calls))[k] == OnTrack(calls)[i]
  {
    TrackIsInRaceOrder(calls);
    SortedSamples(EnteredCache(calls), Latest(calls));
    i :| 0 <= i < |RaceOrder(calls)| && RaceOrder(calls)[i].row.carId == k;
    ByIdIsTheRow(OnTrack(calls), i);
  }

  /** How a gap that was known becomes the one that is known after a row has been shown. */
  function GapNext(before: Option<nat>, leads: bool, shown: Option<nat>, hidden: bool): Option<nat> {
    if leads then before else if shown.Some? then shown else if hidden then None else before
  }

  lemma {:induction false} GapKeptIsNext(m: map<nat, nat>, leader: Sample, s: Sample, gap: Option<nat>)
    ensures var k := s.row.carId;
            Lookup(GapKept(m, leader, s, gap), k) == GapNext(Lookup(m, k), k == leader.row.carId, gap, s.hideGap)
  {
  }

  lemma {:induction false} LastShownInPlace(calls: Calls, i: nat)
    requires calls != [] && DistinctCars(Latest(calls).samples)
    requires i < |RaceOrder(calls)| == |OnTrack(calls)|
    requires var k := RaceOrder(calls)[i].row.carId;
             k in ById(OnTrack(calls)) && ById(OnTrack(calls))[k] == OnTrack(calls)[i]
    ensures var s := RaceOrder(calls)[i];
            LastShownGap(calls, s.row.carId) ==
            GapNext(GapBefore(calls, s.row.carId), s.row.carId == RaceOrder(calls)[0].row.carId,
                    OnTrack(calls)[i].gapToLeaderMs, s.hideGap)
  {
    HiddenInPlace(calls, i);
  }

  lemma {:induction false} OnlyPresentGapsAreKept(calls: Calls, k: nat)
    requires calls != [] && DistinctCars(Latest(calls).samples) && k !in Now(calls)
    ensures Lookup(CacheOf(calls).lastGap, k) == None && LastShownGap(calls, k) == None
  {
    TrackIsInRaceOrder(calls);
  }

  /** What the cache keeps as a car's gap is the last one that was shown. */
  lemma {:induction false} GapsAreRemembered(calls: Calls, k: nat)
    requires DistinctCalls(calls)
    ensures Lookup(CacheOf(calls).lastGap, k) == LastShownGap(calls, k)
    decreases |calls|
  {
    if calls != [] {
      if k in Now(calls) {
        GapsAreRemembered(Earlier(calls), k);
        EnteredGap(calls, k);
        var i := PlaceOf(calls, k);
        OneRowAPlace(calls);
        LastShownInPlace(calls, i);
        KeptGap(calls, i);
      } else {
        OnlyPresentGapsAreKept(calls, k);
      }
    }
  }

  lemma {:induction false} OneRowAPlace(calls: Calls)
    requires calls != [] && DistinctCars(Latest(calls).samples)
    ensures |RaceOrder(calls)| == |OnTrack(calls)|
  {
    TrackIsInRaceOrder(calls);
  }

  lemma {:induction false} KeptGap(calls: Calls, i: nat)
    requires calls != [] && DistinctCalls(calls) && i < |RaceOrder(calls)| == |OnTrack(calls)|
    ensures var s := RaceOrder(calls)[i];
            Lookup(CacheOf(calls).lastGap, s.row.carId) ==
            GapNext(Lookup(EnteredCache(calls).lastGap, s.row.carId),
                    s.row.carId == RaceOrder(calls)[0].row.carId, OnTrack(calls)[i].gapToLeaderMs, s.hideGap)
  {
    var c, s := EnteredCache(calls), RaceOrder(calls)[i];
    SortedSamples(c, Latest(calls));
    assert s in RaceOrder(calls) && s.row.carId in CarIds(RaceOrder(calls));
    GapsWithAt(c.lastGap, RaceOrder(calls)[0], RaceOrder(calls), OnTrack(calls), i);
    GapKeptIsNext(c.lastGap, RaceOrder(calls)[0], s, OnTrack(calls)[i].gapToLeaderMs);
  }

  // ----- The numbers that are shown -----

  /** A length of time in whole milliseconds, as far as a `u32` goes. */
  predicate IsGapOf(gap: nat, x: real) {
    if x < 0.0 then gap == 0
    else if x > 4_294_967_295.0 then gap == 4_294_967_295
    else gap as real <= x < gap as real + 1.0
  }

  lemma {:induction false} GapMsIsTheGap(elapsed: nat, time: real)
    ensures IsGapOf(GapMs(elapsed, time), elapsed as real - time)
  {
  }

  /** The recorded way of the leader, once the call has been taken in. */
  ghost function LeaderWay(calls: Calls): Trajectory
    requires calls != [] && RaceOrder(calls) != []
  {
    var leader := RaceOrder(calls)[0].row.carId;
    if leader in CacheOf(calls).trajectories then CacheOf(calls).trajectories[leader] else []
  }

  predicate IsPassed(way: Trajectory, s: Sample) {
    way != [] && way[0].progress <= s.progress <= way[|way| - 1].progress
  }

  /** How the gap of a car that is not the leader comes about; `before` is the one known before. */
  ghost predicate ShowsGap(
    elapsed: nat, leader: Sample, s: Sample, way: Trajectory, before: Option<nat>, gap: Option<nat>) {
    if s.hideGap || leader.completedLaps > s.completedLaps + 1 then gap == None
    else if |way| < 2 || leader.progress <= 1.0 then gap == Some(0)
    else if IsPassed(way, s) then
      && gap.Some? && TimeAt(way, s.progress).Some?
      && IsGapOf(gap.value, elapsed as real - TimeAt(way, s.progress).value)
    else gap == before
  }

  predicate IsLapsBehind(behind: nat, leader: Sample, s: Sample) {
    if leader.completedLaps <= s.completedLaps then behind == 0 else behind + s.completedLaps == leader.completedLaps
  }

  lemma {:induction false} RowShows(elapsed: nat, leader: Sample, way: Trajectory, lastGap: map<nat, nat>, s: Sample)
    requires Advancing(way) && s.row.carId != leader.row.carId
    ensures var row := ActiveRow(elapsed, leader, way, lastGap, s);
            && ShowsGap(elapsed, leader, s, way, Lookup(lastGap, s.row.carId), row.gapToLeaderMs)
            && IsLapsBehind(row.lapsBehind, leader, s)
  {
    TimeIsKnownExactlyInBetween(way, s.progress);
    if TimeAt(way, s.progress).Some? {
      GapMsIsTheGap(elapsed, TimeAt(way, s.progress).value);
    }
  }

  lemma {:induction false} LeaderWayIs(calls: Calls)
    requires calls != [] && DistinctCalls(calls) && RaceOrder(calls) != []
    ensures LeaderWay(calls) == LeaderTrajectory(calls) && Advancing(LeaderWay(calls))
  {
    LeaderTrajectoryAdvances(calls);
  }

  /**
   In every table of every run, a car that is not the leader is shown with the laps that it lacks, and
   with no gap if it is hidden or more than one lap behind, with zero while the leader has not moved, with
   the time since the leader passed its place, or else with the last gap shown for it.
   */
  lemma {:induction false} TableShowsTheGaps(calls: Calls, i: nat)
    requires calls != [] && DistinctCalls(calls) && 0 < i < |RaceOrder(calls)|
    ensures i < |TableOf(calls)|
    ensures var leader, s, row := RaceOrder(calls)[0], RaceOrder(calls)[i], TableOf(calls)[i];
            && ShowsGap(Latest(calls).elapsed, leader, s, LeaderWay(calls), GapBefore(calls, s.row.carId),
                        row.gapToLeaderMs)
            && IsLapsBehind(row.lapsBehind, leader, s)
  {
    RowInPlace(calls, i);
    OthersAreNotTheLeader(calls, i);
    var s := RaceOrder(calls)[i];
    GapsAreRemembered(Earlier(calls), s.row.carId);
    EnteredGap(calls, s.row.carId);
    LeaderWayIs(calls);
    RowShows(Latest(calls).elapsed, RaceOrder(calls)[0], LeaderWay(calls), EnteredCache(calls).lastGap, s);
  }

  lemma {:induction false} PointIsPassed(way: Trajectory, j: nat, s: Sample)
    requires Advancing(way) && j < |way| && s.progress == way[j].progress
    ensures IsPassed(way, s) && TimeAt(way, s.progress) == Some(way[j].elapsed as real)
  {
    TimeIsExactAtPoints(way, j);
    TimeIsKnownExactlyInBetween(way, s.progress);
  }

  /** The difference of two clocks, as a gap. */
  function ClockGap(now: nat, passed: nat): nat {
    if now < passed then 0 else if now - passed > U32_MAX then U32_MAX else now - passed
  }

  lemma {:induction false} WholeGap(gap: nat, now: nat, passed: nat)
    requires IsGapOf(gap, now as real - passed as real)
    ensures gap == ClockGap(now, passed)
  {
    assert now as real - passed as real == (now - passed) as real;
    if passed <= now && now - passed <= U32_MAX {
      assert gap <= now - passed < gap + 1 by {
        assert gap as real <= (now - passed) as real < (gap + 1) as real;
      }
    }
  }

  lemma {:induction false} ShownAtAPoint(
    elapsed: nat, leader: Sample, s: Sample, way: Trajectory, before: Option<nat>, gap: Option<nat>, j: nat)
    requires ShowsGap(elapsed, leader, s, way, before, gap) && Advancing(way)
    requires j < |way| && s.progress == way[j].progress
    requires !s.hideGap && 2 <= |way| && leader.progress > 1.0 && leader.completedLaps <= s.completedLaps + 1
    ensures gap == Some(ClockGap(elapsed, way[j].elapsed))
  {
    PointIsPassed(way, j, s);
    WholeGap(gap.value, elapsed, way[j].elapsed);
  }

  /** A car at a recorded point of the leader's way shows the difference of the two clocks. */
  lemma {:induction false} GapAtAPointIsTheDifference(calls: Calls, i: nat, j: nat)
    requires calls != [] && DistinctCalls(calls) && 0 < i < |RaceOrder(calls)|
    requires j < |LeaderWay(calls)| && RaceOrder(calls)[i].progress == LeaderWay(calls)[j].progress
    requires !RaceOrder(calls)[i].hideGap && 2 <= |LeaderWay(calls)| && RaceOrder(calls)[0].progress > 1.0
    requires RaceOrder(calls)[0].completedLaps <= RaceOrder(calls)[i].completedLaps + 1
    ensures i < |TableOf(calls)|
    ensures TableOf(calls)[i].gapToLeaderMs == Some(ClockGap(Latest(calls).elapsed, LeaderWay(calls)[j].elapsed))
  {
    LeaderWayIs(calls);
    TableShowsTheGaps(calls, i);
    ShownAtAPoint(Latest(calls).elapsed, RaceOrder(calls)[0], RaceOrder(calls)[i], LeaderWay(calls),
                  GapBefore(calls, RaceOrder(calls)[i].row.carId), TableOf(calls)[i].gapToLeaderMs, j);
  }
}
