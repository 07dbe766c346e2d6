/**
 The official race table (services/race_table.rs): from the cars' samples and a cache of what it has
 seen in this session, the rows of the cars on track in race order, then those of the cars that
 have dropped out.
 */
module RaceTable {
  import opened Prelude
  import opened RaceTrajectory

  const RESET_ELAPSED_SLACK_MS := 100
  const GAP_DISABLED_LAPS_BEHIND := 1
  const MOVED_EPSILON_M := 1.0

  datatype Status = Active | Dnf

  datatype Row = Row(
    carId: nat,
    team: string,
    position: nat,
    gapToLeaderMs: Option<nat>,
    lapsBehind: nat,
    inPit: bool,
    status: Status)

  datatype Sample = Sample(row: Row, completedLaps: nat, progress: real, hideGap: bool)

  datatype Cache = Cache(
    marker: Option<string>,
    lastElapsed: Option<nat>,
    lastActive: map<nat, Row>,
    archived: map<nat, Row>,
    trajectories: map<nat, Trajectory>,
    lastGap: map<nat, nat>,
    startProgress: map<nat, real>)

  const EMPTY_CACHE := Cache(None, None, map[], map[], map[], map[], map[])

  datatype Call = Call(marker: string, elapsed: nat, samples: seq<Sample>)

  function CarIds(samples: seq<Sample>): set<nat> {
    set s | s in samples :: s.row.carId
  }

  /** The frame holds its cars in a map by car id. */
  predicate DistinctCars(samples: seq<Sample>) {
    forall i, j | 0 <= i < j < |samples| :: samples[i].row.carId != samples[j].row.carId
  }

  function Kept<T>(m: map<nat, T>, ids: set<nat>): map<nat, T> {
    map k | k in m && k in ids :: m[k]
  }

  // ----- Starting afresh -----

  /** A new session, or a clock that has jumped back, makes the table forget what it has seen. */
  predicate StartsAfresh(c: Cache, marker: string, elapsed: nat) {
    c.marker != Some(marker) || (c.lastElapsed.Some? && elapsed + RESET_ELAPSED_SLACK_MS < c.lastElapsed.value)
  }

  function Entered(c: Cache, marker: string, elapsed: nat): Cache {
    (if StartsAfresh(c, marker, elapsed) then EMPTY_CACHE else c).(marker := Some(marker), lastElapsed := Some(elapsed))
  }

  // ----- Progress since a car was first seen -----

  function Baseline(start: map<nat, real>, s: Sample): real {
    if s.row.carId in start then start[s.row.carId] else s.progress
  }

  function FromStart(start: map<nat, real>, s: Sample): Sample {
    var moved := s.progress - Baseline(start, s);
    s.(progress := if moved < 0.0 then 0.0 else moved)
  }

  function AllFromStart(start: map<nat, real>, samples: seq<Sample>): (r: seq<Sample>)
    ensures |r| == |samples|
  {
    if samples == [] then []
    else AllFromStart(start, samples[..|samples| - 1]) + [FromStart(start, samples[|samples| - 1])]
  }

  lemma {:induction false} AllFromStartAt(start: map<nat, real>, samples: seq<Sample>)
    ensures forall i | 0 <= i < |samples| :: AllFromStart(start, samples)[i] == FromStart(start, samples[i])
  {
    if samples != [] {
      AllFromStartAt(start, samples[..|samples| - 1]);
    }
  }

  /** A car keeps the baseline it has, or starts from where it is. */
  function StartsWith(start: map<nat, real>, samples: seq<Sample>): map<nat, real> {
    if samples == [] then start
    else
      var last := samples[|samples| - 1];
      StartsWith(start, samples[..|samples| - 1])[last.row.carId := Baseline(start, last)]
  }

  lemma {:induction false} StartsOfOthersStay(start: map<nat, real>, samples: seq<Sample>, k: nat)
    requires forall i | 0 <= i < |samples| :: samples[i].row.carId != k
    ensures k in StartsWith(start, samples) <==> k in start
    ensures k in start ==> StartsWith(start, samples)[k] == start[k]
  {
    if samples != [] {
      StartsOfOthersStay(start, samples[..|samples| - 1], k);
    }
  }

  /** What taking in one more sample comes to. */
  lemma {:induction false} NormalizationGrows(start: map<nat, real>, samples: seq<Sample>, i: nat)
    requires DistinctCars(samples) && i < |samples|
    ensures AllFromStart(start, samples[..i + 1]) == AllFromStart(start, samples[..i]) + [FromStart(start, samples[i])]
    ensures StartsWith(start, samples[..i + 1]) ==
            StartsWith(start, samples[..i])[samples[i].row.carId := Baseline(start, samples[i])]
    ensures var m, k := StartsWith(start, samples[..i]), samples[i].row.carId;
            Baseline(start, samples[i]) == if k in m then m[k] else samples[i].progress
  {
    assert samples[..i + 1][..i] == samples[..i];
    StartsOfOthersStay(start, samples[..i], samples[i].row.carId);
  }

  // ----- Race order -----

  predicate Ahead(a: Sample, b: Sample) {
    a.progress > b.progress || (a.progress == b.progress && a.row.carId <= b.row.carId)
  }

  function InsertByProgress(s: Sample, sorted: seq<Sample>): seq<Sample> {
    if sorted == [] || Ahead(s, sorted[0]) then [s] + sorted
    else [sorted[0]] + InsertByProgress(s, sorted[1..])
  }

  function SortByProgress(samples: seq<Sample>): seq<Sample> {
    if samples == [] then [] else InsertByProgress(samples[0], SortByProgress(samples[1..]))
  }

  /** Farther cars come first, and of cars that are equally far the one with the smaller id. */
  predicate InRaceOrder(s: seq<Sample>) {
    forall i, j | 0 <= i < j < |s| ::
      s[i].progress >= s[j].progress && (s[i].progress == s[j].progress ==> s[i].row.carId <= s[j].row.carId)
  }

  lemma {:induction false} InsertKeepsSamples(s: Sample, sorted: seq<Sample>)
    ensures |InsertByProgress(s, sorted)| == |sorted| + 1
    ensures forall x :: x in InsertByProgress(s, sorted) <==> x == s || x in sorted
  {
    if sorted != [] {
      assert sorted == [sorted[0]] + sorted[1..];
      if !Ahead(s, sorted[0]) {
        InsertKeepsSamples(s, sorted[1..]);
      }
    }
  }

  lemma {:induction false} InsertKeepsRaceOrder(s: Sample, sorted: seq<Sample>)
    requires InRaceOrder(sorted)
    ensures InRaceOrder(InsertByProgress(s, sorted))
  {
    if sorted != [] {
      assert sorted == [sorted[0]] + sorted[1..];
      if !Ahead(s, sorted[0]) {
        InsertKeepsRaceOrder(s, sorted[1..]);
        InsertKeepsSamples(s, sorted[1..]);
        var rest := InsertByProgress(s, sorted[1..]);
        forall j | 0 <= j < |rest| ensures Ahead(sorted[0], rest[j]) {
          assert rest[j] in rest;
        }
      }
    }
  }

  lemma {:induction false} InsertKeepsDistinct(s: Sample, sorted: seq<Sample>)
    requires DistinctCars(sorted) && s.row.carId !in CarIds(sorted)
    ensures DistinctCars(InsertByProgress(s, sorted))
  {
    if sorted != [] {
      assert sorted == [sorted[0]] + sorted[1..];
      if !Ahead(s, sorted[0]) {
        InsertKeepsDistinct(s, sorted[1..]);
        InsertKeepsSamples(s, sorted[1..]);
        var rest := InsertByProgress(s, sorted[1..]);
        assert sorted[0].row.carId in CarIds(sorted);
        forall j | 0 <= j < |rest| ensures rest[j].row.carId != sorted[0].row.carId {
          assert rest[j] in rest;
        }
      }
    }
  }

  lemma {:induction false} SortIsInRaceOrder(samples: seq<Sample>)
    requires DistinctCars(samples)
    ensures var sorted := SortByProgress(samples);
            && InRaceOrder(sorted) && |sorted| == |samples| && DistinctCars(sorted)
            && (forall x :: x in sorted <==> x in samples)
            && CarIds(sorted) == CarIds(samples)
  {
    if samples != [] {
      assert samples == [samples[0]] + samples[1..];
      SortIsInRaceOrder(samples[1..]);
      var rest := SortByProgress(samples[1..]);
      InsertKeepsRaceOrder(samples[0], rest);
      InsertKeepsSamples(samples[0], rest);
      InsertKeepsDistinct(samples[0], rest);
    }
  }

  // ----- Trajectories -----

  function TrajectoryOf(m: map<nat, Trajectory>, carId: nat): Trajectory {
    if carId in m then m[carId] else []
  }

  function RecordAll(m: map<nat, Trajectory>, elapsed: nat, samples: seq<Sample>): map<nat, Trajectory> {
    if samples == [] then m
    else
      var last := samples[|samples| - 1];
      RecordAll(m, elapsed, samples[..|samples| - 1])
        [last.row.carId := Recorded(TrajectoryOf(m, last.row.carId), Point(last.progress, elapsed))]
  }

  lemma {:induction false} TrajectoriesOfOthersStay(m: map<nat, Trajectory>, elapsed: nat, samples: seq<Sample>, k: nat)
    requires forall i | 0 <= i < |samples| :: samples[i].row.carId != k
    ensures TrajectoryOf(RecordAll(m, elapsed, samples), k) == TrajectoryOf(m, k)
  {
    if samples != [] {
      TrajectoriesOfOthersStay(m, elapsed, samples[..|samples| - 1], k);
    }
  }

  lemma {:induction false} RecordingGrows(m: map<nat, Trajectory>, elapsed: nat, samples: seq<Sample>, i: nat)
    requires DistinctCars(samples) && i < |samples|
    ensures var recorded, s := RecordAll(m, elapsed, samples[..i]), samples[i];
            RecordAll(m, elapsed, samples[..i + 1]) ==
            recorded[s.row.carId := Recorded(TrajectoryOf(recorded, s.row.carId), Point(s.progress, elapsed))]
  {
    assert samples[..i + 1][..i] == samples[..i];
    TrajectoriesOfOthersStay(m, elapsed, samples[..i], samples[i].row.carId);
  }

  // ----- Gaps -----

  function LapsBehind(leader: Sample, s: Sample): nat {
    if leader.completedLaps < s.completedLaps then 0 else leader.completedLaps - s.completedLaps
  }

  predicate HasMoved(leader: Sample, trajectory: Trajectory) {
    |trajectory| >= 2 && leader.progress > MOVED_EPSILON_M
  }

  /** The time since the leader passed, clamped to what a `u32` holds and truncated. */
  function GapMs(elapsed: nat, leaderTime: real): (gap: nat)
    ensures gap <= U32_MAX
  {
    var gap := elapsed as real - leaderTime;
    if gap < 0.0 then 0 else if gap > U32_MAX as real then U32_MAX else gap.Floor
  }

  function GapOf(elapsed: nat, leader: Sample, trajectory: Trajectory, lastGap: map<nat, nat>, s: Sample)
    : Option<nat>
  {
    if s.hideGap then None
    else if LapsBehind(leader, s) > GAP_DISABLED_LAPS_BEHIND then None
    else if !HasMoved(leader, trajectory) then Some(0)
    else
      var time := TimeAt(trajectory, s.progress);
      if time.Some? then Some(GapMs(elapsed, time.value))
      else if s.row.carId in lastGap then Some(lastGap[s.row.carId])
      else None
  }

  function ActiveRow(elapsed: nat, leader: Sample, trajectory: Trajectory, lastGap: map<nat, nat>, s: Sample): Row {
    if s.row.carId == leader.row.carId then s.row.(lapsBehind := 0, gapToLeaderMs := Some(0))
    else
      s.row.(lapsBehind := LapsBehind(leader, s),
             gapToLeaderMs := GapOf(elapsed, leader, trajectory, lastGap, s))
  }

  /** The rows of samples in race order, before they are numbered. */
  function ActiveRows(elapsed: nat, leader: Sample, trajectory: Trajectory, lastGap: map<nat, nat>, s: seq<Sample>)
    : (rows: seq<Row>)
    ensures |rows| == |s|
  {
    if s == [] then []
    else
      ActiveRows(elapsed, leader, trajectory, lastGap, s[..|s| - 1]) +
      [ActiveRow(elapsed, leader, trajectory, lastGap, s[|s| - 1])]
  }

  lemma {:induction false} ActiveRowsAt(
    elapsed: nat, leader: Sample, trajectory: Trajectory, lastGap: map<nat, nat>, s: seq<Sample>)
    ensures forall i | 0 <= i < |s| ::
              ActiveRows(elapsed, leader, trajectory, lastGap, s)[i] ==
              ActiveRow(elapsed, leader, trajectory, lastGap, s[i])
  {
    if s != [] {
      ActiveRowsAt(elapsed, leader, trajectory, lastGap, s[..|s| - 1]);
    }
  }

  function RemoveKey<T>(m: map<nat, T>, k: nat): map<nat, T> {
    m - {k}
  }

  /** A hidden gap is forgotten, any other that is known is kept for when it cannot be computed. */
  function GapKept(m: map<nat, nat>, leader: Sample, s: Sample, gap: Option<nat>): map<nat, nat> {
    if s.row.carId == leader.row.carId then m
    else if gap.Some? then m[s.row.carId := gap.value]
    else if s.hideGap then RemoveKey(m, s.row.carId)
    else m
  }

  function GapsWith(m: map<nat, nat>, leader: Sample, s: seq<Sample>, rows: seq<Row>): (r: map<nat, nat>)
    requires |rows| == |s|
  {
    if s == [] then m
    else
      var front, last := s[..|s| - 1], s[|s| - 1];
      GapKept(GapsWith(m, leader, front, rows[..|s| - 1]), leader, last, rows[|s| - 1].gapToLeaderMs)
  }

  // ----- Cars that have dropped out -----

  function DroppedOut(row: Row): Row {
    row.(status := Dnf)
  }

  /** The archive once the given cars of the last call have been looked at. */
  function ArchivedOf(kept: map<nat, Row>, lastActive: map<nat, Row>, ids: set<nat>, cars: set<nat>): map<nat, Row>
    requires cars <= lastActive.Keys
  {
    map k | k in kept.Keys + cars && k !in ids :: if k in kept then kept[k] else DroppedOut(lastActive[k])
  }

  lemma {:induction false} ArchivedOfGrows(
    kept: map<nat, Row>, lastActive: map<nat, Row>, ids: set<nat>, cars: set<nat>, carId: nat)
    requires cars <= lastActive.Keys && carId in lastActive && carId !in cars
    ensures var before := ArchivedOf(kept, lastActive, ids, cars);
            ArchivedOf(kept, lastActive, ids, cars + {carId}) ==
            if carId !in ids && carId !in before then before[carId := DroppedOut(lastActive[carId])] else before
  {
  }

  /** Returning cars leave the archive, and cars that were active in the last call enter it. */
  function Archived(archived: map<nat, Row>, lastActive: map<nat, Row>, ids: set<nat>): map<nat, Row> {
    map k | k in archived.Keys + lastActive.Keys && k !in ids ::
      if k in archived then archived[k] else DroppedOut(lastActive[k])
  }

  function ById(rows: seq<Row>): map<nat, Row> {
    if rows == [] then map[] else ById(rows[..|rows| - 1])[rows[|rows| - 1].carId := rows[|rows| - 1]]
  }

  lemma {:induction false} SmallestExists(s: set<nat>) returns (m: nat)
    requires s != {}
    ensures m in s && forall x | x in s :: m <= x
  {
    var k :| k in s;
    m := k;
    var rest := s - {k};
    assert forall x | x in s :: x == k || x in rest;
    if rest != {} {
      var n := SmallestExists(rest);
      m := if n < k then n else k;
    }
  }

  ghost function Smallest(s: set<nat>): (m: nat)
    requires s != {}
    ensures m in s && forall x | x in s :: m <= x
  {
    assert exists m :: m in s && forall x | x in s :: m <= x by {
      var m := SmallestExists(s);
    }
    var m :| m in s && forall x | x in s :: m <= x;
    m
  }

  /** The rows of a map in the order of their ids. */
  ghost function InIdOrder(m: map<nat, Row>, ids: set<nat>): (rows: seq<Row>)
    requires ids <= m.Keys
    ensures |rows| == |ids|
  {
    if ids == {} then []
    else var k := Smallest(ids); [m[k]] + InIdOrder(m, ids - {k})
  }

  // ----- The table -----

  function Number(row: Row, index: nat, activeCount: nat): Row {
    if index < activeCount then row.(position := index + 1, status := Active)
    else row.(position := index + 1, status := Dnf, inPit := false)
  }

  function NumberAll(rows: seq<Row>, activeCount: nat): (r: seq<Row>)
    ensures |r| == |rows|
    ensures forall i | 0 <= i < |rows| :: r[i] == Number(rows[i], i, activeCount)
  {
    if rows == [] then []
    else NumberAll(rows[..|rows| - 1], activeCount) + [Number(rows[|rows| - 1], |rows| - 1, activeCount)]
  }

  /** The samples in race order, by their progress since they were first seen. */
  function Sorted(c: Cache, call: Call): seq<Sample> {
    SortByProgress(AllFromStart(Kept(c.startProgress, CarIds(call.samples)), call.samples))
  }

  function Trajectories(c: Cache, call: Call): map<nat, Trajectory> {
    RecordAll(Kept(c.trajectories, CarIds(call.samples)), call.elapsed, Sorted(c, call))
  }

  function RowsOnTrack(c: Cache, call: Call): (rows: seq<Row>)
    ensures |rows| == |Sorted(c, call)|
  {
    var sorted := Sorted(c, call);
    if sorted == [] then []
    else
      ActiveRows(call.elapsed, sorted[0], TrajectoryOf(Trajectories(c, call), sorted[0].row.carId), c.lastGap, sorted)
  }

  function GapsAfter(c: Cache, call: Call): map<nat, nat> {
    var sorted := Sorted(c, call);
    if sorted == [] then c.lastGap
    else GapsWith(c.lastGap, sorted[0], sorted, RowsOnTrack(c, call))
  }

  /** One call, once the cache has been entered. */
  function CacheAfter(c: Cache, call: Call): Cache {
    var ids := CarIds(call.samples);
    Cache(c.marker, c.lastElapsed,
          ById(RowsOnTrack(c, call)),
          Archived(c.archived, c.lastActive, ids),
          Trajectories(c, call),
          Kept(GapsAfter(c, call), ids),
          StartsWith(Kept(c.startProgress, ids), call.samples))
  }

  ghost function RowsAfter(c: Cache, call: Call): seq<Row> {
    Table(RowsOnTrack(c, call), Archived(c.archived, c.lastActive, CarIds(call.samples)))
  }

  ghost function Compute(c: Cache, call: Call): (Cache, seq<Row>) {
    var entered := Entered(c, call.marker, call.elapsed);
    (CacheAfter(entered, call), RowsAfter(entered, call))
  }

  // ----- The cache as the service changes it -----

  class OfficialRaceCache {
    var sessionMarker: Option<string>
    var lastRaceElapsedMs: Option<nat>
    var lastActiveRows: map<nat, Row>
    var archivedDnfRows: map<nat, Row>
    var carTrajectories: map<nat, Trajectory>
    var lastComputedGapMs: map<nat, nat>
    var carStartProgressM: map<nat, real>

    ghost function State(): Cache
      reads this
    {
      Cache(sessionMarker, lastRaceElapsedMs, lastActiveRows, archivedDnfRows, carTrajectories,
            lastComputedGapMs, carStartProgressM)
    }

    constructor ()
      ensures State() == EMPTY_CACHE
    {
      sessionMarker, lastRaceElapsedMs := None, None;
      lastActiveRows, archivedDnfRows, carTrajectories, lastComputedGapMs, carStartProgressM :=
        map[], map[], map[], map[], map[];
    }

    method ResetRuntimeProgress()
      modifies this
      ensures State() == EMPTY_CACHE.(marker := old(sessionMarker))
    {
      lastRaceElapsedMs := None;
      lastActiveRows := map[];
      archivedDnfRows := map[];
      carTrajectories := map[];
      lastComputedGapMs := map[];
      carStartProgressM := map[];
    }

    method ResetIfSessionChanged(marker: string)
      modifies this
      ensures State() == if old(sessionMarker) == Some(marker) then old(State())
                         else EMPTY_CACHE.(marker := Some(marker))
    {
      if sessionMarker == Some(marker) {
        return;
      }
      sessionMarker := Some(marker);
      ResetRuntimeProgress();
    }

    method Enter(marker: string, elapsed: nat)
      modifies this
      ensures State() == Entered(old(State()), marker, elapsed)
    {
      ResetIfSessionChanged(marker);
      if lastRaceElapsedMs.Some? && elapsed + RESET_ELAPSED_SLACK_MS < lastRaceElapsedMs.value {
        ResetRuntimeProgress();
      }
      lastRaceElapsedMs := Some(elapsed);
    }

    method NormalizeActiveProgressFromStart(entries: seq<Sample>) returns (normalized: seq<Sample>)
      requires DistinctCars(entries)
      modifies this`carStartProgressM
      ensures normalized == AllFromStart(Kept(old(carStartProgressM), CarIds(entries)), entries)
      ensures carStartProgressM == StartsWith(Kept(old(carStartProgressM), CarIds(entries)), entries)
    {
      carStartProgressM := Kept(carStartProgressM, CarIds(entries));
      ghost var start := carStartProgressM;
      normalized := [];
      assert entries[..0] == [];
      for i := 0 to |entries|
        invariant normalized == AllFromStart(start, entries[..i])
        invariant carStartProgressM == StartsWith(start, entries[..i])
      {
        var sample := entries[i];
        NormalizationGrows(start, entries, i);
        if sample.row.carId !in carStartProgressM {
          carStartProgressM := carStartProgressM[sample.row.carId := sample.progress];
        }
        var baseline := carStartProgressM[sample.row.carId];
        var moved := sample.progress - baseline;
        normalized := normalized + [sample.(progress := if moved < 0.0 then 0.0 else moved)];
      }
      assert entries[..|entries|] == entries;
    }

    method UpdateCarTrajectories(elapsed: nat, entries: seq<Sample>)
      requires DistinctCars(entries)
      modifies this`carTrajectories
      ensures carTrajectories == RecordAll(Kept(old(carTrajectories), CarIds(entries)), elapsed, entries)
    {
      carTrajectories := Kept(carTrajectories, CarIds(entries));
      ghost var before := carTrajectories;
      assert entries[..0] == [];
      for i := 0 to |entries|
        invariant carTrajectories == RecordAll(before, elapsed, entries[..i])
      {
        var sample := entries[i];
        RecordingGrows(before, elapsed, entries, i);
        var trajectory := TrajectoryOf(carTrajectories, sample.row.carId);
        trajectory := Record(trajectory, Point(sample.progress, elapsed));
        carTrajectories := carTrajectories[sample.row.carId := trajectory];
      }
      assert entries[..|entries|] == entries;
    }

    method BuildActiveRow(elapsed: nat, leader: Sample, trajectory: Trajectory, leaderHasMotion: bool, sample: Sample)
      returns (row: Row)
      requires Advancing(trajectory) && leaderHasMotion == HasMoved(leader, trajectory)
      modifies this`lastComputedGapMs
      ensures row == ActiveRow(elapsed, leader, trajectory, old(lastComputedGapMs), sample)
      ensures lastComputedGapMs == GapKept(old(lastComputedGapMs), leader, sample, row.gapToLeaderMs)
    {
      row := sample.row;
      if row.carId == leader.row.carId {
        row := row.(lapsBehind := 0, gapToLeaderMs := Some(0));
        return;
      }
      row := row.(lapsBehind := LapsBehind(leader, sample));
      var gap: Option<nat> := None;
      if sample.hideGap {
        gap := None;
      } else if row.lapsBehind > GAP_DISABLED_LAPS_BEHIND {
        gap := None;
      } else if !leaderHasMotion {
        gap := Some(0);
      } else {
        var time := InterpolateLeaderTimeMs(trajectory, sample.progress);
        if time.Some? {
          gap := Some(GapMs(elapsed, time.value));
        } else if row.carId in lastComputedGapMs {
          gap := Some(lastComputedGapMs[row.carId]);
        }
      }
      if sample.hideGap {
        lastComputedGapMs := RemoveKey(lastComputedGapMs, row.carId);
      }
      if gap.Some? {
        lastComputedGapMs := lastComputedGapMs[row.carId := gap.value];
      }
      row := row.(gapToLeaderMs := gap);
    }

    /** The rows of the cars on track, leader first, with their gaps. */
    method BuildActiveRows(elapsed: nat, entries: seq<Sample>) returns (rows: seq<Row>)
      requires DistinctCars(entries) && entries != []
      requires Advancing(TrajectoryOf(carTrajectories, entries[0].row.carId))
      modifies this`lastComputedGapMs
      ensures rows == ActiveRows(elapsed, entries[0], TrajectoryOf(carTrajectories, entries[0].row.carId),
                                 old(lastComputedGapMs), entries)
      ensures lastComputedGapMs == GapsWith(old(lastComputedGapMs), entries[0], entries, rows)
    {
      var leader := entries[0];
      var trajectory := TrajectoryOf(carTrajectories, leader.row.carId);
      var leaderHasMotion := |trajectory| >= 2 && leader.progress > MOVED_EPSILON_M;
      ghost var lastGap := lastComputedGapMs;
      rows := [];
      assert entries[..0] == [];
      for i := 0 to |entries|
        invariant rows == ActiveRows(elapsed, leader, trajectory, lastGap, entries[..i])
        invariant lastComputedGapMs == GapsWith(lastGap, leader, entries[..i], rows)
      {
        ghost var m := lastComputedGapMs;
        GapsOfOthersStay(lastGap, leader, entries[..i], rows, entries[i].row.carId);
        var row := BuildActiveRow(elapsed, leader, trajectory, leaderHasMotion, entries[i]);
        RowDoesNotSeeOthers(elapsed, leader, trajectory, lastGap, m, entries[i]);
        RowsGrow(elapsed, leader, trajectory, lastGap, entries, i);
        rows := rows + [row];
      }
      assert entries[..|entries|] == entries;
    }

    /** Cars seen in the last call that are gone now enter the archive, those that are back leave it. */
    method ArchiveAbsent(ids: set<nat>)
      modifies this`archivedDnfRows
      ensures archivedDnfRows == Archived(old(archivedDnfRows), lastActiveRows, ids)
    {
      archivedDnfRows := archivedDnfRows - ids;
      ghost var kept := archivedDnfRows;
      var todo := lastActiveRows.Keys;
      while todo != {}
        invariant todo <= lastActiveRows.Keys
        invariant archivedDnfRows == ArchivedOf(kept, lastActiveRows, ids, lastActiveRows.Keys - todo)
        decreases todo
      {
        var carId :| carId in todo;
        ArchivedOfGrows(kept, lastActiveRows, ids, lastActiveRows.Keys - todo, carId);
        assert lastActiveRows.Keys - todo + {carId} == lastActiveRows.Keys - (todo - {carId});
        todo := todo - {carId};
        if carId !in ids && carId !in archivedDnfRows {
          archivedDnfRows := archivedDnfRows[carId := DroppedOut(lastActiveRows[carId])];
        }
      }
    }

    method BuildTrack(call: Call, ghost c: Cache) returns (activeRows: seq<Row>)
      requires c == State() && DistinctCars(call.samples) && AllAdvancing(carTrajectories)
      modifies this`carStartProgressM, this`carTrajectories, this`lastComputedGapMs
      ensures activeRows == RowsOnTrack(c, call)
      ensures carStartProgressM == StartsWith(Kept(c.startProgress, CarIds(call.samples)), call.samples)
      ensures carTrajectories == Trajectories(c, call) && AllAdvancing(carTrajectories)
      ensures lastComputedGapMs == GapsAfter(c, call)
    {
      var activeEntries := NormalizeActiveProgressFromStart(call.samples);
      activeEntries := SortByProgress(activeEntries);
      SortedSamples(c, call);
      UpdateCarTrajectories(call.elapsed, activeEntries);
      TrajectoriesAdvance(Kept(c.trajectories, CarIds(call.samples)), call.elapsed, activeEntries);
      activeRows := [];
      if activeEntries != [] {
        activeRows := BuildActiveRows(call.elapsed, activeEntries);
      }
    }

    /** Brings what is remembered of single cars into line with who is on track now. */
    method RememberTrack(ids: set<nat>, activeRows: seq<Row>)
      modifies this`lastComputedGapMs, this`carStartProgressM, this`archivedDnfRows, this`lastActiveRows
      ensures lastComputedGapMs == Kept(old(lastComputedGapMs), ids)
      ensures carStartProgressM == Kept(old(carStartProgressM), ids)
      ensures archivedDnfRows == Archived(old(archivedDnfRows), old(lastActiveRows), ids)
      ensures lastActiveRows == ById(activeRows)
    {
      lastComputedGapMs := Kept(lastComputedGapMs, ids);
      carStartProgressM := Kept(carStartProgressM, ids);
      ArchiveAbsent(ids);
      lastActiveRows := ById(activeRows);
    }

    method ComputeInSession(call: Call, ghost c: Cache) returns (rows: seq<Row>)
      requires c == State() && DistinctCars(call.samples) && AllAdvancing(carTrajectories)
      modifies this
      ensures State() == CacheAfter(c, call) && rows == RowsAfter(c, call)
      ensures AllAdvancing(carTrajectories)
    {
      var activeRows := UpdateCache(call, c);
      rows := TableRows(activeRows, archivedDnfRows);
    }

    method UpdateCache(call: Call, ghost c: Cache) returns (activeRows: seq<Row>)
      requires c == State() && DistinctCars(call.samples) && AllAdvancing(carTrajectories)
      modifies this
      ensures State() == CacheAfter(c, call) && activeRows == RowsOnTrack(c, call)
      ensures AllAdvancing(carTrajectories)
    {
      activeRows := BuildTrack(call, c);
      StartsAreOfCurrentCars(c.startProgress, call.samples);
      RememberTrack(CarIds(call.samples), activeRows);
      CacheAfterIs(c, call, State());
    }

    method ComputeOfficialRows(call: Call) returns (rows: seq<Row>)
      requires DistinctCars(call.samples) && AllAdvancing(carTrajectories)
      modifies this
      ensures (State(), rows) == Compute(old(State()), call)
      ensures AllAdvancing(carTrajectories)
    {
      Enter(call.marker, call.elapsed);
      rows := ComputeInSession(call, State());
    }
  }

  lemma {:induction false} CacheAfterIs(c: Cache, call: Call, after: Cache)
    requires after.marker == c.marker && after.lastElapsed == c.lastElapsed
    requires after.lastActive == ById(RowsOnTrack(c, call))
    requires after.archived == Archived(c.archived, c.lastActive, CarIds(call.samples))
    requires after.trajectories == Trajectories(c, call)
    requires after.lastGap == Kept(GapsAfter(c, call), CarIds(call.samples))
    requires after.startProgress == StartsWith(Kept(c.startProgress, CarIds(call.samples)), call.samples)
    ensures after == CacheAfter(c, call)
  {
  }

  /** The active rows in race order, then those of the cars that dropped out by id, all numbered. */
  ghost function Table(activeRows: seq<Row>, archived: map<nat, Row>): seq<Row> {
    NumberAll(activeRows + InIdOrder(archived, archived.Keys), |activeRows|)
  }

  method TableRows(activeRows: seq<Row>, archived: map<nat, Row>) returns (rows: seq<Row>)
    ensures rows == Table(activeRows, archived)
  {
    var dnfRows := SortDnfRows(archived);
    rows := NumberRows(activeRows + dnfRows, |activeRows|);
  }

  predicate AllAdvancing(m: map<nat, Trajectory>) {
    forall k | k in m :: Advancing(m[k])
  }

  lemma {:induction false} TrajectoriesAdvance(m: map<nat, Trajectory>, elapsed: nat, samples: seq<Sample>)
    requires AllAdvancing(m)
    ensures AllAdvancing(RecordAll(m, elapsed, samples))
  {
    if samples != [] {
      var last := samples[|samples| - 1];
      TrajectoriesAdvance(m, elapsed, samples[..|samples| - 1]);
      RecordingKeepsAdvancing(TrajectoryOf(m, last.row.carId), Point(last.progress, elapsed));
    }
  }

  lemma {:induction false} NormalizedSamples(start: map<nat, real>, samples: seq<Sample>)
    requires DistinctCars(samples)
    ensures DistinctCars(AllFromStart(start, samples))
    ensures CarIds(AllFromStart(start, samples)) == CarIds(samples)
  {
    AllFromStartAt(start, samples);
    var r := AllFromStart(start, samples);
    forall k ensures k in CarIds(r) <==> k in CarIds(samples) {
      if k in CarIds(samples) {
        var i :| 0 <= i < |samples| && samples[i].row.carId == k;
        assert r[i] in r && r[i].row.carId == k;
      }
      if k in CarIds(r) {
        var i :| 0 <= i < |r| && r[i].row.carId == k;
        assert samples[i] in samples && samples[i].row.carId == k;
      }
    }
  }

  /** Normalising and sorting lose no car, and put the rest in race order. */
  lemma {:induction false} SortedSamples(c: Cache, call: Call)
    requires DistinctCars(call.samples)
    ensures var sorted := Sorted(c, call);
            InRaceOrder(sorted) && DistinctCars(sorted) && CarIds(sorted) == CarIds(call.samples)
            && |sorted| == |call.samples|
  {
    var start := Kept(c.startProgress, CarIds(call.samples));
    NormalizedSamples(start, call.samples);
    SortIsInRaceOrder(AllFromStart(start, call.samples));
  }

  lemma {:induction false} StartsWithKeys(start: map<nat, real>, samples: seq<Sample>)
    ensures StartsWith(start, samples).Keys == start.Keys + CarIds(samples)
  {
    if samples != [] {
      var front, last := samples[..|samples| - 1], samples[|samples| - 1];
      StartsWithKeys(start, front);
      assert samples == front + [last];
      assert CarIds(samples) == CarIds(front) + {last.row.carId};
    }
  }

  /** The second pruning of the baselines that the code makes is without effect. */
  lemma {:induction false} StartsAreOfCurrentCars(start: map<nat, real>, samples: seq<Sample>)
    ensures var r := StartsWith(Kept(start, CarIds(samples)), samples);
            r.Keys == CarIds(samples) && Kept(r, CarIds(samples)) == r
  {
    StartsWithKeys(Kept(start, CarIds(samples)), samples);
  }

  method FindSmallest(s: set<nat>) returns (m: nat)
    requires s != {}
    ensures m == Smallest(s)
  {
    m :| m in s;
    var todo := s - {m};
    while todo != {}
      invariant todo <= s && m in s
      invariant forall x | x in s && x !in todo :: m <= x
      decreases todo
    {
      var x :| x in todo;
      todo := todo - {x};
      if x < m {
        m := x;
      }
    }
  }

  method SortDnfRows(archived: map<nat, Row>) returns (rows: seq<Row>)
    ensures rows == InIdOrder(archived, archived.Keys)
  {
    rows := [];
    var todo := archived.Keys;
    while todo != {}
      invariant todo <= archived.Keys
      invariant InIdOrder(archived, archived.Keys) == rows + InIdOrder(archived, todo)
      decreases todo
    {
      var carId := FindSmallest(todo);
      rows := rows + [archived[carId]];
      todo := todo - {carId};
    }
  }

  method NumberRows(rows: seq<Row>, activeCount: nat) returns (numbered: seq<Row>)
    ensures numbered == NumberAll(rows, activeCount)
  {
    numbered := [];
    for idx := 0 to |rows|
      invariant numbered == NumberAll(rows[..idx], activeCount)
    {
      assert rows[..idx + 1][..idx] == rows[..idx];
      var row := rows[idx].(position := idx + 1);
      row := row.(status := if idx < activeCount then Active else Dnf);
      if idx >= activeCount {
        row := row.(inPit := false);
      }
      numbered := numbered + [row];
    }
    assert rows[..|rows|] == rows;
  }

  /** Going through other cars leaves a car's last gap alone. */
  lemma {:induction false} GapsOfOthersStay(m: map<nat, nat>, leader: Sample, s: seq<Sample>, rows: seq<Row>, k: nat)
    requires |rows| == |s| && forall i | 0 <= i < |s| :: s[i].row.carId != k
    ensures k in GapsWith(m, leader, s, rows) <==> k in m
    ensures k in m ==> GapsWith(m, leader, s, rows)[k] == m[k]
  {
    if s != [] {
      GapsOfOthersStay(m, leader, s[..|s| - 1], rows[..|s| - 1], k);
    }
  }

  /** A row depends on its own car's last gap only. */
  lemma {:induction false} RowDoesNotSeeOthers(
    elapsed: nat, leader: Sample, trajectory: Trajectory, m: map<nat, nat>, m': map<nat, nat>, s: Sample)
    requires s.row.carId in m <==> s.row.carId in m'
    requires s.row.carId in m ==> m[s.row.carId] == m'[s.row.carId]
    ensures ActiveRow(elapsed, leader, trajectory, m, s) == ActiveRow(elapsed, leader, trajectory, m', s)
  {
  }

  lemma {:induction false} RowsGrow(
    elapsed: nat, leader: Sample, trajectory: Trajectory, lastGap: map<nat, nat>, s: seq<Sample>, i: nat)
    requires i < |s|
    ensures var rows := ActiveRows(elapsed, leader, trajectory, lastGap, s[..i]);
            var row := ActiveRow(elapsed, leader, trajectory, lastGap, s[i]);
            && ActiveRows(elapsed, leader, trajectory, lastGap, s[..i + 1]) == rows + [row]
            && GapsWith(lastGap, leader, s[..i + 1], rows + [row]) ==
               GapKept(GapsWith(lastGap, leader, s[..i], rows), leader, s[i], row.gapToLeaderMs)
  {
    assert s[..i + 1][..i] == s[..i];
    var rows := ActiveRows(elapsed, leader, trajectory, lastGap, s[..i]);
    var row := ActiveRow(elapsed, leader, trajectory, lastGap, s[i]);
    assert (rows + [row])[..i] == rows;
  }
}
