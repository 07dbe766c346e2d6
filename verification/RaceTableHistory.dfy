/**
 What the official race table shows, in terms of the calls made so far: the cache that is carried
 from call to call stands for the history since the table last started afresh.
 */
module RaceTableHistory {
  import opened Prelude
  import opened RaceTrajectory
  import opened RaceTable

  type Calls = seq<Call>

  function Latest(calls: Calls): Call
    requires calls != []
  {
    calls[|calls| - 1]
  }

  function Earlier(calls: Calls): Calls
    requires calls != []
  {
    calls[..|calls| - 1]
  }

  function Now(calls: Calls): set<nat> {
    if calls == [] then {} else CarIds(Latest(calls).samples)
  }

  ghost function CacheOf(calls: Calls): Cache {
    if calls == [] then EMPTY_CACHE else Compute(CacheOf(Earlier(calls)), Latest(calls)).0
  }

  /** The cache with which the latest call is computed. */
  ghost function EnteredCache(calls: Calls): Cache
    requires calls != []
  {
    Entered(CacheOf(Earlier(calls)), Latest(calls).marker, Latest(calls).elapsed)
  }

  ghost function TableOf(calls: Calls): seq<Row>
    requires calls != []
  {
    Compute(CacheOf(Earlier(calls)), Latest(calls)).1
  }

  ghost function RaceOrder(calls: Calls): seq<Sample>
    requires calls != []
  {
    Sorted(EnteredCache(calls), Latest(calls))
  }

  /** The rows of the latest call's cars, before they are numbered. */
  ghost function OnTrack(calls: Calls): seq<Row>
    requires calls != []
  {
    RowsOnTrack(EnteredCache(calls), Latest(calls))
  }

  // ----- The history that a table is about -----

  /** The latest call is of another session than the one before, or its clock has jumped back. */
  predicate BeginsAfresh(calls: Calls)
    requires calls != []
  {
    var earlier := Earlier(calls);
    || earlier == []
    || Latest(earlier).marker != Latest(calls).marker
    || Latest(calls).elapsed + RESET_ELAPSED_SLACK_MS < Latest(earlier).elapsed
  }

  /** Every car that has been on track since then. */
  function Seen(calls: Calls): set<nat> {
    if calls == [] then {}
    else Now(calls) + if BeginsAfresh(calls) then {} else Seen(Earlier(calls))
  }

  /** The row that a car had when it was last on track. */
  ghost function LastRow(calls: Calls, carId: nat): Row
    requires calls != []
    decreases |calls|
  {
    var rows := ById(OnTrack(calls));
    if carId in rows then rows[carId]
    else if Earlier(calls) == [] then Row(carId, "", 0, None, 0, false, Dnf)
    else LastRow(Earlier(calls), carId)
  }

  /** Where a car was when it came on track for the last time. */
  function FirstProgress(calls: Calls, s: Sample): real
    requires calls != []
    decreases |calls|
  {
    var earlier := Earlier(calls);
    if BeginsAfresh(calls) || s.row.carId !in Now(earlier) then s.progress
    else
      var i := IndexOfCar(Latest(earlier).samples, s.row.carId);
      FirstProgress(earlier, Latest(earlier).samples[i])
  }

  function IndexOfCar(samples: seq<Sample>, carId: nat): (i: nat)
    requires carId in CarIds(samples)
    ensures i < |samples| && samples[i].row.carId == carId
  {
    if samples[0].row.carId == carId then 0
    else
      assert samples == [samples[0]] + samples[1..];
      1 + IndexOfCar(samples[1..], carId)
  }

  ghost predicate DistinctCalls(calls: Calls) {
    forall i | 0 <= i < |calls| :: DistinctCars(calls[i].samples)
  }

  // ----- Rows by car -----

  predicate DistinctRows(rows: seq<Row>) {
    forall i, j | 0 <= i < j < |rows| :: rows[i].carId != rows[j].carId
  }

  function RowIds(rows: seq<Row>): set<nat> {
    set r | r in rows :: r.carId
  }

  lemma {:induction false} IdsWithLast(rows: seq<Row>)
    requires rows != []
    ensures RowIds(rows) == RowIds(rows[..|rows| - 1]) + {rows[|rows| - 1].carId}
  {
    var front, last := rows[..|rows| - 1], rows[|rows| - 1];
    assert rows == front + [last];
    assert forall r :: r in rows <==> r in front || r == last;
  }

  lemma {:induction false} LastIdIsNew(rows: seq<Row>)
    requires DistinctRows(rows) && rows != []
    ensures rows[|rows| - 1].carId !in RowIds(rows[..|rows| - 1])
  {
    forall r | r in rows[..|rows| - 1] ensures r.carId != rows[|rows| - 1].carId {
      var i :| 0 <= i < |rows| - 1 && rows[i] == r;
      assert rows[i].carId != rows[|rows| - 1].carId;
    }
  }

  lemma {:induction false} ByIdKeys(rows: seq<Row>)
    ensures ById(rows).Keys == RowIds(rows)
  {
    if rows != [] {
      ByIdKeys(rows[..|rows| - 1]);
      IdsWithLast(rows);
    }
  }

  lemma {:induction false} ByIdIsTheRow(rows: seq<Row>, i: nat)
    requires DistinctRows(rows) && i < |rows|
    ensures rows[i].carId in ById(rows) && ById(rows)[rows[i].carId] == rows[i]
  {
    if i < |rows| - 1 {
      ByIdIsTheRow(rows[..|rows| - 1], i);
    }
  }

  lemma {:induction false} ByIdHasTheId(rows: seq<Row>)
    ensures forall k | k in ById(rows) :: ById(rows)[k].carId == k
  {
    if rows != [] {
      ByIdHasTheId(rows[..|rows| - 1]);
    }
  }

  /** The rows on track are those of the samples, car by car and in race order. */
  lemma {:induction false} TrackIsInRaceOrder(calls: Calls)
    requires calls != [] && DistinctCars(Latest(calls).samples)
    ensures InRaceOrder(RaceOrder(calls)) && |OnTrack(calls)| == |RaceOrder(calls)| == |Latest(calls).samples|
    ensures forall i | 0 <= i < |OnTrack(calls)| :: OnTrack(calls)[i].carId == RaceOrder(calls)[i].row.carId
    ensures DistinctRows(OnTrack(calls)) && RowIds(OnTrack(calls)) == ById(OnTrack(calls)).Keys == Now(calls)
  {
    var c, call := EnteredCache(calls), Latest(calls);
    var sorted, rows := Sorted(c, call), OnTrack(calls);
    SortedSamples(c, call);
    if sorted != [] {
      ActiveRowsAt(call.elapsed, sorted[0], TrajectoryOf(Trajectories(c, call), sorted[0].row.carId),
                   c.lastGap, sorted);
    }
    SameIds(sorted, rows);
    ByIdKeys(rows);
  }

  lemma {:induction false} SameIds(sorted: seq<Sample>, rows: seq<Row>)
    requires |rows| == |sorted| && forall i | 0 <= i < |rows| :: rows[i].carId == sorted[i].row.carId
    ensures RowIds(rows) == CarIds(sorted)
  {
    forall k: nat ensures k in RowIds(rows) <==> k in CarIds(sorted) {
      if k in CarIds(sorted) {
        var i :| 0 <= i < |sorted| && sorted[i].row.carId == k;
        assert rows[i] in rows;
      }
      if k in RowIds(rows) {
        var i :| 0 <= i < |rows| && rows[i].carId == k;
        assert sorted[i] in sorted;
      }
    }
  }

  // ----- The cache remembers the history -----

  ghost predicate RemembersTrack(c: Cache, calls: Calls)
    requires calls != []
  {
    && c.lastActive == ById(OnTrack(calls)) && c.lastActive.Keys == Now(calls)
    && (forall k | k in c.lastActive :: c.lastActive[k].carId == k)
  }

  /** The archive holds who has been seen and is not there, with the row it left with. */
  ghost predicate RemembersDropouts(archived: map<nat, Row>, calls: Calls)
    requires calls != []
  {
    && archived.Keys == Seen(calls) - Now(calls)
    && forall k | k in archived :: archived[k] == LastRow(calls, k).(status := Dnf) && archived[k].carId == k
  }

  ghost predicate Remembers(c: Cache, calls: Calls)
    requires calls != []
  {
    && c.marker == Some(Latest(calls).marker) && c.lastElapsed == Some(Latest(calls).elapsed)
    && RemembersTrack(c, calls) && RemembersDropouts(c.archived, calls)
    && AllAdvancing(c.trajectories)
  }

  lemma {:induction false} EnteringForgets(calls: Calls)
    requires calls != []
    requires Earlier(calls) != [] ==> Remembers(CacheOf(Earlier(calls)), Earlier(calls))
    ensures StartsAfresh(CacheOf(Earlier(calls)), Latest(calls).marker, Latest(calls).elapsed) <==> BeginsAfresh(calls)
  {
  }

  lemma {:induction false} LastRowOfTheAbsent(calls: Calls, k: nat)
    requires calls != [] && Earlier(calls) != [] && ById(OnTrack(calls)).Keys == Now(calls) && k !in Now(calls)
    ensures LastRow(calls, k) == LastRow(Earlier(calls), k)
  {
  }

  lemma {:induction false} LastRowOfThePresent(calls: Calls, k: nat)
    requires calls != [] && k in ById(OnTrack(calls))
    ensures LastRow(calls, k) == ById(OnTrack(calls))[k]
  {
  }

  lemma {:induction false} SeenGoesOn(calls: Calls)
    requires calls != []
    ensures BeginsAfresh(calls) ==> Seen(calls) == Now(calls)
    ensures !BeginsAfresh(calls) ==> Earlier(calls) != [] && Seen(calls) == Now(calls) + Seen(Earlier(calls))
    ensures Now(calls) <= Seen(calls)
  {
  }

  lemma {:induction false} ArchivedKeys(archived: map<nat, Row>, lastActive: map<nat, Row>, ids: set<nat>)
    ensures Archived(archived, lastActive, ids).Keys == archived.Keys + lastActive.Keys - ids
  {
  }

  lemma {:induction false} ArchivedRow(calls: Calls, before: Cache, k: nat)
    requires calls != [] && Earlier(calls) != [] && ById(OnTrack(calls)).Keys == Now(calls)
    requires Remembers(before, Earlier(calls))
    requires k in Archived(before.archived, before.lastActive, Now(calls))
    ensures var row := Archived(before.archived, before.lastActive, Now(calls))[k];
            row == DroppedOut(LastRow(calls, k)) && row.carId == k
  {
    LastRowOfTheAbsent(calls, k);
    if k !in before.archived {
      LastRowOfThePresent(Earlier(calls), k);
    }
  }

  /** Within a session, the archive follows from the one before and who was on track then. */
  lemma {:induction false} ArchiveGoesOn(calls: Calls, before: Cache)
    requires calls != [] && Earlier(calls) != [] && ById(OnTrack(calls)).Keys == Now(calls)
    requires Remembers(before, Earlier(calls)) && Seen(calls) == Now(calls) + Seen(Earlier(calls))
    ensures RemembersDropouts(Archived(before.archived, before.lastActive, Now(calls)), calls)
  {
    SeenGoesOn(Earlier(calls));
    ArchivedKeys(before.archived, before.lastActive, Now(calls));
    SetsGoOn(Seen(Earlier(calls)), Now(Earlier(calls)), Now(calls));
    forall k | k in Archived(before.archived, before.lastActive, Now(calls))
      ensures var row := Archived(before.archived, before.lastActive, Now(calls))[k];
              row == DroppedOut(LastRow(calls, k)) && row.carId == k
    {
      ArchivedRow(calls, before, k);
    }
  }

  lemma {:induction false} SetsGoOn(seen: set<nat>, before: set<nat>, now: set<nat>)
    requires before <= seen
    ensures seen - before + before - now == now + seen - now
  {
  }

  lemma {:induction false} ArchiveRemembers(calls: Calls)
    requires calls != [] && DistinctCars(Latest(calls).samples)
    requires Earlier(calls) != [] ==> Remembers(CacheOf(Earlier(calls)), Earlier(calls))
    ensures var c := EnteredCache(calls);
            RemembersDropouts(Archived(c.archived, c.lastActive, Now(calls)), calls)
  {
    EnteringForgets(calls);
    SeenGoesOn(calls);
    TrackIsInRaceOrder(calls);
    if !BeginsAfresh(calls) {
      ArchiveGoesOn(calls, CacheOf(Earlier(calls)));
    }
  }

  lemma {:induction false} EnteredTrajectoriesAdvance(calls: Calls)
    requires calls != [] && (Earlier(calls) != [] ==> AllAdvancing(CacheOf(Earlier(calls)).trajectories))
    ensures AllAdvancing(EnteredCache(calls).trajectories)
    ensures AllAdvancing(Trajectories(EnteredCache(calls), Latest(calls)))
  {
    var c := EnteredCache(calls);
    TrajectoriesAdvance(Kept(c.trajectories, Now(calls)), Latest(calls).elapsed, RaceOrder(calls));
  }

  /** The cache that every call leaves behind stands for the history up to that call. */
  lemma {:induction false} CacheRemembers(calls: Calls)
    requires calls != [] && DistinctCalls(calls)
    ensures Remembers(CacheOf(calls), calls)
    decreases |calls|
  {
    if Earlier(calls) != [] {
      CacheRemembers(Earlier(calls));
    }
    ArchiveRemembers(calls);
    TrackIsInRaceOrder(calls);
    ByIdHasTheId(OnTrack(calls));
    EnteredTrajectoriesAdvance(calls);
  }

  /** In every reachable cache, every trajectory goes forward in time and by at least 0.1 m a point. */
  lemma {:induction false} TrajectoriesAlwaysAdvance(calls: Calls)
    requires DistinctCalls(calls)
    ensures AllAdvancing(CacheOf(calls).trajectories)
  {
    if calls != [] {
      CacheRemembers(calls);
    }
  }

  // ----- The table shows the history -----

  lemma {:induction false} IdsWithFirst(first: Row, rest: seq<Row>)
    ensures RowIds([first] + rest) == {first.carId} + RowIds(rest)
  {
    assert forall r :: r in [first] + rest <==> r == first || r in rest;
  }

  predicate ByAscendingId(rows: seq<Row>) {
    forall i, j | 0 <= i < j < |rows| :: rows[i].carId < rows[j].carId
  }

  predicate RowsOf(rows: seq<Row>, m: map<nat, Row>, ids: set<nat>) {
    forall i | 0 <= i < |rows| :: rows[i].carId in ids && rows[i].carId in m && rows[i] == m[rows[i].carId]
  }

  lemma {:induction false} AscendingWithFirst(first: Row, rest: seq<Row>, m: map<nat, Row>, ids: set<nat>)
    requires ByAscendingId(rest) && RowsOf(rest, m, ids - {first.carId})
    requires first.carId in ids && first.carId in m && m[first.carId] == first
    requires forall x | x in ids :: first.carId <= x
    ensures ByAscendingId([first] + rest) && RowsOf([first] + rest, m, ids)
  {
  }

  lemma {:induction false} IdOrder(m: map<nat, Row>, ids: set<nat>)
    requires ids <= m.Keys && forall k | k in m :: m[k].carId == k
    ensures var rows := InIdOrder(m, ids);
            RowIds(rows) == ids && RowsOf(rows, m, ids) && ByAscendingId(rows)
    decreases ids
  {
    if ids != {} {
      var k := Smallest(ids);
      IdOrder(m, ids - {k});
      var rest := InIdOrder(m, ids - {k});
      IdsWithFirst(m[k], rest);
      AscendingWithFirst(m[k], rest, m, ids);
    }
  }

  ghost predicate ShowsTrack(rows: seq<Row>, calls: Calls)
    requires calls != []
  {
    && |OnTrack(calls)| == |Latest(calls).samples| <= |rows|
    && (forall i | 0 <= i < |OnTrack(calls)| ::
          rows[i] == OnTrack(calls)[i].(position := i + 1, status := Active)
          && rows[i].carId == RaceOrder(calls)[i].row.carId)
  }

  /** The rows from n on are of cars that are gone, as they were when last on track, by id. */
  ghost predicate ShowsDropouts(rows: seq<Row>, n: nat, calls: Calls)
    requires calls != [] && n <= |rows|
  {
    && (forall i | n <= i < |rows| ::
          && rows[i].carId in Seen(calls) - Now(calls)
          && rows[i] == LastRow(calls, rows[i].carId).(position := i + 1, status := Dnf, inPit := false))
    && (forall i, j | n <= i < j < |rows| :: rows[i].carId < rows[j].carId)
  }

  /** How a table is put together from its two parts. */
  lemma {:induction false} TableParts(active: seq<Row>, archived: map<nat, Row>)
    ensures var rows, gone := Table(active, archived), InIdOrder(archived, archived.Keys);
            && |rows| == |active| + |gone|
            && (forall i | 0 <= i < |active| :: rows[i] == active[i].(position := i + 1, status := Active))
            && (forall i | |active| <= i < |rows| ::
                  rows[i] == gone[i - |active|].(position := i + 1, status := Dnf, inPit := false))
  {
  }

  lemma {:induction false} DropoutsAreShown(calls: Calls, archived: map<nat, Row>)
    requires calls != [] && RemembersDropouts(archived, calls)
    ensures |OnTrack(calls)| <= |Table(OnTrack(calls), archived)|
    ensures ShowsDropouts(Table(OnTrack(calls), archived), |OnTrack(calls)|, calls)
  {
    var active := OnTrack(calls);
    var rows, gone := Table(active, archived), InIdOrder(archived, archived.Keys);
    TableParts(active, archived);
    IdOrder(archived, archived.Keys);
    forall i | |active| <= i < |rows|
      ensures rows[i].carId in Seen(calls) - Now(calls)
      ensures rows[i] == LastRow(calls, rows[i].carId).(position := i + 1, status := Dnf, inPit := false)
    {
      var row := gone[i - |active|];
      assert row == archived[row.carId] == DroppedOut(LastRow(calls, row.carId));
    }
  }

  lemma {:induction false} IdsOfTable(active: seq<Row>, archived: map<nat, Row>)
    requires DistinctRows(active) && RowIds(active) !! archived.Keys
    requires forall k | k in archived :: archived[k].carId == k
    ensures DistinctRows(Table(active, archived))
    ensures RowIds(Table(active, archived)) == RowIds(active) + archived.Keys
  {
    var rows, gone := Table(active, archived), InIdOrder(archived, archived.Keys);
    TableParts(active, archived);
    IdOrder(archived, archived.Keys);
    IdsInTwoParts(rows, active, gone);
    TwoPartsAreDistinct(rows, active, gone);
  }

  lemma {:induction false} TwoPartsAreDistinct(rows: seq<Row>, active: seq<Row>, gone: seq<Row>)
    requires |rows| == |active| + |gone| && DistinctRows(active) && ByAscendingId(gone)
    requires RowIds(active) !! RowIds(gone)
    requires forall i | 0 <= i < |active| :: rows[i].carId == active[i].carId
    requires forall i | |active| <= i < |rows| :: rows[i].carId == gone[i - |active|].carId
    ensures DistinctRows(rows)
  {
    forall i, j | 0 <= i < j < |rows| ensures rows[i].carId != rows[j].carId {
      if j >= |active| {
        var b := gone[j - |active|];
        assert b.carId in RowIds(gone);
        if i < |active| {
          assert active[i].carId in RowIds(active);
        } else {
          assert gone[i - |active|].carId < b.carId;
        }
      }
    }
  }

  lemma {:induction false} IdsInTwoParts(rows: seq<Row>, active: seq<Row>, gone: seq<Row>)
    requires |rows| == |active| + |gone|
    requires forall i | 0 <= i < |active| :: rows[i].carId == active[i].carId
    requires forall i | |active| <= i < |rows| :: rows[i].carId == gone[i - |active|].carId
    ensures RowIds(rows) == RowIds(active) + RowIds(gone)
  {
    forall k ensures k in RowIds(rows) <==> k in RowIds(active) || k in RowIds(gone) {
      if k in RowIds(active) {
        var i :| 0 <= i < |active| && active[i].carId == k;
        assert rows[i] in rows;
      }
      if k in RowIds(gone) {
        var i :| 0 <= i < |gone| && gone[i].carId == k;
        assert rows[|active| + i] in rows;
      }
    }
  }

  lemma {:induction false} TableIsTheTable(calls: Calls)
    requires calls != [] && DistinctCalls(calls)
    ensures var c := EnteredCache(calls);
            var archived := Archived(c.archived, c.lastActive, Now(calls));
            TableOf(calls) == Table(OnTrack(calls), archived) && RemembersDropouts(archived, calls)
  {
    if Earlier(calls) != [] {
      CacheRemembers(Earlier(calls));
    }
    ArchiveRemembers(calls);
  }

  /** Everything there is to say about a table, but for the order on track. */
  ghost predicate ShowsHistory(rows: seq<Row>, calls: Calls)
    requires calls != []
  {
    && |OnTrack(calls)| == |Latest(calls).samples| <= |rows|
    && ShowsTrack(rows, calls) && ShowsDropouts(rows, |OnTrack(calls)|, calls)
    && DistinctRows(rows) && RowIds(rows) == Seen(calls) && |rows| == |Seen(calls)|
  }

  lemma {:induction false} TrackIsShown(calls: Calls, archived: map<nat, Row>)
    requires calls != [] && DistinctCars(Latest(calls).samples)
    ensures |OnTrack(calls)| == |Latest(calls).samples| <= |Table(OnTrack(calls), archived)|
    ensures ShowsTrack(Table(OnTrack(calls), archived), calls)
  {
    TrackIsInRaceOrder(calls);
    TableParts(OnTrack(calls), archived);
  }

  lemma {:induction false} IdsAreShown(calls: Calls, archived: map<nat, Row>)
    requires calls != [] && DistinctCars(Latest(calls).samples) && RemembersDropouts(archived, calls)
    ensures var rows := Table(OnTrack(calls), archived);
            DistinctRows(rows) && RowIds(rows) == Seen(calls) && |rows| == |Seen(calls)|
  {
    TrackIsInRaceOrder(calls);
    SeenGoesOn(calls);
    Rejoined(OnTrack(calls), archived, Seen(calls), Now(calls));
    DistinctRowsCount(Table(OnTrack(calls), archived));
  }

  lemma {:induction false} Rejoined(active: seq<Row>, archived: map<nat, Row>, seen: set<nat>, now: set<nat>)
    requires DistinctRows(active) && RowIds(active) == now <= seen && archived.Keys == seen - now
    requires forall k | k in archived :: archived[k].carId == k
    ensures DistinctRows(Table(active, archived)) && RowIds(Table(active, archived)) == seen
  {
    IdsOfTable(active, archived);
    assert now + (seen - now) == seen;
  }

  /**
   However the calls went, the table holds every car seen since it last started afresh, once: first
   the cars on track in race order, then those that are gone, by id, as they were when last on
   track. Positions count from one.
   */
  lemma {:induction false} TableIsComplete(calls: Calls)
    requires calls != [] && DistinctCalls(calls)
    ensures ShowsHistory(TableOf(calls), calls) && InRaceOrder(RaceOrder(calls))
  {
    TableIsTheTable(calls);
    TrackIsInRaceOrder(calls);
    var c := EnteredCache(calls);
    var archived := Archived(c.archived, c.lastActive, Now(calls));
    TrackIsShown(calls, archived);
    DropoutsAreShown(calls, archived);
    IdsAreShown(calls, archived);
  }

  lemma {:induction false} DistinctRowsCount(rows: seq<Row>)
    requires DistinctRows(rows)
    ensures |RowIds(rows)| == |rows|
  {
    if rows != [] {
      DistinctRowsCount(rows[..|rows| - 1]);
      IdsWithLast(rows);
      LastIdIsNew(rows);
    }
  }

  // ----- From where progress is counted -----

  lemma {:induction false} StartsWithAt(start: map<nat, real>, samples: seq<Sample>, i: nat)
    requires DistinctCars(samples) && i < |samples|
    ensures samples[i].row.carId in StartsWith(start, samples)
    ensures StartsWith(start, samples)[samples[i].row.carId] == Baseline(start, samples[i])
  {
    if i < |samples| - 1 {
      StartsWithAt(start, samples[..|samples| - 1], i);
    }
  }

  /** What is kept of the baselines when a call begins. */
  lemma {:induction false} EnteredBaseline(calls: Calls, s: Sample)
    requires calls != [] && DistinctCalls(calls) && s.row.carId in Now(calls)
    requires Earlier(calls) != [] ==> BaselinesAreFirst(Earlier(calls))
    ensures Baseline(Kept(EnteredCache(calls).startProgress, Now(calls)), s) == FirstProgress(calls, s)
  {
    if Earlier(calls) != [] {
      CacheRemembers(Earlier(calls));
    }
    EnteringForgets(calls);
    if !BeginsAfresh(calls) && s.row.carId in Now(Earlier(calls)) {
      var before := Latest(Earlier(calls)).samples;
      assert before[IndexOfCar(before, s.row.carId)] in before;
    }
  }

  ghost predicate BaselinesAreFirst(calls: Calls)
    requires calls != []
  {
    && CacheOf(calls).startProgress.Keys == Now(calls)
    && forall s | s in Latest(calls).samples ::
         s.row.carId in CacheOf(calls).startProgress
         && CacheOf(calls).startProgress[s.row.carId] == FirstProgress(calls, s)
  }

  lemma {:induction false} BaselinesStayFirst(calls: Calls)
    requires calls != [] && DistinctCalls(calls)
    ensures BaselinesAreFirst(calls)
    decreases |calls|
  {
    if Earlier(calls) != [] {
      BaselinesStayFirst(Earlier(calls));
    }
    var start := Kept(EnteredCache(calls).startProgress, Now(calls));
    var samples := Latest(calls).samples;
    StartsAreOfCurrentCars(EnteredCache(calls).startProgress, samples);
    forall s | s in samples
      ensures s.row.carId in StartsWith(start, samples)
      ensures StartsWith(start, samples)[s.row.carId] == FirstProgress(calls, s)
    {
      var i :| 0 <= i < |samples| && samples[i] == s;
      StartsWithAt(start, samples, i);
      EnteredBaseline(calls, s);
    }
  }

  /** The distance by which cars are ordered: from where the car came on track for the last time. */
  function Travelled(calls: Calls, s: Sample): Sample
    requires calls != []
  {
    var moved := s.progress - FirstProgress(calls, s);
    s.(progress := if moved < 0.0 then 0.0 else moved)
  }

  lemma {:induction false} NormalizedIsTravelled(calls: Calls, i: nat)
    requires calls != [] && DistinctCalls(calls) && i < |Latest(calls).samples|
    ensures var start := Kept(EnteredCache(calls).startProgress, Now(calls));
            AllFromStart(start, Latest(calls).samples)[i] == Travelled(calls, Latest(calls).samples[i])
  {
    if Earlier(calls) != [] {
      BaselinesStayFirst(Earlier(calls));
    }
    var samples := Latest(calls).samples;
    assert samples[i] in samples;
    EnteredBaseline(calls, samples[i]);
    AllFromStartAt(Kept(EnteredCache(calls).startProgress, Now(calls)), samples);
  }

  lemma {:induction false} SortKeepsAll(start: map<nat, real>, samples: seq<Sample>, i: nat)
    requires DistinctCars(samples) && i < |samples|
    ensures AllFromStart(start, samples)[i] in SortByProgress(AllFromStart(start, samples))
  {
    NormalizedSamples(start, samples);
    SortIsInRaceOrder(AllFromStart(start, samples));
  }

  /** The race order is of the latest samples, each by what its car has travelled since then. */
  lemma {:induction false} OrderIsByDistanceTravelled(calls: Calls)
    requires calls != [] && DistinctCalls(calls)
    ensures InRaceOrder(RaceOrder(calls)) && |RaceOrder(calls)| == |Latest(calls).samples|
    ensures forall i | 0 <= i < |Latest(calls).samples| ::
              Travelled(calls, Latest(calls).samples[i]) in RaceOrder(calls)
  {
    TrackIsInRaceOrder(calls);
    forall i | 0 <= i < |Latest(calls).samples|
      ensures Travelled(calls, Latest(calls).samples[i]) in RaceOrder(calls)
    {
      NormalizedIsTravelled(calls, i);
      SortKeepsAll(Kept(EnteredCache(calls).startProgress, Now(calls)), Latest(calls).samples, i);
    }
  }

  // ----- Gaps -----

  ghost function LeaderTrajectory(calls: Calls): Trajectory
    requires calls != [] && RaceOrder(calls) != []
  {
    TrajectoryOf(Trajectories(EnteredCache(calls), Latest(calls)), RaceOrder(calls)[0].row.carId)
  }

  /** The gap of the car in this place of the race order comes from the leader's trajectory. */
  ghost predicate IsInterpolated(calls: Calls, i: nat)
    requires calls != [] && i < |RaceOrder(calls)|
  {
    var leader, s := RaceOrder(calls)[0], RaceOrder(calls)[i];
    && 0 < i && !s.hideGap && LapsBehind(leader, s) <= GAP_DISABLED_LAPS_BEHIND
    && HasMoved(leader, LeaderTrajectory(calls))
    && TimeAt(LeaderTrajectory(calls), s.progress).Some?
  }

  lemma {:induction false} GapIsMonotone(elapsed: nat, a: real, b: real)
    requires a >= b
    ensures GapMs(elapsed, a) <= GapMs(elapsed, b)
  {
  }

  /** The row in this place is the one computed for the sample in this place. */
  lemma {:induction false} RowInPlace(calls: Calls, i: nat)
    requires calls != [] && DistinctCalls(calls) && i < |RaceOrder(calls)|
    ensures i < |TableOf(calls)|
    ensures var row := ActiveRow(Latest(calls).elapsed, RaceOrder(calls)[0], LeaderTrajectory(calls),
                                 EnteredCache(calls).lastGap, RaceOrder(calls)[i]);
            TableOf(calls)[i] == row.(position := i + 1, status := Active)
  {
    TableIsComplete(calls);
    var c, call, sorted := EnteredCache(calls), Latest(calls), RaceOrder(calls);
    ActiveRowsAt(call.elapsed, sorted[0], LeaderTrajectory(calls), c.lastGap, sorted);
  }

  lemma {:induction false} OthersAreNotTheLeader(calls: Calls, i: nat)
    requires calls != [] && DistinctCars(Latest(calls).samples) && 0 < i < |RaceOrder(calls)|
    ensures RaceOrder(calls)[i].row.carId != RaceOrder(calls)[0].row.carId
  {
    SortedSamples(EnteredCache(calls), Latest(calls));
  }

  lemma {:induction false} InterpolatedGap(calls: Calls, i: nat)
    requires calls != [] && DistinctCalls(calls) && i < |RaceOrder(calls)| && IsInterpolated(calls, i)
    ensures i < |TableOf(calls)|
    ensures TableOf(calls)[i].gapToLeaderMs ==
            Some(GapMs(Latest(calls).elapsed, TimeAt(LeaderTrajectory(calls), RaceOrder(calls)[i].progress).value))
  {
    RowInPlace(calls, i);
    OthersAreNotTheLeader(calls, i);
  }

  lemma {:induction false} LeaderTrajectoryAdvances(calls: Calls)
    requires calls != [] && DistinctCalls(calls) && RaceOrder(calls) != []
    ensures Advancing(LeaderTrajectory(calls))
  {
    if Earlier(calls) != [] {
      TrajectoriesAlwaysAdvance(Earlier(calls));
    }
    EnteredTrajectoriesAdvance(calls);
  }

  lemma {:induction false} HigherIsAhead(calls: Calls, i: nat, j: nat)
    requires calls != [] && DistinctCars(Latest(calls).samples) && i < j < |RaceOrder(calls)|
    ensures RaceOrder(calls)[i].progress >= RaceOrder(calls)[j].progress
  {
    TrackIsInRaceOrder(calls);
  }

  lemma {:induction false} CloserIsSmaller(elapsed: nat, t: Trajectory, p: real, q: real)
    requires Advancing(t) && q <= p && TimeAt(t, p).Some? && TimeAt(t, q).Some?
    ensures GapMs(elapsed, TimeAt(t, p).value) <= GapMs(elapsed, TimeAt(t, q).value)
  {
    TimeIsMonotone(t, q, p);
    GapIsMonotone(elapsed, TimeAt(t, p).value, TimeAt(t, q).value);
  }

  /** Of two cars whose gaps are interpolated, the one placed higher has no larger a gap. */
  lemma {:induction false} GapsGrowDownTheTable(calls: Calls, i: nat, j: nat)
    requires calls != [] && DistinctCalls(calls) && i < j < |RaceOrder(calls)|
    requires IsInterpolated(calls, i) && IsInterpolated(calls, j)
    ensures j < |TableOf(calls)| && TableOf(calls)[i].gapToLeaderMs.Some? && TableOf(calls)[j].gapToLeaderMs.Some?
    ensures TableOf(calls)[i].gapToLeaderMs.value <= TableOf(calls)[j].gapToLeaderMs.value
  {
    InterpolatedGap(calls, i);
    InterpolatedGap(calls, j);
    LeaderTrajectoryAdvances(calls);
    HigherIsAhead(calls, i, j);
    CloserIsSmaller(Latest(calls).elapsed, LeaderTrajectory(calls),
                    RaceOrder(calls)[i].progress, RaceOrder(calls)[j].progress);
  }

  /** The leader's own gap is zero, and so is every gap that is shown before the leader has moved. */
  lemma {:induction false} LeaderSetsTheGaps(calls: Calls, i: nat)
    requires calls != [] && DistinctCalls(calls) && i < |RaceOrder(calls)|
    ensures i < |TableOf(calls)|
    ensures i == 0 ==> TableOf(calls)[i].gapToLeaderMs == Some(0) && TableOf(calls)[i].lapsBehind == 0
    ensures !HasMoved(RaceOrder(calls)[0], LeaderTrajectory(calls)) ==>
              TableOf(calls)[i].gapToLeaderMs.None? || TableOf(calls)[i].gapToLeaderMs == Some(0)
  {
    RowInPlace(calls, i);
  }
}
