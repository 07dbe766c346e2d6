/** What one pass over the scheduled activations does. */
module EngineScheduling {
  import opened Prelude
  import opened Roster
  import opened EngineModel
  import opened EngineInvariant

  // ----- The order in which due entries are fired -----

  ghost predicate SortedByTime(s: seq<Pending>) {
    forall i, j | 0 <= i < j < |s| :: s[i].info.executeAt <= s[j].info.executeAt
  }

  function AtTime(s: seq<Pending>, t: int): seq<Pending> {
    if s == [] then []
    else if s[0].info.executeAt == t then [s[0]] + AtTime(s[1..], t)
    else AtTime(s[1..], t)
  }

  lemma {:induction false} InsertByTimeIn(p: Pending, s: seq<Pending>)
    ensures multiset(InsertByTime(p, s)) == multiset(s) + multiset{p}
    ensures forall x :: x in InsertByTime(p, s) <==> x == p || x in s
  {
    if s != [] && p.info.executeAt > s[0].info.executeAt {
      InsertByTimeIn(p, s[1..]);
      assert s == [s[0]] + s[1..];
    }
  }

  lemma {:induction false} InsertByTimeSorts(p: Pending, s: seq<Pending>)
    requires SortedByTime(s)
    ensures SortedByTime(InsertByTime(p, s))
  {
    if s != [] && p.info.executeAt > s[0].info.executeAt {
      InsertByTimeSorts(p, s[1..]);
      InsertByTimeIn(p, s[1..]);
      var rest := InsertByTime(p, s[1..]);
      forall j | 0 <= j < |rest| ensures s[0].info.executeAt <= rest[j].info.executeAt {
        assert rest[j] in rest;
      }
    }
  }

  lemma {:induction false} InsertByTimeIsStable(p: Pending, s: seq<Pending>, t: int)
    ensures AtTime(InsertByTime(p, s), t) == AtTime([p] + s, t)
  {
    assert ([p] + s)[1..] == s;
    if s != [] && p.info.executeAt > s[0].info.executeAt {
      InsertByTimeIsStable(p, s[1..], t);
      var rest := InsertByTime(p, s[1..]);
      assert ([s[0]] + rest)[1..] == rest && ([p] + s[1..])[1..] == s[1..];
    }
  }

  /** Sorting is by time, loses nothing, and keeps the queue order of entries due together. */
  lemma {:induction false} SortByTimeIsStable(s: seq<Pending>)
    ensures SortedByTime(SortByTime(s))
    ensures multiset(SortByTime(s)) == multiset(s)
    ensures forall t :: AtTime(SortByTime(s), t) == AtTime(s, t)
  {
    if s != [] {
      SortByTimeIsStable(s[1..]);
      var rest := SortByTime(s[1..]);
      InsertByTimeSorts(s[0], rest);
      InsertByTimeIn(s[0], rest);
      assert s == [s[0]] + s[1..];
      forall t ensures AtTime(SortByTime(s), t) == AtTime(s, t) {
        InsertByTimeIsStable(s[0], rest, t);
        assert ([s[0]] + rest)[1..] == rest;
      }
    }
  }

  lemma {:induction false} DueNowIn(s: seq<Pending>, now: int)
    ensures forall p :: p in DueNow(s, now) <==> p in s && p.info.executeAt <= now
    ensures Distinct(s) ==> Distinct(DueNow(s, now))
  {
    if s != [] {
      DueNowIn(s[1..], now);
      assert s == [s[0]] + s[1..];
      if Distinct(s) {
        var rest := DueNow(s[1..], now);
        forall j | 0 <= j < |rest| ensures rest[j].id != s[0].id {
          assert rest[j] in s[1..];
        }
      }
    }
  }

  lemma {:induction false} InsertByTimeDistinct(p: Pending, s: seq<Pending>)
    requires Distinct(s) && !Has(s, p.id)
    ensures Distinct(InsertByTime(p, s))
  {
    if s == [] || p.info.executeAt <= s[0].info.executeAt {
      forall j | 0 <= j < |s| ensures s[j].id != p.id {
        assert s[j] in s;
      }
    } else {
      assert s == [s[0]] + s[1..];
      InsertByTimeDistinct(p, s[1..]);
      InsertByTimeIn(p, s[1..]);
      var rest := InsertByTime(p, s[1..]);
      forall j | 0 <= j < |rest| ensures rest[j].id != s[0].id {
        assert rest[j] in rest;
      }
    }
  }

  lemma {:induction false} SortByTimeDistinct(s: seq<Pending>)
    requires Distinct(s)
    ensures Distinct(SortByTime(s))
    ensures forall x :: x in SortByTime(s) <==> x in s
  {
    if s != [] {
      SortByTimeDistinct(s[1..]);
      assert s == [s[0]] + s[1..];
      InsertByTimeDistinct(s[0], SortByTime(s[1..]));
      InsertByTimeIn(s[0], SortByTime(s[1..]));
    }
  }

  /** The due list: the queued entries whose time has come, each once, earliest first. */
  lemma {:induction false} DueIsTheQueueByTime(s: seq<Pending>, now: int)
    requires Distinct(s)
    ensures forall p :: p in Due(s, now) <==> p in s && p.info.executeAt <= now
    ensures Distinct(Due(s, now)) && SortedByTime(Due(s, now))
    ensures forall t | t <= now :: AtTime(Due(s, now), t) == AtTime(s, t)
  {
    DueNowIn(s, now);
    SortByTimeDistinct(DueNow(s, now));
    SortByTimeIsStable(DueNow(s, now));
    forall t | t <= now ensures AtTime(DueNow(s, now), t) == AtTime(s, t) {
      DueNowAtTime(s, now, t);
    }
  }

  lemma {:induction false} DueNowAtTime(s: seq<Pending>, now: int, t: int)
    requires t <= now
    ensures AtTime(DueNow(s, now), t) == AtTime(s, t)
  {
    if s != [] {
      DueNowAtTime(s[1..], now, t);
      assert ([s[0]] + DueNow(s[1..], now))[1..] == DueNow(s[1..], now);
    }
  }

  // ----- One firing pass -----

  /** Whether firing the entry succeeds: a deactivation always does. */
  predicate Fireable(f: Flavour, p: Pending, build: Build) {
    p.info.activate ==> p.info.mapId.Some? && IsValidMapId(f, p.info.mapId.value) && build.Built?
  }

  /** The same for the i-th due entry of a pass, whose build is the i-th, or fails if there is none. */
  predicate CanFire(f: Flavour, p: Pending, builds: seq<Build>, i: nat) {
    p.info.activate ==>
      && p.info.mapId.Some? && IsValidMapId(f, p.info.mapId.value)
      && i < |builds| && builds[i].Built?
  }

  function FiringError(f: Flavour, p: Pending): WorkerError {
    if p.info.mapId.Some? && IsValidMapId(f, p.info.mapId.value) then EngineError
    else InvalidArgument(MapIdCharacters)
  }

  function Keep(s: seq<Pending>, gone: set<string>): seq<Pending> {
    if s == [] then []
    else if s[0].id in gone then Keep(s[1..], gone)
    else [s[0]] + Keep(s[1..], gone)
  }

  lemma {:induction false} KeepWithout(s: seq<Pending>, id: string, gone: set<string>)
    ensures Keep(Without(s, id), gone) == Keep(s, gone + {id})
  {
    if s != [] {
      KeepWithout(s[1..], id, gone);
      if s[0].id != id {
        assert ([s[0]] + Without(s[1..], id))[1..] == Without(s[1..], id);
      }
    }
  }

  lemma {:induction false} KeepAll(s: seq<Pending>)
    ensures Keep(s, {}) == s
  {
    if s != [] {
      KeepAll(s[1..]);
    }
  }

  function IdsBetween(due: seq<Pending>, i: nat, n: nat): set<string>
    requires i <= n <= |due|
  {
    set j | i <= j < n :: due[j].id
  }

  /** Taking the entries off the queue one after the other. */
  function WithoutEach(s: seq<Pending>, due: seq<Pending>, i: nat, n: nat): seq<Pending>
    requires i <= n <= |due|
    decreases n - i
  {
    if i == n then s else WithoutEach(Without(s, due[i].id), due, i + 1, n)
  }

  lemma {:induction false} WithoutEachKeeps(s: seq<Pending>, due: seq<Pending>, i: nat, n: nat)
    requires i <= n <= |due|
    ensures WithoutEach(s, due, i, n) == Keep(s, IdsBetween(due, i, n))
    decreases n - i
  {
    if i == n {
      KeepAll(s);
      assert IdsBetween(due, i, n) == {};
    } else {
      WithoutEachKeeps(Without(s, due[i].id), due, i + 1, n);
      KeepWithout(s, due[i].id, IdsBetween(due, i + 1, n));
      assert IdsBetween(due, i, n) == IdsBetween(due, i + 1, n) + {due[i].id};
    }
  }

  ghost predicate Fires(due: seq<Pending>, i: nat, n: nat, id: string, activate: bool)
    requires i <= n <= |due|
  {
    exists j | i <= j < n :: due[j].id == id && due[j].info.activate == activate
  }

  lemma {:induction false} FireOneExact(f: Flavour, w: World, p: Pending, build: Build)
    requires Inv(w) && p in w.pending
    ensures var r := FireOne(f, w, p, build);
            && (r.Success? <==> Fireable(f, p, build))
            && (r.Failure? ==> r.error == FiringError(f, p))
            && (r.Success? ==>
                  && r.value.pending == Without(w.pending, p.id)
                  && r.value.revision == SaturatingAdd(w.revision, 1)
                  && forall id :: Has(r.value.sandboxes, id) <==>
                                  if id == p.id then p.info.activate else Has(w.sandboxes, id))
  {
    WithoutHas(w.pending, p.id);
    WithoutAbsent(Without(w.pending, p.id), p.id);
    WithoutHas(w.sandboxes, p.id);
  }

  ghost predicate Queued(w: World, due: seq<Pending>, i: nat) {
    Inv(w) && Distinct(due) && forall j | i <= j < |due| :: due[j] in w.pending
  }

  /** The due entries still to come stay queued while an earlier one is fired. */
  lemma {:induction false} FireOneOfMany(f: Flavour, w: World, due: seq<Pending>, build: Build, i: nat)
    requires i < |due| && Queued(w, due, i)
    ensures var r := FireOne(f, w, due[i], build);
            && (r.Success? <==> Fireable(f, due[i], build))
            && (r.Failure? ==> r.error == FiringError(f, due[i]))
            && (r.Success? ==>
                  && Queued(r.value, due, i + 1)
                  && r.value.pending == Without(w.pending, due[i].id)
                  && r.value.revision == SaturatingAdd(w.revision, 1))
  {
    FireOneExact(f, w, due[i], build);
    FireOneKeepsInv(f, w, due[i], build);
    WithoutIn(w.pending, due[i].id);
  }

  function BumpEach(revision: u64, i: nat, n: nat): u64
    requires i <= n
    decreases n - i
  {
    if i == n then revision else BumpEach(SaturatingAdd(revision, 1), i + 1, n)
  }

  lemma {:induction false} BumpEachAdds(revision: u64, i: nat, n: nat)
    requires i <= n
    ensures BumpEach(revision, i, n) == SaturatingAdd(revision, n - i)
    decreases n - i
  {
    if i < n {
      BumpEachAdds(SaturatingAdd(revision, 1), i + 1, n);
    }
  }

  /** What a pass from the i-th due entry on does to revision and queue. */
  ghost predicate Extent(w: World, due: seq<Pending>, i: nat, r: Firing) {
    && i <= r.fired <= |due|
    && r.world.revision == BumpEach(w.revision, i, r.fired)
    && r.world.pending == WithoutEach(w.pending, due, i, r.fired)
    && (r.fired == i ==> r.world == w)
    && (r.error.None? <==> r.fired == |due|)
  }

  lemma {:induction false} ExtentGoesOn(w: World, next: World, due: seq<Pending>, i: nat, r: Firing)
    requires i < |due| && Extent(next, due, i + 1, r)
    requires next.pending == Without(w.pending, due[i].id) && next.revision == SaturatingAdd(w.revision, 1)
    ensures Extent(w, due, i, r)
  {
  }

  lemma {:induction false} ExtentStops(w: World, due: seq<Pending>, i: nat, e: Option<WorkerError>)
    requires i <= |due| && (e.None? <==> i == |due|)
    ensures Extent(w, due, i, Firing(w, i, e))
  {
  }

  lemma {:induction false} FireFromNext(f: Flavour, w: World, due: seq<Pending>, builds: seq<Build>, i: nat)
    requires i < |due|
    ensures match FireOne(f, w, due[i], BuildAt(builds, i))
            case Failure(e) => FireFrom(f, w, due, builds, i) == Firing(w, i, Some(e))
            case Success(next) => FireFrom(f, w, due, builds, i) == FireFrom(f, next, due, builds, i + 1)
  {
  }

  /** How far a pass gets, and what it takes off the queue. */
  lemma {:induction false} FireFromExtent(f: Flavour, w: World, due: seq<Pending>, builds: seq<Build>, i: nat)
    requires i <= |due| && Queued(w, due, i)
    ensures Extent(w, due, i, FireFrom(f, w, due, builds, i))
    decreases |due| - i
  {
    if i == |due| {
      ExtentStops(w, due, i, None);
    } else {
      FireOneOfMany(f, w, due, BuildAt(builds, i), i);
      FireFromNext(f, w, due, builds, i);
      match FireOne(f, w, due[i], BuildAt(builds, i))
      case Failure(e) => ExtentStops(w, due, i, Some(e));
      case Success(next) =>
        FireFromExtent(f, next, due, builds, i + 1);
        ExtentGoesOn(w, next, due, i, FireFrom(f, next, due, builds, i + 1));
    }
  }

  /** Why a pass stops where it does. */
  lemma {:induction false} FireFromReason(f: Flavour, w: World, due: seq<Pending>, builds: seq<Build>, i: nat, j: nat)
    requires i <= j < |due| && Queued(w, due, i)
    ensures var r := FireFrom(f, w, due, builds, i);
            && (j < r.fired ==> Fireable(f, due[j], BuildAt(builds, j)))
            && (j == r.fired ==>
                  !Fireable(f, due[j], BuildAt(builds, j)) && r.error == Some(FiringError(f, due[j])))
    decreases |due| - i
  {
    FireOneOfMany(f, w, due, BuildAt(builds, i), i);
    var one := FireOne(f, w, due[i], BuildAt(builds, i));
    if one.Success? {
      FireFromExtent(f, one.value, due, builds, i + 1);
      if i < j {
        FireFromReason(f, one.value, due, builds, i + 1, j);
      }
    }
  }

  lemma {:induction false} FiresNext(due: seq<Pending>, i: nat, n: nat, id: string, activate: bool)
    requires i < n <= |due|
    ensures Fires(due, i, n, id, activate) <==>
            (due[i].id == id && due[i].info.activate == activate) || Fires(due, i + 1, n, id, activate)
  {
    if due[i].id == id && due[i].info.activate == activate {
      assert Fires(due, i, n, id, activate);
    }
  }

  /** Which sandboxes are active after a pass. */
  lemma {:induction false} FireFromSandboxes(
    f: Flavour, w: World, due: seq<Pending>, builds: seq<Build>, i: nat, id: string)
    requires i <= |due| && Queued(w, due, i)
    ensures var r := FireFrom(f, w, due, builds, i);
            && i <= r.fired <= |due|
            && (Has(r.world.sandboxes, id) <==>
                  || Fires(due, i, r.fired, id, true)
                  || (Has(w.sandboxes, id) && !Fires(due, i, r.fired, id, false)))
    decreases |due| - i
  {
    if i < |due| {
      FireOneOfMany(f, w, due, BuildAt(builds, i), i);
      FireOneExact(f, w, due[i], BuildAt(builds, i));
      var one := FireOne(f, w, due[i], BuildAt(builds, i));
      if one.Success? {
        FireFromSandboxes(f, one.value, due, builds, i + 1, id);
        var r := FireFrom(f, one.value, due, builds, i + 1);
        FiresNext(due, i, r.fired, id, true);
        FiresNext(due, i, r.fired, id, false);
        NoLaterFiring(due, i, r.fired);
      }
    }
  }

  lemma {:induction false} NoLaterFiring(due: seq<Pending>, i: nat, n: nat)
    requires i < n <= |due| && Distinct(due)
    ensures !Fires(due, i + 1, n, due[i].id, true) && !Fires(due, i + 1, n, due[i].id, false)
  {
  }

  /**
   One firing pass executes a prefix of the due list, in its order: the queue loses exactly the
   entries of that prefix, the revision grows by its length, the active sandboxes change exactly
   as it says, and it goes up to the first activation that cannot be carried out. The
   branches for an already active sandbox and for a missing payload are never taken.
   */
  lemma {:induction false} FiringExecutesAPrefix(f: Flavour, w: World, now: int, builds: seq<Build>)
    requires Inv(w)
    ensures var due := Due(w.pending, now);
            var r := FireDue(f, w, now, builds);
            && r.fired <= |due|
            && r.world.pending == Keep(w.pending, IdsBetween(due, 0, r.fired))
            && r.world.revision == (if w.revision + r.fired <= U64_MAX then w.revision + r.fired else U64_MAX)
            && (r.fired == 0 ==> r.world == w)
            && (r.error.None? <==> forall i | 0 <= i < |due| :: CanFire(f, due[i], builds, i))
            && (r.error.None? <==> r.fired == |due|)
            && (forall i | 0 <= i < r.fired :: CanFire(f, due[i], builds, i))
            && (r.error.Some? ==>
                  && !CanFire(f, due[r.fired], builds, r.fired)
                  && r.error.value == FiringError(f, due[r.fired]))
            && forall id :: Has(r.world.sandboxes, id) <==>
                            || Fires(due, 0, r.fired, id, true)
                            || (Has(w.sandboxes, id) && !Fires(due, 0, r.fired, id, false))
  {
    DueIsTheQueueByTime(w.pending, now);
    var due := Due(w.pending, now);
    forall j | 0 <= j < |due| ensures due[j] in w.pending {
      assert due[j] in due;
    }
    FireFromExtent(f, w, due, builds, 0);
    var r := FireDue(f, w, now, builds);
    WithoutEachKeeps(w.pending, due, 0, r.fired);
    BumpEachAdds(w.revision, 0, r.fired);
    forall j | 0 <= j < |due|
      ensures j < r.fired ==> CanFire(f, due[j], builds, j)
      ensures j == r.fired ==>
                !CanFire(f, due[j], builds, j) && r.error == Some(FiringError(f, due[j]))
    {
      FireFromReason(f, w, due, builds, 0, j);
    }
    if r.fired < |due| {
      assert !CanFire(f, due[r.fired], builds, r.fired);
    }
    forall id
      ensures Has(r.world.sandboxes, id) <==>
              || Fires(due, 0, r.fired, id, true)
              || (Has(w.sandboxes, id) && !Fires(due, 0, r.fired, id, false))
    {
      FireFromSandboxes(f, w, due, builds, 0, id);
    }
  }
}
