/**
 The sandbox-configuration cache behind the public menu. Administrators commit to the store and
 then raise a shared generation counter; readers note the generation, use the cache when it
 carries that generation and is young enough, and otherwise load the store and overwrite the
 cache. All of these are separate atomic steps of any number of administrators and readers.

 A snapshot of the store is named by the number of commits it contains. The counter does not wrap.
 */
module MenuCache {
  import opened Prelude

  const SANDBOX_CONFIG_CACHE_TTL_MS := 60 * 1000

  /** The cached snapshot; `None` is the empty list the cache starts with. */
  datatype CacheEntry = CacheEntry(generation: nat, cachedAt: int, snapshot: Option<nat>)

  const INITIAL_ENTRY := CacheEntry(0, 0, None)

  predicate Hits(entry: CacheEntry, generation: nat, now: int) {
    entry.generation == generation && now - entry.cachedAt <= SANDBOX_CONFIG_CACHE_TTL_MS
  }

  // ----- Interleaved administrators and readers -----

  datatype Admin = Committed(commit: nat) | Invalidated(commit: nat)

  datatype Reader =
    | Started(now: int)
    | Observed(now: int, generation: nat)
    | Missed(now: int, generation: nat)
    | Loaded(now: int, generation: nat, loaded: nat)
    | Returned(now: int, result: Option<nat>)
    | Failed(now: int)

  /**
   The last two fields are history that no step depends on: `vouched[g]` is the latest commit
   whose administrator had finished when the counter reached g, and `owed[r]` the latest whose
   administrator had finished when request r began.
   */
  datatype State = State(
    commits: nat,
    generation: nat,
    entry: CacheEntry,
    admins: map<nat, Admin>,
    readers: map<nat, Reader>,
    vouched: seq<nat>,
    owed: map<nat, nat>)

  const INITIAL_STATE := State(0, 0, INITIAL_ENTRY, map[], map[], [0], map[])

  datatype Step =
    | Commit(admin: nat)
    | Invalidate(admin: nat)
    | Begin(reader: nat, now: int)
    | Observe(reader: nat)
    | Look(reader: nat)
    | Load(reader: nat)
    | FailToLoad(reader: nat)
    | Store(reader: nat)

  function Max(a: nat, b: nat): nat {
    if a < b then b else a
  }

  function Last(s: seq<nat>): nat {
    if s == [] then 0 else s[|s| - 1]
  }

  function Next(s: State, step: Step): State {
    match step
    case Commit(a) =>
      if a in s.admins then s
      else s.(commits := s.commits + 1, admins := s.admins[a := Committed(s.commits + 1)])
    case Invalidate(a) =>
      if a in s.admins && s.admins[a].Committed? then
        s.(generation := s.generation + 1,
           admins := s.admins[a := Invalidated(s.admins[a].commit)],
           vouched := s.vouched + [Max(Last(s.vouched), s.admins[a].commit)])
      else s
    case Begin(r, now) =>
      if r in s.readers then s
      else s.(readers := s.readers[r := Started(now)], owed := s.owed[r := Last(s.vouched)])
    case Observe(r) =>
      if r in s.readers && s.readers[r].Started?
      then s.(readers := s.readers[r := Observed(s.readers[r].now, s.generation)]) else s
    case Look(r) =>
      if r in s.readers && s.readers[r].Observed? then
        var Observed(now, generation) := s.readers[r];
        s.(readers := s.readers[r := if Hits(s.entry, generation, now) then Returned(now, s.entry.snapshot)
                                     else Missed(now, generation)])
      else s
    case Load(r) =>
      if r in s.readers && s.readers[r].Missed? then
        var Missed(now, generation) := s.readers[r];
        s.(readers := s.readers[r := Loaded(now, generation, s.commits)])
      else s
    case FailToLoad(r) =>
      if r in s.readers && s.readers[r].Missed?
      then s.(readers := s.readers[r := Failed(s.readers[r].now)]) else s
    case Store(r) =>
      if r in s.readers && s.readers[r].Loaded? then
        var Loaded(now, generation, loaded) := s.readers[r];
        s.(entry := CacheEntry(generation, now, Some(loaded)),
           readers := s.readers[r := Returned(now, Some(loaded))])
      else s
  }

  function StateAt(steps: seq<Step>, i: nat): State
    requires i <= |steps|
  {
    if i == 0 then INITIAL_STATE else Next(StateAt(steps, i - 1), steps[i - 1])
  }

  // ----- Freshness -----

  ghost predicate CacheInv(s: State) {
    && |s.vouched| == s.generation + 1
    && (forall g, h | 0 <= g <= h < |s.vouched| :: s.vouched[g] <= s.vouched[h])
    && Last(s.vouched) <= s.commits
    && (forall a | a in s.admins :: 0 < s.admins[a].commit <= s.commits)
    && (forall a | a in s.admins && s.admins[a].Invalidated? :: s.admins[a].commit <= Last(s.vouched))
    && s.entry.generation <= s.generation
    && (if s.entry.snapshot.None? then s.entry == INITIAL_ENTRY && s.vouched[0] == 0
        else s.vouched[s.entry.generation] <= s.entry.snapshot.value <= s.commits)
  }

  ghost predicate ReaderInv(s: State, reader: Reader, owed: nat)
    requires |s.vouched| == s.generation + 1
  {
    match reader
    case Started(_) => owed <= Last(s.vouched)
    case Observed(_, g) => g <= s.generation && owed <= s.vouched[g]
    case Missed(_, g) => g <= s.generation && owed <= s.vouched[g]
    case Loaded(_, g, v) => g <= s.generation && owed <= s.vouched[g] <= v <= s.commits
    case Failed(_) => true
    case Returned(now, v) => if v.None? then owed == 0 && now <= SANDBOX_CONFIG_CACHE_TTL_MS else owed <= v.value
  }

  ghost predicate Inv(s: State) {
    && CacheInv(s)
    && s.readers.Keys == s.owed.Keys
    && (forall r | r in s.readers :: ReaderInv(s, s.readers[r], s.owed[r]))
  }

  lemma {:induction false} CommitKeepsInv(s: State, a: nat)
    requires Inv(s)
    ensures Inv(Next(s, Commit(a)))
  {
    var next := Next(s, Commit(a));
    forall r | r in next.readers ensures ReaderInv(next, next.readers[r], next.owed[r]) {
      assert ReaderInv(s, s.readers[r], s.owed[r]);
    }
  }

  lemma {:induction false} InvalidateKeepsInv(s: State, a: nat)
    requires Inv(s)
    ensures Inv(Next(s, Invalidate(a)))
  {
    var next := Next(s, Invalidate(a));
    assert forall g | 0 <= g < |s.vouched| :: next.vouched[g] == s.vouched[g];
    forall r | r in next.readers ensures ReaderInv(next, next.readers[r], next.owed[r]) {
      assert ReaderInv(s, s.readers[r], s.owed[r]);
    }
  }

  /** A reader may move on to any standing that fits the shared state. */
  lemma {:induction false} ReaderMoveKeepsInv(s: State, r: nat, reader: Reader)
    requires Inv(s) && r in s.readers && ReaderInv(s, reader, s.owed[r])
    ensures Inv(s.(readers := s.readers[r := reader]))
  {
  }

  lemma {:induction false} BeginKeepsInv(s: State, r: nat, now: int)
    requires Inv(s)
    ensures Inv(Next(s, Begin(r, now)))
  {
    var next := Next(s, Begin(r, now));
    forall q | q in next.readers ensures ReaderInv(next, next.readers[q], next.owed[q]) {
      if q in s.readers {
        assert ReaderInv(s, s.readers[q], s.owed[q]);
      }
    }
  }

  lemma {:induction false} StoreKeepsInv(s: State, r: nat)
    requires Inv(s)
    ensures Inv(Next(s, Store(r)))
  {
    if r in s.readers && s.readers[r].Loaded? {
      var Loaded(now, generation, loaded) := s.readers[r];
      assert ReaderInv(s, s.readers[r], s.owed[r]);
      var mid := s.(entry := CacheEntry(generation, now, Some(loaded)));
      assert CacheInv(mid);
      forall q | q in mid.readers ensures ReaderInv(mid, mid.readers[q], mid.owed[q]) {
        assert ReaderInv(s, s.readers[q], s.owed[q]);
      }
      ReaderMoveKeepsInv(mid, r, Returned(now, Some(loaded)));
    }
  }

  lemma {:induction false} ReaderStepKeepsInv(s: State, step: Step)
    requires Inv(s) && (step.Observe? || step.Look? || step.Load? || step.FailToLoad?)
    ensures Inv(Next(s, step))
  {
    var r := step.reader;
    if r in s.readers {
      assert ReaderInv(s, s.readers[r], s.owed[r]);
      if Next(s, step) != s {
        ReaderMoveKeepsInv(s, r, Next(s, step).readers[r]);
      }
    }
  }

  lemma {:induction false} StepKeepsInv(s: State, step: Step)
    requires Inv(s)
    ensures Inv(Next(s, step))
  {
    match step
    case Commit(a) => CommitKeepsInv(s, a);
    case Invalidate(a) => InvalidateKeepsInv(s, a);
    case Begin(r, now) => BeginKeepsInv(s, r, now);
    case Store(r) => StoreKeepsInv(s, r);
    case _ => ReaderStepKeepsInv(s, step);
  }

  lemma {:induction false} RunKeepsInv(steps: seq<Step>, i: nat)
    requires i <= |steps|
    ensures Inv(StateAt(steps, i))
  {
    if i > 0 {
      RunKeepsInv(steps, i - 1);
      StepKeepsInv(StateAt(steps, i - 1), steps[i - 1]);
    }
  }

  /** What is vouched for never decreases, and a request's debt is fixed when it begins. */
  ghost predicate Grows(s: State, t: State, r: nat) {
    Last(s.vouched) <= Last(t.vouched) && (r in s.owed ==> r in t.owed && t.owed[r] == s.owed[r])
  }

  lemma {:induction false} GrowsTransitive(s: State, t: State, u: State, r: nat)
    requires Grows(s, t, r) && Grows(t, u, r)
    ensures Grows(s, u, r)
  {
  }

  lemma {:induction false} StepOnlyGrows(s: State, step: Step, r: nat)
    requires Inv(s)
    ensures Grows(s, Next(s, step), r)
  {
  }

  lemma {:induction false} NextOnlyGrows(steps: seq<Step>, j: nat, r: nat, s: State, t: State)
    requires j < |steps| && s == StateAt(steps, j) && t == StateAt(steps, j + 1)
    ensures Grows(s, t, r)
  {
    RunKeepsInv(steps, j);
    StepOnlyGrows(s, steps[j], r);
  }

  lemma {:induction false} HistoryOnlyGrows(steps: seq<Step>, i: nat, j: nat, r: nat, s: State, t: State)
    requires i <= j <= |steps| && s == StateAt(steps, i) && t == StateAt(steps, j)
    ensures Grows(s, t, r)
    decreases j
  {
    if i < j {
      var u := StateAt(steps, j - 1);
      HistoryOnlyGrows(steps, i, j - 1, r, s, u);
      NextOnlyGrows(steps, j - 1, r, u, t);
      GrowsTransitive(s, u, t, r);
    }
  }

  lemma {:induction false} InvalidationVouches(steps: seq<Step>, i: nat, a: nat)
    requires i < |steps| && steps[i] == Invalidate(a)
    requires a in StateAt(steps, i).admins && StateAt(steps, i).admins[a].Committed?
    ensures 0 < StateAt(steps, i).admins[a].commit <= Last(StateAt(steps, i + 1).vouched)
  {
    RunKeepsInv(steps, i);
  }

  lemma {:induction false} BeginningOwes(steps: seq<Step>, j: nat, r: nat)
    requires j < |steps| && steps[j].Begin? && steps[j].reader == r && r !in StateAt(steps, j).readers
    ensures r in StateAt(steps, j + 1).owed
    ensures StateAt(steps, j + 1).owed[r] == Last(StateAt(steps, j).vouched)
  {
  }

  lemma {:induction false} ReturnedPays(s: State, r: nat)
    requires Inv(s) && r in s.readers && s.readers[r].Returned?
    ensures if s.readers[r].result.None? then s.owed[r] == 0 && s.readers[r].now <= SANDBOX_CONFIG_CACHE_TTL_MS
            else s.owed[r] <= s.readers[r].result.value
  {
    assert ReaderInv(s, s.readers[r], s.owed[r]);
  }

  lemma {:induction false} FinishedCommitIsVouchedFor(steps: seq<Step>, i: nat, j: nat, a: nat)
    requires i < j <= |steps| && steps[i] == Invalidate(a)
    requires a in StateAt(steps, i).admins && StateAt(steps, i).admins[a].Committed?
    ensures 0 < StateAt(steps, i).admins[a].commit <= Last(StateAt(steps, j).vouched)
  {
    InvalidationVouches(steps, i, a);
    HistoryOnlyGrows(steps, i + 1, j, 0, StateAt(steps, i + 1), StateAt(steps, j));
  }

  lemma {:induction false} DebtIsKept(steps: seq<Step>, j: nat, n: nat, r: nat)
    requires j < n <= |steps|
    requires steps[j].Begin? && steps[j].reader == r && r !in StateAt(steps, j).readers
    ensures r in StateAt(steps, n).owed && StateAt(steps, n).owed[r] == Last(StateAt(steps, j).vouched)
  {
    BeginningOwes(steps, j, r);
    HistoryOnlyGrows(steps, j + 1, n, r, StateAt(steps, j + 1), StateAt(steps, n));
  }

  /**
   A request that begins after an administrator has committed and invalidated returns a snapshot
   with at least that commit, whatever slower readers have written to the cache in between.
   */
  lemma {:induction false} RequestSeesFinishedCommits(steps: seq<Step>, i: nat, j: nat, n: nat, a: nat, r: nat)
    requires i < j < n <= |steps|
    requires steps[i] == Invalidate(a)
    requires a in StateAt(steps, i).admins && StateAt(steps, i).admins[a].Committed?
    requires steps[j].Begin? && steps[j].reader == r && r !in StateAt(steps, j).readers
    requires r in StateAt(steps, n).readers && StateAt(steps, n).readers[r].Returned?
    ensures var result := StateAt(steps, n).readers[r].result;
            result.Some? && StateAt(steps, i).admins[a].commit <= result.value
  {
    FinishedCommitIsVouchedFor(steps, i, j, a);
    DebtIsKept(steps, j, n, r);
    RunKeepsInv(steps, n);
    ReturnedPays(StateAt(steps, n), r);
  }

  /** The empty list that the cache starts with is returned only in the first minute of the epoch. */
  lemma {:induction false} InitialEntryIsReturnedOnlyEarly(steps: seq<Step>, n: nat, r: nat)
    requires n <= |steps| && r in StateAt(steps, n).readers
    requires StateAt(steps, n).readers[r].Returned? && StateAt(steps, n).readers[r].result.None?
    ensures StateAt(steps, n).readers[r].now <= SANDBOX_CONFIG_CACHE_TTL_MS
  {
    RunKeepsInv(steps, n);
    ReturnedPays(StateAt(steps, n), r);
  }

  const SLOW_ADMIN: seq<Step> := [
    Begin(0, 100_000), Observe(0), Look(0), Load(0), Store(0),
    Commit(7), Begin(1, 100_000), Observe(1), Look(1)]

  lemma {:induction false} FirstRequestFillsTheCache()
    ensures StateAt(SLOW_ADMIN, 5) ==
            INITIAL_STATE.(entry := CacheEntry(0, 100_000, Some(0)),
                           readers := map[0 := Returned(100_000, Some(0))], owed := map[0 := 0])
  {
    var s1 := INITIAL_STATE.(readers := map[0 := Started(100_000)], owed := map[0 := 0]);
    assert StateAt(SLOW_ADMIN, 1) == s1 by {
      assert StateAt(SLOW_ADMIN, 0) == INITIAL_STATE;
    }
    var s2 := s1.(readers := map[0 := Observed(100_000, 0)]);
    assert StateAt(SLOW_ADMIN, 2) == s2;
    var s3 := s2.(readers := map[0 := Missed(100_000, 0)]);
    assert StateAt(SLOW_ADMIN, 3) == s3;
    var s4 := s3.(readers := map[0 := Loaded(100_000, 0, 0)]);
    assert StateAt(SLOW_ADMIN, 4) == s4;
  }

  /**
   The guarantee needs the administrator to have finished: between a commit and its invalidation
   a request can still be served from the cache without it.
   */
  lemma {:induction false} UnfinishedCommitMayBeMissed()
    ensures var s := StateAt(SLOW_ADMIN, 9);
            s.commits == 1 && 1 in s.readers && s.readers[1] == Returned(100_000, Some(0))
  {
    FirstRequestFillsTheCache();
    var s5 := StateAt(SLOW_ADMIN, 5);
    var s6 := StateAt(SLOW_ADMIN, 6);
    assert s6 == s5.(commits := 1, admins := map[7 := Committed(1)]);
    var s7 := StateAt(SLOW_ADMIN, 7);
    assert s7 == s6.(readers := s6.readers[1 := Started(100_000)], owed := s6.owed[1 := 0]);
    var s8 := StateAt(SLOW_ADMIN, 8);
    assert s8 == s7.(readers := s7.readers[1 := Observed(100_000, 0)]);
  }

  // ----- The code's sections are the protocol's steps -----

  /** The first steps of a request that nobody interrupts. */
  function Looked(s: State, r: nat, now: int): State {
    Next(Next(Next(s, Begin(r, now)), Observe(r)), Look(r))
  }

  /** All its steps, when the store can be read or not. */
  function Request(s: State, r: nat, now: int, readable: bool): State {
    var looked := Looked(s, r, now);
    if r in looked.readers && looked.readers[r].Missed? then
      if readable then Next(Next(looked, Load(r)), Step.Store(r)) else Next(looked, FailToLoad(r))
    else looked
  }

  lemma {:induction false} LookedCommits(s: State, r: nat, now: int)
    ensures Looked(s, r, now).commits == s.commits
  {
  }

  lemma {:induction false} BeginOwes(s: State, r: nat, now: int)
    requires r !in s.readers
    ensures var t := Next(s, Begin(r, now)); r in t.owed && t.owed[r] == Last(s.vouched)
  {
  }

  lemma {:induction false} StepKeepsDebt(s: State, step: Step, r: nat)
    requires Inv(s) && r in s.owed
    ensures var t := Next(s, step); Inv(t) && r in t.owed && t.owed[r] == s.owed[r]
  {
    StepKeepsInv(s, step);
    StepOnlyGrows(s, step, r);
  }

  /** A request in one go owes what had been vouched for when it began. */
  lemma {:induction false} RequestOwes(s: State, r: nat, now: int, readable: bool)
    requires Inv(s) && r !in s.readers
    ensures var t := Request(s, r, now, readable); Inv(t) && r in t.owed && t.owed[r] == Last(s.vouched)
  {
    BeginKeepsInv(s, r, now);
    BeginOwes(s, r, now);
    var begun := Next(s, Begin(r, now));
    StepKeepsDebt(begun, Observe(r), r);
    var observed := Next(begun, Observe(r));
    StepKeepsDebt(observed, Look(r), r);
    var looked := Next(observed, Look(r));
    StepKeepsDebt(looked, Load(r), r);
    StepKeepsDebt(looked, FailToLoad(r), r);
    StepKeepsDebt(Next(looked, Load(r)), Step.Store(r), r);
  }

  lemma {:induction false} RequestPays(s: State, r: nat, now: int, readable: bool)
    requires Inv(s) && r !in s.readers
    ensures var t := Request(s, r, now, readable);
            r in t.readers && t.readers[r].Returned? && t.readers[r].result.Some? ==>
              Last(s.vouched) <= t.readers[r].result.value
  {
    var t := Request(s, r, now, readable);
    RequestOwes(s, r, now, readable);
    if r in t.readers && t.readers[r].Returned? {
      ReturnedPays(t, r);
    }
  }

  predicate Lacks(result: Option<nat>, commit: nat) {
    result.None? || result.value < commit
  }

  /** A cached snapshot that is current lacks only commits whose administrators have not finished. */
  lemma {:induction false} CurrentEntryLacksOnlyUnfinished(s: State, a: nat)
    requires Inv(s) && a in s.admins && s.entry.generation == s.generation
    requires Lacks(s.entry.snapshot, s.admins[a].commit)
    ensures s.admins[a].Committed?
  {
    assert s.vouched[s.generation] == Last(s.vouched);
  }

  /** What an uninterrupted request comes to. */
  lemma {:induction false} RequestOutcome(s: State, r: nat, now: int, readable: bool)
    requires r !in s.readers
    ensures var t := Request(s, r, now, readable);
            && r in t.readers
            && t.readers[r] ==
               if Hits(s.entry, s.generation, now) then Returned(now, s.entry.snapshot)
               else if readable then Returned(now, Some(s.commits))
               else Failed(now)
  {
    var begun := Next(s, Begin(r, now));
    assert begun.readers[r] == Started(now);
    var observed := Next(begun, Observe(r));
    assert observed.readers[r] == Observed(now, s.generation) && observed.entry == s.entry;
    var looked := Next(observed, Look(r));
    if !Hits(s.entry, s.generation, now) {
      assert looked.readers[r] == Missed(now, s.generation) && looked.commits == s.commits;
      assert Next(looked, Load(r)).readers[r] == Loaded(now, s.generation, s.commits);
    }
  }

  /**
   The cache serves a snapshot of the current generation for a minute, and nothing else; any other
   request returns all that has been committed, or fails if the store cannot be read.
   */
  lemma {:induction false} CacheServesForAMinute(s: State, r: nat, now: int, readable: bool)
    requires r !in s.readers
    ensures var t := Request(s, r, now, readable);
            && r in t.readers
            && t.readers[r] ==
               if s.entry.generation == s.generation && now <= s.entry.cachedAt + 60_000
               then Returned(now, s.entry.snapshot)
               else if readable then Returned(now, Some(s.commits))
               else Failed(now)
  {
    RequestOutcome(s, r, now, readable);
  }

  /**
   An uninterrupted request is served without a commit exactly when it is served from the cache and
   the cached snapshot lacks it; the commit's administrator has then not raised the counter yet.
   */
  lemma {:induction false} RequestMissesOnlyUnfinished(s: State, r: nat, now: int, readable: bool, a: nat)
    requires Inv(s) && r !in s.readers && a in s.admins
    ensures var t := Request(s, r, now, readable);
            var commit := s.admins[a].commit;
            && r in t.readers
            && (t.readers[r].Returned? && Lacks(t.readers[r].result, commit) <==>
                  Hits(s.entry, s.generation, now) && Lacks(s.entry.snapshot, commit))
            && (t.readers[r].Returned? && Lacks(t.readers[r].result, commit) ==> s.admins[a].Committed?)
  {
    RequestOutcome(s, r, now, readable);
    if Hits(s.entry, s.generation, now) && Lacks(s.entry.snapshot, s.admins[a].commit) {
      CurrentEntryLacksOnlyUnfinished(s, a);
    }
  }

  /**
   The shared fields, and beside them the protocol's state that they belong to: each section that
   runs under a lock or on the atomic counter takes exactly one step of the protocol.
   */
  class SharedCache {
    var generation: nat
    var entry: CacheEntry
    ghost var system: State

    ghost predicate Valid()
      reads this
    {
      system.generation == generation && system.entry == entry && Inv(system)
    }

    constructor ()
      ensures Valid() && system == INITIAL_STATE
    {
      generation := 0;
      entry := INITIAL_ENTRY;
      system := INITIAL_STATE;
    }

    method RaiseGeneration(ghost a: nat)
      requires Valid() && a in system.admins && system.admins[a].Committed?
      modifies this
      ensures Valid() && system == Next(old(system), Invalidate(a))
    {
      InvalidateKeepsInv(system, a);
      generation := generation + 1;
      system := Next(system, Invalidate(a));
    }

    /** The store takes a commit; the cache is not touched. */
    method CommitConfigs(saved: bool, ghost a: nat)
      requires Valid() && a !in system.admins
      modifies this`system
      ensures Valid() && system == if saved then Next(old(system), Commit(a)) else old(system)
    {
      if saved {
        CommitKeepsInv(system, a);
        system := Next(system, Commit(a));
      }
    }

    /**
     An administrator's change: a refused commit leaves everything, and after an accepted one the
     cached snapshot is of no more use to anyone, however young it is.
     */
    method ChangeConfigs(saved: bool, ghost a: nat)
      requires Valid() && a !in system.admins
      modifies this
      ensures Valid() && entry == old(entry)
      ensures system == if saved then Next(Next(old(system), Commit(a)), Invalidate(a)) else old(system)
      ensures saved ==> Last(system.vouched) == system.commits == old(system).commits + 1
      ensures saved ==> forall now :: !Hits(entry, generation, now)
    {
      CommitConfigs(saved, a);
      if saved {
        RaiseGeneration(a);
      }
    }

    method ReadGeneration(ghost r: nat) returns (observed: nat)
      requires Valid() && r in system.readers && system.readers[r].Started?
      modifies this`system
      ensures Valid() && system == Next(old(system), Observe(r))
      ensures r in system.readers && system.readers[r] == Observed(old(system).readers[r].now, observed)
    {
      ReaderStepKeepsInv(system, Observe(r));
      observed := generation;
      system := Next(system, Observe(r));
    }

    /** The section under the read lock. */
    method Lookup(observed: nat, now: int, ghost r: nat) returns (hit: Option<Option<nat>>)
      requires Valid() && r in system.readers && system.readers[r] == Observed(now, observed)
      modifies this`system
      ensures Valid() && system == Next(old(system), Look(r)) && r in system.readers
      ensures system.readers[r] == if hit.Some? then Returned(now, hit.value) else Missed(now, observed)
    {
      ReaderStepKeepsInv(system, Look(r));
      system := Next(system, Look(r));
      if entry.generation == observed && now - entry.cachedAt <= SANDBOX_CONFIG_CACHE_TTL_MS {
        return Some(entry.snapshot);
      }
      return None;
    }

    /** The section under the write lock: the entry gets the generation read before the load. */
    method Store(observed: nat, now: int, snapshot: nat, ghost r: nat)
      requires Valid() && r in system.readers && system.readers[r] == Loaded(now, observed, snapshot)
      modifies this
      ensures Valid() && system == Next(old(system), Step.Store(r)) && generation == old(generation)
      ensures r in system.readers && system.readers[r] == Returned(now, Some(snapshot))
    {
      StoreKeepsInv(system, r);
      entry := CacheEntry(observed, now, Some(snapshot));
      system := Next(system, Step.Store(r));
    }

    /** Loading happens outside the cache; it yields what has been committed, or an error. */
    method LoadConfigs(readable: bool, ghost r: nat, commits: nat) returns (loaded: Result<nat, ()>)
      requires Valid() && r in system.readers && system.readers[r].Missed? && commits == system.commits
      modifies this`system
      ensures Valid() && system == Next(old(system), if readable then Load(r) else FailToLoad(r))
      ensures loaded == if readable then Success(commits) else Failure(())
    {
      ReaderStepKeepsInv(system, if readable then Load(r) else FailToLoad(r));
      system := Next(system, if readable then Load(r) else FailToLoad(r));
      return if readable then Success(commits) else Failure(());
    }

    /** The first half of a request: the counter is read, then the cache. */
    method TryCache(now: int, ghost r: nat) returns (observed: nat, hit: Option<Option<nat>>)
      requires Valid() && r !in system.readers
      modifies this`system
      ensures Valid() && system == Looked(old(system), r, now) && r in system.readers
      ensures system.readers[r] == if hit.Some? then Returned(now, hit.value) else Missed(now, observed)
    {
      BeginKeepsInv(system, r, now);
      system := Next(system, Begin(r, now));
      observed := ReadGeneration(r);
      hit := Lookup(observed, now, r);
    }

    /**
     A request in one go runs the protocol's request: it fails only if the store had to be read and
     could not be, and what it returns has every commit that was finished when it began.
     */
    method GetSandboxConfigs(now: int, readable: bool, commits: nat, ghost r: nat)
      returns (reply: Result<Option<nat>, ()>)
      requires Valid() && r !in system.readers && commits == system.commits
      modifies this
      ensures Valid() && system == Request(old(system), r, now, readable) && r in system.readers
      ensures system.readers[r] == if reply.Success? then Returned(now, reply.value) else Failed(now)
      ensures reply.Failure? <==> !readable && !Hits(old(entry), old(generation), now)
      ensures reply.Success? && reply.value.Some? ==> Last(old(system).vouched) <= reply.value.value
    {
      RequestPays(system, r, now, readable);
      RequestOutcome(system, r, now, readable);
      LookedCommits(system, r, now);
      var observed, hit := TryCache(now, r);
      if hit.Some? {
        return Success(hit.value);
      }
      reply := ServeFromStore(observed, now, readable, commits, r);
    }

    /** What a request does once the cache has not helped it. */
    method ServeFromStore(observed: nat, now: int, readable: bool, commits: nat, ghost r: nat)
      returns (reply: Result<Option<nat>, ()>)
      requires Valid() && r in system.readers && system.readers[r] == Missed(now, observed)
      requires commits == system.commits
      modifies this
      ensures Valid() && r in system.readers
      ensures system == if readable then Next(Next(old(system), Load(r)), Step.Store(r))
                        else Next(old(system), FailToLoad(r))
      ensures reply == if readable then Success(Some(commits)) else Failure(())
      ensures system.readers[r] == if readable then Returned(now, Some(commits)) else Failed(now)
    {
      var loaded := LoadConfigs(readable, r, commits);
      if loaded.Failure? {
        return Failure(());
      }
      Store(observed, now, loaded.value, r);
      return Success(Some(loaded.value));
    }
  }
}
