/** A scheduled activation for which no engine can be built, and what it holds up. */
module EngineBlocking {
  import opened Prelude
  import opened Roster
  import opened EngineModel
  import opened EngineInvariant
  import opened EngineScheduling

  // ----- The order of the queue -----

  /** Whether p comes before q in a list. */
  ghost predicate Before(s: seq<Pending>, p: Pending, q: Pending) {
    s != [] && ((s[0] == p && q in s[1..]) || Before(s[1..], p, q))
  }

  /** Whether q is due after p: at a later time, or at the same time and farther back in the queue. */
  ghost predicate Behind(s: seq<Pending>, p: Pending, q: Pending) {
    && p in s && q in s
    && p.info.executeAt <= q.info.executeAt
    && (p.info.executeAt == q.info.executeAt ==> Before(s, p, q))
  }

  lemma {:induction false} BeforeAt(s: seq<Pending>, p: Pending, q: Pending) returns (i: nat, j: nat)
    requires Before(s, p, q)
    ensures i < j < |s| && s[i] == p && s[j] == q
  {
    if s[0] == p && q in s[1..] {
      i := 0;
      j :| 1 <= j < |s| && s[j] == q;
    } else {
      i, j := BeforeAt(s[1..], p, q);
      i, j := i + 1, j + 1;
    }
  }

  lemma {:induction false} InAtTime(s: seq<Pending>, p: Pending)
    ensures p in AtTime(s, p.info.executeAt) <==> p in s
  {
    if s != [] {
      InAtTime(s[1..], p);
      assert s == [s[0]] + s[1..];
    }
  }

  lemma {:induction false} BeforeAtTime(s: seq<Pending>, p: Pending, q: Pending)
    requires p.info.executeAt == q.info.executeAt
    ensures Before(AtTime(s, p.info.executeAt), p, q) <==> Before(s, p, q)
  {
    if s != [] {
      BeforeAtTime(s[1..], p, q);
      InAtTime(s[1..], q);
      var t := p.info.executeAt;
      assert ([s[0]] + AtTime(s[1..], t))[1..] == AtTime(s[1..], t);
    }
  }

  lemma {:induction false} BehindInKeep(s: seq<Pending>, p: Pending, q: Pending, gone: set<string>)
    requires p.id !in gone && q.id !in gone
    ensures p in s ==> p in Keep(s, gone)
    ensures q in s ==> q in Keep(s, gone)
    ensures Before(s, p, q) ==> Before(Keep(s, gone), p, q)
  {
    if s != [] {
      BehindInKeep(s[1..], p, q, gone);
      assert s == [s[0]] + s[1..];
      assert ([s[0]] + Keep(s[1..], gone))[1..] == Keep(s[1..], gone);
    }
  }

  lemma {:induction false} BehindInWithout(s: seq<Pending>, p: Pending, q: Pending, id: string)
    requires Behind(s, p, q) && id != p.id && id != q.id
    ensures Behind(Without(s, id), p, q)
  {
    KeepWithout(s, id, {});
    assert {} + {id} == {id};
    KeepAll(Without(s, id));
    BehindInKeep(s, p, q, {id});
  }

  lemma {:induction false} BeforeInUpsert(s: seq<Pending>, p: Pending, q: Pending, e: Pending)
    requires e.id != p.id && e.id != q.id
    ensures p in s ==> p in Upsert(s, e)
    ensures q in s ==> q in Upsert(s, e)
    ensures Before(s, p, q) ==> Before(Upsert(s, e), p, q)
  {
    if s != [] {
      assert s == [s[0]] + s[1..];
      if s[0].id == e.id {
        assert ([e] + s[1..])[1..] == s[1..];
      } else {
        BeforeInUpsert(s[1..], p, q, e);
        assert ([s[0]] + Upsert(s[1..], e))[1..] == Upsert(s[1..], e);
      }
    }
  }

  lemma {:induction false} SamePlace(s: seq<Pending>, i: nat, j: nat)
    requires Distinct(s) && i < |s| && j < |s| && s[i].id == s[j].id
    ensures i == j
  {
  }

  /** In the due list, whatever is behind p comes after it. */
  lemma {:induction false} DueAfter(s: seq<Pending>, now: int, p: Pending, q: Pending, i: nat, j: nat)
    requires Distinct(s) && Behind(s, p, q)
    requires i < |Due(s, now)| && Due(s, now)[i] == p && j < |Due(s, now)| && Due(s, now)[j] == q
    ensures i < j
  {
    DueIsTheQueueByTime(s, now);
    var due, t := Due(s, now), p.info.executeAt;
    if q.info.executeAt == t {
      assert due[i] in due;
      BeforeAtTime(s, p, q);
      assert AtTime(due, t) == AtTime(s, t);
      BeforeAtTime(due, p, q);
      var i', j' := BeforeAt(due, p, q);
      SamePlace(due, i, i');
      SamePlace(due, j, j');
    }
  }

  // ----- An activation that can never fire -----

  ghost predicate Unbuildable(f: Flavour, p: Pending) {
    p.info.activate && !(p.info.mapId.Some? && IsValidMapId(f, p.info.mapId.value))
  }

  /** What a pass takes off the queue are entries that could be fired. */
  lemma {:induction false} PassTakesFireable(f: Flavour, w: World, now: int, builds: seq<Build>)
    requires Inv(w)
    ensures var due, r := Due(w.pending, now), FireDue(f, w, now, builds);
            && r.fired <= |due|
            && r.world.pending == Keep(w.pending, IdsBetween(due, 0, r.fired))
            && forall j | 0 <= j < r.fired :: due[j] in w.pending && CanFire(f, due[j], builds, j)
  {
    FiringExecutesAPrefix(f, w, now, builds);
    DueIsTheQueueByTime(w.pending, now);
    var due := Due(w.pending, now);
    forall j | 0 <= j < |due| ensures due[j] in w.pending {
      assert due[j] in due;
    }
  }

  lemma {:induction false} PassLacks(f: Flavour, w: World, p: Pending, q: Pending, now: int, builds: seq<Build>, j: nat)
    requires Inv(w) && Unbuildable(f, p) && Behind(w.pending, p, q)
    requires j < FireDue(f, w, now, builds).fired <= |Due(w.pending, now)|
    ensures Due(w.pending, now)[j].id != p.id && Due(w.pending, now)[j].id != q.id
  {
    PassTakesFireable(f, w, now, builds);
    DueIsTheQueueByTime(w.pending, now);
    var due := Due(w.pending, now);
    assert due[j] in due;
    if due[j].id == p.id {
      SameEntry(w.pending, due[j], p);
    }
    if due[j].id == q.id {
      SameEntry(w.pending, due[j], q);
      assert p in due;
      var i :| 0 <= i < |due| && due[i] == p;
      DueAfter(w.pending, now, p, q, i, j);
    }
  }

  lemma {:induction false} SameEntry(s: seq<Pending>, p: Pending, q: Pending)
    requires Distinct(s) && p in s && q in s && p.id == q.id
    ensures p == q
  {
  }

  /** A pass stops before such an activation, so it does not come to what is behind it. */
  lemma {:induction false} PassKeepsBehind(
    f: Flavour, w: World, p: Pending, q: Pending, now: int, builds: seq<Build>)
    requires Inv(w) && Unbuildable(f, p) && Behind(w.pending, p, q)
    ensures Behind(FireDue(f, w, now, builds).world.pending, p, q)
  {
    PassTakesFireable(f, w, now, builds);
    var due, r := Due(w.pending, now), FireDue(f, w, now, builds);
    forall j | 0 <= j < r.fired ensures due[j].id != p.id && due[j].id != q.id {
      PassLacks(f, w, p, q, now, builds, j);
    }
    BehindInKeep(w.pending, p, q, IdsBetween(due, 0, r.fired));
  }

  /** The commands that touch what is queued for a sandbox. */
  predicate Requeues(c: Command, id: string) {
    match c
    case Switch(_, kind, _, sandboxId, _, _, _) => kind == Sandbox && sandboxId == Some(id)
    case Schedule(_, entry) => entry.id == id
    case Cancel(_, x) => x == id
    case Deactivate(_, x) => x == id
    case _ => false
  }

  /** The queue after an accepted command. */
  function QueueAfter(s: seq<Pending>, c: Command): seq<Pending> {
    match c
    case Switch(_, kind, _, sandboxId, _, _, _) =>
      if kind == Sandbox && sandboxId.Some? then Without(s, sandboxId.value) else s
    case Schedule(_, entry) => Upsert(s, entry)
    case Cancel(_, id) => Without(s, id)
    case Deactivate(_, id) => Without(s, id)
    case _ => s
  }

  lemma {:induction false} CommandOnQueue(f: Flavour, w: World, c: Command)
    ensures Apply(f, w, c).Success? ==> Apply(f, w, c).value.pending == QueueAfter(w.pending, c)
  {
    if c.Cancel? {
      WithoutAbsent(w.pending, c.id);
    }
  }

  lemma {:induction false} QueueAfterKeepsBehind(s: seq<Pending>, p: Pending, q: Pending, c: Command)
    requires Behind(s, p, q) && !Requeues(c, p.id) && !Requeues(c, q.id)
    ensures Behind(QueueAfter(s, c), p, q)
  {
    match c
    case Switch(_, kind, _, sandboxId, _, _, _) =>
      if kind == Sandbox && sandboxId.Some? {
        BehindInWithout(s, p, q, sandboxId.value);
      }
    case Schedule(_, entry) => BeforeInUpsert(s, p, q, entry);
    case Cancel(_, id) => BehindInWithout(s, p, q, id);
    case Deactivate(_, id) => BehindInWithout(s, p, q, id);
    case _ =>
  }

  predicate LeavesQueued(e: Event, id: string) {
    e.Handle? ==> !Requeues(e.command, id)
  }

  /**
   An activation that cannot be built holds up everything behind it, wherever it stands in the queue:
   whatever passes and commands follow, neither it nor an entry behind it leaves the queue or their
   order, unless a command is about one of their two sandboxes.
   */
  lemma {:induction false} UnbuildableHoldsUpTheRest(
    f: Flavour, w: World, p: Pending, q: Pending, events: seq<Event>)
    requires Inv(w) && Unbuildable(f, p) && Behind(w.pending, p, q)
    requires forall i | 0 <= i < |events| :: LeavesQueued(events[i], p.id) && LeavesQueued(events[i], q.id)
    ensures Inv(Run(f, w, events)) && Behind(Run(f, w, events).pending, p, q)
    decreases |events|
  {
    if events != [] {
      var before, last := events[..|events| - 1], events[|events| - 1];
      UnbuildableHoldsUpTheRest(f, w, p, q, before);
      var u := Run(f, w, before);
      StepKeepsInv(f, u, last);
      match last
      case Handle(c) =>
        CommandOnQueue(f, u, c);
        QueueAfterKeepsBehind(u.pending, p, q, c);
      case Tick(now, builds) => PassKeepsBehind(f, u, p, q, now, builds);
    }
  }

  /** Such an activation in front of the whole queue. */
  ghost predicate Poisoned(f: Flavour, w: World, p: Pending) {
    && p in w.pending && Unbuildable(f, p)
    && forall q | q in w.pending && q != p :: Behind(w.pending, p, q)
  }

  lemma {:induction false} PoisonedIsDueFirst(f: Flavour, w: World, p: Pending, now: int)
    requires Inv(w) && Poisoned(f, w, p) && Due(w.pending, now) != []
    ensures Due(w.pending, now)[0] == p
  {
    DueIsTheQueueByTime(w.pending, now);
    var due := Due(w.pending, now);
    var first := due[0];
    assert first in due;
    if first != p {
      assert Behind(w.pending, p, first);
      assert p in due;
      var i :| 0 <= i < |due| && due[i] == p;
      DueAfter(w.pending, now, p, first, i, 0);
    }
  }

  /** Once such an entry is in front, firing passes change nothing, whatever else is due. */
  lemma {:induction false} PoisonedHeadBlocksPass(f: Flavour, w: World, p: Pending, now: int, builds: seq<Build>)
    requires Inv(w) && Poisoned(f, w, p)
    ensures FireDue(f, w, now, builds).world == w
  {
    if Due(w.pending, now) != [] {
      PoisonedIsDueFirst(f, w, p, now);
      FireOneExact(f, w, p, BuildAt(builds, 0));
    }
  }

  lemma {:induction false} PoisonedHeadBlocksForever(f: Flavour, w: World, p: Pending, ticks: seq<Event>)
    requires Inv(w) && Poisoned(f, w, p)
    requires forall i | 0 <= i < |ticks| :: ticks[i].Tick?
    ensures Run(f, w, ticks) == w
    decreases |ticks|
  {
    if ticks != [] {
      PoisonedHeadBlocksForever(f, w, p, ticks[..|ticks| - 1]);
      var last := ticks[|ticks| - 1];
      PoisonedHeadBlocksPass(f, w, p, last.now, last.builds);
    }
  }

  // ----- Which stored map ids lead there -----

  /** What the configuration service asks of a map id; it stores the id as it was sent, untrimmed. */
  predicate AcceptsMapId(mapId: string) {
    var trimmed := Trim(mapId);
    trimmed != "" && forall i | 0 <= i < |trimmed| :: IsMapIdChar(Relaxed, trimmed[i])
  }

  /**
   Of the ids that the configuration service accepts, the worker can build exactly those that carry
   no surrounding blanks and, in the official build, neither a hyphen nor an underscore.
   */
  lemma {:induction false} BuildableMapIds(f: Flavour, mapId: string)
    ensures IsValidMapId(f, mapId) <==>
            && AcceptsMapId(mapId) && Trim(mapId) == mapId
            && (f.Strict? ==> forall i | 0 <= i < |mapId| :: mapId[i] != '-' && mapId[i] != '_')
  {
    TrimOfBlank(mapId);
    if IsValidMapId(f, mapId) {
      assert mapId != "";
      assert IsMapIdChar(f, mapId[0]) && IsMapIdChar(f, mapId[|mapId| - 1]);
      assert Trim(mapId) == mapId;
    }
  }

  /** In the official build, a map id with a hyphen is stored but can never be built. */
  lemma {:induction false} HyphenatedMapIdIsStranded()
    ensures AcceptsMapId("a-b") && !IsValidMapId(Strict, "a-b")
  {
    assert "a-b"[1] == '-';
    assert Trim("a-b") == "a-b";
  }

  /**
   Every id that is stored but cannot be built makes such a queue reachable: the handler schedules
   the stored id, and the worker only asks that it is not blank.
   */
  lemma {:induction false} PoisonedHeadIsReachable(f: Flavour, mapId: string)
    requires AcceptsMapId(mapId) && !IsValidMapId(f, mapId)
    ensures exists events, p ::
              && Inv(Run(f, INITIAL_WORLD, events))
              && Poisoned(f, Run(f, INITIAL_WORLD, events), p) && p.info.mapId == Some(mapId)
  {
    TrimOfBlank(mapId);
    var p := Entry("s", Scheduled(true, 5, Some(mapId), Some(Noon), Some(DEFAULT_GHOST_MODE)));
    var events := [Handle(Schedule(0, p))];
    assert !IsWhitespace("s"[0]);
    assert events[..0] == [];
    assert Run(f, INITIAL_WORLD, []) == INITIAL_WORLD;
    RunKeepsInv(f, events);
    var w := Run(f, INITIAL_WORLD, events);
    assert w == Step(f, INITIAL_WORLD, events[0]);
    assert w.pending == [p];
    assert Poisoned(f, w, p);
  }
}
