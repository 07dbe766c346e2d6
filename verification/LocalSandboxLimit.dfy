/**
 Where the sandbox limit ends: for which limits, and at which revision, clients that all follow the
 protocol can end up with more active sandboxes than allowed.
 */
module LocalSandboxLimit {
  import opened Prelude
  import opened Roster
  import opened EngineModel
  import opened EngineInvariant
  import opened LocalSandboxAdmin

  /** A system that some run of permitted steps leads to from the start. */
  ghost predicate Reachable(f: Flavour, limit: u32, s: System) {
    exists steps :: PermittedRun(steps) && RunSystem(f, limit, INITIAL_SYSTEM, steps) == s
  }

  predicate PermittedRun(steps: seq<AdminStep>) {
    forall i | 0 <= i < |steps| :: Permitted(steps[i])
  }

  lemma {:induction false} ReachesNext(f: Flavour, limit: u32, s: System, step: AdminStep)
    requires Reachable(f, limit, s) && Permitted(step)
    ensures Reachable(f, limit, Next(f, limit, s, step))
  {
    var steps :| PermittedRun(steps) && RunSystem(f, limit, INITIAL_SYSTEM, steps) == s;
    var more := steps + [step];
    assert more[..|steps|] == steps;
    assert PermittedRun(more) && RunSystem(f, limit, INITIAL_SYSTEM, more) == Next(f, limit, s, step);
  }

  // ----- Saturating the revision -----

  lemma {:induction false} RevisionIsReachable(f: Flavour, limit: u32, n: nat)
    requires n <= U64_MAX
    ensures Reachable(f, limit, System(INITIAL_WORLD.(revision := n), map[]))
  {
    if n == 0 {
      assert PermittedRun([]) && RunSystem(f, limit, INITIAL_SYSTEM, []) == INITIAL_SYSTEM;
    } else {
      RevisionIsReachable(f, limit, n - 1);
      ReachesNext(f, limit, System(INITIAL_WORLD.(revision := n - 1), map[]), Elsewhere(Handle(Touch(n - 1))));
    }
  }

  // ----- Filling the runtime -----

  function Name(n: nat): (name: string)
    ensures |name| == n && forall i | 0 <= i < n :: name[i] == 'x'
  {
    if n == 0 then "" else "x" + Name(n - 1)
  }

  function ConfigOf(n: nat): Config {
    Config(Name(n + 1), "m", Noon, DEFAULT_GHOST_MODE, WeatherNow(0, 20))
  }

  /** At the saturated revision, n sandboxes with short names, started by the first n clients. */
  ghost predicate Crowd(s: System, n: nat) {
    && s.world.revision == U64_MAX && |s.world.sandboxes| == n
    && (forall e | e in s.world.sandboxes :: |e.id| <= n)
    && (forall c | c in s.clients :: c < n)
  }

  lemma {:induction false} SwitchAtSaturation(f: Flavour, w: World, config: Config)
    requires w.revision == U64_MAX && !Has(w.sandboxes, config.id) && !IsBlank(config.id)
    requires config.mapId == "m" && config.timeOfDay == Noon
    ensures var r := SwitchFor(f, w, config, U64_MAX, Built(0));
            && r.Success? && r.value.revision == U64_MAX
            && r.value.sandboxes == w.sandboxes + [Entry(config.id, Session("m", Noon, None))]
  {
    assert !IsWhitespace("m"[0]);
  }

  lemma {:induction false} FreshName(w: World, n: nat, k: nat)
    requires n <= k && forall e | e in w.sandboxes :: |e.id| <= n
    ensures !Has(w.sandboxes, ConfigOf(k).id) && !IsBlank(ConfigOf(k).id)
  {
    assert ConfigOf(k).id[0] == 'x' && !IsWhitespace('x');
  }

  /** A new client reads the saturated state and is cleared as long as there is room. */
  lemma {:induction false} NewcomerIsCleared(f: Flavour, limit: u32, s: System, c: nat) returns (cleared: System)
    requires Reachable(f, limit, s) && c !in s.clients
    requires s.world.revision == U64_MAX && |s.world.sandboxes| < limit && !IsBlank(ConfigOf(c).id)
    ensures Reachable(f, limit, cleared)
    ensures cleared == s.(clients := s.clients[c := Cleared(ConfigOf(c), U64_MAX, s.world)])
  {
    ReachesNext(f, limit, s, Read(c, ConfigOf(c), U64_MAX));
    var read := Next(f, limit, s, Read(c, ConfigOf(c), U64_MAX));
    ReachesNext(f, limit, read, CheckLimit(c));
    cleared := Next(f, limit, read, CheckLimit(c));
  }

  /** Once cleared, a client gets in at the saturated revision, whatever has happened meanwhile. */
  lemma {:induction false} ClearedGetsIn(f: Flavour, limit: u32, s: System, c: nat, seen: World) returns (next: System)
    requires Reachable(f, limit, s) && c in s.clients && s.clients[c] == Cleared(ConfigOf(c), U64_MAX, seen)
    requires s.world.revision == U64_MAX && !Has(s.world.sandboxes, ConfigOf(c).id) && !IsBlank(ConfigOf(c).id)
    ensures Reachable(f, limit, next) && next.clients.Keys == s.clients.Keys
    ensures forall d | d in s.clients && d != c :: next.clients[d] == s.clients[d]
    ensures next.world.revision == U64_MAX
    ensures next.world.sandboxes == s.world.sandboxes + [Entry(ConfigOf(c).id, Session("m", Noon, None))]
  {
    SwitchAtSaturation(f, s.world, ConfigOf(c));
    ReachesNext(f, limit, s, SendSwitch(c, Built(0)));
    next := Next(f, limit, s, SendSwitch(c, Built(0)));
  }

  lemma {:induction false} CrowdGrows(f: Flavour, limit: u32, s: System, n: nat) returns (next: System)
    requires Reachable(f, limit, s) && Crowd(s, n) && n < limit
    ensures Reachable(f, limit, next) && Crowd(next, n + 1)
  {
    FreshName(s.world, n, n);
    var cleared := NewcomerIsCleared(f, limit, s, n);
    next := ClearedGetsIn(f, limit, cleared, n, s.world);
  }

  lemma {:induction false} CrowdIsReachable(f: Flavour, limit: u32, n: nat) returns (s: System)
    requires n <= limit
    ensures Reachable(f, limit, s) && Crowd(s, n)
  {
    if n == 0 {
      RevisionIsReachable(f, limit, U64_MAX);
      s := System(INITIAL_WORLD.(revision := U64_MAX), map[]);
    } else {
      var before := CrowdIsReachable(f, limit, n - 1);
      s := CrowdGrows(f, limit, before, n - 1);
    }
  }

  /** With one place left, two clients are cleared for it and both get in. */
  lemma {:induction false} BothClientsGetIn(f: Flavour, limit: u32) returns (s: System)
    requires 0 < limit
    ensures Reachable(f, limit, s) && |s.world.sandboxes| == limit + 1
  {
    var n: nat := limit - 1;
    var crowd := CrowdIsReachable(f, limit, n);
    FreshName(crowd.world, n, n);
    FreshName(crowd.world, n, n + 1);
    var one := NewcomerIsCleared(f, limit, crowd, n);
    var two := NewcomerIsCleared(f, limit, one, n + 1);
    var three := ClearedGetsIn(f, limit, two, n, crowd.world);
    FreshName(three.world, n + 1, n + 1);
    s := ClearedGetsIn(f, limit, three, n + 1, crowd.world);
  }

  // ----- A limit of zero -----

  ghost predicate NobodyIsCleared(s: System) {
    && s.world.sandboxes == []
    && forall c | c in s.clients ::
         s.clients[c].Finished? || (s.clients[c].HasRead? && s.clients[c].seen.sandboxes == [])
  }

  lemma {:induction false} ZeroKeepsEveryoneOut(f: Flavour, steps: seq<AdminStep>)
    requires PermittedRun(steps)
    ensures NobodyIsCleared(RunSystem(f, 0, INITIAL_SYSTEM, steps))
    decreases |steps|
  {
    if steps != [] {
      var front, step := steps[..|steps| - 1], steps[|steps| - 1];
      var s := RunSystem(f, 0, INITIAL_SYSTEM, front);
      ZeroKeepsEveryoneOut(f, front);
      LimitHoldsInEveryRun(f, 0, front);
      if step.Elsewhere? {
        ElsewhereAddsNoSandbox(f, s.world, step.event);
      }
    }
  }

  /**
   The boundary: some run exceeds the limit if and only if the limit is not zero, and every run
   that does so has saturated the revision.
   */
  lemma {:induction false} LimitBreaksOnlyAtSaturation(f: Flavour, limit: u32)
    ensures (exists s :: Reachable(f, limit, s) && |s.world.sandboxes| > limit) <==> 0 < limit
    ensures forall s :: Reachable(f, limit, s) && |s.world.sandboxes| > limit ==> s.world.revision == U64_MAX
  {
    if 0 < limit {
      var s := BothClientsGetIn(f, limit);
      assert Reachable(f, limit, s) && |s.world.sandboxes| > limit;
    }
    forall s | Reachable(f, limit, s)
      ensures |s.world.sandboxes| > limit ==> 0 < limit && s.world.revision == U64_MAX
    {
      var steps :| PermittedRun(steps) && RunSystem(f, limit, INITIAL_SYSTEM, steps) == s;
      LimitHoldsInEveryRun(f, limit, steps);
      if limit == 0 {
        ZeroKeepsEveryoneOut(f, steps);
      }
    }
  }
}
