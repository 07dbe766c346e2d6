/**
 Local sandbox activation as a client of the engine worker: read the runtime state, check the
 limit, send a compare-and-swap switch, apply the weather, and roll back when that fails. Between
 any two of these steps the worker may serve other clients and fire schedules.
 */
module LocalSandboxAdmin {
  import opened Prelude
  import opened Roster
  import opened EngineModel
  import opened EngineInvariant
  import opened EngineScheduling
  import opened EngineRevision
  import opened EngineWorker

  /** The stored configuration of the sandbox to activate. */
  datatype Config = Config(id: string, mapId: string, timeOfDay: TimeOfDay, ghostMode: GhostMode, weather: WeatherNow)

  /**
   Where a request stands. `seen` is the reply to its read, `after` the reply to its switch; a
   client sees only the metadata of either.
   */
  datatype Client =
    | HasRead(config: Config, expected: u64, seen: World)
    | Cleared(config: Config, expected: u64, seen: World)
    | Activated(config: Config, seen: World, after: World)
    | WeatherFailed(config: Config, seen: World, after: World)
    | Finished(ok: bool)

  datatype System = System(world: World, clients: map<nat, Client>)

  datatype AdminStep =
    | Read(client: nat, config: Config, expected: u64)
    | CheckLimit(client: nat)
    | SendSwitch(client: nat, build: Build)
    | SendWeather(client: nat, accepted: bool)
    | SendRollback(client: nat)
    | Elsewhere(event: Event)

  /** `len() as u32 >= max_active_sandboxes`, with the cast's wrap-around. */
  predicate LimitReached(seen: World, limit: u32) {
    |seen.sandboxes| % 0x1_0000_0000 >= limit
  }

  function CheckedClient(client: Client, limit: u32): Client
    requires client.HasRead?
  {
    var HasRead(config, expected, seen) := client;
    if seen.revision != expected then Finished(false)
    else if !Has(seen.sandboxes, config.id) && LimitReached(seen, limit) then Finished(false)
    else Cleared(config, expected, seen)
  }

  function SwitchCommand(config: Config, expected: u64, build: Build): Command {
    Switch(expected, Sandbox, config.mapId, Some(config.id), Some(config.timeOfDay),
           Some(config.ghostMode), build)
  }

  function SwitchFor(f: Flavour, w: World, config: Config, expected: u64, build: Build): Result<World, WorkerError> {
    Apply(f, w, SwitchCommand(config, expected, build))
  }

  function WeatherCommand(config: Config, accepted: bool): Command {
    Weather(config.id, config.weather, accepted)
  }

  function Next(f: Flavour, limit: u32, s: System, step: AdminStep): System {
    match step
    case Read(c, config, expected) =>
      if c in s.clients || IsBlank(config.id) then s
      else s.(clients := s.clients[c := HasRead(config, expected, s.world)])
    case CheckLimit(c) =>
      if c in s.clients && s.clients[c].HasRead?
      then s.(clients := s.clients[c := CheckedClient(s.clients[c], limit)]) else s
    case SendSwitch(c, build) =>
      if c in s.clients && s.clients[c].Cleared? then
        var Cleared(config, expected, seen) := s.clients[c];
        var r := SwitchFor(f, s.world, config, expected, build);
        System(Step(f, s.world, Handle(SwitchCommand(config, expected, build))),
               s.clients[c := if r.Success? then Activated(config, seen, r.value) else Finished(false)])
      else s
    case SendWeather(c, accepted) =>
      if c in s.clients && s.clients[c].Activated? then
        var Activated(config, seen, after) := s.clients[c];
        var r := Apply(f, s.world, WeatherCommand(config, accepted));
        System(Step(f, s.world, Handle(WeatherCommand(config, accepted))),
               s.clients[c := if r.Success? then Finished(true) else WeatherFailed(config, seen, after)])
      else s
    case SendRollback(c) =>
      if c in s.clients && s.clients[c].WeatherFailed? then
        var WeatherFailed(config, seen, after) := s.clients[c];
        System(Step(f, s.world, Handle(Deactivate(after.revision, config.id))),
               s.clients[c := Finished(false)])
      else s
    case Elsewhere(event) => s.(world := Step(f, s.world, event))
  }

  function RunSystem(f: Flavour, limit: u32, s: System, steps: seq<AdminStep>): System {
    if steps == [] then s
    else Next(f, limit, RunSystem(f, limit, s, steps[..|steps| - 1]), steps[|steps| - 1])
  }

  /** In the local backend, sandboxes are activated only by the steps above. */
  predicate ActivatesNoSandbox(e: Event) {
    e.Handle? ==>
      && (e.command.Switch? ==> e.command.kind != Sandbox)
      && (e.command.Schedule? ==> !e.command.entry.info.activate)
  }

  predicate Permitted(step: AdminStep) {
    step.Elsewhere? ==> ActivatesNoSandbox(step.event)
  }

  // ----- The limit -----

  ghost predicate NoActivationQueued(w: World) {
    forall p | p in w.pending :: !p.info.activate
  }

  ghost predicate WithinLimit(w: World, limit: u32) {
    w.revision < U64_MAX ==> |w.sandboxes| <= limit
  }

  ghost predicate ClientInv(limit: u32, w: World, client: Client) {
    match client
    case HasRead(config, expected, seen) => Follows(seen, w) && WithinLimit(seen, limit)
    case Cleared(config, expected, seen) =>
      && Follows(seen, w) && seen.revision == expected
      && (seen.revision < U64_MAX ==> Has(seen.sandboxes, config.id) || |seen.sandboxes| < limit)
    case Activated(config, seen, after) => Follows(after, w) && Extends(seen, after, config)
    case WeatherFailed(config, seen, after) => Follows(after, w) && Extends(seen, after, config)
    case Finished(_) => true
  }

  /** The switch added the client's sandbox to the ones it had seen. */
  ghost predicate Extends(seen: World, after: World, config: Config) {
    after.revision < U64_MAX ==>
      && !Has(seen.sandboxes, config.id)
      && HideAllWeather(after.sandboxes) ==
         HideAllWeather(seen.sandboxes) + [Entry(config.id, Session(config.mapId, config.timeOfDay, None))]
  }

  ghost predicate SystemInv(limit: u32, s: System) {
    && Inv(s.world)
    && NoActivationQueued(s.world)
    && WithinLimit(s.world, limit)
    && forall c | c in s.clients :: ClientInv(limit, s.world, s.clients[c])
  }

  /** What the clients remember stays true while the worker moves on. */
  lemma {:induction false} ClientInvFollows(limit: u32, w: World, next: World, client: Client)
    requires ClientInv(limit, w, client) && Follows(w, next)
    ensures ClientInv(limit, next, client)
  {
  }

  lemma {:induction false} DeactivationAddsNoSandbox(w: World, expected: u64, id: string)
    requires NoActivationQueued(w)
    ensures var r := DeactivateSandbox(w, expected, id);
            r.Success? ==> |r.value.sandboxes| <= |w.sandboxes| && NoActivationQueued(r.value)
  {
    WithoutIn(w.sandboxes, id);
    WithoutIn(w.pending, id);
  }

  lemma {:induction false} QueueingAddsNoSandbox(w: World, expected: u64, entry: Pending, id: string)
    requires Inv(w) && NoActivationQueued(w)
    ensures var r := SetPending(w, expected, entry);
            r.Success? && !entry.info.activate ==> r.value.sandboxes == w.sandboxes && NoActivationQueued(r.value)
    ensures var r := CancelPending(w, expected, id);
            r.Success? ==> r.value.sandboxes == w.sandboxes && NoActivationQueued(r.value)
  {
    UpsertIn(w.pending, entry);
    WithoutIn(w.pending, id);
  }

  /** Only an activation can lengthen the list of active sandboxes. */
  lemma {:induction false} OthersAddNoSandbox(f: Flavour, w: World, c: Command)
    requires Inv(w) && NoActivationQueued(w) && ActivatesNoSandbox(Handle(c))
    ensures var r := Apply(f, w, c);
            r.Success? ==> |r.value.sandboxes| <= |w.sandboxes| && NoActivationQueued(r.value)
  {
    if c.Deactivate? {
      DeactivationAddsNoSandbox(w, c.expected, c.id);
    } else if c.Schedule? {
      QueueingAddsNoSandbox(w, c.expected, c.entry, c.entry.id);
    } else if c.Cancel? {
      QueueingAddsNoSandbox(w, c.expected, Entry(c.id, Scheduled(false, 0, None, None, None)), c.id);
    } else if Apply(f, w, c).Success? {
      assert Apply(f, w, c).value.pending == w.pending;
    }
  }

  lemma {:induction false} FiringAddsNoSandbox(f: Flavour, w: World, due: seq<Pending>, builds: seq<Build>, i: nat)
    requires i <= |due| && NoActivationQueued(w)
    requires forall j | i <= j < |due| :: !due[j].info.activate
    ensures var next := FireFrom(f, w, due, builds, i).world;
            |next.sandboxes| <= |w.sandboxes| && NoActivationQueued(next)
    decreases |due| - i
  {
    if i < |due| {
      var one := FireOne(f, w, due[i], BuildAt(builds, i));
      if one.Success? {
        DeactivationAddsNoSandbox(w, w.revision, due[i].id);
        WithoutIn(Without(w.pending, due[i].id), due[i].id);
        FiringAddsNoSandbox(f, one.value, due, builds, i + 1);
      }
    }
  }

  lemma {:induction false} ElsewhereAddsNoSandbox(f: Flavour, w: World, e: Event)
    requires Inv(w) && NoActivationQueued(w) && ActivatesNoSandbox(e)
    ensures |Step(f, w, e).sandboxes| <= |w.sandboxes| && NoActivationQueued(Step(f, w, e))
  {
    match e
    case Handle(c) => OthersAddNoSandbox(f, w, c);
    case Tick(now, builds) =>
      DueIsTheQueueByTime(w.pending, now);
      var due := Due(w.pending, now);
      forall j | 0 <= j < |due| ensures !due[j].info.activate {
        assert due[j] in due;
      }
      FiringAddsNoSandbox(f, w, due, builds, 0);
  }

  /** A worker step that respects the limit keeps the system invariant for every client. */
  lemma {:induction false} WorldStepKeeps(limit: u32, s: System, next: World)
    requires SystemInv(limit, s)
    requires Inv(next) && NoActivationQueued(next) && WithinLimit(next, limit) && Follows(s.world, next)
    ensures SystemInv(limit, s.(world := next))
  {
    forall c | c in s.clients ensures ClientInv(limit, next, s.clients[c]) {
      ClientInvFollows(limit, s.world, next, s.clients[c]);
    }
  }

  lemma {:induction false} SwitchAppends(f: Flavour, w: World, config: Config, expected: u64, build: Build)
    requires SwitchFor(f, w, config, expected, build).Success?
    ensures var next := SwitchFor(f, w, config, expected, build).value;
            && w.revision == expected && !Has(w.sandboxes, config.id)
            && next.pending == Without(w.pending, config.id)
            && next.sandboxes ==
               w.sandboxes + [Entry(config.id, Session(config.mapId, config.timeOfDay, None))]
  {
  }

  lemma {:induction false} AppendedExtends(seen: World, w: World, next: World, config: Config)
    requires MetadataOf(w) == MetadataOf(seen) && !Has(w.sandboxes, config.id)
    requires next.sandboxes == w.sandboxes + [Entry(config.id, Session(config.mapId, config.timeOfDay, None))]
    ensures |seen.sandboxes| == |w.sandboxes| && Extends(seen, next, config)
    ensures !Has(seen.sandboxes, config.id)
  {
    SameSandboxIds(seen.sandboxes, w.sandboxes);
    var added := Entry(config.id, Session(config.mapId, config.timeOfDay, None));
    assert HideAllWeather(w.sandboxes + [added]) == HideAllWeather(w.sandboxes) + [added];
  }

  /** An accepted switch acts on the sandboxes the client counted. */
  lemma {:induction false} AcceptedSwitch(f: Flavour, limit: u32, w: World, client: Client, build: Build)
    requires Inv(w) && NoActivationQueued(w) && client.Cleared? && ClientInv(limit, w, client)
    requires SwitchFor(f, w, client.config, client.expected, build).Success?
    ensures var next := SwitchFor(f, w, client.config, client.expected, build).value;
            && Inv(next) && NoActivationQueued(next) && Follows(w, next)
            && WithinLimit(next, limit) && Extends(client.seen, next, client.config)
  {
    var Cleared(config, expected, seen) := client;
    var next := SwitchFor(f, w, config, expected, build).value;
    SwitchKeepsInv(f, w, expected, Sandbox, config.mapId, Some(config.id), config.timeOfDay,
                   Some(config.ghostMode), build);
    SwitchAppends(f, w, config, expected, build);
    WithoutIn(w.pending, config.id);
    if next.revision < U64_MAX {
      AppendedExtends(seen, w, next, config);
    }
  }

  lemma {:induction false} SendSwitchKeepsInv(f: Flavour, limit: u32, s: System, c: nat, build: Build)
    requires SystemInv(limit, s)
    ensures SystemInv(limit, Next(f, limit, s, SendSwitch(c, build)))
  {
    if c in s.clients && s.clients[c].Cleared? {
      var client := s.clients[c];
      assert ClientInv(limit, s.world, client);
      var r := SwitchFor(f, s.world, client.config, client.expected, build);
      if r.Success? {
        AcceptedSwitch(f, limit, s.world, client, build);
        WorldStepKeeps(limit, s, r.value);
      }
    }
  }

  lemma {:induction false} CheckLimitKeepsInv(f: Flavour, limit: u32, s: System, c: nat)
    requires SystemInv(limit, s)
    ensures SystemInv(limit, Next(f, limit, s, CheckLimit(c)))
  {
    if c in s.clients && s.clients[c].HasRead? {
      assert ClientInv(limit, s.world, s.clients[c]);
      assert ClientInv(limit, s.world, CheckedClient(s.clients[c], limit));
    }
  }

  lemma {:induction false} NextKeepsInv(f: Flavour, limit: u32, s: System, step: AdminStep)
    requires SystemInv(limit, s) && Permitted(step)
    ensures SystemInv(limit, Next(f, limit, s, step))
  {
    match step
    case Read(_, _, _) =>
    case CheckLimit(c) => CheckLimitKeepsInv(f, limit, s, c);
    case SendSwitch(c, build) => SendSwitchKeepsInv(f, limit, s, c, build);
    case SendWeather(c, accepted) => SendWeatherKeepsInv(f, limit, s, c, accepted);
    case SendRollback(c) => SendRollbackKeepsInv(f, limit, s, c);
    case Elsewhere(event) => ElsewhereKeepsInv(f, limit, s, event);
  }

  /** A client may move on to any standing that fits the world. */
  lemma {:induction false} ClientMoveKeeps(limit: u32, s: System, c: nat, client: Client)
    requires SystemInv(limit, s) && ClientInv(limit, s.world, client)
    ensures SystemInv(limit, s.(clients := s.clients[c := client]))
  {
  }

  lemma {:induction false} SendWeatherKeepsInv(f: Flavour, limit: u32, s: System, c: nat, accepted: bool)
    requires SystemInv(limit, s)
    ensures SystemInv(limit, Next(f, limit, s, SendWeather(c, accepted)))
  {
    if c in s.clients && s.clients[c].Activated? {
      var Activated(config, seen, after) := s.clients[c];
      var e := Handle(WeatherCommand(config, accepted));
      ElsewhereKeepsInv(f, limit, s, e);
      var mid := s.(world := Step(f, s.world, e));
      assert ClientInv(limit, mid.world, mid.clients[c]);
      ClientMoveKeeps(limit, mid, c, WeatherFailed(config, seen, after));
      ClientMoveKeeps(limit, mid, c, Finished(true));
    }
  }

  lemma {:induction false} SendRollbackKeepsInv(f: Flavour, limit: u32, s: System, c: nat)
    requires SystemInv(limit, s)
    ensures SystemInv(limit, Next(f, limit, s, SendRollback(c)))
  {
    if c in s.clients && s.clients[c].WeatherFailed? {
      ElsewhereKeepsInv(f, limit, s, Handle(Deactivate(s.clients[c].after.revision, s.clients[c].config.id)));
    }
  }

  lemma {:induction false} ElsewhereKeepsInv(f: Flavour, limit: u32, s: System, e: Event)
    requires SystemInv(limit, s) && ActivatesNoSandbox(e)
    ensures SystemInv(limit, s.(world := Step(f, s.world, e)))
  {
    StepKeepsInv(f, s.world, e);
    StepFollows(f, s.world, e);
    ElsewhereAddsNoSandbox(f, s.world, e);
    WorldStepKeeps(limit, s, Step(f, s.world, e));
  }

  const INITIAL_SYSTEM := System(INITIAL_WORLD, map[])

  /**
   However many clients interleave their steps, with each other and with everything else that the
   local backend sends, the active sandboxes stay within the limit while the revision counts.
   */
  lemma {:induction false} LimitHoldsInEveryRun(f: Flavour, limit: u32, steps: seq<AdminStep>)
    requires forall i | 0 <= i < |steps| :: Permitted(steps[i])
    ensures SystemInv(limit, RunSystem(f, limit, INITIAL_SYSTEM, steps))
    ensures var w := RunSystem(f, limit, INITIAL_SYSTEM, steps).world;
            w.revision < U64_MAX ==> |w.sandboxes| <= limit
    decreases |steps|
  {
    if steps != [] {
      LimitHoldsInEveryRun(f, limit, steps[..|steps| - 1]);
      NextKeepsInv(f, limit, RunSystem(f, limit, INITIAL_SYSTEM, steps[..|steps| - 1]), steps[|steps| - 1]);
    }
  }

  // ----- Rolling back -----

  /** Up to the weather, taking away the last sandbox is taking away the one with its id. */
  lemma {:induction false} LastSandboxGoes(now: seq<Entry<Session>>, seen: seq<Entry<Session>>, last: Entry<Session>)
    requires Distinct(now) && HideAllWeather(now) == HideAllWeather(seen) + [last]
    ensures HideAllWeather(Without(now, last.id)) == HideAllWeather(seen)
  {
    var n := |seen|;
    var hidden := HideAllWeather(now);
    assert |now| == |hidden| == n + 1;
    assert hidden[n] == HideWeather(now[n]) && now[n].id == last.id;
    WithoutAt(now, n);
    assert now[n + 1..] == [];
    assert HideAllWeather(now[..n]) == hidden[..n];
  }

  /** A rollback that the worker accepts leaves exactly the sandboxes the client had seen. */
  lemma {:induction false} RollbackRestoresTheSandboxesSeen(f: Flavour, limit: u32, s: System, c: nat)
    requires SystemInv(limit, s) && c in s.clients && s.clients[c].WeatherFailed?
    requires s.clients[c].after.revision < U64_MAX
    requires DeactivateSandbox(s.world, s.clients[c].after.revision, s.clients[c].config.id).Success?
    ensures var next := Next(f, limit, s, SendRollback(c)).world;
            HideAllWeather(next.sandboxes) == HideAllWeather(s.clients[c].seen.sandboxes)
  {
    var WeatherFailed(config, seen, after) := s.clients[c];
    assert MetadataOf(s.world) == MetadataOf(after);
    LastSandboxGoes(s.world.sandboxes, seen.sandboxes,
                    Entry(config.id, Session(config.mapId, config.timeOfDay, None)));
  }

  // ----- The handler, when nothing else interferes -----

  class Admin {
    const worker: Worker
    const limit: u32
    /** When each local sandbox was started. */
    var startedAt: map<string, int>

    constructor (worker: Worker, limit: u32)
      ensures this.worker == worker && this.limit == limit && startedAt == map[]
    {
      this.worker := worker;
      this.limit := limit;
      startedAt := map[];
    }

    /** What the switch needs beside the revision and a free id. */
    predicate Startable(config: Config, build: Build) {
      config.timeOfDay != Unspecified && IsValidMapId(worker.flavour, config.mapId) && build.Built?
    }

    /**
     Activation on an otherwise idle worker succeeds exactly if the revision matches, the sandbox is
     not active, there is room, its engine can be built and takes the weather. Then there is one more
     sandbox, showing the configured weather; otherwise the list of sandboxes is as it was.
     */
    method Activate(config: Config, expected: u64, build: Build, weatherAccepted: bool, now: int)
      returns (ok: bool)
      requires worker.Valid() && !IsBlank(config.id) && |worker.sandboxes| <= limit
      modifies this, worker
      ensures worker.Valid() && |worker.sandboxes| <= limit
      ensures ok <==>
              && expected == old(worker.revision) && !Has(old(worker.sandboxes), config.id)
              && |old(worker.sandboxes)| < limit && Startable(config, build) && weatherAccepted
      ensures worker.sandboxes == if ok then old(worker.sandboxes) + [Running(config)] else old(worker.sandboxes)
      ensures ok ==>
                && config.id in worker.sandboxEngines
                && worker.sandboxEngines[config.id] == Slot(build.engine, config.mapId, config.ghostMode)
      ensures startedAt == if ok then old(startedAt)[config.id := now] else old(startedAt)
      ensures !ok && weatherAccepted ==> worker.View() == old(worker.View())
    {
      if worker.revision != expected {
        return false;
      }
      var alreadyActive := IndexOf(worker.sandboxes, config.id);
      if alreadyActive.None? && LimitReached(worker.View(), limit) {
        return false;
      }
      ok := SwitchWithWeather(config, expected, build, weatherAccepted);
      if ok {
        startedAt := startedAt[config.id := now];
      }
    }

    /** The sandbox as clients see it once it has its weather. */
    function Running(config: Config): Entry<Session> {
      Entry(config.id, Session(config.mapId, config.timeOfDay, Some(config.weather)))
    }

    method SwitchWithWeather(config: Config, expected: u64, build: Build, weatherAccepted: bool)
      returns (ok: bool)
      requires worker.Valid() && !IsBlank(config.id)
      modifies worker
      ensures worker.Valid()
      ensures ok <==>
              && expected == old(worker.revision) && !Has(old(worker.sandboxes), config.id)
              && Startable(config, build) && weatherAccepted
      ensures worker.sandboxes == if ok then old(worker.sandboxes) + [Running(config)] else old(worker.sandboxes)
      ensures ok ==>
                && config.id in worker.sandboxEngines
                && worker.sandboxEngines[config.id] == Slot(build.engine, config.mapId, config.ghostMode)
      ensures !ok && weatherAccepted ==> worker.View() == old(worker.View())
    {
      ghost var before := worker.sandboxes;
      var switched := Switch(config, expected, build);
      if switched.Failure? {
        return false;
      }
      ok := ApplyWeatherOrRollBack(config, switched.value, before, weatherAccepted);
    }

    method Switch(config: Config, expected: u64, build: Build) returns (reply: Result<World, WorkerError>)
      requires worker.Valid() && !IsBlank(config.id)
      modifies worker
      ensures worker.Valid()
      ensures reply.Success? <==>
              expected == old(worker.revision) && !Has(old(worker.sandboxes), config.id) && Startable(config, build)
      ensures reply.Failure? ==> worker.View() == old(worker.View())
      ensures reply.Success? ==> worker.View() == reply.value
      ensures reply.Success? ==>
                worker.sandboxes ==
                old(worker.sandboxes) + [Entry(config.id, Session(config.mapId, config.timeOfDay, None))]
      ensures reply.Success? ==>
                && config.id in worker.sandboxEngines
                && worker.sandboxEngines[config.id] == Slot(build.engine, config.mapId, config.ghostMode)
    {
      reply := worker.SwitchRuntime(expected, Sandbox, config.mapId, Some(config.id),
                                    config.timeOfDay, Some(config.ghostMode), build);
    }

    method ApplyWeatherOrRollBack(
      config: Config, switched: World, ghost before: seq<Entry<Session>>, weatherAccepted: bool)
      returns (ok: bool)
      requires worker.Valid() && worker.View() == switched && !Has(before, config.id) && !IsBlank(config.id)
      requires switched.sandboxes == before + [Entry(config.id, Session(config.mapId, config.timeOfDay, None))]
      modifies worker
      ensures worker.Valid()
      ensures ok == weatherAccepted
      ensures worker.sandboxes ==
              if ok then before + [Running(config)] else before
      ensures ok ==> worker.sandboxEngines == old(worker.sandboxEngines)
    {
      ghost var added := Entry(config.id, Session(config.mapId, config.timeOfDay, None));
      FirstIndexAppended(before, added);
      RoutingAgreesWithMetadata(switched, config.id);
      var weather := worker.SetWeather(config.id, config.weather, weatherAccepted);
      if weather.Failure? {
        WithoutAppended(before, added);
        var _ := worker.DeactivateSandbox(switched.revision, config.id);
        return false;
      }
      return true;
    }
  }

  lemma {:induction false} FirstIndexAppended(s: seq<Entry<Session>>, e: Entry<Session>)
    requires !Has(s, e.id)
    ensures Has(s + [e], e.id) && FirstIndex(s + [e], e.id) == |s|
  {
    assert e in s + [e];
    if s != [] {
      assert s[0] in s;
      assert (s + [e])[1..] == s[1..] + [e];
      FirstIndexAppended(s[1..], e);
    }
  }
}
