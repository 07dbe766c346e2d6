/**
 The engine worker: one owner of the runtime state and the engines, updated in place command by
 command. Each method is proved against the function of the same name in `EngineModel`, both for
 the reply and for the state it leaves, and an error leaves the state as it was.
 */
module EngineWorker {
  import M = EngineModel
  import opened Prelude
  import opened Roster
  import opened EngineModel
  import opened EngineInvariant
  import opened EngineEffects

  /** An error leaves the state as it was. */
  function After(before: World, reply: Result<World, WorkerError>): World {
    if reply.Success? then reply.value else before
  }

  class Worker {
    const flavour: Flavour
    var revision: u64
    var kind: ActivityKind
    var mapId: string
    var localRace: Option<Entry<Session>>
    var sandboxes: seq<Entry<Session>>
    var timeOfDay: TimeOfDay
    var pending: seq<Pending>
    var official: Option<Slot>
    var sandboxEngines: map<string, Slot>
    var localRaceEngines: map<string, Slot>

    function View(): World
      reads this
    {
      World(revision, kind, mapId, localRace, sandboxes, timeOfDay, pending,
            official, sandboxEngines, localRaceEngines)
    }

    ghost predicate Valid()
      reads this
    {
      Inv(View())
    }

    constructor (flavour: Flavour)
      ensures this.flavour == flavour
      ensures Valid() && View() == INITIAL_WORLD
    {
      this.flavour := flavour;
      revision, kind, mapId := 0, Idle, DEFAULT_MAP_ID;
      localRace, sandboxes, timeOfDay, pending := None, [], Unspecified, [];
      official, sandboxEngines, localRaceEngines := None, map[], map[];
    }

    method SwitchRuntime(
      expected: u64, kind: ActivityKind, mapId: string, sandboxId: Option<string>,
      preset: TimeOfDay, ghostMode: Option<GhostMode>, build: Build)
      returns (reply: Result<World, WorkerError>)
      requires Valid()
      modifies this
      ensures reply == M.SwitchRuntime(flavour, old(View()), expected, kind, mapId, sandboxId, preset, ghostMode, build)
      ensures View() == After(old(View()), reply) && Valid()
    {
      SwitchKeepsInv(flavour, View(), expected, kind, mapId, sandboxId, preset, ghostMode, build);
      :- CheckRevision(View(), expected);
      var _ :- EnterMode(kind, mapId, sandboxId, preset, ghostMode, build);
      revision := SaturatingAdd(revision, 1);
      return Success(View());
    }

    /** The arms of a switch, up to the revision. */
    method EnterMode(
      kind: ActivityKind, mapId: string, sandboxId: Option<string>, preset: TimeOfDay,
      ghostMode: Option<GhostMode>, build: Build)
      returns (reply: Result<(), WorkerError>)
      requires Distinct(sandboxes)
      modifies this
      ensures var spec := M.SwitchRuntime(flavour, old(View()), old(revision), kind, mapId, sandboxId,
                                          preset, ghostMode, build);
              if reply.Success? then
                spec == Success(Bump(View())) && revision == old(revision)
              else
                spec == Failure(reply.error) && View() == old(View())
    {
      match kind {
        case Idle =>
          reply := EnterIdleMode(mapId, preset);
          return;
        case OfficialRace =>
          reply := EnterOfficialMode(mapId, preset, ghostMode, build);
          return;
        case Sandbox =>
          reply := EnterSandboxMode(mapId, sandboxId, preset, ghostMode, build);
          return;
        case LocalRace =>
          return Failure(InvalidArgument(UseActivateLocalRace));
      }
    }

    /** Drops every sandbox and replaces the official engine. */
    method EnterMainMode(kind: ActivityKind, mapId: string, preset: TimeOfDay, engine: Option<Slot>)
      modifies this
      ensures View() == old(View()).(kind := kind, mapId := mapId, sandboxes := [], timeOfDay := preset,
                                     official := engine, sandboxEngines := map[])
    {
      official := engine;
      sandboxEngines := map[];
      this.kind := kind;
      this.mapId := mapId;
      sandboxes := [];
      timeOfDay := preset;
    }

    /** The idle arm. */
    method EnterIdleMode(mapId: string, preset: TimeOfDay) returns (reply: Result<(), WorkerError>)
      modifies this
      ensures var valid := ValidateMapId(flavour, mapId);
              if valid.Pass? then
                && reply.Success?
                && View() == old(View()).(kind := Idle, mapId := mapId, sandboxes := [], timeOfDay := preset,
                                          official := None, sandboxEngines := map[])
              else
                reply == Failure(valid.reason) && View() == old(View())
    {
      var valid := ValidateMapId(flavour, mapId);
      :- valid;
      EnterMainMode(Idle, mapId, preset, None);
      return Success(());
    }

    /** The official arm. */
    method EnterOfficialMode(mapId: string, preset: TimeOfDay, ghostMode: Option<GhostMode>, build: Build)
      returns (reply: Result<(), WorkerError>)
      modifies this
      ensures var current := if old(official).Some? then old(official).value.ghostMode else DEFAULT_GHOST_MODE;
              var slot := BuildSlot(flavour, mapId, GetOr(ghostMode, current), build);
              if slot.Success? then
                && reply.Success?
                && View() == old(View()).(kind := OfficialRace, mapId := mapId, sandboxes := [], timeOfDay := preset,
                                          official := Some(slot.value), sandboxEngines := map[])
              else
                reply == Failure(slot.error) && View() == old(View())
    {
      var valid := ValidateMapId(flavour, mapId);
      :- valid;
      var current := if official.Some? then official.value.ghostMode else DEFAULT_GHOST_MODE;
      var slot :- BuildSlot(flavour, mapId, GetOr(ghostMode, current), build);
      EnterMainMode(OfficialRace, mapId, preset, Some(slot));
      return Success(());
    }

    /** The sandbox arm, up to the revision. */
    method EnterSandboxMode(
      mapId: string, sandboxId: Option<string>, preset: TimeOfDay, ghostMode: Option<GhostMode>, build: Build)
      returns (reply: Result<(), WorkerError>)
      requires Distinct(sandboxes)
      modifies this
      ensures var spec := M.SwitchRuntime(flavour, old(View()), old(revision), Sandbox, mapId, sandboxId,
                                          preset, ghostMode, build);
              if reply.Success? then
                spec == Success(Bump(View())) && revision == old(revision)
              else
                spec == Failure(reply.error) && View() == old(View())
    {
      var named := Need(sandboxId.Some?, InvalidArgument(SandboxIdMissing));
      :- named;
      var id := sandboxId.value;
      :- Need(!IsBlank(id), InvalidArgument(BlankSandboxId));
      :- Need(preset != Unspecified, InvalidArgument(PresetUnspecified));
      :- ValidateMapId(flavour, mapId);
      var active := IndexOf(sandboxes, id);
      :- Need(active.None?, InvalidArgument(SandboxAlreadyActive));
      var slot :- BuildSlot(flavour, mapId, GetOr(ghostMode, DEFAULT_GHOST_MODE), build);
      InstallSandbox(Entry(id, Session(mapId, preset, None)), slot);
      return Success(());
    }

    method InstallSandbox(session: Entry<Session>, slot: Slot)
      requires Distinct(sandboxes) && !Has(sandboxes, session.id)
      modifies this
      ensures View() == old(View()).(kind := Sandbox, timeOfDay := session.info.timeOfDay,
                                     sandboxes := old(sandboxes) + [session],
                                     sandboxEngines := old(sandboxEngines)[session.id := slot],
                                     pending := Without(old(pending), session.id))
    {
      sandboxEngines := sandboxEngines[session.id := slot];
      UpsertActiveSandbox(session);
      kind := Sandbox;
      timeOfDay := session.info.timeOfDay;
      pending := Without(pending, session.id);
    }

    method UpsertActiveSandbox(next: Entry<Session>)
      modifies this`sandboxes
      ensures sandboxes == Upsert(old(sandboxes), next)
      ensures !Has(old(sandboxes), next.id) ==> sandboxes == old(sandboxes) + [next]
    {
      var current := IndexOf(sandboxes, next.id);
      if current.Some? {
        UpsertAt(sandboxes, next, current.value);
        assert sandboxes[current.value] in sandboxes;
        sandboxes := sandboxes[current.value := next];
      } else {
        UpsertAbsent(sandboxes, next);
        sandboxes := sandboxes + [next];
      }
    }

    method DeactivateSandbox(expected: u64, id: string) returns (reply: Result<World, WorkerError>)
      requires Valid()
      modifies this
      ensures reply == M.DeactivateSandbox(old(View()), expected, id)
      ensures View() == After(old(View()), reply) && Valid()
    {
      DeactivateKeepsInv(View(), expected, id);
      :- CheckRevision(View(), expected);
      :- Need(!IsBlank(id), InvalidArgument(BlankSandboxId));
      RemoveSandbox(id);
      if sandboxes == [] && kind == Sandbox {
        LeaveSandboxMode();
      }
      revision := SaturatingAdd(revision, 1);
      return Success(View());
    }

    method RemoveSandbox(id: string)
      requires Distinct(sandboxes)
      modifies this
      ensures View() == old(View()).(sandboxes := Without(old(sandboxes), id),
                                     sandboxEngines := old(sandboxEngines) - {id},
                                     pending := Without(old(pending), id))
    {
      var position := IndexOf(sandboxes, id);
      if position.Some? {
        WithoutAt(sandboxes, position.value);
        sandboxes := sandboxes[..position.value] + sandboxes[position.value + 1..];
      } else {
        WithoutAbsent(sandboxes, id);
      }
      sandboxEngines := sandboxEngines - {id};
      pending := Without(pending, id);
    }

    method LeaveSandboxMode()
      modifies this
      ensures View() == M.LeaveSandboxMode(old(View()))
    {
      if localRace.Some? {
        kind := LocalRace;
        mapId := localRace.value.info.mapId;
        timeOfDay := localRace.value.info.timeOfDay;
      } else {
        kind := Idle;
        timeOfDay := Unspecified;
      }
      official := None;
    }

    method ActivateLocalRace(
      expected: u64, raceId: string, mapId: string, preset: TimeOfDay,
      ghostMode: Option<GhostMode>, build: Build)
      returns (reply: Result<World, WorkerError>)
      requires Valid()
      modifies this
      ensures reply == M.ActivateLocalRace(flavour, old(View()), expected, raceId, mapId, preset, ghostMode, build)
      ensures View() == After(old(View()), reply) && Valid()
    {
      ActivateLocalRaceKeepsInv(flavour, View(), expected, raceId, mapId, preset, ghostMode, build);
      reply := EnterLocalRace(expected, raceId, mapId, preset, ghostMode, build);
    }

    method EnterLocalRace(
      expected: u64, raceId: string, mapId: string, preset: TimeOfDay,
      ghostMode: Option<GhostMode>, build: Build)
      returns (reply: Result<World, WorkerError>)
      modifies this
      ensures reply == M.ActivateLocalRace(flavour, old(View()), expected, raceId, mapId, preset, ghostMode, build)
      ensures View() == After(old(View()), reply)
    {
      var upToDate := CheckRevision(View(), expected);
      :- upToDate;
      :- Need(!IsBlank(raceId), InvalidArgument(BlankRaceId));
      :- Need(localRace.None?, InvalidArgument(LocalRaceAlreadyActive));
      :- Need(preset != Unspecified, InvalidArgument(PresetUnspecified));
      :- ValidateMapId(flavour, mapId);
      var slot :- BuildSlot(flavour, mapId, GetOr(ghostMode, DEFAULT_GHOST_MODE), build);
      InstallLocalRace(raceId, mapId, preset, slot);
      revision := SaturatingAdd(revision, 1);
      return Success(View());
    }

    /** The runtime follows the race unless a sandbox or an official race is running. */
    method InstallLocalRace(raceId: string, mapId: string, preset: TimeOfDay, slot: Slot)
      modifies this
      ensures var race := Some(Entry(raceId, Session(mapId, preset, None)));
              var w := old(View()).(localRace := race, localRaceEngines := old(localRaceEngines)[raceId := slot]);
              View() == if w.sandboxes == [] && w.kind != OfficialRace
                        then w.(kind := LocalRace, mapId := mapId, timeOfDay := preset) else w
    {
      localRaceEngines := localRaceEngines[raceId := slot];
      localRace := Some(Entry(raceId, Session(mapId, preset, None)));
      if sandboxes == [] && kind != OfficialRace {
        kind := LocalRace;
        this.mapId := mapId;
        timeOfDay := preset;
      }
    }

    method DeactivateLocalRace(expected: u64, raceId: string) returns (reply: Result<World, WorkerError>)
      requires Valid()
      modifies this
      ensures reply == M.DeactivateLocalRace(old(View()), expected, raceId)
      ensures View() == After(old(View()), reply) && Valid()
    {
      DeactivateLocalRaceKeepsInv(View(), expected, raceId);
      :- CheckRevision(View(), expected);
      :- Need(localRace.Some? && localRace.value.id == raceId, InvalidArgument(UnknownRace));
      localRace := None;
      localRaceEngines := localRaceEngines - {raceId};
      if sandboxes == [] && kind == LocalRace {
        kind := Idle;
        timeOfDay := Unspecified;
      }
      revision := SaturatingAdd(revision, 1);
      return Success(View());
    }

    method BumpRevision(expected: u64) returns (reply: Result<World, WorkerError>)
      requires Valid()
      modifies this
      ensures reply == M.BumpRevision(old(View()), expected)
      ensures View() == After(old(View()), reply) && Valid()
    {
      var upToDate := CheckRevision(View(), expected);
      :- upToDate;
      revision := SaturatingAdd(revision, 1);
      return Success(View());
    }

    method SetTimeOfDay(expected: u64, sandboxId: Option<string>, preset: TimeOfDay)
      returns (reply: Result<World, WorkerError>)
      requires Valid()
      modifies this
      ensures reply == M.SetTimeOfDay(old(View()), expected, sandboxId, preset)
      ensures View() == After(old(View()), reply) && Valid()
    {
      SetTimeOfDayKeepsInv(View(), expected, sandboxId, preset);
      :- CheckRevision(View(), expected);
      var _ :- ApplyTimeOfDay(sandboxId, preset);
      revision := SaturatingAdd(revision, 1);
      return Success(View());
    }

    method ApplyTimeOfDay(sandboxId: Option<string>, preset: TimeOfDay) returns (reply: Result<(), WorkerError>)
      modifies this
      ensures var spec := M.SetTimeOfDay(old(View()), old(revision), sandboxId, preset);
              if reply.Success? then
                spec == Success(Bump(View())) && revision == old(revision)
              else
                spec == Failure(reply.error) && View() == old(View())
    {
      var sandboxMode := Need(kind == Sandbox, InvalidArgument(NoSandboxRuntime));
      :- sandboxMode;
      :- Need(preset != Unspecified, InvalidArgument(PresetUnspecified));
      :- Need(sandboxId.None? || !IsBlank(sandboxId.value), InvalidArgument(BlankSandboxId));
      :- Need(sandboxId.Some? || |sandboxes| == 1, InvalidArgument(SandboxIdRequired));
      var id := if sandboxId.Some? then sandboxId.value else sandboxes[0].id;
      var position := IndexOf(sandboxes, id);
      :- Need(position.Some?, InvalidArgument(UnknownSandbox));
      RetimeSandbox(position.value, preset);
      return Success(());
    }

    method RetimeSandbox(i: nat, preset: TimeOfDay)
      requires i < |sandboxes|
      modifies this
      ensures View() == old(View()).(
                sandboxes := old(sandboxes)[i := old(sandboxes)[i].(info := old(sandboxes)[i].info.(timeOfDay := preset))],
                timeOfDay := preset)
    {
      sandboxes := sandboxes[i := sandboxes[i].(info := sandboxes[i].info.(timeOfDay := preset))];
      timeOfDay := preset;
    }

    method SetPending(expected: u64, entry: Pending) returns (reply: Result<World, WorkerError>)
      requires Valid()
      modifies this
      ensures reply == M.SetPending(old(View()), expected, entry)
      ensures View() == After(old(View()), reply) && Valid()
    {
      SetPendingKeepsInv(View(), expected, entry);
      :- CheckRevision(View(), expected);
      :- ValidatePending(View(), entry);
      revision := SaturatingAdd(revision, 1);
      var existing := IndexOf(pending, entry.id);
      if existing.Some? {
        UpsertAt(pending, entry, existing.value);
        pending := pending[existing.value := entry];
      } else {
        UpsertAbsent(pending, entry);
        pending := pending + [entry];
      }
      return Success(View());
    }

    method CancelPending(expected: u64, id: string)
      returns (reply: Result<World, WorkerError>, canceled: bool)
      requires Valid()
      modifies this
      ensures reply == M.CancelPending(old(View()), expected, id)
      ensures View() == After(old(View()), reply) && Valid()
      ensures canceled <==> reply.Success? && Has(old(pending), id)
    {
      CancelPendingKeepsInv(View(), expected, id);
      canceled := false;
      var revisionCheck := CheckRevision(View(), expected);
      if revisionCheck.Fail? {
        return Failure(revisionCheck.reason), false;
      }
      if IsBlank(id) {
        return Failure(InvalidArgument(BlankSandboxId)), false;
      }
      var beforeLen := |pending|;
      WithoutAbsent(pending, id);
      pending := Without(pending, id);
      canceled := |pending| != beforeLen;
      if canceled {
        revision := SaturatingAdd(revision, 1);
      }
      return Success(View()), canceled;
    }

    method SetGhostMode(target: Target, ghostMode: GhostMode, accepted: bool)
      returns (reply: Result<World, WorkerError>)
      requires Valid()
      modifies this
      ensures reply == M.SetGhostMode(old(View()), target, ghostMode, accepted)
      ensures View() == After(old(View()), reply) && Valid()
    {
      SetGhostModeKeepsInv(View(), target, ghostMode, accepted);
      var slot :- Route(View(), target);
      :- Need(accepted, EngineError);
      var updated := slot.(ghostMode := ghostMode);
      match target {
        case OfficialRaceTarget => official := Some(updated);
        case LocalRaceTarget(id) => localRaceEngines := localRaceEngines[id := updated];
        case SandboxTarget(id) => sandboxEngines := sandboxEngines[id := updated];
      }
      return Success(View());
    }

    method SetWeather(id: string, weather: WeatherNow, accepted: bool)
      returns (reply: Result<World, WorkerError>)
      requires Valid()
      modifies this
      ensures reply == M.SetWeather(old(View()), id, weather, accepted)
      ensures View() == After(old(View()), reply) && Valid()
    {
      SetWeatherKeepsInv(View(), id, weather, accepted);
      var _ :- Route(View(), SandboxTarget(id));
      :- Need(accepted, EngineError);
      var position := IndexOf(sandboxes, id);
      :- Need(position.Some?, InvalidArgument(UnknownSandbox));
      var i := position.value;
      sandboxes := sandboxes[i := sandboxes[i].(info := sandboxes[i].info.(weatherNow := Some(weather)))];
      return Success(View());
    }

    method HandleCommand(c: Command) returns (reply: Result<World, WorkerError>)
      requires Valid()
      modifies this
      ensures reply == Apply(flavour, old(View()), c)
      ensures View() == After(old(View()), reply) && Valid()
    {
      match c {
        case Switch(expected, kind, mapId, sandboxId, preset, ghostMode, build) =>
          reply := SwitchRuntime(expected, kind, mapId, sandboxId, GetOr(preset, timeOfDay), ghostMode, build);
        case SetPreset(expected, sandboxId, preset) => reply := SetTimeOfDay(expected, sandboxId, preset);
        case Schedule(expected, entry) => reply := SetPending(expected, entry);
        case Cancel(expected, id) =>
          var canceled;
          reply, canceled := CancelPending(expected, id);
        case Deactivate(expected, id) => reply := DeactivateSandbox(expected, id);
        case StartRace(expected, id, mapId, preset, ghostMode, build) =>
          reply := ActivateLocalRace(expected, id, mapId, preset, ghostMode, build);
        case StopRace(expected, id) => reply := DeactivateLocalRace(expected, id);
        case Touch(expected) => reply := BumpRevision(expected);
        case GhostSettings(target, settings, accepted) => reply := SetGhostMode(target, settings, accepted);
        case Weather(id, weather, accepted) => reply := SetWeather(id, weather, accepted);
      }
    }

    /** One turn of the firing loop. */
    method ExecutePending(p: Pending, build: Build) returns (reply: Result<World, WorkerError>)
      requires Valid()
      modifies this
      ensures reply == FireOne(flavour, old(View()), p, build)
      ensures View() == After(old(View()), reply) && Valid()
    {
      FireOneKeepsInv(flavour, View(), p, build);
      if p.info.activate {
        var active := IndexOf(sandboxes, p.id);
        if active.None? {
          :- Need(p.info.mapId.Some?, InvalidArgument(MapIdMissing));
          :- Need(p.info.timeOfDay.Some?, InvalidArgument(PresetMissing));
          :- Need(p.info.ghostMode.Some?, InvalidArgument(GhostModeMissing));
          var _ :- SwitchRuntime(revision, Sandbox, p.info.mapId.value, Some(p.id),
                                 p.info.timeOfDay.value, p.info.ghostMode, build);
        }
      } else {
        var _ :- DeactivateSandbox(revision, p.id);
      }
      pending := Without(pending, p.id);
      return Success(View());
    }

    method ExecuteDuePending(now: int, builds: seq<Build>) returns (error: Option<WorkerError>)
      requires Valid()
      modifies this
      ensures Valid()
      ensures View() == FireDue(flavour, old(View()), now, builds).world
      ensures error == FireDue(flavour, old(View()), now, builds).error
      ensures var due, fired := Due(old(pending), now), FireDue(flavour, old(View()), now, builds).fired;
              fired <= |due| && Fired(old(View()), View(), due, builds, 0, fired)
    {
      FiringStartsWhatWasScheduled(flavour, View(), now, builds);
      ghost var outcome := FireDue(flavour, View(), now, builds);
      var due := Due(pending, now);
      var i := 0;
      while i < |due|
        invariant 0 <= i <= |due|
        invariant Valid()
        invariant FireFrom(flavour, View(), due, builds, i) == outcome
      {
        var reply := ExecutePending(due[i], BuildAt(builds, i));
        if reply.Failure? {
          return Some(reply.error);
        }
        i := i + 1;
      }
      return None;
    }

    /** The worker loop over what happens to it. */
    method Serve(events: seq<Event>)
      requires Valid()
      modifies this
      ensures Valid()
      ensures View() == Run(flavour, old(View()), events)
    {
      var i := 0;
      while i < |events|
        invariant 0 <= i <= |events|
        invariant Valid()
        invariant View() == Run(flavour, old(View()), events[..i])
      {
        match events[i] {
          case Handle(c) => var _ := HandleCommand(c);
          case Tick(now, builds) => var _ := ExecuteDuePending(now, builds);
        }
        assert events[..i + 1][..i] == events[..i];
        i := i + 1;
      }
      assert events[..|events|] == events;
    }
  }
}
