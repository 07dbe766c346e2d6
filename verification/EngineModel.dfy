/**
 The runtime state owned by the engine worker, and what each worker command makes of it.

 A `World` holds both views that the worker keeps: the metadata handed to clients
 (`revision` to `pending`) and the live engines (`official`, `sandboxEngines`,
 `localRaceEngines`). An engine is a token; whether building one succeeds is an input.
 A command either fails, and then there is no new world, or yields the next world.
 */
module EngineModel {
  import opened Prelude
  import opened Roster

  datatype ActivityKind = Idle | OfficialRace | LocalRace | Sandbox
  datatype TimeOfDay = Unspecified | Morning | Noon | Evening | Night
  datatype WeatherNow = WeatherNow(weatherType: nat, temperatureC: int)
  datatype GhostMode = GhostMode(
    enabled: bool, enterSpeedMaxMps: real, exitSpeedMinMps: real, enterDelayMs: nat,
    exitDelayMs: nat, untilCompletedLaps: nat, vehicleOverlapExitDelayMs: nat)

  const DEFAULT_GHOST_MODE := GhostMode(false, 0.0, 0.0, 0, 0, 0, 0)
  const DEFAULT_MAP_ID := "test"

  /** What is running in one sandbox or local race. */
  datatype Session = Session(mapId: string, timeOfDay: TimeOfDay, weatherNow: Option<WeatherNow>)

  /** A scheduled activation (with payload) or deactivation (without). */
  datatype Scheduled = Scheduled(
    activate: bool, executeAt: int,
    mapId: Option<string>, timeOfDay: Option<TimeOfDay>, ghostMode: Option<GhostMode>)

  type Pending = Entry<Scheduled>

  /** A live engine, the map whose track it was built from, and its ghost mode. */
  datatype Slot = Slot(engine: nat, mapId: string, ghostMode: GhostMode)
  datatype Build = Built(engine: nat) | BuildFailed

  datatype World = World(
    revision: u64,
    kind: ActivityKind,
    mapId: string,
    localRace: Option<Entry<Session>>,
    sandboxes: seq<Entry<Session>>,
    timeOfDay: TimeOfDay,
    pending: seq<Pending>,
    official: Option<Slot>,
    sandboxEngines: map<string, Slot>,
    localRaceEngines: map<string, Slot>)

  const INITIAL_WORLD :=
    World(0, Idle, DEFAULT_MAP_ID, None, [], Unspecified, [], None, map[], map[])

  datatype InvalidReason =
    | BlankMapId | MapIdCharacters | SandboxIdMissing | BlankSandboxId | BlankRaceId
    | PresetUnspecified | PresetMissing | MapIdMissing | GhostModeMissing | UnexpectedPayload
    | SandboxAlreadyActive | LocalRaceAlreadyActive | UseActivateLocalRace
    | NoSandboxRuntime | SandboxIdRequired | UnknownSandbox | UnknownRace
    | OfficialRaceNotActive | LocalRaceNotActive

  datatype WorkerError =
    | EngineError
    | InvalidArgument(reason: InvalidReason)
    | RevisionMismatch(expected: u64, actual: u64)

  datatype Target = OfficialRaceTarget | LocalRaceTarget(raceId: string) | SandboxTarget(sandboxId: string)

  /** The official and standalone builds accept fewer characters in a map id than the others. */
  datatype Flavour = Strict | Relaxed

  predicate IsAsciiAlphanumeric(c: char) {
    '0' <= c <= '9' || 'A' <= c <= 'Z' || 'a' <= c <= 'z'
  }

  predicate IsMapIdChar(f: Flavour, c: char) {
    IsAsciiAlphanumeric(c) || (f.Relaxed? && (c == '-' || c == '_'))
  }

  predicate IsValidMapId(f: Flavour, mapId: string) {
    !IsBlank(mapId) && forall i | 0 <= i < |mapId| :: IsMapIdChar(f, mapId[i])
  }

  function ValidateMapId(f: Flavour, mapId: string): Check<WorkerError> {
    if IsBlank(mapId) then Fail(InvalidArgument(BlankMapId))
    else Need(IsValidMapId(f, mapId), InvalidArgument(MapIdCharacters))
  }

  function GetOr<T>(o: Option<T>, default: T): T {
    if o.Some? then o.value else default
  }

  /** `build_engine` followed by `set_ghost_mode_settings`. */
  function BuildSlot(f: Flavour, mapId: string, ghostMode: GhostMode, build: Build): Result<Slot, WorkerError> {
    var validMap := ValidateMapId(f, mapId);
    :- validMap;
    :- Need(build.Built?, EngineError);
    Success(Slot(build.engine, mapId, ghostMode))
  }

  function Bump(w: World): World {
    w.(revision := SaturatingAdd(w.revision, 1))
  }

  function CheckRevision(w: World, expected: u64): Check<WorkerError> {
    Need(w.revision == expected, RevisionMismatch(expected, w.revision))
  }

  function SwitchRuntime(
    f: Flavour, w: World, expected: u64, kind: ActivityKind, mapId: string,
    sandboxId: Option<string>, preset: TimeOfDay, ghostMode: Option<GhostMode>, build: Build)
    : Result<World, WorkerError>
  {
    var upToDate := CheckRevision(w, expected);
    :- upToDate;
    match kind
    case Idle =>
      :- ValidateMapId(f, mapId);
      Success(Bump(w.(kind := Idle, mapId := mapId, sandboxes := [], timeOfDay := preset,
                      official := None, sandboxEngines := map[])))
    case OfficialRace =>
      :- ValidateMapId(f, mapId);
      var current := if w.official.Some? then w.official.value.ghostMode else DEFAULT_GHOST_MODE;
      var slot :- BuildSlot(f, mapId, GetOr(ghostMode, current), build);
      Success(Bump(w.(kind := OfficialRace, mapId := mapId, sandboxes := [], timeOfDay := preset,
                      official := Some(slot), sandboxEngines := map[])))
    case Sandbox =>
      :- Need(sandboxId.Some?, InvalidArgument(SandboxIdMissing));
      var id := sandboxId.value;
      :- Need(!IsBlank(id), InvalidArgument(BlankSandboxId));
      :- Need(preset != Unspecified, InvalidArgument(PresetUnspecified));
      :- ValidateMapId(f, mapId);
      :- Need(!Has(w.sandboxes, id), InvalidArgument(SandboxAlreadyActive));
      var slot :- BuildSlot(f, mapId, GetOr(ghostMode, DEFAULT_GHOST_MODE), build);
      Success(Bump(w.(kind := Sandbox, timeOfDay := preset,
                      sandboxes := w.sandboxes + [Entry(id, Session(mapId, preset, None))],
                      sandboxEngines := w.sandboxEngines[id := slot],
                      pending := Without(w.pending, id))))
    case LocalRace =>
      Failure(InvalidArgument(UseActivateLocalRace))
  }

  /** What the worker falls back to when its last sandbox goes away. */
  function LeaveSandboxMode(w: World): World {
    if w.localRace.Some? then
      var race := w.localRace.value.info;
      w.(kind := LocalRace, mapId := race.mapId, timeOfDay := race.timeOfDay, official := None)
    else
      w.(kind := Idle, timeOfDay := Unspecified, official := None)
  }

  function DeactivateSandbox(w: World, expected: u64, id: string): Result<World, WorkerError> {
    var upToDate := CheckRevision(w, expected);
    :- upToDate;
    :- Need(!IsBlank(id), InvalidArgument(BlankSandboxId));
    var removed := w.(sandboxes := Without(w.sandboxes, id),
                      sandboxEngines := w.sandboxEngines - {id},
                      pending := Without(w.pending, id));
    Success(Bump(if removed.sandboxes == [] && removed.kind == Sandbox
                 then LeaveSandboxMode(removed) else removed))
  }

  function ActivateLocalRace(
    f: Flavour, w: World, expected: u64, raceId: string, mapId: string, preset: TimeOfDay,
    ghostMode: Option<GhostMode>, build: Build)
    : Result<World, WorkerError>
  {
    var upToDate := CheckRevision(w, expected);
    :- upToDate;
    :- Need(!IsBlank(raceId), InvalidArgument(BlankRaceId));
    :- Need(w.localRace.None?, InvalidArgument(LocalRaceAlreadyActive));
    :- Need(preset != Unspecified, InvalidArgument(PresetUnspecified));
    :- ValidateMapId(f, mapId);
    var slot :- BuildSlot(f, mapId, GetOr(ghostMode, DEFAULT_GHOST_MODE), build);
    var started := w.(localRace := Some(Entry(raceId, Session(mapId, preset, None))),
                      localRaceEngines := w.localRaceEngines[raceId := slot]);
    Success(Bump(if w.sandboxes == [] && w.kind != OfficialRace
                 then started.(kind := LocalRace, mapId := mapId, timeOfDay := preset) else started))
  }

  function DeactivateLocalRace(w: World, expected: u64, raceId: string): Result<World, WorkerError> {
    var upToDate := CheckRevision(w, expected);
    :- upToDate;
    :- Need(w.localRace.Some? && w.localRace.value.id == raceId, InvalidArgument(UnknownRace));
    var stopped := w.(localRace := None, localRaceEngines := w.localRaceEngines - {raceId});
    Success(Bump(if w.sandboxes == [] && w.kind == LocalRace
                 then stopped.(kind := Idle, timeOfDay := Unspecified) else stopped))
  }

  function BumpRevision(w: World, expected: u64): Result<World, WorkerError> {
    var upToDate := CheckRevision(w, expected);
    :- upToDate;
    Success(Bump(w))
  }

  function SetTimeOfDay(w: World, expected: u64, sandboxId: Option<string>, preset: TimeOfDay)
    : Result<World, WorkerError>
  {
    var upToDate := CheckRevision(w, expected);
    :- upToDate;
    :- Need(w.kind == Sandbox, InvalidArgument(NoSandboxRuntime));
    :- Need(preset != Unspecified, InvalidArgument(PresetUnspecified));
    :- Need(sandboxId.None? || !IsBlank(sandboxId.value), InvalidArgument(BlankSandboxId));
    :- Need(sandboxId.Some? || |w.sandboxes| == 1, InvalidArgument(SandboxIdRequired));
    var id := if sandboxId.Some? then sandboxId.value else w.sandboxes[0].id;
    :- Need(Has(w.sandboxes, id), InvalidArgument(UnknownSandbox));
    var i := FirstIndex(w.sandboxes, id);
    var updated := w.sandboxes[i].(info := w.sandboxes[i].info.(timeOfDay := preset));
    Success(Bump(w.(sandboxes := w.sandboxes[i := updated], timeOfDay := preset)))
  }

  function ValidatePending(w: World, entry: Pending): Check<WorkerError> {
    var info := entry.info;
    if IsBlank(entry.id) then Fail(InvalidArgument(BlankSandboxId))
    else if !info.activate then
      Need(info.mapId.None? && info.timeOfDay.None? && info.ghostMode.None?,
           InvalidArgument(UnexpectedPayload))
    else if Has(w.sandboxes, entry.id) then Fail(InvalidArgument(SandboxAlreadyActive))
    else if info.mapId.None? then Fail(InvalidArgument(MapIdMissing))
    else if IsBlank(info.mapId.value) then Fail(InvalidArgument(BlankMapId))
    else if info.timeOfDay.None? then Fail(InvalidArgument(PresetMissing))
    else if info.timeOfDay.value == Unspecified then Fail(InvalidArgument(PresetUnspecified))
    else Need(info.ghostMode.Some?, InvalidArgument(GhostModeMissing))
  }

  function SetPending(w: World, expected: u64, entry: Pending): Result<World, WorkerError> {
    var upToDate := CheckRevision(w, expected);
    :- upToDate;
    :- ValidatePending(w, entry);
    Success(Bump(w.(pending := Upsert(w.pending, entry))))
  }

  /** Cancelling bumps the revision only when there was something to cancel. */
  function CancelPending(w: World, expected: u64, id: string): Result<World, WorkerError> {
    var upToDate := CheckRevision(w, expected);
    :- upToDate;
    :- Need(!IsBlank(id), InvalidArgument(BlankSandboxId));
    Success(if Has(w.pending, id) then Bump(w.(pending := Without(w.pending, id))) else w)
  }

  /** Which engine a simulation command reaches. */
  function Route(w: World, target: Target): Result<Slot, WorkerError> {
    match target
    case OfficialRaceTarget =>
      :- Need(w.kind == OfficialRace, InvalidArgument(OfficialRaceNotActive));
      :- Need(w.official.Some?, InvalidArgument(OfficialRaceNotActive));
      Success(w.official.value)
    case LocalRaceTarget(id) =>
      :- Need(!IsBlank(id), InvalidArgument(BlankRaceId));
      :- Need(w.localRace.Some? && w.localRace.value.id == id, InvalidArgument(UnknownRace));
      :- Need(id in w.localRaceEngines, InvalidArgument(LocalRaceNotActive));
      Success(w.localRaceEngines[id])
    case SandboxTarget(id) =>
      :- Need(!IsBlank(id), InvalidArgument(BlankSandboxId));
      :- Need(id in w.sandboxEngines, InvalidArgument(UnknownSandbox));
      Success(w.sandboxEngines[id])
  }

  function WithGhostMode(w: World, target: Target, ghostMode: GhostMode): World
    requires Route(w, target).Success?
  {
    match target
    case OfficialRaceTarget => w.(official := Some(w.official.value.(ghostMode := ghostMode)))
    case LocalRaceTarget(id) =>
      w.(localRaceEngines := w.localRaceEngines[id := w.localRaceEngines[id].(ghostMode := ghostMode)])
    case SandboxTarget(id) =>
      w.(sandboxEngines := w.sandboxEngines[id := w.sandboxEngines[id].(ghostMode := ghostMode)])
  }

  function SetGhostMode(w: World, target: Target, ghostMode: GhostMode, accepted: bool)
    : Result<World, WorkerError>
  {
    var _ :- Route(w, target);
    :- Need(accepted, EngineError);
    Success(WithGhostMode(w, target, ghostMode))
  }

  function SetWeather(w: World, id: string, weather: WeatherNow, accepted: bool): Result<World, WorkerError> {
    var _ :- Route(w, SandboxTarget(id));
    :- Need(accepted, EngineError);
    :- Need(Has(w.sandboxes, id), InvalidArgument(UnknownSandbox));
    var i := FirstIndex(w.sandboxes, id);
    var updated := w.sandboxes[i].(info := w.sandboxes[i].info.(weatherNow := Some(weather)));
    Success(w.(sandboxes := w.sandboxes[i := updated]))
  }

  datatype Command =
    | Switch(expected: u64, kind: ActivityKind, mapId: string, sandboxId: Option<string>,
             preset: Option<TimeOfDay>, ghostMode: Option<GhostMode>, build: Build)
    | SetPreset(expected: u64, sandboxId: Option<string>, newPreset: TimeOfDay)
    | Schedule(expected: u64, entry: Pending)
    | Cancel(expected: u64, id: string)
    | Deactivate(expected: u64, id: string)
    | StartRace(expected: u64, id: string, mapId: string, newPreset: TimeOfDay,
                ghostMode: Option<GhostMode>, build: Build)
    | StopRace(expected: u64, id: string)
    | Touch(expected: u64)
    | GhostSettings(target: Target, settings: GhostMode, accepted: bool)
    | Weather(id: string, weather: WeatherNow, accepted: bool)

  function Apply(f: Flavour, w: World, c: Command): Result<World, WorkerError> {
    match c
    case Switch(expected, kind, mapId, sandboxId, preset, ghostMode, build) =>
      SwitchRuntime(f, w, expected, kind, mapId, sandboxId, GetOr(preset, w.timeOfDay), ghostMode, build)
    case SetPreset(expected, sandboxId, preset) => SetTimeOfDay(w, expected, sandboxId, preset)
    case Schedule(expected, entry) => SetPending(w, expected, entry)
    case Cancel(expected, id) => CancelPending(w, expected, id)
    case Deactivate(expected, id) => DeactivateSandbox(w, expected, id)
    case StartRace(expected, id, mapId, preset, ghostMode, build) =>
      ActivateLocalRace(f, w, expected, id, mapId, preset, ghostMode, build)
    case StopRace(expected, id) => DeactivateLocalRace(w, expected, id)
    case Touch(expected) => BumpRevision(w, expected)
    case GhostSettings(target, settings, accepted) => SetGhostMode(w, target, settings, accepted)
    case Weather(id, weather, accepted) => SetWeather(w, id, weather, accepted)
  }

  // ----- Scheduled activations -----

  /** Stable insertion: an earlier-listed entry stays in front of one due at the same time. */
  function InsertByTime(p: Pending, s: seq<Pending>): seq<Pending> {
    if s == [] || p.info.executeAt <= s[0].info.executeAt then [p] + s
    else [s[0]] + InsertByTime(p, s[1..])
  }

  function SortByTime(s: seq<Pending>): seq<Pending> {
    if s == [] then [] else InsertByTime(s[0], SortByTime(s[1..]))
  }

  function DueNow(s: seq<Pending>, now: int): seq<Pending> {
    if s == [] then []
    else if s[0].info.executeAt <= now then [s[0]] + DueNow(s[1..], now)
    else DueNow(s[1..], now)
  }

  function Due(s: seq<Pending>, now: int): seq<Pending> {
    SortByTime(DueNow(s, now))
  }

  /** One turn of the firing loop. The skip and the payload errors are the code's own guards. */
  function FireOne(f: Flavour, w: World, p: Pending, build: Build): Result<World, WorkerError> {
    if p.info.activate then
      if Has(w.sandboxes, p.id) then Success(w.(pending := Without(w.pending, p.id)))
      else
        :- Need(p.info.mapId.Some?, InvalidArgument(MapIdMissing));
        :- Need(p.info.timeOfDay.Some?, InvalidArgument(PresetMissing));
        :- Need(p.info.ghostMode.Some?, InvalidArgument(GhostModeMissing));
        var started :- SwitchRuntime(f, w, w.revision, Sandbox, p.info.mapId.value, Some(p.id),
                                     p.info.timeOfDay.value, p.info.ghostMode, build);
        Success(started.(pending := Without(started.pending, p.id)))
    else
      var stopped :- DeactivateSandbox(w, w.revision, p.id);
      Success(stopped.(pending := Without(stopped.pending, p.id)))
  }

  /** The outcome of a firing pass: it stops at the first error. */
  datatype Firing = Firing(world: World, fired: nat, error: Option<WorkerError>)

  /** The build outcome that the i-th due entry meets; past the end, building fails. */
  function BuildAt(builds: seq<Build>, i: nat): Build {
    if i < |builds| then builds[i] else BuildFailed
  }

  function FireFrom(f: Flavour, w: World, due: seq<Pending>, builds: seq<Build>, i: nat): Firing
    requires i <= |due|
    decreases |due| - i
  {
    if i == |due| then Firing(w, i, None)
    else
      match FireOne(f, w, due[i], BuildAt(builds, i))
      case Failure(e) => Firing(w, i, Some(e))
      case Success(next) => FireFrom(f, next, due, builds, i + 1)
  }

  function FireDue(f: Flavour, w: World, now: int, builds: seq<Build>): Firing {
    FireFrom(f, w, Due(w.pending, now), builds, 0)
  }

  // ----- Runs -----

  datatype Event = Handle(command: Command) | Tick(now: int, builds: seq<Build>)

  function Step(f: Flavour, w: World, e: Event): World {
    match e
    case Handle(c) => (match Apply(f, w, c) case Success(next) => next case Failure(_) => w)
    case Tick(now, builds) => FireDue(f, w, now, builds).world
  }

  function Run(f: Flavour, w: World, events: seq<Event>): World {
    if events == [] then w else Step(f, Run(f, w, events[..|events| - 1]), events[|events| - 1])
  }
}
