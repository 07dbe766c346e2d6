/** Which operation a command is for, and that the reason given for a refusal is a true one. */
module EngineRefusals {
  import opened Prelude
  import opened Roster
  import opened EngineModel
  import opened EngineRevision

  /** Every command does the operation that it is named for; a switch without a preset keeps the runtime's. */
  lemma {:induction false} StartsAndStopsAreTheirOperations(f: Flavour, w: World, c: Command)
    ensures c.Switch? ==>
              Apply(f, w, c) ==
              SwitchRuntime(f, w, c.expected, c.kind, c.mapId, c.sandboxId,
                            if c.preset.Some? then c.preset.value else w.timeOfDay, c.ghostMode, c.build)
    ensures c.Deactivate? ==> Apply(f, w, c) == DeactivateSandbox(w, c.expected, c.id)
    ensures c.StartRace? ==>
              Apply(f, w, c) == ActivateLocalRace(f, w, c.expected, c.id, c.mapId, c.newPreset, c.ghostMode, c.build)
    ensures c.StopRace? ==> Apply(f, w, c) == DeactivateLocalRace(w, c.expected, c.id)
    ensures c.Touch? ==> Apply(f, w, c) == BumpRevision(w, c.expected)
  {
  }

  lemma {:induction false} SettingsAreTheirOperations(f: Flavour, w: World, c: Command)
    ensures c.SetPreset? ==> Apply(f, w, c) == SetTimeOfDay(w, c.expected, c.sandboxId, c.newPreset)
    ensures c.Schedule? ==> Apply(f, w, c) == SetPending(w, c.expected, c.entry)
    ensures c.Cancel? ==> Apply(f, w, c) == CancelPending(w, c.expected, c.id)
    ensures c.GhostSettings? ==> Apply(f, w, c) == SetGhostMode(w, c.target, c.settings, c.accepted)
    ensures c.Weather? ==> Apply(f, w, c) == SetWeather(w, c.id, c.weather, c.accepted)
  {
  }

  /** The sandboxes and races that a command names. */
  function SandboxNamed(c: Command): Option<string> {
    match c
    case Switch(_, _, _, sandboxId, _, _, _) => sandboxId
    case SetPreset(_, sandboxId, _) => sandboxId
    case Schedule(_, entry) => Some(entry.id)
    case Cancel(_, id) => Some(id)
    case Deactivate(_, id) => Some(id)
    case GhostSettings(target, _, _) => if target.SandboxTarget? then Some(target.sandboxId) else None
    case Weather(id, _, _) => Some(id)
    case _ => None
  }

  function RaceNamed(c: Command): Option<string> {
    match c
    case StartRace(_, id, _, _, _, _) => Some(id)
    case StopRace(_, id) => Some(id)
    case GhostSettings(target, _, _) => if target.LocalRaceTarget? then Some(target.raceId) else None
    case _ => None
  }

  function MapNamed(c: Command): Option<string> {
    match c
    case Switch(_, _, mapId, _, _, _, _) => Some(mapId)
    case StartRace(_, _, mapId, _, _, _) => Some(mapId)
    case Schedule(_, entry) => entry.info.mapId
    case _ => None
  }

  ghost predicate IsActive(w: World, id: string) {
    exists e | e in w.sandboxes :: e.id == id
  }

  ghost predicate IsTrueReason(f: Flavour, w: World, c: Command, reason: InvalidReason) {
    var sandbox, race, mapId := SandboxNamed(c), RaceNamed(c), MapNamed(c);
    match reason
    case BlankMapId => mapId.Some? && IsBlank(mapId.value)
    case MapIdCharacters => mapId.Some? && !IsBlank(mapId.value) && !IsValidMapId(f, mapId.value)
    case SandboxIdMissing => c.Switch? && c.kind == Sandbox && sandbox.None?
    case BlankSandboxId => sandbox.Some? && IsBlank(sandbox.value)
    case BlankRaceId => race.Some? && IsBlank(race.value)
    case PresetUnspecified =>
      || (c.Switch? && c.kind == Sandbox && (if c.preset.Some? then c.preset.value else w.timeOfDay) == Unspecified)
      || ((c.SetPreset? || c.StartRace?) && c.newPreset == Unspecified)
      || (c.Schedule? && c.entry.info.timeOfDay == Some(Unspecified))
    case PresetMissing => c.Schedule? && c.entry.info.activate && c.entry.info.timeOfDay.None?
    case MapIdMissing => c.Schedule? && c.entry.info.activate && mapId.None?
    case GhostModeMissing => c.Schedule? && c.entry.info.activate && c.entry.info.ghostMode.None?
    case UnexpectedPayload =>
      c.Schedule? && !c.entry.info.activate && c.entry.info != Scheduled(false, c.entry.info.executeAt, None, None, None)
    case SandboxAlreadyActive => (c.Switch? || c.Schedule?) && sandbox.Some? && IsActive(w, sandbox.value)
    case LocalRaceAlreadyActive => c.StartRace? && w.localRace.Some?
    case UseActivateLocalRace => c.Switch? && c.kind == LocalRace
    case NoSandboxRuntime => c.SetPreset? && w.kind != Sandbox
    case SandboxIdRequired => c.SetPreset? && sandbox.None? && |w.sandboxes| != 1
    case UnknownSandbox =>
      sandbox.Some? && (!IsActive(w, sandbox.value) || sandbox.value !in w.sandboxEngines)
    case UnknownRace => race.Some? && (w.localRace.None? || w.localRace.value.id != race.value)
    case OfficialRaceNotActive =>
      c.GhostSettings? && c.target.OfficialRaceTarget? && (w.kind != OfficialRace || w.official.None?)
    case LocalRaceNotActive => c.GhostSettings? && race.Some? && race.value !in w.localRaceEngines
  }

  ghost predicate IsTrueError(f: Flavour, w: World, c: Command, e: WorkerError) {
    match e
    case RevisionMismatch(expected, actual) =>
      IsCompareAndSwap(c) && c.expected == expected && actual == w.revision && expected != actual
    case EngineError =>
      || ((c.Switch? || c.StartRace?) && c.build.BuildFailed?)
      || ((c.GhostSettings? || c.Weather?) && !c.accepted)
    case InvalidArgument(reason) => IsTrueReason(f, w, c, reason)
  }

  lemma {:induction false} SwitchIsRefusedTruly(f: Flavour, w: World, c: Command)
    requires c.Switch? && Apply(f, w, c).Failure?
    ensures IsTrueError(f, w, c, Apply(f, w, c).error)
  {
  }

  lemma {:induction false} StartIsRefusedTruly(f: Flavour, w: World, c: Command)
    requires c.StartRace? && Apply(f, w, c).Failure?
    ensures IsTrueError(f, w, c, Apply(f, w, c).error)
  {
  }

  lemma {:induction false} QueueingIsRefusedTruly(f: Flavour, w: World, c: Command)
    requires (c.Schedule? || c.Cancel?) && Apply(f, w, c).Failure?
    ensures IsTrueError(f, w, c, Apply(f, w, c).error)
  {
  }

  lemma {:induction false} PresetIsRefusedTruly(f: Flavour, w: World, c: Command)
    requires c.SetPreset? && Apply(f, w, c).Failure?
    ensures IsTrueError(f, w, c, Apply(f, w, c).error)
  {
    if c.sandboxId.None? && |w.sandboxes| == 1 {
      assert Has(w.sandboxes, w.sandboxes[0].id);
    }
  }

  lemma {:induction false} GhostModeIsRefusedTruly(f: Flavour, w: World, c: Command)
    requires c.GhostSettings? && Apply(f, w, c).Failure?
    ensures IsTrueError(f, w, c, Apply(f, w, c).error)
  {
  }

  lemma {:induction false} WeatherIsRefusedTruly(f: Flavour, w: World, c: Command)
    requires c.Weather? && Apply(f, w, c).Failure?
    ensures IsTrueError(f, w, c, Apply(f, w, c).error)
  {
  }

  /** Whatever command is refused in whatever state, the error says something that is the case. */
  lemma {:induction false} RefusalsAreTrue(f: Flavour, w: World, c: Command)
    requires Apply(f, w, c).Failure?
    ensures IsTrueError(f, w, c, Apply(f, w, c).error)
    ensures IsCompareAndSwap(c) && c.expected != w.revision ==>
              Apply(f, w, c).error == RevisionMismatch(c.expected, w.revision)
  {
    match c
    case Switch(_, _, _, _, _, _, _) => SwitchIsRefusedTruly(f, w, c);
    case StartRace(_, _, _, _, _, _) => StartIsRefusedTruly(f, w, c);
    case Schedule(_, _) => QueueingIsRefusedTruly(f, w, c);
    case Cancel(_, _) => QueueingIsRefusedTruly(f, w, c);
    case SetPreset(_, _, _) => PresetIsRefusedTruly(f, w, c);
    case GhostSettings(_, _, _) => GhostModeIsRefusedTruly(f, w, c);
    case Weather(_, _, _) => WeatherIsRefusedTruly(f, w, c);
    case _ =>
  }
}
