/**
 The joint invariant of the metadata and the live engines, what the revision stands for,
 and how commands are routed, over every run of commands, scheduled firings and failed builds.
 */
module EngineInvariant {
  import opened Prelude
  import opened Roster
  import opened EngineModel

  /** A queued entry that `SetPending` could have accepted. */
  predicate WellFormedPending(p: Pending) {
    && !IsBlank(p.id)
    && if p.info.activate then
         && p.info.mapId.Some? && !IsBlank(p.info.mapId.value)
         && p.info.timeOfDay.Some? && p.info.timeOfDay.value != Unspecified
         && p.info.ghostMode.Some?
       else
         p.info.mapId.None? && p.info.timeOfDay.None? && p.info.ghostMode.None?
  }

  ghost predicate SandboxesAgree(w: World) {
    && Distinct(w.sandboxes)
    && Ids(w.sandboxes) == w.sandboxEngines.Keys
    && (forall s | s in w.sandboxes :: !IsBlank(s.id) && s.info.timeOfDay != Unspecified)
    && (w.kind == Sandbox <==> w.sandboxes != [])
  }

  ghost predicate LocalRaceAgrees(w: World) {
    && w.localRaceEngines.Keys == (if w.localRace.Some? then {w.localRace.value.id} else {})
    && (w.localRace.Some? ==>
          !IsBlank(w.localRace.value.id) && w.localRace.value.info.timeOfDay != Unspecified)
    && (w.kind == LocalRace ==>
          && w.localRace.Some?
          && w.mapId == w.localRace.value.info.mapId
          && w.timeOfDay == w.localRace.value.info.timeOfDay)
  }

  ghost predicate OfficialAgrees(w: World) {
    && (w.kind == OfficialRace ==> w.official.Some?)
    && (w.official.Some? ==> w.kind == OfficialRace || w.kind == Sandbox)
  }

  ghost predicate PendingAgrees(w: World) {
    && Distinct(w.pending)
    && (forall p | p in w.pending :: WellFormedPending(p))
    && (forall p | p in w.pending && p.info.activate :: !Has(w.sandboxes, p.id))
  }

  ghost predicate Inv(w: World) {
    SandboxesAgree(w) && LocalRaceAgrees(w) && OfficialAgrees(w) && PendingAgrees(w)
  }

  lemma {:induction false} AddingKeepsSandboxes(w: World, sandbox: Entry<Session>, slot: Slot)
    requires SandboxesAgree(w) && !Has(w.sandboxes, sandbox.id)
    requires !IsBlank(sandbox.id) && sandbox.info.timeOfDay != Unspecified
    ensures SandboxesAgree(w.(kind := Sandbox, sandboxes := w.sandboxes + [sandbox],
                              sandboxEngines := w.sandboxEngines[sandbox.id := slot]))
    ensures forall id :: Has(w.sandboxes + [sandbox], id) <==> Has(w.sandboxes, id) || id == sandbox.id
  {
    var next := w.sandboxes + [sandbox];
    forall i | 0 <= i < |w.sandboxes| ensures w.sandboxes[i].id != sandbox.id {
      assert w.sandboxes[i] in w.sandboxes;
    }
    assert forall e :: e in next <==> e in w.sandboxes || e == sandbox;
  }

  lemma {:induction false} SwitchKeepsInv(
    f: Flavour, w: World, expected: u64, kind: ActivityKind, mapId: string,
    sandboxId: Option<string>, preset: TimeOfDay, ghostMode: Option<GhostMode>, build: Build)
    requires Inv(w)
    ensures var r := SwitchRuntime(f, w, expected, kind, mapId, sandboxId, preset, ghostMode, build);
            r.Success? ==> Inv(r.value)
  {
    var r := SwitchRuntime(f, w, expected, kind, mapId, sandboxId, preset, ghostMode, build);
    if r.Success? && kind == Sandbox {
      var id := sandboxId.value;
      WithoutIn(w.pending, id);
      WithoutDistinct(w.pending, id);
      AddingKeepsSandboxes(w, Entry(id, Session(mapId, preset, None)), r.value.sandboxEngines[id]);
    }
  }

  lemma {:induction false} DeactivateKeepsInv(w: World, expected: u64, id: string)
    requires Inv(w)
    ensures var r := DeactivateSandbox(w, expected, id);
            r.Success? ==> Inv(r.value)
  {
    WithoutIn(w.sandboxes, id);
    WithoutDistinct(w.sandboxes, id);
    WithoutHas(w.sandboxes, id);
    WithoutIn(w.pending, id);
    WithoutDistinct(w.pending, id);
  }

  /** Rewriting the details of one session in place leaves the list of ids as it was. */
  lemma {:induction false} RewriteKeepsIds(s: seq<Entry<Session>>, i: nat, info: Session)
    requires i < |s|
    ensures var r := s[i := s[i].(info := info)];
            && (forall j | 0 <= j < |s| :: r[j].id == s[j].id)
            && Ids(r) == Ids(s)
            && (Distinct(s) ==> Distinct(r))
            && (forall id :: Has(r, id) <==> Has(s, id))
  {
    var r := s[i := s[i].(info := info)];
    forall id ensures id in Ids(s) <==> id in Ids(r) {
      if id in Ids(s) {
        var j :| 0 <= j < |s| && s[j].id == id;
        assert r[j] in r;
      }
      if id in Ids(r) {
        var j :| 0 <= j < |r| && r[j].id == id;
        assert s[j] in s;
      }
    }
    forall id ensures Has(r, id) <==> Has(s, id) {
      assert Has(r, id) <==> id in Ids(r);
      assert Has(s, id) <==> id in Ids(s);
    }
  }

  lemma {:induction false} RewriteKeepsInv(w: World, i: nat, info: Session, preset: TimeOfDay)
    requires Inv(w) && w.kind == Sandbox && i < |w.sandboxes| && info.timeOfDay != Unspecified
    ensures Inv(w.(sandboxes := w.sandboxes[i := w.sandboxes[i].(info := info)], timeOfDay := preset))
  {
    RewriteKeepsIds(w.sandboxes, i, info);
    assert w.sandboxes[i] in w.sandboxes;
  }

  lemma {:induction false} SetTimeOfDayKeepsInv(w: World, expected: u64, sandboxId: Option<string>, preset: TimeOfDay)
    requires Inv(w)
    ensures var r := SetTimeOfDay(w, expected, sandboxId, preset); r.Success? ==> Inv(r.value)
  {
    if SetTimeOfDay(w, expected, sandboxId, preset).Success? {
      var i := FirstIndex(w.sandboxes, if sandboxId.Some? then sandboxId.value else w.sandboxes[0].id);
      RewriteKeepsInv(w, i, w.sandboxes[i].info.(timeOfDay := preset), preset);
    }
  }

  lemma {:induction false} SetWeatherKeepsInv(w: World, id: string, weather: WeatherNow, accepted: bool)
    requires Inv(w)
    ensures var r := SetWeather(w, id, weather, accepted); r.Success? ==> Inv(r.value)
  {
    if SetWeather(w, id, weather, accepted).Success? {
      var i := FirstIndex(w.sandboxes, id);
      assert w.sandboxes[i] in w.sandboxes;
      RewriteKeepsInv(w, i, w.sandboxes[i].info.(weatherNow := Some(weather)), w.timeOfDay);
    }
  }

  lemma {:induction false} SetGhostModeKeepsInv(w: World, target: Target, ghostMode: GhostMode, accepted: bool)
    requires Inv(w)
    ensures var r := SetGhostMode(w, target, ghostMode, accepted); r.Success? ==> Inv(r.value)
  {
  }

  lemma {:induction false} ActivateLocalRaceKeepsInv(
    f: Flavour, w: World, expected: u64, raceId: string, mapId: string, preset: TimeOfDay,
    ghostMode: Option<GhostMode>, build: Build)
    requires Inv(w)
    ensures var r := ActivateLocalRace(f, w, expected, raceId, mapId, preset, ghostMode, build);
            r.Success? ==> Inv(r.value)
  {
  }

  lemma {:induction false} DeactivateLocalRaceKeepsInv(w: World, expected: u64, raceId: string)
    requires Inv(w)
    ensures var r := DeactivateLocalRace(w, expected, raceId); r.Success? ==> Inv(r.value)
  {
  }

  lemma {:induction false} SetPendingKeepsInv(w: World, expected: u64, entry: Pending)
    requires Inv(w)
    ensures var r := SetPending(w, expected, entry); r.Success? ==> Inv(r.value)
  {
    UpsertIn(w.pending, entry);
  }

  lemma {:induction false} CancelPendingKeepsInv(w: World, expected: u64, id: string)
    requires Inv(w)
    ensures var r := CancelPending(w, expected, id); r.Success? ==> Inv(r.value)
  {
    WithoutIn(w.pending, id);
    WithoutDistinct(w.pending, id);
  }

  lemma {:induction false} ApplyKeepsInv(f: Flavour, w: World, c: Command)
    requires Inv(w)
    ensures var r := Apply(f, w, c); r.Success? ==> Inv(r.value)
  {
    match c
    case Switch(expected, kind, mapId, sandboxId, preset, ghostMode, build) =>
      SwitchKeepsInv(f, w, expected, kind, mapId, sandboxId, GetOr(preset, w.timeOfDay), ghostMode, build);
    case SetPreset(expected, sandboxId, preset) => SetTimeOfDayKeepsInv(w, expected, sandboxId, preset);
    case Schedule(expected, entry) => SetPendingKeepsInv(w, expected, entry);
    case Cancel(expected, id) => CancelPendingKeepsInv(w, expected, id);
    case Deactivate(expected, id) => DeactivateKeepsInv(w, expected, id);
    case StartRace(expected, id, mapId, preset, ghostMode, build) =>
      ActivateLocalRaceKeepsInv(f, w, expected, id, mapId, preset, ghostMode, build);
    case StopRace(expected, id) => DeactivateLocalRaceKeepsInv(w, expected, id);
    case Touch(_) =>
    case GhostSettings(target, settings, accepted) => SetGhostModeKeepsInv(w, target, settings, accepted);
    case Weather(id, weather, accepted) => SetWeatherKeepsInv(w, id, weather, accepted);
  }

  lemma {:induction false} FireOneKeepsInv(f: Flavour, w: World, p: Pending, build: Build)
    requires Inv(w)
    ensures var r := FireOne(f, w, p, build); r.Success? ==> Inv(r.value)
  {
    var r := FireOne(f, w, p, build);
    if r.Success? {
      if p.info.activate && !Has(w.sandboxes, p.id) {
        SwitchKeepsInv(f, w, w.revision, Sandbox, p.info.mapId.value, Some(p.id),
                       p.info.timeOfDay.value, p.info.ghostMode, build);
      } else if !p.info.activate {
        DeactivateKeepsInv(w, w.revision, p.id);
      }
      var before :=
        if p.info.activate then
          if Has(w.sandboxes, p.id) then w
          else SwitchRuntime(f, w, w.revision, Sandbox, p.info.mapId.value, Some(p.id),
                             p.info.timeOfDay.value, p.info.ghostMode, build).value
        else DeactivateSandbox(w, w.revision, p.id).value;
      WithoutIn(before.pending, p.id);
      WithoutDistinct(before.pending, p.id);
    }
  }

  lemma {:induction false} FireFromKeepsInv(f: Flavour, w: World, due: seq<Pending>, builds: seq<Build>, i: nat)
    requires Inv(w) && i <= |due|
    ensures Inv(FireFrom(f, w, due, builds, i).world)
    decreases |due| - i
  {
    if i < |due| {
      var r := FireOne(f, w, due[i], BuildAt(builds, i));
      FireOneKeepsInv(f, w, due[i], BuildAt(builds, i));
      if r.Success? {
        FireFromKeepsInv(f, r.value, due, builds, i + 1);
      }
    }
  }

  lemma {:induction false} StepKeepsInv(f: Flavour, w: World, e: Event)
    requires Inv(w)
    ensures Inv(Step(f, w, e))
  {
    match e
    case Handle(c) => ApplyKeepsInv(f, w, c);
    case Tick(now, builds) => FireFromKeepsInv(f, w, Due(w.pending, now), builds, 0);
  }

  // ----- Which map an engine is of -----

  /** Every live engine was built for the map that the metadata names. */
  ghost predicate EnginesFit(w: World) {
    && SandboxEnginesFit(w.sandboxes, w.sandboxEngines)
    && (w.localRace.Some? ==>
          && w.localRace.value.id in w.localRaceEngines
          && w.localRaceEngines[w.localRace.value.id].mapId == w.localRace.value.info.mapId)
    && (w.official.Some? ==> w.official.value.mapId == w.mapId)
  }

  ghost predicate SandboxEnginesFit(sandboxes: seq<Entry<Session>>, engines: map<string, Slot>) {
    forall s | s in sandboxes :: s.id in engines && engines[s.id].mapId == s.info.mapId
  }

  lemma {:induction false} SwitchKeepsFit(
    f: Flavour, w: World, expected: u64, kind: ActivityKind, mapId: string,
    sandboxId: Option<string>, preset: TimeOfDay, ghostMode: Option<GhostMode>, build: Build)
    requires EnginesFit(w)
    ensures var r := SwitchRuntime(f, w, expected, kind, mapId, sandboxId, preset, ghostMode, build);
            r.Success? ==> EnginesFit(r.value)
  {
  }

  lemma {:induction false} DeactivateKeepsFit(w: World, expected: u64, id: string)
    requires Inv(w) && EnginesFit(w)
    ensures var r := DeactivateSandbox(w, expected, id); r.Success? ==> EnginesFit(r.value)
  {
    WithoutIn(w.sandboxes, id);
  }

  lemma {:induction false} RewriteKeepsFit(s: seq<Entry<Session>>, engines: map<string, Slot>, i: nat, info: Session)
    requires SandboxEnginesFit(s, engines) && i < |s| && info.mapId == s[i].info.mapId
    ensures SandboxEnginesFit(s[i := s[i].(info := info)], engines)
  {
    assert s[i] in s;
  }

  lemma {:induction false} SetTimeOfDayKeepsFit(w: World, expected: u64, sandboxId: Option<string>, preset: TimeOfDay)
    requires EnginesFit(w)
    ensures var r := SetTimeOfDay(w, expected, sandboxId, preset); r.Success? ==> EnginesFit(r.value)
  {
    if SetTimeOfDay(w, expected, sandboxId, preset).Success? {
      var i := FirstIndex(w.sandboxes, if sandboxId.Some? then sandboxId.value else w.sandboxes[0].id);
      RewriteKeepsFit(w.sandboxes, w.sandboxEngines, i, w.sandboxes[i].info.(timeOfDay := preset));
    }
  }

  lemma {:induction false} SetWeatherKeepsFit(w: World, id: string, weather: WeatherNow, accepted: bool)
    requires EnginesFit(w)
    ensures var r := SetWeather(w, id, weather, accepted); r.Success? ==> EnginesFit(r.value)
  {
    if SetWeather(w, id, weather, accepted).Success? {
      var i := FirstIndex(w.sandboxes, id);
      RewriteKeepsFit(w.sandboxes, w.sandboxEngines, i, w.sandboxes[i].info.(weatherNow := Some(weather)));
    }
  }

  lemma {:induction false} SetGhostModeKeepsFit(w: World, target: Target, ghostMode: GhostMode, accepted: bool)
    requires EnginesFit(w)
    ensures var r := SetGhostMode(w, target, ghostMode, accepted); r.Success? ==> EnginesFit(r.value)
  {
  }

  lemma {:induction false} ActivateLocalRaceKeepsFit(
    f: Flavour, w: World, expected: u64, raceId: string, mapId: string, preset: TimeOfDay,
    ghostMode: Option<GhostMode>, build: Build)
    requires Inv(w) && EnginesFit(w)
    ensures var r := ActivateLocalRace(f, w, expected, raceId, mapId, preset, ghostMode, build);
            r.Success? ==> EnginesFit(r.value)
  {
  }

  lemma {:induction false} DeactivateLocalRaceKeepsFit(w: World, expected: u64, raceId: string)
    requires EnginesFit(w)
    ensures var r := DeactivateLocalRace(w, expected, raceId); r.Success? ==> EnginesFit(r.value)
  {
  }

  lemma {:induction false} ApplyKeepsFit(f: Flavour, w: World, c: Command)
    requires Inv(w) && EnginesFit(w)
    ensures var r := Apply(f, w, c); r.Success? ==> EnginesFit(r.value)
  {
    match c
    case Switch(expected, kind, mapId, sandboxId, preset, ghostMode, build) =>
      SwitchKeepsFit(f, w, expected, kind, mapId, sandboxId, GetOr(preset, w.timeOfDay), ghostMode, build);
    case SetPreset(expected, sandboxId, preset) => SetTimeOfDayKeepsFit(w, expected, sandboxId, preset);
    case Schedule(_, _) =>
    case Cancel(_, _) =>
    case Deactivate(expected, id) => DeactivateKeepsFit(w, expected, id);
    case StartRace(expected, id, mapId, preset, ghostMode, build) =>
      ActivateLocalRaceKeepsFit(f, w, expected, id, mapId, preset, ghostMode, build);
    case StopRace(expected, id) => DeactivateLocalRaceKeepsFit(w, expected, id);
    case Touch(_) =>
    case GhostSettings(target, settings, accepted) => SetGhostModeKeepsFit(w, target, settings, accepted);
    case Weather(id, weather, accepted) => SetWeatherKeepsFit(w, id, weather, accepted);
  }

  lemma {:induction false} FireOneKeepsFit(f: Flavour, w: World, p: Pending, build: Build)
    requires Inv(w) && EnginesFit(w)
    ensures var r := FireOne(f, w, p, build); r.Success? ==> EnginesFit(r.value)
  {
    if FireOne(f, w, p, build).Success? {
      if p.info.activate && !Has(w.sandboxes, p.id) {
        SwitchKeepsFit(f, w, w.revision, Sandbox, p.info.mapId.value, Some(p.id),
                       p.info.timeOfDay.value, p.info.ghostMode, build);
      } else if !p.info.activate {
        DeactivateKeepsFit(w, w.revision, p.id);
      }
    }
  }

  lemma {:induction false} FireFromKeepsFit(f: Flavour, w: World, due: seq<Pending>, builds: seq<Build>, i: nat)
    requires Inv(w) && EnginesFit(w) && i <= |due|
    ensures EnginesFit(FireFrom(f, w, due, builds, i).world)
    decreases |due| - i
  {
    if i < |due| {
      var r := FireOne(f, w, due[i], BuildAt(builds, i));
      FireOneKeepsInv(f, w, due[i], BuildAt(builds, i));
      FireOneKeepsFit(f, w, due[i], BuildAt(builds, i));
      if r.Success? {
        FireFromKeepsFit(f, r.value, due, builds, i + 1);
      }
    }
  }

  lemma {:induction false} StepKeepsFit(f: Flavour, w: World, e: Event)
    requires Inv(w) && EnginesFit(w)
    ensures EnginesFit(Step(f, w, e))
  {
    match e
    case Handle(c) => ApplyKeepsFit(f, w, c);
    case Tick(now, builds) => FireFromKeepsFit(f, w, Due(w.pending, now), builds, 0);
  }

  /**
   Both views of the runtime agree in every state that the worker can reach, down to the map that
   each live engine was built for.
   */
  lemma {:induction false} RunKeepsInv(f: Flavour, events: seq<Event>)
    ensures Inv(Run(f, INITIAL_WORLD, events)) && EnginesFit(Run(f, INITIAL_WORLD, events))
    decreases |events|
  {
    if events != [] {
      var before := Run(f, INITIAL_WORLD, events[..|events| - 1]);
      RunKeepsInv(f, events[..|events| - 1]);
      StepKeepsInv(f, before, events[|events| - 1]);
      StepKeepsFit(f, before, events[|events| - 1]);
    }
  }
}
