/**
 What an accepted command and a firing pass make of the runtime, sandbox by sandbox: which session
 and engine each of them has afterwards, and which mode the worker is in.
 */
module EngineEffects {
  import opened Prelude
  import opened Roster
  import opened EngineModel
  import opened EngineInvariant
  import opened EngineScheduling

  // ----- One sandbox in a world -----

  /** The sandbox runs this session on this engine, and has no other session. */
  ghost predicate Runs(w: World, id: string, session: Session, slot: Slot) {
    && Entry(id, session) in w.sandboxes
    && (forall e | e in w.sandboxes && e.id == id :: e.info == session)
    && id in w.sandboxEngines && w.sandboxEngines[id] == slot
  }

  ghost predicate IsGone(w: World, id: string) {
    (forall e | e in w.sandboxes :: e.id != id) && id !in w.sandboxEngines
  }

  /** For this sandbox, both worlds are the same. */
  ghost predicate SameFor(w: World, next: World, id: string) {
    && (forall e: Entry<Session> | e.id == id :: e in w.sandboxes <==> e in next.sandboxes)
    && (id in w.sandboxEngines <==> id in next.sandboxEngines)
    && (id in w.sandboxEngines ==> next.sandboxEngines[id] == w.sandboxEngines[id])
  }

  ghost predicate OthersStay(w: World, next: World, id: string) {
    forall other | other != id :: SameFor(w, next, other)
  }

  /** The queue has lost what it had for this sandbox, and nothing else. */
  ghost predicate Unqueued(w: World, next: World, id: string) {
    forall p :: p in next.pending <==> p in w.pending && p.id != id
  }

  /** What the worker runs beside its sandboxes. */
  datatype Mode = Mode(kind: ActivityKind, mapId: string, timeOfDay: TimeOfDay, official: Option<Slot>)

  function ModeOf(w: World): Mode {
    Mode(w.kind, w.mapId, w.timeOfDay, w.official)
  }

  ghost predicate LocalRaceStays(w: World, next: World) {
    next.localRace == w.localRace && next.localRaceEngines == w.localRaceEngines
  }

  lemma {:induction false} RunsStays(w: World, next: World, id: string, session: Session, slot: Slot)
    requires Runs(w, id, session, slot) && SameFor(w, next, id)
    ensures Runs(next, id, session, slot)
  {
    forall e | e in next.sandboxes && e.id == id ensures e.info == session {
      assert e in w.sandboxes;
    }
  }

  lemma {:induction false} SameForTransitive(a: World, b: World, c: World, id: string)
    requires SameFor(a, b, id) && SameFor(b, c, id)
    ensures SameFor(a, c, id)
  {
  }

  // ----- Commands -----

  /** What a sandbox needs to be started. */
  ghost predicate CanStart(f: Flavour, w: World, id: string, mapId: string, preset: TimeOfDay, build: Build) {
    && !IsBlank(id) && (forall e | e in w.sandboxes :: e.id != id)
    && preset != Unspecified && IsValidMapId(f, mapId) && build.Built?
  }

  /**
   Switching to a sandbox starts it on its map with its preset and ghost mode, the default one if none
   is given, and leaves every other sandbox, the official engine and the local race alone.
   */
  lemma {:induction false} SwitchStartsTheSandbox(
    f: Flavour, w: World, expected: u64, mapId: string, id: string, preset: TimeOfDay,
    ghostMode: Option<GhostMode>, build: Build)
    ensures var r := SwitchRuntime(f, w, expected, Sandbox, mapId, Some(id), preset, ghostMode, build);
            && (r.Success? <==> expected == w.revision && CanStart(f, w, id, mapId, preset, build))
            && (r.Success? ==>
                  && Runs(r.value, id, Session(mapId, preset, None),
                          Slot(build.engine, mapId, if ghostMode.Some? then ghostMode.value else DEFAULT_GHOST_MODE))
                  && OthersStay(w, r.value, id) && Unqueued(w, r.value, id) && LocalRaceStays(w, r.value)
                  && ModeOf(r.value) == Mode(Sandbox, w.mapId, preset, w.official))
  {
    var r := SwitchRuntime(f, w, expected, Sandbox, mapId, Some(id), preset, ghostMode, build);
    WithoutIn(w.pending, id);
    if r.Success? {
      var added := Entry(id, Session(mapId, preset, None));
      assert forall e :: e in r.value.sandboxes <==> e in w.sandboxes || e == added;
    }
  }

  /** Switching to an official race stops every sandbox; its engine keeps the ghost mode unless one is given. */
  lemma {:induction false} SwitchStartsTheOfficialRace(
    f: Flavour, w: World, expected: u64, mapId: string, id: Option<string>, preset: TimeOfDay,
    ghostMode: Option<GhostMode>, build: Build)
    ensures var r := SwitchRuntime(f, w, expected, OfficialRace, mapId, id, preset, ghostMode, build);
            && (r.Success? <==> expected == w.revision && IsValidMapId(f, mapId) && build.Built?)
            && (r.Success? ==>
                  && (forall other :: IsGone(r.value, other))
                  && r.value.pending == w.pending && LocalRaceStays(w, r.value)
                  && ModeOf(r.value).(official := None) == Mode(OfficialRace, mapId, preset, None)
                  && r.value.official.Some?
                  && r.value.official.value.engine == build.engine && r.value.official.value.mapId == mapId
                  && (ghostMode.Some? ==> r.value.official.value.ghostMode == ghostMode.value)
                  && (ghostMode.None? && w.official.Some? ==>
                        r.value.official.value.ghostMode == w.official.value.ghostMode)
                  && (ghostMode.None? && w.official.None? ==>
                        r.value.official.value.ghostMode == DEFAULT_GHOST_MODE))
  {
  }

  /** Switching to idle stops everything but a local race. */
  lemma {:induction false} SwitchToIdleStops(
    f: Flavour, w: World, expected: u64, mapId: string, id: Option<string>, preset: TimeOfDay,
    ghostMode: Option<GhostMode>, build: Build)
    ensures var r := SwitchRuntime(f, w, expected, Idle, mapId, id, preset, ghostMode, build);
            && (r.Success? <==> expected == w.revision && IsValidMapId(f, mapId))
            && (r.Success? ==>
                  && (forall other :: IsGone(r.value, other))
                  && r.value.pending == w.pending && LocalRaceStays(w, r.value)
                  && ModeOf(r.value) == Mode(Idle, mapId, preset, None))
  {
  }

  /** The mode that is left when a sandbox goes: the local race's, or idle, if it was the last one. */
  ghost function ModeWithout(w: World, id: string): Mode {
    if Ids(w.sandboxes) != {id} then ModeOf(w)
    else if w.localRace.Some? then
      Mode(LocalRace, w.localRace.value.info.mapId, w.localRace.value.info.timeOfDay, None)
    else Mode(Idle, w.mapId, Unspecified, None)
  }

  lemma {:induction false} DeactivationLeavesTheMode(w: World, expected: u64, id: string)
    requires Inv(w) && DeactivateSandbox(w, expected, id).Success?
    ensures ModeOf(DeactivateSandbox(w, expected, id).value) == ModeWithout(w, id)
  {
    WithoutHas(w.sandboxes, id);
    IdsEmpty(w.sandboxes);
    IdsEmpty(Without(w.sandboxes, id));
  }

  lemma {:induction false} DeactivationSparesOthers(w: World, expected: u64, id: string)
    requires DeactivateSandbox(w, expected, id).Success?
    ensures var next := DeactivateSandbox(w, expected, id).value;
            IsGone(next, id) && OthersStay(w, next, id) && LocalRaceStays(w, next)
  {
    WithoutIn(w.sandboxes, id);
  }

  lemma {:induction false} DeactivationStopsTheSandbox(w: World, expected: u64, id: string)
    requires Inv(w)
    ensures var r := DeactivateSandbox(w, expected, id);
            && (r.Success? <==> expected == w.revision && !IsBlank(id))
            && (r.Success? ==>
                  && IsGone(r.value, id) && Ids(r.value.sandboxes) == Ids(w.sandboxes) - {id}
                  && OthersStay(w, r.value, id) && Unqueued(w, r.value, id) && LocalRaceStays(w, r.value)
                  && ModeOf(r.value) == ModeWithout(w, id))
  {
    var r := DeactivateSandbox(w, expected, id);
    if r.Success? {
      WithoutHas(w.sandboxes, id);
      WithoutIn(w.pending, id);
      DeactivationSparesOthers(w, expected, id);
      DeactivationLeavesTheMode(w, expected, id);
    }
  }

  lemma {:induction false} IdsEmpty(s: seq<Entry<Session>>)
    ensures Ids(s) == {} <==> s == []
  {
    if s != [] {
      assert s[0].id in Ids(s);
    }
  }

  /** A local race starts with its map, preset and ghost mode; it becomes the main mode if there is none. */
  lemma {:induction false} ActivationStartsTheLocalRace(
    f: Flavour, w: World, expected: u64, raceId: string, mapId: string, preset: TimeOfDay,
    ghostMode: Option<GhostMode>, build: Build)
    ensures var r := ActivateLocalRace(f, w, expected, raceId, mapId, preset, ghostMode, build);
            && (r.Success? <==>
                  && expected == w.revision && !IsBlank(raceId) && w.localRace.None? && preset != Unspecified
                  && IsValidMapId(f, mapId) && build.Built?)
            && (r.Success? ==>
                  && r.value.localRace == Some(Entry(raceId, Session(mapId, preset, None)))
                  && raceId in r.value.localRaceEngines
                  && r.value.localRaceEngines[raceId] ==
                     Slot(build.engine, mapId, if ghostMode.Some? then ghostMode.value else DEFAULT_GHOST_MODE)
                  && r.value.sandboxes == w.sandboxes && r.value.sandboxEngines == w.sandboxEngines
                  && r.value.pending == w.pending
                  && ModeOf(r.value) == if w.sandboxes == [] && w.kind != OfficialRace
                                        then Mode(LocalRace, mapId, preset, w.official) else ModeOf(w))
  {
  }

  lemma {:induction false} StoppingEndsTheLocalRace(w: World, expected: u64, raceId: string)
    requires Inv(w)
    ensures var r := DeactivateLocalRace(w, expected, raceId);
            && (r.Success? <==> expected == w.revision && w.localRace.Some? && w.localRace.value.id == raceId)
            && (r.Success? ==>
                  && r.value.localRace.None? && r.value.localRaceEngines == map[]
                  && r.value.sandboxes == w.sandboxes && r.value.sandboxEngines == w.sandboxEngines
                  && r.value.pending == w.pending
                  && ModeOf(r.value) == if w.kind == LocalRace then Mode(Idle, w.mapId, Unspecified, w.official)
                                        else ModeOf(w))
  {
  }

  lemma {:induction false} RewrittenRuns(s: seq<Entry<Session>>, i: nat, info: Session)
    requires Distinct(s) && i < |s|
    ensures var r := s[i := s[i].(info := info)];
            forall e :: e in r <==> e == Entry(s[i].id, info) || (e in s && e.id != s[i].id)
  {
    var r := s[i := s[i].(info := info)];
    assert r[i] in r;
    forall e ensures e in r <==> e == Entry(s[i].id, info) || (e in s && e.id != s[i].id) {
      if e in s && e.id != s[i].id {
        var j :| 0 <= j < |s| && s[j] == e;
        assert r[j] == e;
      }
    }
  }

  /** The sandbox that a time of day is for: the one named, or the only one. */
  ghost predicate IsMeant(w: World, sandboxId: Option<string>, id: string) {
    if sandboxId.Some? then id == sandboxId.value else |w.sandboxes| == 1 && id == w.sandboxes[0].id
  }

  /** The sandbox's own session takes the preset, and so does the runtime. */
  lemma {:induction false} TimeOfDayReachesTheSandbox(
    w: World, expected: u64, sandboxId: Option<string>, preset: TimeOfDay, e: Entry<Session>)
    requires Inv(w) && e in w.sandboxes && IsMeant(w, sandboxId, e.id)
    ensures var r := SetTimeOfDay(w, expected, sandboxId, preset);
            && (r.Success? <==> expected == w.revision && preset != Unspecified)
            && (r.Success? ==>
                  && Runs(r.value, e.id, e.info.(timeOfDay := preset), w.sandboxEngines[e.id])
                  && OthersStay(w, r.value, e.id) && LocalRaceStays(w, r.value) && r.value.pending == w.pending
                  && ModeOf(r.value) == ModeOf(w).(timeOfDay := preset))
  {
    var r := SetTimeOfDay(w, expected, sandboxId, preset);
    assert e.id in Ids(w.sandboxes);
    if r.Success? {
      var i := FirstIndex(w.sandboxes, e.id);
      OneEntryAnId(w.sandboxes, e, i);
      RewrittenRuns(w.sandboxes, i, e.info.(timeOfDay := preset));
    }
  }

  lemma {:induction false} OneEntryAnId(s: seq<Entry<Session>>, e: Entry<Session>, i: nat)
    requires Distinct(s) && e in s && i < |s| && s[i].id == e.id
    ensures s[i] == e
  {
  }

  /** It is refused if no active sandbox is meant. */
  lemma {:induction false} TimeOfDayNeedsASandbox(w: World, expected: u64, sandboxId: Option<string>, preset: TimeOfDay)
    requires Inv(w) && SetTimeOfDay(w, expected, sandboxId, preset).Success?
    ensures exists e :: e in w.sandboxes && IsMeant(w, sandboxId, e.id)
  {
    var id := if sandboxId.Some? then sandboxId.value else w.sandboxes[0].id;
    var e := w.sandboxes[FirstIndex(w.sandboxes, id)];
    assert e in w.sandboxes && IsMeant(w, sandboxId, e.id);
  }

  /** The sandbox shows the weather if its engine takes it. */
  lemma {:induction false} WeatherReachesTheSandbox(
    w: World, weather: WeatherNow, accepted: bool, e: Entry<Session>)
    requires Inv(w) && e in w.sandboxes
    ensures var r := SetWeather(w, e.id, weather, accepted);
            && (r.Success? <==> accepted)
            && (r.Success? ==>
                  && Runs(r.value, e.id, e.info.(weatherNow := Some(weather)), w.sandboxEngines[e.id])
                  && OthersStay(w, r.value, e.id) && LocalRaceStays(w, r.value) && r.value.pending == w.pending
                  && ModeOf(r.value) == ModeOf(w) && r.value.revision == w.revision)
  {
    var r := SetWeather(w, e.id, weather, accepted);
    assert e.id in Ids(w.sandboxes);
    if r.Success? {
      var i := FirstIndex(w.sandboxes, e.id);
      OneEntryAnId(w.sandboxes, e, i);
      RewrittenRuns(w.sandboxes, i, e.info.(weatherNow := Some(weather)));
    }
  }

  /** The engine that the target is routed to takes the ghost mode, and no other engine does. */
  lemma {:induction false} GhostModeReachesTheEngine(w: World, target: Target, ghostMode: GhostMode, accepted: bool)
    ensures var r := SetGhostMode(w, target, ghostMode, accepted);
            && (r.Success? <==> Route(w, target).Success? && accepted)
            && (r.Success? ==>
                  && Route(r.value, target) == Success(Route(w, target).value.(ghostMode := ghostMode))
                  && (forall other | other != target :: Route(r.value, other) == Route(w, other))
                  && r.value.sandboxes == w.sandboxes && r.value.pending == w.pending
                  && r.value.localRace == w.localRace && r.value.revision == w.revision
                  && ModeOf(r.value).(official := w.official) == ModeOf(w))
  {
  }

  /** A queued entry takes the place of the one that the queue had for its sandbox. */
  lemma {:induction false} SchedulingQueuesTheEntry(w: World, expected: u64, entry: Pending)
    requires Inv(w)
    ensures var r := SetPending(w, expected, entry);
            && (r.Success? <==>
                  expected == w.revision && WellFormedPending(entry)
                  && (entry.info.activate ==> forall e | e in w.sandboxes :: e.id != entry.id))
            && (r.Success? ==>
                  && (forall p :: p in r.value.pending <==> p == entry || (p in w.pending && p.id != entry.id))
                  && r.value.(pending := w.pending, revision := w.revision) == w)
  {
    UpsertIn(w.pending, entry);
  }

  lemma {:induction false} CancellingUnqueues(w: World, expected: u64, id: string)
    ensures var r := CancelPending(w, expected, id);
            && (r.Success? <==> expected == w.revision && !IsBlank(id))
            && (r.Success? ==> Unqueued(w, r.value, id) && r.value.(pending := w.pending, revision := w.revision) == w)
  {
    WithoutIn(w.pending, id);
  }

  // ----- A firing pass -----

  /** What a scheduled activation starts. */
  ghost predicate Started(w: World, p: Pending, build: Build) {
    && p.info.mapId.Some? && p.info.timeOfDay.Some? && p.info.ghostMode.Some? && build.Built?
    && Runs(w, p.id, Session(p.info.mapId.value, p.info.timeOfDay.value, None),
            Slot(build.engine, p.info.mapId.value, p.info.ghostMode.value))
  }

  /** The active sandboxes and the mode after one entry, and after those from i up to n. */
  function ActiveWith(active: set<string>, p: Pending): set<string> {
    if p.info.activate then active + {p.id} else active - {p.id}
  }

  function ModeWith(m: Mode, active: set<string>, localRace: Option<Entry<Session>>, p: Pending): Mode {
    if p.info.activate then
      m.(kind := Sandbox, timeOfDay := if p.info.timeOfDay.Some? then p.info.timeOfDay.value else Unspecified)
    else if active != {p.id} then m
    else if localRace.Some? then
      Mode(LocalRace, localRace.value.info.mapId, localRace.value.info.timeOfDay, None)
    else Mode(Idle, m.mapId, Unspecified, None)
  }

  function ModeAfter(
    m: Mode, active: set<string>, localRace: Option<Entry<Session>>, due: seq<Pending>, i: nat, n: nat): Mode
    requires i <= n <= |due|
    decreases n - i
  {
    if i == n then m
    else ModeAfter(ModeWith(m, active, localRace, due[i]), ActiveWith(active, due[i]), localRace, due, i + 1, n)
  }

  lemma {:induction false} UnqueuedTwice(w: World, mid: World, p: Pending)
    requires Unqueued(w, mid, p.id)
    ensures Without(mid.pending, p.id) == mid.pending
  {
    WithoutIn(mid.pending, p.id);
    WithoutAbsent(mid.pending, p.id);
  }

  /** What firing one entry does. */
  lemma {:induction false} FireOneEffect(f: Flavour, w: World, p: Pending, build: Build)
    requires Inv(w) && p in w.pending && FireOne(f, w, p, build).Success?
    ensures var next := FireOne(f, w, p, build).value;
            && (if p.info.activate then Started(next, p, build) else IsGone(next, p.id))
            && OthersStay(w, next, p.id) && LocalRaceStays(w, next)
            && Ids(next.sandboxes) == ActiveWith(Ids(w.sandboxes), p)
            && ModeOf(next) == ModeWith(ModeOf(w), Ids(w.sandboxes), w.localRace, p)
  {
    var next := FireOne(f, w, p, build).value;
    if p.info.activate {
      SwitchStartsTheSandbox(f, w, w.revision, p.info.mapId.value, p.id, p.info.timeOfDay.value,
                             p.info.ghostMode, build);
      var mid := SwitchRuntime(f, w, w.revision, Sandbox, p.info.mapId.value, Some(p.id),
                               p.info.timeOfDay.value, p.info.ghostMode, build).value;
      UnqueuedTwice(w, mid, p);
      assert next == mid;
      IdsAppended(w.sandboxes, mid.sandboxes[|w.sandboxes|]);
    } else {
      DeactivationStopsTheSandbox(w, w.revision, p.id);
      UnqueuedTwice(w, DeactivateSandbox(w, w.revision, p.id).value, p);
    }
  }

  lemma {:induction false} IdsAppended(s: seq<Entry<Session>>, e: Entry<Session>)
    ensures Ids(s + [e]) == Ids(s) + {e.id}
  {
    assert forall x :: x in s + [e] <==> x in s || x == e;
  }

  /** What a pass from the i-th entry on does to the sandboxes. */
  ghost predicate Fired(w: World, next: World, due: seq<Pending>, builds: seq<Build>, i: nat, n: nat)
    requires i <= n <= |due|
  {
    && (forall j | i <= j < n ::
          if due[j].info.activate then j < |builds| && Started(next, due[j], builds[j]) else IsGone(next, due[j].id))
    && (forall id | (forall j | i <= j < n :: due[j].id != id) :: SameFor(w, next, id))
    && LocalRaceStays(w, next)
    && ModeOf(next) == ModeAfter(ModeOf(w), Ids(w.sandboxes), w.localRace, due, i, n)
  }

  lemma {:induction false} FiredNext(
    w: World, mid: World, next: World, due: seq<Pending>, builds: seq<Build>, i: nat, n: nat)
    requires i < n <= |due| && Distinct(due) && Fired(mid, next, due, builds, i + 1, n)
    requires if due[i].info.activate then Started(mid, due[i], BuildAt(builds, i)) else IsGone(mid, due[i].id)
    requires OthersStay(w, mid, due[i].id) && LocalRaceStays(w, mid)
    requires Ids(mid.sandboxes) == ActiveWith(Ids(w.sandboxes), due[i])
    requires ModeOf(mid) == ModeWith(ModeOf(w), Ids(w.sandboxes), w.localRace, due[i])
    ensures Fired(w, next, due, builds, i, n)
  {
    var p := due[i];
    assert SameFor(mid, next, p.id);
    if p.info.activate {
      RunsStays(mid, next, p.id, Session(p.info.mapId.value, p.info.timeOfDay.value, None),
                Slot(BuildAt(builds, i).engine, p.info.mapId.value, p.info.ghostMode.value));
    }
    forall id | (forall j | i <= j < n :: due[j].id != id) ensures SameFor(w, next, id) {
      assert due[i].id != id;
      SameForTransitive(w, mid, next, id);
    }
  }

  lemma {:induction false} FireFromEffect(f: Flavour, w: World, due: seq<Pending>, builds: seq<Build>, i: nat)
    requires i <= |due| && Queued(w, due, i)
    ensures var r := FireFrom(f, w, due, builds, i);
            i <= r.fired <= |due| && Fired(w, r.world, due, builds, i, r.fired)
    decreases |due| - i
  {
    FireFromExtent(f, w, due, builds, i);
    if i < |due| {
      FireFromNext(f, w, due, builds, i);
      FireOneOfMany(f, w, due, BuildAt(builds, i), i);
      var one := FireOne(f, w, due[i], BuildAt(builds, i));
      if one.Success? {
        FireOneEffect(f, w, due[i], BuildAt(builds, i));
        FireFromEffect(f, one.value, due, builds, i + 1);
        var r := FireFrom(f, one.value, due, builds, i + 1);
        FiredNext(w, one.value, r.world, due, builds, i, r.fired);
      }
    }
  }

  /**
   After a pass every activation that was fired runs on its own map, with its own preset and ghost mode
   and the engine that was built for it; every deactivated sandbox is gone; every sandbox that no fired
   entry names is as before. The worker is in the mode that the fired entries lead to one by one.
   */
  lemma {:induction false} FiringStartsWhatWasScheduled(f: Flavour, w: World, now: int, builds: seq<Build>)
    requires Inv(w)
    ensures var due, r := Due(w.pending, now), FireDue(f, w, now, builds);
            r.fired <= |due| && Fired(w, r.world, due, builds, 0, r.fired)
  {
    DueIsTheQueueByTime(w.pending, now);
    var due := Due(w.pending, now);
    forall j | 0 <= j < |due| ensures due[j] in w.pending {
      assert due[j] in due;
    }
    FireFromEffect(f, w, due, builds, 0);
  }
}
