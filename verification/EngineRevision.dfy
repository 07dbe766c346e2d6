/**
 What the revision stands for: two reads with one revision read one state, so a client whose
 compare-and-swap command is accepted acted on the state that it had read. Also which engine a
 command reaches, and when deactivating a sandbox undoes its activation.
 */
module EngineRevision {
  import opened Prelude
  import opened Roster
  import opened EngineModel
  import opened EngineInvariant
  import opened EngineScheduling

  /** The state that clients read, without the weather reports. */
  datatype Metadata = Metadata(
    revision: u64, kind: ActivityKind, mapId: string, localRace: Option<Entry<Session>>,
    sandboxes: seq<Entry<Session>>, timeOfDay: TimeOfDay, pending: seq<Pending>)

  function HideWeather(s: Entry<Session>): Entry<Session> {
    s.(info := s.info.(weatherNow := None))
  }

  function HideAllWeather(s: seq<Entry<Session>>): seq<Entry<Session>> {
    seq(|s|, i requires 0 <= i < |s| => HideWeather(s[i]))
  }

  function MetadataOf(w: World): Metadata {
    Metadata(w.revision, w.kind, w.mapId,
             if w.localRace.Some? then Some(HideWeather(w.localRace.value)) else None,
             HideAllWeather(w.sandboxes), w.timeOfDay, w.pending)
  }

  /** The live engines and the maps they were built for, without the ghost modes. */
  datatype Engines = Engines(
    official: Option<Slot>, sandboxEngines: map<string, Slot>, localRaceEngines: map<string, Slot>)

  function HideGhostMode(s: Slot): Slot {
    s.(ghostMode := DEFAULT_GHOST_MODE)
  }

  function HideGhostModes(m: map<string, Slot>): map<string, Slot> {
    map id | id in m :: HideGhostMode(m[id])
  }

  function EnginesOf(w: World): Engines {
    Engines(if w.official.Some? then Some(HideGhostMode(w.official.value)) else None,
            HideGhostModes(w.sandboxEngines), HideGhostModes(w.localRaceEngines))
  }

  /** What the revision does not count is only the current weather and the ghost modes. */
  predicate SameState(a: World, b: World) {
    MetadataOf(a) == MetadataOf(b) && EnginesOf(a) == EnginesOf(b)
  }

  /** `later` is in the state of `earlier`, or at a higher revision, or at the saturated one. */
  ghost predicate Follows(earlier: World, later: World) {
    && earlier.revision <= later.revision
    && (|| SameState(earlier, later)
        || earlier.revision < later.revision
        || later.revision == U64_MAX)
  }

  predicate IsCompareAndSwap(c: Command) {
    !c.GhostSettings? && !c.Weather?
  }

  lemma {:induction false} AcceptedSwitchBumps(
    f: Flavour, w: World, expected: u64, kind: ActivityKind, mapId: string, sandboxId: Option<string>,
    preset: TimeOfDay, ghostMode: Option<GhostMode>, build: Build)
    ensures var r := SwitchRuntime(f, w, expected, kind, mapId, sandboxId, preset, ghostMode, build);
            r.Success? ==> r.value.revision == (if w.revision < U64_MAX then w.revision + 1 else U64_MAX)
  {
  }

  /** Every accepted compare-and-swap command bumps the revision, but for cancelling nothing. */
  lemma {:induction false} AcceptedCommandBumps(f: Flavour, w: World, c: Command)
    requires IsCompareAndSwap(c)
    ensures var r := Apply(f, w, c);
            r.Success? ==>
              || r.value.revision == (if w.revision < U64_MAX then w.revision + 1 else U64_MAX)
              || (c.Cancel? && !Has(w.pending, c.id) && r.value == w)
  {
    if c.Switch? {
      AcceptedSwitchBumps(f, w, c.expected, c.kind, c.mapId, c.sandboxId, GetOr(c.preset, w.timeOfDay), c.ghostMode, c.build);
    }
  }

  lemma {:induction false} GhostModeKeepsState(w: World, target: Target, ghostMode: GhostMode, accepted: bool)
    ensures var r := SetGhostMode(w, target, ghostMode, accepted); r.Success? ==> SameState(w, r.value)
  {
    var r := SetGhostMode(w, target, ghostMode, accepted);
    if r.Success? {
      assert EnginesOf(r.value) == EnginesOf(w);
    }
  }

  lemma {:induction false} WeatherKeepsState(w: World, id: string, weather: WeatherNow, accepted: bool)
    ensures var r := SetWeather(w, id, weather, accepted); r.Success? ==> SameState(w, r.value)
  {
    var r := SetWeather(w, id, weather, accepted);
    if r.Success? {
      assert HideAllWeather(r.value.sandboxes) == HideAllWeather(w.sandboxes);
    }
  }

  lemma {:induction false} ApplyFollows(f: Flavour, w: World, c: Command)
    ensures var r := Apply(f, w, c); r.Success? ==> Follows(w, r.value)
  {
    match c
    case GhostSettings(target, settings, accepted) => GhostModeKeepsState(w, target, settings, accepted);
    case Weather(id, weather, accepted) => WeatherKeepsState(w, id, weather, accepted);
    case _ => AcceptedCommandBumps(f, w, c);
  }

  lemma {:induction false} TickFollows(f: Flavour, w: World, now: int, builds: seq<Build>)
    requires Inv(w)
    ensures Follows(w, FireDue(f, w, now, builds).world)
  {
    FiringExecutesAPrefix(f, w, now, builds);
  }

  lemma {:induction false} StepFollows(f: Flavour, w: World, e: Event)
    requires Inv(w)
    ensures Follows(w, Step(f, w, e))
  {
    match e
    case Handle(c) => ApplyFollows(f, w, c);
    case Tick(now, builds) => TickFollows(f, w, now, builds);
  }

  function StateAt(f: Flavour, events: seq<Event>, i: nat): World
    requires i <= |events|
  {
    Run(f, INITIAL_WORLD, events[..i])
  }

  lemma {:induction false} StateAtNext(f: Flavour, events: seq<Event>, i: nat)
    requires i < |events|
    ensures StateAt(f, events, i + 1) == Step(f, StateAt(f, events, i), events[i])
  {
    assert events[..i + 1][..i] == events[..i];
  }

  lemma {:induction false} FollowsTransitive(a: World, b: World, c: World)
    requires Follows(a, b) && Follows(b, c)
    ensures Follows(a, c)
  {
  }

  lemma {:induction false} RunFollows(f: Flavour, events: seq<Event>, i: nat, j: nat)
    requires i <= j <= |events|
    ensures Follows(StateAt(f, events, i), StateAt(f, events, j))
    decreases j
  {
    if i < j {
      RunFollows(f, events, i, j - 1);
      RunKeepsInv(f, events[..j - 1]);
      StepFollows(f, StateAt(f, events, j - 1), events[j - 1]);
      StateAtNext(f, events, j - 1);
      FollowsTransitive(StateAt(f, events, i), StateAt(f, events, j - 1), StateAt(f, events, j));
    }
  }

  /** Below saturation, the revision determines the state in any run of the worker. */
  lemma {:induction false} RevisionDeterminesState(f: Flavour, events: seq<Event>, i: nat, j: nat)
    requires i <= j <= |events|
    requires StateAt(f, events, i).revision == StateAt(f, events, j).revision < U64_MAX
    ensures MetadataOf(StateAt(f, events, i)) == MetadataOf(StateAt(f, events, j))
    ensures EnginesOf(StateAt(f, events, i)) == EnginesOf(StateAt(f, events, j))
  {
    RunFollows(f, events, i, j);
  }

  lemma {:induction false} SameSandboxIds(s: seq<Entry<Session>>, t: seq<Entry<Session>>)
    requires HideAllWeather(s) == HideAllWeather(t)
    ensures Ids(s) == Ids(t)
    ensures |s| == |t|
    ensures forall id :: Has(s, id) <==> Has(t, id)
  {
    forall k | 0 <= k < |s| ensures s[k].id == t[k].id {
      assert HideAllWeather(s)[k] == HideWeather(s[k]) && HideAllWeather(t)[k] == HideWeather(t[k]);
    }
    forall id ensures id in Ids(s) <==> id in Ids(t) {
      if id in Ids(s) {
        var k :| 0 <= k < |s| && s[k].id == id;
        assert t[k] in t;
      }
      if id in Ids(t) {
        var k :| 0 <= k < |t| && t[k].id == id;
        assert s[k] in s;
      }
    }
    forall id ensures Has(s, id) <==> Has(t, id) {
      assert Has(s, id) <==> id in Ids(s);
      assert Has(t, id) <==> id in Ids(t);
    }
  }

  /**
   A client reads the state after event i and sends a command that expects the revision it read.
   If the worker accepts it after event j, the state is still the one the client looked at.
   */
  lemma {:induction false} AcceptedCommandActsOnTheStateRead(f: Flavour, events: seq<Event>, i: nat, j: nat, c: Command)
    requires i <= j <= |events| && IsCompareAndSwap(c)
    requires c.expected == StateAt(f, events, i).revision < U64_MAX
    requires Apply(f, StateAt(f, events, j), c).Success?
    ensures MetadataOf(StateAt(f, events, j)) == MetadataOf(StateAt(f, events, i))
  {
    RevisionDeterminesState(f, events, i, j);
  }

  /** A change that the revision does not show. */
  ghost predicate HiddenChange(f: Flavour, w: World, c: Command) {
    var r := Apply(f, w, c);
    && r.Success?
    && r.value.revision == w.revision
    && MetadataOf(r.value) != MetadataOf(w)
  }

  lemma {:induction false} QueueingIsHiddenAtSaturation(f: Flavour, w: World, entry: Pending)
    requires w.revision == U64_MAX && Distinct(w.pending) && entry !in w.pending
    requires !IsBlank(entry.id) && entry.info == Scheduled(false, entry.info.executeAt, None, None, None)
    ensures HiddenChange(f, w, Schedule(U64_MAX, entry))
  {
    UpsertIn(w.pending, entry);
    assert Apply(f, w, Schedule(U64_MAX, entry)).value.pending == Upsert(w.pending, entry);
  }

  /** The saturated revision is exactly where the guarantee ends. */
  lemma {:induction false} ChangesAreHiddenOnlyAtSaturation(f: Flavour, w: World)
    requires Inv(w)
    ensures (exists c :: HiddenChange(f, w, c)) <==> w.revision == U64_MAX
  {
    if c :| HiddenChange(f, w, c) {
      ApplyFollows(f, w, c);
    }
    if w.revision == U64_MAX {
      var first := Entry("s", Scheduled(false, 0, None, None, None));
      var second := Entry("s", Scheduled(false, 1, None, None, None));
      assert !IsWhitespace("s"[0]);
      QueueingIsHiddenAtSaturation(f, w, if first in w.pending then second else first);
    }
  }

  // ----- Which engine a command reaches -----

  /** What the metadata says is running is exactly what a simulation command can reach. */
  lemma {:induction false} RoutingAgreesWithMetadata(w: World, id: string)
    requires Inv(w)
    ensures Route(w, OfficialRaceTarget).Success? <==> w.kind == OfficialRace
    ensures Route(w, LocalRaceTarget(id)).Success? <==> w.localRace.Some? && w.localRace.value.id == id
    ensures Route(w, SandboxTarget(id)).Success? <==> Has(w.sandboxes, id)
  {
    assert Has(w.sandboxes, id) <==> id in Ids(w.sandboxes);
  }

  // ----- What deactivation undoes -----

  /** Whether switching a sandbox on and off again leaves the metadata as it was. */
  predicate LeavesNoTrace(w: World, id: string, preset: TimeOfDay) {
    && !Has(w.pending, id)
    && match w.kind
       case Sandbox => w.timeOfDay == preset
       case LocalRace => true
       case Idle => w.localRace.None? && w.timeOfDay == Unspecified
       case OfficialRace => false
  }

  /** The round trip through sandbox mode, spelled out. */
  function RoundTrip(w: World, id: string, preset: TimeOfDay): World {
    var back := w.(kind := Sandbox, timeOfDay := preset, pending := Without(w.pending, id));
    Bump(Bump(if w.sandboxes == [] then LeaveSandboxMode(back) else back))
  }

  function SwitchedOn(w: World, sandbox: Entry<Session>, slot: Slot): World {
    Bump(w.(kind := Sandbox, timeOfDay := sandbox.info.timeOfDay, sandboxes := w.sandboxes + [sandbox],
            sandboxEngines := w.sandboxEngines[sandbox.id := slot], pending := Without(w.pending, sandbox.id)))
  }

  lemma {:induction false} DeactivationAfterSwitchedOn(w: World, sandbox: Entry<Session>, slot: Slot)
    requires Inv(w) && !Has(w.sandboxes, sandbox.id) && !IsBlank(sandbox.id)
    ensures var on := SwitchedOn(w, sandbox, slot);
            DeactivateSandbox(on, on.revision, sandbox.id) ==
            Success(RoundTrip(w, sandbox.id, sandbox.info.timeOfDay))
  {
    WithoutAppended(w.sandboxes, sandbox);
    WithoutHas(w.pending, sandbox.id);
    WithoutAbsent(Without(w.pending, sandbox.id), sandbox.id);
    assert w.sandboxEngines[sandbox.id := slot] - {sandbox.id} == w.sandboxEngines by {
      assert Has(w.sandboxes, sandbox.id) <==> sandbox.id in Ids(w.sandboxes);
    }
  }

  lemma {:induction false} DeactivationAfterActivation(
    f: Flavour, w: World, mapId: string, id: string, preset: TimeOfDay, ghostMode: Option<GhostMode>, build: Build)
    requires Inv(w)
    requires SwitchRuntime(f, w, w.revision, Sandbox, mapId, Some(id), preset, ghostMode, build).Success?
    ensures var on := SwitchRuntime(f, w, w.revision, Sandbox, mapId, Some(id), preset, ghostMode, build).value;
            DeactivateSandbox(on, on.revision, id) == Success(RoundTrip(w, id, preset))
  {
    var on := SwitchRuntime(f, w, w.revision, Sandbox, mapId, Some(id), preset, ghostMode, build).value;
    var sandbox := Entry(id, Session(mapId, preset, None));
    assert on == SwitchedOn(w, sandbox, on.sandboxEngines[id]);
    DeactivationAfterSwitchedOn(w, sandbox, on.sandboxEngines[id]);
  }

  /**
   Deactivating the sandbox just activated always brings back the same sandboxes; it brings back
   the rest of the metadata exactly when `LeavesNoTrace` held before. In particular an official
   race that was running underneath is lost.
   */
  lemma {:induction false} DeactivationUndoesActivation(
    f: Flavour, w: World, mapId: string, id: string, preset: TimeOfDay, ghostMode: Option<GhostMode>, build: Build)
    requires Inv(w)
    requires SwitchRuntime(f, w, w.revision, Sandbox, mapId, Some(id), preset, ghostMode, build).Success?
    ensures var on := SwitchRuntime(f, w, w.revision, Sandbox, mapId, Some(id), preset, ghostMode, build).value;
            var off := DeactivateSandbox(on, on.revision, id);
            && off.Success?
            && off.value.sandboxes == w.sandboxes
            && off.value.sandboxEngines == w.sandboxEngines
            && (MetadataOf(off.value).(revision := w.revision) == MetadataOf(w) <==> LeavesNoTrace(w, id, preset))
  {
    DeactivationAfterActivation(f, w, mapId, id, preset, ghostMode, build);
    WithoutAbsent(w.pending, id);
  }

  lemma {:induction false} WithoutAppended(s: seq<Entry<Session>>, e: Entry<Session>)
    requires !Has(s, e.id)
    ensures Without(s + [e], e.id) == s
  {
    if s != [] {
      assert s[0] in s;
      assert (s + [e])[1..] == s[1..] + [e];
      WithoutAppended(s[1..], e);
    }
  }
}
