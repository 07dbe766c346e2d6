/** What one local client brings about when nobody comes in between: its sandbox, or nothing. */
module LocalSandboxProtocol {
  import opened Prelude
  import opened Roster
  import opened EngineModel
  import opened EngineInvariant
  import opened EngineEffects
  import opened LocalSandboxAdmin

  /** The client reads, checks the limit and sends its switch. */
  function AfterSwitch(f: Flavour, limit: u32, s: System, c: nat, config: Config, expected: u64, build: Build): System {
    Next(f, limit, Next(f, limit, Next(f, limit, s, Read(c, config, expected)), CheckLimit(c)), SendSwitch(c, build))
  }

  /** What the client may expect to get: there is room, and its sandbox can be started. */
  ghost predicate HasRoom(f: Flavour, limit: u32, w: World, config: Config, build: Build) {
    CanStart(f, w, config.id, config.mapId, config.timeOfDay, build) && |w.sandboxes| < limit
  }

  /** The sandbox as it was configured, showing this weather. */
  ghost predicate RunsAsConfigured(w: World, config: Config, build: Build, weather: Option<WeatherNow>) {
    build.Built? && Runs(w, config.id, Session(config.mapId, config.timeOfDay, weather),
                         Slot(build.engine, config.mapId, config.ghostMode))
  }

  lemma {:induction false} ClientIsCleared(
    f: Flavour, limit: u32, s: System, c: nat, config: Config, expected: u64, build: Build)
    requires c !in s.clients && expected == s.world.revision && HasRoom(f, limit, s.world, config, build)
    ensures Next(f, limit, Next(f, limit, s, Read(c, config, expected)), CheckLimit(c)) ==
            s.(clients := s.clients[c := Cleared(config, expected, s.world)])
  {
    assert !Has(s.world.sandboxes, config.id);
    var read := Next(f, limit, s, Read(c, config, expected));
    assert read.clients[c] == HasRead(config, expected, s.world);
    assert !LimitReached(s.world, limit);
    assert s.clients[c := HasRead(config, expected, s.world)][c := Cleared(config, expected, s.world)] ==
           s.clients[c := Cleared(config, expected, s.world)];
  }

  lemma {:induction false} SwitchIsSent(
    f: Flavour, limit: u32, s: System, c: nat, config: Config, expected: u64, build: Build, next: World)
    requires c in s.clients && s.clients[c] == Cleared(config, expected, s.world)
    requires SwitchRuntime(f, s.world, expected, Sandbox, config.mapId, Some(config.id), config.timeOfDay,
                           Some(config.ghostMode), build) == Success(next)
    ensures Next(f, limit, s, SendSwitch(c, build)) ==
            System(next, s.clients[c := Activated(config, s.world, next)])
  {
    assert SwitchFor(f, s.world, config, expected, build) == Success(next);
  }

  lemma {:induction false} SwitchGoesThrough(
    f: Flavour, limit: u32, s: System, c: nat, config: Config, expected: u64, build: Build)
    requires Inv(s.world) && c !in s.clients && expected == s.world.revision
    requires HasRoom(f, limit, s.world, config, build)
    ensures var t := AfterSwitch(f, limit, s, c, config, expected, build);
            && Inv(t.world) && c in t.clients && t.clients[c] == Activated(config, s.world, t.world)
            && RunsAsConfigured(t.world, config, build, None) && OthersStay(s.world, t.world, config.id)
  {
    SwitchStartsTheSandbox(f, s.world, expected, config.mapId, config.id, config.timeOfDay,
                           Some(config.ghostMode), build);
    SwitchKeepsInv(f, s.world, expected, Sandbox, config.mapId, Some(config.id), config.timeOfDay,
                   Some(config.ghostMode), build);
    ClientIsCleared(f, limit, s, c, config, expected, build);
    var cleared := s.(clients := s.clients[c := Cleared(config, expected, s.world)]);
    var next := SwitchRuntime(f, s.world, expected, Sandbox, config.mapId, Some(config.id), config.timeOfDay,
                              Some(config.ghostMode), build).value;
    SwitchIsSent(f, limit, cleared, c, config, expected, build, next);
  }

  /** What the last two requests come to, for a client whose switch has gone through. */
  lemma {:induction false} WeatherIsSent(f: Flavour, limit: u32, t: System, c: nat, accepted: bool)
    requires c in t.clients && t.clients[c].Activated?
    ensures var Activated(config, seen, after) := t.clients[c];
            var r := SetWeather(t.world, config.id, config.weather, accepted);
            Next(f, limit, t, SendWeather(c, accepted)) ==
            if r.Success? then System(r.value, t.clients[c := Finished(true)])
            else t.(clients := t.clients[c := WeatherFailed(config, seen, after)])
  {
    var Activated(config, seen, after) := t.clients[c];
    assert Apply(f, t.world, WeatherCommand(config, accepted)) ==
           SetWeather(t.world, config.id, config.weather, accepted);
  }

  lemma {:induction false} RollbackIsSent(f: Flavour, limit: u32, t: System, c: nat)
    requires c in t.clients && t.clients[c].WeatherFailed?
    ensures var WeatherFailed(config, seen, after) := t.clients[c];
            var r := DeactivateSandbox(t.world, after.revision, config.id);
            Next(f, limit, t, SendRollback(c)) ==
            System(if r.Success? then r.value else t.world, t.clients[c := Finished(false)])
  {
    var WeatherFailed(config, seen, after) := t.clients[c];
    assert Apply(f, t.world, Deactivate(after.revision, config.id)) ==
           DeactivateSandbox(t.world, after.revision, config.id);
  }

  lemma {:induction false} OthersStayTransitive(a: World, b: World, c: World, id: string)
    requires OthersStay(a, b, id) && OthersStay(b, c, id)
    ensures OthersStay(a, c, id)
  {
    forall other | other != id ensures SameFor(a, c, other) {
      SameForTransitive(a, b, c, other);
    }
  }

  /** A client whose sandbox has been started with its switch, as others saw the world before. */
  ghost predicate HasStarted(t: System, c: nat, config: Config, seen: World, build: Build) {
    && Inv(t.world) && c in t.clients && t.clients[c] == Activated(config, seen, t.world)
    && RunsAsConfigured(t.world, config, build, None) && OthersStay(seen, t.world, config.id)
  }

  lemma {:induction false} WeatherIsTaken(
    f: Flavour, limit: u32, t: System, c: nat, config: Config, seen: World, build: Build)
    requires HasStarted(t, c, config, seen, build)
    ensures var u := Next(f, limit, t, SendWeather(c, true));
            && c in u.clients && u.clients[c] == Finished(true)
            && RunsAsConfigured(u.world, config, build, Some(config.weather))
            && OthersStay(seen, u.world, config.id)
  {
    WeatherIsSent(f, limit, t, c, true);
    WeatherReachesTheSandbox(t.world, config.weather, true,
                             Entry(config.id, Session(config.mapId, config.timeOfDay, None)));
    OthersStayTransitive(seen, t.world, SetWeather(t.world, config.id, config.weather, true).value, config.id);
  }

  lemma {:induction false} WeatherIsRefused(
    f: Flavour, limit: u32, t: System, c: nat, config: Config, seen: World, build: Build)
    requires HasStarted(t, c, config, seen, build) && !IsBlank(config.id)
    ensures var u := Next(f, limit, t, SendWeather(c, false));
            && u == t.(clients := t.clients[c := WeatherFailed(config, seen, t.world)])
            && var v := Next(f, limit, u, SendRollback(c));
               && c in v.clients && v.clients[c] == Finished(false)
               && IsGone(v.world, config.id) && OthersStay(seen, v.world, config.id)
  {
    WeatherIsSent(f, limit, t, c, false);
    WeatherReachesTheSandbox(t.world, config.weather, false,
                             Entry(config.id, Session(config.mapId, config.timeOfDay, None)));
    RollbackIsSent(f, limit, Next(f, limit, t, SendWeather(c, false)), c);
    DeactivationStopsTheSandbox(t.world, t.world.revision, config.id);
    OthersStayTransitive(seen, t.world, DeactivateSandbox(t.world, t.world.revision, config.id).value, config.id);
  }

  /** If its engine takes the weather, the client's sandbox runs as configured; nobody else notices. */
  lemma {:induction false} ClientGetsItsSandbox(
    f: Flavour, limit: u32, s: System, c: nat, config: Config, expected: u64, build: Build)
    requires Inv(s.world) && c !in s.clients && expected == s.world.revision
    requires HasRoom(f, limit, s.world, config, build)
    ensures var t := Next(f, limit, AfterSwitch(f, limit, s, c, config, expected, build), SendWeather(c, true));
            && c in t.clients && t.clients[c] == Finished(true)
            && RunsAsConfigured(t.world, config, build, Some(config.weather))
            && OthersStay(s.world, t.world, config.id)
  {
    SwitchGoesThrough(f, limit, s, c, config, expected, build);
    WeatherIsTaken(f, limit, AfterSwitch(f, limit, s, c, config, expected, build), c, config, s.world, build);
  }

  /** If it does not, the client takes its sandbox down again, and all is as before for the others. */
  lemma {:induction false} ClientRollsBack(
    f: Flavour, limit: u32, s: System, c: nat, config: Config, expected: u64, build: Build)
    requires Inv(s.world) && c !in s.clients && expected == s.world.revision
    requires HasRoom(f, limit, s.world, config, build)
    ensures var t := Next(f, limit, AfterSwitch(f, limit, s, c, config, expected, build), SendWeather(c, false));
            var u := Next(f, limit, t, SendRollback(c));
            && c in t.clients && t.clients[c].WeatherFailed?
            && c in u.clients && u.clients[c] == Finished(false)
            && IsGone(u.world, config.id) && OthersStay(s.world, u.world, config.id)
  {
    SwitchGoesThrough(f, limit, s, c, config, expected, build);
    WeatherIsRefused(f, limit, AfterSwitch(f, limit, s, c, config, expected, build), c, config, s.world, build);
  }

  /** A client that finds the limit reached, or another revision than it expects, changes nothing. */
  lemma {:induction false} ClientIsTurnedAway(
    f: Flavour, limit: u32, s: System, c: nat, config: Config, expected: u64)
    requires c !in s.clients && !IsBlank(config.id) && |s.world.sandboxes| <= 0xFFFF_FFFF
    requires || expected != s.world.revision
             || (limit <= |s.world.sandboxes| && forall e | e in s.world.sandboxes :: e.id != config.id)
    ensures var t := Next(f, limit, Next(f, limit, s, Read(c, config, expected)), CheckLimit(c));
            t == s.(clients := s.clients[c := Finished(false)])
  {
  }
}
