/**
 Whose track a client of the achievement stream receives, over runs of the engine worker. A frame
 shows the worker's state at one point of its run; a source that is not cached on its map is then
 read from whatever engine the worker routes it to at some later point.
 */
module TopologyTracks {
  import opened Prelude
  import opened TopologyStream
  import opened EngineRevision
  import Roster
  import Engine = EngineModel
  import EngineInvariant

  function TargetOf(k: Key): Engine.Target {
    match k
    case OfficialRace => Engine.OfficialRaceTarget
    case OfficialSandbox(id) => Engine.SandboxTarget(id)
  }

  /** How many events the worker had served at the frame, and at the read of each source that was read. */
  datatype Observation = Observation(frameAt: nat, readAt: map<Key, nat>)

  predicate Timely(events: seq<Engine.Event>, o: Observation) {
    o.frameAt <= |events| && forall k | k in o.readAt :: o.frameAt <= o.readAt[k] <= |events|
  }

  /** A read that the worker can route yields the track of the engine it is routed to. */
  function ReadsOf(f: Engine.Flavour, events: seq<Engine.Event>, o: Observation): Reads
    requires Timely(events, o)
  {
    map k | k in o.readAt && Engine.Route(StateAt(f, events, o.readAt[k]), TargetOf(k)).Success? ::
      var slot := Engine.Route(StateAt(f, events, o.readAt[k]), TargetOf(k)).value;
      Track(slot.mapId, slot.mapId)
  }

  function FrameOf(f: Engine.Flavour, events: seq<Engine.Event>, o: Observation): Frame
    requires Timely(events, o)
  {
    Frame(Some(StateAt(f, events, o.frameAt)), ReadsOf(f, events, o))
  }

  function SourcesAt(f: Engine.Flavour, events: seq<Engine.Event>, i: nat): seq<Source>
    requires i <= |events|
  {
    CollectActiveSources(Some(StateAt(f, events, i)))
  }

  // ----- Which engine a source is read from -----

  lemma {:induction false} CollectedSources(w: Engine.World, s: Source)
    ensures s in CollectActiveSources(Some(w)) <==>
            match s.key
            case OfficialRace => w.kind == Engine.OfficialRace && s.mapId == w.mapId
            case OfficialSandbox(id) => exists e | e in w.sandboxes :: e.id == id && e.info.mapId == s.mapId
  {
    SandboxSourcesIn(w.sandboxes);
    var official := if w.kind == Engine.OfficialRace then [Source(OfficialRace, w.mapId)] else [];
    SortByKeyIn(official + SandboxSources(w.sandboxes));
    if s.key.OfficialSandbox? {
      if s in SandboxSources(w.sandboxes) {
        var i :| 0 <= i < |w.sandboxes| && SandboxSources(w.sandboxes)[i] == s;
        assert w.sandboxes[i] in w.sandboxes;
      }
      if e :| e in w.sandboxes && e.id == s.key.sandboxId && e.info.mapId == s.mapId {
        var i :| 0 <= i < |w.sandboxes| && w.sandboxes[i] == e;
        assert SandboxSources(w.sandboxes)[i] == s;
      }
    }
  }

  /** In a reachable state a source is routed exactly to an engine of the map that it is listed with. */
  lemma {:induction false} SourcesAreRoutedToTheirMaps(w: Engine.World, s: Source)
    requires EngineInvariant.Inv(w) && EngineInvariant.EnginesFit(w)
    ensures s in CollectActiveSources(Some(w)) <==>
            Engine.Route(w, TargetOf(s.key)).Success? && Engine.Route(w, TargetOf(s.key)).value.mapId == s.mapId
  {
    CollectedSources(w, s);
    if s.key.OfficialSandbox? {
      var id := s.key.sandboxId;
      assert id in w.sandboxEngines <==> id in Roster.Ids(w.sandboxes);
    }
  }

  // ----- Reads that come too late -----

  /** The source has to be read, and is by then running on another map than the frame says. */
  ghost predicate IsReadTooLate(
    f: Engine.Flavour, events: seq<Engine.Event>, o: Observation, cache: Cache, s: Source)
    requires Timely(events, o)
  {
    && !Cached(cache, s) && s.key in o.readAt
    && exists other | other in SourcesAt(f, events, o.readAt[s.key]) :: other.key == s.key && other.mapId != s.mapId
  }

  /** A source that is read gets a track of another map exactly if it was read too late. */
  lemma {:induction false} WrongReads(
    f: Engine.Flavour, events: seq<Engine.Event>, o: Observation, cache: Cache, s: Source)
    requires Timely(events, o) && !Cached(cache, s)
    ensures s.key in ReadsOf(f, events, o) && ReadsOf(f, events, o)[s.key].surveyed != s.mapId <==>
            IsReadTooLate(f, events, o, cache, s)
  {
    if s.key in o.readAt {
      var j := o.readAt[s.key];
      var w := StateAt(f, events, j);
      EngineInvariant.RunKeepsInv(f, events[..j]);
      if Engine.Route(w, TargetOf(s.key)).Success? {
        var here := Source(s.key, Engine.Route(w, TargetOf(s.key)).value.mapId);
        SourcesAreRoutedToTheirMaps(w, here);
      }
      forall other | other in SourcesAt(f, events, j) && other.key == s.key
        ensures Engine.Route(w, TargetOf(s.key)).Success?
                && Engine.Route(w, TargetOf(s.key)).value.mapId == other.mapId
      {
        SourcesAreRoutedToTheirMaps(w, other);
      }
    }
  }

  /** While the revision is still the frame's, a source of the frame is read from its own map. */
  lemma {:induction false} UnchangedRevisionReadsRight(
    f: Engine.Flavour, events: seq<Engine.Event>, i: nat, j: nat, s: Source)
    requires i <= j <= |events| && s in SourcesAt(f, events, i)
    requires StateAt(f, events, i).revision == StateAt(f, events, j).revision < U64_MAX
    ensures Engine.Route(StateAt(f, events, j), TargetOf(s.key)).Success?
    ensures Engine.Route(StateAt(f, events, j), TargetOf(s.key)).value.mapId == s.mapId
  {
    RevisionDeterminesState(f, events, i, j);
    var w, v := StateAt(f, events, i), StateAt(f, events, j);
    EngineInvariant.RunKeepsInv(f, events[..i]);
    EngineInvariant.RunKeepsInv(f, events[..j]);
    SourcesAreRoutedToTheirMaps(w, s);
    SameEnginesSameRoute(w, v, s.key);
  }

  lemma {:induction false} SameEnginesSameRoute(w: Engine.World, v: Engine.World, k: Key)
    requires w.kind == v.kind && EnginesOf(w) == EnginesOf(v) && Engine.Route(w, TargetOf(k)).Success?
    ensures Engine.Route(v, TargetOf(k)).Success?
    ensures Engine.Route(v, TargetOf(k)).value.mapId == Engine.Route(w, TargetOf(k)).value.mapId
  {
    match k
    case OfficialRace =>
      assert HideGhostMode(w.official.value) == HideGhostMode(v.official.value);
    case OfficialSandbox(id) =>
      assert HideGhostModes(w.sandboxEngines)[id] == HideGhostModes(v.sandboxEngines)[id];
  }

  // ----- Runs of the stream beside runs of the worker -----

  ghost predicate AllTimely(events: seq<Engine.Event>, os: seq<Observation>) {
    forall t | 0 <= t < |os| :: Timely(events, os[t])
  }

  function FramesOf(f: Engine.Flavour, events: seq<Engine.Event>, os: seq<Observation>): seq<Frame>
    requires AllTimely(events, os)
  {
    seq(|os|, t requires 0 <= t < |os| => FrameOf(f, events, os[t]))
  }

  /** What the service has cached when it comes to the t-th frame. */
  function CacheAt(f: Engine.Flavour, events: seq<Engine.Event>, os: seq<Observation>, t: nat): Cache
    requires AllTimely(events, os) && t <= |os|
  {
    Descriptors(map[], FramesOf(f, events, os)[..t]).0
  }

  function SentAt(f: Engine.Flavour, events: seq<Engine.Event>, os: seq<Observation>, t: nat): seq<Resolved>
    requires AllTimely(events, os) && t < |os|
  {
    ResolveAll(CacheAt(f, events, os, t), SourcesAt(f, events, os[t].frameAt), ReadsOf(f, events, os[t])).1
  }

  lemma {:induction false} SentNext(
    f: Engine.Flavour, events: seq<Engine.Event>, os: seq<Observation>, n: nat,
    before: seq<seq<Resolved>>, sent: seq<seq<Resolved>>)
    requires AllTimely(events, os) && n < |os|
    requires before == Descriptors(map[], FramesOf(f, events, os)[..n]).1
    requires sent == Descriptors(map[], FramesOf(f, events, os)[..n + 1]).1
    ensures sent == before + [SentAt(f, events, os, n)]
  {
    DescriptorsGrow(map[], FramesOf(f, events, os), n);
  }

  /** These are the descriptors whose messages the stream sends. */
  lemma {:induction false} SentAreTheDescriptors(
    f: Engine.Flavour, events: seq<Engine.Event>, os: seq<Observation>, n: nat, t: nat, sent: seq<seq<Resolved>>)
    requires AllTimely(events, os) && t < n <= |os|
    requires sent == Descriptors(map[], FramesOf(f, events, os)[..n]).1
    ensures |sent| == n && sent[t] == SentAt(f, events, os, t)
  {
    var before := Descriptors(map[], FramesOf(f, events, os)[..n - 1]).1;
    SentNext(f, events, os, n - 1, before, sent);
    if n > 1 {
      SentAreTheDescriptors(f, events, os, n - 1, if t < n - 1 then t else 0, before);
    } else {
      assert FramesOf(f, events, os)[..0] == [];
    }
  }

  predicate RightTracks(descriptors: seq<Resolved>) {
    forall d | d in descriptors :: d.track.surveyed == d.mapId
  }

  ghost predicate NoneReadTooLate(f: Engine.Flavour, events: seq<Engine.Event>, os: seq<Observation>, t: nat)
    requires AllTimely(events, os) && t < |os|
  {
    forall s | s in SourcesAt(f, events, os[t].frameAt) ::
      !IsReadTooLate(f, events, os[t], CacheAt(f, events, os, t), s)
  }

  lemma {:induction false} CacheAtNext(f: Engine.Flavour, events: seq<Engine.Event>, os: seq<Observation>, t: nat)
    requires AllTimely(events, os) && t < |os|
    ensures CacheAt(f, events, os, t + 1) ==
            ResolveAll(CacheAt(f, events, os, t), SourcesAt(f, events, os[t].frameAt), ReadsOf(f, events, os[t])).0
  {
    DescriptorsGrow(map[], FramesOf(f, events, os), t);
  }

  lemma {:induction false} FrameSourcesAreDistinct(f: Engine.Flavour, events: seq<Engine.Event>, i: nat)
    requires i <= |events|
    ensures DistinctSources(SourcesAt(f, events, i))
  {
    EngineInvariant.RunKeepsInv(f, events[..i]);
    ActiveSourcesAreDistinct(StateAt(f, events, i));
  }

  lemma {:induction false} TooLateIsWrong(
    f: Engine.Flavour, events: seq<Engine.Event>, o: Observation, cache: Cache, s: Source)
    requires Timely(events, o) && s in SourcesAt(f, events, o.frameAt) && IsReadTooLate(f, events, o, cache, s)
    ensures !RightTracks(ResolveAll(cache, SourcesAt(f, events, o.frameAt), ReadsOf(f, events, o)).1)
  {
    FrameSourcesAreDistinct(f, events, o.frameAt);
    WrongReads(f, events, o, cache, s);
    TrackIsSentAndKept(cache, SourcesAt(f, events, o.frameAt), ReadsOf(f, events, o), s);
  }

  lemma {:induction false} InTimeIsRight(f: Engine.Flavour, events: seq<Engine.Event>, o: Observation, cache: Cache)
    requires Timely(events, o) && Honest(cache)
    requires forall s | s in SourcesAt(f, events, o.frameAt) :: !IsReadTooLate(f, events, o, cache, s)
    ensures RightTracks(ResolveAll(cache, SourcesAt(f, events, o.frameAt), ReadsOf(f, events, o)).1)
  {
    var sources, readable := SourcesAt(f, events, o.frameAt), ReadsOf(f, events, o);
    DescribedAreSources(cache, sources, readable);
    forall d | d in ResolveAll(cache, sources, readable).1 ensures d.track.surveyed == d.mapId {
      assert Source(d.key, d.mapId) in sources;
      SentIsRight(f, events, o, cache, d);
    }
  }

  lemma {:induction false} RightStaysHonest(cache: Cache, sources: seq<Source>, readable: Reads)
    requires Honest(cache) && DistinctSources(sources) && RightTracks(ResolveAll(cache, sources, readable).1)
    ensures Honest(ResolveAll(cache, sources, readable).0)
  {
    var last := ResolveAll(cache, sources, readable).0;
    forall k | k in last ensures last[k].track.surveyed == last[k].mapId {
      KeptIsSent(cache, sources, readable, k);
    }
  }

  /** One frame, from an honest cache: all tracks are right exactly if none was read too late. */
  lemma {:induction false} FrameIsRightIff(f: Engine.Flavour, events: seq<Engine.Event>, o: Observation, cache: Cache)
    requires Timely(events, o) && Honest(cache)
    ensures RightTracks(ResolveAll(cache, SourcesAt(f, events, o.frameAt), ReadsOf(f, events, o)).1) <==>
            forall s | s in SourcesAt(f, events, o.frameAt) :: !IsReadTooLate(f, events, o, cache, s)
  {
    if s :| s in SourcesAt(f, events, o.frameAt) && IsReadTooLate(f, events, o, cache, s) {
      TooLateIsWrong(f, events, o, cache, s);
    } else {
      InTimeIsRight(f, events, o, cache);
    }
  }

  lemma {:induction false} SentIsRight(
    f: Engine.Flavour, events: seq<Engine.Event>, o: Observation, cache: Cache, d: Resolved)
    requires Timely(events, o) && Honest(cache)
    requires d in ResolveAll(cache, SourcesAt(f, events, o.frameAt), ReadsOf(f, events, o)).1
    requires !IsReadTooLate(f, events, o, cache, Source(d.key, d.mapId))
    ensures d.track.surveyed == d.mapId
  {
    var sources, readable := SourcesAt(f, events, o.frameAt), ReadsOf(f, events, o);
    var s := Source(d.key, d.mapId);
    FrameSourcesAreDistinct(f, events, o.frameAt);
    DescribedAreSources(cache, sources, readable);
    assert Describes(ResolveAll(cache, sources, readable).1, s);
    DescribedIfCachedOrReadable(cache, sources, readable, s);
    OneDescriptorEach(cache, sources, readable, s);
    if !Cached(cache, s) {
      WrongReads(f, events, o, cache, s);
    }
  }

  /** What the cache holds after a frame was there before, or has just been sent. */
  lemma {:induction false} KeptIsSent(cache: Cache, sources: seq<Source>, readable: Reads, k: Key)
    requires DistinctSources(sources) && k in ResolveAll(cache, sources, readable).0
    ensures var (last, sent) := ResolveAll(cache, sources, readable);
            (k in cache && last[k] == cache[k]) || Resolved(k, last[k].mapId, last[k].track) in sent
  {
    var s := SourceOf(sources, k);
    if s.None? {
      OthersAreKept(cache, sources, readable, k);
    } else if Cached(cache, s.value) || k in readable {
      TrackIsSentAndKept(cache, sources, readable, s.value);
    } else {
      UnreadableIsLeft(cache, sources, readable, s.value);
    }
  }

  lemma {:induction false} UnreadableIsLeft(cache: Cache, sources: seq<Source>, readable: Reads, s: Source)
    requires DistinctSources(sources) && s in sources && !Cached(cache, s) && s.key !in readable
    ensures s.key in ResolveAll(cache, sources, readable).0 <==> s.key in cache
    ensures s.key in cache ==> ResolveAll(cache, sources, readable).0[s.key] == cache[s.key]
    decreases |sources|
  {
    var source, rest := sources[0], sources[1..];
    assert sources == [source] + rest;
    if s == source {
      OthersAreKept(cache, rest, readable, s.key);
    } else {
      assert s in rest && s.key != source.key;
      UnreadableIsLeft(CacheAfter(cache, source, readable), rest, readable, s);
    }
  }

  ghost predicate RightUpTo(f: Engine.Flavour, events: seq<Engine.Event>, os: seq<Observation>, n: nat)
    requires AllTimely(events, os) && n <= |os|
  {
    n > 0 ==> RightUpTo(f, events, os, n - 1) && RightTracks(SentAt(f, events, os, n - 1))
  }

  ghost predicate InTimeUpTo(f: Engine.Flavour, events: seq<Engine.Event>, os: seq<Observation>, n: nat)
    requires AllTimely(events, os) && n <= |os|
  {
    n > 0 ==> InTimeUpTo(f, events, os, n - 1) && NoneReadTooLate(f, events, os, n - 1)
  }

  lemma {:induction false} RightAt(
    f: Engine.Flavour, events: seq<Engine.Event>, os: seq<Observation>, n: nat, t: nat)
    requires AllTimely(events, os) && t < n <= |os| && RightUpTo(f, events, os, n)
    ensures RightTracks(SentAt(f, events, os, t))
  {
    if t < n - 1 {
      RightAt(f, events, os, n - 1, t);
    }
  }

  lemma {:induction false} InTimeAt(
    f: Engine.Flavour, events: seq<Engine.Event>, os: seq<Observation>, n: nat, t: nat)
    requires AllTimely(events, os) && t < n <= |os| && InTimeUpTo(f, events, os, n)
    ensures NoneReadTooLate(f, events, os, t)
  {
    if t < n - 1 {
      InTimeAt(f, events, os, n - 1, t);
    }
  }

  lemma {:induction false} AllRight(f: Engine.Flavour, events: seq<Engine.Event>, os: seq<Observation>, n: nat)
    requires AllTimely(events, os) && n <= |os|
    requires forall t | 0 <= t < n :: RightTracks(SentAt(f, events, os, t))
    ensures RightUpTo(f, events, os, n)
  {
    if n > 0 {
      AllRight(f, events, os, n - 1);
    }
  }

  lemma {:induction false} AllInTime(f: Engine.Flavour, events: seq<Engine.Event>, os: seq<Observation>, n: nat)
    requires AllTimely(events, os) && n <= |os|
    requires forall t | 0 <= t < n :: NoneReadTooLate(f, events, os, t)
    ensures InTimeUpTo(f, events, os, n)
  {
    if n > 0 {
      AllInTime(f, events, os, n - 1);
    }
  }

  lemma {:induction false} CacheStaysHonest(f: Engine.Flavour, events: seq<Engine.Event>, os: seq<Observation>, n: nat)
    requires AllTimely(events, os) && n <= |os| && RightUpTo(f, events, os, n)
    ensures Honest(CacheAt(f, events, os, n))
  {
    if n > 0 {
      CacheStaysHonest(f, events, os, n - 1);
      FrameSourcesAreDistinct(f, events, os[n - 1].frameAt);
      RightStaysHonest(CacheAt(f, events, os, n - 1), SourcesAt(f, events, os[n - 1].frameAt),
                       ReadsOf(f, events, os[n - 1]));
      CacheAtNext(f, events, os, n - 1);
    }
  }

  lemma {:induction false} TracksAreRightUpTo(
    f: Engine.Flavour, events: seq<Engine.Event>, os: seq<Observation>, n: nat)
    requires AllTimely(events, os) && n <= |os|
    ensures RightUpTo(f, events, os, n) <==> InTimeUpTo(f, events, os, n)
  {
    if n > 0 {
      TracksAreRightUpTo(f, events, os, n - 1);
      if RightUpTo(f, events, os, n - 1) {
        CacheStaysHonest(f, events, os, n - 1);
        FrameIsRightIff(f, events, os[n - 1], CacheAt(f, events, os, n - 1));
      }
    }
  }

  /**
   Over any run of the worker and any frames and reads in it: all tracks that are sent are of their
   sources' maps if and only if no source that had to be read was by then running on another map.
   */
  lemma {:induction false} TracksAreRightUnlessReadTooLate(
    f: Engine.Flavour, events: seq<Engine.Event>, os: seq<Observation>)
    requires AllTimely(events, os)
    ensures (forall t | 0 <= t < |os| :: RightTracks(SentAt(f, events, os, t))) <==>
            (forall t | 0 <= t < |os| :: NoneReadTooLate(f, events, os, t))
  {
    TracksAreRightUpTo(f, events, os, |os|);
    if forall t | 0 <= t < |os| :: RightTracks(SentAt(f, events, os, t)) {
      AllRight(f, events, os, |os|);
      forall t | 0 <= t < |os| ensures NoneReadTooLate(f, events, os, t) {
        InTimeAt(f, events, os, |os|, t);
      }
    }
    if forall t | 0 <= t < |os| :: NoneReadTooLate(f, events, os, t) {
      AllInTime(f, events, os, |os|);
      forall t | 0 <= t < |os| ensures RightTracks(SentAt(f, events, os, t)) {
        RightAt(f, events, os, |os|, t);
      }
    }
  }

  /** In particular all are right if every read finds the revision that its frame had. */
  lemma {:induction false} ReadsAtTheFramesRevisionAreRight(
    f: Engine.Flavour, events: seq<Engine.Event>, os: seq<Observation>)
    requires AllTimely(events, os)
    requires forall t, k | 0 <= t < |os| && k in os[t].readAt ::
               StateAt(f, events, os[t].readAt[k]).revision == StateAt(f, events, os[t].frameAt).revision < U64_MAX
    ensures forall t | 0 <= t < |os| :: RightTracks(SentAt(f, events, os, t))
  {
    forall t | 0 <= t < |os| ensures NoneReadTooLate(f, events, os, t) {
      forall s | s in SourcesAt(f, events, os[t].frameAt) && s.key in os[t].readAt
        ensures !IsReadTooLate(f, events, os[t], CacheAt(f, events, os, t), s)
      {
        var i, j := os[t].frameAt, os[t].readAt[s.key];
        UnchangedRevisionReadsRight(f, events, i, j, s);
        EngineInvariant.RunKeepsInv(f, events[..j]);
        forall other | other in SourcesAt(f, events, j) && other.key == s.key ensures other.mapId == s.mapId {
          SourcesAreRoutedToTheirMaps(StateAt(f, events, j), other);
        }
      }
    }
    TracksAreRightUnlessReadTooLate(f, events, os);
  }

  // ----- A track read too late -----

  const SANDBOX: Key := OfficialSandbox("s")

  function SwitchOn(revision: u64, mapId: string): Engine.Event {
    Engine.Handle(Engine.Switch(revision, Engine.Sandbox, mapId, Some("s"), Some(Engine.Noon), None, Engine.Built(0)))
  }

  function SwitchOff(revision: u64): Engine.Event {
    Engine.Handle(Engine.Deactivate(revision, "s"))
  }

  /** A sandbox moves to another map, and back. */
  const MOVES: seq<Engine.Event> :=
    [SwitchOn(0, "a"), SwitchOff(1), SwitchOn(2, "b"), SwitchOff(3), SwitchOn(4, "a")]

  /** It is first seen on its first map and read on the second, then seen and read when it is back. */
  const LATE: seq<Observation> := [Observation(1, map[SANDBOX := 3]), Observation(5, map[SANDBOX := 5])]

  ghost predicate IsOff(w: Engine.World, revision: nat) {
    && w.revision == revision && w.sandboxes == [] && w.sandboxEngines == map[] && w.pending == []
    && w.localRace.None? && w.kind != Engine.OfficialRace
  }

  ghost predicate IsOn(w: Engine.World, revision: nat, mapId: string) {
    && w.revision == revision && w.kind == Engine.Sandbox && w.pending == [] && w.localRace.None?
    && w.sandboxes == [Roster.Entry("s", Engine.Session(mapId, Engine.Noon, None))]
    && w.sandboxEngines == map["s" := Engine.Slot(0, mapId, Engine.DEFAULT_GHOST_MODE)]
  }

  lemma {:induction false} SwitchingOn(f: Engine.Flavour, w: Engine.World, revision: u64, mapId: string)
    requires IsOff(w, revision) && revision < U64_MAX && Engine.IsValidMapId(f, mapId)
    ensures IsOn(Engine.Step(f, w, SwitchOn(revision, mapId)), revision + 1, mapId)
  {
    assert !IsWhitespace("s"[0]);
  }

  lemma {:induction false} SwitchingOff(f: Engine.Flavour, w: Engine.World, revision: u64, mapId: string)
    requires IsOn(w, revision, mapId) && revision < U64_MAX
    ensures IsOff(Engine.Step(f, w, SwitchOff(revision)), revision + 1)
  {
    assert !IsWhitespace("s"[0]);
    assert Roster.Without(w.sandboxes, "s") == [];
  }

  lemma {:induction false} MovesHappen(f: Engine.Flavour)
    ensures IsOn(StateAt(f, MOVES, 1), 1, "a") && IsOn(StateAt(f, MOVES, 3), 3, "b")
    ensures IsOn(StateAt(f, MOVES, 5), 5, "a")
  {
    assert !IsWhitespace("a"[0]) && !IsWhitespace("b"[0]);
    assert MOVES[..0] == [] && StateAt(f, MOVES, 0) == Engine.INITIAL_WORLD;
    StateAtNext(f, MOVES, 0);
    SwitchingOn(f, StateAt(f, MOVES, 0), 0, "a");
    StateAtNext(f, MOVES, 1);
    SwitchingOff(f, StateAt(f, MOVES, 1), 1, "a");
    StateAtNext(f, MOVES, 2);
    SwitchingOn(f, StateAt(f, MOVES, 2), 2, "b");
    StateAtNext(f, MOVES, 3);
    SwitchingOff(f, StateAt(f, MOVES, 3), 3, "b");
    StateAtNext(f, MOVES, 4);
    SwitchingOn(f, StateAt(f, MOVES, 4), 4, "a");
  }

  lemma {:induction false} OneSandboxSource(e: Roster.Entry<Engine.Session>)
    ensures SortByKey([] + SandboxSources([e])) == [Source(OfficialSandbox(e.id), e.info.mapId)]
  {
    var s, x := [e], Source(OfficialSandbox(e.id), e.info.mapId);
    assert s[1..] == [] && SandboxSources(s[1..]) == [];
    assert SandboxSources(s) == [x] + [] && [] + SandboxSources(s) == [x];
    assert [x][1..] == [] && SortByKey([x][1..]) == [];
  }

  lemma {:induction false} SourceWhileOn(w: Engine.World, revision: nat, mapId: string)
    requires IsOn(w, revision, mapId)
    ensures CollectActiveSources(Some(w)) == [Source(SANDBOX, mapId)]
    ensures Engine.Route(w, TargetOf(SANDBOX)) == Success(Engine.Slot(0, mapId, Engine.DEFAULT_GHOST_MODE))
  {
    assert !IsWhitespace("s"[0]);
    OneSandboxSource(w.sandboxes[0]);
  }

  /** One frame with the sandbox on its first map, whatever the engine would answer. */
  lemma {:induction false} ResolvingOneSource(cache: Cache, source: Source, readable: Reads)
    requires Cached(cache, source) || source.key in readable
    ensures ResolveAll(cache, [source], readable) ==
            (CacheAfter(cache, source, readable),
             [Resolved(source.key, source.mapId, TrackFor(cache, source, readable))])
  {
    var next := CacheAfter(cache, source, readable);
    var none: seq<Source> := [source][1..];
    assert none == [] && ResolveAll(next, none, readable) == (next, []);
    assert Cached(next, source) && next[source.key].track == TrackFor(cache, source, readable);
    var d := Resolved(source.key, source.mapId, TrackFor(cache, source, readable));
    assert [d] + [] == [d];
  }

  lemma {:induction false} ReadWhileOn(
    f: Engine.Flavour, events: seq<Engine.Event>, i: nat, j: nat, revision: nat, mapId: string)
    requires i <= j <= |events| && IsOn(StateAt(f, events, j), revision, mapId)
    ensures ReadsOf(f, events, Observation(i, map[SANDBOX := j])) == map[SANDBOX := Track(mapId, mapId)]
  {
    SourceWhileOn(StateAt(f, events, j), revision, mapId);
  }

  lemma {:induction false} LateObservations(f: Engine.Flavour)
    ensures AllTimely(MOVES, LATE)
    ensures ReadsOf(f, MOVES, LATE[0]) == map[SANDBOX := Track("b", "b")]
    ensures ReadsOf(f, MOVES, LATE[1]) == map[SANDBOX := Track("a", "a")]
    ensures SourcesAt(f, MOVES, 1) == [Source(SANDBOX, "a")] && SourcesAt(f, MOVES, 5) == [Source(SANDBOX, "a")]
  {
    MovesHappen(f);
    SourceWhileOn(StateAt(f, MOVES, 1), 1, "a");
    SourceWhileOn(StateAt(f, MOVES, 5), 5, "a");
    ReadWhileOn(f, MOVES, 1, 3, 3, "b");
    ReadWhileOn(f, MOVES, 5, 5, 5, "a");
  }

  lemma {:induction false} LateReadIsSent(f: Engine.Flavour)
    ensures AllTimely(MOVES, LATE)
    ensures SentAt(f, MOVES, LATE, 0) == [Resolved(SANDBOX, "a", Track("a", "b"))]
    ensures CacheAt(f, MOVES, LATE, 1) == map[SANDBOX := CacheEntry("a", Track("a", "b"))]
  {
    LateObservations(f);
    assert FramesOf(f, MOVES, LATE)[..0] == [] && CacheAt(f, MOVES, LATE, 0) == map[];
    ResolvingOneSource(map[], Source(SANDBOX, "a"), ReadsOf(f, MOVES, LATE[0]));
    CacheAtNext(f, MOVES, LATE, 0);
  }

  /**
   Such a run exists: the sandbox's first map is announced with the track of its second, and that
   track is served again when the sandbox is back, although its engine would then give the right one.
   */
  lemma {:induction false} LateReadIsServedAgain(f: Engine.Flavour)
    ensures AllTimely(MOVES, LATE)
    ensures SentAt(f, MOVES, LATE, 0) == [Resolved(SANDBOX, "a", Track("a", "b"))]
    ensures SentAt(f, MOVES, LATE, 1) == [Resolved(SANDBOX, "a", Track("a", "b"))]
    ensures ReadsOf(f, MOVES, LATE[1]) == map[SANDBOX := Track("a", "a")]
  {
    LateReadIsSent(f);
    LateObservations(f);
    ResolvingOneSource(CacheAt(f, MOVES, LATE, 1), Source(SANDBOX, "a"), ReadsOf(f, MOVES, LATE[1]));
  }
}
