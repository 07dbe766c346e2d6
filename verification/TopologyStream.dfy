/**
 The achievement stream (services/achievement_stream.rs): a client is told once which sources run
 and on which map, then only what has changed since the frame before, and between the two it
 receives snapshots that it can only read if it knows the map of every source in them.
 */
module TopologyStream {
  import opened Prelude
  import Roster
  import Engine = EngineModel
  import EngineInvariant

  datatype Key = OfficialRace | OfficialSandbox(sandboxId: string)

  datatype Source = Source(key: Key, mapId: string)

  /** Track data carries the map it is labelled with, and is of the map it was surveyed on. */
  datatype Track = Track(mapId: string, surveyed: string)

  datatype Resolved = Resolved(key: Key, mapId: string, track: Track)

  // ----- The sources of a frame -----

  predicate KeyLeq(a: Key, b: Key) {
    a == OfficialRace || (b.OfficialSandbox? && StringLeq(a.sandboxId, b.sandboxId))
  }

  function InsertByKey(s: Source, sorted: seq<Source>): seq<Source> {
    if sorted == [] || KeyLeq(s.key, sorted[0].key) then [s] + sorted
    else [sorted[0]] + InsertByKey(s, sorted[1..])
  }

  function SortByKey(s: seq<Source>): seq<Source> {
    if s == [] then [] else InsertByKey(s[0], SortByKey(s[1..]))
  }

  function SandboxSources(sandboxes: seq<Roster.Entry<Engine.Session>>): seq<Source> {
    if sandboxes == [] then []
    else [Source(OfficialSandbox(sandboxes[0].id), sandboxes[0].info.mapId)] + SandboxSources(sandboxes[1..])
  }

  function CollectActiveSources(runtime: Option<Engine.World>): seq<Source> {
    if runtime.None? then []
    else
      var w := runtime.value;
      var official := if w.kind == Engine.OfficialRace then [Source(OfficialRace, w.mapId)] else [];
      SortByKey(official + SandboxSources(w.sandboxes))
  }

  predicate DistinctSources(s: seq<Source>) {
    forall i, j | 0 <= i < j < |s| :: s[i].key != s[j].key
  }

  predicate DistinctKeys(s: seq<Resolved>) {
    forall i, j | 0 <= i < j < |s| :: s[i].key != s[j].key
  }

  lemma {:induction false} InsertByKeyIn(s: Source, sorted: seq<Source>)
    ensures forall x :: x in InsertByKey(s, sorted) <==> x == s || x in sorted
    ensures DistinctSources(sorted) && (forall x | x in sorted :: x.key != s.key) ==>
              DistinctSources(InsertByKey(s, sorted))
  {
    if sorted != [] {
      assert sorted == [sorted[0]] + sorted[1..];
      if !KeyLeq(s.key, sorted[0].key) {
        InsertByKeyIn(s, sorted[1..]);
        var rest := InsertByKey(s, sorted[1..]);
        if DistinctSources(sorted) && forall x | x in sorted :: x.key != s.key {
          forall j | 0 <= j < |rest| ensures rest[j].key != sorted[0].key {
            assert rest[j] in rest;
          }
        }
      }
    }
  }

  lemma {:induction false} SortByKeyIn(s: seq<Source>)
    ensures forall x :: x in SortByKey(s) <==> x in s
    ensures DistinctSources(s) ==> DistinctSources(SortByKey(s))
  {
    if s != [] {
      assert s == [s[0]] + s[1..];
      SortByKeyIn(s[1..]);
      InsertByKeyIn(s[0], SortByKey(s[1..]));
    }
  }

  lemma {:induction false} SandboxSourcesIn(sandboxes: seq<Roster.Entry<Engine.Session>>)
    ensures |SandboxSources(sandboxes)| == |sandboxes|
    ensures forall i | 0 <= i < |sandboxes| ::
              SandboxSources(sandboxes)[i] == Source(OfficialSandbox(sandboxes[i].id), sandboxes[i].info.mapId)
  {
    if sandboxes != [] {
      SandboxSourcesIn(sandboxes[1..]);
    }
  }

  /** In every world that the engine worker can reach, a frame names no source twice. */
  lemma {:induction false} ActiveSourcesAreDistinct(w: Engine.World)
    requires EngineInvariant.Inv(w)
    ensures DistinctSources(CollectActiveSources(Some(w)))
  {
    SandboxSourcesIn(w.sandboxes);
    var official := if w.kind == Engine.OfficialRace then [Source(OfficialRace, w.mapId)] else [];
    SortByKeyIn(official + SandboxSources(w.sandboxes));
  }

  // ----- Descriptors, and the cache they come from -----

  datatype CacheEntry = CacheEntry(mapId: string, track: Track)

  type Cache = map<Key, CacheEntry>

  /** What reading a source's engine yields just now, for each source that can be read. */
  type Reads = map<Key, Track>

  function Relabelled(source: Source, read: Track): Track {
    read.(mapId := source.mapId)
  }

  predicate Cached(cache: Cache, source: Source) {
    source.key in cache && cache[source.key].mapId == source.mapId
  }

  function CacheAfter(cache: Cache, source: Source, readable: Reads): Cache {
    if Cached(cache, source) || source.key !in readable then cache
    else cache[source.key := CacheEntry(source.mapId, Relabelled(source, readable[source.key]))]
  }

  /** A source that is neither cached nor readable is left out. */
  function ResolveAll(cache: Cache, sources: seq<Source>, readable: Reads): (Cache, seq<Resolved>)
    decreases |sources|
  {
    if sources == [] then (cache, [])
    else
      var source := sources[0];
      var next := CacheAfter(cache, source, readable);
      var (last, rest) := ResolveAll(next, sources[1..], readable);
      (last,
       if Cached(next, source) then [Resolved(source.key, source.mapId, next[source.key].track)] + rest else rest)
  }

  class AchievementStreamService {
    var descriptorCache: Cache

    constructor ()
      ensures descriptorCache == map[]
    {
      descriptorCache := map[];
    }

    method ResolveDescriptor(source: Source, readable: Reads) returns (r: Option<Resolved>)
      modifies this
      ensures descriptorCache == CacheAfter(old(descriptorCache), source, readable)
      ensures r == if Cached(descriptorCache, source)
                   then Some(Resolved(source.key, source.mapId, descriptorCache[source.key].track)) else None
    {
      if source.key in descriptorCache {
        var cached := descriptorCache[source.key];
        if cached.mapId == source.mapId {
          return Some(Resolved(source.key, source.mapId, cached.track));
        }
      }
      if source.key !in readable {
        return None;
      }
      var trackData := readable[source.key].(mapId := source.mapId);
      descriptorCache := descriptorCache[source.key := CacheEntry(source.mapId, trackData)];
      return Some(Resolved(source.key, source.mapId, trackData));
    }

    method ResolveActiveDescriptors(sources: seq<Source>, readable: Reads) returns (resolved: seq<Resolved>)
      modifies this
      ensures (descriptorCache, resolved) == ResolveAll(old(descriptorCache), sources, readable)
    {
      resolved := [];
      var i := 0;
      ghost var all := ResolveAll(descriptorCache, sources, readable);
      while i < |sources|
        invariant 0 <= i <= |sources|
        invariant var rest := ResolveAll(descriptorCache, sources[i..], readable);
                  all.0 == rest.0 && all.1 == resolved + rest.1
      {
        assert sources[i..][1..] == sources[i + 1..];
        var descriptor := ResolveDescriptor(sources[i], readable);
        if descriptor.Some? {
          resolved := resolved + [descriptor.value];
        }
        i := i + 1;
      }
      assert sources[i..] == [] && resolved + [] == resolved;
    }
  }

  predicate Labelled(cache: Cache) {
    forall k | k in cache :: cache[k].track.mapId == cache[k].mapId
  }

  /** Every descriptor is of a source of the frame, under that source's map and saying so. */
  lemma {:induction false} ResolvedDescribeTheirSources(cache: Cache, sources: seq<Source>, readable: Reads)
    requires Labelled(cache) && DistinctSources(sources)
    ensures Labelled(ResolveAll(cache, sources, readable).0)
    ensures DistinctKeys(ResolveAll(cache, sources, readable).1)
    ensures forall d | d in ResolveAll(cache, sources, readable).1 ::
              Source(d.key, d.mapId) in sources && d.track.mapId == d.mapId
    decreases |sources|
  {
    if sources != [] {
      var source := sources[0];
      assert sources == [source] + sources[1..];
      var next := CacheAfter(cache, source, readable);
      ResolvedDescribeTheirSources(next, sources[1..], readable);
      var rest := ResolveAll(next, sources[1..], readable).1;
      forall d | d in rest ensures d.key != source.key {
        assert Source(d.key, d.mapId) in sources[1..];
      }
    }
  }

  predicate Describes(descriptors: seq<Resolved>, s: Source) {
    exists d | d in descriptors :: d.key == s.key && d.mapId == s.mapId
  }

  /** A source is described exactly if it was cached on its map or its engine could be read. */
  lemma {:induction false} DescribedIfCachedOrReadable(cache: Cache, sources: seq<Source>, readable: Reads, s: Source)
    requires DistinctSources(sources) && s in sources
    ensures Describes(ResolveAll(cache, sources, readable).1, s) <==> Cached(cache, s) || s.key in readable
    decreases |sources|
  {
    var source := sources[0];
    assert sources == [source] + sources[1..];
    var next := CacheAfter(cache, source, readable);
    var rest := ResolveAll(next, sources[1..], readable).1;
    if s == source {
      DescribedAreSources(next, sources[1..], readable);
      assert !Describes(rest, s);
      if Cached(next, s) {
        var d := Resolved(s.key, s.mapId, next[s.key].track);
        assert ([d] + rest)[0] == d;
      }
    } else {
      DescribedIfCachedOrReadable(next, sources[1..], readable, s);
      assert s.key != source.key;
      assert Describes(ResolveAll(cache, sources, readable).1, s) <==> Describes(rest, s);
    }
  }

  lemma {:induction false} DescribedAreSources(cache: Cache, sources: seq<Source>, readable: Reads)
    ensures forall d | d in ResolveAll(cache, sources, readable).1 :: Source(d.key, d.mapId) in sources
    decreases |sources|
  {
    if sources != [] {
      assert sources == [sources[0]] + sources[1..];
      DescribedAreSources(CacheAfter(cache, sources[0], readable), sources[1..], readable);
    }
  }

  // ----- What is sent -----

  datatype Message =
    | Bootstrap(sources: seq<Resolved>)
    | TopologyUpdate(sources: seq<Resolved>)
    | Snapshot(sources: seq<Resolved>)

  function MapIds(descriptors: seq<Resolved>): map<Key, string> {
    if descriptors == [] then map[]
    else MapIds(descriptors[..|descriptors| - 1])
           [descriptors[|descriptors| - 1].key := descriptors[|descriptors| - 1].mapId]
  }

  /** The descriptors that differ from what was announced for the frame before. */
  function Upserted(announced: map<Key, string>, descriptors: seq<Resolved>): seq<Resolved> {
    if descriptors == [] then []
    else
      var front, last := descriptors[..|descriptors| - 1], descriptors[|descriptors| - 1];
      Upserted(announced, front) +
        if last.key in announced && announced[last.key] == last.mapId then [] else [last]
  }

  function TickMessages(announced: map<Key, string>, descriptors: seq<Resolved>): seq<Message> {
    var upserted := Upserted(announced, descriptors);
    (if upserted == [] then [] else [TopologyUpdate(upserted)]) + [Snapshot(descriptors)]
  }

  /** The messages of a run in which the frames' sources resolve to the given descriptors. */
  function Messages(frames: seq<seq<Resolved>>): seq<Message> {
    if frames == [] then []
    else if |frames| == 1 then [Bootstrap(frames[0]), Snapshot(frames[0])]
    else Messages(frames[..|frames| - 1]) + TickMessages(MapIds(frames[|frames| - 2]), frames[|frames| - 1])
  }

  /** The snapshots among the messages. */
  function Snapshots(messages: seq<Message>): seq<seq<Resolved>> {
    if messages == [] then []
    else
      var front, last := messages[..|messages| - 1], messages[|messages| - 1];
      Snapshots(front) + if last.Snapshot? then [last.sources] else []
  }

  lemma {:induction false} SnapshotsAdd(x: seq<Message>, y: seq<Message>)
    ensures Snapshots(x + y) == Snapshots(x) + Snapshots(y)
    decreases |y|
  {
    if y == [] {
      assert x + y == x;
    } else {
      assert (x + y)[..|x + y| - 1] == x + y[..|y| - 1];
      SnapshotsAdd(x, y[..|y| - 1]);
    }
  }

  lemma {:induction false} SnapshotsOfTwo(first: Message, last: Message)
    requires !first.Snapshot? && last.Snapshot?
    ensures Snapshots([last]) == Snapshots([first, last]) == [last.sources]
  {
    assert [last][..0] == [] && [first, last][..1] == [first] && [first][..0] == [];
  }

  lemma {:induction false} SnapshotsOfTick(announced: map<Key, string>, descriptors: seq<Resolved>)
    ensures Snapshots(TickMessages(announced, descriptors)) == [descriptors]
  {
    SnapshotsOfTwo(TopologyUpdate(Upserted(announced, descriptors)), Snapshot(descriptors));
  }

  lemma {:induction false} SnapshotsGrow(frames: seq<seq<Resolved>>, last: seq<Resolved>)
    requires frames != [] && Snapshots(Messages(frames)) == frames
    ensures Snapshots(Messages(frames + [last])) == frames + [last]
  {
    MessagesGrow(frames, last);
    SnapshotsAdd(Messages(frames), TickMessages(MapIds(frames[|frames| - 1]), last));
    SnapshotsOfTick(MapIds(frames[|frames| - 1]), last);
  }

  /** Every frame arrives as one snapshot with all that it describes, in order. */
  lemma {:induction false} SnapshotsAreTheFrames(frames: seq<seq<Resolved>>)
    ensures Snapshots(Messages(frames)) == frames
  {
    if |frames| == 1 {
      SnapshotsOfTwo(Bootstrap(frames[0]), Snapshot(frames[0]));
    } else if frames != [] {
      var front, last := frames[..|frames| - 1], frames[|frames| - 1];
      assert front + [last] == frames;
      SnapshotsAreTheFrames(front);
      SnapshotsGrow(front, last);
    }
  }

  method CollectMapIds(descriptors: seq<Resolved>) returns (m: map<Key, string>)
    ensures m == MapIds(descriptors)
  {
    m := map[];
    for i := 0 to |descriptors|
      invariant m == MapIds(descriptors[..i])
    {
      assert descriptors[..i + 1][..i] == descriptors[..i];
      m := m[descriptors[i].key := descriptors[i].mapId];
    }
    assert descriptors[..|descriptors|] == descriptors;
  }

  method FilterUpserted(announced: map<Key, string>, descriptors: seq<Resolved>) returns (upserted: seq<Resolved>)
    ensures upserted == Upserted(announced, descriptors)
  {
    upserted := [];
    for i := 0 to |descriptors|
      invariant upserted == Upserted(announced, descriptors[..i])
    {
      assert descriptors[..i + 1][..i] == descriptors[..i];
      var entry := descriptors[i];
      if !(entry.key in announced && announced[entry.key] == entry.mapId) {
        upserted := upserted + [entry];
      }
    }
    assert descriptors[..|descriptors|] == descriptors;
  }

  datatype Frame = Frame(runtime: Option<Engine.World>, readable: Reads)

  function Descriptors(cache: Cache, frames: seq<Frame>): (Cache, seq<seq<Resolved>>) {
    if frames == [] then (cache, [])
    else
      var (before, all) := Descriptors(cache, frames[..|frames| - 1]);
      var frame := frames[|frames| - 1];
      var (after, resolved) := ResolveAll(before, CollectActiveSources(frame.runtime), frame.readable);
      (after, all + [resolved])
  }

  /** The next frame is resolved with the cache that the frames before it have left. */
  lemma {:induction false} DescriptorsGrow(cache: Cache, frames: seq<Frame>, i: nat)
    requires i < |frames|
    ensures var (before, all) := Descriptors(cache, frames[..i]);
            var (after, resolved) :=
              ResolveAll(before, CollectActiveSources(frames[i].runtime), frames[i].readable);
            Descriptors(cache, frames[..i + 1]) == (after, all + [resolved])
  {
    assert frames[..i + 1][..i] == frames[..i];
  }

  /** One turn of the stream's loop: an update if there is anything new, then the snapshot. */
  method Tick(service: AchievementStreamService, frame: Frame, announced: map<Key, string>)
    returns (sent: seq<Message>, current: map<Key, string>, ghost descriptors: seq<Resolved>)
    modifies service
    ensures (service.descriptorCache, descriptors) ==
            ResolveAll(old(service.descriptorCache), CollectActiveSources(frame.runtime), frame.readable)
    ensures current == MapIds(descriptors)
    ensures sent == TickMessages(announced, descriptors)
  {
    var resolved := service.ResolveActiveDescriptors(CollectActiveSources(frame.runtime), frame.readable);
    current := CollectMapIds(resolved);
    var upsertedSources := FilterUpserted(announced, resolved);
    sent := [];
    if upsertedSources != [] {
      sent := [TopologyUpdate(upsertedSources)];
    }
    sent := sent + [Snapshot(resolved)];
    descriptors := resolved;
  }

  /** The stream over the frames that its ticks pick up, the first one being there at the start. */
  method RunStream(service: AchievementStreamService, frames: seq<Frame>) returns (messages: seq<Message>)
    requires frames != []
    modifies service
    ensures service.descriptorCache == Descriptors(old(service.descriptorCache), frames).0
    ensures messages == Messages(Descriptors(old(service.descriptorCache), frames).1)
    ensures Snapshots(messages) == Descriptors(old(service.descriptorCache), frames).1
  {
    ghost var cache := service.descriptorCache;
    assert frames[..0] == [];
    DescriptorsGrow(cache, frames, 0);
    var initial := service.ResolveActiveDescriptors(CollectActiveSources(frames[0].runtime), frames[0].readable);
    var announcedSources := CollectMapIds(initial);
    messages := [Bootstrap(initial), Snapshot(initial)];
    ghost var all: seq<seq<Resolved>> := [];
    all := all + [initial];
    assert all == [initial];
    for i := 1 to |frames|
      invariant Descriptors(cache, frames[..i]) == (service.descriptorCache, all)
      invariant all != [] && messages == Messages(all)
      invariant announcedSources == MapIds(all[|all| - 1])
    {
      DescriptorsGrow(cache, frames, i);
      var sent, currentSources;
      ghost var descriptors;
      sent, currentSources, descriptors := Tick(service, frames[i], announcedSources);
      MessagesGrow(all, descriptors);
      messages := messages + sent;
      announcedSources := currentSources;
      all := all + [descriptors];
    }
    assert frames[..|frames|] == frames;
    SnapshotsAreTheFrames(all);
  }

  lemma {:induction false} MessagesGrow(all: seq<seq<Resolved>>, descriptors: seq<Resolved>)
    requires all != []
    ensures Messages(all + [descriptors]) == Messages(all) + TickMessages(MapIds(all[|all| - 1]), descriptors)
  {
    assert (all + [descriptors])[..|all|] == all;
  }

  // ----- What the client knows -----

  function Learn(known: map<Key, Resolved>, sources: seq<Resolved>): map<Key, Resolved> {
    if sources == [] then known
    else Learn(known, sources[..|sources| - 1])[sources[|sources| - 1].key := sources[|sources| - 1]]
  }

  /** A client takes in the bootstrap and every update, and forgets nothing. */
  function Known(messages: seq<Message>): map<Key, Resolved> {
    if messages == [] then map[]
    else
      var before, last := Known(messages[..|messages| - 1]), messages[|messages| - 1];
      if last.Snapshot? then before else Learn(before, last.sources)
  }

  ghost predicate Knows(known: map<Key, Resolved>, descriptors: seq<Resolved>) {
    forall d | d in descriptors :: d.key in known && known[d.key].mapId == d.mapId
  }

  lemma {:induction false} LastIsNew(descriptors: seq<Resolved>)
    requires DistinctKeys(descriptors) && descriptors != []
    ensures DistinctKeys(descriptors[..|descriptors| - 1])
    ensures forall d | d in descriptors[..|descriptors| - 1] :: d.key != descriptors[|descriptors| - 1].key
    ensures forall d :: d in descriptors <==>
              d in descriptors[..|descriptors| - 1] || d == descriptors[|descriptors| - 1]
  {
    var front, last := descriptors[..|descriptors| - 1], descriptors[|descriptors| - 1];
    assert descriptors == front + [last];
    forall d | d in front ensures d.key != last.key {
      var i :| 0 <= i < |front| && front[i] == d;
      assert descriptors[i].key != descriptors[|front|].key;
    }
  }

  predicate HasKey(descriptors: seq<Resolved>, k: Key) {
    exists d | d in descriptors :: d.key == k
  }

  /** What is announced for a frame is exactly the frame's sources and their maps. */
  lemma {:induction false} MapIdsIn(descriptors: seq<Resolved>)
    requires DistinctKeys(descriptors)
    ensures forall k :: k in MapIds(descriptors) <==> HasKey(descriptors, k)
    ensures forall d | d in descriptors :: IsAnnounced(MapIds(descriptors), d)
  {
    if descriptors != [] {
      LastIsNew(descriptors);
      MapIdsIn(descriptors[..|descriptors| - 1]);
    }
  }

  predicate IsAnnounced(announced: map<Key, string>, d: Resolved) {
    d.key in announced && announced[d.key] == d.mapId
  }

  lemma {:induction false} UpsertedIn(announced: map<Key, string>, descriptors: seq<Resolved>)
    ensures forall d :: d in Upserted(announced, descriptors) <==> d in descriptors && !IsAnnounced(announced, d)
    ensures DistinctKeys(descriptors) ==> DistinctKeys(Upserted(announced, descriptors))
  {
    if descriptors != [] {
      var front, last := descriptors[..|descriptors| - 1], descriptors[|descriptors| - 1];
      assert descriptors == front + [last];
      UpsertedIn(announced, front);
      var kept := Upserted(announced, front);
      if DistinctKeys(descriptors) {
        forall i | 0 <= i < |kept| ensures kept[i].key != last.key {
          assert kept[i] in front;
          var j :| 0 <= j < |front| && front[j] == kept[i];
          assert descriptors[j].key != descriptors[|front|].key;
        }
      }
    }
  }

  lemma {:induction false} LearnIn(known: map<Key, Resolved>, sources: seq<Resolved>)
    requires DistinctKeys(sources)
    ensures forall k | k in known && (forall d | d in sources :: d.key != k) ::
              k in Learn(known, sources) && Learn(known, sources)[k] == known[k]
    ensures forall d | d in sources :: d.key in Learn(known, sources) && Learn(known, sources)[d.key] == d
  {
    if sources != [] {
      LastIsNew(sources);
      LearnIn(known, sources[..|sources| - 1]);
    }
  }

  /**
   A source is sent again exactly when the frame before did not have it on the same map: never while
   it stays, and always when it comes back.
   */
  lemma {:induction false} SentExactlyWhenNew(before: seq<Resolved>, descriptors: seq<Resolved>, d: Resolved)
    requires DistinctKeys(before) && d in descriptors
    ensures d in Upserted(MapIds(before), descriptors) <==>
            !exists b | b in before :: b.key == d.key && b.mapId == d.mapId
  {
    MapIdsIn(before);
    UpsertedIn(MapIds(before), descriptors);
    if IsAnnounced(MapIds(before), d) {
      assert HasKey(before, d.key);
      var b :| b in before && b.key == d.key;
      assert IsAnnounced(MapIds(before), b);
    }
  }

  /** A client that knew the frame before knows this one once it has the update. */
  lemma {:induction false} UpdateInforms(known: map<Key, Resolved>, before: seq<Resolved>, descriptors: seq<Resolved>)
    requires Knows(known, before) && DistinctKeys(before) && DistinctKeys(descriptors)
    ensures Knows(Learn(known, Upserted(MapIds(before), descriptors)), descriptors)
  {
    var announced := MapIds(before);
    var upserted := Upserted(announced, descriptors);
    MapIdsIn(before);
    UpsertedIn(announced, descriptors);
    LearnIn(known, upserted);
    var learned := Learn(known, upserted);
    forall d | d in descriptors ensures d.key in learned && learned[d.key].mapId == d.mapId {
      if IsAnnounced(announced, d) {
        assert HasKey(before, d.key);
        var b :| b in before && b.key == d.key;
        assert IsAnnounced(announced, b);
        assert known[b.key].mapId == d.mapId;
        forall u | u in upserted ensures u.key != d.key {
          SameKeySameDescriptor(descriptors, u, d);
        }
      } else {
        assert d in upserted;
      }
    }
  }

  lemma {:induction false} SameKeySameDescriptor(descriptors: seq<Resolved>, a: Resolved, b: Resolved)
    requires DistinctKeys(descriptors) && a in descriptors && b in descriptors
    ensures a.key == b.key <==> a == b
  {
    var i :| 0 <= i < |descriptors| && descriptors[i] == a;
    var j :| 0 <= j < |descriptors| && descriptors[j] == b;
  }

  lemma {:induction false} KnownOfTick(messages: seq<Message>, before: seq<Resolved>, descriptors: seq<Resolved>)
    ensures var upserted := Upserted(MapIds(before), descriptors);
            var tick := TickMessages(MapIds(before), descriptors);
            && Known(messages + tick) == Learn(Known(messages), upserted)
            && Known(messages + tick[..|tick| - 1]) == Learn(Known(messages), upserted)
  {
    var upserted := Upserted(MapIds(before), descriptors);
    var tick := TickMessages(MapIds(before), descriptors);
    assert (messages + tick)[..|messages + tick| - 1] == messages + tick[..|tick| - 1];
    if upserted == [] {
      assert messages + [] == messages;
    } else {
      assert tick[..1] == [TopologyUpdate(upserted)];
      assert (messages + tick[..1])[..|messages|] == messages;
    }
  }

  ghost predicate EverySnapshotIsReadable(messages: seq<Message>) {
    forall k | 0 <= k < |messages| && messages[k].Snapshot? :: Knows(Known(messages[..k]), messages[k].sources)
  }

  lemma {:induction false} TickIsReadable(messages: seq<Message>, before: seq<Resolved>, descriptors: seq<Resolved>)
    requires EverySnapshotIsReadable(messages) && Knows(Known(messages), before)
    requires DistinctKeys(before) && DistinctKeys(descriptors)
    ensures EverySnapshotIsReadable(messages + TickMessages(MapIds(before), descriptors))
    ensures Knows(Known(messages + TickMessages(MapIds(before), descriptors)), descriptors)
  {
    var tick := TickMessages(MapIds(before), descriptors);
    var all := messages + tick;
    UpdateInforms(Known(messages), before, descriptors);
    KnownOfTick(messages, before, descriptors);
    forall k | 0 <= k < |all| && all[k].Snapshot? ensures Knows(Known(all[..k]), all[k].sources) {
      if k < |messages| {
        assert all[..k] == messages[..k];
      } else {
        assert k == |all| - 1 && all[..k] == messages + tick[..|tick| - 1];
      }
    }
  }

  /**
   Whatever the frames are, when a snapshot arrives the client knows every source in it under the
   map that the snapshot was built from.
   */
  lemma {:induction false} SnapshotsAreAlwaysReadable(frames: seq<seq<Resolved>>)
    requires forall i | 0 <= i < |frames| :: DistinctKeys(frames[i])
    ensures EverySnapshotIsReadable(Messages(frames))
    ensures frames != [] ==> Knows(Known(Messages(frames)), frames[|frames| - 1])
  {
    if |frames| == 1 {
      BootstrapIsReadable(frames[0]);
    } else if frames != [] {
      var front := frames[..|frames| - 1];
      SnapshotsAreAlwaysReadable(front);
      TickIsReadable(Messages(front), frames[|frames| - 2], frames[|frames| - 1]);
    }
  }

  lemma {:induction false} BootstrapIsReadable(initial: seq<Resolved>)
    requires DistinctKeys(initial)
    ensures var messages := [Bootstrap(initial), Snapshot(initial)];
            EverySnapshotIsReadable(messages) && Knows(Known(messages), initial)
  {
    var messages := [Bootstrap(initial), Snapshot(initial)];
    assert messages[..1] == [Bootstrap(initial)] && messages[..1][..0] == [];
    LearnIn(map[], initial);
  }

  lemma {:induction false} FramesAreDistinct(cache: Cache, frames: seq<Frame>)
    requires Labelled(cache)
    requires forall i | 0 <= i < |frames| :: DistinctSources(CollectActiveSources(frames[i].runtime))
    ensures |Descriptors(cache, frames).1| == |frames| && Labelled(Descriptors(cache, frames).0)
    ensures forall i | 0 <= i < |frames| :: DistinctKeys(Descriptors(cache, frames).1[i])
  {
    if frames != [] {
      var front, frame := frames[..|frames| - 1], frames[|frames| - 1];
      FramesAreDistinct(cache, front);
      ResolvedDescribeTheirSources(
        Descriptors(cache, front).0, CollectActiveSources(frame.runtime), frame.readable);
    }
  }

  /** In particular for the frames of any run of the engine worker, whatever the engines answer. */
  lemma {:induction false} StreamOfAnEngineIsReadable(cache: Cache, frames: seq<Frame>)
    requires Labelled(cache)
    requires forall i | 0 <= i < |frames| && frames[i].runtime.Some? :: EngineInvariant.Inv(frames[i].runtime.value)
    ensures EverySnapshotIsReadable(Messages(Descriptors(cache, frames).1))
  {
    forall i | 0 <= i < |frames| ensures DistinctSources(CollectActiveSources(frames[i].runtime)) {
      if frames[i].runtime.Some? {
        ActiveSourcesAreDistinct(frames[i].runtime.value);
      }
    }
    FramesAreDistinct(cache, frames);
    SnapshotsAreAlwaysReadable(Descriptors(cache, frames).1);
  }

  // ----- Whose track it is -----

  /** Every cached track is of the map it is kept for. */
  predicate Honest(cache: Cache) {
    forall k | k in cache :: cache[k].track.surveyed == cache[k].mapId
  }

  /** The track that a source gets: the cached one if it is kept for the source's map, or the one read. */
  function TrackFor(cache: Cache, s: Source, readable: Reads): Track
    requires Cached(cache, s) || s.key in readable
  {
    if Cached(cache, s) then cache[s.key].track else Relabelled(s, readable[s.key])
  }

  lemma {:induction false} OthersAreKept(cache: Cache, sources: seq<Source>, readable: Reads, k: Key)
    requires forall s | s in sources :: s.key != k
    ensures k in ResolveAll(cache, sources, readable).0 <==> k in cache
    ensures k in cache ==> ResolveAll(cache, sources, readable).0[k] == cache[k]
    decreases |sources|
  {
    if sources != [] {
      OthersAreKept(CacheAfter(cache, sources[0], readable), sources[1..], readable, k);
    }
  }

  /** A described source is sent with its track, and the cache keeps that track for the source's map. */
  lemma {:induction false} TrackIsSentAndKept(cache: Cache, sources: seq<Source>, readable: Reads, s: Source)
    requires DistinctSources(sources) && s in sources && (Cached(cache, s) || s.key in readable)
    ensures Resolved(s.key, s.mapId, TrackFor(cache, s, readable)) in ResolveAll(cache, sources, readable).1
    ensures var last := ResolveAll(cache, sources, readable).0;
            s.key in last && last[s.key] == CacheEntry(s.mapId, TrackFor(cache, s, readable))
    decreases |sources|
  {
    var source, rest := sources[0], sources[1..];
    assert sources == [source] + rest;
    var next := CacheAfter(cache, source, readable);
    if s == source {
      assert Cached(next, s) && next[s.key].track == TrackFor(cache, s, readable);
      OthersAreKept(next, rest, readable, s.key);
      var d := Resolved(s.key, s.mapId, next[s.key].track);
      assert ([d] + ResolveAll(next, rest, readable).1)[0] == d;
    } else {
      assert s in rest && s.key != source.key;
      TrackIsSentAndKept(next, rest, readable, s);
    }
  }

  lemma {:induction false} SourceOf(sources: seq<Source>, k: Key) returns (s: Option<Source>)
    ensures s.Some? ==> s.value in sources && s.value.key == k
    ensures s.None? ==> forall x | x in sources :: x.key != k
  {
    if x :| x in sources && x.key == k {
      return Some(x);
    }
    return None;
  }

  /** What a frame leaves alone: sources it does not have, and cached ones that stay on their map. */
  lemma {:induction false} CachedStays(cache: Cache, sources: seq<Source>, readable: Reads, k: Key)
    requires DistinctSources(sources) && k in cache
    requires forall s | s in sources && s.key == k :: s.mapId == cache[k].mapId
    ensures var (last, resolved) := ResolveAll(cache, sources, readable);
            && k in last && last[k] == cache[k]
            && forall d | d in resolved && d.key == k :: d.track == cache[k].track
  {
    var s := SourceOf(sources, k);
    if s.Some? {
      TrackIsSentAndKept(cache, sources, readable, s.value);
      OneDescriptorEach(cache, sources, readable, s.value);
    } else {
      OthersAreKept(cache, sources, readable, k);
      DescribedAreSources(cache, sources, readable);
    }
  }

  /** A source is described once, so any descriptor with its key is the one with its track. */
  lemma {:induction false} OneDescriptorEach(cache: Cache, sources: seq<Source>, readable: Reads, s: Source)
    requires DistinctSources(sources) && s in sources && (Cached(cache, s) || s.key in readable)
    ensures forall d | d in ResolveAll(cache, sources, readable).1 && d.key == s.key ::
              d == Resolved(s.key, s.mapId, TrackFor(cache, s, readable))
    decreases |sources|
  {
    var source, rest := sources[0], sources[1..];
    assert sources == [source] + rest;
    var next := CacheAfter(cache, source, readable);
    DescribedAreSources(next, rest, readable);
    if s == source {
      forall d | d in ResolveAll(next, rest, readable).1 ensures d.key != s.key {
        assert Source(d.key, d.mapId) in rest;
      }
    } else {
      assert s in rest && s.key != source.key;
      OneDescriptorEach(next, rest, readable, s);
    }
  }

  /**
   Whatever track the cache holds for a source is what is sent for it, in all frames to come, for as
   long as the source is on that map whenever it is there, and whatever its engine would answer.
   */
  lemma {:induction false} CachedTrackIsServed(cache: Cache, frames: seq<Frame>, k: Key)
    requires k in cache
    requires forall t | 0 <= t < |frames| :: DistinctSources(CollectActiveSources(frames[t].runtime))
    requires forall t, s | 0 <= t < |frames| && s in CollectActiveSources(frames[t].runtime) && s.key == k ::
               s.mapId == cache[k].mapId
    ensures |Descriptors(cache, frames).1| == |frames|
    ensures k in Descriptors(cache, frames).0 && Descriptors(cache, frames).0[k] == cache[k]
    ensures forall t, d | 0 <= t < |frames| && d in Descriptors(cache, frames).1[t] && d.key == k ::
              d.track == cache[k].track
  {
    if frames != [] {
      var front, frame := frames[..|frames| - 1], frames[|frames| - 1];
      CachedTrackIsServed(cache, front, k);
      CachedStays(Descriptors(cache, front).0, CollectActiveSources(frame.runtime), frame.readable, k);
    }
  }
}
