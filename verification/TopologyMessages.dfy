/**
 The order of the messages on the achievement stream: the bootstrap, then one snapshot a frame, and
 directly before a snapshot what its frame has that the frame before did not have. Also the order of
 the sources within a frame.
 */
module TopologyMessages {
  import opened Prelude
  import opened TopologyStream
  import Roster
  import Engine = EngineModel

  /** The frame before did not have this source on the same map. */
  predicate IsNew(before: seq<Resolved>, d: Resolved) {
    forall b | b in before :: b.key != d.key || b.mapId != d.mapId
  }

  ghost predicate HasNew(before: seq<Resolved>, descriptors: seq<Resolved>) {
    exists d :: d in descriptors && IsNew(before, d)
  }

  /** The sources of an update are the new ones of its frame, and there is one. */
  ghost predicate Updates(sources: seq<Resolved>, before: seq<Resolved>, descriptors: seq<Resolved>) {
    && sources != [] && DistinctKeys(sources)
    && forall d :: d in sources <==> d in descriptors && IsNew(before, d)
  }

  /** Which frame the k-th message belongs to. */
  function FrameAt(messages: seq<Message>, k: nat): nat
    requires k <= |messages|
  {
    |Snapshots(messages[..k])|
  }

  /** What the k-th message of a stream over these frames is. */
  ghost predicate InPlace(messages: seq<Message>, k: nat, frames: seq<seq<Resolved>>)
    requires k < |messages|
  {
    var t := FrameAt(messages, k);
    match messages[k]
    case Bootstrap(sources) => k == 0 && t < |frames| && sources == frames[0]
    case TopologyUpdate(sources) =>
      && 1 <= t < |frames| && Updates(sources, frames[t - 1], frames[t])
      && k + 1 < |messages| && messages[k + 1].Snapshot?
    case Snapshot(sources) =>
      && 1 <= k && t < |frames| && sources == frames[t]
      && (t == 0 ==> messages[k - 1].Bootstrap?)
      && (t > 0 ==> if HasNew(frames[t - 1], frames[t]) then messages[k - 1].TopologyUpdate?
                    else messages[k - 1].Snapshot?)
  }

  ghost predicate AllInPlace(messages: seq<Message>, frames: seq<seq<Resolved>>) {
    && (forall k | 0 <= k < |messages| :: InPlace(messages, k, frames))
    && (messages != [] ==> messages[0].Bootstrap? && messages[|messages| - 1].Snapshot?)
  }

  lemma {:induction false} UpsertedIsTheUpdate(before: seq<Resolved>, descriptors: seq<Resolved>)
    requires DistinctKeys(before) && DistinctKeys(descriptors)
    ensures var upserted := Upserted(MapIds(before), descriptors);
            && (upserted != [] <==> HasNew(before, descriptors))
            && (upserted != [] ==> Updates(upserted, before, descriptors))
  {
    var upserted := Upserted(MapIds(before), descriptors);
    UpsertedIn(MapIds(before), descriptors);
    forall d ensures d in upserted <==> d in descriptors && IsNew(before, d) {
      if d in descriptors {
        SentExactlyWhenNew(before, descriptors, d);
      }
    }
    if upserted != [] {
      assert upserted[0] in descriptors && IsNew(before, upserted[0]);
    }
  }

  /** A message stays in its place when more frames and messages follow. */
  lemma {:induction false} PlaceIsKept(
    messages: seq<Message>, more: seq<Message>, frames: seq<seq<Resolved>>, last: seq<Resolved>, k: nat)
    requires k < |messages| && InPlace(messages, k, frames)
    ensures InPlace(messages + more, k, frames + [last])
  {
    assert (messages + more)[..k] == messages[..k];
  }

  lemma {:induction false} FramesSoFar(
    messages: seq<Message>, tick: seq<Message>, frames: seq<seq<Resolved>>, i: nat)
    requires Snapshots(messages) == frames && i <= |tick|
    requires forall j | 0 <= j < i :: !tick[j].Snapshot?
    ensures FrameAt(messages + tick, |messages| + i) == |frames|
    decreases i
  {
    var all := messages + tick;
    if i == 0 {
      assert all[..|messages|] == messages;
    } else {
      FramesSoFar(messages, tick, frames, i - 1);
      assert all[..|messages| + i][..|messages| + i - 1] == all[..|messages| + i - 1];
    }
  }

  lemma {:induction false} TickIsInPlace(messages: seq<Message>, frames: seq<seq<Resolved>>, last: seq<Resolved>)
    requires frames != [] && Snapshots(messages) == frames && AllInPlace(messages, frames) && messages != []
    requires DistinctKeys(frames[|frames| - 1]) && DistinctKeys(last)
    ensures AllInPlace(messages + TickMessages(MapIds(frames[|frames| - 1]), last), frames + [last])
  {
    var before := frames[|frames| - 1];
    var tick := TickMessages(MapIds(before), last);
    var all := messages + tick;
    UpsertedIsTheUpdate(before, last);
    FramesSoFar(messages, tick, frames, 0);
    FramesSoFar(messages, tick, frames, |tick| - 1);
    forall k | 0 <= k < |all| ensures InPlace(all, k, frames + [last]) {
      if k < |messages| {
        PlaceIsKept(messages, tick, frames, last, k);
      } else {
        assert all[k] == tick[k - |messages|];
      }
    }
  }

  lemma {:induction false} FirstTwoInPlace(first: seq<Resolved>)
    ensures AllInPlace([Bootstrap(first), Snapshot(first)], [first])
  {
    var messages := [Bootstrap(first), Snapshot(first)];
    assert messages[..0] == [] && messages[..1] == [Bootstrap(first)] && messages[..1][..0] == [];
    assert InPlace(messages, 0, [first]) && InPlace(messages, 1, [first]);
  }

  /**
   For every run of frames: the stream begins with the bootstrap, which is of the first frame, and there
   is no other; every frame has one snapshot, in order and with all its sources; and an update stands
   directly before the snapshot of each frame with a new source, with exactly its new sources, and
   nowhere else.
   */
  lemma {:induction false} MessagesAreInPlace(frames: seq<seq<Resolved>>)
    requires forall i | 0 <= i < |frames| :: DistinctKeys(frames[i])
    ensures AllInPlace(Messages(frames), frames) && Snapshots(Messages(frames)) == frames
    ensures frames != [] ==> Messages(frames) != []
  {
    SnapshotsAreTheFrames(frames);
    if |frames| == 1 {
      FirstTwoInPlace(frames[0]);
      assert [frames[0]] == frames;
    } else if frames != [] {
      var front, last := frames[..|frames| - 1], frames[|frames| - 1];
      MessagesAreInPlace(front);
      TickIsInPlace(Messages(front), front, last);
      assert front + [last] == frames;
    }
  }

  // ----- The order within a frame -----

  /** The official race comes first, then the sandboxes by id. */
  predicate InKeyOrder(s: seq<Source>) {
    forall i | 0 < i < |s| ::
      s[i - 1].key.OfficialRace? || (s[i].key.OfficialSandbox? && StringLeq(s[i - 1].key.sandboxId, s[i].key.sandboxId))
  }

  lemma {:induction false} InsertKeepsKeyOrder(s: Source, sorted: seq<Source>)
    requires InKeyOrder(sorted)
    ensures InKeyOrder(InsertByKey(s, sorted))
    ensures InsertByKey(s, sorted)[0] == s || (sorted != [] && InsertByKey(s, sorted)[0] == sorted[0])
  {
    if sorted != [] && !KeyLeq(s.key, sorted[0].key) {
      if s.key.OfficialSandbox? && sorted[0].key.OfficialSandbox? {
        StringLeqIsTotal(s.key.sandboxId, sorted[0].key.sandboxId);
      }
      InsertKeepsKeyOrder(s, sorted[1..]);
    }
  }

  lemma {:induction false} SortIsInKeyOrder(s: seq<Source>)
    ensures InKeyOrder(SortByKey(s))
  {
    if s != [] {
      SortIsInKeyOrder(s[1..]);
      InsertKeepsKeyOrder(s[0], SortByKey(s[1..]));
    }
  }

  /** A frame lists the official race, if that is the mode, and every active sandbox, in this order. */
  lemma {:induction false} SourcesAreInKeyOrder(w: Engine.World)
    ensures var sources := CollectActiveSources(Some(w));
            && InKeyOrder(sources)
            && forall s :: s in sources <==>
                 if s.key.OfficialRace? then w.kind == Engine.OfficialRace && s.mapId == w.mapId
                 else exists e :: e in w.sandboxes && e.id == s.key.sandboxId && e.info.mapId == s.mapId
  {
    var official := if w.kind == Engine.OfficialRace then [Source(OfficialRace, w.mapId)] else [];
    var all := official + SandboxSources(w.sandboxes);
    SortIsInKeyOrder(all);
    SortByKeyIn(all);
    SandboxSourcesIn(w.sandboxes);
    forall s
      ensures s in all <==>
        if s.key.OfficialRace? then w.kind == Engine.OfficialRace && s.mapId == w.mapId
        else exists e :: e in w.sandboxes && e.id == s.key.sandboxId && e.info.mapId == s.mapId
    {
      SourceIsListed(w.sandboxes, s);
    }
  }

  lemma {:induction false} SourceIsListed(sandboxes: seq<Roster.Entry<Engine.Session>>, s: Source)
    ensures s in SandboxSources(sandboxes) <==>
            s.key.OfficialSandbox?
            && exists e :: e in sandboxes && e.id == s.key.sandboxId && e.info.mapId == s.mapId
  {
    SandboxSourcesIn(sandboxes);
    if s.key.OfficialSandbox? {
      if e :| e in sandboxes && e.id == s.key.sandboxId && e.info.mapId == s.mapId {
        var i :| 0 <= i < |sandboxes| && sandboxes[i] == e;
        assert SandboxSources(sandboxes)[i] == s;
      }
    }
  }
}
