/** Incremental reconciliation of the outer presenter with the session's snapshots (src/bridge.rs:948-1150, 1283-1307,
    1680-2007). The outer presenter is modelled by what src/media.rs does with transactions and destroyed sources. */
module Reconcile {
  import opened Wrappers
  import opened FixedWidth

  // ---- Snapshots ----

  datatype Key = Key(producer: nat, source: nat)

  /** `config` stands for all codec and format fields of a kind. */
  datatype Kind = Video(config: nat) | Raster(config: nat) | Image(config: nat) | Audio(linkedVideo: Option<Key>, config: nat)

  datatype Source = Source(key: Key, kind: Kind, playing: bool, playRequest: nat)

  datatype NodeKey = NodeKey(producer: nat, node: nat, fragment: nat)

  /** `layout` stands for position, size, clip, order and visibility. */
  datatype Node = Node(key: NodeKey, source: Key, layout: nat)

  predicate IsTimed(kind: Kind) {
    kind.Video? || kind.Audio?
  }

  type Sources = map<Key, Source>

  predicate DistinctSources(sources: seq<Source>) {
    forall i, j :: 0 <= i < j < |sources| ==> sources[i].key != sources[j].key
  }

  predicate DistinctNodes(nodes: seq<Node>) {
    forall i, j :: 0 <= i < j < |nodes| ==> nodes[i].key != nodes[j].key
  }

  /** The snapshot by key. */
  function Requested(sources: seq<Source>): Sources {
    if sources == [] then map[]
    else
      var last := sources[|sources| - 1];
      Requested(sources[..|sources| - 1])[last.key := last]
  }

  lemma {:induction false} RequestedSources(sources: seq<Source>)
    requires DistinctSources(sources)
    ensures forall key :: key in Requested(sources) ==> Requested(sources)[key].key == key && Requested(sources)[key] in sources
    ensures forall i :: 0 <= i < |sources| ==>
                          sources[i].key in Requested(sources) && Requested(sources)[sources[i].key] == sources[i]
  {
    if sources != [] {
      RequestedSources(sources[..|sources| - 1]);
    }
  }

  /** What the protocol library is taken to check of a snapshot: keys are distinct, audio is linked to a video of the
      snapshot, and every node shows a source of the snapshot. */
  predicate ValidSnapshot(sources: seq<Source>, nodes: seq<Node>) {
    && DistinctSources(sources) && DistinctNodes(nodes)
    && LinksInside(Requested(sources))
    && forall i :: 0 <= i < |nodes| ==> nodes[i].source in Requested(sources)
  }

  predicate LinksInside(wanted: Sources) {
    forall key :: key in wanted && wanted[key].kind.Audio? && wanted[key].kind.linkedVideo.Some? ==>
                    var video := wanted[key].kind.linkedVideo.value;
                    video in wanted && wanted[video].kind.Video?
  }

  // ---- The outer presenter ----

  datatype OuterKind = OuterVideo(config: nat) | OuterRaster(config: nat) | OuterImage(config: nat)
    | OuterAudio(linkedVideo: Option<nat>, config: nat)

  /** `playing` is the play request in force, when there is one. */
  datatype OuterSource = OuterSource(kind: OuterKind, playing: Option<nat>)

  datatype OuterNode = OuterNode(source: nat, layout: nat)

  /** `usedSources` and `usedNodes` are all ids ever created; `lostNodes` the nodes that vanished with their source. */
  datatype Outer = Outer(
    sources: map<nat, OuterSource>, nodes: map<nat, OuterNode>, usedSources: set<nat>, usedNodes: set<nat>,
    lostNodes: set<nat>)

  const NO_OUTER := Outer(map[], map[], {}, {}, {})

  /** A create request that uses an id a second time is refused. */
  function CreateOuter(o: Outer, id: nat, kind: OuterKind): Result<Outer> {
    if id in o.usedSources then Err("source ID already exists")
    else Ok(o.(sources := o.sources[id := OuterSource(kind, None)], usedSources := o.usedSources + {id}))
  }

  function SetPlaying(o: Outer, id: nat, playing: Option<nat>): Result<Outer> {
    if id !in o.sources then Err("source missing")
    else if o.sources[id].kind.OuterRaster? || o.sources[id].kind.OuterImage? then
      Err("playback controls require a timed source")
    else Ok(o.(sources := o.sources[id := o.sources[id].(playing := playing)]))
  }

  function DestroyOuter(o: Outer, id: nat): Result<Outer> {
    if id !in o.sources then Err("source does not exist")
    else
      Ok(o.(sources := o.sources - {id},
            nodes := map node | node in o.nodes && o.nodes[node].source != id :: o.nodes[node],
            lostNodes := o.lostNodes + set node | node in o.nodes && o.nodes[node].source == id))
  }

  datatype Mutation = CreateNode(id: nat, node: OuterNode) | UpdateNode(id: nat, node: OuterNode) | DeleteNode(id: nat)

  function Mutate(o: Outer, nodes: map<nat, OuterNode>, mutation: Mutation): Result<map<nat, OuterNode>> {
    match mutation
    case CreateNode(id, node) =>
      if node.source !in o.sources then Err("node source missing")
      else if id in nodes || id in o.usedNodes then Err("node ID already exists")
      else Ok(nodes[id := node])
    case UpdateNode(id, node) =>
      if node.source !in o.sources then Err("node source missing")
      else if id !in nodes then Err("updated node does not exist")
      else Ok(nodes[id := node])
    case DeleteNode(id) => if id !in nodes then Err("deleted node does not exist") else Ok(nodes - {id})
  }

  function MutateAll(o: Outer, mutations: seq<Mutation>): Result<map<nat, OuterNode>> {
    if mutations == [] then Ok(o.nodes)
    else
      var n := |mutations| - 1;
      match MutateAll(o, mutations[..n])
      case Err(error) => Err(error)
      case Ok(nodes) => Mutate(o, nodes, mutations[n])
  }

  predicate LinksValid(sources: map<nat, OuterSource>) {
    forall id :: id in sources && sources[id].kind.OuterAudio? && sources[id].kind.linkedVideo.Some? ==>
                   var video := sources[id].kind.linkedVideo.value;
                   video in sources && sources[video].kind.OuterVideo?
  }

  /** A transaction is applied as a whole, to a scene whose audio links are in order. */
  function CommitOuter(o: Outer, mutations: seq<Mutation>): Result<Outer> {
    match MutateAll(o, mutations)
    case Err(error) => Err(error)
    case Ok(nodes) =>
      if !LinksValid(o.sources) then Err("scene structure is invalid")
      else Ok(o.(nodes := nodes, usedNodes := o.usedNodes + nodes.Keys))
  }

  // ---- The bridge's tables ----

  datatype Tables = Tables(
    sourceIds: map<Key, nat>, reverseSourceIds: map<nat, Key>, sourceKinds: map<Key, Kind>, nextSource: nat, nextNode: nat,
    nodeIds: map<NodeKey, nat>, activeSources: Sources, outer: Outer)

  function OuterKindOf(kind: Kind, ids: map<Key, nat>): OuterKind {
    match kind
    case Video(config) => OuterVideo(config)
    case Raster(config) => OuterRaster(config)
    case Image(config) => OuterImage(config)
    case Audio(linked, config) =>
      OuterAudio(if linked.Some? && linked.value in ids then Some(ids[linked.value]) else None, config)
  }

  function PlayState(source: Source): Option<nat> {
    if IsTimed(source.kind) && source.playing then Some(source.playRequest) else None
  }

  /** The two id tables are inverse to each other on the live keys. */
  predicate Mapped(t: Tables, live: set<Key>) {
    && (forall key :: key in live ==>
          key in t.sourceIds && t.sourceIds[key] in t.reverseSourceIds && t.reverseSourceIds[t.sourceIds[key]] == key)
    && (forall id :: id in t.reverseSourceIds ==>
          t.reverseSourceIds[id] in live && t.reverseSourceIds[id] in t.sourceIds && t.sourceIds[t.reverseSourceIds[id]] == id)
  }

  /** An audio source is linked to a live video. */
  predicate LinkLive(wanted: Sources, live: set<Key>, key: Key)
    requires key in wanted
  {
    wanted[key].kind.Audio? && wanted[key].kind.linkedVideo.Some? ==>
      var video := wanted[key].kind.linkedVideo.value;
      video in live && video in wanted && wanted[video].kind.Video?
  }

  predicate Shown(t: Tables, live: set<Key>, wanted: Sources, playing: map<Key, Option<nat>>, key: Key) {
    && key in wanted && key in playing && key in t.sourceIds && t.sourceIds[key] in t.outer.sources
    && LinkLive(wanted, live, key)
    && t.outer.sources[t.sourceIds[key]] == OuterSource(OuterKindOf(wanted[key].kind, t.sourceIds), playing[key])
  }

  /** The presenter has exactly the live sources, each as the snapshot describes it and playing as `playing` says, and
      the obsolete ones still to be destroyed. */
  ghost predicate ShowsSources(t: Tables, live: set<Key>, wanted: Sources, playing: map<Key, Option<nat>>, obsolete: set<nat>) {
    && Mapped(t, live)
    && (forall id :: id in t.outer.sources <==> id in t.reverseSourceIds || id in obsolete)
    && obsolete !! t.reverseSourceIds.Keys
    && (forall key :: key in live ==> Shown(t, live, wanted, playing, key))
    && t.outer.sources.Keys <= t.outer.usedSources
    && (forall id :: id in t.outer.usedSources ==> id <= t.nextSource)
  }

  /** In addition, no audio at the presenter, live or obsolete, is linked to a video that is gone. */
  ghost predicate Shows(t: Tables, live: set<Key>, wanted: Sources, playing: map<Key, Option<nat>>, obsolete: set<nat>) {
    ShowsSources(t, live, wanted, playing, obsolete) && LinksValid(t.outer.sources)
  }

  function PlayStates(wanted: Sources): map<Key, Option<nat>> {
    map key | key in wanted :: PlayState(wanted[key])
  }

  /** Every node has its own id, and the presenter has no others. */
  predicate NodeIdsExact(nodeIds: map<NodeKey, nat>, nodes: map<nat, OuterNode>) {
    && (forall a, b :: a in nodeIds && b in nodeIds && nodeIds[a] == nodeIds[b] ==> a == b)
    && (forall a :: a in nodeIds ==> nodeIds[a] in nodes)
    && (forall id :: id in nodes ==> id in nodeIds.Values)
  }

  predicate NodesShown(t: Tables, nodes: map<NodeKey, Node>) {
    && NodeIdsExact(t.nodeIds, t.outer.nodes)
    && t.nodeIds.Keys == nodes.Keys
    && (forall key :: key in nodes ==>
          nodes[key].source in t.sourceIds
          && t.outer.nodes[t.nodeIds[key]] == OuterNode(t.sourceIds[nodes[key].source], nodes[key].layout))
    && t.outer.nodes.Keys <= t.outer.usedNodes
    && (forall id :: id in t.outer.usedNodes ==> id <= t.nextNode)
  }

  /** The bridge and the presenter agree with a snapshot: same sources, links and playing flags, same nodes, through
      id tables that are inverse to each other. */
  ghost predicate Mirrors(t: Tables, wanted: Sources, nodes: map<NodeKey, Node>) {
    && t.activeSources == wanted
    && t.sourceIds.Keys == wanted.Keys
    && t.sourceKinds == (map key | key in wanted :: wanted[key].kind)
    && LinksInside(wanted)
    && Shows(t, wanted.Keys, wanted, PlayStates(wanted), {})
    && NodesShown(t, nodes)
    && t.outer.lostNodes == {}
  }

  /** Distinct sources and nodes have distinct ids. */
  lemma IdsAreInjective(t: Tables, wanted: Sources, nodes: map<NodeKey, Node>, a: Key, b: Key, x: NodeKey, y: NodeKey)
    requires Mirrors(t, wanted, nodes) && a in wanted && b in wanted && x in nodes && y in nodes
    ensures t.sourceIds[a] == t.sourceIds[b] <==> a == b
    ensures t.nodeIds[x] == t.nodeIds[y] <==> x == y
  {
  }

  /** The presenter's source for a key has that key's kind, link and playing state. */
  ghost predicate IsCopied(t: Tables, wanted: Sources, key: Key)
    requires key in wanted
  {
    && key in t.sourceIds && t.sourceIds[key] in t.outer.sources
    && var source, outer := wanted[key], t.outer.sources[t.sourceIds[key]];
    && (match source.kind
        case Video(config) => outer.kind == OuterVideo(config) && outer.playing.Some? == source.playing
        case Raster(config) => outer.kind == OuterRaster(config) && outer.playing.None?
        case Image(config) => outer.kind == OuterImage(config) && outer.playing.None?
        case Audio(None, config) => outer.kind == OuterAudio(None, config) && outer.playing.Some? == source.playing
        case Audio(Some(video), config) =>
          && video in t.sourceIds && outer.kind == OuterAudio(Some(t.sourceIds[video]), config)
          && outer.playing.Some? == source.playing)
    && (outer.playing.Some? ==> outer.playing.value == source.playRequest)
  }

  /** What agreement means: each source and node of the snapshot is at the presenter, and nothing else is. */
  lemma MirrorsExactly(t: Tables, wanted: Sources, nodes: map<NodeKey, Node>)
    requires Mirrors(t, wanted, nodes)
    ensures forall key :: key in wanted ==> IsCopied(t, wanted, key)
    ensures forall id :: id in t.outer.sources ==> exists key :: key in wanted && key in t.sourceIds && t.sourceIds[key] == id
    ensures forall key :: key in nodes ==>
                            && key in t.nodeIds && t.nodeIds[key] in t.outer.nodes
                            && t.outer.nodes[t.nodeIds[key]].layout == nodes[key].layout
                            && nodes[key].source in t.sourceIds
                            && t.outer.nodes[t.nodeIds[key]].source == t.sourceIds[nodes[key].source]
    ensures forall id :: id in t.outer.nodes ==> exists key :: key in nodes && key in t.nodeIds && t.nodeIds[key] == id
  {
    forall key | key in wanted ensures IsCopied(t, wanted, key) {
      assert Shown(t, wanted.Keys, wanted, PlayStates(wanted), key);
    }
    forall id | id in t.outer.sources ensures exists key :: key in wanted && key in t.sourceIds && t.sourceIds[key] == id {
      assert t.reverseSourceIds[id] in wanted;
    }
  }

  /** A snapshot with a video, the audio linked to it and a node is valid; without the video, or with a key twice, it is
      not. */
  lemma ASnapshotIsValid(v: Source, a: Source, node: Node)
    requires v.kind.Video? && a.kind.Audio? && a.kind.linkedVideo == Some(v.key) && a.key != v.key && node.source == v.key
    ensures ValidSnapshot([v, a], [node]) && ValidSnapshot([a, v], [node])
    ensures !ValidSnapshot([a], [])
    ensures !ValidSnapshot([a, v, a], [node])
    ensures !ValidSnapshot([a, v], [node, node])
  {
    RequestedSources([a]);
    RequestedSources([v, a]);
    RequestedSources([a, v]);
    assert [a][..0] == [] && [v, a][..1] == [v] && [a, v][..1] == [a];
    assert a.key in Requested([a]) && v.key !in Requested([a]);
    var thrice, twice := [a, v, a], [node, node];
    assert thrice[0].key == thrice[2].key && twice[0].key == twice[1].key;
  }

  /** The presenter takes new ids and playback of timed sources it has; the id of a destroyed source is used up. */
  lemma PresenterTakesSources(o: Outer, id: nat, kind: OuterKind, playing: Option<nat>)
    ensures SetPlaying(o, id, playing).Ok? <==> id in o.sources && (o.sources[id].kind.OuterVideo? || o.sources[id].kind.OuterAudio?)
    ensures CreateOuter(o, id, kind).Ok? <==> id !in o.usedSources
    ensures
      id !in o.usedSources ==>
        var created := CreateOuter(o, id, kind).value;
        && created.sources == o.sources[id := OuterSource(kind, None)] && created.nodes == o.nodes
        && CreateOuter(created, id, kind).Err? && CreateOuter(DestroyOuter(created, id).value, id, kind).Err?
  {
  }

  /** The presenter takes nodes of sources it has, created under new ids; a destroyed source takes its nodes along. */
  lemma PresenterTakesNodes(o: Outer, id: nat, nodes: map<nat, OuterNode>, node: OuterNode)
    ensures Mutate(o, nodes, CreateNode(id, node)).Ok? <==> node.source in o.sources && id !in nodes && id !in o.usedNodes
    ensures Mutate(o, nodes, UpdateNode(id, node)).Ok? <==> node.source in o.sources && id in nodes
    ensures Mutate(o, nodes, DeleteNode(id)).Ok? <==> id in nodes
    ensures DestroyOuter(o, id).Ok? <==> id in o.sources
    ensures
      id in o.sources ==>
        var after := DestroyOuter(o, id).value;
        forall n :: n in o.nodes ==>
                      if o.nodes[n].source == id then n !in after.nodes && n in after.lostNodes
                      else n in after.nodes && after.nodes[n] == o.nodes[n] && (n in after.lostNodes <==> n in o.lostNodes)
  {
  }

  // ---- Which sources are recreated ----

  predicate KindChanged(kinds: map<Key, Kind>, source: Source) {
    source.key !in kinds || kinds[source.key] != source.kind
  }

  predicate MustRecreate(kinds: map<Key, Kind>, wanted: Sources, source: Source) {
    || KindChanged(kinds, source)
    || (source.kind.Audio? && source.kind.linkedVideo.Some? && source.kind.linkedVideo.value in wanted
        && KindChanged(kinds, wanted[source.kind.linkedVideo.value]))
  }

  /** Sources that are new or changed their kind, and the audio linked to them. */
  function RecreateSet(kinds: map<Key, Kind>, wanted: Sources): set<Key> {
    set key | key in wanted && MustRecreate(kinds, wanted, wanted[key])
  }

  predicate FollowsInto(kind: Kind, keys: set<Key>) {
    kind.Audio? && kind.linkedVideo.Some? && kind.linkedVideo.value in keys
  }

  /** Keys that have to be recreated together: whatever is new or of another kind, and audio with the video it is linked
      to. */
  ghost predicate IsClosed(kinds: map<Key, Kind>, wanted: Sources, keys: set<Key>) {
    && (forall key :: key in wanted && (key !in kinds || kinds[key] != wanted[key].kind) ==> key in keys)
    && (forall key :: key in wanted && FollowsInto(wanted[key].kind, keys) ==> key in keys)
  }

  /** No more is recreated than has to be: the set is the least of these. */
  lemma RecreateIsLeast(kinds: map<Key, Kind>, wanted: Sources)
    requires LinksInside(wanted) && forall key :: key in wanted ==> wanted[key].key == key
    ensures RecreateSet(kinds, wanted) <= wanted.Keys && IsClosed(kinds, wanted, RecreateSet(kinds, wanted))
    ensures forall keys :: IsClosed(kinds, wanted, keys) ==> RecreateSet(kinds, wanted) <= keys
  {
  }

  // ---- Creating sources ----

  function Rank(kind: Kind): nat {
    match kind
    case Video(_) => 0
    case Raster(_) => 1
    case Image(_) => 1
    case Audio(_, _) => 2
  }

  function OfRank(sources: seq<Source>, rank: nat): seq<Source> {
    if sources == [] then []
    else
      var last := sources[|sources| - 1];
      OfRank(sources[..|sources| - 1], rank) + if Rank(last.kind) == rank then [last] else []
  }

  /** The stable order of creation: videos first, then pictures, then audio. */
  function CreationOrder(sources: seq<Source>): seq<Source> {
    OfRank(sources, 0) + OfRank(sources, 1) + OfRank(sources, 2)
  }

  lemma {:induction false} OfRankMembers(sources: seq<Source>, rank: nat, source: Source)
    ensures source in OfRank(sources, rank) <==> source in sources && Rank(source.kind) == rank
  {
    if sources != [] {
      OfRankMembers(sources[..|sources| - 1], rank, source);
      assert sources == sources[..|sources| - 1] + [sources[|sources| - 1]];
    }
  }

  lemma {:induction false} OfRankDistinct(sources: seq<Source>, rank: nat)
    requires DistinctSources(sources)
    ensures DistinctSources(OfRank(sources, rank))
  {
    if sources != [] {
      var n := |sources| - 1;
      OfRankDistinct(sources[..n], rank);
      forall source | source in OfRank(sources[..n], rank) ensures source.key != sources[n].key {
        OfRankMembers(sources[..n], rank, source);
      }
    }
  }

  lemma CreationOrderDistinct(sources: seq<Source>)
    requires DistinctSources(sources)
    ensures DistinctSources(CreationOrder(sources))
  {
    var videos, pictures, audio := OfRank(sources, 0), OfRank(sources, 1), OfRank(sources, 2);
    OfRankDistinct(sources, 0);
    OfRankDistinct(sources, 1);
    OfRankDistinct(sources, 2);
    forall source | source in videos || source in pictures || source in audio
      ensures source in sources
      ensures source in videos ==> Rank(source.kind) == 0
      ensures source in pictures ==> Rank(source.kind) == 1
      ensures source in audio ==> Rank(source.kind) == 2
    {
      OfRankMembers(sources, 0, source);
      OfRankMembers(sources, 1, source);
      OfRankMembers(sources, 2, source);
    }
    var ordered := CreationOrder(sources);
    forall i, j | 0 <= i < j < |ordered| ensures ordered[i].key != ordered[j].key {
      if Rank(ordered[i].kind) == Rank(ordered[j].kind) {
        var offset := if i < |videos| then 0 else if i < |videos| + |pictures| then |videos| else |videos| + |pictures|;
      } else {
        var a :| 0 <= a < |sources| && sources[a] == ordered[i];
        var b :| 0 <= b < |sources| && sources[b] == ordered[j];
        assert a != b;
      }
    }
  }

  lemma CreationOrderMembers(sources: seq<Source>, source: Source)
    ensures source in CreationOrder(sources) <==> source in sources
  {
    OfRankMembers(sources, 0, source);
    OfRankMembers(sources, 1, source);
    OfRankMembers(sources, 2, source);
  }

  /** Videos may stand before anything, and anything before audio. */
  predicate MayPrecede(a: Kind, b: Kind) {
    a.Video? || b.Audio? || (!a.Audio? && !b.Video?)
  }

  /** The order is that of a stable sort: a source added to the list comes right after all that may precede it, and
      before all that may not; the others keep their places. */
  lemma CreationOrderIsStable(sources: seq<Source>, source: Source) returns (k: nat)
    ensures k <= |CreationOrder(sources)|
    ensures CreationOrder(sources + [source]) == CreationOrder(sources)[..k] + [source] + CreationOrder(sources)[k..]
    ensures forall i :: 0 <= i < k ==> MayPrecede(CreationOrder(sources)[i].kind, source.kind)
    ensures forall i :: k <= i < |CreationOrder(sources)| ==> !MayPrecede(CreationOrder(sources)[i].kind, source.kind)
  {
    assert (sources + [source])[..|sources|] == sources;
    var videos, pictures, audio := OfRank(sources, 0), OfRank(sources, 1), OfRank(sources, 2);
    k := match source.kind
      case Video(_) => |videos|
      case Audio(_, _) => |videos| + |pictures| + |audio|
      case _ => |videos| + |pictures|;
    forall i | 0 <= i < |CreationOrder(sources)|
      ensures MayPrecede(CreationOrder(sources)[i].kind, source.kind) <==> i < k
    {
      OfRankMembers(sources, 0, CreationOrder(sources)[i]);
      OfRankMembers(sources, 1, CreationOrder(sources)[i]);
      OfRankMembers(sources, 2, CreationOrder(sources)[i]);
    }
  }

  /** When the turn of an audio source comes, every video of the list has been created. */
  lemma VideosComeFirst(sources: seq<Source>, i: nat, video: Source)
    requires i < |CreationOrder(sources)| && CreationOrder(sources)[i].kind.Audio?
    requires video in sources && video.kind.Video?
    ensures video in CreationOrder(sources)[..i]
  {
    var videos, pictures, audio := OfRank(sources, 0), OfRank(sources, 1), OfRank(sources, 2);
    OfRankMembers(sources, 0, video);
    var ordered := CreationOrder(sources);
    var at := ordered[i];
    OfRankMembers(sources, 0, at);
    OfRankMembers(sources, 1, at);
    assert forall k :: 0 <= k < |videos| ==> ordered[k] in videos;
    var j :| 0 <= j < |videos| && videos[j] == video;
    assert ordered[..i][j] == video;
  }

  /** Creating one source under the next id. */
  function Created(t: Tables, source: Source): Tables {
    var id := t.nextSource + 1;
    var ids := t.sourceIds[source.key := id];
    t.(nextSource := id, sourceIds := ids, reverseSourceIds := t.reverseSourceIds[id := source.key],
       outer := t.outer.(sources := t.outer.sources[id := OuterSource(OuterKindOf(source.kind, ids), None)],
                         usedSources := t.outer.usedSources + {id}))
  }

  lemma CreatedShows(t: Tables, live: set<Key>, wanted: Sources, playing: map<Key, Option<nat>>, obsolete: set<nat>, source: Source)
    requires Shows(t, live, wanted, playing, obsolete)
    requires source.key !in live && source.key in wanted && wanted[source.key] == source
    requires LinkLive(wanted, live, source.key)
    requires forall id :: id in obsolete ==> id <= t.nextSource
    ensures Shows(Created(t, source), live + {source.key}, wanted, playing[source.key := None], obsolete)
  {
    hide LinksValid, Mapped, Shown;
    CreatedIsMapped(t, live, wanted, playing, obsolete, source);
    CreatedLinks(t, live, wanted, playing, obsolete, source);
    var after := Created(t, source);
    forall key | key in live + {source.key}
      ensures Shown(after, live + {source.key}, wanted, playing[source.key := None], key)
    {
      if key != source.key {
        CreatedKeepsShown(t, live, wanted, playing, source, key);
      } else {
        CreatedIsShown(t, live, wanted, playing, source);
      }
    }
  }

  lemma CreatedKeepsShown(t: Tables, live: set<Key>, wanted: Sources, playing: map<Key, Option<nat>>, source: Source, key: Key)
    requires Shown(t, live, wanted, playing, key) && key in live && source.key !in live
    requires t.nextSource + 1 !in t.outer.sources
    ensures Shown(Created(t, source), live + {source.key}, wanted, playing[source.key := None], key)
  {
  }

  lemma CreatedIsShown(t: Tables, live: set<Key>, wanted: Sources, playing: map<Key, Option<nat>>, source: Source)
    requires source.key !in live && source.key in wanted && wanted[source.key] == source && LinkLive(wanted, live, source.key)
    ensures Shown(Created(t, source), live + {source.key}, wanted, playing[source.key := None], source.key)
  {
  }

  lemma CreatedIsMapped(t: Tables, live: set<Key>, wanted: Sources, playing: map<Key, Option<nat>>, obsolete: set<nat>, source: Source)
    requires Shows(t, live, wanted, playing, obsolete) && source.key !in live
    ensures Mapped(Created(t, source), live + {source.key})
    ensures t.nextSource + 1 !in t.reverseSourceIds && t.nextSource + 1 !in t.outer.sources
  {
    hide LinksValid;
    var id := t.nextSource + 1;
    assert id !in t.outer.usedSources;
    assert id !in t.outer.sources;
  }

  lemma CreatedLinks(t: Tables, live: set<Key>, wanted: Sources, playing: map<Key, Option<nat>>, obsolete: set<nat>, source: Source)
    requires Shows(t, live, wanted, playing, obsolete)
    requires source.key !in live && source.key in wanted && wanted[source.key] == source
    requires LinkLive(wanted, live, source.key)
    ensures LinksValid(Created(t, source).outer.sources)
  {
    CreatedIsMapped(t, live, wanted, playing, obsolete, source);
    if source.kind.Audio? && source.kind.linkedVideo.Some? {
      assert Shown(t, live, wanted, playing, source.kind.linkedVideo.value);
    }
  }

  // ---- Forgetting obsolete sources ----

  /** The sources whose outer counterpart is to be destroyed. */
  function ObsoleteKeys(t: Tables, wanted: Sources, recreate: set<Key>): set<Key> {
    set key | key in t.sourceIds && (key !in wanted || key in recreate)
  }

  function IdsOf(t: Tables, keys: set<Key>): set<nat> {
    set key | key in keys && key in t.sourceIds :: t.sourceIds[key]
  }

  function KeptKeys(t: Tables, wanted: Sources, recreate: set<Key>): set<Key> {
    set key | key in t.sourceIds && key in wanted && key !in recreate
  }

  /** The tables after the entries of some obsolete keys are dropped. */
  function Forgotten(t: Tables, wanted: Sources, keys: set<Key>): Tables {
    t.(reverseSourceIds := t.reverseSourceIds - IdsOf(t, keys),
       sourceIds := t.sourceIds - (keys - wanted.Keys),
       sourceKinds := t.sourceKinds - (keys - wanted.Keys))
  }

  function KeptStates(previous: Sources, kept: set<Key>): map<Key, Option<nat>> {
    map key | key in kept && key in previous :: PlayState(previous[key])
  }

  /** What is kept is a part of the new snapshot that the presenter already shows. */
  lemma ForgottenShows(t: Tables, previous: Sources, nodes: map<NodeKey, Node>, wanted: Sources, recreate: set<Key>)
    requires Mirrors(t, previous, nodes) && LinksInside(wanted)
    requires forall key :: key in wanted ==> wanted[key].key == key
    requires recreate == RecreateSet(t.sourceKinds, wanted)
    ensures
      var keys, kept := ObsoleteKeys(t, wanted, recreate), KeptKeys(t, wanted, recreate);
      && Shows(Forgotten(t, wanted, keys), kept, wanted, KeptStates(previous, kept), IdsOf(t, keys))
      && Forgotten(t, wanted, keys).sourceIds.Keys == t.sourceIds.Keys * wanted.Keys
      && (forall id :: id in IdsOf(t, keys) ==> id <= t.nextSource)
      && keys <= t.sourceIds.Keys
  {
    hide LinksValid, Mapped, Shown;
    var keys, kept := ObsoleteKeys(t, wanted, recreate), KeptKeys(t, wanted, recreate);
    var after := Forgotten(t, wanted, keys);
    var states := KeptStates(previous, kept);
    ForgottenIsMapped(t, previous, wanted, recreate);
    forall key | key in kept ensures Shown(after, kept, wanted, states, key) {
      assert Shown(t, previous.Keys, previous, PlayStates(previous), key);
      KeptIsShown(t, previous, nodes, wanted, recreate, key);
    }
    forall id | id in t.outer.sources ensures id in after.reverseSourceIds || id in IdsOf(t, keys) {
      assert id in t.reverseSourceIds;
    }
    forall id | id in IdsOf(t, keys) ensures id in t.outer.sources {
      ObsoleteIsShown(t, previous, keys, id);
    }
  }

  lemma ForgottenIsMapped(t: Tables, previous: Sources, wanted: Sources, recreate: set<Key>)
    requires Mapped(t, previous.Keys) && t.sourceIds.Keys == previous.Keys
    ensures
      var keys, kept := ObsoleteKeys(t, wanted, recreate), KeptKeys(t, wanted, recreate);
      && Mapped(Forgotten(t, wanted, keys), kept)
      && IdsOf(t, keys) !! Forgotten(t, wanted, keys).reverseSourceIds.Keys
      && Forgotten(t, wanted, keys).sourceIds.Keys == t.sourceIds.Keys * wanted.Keys
      && (forall key :: key in Forgotten(t, wanted, keys).sourceIds ==>
            Forgotten(t, wanted, keys).sourceIds[key] == t.sourceIds[key])
  {
    var keys, kept := ObsoleteKeys(t, wanted, recreate), KeptKeys(t, wanted, recreate);
    forall key | key in kept ensures t.sourceIds[key] !in IdsOf(t, keys) {
      assert t.reverseSourceIds[t.sourceIds[key]] == key;
      forall other | other in keys && t.sourceIds[other] == t.sourceIds[key] ensures other == key {
        assert t.reverseSourceIds[t.sourceIds[other]] == other;
      }
    }
  }

  lemma ObsoleteIsShown(t: Tables, previous: Sources, keys: set<Key>, id: nat)
    requires ShowsSources(t, previous.Keys, previous, PlayStates(previous), {}) && t.sourceIds.Keys == previous.Keys
    requires id in IdsOf(t, keys)
    ensures id in t.outer.sources && id <= t.nextSource
  {
    var key :| key in keys && key in t.sourceIds && t.sourceIds[key] == id;
    assert Shown(t, previous.Keys, previous, PlayStates(previous), key);
  }

  lemma KeptIsShown(t: Tables, previous: Sources, nodes: map<NodeKey, Node>, wanted: Sources, recreate: set<Key>, key: Key)
    requires Mirrors(t, previous, nodes) && LinksInside(wanted)
    requires forall other :: other in wanted ==> wanted[other].key == other
    requires recreate == RecreateSet(t.sourceKinds, wanted) && key in KeptKeys(t, wanted, recreate)
    requires Shown(t, previous.Keys, previous, PlayStates(previous), key)
    ensures
      var keys, kept := ObsoleteKeys(t, wanted, recreate), KeptKeys(t, wanted, recreate);
      Shown(Forgotten(t, wanted, keys), kept, wanted, KeptStates(previous, kept), key)
  {
    hide Shows, NodesShown, LinksValid;
    assert key in wanted && !MustRecreate(t.sourceKinds, wanted, wanted[key]);
    assert wanted[key].kind == previous[key].kind;
    if wanted[key].kind.Audio? && wanted[key].kind.linkedVideo.Some? {
      var video := wanted[key].kind.linkedVideo.value;
      assert video in wanted && wanted[video].kind.Video?;
      assert !KindChanged(t.sourceKinds, wanted[video]);
      assert !MustRecreate(t.sourceKinds, wanted, wanted[video]);
      assert video in KeptKeys(t, wanted, recreate);
    }
  }

  // ---- Playback ----

  /** A play or pause request for a timed source is accepted and changes its state only. */
  lemma PlayedShows(t: Tables, live: set<Key>, wanted: Sources, playing: map<Key, Option<nat>>, obsolete: set<nat>, key: Key,
                    request: Option<nat>)
    requires Shows(t, live, wanted, playing, obsolete) && key in live && key in wanted && IsTimed(wanted[key].kind)
    ensures key in t.sourceIds
    ensures
      var r := SetPlaying(t.outer, t.sourceIds[key], request);
      r.Ok? && Shows(t.(outer := r.value), live, wanted, playing[key := request], obsolete)
  {
    hide LinksValid;
    assert Shown(t, live, wanted, playing, key);
    var after := t.(outer := SetPlaying(t.outer, t.sourceIds[key], request).value);
    PlayingKeepsLinks(t, t.sourceIds[key], request);
    forall other | other in live ensures Shown(after, live, wanted, playing[key := request], other) {
      assert Shown(t, live, wanted, playing, other);
      MappedApart(t, live, key, other);
    }
  }

  lemma MappedApart(t: Tables, live: set<Key>, a: Key, b: Key)
    requires Mapped(t, live) && a in live && b in live
    ensures t.sourceIds[a] == t.sourceIds[b] <==> a == b
  {
  }

  lemma PlayingKeepsLinks(t: Tables, id: nat, request: Option<nat>)
    requires LinksValid(t.outer.sources) && SetPlaying(t.outer, id, request).Ok?
    ensures LinksValid(SetPlaying(t.outer, id, request).value.sources)
  {
  }

  /** The flag a source has after `update_playback`: only a change of playing or of the request is passed on. */
  function AfterUpdate(previous: Sources, source: Source, was: Option<nat>): Option<nat> {
    if source.key in previous && IsTimed(source.kind)
       && (previous[source.key].playing != source.playing
           || (source.playing && previous[source.key].playRequest != source.playRequest))
    then PlayState(source)
    else was
  }

  /** Whether kept or recreated, in the end every source plays as the snapshot says. */
  lemma PlaybackSettles(previous: Sources, source: Source, recreated: bool)
    requires !recreated ==> source.key in previous && previous[source.key].kind == source.kind
    ensures
      var started := if recreated then None else PlayState(previous[source.key]);
      var updated := AfterUpdate(previous, source, started);
      (if recreated && source.playing && IsTimed(source.kind) then Some(source.playRequest) else updated) == PlayState(source)
  {
  }

  // ---- Destroying obsolete sources ----

  lemma DestroyedShows(t: Tables, live: set<Key>, wanted: Sources, playing: map<Key, Option<nat>>, obsolete: set<nat>, id: nat)
    requires ShowsSources(t, live, wanted, playing, obsolete) && id in obsolete
    requires forall node :: node in t.outer.nodes ==> t.outer.nodes[node].source !in obsolete
    ensures
      var r := DestroyOuter(t.outer, id);
      && r.Ok? && ShowsSources(t.(outer := r.value), live, wanted, playing, obsolete - {id})
      && r.value.nodes == t.outer.nodes && r.value.lostNodes == t.outer.lostNodes && r.value.usedNodes == t.outer.usedNodes
  {
    var after := t.(outer := DestroyOuter(t.outer, id).value);
    forall key | key in live ensures Shown(after, live, wanted, playing, key) {
      assert Shown(t, live, wanted, playing, key);
      assert t.sourceIds[key] in t.reverseSourceIds;
    }
    assert t.outer.lostNodes + {} == t.outer.lostNodes;
  }

  /** Once the obsolete sources are gone, every audio link is in order again. */
  lemma LinksFollow(t: Tables, live: set<Key>, wanted: Sources, playing: map<Key, Option<nat>>)
    requires ShowsSources(t, live, wanted, playing, {})
    ensures LinksValid(t.outer.sources)
  {
    forall id | id in t.outer.sources && t.outer.sources[id].kind.OuterAudio? && t.outer.sources[id].kind.linkedVideo.Some?
      ensures
        var video := t.outer.sources[id].kind.linkedVideo.value;
        video in t.outer.sources && t.outer.sources[video].kind.OuterVideo?
    {
      var key := t.reverseSourceIds[id];
      assert Shown(t, live, wanted, playing, key);
      assert Shown(t, live, wanted, playing, wanted[key].kind.linkedVideo.value);
    }
  }

  // ---- Nodes ----

  function StableKeys(nodes: seq<Node>): set<NodeKey> {
    set i | 0 <= i < |nodes| :: nodes[i].key
  }

  function RequestedNodes(nodes: seq<Node>): map<NodeKey, Node> {
    if nodes == [] then map[]
    else
      var last := nodes[|nodes| - 1];
      RequestedNodes(nodes[..|nodes| - 1])[last.key := last]
  }

  lemma {:induction false} RequestedNodesExact(nodes: seq<Node>)
    requires DistinctNodes(nodes)
    ensures RequestedNodes(nodes).Keys == StableKeys(nodes)
    ensures forall i :: 0 <= i < |nodes| ==> nodes[i].key in RequestedNodes(nodes) && RequestedNodes(nodes)[nodes[i].key] == nodes[i]
  {
    if nodes != [] {
      var n := |nodes| - 1;
      RequestedNodesExact(nodes[..n]);
      assert StableKeys(nodes) == StableKeys(nodes[..n]) + {nodes[n].key};
    }
  }

  lemma {:induction false} MutateAppend(o: Outer, mutations: seq<Mutation>, mutation: Mutation)
    ensures
      MutateAll(o, mutations + [mutation])
      == if MutateAll(o, mutations).Err? then MutateAll(o, mutations) else Mutate(o, MutateAll(o, mutations).value, mutation)
  {
    assert (mutations + [mutation])[..|mutations|] == mutations;
  }
}
