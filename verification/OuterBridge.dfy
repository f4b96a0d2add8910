/** The bridge's side of reconciliation, updated in place (src/bridge.rs:948-1150, 1283-1307, 1680-2007). Control
    requests are taken to be answered in order by the presenter of `Reconcile`. */
module OuterBridges {
  import opened Wrappers
  import opened FixedWidth
  import opened Reconcile

  /** The sources of a list whose keys are in a set, in order. */
  function Chosen(sources: seq<Source>, keys: set<Key>): seq<Source> {
    if sources == [] then []
    else
      var last := sources[|sources| - 1];
      Chosen(sources[..|sources| - 1], keys) + if last.key in keys then [last] else []
  }

  lemma {:induction false} ChosenMembers(sources: seq<Source>, keys: set<Key>, source: Source)
    ensures source in Chosen(sources, keys) <==> source in sources && source.key in keys
  {
    if sources != [] {
      ChosenMembers(sources[..|sources| - 1], keys, source);
      assert sources == sources[..|sources| - 1] + [sources[|sources| - 1]];
    }
  }

  lemma {:induction false} ChosenDistinct(sources: seq<Source>, keys: set<Key>)
    requires DistinctSources(sources)
    ensures DistinctSources(Chosen(sources, keys)) && |Chosen(sources, keys)| <= |sources|
  {
    if sources != [] {
      var n := |sources| - 1;
      ChosenDistinct(sources[..n], keys);
      forall source | source in Chosen(sources[..n], keys) ensures source.key != sources[n].key {
        ChosenMembers(sources[..n], keys, source);
      }
    }
  }

  lemma {:induction false} OrderKeepsLength(sources: seq<Source>)
    ensures |CreationOrder(sources)| == |sources|
  {
    if sources != [] {
      OrderKeepsLength(sources[..|sources| - 1]);
    }
  }

  function KeysOf(sources: seq<Source>): set<Key> {
    set i | 0 <= i < |sources| :: sources[i].key
  }

  /** `playing` for the kept sources, and nothing playing yet for those created so far. */
  function WithNew(playing: map<Key, Option<nat>>, created: set<Key>): map<Key, Option<nat>> {
    map key | key in playing.Keys + created :: if key in created then None else playing[key]
  }

  // ---- New sources ----

  /** A list of sources to create: what the new snapshot wants beyond what is kept. */
  predicate NewPart(added: seq<Source>, kept: set<Key>, wanted: Sources) {
    && DistinctSources(added)
    && (forall i :: 0 <= i < |added| ==>
          added[i].key in wanted && wanted[added[i].key] == added[i] && added[i].key !in kept)
    && kept + KeysOf(added) == wanted.Keys
  }

  lemma OrderIsNewPart(added: seq<Source>, kept: set<Key>, wanted: Sources)
    requires NewPart(added, kept, wanted)
    ensures NewPart(CreationOrder(added), kept, wanted)
    ensures |CreationOrder(added)| == |added| && KeysOf(CreationOrder(added)) == KeysOf(added)
    ensures kept + KeysOf(added) == wanted.Keys
  {
    hide CreationOrder;
    CreationOrderDistinct(added);
    OrderKeepsLength(added);
    var ordered := CreationOrder(added);
    forall source ensures source in ordered <==> source in added {
      CreationOrderMembers(added, source);
    }
    forall i | 0 <= i < |ordered| ensures ordered[i] in added && ordered[i].key in KeysOf(added) {
      assert ordered[i] in ordered;
      var j :| 0 <= j < |added| && added[j] == ordered[i];
    }
    forall j | 0 <= j < |added| ensures added[j].key in KeysOf(ordered) {
      assert added[j] in ordered;
      var i :| 0 <= i < |ordered| && ordered[i] == added[j];
    }
  }

  /** The next source in order is not there yet, and the video it is linked to is. */
  lemma NextIsReady(added: seq<Source>, i: nat, kept: set<Key>, wanted: Sources)
    requires NewPart(added, kept, wanted) && LinksInside(wanted) && i < |CreationOrder(added)|
    ensures
      var source, live := CreationOrder(added)[i], kept + KeysOf(CreationOrder(added)[..i]);
      source.key !in live && source.key in wanted && wanted[source.key] == source && LinkLive(wanted, live, source.key)
  {
    hide CreationOrder;
    OrderIsNewPart(added, kept, wanted);
    var ordered := CreationOrder(added);
    var source := ordered[i];
    if source.kind.Audio? && source.kind.linkedVideo.Some? {
      assert wanted[source.key].kind.linkedVideo == source.kind.linkedVideo;
      var video := wanted[source.kind.linkedVideo.value];
      if source.kind.linkedVideo.value !in kept {
        var j :| 0 <= j < |added| && added[j].key == source.kind.linkedVideo.value;
        assert added[j] == video;
        VideosComeFirst(added, i, video);
        var k :| 0 <= k < i && ordered[..i][k] == video;
        assert ordered[..i][k].key in KeysOf(ordered[..i]);
      }
    }
  }

  lemma OneMoreKey(sources: seq<Source>, i: nat)
    requires i < |sources|
    ensures KeysOf(sources[..i + 1]) == KeysOf(sources[..i]) + {sources[i].key}
  {
    forall key | key in KeysOf(sources[..i]) ensures key in KeysOf(sources[..i + 1]) {
      var j :| 0 <= j < i && sources[..i][j].key == key;
      assert sources[..i + 1][j].key == key;
    }
    forall key | key in KeysOf(sources[..i + 1]) ensures key in KeysOf(sources[..i]) + {sources[i].key} {
      var j :| 0 <= j < i + 1 && sources[..i + 1][j].key == key;
      if j < i { assert sources[..i][j].key == key; }
    }
    assert sources[..i + 1][i] == sources[i];
  }

  lemma WithNothingNew(playing: map<Key, Option<nat>>)
    ensures WithNew(playing, KeysOf([])) == playing && KeysOf([]) == {}
  {
  }

  lemma WithOneMoreNew(playing: map<Key, Option<nat>>, created: set<Key>, key: Key)
    ensures WithNew(playing, created + {key}) == WithNew(playing, created)[key := None]
  {
  }

  function KindsAt(wanted: Sources, keys: set<Key>): map<Key, Kind> {
    map key | key in keys && key in wanted :: wanted[key].kind
  }

  lemma OneMoreKind(wanted: Sources, kinds: map<Key, Kind>, keys: set<Key>, source: Source)
    requires source.key in wanted && wanted[source.key] == source
    ensures (kinds + KindsAt(wanted, keys))[source.key := source.kind] == kinds + KindsAt(wanted, keys + {source.key})
  {
  }

  lemma NoKinds(wanted: Sources, kinds: map<Key, Kind>)
    ensures kinds + KindsAt(wanted, {}) == kinds
  {
  }

  // ---- Identities are kept and never reused ----

  /** New sources got ids above the counter, all others kept theirs. */
  predicate KeepsSourceIds(t: Tables, ids: map<Key, nat>, created: set<Key>) {
    forall key :: key in ids ==>
                    if key in created then t.nextSource < ids[key] else key in t.sourceIds && ids[key] == t.sourceIds[key]
  }

  /** New nodes got ids above the counter, all others kept theirs. */
  predicate KeepsNodeIds(before: map<NodeKey, nat>, counter: nat, ids: map<NodeKey, nat>) {
    forall key :: key in ids ==> if key in before then ids[key] == before[key] else counter < ids[key]
  }

  predicate UsedIdsGrow(o: Outer, p: Outer) {
    o.usedSources <= p.usedSources && o.usedNodes <= p.usedNodes
  }

  /** Only what has to be recreated gets a new id: every other source and every node that stays is shown under the id it
      had, and no new id was ever used before. */
  predicate Incremental(t: Tables, after: Tables, recreate: set<Key>) {
    && UsedIdsGrow(t.outer, after.outer)
    && (forall key :: key in after.sourceIds && key !in recreate ==>
          key in t.sourceIds && after.sourceIds[key] == t.sourceIds[key])
    && (forall key :: key in after.sourceIds && key in recreate ==> after.sourceIds[key] !in t.outer.usedSources)
    && (forall key :: key in after.nodeIds && key in t.nodeIds ==> after.nodeIds[key] == t.nodeIds[key])
    && (forall key :: key in after.nodeIds && key !in t.nodeIds ==> after.nodeIds[key] !in t.outer.usedNodes)
  }

  /** Over any number of snapshots: an id in the tables was there for the same key before, or was never used. */
  predicate NoReuse(t: Tables, after: Tables) {
    && UsedIdsGrow(t.outer, after.outer)
    && (forall key :: key in after.sourceIds ==>
          after.sourceIds[key] !in t.outer.usedSources || (key in t.sourceIds && after.sourceIds[key] == t.sourceIds[key]))
    && (forall key :: key in after.nodeIds ==>
          after.nodeIds[key] !in t.outer.usedNodes || (key in t.nodeIds && after.nodeIds[key] == t.nodeIds[key]))
  }

  lemma NoReuseGoesOn(t: Tables, between: Tables, after: Tables, recreate: set<Key>)
    requires NoReuse(t, between) && Incremental(between, after, recreate)
    ensures NoReuse(t, after)
  {
  }

  lemma NothingIsReused(t: Tables, previous: Sources, nodes: map<NodeKey, Node>, after: Tables, recreate: set<Key>)
    requires Mirrors(t, previous, nodes)
    requires KeepsSourceIds(t, after.sourceIds, recreate) && KeepsNodeIds(t.nodeIds, t.nextNode, after.nodeIds)
    requires UsedIdsGrow(t.outer, after.outer)
    ensures Incremental(t, after, recreate)
  {
    hide Mapped, Shown, LinksValid, NodeIdsExact;
  }

  lemma ForgottenKeepsIds(t: Tables, wanted: Sources, recreate: set<Key>)
    ensures
      var forgotten := Forgotten(t, wanted, ObsoleteKeys(t, wanted, recreate));
      && forgotten.outer == t.outer && forgotten.nextSource == t.nextSource
      && forall key :: key in forgotten.sourceIds ==> key in t.sourceIds && forgotten.sourceIds[key] == t.sourceIds[key]
  {
  }

  lemma KeepsThrough(t: Tables, between: Tables, ids: map<Key, nat>, created: set<Key>)
    requires between.nextSource == t.nextSource && KeepsSourceIds(between, ids, created)
    requires forall key :: key in between.sourceIds ==> key in t.sourceIds && between.sourceIds[key] == t.sourceIds[key]
    ensures KeepsSourceIds(t, ids, created)
  {
  }

  predicate SameScene(o: Outer, p: Outer) {
    o.nodes == p.nodes && o.usedNodes == p.usedNodes && o.lostNodes == p.lostNodes
  }

  predicate SameIds(o: Outer, p: Outer) {
    SameScene(o, p) && o.usedSources == p.usedSources
  }

  lemma NextIdIsFree(t: Tables, live: set<Key>, wanted: Sources, playing: map<Key, Option<nat>>, obsolete: set<nat>)
    requires Shows(t, live, wanted, playing, obsolete)
    ensures t.nextSource + 1 !in t.outer.usedSources
  {
  }

  lemma KindsDoNotMatter(t: Tables, after: Tables, wanted: Sources, playing: map<Key, Option<nat>>, obsolete: set<nat>)
    requires Shows(t, wanted.Keys, wanted, playing, obsolete) && after == t.(sourceKinds := after.sourceKinds)
    ensures Shows(after, wanted.Keys, wanted, playing, obsolete)
  {
    hide LinksValid;
    forall key | key in wanted ensures Shown(after, wanted.Keys, wanted, playing, key) {
      assert Shown(t, wanted.Keys, wanted, playing, key);
    }
  }

  // ---- Recreation ----

  predicate LinkedInto(source: Source, keys: set<Key>) {
    source.kind.Audio? && source.kind.linkedVideo.Some? && source.kind.linkedVideo.value in keys
  }

  /** Among the first `n` sources, audio linked to a member of the set is a member. */
  predicate FollowsVideos(sources: seq<Source>, n: nat, keys: set<Key>)
    requires n <= |sources|
  {
    forall i :: 0 <= i < n && LinkedInto(sources[i], keys) ==> sources[i].key in keys
  }

  lemma LinkedIsTarget(kinds: map<Key, Kind>, sources: seq<Source>, i: nat)
    requires DistinctSources(sources) && LinksInside(Requested(sources)) && i < |sources|
    requires sources[i].kind.Audio? && sources[i].kind.linkedVideo.Some?
    requires sources[i].kind.linkedVideo.value in RecreateSet(kinds, Requested(sources))
    ensures sources[i].key in RecreateSet(kinds, Requested(sources))
  {
    RequestedSources(sources);
    var video := Requested(sources)[sources[i].kind.linkedVideo.value];
    assert Requested(sources)[sources[i].key].kind.linkedVideo.value in Requested(sources);
    assert MustRecreate(kinds, Requested(sources), video);
    assert video.kind.Video?;
  }

  function ChangedKeys(kinds: map<Key, Kind>, sources: seq<Source>, n: nat): set<Key>
    requires n <= |sources|
  {
    set j | 0 <= j < n && KindChanged(kinds, sources[j]) :: sources[j].key
  }

  lemma OneMoreChanged(kinds: map<Key, Kind>, sources: seq<Source>, n: nat)
    requires n < |sources|
    ensures ChangedKeys(kinds, sources, n + 1)
            == ChangedKeys(kinds, sources, n)
               + if sources[n].key !in kinds || kinds[sources[n].key] != sources[n].kind then {sources[n].key} else {}
  {
  }

  lemma ChangedAreTarget(kinds: map<Key, Kind>, sources: seq<Source>)
    requires DistinctSources(sources)
    ensures ChangedKeys(kinds, sources, |sources|) <= RecreateSet(kinds, Requested(sources))
  {
    RequestedSources(sources);
  }

  lemma ClosedIsTarget(kinds: map<Key, Kind>, sources: seq<Source>, keys: set<Key>)
    requires DistinctSources(sources)
    requires ChangedKeys(kinds, sources, |sources|) <= keys <= RecreateSet(kinds, Requested(sources))
    requires FollowsVideos(sources, |sources|, keys)
    ensures keys == RecreateSet(kinds, Requested(sources))
  {
    var wanted := Requested(sources);
    RequestedSources(sources);
    forall key | key in RecreateSet(kinds, wanted) ensures key in keys {
      var source := wanted[key];
      var i :| 0 <= i < |sources| && sources[i] == source;
      if KindChanged(kinds, source) {
        assert sources[i].key in ChangedKeys(kinds, sources, |sources|);
      } else {
        var video := wanted[source.kind.linkedVideo.value];
        var j :| 0 <= j < |sources| && sources[j] == video;
        assert sources[j].key in ChangedKeys(kinds, sources, |sources|);
        assert LinkedInto(sources[i], keys);
      }
    }
  }

  lemma SameSize(small: set<Key>, large: set<Key>)
    requires small <= large && |small| == |large|
    ensures small == large
  {
    assert large == small + (large - small);
  }

  lemma ShrinkingRest(target: set<Key>, before: set<Key>, after: set<Key>)
    requires before < after <= target
    ensures |target - after| < |target - before|
  {
    assert target - before == (target - after) + (after - before);
    assert after - before != {};
  }

  function ObsoleteMap(ids: map<Key, nat>, wanted: Sources, recreate: set<Key>): map<Key, nat> {
    map key | key in ids && (key !in wanted || key in recreate) :: ids[key]
  }

  lemma ObsoleteMapExact(t: Tables, wanted: Sources, recreate: set<Key>)
    ensures
      var keys := ObsoleteKeys(t, wanted, recreate);
      && keys <= t.sourceIds.Keys
      && ObsoleteMap(t.sourceIds, wanted, recreate) == map key | key in keys :: t.sourceIds[key]
  {
  }

  lemma NothingForgotten(t: Tables, wanted: Sources)
    ensures Forgotten(t, wanted, {}) == t
  {
    assert IdsOf(t, {}) == {};
  }

  lemma ForgetOneMore(t: Tables, wanted: Sources, done: set<Key>, key: Key)
    requires key in t.sourceIds && key !in done
    ensures
      var before := Forgotten(t, wanted, done);
      Forgotten(t, wanted, done + {key})
      == (if key in wanted then before.(reverseSourceIds := before.reverseSourceIds - {t.sourceIds[key]})
          else before.(reverseSourceIds := before.reverseSourceIds - {t.sourceIds[key]},
                       sourceIds := before.sourceIds - {key}, sourceKinds := before.sourceKinds - {key}))
  {
    assert IdsOf(t, done + {key}) == IdsOf(t, done) + {t.sourceIds[key]};
    var before := Forgotten(t, wanted, done);
    assert t.reverseSourceIds - IdsOf(t, done + {key}) == before.reverseSourceIds - {t.sourceIds[key]};
    if key in wanted {
      assert done + {key} - wanted.Keys == done - wanted.Keys;
    } else {
      assert t.sourceIds - (done + {key} - wanted.Keys) == before.sourceIds - {key};
      assert t.sourceKinds - (done + {key} - wanted.Keys) == before.sourceKinds - {key};
    }
  }

  // ---- The node transaction ----

  /** Node ids are consistent and below the counter. */
  predicate SceneReady(t: Tables) {
    && NodeIdsExact(t.nodeIds, t.outer.nodes)
    && t.outer.nodes.Keys <= t.outer.usedNodes
    && (forall id :: id in t.outer.usedNodes ==> id <= t.nextNode)
  }

  predicate Placed(t: Tables, next: map<NodeKey, nat>, copy: map<nat, OuterNode>, node: Node) {
    && node.key in next && node.source in t.sourceIds && next[node.key] in copy
    && copy[next[node.key]] == OuterNode(t.sourceIds[node.source], node.layout)
  }

  /** The working copy while the nodes of the list are created and updated. */
  predicate Building(t: Tables, next: map<NodeKey, nat>, copy: map<nat, OuterNode>, nextNode: nat, done: seq<Node>) {
    && NodeIdsExact(next, copy)
    && next.Keys == t.nodeIds.Keys + StableKeys(done)
    && KeepsNodeIds(t.nodeIds, t.nextNode, next)
    && (forall i :: 0 <= i < |done| ==> Placed(t, next, copy, done[i]))
    && (forall id :: id in copy ==> id <= nextNode)
    && (forall id :: id in t.outer.usedNodes ==> id <= t.nextNode) && t.nextNode <= nextNode
  }

  lemma BuildingStarts(t: Tables)
    requires SceneReady(t)
    ensures Building(t, t.nodeIds, t.outer.nodes, t.nextNode, [])
  {
    assert StableKeys([]) == {};
  }

  /** Giving a key a new id keeps the ids exact, and so does a new content for an old id. */
  lemma PlacingIsExact(next: map<NodeKey, nat>, copy: map<nat, OuterNode>, key: NodeKey, id: nat, placed: OuterNode)
    requires NodeIdsExact(next, copy) && (if key in next then id == next[key] else id !in copy)
    ensures NodeIdsExact(next[key := id], copy[id := placed])
  {
    var after, grown := copy[id := placed], next[key := id];
    assert grown[key] == id;
    forall other | other in after ensures other in grown.Values {
      if other != id {
        var k :| k in next && next[k] == other;
        assert grown[k] == other;
      }
    }
  }

  lemma PlacingKeepsPlaced(t: Tables, next: map<NodeKey, nat>, copy: map<nat, OuterNode>, node: Node, id: nat, done: Node)
    requires Placed(t, next, copy, done) && done.key != node.key && node.source in t.sourceIds
    requires NodeIdsExact(next, copy) && (if node.key in next then id == next[node.key] else id !in copy)
    ensures Placed(t, next[node.key := id], copy[id := OuterNode(t.sourceIds[node.source], node.layout)], done)
  {
  }

  lemma BuildingGoesOn(t: Tables, next: map<NodeKey, nat>, copy: map<nat, OuterNode>, nextNode: nat, done: seq<Node>, node: Node)
    requires Building(t, next, copy, nextNode, done) && DistinctNodes(done + [node])
    requires node.source in t.sourceIds && t.sourceIds[node.source] in t.outer.sources
    ensures
      var placed := OuterNode(t.sourceIds[node.source], node.layout);
      if node.key in next then
        var id := next[node.key];
        && Mutate(t.outer, copy, UpdateNode(id, placed)) == Ok(copy[id := placed])
        && Building(t, next, copy[id := placed], nextNode, done + [node])
      else
        var id := nextNode + 1;
        && Mutate(t.outer, copy, CreateNode(id, placed)) == Ok(copy[id := placed])
        && Building(t, next[node.key := id], copy[id := placed], id, done + [node])
  {
    hide NodeIdsExact, Placed, StableKeys;
    MoreStableKeys(done, node);
    var known := node.key in next;
    var id: nat := if known then next[node.key] else nextNode + 1;
    IdIsKnown(next, copy, node.key);
    var placed := OuterNode(t.sourceIds[node.source], node.layout);
    var grown, after := next[node.key := id], copy[id := placed];
    PlacingIsExact(next, copy, node.key, id, placed);
    forall i | 0 <= i < |done| ensures Placed(t, grown, after, done[i]) {
      assert (done + [node])[i].key != (done + [node])[|done|].key;
      PlacingKeepsPlaced(t, next, copy, node, id, done[i]);
    }
    assert Placed(t, grown, after, node) by { PlacedItself(t, next, copy, id, node); }
    if known {
      assert grown == next;
    }
  }

  lemma IdIsKnown(next: map<NodeKey, nat>, copy: map<nat, OuterNode>, key: NodeKey)
    requires NodeIdsExact(next, copy)
    ensures key in next ==> next[key] in copy
  {
  }

  lemma PlacedItself(t: Tables, next: map<NodeKey, nat>, copy: map<nat, OuterNode>, id: nat, node: Node)
    requires node.source in t.sourceIds
    ensures Placed(t, next[node.key := id], copy[id := OuterNode(t.sourceIds[node.source], node.layout)], node)
  {
  }

  lemma MoreStableKeys(done: seq<Node>, node: Node)
    ensures StableKeys(done + [node]) == StableKeys(done) + {node.key}
  {
    var all := done + [node];
    forall key | key in StableKeys(done) ensures key in StableKeys(all) {
      var i :| 0 <= i < |done| && done[i].key == key;
      assert all[i].key == key;
    }
    assert all[|done|] == node;
    forall key | key in StableKeys(all) ensures key in StableKeys(done) + {node.key} {
      var i :| 0 <= i < |all| && all[i].key == key;
      if i < |done| { assert done[i].key == key; }
    }
  }

  /** The working copy while the nodes no longer in the list are deleted. */
  predicate Trimming(t: Tables, next: map<NodeKey, nat>, copy: map<nat, OuterNode>, nextNode: nat, nodes: seq<Node>,
                     removed: set<NodeKey>)
  {
    && NodeIdsExact(next, copy)
    && next.Keys == StableKeys(nodes) + removed && removed !! StableKeys(nodes)
    && KeepsNodeIds(t.nodeIds, t.nextNode, next)
    && (forall i :: 0 <= i < |nodes| ==> Placed(t, next, copy, nodes[i]))
    && (forall id :: id in copy ==> id <= nextNode)
    && (forall id :: id in t.outer.usedNodes ==> id <= t.nextNode) && t.nextNode <= nextNode
  }

  lemma TrimmingStarts(t: Tables, next: map<NodeKey, nat>, copy: map<nat, OuterNode>, nextNode: nat, nodes: seq<Node>)
    requires Building(t, next, copy, nextNode, nodes)
    ensures Trimming(t, next, copy, nextNode, nodes, t.nodeIds.Keys - StableKeys(nodes))
  {
  }

  lemma TrimmingGoesOn(t: Tables, next: map<NodeKey, nat>, copy: map<nat, OuterNode>, nextNode: nat, nodes: seq<Node>,
                       removed: set<NodeKey>, key: NodeKey)
    requires Trimming(t, next, copy, nextNode, nodes, removed) && key in removed
    ensures key in next
    ensures Mutate(t.outer, copy, DeleteNode(next[key])) == Ok(copy - {next[key]})
    ensures Trimming(t, next - {key}, copy - {next[key]}, nextNode, nodes, removed - {key})
  {
    var id := next[key];
    var after, left := copy - {id}, next - {key};
    forall other | other in after ensures other in left.Values {
      var k :| k in next && next[k] == other;
      assert left[k] == other;
    }
    forall i | 0 <= i < |nodes| ensures Placed(t, left, after, nodes[i]) {
      assert Placed(t, next, copy, nodes[i]);
      assert nodes[i].key in StableKeys(nodes);
    }
  }

  lemma TrimmedKeys(t: Tables, next: map<NodeKey, nat>, copy: map<nat, OuterNode>, nextNode: nat, nodes: seq<Node>)
    requires Trimming(t, next, copy, nextNode, nodes, {})
    ensures next.Keys == StableKeys(nodes)
  {
  }

  lemma TrimmingEnds(t: Tables, next: map<NodeKey, nat>, copy: map<nat, OuterNode>, nextNode: nat, nodes: seq<Node>, after: Tables)
    requires Trimming(t, next, copy, nextNode, nodes, {}) && DistinctNodes(nodes)
    requires after == t.(nextNode := nextNode, nodeIds := next, outer := t.outer.(nodes := copy, usedNodes := t.outer.usedNodes + copy.Keys))
    ensures NodesShown(after, RequestedNodes(nodes)) && KeepsNodeIds(t.nodeIds, t.nextNode, next)
  {
    RequestedNodesExact(nodes);
    var wanted := RequestedNodes(nodes);
    forall key | key in wanted
      ensures wanted[key].source in after.sourceIds && after.nodeIds[key] in after.outer.nodes
      ensures after.outer.nodes[after.nodeIds[key]] == OuterNode(after.sourceIds[wanted[key].source], wanted[key].layout)
    {
      var i :| 0 <= i < |nodes| && nodes[i].key == key;
      assert Placed(t, next, copy, nodes[i]);
    }
  }

  // ---- Playback ----

  function Updated(previous: Sources, wanted: Sources, playing: map<Key, Option<nat>>, done: set<Key>): map<Key, Option<nat>> {
    map key | key in playing ::
      if key in done && key in wanted then AfterUpdate(previous, wanted[key], playing[key]) else playing[key]
  }

  lemma NothingUpdated(previous: Sources, wanted: Sources, playing: map<Key, Option<nat>>)
    ensures Updated(previous, wanted, playing, KeysOf([])) == playing && KeysOf([]) == {}
  {
  }

  lemma UpdatedKeys(previous: Sources, wanted: Sources, playing: map<Key, Option<nat>>, done: set<Key>)
    ensures Updated(previous, wanted, playing, done).Keys == playing.Keys
  {
  }

  lemma OneMoreUpdated(previous: Sources, wanted: Sources, playing: map<Key, Option<nat>>, done: set<Key>, source: Source)
    requires source.key in playing && source.key in wanted && wanted[source.key] == source && source.key !in done
    ensures source.key in Updated(previous, wanted, playing, done)
    ensures
      var now := Updated(previous, wanted, playing, done);
      && now[source.key] == playing[source.key]
      && Updated(previous, wanted, playing, done + {source.key})
         == now[source.key := AfterUpdate(previous, source, playing[source.key])]
  {
  }

  function Replayed(wanted: Sources, playing: map<Key, Option<nat>>, done: set<Key>): map<Key, Option<nat>> {
    map key | key in playing ::
      if key in done && key in wanted && wanted[key].playing && IsTimed(wanted[key].kind) then Some(wanted[key].playRequest)
      else playing[key]
  }

  lemma NothingReplayed(wanted: Sources, playing: map<Key, Option<nat>>)
    ensures Replayed(wanted, playing, KeysOf([])) == playing && KeysOf([]) == {}
  {
  }

  lemma OneMoreReplayed(wanted: Sources, playing: map<Key, Option<nat>>, done: set<Key>, source: Source)
    requires source.key in playing && source.key in wanted && wanted[source.key] == source && source.key !in done
    ensures source.key in Replayed(wanted, playing, done)
    ensures
      var now := Replayed(wanted, playing, done);
      && now[source.key] == playing[source.key]
      && Replayed(wanted, playing, done + {source.key})
         == now[source.key := if source.playing && IsTimed(source.kind) then Some(source.playRequest) else playing[source.key]]
  {
  }

  // ---- Destroying ----

  function LeftIds(obsolete: map<Key, nat>, left: set<Key>): set<nat> {
    set key | key in left && key in obsolete :: obsolete[key]
  }

  lemma AllLeft(obsolete: map<Key, nat>)
    ensures LeftIds(obsolete, obsolete.Keys) == obsolete.Values
  {
  }

  lemma OneLess(obsolete: map<Key, nat>, left: set<Key>, key: Key)
    requires left <= obsolete.Keys && key in left
    requires forall a, b :: a in obsolete && b in obsolete && obsolete[a] == obsolete[b] ==> a == b
    ensures obsolete[key] in LeftIds(obsolete, left)
    ensures LeftIds(obsolete, left - {key}) == LeftIds(obsolete, left) - {obsolete[key]}
    ensures LeftIds(obsolete, left) <= obsolete.Values
  {
  }

  // ---- Putting the phases together ----

  lemma ObsoleteIds(t: Tables, previous: Sources, nodes: map<NodeKey, Node>, keys: set<Key>, obsolete: map<Key, nat>)
    requires Mirrors(t, previous, nodes) && keys <= t.sourceIds.Keys
    requires obsolete == map key | key in keys :: t.sourceIds[key]
    ensures obsolete.Values == IdsOf(t, keys)
    ensures forall a, b :: a in obsolete && b in obsolete && obsolete[a] == obsolete[b] ==> a == b
  {
    hide LinksValid, Shown, NodesShown;
    forall a | a in keys ensures t.sourceIds[a] in t.reverseSourceIds && t.reverseSourceIds[t.sourceIds[a]] == a {
      assert a in previous;
    }
    forall id | id in IdsOf(t, keys) ensures id in obsolete.Values {
      var key :| key in keys && key in t.sourceIds && t.sourceIds[key] == id;
      assert obsolete[key] == id;
    }
    forall a, b | a in obsolete && b in obsolete && obsolete[a] == obsolete[b] ensures a == b {
      assert t.reverseSourceIds[t.sourceIds[a]] == a && t.reverseSourceIds[t.sourceIds[b]] == b;
    }
  }

  lemma FreshIsNew(t: Tables, previous: Sources, nodes: map<NodeKey, Node>, sources: seq<Source>, recreate: set<Key>)
    requires Mirrors(t, previous, nodes) && DistinctSources(sources)
    requires recreate == RecreateSet(t.sourceKinds, Requested(sources))
    ensures
      var wanted := Requested(sources);
      var kept, added := KeptKeys(t, wanted, recreate), Chosen(sources, recreate);
      && NewPart(added, kept, wanted) && |added| <= |sources|
      && KeysOf(added) == recreate <= wanted.Keys && kept == wanted.Keys - recreate && KeysOf(sources) == wanted.Keys
      && KeptStates(previous, kept).Keys == kept
  {
    hide Mirrors, KeptKeys, Chosen, RecreateSet, KeptStates, KeysOf, DistinctSources;
    var wanted := Requested(sources);
    RequestedSources(sources);
    ChosenDistinct(sources, recreate);
    ChosenAreWanted(sources, recreate);
    KeptAreWanted(t, previous, nodes, wanted, recreate);
  }

  /** The chosen sources are exactly those of the wanted keys. */
  lemma ChosenAreWanted(sources: seq<Source>, keys: set<Key>)
    requires DistinctSources(sources)
    ensures
      var wanted, added := Requested(sources), Chosen(sources, keys);
      && KeysOf(sources) == wanted.Keys && KeysOf(added) == keys * wanted.Keys && DistinctSources(added)
      && (forall i :: 0 <= i < |added| ==>
            added[i].key in wanted && wanted[added[i].key] == added[i] && added[i].key in keys)
  {
    hide Chosen;
    var wanted, added := Requested(sources), Chosen(sources, keys);
    RequestedSources(sources);
    ChosenDistinct(sources, keys);
    forall key | key in wanted ensures key in KeysOf(sources) {
      var i :| 0 <= i < |sources| && sources[i] == wanted[key];
    }
    forall i | 0 <= i < |added| ensures added[i] in sources && added[i].key in keys {
      assert added[i] in added;
      ChosenMembers(sources, keys, added[i]);
    }
    forall key | key in keys && key in wanted ensures key in KeysOf(added) {
      ChosenMembers(sources, keys, wanted[key]);
      var i :| 0 <= i < |added| && added[i] == wanted[key];
    }
  }

  lemma KeptAreWanted(t: Tables, previous: Sources, nodes: map<NodeKey, Node>, wanted: Sources, recreate: set<Key>)
    requires Mirrors(t, previous, nodes) && recreate == RecreateSet(t.sourceKinds, wanted)
    requires forall key :: key in wanted ==> wanted[key].key == key
    ensures recreate <= wanted.Keys && KeptKeys(t, wanted, recreate) == wanted.Keys - recreate
    ensures KeptStates(previous, KeptKeys(t, wanted, recreate)).Keys == KeptKeys(t, wanted, recreate)
  {
    hide Shows, NodesShown;
    forall key | key in wanted && key !in recreate ensures key in t.sourceIds {
      assert !MustRecreate(t.sourceKinds, wanted, wanted[key]);
      assert !KindChanged(t.sourceKinds, wanted[key]);
    }
  }

  lemma ActiveIsRequested(t: Tables, wanted: Sources, nodes: map<NodeKey, Node>)
    requires Mirrors(t, wanted, nodes)
    ensures t.activeSources == wanted
  {
  }

  lemma SceneIsReady(t: Tables, previous: Sources, nodes: map<NodeKey, Node>, after: Tables, wanted: Sources,
                     playing: map<Key, Option<nat>>, obsolete: set<nat>)
    requires Mirrors(t, previous, nodes)
    requires after.nodeIds == t.nodeIds && after.nextNode == t.nextNode && SameScene(t.outer, after.outer)
    requires Shows(after, wanted.Keys, wanted, playing, obsolete) && after.sourceIds.Keys == wanted.Keys
    ensures SceneReady(after) && LinksValid(after.outer.sources)
    ensures forall key :: key in after.sourceIds ==> after.sourceIds[key] in after.outer.sources
  {
    hide LinksValid;
    forall key | key in after.sourceIds ensures after.sourceIds[key] in after.outer.sources {
      assert Shown(after, wanted.Keys, wanted, playing, key);
    }
  }

  lemma NodesDoNotMatter(t: Tables, after: Tables, wanted: Sources, playing: map<Key, Option<nat>>, obsolete: set<nat>)
    requires Shows(t, wanted.Keys, wanted, playing, obsolete)
    requires after.sourceIds == t.sourceIds && after.reverseSourceIds == t.reverseSourceIds && after.nextSource == t.nextSource
    requires after.outer.sources == t.outer.sources && after.outer.usedSources == t.outer.usedSources
    ensures Shows(after, wanted.Keys, wanted, playing, obsolete)
  {
    hide LinksValid;
    forall key | key in wanted ensures Shown(after, wanted.Keys, wanted, playing, key) {
      assert Shown(t, wanted.Keys, wanted, playing, key);
    }
  }

  lemma NodesStayShown(t: Tables, after: Tables, nodes: map<NodeKey, Node>)
    requires NodesShown(t, nodes)
    requires after.sourceIds == t.sourceIds && after.nodeIds == t.nodeIds && after.nextNode == t.nextNode
    requires SameScene(t.outer, after.outer)
    ensures NodesShown(after, nodes)
  {
  }

  lemma NodesAvoidObsolete(t: Tables, nodes: map<NodeKey, Node>, wanted: Sources, playing: map<Key, Option<nat>>, obsolete: set<nat>)
    requires NodesShown(t, nodes) && Shows(t, wanted.Keys, wanted, playing, obsolete) && t.sourceIds.Keys == wanted.Keys
    ensures forall node :: node in t.outer.nodes ==> t.outer.nodes[node].source !in obsolete
  {
    hide LinksValid, Shown;
    forall node | node in t.outer.nodes ensures t.outer.nodes[node].source !in obsolete {
      var key :| key in t.nodeIds && t.nodeIds[key] == node;
      assert t.outer.nodes[node].source == t.sourceIds[nodes[key].source];
    }
  }

  lemma LooselyShown(t: Tables, wanted: Sources, playing: map<Key, Option<nat>>, obsolete: set<nat>)
    requires Shows(t, wanted.Keys, wanted, playing, obsolete)
    ensures ShowsSources(t, wanted.Keys, wanted, playing, obsolete)
  {
  }

  lemma PlaybackIsSettled(t: Tables, previous: Sources, nodes: map<NodeKey, Node>, sources: seq<Source>, recreate: set<Key>)
    requires Mirrors(t, previous, nodes) && DistinctSources(sources)
    requires recreate == RecreateSet(t.sourceKinds, Requested(sources))
    ensures
      var wanted := Requested(sources);
      var started := WithNew(KeptStates(previous, KeptKeys(t, wanted, recreate)), recreate);
      && started.Keys == wanted.Keys
      && Replayed(wanted, Updated(previous, wanted, started, KeysOf(sources)), recreate) == PlayStates(wanted)
  {
    hide Mirrors, AfterUpdate, RecreateSet, KeptKeys, KeptStates, Updated, Replayed, WithNew, PlayState, KeysOf;
    var wanted := Requested(sources);
    RequestedSources(sources);
    FreshIsNew(t, previous, nodes, sources, recreate);
    var kept := KeptKeys(t, wanted, recreate);
    var started := WithNew(KeptStates(previous, kept), recreate);
    StartedKeys(previous, kept, recreate);
    assert started.Keys == wanted.Keys;
    var updated := Updated(previous, wanted, started, KeysOf(sources));
    UpdatedKeys(previous, wanted, started, KeysOf(sources));
    var settled := Replayed(wanted, updated, recreate);
    ReplayedKeys(wanted, updated, recreate);
    forall key | key in wanted ensures settled[key] == PlayState(wanted[key]) {
      if key !in recreate {
        KeptKind(t, previous, nodes, wanted, recreate, key);
      }
      SettledAt(previous, wanted, kept, recreate, KeysOf(sources), key);
    }
  }

  lemma StartedKeys(previous: Sources, kept: set<Key>, recreate: set<Key>)
    ensures WithNew(KeptStates(previous, kept), recreate).Keys == KeptStates(previous, kept).Keys + recreate
  {
  }

  lemma ReplayedKeys(wanted: Sources, playing: map<Key, Option<nat>>, done: set<Key>)
    ensures Replayed(wanted, playing, done).Keys == playing.Keys
  {
  }

  lemma KeptKind(t: Tables, previous: Sources, nodes: map<NodeKey, Node>, wanted: Sources, recreate: set<Key>, key: Key)
    requires Mirrors(t, previous, nodes) && recreate == RecreateSet(t.sourceKinds, wanted)
    requires key in wanted && wanted[key].key == key && key !in recreate
    ensures key in previous && previous[key].kind == wanted[key].kind
    ensures key in t.sourceIds && key in t.sourceKinds && t.sourceKinds[key] == wanted[key].kind
  {
    hide Shows, NodesShown;
    assert !MustRecreate(t.sourceKinds, wanted, wanted[key]);
    assert !KindChanged(t.sourceKinds, wanted[key]);
  }

  lemma SettledAt(previous: Sources, wanted: Sources, kept: set<Key>, recreate: set<Key>, all: set<Key>, key: Key)
    requires key in wanted && wanted[key].key == key && key in all
    requires key !in recreate ==> key in kept && key in previous && previous[key].kind == wanted[key].kind
    ensures
      var started := WithNew(KeptStates(previous, kept), recreate);
      var settled := Replayed(wanted, Updated(previous, wanted, started, all), recreate);
      key in settled && settled[key] == PlayState(wanted[key])
  {
    PlaybackSettles(previous, wanted[key], key in recreate);
  }

  lemma KindsAreComplete(t: Tables, previous: Sources, nodes: map<NodeKey, Node>, sources: seq<Source>, recreate: set<Key>)
    requires Mirrors(t, previous, nodes) && DistinctSources(sources)
    requires recreate == RecreateSet(t.sourceKinds, Requested(sources))
    ensures
      var wanted := Requested(sources);
      var forgotten := Forgotten(t, wanted, ObsoleteKeys(t, wanted, recreate));
      && forgotten.sourceKinds + KindsAt(wanted, recreate) == (map key | key in wanted :: wanted[key].kind)
      && forgotten.sourceIds.Keys + recreate == wanted.Keys
  {
    hide Mirrors, RecreateSet, IdsOf, KeptKeys, KeptStates, NewPart, Chosen;
    var wanted := Requested(sources);
    RequestedSources(sources);
    SameTables(t, previous, nodes);
    FreshIsNew(t, previous, nodes, sources, recreate);
    var keys := ObsoleteKeys(t, wanted, recreate);
    forall key | key in wanted && key !in recreate ensures key in t.sourceKinds && t.sourceKinds[key] == wanted[key].kind {
      KeptKind(t, previous, nodes, wanted, recreate, key);
    }
    RestrictKinds(t.sourceKinds, keys, wanted, recreate);
    assert (t.sourceIds - (keys - wanted.Keys)).Keys == t.sourceIds.Keys * wanted.Keys;
  }

  lemma RestrictKinds(kinds: map<Key, Kind>, keys: set<Key>, wanted: Sources, recreate: set<Key>)
    requires forall key :: key in kinds && key !in wanted ==> key in keys
    requires forall key :: key in wanted && key !in recreate ==> key in kinds && kinds[key] == wanted[key].kind
    requires recreate <= wanted.Keys
    ensures kinds - (keys - wanted.Keys) + KindsAt(wanted, recreate) == map key | key in wanted :: wanted[key].kind
  {
  }

  lemma SameTables(t: Tables, previous: Sources, nodes: map<NodeKey, Node>)
    requires Mirrors(t, previous, nodes)
    ensures t.sourceIds.Keys == t.sourceKinds.Keys
  {
    hide Shows, NodesShown;
  }

  class OuterBridge {
    var sourceIds: map<Key, nat>
    var reverseSourceIds: map<nat, Key>
    var sourceKinds: map<Key, Kind>
    var nextSource: nat
    var nextNode: nat
    var nodeIds: map<NodeKey, nat>
    var activeSources: Sources
    var outer: Outer

    ghost function Value(): Tables
      reads this
    {
      Tables(sourceIds, reverseSourceIds, sourceKinds, nextSource, nextNode, nodeIds, activeSources, outer)
    }

    constructor ()
      ensures Mirrors(Value(), map[], map[]) && nextSource == 0 && nextNode == 0
    {
      sourceIds, reverseSourceIds, sourceKinds := map[], map[], map[];
      nextSource, nextNode, nodeIds, activeSources := 0, 0, map[], map[];
      outer := NO_OUTER;
    }

    /** Audio follows the recreation of its video, by iterating to a fixed point. */
    method FindRecreate(sources: seq<Source>) returns (recreate: set<Key>)
      requires DistinctSources(sources) && LinksInside(Requested(sources))
      ensures recreate == RecreateSet(sourceKinds, Requested(sources))
    {
      hide RecreateSet, FollowsVideos, KindChanged, DistinctSources, LinksInside;
      ghost var target := RecreateSet(sourceKinds, Requested(sources));
      recreate := {};
      for i := 0 to |sources|
        invariant recreate == ChangedKeys(sourceKinds, sources, i)
      {
        OneMoreChanged(sourceKinds, sources, i);
        if sources[i].key !in sourceKinds || sourceKinds[sources[i].key] != sources[i].kind {
          recreate := recreate + {sources[i].key};
        }
      }
      ghost var changed := recreate;
      ChangedAreTarget(sourceKinds, sources);
      var settled := false;
      while !settled
        invariant changed <= recreate <= target
        invariant settled ==> FollowsVideos(sources, |sources|, recreate)
        decreases !settled, |target - recreate|
      {
        ghost var before := recreate;
        var previousLength := |recreate|;
        recreate := FollowOnce(sources, recreate);
        if |recreate| == previousLength {
          SameSize(before, recreate);
          settled := true;
        } else {
          assert before != recreate;
          ShrinkingRest(target, before, recreate);
        }
      }
      ClosedIsTarget(sourceKinds, sources, recreate);
    }

    /** One pass over the audio sources. */
    method FollowOnce(sources: seq<Source>, keys: set<Key>) returns (more: set<Key>)
      requires DistinctSources(sources) && LinksInside(Requested(sources))
      requires keys <= RecreateSet(sourceKinds, Requested(sources))
      ensures keys <= more <= RecreateSet(sourceKinds, Requested(sources))
      ensures more == keys ==> FollowsVideos(sources, |sources|, keys)
    {
      hide RecreateSet, DistinctSources, LinksInside;
      more := keys;
      for i := 0 to |sources|
        invariant keys <= more <= RecreateSet(sourceKinds, Requested(sources))
        invariant more == keys ==> FollowsVideos(sources, i, keys)
      {
        var kind := sources[i].kind;
        if kind.Audio? && kind.linkedVideo.Some? && kind.linkedVideo.value in more {
          LinkedIsTarget(sourceKinds, sources, i);
          more := more + {sources[i].key};
        }
      }
    }

    method ForgetOne(key: Key, upstream: nat, requested: bool)
      modifies this`sourceIds, this`reverseSourceIds, this`sourceKinds
      ensures reverseSourceIds == old(reverseSourceIds) - {upstream}
      ensures sourceIds == if requested then old(sourceIds) else old(sourceIds) - {key}
      ensures sourceKinds == if requested then old(sourceKinds) else old(sourceKinds) - {key}
    {
      reverseSourceIds := reverseSourceIds - {upstream};
      if !requested {
        sourceIds := sourceIds - {key};
        sourceKinds := sourceKinds - {key};
      }
    }

    method ForgetObsolete(wanted: Sources, recreate: set<Key>) returns (obsolete: map<Key, nat>)
      modifies this`sourceIds, this`reverseSourceIds, this`sourceKinds
      ensures
        var keys := ObsoleteKeys(old(Value()), wanted, recreate);
        && Value() == Forgotten(old(Value()), wanted, keys)
        && obsolete == map key | key in keys :: old(sourceIds)[key]
    {
      hide Forgotten, ObsoleteMap, ObsoleteKeys;
      ghost var before, keys := Value(), ObsoleteKeys(Value(), wanted, recreate);
      obsolete := ObsoleteMap(sourceIds, wanted, recreate);
      ObsoleteMapExact(before, wanted, recreate);
      var left := obsolete.Keys;
      assert left == keys && keys - keys == {};
      NothingForgotten(before, wanted);
      while left != {}
        invariant left <= keys && Value() == Forgotten(before, wanted, keys - left)
        decreases |left|
      {
        var key :| key in left;
        ForgetOneMore(before, wanted, keys - left, key);
        assert keys - left + {key} == keys - (left - {key});
        ForgetOne(key, obsolete[key], key in wanted);
        left := left - {key};
      }
      assert keys - {} == keys;
    }

    method CreateOne(source: Source, ghost live: set<Key>, ghost wanted: Sources, ghost playing: map<Key, Option<nat>>,
                     ghost obsolete: set<nat>) returns (r: Result<()>)
      requires Shows(Value(), live, wanted, playing, obsolete)
      requires source.key !in live && source.key in wanted && wanted[source.key] == source && LinkLive(wanted, live, source.key)
      requires forall id :: id in obsolete ==> id <= nextSource
      modifies this`sourceIds, this`reverseSourceIds, this`nextSource, this`outer
      ensures r.Ok? <==> old(nextSource) < U64_MAX
      ensures r.Ok? ==>
        && Shows(Value(), live + {source.key}, wanted, playing[source.key := None], obsolete)
        && sourceIds.Keys == old(sourceIds.Keys) + {source.key}
        && nextSource == old(nextSource) + 1 && SameScene(old(outer), outer)
        && sourceIds == old(sourceIds)[source.key := nextSource]
      ensures UsedIdsGrow(old(outer), outer)
    {
      hide Shows, LinkLive;
      if nextSource >= U64_MAX { return Err("source IDs exhausted"); }
      CreatedShows(Value(), live, wanted, playing, obsolete, source);
      NextIdIsFree(Value(), live, wanted, playing, obsolete);
      nextSource := nextSource + 1;
      sourceIds := sourceIds[source.key := nextSource];
      reverseSourceIds := reverseSourceIds[nextSource := source.key];
      var created := CreateOuter(outer, nextSource, OuterKindOf(source.kind, sourceIds));
      outer := created.value;
      r := Ok(());
    }

    method CreateInOrder(added: seq<Source>, ghost kept: set<Key>, ghost wanted: Sources,
                         ghost playing: map<Key, Option<nat>>, ghost obsolete: set<nat>) returns (r: Result<()>)
      requires Shows(Value(), kept, wanted, playing, obsolete) && playing.Keys == kept
      requires NewPart(added, kept, wanted) && LinksInside(wanted)
      requires forall id :: id in obsolete ==> id <= nextSource
      modifies this`sourceIds, this`reverseSourceIds, this`nextSource, this`outer
      ensures old(nextSource) + |added| <= U64_MAX ==> r.Ok?
      ensures r.Ok? ==>
        && Shows(Value(), wanted.Keys, wanted, WithNew(playing, KeysOf(added)), obsolete)
        && sourceIds.Keys == old(sourceIds.Keys) + KeysOf(added)
        && KeepsSourceIds(old(Value()), sourceIds, KeysOf(added))
        && SameScene(old(outer), outer)
      ensures UsedIdsGrow(old(outer), outer)
    {
      hide Shows, LinksValid, CreationOrder, WithNew, KeysOf, LinkLive, LinksInside, NewPart;
      var ordered := CreationOrder(added);
      OrderIsNewPart(added, kept, wanted);
      WithNothingNew(playing);
      assert ordered[..0] == [] && kept + {} == kept;
      for i := 0 to |ordered|
        invariant Shows(Value(), kept + KeysOf(ordered[..i]), wanted, WithNew(playing, KeysOf(ordered[..i])), obsolete)
        invariant sourceIds.Keys == old(sourceIds.Keys) + KeysOf(ordered[..i])
        invariant KeepsSourceIds(old(Value()), sourceIds, KeysOf(ordered[..i]))
        invariant nextSource == old(nextSource) + i && SameScene(old(outer), outer) && UsedIdsGrow(old(outer), outer)
      {
        ghost var created := KeysOf(ordered[..i]);
        NextIsReady(added, i, kept, wanted);
        OneMoreKey(ordered, i);
        WithOneMoreNew(playing, created, ordered[i].key);
        r := CreateOne(ordered[i], kept + created, wanted, WithNew(playing, created), obsolete);
        if r.Err? { return; }
        assert kept + KeysOf(ordered[..i + 1]) == kept + created + {ordered[i].key};
      }
      assert ordered[..|ordered|] == ordered;
      r := Ok(());
    }

    /** The kinds are recorded when the creations are confirmed. */
    method RecordKinds(added: seq<Source>, ghost kept: set<Key>, ghost wanted: Sources)
      requires NewPart(added, kept, wanted)
      modifies this`sourceKinds
      ensures sourceKinds == old(sourceKinds) + KindsAt(wanted, KeysOf(added))
    {
      hide KeysOf, KindsAt, DistinctSources;
      NoKinds(wanted, sourceKinds);
      WithNothingNew(map[]);
      assert added[..0] == [];
      for i := 0 to |added|
        invariant sourceKinds == old(sourceKinds) + KindsAt(wanted, KeysOf(added[..i]))
      {
        OneMoreKey(added, i);
        OneMoreKind(wanted, old(sourceKinds), KeysOf(added[..i]), added[i]);
        sourceKinds := sourceKinds[added[i].key := added[i].kind];
      }
      assert added[..|added|] == added;
    }

    /** Creates the new sources in order; fails only when the source ids are used up. */
    method CreateSources(added: seq<Source>, ghost kept: set<Key>, ghost wanted: Sources,
                         ghost playing: map<Key, Option<nat>>, ghost obsolete: set<nat>) returns (r: Result<()>)
      requires Shows(Value(), kept, wanted, playing, obsolete) && playing.Keys == kept
      requires NewPart(added, kept, wanted) && LinksInside(wanted)
      requires forall id :: id in obsolete ==> id <= nextSource
      modifies this`sourceIds, this`reverseSourceIds, this`sourceKinds, this`nextSource, this`outer
      ensures old(nextSource) + |added| <= U64_MAX ==> r.Ok?
      ensures r.Ok? ==>
        && Shows(Value(), wanted.Keys, wanted, WithNew(playing, KeysOf(added)), obsolete)
        && sourceIds.Keys == old(sourceIds.Keys) + KeysOf(added)
        && sourceKinds == old(sourceKinds) + KindsAt(wanted, KeysOf(added))
        && KeepsSourceIds(old(Value()), sourceIds, KeysOf(added))
        && SameScene(old(outer), outer)
      ensures UsedIdsGrow(old(outer), outer)
    {
      hide Shows, LinksInside, NewPart, WithNew, KindsAt, KeysOf;
      r := CreateInOrder(added, kept, wanted, playing, obsolete);
      if r.Err? { return; }
      ghost var shown := Value();
      RecordKinds(added, kept, wanted);
      KindsDoNotMatter(shown, Value(), wanted, WithNew(playing, KeysOf(added)), obsolete);
    }

    // ---- Nodes ----

    /** Updates for the nodes that are known, creations for the others. */
    method PlaceNodes(nodes: seq<Node>) returns (r: Result<(map<NodeKey, nat>, seq<Mutation>)>, ghost copy: map<nat, OuterNode>)
      requires DistinctNodes(nodes) && SceneReady(Value())
      requires forall key :: key in sourceIds ==> sourceIds[key] in outer.sources
      modifies this`nextNode
      ensures old(nextNode) + |nodes| <= U64_MAX && (forall i :: 0 <= i < |nodes| ==> nodes[i].source in sourceIds) ==> r.Ok?
      ensures r.Ok? ==>
        && Building(old(Value()), r.value.0, copy, nextNode, nodes)
        && MutateAll(outer, r.value.1) == Ok(copy)
    {
      hide SceneReady, Building, Mutate;
      ghost var before := Value();
      var next: map<NodeKey, nat> := nodeIds;
      var mutations: seq<Mutation> := [];
      copy := outer.nodes;
      BuildingStarts(before);
      for i := 0 to |nodes|
        invariant Building(before, next, copy, nextNode, nodes[..i])
        invariant MutateAll(outer, mutations) == Ok(copy)
        invariant nextNode <= old(nextNode) + i
      {
        var node := nodes[i];
        assert nodes[..i + 1] == nodes[..i] + [node];
        if node.key !in next && nextNode >= U64_MAX { return Err("node IDs exhausted"), copy; }
        if node.source !in sourceIds { return Err("node source missing"), copy; }
        var placed := OuterNode(sourceIds[node.source], node.layout);
        assert DistinctNodes(nodes[..i] + [node]);
        BuildingGoesOn(before, next, copy, nextNode, nodes[..i], node);
        var mutation;
        if node.key in next {
          mutation := UpdateNode(next[node.key], placed);
        } else {
          nextNode := nextNode + 1;
          next := next[node.key := nextNode];
          mutation := CreateNode(nextNode, placed);
        }
        MutateAppend(outer, mutations, mutation);
        mutations := mutations + [mutation];
        copy := copy[mutation.id := placed];
      }
      assert nodes[..|nodes|] == nodes;
      r := Ok((next, mutations));
    }

    /** Deletions for the known nodes that are no longer in the list. */
    method DeleteNodes(ghost t: Tables, nodes: seq<Node>, placed: map<NodeKey, nat>, begun: seq<Mutation>,
                       ghost placedCopy: map<nat, OuterNode>)
      returns (next: map<NodeKey, nat>, mutations: seq<Mutation>, ghost copy: map<nat, OuterNode>)
      requires t.nodeIds == nodeIds && t.outer == outer && Building(t, placed, placedCopy, nextNode, nodes)
      requires MutateAll(outer, begun) == Ok(placedCopy)
      ensures Trimming(t, next, copy, nextNode, nodes, {}) && MutateAll(outer, mutations) == Ok(copy)
      ensures next.Keys == StableKeys(nodes) && begun <= mutations
    {
      hide Building, Trimming, Mutate;
      next, mutations, copy := placed, begun, placedCopy;
      var removed := nodeIds.Keys - StableKeys(nodes);
      TrimmingStarts(t, next, copy, nextNode, nodes);
      while removed != {}
        invariant Trimming(t, next, copy, nextNode, nodes, removed)
        invariant MutateAll(outer, mutations) == Ok(copy) && begun <= mutations
        decreases |removed|
      {
        var key :| key in removed;
        TrimmingGoesOn(t, next, copy, nextNode, nodes, removed, key);
        var id := next[key];
        MutateAppend(outer, mutations, DeleteNode(id));
        mutations, copy, next := mutations + [DeleteNode(id)], copy - {id}, next - {key};
        removed := removed - {key};
      }
      TrimmedKeys(t, next, copy, nextNode, nodes);
    }

    /** One transaction updates, creates and deletes nodes until the scene is the list. */
    method ReconcileNodes(nodes: seq<Node>) returns (r: Result<()>)
      requires DistinctNodes(nodes) && SceneReady(Value()) && LinksValid(outer.sources)
      requires forall key :: key in sourceIds ==> sourceIds[key] in outer.sources
      modifies this`nodeIds, this`nextNode, this`outer
      ensures old(nextNode) + |nodes| <= U64_MAX && (forall i :: 0 <= i < |nodes| ==> nodes[i].source in sourceIds) ==> r.Ok?
      ensures r.Ok? ==>
        && NodesShown(Value(), RequestedNodes(nodes)) && KeepsNodeIds(old(nodeIds), old(nextNode), nodeIds)
        && outer == old(outer).(nodes := outer.nodes, usedNodes := outer.usedNodes)
      ensures UsedIdsGrow(old(outer), outer)
    {
      hide LinksValid, SceneReady, Building, Trimming, MutateAll, NodesShown;
      ghost var before := Value();
      var placed, placedCopy := PlaceNodes(nodes);
      if placed.Err? { return Err(placed.error); }
      var next, mutations, copy := DeleteNodes(before, nodes, placed.value.0, placed.value.1, placedCopy);
      var committed := CommitOuter(outer, mutations);
      outer := committed.value;
      nodeIds := next;
      TrimmingEnds(before, next, copy, nextNode, nodes, Value());
      r := Ok(());
    }

    // ---- Playback ----

    method PlaySource(source: Source, ghost wanted: Sources, ghost playing: map<Key, Option<nat>>, ghost obsolete: set<nat>)
      returns (r: Result<()>)
      requires Shows(Value(), wanted.Keys, wanted, playing, obsolete) && source.key in playing
      requires source.key in wanted && wanted[source.key] == source
      modifies this`outer
      ensures r.Ok? && SameIds(old(outer), outer)
      ensures
        var now := if IsTimed(source.kind) then Some(source.playRequest) else playing[source.key];
        Shows(Value(), wanted.Keys, wanted, playing[source.key := now], obsolete)
    {
      hide Shows;
      if !IsTimed(source.kind) {
        assert playing[source.key := playing[source.key]] == playing;
        return Ok(());
      }
      PlayedShows(Value(), wanted.Keys, wanted, playing, obsolete, source.key, Some(source.playRequest));
      var played := SetPlaying(outer, sourceIds[source.key], Some(source.playRequest));
      outer := played.value;
      return Ok(());
    }

    method PauseSource(source: Source, ghost wanted: Sources, ghost playing: map<Key, Option<nat>>, ghost obsolete: set<nat>)
      returns (r: Result<()>)
      requires Shows(Value(), wanted.Keys, wanted, playing, obsolete) && source.key in playing
      requires source.key in wanted && wanted[source.key] == source
      modifies this`outer
      ensures r.Ok? && SameIds(old(outer), outer)
      ensures
        var now := if IsTimed(source.kind) then None else playing[source.key];
        Shows(Value(), wanted.Keys, wanted, playing[source.key := now], obsolete)
    {
      hide Shows;
      if !IsTimed(source.kind) {
        assert playing[source.key := playing[source.key]] == playing;
        return Ok(());
      }
      PlayedShows(Value(), wanted.Keys, wanted, playing, obsolete, source.key, None);
      var paused := SetPlaying(outer, sourceIds[source.key], None);
      outer := paused.value;
      return Ok(());
    }

    /** Passes on every change of playing or of the play request, and nothing else. */
    method UpdatePlayback(previous: Sources, current: seq<Source>, ghost playing: map<Key, Option<nat>>, ghost obsolete: set<nat>)
      returns (r: Result<()>)
      requires DistinctSources(current)
      requires Shows(Value(), Requested(current).Keys, Requested(current), playing, obsolete)
      requires playing.Keys == Requested(current).Keys
      modifies this`outer
      ensures r.Ok? && SameIds(old(outer), outer)
      ensures
        var wanted := Requested(current);
        Shows(Value(), wanted.Keys, wanted, Updated(previous, wanted, playing, KeysOf(current)), obsolete)
    {
      hide Shows, Updated;
      ghost var wanted := Requested(current);
      RequestedSources(current);
      NothingUpdated(previous, wanted, playing);
      for i := 0 to |current|
        invariant SameIds(old(outer), outer)
        invariant Shows(Value(), wanted.Keys, wanted, Updated(previous, wanted, playing, KeysOf(current[..i])), obsolete)
      {
        var source := current[i];
        ghost var now := Updated(previous, wanted, playing, KeysOf(current[..i]));
        OneMoreKey(current, i);
        OneMoreUpdated(previous, wanted, playing, KeysOf(current[..i]), source);
        if source.key in previous {
          var old' := previous[source.key];
          if old'.playing != source.playing || (source.playing && old'.playRequest != source.playRequest) {
            if source.playing {
              r := PlaySource(source, wanted, now, obsolete);
            } else {
              r := PauseSource(source, wanted, now, obsolete);
            }
          } else {
            assert now[source.key := now[source.key]] == now;
          }
        } else {
          assert now[source.key := now[source.key]] == now;
        }
      }
      assert current[..|current|] == current;
      r := Ok(());
    }

    /** A recreated source that should play is started afresh. */
    method PlayRecreated(recreated: seq<Source>, ghost wanted: Sources, ghost playing: map<Key, Option<nat>>, ghost obsolete: set<nat>)
      returns (r: Result<()>)
      requires Shows(Value(), wanted.Keys, wanted, playing, obsolete) && playing.Keys == wanted.Keys
      requires DistinctSources(recreated)
      requires forall i :: 0 <= i < |recreated| ==> recreated[i].key in wanted && wanted[recreated[i].key] == recreated[i]
      modifies this`outer
      ensures r.Ok? && SameIds(old(outer), outer)
      ensures Shows(Value(), wanted.Keys, wanted, Replayed(wanted, playing, KeysOf(recreated)), obsolete)
    {
      hide Shows, Replayed;
      NothingReplayed(wanted, playing);
      for i := 0 to |recreated|
        invariant SameIds(old(outer), outer)
        invariant Shows(Value(), wanted.Keys, wanted, Replayed(wanted, playing, KeysOf(recreated[..i])), obsolete)
      {
        var source := recreated[i];
        ghost var now := Replayed(wanted, playing, KeysOf(recreated[..i]));
        OneMoreKey(recreated, i);
        OneMoreReplayed(wanted, playing, KeysOf(recreated[..i]), source);
        if source.playing {
          r := PlaySource(source, wanted, now, obsolete);
        } else {
          assert now[source.key := now[source.key]] == now;
        }
      }
      assert recreated[..|recreated|] == recreated;
      r := Ok(());
    }

    // ---- Destroying ----

    /** No node shows a source when it is destroyed, so no node is lost with it. */
    method DestroyObsolete(obsolete: map<Key, nat>, ghost wanted: Sources, ghost playing: map<Key, Option<nat>>)
      returns (r: Result<()>)
      requires ShowsSources(Value(), wanted.Keys, wanted, playing, obsolete.Values)
      requires forall a, b :: a in obsolete && b in obsolete && obsolete[a] == obsolete[b] ==> a == b
      requires forall node :: node in outer.nodes ==> outer.nodes[node].source !in obsolete.Values
      modifies this`outer
      ensures r.Ok? && SameIds(old(outer), outer)
      ensures Shows(Value(), wanted.Keys, wanted, playing, {})
    {
      hide ShowsSources;
      var left := obsolete.Keys;
      AllLeft(obsolete);
      while left != {}
        invariant left <= obsolete.Keys && SameIds(old(outer), outer)
        invariant ShowsSources(Value(), wanted.Keys, wanted, playing, LeftIds(obsolete, left))
        decreases |left|
      {
        var key :| key in left;
        OneLess(obsolete, left, key);
        DestroyedShows(Value(), wanted.Keys, wanted, playing, LeftIds(obsolete, left), obsolete[key]);
        var destroyed := DestroyOuter(outer, obsolete[key]);
        outer := destroyed.value;
        left := left - {key};
      }
      assert LeftIds(obsolete, {}) == {};
      LinksFollow(Value(), wanted.Keys, wanted, playing);
      r := Ok(());
    }

    // ---- Reconciliation ----

    /** Drops what is obsolete from the tables and creates what is new; the obsolete sources stay at the presenter. */
    method ReplaceSources(sources: seq<Source>, recreate: set<Key>, ghost previousNodes: map<NodeKey, Node>)
      returns (r: Result<map<Key, nat>>, ghost started: map<Key, Option<nat>>)
      requires DistinctSources(sources) && LinksInside(Requested(sources))
      requires Mirrors(Value(), activeSources, previousNodes) && recreate == RecreateSet(sourceKinds, Requested(sources))
      modifies this`sourceIds, this`reverseSourceIds, this`sourceKinds, this`nextSource, this`outer
      ensures old(nextSource) + |sources| <= U64_MAX ==> r.Ok?
      ensures r.Ok? ==>
        var wanted := Requested(sources);
        && started == WithNew(KeptStates(activeSources, KeptKeys(old(Value()), wanted, recreate)), recreate)
        && Shows(Value(), wanted.Keys, wanted, started, r.value.Values)
        && (forall a, b :: a in r.value && b in r.value && r.value[a] == r.value[b] ==> a == b)
        && sourceIds.Keys == wanted.Keys && sourceKinds == (map key | key in wanted :: wanted[key].kind)
        && KeepsSourceIds(old(Value()), sourceIds, recreate)
        && SameScene(old(outer), outer)
      ensures UsedIdsGrow(old(outer), outer)
    {
      hide Shows, Mirrors, LinksInside, ObsoleteKeys, KeptKeys, Forgotten, WithNew, IdsOf, RecreateSet, KeptStates, NewPart,
        KindsAt, KeysOf, Chosen, DistinctSources;
      ghost var before, previous := Value(), activeSources;
      var wanted := Requested(sources);
      RequestedSources(sources);
      ghost var keys, kept := ObsoleteKeys(before, wanted, recreate), KeptKeys(before, wanted, recreate);
      ForgottenShows(before, previous, previousNodes, wanted, recreate);
      var obsolete := ForgetObsolete(wanted, recreate);
      ObsoleteIds(before, previous, previousNodes, keys, obsolete);
      var added := Chosen(sources, recreate);
      FreshIsNew(before, previous, previousNodes, sources, recreate);
      KindsAreComplete(before, previous, previousNodes, sources, recreate);
      started := WithNew(KeptStates(previous, kept), recreate);
      ghost var forgotten := Value();
      ForgottenKeepsIds(before, wanted, recreate);
      var created := CreateSources(added, kept, wanted, KeptStates(previous, kept), obsolete.Values);
      if created.Err? { return Err(created.error), started; }
      KeepsThrough(before, forgotten, sourceIds, recreate);
      r := Ok(obsolete);
    }

    /** A valid snapshot is reconciled completely while there are ids left: afterwards bridge and presenter agree with
        it, whatever they showed before, and what did not have to be recreated has kept its id. */
    method Reconcile(sources: seq<Source>, nodes: seq<Node>, ghost previousNodes: map<NodeKey, Node>)
      returns (r: Result<set<Key>>)
      requires ValidSnapshot(sources, nodes)
      requires Mirrors(Value(), activeSources, previousNodes)
      modifies this
      ensures old(nextSource) + |sources| <= U64_MAX && old(nextNode) + |nodes| <= U64_MAX ==> r.Ok?
      ensures r.Ok? ==>
        && Mirrors(Value(), Requested(sources), RequestedNodes(nodes))
        && r.value == RecreateSet(old(sourceKinds), Requested(sources))
        && Incremental(old(Value()), Value(), r.value)
      ensures UsedIdsGrow(old(outer), outer)
    {
      hide Shows, ShowsSources, NodesShown, LinksValid, KeptKeys, WithNew, Updated, Replayed, RecreateSet, KeptStates, KeysOf,
        LinksInside, DistinctSources, DistinctNodes, Chosen, PlayStates, SceneReady, NewPart, KeepsSourceIds, KeepsNodeIds,
        Incremental;
      ghost var before, previous := Value(), activeSources;
      var wanted := Requested(sources);
      RequestedSources(sources);
      RequestedNodesExact(nodes);
      var recreate := FindRecreate(sources);
      var added := Chosen(sources, recreate);
      FreshIsNew(before, previous, previousNodes, sources, recreate);
      ChosenAreWanted(sources, recreate);
      PlaybackIsSettled(before, previous, previousNodes, sources, recreate);
      var replaced, started := ReplaceSources(sources, recreate, previousNodes);
      if replaced.Err? { return Err(replaced.error); }
      var obsolete := replaced.value;
      ghost var shown := Value();
      SceneIsReady(before, previous, previousNodes, shown, wanted, started, obsolete.Values);
      var placed := ReconcileNodes(nodes);
      if placed.Err? { return Err(placed.error); }
      ghost var scene := Value();
      NodesDoNotMatter(shown, scene, wanted, started, obsolete.Values);
      var updated := UpdatePlayback(activeSources, sources, started, obsolete.Values);
      ghost var current := Updated(previous, wanted, started, KeysOf(sources));
      UpdatedKeys(previous, wanted, started, KeysOf(sources));
      var replayed := PlayRecreated(added, wanted, current, obsolete.Values);
      ghost var settled := Replayed(wanted, current, recreate);
      NodesStayShown(scene, Value(), RequestedNodes(nodes));
      NodesAvoidObsolete(Value(), RequestedNodes(nodes), wanted, settled, obsolete.Values);
      LooselyShown(Value(), wanted, settled, obsolete.Values);
      var destroyed := DestroyObsolete(obsolete, wanted, settled);
      ghost var last := Value();
      activeSources := wanted;
      NodesStayShown(scene, Value(), RequestedNodes(nodes));
      NodesDoNotMatter(last, Value(), wanted, settled, {});
      NothingIsReused(before, previous, previousNodes, Value(), recreate);
      r := Ok(recreate);
    }

    /** Any number of valid snapshots, one after the other: the presenter ends up showing the last of them. */
    method ReconcileAll(snapshots: seq<(seq<Source>, seq<Node>)>, ghost previousNodes: map<NodeKey, Node>)
      returns (r: Result<()>)
      requires forall i :: 0 <= i < |snapshots| ==> ValidSnapshot(snapshots[i].0, snapshots[i].1)
      requires Mirrors(Value(), activeSources, previousNodes) && snapshots != []
      modifies this
      ensures r.Ok? ==>
        var last := snapshots[|snapshots| - 1];
        Mirrors(Value(), Requested(last.0), RequestedNodes(last.1)) && NoReuse(old(Value()), Value())
      ensures UsedIdsGrow(old(outer), outer)
    {
      hide Mirrors, ValidSnapshot, Requested, RequestedNodes, RecreateSet, Incremental;
      ghost var shownNodes := previousNodes;
      for i := 0 to |snapshots|
        invariant Mirrors(Value(), activeSources, shownNodes) && NoReuse(old(Value()), Value())
        invariant i > 0 ==>
          var last := snapshots[i - 1];
          Mirrors(Value(), Requested(last.0), RequestedNodes(last.1))
      {
        ghost var before := Value();
        var step := Reconcile(snapshots[i].0, snapshots[i].1, shownNodes);
        if step.Err? { return Err(step.error); }
        NoReuseGoesOn(old(Value()), before, Value(), step.value);
        shownNodes := RequestedNodes(snapshots[i].1);
        ActiveIsRequested(Value(), Requested(snapshots[i].0), shownNodes);
      }
      r := Ok(());
    }
  }
}
