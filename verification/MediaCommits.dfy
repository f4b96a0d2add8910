/** What a scene transaction and a disconnect leave of the nodes, node by node (src/media.rs:4132-4230, 4259-4300). */
module MediaCommits {
  import opened Wrappers
  import opened FixedWidth
  import opened MapSums
  import opened MediaState

  /** The node a mutation is about. */
  function Names(mutation: Mutation): Key {
    match mutation
    case Create(node) => NodeKey(node)
    case Update(node) => NodeKey(node)
    case Delete(owner, id) => Key(owner, id)
  }

  /** The last mutation about a node, or the number of mutations when there is none. */
  ghost predicate IsLast(mutations: seq<Mutation>, i: nat, id: Key) {
    && i < |mutations| && Names(mutations[i]) == id
    && forall j :: i < j < |mutations| ==> Names(mutations[j]) != id
  }

  /** The nodes after a transaction: what the last mutation about each says, and otherwise what was there. */
  ghost predicate NodesAre(before: map<Key, Node>, mutations: seq<Mutation>, after: map<Key, Node>) {
    && (forall i :: 0 <= i < |mutations| && IsLast(mutations, i, Names(mutations[i])) ==>
          if mutations[i].Delete? then Names(mutations[i]) !in after
          else Names(mutations[i]) in after && after[Names(mutations[i])] == mutations[i].node)
    && (forall id :: (forall i :: 0 <= i < |mutations| ==> Names(mutations[i]) != id) ==>
          (id in after <==> id in before) && (id in after ==> after[id] == before[id]))
  }

  /** A producer may show its own sources, at anchors it has seen. */
  predicate MayShow(m: Media, producer: nat, node: Node) {
    && node.producer == producer && Key(producer, node.source) in m.sources
    && (node.anchorId.Some? ==> producer in m.producers && node.anchorId.value in m.producers[producer].anchors)
  }

  /** Whether a node is there once the first `n` mutations are through. */
  ghost predicate IsThere(nodes: map<Key, Node>, mutations: seq<Mutation>, n: nat, id: Key)
    requires n <= |mutations|
  {
    if n > 0 && Names(mutations[n - 1]) == id then !mutations[n - 1].Delete?
    else if n == 0 then id in nodes
    else IsThere(nodes, mutations, n - 1, id)
  }

  /** Each mutation makes sense when its turn comes: only what is not there is created, only what is there is updated or
      deleted, and the producer may show it. */
  ghost predicate MakesSense(m: Media, producer: nat, mutations: seq<Mutation>, i: nat)
    requires i < |mutations|
  {
    match mutations[i]
    case Create(node) => MayShow(m, producer, node) && !IsThere(m.nodes, mutations, i, NodeKey(node))
    case Update(node) => MayShow(m, producer, node) && IsThere(m.nodes, mutations, i, NodeKey(node))
    case Delete(owner, id) => IsThere(m.nodes, mutations, i, Key(owner, id))
  }

  /** One mutation on a working copy. */
  lemma MutateExactly(m: Media, producer: nat, copy: map<Key, Node>, mutation: Mutation)
    ensures
      var r, id := Mutate(m, producer, copy, mutation), Names(mutation);
      && (r.Ok? <==>
            match mutation
            case Create(node) => MayShow(m, producer, node) && id !in copy
            case Update(node) => MayShow(m, producer, node) && id in copy
            case Delete(_, _) => id in copy)
      && (r.Ok? ==> r.value == if mutation.Delete? then copy - {id} else copy[id := mutation.node])
  {
  }

  lemma NamedOnce(before: map<Key, Node>, mutations: seq<Mutation>, n: nat, copy: map<Key, Node>, after: map<Key, Node>)
    requires n < |mutations| && NodesAre(before, mutations[..n], copy)
    requires
      var id := Names(mutations[n]);
      after == if mutations[n].Delete? then copy - {id} else copy[id := mutations[n].node]
    ensures NodesAre(before, mutations[..n + 1], after)
  {
    var longer, shorter := mutations[..n + 1], mutations[..n];
    forall i | 0 <= i < |longer| && IsLast(longer, i, Names(longer[i]))
      ensures if longer[i].Delete? then Names(longer[i]) !in after
              else Names(longer[i]) in after && after[Names(longer[i])] == longer[i].node
    {
      if i < n {
        assert shorter[i] == longer[i];
        forall j | i < j < |shorter| ensures Names(shorter[j]) != Names(longer[i]) {
          assert shorter[j] == longer[j];
        }
        assert IsLast(shorter, i, Names(shorter[i]));
        assert Names(longer[n]) != Names(longer[i]);
      }
    }
    forall id | forall i :: 0 <= i < |longer| ==> Names(longer[i]) != id
      ensures (id in after <==> id in before) && (id in after ==> after[id] == before[id])
    {
      assert Names(longer[n]) != id;
      assert forall i :: 0 <= i < |shorter| ==> shorter[i] == longer[i];
    }
  }

  /** The working copy after `n` mutations, when there is one. */
  lemma {:induction false} MutatedExactly(m: Media, producer: nat, mutations: seq<Mutation>, n: nat)
    requires n <= |mutations|
    ensures
      var r := MutateAll(m, producer, mutations[..n]);
      && (r.Ok? <==> forall i :: 0 <= i < n ==> MakesSense(m, producer, mutations, i))
      && (r.Ok? ==> NodesAre(m.nodes, mutations[..n], r.value))
      && (r.Ok? ==> forall id :: id in r.value <==> IsThere(m.nodes, mutations, n, id))
  {
    hide Mutate, NodesAre, MayShow;
    if n == 0 {
      assert NodesAre(m.nodes, mutations[..0], m.nodes) by { NothingMutated(m.nodes); }
    } else {
      MutatedExactly(m, producer, mutations, n - 1);
      assert mutations[..n][..n - 1] == mutations[..n - 1] && mutations[..n][n - 1] == mutations[n - 1];
      var earlier := MutateAll(m, producer, mutations[..n - 1]);
      if earlier.Ok? {
        MutateExactly(m, producer, earlier.value, mutations[n - 1]);
        var r := MutateAll(m, producer, mutations[..n]);
        assert r.Ok? <==> MakesSense(m, producer, mutations, n - 1);
        if r.Ok? {
          NamedOnce(m.nodes, mutations, n - 1, earlier.value, r.value);
        }
      }
    }
  }

  lemma NothingMutated(nodes: map<Key, Node>)
    ensures NodesAre(nodes, [], nodes)
  {
  }

  /** The nodes that are there in the end. */
  ghost function Remaining(nodes: map<Key, Node>, mutations: seq<Mutation>): set<Key> {
    set id | id in nodes.Keys + (set i | 0 <= i < |mutations| :: Names(mutations[i])) && IsThere(nodes, mutations, |mutations|, id)
  }

  lemma {:induction false} ThereOrNamed(nodes: map<Key, Node>, mutations: seq<Mutation>, n: nat, id: Key)
    requires n <= |mutations| && IsThere(nodes, mutations, n, id)
    ensures id in nodes || exists i :: 0 <= i < n && Names(mutations[i]) == id
  {
    if n > 0 && Names(mutations[n - 1]) != id {
      ThereOrNamed(nodes, mutations, n - 1, id);
    }
  }

  lemma RemainingExactly(nodes: map<Key, Node>, mutations: seq<Mutation>, after: map<Key, Node>)
    requires forall id :: id in after <==> IsThere(nodes, mutations, |mutations|, id)
    ensures after.Keys == Remaining(nodes, mutations) && |after| == |Remaining(nodes, mutations)|
  {
    forall id | id in after ensures id in Remaining(nodes, mutations) {
      ThereOrNamed(nodes, mutations, |mutations|, id);
    }
    assert |after| == |after.Keys|;
  }

  /** A transaction is accepted exactly when every mutation makes sense in its turn, the whole is well structured and what
      remains is within the quota; then each node is as the last mutation about it says and all others are untouched. */
  lemma CommitExactly(m: Media, producer: nat, mutations: seq<Mutation>, structureValid: bool)
    ensures
      var r := Commit(m, producer, mutations, structureValid);
      && (r.Ok? <==>
            && (forall i :: 0 <= i < |mutations| ==> MakesSense(m, producer, mutations, i))
            && structureValid && |Remaining(m.nodes, mutations)| <= m.config.maxNodes)
      && (r.Ok? ==> NodesAre(m.nodes, mutations, r.value.nodes) && r.value == m.(nodes := r.value.nodes))
  {
    hide MutateAll, MakesSense, NodesAre, Remaining;
    MutatedExactly(m, producer, mutations, |mutations|);
    assert mutations[..|mutations|] == mutations;
    var r := MutateAll(m, producer, mutations);
    if r.Ok? {
      RemainingExactly(m.nodes, mutations, r.value);
    }
  }

  // ---- Disconnects ----

  /** A node outlives its producer as the poster of an anchored still picture that is retained and may be kept. */
  predicate IsPoster(m: Media, node: Node)
    requires node.producer in m.producers
  {
    && node.anchorId.Some? && node.anchorId.value in m.producers[node.producer].anchors
    && Key(node.producer, node.source) in m.sources
    && var source := m.sources[Key(node.producer, node.source)];
       (source.kind.Raster? || source.kind.Image?) && source.retained.Some? && !source.posterDenied
  }

  /** When a producer goes, the nodes of all others are untouched. Its own stay exactly as posters, if posters are kept, and
      remember where their anchor was. */
  lemma CleanupExactly(m: Media, producer: nat, preserve: bool)
    requires producer in m.producers
    ensures
      var after := CleanupProducer(m, producer, preserve);
      && after.producers == m.producers - {producer}
      && (forall id :: id in m.nodes && m.nodes[id].producer != producer ==> id in after.nodes && after.nodes[id] == m.nodes[id])
      && (forall id :: id in after.nodes ==> id in m.nodes)
      && (forall id :: id in m.nodes && m.nodes[id].producer == producer ==>
            var node := m.nodes[id];
            && (id in after.nodes <==> preserve && IsPoster(m, node))
            && (id in after.nodes ==>
                  after.nodes[id] == node.(retainedAnchor := Some(m.producers[producer].anchors[node.anchorId.value]))))
      && (forall key :: key in after.sources <==>
            key in m.sources && (key.producer in after.producers || exists id :: id in after.nodes && NodeSource(after.nodes[id]) == key))
  {
    hide Sum, Part;
    var after := CleanupProducer(m, producer, preserve);
    forall key ensures key in after.sources <==>
        key in m.sources && (key.producer in after.producers || exists id :: id in after.nodes && NodeSource(after.nodes[id]) == key) {
      assert IsReferenced(after.nodes, key) <==> exists id :: id in after.nodes && NodeSource(after.nodes[id]) == key;
    }
  }
}
