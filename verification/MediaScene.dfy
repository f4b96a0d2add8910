/** Retained bytes and the scene over every run of the inner presenter (src/media.rs:445-469, 582-604, 3970-4005,
    4132-4318). */
module MediaScene {
  import opened Wrappers
  import opened FixedWidth
  import opened MapSums
  import opened PointSets
  import opened MediaCredit
  import opened MediaState

  /** Only still pictures retain a body, and what is retained is counted. */
  predicate RetentionValid(source: Source) {
    && source.retainedBytes == (if source.retained.Some? then source.retained.value else 0)
    && (source.retained.Some? ==> IsStatic(source.kind))
  }

  predicate NodesPlaced(nodes: map<Key, Node>, sources: map<Key, Source>) {
    forall id :: id in nodes ==> NodeKey(nodes[id]) == id && NodeSource(nodes[id]) in sources
  }

  ghost predicate AllAlive(m: Media) {
    forall key :: key in m.sources ==> key.producer in m.producers || IsReferenced(m.nodes, key)
  }

  /** The counter of retained bytes is the sum over the sources and within its limit, every node shows a source that
      exists, and both quotas hold. */
  ghost predicate Accounted(m: Media) {
    && m.retainedBytes == Sum(RetainedSizes(m.sources)) && m.retainedBytes <= m.config.retainedLimit
    && (forall key :: key in m.sources ==> RetentionValid(m.sources[key]))
    && NodesPlaced(m.nodes, m.sources)
    && |m.nodes| <= m.config.maxNodes
    && |m.sources| <= m.config.maxSources
  }

  /** In addition, every source is kept alive by its connected producer or by a node that shows it. */
  ghost predicate SceneValid(m: Media) {
    Accounted(m) && AllAlive(m)
  }

  // ---- Steps that do not touch the scene ----

  predicate SameRetention(s: Source, t: Source) {
    s.kind == t.kind && s.retained == t.retained && s.retainedBytes == t.retainedBytes
  }

  ghost predicate SceneKept(before: Media, after: Media) {
    && after.config == before.config && after.producers == before.producers && after.nodes == before.nodes
    && after.retainedBytes == before.retainedBytes && after.sources.Keys == before.sources.Keys
    && forall key :: key in after.sources ==> SameRetention(before.sources[key], after.sources[key])
  }

  lemma KeptIsValid(before: Media, after: Media)
    requires SceneValid(before) && SceneKept(before, after)
    ensures SceneValid(after)
  {
    assert RetainedSizes(after.sources) == RetainedSizes(before.sources);
    assert |after.sources| == |after.sources.Keys| && |before.sources| == |before.sources.Keys|;
  }

  lemma KeptTwice(before: Media, between: Media, after: Media)
    requires SceneKept(before, between) && SceneKept(between, after)
    ensures SceneKept(before, after)
  {
  }

  lemma SourceKept(m: Media, key: Key, source: Source)
    requires key in m.sources && SameRetention(m.sources[key], source)
    ensures SceneKept(m, WithSource(m, key, source))
  {
  }

  lemma ReturnKeepsScene(m: Media, key: Key, bytes: nat, packets: nat)
    ensures SceneKept(m, ReturnCredit(m, key, bytes, packets).media)
  {
    hide Return;
  }

  lemma TakeKeepsScene(m: Media, id: nat)
    ensures SceneKept(m, TakeDelivery(m, id).media)
  {
    hide Return;
  }

  lemma {:induction false} TakeAllKeepsScene(m: Media, ids: seq<nat>)
    ensures SceneKept(m, TakeDeliveries(m, ids).media)
  {
    hide TakeDelivery, SameRetention;
    if ids == [] {
      KeptByNothing(m);
    } else {
      var n := |ids| - 1;
      TakeAllKeepsScene(m, ids[..n]);
      TakeKeepsScene(TakeDeliveries(m, ids[..n]).media, ids[n]);
      KeptTwice(m, TakeDeliveries(m, ids[..n]).media, TakeDeliveries(m, ids).media);
    }
  }

  lemma KeptByNothing(m: Media)
    ensures SceneKept(m, m)
  {
  }

  lemma {:induction false} RequestsKeepScene(m: Media, requests: seq<Request>)
    ensures SceneKept(m, RequestKeyframes(m, requests))
  {
    hide RequestKeyframe, SameRetention;
    if requests == [] {
      KeptByNothing(m);
    } else {
      var n := |requests| - 1;
      RequestsKeepScene(m, requests[..n]);
      RequestKeepsScene(RequestKeyframes(m, requests[..n]), requests[n]);
      KeptTwice(m, RequestKeyframes(m, requests[..n]), RequestKeyframes(m, requests));
    }
  }

  lemma RequestKeepsScene(m: Media, request: Request)
    ensures SceneKept(m, RequestKeyframe(m, request))
  {
  }

  lemma DesynchronizeKeepsScene(m: Media, key: Key)
    ensures SceneKept(m, Desynchronize(m, key))
  {
  }

  lemma DeliveryStepsKeepScene(m: Media, step: Step)
    requires step.HandoverFailed? || step.DeliveryCompleted? || step.DeliveriesCancelled? || step.Projected? || step.Deactivated?
    ensures SceneKept(m, Next(m, step).media)
  {
    hide TakeDelivery, TakeDeliveries, Desynchronize, Deactivate;
    match step
    case HandoverFailed(key, delivery) =>
      TakeKeepsScene(m, delivery);
      DesynchronizeKeepsScene(TakeDelivery(m, delivery).media, key);
    case DeliveryCompleted(delivery, _) =>
      if delivery in m.deliveries {
        var lost := Desynchronize(m, m.deliveries[delivery].source);
        DesynchronizeKeepsScene(m, m.deliveries[delivery].source);
        TakeKeepsScene(m, delivery);
        TakeKeepsScene(lost, delivery);
      }
    case DeliveriesCancelled(_, deliveries) => TakeAllKeepsScene(m, deliveries);
    case Projected(visible, _, hidden) => TakeAllKeepsScene(m.(projected := visible), hidden);
    case Deactivated(deliveries) => DeactivateKeepsScene(m, deliveries);
  }

  lemma DeactivateKeepsScene(m: Media, deliveries: seq<nat>)
    ensures SceneKept(m, Deactivate(m, deliveries).media)
  {
    hide TakeDeliveries;
    var sources :=
      map source | source in m.sources ::
        if m.sources[source].kind.Video? && m.sources[source].playing then m.sources[source].(desynchronized := true)
        else m.sources[source];
    var hidden := m.(projected := {}, sources := sources);
    TakeAllKeepsScene(hidden, deliveries);
    assert SceneKept(m, hidden);
    KeptTwice(m, hidden, TakeDeliveries(hidden, deliveries).media);
  }

  lemma PlaybackKeepsScene(m: Media, step: Step)
    requires step.Flushed? || step.StreamEnded? || step.PlaybackSet?
    requires SceneValid(m)
    ensures SceneKept(m, Next(m, step).media)
  {
    hide SceneKept, SceneValid;
    KeptByNothing(m);
    var key := step.key;
    if key in m.sources {
      SourceRetention(m, key);
      var source := m.sources[key];
      match step
      case Flushed(_, epoch) => SourceKept(m, key, Flush(m, key, epoch).sources[key]);
      case StreamEnded(_) => SourceKept(m, key, EndOfStream(m, key).sources[key]);
      case PlaybackSet(_, playing) => SourceKept(m, key, source.(playing := playing));
    }
  }

  // ---- Ingest ----

  lemma UpdatedSum(sources: map<Key, Source>, key: Key, source: Source)
    ensures
      Sum(RetainedSizes(sources[key := source])) + (if key in sources then sources[key].retainedBytes else 0)
      == Sum(RetainedSizes(sources)) + source.retainedBytes
  {
    hide Sum;
    var sizes := RetainedSizes(sources);
    SumAbsent(sizes, key);
    SumUpdate(sizes, key, source.retainedBytes);
    assert RetainedSizes(sources[key := source]) == sizes[key := source.retainedBytes];
  }

  /** Replacing what one source retains keeps the account when the counter moves along. */
  lemma ReplaceRetained(m: Media, key: Key, source: Source)
    requires SceneValid(m) && key in m.sources && RetentionValid(source)
    requires m.retainedBytes - m.sources[key].retainedBytes + source.retainedBytes <= m.config.retainedLimit
    ensures m.sources[key].retainedBytes <= m.retainedBytes
    ensures
      SceneValid(WithSource(m, key, source).(
                 retainedBytes := m.retainedBytes - m.sources[key].retainedBytes + source.retainedBytes))
  {
    hide Sum, RetainedSizes, RetentionValid;
    UpdatedSum(m.sources, key, source);
    CountsSource(m, key);
    var after := WithSource(m, key, source);
    assert after.sources.Keys == m.sources.Keys;
    assert |after.sources| == |after.sources.Keys| && |m.sources| == |m.sources.Keys|;
  }

  lemma DispatchKeepsScene(m: Media, key: Key, record: Record)
    requires key in m.sources
    ensures SceneKept(m, Dispatch(m, key, record).media)
  {
    hide ReturnCredit, ForwardTimed, QueueAdmits, ForwardedBytes;
    var lost := ForwardTimed(m, key) && m.sources[key].kind.Video?;
    var dropped := if lost then WithSource(m, key, m.sources[key].(desynchronized := true)) else m;
    SourceKept(m, key, m.sources[key].(desynchronized := true));
    KeptByNothing(m);
    ReturnKeepsScene(dropped, key, record.bytes, 1);
    KeptTwice(m, dropped, ReturnCredit(dropped, key, record.bytes, 1).media);
  }

  lemma DecodedKeepsRetention(source: Source, record: Record, projected: bool)
    requires RetentionValid(source) && PayloadMatches(source.kind, record.payload) && Decoded(source, record.payload, projected).Ok?
    ensures
      var decoded := Decoded(source, record.payload, projected).value;
      && SameRetention(source, decoded)
      && RetentionValid(Stored(decoded, record)) && Stored(decoded, record).kind == source.kind
      && (NewRetained(record).Some? ==> Stored(decoded, record).retainedBytes == NewRetained(record).value)
      && (NewRetained(record).None? && (record.payload.RasterFrame? ==> record.payload.verdict.Accepted?) ==>
            source.retainedBytes == 0 && Stored(decoded, record).retainedBytes == 0)
  {
  }

  lemma StoredKeepsScene(m: Media, key: Key, decoded: Source, record: Record)
    requires SceneValid(m) && key in m.sources && RetainedTotal(m, key, record) <= m.config.retainedLimit
    requires RetentionValid(Stored(decoded, record))
    requires Stored(decoded, record).retainedBytes == if NewRetained(record).Some? then NewRetained(record).value else 0
    ensures SceneValid(Store(m, key, decoded, record))
  {
    hide SceneValid, Stored, RetentionValid, NewRetained;
    CountsSource(m, key);
    ReplaceRetained(m, key, Stored(decoded, record));
  }

  lemma ChargedKeepsScene(m: Media, key: Key, record: Record)
    requires SceneValid(m) && key in m.sources
    ensures SceneValid(IngestCharged(m, key, record).media)
  {
    hide SceneValid, SceneKept, Dispatch, ReturnCredit, Decoded, Stored, Store, SameRetention, RetentionValid, RetainedTotal,
      NewRetained, PayloadMatches;
    ReturnKeepsScene(m, key, record.bytes, 1);
    KeptIsValid(m, ReturnCredit(m, key, record.bytes, 1).media);
    var source := m.sources[key];
    SourceRetention(m, key);
    if PayloadMatches(source.kind, record.payload) && !(record.payload.RasterFrame? && !record.payload.verdict.Accepted?)
       && Decoded(source, record.payload, key in m.projected).Ok? {
      DecodedKeepsRetention(source, record, key in m.projected);
      var decoded := Decoded(source, record.payload, key in m.projected).value;
      SourceKept(m, key, decoded);
      KeptIsValid(m, WithSource(m, key, decoded));
      if RetainedTotal(m, key, record) <= m.config.retainedLimit {
        StoredKeepsScene(m, key, decoded, record);
        var stored := Store(m, key, decoded, record);
        StoreHasSource(m, key, decoded, record);
        DispatchKeepsScene(stored, key, record);
        KeptIsValid(stored, Dispatch(stored, key, record).media);
      }
    }
  }

  lemma StoreHasSource(m: Media, key: Key, decoded: Source, record: Record)
    requires key in m.sources
    ensures key in Store(m, key, decoded, record).sources
  {
  }

  lemma SourceRetention(m: Media, key: Key)
    requires SceneValid(m) && key in m.sources
    ensures RetentionValid(m.sources[key])
  {
  }

  lemma CountsSource(m: Media, key: Key)
    requires SceneValid(m) && key in m.sources
    ensures m.sources[key].retainedBytes <= m.retainedBytes
  {
    SumRemove(RetainedSizes(m.sources), key);
  }

  lemma IngestKeepsScene(m: Media, key: Key, record: Record)
    requires SceneValid(m)
    ensures SceneValid(Ingest(m, key, record).media)
  {
    hide SceneValid, IngestCharged, Consume;
    if key in m.sources {
      var charged := WithSource(m, key, m.sources[key].(credit := Consume(m.sources[key].credit, record.bytes).credit));
      SourceKept(m, key, charged.sources[key]);
      KeptIsValid(m, charged);
      ChargedKeepsScene(charged, key, record);
    }
  }

  // ---- Sources and producers come and go ----

  /** A new source that retains nothing, of a connected producer. */
  lemma AddSourceKeepsScene(m: Media, key: Key, source: Source)
    requires SceneValid(m) && key.producer in m.producers && key !in m.sources && RetentionValid(source)
    requires source.retainedBytes == 0 && |m.sources| < m.config.maxSources
    ensures SceneValid(WithSource(m, key, source))
  {
    hide Sum, RetainedSizes, RetentionValid, IsReferenced;
    UpdatedSum(m.sources, key, source);
    var after := WithSource(m, key, source);
    assert |after.sources| == |m.sources| + 1;
  }

  lemma CreateKeepsScene(m: Media, key: Key, kind: Kind, maximum: nat, posterDenied: bool)
    requires SceneValid(m) && key.producer in m.producers
    ensures SceneValid(OrSame(m, CreateSource(m, key, kind, maximum, posterDenied)))
  {
    hide SceneValid;
    if key !in m.sources && |m.sources| < m.config.maxSources {
      var source := Source(kind, Fresh(maximum), None, 0, false, false, false, 0, 0, None, posterDenied);
      AddSourceKeepsScene(m, key, source);
      forall visible: set<Key> ensures SceneValid(WithSource(m, key, source).(projected := visible)) {
        ProjectionKeepsScene(WithSource(m, key, source), visible);
      }
    }
  }

  lemma ProjectionKeepsScene(m: Media, visible: set<Key>)
    requires SceneValid(m)
    ensures SceneValid(m.(projected := visible))
  {
    KeptIsValid(m, m.(projected := visible));
  }

  lemma RemoveKeepsAccount(m: Media, key: Key)
    requires Accounted(m) && key in m.sources
    ensures Accounted(RemoveSource(m, key).value)
  {
    hide Sum, RetentionValid;
    var after := RemoveSource(m, key).value;
    SumRemove(RetainedSizes(m.sources), key);
    assert RetainedSizes(after.sources) == RetainedSizes(m.sources) - {key};
    SmallerMap(after.nodes, m.nodes);
    SmallerMap(after.sources, m.sources);
  }

  lemma RemoveKeepsScene(m: Media, key: Key)
    requires SceneValid(m)
    ensures SceneValid(OrSame(m, RemoveSource(m, key)))
  {
    hide Accounted;
    if key in m.sources {
      var after := RemoveSource(m, key).value;
      RemoveKeepsAccount(m, key);
      forall other | other in after.sources && other.producer !in after.producers ensures IsReferenced(after.nodes, other) {
        assert IsReferenced(m.nodes, other);
        var id :| id in m.nodes && NodeSource(m.nodes[id]) == other;
        assert id in after.nodes && NodeSource(after.nodes[id]) == other;
      }
    }
  }

  lemma SmallerMap<V, W>(small: map<Key, V>, large: map<Key, W>)
    requires small.Keys <= large.Keys
    ensures |small| <= |large|
  {
    SubsetSize(small.Keys, large.Keys);
    assert |small| == |small.Keys| && |large| == |large.Keys|;
  }

  lemma PruneCounts(m: Media)
    requires m.retainedBytes == Sum(RetainedSizes(m.sources))
    ensures Prune(m).retainedBytes == Sum(RetainedSizes(Prune(m).sources)) <= m.retainedBytes
  {
    hide Sum, Orphans, Part;
    var orphans := Orphans(m);
    SumSplit(RetainedSizes(m.sources), orphans);
    assert RetainedSizes(m.sources - orphans) == RetainedSizes(m.sources) - orphans;
  }

  /** Dropping the orphans leaves every remaining source alive. */
  lemma PruneEstablishesScene(m: Media)
    requires Accounted(m)
    ensures SceneValid(Prune(m))
  {
    hide Sum, RetentionValid, RetainedSizes, Part;
    var after := Prune(m);
    PruneCounts(m);
    SmallerMap(after.sources, m.sources);
    forall id | id in m.nodes ensures NodeSource(m.nodes[id]) in after.sources {
      assert IsReferenced(m.nodes, NodeSource(m.nodes[id]));
    }
  }

  /** Taking nodes away, and changing the anchors of others, keeps the account. */
  lemma FewerNodesKeepAccount(m: Media, after: Media)
    requires Accounted(m) && after.sources == m.sources && after.retainedBytes == m.retainedBytes && after.config == m.config
    requires after.nodes.Keys <= m.nodes.Keys
    requires forall id :: id in after.nodes ==>
                            NodeKey(after.nodes[id]) == NodeKey(m.nodes[id]) && NodeSource(after.nodes[id]) == NodeSource(m.nodes[id])
    ensures Accounted(after)
  {
    SmallerMap(after.nodes, m.nodes);
  }

  lemma CleanupKeepsScene(m: Media, producer: nat, preserve: bool)
    requires SceneValid(m)
    ensures SceneValid(CleanupProducer(m, producer, preserve))
  {
    hide Accounted, Survives, Prune;
    if producer in m.producers {
      FewerNodesKeepAccount(m, Detached(m, producer, preserve));
      PruneEstablishesScene(Detached(m, producer, preserve));
    }
  }

  lemma {:induction false} CleanupsKeepScene(m: Media, producers: seq<nat>)
    requires SceneValid(m)
    ensures SceneValid(CleanupProducers(m, producers))
  {
    hide CleanupProducer, SceneValid;
    if producers != [] {
      var n := |producers| - 1;
      CleanupsKeepScene(m, producers[..n]);
      CleanupKeepsScene(CleanupProducers(m, producers[..n]), producers[n], false);
    }
  }

  lemma RevokeKeepsScene(m: Media, pane: nat, producers: seq<nat>)
    requires SceneValid(m)
    ensures SceneValid(RevokePane(m, pane, producers))
  {
    hide CleanupProducers, Prune, Accounted;
    CleanupsKeepScene(m, producers);
    var cleaned := CleanupProducers(m, producers);
    FewerNodesKeepAccount(cleaned, WithoutPane(cleaned, pane));
    PruneEstablishesScene(WithoutPane(cleaned, pane));
  }

  lemma ClearAnchorsKeepsScene(m: Media, pane: nat)
    requires SceneValid(m)
    ensures SceneValid(ClearAnchors(m, pane))
  {
    hide Prune, Accounted;
    FewerNodesKeepAccount(m, ClearedAnchors(m, pane));
    PruneEstablishesScene(ClearedAnchors(m, pane));
  }

  lemma ProducersKeepScene(m: Media, after: Media)
    requires SceneValid(m) && after == m.(producers := after.producers) && m.producers.Keys <= after.producers.Keys
    ensures SceneValid(after)
  {
  }

  // ---- Transactions ----

  predicate OthersUntouched(producer: nat, before: map<Key, Node>, after: map<Key, Node>) {
    && (forall id :: id in before && id.producer != producer ==> id in after && after[id] == before[id])
    && (forall id :: id in after && id.producer != producer ==> id in before)
  }

  lemma MutateKeepsNodes(m: Media, producer: nat, nodes: map<Key, Node>, mutation: Mutation)
    requires NodesPlaced(nodes, m.sources) && (mutation.Delete? ==> mutation.owner == producer)
    ensures
      var r := Mutate(m, producer, nodes, mutation);
      r.Ok? ==> NodesPlaced(r.value, m.sources) && OthersUntouched(producer, nodes, r.value)
  {
  }

  lemma {:induction false} MutateAllKeepsNodes(m: Media, producer: nat, mutations: seq<Mutation>)
    requires NodesPlaced(m.nodes, m.sources)
    requires forall i :: 0 <= i < |mutations| && mutations[i].Delete? ==> mutations[i].owner == producer
    ensures
      var r := MutateAll(m, producer, mutations);
      r.Ok? ==> NodesPlaced(r.value, m.sources) && OthersUntouched(producer, m.nodes, r.value)
  {
    hide Mutate, NodesPlaced;
    if mutations != [] {
      var n := |mutations| - 1;
      assert forall i :: 0 <= i < n ==> mutations[..n][i] == mutations[i];
      MutateAllKeepsNodes(m, producer, mutations[..n]);
      var earlier := MutateAll(m, producer, mutations[..n]);
      if earlier.Ok? {
        MutateKeepsNodes(m, producer, earlier.value, mutations[n]);
      }
    }
  }

  /** A transaction is all or nothing, and shows only sources of its own producer. */
  lemma CommitKeepsScene(m: Media, step: Step)
    requires SceneValid(m) && step.Committed? && Possible(m, step)
    ensures SceneValid(Next(m, step).media)
    ensures Commit(m, step.producer, step.mutations, step.structureValid).Err? ==> Next(m, step).media == m
  {
    hide MutateAll, RetentionValid, Sum, RetainedSizes;
    var r := Commit(m, step.producer, step.mutations, step.structureValid);
    if r.Ok? {
      MutateAllKeepsNodes(m, step.producer, step.mutations);
      forall key | key in m.sources && key.producer !in m.producers ensures IsReferenced(r.value.nodes, key) {
        assert IsReferenced(m.nodes, key);
        var id :| id in m.nodes && NodeSource(m.nodes[id]) == key;
        assert NodeKey(m.nodes[id]) == id;
        assert id in r.value.nodes && NodeSource(r.value.nodes[id]) == key;
      }
    }
  }

  // ---- Runs ----

  lemma StepKeepsScene(m: Media, step: Step)
    requires SceneValid(m) && Possible(m, step)
    ensures SceneValid(Next(m, step).media)
  {
    hide SceneValid, SceneKept, Ingest, CreateSource, RemoveSource, CleanupProducer, RevokePane, ClearAnchors, Commit,
      RequestKeyframes, TakeDeliveries, SendFailed, CompleteDelivery, Project, Deactivate, Flush, EndOfStream, SetPlaying, OrSame;
    match step
    case Registered(producer, _) => ProducersKeepScene(m, Next(m, step).media);
    case AnchorSeen(producer, id, _) => ProducersKeepScene(m, Next(m, step).media);
    case SourceCreated(key, kind, maximum, posterDenied) => CreateKeepsScene(m, key, kind, maximum, posterDenied);
    case RecordIngested(key, record) => IngestKeepsScene(m, key, record);
    case KeyframesRequested(requests) =>
      RequestsKeepScene(m, requests);
      KeptIsValid(m, Next(m, step).media);
    case Committed(_, _, _) => CommitKeepsScene(m, step);
    case SourceDestroyed(key) => RemoveKeepsScene(m, key);
    case Disconnected(producer) => CleanupKeepsScene(m, producer, true);
    case AnchorsCleared(pane) => ClearAnchorsKeepsScene(m, pane);
    case PaneRevoked(pane, producers) => RevokeKeepsScene(m, pane, producers);
    case Flushed(_, _) => PlaybackKeepsScene(m, step); KeptIsValid(m, Next(m, step).media);
    case StreamEnded(_) => PlaybackKeepsScene(m, step); KeptIsValid(m, Next(m, step).media);
    case PlaybackSet(_, _) => PlaybackKeepsScene(m, step); KeptIsValid(m, Next(m, step).media);
    case _ =>
      DeliveryStepsKeepScene(m, step);
      KeptIsValid(m, Next(m, step).media);
  }

  /** In every reachable state the scene is valid, whatever the threads do. */
  lemma {:induction false} SceneStaysValid(config: Config, attached: bool, steps: seq<Step>)
    requires PossibleRun(Initially(config, attached), steps)
    ensures SceneValid(Run(Initially(config, attached), steps))
  {
    hide Next, Possible, SceneValid;
    var m := Initially(config, attached);
    if steps == [] {
      assert SceneValid(m) by { EmptySceneIsValid(config, attached); }
    } else {
      var n := |steps| - 1;
      SceneStaysValid(config, attached, steps[..n]);
      StepKeepsScene(Run(m, steps[..n]), steps[n]);
    }
  }

  lemma EmptySceneIsValid(config: Config, attached: bool)
    ensures SceneValid(Initially(config, attached))
  {
    SumEmpty<Key>();
    assert RetainedSizes(map[]) == map[];
  }
}
