/** What each critical section changes of producers, sources, nodes and visibility, and that it changes nothing else
    (src/media.rs:445-469, 582-716, 875-891, 1699-1726, 3028-3055, 3274-3345, 4243-4318). */
module MediaFrame {
  import opened Wrappers
  import opened FixedWidth
  import opened MapSums
  import opened MediaCredit
  import opened MediaState
  import opened MediaScene
  import opened MediaLedger
  import opened MediaRecovery
  import opened MediaSync
  import opened MediaCommits

  // ---- Sources that live through a step ----

  /** What a playback request, a flush or the end of a stream sets; credit and synchronization have laws of their own. */
  function Set(source: Source, step: Step, key: Key): Source {
    match step
    case Flushed(k, epoch) => if k == key then source.(epoch := 0, minimumEpoch := epoch, ended := false) else source
    case StreamEnded(k) =>
      if k != key then source
      else source.(ended := true, retained := if IsStatic(source.kind) then source.retained else None,
                   retainedBytes := if IsStatic(source.kind) then source.retainedBytes else 0)
    case PlaybackSet(k, playing) => if k == key && !IsStatic(source.kind) then source.(playing := playing) else source
    case _ => source
  }

  /** A source that lives through a step other than an ingest keeps everything but its credit, its synchronization and what
      the step sets; keyframe requests also move its minimum epoch and pending reason. */
  lemma FieldsExactly(m: Media, step: Step, key: Key)
    requires !step.RecordIngested? && key in m.sources && key in Next(m, step).media.sources
    ensures FieldsAre(m, Next(m, step).media, step, key)
  {
    hide Next, FieldsAre;
    if step.HandoverFailed? || step.DeliveryCompleted? || step.DeliveriesCancelled? || step.Projected? || step.Deactivated? {
      DeliveryFields(m, step, key);
    } else if step.KeyframesRequested? {
      RequestedFields(m, step, key);
    } else if step.Flushed? || step.StreamEnded? || step.PlaybackSet? || step.SourceCreated? {
      PlaybackFields(m, step, key);
    } else {
      SceneFields(m, step, key);
    }
  }

  ghost predicate FieldsAre(m: Media, after: Media, step: Step, key: Key) {
    key in m.sources && key in after.sources ==>
      var before, now := Set(m.sources[key], step, key), after.sources[key];
      now == before.(credit := now.credit, desynchronized := now.desynchronized,
                     minimumEpoch := if step.KeyframesRequested? then now.minimumEpoch else before.minimumEpoch,
                     pendingReason := if step.KeyframesRequested? then now.pendingReason else before.pendingReason)
  }

  lemma DeliveryFields(m: Media, step: Step, key: Key)
    requires step.HandoverFailed? || step.DeliveryCompleted? || step.DeliveriesCancelled? || step.Projected? || step.Deactivated?
    ensures FieldsAre(m, Next(m, step).media, step, key)
  {
    hide TakeDelivery, TakeDeliveries, CompleteDelivery, Deactivate;
    match step
    case HandoverFailed(_, delivery) => TakeTouchesCredit(m, delivery);
    case DeliveryCompleted(delivery, delivered) =>
      if delivery in m.deliveries { CompletedExactly(m, delivery, delivered); } else { UnknownDelivery(m, delivery, delivered); }
    case DeliveriesCancelled(_, deliveries) => TakeAllTouchesCredit(m, deliveries);
    case Projected(visible, _, hidden) => TakeAllTouchesCredit(m.(projected := visible), hidden);
    case Deactivated(deliveries) => DeactivatedFields(m, deliveries);
  }

  lemma RequestedFields(m: Media, step: Step, key: Key)
    requires step.KeyframesRequested?
    ensures FieldsAre(m, Next(m, step).media, step, key)
  {
    hide RequestKeyframes;
    if key in m.sources {
      RequestsTouch(m, step.requests, key);
    }
  }

  lemma PlaybackFields(m: Media, step: Step, key: Key)
    requires step.Flushed? || step.StreamEnded? || step.PlaybackSet? || step.SourceCreated?
    ensures FieldsAre(m, Next(m, step).media, step, key)
  {
    hide Flush, EndOfStream, SetPlaying, CreateSource, OrSame;
    match step
    case Flushed(k, epoch) => PlaybackResult(m, k, epoch, false);
    case StreamEnded(k) => PlaybackResult(m, k, 0, false);
    case PlaybackSet(k, playing) => PlaybackResult(m, k, 0, playing);
    case SourceCreated(k, kind, maximum, posterDenied) =>
      if key in m.sources { CreatedAlone(m, k, kind, maximum, posterDenied, key); }
  }

  lemma PlaybackResult(m: Media, k: Key, epoch: nat, playing: bool)
    ensures k !in m.sources ==> Flush(m, k, epoch) == EndOfStream(m, k) == SetPlaying(m, k, playing) == m
    ensures k in m.sources ==>
      Flush(m, k, epoch).sources
      == m.sources[k := m.sources[k].(epoch := 0, minimumEpoch := epoch, ended := false, desynchronized := true)]
    ensures k in m.sources ==>
      EndOfStream(m, k).sources
      == m.sources[k := if IsStatic(m.sources[k].kind) then m.sources[k].(ended := true)
                        else m.sources[k].(ended := true, retained := None, retainedBytes := 0)]
    ensures k in m.sources ==>
      SetPlaying(m, k, playing).sources
      == if IsStatic(m.sources[k].kind) then m.sources else m.sources[k := m.sources[k].(playing := playing)]
  {
  }

  lemma CreatedAlone(m: Media, k: Key, kind: Kind, maximum: nat, posterDenied: bool, key: Key)
    requires key in m.sources
    ensures
      var after := OrSame(m, CreateSource(m, k, kind, maximum, posterDenied));
      key in after.sources && after.sources[key] == m.sources[key]
  {
  }

  lemma SceneFields(m: Media, step: Step, key: Key)
    requires step.Registered? || step.Committed? || step.SourceDestroyed? || step.Disconnected? || step.AnchorSeen?
             || step.AnchorsCleared? || step.PaneRevoked?
    ensures FieldsAre(m, Next(m, step).media, step, key)
  {
    hide Commit, Prune, CleanupProducer, CleanupProducers;
    match step
    case Committed(producer, mutations, structureValid) => CommitKeepsSources(m, producer, mutations, structureValid);
    case Disconnected(producer) => CleanupTouchesNothing(m, producer, true);
    case AnchorsCleared(pane) => PruneTouchesNothing(ClearedAnchors(m, pane));
    case PaneRevoked(pane, producers) =>
      CleanupsTouchNothing(m, producers);
      PruneTouchesNothing(WithoutPane(CleanupProducers(m, producers), pane));
    case _ =>
  }

  lemma DeactivatedFields(m: Media, deliveries: seq<nat>)
    ensures
      var after := Deactivate(m, deliveries).media;
      && after.sources.Keys <= m.sources.Keys
      && forall key :: key in after.sources ==>
           after.sources[key] == m.sources[key].(credit := after.sources[key].credit,
                                                 desynchronized := after.sources[key].desynchronized)
  {
    hide TakeDeliveries;
    var sources :=
      map source | source in m.sources ::
        if m.sources[source].kind.Video? && m.sources[source].playing then m.sources[source].(desynchronized := true)
        else m.sources[source];
    TakeAllTouchesCredit(m.(projected := {}, sources := sources), deliveries);
  }

  lemma {:induction false} RequestsTouch(m: Media, requests: seq<Request>, key: Key)
    requires key in m.sources
    ensures
      var after := RequestKeyframes(m, requests);
      && key in after.sources
      && var source := after.sources[key];
         source == m.sources[key].(minimumEpoch := source.minimumEpoch, pendingReason := source.pendingReason,
                                   desynchronized := source.desynchronized)
  {
    hide AnswerRequest;
    if requests != [] {
      RequestsTouch(m, requests[..|requests| - 1], key);
    }
  }

  // ---- Producers and visibility ----

  /** Producers connect without anchors, see them, lose them when their pane is cleared, and go. */
  lemma ProducersExactly(m: Media, step: Step, id: nat)
    ensures
      var before, after := m.producers, Next(m, step).media.producers;
      match step
      case Registered(producer, pane) => after == before[producer := Producer(pane, map[])]
      case Disconnected(producer) => after == before - {producer}
      case PaneRevoked(_, producers) => (id in after <==> id in before && id !in producers) && (id in after ==> after[id] == before[id])
      case AnchorSeen(producer, anchorId, anchor) =>
        if producer in before then
          after == before[producer := before[producer].(anchors := before[producer].anchors[anchorId := anchor])]
        else after == before
      case AnchorsCleared(pane) =>
        && (id in after <==> id in before)
        && (id in after ==> after[id] == if before[id].pane == pane then Producer(pane, map[]) else before[id])
      case _ => after == before
  {
    hide TakeDelivery, TakeDeliveries, RequestKeyframes, CleanupProducers, Ingest, Prune, CleanupProducer;
    match step
    case Disconnected(producer) => CleanupDropsProducer(m, producer, true);
    case PaneRevoked(pane, producers) =>
      CleanupsDropProducers(m, producers, id);
      PruneKeepsOthers(WithoutPane(CleanupProducers(m, producers), pane));
    case AnchorsCleared(pane) => PruneKeepsOthers(ClearedAnchors(m, pane));
    case Committed(producer, mutations, structureValid) => CommitKeepsPlaces(m, producer, mutations, structureValid);
    case SourceDestroyed(key) => RemoveKeepsPlaces(m, key);
    case Registered(_, _) =>
    case AnchorSeen(_, _, _) =>
    case _ => OtherStepsKeepPlaces(m, step);
  }

  lemma CommitKeepsPlaces(m: Media, producer: nat, mutations: seq<Mutation>, structureValid: bool)
    ensures
      var after := OrSame(m, Commit(m, producer, mutations, structureValid));
      SamePlaces(m, after.(nodes := m.nodes)) && after.sources == m.sources
  {
    hide MutateAll;
  }

  lemma RemoveKeepsPlaces(m: Media, key: Key)
    ensures SamePlaces(m, OrSame(m, RemoveSource(m, key)).(nodes := m.nodes))
  {
  }

  lemma PruneKeepsOthers(m: Media)
    ensures Prune(m) == m.(sources := Prune(m).sources, retainedBytes := Prune(m).retainedBytes)
  {
  }

  lemma CleanupDropsProducer(m: Media, producer: nat, preserve: bool)
    ensures CleanupProducer(m, producer, preserve).producers == m.producers - {producer}
    ensures CleanupProducer(m, producer, preserve).projected == m.projected
    ensures CleanupProducer(m, producer, preserve).activePanes == m.activePanes
  {
    hide Prune;
    if producer in m.producers {
      PruneKeepsOthers(Detached(m, producer, preserve));
    }
  }

  lemma {:induction false} CleanupsDropProducers(m: Media, producers: seq<nat>, id: nat)
    ensures
      var after := CleanupProducers(m, producers);
      && (id in after.producers <==> id in m.producers && id !in producers)
      && (id in after.producers ==> after.producers[id] == m.producers[id])
      && after.projected == m.projected && after.activePanes == m.activePanes
  {
    hide CleanupProducer;
    if producers != [] {
      var n := |producers| - 1;
      CleanupsDropProducers(m, producers[..n], id);
      CleanupDropsProducer(CleanupProducers(m, producers[..n]), producers[n], false);
      assert producers == producers[..n] + [producers[n]];
    }
  }

  /** Sources become visible when they are created in an active pane, and otherwise only by a projection; visibility and the
      active panes change in no other step. */
  lemma VisibilityExactly(m: Media, step: Step)
    ensures
      var after := Next(m, step).media;
      && after.config == m.config && after.attached == m.attached
      && after.activePanes == (if step.Projected? then step.panes else m.activePanes)
      && after.projected
         == match step
            case Projected(visible, _, _) => visible
            case Deactivated(_) => {}
            case SourceCreated(key, kind, maximum, posterDenied) =>
              if CreateSource(m, key, kind, maximum, posterDenied).Ok? && m.attached && key.producer in m.producers
                 && m.producers[key.producer].pane in m.activePanes then m.projected + {key} else m.projected
            case _ => m.projected
  {
    hide TakeDelivery, TakeDeliveries, RequestKeyframes, CleanupProducers, Ingest, Prune, CleanupProducer;
    match step
    case Disconnected(producer) => CleanupKeepsPlaces(m, producer, true);
    case PaneRevoked(pane, producers) =>
      CleanupsKeepPlaces(m, producers);
      PruneKeepsOthers(WithoutPane(CleanupProducers(m, producers), pane));
    case AnchorsCleared(pane) => PruneKeepsOthers(ClearedAnchors(m, pane));
    case Committed(producer, mutations, structureValid) => CommitKeepsPlaces(m, producer, mutations, structureValid);
    case SourceDestroyed(key) => RemoveKeepsPlaces(m, key);
    case Registered(_, _) =>
    case AnchorSeen(_, _, _) =>
    case _ => OtherStepsKeepPlaces(m, step);
  }

  /** Everything but sources, deliveries and their counters. */
  predicate SamePlaces(m: Media, after: Media) {
    && after.config == m.config && after.attached == m.attached && after.producers == m.producers && after.nodes == m.nodes
    && after.projected == m.projected && after.activePanes == m.activePanes
  }

  lemma CleanupKeepsPlaces(m: Media, producer: nat, preserve: bool)
    ensures
      var after := CleanupProducer(m, producer, preserve);
      && after.config == m.config && after.attached == m.attached
      && after.projected == m.projected && after.activePanes == m.activePanes
  {
    hide Prune;
    if producer in m.producers {
      PruneKeepsOthers(Detached(m, producer, preserve));
    }
  }

  lemma {:induction false} CleanupsKeepPlaces(m: Media, producers: seq<nat>)
    ensures
      var after := CleanupProducers(m, producers);
      && after.config == m.config && after.attached == m.attached
      && after.projected == m.projected && after.activePanes == m.activePanes
  {
    hide CleanupProducer;
    if producers != [] {
      var n := |producers| - 1;
      CleanupsKeepPlaces(m, producers[..n]);
      CleanupKeepsPlaces(CleanupProducers(m, producers[..n]), producers[n], false);
    }
  }

  lemma TakeKeepsPlaces(m: Media, id: nat)
    ensures SamePlaces(m, TakeDelivery(m, id).media)
  {
    hide Return, SaturatingSub;
  }

  lemma {:induction false} TakeAllKeepsPlaces(m: Media, ids: seq<nat>)
    ensures SamePlaces(m, TakeDeliveries(m, ids).media)
  {
    hide TakeDelivery;
    if ids != [] {
      var n := |ids| - 1;
      TakeAllKeepsPlaces(m, ids[..n]);
      TakeKeepsPlaces(TakeDeliveries(m, ids[..n]).media, ids[n]);
    }
  }

  lemma {:induction false} RequestsKeepPlaces(m: Media, requests: seq<Request>)
    ensures SamePlaces(m, RequestKeyframes(m, requests))
  {
    hide AnswerRequest;
    if requests != [] {
      RequestsKeepPlaces(m, requests[..|requests| - 1]);
    }
  }

  lemma ReturnKeepsPlaces(m: Media, key: Key, bytes: nat, packets: nat)
    ensures SamePlaces(m, ReturnCredit(m, key, bytes, packets).media)
  {
    hide Return;
  }

  lemma DispatchKeepsPlaces(m: Media, key: Key, record: Record)
    requires key in m.sources
    ensures SamePlaces(m, Dispatch(m, key, record).media)
  {
    hide ReturnCredit, ForwardTimed, QueueAdmits, ForwardedBytes, SaturatingAdd;
    ReturnKeepsPlaces(m, key, record.bytes, 1);
    ReturnKeepsPlaces(WithSource(m, key, m.sources[key].(desynchronized := true)), key, record.bytes, 1);
  }

  lemma StoreKeepsPlaces(m: Media, key: Key, decoded: Source, record: Record)
    requires key in m.sources
    ensures key in Store(m, key, decoded, record).sources && SamePlaces(m, Store(m, key, decoded, record))
    ensures SamePlaces(m, WithSource(m, key, decoded))
  {
  }

  lemma ChargedKeepsPlaces(m: Media, key: Key, record: Record)
    requires key in m.sources
    ensures SamePlaces(m, IngestCharged(m, key, record).media)
  {
    hide ReturnCredit, Dispatch, Decoded, Store, RetainedTotal, PayloadMatches, WithSource;
    ReturnKeepsPlaces(m, key, record.bytes, 1);
    if PayloadMatches(m.sources[key].kind, record.payload)
       && Decoded(m.sources[key], record.payload, key in m.projected).Ok? {
      var decoded := Decoded(m.sources[key], record.payload, key in m.projected).value;
      StoreKeepsPlaces(m, key, decoded, record);
      DispatchKeepsPlaces(Store(m, key, decoded, record), key, record);
    }
  }

  lemma IngestKeepsPlaces(m: Media, key: Key, record: Record)
    ensures SamePlaces(m, Ingest(m, key, record).media)
  {
    hide Consume, IngestCharged;
    if key in m.sources {
      ChargedKeepsPlaces(Charged(m, key, record.bytes), key, record);
    }
  }

  lemma DeliveryStepsKeepPlaces(m: Media, step: Step)
    requires step.HandoverFailed? || step.DeliveryCompleted? || step.DeliveriesCancelled?
    ensures SamePlaces(m, Next(m, step).media)
  {
    hide TakeDelivery, TakeDeliveries;
    match step
    case HandoverFailed(_, delivery) => TakeKeepsPlaces(m, delivery);
    case DeliveryCompleted(delivery, _) =>
      if delivery in m.deliveries {
        TakeKeepsPlaces(m, delivery);
        TakeKeepsPlaces(Desynchronize(m, m.deliveries[delivery].source), delivery);
      }
    case DeliveriesCancelled(_, deliveries) => TakeAllKeepsPlaces(m, deliveries);
  }

  lemma HidingKeepsPlaces(m: Media, step: Step)
    requires step.Projected? || step.Deactivated?
    ensures
      var after := Next(m, step).media;
      && SamePlaces(m, after.(projected := m.projected, activePanes := m.activePanes))
      && after.projected == (if step.Projected? then step.visible else {})
      && after.activePanes == (if step.Projected? then step.panes else m.activePanes)
  {
    hide TakeDeliveries;
    match step
    case Projected(visible, _, hidden) => TakeAllKeepsPlaces(m.(projected := visible), hidden);
    case Deactivated(deliveries) =>
      var sources :=
        map source | source in m.sources ::
          if m.sources[source].kind.Video? && m.sources[source].playing then m.sources[source].(desynchronized := true)
          else m.sources[source];
      TakeAllKeepsPlaces(m.(projected := {}, sources := sources), deliveries);
  }

  lemma PlaybackKeepsPlaces(m: Media, step: Step)
    requires step.Flushed? || step.StreamEnded? || step.PlaybackSet? || step.SourceCreated?
    ensures SamePlaces(m, Next(m, step).media.(projected := m.projected))
    ensures !step.SourceCreated? ==> Next(m, step).media.projected == m.projected
  {
  }

  /** The steps that leave all of these alone, but for visibility. */
  lemma OtherStepsKeepPlaces(m: Media, step: Step)
    requires !step.Registered? && !step.Committed? && !step.SourceDestroyed? && !step.Disconnected? && !step.AnchorSeen?
             && !step.AnchorsCleared? && !step.PaneRevoked?
    ensures
      var after := Next(m, step).media;
      SamePlaces(m, after.(projected := m.projected, activePanes := m.activePanes))
      && (!step.Projected? && !step.Deactivated? && !step.SourceCreated? ==> SamePlaces(m, after))
      && (step.Projected? ==> after.projected == step.visible && after.activePanes == step.panes)
      && (step.Deactivated? ==> after.projected == {} && after.activePanes == m.activePanes)
      && (step.SourceCreated? ==> after.activePanes == m.activePanes)
  {
    if step.RecordIngested? {
      hide Ingest;
      IngestKeepsPlaces(m, step.key, step.record);
    } else if step.KeyframesRequested? {
      hide RequestKeyframes;
      RequestsKeepPlaces(m, step.requests);
    } else {
      hide Next;
      if step.Projected? || step.Deactivated? {
        HidingKeepsPlaces(m, step);
      } else if step.Flushed? || step.StreamEnded? || step.PlaybackSet? || step.SourceCreated? {
        PlaybackKeepsPlaces(m, step);
      } else {
        DeliveryStepsKeepPlaces(m, step);
      }
    }
  }

  // ---- Sources and nodes come and go ----

  /** A source is created exactly when there is a place for it, one legal record of it fits the retained bytes, and its id is
      not taken. It starts with one packet and a whole window of credit, stopped, synchronized and empty. */
  lemma CreationExactly(m: Media, key: Key, kind: Kind, maximum: nat, posterDenied: bool)
    ensures
      var r := CreateSource(m, key, kind, maximum, posterDenied);
      && (r.Ok? <==> |m.sources| < m.config.maxSources && maximum <= m.config.retainedLimit && key !in m.sources)
      && (r.Ok? ==>
            && r.value.sources == m.sources[key := r.value.sources[key]]
            && r.value == m.(sources := r.value.sources, projected := r.value.projected)
            && var source := r.value.sources[key];
               && source.kind == kind && source.posterDenied == posterDenied
               && source.credit == Credit(maximum, 8, maximum, 1, 0, 0)
               && source.retained.None? && source.retainedBytes == 0 && source.pendingReason.None?
               && !source.playing && !source.ended && !source.desynchronized && source.epoch == 0 == source.minimumEpoch)
  {
  }

  /** A node is shown by a live source of its own producer or not at all. */
  ghost predicate IsShown(m: Media, key: Key) {
    exists id :: id in m.nodes && Key(m.nodes[id].producer, m.nodes[id].source) == key
  }

  /** Which nodes are left by the steps that take some away; none is changed. (Transactions and disconnects: `CommitExactly`
      and `CleanupExactly`.) */
  lemma NodesExactly(m: Media, step: Step, id: Key)
    requires !step.Committed? && !step.Disconnected?
    ensures
      var after := Next(m, step).media.nodes;
      && (id in after ==> id in m.nodes && after[id] == m.nodes[id])
      && (id in m.nodes && id !in after <==>
            && id in m.nodes
            && var node := m.nodes[id];
               match step
               case SourceDestroyed(key) => key in m.sources && Key(node.producer, node.source) == key
               case AnchorsCleared(pane) => node.pane == pane && node.retainedAnchor.Some?
               case PaneRevoked(pane, producers) => node.pane == pane || (node.producer in producers && node.producer in m.producers)
               case _ => false)
  {
    hide TakeDelivery, TakeDeliveries, RequestKeyframes, CleanupProducers, Ingest, Prune, CleanupProducer;
    match step
    case PaneRevoked(pane, producers) =>
      CleanupsDropNodes(m, producers, id);
      PruneKeepsOthers(WithoutPane(CleanupProducers(m, producers), pane));
    case AnchorsCleared(pane) => PruneKeepsOthers(ClearedAnchors(m, pane));
    case SourceDestroyed(_) =>
    case Registered(_, _) =>
    case AnchorSeen(_, _, _) =>
    case _ => OtherStepsKeepPlaces(m, step);
  }

  lemma CleanupDropsNodes(m: Media, producer: nat, id: Key)
    ensures
      var after := CleanupProducer(m, producer, false);
      && (id in after.nodes <==> id in m.nodes && !(m.nodes[id].producer == producer && producer in m.producers))
      && (id in after.nodes ==> after.nodes[id] == m.nodes[id])
  {
    hide Prune;
    if producer in m.producers {
      PruneKeepsOthers(Detached(m, producer, false));
    }
  }

  lemma {:induction false} CleanupsDropNodes(m: Media, producers: seq<nat>, id: Key)
    ensures
      var after := CleanupProducers(m, producers);
      && (id in after.nodes <==> id in m.nodes && !(m.nodes[id].producer in producers && m.nodes[id].producer in m.producers))
      && (id in after.nodes ==> after.nodes[id] == m.nodes[id])
  {
    hide CleanupProducer;
    if producers != [] {
      var n := |producers| - 1;
      CleanupsDropNodes(m, producers[..n], id);
      CleanupDropsNodes(CleanupProducers(m, producers[..n]), producers[n], id);
      if id in m.nodes {
        CleanupsDropProducers(m, producers[..n], m.nodes[id].producer);
      }
      CleanupsDropProducers(m, producers[..n], producers[n]);
      assert producers == producers[..n] + [producers[n]];
    }
  }

  /** Which sources there are after a step: a creation adds one, a destruction takes one, and when producers or nodes go, exactly
      the sources stay that a connected producer or a node still keeps alive. */
  lemma SourcesExactly(m: Media, step: Step, key: Key)
    requires SceneValid(m)
    ensures
      var after := Next(m, step).media;
      key in after.sources <==>
        match step
        case SourceCreated(k, kind, maximum, posterDenied) =>
          key in m.sources || (key == k && CreateSource(m, k, kind, maximum, posterDenied).Ok?)
        case SourceDestroyed(k) => key in m.sources && key != k
        case Disconnected(_) => key in m.sources && (key.producer in after.producers || IsShown(after, key))
        case AnchorsCleared(_) => key in m.sources && (key.producer in after.producers || IsShown(after, key))
        case PaneRevoked(_, _) => key in m.sources && (key.producer in after.producers || IsShown(after, key))
        case _ => key in m.sources
  {
    hide TakeDelivery, TakeDeliveries, RequestKeyframes, CleanupProducers, Ingest, Prune, CleanupProducer, Accounted, RevokePane,
      IsShown, SetPlaying, Flush, EndOfStream, SendFailed, CompleteDelivery, Deactivate, Project, Commit;
    match step
    case Disconnected(producer) => CleanupKeepsAlive(m, producer, true, key);
    case AnchorsCleared(pane) =>
      PruneKeepsAlive(ClearedAnchors(m, pane), key);
      PruneKeepsOthers(ClearedAnchors(m, pane));
    case PaneRevoked(pane, producers) => RevokeKeepsAlive(m, pane, producers, key);
    case Registered(_, _) =>
    case AnchorSeen(_, _, _) =>
    case SourceCreated(_, _, _, _) =>
    case SourceDestroyed(_) =>
    case Committed(producer, mutations, structureValid) => CommitKeepsSources(m, producer, mutations, structureValid);
    case RecordIngested(k, record) => IngestKeepsKeys(m, k, record);
    case KeyframesRequested(requests) => RequestsKeepScene(m, requests);
    case Flushed(_, _) => PlaybackKeepsScene(m, step);
    case StreamEnded(_) => PlaybackKeepsScene(m, step);
    case PlaybackSet(_, _) => PlaybackKeepsScene(m, step);
    case _ => DeliveryStepsKeepScene(m, step);
  }

  lemma RevokeKeepsAlive(m: Media, pane: nat, producers: seq<nat>, key: Key)
    requires SceneValid(m)
    ensures
      var after := RevokePane(m, pane, producers);
      key in after.sources <==> key in m.sources && (key.producer in after.producers || IsShown(after, key))
  {
    hide CleanupProducers, Prune, SceneValid;
    CleanupsKeepAlive(m, producers, key);
    var cleaned := CleanupProducers(m, producers);
    var cleared := WithoutPane(cleaned, pane);
    if IsShown(cleared, key) {
      var id :| id in cleared.nodes && Key(cleared.nodes[id].producer, cleared.nodes[id].source) == key;
      assert id in cleaned.nodes && Key(cleaned.nodes[id].producer, cleaned.nodes[id].source) == key;
    }
    PruneKeepsAlive(cleared, key);
    PruneKeepsOthers(cleared);
  }

  lemma IngestKeepsKeys(m: Media, key: Key, record: Record)
    ensures Ingest(m, key, record).media.sources.Keys == m.sources.Keys
  {
    hide IngestCharged, Consume;
    if key in m.sources {
      var charged := Charged(m, key, record.bytes);
      ChargedKeepsKeys(charged, key, record);
      assert charged.sources.Keys == m.sources.Keys;
    }
  }

  lemma ChargedKeepsKeys(m: Media, key: Key, record: Record)
    requires key in m.sources
    ensures IngestCharged(m, key, record).media.sources.Keys == m.sources.Keys
  {
    hide ReturnCredit, Decoded, Store, RetainedTotal, PayloadMatches, Dispatch;
    ReturnKeepsLoss(m, key, record.bytes, 1, key);
    if PayloadMatches(m.sources[key].kind, record.payload)
       && Decoded(m.sources[key], record.payload, key in m.projected).Ok? {
      var decoded := Decoded(m.sources[key], record.payload, key in m.projected).value;
      StoreKeepsKeys(m, key, decoded, record);
      DispatchOutcome(Store(m, key, decoded, record), key, record, key);
    }
  }

  lemma StoreKeepsKeys(m: Media, key: Key, decoded: Source, record: Record)
    requires key in m.sources
    ensures Store(m, key, decoded, record).sources.Keys == m.sources.Keys
  {
  }

  lemma PruneKeepsAlive(m: Media, key: Key)
    ensures key in Prune(m).sources <==> key in m.sources && (key.producer in m.producers || IsShown(m, key))
    ensures IsShown(Prune(m), key) == IsShown(m, key)
  {
    assert IsReferenced(m.nodes, key) == IsShown(m, key);
    assert Prune(m).nodes == m.nodes;
  }

  lemma CleanupKeepsAlive(m: Media, producer: nat, preserve: bool, key: Key)
    requires AllAlive(m)
    ensures
      var after := CleanupProducer(m, producer, preserve);
      key in after.sources <==> key in m.sources && (key.producer in after.producers || IsShown(after, key))
  {
    hide Survives, Anchored, Prune;
    if producer in m.producers {
      var detached := Detached(m, producer, preserve);
      PruneKeepsAlive(detached, key);
      PruneKeepsOthers(detached);
    } else {
      assert key in m.sources ==> key.producer in m.producers || IsReferenced(m.nodes, key);
      assert IsReferenced(m.nodes, key) == IsShown(m, key);
    }
  }

  lemma {:induction false} CleanupsKeepAlive(m: Media, producers: seq<nat>, key: Key)
    requires SceneValid(m)
    ensures
      var after := CleanupProducers(m, producers);
      key in after.sources <==> key in m.sources && (key.producer in after.producers || IsShown(after, key))
  {
    hide CleanupProducer, Accounted, IsShown;
    if producers == [] {
      assert key in m.sources ==> key.producer in m.producers || IsReferenced(m.nodes, key);
      assert IsReferenced(m.nodes, key) == IsShown(m, key) by { ShownIsReferenced(m, key); }
    } else {
      var n := |producers| - 1;
      var before, after := CleanupProducers(m, producers[..n]), CleanupProducers(m, producers);
      CleanupsKeepAlive(m, producers[..n], key);
      CleanupsKeepScene(m, producers[..n]);
      CleanupKeepsAlive(before, producers[n], false, key);
      StillShown(before, producers[n], key);
    }
  }

  lemma ShownIsReferenced(m: Media, key: Key)
    ensures IsReferenced(m.nodes, key) == IsShown(m, key)
  {
  }

  /** What is alive after a producer is gone was alive before. */
  lemma StillShown(m: Media, producer: nat, key: Key)
    ensures
      var after := CleanupProducer(m, producer, false);
      && (key.producer in after.producers ==> key.producer in m.producers)
      && (IsShown(after, key) ==> IsShown(m, key))
  {
    hide CleanupProducer;
    var after := CleanupProducer(m, producer, false);
    CleanupDropsProducer(m, producer, false);
    if IsShown(after, key) {
      var id :| id in after.nodes && Key(after.nodes[id].producer, after.nodes[id].source) == key;
      CleanupDropsNodes(m, producer, id);
      assert id in m.nodes && Key(m.nodes[id].producer, m.nodes[id].source) == key;
    }
  }

  // ---- The queue ----

  /** Deliveries leave the queue only in the steps that name them, and enter it only by an ingest. */
  lemma DeliveriesExactly(m: Media, step: Step)
    requires !step.RecordIngested?
    ensures
      Next(m, step).media.deliveries
      == match step
         case HandoverFailed(_, delivery) => m.deliveries - {delivery}
         case DeliveryCompleted(delivery, _) => m.deliveries - {delivery}
         case DeliveriesCancelled(_, ids) => m.deliveries - Listed(ids)
         case Projected(_, _, ids) => m.deliveries - Listed(ids)
         case Deactivated(ids) => m.deliveries - Listed(ids)
         case _ => m.deliveries
  {
    hide Next, Listed;
    match step
    case HandoverFailed(_, _) => TakenFromQueue(m, step);
    case DeliveryCompleted(_, _) => TakenFromQueue(m, step);
    case DeliveriesCancelled(_, ids) => ListedLeave(m, step);
    case Projected(visible, _, ids) => ListedLeave(m, step);
    case Deactivated(ids) => ListedLeave(m, step);
    case SourceCreated(_, _, _, _) => CreatedKeepsQueue(m, step);
    case _ => OtherStepsKeepQueue(m, step);
  }

  lemma CreatedKeepsQueue(m: Media, step: Step)
    requires step.SourceCreated?
    ensures Next(m, step).media.deliveries == m.deliveries
  {
  }

  lemma TakenFromQueue(m: Media, step: Step)
    requires step.HandoverFailed? || step.DeliveryCompleted?
    ensures Next(m, step).media.deliveries == m.deliveries - {step.delivery}
  {
    hide TakeDelivery;
    TakesDelivery(m, step.delivery);
    if step.DeliveryCompleted? {
      if step.delivery in m.deliveries {
        TakesDelivery(Desynchronize(m, m.deliveries[step.delivery].source), step.delivery);
      } else {
        assert m.deliveries - {step.delivery} == m.deliveries;
      }
    }
  }

  lemma ListedLeave(m: Media, step: Step)
    requires step.DeliveriesCancelled? || step.Projected? || step.Deactivated?
    ensures
      Next(m, step).media.deliveries == m.deliveries - Listed(if step.Projected? then step.hidden else step.deliveries)
  {
    hide TakeDeliveries, Listed;
    match step
    case DeliveriesCancelled(_, ids) => TakesListed(m, ids);
    case Projected(visible, _, ids) => TakesListed(m.(projected := visible), ids);
    case Deactivated(ids) =>
      var sources :=
        map source | source in m.sources ::
          if m.sources[source].kind.Video? && m.sources[source].playing then m.sources[source].(desynchronized := true)
          else m.sources[source];
      TakesListed(m.(projected := {}, sources := sources), ids);
  }

  function Listed(ids: seq<nat>): set<nat> {
    set id | id in ids
  }

  lemma TakesDelivery(m: Media, id: nat)
    ensures TakeDelivery(m, id).media.deliveries == m.deliveries - {id}
  {
    hide Return, SaturatingSub;
  }

  lemma {:induction false} TakesListed(m: Media, ids: seq<nat>)
    ensures TakeDeliveries(m, ids).media.deliveries == m.deliveries - Listed(ids)
  {
    hide TakeDelivery;
    if ids == [] {
      assert m.deliveries - {} == m.deliveries;
    } else {
      var n := |ids| - 1;
      TakesListed(m, ids[..n]);
      TakesDelivery(TakeDeliveries(m, ids[..n]).media, ids[n]);
      assert Listed(ids) == Listed(ids[..n]) + {ids[n]} by { assert ids == ids[..n] + [ids[n]]; }
    }
  }
}
