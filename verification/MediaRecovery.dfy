/** Recovery of a video source after a loss, and the damping of keyframe requests (src/media.rs:893-949,
    1027-1121, 3892-3969, 4024-4111). A packet is forwarded in the step that queues its delivery. */
module MediaRecovery {
  import opened Wrappers
  import opened FixedWidth
  import opened MediaCredit
  import opened MediaState
  import opened MediaScene

  // ---- A loss stays until a keyframe is forwarded ----

  predicate Desynchronized(m: Media, key: Key) {
    key in m.sources && m.sources[key].desynchronized
  }

  predicate IsVideo(m: Media, key: Key) {
    key in m.sources && m.sources[key].kind.Video?
  }

  /** The step queues a record of this source for the bridge. */
  predicate Forwards(m: Media, step: Step, key: Key) {
    step.RecordIngested? && step.key == key && Ingest(m, key, step.record).outcome.Queued?
  }

  /** A keyframe that satisfies the recovery demanded of its source. */
  predicate IsRecoveryPoint(m: Media, step: Step, key: Key)
    requires key in m.sources
  {
    && step.RecordIngested? && step.record.payload.VideoPacket? && step.record.payload.key
    && step.record.payload.epoch >= m.sources[key].minimumEpoch
  }

  /** A source that lives on keeps its kind and its loss, and delivery ids only grow. */
  predicate KeepsLoss(before: Media, after: Media, key: Key) {
    && before.nextDeliveryId <= after.nextDeliveryId
    && (key in before.sources && key in after.sources ==>
          && after.sources[key].kind == before.sources[key].kind
          && (before.sources[key].desynchronized ==> after.sources[key].desynchronized))
  }

  lemma ReturnKeepsLoss(m: Media, source: Key, bytes: nat, packets: nat, key: Key)
    ensures
      var after := ReturnCredit(m, source, bytes, packets).media;
      KeepsLoss(m, after, key) && after.sources.Keys == m.sources.Keys
  {
    hide Return;
  }

  lemma TakeKeepsLoss(m: Media, id: nat, key: Key)
    ensures
      var after := TakeDelivery(m, id).media;
      KeepsLoss(m, after, key) && after.sources.Keys == m.sources.Keys
  {
    hide ReturnCredit;
    if id in m.deliveries {
      var pending := m.deliveries[id];
      var taken := m.(deliveries := m.deliveries - {id}, queuedBytes := SaturatingSub(m.queuedBytes, pending.queuedBytes));
      ReturnKeepsLoss(taken, pending.source, pending.creditBytes, 1, key);
    }
  }

  lemma {:induction false} TakeAllKeepsLoss(m: Media, ids: seq<nat>, key: Key)
    ensures
      var after := TakeDeliveries(m, ids).media;
      KeepsLoss(m, after, key) && after.sources.Keys == m.sources.Keys
  {
    hide TakeDelivery;
    if ids != [] {
      var n := |ids| - 1;
      TakeAllKeepsLoss(m, ids[..n], key);
      TakeKeepsLoss(TakeDeliveries(m, ids[..n]).media, ids[n], key);
    }
  }

  lemma {:induction false} RequestsKeepLoss(m: Media, requests: seq<Request>, key: Key)
    ensures
      var after := RequestKeyframes(m, requests);
      KeepsLoss(m, after, key) && after.sources.Keys == m.sources.Keys
  {
    hide AnswerRequest;
    if requests != [] {
      var n := |requests| - 1;
      RequestsKeepLoss(m, requests[..n], key);
      RequestKeepsLoss(RequestKeyframes(m, requests[..n]), requests[n], key);
    }
  }

  lemma RequestKeepsLoss(m: Media, request: Request, key: Key)
    ensures
      var after := RequestKeyframe(m, request);
      KeepsLoss(m, after, key) && after.sources.Keys == m.sources.Keys
  {
  }

  lemma PruneKeepsLoss(m: Media, key: Key)
    ensures KeepsLoss(m, Prune(m), key) && Prune(m).sources.Keys <= m.sources.Keys
  {
  }

  lemma {:induction false} CleanupsKeepLoss(m: Media, producers: seq<nat>, key: Key)
    ensures KeepsLoss(m, CleanupProducers(m, producers), key)
    ensures CleanupProducers(m, producers).sources.Keys <= m.sources.Keys
  {
    hide Prune, Survives, Anchored;
    if producers != [] {
      var n := |producers| - 1;
      CleanupsKeepLoss(m, producers[..n], key);
      var between := CleanupProducers(m, producers[..n]);
      CleanupKeepsLoss(between, producers[n], false, key);
    }
  }

  lemma CleanupKeepsLoss(m: Media, producer: nat, preserve: bool, key: Key)
    ensures KeepsLoss(m, CleanupProducer(m, producer, preserve), key)
    ensures CleanupProducer(m, producer, preserve).sources.Keys <= m.sources.Keys
  {
    hide Survives, Anchored;
    if producer in m.producers {
      PruneKeepsLoss(Detached(m, producer, preserve), key);
    }
  }

  lemma CommitKeepsLoss(m: Media, producer: nat, mutations: seq<Mutation>, structureValid: bool, key: Key)
    ensures KeepsLoss(m, OrSame(m, Commit(m, producer, mutations, structureValid)), key)
  {
  }

  lemma CreateKeepsLoss(m: Media, step: Step, key: Key)
    requires step.SourceCreated?
    ensures KeepsLoss(m, Next(m, step).media, key)
  {
  }

  lemma PlaybackKeepsLoss(m: Media, step: Step, key: Key)
    requires step.Flushed? || step.StreamEnded? || step.PlaybackSet?
    ensures KeepsLoss(m, Next(m, step).media, key)
  {
  }

  lemma DeliveriesKeepLoss(m: Media, step: Step, key: Key)
    requires step.HandoverFailed? || step.DeliveryCompleted? || step.DeliveriesCancelled? || step.Projected? || step.Deactivated?
    ensures KeepsLoss(m, Next(m, step).media, key)
  {
    hide TakeDelivery, TakeDeliveries;
    match step
    case HandoverFailed(_, delivery) => TakeKeepsLoss(m, delivery, key);
    case DeliveryCompleted(delivery, _) =>
      if delivery in m.deliveries {
        TakeKeepsLoss(m, delivery, key);
        TakeKeepsLoss(Desynchronize(m, m.deliveries[delivery].source), delivery, key);
      }
    case DeliveriesCancelled(_, deliveries) => TakeAllKeepsLoss(m, deliveries, key);
    case Projected(visible, _, hidden) => TakeAllKeepsLoss(m.(projected := visible), hidden, key);
    case Deactivated(deliveries) =>
      var sources :=
        map source | source in m.sources ::
          if m.sources[source].kind.Video? && m.sources[source].playing then m.sources[source].(desynchronized := true)
          else m.sources[source];
      TakeAllKeepsLoss(m.(projected := {}, sources := sources), deliveries, key);
  }

  /** Every step but an ingest leaves a loss standing. */
  lemma OtherStepsKeepLoss(m: Media, step: Step, key: Key)
    requires !step.RecordIngested?
    ensures KeepsLoss(m, Next(m, step).media, key)
  {
    hide Next;
    match step
    case Registered(_, _) => SceneKeepsLoss(m, step, key);
    case SourceCreated(_, _, _, _) => CreateKeepsLoss(m, step, key);
    case KeyframesRequested(requests) => KeyframesKeepLoss(m, step, key);
    case Flushed(_, _) => PlaybackKeepsLoss(m, step, key);
    case StreamEnded(_) => PlaybackKeepsLoss(m, step, key);
    case PlaybackSet(_, _) => PlaybackKeepsLoss(m, step, key);
    case Committed(_, _, _) => SceneKeepsLoss(m, step, key);
    case SourceDestroyed(_) => SceneKeepsLoss(m, step, key);
    case Disconnected(_) => SceneKeepsLoss(m, step, key);
    case AnchorSeen(_, _, _) => SceneKeepsLoss(m, step, key);
    case AnchorsCleared(_) => SceneKeepsLoss(m, step, key);
    case PaneRevoked(_, _) => SceneKeepsLoss(m, step, key);
    case _ => DeliveriesKeepLoss(m, step, key);
  }

  lemma KeyframesKeepLoss(m: Media, step: Step, key: Key)
    requires step.KeyframesRequested?
    ensures KeepsLoss(m, Next(m, step).media, key)
  {
    hide RequestKeyframes;
    RequestsKeepLoss(m, step.requests, key);
  }

  lemma SceneKeepsLoss(m: Media, step: Step, key: Key)
    requires step.Registered? || step.Committed? || step.SourceDestroyed? || step.Disconnected? || step.AnchorSeen?
             || step.AnchorsCleared? || step.PaneRevoked?
    ensures KeepsLoss(m, Next(m, step).media, key)
  {
    hide Commit, Prune, CleanupProducer, CleanupProducers;
    match step
    case Committed(producer, mutations, structureValid) => CommitKeepsLoss(m, producer, mutations, structureValid, key);
    case Disconnected(producer) => CleanupKeepsLoss(m, producer, true, key);
    case AnchorsCleared(pane) => PruneKeepsLoss(ClearedAnchors(m, pane), key);
    case PaneRevoked(pane, producers) =>
      CleanupsKeepLoss(m, producers, key);
      PruneKeepsLoss(WithoutPane(CleanupProducers(m, producers), pane), key);
    case _ =>
  }

  // ---- What an ingest does ----

  lemma DispatchOutcome(m: Media, key: Key, record: Record, other: Key)
    requires key in m.sources
    ensures
      var r := Dispatch(m, key, record);
      && r.media.sources.Keys == m.sources.Keys && KeepsLoss(m, r.media, other)
      && (r.outcome.Queued? ==> ForwardTimed(m, key) && m.nextDeliveryId < U64_MAX)
      && (ForwardTimed(m, key) && m.sources[key].kind.Video? && !r.outcome.Queued? ==>
            Desynchronized(r.media, key) || m.nextDeliveryId >= U64_MAX)
  {
    hide ReturnCredit, QueueAdmits, ForwardedBytes, ForwardTimed;
    var lost := ForwardTimed(m, key) && m.sources[key].kind.Video?;
    var dropped := if lost then WithSource(m, key, m.sources[key].(desynchronized := true)) else m;
    ReturnKeepsLoss(dropped, key, record.bytes, 1, other);
    ReturnKeepsLoss(dropped, key, record.bytes, 1, key);
  }

  /** Nothing of this source goes out: it has lost synchronization, or there are no delivery ids left. */
  predicate Blocked(m: Media, key: Key) {
    key in m.sources ==> m.sources[key].desynchronized || m.nextDeliveryId >= U64_MAX
  }

  /** What charging and dispatching a record to `key` means for the loss of `key` and of `other`. */
  predicate HoldsLoss(m: Media, r: Ingested, key: Key, other: Key)
    requires key in m.sources
  {
    && (other != key ==> KeepsLoss(m, r.media, other))
    && m.nextDeliveryId <= r.media.nextDeliveryId
    && (key in r.media.sources ==> r.media.sources[key].kind == m.sources[key].kind)
    && (r.outcome.Queued? ==> m.nextDeliveryId < U64_MAX && LinkedVideoReady(m, key, m.sources[key].kind))
    && (!m.sources[key].kind.Video? && m.sources[key].desynchronized ==> Desynchronized(r.media, key) && !r.outcome.Queued?)
  }

  lemma DecodedHolds(source: Source, record: Record, projected: bool)
    requires PayloadMatches(source.kind, record.payload) && Decoded(source, record.payload, projected).Ok?
    ensures
      var decoded := Decoded(source, record.payload, projected).value;
      && decoded.kind == source.kind && Stored(decoded, record).kind == source.kind
      && Stored(decoded, record).desynchronized == decoded.desynchronized
      && (!source.kind.Video? ==> decoded.desynchronized == source.desynchronized)
  {
  }

  lemma DispatchStored(m: Media, key: Key, decoded: Source, record: Record, other: Key)
    requires key in m.sources
    requires decoded.kind == m.sources[key].kind == Stored(decoded, record).kind
    requires Stored(decoded, record).desynchronized == decoded.desynchronized
    requires !decoded.kind.Video? ==> decoded.desynchronized == m.sources[key].desynchronized
    ensures HoldsLoss(m, Dispatch(Store(m, key, decoded, record), key, record), key, other)
  {
    hide Dispatch, RetainedTotal, Stored;
    var stored := Store(m, key, decoded, record);
    DispatchOutcome(stored, key, record, other);
    DispatchOutcome(stored, key, record, key);
  }

  lemma RefusedHolds(m: Media, r: Ingested, key: Key, decoded: Source, other: Key)
    requires key in m.sources && !r.outcome.Queued?
    requires decoded.kind == m.sources[key].kind
    requires !decoded.kind.Video? ==> decoded.desynchronized == m.sources[key].desynchronized
    requires r.media == m || r.media == WithSource(m, key, decoded)
    ensures HoldsLoss(m, r, key, other)
  {
  }

  lemma ReturnedHolds(m: Media, r: Ingested, key: Key, bytes: nat, other: Key)
    requires key in m.sources && !r.outcome.Queued? && r.media == ReturnCredit(m, key, bytes, 1).media
    ensures HoldsLoss(m, r, key, other)
  {
    hide ReturnCredit;
    ReturnKeepsLoss(m, key, bytes, 1, other);
    ReturnKeepsLoss(m, key, bytes, 1, key);
  }

  lemma ChargedKeepsLoss(m: Media, key: Key, record: Record, other: Key)
    requires key in m.sources
    ensures HoldsLoss(m, IngestCharged(m, key, record), key, other)
  {
    hide ReturnCredit, Dispatch, Store, RetainedTotal, Decoded, Stored, PayloadMatches, HoldsLoss, WithSource;
    var source, r := m.sources[key], IngestCharged(m, key, record);
    if !PayloadMatches(source.kind, record.payload) {
      RefusedHolds(m, r, key, source, other);
    } else if record.payload.RasterFrame? && record.payload.verdict.Rejected? {
      ReturnedHolds(m, r, key, record.bytes, other);
    } else if (record.payload.RasterFrame? && record.payload.verdict.Malformed?)
              || Decoded(source, record.payload, key in m.projected).Err? {
      RefusedHolds(m, r, key, source, other);
    } else {
      DecodedHolds(source, record, key in m.projected);
      var decoded := Decoded(source, record.payload, key in m.projected).value;
      if RetainedTotal(m, key, record) > m.config.retainedLimit {
        RefusedHolds(m, r, key, decoded, other);
      } else {
        DispatchStored(m, key, decoded, record, other);
      }
    }
  }

  /** A record of a visible video that has lost synchronization either recovers it or changes nothing about the loss. */
  lemma VideoChargedHoldsLoss(m: Media, key: Key, record: Record)
    requires SceneValid(m) && key in m.sources
    requires m.sources[key].kind.Video? && m.sources[key].desynchronized && key in m.projected
    ensures
      var r := IngestCharged(m, key, record);
      && (r.outcome.Queued? ==> IsRecoveryPoint(m, RecordIngested(key, record), key))
      && (!r.outcome.Queued? ==> Blocked(r.media, key))
  {
    hide ReturnCredit, Dispatch, RetainedTotal, SceneValid;
    ReturnKeepsLoss(m, key, record.bytes, 1, key);
    TimedRecordsFit(m, key, record);
    var source := m.sources[key];
    if PayloadMatches(source.kind, record.payload) && Decoded(source, record.payload, key in m.projected).Ok? {
      var stored := Store(m, key, Decoded(source, record.payload, key in m.projected).value, record);
      DispatchOutcome(stored, key, record, key);
    }
  }

  lemma TimedRecordsFit(m: Media, key: Key, record: Record)
    requires SceneValid(m) && key in m.sources && !IsStatic(m.sources[key].kind)
    ensures PayloadMatches(m.sources[key].kind, record.payload) ==> RetainedTotal(m, key, record) <= m.config.retainedLimit
  {
    SourceRetention(m, key);
  }

  /** One ingest of any source: the loss of another source stays, audio linked to a lossy video is not forwarded, and
      a lossy source that is not a video is never forwarded. */
  lemma IngestHoldsLoss(m: Media, key: Key, record: Record, other: Key)
    requires key in m.sources
    ensures HoldsLoss(m, Ingest(m, key, record), key, other)
  {
    hide IngestCharged, Consume;
    var source := m.sources[key];
    var charged := WithSource(m, key, source.(credit := Consume(source.credit, record.bytes).credit));
    ChargedKeepsLoss(charged, key, record, other);
    assert KeepsLoss(m, charged, other);
  }

  /** One ingest of a visible video that is blocked: only a recovery point is forwarded, and nothing else unblocks it. */
  lemma VideoIngestHoldsLoss(m: Media, key: Key, record: Record)
    requires SceneValid(m) && IsVideo(m, key) && Blocked(m, key) && key in m.projected
    ensures
      var r := Ingest(m, key, record);
      if r.outcome.Queued? then IsRecoveryPoint(m, RecordIngested(key, record), key) else Blocked(r.media, key)
  {
    hide IngestCharged, Consume, SceneValid, SceneKept;
    var source := m.sources[key];
    var charged := WithSource(m, key, source.(credit := Consume(source.credit, record.bytes).credit));
    SourceKept(m, key, charged.sources[key]);
    KeptIsValid(m, charged);
    ChargedKeepsLoss(charged, key, record, key);
    if source.desynchronized {
      VideoChargedHoldsLoss(charged, key, record);
    }
  }

  lemma LossBlocks(m: Media, key: Key)
    ensures Desynchronized(m, key) ==> Blocked(m, key)
  {
  }

  /** A visible video that is blocked forwards nothing but a recovery point, stays blocked until then, and blocks the
      audio linked to it. */
  lemma StepHoldsLoss(m: Media, step: Step, key: Key, audio: Key)
    requires SceneValid(m) && IsVideo(m, key) && Blocked(m, key) && key in m.projected
    ensures key in Next(m, step).media.sources ==> IsVideo(Next(m, step).media, key)
    ensures if Forwards(m, step, key) then IsRecoveryPoint(m, step, key) else Blocked(Next(m, step).media, key)
    ensures audio in m.sources && m.sources[audio].kind == Audio(Some(key.id)) && audio.producer == key.producer
            ==> !Forwards(m, step, audio)
  {
    hide Ingest, SceneValid;
    if step.RecordIngested? {
      if step.key in m.sources {
        IngestHoldsLoss(m, step.key, step.record, key);
      }
      if step.key == key {
        VideoIngestHoldsLoss(m, key, step.record);
      }
      MissingIsRefused(m, step.key, step.record);
    } else {
      hide Next;
      OtherStepsKeepLoss(m, step, key);
    }
  }

  lemma MissingIsRefused(m: Media, key: Key, record: Record)
    ensures key !in m.sources ==> Ingest(m, key, record) == Ingested(m, Refused("source no longer exists"), 0, [])
  {
  }

  ghost predicate StaysVisible(m: Media, steps: seq<Step>, key: Key) {
    && key in Run(m, steps).sources && key in Run(m, steps).projected
    && (steps == [] || StaysVisible(m, steps[..|steps| - 1], key))
  }

  ghost predicate NeverForwards(m: Media, steps: seq<Step>, key: Key) {
    steps == [] ||
    var n := |steps| - 1;
    NeverForwards(m, steps[..n], key) && !Forwards(Run(m, steps[..n]), steps[n], key)
  }

  /** While a video stays visible after a loss, whatever happens, the next packet forwarded for it is a keyframe of at
      least the minimum epoch then in force, and no audio linked to it is forwarded before. */
  lemma {:induction false} NextForwardedIsAKeyframe(m: Media, steps: seq<Step>, next: Step, key: Key, audio: Key)
    requires SceneValid(m) && PossibleRun(m, steps) && IsVideo(m, key) && Desynchronized(m, key)
    requires StaysVisible(m, steps, key) && NeverForwards(m, steps, key)
    ensures SceneValid(Run(m, steps)) && IsVideo(Run(m, steps), key) && Blocked(Run(m, steps), key)
    ensures Forwards(Run(m, steps), next, key) ==> IsRecoveryPoint(Run(m, steps), next, key)
    ensures
      var now := Run(m, steps);
      audio in now.sources && now.sources[audio].kind == Audio(Some(key.id)) && audio.producer == key.producer
      ==> !Forwards(now, next, audio)
  {
    hide Next, Forwards, IsVideo, Blocked, IsRecoveryPoint, SceneValid, Possible;
    var now := Run(m, steps);
    if steps == [] {
      assert IsVideo(m, key) && Blocked(m, key) by { LossBlocks(m, key); }
    } else {
      var n := |steps| - 1;
      NextForwardedIsAKeyframe(m, steps[..n], steps[n], key, audio);
      StepHoldsLoss(Run(m, steps[..n]), steps[n], key, audio);
      StepKeepsScene(Run(m, steps[..n]), steps[n]);
    }
    StepHoldsLoss(now, next, key, audio);
  }

  /** The steps that make a video lose synchronization: a delivery that could not be handed over or failed at the bridge,
      a packet the queue had no room for, a flush, and an emitted keyframe request. */
  predicate LosesSync(m: Media, step: Step, key: Key) {
    match step
    case HandoverFailed(source, _) => source == key
    case DeliveryCompleted(delivery, delivered) =>
      !delivered && delivery in m.deliveries && m.deliveries[delivery].source == key && key in m.projected
      && key in m.sources && !m.sources[key].ended
    case RecordIngested(source, record) => source == key && Ingest(m, key, record).outcome == NotQueued(true)
    case Flushed(source, _) => source == key
    case KeyframesRequested(requests) => Emissions(m, requests, key) > 0
    case _ => false
  }

  lemma LossesDesynchronize(m: Media, step: Step, key: Key)
    requires IsVideo(m, key) && LosesSync(m, step, key)
    ensures Desynchronized(Next(m, step).media, key)
  {
    hide TakeDelivery, Ingest, Emissions, RequestKeyframes;
    match step
    case HandoverFailed(_, delivery) => TakeKeepsLoss(m, delivery, key);
    case DeliveryCompleted(delivery, _) => TakeKeepsLoss(Desynchronize(m, key), delivery, key);
    case RecordIngested(_, record) => DroppedVideoIsLost(m, key, record);
    case KeyframesRequested(requests) => EmissionsDesynchronize(m, requests, key);
    case _ =>
  }

  lemma {:induction false} EmissionsDesynchronize(m: Media, requests: seq<Request>, key: Key)
    requires IsVideo(m, key) && Emissions(m, requests, key) > 0
    ensures Desynchronized(RequestKeyframes(m, requests), key)
  {
    hide AnswerRequest;
    var n := |requests| - 1;
    var earlier := RequestKeyframes(m, requests[..n]);
    RequestsKeepLoss(m, requests[..n], key);
    RequestKeepsLoss(earlier, requests[n], key);
    if Emissions(m, requests[..n], key) > 0 {
      EmissionsDesynchronize(m, requests[..n], key);
    }
  }

  lemma DroppedVideoIsLost(m: Media, key: Key, record: Record)
    requires IsVideo(m, key) && Ingest(m, key, record).outcome == NotQueued(true)
    ensures Desynchronized(Ingest(m, key, record).media, key)
  {
    hide ReturnCredit, Consume, Decoded, RetainedTotal, Stored, ForwardTimed, QueueAdmits;
    var charged := WithSource(m, key, m.sources[key].(credit := Consume(m.sources[key].credit, record.bytes).credit));
    var decoded := Decoded(m.sources[key].(credit := Consume(m.sources[key].credit, record.bytes).credit), record.payload,
                           key in m.projected);
    if decoded.Ok? {
      var stored := Store(charged, key, decoded.value, record);
      var dropped := WithSource(stored, key, stored.sources[key].(desynchronized := true));
      ReturnKeepsLoss(dropped, key, record.bytes, 1, key);
    }
  }

  // ---- A flush of anything but a video ----

  /** Only video packets clear the flag a flush sets: a flushed raster or audio source is never forwarded again. */
  lemma {:induction false} FlushSilencesOtherKinds(m: Media, key: Key, epoch: nat, steps: seq<Step>, next: Step)
    requires SceneValid(m) && key in m.sources && !IsVideo(m, key)
    requires PossibleRun(Flush(m, key, epoch), steps)
    requires LivesOn(Flush(m, key, epoch), steps, key)
    ensures
      var now := Run(Flush(m, key, epoch), steps);
      SceneValid(now) && Desynchronized(now, key) && !IsVideo(now, key) && !Forwards(now, next, key)
  {
    hide Next, Ingest, SceneValid, SceneKept, Possible;
    var flushed := Flush(m, key, epoch);
    var now := Run(flushed, steps);
    if steps == [] {
      SourceKept(m, key, flushed.sources[key]);
      KeptIsValid(m, flushed);
    } else {
      var n := |steps| - 1;
      FlushSilencesOtherKinds(m, key, epoch, steps[..n], steps[n]);
      StepKeepsScene(Run(flushed, steps[..n]), steps[n]);
      SilentStep(Run(flushed, steps[..n]), steps[n], key);
    }
    if next.RecordIngested? && next.key == key {
      IngestHoldsLoss(now, key, next.record, key);
    }
  }

  lemma SilentStep(m: Media, step: Step, key: Key)
    requires SceneValid(m) && Desynchronized(m, key) && !IsVideo(m, key) && key in Next(m, step).media.sources
    ensures Desynchronized(Next(m, step).media, key) && !IsVideo(Next(m, step).media, key)
  {
    hide Ingest;
    if step.RecordIngested? {
      MissingIsRefused(m, step.key, step.record);
      if step.key in m.sources {
        IngestHoldsLoss(m, step.key, step.record, key);
      }
    } else {
      OtherStepsKeepLoss(m, step, key);
    }
  }

  ghost predicate LivesOn(m: Media, steps: seq<Step>, key: Key) {
    key in Run(m, steps).sources && (steps == [] || LivesOn(m, steps[..|steps| - 1], key))
  }

  // ---- Keyframe requests ----

  /** How many NEED_KEYFRAME records a list of requests causes for one source. */
  function Emissions(m: Media, requests: seq<Request>, key: Key): nat {
    if requests == [] then 0
    else
      var n := |requests| - 1;
      var earlier := RequestKeyframes(m, requests[..n]);
      Emissions(m, requests[..n], key)
      + if requests[n].key == key && AnswerRequest(earlier, requests[n]).Emitted? then 1 else 0
  }

  predicate NoExplicitMinimum(requests: seq<Request>, key: Key) {
    forall i :: 0 <= i < |requests| && requests[i].key == key ==> requests[i].minimum.None?
  }

  function Bit(b: bool): nat {
    if b then 1 else 0
  }

  /** How many more requests can be emitted before only a new packet, flush or explicit minimum can change anything. */
  function Room(source: Source): nat {
    var advanced := if source.epoch >= U32_MAX then source.epoch else source.epoch + 1;
    if source.pendingReason.None? then 3
    else Bit(source.minimumEpoch < source.epoch) + Bit(source.minimumEpoch < advanced) + Bit(source.pendingReason.value.TransportLoss?)
  }

  /** A request that is emitted uses up room, raises the minimum or replaces a transport loss; any other changes nothing. */
  lemma RequestUsesRoom(m: Media, request: Request)
    requires IsVideo(m, request.key)
    ensures
      var before, after := m.sources[request.key], RequestKeyframe(m, request).sources[request.key];
      && after.epoch == before.epoch && before.minimumEpoch <= after.minimumEpoch
      && (AnswerRequest(m, request).Emitted? && request.minimum.None? ==> Room(after) < Room(before))
      && (AnswerRequest(m, request).Emitted? && before.pendingReason.Some? ==>
            before.minimumEpoch < after.minimumEpoch
            || (before.pendingReason.value.TransportLoss? && !after.pendingReason.value.TransportLoss?))
      && (!AnswerRequest(m, request).Emitted? ==> RequestKeyframe(m, request) == m)
  {
  }

  lemma OtherRequestsDoNotMatter(m: Media, request: Request, key: Key)
    requires key in m.sources && (request.key != key || !AnswerRequest(m, request).Emitted?)
    ensures key in RequestKeyframe(m, request).sources && RequestKeyframe(m, request).sources[key] == m.sources[key]
  {
  }

  /** Between two packets of a source, without an explicit minimum, no list of requests to any sources makes it emit
      more than three times, and its minimum epoch never goes down. */
  lemma {:induction false} AtMostThreeEmissions(m: Media, requests: seq<Request>, key: Key)
    requires IsVideo(m, key) && NoExplicitMinimum(requests, key)
    ensures IsVideo(RequestKeyframes(m, requests), key)
    ensures m.sources[key].minimumEpoch <= RequestKeyframes(m, requests).sources[key].minimumEpoch
    ensures Emissions(m, requests, key) + Room(RequestKeyframes(m, requests).sources[key]) <= Room(m.sources[key]) <= 3
  {
    hide AnswerRequest, RequestKeyframe;
    if requests != [] {
      var n := |requests| - 1;
      assert forall i :: 0 <= i < n ==> requests[..n][i] == requests[i];
      AtMostThreeEmissions(m, requests[..n], key);
      var earlier := RequestKeyframes(m, requests[..n]);
      if requests[n].key == key && AnswerRequest(earlier, requests[n]).Emitted? {
        RequestUsesRoom(earlier, requests[n]);
        RequestKeepsLoss(earlier, requests[n], key);
      } else {
        OtherRequestsDoNotMatter(earlier, requests[n], key);
      }
    }
  }

  /** Three is reached: a transport loss, then an initial request, then a decoder error. */
  lemma ThreeIsReached(m: Media, key: Key)
    requires IsVideo(m, key) && !m.sources[key].ended && key.producer in m.producers
    requires m.sources[key].pendingReason.None? && m.sources[key].minimumEpoch <= m.sources[key].epoch < U32_MAX
    ensures
      var loss, initial, decoder :=
        Request(key, None, TransportLoss, true), Request(key, None, Initial, true), Request(key, None, DecoderError, true);
      Emissions(m, [loss, initial, decoder], key) == 3
  {
    var loss, initial, decoder :=
      Request(key, None, TransportLoss, true), Request(key, None, Initial, true), Request(key, None, DecoderError, true);
    var all := [loss, initial, decoder];
    assert all[..2] == [loss, initial] && all[..2][..1] == [loss] && [loss][..0] == [];
    var first := RequestKeyframe(m, loss);
    assert RequestKeyframes(m, []) == m && RequestKeyframes(m, [loss]) == first;
    var second := RequestKeyframe(first, initial);
    assert RequestKeyframes(m, [loss, initial]) == second;
    assert Emissions(m, [], key) == 0;
    assert Emissions(m, [loss], key) == 1;
    assert Emissions(m, [loss, initial], key) == 2;
  }
}
