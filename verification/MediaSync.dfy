/** When a source is synchronized with the bridge, exactly, and which of its records are queued for it
    (src/media.rs:893-949, 1027-1121, 3028-3055, 3892-4118). */
module MediaSync {
  import opened Wrappers
  import opened FixedWidth
  import opened MediaCredit
  import opened MediaState
  import opened MediaScene
  import opened MediaLedger
  import opened MediaRecovery

  // ---- What is said of a source and a record, in the terms of the protocol ----

  /** The producer has been granted enough for the record. */
  predicate IsPaid(m: Media, key: Key, record: Record)
    requires key in m.sources
  {
    0 < record.bytes <= m.sources[key].credit.outstandingBytes && 0 < m.sources[key].credit.outstandingPackets
  }

  /** A packet that its video source takes. */
  predicate VideoArrives(m: Media, key: Key, record: Record)
    requires key in m.sources
  {
    m.sources[key].kind.Video? && IsPaid(m, key, record) && record.payload.VideoPacket? && record.payload.fits
  }

  /** The bridge's queue takes these bytes: within its limit, or when it is empty. */
  predicate QueueTakes(m: Media, bytes: nat) {
    m.attached && (m.queuedBytes == 0 || m.queuedBytes + bytes <= m.config.queueLimit)
  }

  /** A keyframe that ends a loss. */
  predicate EndsLoss(m: Media, key: Key, record: Record)
    requires key in m.sources
  {
    m.sources[key].desynchronized && record.payload.VideoPacket? && record.payload.key
    && record.payload.epoch >= m.sources[key].minimumEpoch
  }

  /** What makes a source lose synchronization: for a video a delivery that is not handed over, or fails while it is visible
      and not ended; the bridge going away while it plays; an emitted keyframe request; a packet that is hidden, or that the
      queue has no room for. And a flush, for any source. */
  predicate Loses(m: Media, step: Step, key: Key)
    requires key in m.sources
  {
    var source := m.sources[key];
    match step
    case HandoverFailed(k, _) => k == key && source.kind.Video?
    case DeliveryCompleted(id, delivered) =>
      && !delivered && id in m.deliveries && m.deliveries[id].source == key
      && key in m.projected && source.kind.Video? && !source.ended
    case Deactivated(_) => source.kind.Video? && source.playing
    case Flushed(k, _) => k == key
    case KeyframesRequested(requests) => Emissions(m, requests, key) > 0
    case RecordIngested(k, record) =>
      && k == key && VideoArrives(m, key, record) && (!source.desynchronized || EndsLoss(m, key, record))
      && (if key in m.projected then !QueueTakes(m, record.bytes) else !source.desynchronized)
    case _ => false
  }

  predicate Recovers(m: Media, step: Step, key: Key)
    requires key in m.sources
  {
    step.RecordIngested? && step.key == key && VideoArrives(m, key, step.record) && EndsLoss(m, key, step.record)
  }

  predicate LostAfter(m: Media, step: Step, key: Key)
    requires key in m.sources
  {
    Loses(m, step, key) || (m.sources[key].desynchronized && !Recovers(m, step, key))
  }

  // ---- Only these steps, and exactly these ----

  /** The sources that live on differ in their credit at most. */
  ghost predicate OnlyCredits(before: Media, after: Media) {
    && after.sources.Keys <= before.sources.Keys
    && forall key :: key in after.sources ==> after.sources[key] == before.sources[key].(credit := after.sources[key].credit)
  }

  lemma OnlyCreditsTwice(a: Media, b: Media, c: Media)
    requires OnlyCredits(a, b) && OnlyCredits(b, c)
    ensures OnlyCredits(a, c)
  {
  }

  lemma ReturnTouchesCredit(m: Media, key: Key, bytes: nat, packets: nat)
    ensures OnlyCredits(m, ReturnCredit(m, key, bytes, packets).media)
  {
    hide Return;
  }

  lemma TakeTouchesCredit(m: Media, id: nat)
    ensures OnlyCredits(m, TakeDelivery(m, id).media)
  {
    hide Return, SaturatingSub;
  }

  lemma {:induction false} TakeAllTouchesCredit(m: Media, ids: seq<nat>)
    ensures OnlyCredits(m, TakeDeliveries(m, ids).media)
  {
    hide TakeDelivery, OnlyCredits;
    if ids == [] {
      assert OnlyCredits(m, m) by { NothingTouched(m); }
    } else {
      var n := |ids| - 1;
      TakeAllTouchesCredit(m, ids[..n]);
      TakeTouchesCredit(TakeDeliveries(m, ids[..n]).media, ids[n]);
      OnlyCreditsTwice(m, TakeDeliveries(m, ids[..n]).media, TakeDeliveries(m, ids).media);
    }
  }

  lemma NothingTouched(m: Media)
    ensures OnlyCredits(m, m)
  {
  }

  lemma PruneTouchesNothing(m: Media)
    ensures OnlyCredits(m, Prune(m))
  {
  }

  lemma CleanupTouchesNothing(m: Media, producer: nat, preserve: bool)
    ensures OnlyCredits(m, CleanupProducer(m, producer, preserve))
  {
    hide Prune, Survives, Anchored;
    if producer in m.producers {
      PruneTouchesNothing(Detached(m, producer, preserve));
    }
  }

  lemma {:induction false} CleanupsTouchNothing(m: Media, producers: seq<nat>)
    ensures OnlyCredits(m, CleanupProducers(m, producers))
  {
    hide CleanupProducer, OnlyCredits;
    if producers == [] {
      NothingTouched(m);
    } else {
      var n := |producers| - 1;
      CleanupsTouchNothing(m, producers[..n]);
      CleanupTouchesNothing(CleanupProducers(m, producers[..n]), producers[n], false);
      OnlyCreditsTwice(m, CleanupProducers(m, producers[..n]), CleanupProducers(m, producers));
    }
  }

  /** A completed delivery: a keyframe is asked for exactly when it failed and its source is a visible video that has not
      ended; that source loses synchronization, and nothing else about any source changes but its credit. */
  lemma CompletedExactly(m: Media, id: nat, delivered: bool)
    requires id in m.deliveries
    ensures
      var r, key := CompleteDelivery(m, id, delivered), m.deliveries[id].source;
      && r.known && r.media.deliveries == m.deliveries - {id} && r.media.sources.Keys == m.sources.Keys
      && (r.requestKeyframe <==>
            !delivered && key in m.projected && key in m.sources && m.sources[key].kind.Video? && !m.sources[key].ended)
      && (forall other :: other in m.sources ==>
            r.media.sources[other]
            == m.sources[other].(credit := r.media.sources[other].credit,
                                 desynchronized := m.sources[other].desynchronized || (r.requestKeyframe && other == key)))
      && (forall other :: other in m.sources && other != key ==> r.media.sources[other].credit == m.sources[other].credit)
  {
    hide Return, SaturatingSub;
  }

  ghost predicate LawHolds(m: Media, after: Media, step: Step, key: Key) {
    key in m.sources && key in after.sources ==>
      (after.sources[key].desynchronized <==> LostAfter(m, step, key))
  }

  lemma DeliveryStepsObeyLaw(m: Media, step: Step, key: Key)
    requires step.HandoverFailed? || step.DeliveryCompleted? || step.DeliveriesCancelled? || step.Projected? || step.Deactivated?
    ensures LawHolds(m, Next(m, step).media, step, key)
  {
    hide TakeDelivery, TakeDeliveries, CompleteDelivery;
    match step
    case HandoverFailed(_, delivery) => TakeTouchesCredit(m, delivery);
    case DeliveryCompleted(delivery, delivered) =>
      if delivery in m.deliveries {
        CompletedExactly(m, delivery, delivered);
      } else {
        UnknownDelivery(m, delivery, delivered);
      }
    case DeliveriesCancelled(_, deliveries) => TakeAllTouchesCredit(m, deliveries);
    case Projected(visible, _, hidden) => TakeAllTouchesCredit(m.(projected := visible), hidden);
    case Deactivated(deliveries) =>
      var sources :=
        map source | source in m.sources ::
          if m.sources[source].kind.Video? && m.sources[source].playing then m.sources[source].(desynchronized := true)
          else m.sources[source];
      TakeAllTouchesCredit(m.(projected := {}, sources := sources), deliveries);
  }

  lemma UnknownDelivery(m: Media, id: nat, delivered: bool)
    requires id !in m.deliveries
    ensures CompleteDelivery(m, id, delivered) == Completed(m, false, false, [])
  {
  }

  lemma {:induction false} RequestsObeyLaw(m: Media, requests: seq<Request>, key: Key)
    requires key in m.sources
    ensures
      var after := RequestKeyframes(m, requests);
      && key in after.sources
      && (after.sources[key].desynchronized <==> Emissions(m, requests, key) > 0 || m.sources[key].desynchronized)
  {
    hide AnswerRequest;
    if requests != [] {
      RequestsObeyLaw(m, requests[..|requests| - 1], key);
    }
  }

  lemma PlaybackObeysLaw(m: Media, step: Step, key: Key)
    requires step.Flushed? || step.StreamEnded? || step.PlaybackSet? || step.SourceCreated?
    ensures LawHolds(m, Next(m, step).media, step, key)
  {
  }

  lemma SceneObeysLaw(m: Media, step: Step, key: Key)
    requires step.Registered? || step.Committed? || step.SourceDestroyed? || step.Disconnected? || step.AnchorSeen?
             || step.AnchorsCleared? || step.PaneRevoked?
    ensures LawHolds(m, Next(m, step).media, step, key)
  {
    hide Commit, Prune, CleanupProducer, CleanupProducers;
    match step
    case Committed(producer, mutations, structureValid) => CommitKeepsSources(m, producer, mutations, structureValid);
    case Disconnected(producer) => CleanupTouchesNothing(m, producer, true);
    case AnchorsCleared(pane) => PruneTouchesNothing(ClearedAnchors(m, pane));
    case PaneRevoked(pane, producers) =>
      CleanupsTouchNothing(m, producers);
      PruneTouchesNothing(WithoutPane(CleanupProducers(m, producers), pane));
    case _ =>
  }

  // ---- An ingest, exactly ----

  /** The body a record leaves retained: the composed frame of a raster, an image as it came. */
  function Keeps(record: Record): nat {
    match record.payload
    case RasterFrame(verdict) => if verdict.Accepted? then verdict.fullBytes else 0
    case ImageData(_) => record.bytes
    case _ => 0
  }

  /** The record is paid for, of its source's kind and in order, and what it leaves retained is within the quota. */
  predicate IsTaken(m: Media, key: Key, record: Record)
    requires key in m.sources
  {
    var source := m.sources[key];
    && IsPaid(m, key, record)
    && (match source.kind
        case Raster => record.payload.RasterFrame? && record.payload.verdict.Accepted?
        case Image => record.payload.ImageData? && record.payload.decodes && source.retained.None?
        case Video => record.payload.VideoPacket? && record.payload.fits
        case Audio(_) => record.payload.AudioPacket? && record.payload.fits)
    && m.retainedBytes + Keeps(record) <= m.config.retainedLimit + source.retainedBytes
  }

  /** The video an audio source is linked to, while it exists, has to be synchronized too. */
  predicate VideoIsThere(m: Media, key: Key)
    requires key in m.sources
  {
    var kind := m.sources[key].kind;
    kind.Audio? && kind.linkedVideo.Some? && Key(key.producer, kind.linkedVideo.value) in m.sources ==>
      !m.sources[Key(key.producer, kind.linkedVideo.value)].desynchronized
  }

  /** A record taken for a visible source, other than an image, that is synchronized or becomes so by this record. */
  predicate IsWanted(m: Media, key: Key, record: Record)
    requires key in m.sources
  {
    && key in m.projected && !m.sources[key].kind.Image?
    && (!m.sources[key].desynchronized || (m.sources[key].kind.Video? && EndsLoss(m, key, record)))
    && VideoIsThere(m, key)
  }

  /** A raster goes out as its delta only when that is the shorter body. */
  function BridgeBytes(record: Record): nat {
    match record.payload
    case RasterFrame(Accepted(_, fullBytes, delta)) => if delta && record.bytes < fullBytes then record.bytes else fullBytes
    case _ => record.bytes
  }

  predicate IsRejectedDelta(m: Media, key: Key, record: Record)
    requires key in m.sources
  {
    IsPaid(m, key, record) && m.sources[key].kind.Raster? && record.payload.RasterFrame? && record.payload.verdict.Rejected?
  }

  /** What becomes of a record. */
  ghost predicate OutcomeIs(m: Media, r: Ingested, key: Key, record: Record)
    requires key in m.sources
  {
    var taken, wanted := IsTaken(m, key, record), IsWanted(m, key, record);
    var room := QueueTakes(m, BridgeBytes(record));
    && (r.outcome.Queued? <==> taken && wanted && room && m.nextDeliveryId < U64_MAX)
    && (r.outcome.Queued? ==> r.outcome.deliveryId == m.nextDeliveryId + 1)
    && (r.outcome.NotQueued? <==> taken && !(wanted && room))
    && (r.outcome.NotQueued? ==> (r.outcome.requestKeyframe <==> wanted && m.sources[key].kind.Video?))
    && (r.outcome.DeltaRejected? <==> IsRejectedDelta(m, key, record))
  }

  /** What it leaves behind, apart from credit. */
  ghost predicate EffectIs(m: Media, r: Ingested, key: Key, record: Record)
    requires key in m.sources
  {
    var taken, source := IsTaken(m, key, record), m.sources[key];
    var queued, kept := r.outcome.Queued?, taken && IsStatic(source.kind);
    && r.media.sources.Keys == m.sources.Keys
    && (forall other :: other in m.sources && other != key ==> r.media.sources[other] == m.sources[other])
    && r.media.sources[key]
       == source.(credit := r.media.sources[key].credit,
                  retained := if kept then Some(Keeps(record)) else source.retained,
                  retainedBytes := if kept then Keeps(record) else source.retainedBytes,
                  epoch := if taken && !source.kind.Image? then EpochOf(record) else source.epoch,
                  pendingReason := if VideoArrives(m, key, record) && EndsLoss(m, key, record) then None else source.pendingReason,
                  desynchronized := LostAfter(m, RecordIngested(key, record), key))
    && r.media
       == m.(sources := r.media.sources,
             retainedBytes := r.media.retainedBytes,
             deliveries := if queued then m.deliveries[r.outcome.deliveryId := Delivery(key, record.bytes, BridgeBytes(record))]
                           else m.deliveries,
             nextDeliveryId := if queued then r.outcome.deliveryId else m.nextDeliveryId,
             queuedBytes := if queued then m.queuedBytes + BridgeBytes(record) else m.queuedBytes)
    && r.media.retainedBytes + source.retainedBytes == m.retainedBytes + if kept then Keeps(record) else source.retainedBytes
  }

  /** What it does to credit: an unpaid record costs nothing; a paid one is charged until its delivery completes, or given
      back at once when there is no delivery; a paid one that is refused stays charged. */
  ghost predicate CreditIs(m: Media, r: Ingested, key: Key, record: Record)
    requires key in m.sources && key in r.media.sources
  {
    var before, after := m.sources[key].credit, r.media.sources[key].credit;
    var spoiled := m.sources[key].kind.Image? && record.payload.ImageData? && !record.payload.decodes;
    var charged := IsPaid(m, key, record) && !spoiled;
    && r.consumed == (if charged then record.bytes else 0)
    && (!charged ==> after == before && r.grants == [])
    && (charged && (r.outcome.Queued? || r.outcome.Refused?) ==>
          && r.grants == []
          && after == before.(outstandingBytes := before.outstandingBytes - record.bytes,
                              outstandingPackets := before.outstandingPackets - 1,
                              chargedBytes := before.chargedBytes + record.bytes, chargedPackets := before.chargedPackets + 1))
    && (r.outcome.NotQueued? || r.outcome.DeltaRejected? ==>
          && charged && |r.grants| == 1 && r.grants[0].key == key
          && var packets := r.grants[0].grant.packets;
             && r.grants[0].grant.bytes == record.bytes && 1 <= packets
             && after == before.(outstandingPackets := before.outstandingPackets - 1 + packets)
             && (if key in m.projected then PacketSum(after) == after.windowPackets else packets == 1))
  }

  function EpochOf(record: Record): nat {
    match record.payload
    case RasterFrame(Accepted(epoch, _, _)) => epoch
    case VideoPacket(_, epoch, _) => epoch
    case AudioPacket(_, epoch) => epoch
    case _ => 0
  }

  // ---- Why ----

  lemma QueueTest(m: Media, bytes: nat)
    requires LimitFits(m) && bytes <= U32_MAX
    ensures QueueAdmits(m, bytes) <==> QueueTakes(m, bytes)
    ensures QueueTakes(m, bytes) ==> SaturatingAdd(m.queuedBytes, bytes) == m.queuedBytes + bytes
  {
  }

  /** Dispatching a record of a source that is stored already. */
  lemma DispatchExactly(m: Media, key: Key, record: Record)
    requires key in m.sources && LimitFits(m) && BridgeBytes(record) <= U32_MAX
    ensures
      var r, source := Dispatch(m, key, record), m.sources[key];
      var wanted := key in m.projected && !source.kind.Image? && !source.desynchronized && VideoIsThere(m, key);
      var room := QueueTakes(m, BridgeBytes(record));
      && (r.outcome.Queued? <==> wanted && room && m.nextDeliveryId < U64_MAX)
      && (r.outcome.NotQueued? <==> !(wanted && room))
      && !r.outcome.DeltaRejected? && r.consumed == record.bytes
      && (r.outcome.NotQueued? ==> (r.outcome.requestKeyframe <==> wanted && source.kind.Video?))
      && (r.outcome.Queued? ==>
            && r.outcome.deliveryId == m.nextDeliveryId + 1 && r.grants == []
            && r.media == m.(deliveries := m.deliveries[r.outcome.deliveryId := Delivery(key, record.bytes, BridgeBytes(record))],
                             nextDeliveryId := r.outcome.deliveryId, queuedBytes := m.queuedBytes + BridgeBytes(record)))
      && (r.outcome.Refused? ==> r.media == m && r.grants == [])
      && (r.outcome.NotQueued? ==>
            var dropped := if r.outcome.requestKeyframe then WithSource(m, key, source.(desynchronized := true)) else m;
            Released(r.media, r.grants) == ReturnCredit(dropped, key, record.bytes, 1))
  {
    hide ReturnCredit, QueueAdmits, QueueTakes, SaturatingAdd;
    QueueTest(m, BridgeBytes(record));
  }

  /** A record that is in order, decoded and stored. */
  lemma StoredExactly(source: Source, record: Record, visible: bool)
    requires PayloadMatches(source.kind, record.payload) && RetentionValid(source)
    requires record.payload.RasterFrame? ==> record.payload.verdict.Accepted?
    ensures
      var decoded := Decoded(source, record.payload, visible);
      && (decoded.Ok? <==>
            match source.kind
            case Raster => true
            case Image => source.retained.None?
            case Video => record.payload.fits
            case Audio(_) => record.payload.fits)
      && (decoded.Ok? && IsStatic(source.kind) ==> decoded.value == source)
      && (decoded.Ok? ==>
            var ends := source.kind.Video? && source.desynchronized && record.payload.key && record.payload.epoch >= source.minimumEpoch;
            Stored(decoded.value, record)
            == source.(retained := if IsStatic(source.kind) then Some(Keeps(record)) else source.retained,
                       retainedBytes := if IsStatic(source.kind) then Keeps(record) else source.retainedBytes,
                       epoch := if source.kind.Image? then source.epoch else EpochOf(record),
                       pendingReason := if ends then None else source.pendingReason,
                       desynchronized := if source.kind.Video? then !ends && (source.desynchronized || !visible) else source.desynchronized))
  {
  }

  ghost predicate IngestIs(m: Media, r: Ingested, key: Key, record: Record)
    requires key in m.sources
  {
    OutcomeIs(m, r, key, record) && EffectIs(m, r, key, record) && CreditIs(m, r, key, record)
  }

  /** The state in which ingests are looked at: all accounts in order, and lengths of 32 bits. */
  ghost predicate InOrder(m: Media, key: Key, record: Record) {
    && key in m.sources && SceneValid(m) && CreditsBalanced(m) && LimitFits(m) && RecordFits(RecordIngested(key, record))
  }

  lemma PaidIsConsumed(c: Credit, bytes: nat)
    requires Balanced(c)
    ensures
      var r, paid := Consume(c, bytes), 0 < bytes <= c.outstandingBytes && 0 < c.outstandingPackets;
      && (r.accepted <==> paid)
      && Balanced(r.credit)
      && r.credit == if paid then c.(outstandingBytes := c.outstandingBytes - bytes, outstandingPackets := c.outstandingPackets - 1,
                                     chargedBytes := c.chargedBytes + bytes, chargedPackets := c.chargedPackets + 1)
                     else c
  {
  }

  lemma SourceInOrder(m: Media, key: Key, record: Record)
    requires InOrder(m, key, record)
    ensures key in m.sources && RetentionValid(m.sources[key]) && Balanced(m.sources[key].credit)
    ensures m.sources[key].retainedBytes <= m.retainedBytes
    ensures LimitFits(m) && record.bytes <= U32_MAX && BridgeBytes(record) <= U32_MAX
  {
    hide SceneValid;
    SourceRetention(m, key);
    CountsSource(m, key);
  }

  lemma UnpaidIngest(m: Media, key: Key, record: Record)
    requires InOrder(m, key, record)
    requires !IsPaid(m, key, record) || (m.sources[key].kind.Image? && record.payload.ImageData? && !record.payload.decodes)
    ensures IngestIs(m, Ingest(m, key, record), key, record)
  {
    hide InOrder, Consume, IngestCharged;
    SourceInOrder(m, key, record);
    PaidIsConsumed(m.sources[key].credit, record.bytes);
    assert WithSource(m, key, m.sources[key].(credit := m.sources[key].credit)) == m;
  }

  lemma PaidIngest(m: Media, key: Key, record: Record)
    requires InOrder(m, key, record) && IsPaid(m, key, record)
    requires !(m.sources[key].kind.Image? && record.payload.ImageData? && !record.payload.decodes)
    ensures
      var charged := Charged(m, key, record.bytes);
      Ingest(m, key, record) == IngestCharged(charged, key, record) && Balanced(charged.sources[key].credit)
  {
    hide InOrder, Consume, IngestCharged;
    SourceInOrder(m, key, record);
    PaidIsConsumed(m.sources[key].credit, record.bytes);
  }

  /** A paid record that is refused stays charged and changes nothing else. */
  lemma RefusedIs(m: Media, r: Ingested, key: Key, record: Record)
    requires InOrder(m, key, record) && IsPaid(m, key, record)
    requires !(m.sources[key].kind.Image? && record.payload.ImageData? && !record.payload.decodes)
    requires !IsTaken(m, key, record) && !IsRejectedDelta(m, key, record) && !VideoArrives(m, key, record)
    requires r.outcome.Refused? && r.grants == [] && r.consumed == record.bytes && r.media == Charged(m, key, record.bytes)
    ensures IngestIs(m, r, key, record)
  {
    hide InOrder, Consume;
    SourceInOrder(m, key, record);
    PaidIsConsumed(m.sources[key].credit, record.bytes);
  }

  lemma RejectedIs(m: Media, r: Ingested, key: Key, record: Record)
    requires InOrder(m, key, record) && IsRejectedDelta(m, key, record)
    requires
      var returned := ReturnCredit(Charged(m, key, record.bytes), key, record.bytes, 1);
      r == Ingested(returned.media, DeltaRejected, record.bytes, returned.grants)
    ensures IngestIs(m, r, key, record)
  {
    hide InOrder, Consume, Return;
    SourceInOrder(m, key, record);
    PaidIsConsumed(m.sources[key].credit, record.bytes);
    ReturnBalances(Charged(m, key, record.bytes).sources[key].credit, record.bytes, 1, key in m.projected);
  }

  /** A taken record is dispatched from a state in which its source holds it. */
  ghost predicate HoldsRecord(m: Media, stored: Media, key: Key, record: Record)
    requires key in m.sources
  {
    var source := m.sources[key];
    && key in stored.sources
    && stored == m.(sources := m.sources[key := stored.sources[key]], retainedBytes := stored.retainedBytes)
    && stored.retainedBytes + source.retainedBytes
       == m.retainedBytes + (if IsStatic(source.kind) then Keeps(record) else source.retainedBytes)
    && stored.sources[key]
       == source.(credit := Consume(source.credit, record.bytes).credit,
                  retained := if IsStatic(source.kind) then Some(Keeps(record)) else source.retained,
                  retainedBytes := if IsStatic(source.kind) then Keeps(record) else source.retainedBytes,
                  epoch := if source.kind.Image? then source.epoch else EpochOf(record),
                  pendingReason := if source.kind.Video? && EndsLoss(m, key, record) then None else source.pendingReason,
                  desynchronized := if source.kind.Video? then
                    !EndsLoss(m, key, record) && (source.desynchronized || key !in m.projected) else source.desynchronized)
  }

  lemma TakenIsStored(m: Media, key: Key, record: Record) returns (stored: Media)
    requires InOrder(m, key, record) && IsTaken(m, key, record)
    ensures HoldsRecord(m, stored, key, record) && key in stored.sources
    ensures IngestCharged(Charged(m, key, record.bytes), key, record) == Dispatch(stored, key, record)
  {
    hide InOrder, Consume, Dispatch, Decoded, Stored, Store, RetainedTotal, HoldsRecord, EndsLoss;
    SourceInOrder(m, key, record);
    var charged := Charged(m, key, record.bytes);
    var source := charged.sources[key];
    StoredExactly(source, record, key in m.projected);
    var decoded := Decoded(source, record.payload, key in m.projected).value;
    stored := Store(charged, key, decoded, record);
    StoredHolds(m, key, record, decoded);
    TotalIs(m, key, record);
    StoreHasSource(charged, key, decoded, record);
    assert IngestCharged(charged, key, record) == Dispatch(stored, key, record);
  }

  lemma TotalIs(m: Media, key: Key, record: Record)
    requires InOrder(m, key, record)
    requires record.payload.RasterFrame? ==> record.payload.verdict.Accepted?
    ensures RetainedTotal(Charged(m, key, record.bytes), key, record) + m.sources[key].retainedBytes == m.retainedBytes + Keeps(record)
  {
    hide Consume, InOrder;
    SourceInOrder(m, key, record);
  }

  lemma StoredHolds(m: Media, key: Key, record: Record, decoded: Source)
    requires InOrder(m, key, record) && IsTaken(m, key, record)
    requires
      var source := Charged(m, key, record.bytes).sources[key];
      Decoded(source, record.payload, key in m.projected) == Ok(decoded)
    ensures HoldsRecord(m, Store(Charged(m, key, record.bytes), key, decoded, record), key, record)
  {
    hide InOrder, Consume, Decoded, Stored, RetainedTotal;
    SourceInOrder(m, key, record);
    var charged := Charged(m, key, record.bytes);
    StoredExactly(charged.sources[key], record, key in m.projected);
    TotalIs(m, key, record);
    var stored := Store(charged, key, decoded, record);
    assert stored.sources == m.sources[key := stored.sources[key]];
  }

  /** The source and the state a taken record is dispatched from. */
  lemma StoredIs(m: Media, stored: Media, key: Key, record: Record)
    requires InOrder(m, key, record) && IsTaken(m, key, record) && HoldsRecord(m, stored, key, record)
    ensures
      && key in stored.sources && LimitFits(stored)
      && QueueTakes(stored, BridgeBytes(record)) == QueueTakes(m, BridgeBytes(record))
      && (IsWanted(m, key, record) <==>
            key in stored.projected && !stored.sources[key].kind.Image? && !stored.sources[key].desynchronized
            && VideoIsThere(stored, key))
  {
    hide Consume, SceneValid, CreditsBalanced;
  }

  lemma TakenHasOutcome(m: Media, stored: Media, key: Key, record: Record)
    requires InOrder(m, key, record) && IsTaken(m, key, record) && HoldsRecord(m, stored, key, record)
    ensures OutcomeIs(m, Dispatch(stored, key, record), key, record)
  {
    hide InOrder, Consume, Dispatch, QueueTakes, IsWanted, VideoIsThere;
    SourceInOrder(m, key, record);
    StoredIs(m, stored, key, record);
    DispatchExactly(stored, key, record);
  }

  lemma TakenHasEffect(m: Media, stored: Media, key: Key, record: Record)
    requires InOrder(m, key, record) && IsTaken(m, key, record) && HoldsRecord(m, stored, key, record)
    ensures EffectIs(m, Dispatch(stored, key, record), key, record)
  {
    hide InOrder, Consume, Dispatch, QueueTakes, IsWanted, VideoIsThere, IsTaken, Return, EndsLoss, LostAfter;
    SourceInOrder(m, key, record);
    StoredIs(m, stored, key, record);
    DispatchExactly(stored, key, record);
    TakenVideoArrives(m, key, record);
    TakenIsLost(m, stored, key, record);
  }

  lemma TakenIsLost(m: Media, stored: Media, key: Key, record: Record)
    requires InOrder(m, key, record) && IsTaken(m, key, record) && HoldsRecord(m, stored, key, record) && key in stored.sources
    ensures
      LostAfter(m, RecordIngested(key, record), key)
      <==> stored.sources[key].desynchronized
           || (stored.sources[key].kind.Video? && IsWanted(m, key, record) && !QueueTakes(m, BridgeBytes(record)))
  {
    hide InOrder, Consume, QueueTakes;
  }

  lemma TakenVideoArrives(m: Media, key: Key, record: Record)
    requires key in m.sources && IsTaken(m, key, record)
    ensures m.sources[key].kind.Video? <==> VideoArrives(m, key, record)
  {
  }

  lemma TakenHasCredit(m: Media, stored: Media, key: Key, record: Record)
    requires InOrder(m, key, record) && IsTaken(m, key, record) && HoldsRecord(m, stored, key, record)
    ensures key in Dispatch(stored, key, record).media.sources
    ensures CreditIs(m, Dispatch(stored, key, record), key, record)
  {
    hide InOrder, Consume, Dispatch, QueueTakes, IsWanted, VideoIsThere, Return, EndsLoss;
    SourceInOrder(m, key, record);
    PaidIsConsumed(m.sources[key].credit, record.bytes);
    StoredIs(m, stored, key, record);
    DispatchExactly(stored, key, record);
    ReturnBalances(stored.sources[key].credit, record.bytes, 1, key in m.projected);
  }

  lemma WithinLimit(m: Media, key: Key, record: Record)
    requires InOrder(m, key, record)
    ensures m.retainedBytes <= m.config.retainedLimit
  {
  }

  lemma UntakenIsRefused(m: Media, key: Key, record: Record)
    requires InOrder(m, key, record) && IsPaid(m, key, record)
    requires !(m.sources[key].kind.Image? && record.payload.ImageData? && !record.payload.decodes)
    requires !IsTaken(m, key, record) && !IsRejectedDelta(m, key, record)
    ensures !VideoArrives(m, key, record)
    ensures
      var r := IngestCharged(Charged(m, key, record.bytes), key, record);
      r.outcome.Refused? && r.grants == [] && r.consumed == record.bytes && r.media == Charged(m, key, record.bytes)
  {
    hide InOrder, Consume, Decoded, Stored, RetainedTotal, Dispatch, Store;
    SourceInOrder(m, key, record);
    WithinLimit(m, key, record);
    var charged := Charged(m, key, record.bytes);
    var source := charged.sources[key];
    if PayloadMatches(source.kind, record.payload) && (record.payload.RasterFrame? ==> record.payload.verdict.Accepted?) {
      StoredExactly(source, record, key in m.projected);
      TotalIs(m, key, record);
      assert WithSource(charged, key, source) == charged;
    }
  }

  /** Everything an ingest does, from the records that may be sent to the credit that comes back. */
  lemma IngestExactly(m: Media, key: Key, record: Record)
    requires InOrder(m, key, record)
    ensures IngestIs(m, Ingest(m, key, record), key, record)
  {
    hide InOrder, IngestIs, Ingest, IngestCharged, IsTaken, IsRejectedDelta, VideoArrives, OutcomeIs, EffectIs, CreditIs,
      HoldsRecord, Dispatch;
    SourceInOrder(m, key, record);
    if !IsPaid(m, key, record) || (m.sources[key].kind.Image? && record.payload.ImageData? && !record.payload.decodes) {
      UnpaidIngest(m, key, record);
    } else {
      PaidIngest(m, key, record);
      if IsTaken(m, key, record) {
        var stored := TakenIsStored(m, key, record);
        TakenHasOutcome(m, stored, key, record);
        TakenHasEffect(m, stored, key, record);
        TakenHasCredit(m, stored, key, record);
        AllThree(m, Ingest(m, key, record), key, record);
      } else if IsRejectedDelta(m, key, record) {
        RejectedIngest(m, key, record);
      } else {
        UntakenIsRefused(m, key, record);
        RefusedIs(m, Ingest(m, key, record), key, record);
      }
    }
  }

  lemma AllThree(m: Media, r: Ingested, key: Key, record: Record)
    requires key in m.sources && key in r.media.sources
    requires OutcomeIs(m, r, key, record) && EffectIs(m, r, key, record) && CreditIs(m, r, key, record)
    ensures IngestIs(m, r, key, record)
  {
    hide OutcomeIs, EffectIs, CreditIs;
  }

  lemma RejectedIngest(m: Media, key: Key, record: Record)
    requires InOrder(m, key, record) && IsRejectedDelta(m, key, record)
    requires Ingest(m, key, record) == IngestCharged(Charged(m, key, record.bytes), key, record)
    ensures IngestIs(m, Ingest(m, key, record), key, record)
  {
    hide InOrder, Consume, ReturnCredit, IngestIs, Ingest;
    RejectedIs(m, Ingest(m, key, record), key, record);
  }

  /** A source that lives through a step has lost synchronization afterwards exactly when the step makes it lose it, or it had
      lost it and the step does not recover it. */
  lemma LossExactly(m: Media, step: Step, key: Key)
    requires SceneValid(m) && CreditsBalanced(m) && LimitFits(m) && RecordFits(step)
    requires key in m.sources && key in Next(m, step).media.sources
    ensures Next(m, step).media.sources[key].desynchronized <==> LostAfter(m, step, key)
  {
    hide SceneValid, CreditsBalanced, LimitFits, RecordFits, Next, Ingest, LostAfter, RequestKeyframes;
    var after := Next(m, step).media;
    match step
    case RecordIngested(source, record) => IngestObeysLaw(m, source, record, key);
    case KeyframesRequested(requests) => KeyframesObeyLaw(m, step, key);
    case Flushed(_, _) => PlaybackObeysLaw(m, step, key);
    case StreamEnded(_) => PlaybackObeysLaw(m, step, key);
    case PlaybackSet(_, _) => PlaybackObeysLaw(m, step, key);
    case SourceCreated(_, _, _, _) => PlaybackObeysLaw(m, step, key);
    case HandoverFailed(_, _) => DeliveryStepsObeyLaw(m, step, key);
    case DeliveryCompleted(_, _) => DeliveryStepsObeyLaw(m, step, key);
    case DeliveriesCancelled(_, _) => DeliveryStepsObeyLaw(m, step, key);
    case Projected(_, _, _) => DeliveryStepsObeyLaw(m, step, key);
    case Deactivated(_) => DeliveryStepsObeyLaw(m, step, key);
    case _ => SceneObeysLaw(m, step, key);
  }

  lemma KeyframesObeyLaw(m: Media, step: Step, key: Key)
    requires step.KeyframesRequested? && key in m.sources
    ensures LawHolds(m, Next(m, step).media, step, key)
  {
    hide RequestKeyframes, Emissions;
    RequestsObeyLaw(m, step.requests, key);
  }

  lemma IngestObeysLaw(m: Media, source: Key, record: Record, key: Key)
    requires SceneValid(m) && CreditsBalanced(m) && LimitFits(m) && RecordFits(RecordIngested(source, record))
    ensures LawHolds(m, Next(m, RecordIngested(source, record)).media, RecordIngested(source, record), key)
  {
    hide SceneValid, CreditsBalanced, LimitFits, RecordFits, Ingest, OutcomeIs, CreditIs, VideoArrives, EndsLoss, IsTaken;
    if source in m.sources {
      IngestExactly(m, source, record);
      assert EffectIs(m, Ingest(m, source, record), source, record);
    } else {
      MissingChangesNothing(m, source, record);
    }
  }

  lemma MissingChangesNothing(m: Media, key: Key, record: Record)
    requires key !in m.sources
    ensures Ingest(m, key, record) == Ingested(m, Refused("source no longer exists"), 0, [])
  {
  }
}
