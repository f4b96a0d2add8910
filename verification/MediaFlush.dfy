/** What a flush does to a source's way to the bridge (src/media.rs:3028-3055, 3892-3930): exactly when anything is
    forwarded for it again. */
module MediaFlush {
  import opened Wrappers
  import opened FixedWidth
  import opened MapSums
  import opened MediaCredit
  import opened MediaState
  import opened MediaScene
  import opened MediaLedger
  import opened MediaRecovery

  /** The way is free: the source is visible, a bridge is attached with nothing queued and an id left, there is credit
      for a record of one byte, and a raster finds room to retain it. */
  ghost predicate WayIsFree(m: Media, key: Key) {
    && SceneValid(m) && CreditsBalanced(m)
    && key in m.sources && key in m.projected && m.attached && m.queuedBytes == 0 && m.nextDeliveryId < U64_MAX
    && m.sources[key].credit.outstandingBytes > 0 && m.sources[key].credit.outstandingPackets > 0
    && (m.sources[key].kind.Raster? ==> m.retainedBytes - m.sources[key].retainedBytes < m.config.retainedLimit)
  }

  /** Some record of the source would be queued for the bridge at once. */
  ghost predicate WouldForward(m: Media, key: Key) {
    exists record :: Possible(m, RecordIngested(key, record)) && Forwards(m, RecordIngested(key, record), key)
  }

  /** A source that has not lost synchronization, nor has the video it is linked to. */
  predicate Synchronized(m: Media, key: Key)
    requires key in m.sources
  {
    !m.sources[key].desynchronized && LinkedVideoReady(m, key, m.sources[key].kind)
  }

  /** A record of one byte that its source takes: for a video a keyframe of the minimum epoch. */
  function Token(source: Source): Record {
    match source.kind
    case Raster => Record(1, RasterFrame(Accepted(source.epoch, 1, false)))
    case Image => Record(1, ImageData(true))
    case Video => Record(1, VideoPacket(true, source.minimumEpoch, true))
    case Audio(_) => Record(1, AudioPacket(true, source.epoch))
  }

  lemma TokenIsCharged(c: Credit)
    requires Balanced(c) && c.outstandingBytes > 0 && c.outstandingPackets > 0
    ensures Consume(c, 1).accepted
  {
    ConsumeBalances(c, 1);
  }

  lemma TokenFits(m: Media, key: Key)
    requires WayIsFree(m, key)
    ensures RetainedTotal(m, key, Token(m.sources[key])) <= m.config.retainedLimit || m.sources[key].kind.Image?
  {
    hide SceneValid;
    CountsSource(m, key);
    if !IsStatic(m.sources[key].kind) {
      TimedRecordsFit(m, key, Token(m.sources[key]));
    }
  }

  lemma TokenIsDecoded(source: Source)
    requires source.kind.Video? || (!source.kind.Image? && !source.desynchronized)
    ensures
      var record := Token(source);
      && PayloadMatches(source.kind, record.payload) && Decoded(source, record.payload, true).Ok?
      && var stored := Stored(Decoded(source, record.payload, true).value, record);
         !stored.desynchronized && stored.kind == source.kind
  {
  }

  /** On a free way the token is queued when nothing is lost, or when it is a recovery. */
  lemma TokenIsQueued(m: Media, key: Key)
    requires WayIsFree(m, key) && !m.sources[key].kind.Image?
    requires IsVideo(m, key) || Synchronized(m, key)
    ensures Forwards(m, RecordIngested(key, Token(m.sources[key])), key)
  {
    hide Consume, SceneValid, CreditsBalanced, Decoded, Stored, RetainedTotal, IngestCharged, ReturnCredit, Ingest;
    var source := m.sources[key];
    var record := Token(source);
    assert Balanced(source.credit) by { LedgerIsBalanced(m, key); }
    TokenIsCharged(source.credit);
    ChargedIngest(m, key, record);
    var credit := Consume(source.credit, 1).credit;
    var charged := WithSource(m, key, source.(credit := credit));
    TokenIsDecoded(source.(credit := credit));
    TokenFits(m, key);
    assert RetainedTotal(charged, key, record) == RetainedTotal(m, key, record) by { SameTotal(m, key, credit, record); }
    var decoded := Decoded(charged.sources[key], record.payload, true).value;
    assert IngestCharged(charged, key, record) == Dispatch(Store(charged, key, decoded, record), key, record) by {
      TokenIsStored(charged, key, record);
    }
  }

  lemma LedgerIsBalanced(m: Media, key: Key)
    requires CreditsBalanced(m) && key in m.sources
    ensures Balanced(m.sources[key].credit)
  {
  }

  lemma SameTotal(m: Media, key: Key, credit: Credit, record: Record)
    requires key in m.sources
    ensures RetainedTotal(WithSource(m, key, m.sources[key].(credit := credit)), key, record) == RetainedTotal(m, key, record)
  {
  }

  lemma TokenIsStored(m: Media, key: Key, record: Record)
    requires key in m.sources && PayloadMatches(m.sources[key].kind, record.payload)
    requires record.payload.RasterFrame? ==> record.payload.verdict.Accepted?
    requires Decoded(m.sources[key], record.payload, key in m.projected).Ok?
    requires RetainedTotal(m, key, record) <= m.config.retainedLimit
    ensures
      IngestCharged(m, key, record)
      == Dispatch(Store(m, key, Decoded(m.sources[key], record.payload, key in m.projected).value, record), key, record)
  {
    hide Decoded, Dispatch, RetainedTotal, Store;
  }

  /** On a free way something is forwarded for a source exactly when it is a video, or a raster or audio that is
      synchronized. */
  lemma ForwardsIffRecoverable(m: Media, key: Key)
    requires WayIsFree(m, key)
    ensures WouldForward(m, key) <==> IsVideo(m, key) || (!m.sources[key].kind.Image? && Synchronized(m, key))
  {
    hide SceneValid, Ingest;
    var source := m.sources[key];
    if IsVideo(m, key) || (!source.kind.Image? && Synchronized(m, key)) {
      TokenIsQueued(m, key);
      assert Possible(m, RecordIngested(key, Token(source)));
    }
    forall record | Forwards(m, RecordIngested(key, record), key) && !IsVideo(m, key)
      ensures !source.kind.Image? && Synchronized(m, key)
    {
      IngestHoldsLoss(m, key, record, key);
      if source.kind.Image? {
        ImagesStay(m, key, record);
      }
    }
  }

  lemma ImagesStay(m: Media, key: Key, record: Record)
    requires key in m.sources && m.sources[key].kind.Image?
    ensures !Forwards(m, RecordIngested(key, record), key)
  {
    hide Consume, ReturnCredit, QueueAdmits, ForwardedBytes, RetainedTotal;
  }

  /** After some run through which the source lives, a step forwards a record for it. */
  ghost predicate ForwardsAfter(m: Media, key: Key, steps: seq<Step>, next: Step) {
    && PossibleRun(m, steps) && LivesOn(m, steps, key)
    && Possible(Run(m, steps), next) && Forwards(Run(m, steps), next, key)
  }

  ghost predicate EverForwards(m: Media, key: Key) {
    exists steps, next :: ForwardsAfter(m, key, steps, next)
  }

  /** After a flush with the way free, a source is ever forwarded again exactly when it is a video. */
  lemma FlushedForwardsIffVideo(m: Media, key: Key, epoch: nat)
    requires WayIsFree(m, key)
    ensures EverForwards(Flush(m, key, epoch), key) <==> IsVideo(m, key)
  {
    hide SceneValid, Forwards, Possible, Run, PossibleRun, LivesOn;
    var flushed := Flush(m, key, epoch);
    if IsVideo(m, key) {
      FlushKeepsTheWay(m, key, epoch);
      TokenIsQueued(flushed, key);
      var next := RecordIngested(key, Token(flushed.sources[key]));
      NoSteps(flushed, key, next);
      assert ForwardsAfter(flushed, key, [], next);
    } else {
      forall steps, next | ForwardsAfter(flushed, key, steps, next) ensures false {
        FlushSilencesOtherKinds(m, key, epoch, steps, next);
      }
    }
  }

  lemma FlushKeepsTheWay(m: Media, key: Key, epoch: nat)
    requires WayIsFree(m, key)
    ensures WayIsFree(Flush(m, key, epoch), key) && IsVideo(Flush(m, key, epoch), key) == IsVideo(m, key)
  {
    hide SceneValid, SceneKept, Balanced;
    var flushed := Flush(m, key, epoch);
    SourceKept(m, key, flushed.sources[key]);
    KeptIsValid(m, flushed);
  }

  lemma NoSteps(m: Media, key: Key, next: Step)
    requires key in m.sources && next.RecordIngested? && next.record == Token(m.sources[key])
    ensures PossibleRun(m, []) && LivesOn(m, [], key) && Run(m, []) == m && Possible(m, next)
  {
  }

  /** So a flush takes the way from exactly the rasters and audio that had it. */
  lemma FlushTakesTheWay(m: Media, key: Key, epoch: nat)
    requires WayIsFree(m, key) && !m.sources[key].kind.Image? && Synchronized(m, key)
    ensures WouldForward(m, key)
    ensures WouldForward(Flush(m, key, epoch), key) <==> IsVideo(m, key)
  {
    hide WouldForward, WayIsFree;
    assert key in m.sources by { assert WayIsFree(m, key); WayHasSource(m, key); }
    ForwardsIffRecoverable(m, key);
    FlushKeepsTheWay(m, key, epoch);
    ForwardsIffRecoverable(Flush(m, key, epoch), key);
  }

  lemma WayHasSource(m: Media, key: Key)
    requires WayIsFree(m, key)
    ensures key in m.sources
  {
  }

  // ---- A run of it ----

  const SMALL := Config(4, 4, 1000, 1000)
  const PICTURE := Key(1, 7)
  const FRAME := Record(10, RasterFrame(Accepted(1, 40, false)))

  /** A producer connects, creates a raster that becomes visible, and sends a frame, which reaches the outer presenter;
      then it flushes the source. */
  function FlushedRaster(): seq<Step> {
    [Registered(1, 2), SourceCreated(PICTURE, Raster, 100, false), Projected({PICTURE}, {2}, []),
     RecordIngested(PICTURE, FRAME), DeliveryCompleted(1, true), Flushed(PICTURE, 1)]
  }

  /** The presenter with that raster, its credit, what it retains and what is queued. */
  function Showing(credit: Credit, retained: Option<nat>, epoch: nat, deliveries: map<nat, Delivery>, queued: nat): Media {
    var bytes := if retained.Some? then retained.value else 0;
    Media(SMALL, map[1 := Producer(2, map[])],
          map[PICTURE := Source(Raster, credit, retained, bytes, false, false, false, epoch, 0, None, false)],
          map[], deliveries, if retained.Some? then 1 else 0, queued, bytes, {PICTURE}, {2}, true)
  }

  const CREATED := Showing(Credit(100, 8, 100, 1, 0, 0), None, 0, map[], 0)

  const SENT := Showing(Credit(100, 8, 90, 0, 10, 1), Some(40), 1, map[1 := Delivery(PICTURE, 10, 40)], 40)

  const DELIVERED := Showing(Credit(100, 8, 100, 8, 0, 0), Some(40), 1, map[], 0)

  lemma OneMoreStep(m: Media, steps: seq<Step>, step: Step)
    ensures Run(m, steps + [step]) == Next(Run(m, steps), step).media
    ensures PossibleRun(m, steps + [step]) <==> PossibleRun(m, steps) && Possible(Run(m, steps), step)
  {
    hide Next, Possible;
    assert (steps + [step])[..|steps|] == steps;
  }

  lemma RasterIsShown()
    ensures
      var steps := FlushedRaster()[..3];
      PossibleRun(Initially(SMALL, true), steps) && Run(Initially(SMALL, true), steps) == CREATED
  {
    var m := Initially(SMALL, true);
    var steps := FlushedRaster();
    assert Run(m, []) == m && PossibleRun(m, []);
    OneMoreStep(m, [], steps[0]);
    assert [] + [steps[0]] == [steps[0]] && [steps[0]] + [steps[1]] == steps[..2] && steps[..2] + [steps[2]] == steps[..3];
    var registered := Next(m, steps[0]).media;
    assert registered == m.(producers := map[1 := Producer(2, map[])]);
    OneMoreStep(m, [steps[0]], steps[1]);
    var created := Next(registered, steps[1]).media;
    assert created == CREATED.(projected := {}, activePanes := {});
    OneMoreStep(m, steps[..2], steps[2]);
    assert TakeDeliveries(created.(projected := {PICTURE}), []).media == created.(projected := {PICTURE});
  }

  const CHARGED := Showing(Credit(100, 8, 90, 0, 10, 1), None, 0, map[], 0)

  const STORED := Showing(Credit(100, 8, 90, 0, 10, 1), Some(40), 1, map[], 0).(nextDeliveryId := 0)

  lemma ChargedIngest(m: Media, key: Key, record: Record)
    requires key in m.sources && !m.sources[key].kind.Image? && Consume(m.sources[key].credit, record.bytes).accepted
    ensures
      var source := m.sources[key];
      Ingest(m, key, record)
      == IngestCharged(WithSource(m, key, source.(credit := Consume(source.credit, record.bytes).credit)), key, record)
  {
    hide IngestCharged, Consume;
  }

  lemma ShowingCredit(c: Credit, d: Credit, retained: Option<nat>, epoch: nat, deliveries: map<nat, Delivery>, queued: nat)
    ensures
      var m := Showing(c, retained, epoch, deliveries, queued);
      && PICTURE in m.sources && m.sources[PICTURE].credit == c && m.sources[PICTURE].kind == Raster
      && WithSource(m, PICTURE, m.sources[PICTURE].(credit := d)) == Showing(d, retained, epoch, deliveries, queued)
  {
  }

  lemma ConsumeTen()
    ensures Consume(Credit(100, 8, 100, 1, 0, 0), 10) == Consumed(Credit(100, 8, 90, 0, 10, 1), true)
  {
  }

  lemma FrameIsCharged()
    ensures Ingest(CREATED, PICTURE, FRAME) == IngestCharged(CHARGED, PICTURE, FRAME)
  {
    hide IngestCharged, Ingest, Showing, WithSource, Consume;
    ConsumeTen();
    ShowingCredit(Credit(100, 8, 100, 1, 0, 0), Credit(100, 8, 90, 0, 10, 1), None, 0, map[], 0);
    ChargedIngest(CREATED, PICTURE, FRAME);
  }

  lemma FrameIsStored()
    ensures IngestCharged(CHARGED, PICTURE, FRAME) == Dispatch(STORED, PICTURE, FRAME)
  {
    hide Dispatch, ReturnCredit;
    assert Store(CHARGED, PICTURE, CHARGED.sources[PICTURE], FRAME) == STORED;
  }

  lemma FrameIsQueued()
    ensures Dispatch(STORED, PICTURE, FRAME) == Ingested(SENT, Queued(1), 10, [])
  {
    hide ReturnCredit;
  }

  lemma FrameIsSent()
    ensures Possible(CREATED, RecordIngested(PICTURE, FRAME))
    ensures Next(CREATED, RecordIngested(PICTURE, FRAME)).media == SENT
    ensures Forwards(CREATED, RecordIngested(PICTURE, FRAME), PICTURE)
  {
    hide Ingest, IngestCharged, Dispatch, Showing;
    FrameIsCharged();
    FrameIsStored();
    FrameIsQueued();
  }

  lemma FrameIsDelivered()
    ensures Next(SENT, DeliveryCompleted(1, true)).media == DELIVERED
  {
    var taken := SENT.(deliveries := map[], queuedBytes := 0);
    assert SENT.deliveries - {1} == map[];
    assert ReturnCredit(taken, PICTURE, 10, 1).media == DELIVERED;
  }

  lemma FrameIsDropped(epoch: nat)
    ensures Ingest(Flush(DELIVERED, PICTURE, epoch), PICTURE, FRAME).outcome == NotQueued(false)
  {
    var flushed := Flush(DELIVERED, PICTURE, epoch);
    assert Consume(flushed.sources[PICTURE].credit, 10).accepted;
  }

  /** The frame is forwarded before the flush; after it the same frame is taken and dropped, although the source is as
      visible and as well supplied with credit as before. */
  lemma RasterIsSilenced()
    ensures PossibleRun(Initially(SMALL, true), FlushedRaster())
    ensures Run(Initially(SMALL, true), FlushedRaster()[..3]) == CREATED
    ensures Forwards(CREATED, RecordIngested(PICTURE, FRAME), PICTURE)
    ensures Run(Initially(SMALL, true), FlushedRaster()) == Flush(DELIVERED, PICTURE, 1)
    ensures Ingest(Flush(DELIVERED, PICTURE, 1), PICTURE, FRAME).outcome == NotQueued(false)
  {
    hide PossibleRun, Run, Ingest, Showing, Flush, CompleteDelivery;
    var m, steps := Initially(SMALL, true), FlushedRaster();
    RasterIsShown();
    FrameIsSent();
    FrameIsDelivered();
    FrameIsDropped(1);
    OneMoreStep(m, steps[..3], steps[3]);
    OneMoreStep(m, steps[..4], steps[4]);
    OneMoreStep(m, steps[..5], steps[5]);
    assert steps[..3] + [steps[3]] == steps[..4] && steps[..4] + [steps[4]] == steps[..5] && steps[..5] + [steps[5]] == steps;
    assert 1 in DELIVERED.producers by { ProducerStays(); }
  }

  lemma ProducerStays()
    ensures PICTURE.producer in DELIVERED.producers
  {
  }
}
