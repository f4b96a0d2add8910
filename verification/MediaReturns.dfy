/** Whether a pending delivery gives its credit back when it is taken (src/media.rs:1486-1594): the source must have at
    least that much charged. It has, unless its id was used again while deliveries of an earlier source were pending. */
module MediaReturns {
  import opened Wrappers
  import opened FixedWidth
  import opened MapSums
  import opened PointSets
  import opened MediaCredit
  import opened MediaState
  import opened MediaLedger
  import MediaFlush

  /** The byte credits of the pending deliveries of one source. */
  ghost function Pending(deliveries: map<nat, Delivery>, key: Key): map<nat, nat> {
    map id | id in deliveries && deliveries[id].source == key :: deliveries[id].creditBytes
  }

  /** A source has charged what its pending deliveries hold, and `bytes` and `packets` beyond that. */
  ghost predicate Covers(m: Media, key: Key, bytes: nat, packets: nat) {
    key in m.sources ==>
      && Sum(Pending(m.deliveries, key)) + bytes <= m.sources[key].credit.chargedBytes
      && |Pending(m.deliveries, key)| + packets <= m.sources[key].credit.chargedPackets
  }

  /** Every delivery that is pending for a source is charged to it. */
  ghost predicate AllCovered(m: Media) {
    forall key :: Covers(m, key, 0, 0)
  }

  // ---- Single sections ----

  lemma PendingWithout(deliveries: map<nat, Delivery>, id: nat, key: Key)
    requires id in deliveries
    ensures
      var all, rest := Pending(deliveries, key), Pending(deliveries - {id}, key);
      if deliveries[id].source == key then
        && id in all && |rest| == |all| - 1 && Sum(rest) == Sum(all) - deliveries[id].creditBytes
      else rest == all
  {
    var all, rest := Pending(deliveries, key), Pending(deliveries - {id}, key);
    if deliveries[id].source == key {
      SumRemove(all, id);
      assert rest == all - {id};
      assert rest.Keys == all.Keys - {id};
      assert |rest| == |rest.Keys| && |all| == |all.Keys|;
    } else {
      assert rest == all;
    }
  }

  lemma PendingWith(deliveries: map<nat, Delivery>, id: nat, delivery: Delivery, key: Key)
    requires id !in deliveries
    ensures
      var all, more := Pending(deliveries, key), Pending(deliveries[id := delivery], key);
      if delivery.source == key then |more| == |all| + 1 && Sum(more) == Sum(all) + delivery.creditBytes else more == all
  {
    PendingWithout(deliveries[id := delivery], id, key);
    assert deliveries[id := delivery] - {id} == deliveries;
  }

  /** Returning part of what is charged beyond the pending deliveries. */
  lemma ReturnKeepsCover(m: Media, source: Key, bytes: nat, packets: nat, key: Key, b: nat, p: nat)
    requires CreditsBalanced(m)
    requires if source == key then Covers(m, key, b + bytes, p + packets) else Covers(m, key, b, p)
    ensures Covers(ReturnCredit(m, source, bytes, packets).media, key, b, p)
  {
    hide Return, Balanced, Sum, Pending;
    if source in m.sources {
      ReturnBalances(m.sources[source].credit, bytes, packets, source in m.projected);
    }
  }

  lemma TakeKeepsCover(m: Media, id: nat, key: Key, b: nat, p: nat)
    requires CreditsBalanced(m) && Covers(m, key, b, p)
    ensures Covers(TakeDelivery(m, id).media, key, b, p) && CreditsBalanced(TakeDelivery(m, id).media)
  {
    hide ReturnCredit, Balanced, Sum, Pending;
    TakeConserves(m, id, key);
    if id in m.deliveries {
      var pending := m.deliveries[id];
      PendingWithout(m.deliveries, id, key);
      var taken := m.(deliveries := m.deliveries - {id}, queuedBytes := SaturatingSub(m.queuedBytes, pending.queuedBytes));
      ReturnKeepsCover(taken, pending.source, pending.creditBytes, 1, key, b, p);
    }
  }

  lemma {:induction false} TakeAllKeepsCover(m: Media, ids: seq<nat>, key: Key, b: nat, p: nat)
    requires CreditsBalanced(m) && Covers(m, key, b, p)
    ensures Covers(TakeDeliveries(m, ids).media, key, b, p) && CreditsBalanced(TakeDeliveries(m, ids).media)
  {
    hide TakeDelivery, Covers, CreditsBalanced;
    if ids != [] {
      var n := |ids| - 1;
      TakeAllKeepsCover(m, ids[..n], key, b, p);
      TakeKeepsCover(TakeDeliveries(m, ids[..n]).media, ids[n], key, b, p);
    }
  }

  /** A pending delivery of a source that has it covered gives back exactly its bytes and its packet, and a visible source
      what its packet window misses besides. */
  lemma TakenInFull(m: Media, id: nat)
    requires CreditsBalanced(m) && id in m.deliveries && Covers(m, m.deliveries[id].source, 0, 0)
    requires m.deliveries[id].source in m.sources
    ensures
      var key := m.deliveries[id].source;
      var r, before := TakeDelivery(m, id), m.sources[key].credit;
      && key in r.media.sources && |r.grants| == 1 && r.grants[0].key == key
      && var after, grant := r.media.sources[key].credit, r.grants[0].grant;
         && grant.bytes == m.deliveries[id].creditBytes && grant.packets >= 1
         && after.outstandingBytes == before.outstandingBytes + m.deliveries[id].creditBytes
         && after.chargedBytes == before.chargedBytes - m.deliveries[id].creditBytes
         && after.chargedPackets == before.chargedPackets - 1
         && after.outstandingPackets == before.outstandingPackets + grant.packets
         && (if key in m.projected then PacketSum(after) == after.windowPackets else grant.packets == 1)
  {
    hide Return, Sum;
    var key := m.deliveries[id].source;
    PendingWithout(m.deliveries, id, key);
    ReturnBalances(m.sources[key].credit, m.deliveries[id].creditBytes, 1, key in m.projected);
  }

  // ---- Steps ----

  lemma KeptKeepsCover(m: Media, after: Media, key: Key, b: nat, p: nat)
    requires CreditsKept(m, after) && QueueKept(m, after) && Covers(m, key, b, p)
    ensures Covers(after, key, b, p)
  {
  }

  ghost predicate IdsBelow(m: Media) {
    forall id :: id in m.deliveries ==> id <= m.nextDeliveryId
  }

  lemma DispatchKeepsCover(m: Media, source: Key, record: Record, key: Key, b: nat, p: nat)
    requires source in m.sources && CreditsBalanced(m) && IdsBelow(m)
    requires if source == key then Covers(m, key, b + record.bytes, p + 1) else Covers(m, key, b, p)
    ensures Covers(Dispatch(m, source, record).media, key, b, p)
  {
    hide ReturnCredit, Balanced, ForwardTimed, QueueAdmits, ForwardedBytes, Sum, Pending;
    if ForwardTimed(m, source) && QueueAdmits(m, ForwardedBytes(record)) {
      var id: nat := m.nextDeliveryId + 1;
      PendingWith(m.deliveries, id, Delivery(source, record.bytes, ForwardedBytes(record)), key);
    } else {
      var lost := ForwardTimed(m, source) && m.sources[source].kind.Video?;
      var dropped := if lost then WithSource(m, source, m.sources[source].(desynchronized := true)) else m;
      ReturnKeepsCover(dropped, source, record.bytes, 1, key, b, p);
    }
  }

  lemma StoredKeepsCover(m: Media, source: Key, decoded: Source, record: Record, key: Key, b: nat, p: nat)
    requires source in m.sources && Stored(decoded, record).credit == decoded.credit == m.sources[source].credit
    ensures
      var stored := Store(m, source, decoded, record);
      && source in stored.sources && (CreditsBalanced(m) ==> CreditsBalanced(stored)) && (IdsBelow(m) ==> IdsBelow(stored))
      && (Covers(m, key, b, p) ==> Covers(stored, key, b, p))
      && (Covers(m, key, b, p) ==> Covers(WithSource(m, source, decoded), key, b, p))
  {
    hide Stored, RetainedTotal, Sum, Pending, Balanced;
  }

  lemma LessIsCovered(m: Media, key: Key, b: nat, p: nat, b': nat, p': nat)
    requires Covers(m, key, b, p) && b' <= b && p' <= p
    ensures Covers(m, key, b', p')
  {
  }

  lemma ChargedKeepsCover(m: Media, source: Key, record: Record, key: Key, b: nat, p: nat)
    requires source in m.sources && CreditsBalanced(m) && IdsBelow(m)
    requires if source == key then Covers(m, key, b + record.bytes, p + 1) else Covers(m, key, b, p)
    ensures Covers(IngestCharged(m, source, record).media, key, b, p)
  {
    hide ReturnCredit, CreditsBalanced, IdsBelow, Dispatch, Decoded, Stored, Store, WithSource, RetainedTotal, PayloadMatches,
      Covers;
    ReturnKeepsCover(m, source, record.bytes, 1, key, b, p);
    var before := m.sources[source];
    var bytes, packets := if source == key then b + record.bytes else b, if source == key then p + 1 else p;
    LessIsCovered(m, key, bytes, packets, b, p);
    if PayloadMatches(before.kind, record.payload) && Decoded(before, record.payload, source in m.projected).Ok? {
      DecodedKeepsCredit(before, record, source in m.projected);
      var decoded := Decoded(before, record.payload, source in m.projected).value;
      StoredKeepsCover(m, source, decoded, record, key, bytes, packets);
      LessIsCovered(WithSource(m, source, decoded), key, bytes, packets, b, p);
      DispatchKeepsCover(Store(m, source, decoded, record), source, record, key, b, p);
    }
  }

  lemma IngestKeepsCover(m: Media, source: Key, record: Record, key: Key, b: nat, p: nat)
    requires CreditsBalanced(m) && IdsBelow(m) && Covers(m, key, b, p)
    ensures Covers(Ingest(m, source, record).media, key, b, p)
  {
    hide Consume, IngestCharged, Balanced, Sum, Pending;
    if source in m.sources {
      ConsumeBalances(m.sources[source].credit, record.bytes);
      if Consume(m.sources[source].credit, record.bytes).accepted {
        ConsumeMovesCredit(m.sources[source].credit, record.bytes);
        ChargedKeepsCover(Charged(m, source, record.bytes), source, record, key, b, p);
      }
    }
  }

  lemma ConsumeMovesCredit(c: Credit, bytes: nat)
    requires Balanced(c) && Consume(c, bytes).accepted
    ensures
      var after := Consume(c, bytes).credit;
      after.chargedBytes == c.chargedBytes + bytes && after.chargedPackets == c.chargedPackets + 1
  {
  }

  /** A source is created under an id for which deliveries of an earlier source are pending. */
  ghost predicate ReusesId(m: Media, step: Step) {
    && step.SourceCreated? && CreateSource(m, step.key, step.kind, step.maximum, step.posterDenied).Ok?
    && Pending(m.deliveries, step.key) != map[]
  }

  lemma CreationCovers(m: Media, step: Step, key: Key, b: nat, p: nat)
    requires step.SourceCreated? && Covers(m, key, b, p)
    ensures
      var after := Next(m, step).media;
      if key in m.sources || key !in after.sources then Covers(after, key, b, p)
      else Covers(after, key, 0, 0) <==> !ReusesId(m, step)
  {
    hide Sum;
    var after := Next(m, step).media;
    if key !in m.sources && key in after.sources {
      var pending := Pending(m.deliveries, key);
      SumEmpty<nat>();
      assert pending == map[] <==> |pending| == 0;
    }
  }

  lemma DeliveryStepsKeepCover(m: Media, step: Step, key: Key, b: nat, p: nat)
    requires step.HandoverFailed? || step.DeliveryCompleted? || step.DeliveriesCancelled? || step.Projected? || step.Deactivated?
    requires CreditsBalanced(m) && Covers(m, key, b, p)
    ensures Covers(Next(m, step).media, key, b, p)
  {
    hide TakeDelivery, TakeDeliveries, Balanced, Sum, Pending;
    match step
    case HandoverFailed(source, delivery) =>
      TakeKeepsCover(m, delivery, key, b, p);
    case DeliveryCompleted(delivery, _) =>
      if delivery in m.deliveries {
        TakeKeepsCover(m, delivery, key, b, p);
        TakeKeepsCover(Desynchronize(m, m.deliveries[delivery].source), delivery, key, b, p);
      }
    case DeliveriesCancelled(_, deliveries) => TakeAllKeepsCover(m, deliveries, key, b, p);
    case Projected(visible, _, hidden) => TakeAllKeepsCover(m.(projected := visible), hidden, key, b, p);
    case Deactivated(deliveries) =>
      var sources :=
        map source | source in m.sources ::
          if m.sources[source].kind.Video? && m.sources[source].playing then m.sources[source].(desynchronized := true)
          else m.sources[source];
      TakeAllKeepsCover(m.(projected := {}, sources := sources), deliveries, key, b, p);
  }

  /** What a source has charged beyond its pending deliveries stays charged as long as it lives; so it never falls short
      of them. A new source covers what is pending under its id exactly when that is nothing. */
  lemma StepKeepsCover(m: Media, step: Step, key: Key, b: nat, p: nat)
    requires CreditsBalanced(m) && IdsBelow(m) && Possible(m, step) && Covers(m, key, b, p)
    ensures
      var after := Next(m, step).media;
      if key in m.sources || key !in after.sources then Covers(after, key, b, p)
      else Covers(after, key, 0, 0) <==> !ReusesId(m, step)
  {
    hide Next, Covers, Balanced, Possible, CreditsBalanced, IdsBelow;
    if step.SourceCreated? {
      CreationCovers(m, step, key, b, p);
    } else {
      if step.RecordIngested? {
        IngestKeepsCover(m, step.key, step.record, key, b, p);
        IngestIsNext(m, step);
      } else if step.HandoverFailed? || step.DeliveryCompleted? || step.DeliveriesCancelled? || step.Projected? || step.Deactivated? {
        DeliveryStepsKeepCover(m, step, key, b, p);
      } else {
        OtherStepsKeepCredits(m, step);
        OtherStepsKeepQueue(m, step);
        KeptKeepsCover(m, Next(m, step).media, key, b, p);
      }
      LessIsCovered(Next(m, step).media, key, b, p, 0, 0);
    }
  }

  lemma IngestIsNext(m: Media, step: Step)
    requires step.RecordIngested?
    ensures Next(m, step).media == Ingest(m, step.key, step.record).media
  {
    hide Ingest;
  }

  // ---- Runs ----

  /** From a state in which every pending delivery is charged, a step leads out of it exactly by using an id again. */
  lemma StepCoversIff(m: Media, step: Step)
    requires CreditsBalanced(m) && IdsBelow(m) && Possible(m, step) && AllCovered(m)
    ensures AllCovered(Next(m, step).media) <==> !ReusesId(m, step)
  {
    hide Next, Covers, CreditsBalanced, IdsBelow, Possible;
    var after := Next(m, step).media;
    forall key ensures key in m.sources || key !in after.sources ==> Covers(after, key, 0, 0) {
      StepKeepsCover(m, step, key, 0, 0);
    }
    forall key | key !in m.sources && key in after.sources ensures Covers(after, key, 0, 0) <==> !ReusesId(m, step) {
      StepKeepsCover(m, step, key, 0, 0);
    }
    if ReusesId(m, step) {
      CreatedAppears(m, step);
    }
  }

  lemma CreatedAppears(m: Media, step: Step)
    requires ReusesId(m, step)
    ensures step.key !in m.sources && step.key in Next(m, step).media.sources
  {
  }

  ghost predicate NeverReusesId(m: Media, steps: seq<Step>) {
    if steps == [] then true
    else
      var n := |steps| - 1;
      NeverReusesId(m, steps[..n]) && !ReusesId(Run(m, steps[..n]), steps[n])
  }

  /** In every reachable state, unless a source id was used again too early: whatever delivery is taken then, `TakenInFull`
      applies to it. */
  lemma {:induction false} PendingIsCharged(config: Config, attached: bool, steps: seq<Step>)
    requires config.queueLimit + U32_MAX <= U64_MAX
    requires PossibleRun(Initially(config, attached), steps) && RecordsFit(steps)
    requires NeverReusesId(Initially(config, attached), steps)
    ensures AllCovered(Run(Initially(config, attached), steps)) && CreditsBalanced(Run(Initially(config, attached), steps))
  {
    hide Next, Possible, RecordFits, AllCovered, CreditsBalanced, ReusesId, QueueExact, Flows;
    var m := Initially(config, attached);
    if steps == [] {
      NothingPending(config, attached);
    } else {
      var n := |steps| - 1;
      assert forall i :: 0 <= i < n ==> steps[..n][i] == steps[i];
      PendingIsCharged(config, attached, steps[..n]);
      QueueStaysExact(config, attached, steps[..n]);
      ExactIsBelow(Run(m, steps[..n]));
      StepCoversIff(Run(m, steps[..n]), steps[n]);
      StepConservesCredit(Run(m, steps[..n]), steps[n], Key(0, 0));
    }
  }

  lemma NothingPending(config: Config, attached: bool)
    ensures AllCovered(Initially(config, attached)) && CreditsBalanced(Initially(config, attached))
  {
  }

  lemma ExactIsBelow(m: Media)
    requires QueueExact(m)
    ensures IdsBelow(m)
  {
  }

  /** As long as a source lives, what it has charged beyond its pending deliveries never becomes outstanding again. */
  lemma {:induction false} StaysCharged(m: Media, steps: seq<Step>, key: Key, b: nat, p: nat)
    requires CreditsBalanced(m) && QueueExact(m) && LimitFits(m) && Covers(m, key, b, p)
    requires PossibleRun(m, steps) && RecordsFit(steps) && LivesThrough(m, steps, key)
    ensures CreditsBalanced(Run(m, steps)) && QueueExact(Run(m, steps)) && LimitFits(Run(m, steps))
    ensures Covers(Run(m, steps), key, b, p)
  {
    hide Next, Possible, RecordFits, CreditsBalanced, QueueExact, Covers, Flows;
    if steps != [] {
      var n := |steps| - 1;
      assert forall i :: 0 <= i < n ==> steps[..n][i] == steps[i];
      StaysCharged(m, steps[..n], key, b, p);
      var now := Run(m, steps[..n]);
      ExactIsBelow(now);
      assert LivesThrough(m, steps[..n], key) && key in now.sources;
      StepKeepsCover(now, steps[n], key, b, p);
      StepKeepsQueue(now, steps[n]);
      StepConservesCredit(now, steps[n], key);
    }
  }

  // ---- A run of it ----

  const PICTURE := Key(1, 7)

  function Frame(bytes: nat): Record {
    Record(bytes, RasterFrame(Accepted(1, 40, false)))
  }

  /** A producer connects, creates a raster that becomes visible and sends a frame of 6 bytes. It destroys the source, creates
      it again under the same id and sends a frame of 10 bytes. Both deliveries complete. */
  function ReusedId(): seq<Step> {
    [Registered(1, 2), SourceCreated(PICTURE, Raster, 100, false), Projected({PICTURE}, {2}, []),
     RecordIngested(PICTURE, Frame(6)), SourceDestroyed(PICTURE), SourceCreated(PICTURE, Raster, 100, false),
     RecordIngested(PICTURE, Frame(10)), DeliveryCompleted(1, true), DeliveryCompleted(2, true)]
  }

  function Raster40(credit: Credit, shown: bool): Source {
    Source(Raster, credit, if shown then Some(40) else None, if shown then 40 else 0, false, false, false, if shown then 1 else 0, 0,
           None, false)
  }

  /** The presenter during that run. */
  function During(sources: map<Key, Source>, deliveries: map<nat, Delivery>, last: nat, queued: nat, bytes: nat): Media {
    Media(MediaFlush.SMALL, map[1 := Producer(2, map[])], sources, map[], deliveries, last, queued, bytes, {PICTURE}, {2}, true)
  }

  function With(credit: Credit, shown: bool, deliveries: map<nat, Delivery>, last: nat, queued: nat): Media {
    During(map[PICTURE := Raster40(credit, shown)], deliveries, last, queued, if shown then 40 else 0)
  }

  const FIRST := Delivery(PICTURE, 6, 40)

  const SECOND := Delivery(PICTURE, 10, 40)

  const SENT := With(Credit(100, 8, 94, 0, 6, 1), true, map[1 := FIRST], 1, 40)

  const DESTROYED := During(map[], map[1 := FIRST], 1, 40, 0)

  const CREATED := With(Credit(100, 8, 100, 1, 0, 0), false, map[1 := FIRST], 1, 40)

  const SENT_AGAIN := With(Credit(100, 8, 90, 0, 10, 1), true, map[1 := FIRST, 2 := SECOND], 2, 80)

  const FIRST_DONE := With(Credit(100, 8, 96, 8, 4, 0), true, map[2 := SECOND], 2, 40)

  const BOTH_DONE := With(Credit(100, 8, 96, 8, 4, 0), true, map[], 2, 0)

  /** A full frame of a visible raster that retains nothing yet is stored and queued. */
  lemma FrameIsQueued(credit: Credit, bytes: nat, deliveries: map<nat, Delivery>, last: nat, queued: nat)
    requires Consume(credit, bytes).accepted && last < 10 && queued <= 40
    ensures
      Ingest(With(credit, false, deliveries, last, queued), PICTURE, Frame(bytes)).media
      == With(Consume(credit, bytes).credit, true, deliveries[last + 1 := Delivery(PICTURE, bytes, 40)], last + 1, queued + 40)
  {
    hide Consume, ReturnCredit;
    var m := With(credit, false, deliveries, last, queued);
    var taken := Consume(credit, bytes).credit;
    var charged := WithSource(m, PICTURE, m.sources[PICTURE].(credit := taken));
    assert charged == With(taken, false, deliveries, last, queued);
    var stored := Store(charged, PICTURE, charged.sources[PICTURE], Frame(bytes));
    assert stored == With(taken, true, deliveries, last, queued);
    assert Ingest(m, PICTURE, Frame(bytes)).media == Dispatch(stored, PICTURE, Frame(bytes)).media;
  }

  /** Taking a delivery of that raster. */
  lemma DeliveryIsTaken(credit: Credit, deliveries: map<nat, Delivery>, last: nat, queued: nat, id: nat)
    requires id in deliveries && deliveries[id].source == PICTURE && deliveries[id].queuedBytes == 40 && queued >= 40
    ensures
      CompleteDelivery(With(credit, true, deliveries, last, queued), id, true).media
      == With(Return(credit, deliveries[id].creditBytes, 1, true).credit, true, deliveries - {id}, last, queued - 40)
  {
    hide Return;
    var m := With(credit, true, deliveries, last, queued);
    var after := Return(credit, deliveries[id].creditBytes, 1, true).credit;
    var taken := m.(deliveries := deliveries - {id}, queuedBytes := queued - 40);
    assert WithSource(taken, PICTURE, m.sources[PICTURE].(credit := after)) == With(after, true, deliveries - {id}, last, queued - 40);
  }

  lemma RasterIsShown()
    ensures
      var m, steps := Initially(MediaFlush.SMALL, true), ReusedId()[..3];
      PossibleRun(m, steps) && Run(m, steps) == With(Credit(100, 8, 100, 1, 0, 0), false, map[], 0, 0)
  {
    MediaFlush.RasterIsShown();
    assert ReusedId()[..3] == MediaFlush.FlushedRaster()[..3];
  }

  lemma SourceIsReplaced()
    ensures OrSame(SENT, RemoveSource(SENT, PICTURE)) == DESTROYED
    ensures OrSame(DESTROYED, CreateSource(DESTROYED, PICTURE, Raster, 100, false)) == CREATED
    ensures ReusesId(DESTROYED, SourceCreated(PICTURE, Raster, 100, false))
  {
    assert 1 in Pending(DESTROYED.deliveries, PICTURE);
    assert SENT.sources - {PICTURE} == map[];
  }

  lemma Credits()
    ensures Consume(Credit(100, 8, 100, 1, 0, 0), 6) == Consumed(Credit(100, 8, 94, 0, 6, 1), true)
    ensures Consume(Credit(100, 8, 100, 1, 0, 0), 10) == Consumed(Credit(100, 8, 90, 0, 10, 1), true)
    ensures Return(Credit(100, 8, 90, 0, 10, 1), 6, 1, true) == Returned(Credit(100, 8, 96, 8, 4, 0), Grant(6, 8))
    ensures Return(Credit(100, 8, 96, 8, 4, 0), 10, 1, true) == Returned(Credit(100, 8, 96, 8, 4, 0), Grant(0, 0))
  {
  }

  lemma FirstFrame()
    ensures Next(With(Credit(100, 8, 100, 1, 0, 0), false, map[], 0, 0), ReusedId()[3]).media == SENT
  {
    hide Ingest, With;
    Credits();
    FrameIsQueued(Credit(100, 8, 100, 1, 0, 0), 6, map[], 0, 0);
    assert map[][1 := FIRST] == map[1 := FIRST];
  }

  lemma SecondFrame()
    ensures Next(CREATED, ReusedId()[6]).media == SENT_AGAIN
  {
    hide Ingest, With;
    Credits();
    FrameIsQueued(Credit(100, 8, 100, 1, 0, 0), 10, map[1 := FIRST], 1, 40);
    assert map[1 := FIRST][2 := SECOND] == map[1 := FIRST, 2 := SECOND];
  }

  lemma Completions()
    ensures Next(SENT_AGAIN, ReusedId()[7]).media == FIRST_DONE
    ensures Next(FIRST_DONE, ReusedId()[8]).media == BOTH_DONE
  {
    hide CompleteDelivery, With;
    Credits();
    DeliveryIsTaken(Credit(100, 8, 90, 0, 10, 1), map[1 := FIRST, 2 := SECOND], 2, 80, 1);
    assert map[1 := FIRST, 2 := SECOND] - {1} == map[2 := SECOND];
    DeliveryIsTaken(Credit(100, 8, 96, 8, 4, 0), map[2 := SECOND], 2, 40, 2);
    assert map[2 := SECOND] - {2} == map[];
  }

  lemma ProducerStays()
    ensures 1 in SENT.producers && 1 in DESTROYED.producers && PICTURE.producer == 1
  {
  }

  /** The run so far is possible and has led to this state. */
  ghost predicate Leads(n: nat, to: Media)
    requires n <= 9
  {
    var m, steps := Initially(MediaFlush.SMALL, true), ReusedId()[..n];
    PossibleRun(m, steps) && Run(m, steps) == to
  }

  lemma LeadsOn(n: nat, from: Media, to: Media)
    requires n < 9 && Leads(n, from) && Possible(from, ReusedId()[n]) && Next(from, ReusedId()[n]).media == to
    ensures Leads(n + 1, to)
  {
    hide PossibleRun, Run, Next, Possible;
    MediaFlush.OneMoreStep(Initially(MediaFlush.SMALL, true), ReusedId()[..n], ReusedId()[n]);
    assert ReusedId()[..n] + [ReusedId()[n]] == ReusedId()[..n + 1];
  }

  lemma LeadsToReplacement()
    ensures Leads(6, CREATED)
  {
    hide Leads, With, During, Next;
    assert Leads(3, With(Credit(100, 8, 100, 1, 0, 0), false, map[], 0, 0)) by { RasterIsShown(); ShownLeads(); }
    ProducerStays();
    FirstFrame();
    LeadsOn(3, With(Credit(100, 8, 100, 1, 0, 0), false, map[], 0, 0), SENT);
    SourceIsReplaced();
    Replaced(SENT, DESTROYED);
    LeadsOn(4, SENT, DESTROYED);
    LeadsOn(5, DESTROYED, CREATED);
  }

  lemma ShownLeads()
    requires
      var m, steps := Initially(MediaFlush.SMALL, true), ReusedId()[..3];
      PossibleRun(m, steps) && Run(m, steps) == With(Credit(100, 8, 100, 1, 0, 0), false, map[], 0, 0)
    ensures Leads(3, With(Credit(100, 8, 100, 1, 0, 0), false, map[], 0, 0))
  {
    hide PossibleRun, Run;
  }

  /** Both deliveries have completed and none is pending, yet four bytes of the window are still charged. */
  lemma ReusedIdLosesCredit()
    ensures PossibleRun(Initially(MediaFlush.SMALL, true), ReusedId())
    ensures Run(Initially(MediaFlush.SMALL, true), ReusedId()) == BOTH_DONE
    ensures BOTH_DONE.deliveries == map[] && PICTURE in BOTH_DONE.sources
    ensures BOTH_DONE.sources[PICTURE].credit == Credit(100, 8, 96, 8, 4, 0)
  {
    hide PossibleRun, Run, Next;
    LeadsToReplacement();
    SecondFrame();
    LeadsOn(6, CREATED, SENT_AGAIN);
    Completions();
    LeadsOn(7, SENT_AGAIN, FIRST_DONE);
    LeadsOn(8, FIRST_DONE, BOTH_DONE);
    assert ReusedId()[..9] == ReusedId();
  }

  lemma Replaced(m: Media, gone: Media)
    ensures Next(m, SourceDestroyed(PICTURE)).media == OrSame(m, RemoveSource(m, PICTURE))
    ensures
      Next(gone, SourceCreated(PICTURE, Raster, 100, false)).media == OrSame(gone, CreateSource(gone, PICTURE, Raster, 100, false))
  {
    hide RemoveSource, CreateSource, OrSame;
  }

  /** And they stay charged: however the run goes on, the source never has more than 96 of its 100 bytes again. */
  lemma NeverWholeAgain(steps: seq<Step>)
    requires PossibleRun(BOTH_DONE, steps) && RecordsFit(steps) && LivesThrough(BOTH_DONE, steps, PICTURE)
    ensures PICTURE in Run(BOTH_DONE, steps).sources
    ensures Run(BOTH_DONE, steps).sources[PICTURE].credit.outstandingBytes <= 96
  {
    var m := BOTH_DONE;
    assert Pending(m.deliveries, PICTURE) == map[] && QueuedSizes(m.deliveries) == map[];
    SumEmpty<nat>();
    StaysCharged(m, steps, PICTURE, 4, 0);
    hide Run, PossibleRun, LivesThrough, Sum;
    CreditIsConserved(m, steps, PICTURE);
  }
}
