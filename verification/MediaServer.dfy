/** The inner presenter's state behind its lock, updated in place (src/media.rs). Each method is one critical section
    or a function called inside one, and is proved to do what `MediaState` says. */
module MediaServer {
  import opened Wrappers
  import opened FixedWidth
  import opened MapSums
  import opened MediaCredit
  import opened MediaState
  import opened MediaScene
  import opened MediaLedger
  import opened MediaRecovery
  import opened MediaFlush
  import MediaCommits
  import MediaSync

  // ---- What every critical section keeps ----

  /** Retained bytes and scene are accounted for, every ledger is balanced, and the queue counter is exact. */
  ghost predicate Consistent(m: Media) {
    SceneValid(m) && CreditsBalanced(m) && QueueExact(m) && LimitFits(m)
  }

  lemma StepKeepsConsistent(m: Media, step: Step)
    requires Consistent(m) && Possible(m, step) && RecordFits(step)
    ensures Consistent(Next(m, step).media)
  {
    hide Next, Possible, RecordFits, SceneValid, CreditsBalanced, QueueExact, Flows;
    StepKeepsScene(m, step);
    StepKeepsQueue(m, step);
    StepConservesCredit(m, step, Key(0, 0));
  }

  /** Also when its nodes may not stay as posters, a producer leaves a consistent presenter behind. */
  lemma CleanupKeepsConsistent(m: Media, producer: nat, preserve: bool)
    requires Consistent(m)
    ensures Consistent(MediaState.CleanupProducer(m, producer, preserve))
  {
    hide MediaState.CleanupProducer, SceneValid, QueueExact, Balanced;
    var after := MediaState.CleanupProducer(m, producer, preserve);
    CleanupKeepsScene(m, producer, preserve);
    CleanupKeepsCredits(m, producer, preserve);
    CleanupKeepsQueue(m, producer, preserve);
    SameQueue(m, after);
  }

  lemma EmptyIsConsistent(config: Config, attached: bool)
    requires config.queueLimit + U32_MAX <= U64_MAX
    ensures Consistent(Initially(config, attached))
  {
    hide SceneValid;
    EmptySceneIsValid(config, attached);
    SumEmpty<nat>();
    assert QueuedSizes(map[]) == map[];
  }

  function Elements(ids: seq<nat>): set<nat> {
    set id | id in ids
  }

  lemma CompletionIsExact(m: Media, id: nat, delivered: bool)
    ensures
      var r := CompleteDelivery(m, id, delivered);
      && (r.known <==> id in m.deliveries)
      && (r.known ==>
            var key := m.deliveries[id].source;
            && r.media.deliveries == m.deliveries - {id}
            && (r.requestKeyframe <==>
                  !delivered && key in m.projected && key in m.sources && m.sources[key].kind.Video? && !m.sources[key].ended)
            && forall other :: other in m.sources ==>
                 other in r.media.sources
                 && r.media.sources[other].desynchronized
                    == (m.sources[other].desynchronized || (r.requestKeyframe && other == key)))
  {
    hide CompleteDelivery;
    if id in m.deliveries {
      MediaSync.CompletedExactly(m, id, delivered);
    } else {
      MediaSync.UnknownDelivery(m, id, delivered);
    }
  }

  lemma IngestIsExact(m: Media, key: Key, record: Record)
    requires Consistent(m) && key in m.sources && RecordFits(RecordIngested(key, record))
    ensures MediaSync.IngestIs(m, Ingest(m, key, record), key, record)
  {
    hide SceneValid, CreditsBalanced, QueueExact, LimitFits, RecordFits, MediaSync.IngestIs, Ingest;
    MediaSync.IngestExactly(m, key, record);
  }

  /** Exactly the listed deliveries leave the queue. */
  lemma {:induction false} TakesExactly(m: Media, ids: seq<nat>)
    ensures
      var after := TakeDeliveries(m, ids).media;
      && after.deliveries == m.deliveries - Elements(ids)
      && after.projected == m.projected && after.sources.Keys == m.sources.Keys
  {
    hide TakeDelivery;
    if ids != [] {
      var n := |ids| - 1;
      TakesExactly(m, ids[..n]);
      TakesOne(TakeDeliveries(m, ids[..n]).media, ids[n]);
      assert Elements(ids) == Elements(ids[..n]) + {ids[n]} by { assert ids == ids[..n] + [ids[n]]; }
    } else {
      assert m.deliveries - {} == m.deliveries;
    }
  }

  lemma TakesOne(m: Media, id: nat)
    ensures
      var after := TakeDelivery(m, id).media;
      && after.deliveries == m.deliveries - {id}
      && after.projected == m.projected && after.sources.Keys == m.sources.Keys
  {
    hide Return;
  }

  /** Giving up deliveries makes no source synchronized again, nor changes its kind. */
  lemma {:induction false} TakesKeepLosses(m: Media, ids: seq<nat>)
    ensures
      var after := TakeDeliveries(m, ids).media;
      && after.sources.Keys == m.sources.Keys
      && forall key :: key in m.sources ==> after.sources[key] == m.sources[key].(credit := after.sources[key].credit)
  {
    hide TakeDelivery;
    if ids != [] {
      var n := |ids| - 1;
      TakesKeepLosses(m, ids[..n]);
      TakeKeepsLosses(TakeDeliveries(m, ids[..n]).media, ids[n]);
    }
  }

  lemma TakeKeepsLosses(m: Media, id: nat)
    ensures
      var after := TakeDelivery(m, id).media;
      && after.sources.Keys == m.sources.Keys
      && forall key :: key in m.sources ==> after.sources[key] == m.sources[key].(credit := after.sources[key].credit)
  {
    hide Return, SaturatingSub;
  }

  /** Nothing is visible, and playing videos have lost synchronization. */
  ghost function AllHidden(m: Media): Media {
    m.(projected := {},
       sources := map key | key in m.sources ::
                    if m.sources[key].kind.Video? && m.sources[key].playing then m.sources[key].(desynchronized := true)
                    else m.sources[key])
  }

  lemma DeactivatedQueue(m: Media, ids: seq<nat>)
    requires Consistent(m) && Elements(ids) == m.deliveries.Keys
    ensures Deactivate(m, ids) == TakeDeliveries(AllHidden(m), ids)
    ensures
      var after := Deactivate(m, ids).media;
      && Consistent(after) && after.deliveries == map[] && after.queuedBytes == 0 && after.projected == {}
      && forall key :: key in after.sources && after.sources[key].kind.Video? && after.sources[key].playing ==>
                         after.sources[key].desynchronized
  {
    hide TakeDeliveries, Consistent, Elements;
    StepKeepsConsistent(m, Deactivated(ids));
    TakesExactly(AllHidden(m), ids);
    TakesKeepLosses(AllHidden(m), ids);
    assert m.deliveries - m.deliveries.Keys == map[];
    EmptyQueue(Deactivate(m, ids).media);
  }

  lemma EmptyQueue(m: Media)
    requires Consistent(m) && m.deliveries == map[]
    ensures m.queuedBytes == 0
  {
    assert QueuedSizes(map[]) == map[];
    SumEmpty<nat>();
  }

  /** Exactly the listed producers are gone. */
  lemma {:induction false} CleanupsRemove(m: Media, ids: seq<nat>)
    ensures CleanupProducers(m, ids).producers == m.producers - Elements(ids)
  {
    hide MediaState.CleanupProducer;
    if ids != [] {
      var n := |ids| - 1;
      CleanupsRemove(m, ids[..n]);
      CleanupRemoves(CleanupProducers(m, ids[..n]), ids[n]);
      assert Elements(ids) == Elements(ids[..n]) + {ids[n]} by { assert ids == ids[..n] + [ids[n]]; }
    } else {
      assert m.producers - {} == m.producers;
    }
  }

  lemma CleanupRemoves(m: Media, id: nat)
    ensures MediaState.CleanupProducer(m, id, false).producers == m.producers - {id}
  {
    hide Prune;
    if id in m.producers {
      var detached := Detached(m, id, false);
      assert Prune(detached).producers == detached.producers by { PruneKeepsProducers(detached); }
    }
  }

  lemma PruneKeepsProducers(m: Media)
    ensures Prune(m).producers == m.producers && Prune(m).nodes == m.nodes
  {
  }

  /** The elements of a set in some order. */
  method Listed(s: set<nat>) returns (ids: seq<nat>)
    ensures multiset(ids) == multiset(s)
    ensures Elements(ids) == s
  {
    var left := s;
    ids := [];
    while left != {}
      invariant left <= s && multiset(ids) + multiset(left) == multiset(s)
      decreases |left|
    {
      var id :| id in left;
      left, ids := left - {id}, ids + [id];
    }
    forall id ensures id in ids <==> id in s {
      assert id in ids <==> id in multiset(ids);
      assert id in s <==> id in multiset(s);
    }
  }

  lemma SubtractTwice(a: nat, b: nat, c: nat)
    ensures SaturatingSub(SaturatingSub(a, b), c) == SaturatingSub(a, b + c)
  {
  }

  lemma PartGrows(sizes: map<Key, nat>, done: set<Key>, key: Key)
    requires key in sizes && key !in done
    ensures Sum(Part(sizes, done + {key})) == Sum(Part(sizes, done)) + sizes[key]
  {
    hide Sum;
    SumRemove(Part(sizes, done + {key}), key);
    assert Part(sizes, done + {key}) - {key} == Part(sizes, done);
  }

  /** `m` with some of its sources dropped and their retained bytes taken off the counter. */
  ghost function Without(m: Media, done: set<Key>): Media {
    m.(sources := m.sources - done,
       retainedBytes := SaturatingSub(m.retainedBytes, Sum(Part(RetainedSizes(m.sources), done))))
  }

  lemma WithoutNothing(m: Media)
    ensures Without(m, {}) == m
  {
    assert Part(RetainedSizes(m.sources), {}) == map[];
    SumEmpty<Key>();
  }

  lemma WithoutOneMore(m: Media, done: set<Key>, key: Key)
    requires key in m.sources && key !in done
    ensures key in Without(m, done).sources
    ensures
      var before := Without(m, done);
      Without(m, done + {key})
      == before.(sources := before.sources - {key},
                 retainedBytes := SaturatingSub(before.retainedBytes, before.sources[key].retainedBytes))
  {
    hide Sum, Part;
    var sizes := RetainedSizes(m.sources);
    PartGrows(sizes, done, key);
    SubtractTwice(m.retainedBytes, Sum(Part(sizes, done)), sizes[key]);
    assert m.sources - (done + {key}) == m.sources - done - {key};
  }

  lemma OrphansFound(m: Media, removed: set<Key>)
    requires
      var referenced := set id | id in m.nodes :: NodeSource(m.nodes[id]);
      removed == set key | key in m.sources && key.producer !in m.producers && key !in referenced
    ensures removed == Orphans(m) && removed <= m.sources.Keys
  {
  }

  lemma PrunedAll(m: Media)
    ensures Without(m, Orphans(m)) == Prune(m)
  {
  }

  lemma StoreKeepsSource(m: Media, key: Key, decoded: Source, record: Record)
    requires key in m.sources
    ensures key in Store(m, key, decoded, record).sources
  {
  }

  /** Whether the place of a node is known: it has no anchor, or its producer knows the anchor or left it behind, and
      the coordinates there are in range. */
  predicate HasPlace(producers: map<nat, Producer>, node: Node, inRange: bool) {
    node.anchorId.None?
    || (inRange
        && (node.retainedAnchor.Some?
            || (node.producer in producers && node.anchorId.value in producers[node.producer].anchors)))
  }

  /** A source is shown when its producer is in one of the panes, or when a node there that has a place shows it. */
  ghost predicate Shows(m: Media, panes: set<nat>, inRange: set<Key>, key: Key) {
    || (key.producer in m.producers && m.producers[key.producer].pane in panes)
    || exists id :: id in m.nodes && m.nodes[id].pane in panes && HasPlace(m.producers, m.nodes[id], id in inRange)
                    && NodeSource(m.nodes[id]) == key
  }

  /** How often a list of keyframe requests is answered in one way. */
  function CountAnswers(m: Media, requests: seq<Request>, emitted: bool): nat {
    if requests == [] then 0
    else
      var n := |requests| - 1;
      var answer := AnswerRequest(RequestKeyframes(m, requests[..n]), requests[n]);
      CountAnswers(m, requests[..n], emitted) + if (if emitted then answer.Emitted? else answer.Damped?) then 1 else 0
  }

  class VirtualVivid {
    const config: Config
    var producers: map<nat, Producer>
    var sources: map<Key, Source>
    var nodes: map<Key, Node>
    var deliveries: map<nat, Delivery>
    var nextDeliveryId: nat
    var queuedBridgeBytes: nat
    var retainedBytes: nat
    var projectedSources: set<Key>
    var activePanes: set<nat>
    const attached: bool

    ghost function Value(): Media
      reads this
    {
      Media(config, producers, sources, nodes, deliveries, nextDeliveryId, queuedBridgeBytes, retainedBytes,
            projectedSources, activePanes, attached)
    }

    /** Holds whenever the lock is free. */
    ghost predicate Valid()
      reads this
    {
      Consistent(Value())
    }

    constructor (config: Config, attached: bool)
      requires config.queueLimit + U32_MAX <= U64_MAX
      ensures Value() == Initially(config, attached) && Valid()
    {
      hide Consistent;
      this.config, this.attached := config, attached;
      producers, sources, nodes, deliveries := map[], map[], map[], map[];
      nextDeliveryId, queuedBridgeBytes, retainedBytes := 0, 0, 0;
      projectedSources, activePanes := {}, {};
      EmptyIsConsistent(config, attached);
    }

    // ---- Credit and deliveries ----

    method ConsumeSourceCredit(key: Key, bytes: nat) returns (accepted: bool)
      modifies this`sources
      ensures key !in old(sources) ==> !accepted && sources == old(sources)
      ensures key in old(sources) ==>
        var consumed := Consume(old(sources)[key].credit, bytes);
        accepted == consumed.accepted && sources == old(sources)[key := old(sources)[key].(credit := consumed.credit)]
    {
      if key !in sources { return false; }
      var credit := sources[key].credit;
      if bytes == 0 || credit.outstandingBytes < bytes || credit.outstandingPackets == 0 {
        assert sources[key := sources[key].(credit := credit)] == sources;
        return false;
      }
      credit := credit.(outstandingBytes := credit.outstandingBytes - bytes,
                        outstandingPackets := credit.outstandingPackets - 1);
      accepted := false;
      if credit.chargedBytes + bytes <= U64_MAX {
        credit := credit.(chargedBytes := credit.chargedBytes + bytes);
        if credit.chargedPackets + 1 <= U64_MAX {
          credit := credit.(chargedPackets := credit.chargedPackets + 1);
          accepted := true;
        }
      }
      sources := sources[key := sources[key].(credit := credit)];
    }

    method PrepareCreditReturn(key: Key, bytes: nat, packets: nat) returns (granted: Granted)
      modifies this`sources
      ensures Released(Value(), [granted]) == ReturnCredit(old(Value()), key, bytes, packets)
      ensures granted.key == key
      ensures key !in old(sources) ==> granted.grant == Grant(bytes, packets)
      ensures key in old(sources) && Balanced(old(sources)[key].credit) ==>
        var before := old(sources)[key].credit;
        && key in sources
        && if bytes <= before.chargedBytes && packets <= before.chargedPackets then
             && granted.grant.bytes == bytes && packets <= granted.grant.packets
             && sources[key].credit == before.(chargedBytes := before.chargedBytes - bytes,
                                               chargedPackets := before.chargedPackets - packets,
                                               outstandingBytes := before.outstandingBytes + bytes,
                                               outstandingPackets := before.outstandingPackets + granted.grant.packets)
             && (if key in projectedSources then PacketSum(sources[key].credit) == before.windowPackets
                 else granted.grant.packets == packets)
           else granted.grant == Grant(0, 0) && sources == old(sources)
    {
      var projected := key in projectedSources;
      if key !in sources { return Granted(key, Grant(bytes, packets)); }
      var credit := sources[key].credit;
      if credit.chargedBytes < bytes || credit.chargedPackets < packets {
        assert sources[key := sources[key].(credit := credit)] == sources;
        return Granted(key, Grant(0, 0));
      }
      credit := credit.(chargedBytes := credit.chargedBytes - bytes, chargedPackets := credit.chargedPackets - packets);
      credit := credit.(outstandingBytes := SaturatingAdd(credit.outstandingBytes, bytes),
                        outstandingPackets := SaturatingAdd(credit.outstandingPackets, packets));
      var grant := Grant(bytes, packets);
      if projected {
        var topBytes := SaturatingSub(credit.windowBytes, SaturatingAdd(credit.outstandingBytes, credit.chargedBytes));
        var topPackets := SaturatingSub(credit.windowPackets, SaturatingAdd(credit.outstandingPackets, credit.chargedPackets));
        credit := credit.(outstandingBytes := SaturatingAdd(credit.outstandingBytes, topBytes),
                          outstandingPackets := SaturatingAdd(credit.outstandingPackets, topPackets));
        grant := Grant(SaturatingAdd(bytes, topBytes), SaturatingAdd(packets, topPackets));
      }
      sources := sources[key := sources[key].(credit := credit)];
      granted := Granted(key, grant);
    }

    method ReleaseDelivery(id: nat) returns (grants: seq<Granted>)
      modifies this`sources, this`deliveries, this`queuedBridgeBytes
      ensures Released(Value(), grants) == TakeDelivery(old(Value()), id)
    {
      hide Return;
      if id !in deliveries { return []; }
      var pending := deliveries[id];
      deliveries := deliveries - {id};
      queuedBridgeBytes := SaturatingSub(queuedBridgeBytes, pending.queuedBytes);
      var granted := PrepareCreditReturn(pending.source, pending.creditBytes, 1);
      grants := [granted];
    }

    method TakeAll(ids: seq<nat>) returns (grants: seq<Granted>)
      modifies this`sources, this`deliveries, this`queuedBridgeBytes
      ensures Released(Value(), grants) == TakeDeliveries(old(Value()), ids)
    {
      hide TakeDelivery;
      grants := [];
      for i := 0 to |ids|
        invariant Released(Value(), grants) == TakeDeliveries(old(Value()), ids[..i])
        invariant unchanged(`producers) && unchanged(`nodes) && unchanged(`nextDeliveryId) && unchanged(`retainedBytes)
        invariant unchanged(`projectedSources) && unchanged(`activePanes)
      {
        assert ids[..i + 1][..i] == ids[..i];
        var more := ReleaseDelivery(ids[i]);
        grants := grants + more;
      }
      assert ids[..|ids|] == ids;
    }

    // ---- Ingest ----

    /** Queue a stored record for the bridge, or return its credit. */
    method DispatchRecord(key: Key, record: Record) returns (outcome: Outcome, grants: seq<Granted>)
      requires key in sources
      modifies this`sources, this`deliveries, this`nextDeliveryId, this`queuedBridgeBytes
      ensures Ingested(Value(), outcome, record.bytes, grants) == Dispatch(old(Value()), key, record)
    {
      hide ReturnCredit, ForwardedBytes;
      grants := [];
      var source := sources[key];
      var forward := !source.kind.Image? && key in projectedSources && !source.desynchronized;
      if source.kind.Audio? && source.kind.linkedVideo.Some? {
        var video := Key(key.producer, source.kind.linkedVideo.value);
        forward := forward && (video in sources ==> !sources[video].desynchronized);
      }
      assert forward == ForwardTimed(old(Value()), key);
      var bytes := ForwardedBytes(record);
      if forward && attached
         && (queuedBridgeBytes == 0 || SaturatingAdd(queuedBridgeBytes, bytes) <= config.queueLimit) {
        if nextDeliveryId >= U64_MAX {
          return Refused("bridge delivery IDs exhausted"), [];
        }
        nextDeliveryId := nextDeliveryId + 1;
        queuedBridgeBytes := SaturatingAdd(queuedBridgeBytes, bytes);
        deliveries := deliveries[nextDeliveryId := Delivery(key, record.bytes, bytes)];
        return Queued(nextDeliveryId), [];
      }
      if forward && source.kind.Video? {
        sources := sources[key := source.(desynchronized := true)];
      }
      var granted := PrepareCreditReturn(key, record.bytes, 1);
      return NotQueued(forward && source.kind.Video?), [granted];
    }

    method IngestRecord(key: Key, record: Record) returns (outcome: Outcome, consumed: nat, grants: seq<Granted>)
      requires Valid() && Possible(Value(), RecordIngested(key, record)) && RecordFits(RecordIngested(key, record))
      modifies this`sources, this`deliveries, this`nextDeliveryId, this`queuedBridgeBytes, this`retainedBytes
      ensures Ingested(Value(), outcome, consumed, grants) == Ingest(old(Value()), key, record)
      ensures key in old(sources) ==>
        MediaSync.IngestIs(old(Value()), Ingested(Value(), outcome, consumed, grants), key, record)
      ensures Valid()
    {
      hide Consume, IngestCharged, Consistent, Possible, RecordFits, MediaSync.IngestIs;
      StepKeepsConsistent(Value(), RecordIngested(key, record));
      if key in sources { IngestIsExact(Value(), key, record); }
      consumed, grants := 0, [];
      if key !in sources { return Refused("source no longer exists"), 0, []; }
      if sources[key].kind.Image? && record.payload.ImageData? && !record.payload.decodes {
        return Refused("image decoder rejected body"), 0, [];
      }
      var accepted := ConsumeSourceCredit(key, record.bytes);
      if !accepted {
        return Refused("media record exceeds outstanding source credit"), 0, [];
      }
      consumed := record.bytes;
      outcome, grants := IngestChargedRecord(key, record);
    }

    method DecodeRecord(key: Key, payload: Payload) returns (r: Result<Source>)
      requires key in sources && PayloadMatches(sources[key].kind, payload)
      ensures r == Decoded(sources[key], payload, key in projectedSources)
    {
      var source := sources[key];
      match payload
      case RasterFrame(_) =>
        return Ok(source);
      case ImageData(_) =>
        if source.retained.Some? { return Err("image body count or length is invalid"); }
        return Ok(source);
      case VideoPacket(fits, epoch, isKey) =>
        if !fits { return Err("video access unit exceeds source maximum"); }
        source := source.(epoch := epoch);
        if source.desynchronized && epoch >= source.minimumEpoch && isKey {
          source := source.(desynchronized := false, pendingReason := None);
        } else if key !in projectedSources {
          source := source.(desynchronized := true);
        }
        return Ok(source);
      case AudioPacket(fits, epoch) =>
        if !fits { return Err("audio access unit exceeds source maximum"); }
        return Ok(source.(epoch := epoch));
    }

    /** Puts a decoded source and the body it now retains in place, within the retained quota. */
    method StoreRecord(key: Key, decoded: Source, record: Record) returns (stored: bool)
      requires key in sources
      modifies this`sources, this`retainedBytes
      ensures stored == (RetainedTotal(old(Value()), key, record) <= config.retainedLimit)
      ensures Value() == if stored then Store(old(Value()), key, decoded, record) else WithSource(old(Value()), key, decoded)
    {
      var kept := NewRetained(record);
      var newRetained := if kept.Some? then kept.value else 0;
      var projected := SaturatingSub(retainedBytes, sources[key].retainedBytes) + newRetained;
      sources := sources[key := decoded];
      if projected > config.retainedLimit { return false; }
      var source := decoded;
      if record.payload.RasterFrame? && record.payload.verdict.Accepted? {
        source := source.(epoch := record.payload.verdict.epoch);
      }
      if kept.Some? {
        source := source.(retained := kept, retainedBytes := newRetained);
      }
      sources := sources[key := source];
      retainedBytes := projected;
      assert old(sources)[key := decoded][key := source] == old(sources)[key := source];
      return true;
    }

    method IngestChargedRecord(key: Key, record: Record) returns (outcome: Outcome, grants: seq<Granted>)
      requires key in sources
      modifies this`sources, this`deliveries, this`nextDeliveryId, this`queuedBridgeBytes, this`retainedBytes
      ensures Ingested(Value(), outcome, record.bytes, grants) == IngestCharged(old(Value()), key, record)
    {
      hide ReturnCredit, Dispatch, Decoded, PayloadMatches, RetainedTotal, Store;
      grants := [];
      var source := sources[key];
      if !PayloadMatches(source.kind, record.payload) {
        return Refused("media record type does not match source"), [];
      }
      if record.payload.RasterFrame? && record.payload.verdict.Malformed? {
        return Refused("raster frame is malformed"), [];
      }
      if record.payload.RasterFrame? && record.payload.verdict.Rejected? {
        var granted := PrepareCreditReturn(key, record.bytes, 1);
        return DeltaRejected, [granted];
      }
      var decoded := DecodeRecord(key, record.payload);
      if decoded.Err? { return Refused(decoded.error), []; }
      var stored := StoreRecord(key, decoded.value, record);
      if !stored { return Refused("aggregate retained media quota exceeded"), []; }
      StoreKeepsSource(old(Value()), key, decoded.value, record);
      outcome, grants := DispatchRecord(key, record);
    }

    method HandoverFailed(key: Key, id: nat) returns (grants: seq<Granted>)
      requires Valid()
      modifies this`sources, this`deliveries, this`queuedBridgeBytes
      ensures Released(Value(), grants) == SendFailed(old(Value()), key, id)
      ensures Valid()
    {
      hide TakeDelivery, Consistent;
      StepKeepsConsistent(Value(), Step.HandoverFailed(key, id));
      grants := ReleaseDelivery(id);
      if key in sources && sources[key].kind.Video? {
        sources := sources[key := sources[key].(desynchronized := true)];
      }
    }

    method CompleteBridgeDelivery(id: nat, delivered: bool) returns (known: bool, requestKeyframe: bool, grants: seq<Granted>)
      requires Valid()
      modifies this`sources, this`deliveries, this`queuedBridgeBytes
      ensures Completed(Value(), known, requestKeyframe, grants) == CompleteDelivery(old(Value()), id, delivered)
      ensures known <==> id in old(deliveries)
      ensures known ==>
        var key := old(deliveries)[id].source;
        && deliveries == old(deliveries) - {id}
        && (requestKeyframe <==>
              !delivered && key in old(projectedSources) && key in old(sources) && old(sources)[key].kind.Video?
              && !old(sources)[key].ended)
        && forall other :: other in old(sources) ==>
             other in sources
             && sources[other].desynchronized == (old(sources)[other].desynchronized || (requestKeyframe && other == key))
      ensures Valid()
    {
      hide ReturnCredit, Consistent;
      CompletionIsExact(Value(), id, delivered);
      StepKeepsConsistent(Value(), DeliveryCompleted(id, delivered));
      if id !in deliveries { return false, false, []; }
      var pending := deliveries[id];
      deliveries := deliveries - {id};
      queuedBridgeBytes := SaturatingSub(queuedBridgeBytes, pending.queuedBytes);
      requestKeyframe := false;
      if !delivered && pending.source in projectedSources && pending.source in sources {
        var source := sources[pending.source];
        if source.kind.Video? && !source.ended {
          sources := sources[pending.source := source.(desynchronized := true)];
          requestKeyframe := true;
        }
      }
      var granted := PrepareCreditReturn(pending.source, pending.creditBytes, 1);
      return true, requestKeyframe, [granted];
    }

    /** The pending deliveries of one source are given up, in some order. */
    method CancelSourceDeliveries(key: Key) returns (grants: seq<Granted>, ghost ids: seq<nat>)
      requires Valid()
      modifies this`sources, this`deliveries, this`queuedBridgeBytes
      ensures Released(Value(), grants) == TakeDeliveries(old(Value()), ids)
      ensures deliveries == map id | id in old(deliveries) && old(deliveries)[id].source != key :: old(deliveries)[id]
      ensures Valid()
    {
      hide TakeDeliveries, Consistent;
      var listed := Listed(set id | id in deliveries && deliveries[id].source == key);
      ids := listed;
      StepKeepsConsistent(Value(), DeliveriesCancelled(key, listed));
      TakesExactly(Value(), listed);
      grants := TakeAll(listed);
    }

    /** All deliveries are given up, in some order. */
    method DeactivateBridge() returns (grants: seq<Granted>, ghost ids: seq<nat>)
      requires Valid()
      modifies this`sources, this`deliveries, this`queuedBridgeBytes, this`projectedSources
      ensures Released(Value(), grants) == Deactivate(old(Value()), ids)
      ensures deliveries == map[] && queuedBridgeBytes == 0 && projectedSources == {}
      ensures forall key :: key in sources && sources[key].kind.Video? && sources[key].playing ==> sources[key].desynchronized
      ensures Valid()
    {
      hide Deactivate, Consistent, TakeDeliveries;
      var listed := Listed(deliveries.Keys);
      ids := listed;
      DeactivatedQueue(Value(), listed);
      projectedSources := {};
      sources :=
        map key | key in sources ::
          if sources[key].kind.Video? && sources[key].playing then sources[key].(desynchronized := true) else sources[key];
      assert Value() == AllHidden(old(Value()));
      grants := TakeAll(listed);
    }

    // ---- Playback and visibility ----

    /** With the way to the bridge free, anything is ever forwarded for the source again exactly when it is a video. */
    method FlushSource(key: Key, epoch: nat) returns (r: Result<()>)
      requires Valid() && Possible(Value(), Flushed(key, epoch))
      modifies this`sources
      ensures Value() == Flush(old(Value()), key, epoch) && (r.Ok? <==> key in old(sources))
      ensures old(WayIsFree(Value(), key)) ==> (EverForwards(Value(), key) <==> IsVideo(old(Value()), key))
      ensures Valid()
    {
      hide Consistent, WayIsFree, EverForwards, Possible, IsVideo;
      StepKeepsConsistent(Value(), Flushed(key, epoch));
      ghost var before := Value();
      if WayIsFree(before, key) {
        FlushedForwardsIffVideo(before, key, epoch);
      }
      if key !in sources { return Err("source missing"); }
      sources := sources[key := sources[key].(epoch := 0, minimumEpoch := epoch, ended := false, desynchronized := true)];
      r := Ok(());
    }

    /** The counter of retained bytes is left alone, and stays exact because a timed source never retained anything. */
    method ApplyInnerEos(key: Key) returns (r: Result<()>)
      requires Valid()
      modifies this`sources
      ensures Value() == EndOfStream(old(Value()), key) && (r.Ok? <==> key in old(sources))
      ensures Valid()
    {
      hide Consistent;
      StepKeepsConsistent(Value(), StreamEnded(key));
      if key !in sources { return Err("source missing"); }
      var source := sources[key].(ended := true);
      if !IsStatic(source.kind) {
        source := source.(retained := None, retainedBytes := 0);
      }
      sources := sources[key := source];
      r := Ok(());
    }

    method VisibleSources(panes: set<nat>, inRange: set<Key>) returns (visible: set<Key>)
      ensures forall key :: key in visible <==> key in sources && Shows(Value(), panes, inRange, key)
    {
      var active := set id | id in producers && producers[id].pane in panes;
      var referenced :=
        set id | id in nodes && nodes[id].pane in panes && HasPlace(producers, nodes[id], id in inRange) ::
          NodeSource(nodes[id]);
      visible := set key | key in sources && (key.producer in active || key in referenced);
    }

    /** The visible sources change, and the deliveries of those no longer visible are given up in some order, under the
        new visibility. `inRange` holds the nodes whose coordinates relative to their anchor can be represented. */
    method ProjectSnapshot(panes: set<nat>, inRange: set<Key>) returns (grants: seq<Granted>, ghost hidden: seq<nat>)
      requires Valid()
      modifies this`sources, this`deliveries, this`queuedBridgeBytes, this`projectedSources, this`activePanes
      ensures Released(Value(), grants) == Project(old(Value()), projectedSources, panes, hidden)
      ensures forall key :: key in projectedSources <==> key in old(sources) && Shows(old(Value()), panes, inRange, key)
      ensures
        deliveries
        == map id | id in old(deliveries) && old(deliveries)[id].source in projectedSources :: old(deliveries)[id]
      ensures Valid()
    {
      hide TakeDeliveries, Consistent, Shows;
      var visible := VisibleSources(panes, inRange);
      var listed := Listed(set id | id in deliveries && deliveries[id].source !in visible);
      hidden := listed;
      StepKeepsConsistent(Value(), Projected(visible, panes, listed));
      projectedSources := visible;
      TakesExactly(Value(), listed);
      grants := TakeAll(listed);
      activePanes := panes;
    }

    // ---- Keyframe requests ----

    method RequestKeyframeRecoveries(requests: seq<Request>) returns (forwarded: nat, damped: nat)
      requires Valid()
      modifies this`sources
      ensures Value() == RequestKeyframes(old(Value()), requests)
      ensures forwarded == CountAnswers(old(Value()), requests, true)
      ensures damped == CountAnswers(old(Value()), requests, false)
      ensures Valid()
    {
      hide AnswerRequest, Consistent;
      StepKeepsConsistent(Value(), KeyframesRequested(requests));
      forwarded, damped := 0, 0;
      for i := 0 to |requests|
        invariant Value() == RequestKeyframes(old(Value()), requests[..i])
        invariant forwarded == CountAnswers(old(Value()), requests[..i], true)
        invariant damped == CountAnswers(old(Value()), requests[..i], false)
        invariant unchanged(`producers) && unchanged(`nodes) && unchanged(`deliveries) && unchanged(`nextDeliveryId)
        invariant unchanged(`queuedBridgeBytes) && unchanged(`retainedBytes)
        invariant unchanged(`projectedSources) && unchanged(`activePanes)
      {
        assert requests[..i + 1][..i] == requests[..i];
        var answer := RequestKeyframeRecovery(requests[i]);
        if answer.Emitted? {
          forwarded := forwarded + 1;
        } else if answer.Damped? {
          damped := damped + 1;
        }
      }
      assert requests[..|requests|] == requests;
    }

    method RequestKeyframeRecovery(request: Request) returns (answer: Answer)
      modifies this`sources
      ensures answer == AnswerRequest(old(Value()), request)
      ensures Value() == RequestKeyframe(old(Value()), request)
    {
      var reason := Normalize(request.reason);
      if request.key !in sources { return Ignored; }
      var source := sources[request.key];
      if !source.kind.Video? || source.ended { return Ignored; }
      var current := source.epoch;
      var minimum :=
        if reason.TransportLoss? then current
        else if request.minimum.Some? then Max(request.minimum.value, current)
        else if reason.Initial? then current
        else if current >= U32_MAX then current else current + 1;
      if source.pendingReason.Some? {
        var stronger := source.pendingReason.value.TransportLoss? && !reason.TransportLoss?;
        if minimum <= source.minimumEpoch && !stronger {
          return Damped;
        }
      }
      var emittedMinimum := Max(source.minimumEpoch, minimum);
      var emittedReason := reason;
      if source.pendingReason.Some? {
        var pending := source.pendingReason.value;
        if pending == reason || pending.TransportLoss? {
          emittedReason := reason;
        } else if reason.TransportLoss? {
          emittedReason := pending;
        } else {
          emittedReason := DecoderError;
        }
      }
      if request.key.producer !in producers || !request.writable { return Ignored; }
      sources := sources[request.key := source.(minimumEpoch := emittedMinimum, pendingReason := Some(emittedReason),
                                                desynchronized := true)];
      return Emitted(emittedMinimum, emittedReason);
    }

    // ---- Sources and scenes ----

    method CreateSource(key: Key, kind: Kind, maximum: nat, posterDenied: bool) returns (r: Result<()>)
      requires Valid() && Possible(Value(), SourceCreated(key, kind, maximum, posterDenied))
      modifies this`sources, this`projectedSources
      ensures
        var expected := MediaState.CreateSource(old(Value()), key, kind, maximum, posterDenied);
        if expected.Ok? then r.Ok? && Value() == expected.value else r == Err(expected.error) && Value() == old(Value())
      ensures Valid()
    {
      hide Consistent, Possible;
      StepKeepsConsistent(Value(), SourceCreated(key, kind, maximum, posterDenied));
      if |sources| >= config.maxSources { return Err("source quota exceeded"); }
      if maximum > config.retainedLimit { return Err("source cannot receive one maximum legal record"); }
      if key in sources { return Err("source ID already exists"); }
      sources := sources[key := Source(kind, Fresh(maximum), None, 0, false, false, false, 0, 0, None, posterDenied)];
      if attached && key.producer in producers && producers[key.producer].pane in activePanes {
        projectedSources := projectedSources + {key};
      }
      return Ok(());
    }

    /** A transaction works on a copy of the nodes, which replaces the scene only when all of it is valid. */
    method ApplyTransaction(producer: nat, mutations: seq<Mutation>, structureValid: bool) returns (r: Result<()>)
      requires Valid() && Possible(Value(), Committed(producer, mutations, structureValid))
      modifies this`nodes
      ensures
        var expected := Commit(old(Value()), producer, mutations, structureValid);
        if expected.Ok? then r.Ok? && Value() == expected.value else r == Err(expected.error) && Value() == old(Value())
      ensures r.Ok? ==> MediaCommits.NodesAre(old(nodes), mutations, nodes)
      ensures r.Ok? <==>
        && (forall i :: 0 <= i < |mutations| ==> MediaCommits.MakesSense(old(Value()), producer, mutations, i))
        && structureValid && |MediaCommits.Remaining(old(nodes), mutations)| <= config.maxNodes
      ensures Valid()
    {
      hide ValidateNode, Mutate, Consistent, Possible, MediaCommits.NodesAre, MediaCommits.MakesSense, MediaCommits.Remaining;
      MediaCommits.CommitExactly(Value(), producer, mutations, structureValid);
      StepKeepsConsistent(Value(), Committed(producer, mutations, structureValid));
      var copy := nodes;
      for i := 0 to |mutations|
        invariant MutateAll(Value(), producer, mutations[..i]) == Ok(copy)
        invariant Value() == old(Value())
      {
        assert mutations[..i + 1][..i] == mutations[..i];
        var step := MutateCopy(producer, copy, mutations[i]);
        if step.Err? {
          MutateAllStops(Value(), producer, mutations, i + 1, step.error);
          return Err(step.error);
        }
        copy := step.value;
      }
      assert mutations[..|mutations|] == mutations;
      if !structureValid { return Err("scene structure is invalid"); }
      if |copy| > config.maxNodes { return Err("node quota exceeded"); }
      nodes := copy;
      return Ok(());
    }

    method MutateCopy(producer: nat, copy: map<Key, Node>, mutation: Mutation) returns (r: Result<map<Key, Node>>)
      ensures r == Mutate(Value(), producer, copy, mutation)
    {
      match mutation
      case Create(node) =>
        var valid := CheckNode(producer, node);
        if valid.Err? { return Err(valid.error); }
        if NodeKey(node) in copy { return Err("node ID already exists"); }
        return Ok(copy[NodeKey(node) := node]);
      case Update(node) =>
        var valid := CheckNode(producer, node);
        if valid.Err? { return Err(valid.error); }
        if NodeKey(node) !in copy { return Err("updated node does not exist"); }
        return Ok(copy[NodeKey(node) := node]);
      case Delete(owner, id) =>
        if Key(owner, id) !in copy { return Err("deleted node does not exist"); }
        return Ok(copy - {Key(owner, id)});
    }

    method CheckNode(producer: nat, node: Node) returns (r: Result<()>)
      ensures r == ValidateNode(Value(), producer, node)
    {
      if node.producer != producer || NodeSource(node) !in sources {
        return Err("node source is outside producer scope");
      }
      if node.anchorId.Some? {
        if producer !in producers { return Err("producer missing"); }
        if node.anchorId.value !in producers[producer].anchors { return Err("node anchor does not exist"); }
      }
      return Ok(());
    }

    method RemoveSource(key: Key) returns (r: Result<()>)
      requires Valid() && Possible(Value(), SourceDestroyed(key))
      modifies this`sources, this`nodes, this`retainedBytes
      ensures
        var expected := MediaState.RemoveSource(old(Value()), key);
        if expected.Ok? then r.Ok? && Value() == expected.value else r == Err(expected.error) && Value() == old(Value())
      ensures Valid()
    {
      hide Consistent, Possible;
      StepKeepsConsistent(Value(), SourceDestroyed(key));
      if key !in sources { return Err("source does not exist"); }
      var source := sources[key];
      sources := sources - {key};
      retainedBytes := SaturatingSub(retainedBytes, source.retainedBytes);
      nodes := map id | id in nodes && NodeSource(nodes[id]) != key :: nodes[id];
      return Ok(());
    }

    method DropSource(key: Key)
      requires key in sources
      modifies this`sources, this`retainedBytes
      ensures
        var before := old(Value());
        Value() == before.(sources := before.sources - {key},
                           retainedBytes := SaturatingSub(before.retainedBytes, before.sources[key].retainedBytes))
    {
      retainedBytes := SaturatingSub(retainedBytes, sources[key].retainedBytes);
      sources := sources - {key};
    }

    method PruneOrphanedSources()
      modifies this`sources, this`retainedBytes
      ensures Value() == Prune(old(Value()))
    {
      hide Without, Orphans, Prune;
      var referenced := set id | id in nodes :: NodeSource(nodes[id]);
      var removed := set key | key in sources && key.producer !in producers && key !in referenced;
      ghost var before, orphans := Value(), removed;
      OrphansFound(before, removed);
      ghost var done: set<Key> := {};
      WithoutNothing(before);
      while removed != {}
        invariant removed !! done && removed + done == orphans
        invariant Value() == Without(before, done)
        decreases |removed|
      {
        var key :| key in removed;
        WithoutOneMore(before, done, key);
        DropSource(key);
        removed, done := removed - {key}, done + {key};
      }
      assert done == orphans;
      PrunedAll(before);
    }

    method CleanupProducer(producer: nat, preserveAnchoredStatic: bool)
      requires Valid()
      modifies this`producers, this`sources, this`nodes, this`retainedBytes
      ensures Value() == MediaState.CleanupProducer(old(Value()), producer, preserveAnchoredStatic)
      ensures Valid()
    {
      hide Prune, Anchored, Survives, Consistent;
      CleanupKeepsConsistent(Value(), producer, preserveAnchoredStatic);
      if producer !in producers { return; }
      var runtime := producers[producer];
      producers := producers - {producer};
      nodes := map id | id in nodes :: Anchored(nodes[id], producer, runtime.anchors);
      nodes := map id | id in nodes && Survives(sources, nodes[id], producer, preserveAnchoredStatic) :: nodes[id];
      assert nodes == Detached(old(Value()), producer, preserveAnchoredStatic).nodes;
      PruneOrphanedSources();
    }

    method CleanupAll(ids: seq<nat>)
      requires Valid()
      modifies this`producers, this`sources, this`nodes, this`retainedBytes
      ensures Value() == CleanupProducers(old(Value()), ids)
    {
      hide MediaState.CleanupProducer, Consistent;
      for i := 0 to |ids|
        invariant Value() == CleanupProducers(old(Value()), ids[..i]) && Valid()
        invariant unchanged(`deliveries) && unchanged(`nextDeliveryId) && unchanged(`queuedBridgeBytes)
        invariant unchanged(`projectedSources) && unchanged(`activePanes)
      {
        assert ids[..i + 1][..i] == ids[..i];
        CleanupProducer(ids[i], false);
      }
      assert ids[..|ids|] == ids;
    }

    /** The producers of the pane are cleaned up in some order. */
    method RevokePane(pane: nat) returns (ghost revoked: seq<nat>)
      requires Valid()
      modifies this`producers, this`sources, this`nodes, this`retainedBytes
      ensures Value() == MediaState.RevokePane(old(Value()), pane, revoked)
      ensures producers == map id | id in old(producers) && old(producers)[id].pane != pane :: old(producers)[id]
      ensures forall id :: id in nodes ==> nodes[id].pane != pane
      ensures Valid()
    {
      hide Prune, CleanupProducers, Consistent;
      var listed := Listed(set id | id in producers && producers[id].pane == pane);
      revoked := listed;
      StepKeepsConsistent(Value(), PaneRevoked(pane, listed));
      CleanupsRemove(Value(), listed);
      CleanupAll(listed);
      nodes := map id | id in nodes && nodes[id].pane != pane :: nodes[id];
      PruneKeepsProducers(Value());
      PruneOrphanedSources();
    }

    method ClearAnchors(pane: nat)
      requires Valid()
      modifies this`producers, this`sources, this`nodes, this`retainedBytes
      ensures Value() == MediaState.ClearAnchors(old(Value()), pane)
      ensures Valid()
    {
      hide Prune, Consistent;
      StepKeepsConsistent(Value(), AnchorsCleared(pane));
      producers :=
        map id | id in producers :: if producers[id].pane == pane then producers[id].(anchors := map[]) else producers[id];
      nodes := map id | id in nodes && (nodes[id].pane != pane || nodes[id].retainedAnchor.None?) :: nodes[id];
      PruneOrphanedSources();
    }
  }

  /** A transaction fails with the error of its first mutation that fails. */
  lemma {:induction false} MutateAllStops(m: Media, producer: nat, mutations: seq<Mutation>, n: nat, error: string)
    requires n <= |mutations| && MutateAll(m, producer, mutations[..n]) == Err(error)
    ensures MutateAll(m, producer, mutations) == Err(error)
    decreases |mutations|
  {
    hide Mutate;
    if n < |mutations| {
      var last := |mutations| - 1;
      assert mutations[..last][..n] == mutations[..n];
      MutateAllStops(m, producer, mutations[..last], n, error);
    } else {
      assert mutations[..n] == mutations;
    }
  }
}
