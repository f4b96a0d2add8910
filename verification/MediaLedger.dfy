/** Credit and delivery accounting over every run of the inner presenter (src/media.rs:893-949, 1486-1594,
    4024-4118). */
module MediaLedger {
  import opened Wrappers
  import opened FixedWidth
  import opened MapSums
  import opened PointSets
  import opened MediaCredit
  import opened MediaState

  // ---- Every window is balanced ----

  ghost predicate CreditsBalanced(m: Media) {
    forall key :: key in m.sources ==> Balanced(m.sources[key].credit)
  }

  function GrantedBytes(grants: seq<Granted>, key: Key): nat {
    if grants == [] then 0
    else
      var last := grants[|grants| - 1];
      GrantedBytes(grants[..|grants| - 1], key) + if last.key == key then last.grant.bytes else 0
  }

  function GrantedPackets(grants: seq<Granted>, key: Key): nat {
    if grants == [] then 0
    else
      var last := grants[|grants| - 1];
      GrantedPackets(grants[..|grants| - 1], key) + if last.key == key then last.grant.packets else 0
  }

  lemma {:induction false} GrantsAppend(x: seq<Granted>, y: seq<Granted>, key: Key)
    ensures GrantedBytes(x + y, key) == GrantedBytes(x, key) + GrantedBytes(y, key)
    ensures GrantedPackets(x + y, key) == GrantedPackets(x, key) + GrantedPackets(y, key)
  {
    if y == [] {
      assert x + y == x;
    } else {
      var n := |y| - 1;
      GrantsAppend(x, y[..n], key);
      assert (x + y)[..|x| + n] == x + y[..n];
    }
  }

  lemma OneGrant(granted: Granted, key: Key)
    ensures GrantedBytes([granted], key) == if granted.key == key then granted.grant.bytes else 0
    ensures GrantedPackets([granted], key) == if granted.key == key then granted.grant.packets else 0
  {
    assert [granted][..0] == [];
    assert GrantedBytes([], key) == 0 && GrantedPackets([], key) == 0;
  }

  /** While a source lives through a change, its windows stay, the packet sum does not shrink, and its outstanding
      credit grows by what is granted and shrinks by what is consumed. */
  predicate Flows(before: Media, after: Media, key: Key, grants: seq<Granted>, bytes: nat, packets: nat) {
    key in before.sources && key in after.sources ==>
      var b, a := before.sources[key].credit, after.sources[key].credit;
      && SameWindows(b, a)
      && PacketSum(b) <= PacketSum(a)
      && a.outstandingBytes + bytes == b.outstandingBytes + GrantedBytes(grants, key)
      && a.outstandingPackets + packets == b.outstandingPackets + GrantedPackets(grants, key)
  }

  /** A change after which every ledger is balanced again and `key`'s credit is conserved. */
  ghost predicate Conserves(before: Media, after: Media, key: Key, grants: seq<Granted>, bytes: nat, packets: nat) {
    CreditsBalanced(after) && Flows(before, after, key, grants, bytes, packets)
  }

  /** Neither the keys nor the credits of the surviving sources change. */
  ghost predicate CreditsKept(before: Media, after: Media) {
    && after.sources.Keys <= before.sources.Keys
    && forall key :: key in after.sources ==> after.sources[key].credit == before.sources[key].credit
  }

  lemma KeptConserves(before: Media, after: Media, key: Key)
    requires CreditsBalanced(before) && CreditsKept(before, after)
    ensures Conserves(before, after, key, [], 0, 0)
  {
  }

  lemma KeptThenConserves(before: Media, between: Media, after: Media, key: Key, grants: seq<Granted>, bytes: nat, packets: nat)
    requires CreditsKept(before, between) && before.sources.Keys == between.sources.Keys
    requires Conserves(between, after, key, grants, bytes, packets)
    ensures Conserves(before, after, key, grants, bytes, packets)
  {
  }

  lemma ConservesThenKept(before: Media, between: Media, after: Media, key: Key, grants: seq<Granted>, bytes: nat, packets: nat)
    requires Conserves(before, between, key, grants, bytes, packets)
    requires CreditsKept(between, after)
    ensures Conserves(before, after, key, grants, bytes, packets)
  {
  }

  lemma ReturnConserves(m: Media, source: Key, bytes: nat, packets: nat, key: Key)
    requires CreditsBalanced(m)
    ensures
      var r := ReturnCredit(m, source, bytes, packets);
      r.media.sources.Keys == m.sources.Keys && Conserves(m, r.media, key, r.grants, 0, 0)
  {
    hide Balanced, Return;
    var r := ReturnCredit(m, source, bytes, packets);
    OneGrant(r.grants[0], key);
    if source in m.sources {
      ReturnBalances(m.sources[source].credit, bytes, packets, source in m.projected);
    }
  }

  lemma TakeConserves(m: Media, id: nat, key: Key)
    requires CreditsBalanced(m)
    ensures
      var r := TakeDelivery(m, id);
      r.media.sources.Keys == m.sources.Keys && Conserves(m, r.media, key, r.grants, 0, 0)
  {
    hide ReturnCredit;
    if id in m.deliveries {
      var pending := m.deliveries[id];
      var taken := m.(deliveries := m.deliveries - {id}, queuedBytes := SaturatingSub(m.queuedBytes, pending.queuedBytes));
      ReturnConserves(taken, pending.source, pending.creditBytes, 1, key);
    }
  }

  lemma {:induction false} TakeAllConserves(m: Media, ids: seq<nat>, key: Key)
    requires CreditsBalanced(m)
    ensures
      var r := TakeDeliveries(m, ids);
      r.media.sources.Keys == m.sources.Keys && Conserves(m, r.media, key, r.grants, 0, 0)
  {
    hide TakeDelivery, Balanced;
    if ids != [] {
      var n := |ids| - 1;
      TakeAllConserves(m, ids[..n], key);
      var init := TakeDeliveries(m, ids[..n]);
      TakeConserves(init.media, ids[n], key);
      GrantsAppend(init.grants, TakeDelivery(init.media, ids[n]).grants, key);
    }
  }

  /** One packet goes with every charged record. */
  function PacketsFor(bytes: nat): nat {
    if bytes == 0 then 0 else 1
  }

  lemma DispatchConserves(m: Media, key: Key, record: Record, other: Key)
    requires key in m.sources && CreditsBalanced(m)
    ensures
      var r := Dispatch(m, key, record);
      && r.media.sources.Keys == m.sources.Keys && r.consumed == record.bytes
      && Conserves(m, r.media, other, r.grants, 0, 0)
  {
    hide ReturnCredit, Balanced, ForwardTimed, QueueAdmits, ForwardedBytes, Conserves;
    var r := Dispatch(m, key, record);
    if ForwardTimed(m, key) && QueueAdmits(m, ForwardedBytes(record)) {
      assert CreditsKept(m, r.media);
      KeptConserves(m, r.media, other);
    } else {
      var lost := ForwardTimed(m, key) && m.sources[key].kind.Video?;
      var dropped := if lost then WithSource(m, key, m.sources[key].(desynchronized := true)) else m;
      assert CreditsKept(m, dropped);
      ReturnConserves(dropped, key, record.bytes, 1, other);
      KeptThenConserves(m, dropped, r.media, other, r.grants, 0, 0);
    }
  }

  lemma DecodedKeepsCredit(source: Source, record: Record, projected: bool)
    requires PayloadMatches(source.kind, record.payload) && Decoded(source, record.payload, projected).Ok?
    ensures
      var decoded := Decoded(source, record.payload, projected).value;
      decoded.credit == source.credit && Stored(decoded, record).credit == source.credit
  {
  }

  lemma DecodingKeepsCredits(m: Media, key: Key, decoded: Source)
    requires key in m.sources && decoded.credit == m.sources[key].credit
    ensures CreditsKept(m, WithSource(m, key, decoded))
  {
  }

  lemma StoredConserves(m: Media, key: Key, decoded: Source, record: Record, other: Key)
    requires key in m.sources && CreditsBalanced(m) && Stored(decoded, record).credit == m.sources[key].credit
    ensures
      var r := Dispatch(Store(m, key, decoded, record), key, record);
      && r.media.sources.Keys == m.sources.Keys && r.consumed == record.bytes
      && Conserves(m, r.media, other, r.grants, 0, 0)
  {
    hide Balanced, Dispatch, Conserves, Stored, RetainedTotal;
    var stored := Store(m, key, decoded, record);
    assert CreditsKept(m, stored) && stored.sources.Keys == m.sources.Keys;
    assert CreditsBalanced(stored);
    DispatchConserves(stored, key, record, other);
    var r := Dispatch(stored, key, record);
    KeptThenConserves(m, stored, r.media, other, r.grants, 0, 0);
  }

  lemma ChargedConserves(m: Media, key: Key, record: Record, other: Key)
    requires key in m.sources && CreditsBalanced(m)
    ensures
      var r := IngestCharged(m, key, record);
      && r.media.sources.Keys == m.sources.Keys && r.consumed == record.bytes
      && Conserves(m, r.media, other, r.grants, 0, 0)
  {
    hide ReturnCredit, CreditsBalanced, Dispatch, Conserves, Decoded, Store, RetainedTotal, Flows, PayloadMatches, Stored;
    ReturnConserves(m, key, record.bytes, 1, other);
    KeptConserves(m, m, other);
    var source := m.sources[key];
    if PayloadMatches(source.kind, record.payload) && Decoded(source, record.payload, key in m.projected).Ok? {
      DecodedKeepsCredit(source, record, key in m.projected);
      var decoded := Decoded(source, record.payload, key in m.projected).value;
      DecodingKeepsCredits(m, key, decoded);
      KeptConserves(m, WithSource(m, key, decoded), other);
      StoredConserves(m, key, decoded, record, other);
    }
  }

  lemma IngestConserves(m: Media, key: Key, record: Record, other: Key)
    requires CreditsBalanced(m)
    ensures
      var r := Ingest(m, key, record);
      var consumed := if key == other then r.consumed else 0;
      Conserves(m, r.media, other, r.grants, consumed, PacketsFor(consumed))
  {
    hide Balanced, Consume, IngestCharged, Conserves;
    if key in m.sources {
      ConsumingBalances(m, key, record.bytes, other);
      var charged := Charged(m, key, record.bytes);
      KeptConserves(m, m, other);
      if Consume(m.sources[key].credit, record.bytes).accepted {
        var r := IngestCharged(charged, key, record);
        ChargedConserves(charged, key, record, other);
        ChargeFlows(m, charged, r.media, key, other, r.grants, record.bytes);
      }
    } else {
      KeptConserves(m, m, other);
    }
  }

  function Charged(m: Media, key: Key, bytes: nat): Media
    requires key in m.sources
  {
    WithSource(m, key, m.sources[key].(credit := Consume(m.sources[key].credit, bytes).credit))
  }

  lemma ConsumingBalances(m: Media, key: Key, bytes: nat, other: Key)
    requires CreditsBalanced(m) && key in m.sources
    ensures
      var charged := Charged(m, key, bytes);
      && CreditsBalanced(charged)
      && (if Consume(m.sources[key].credit, bytes).accepted then
            bytes > 0 && Flows(m, charged, other, [], if key == other then bytes else 0, if key == other then 1 else 0)
          else charged == m)
  {
    hide Balanced, Consume;
    NoGrants(other);
    ConsumeBalances(m.sources[key].credit, bytes);
  }

  /** What is charged first and what happens to the charged record add up. */
  lemma ChargeFlows(m: Media, charged: Media, after: Media, key: Key, other: Key, grants: seq<Granted>, bytes: nat)
    requires m.sources.Keys == charged.sources.Keys == after.sources.Keys
    requires Flows(m, charged, other, [], if key == other then bytes else 0, if key == other then PacketsFor(bytes) else 0)
    requires Conserves(charged, after, other, grants, 0, 0)
    ensures
      var consumed := if key == other then bytes else 0;
      Conserves(m, after, other, grants, consumed, PacketsFor(consumed))
  {
    hide CreditsBalanced;
    NoGrants(other);
  }

  lemma SceneKeepsCredits(m: Media, step: Step)
    requires step.Registered? || step.Committed? || step.SourceDestroyed? || step.Disconnected? || step.AnchorSeen?
             || step.AnchorsCleared? || step.PaneRevoked?
    ensures CreditsKept(m, Next(m, step).media)
  {
    hide Commit, Prune, CleanupProducer, CleanupProducers;
    match step
    case Disconnected(producer) => CleanupKeepsCredits(m, producer, true);
    case PaneRevoked(pane, producers) => RevokeKeepsCredits(m, pane, producers);
    case AnchorsCleared(pane) => PruneKeepsCredits(ClearedAnchors(m, pane));
    case Committed(producer, mutations, structureValid) => CommitKeepsSources(m, producer, mutations, structureValid);
    case _ =>
  }

  lemma PruneKeepsCredits(m: Media)
    ensures CreditsKept(m, Prune(m))
  {
  }

  lemma RevokeKeepsCredits(m: Media, pane: nat, producers: seq<nat>)
    ensures CreditsKept(m, RevokePane(m, pane, producers))
  {
    hide Prune, CleanupProducers;
    CleanupsKeepCredits(m, producers);
    PruneKeepsCredits(WithoutPane(CleanupProducers(m, producers), pane));
  }

  lemma CommitKeepsSources(m: Media, producer: nat, mutations: seq<Mutation>, structureValid: bool)
    ensures OrSame(m, Commit(m, producer, mutations, structureValid)).sources == m.sources
  {
  }

  lemma CleanupKeepsCredits(m: Media, producer: nat, preserve: bool)
    ensures CreditsKept(m, CleanupProducer(m, producer, preserve))
  {
    hide Prune, Survives, Anchored;
    if producer in m.producers {
      PruneKeepsCredits(Detached(m, producer, preserve));
    }
  }

  lemma {:induction false} CleanupsKeepCredits(m: Media, producers: seq<nat>)
    ensures CreditsKept(m, CleanupProducers(m, producers))
  {
    hide CleanupProducer;
    if producers != [] {
      var n := |producers| - 1;
      CleanupsKeepCredits(m, producers[..n]);
      CleanupKeepsCredits(CleanupProducers(m, producers[..n]), producers[n], false);
    }
  }

  lemma RequestKeepsCredits(m: Media, request: Request)
    ensures CreditsKept(m, RequestKeyframe(m, request))
  {
  }

  lemma {:induction false} RequestsKeepCredits(m: Media, requests: seq<Request>)
    ensures CreditsKept(m, RequestKeyframes(m, requests))
  {
    hide RequestKeyframe;
    if requests != [] {
      var n := |requests| - 1;
      RequestsKeepCredits(m, requests[..n]);
      RequestKeepsCredits(RequestKeyframes(m, requests[..n]), requests[n]);
    }
  }

  function ConsumedBy(step: Step, consumed: nat, key: Key): nat {
    if step.RecordIngested? && step.key == key then consumed else 0
  }

  /** One step of the presenter keeps every ledger balanced and conserves every surviving source's credit. */
  lemma StepConservesCredit(m: Media, step: Step, key: Key)
    requires CreditsBalanced(m) && Possible(m, step)
    ensures
      var e := Next(m, step);
      var consumed := ConsumedBy(step, e.consumed, key);
      Conserves(m, e.media, key, e.grants, consumed, PacketsFor(consumed))
  {
    hide Ingest, TakeDeliveries, RequestKeyframes, CleanupProducer, RevokePane, ClearAnchors, Commit, RemoveSource, CreateSource,
      Conserves, CreditsBalanced, CompleteDelivery, Deactivate, SendFailed, Project, Flush, EndOfStream, SetPlaying, OrSame,
      Register, SeeAnchor, CreditsKept;
    match step
    case SourceCreated(created, kind, maximum, posterDenied) => CreateConserves(m, step, key);
    case RecordIngested(source, record) => IngestConserves(m, source, record, key);
    case HandoverFailed(source, delivery) => HandoverConserves(m, source, delivery, key);
    case DeliveryCompleted(delivery, delivered) => CompleteConserves(m, delivery, delivered, key);
    case DeliveriesCancelled(_, deliveries) => TakeAllConserves(m, deliveries, key);
    case Projected(visible, panes, hidden) => ProjectConserves(m, visible, panes, hidden, key);
    case Deactivated(deliveries) => DeactivateConserves(m, deliveries, key);
    case _ =>
      OtherStepsKeepCredits(m, step);
      KeptConserves(m, Next(m, step).media, key);
  }

  lemma OtherStepsKeepCredits(m: Media, step: Step)
    requires !step.SourceCreated? && !step.RecordIngested? && !step.HandoverFailed? && !step.DeliveryCompleted?
             && !step.DeliveriesCancelled? && !step.Projected? && !step.Deactivated?
    ensures CreditsKept(m, Next(m, step).media)
  {
    hide RequestKeyframes, CleanupProducer, RevokePane, ClearAnchors, Commit, RemoveSource, CreditsKept;
    match step
    case KeyframesRequested(requests) => RequestsKeepCredits(m, requests);
    case Flushed(key, epoch) => PlaybackKeepsCredits(m, key, epoch, false);
    case StreamEnded(key) => PlaybackKeepsCredits(m, key, 0, false);
    case PlaybackSet(key, playing) => PlaybackKeepsCredits(m, key, 0, playing);
    case _ => SceneKeepsCredits(m, step);
  }

  lemma PlaybackKeepsCredits(m: Media, key: Key, epoch: nat, playing: bool)
    ensures CreditsKept(m, Flush(m, key, epoch))
    ensures CreditsKept(m, EndOfStream(m, key))
    ensures CreditsKept(m, SetPlaying(m, key, playing))
  {
    if key in m.sources {
      DecodingKeepsCredits(m, key, Flush(m, key, epoch).sources[key]);
      DecodingKeepsCredits(m, key, EndOfStream(m, key).sources[key]);
      DecodingKeepsCredits(m, key, SetPlaying(m, key, playing).sources[key]);
    }
  }

  lemma CreateConserves(m: Media, step: Step, key: Key)
    requires step.SourceCreated? && CreditsBalanced(m) && Possible(m, step)
    ensures Conserves(m, Next(m, step).media, key, [], 0, 0)
  {
    hide Balanced;
    NoGrants(key);
    FreshIsBalanced(step.maximum);
  }

  lemma HandoverConserves(m: Media, source: Key, delivery: nat, key: Key)
    requires CreditsBalanced(m)
    ensures Conserves(m, SendFailed(m, source, delivery).media, key, SendFailed(m, source, delivery).grants, 0, 0)
  {
    hide TakeDelivery, Conserves;
    TakeConserves(m, delivery, key);
    var taken := TakeDelivery(m, delivery);
    ConservesThenKept(m, taken.media, Desynchronize(taken.media, source), key, taken.grants, 0, 0);
  }

  lemma CompleteConserves(m: Media, delivery: nat, delivered: bool, key: Key)
    requires CreditsBalanced(m)
    ensures
      var r := CompleteDelivery(m, delivery, delivered);
      Conserves(m, r.media, key, r.grants, 0, 0)
  {
    hide TakeDelivery, Conserves;
    KeptConserves(m, m, key);
    if delivery in m.deliveries {
      var lost := Desynchronize(m, m.deliveries[delivery].source);
      assert CreditsBalanced(lost);
      TakeConserves(m, delivery, key);
      TakeConserves(lost, delivery, key);
      var r := TakeDelivery(lost, delivery);
      KeptThenConserves(m, lost, r.media, key, r.grants, 0, 0);
    }
  }

  lemma ProjectConserves(m: Media, visible: set<Key>, panes: set<nat>, hidden: seq<nat>, key: Key)
    requires CreditsBalanced(m)
    ensures
      var r := Project(m, visible, panes, hidden);
      Conserves(m, r.media, key, r.grants, 0, 0)
  {
    hide TakeDeliveries, Conserves;
    var seen := m.(projected := visible);
    TakeAllConserves(seen, hidden, key);
    var taken := TakeDeliveries(seen, hidden);
    KeptThenConserves(m, seen, taken.media, key, taken.grants, 0, 0);
    ConservesThenKept(m, taken.media, taken.media.(activePanes := panes), key, taken.grants, 0, 0);
  }

  lemma NoGrants(key: Key)
    ensures GrantedBytes([], key) == 0 && GrantedPackets([], key) == 0
  {
  }

  lemma FreshIsBalanced(maximum: nat)
    requires maximum <= U64_MAX
    ensures Balanced(Fresh(maximum))
  {
  }

  lemma DeactivateConserves(m: Media, ids: seq<nat>, key: Key)
    requires CreditsBalanced(m)
    ensures
      var r := Deactivate(m, ids);
      Conserves(m, r.media, key, r.grants, 0, 0)
  {
    hide TakeDeliveries, Conserves;
    var sources :=
      map source | source in m.sources ::
        if m.sources[source].kind.Video? && m.sources[source].playing then m.sources[source].(desynchronized := true)
        else m.sources[source];
    var hidden := m.(projected := {}, sources := sources);
    assert CreditsKept(m, hidden) && hidden.sources.Keys == m.sources.Keys;
    assert CreditsBalanced(hidden);
    TakeAllConserves(hidden, ids, key);
    var r := TakeDeliveries(hidden, ids);
    KeptThenConserves(m, hidden, r.media, key, r.grants, 0, 0);
  }

  // ---- Conservation over a source's life ----

  ghost function TotalGranted(m: Media, steps: seq<Step>, key: Key): Grant {
    if steps == [] then Grant(0, 0)
    else
      var n := |steps| - 1;
      var earlier, grants := TotalGranted(m, steps[..n], key), Next(Run(m, steps[..n]), steps[n]).grants;
      Grant(earlier.bytes + GrantedBytes(grants, key), earlier.packets + GrantedPackets(grants, key))
  }

  ghost function TotalConsumed(m: Media, steps: seq<Step>, key: Key): Grant {
    if steps == [] then Grant(0, 0)
    else
      var n := |steps| - 1;
      var earlier := TotalConsumed(m, steps[..n], key);
      var consumed := ConsumedBy(steps[n], Next(Run(m, steps[..n]), steps[n]).consumed, key);
      Grant(earlier.bytes + consumed, earlier.packets + PacketsFor(consumed))
  }

  ghost predicate LivesThrough(m: Media, steps: seq<Step>, key: Key) {
    key in Run(m, steps).sources && (steps == [] || LivesThrough(m, steps[..|steps| - 1], key))
  }

  /** Over any run through which a source lives: outstanding and charged bytes always fill its window, its packet sum
      only grows and stays within its window, and what it may still send is what it could at first, plus what was
      granted, minus what it used. */
  lemma {:induction false} CreditIsConserved(m: Media, steps: seq<Step>, key: Key)
    requires CreditsBalanced(m) && PossibleRun(m, steps) && LivesThrough(m, steps, key)
    ensures key in m.sources && CreditsBalanced(Run(m, steps))
    ensures
      var first, last := m.sources[key].credit, Run(m, steps).sources[key].credit;
      var granted, consumed := TotalGranted(m, steps, key), TotalConsumed(m, steps, key);
      && SameWindows(first, last)
      && last.outstandingBytes + last.chargedBytes == last.windowBytes
      && PacketSum(first) <= PacketSum(last) <= last.windowPackets
      && last.outstandingBytes == first.outstandingBytes + granted.bytes - consumed.bytes
      && last.outstandingPackets == first.outstandingPackets + granted.packets - consumed.packets
  {
    hide Next, Possible, GrantedBytes, GrantedPackets;
    if steps != [] {
      var n := |steps| - 1;
      CreditIsConserved(m, steps[..n], key);
      StepConservesCredit(Run(m, steps[..n]), steps[n], key);
    }
  }

  /** From its creation on, a source may send its byte window plus what was granted minus what it used, and one
      packet plus the packets granted minus those used. */
  lemma CreditSinceCreation(m: Media, key: Key, kind: Kind, maximum: nat, posterDenied: bool, steps: seq<Step>)
    requires CreditsBalanced(m) && maximum <= U64_MAX
    requires CreateSource(m, key, kind, maximum, posterDenied).Ok?
    requires
      var born := CreateSource(m, key, kind, maximum, posterDenied).value;
      PossibleRun(born, steps) && LivesThrough(born, steps, key)
    ensures
      var born := CreateSource(m, key, kind, maximum, posterDenied).value;
      var granted, consumed := TotalGranted(born, steps, key), TotalConsumed(born, steps, key);
      var credit := Run(born, steps).sources[key].credit;
      && credit.outstandingBytes + credit.chargedBytes == maximum
      && credit.outstandingBytes == maximum + granted.bytes - consumed.bytes
      && credit.outstandingPackets == INITIAL_PACKET_CREDITS + granted.packets - consumed.packets
      && INITIAL_PACKET_CREDITS <= PacketSum(credit) <= ROLLING_PACKET_CREDITS
  {
    hide Run, PossibleRun, LivesThrough, TotalGranted, TotalConsumed, Balanced;
    FreshIsBalanced(maximum);
    CreditIsConserved(CreateSource(m, key, kind, maximum, posterDenied).value, steps, key);
  }

  // ---- The delivery queue ----

  function QueuedSizes(deliveries: map<nat, Delivery>): map<nat, nat> {
    map id | id in deliveries :: deliveries[id].queuedBytes
  }

  /** The byte counter is the sum over the pending deliveries; ids grow; only a single delivery may exceed the limit. */
  ghost predicate QueueExact(m: Media) {
    && m.queuedBytes == Sum(QueuedSizes(m.deliveries))
    && (forall id :: id in m.deliveries ==> 0 < m.deliveries[id].queuedBytes && id <= m.nextDeliveryId)
    && (m.queuedBytes > m.config.queueLimit ==> |m.deliveries| == 1)
  }

  /** The limit leaves room for one record below the 64-bit ceiling. */
  predicate LimitFits(m: Media) {
    m.config.queueLimit + U32_MAX <= U64_MAX
  }

  predicate RecordFits(step: Step) {
    step.RecordIngested? ==>
      && step.record.bytes <= U32_MAX
      && (step.record.payload.RasterFrame? && step.record.payload.verdict.Accepted? ==>
            step.record.payload.verdict.fullBytes <= U32_MAX)
  }

  predicate QueueKept(before: Media, after: Media) {
    && after.deliveries == before.deliveries && after.queuedBytes == before.queuedBytes
    && after.nextDeliveryId == before.nextDeliveryId && after.config == before.config
  }

  lemma TakeKeepsQueue(m: Media, id: nat)
    requires QueueExact(m)
    ensures QueueExact(TakeDelivery(m, id).media) && TakeDelivery(m, id).media.config == m.config
  {
    hide ReturnCredit;
    ReturnKeepsQueue(m, id);
    if id in m.deliveries {
      var rest := m.deliveries - {id};
      SumRemove(QueuedSizes(m.deliveries), id);
      assert QueuedSizes(m.deliveries) - {id} == QueuedSizes(rest);
      if |m.deliveries| == 1 {
        assert m.deliveries.Keys == {id} by { OnlyElement(m.deliveries.Keys, id); }
        assert rest == map[];
        SumEmpty<nat>();
        assert QueuedSizes(rest) == map[];
      }
    }
  }

  lemma OnlyElement(s: set<nat>, x: nat)
    requires |s| == 1 && x in s
    ensures s == {x}
  {
    assert |s - {x}| == 0;
    assert s - {x} == {};
  }

  lemma ReturnKeepsQueue(m: Media, id: nat)
    ensures
      if id in m.deliveries then
        var taken := m.(deliveries := m.deliveries - {id}, queuedBytes := SaturatingSub(m.queuedBytes, m.deliveries[id].queuedBytes));
        QueueKept(taken, TakeDelivery(m, id).media)
      else TakeDelivery(m, id).media == m
  {
  }

  lemma {:induction false} TakeAllKeepsQueue(m: Media, ids: seq<nat>)
    requires QueueExact(m)
    ensures QueueExact(TakeDeliveries(m, ids).media) && TakeDeliveries(m, ids).media.config == m.config
  {
    hide TakeDelivery, QueueExact;
    if ids != [] {
      var n := |ids| - 1;
      TakeAllKeepsQueue(m, ids[..n]);
      TakeKeepsQueue(TakeDeliveries(m, ids[..n]).media, ids[n]);
    }
  }

  lemma AdmittedIsExact(m: Media, bytes: nat)
    requires LimitFits(m) && bytes <= U32_MAX && QueueAdmits(m, bytes)
    ensures SaturatingAdd(m.queuedBytes, bytes) == m.queuedBytes + bytes
    ensures m.queuedBytes == 0 || m.queuedBytes + bytes <= m.config.queueLimit
  {
  }

  lemma EnqueueKeepsQueue(m: Media, after: Media, delivery: Delivery)
    requires QueueExact(m) && 0 < delivery.queuedBytes
    requires m.queuedBytes == 0 || m.queuedBytes + delivery.queuedBytes <= m.config.queueLimit
    requires
      var id := m.nextDeliveryId + 1;
      && after.deliveries == m.deliveries[id := delivery] && after.nextDeliveryId == id && after.config == m.config
      && after.queuedBytes == m.queuedBytes + delivery.queuedBytes
    ensures QueueExact(after)
  {
    hide Sum;
    var id: nat := m.nextDeliveryId + 1;
    var sizes := QueuedSizes(m.deliveries);
    assert sizes - {id} == sizes;
    SumUpdate(sizes, id, delivery.queuedBytes);
    assert QueuedSizes(after.deliveries) == sizes[id := delivery.queuedBytes];
    if m.queuedBytes == 0 {
      SumPositive(sizes);
      assert m.deliveries.Keys == sizes.Keys;
      assert after.deliveries.Keys == {id};
      assert |after.deliveries| == |after.deliveries.Keys|;
    }
  }

  lemma DispatchKeepsQueue(m: Media, key: Key, record: Record)
    requires key in m.sources && QueueExact(m) && LimitFits(m) && 0 < ForwardedBytes(record) <= U32_MAX
    ensures QueueExact(Dispatch(m, key, record).media) && Dispatch(m, key, record).media.config == m.config
  {
    hide ForwardedBytes, ForwardTimed, ReturnCredit, QueueAdmits, QueueExact, SaturatingAdd;
    var bytes := ForwardedBytes(record);
    var after := Dispatch(m, key, record).media;
    if ForwardTimed(m, key) && QueueAdmits(m, bytes) {
      AdmittedIsExact(m, bytes);
      if m.nextDeliveryId < U64_MAX {
        EnqueueKeepsQueue(m, after, Delivery(key, record.bytes, bytes));
      }
    } else {
      var lost := ForwardTimed(m, key) && m.sources[key].kind.Video?;
      var dropped := if lost then WithSource(m, key, m.sources[key].(desynchronized := true)) else m;
      CreditReturnKeepsQueue(dropped, key, record.bytes, 1);
      SameQueue(m, after);
    }
  }

  lemma CreditReturnKeepsQueue(m: Media, key: Key, bytes: nat, packets: nat)
    ensures QueueKept(m, ReturnCredit(m, key, bytes, packets).media)
  {
  }

  lemma IngestKeepsQueue(m: Media, key: Key, record: Record)
    requires QueueExact(m) && LimitFits(m)
    requires Possible(m, RecordIngested(key, record)) && RecordFits(RecordIngested(key, record))
    ensures QueueExact(Ingest(m, key, record).media) && Ingest(m, key, record).media.config == m.config
  {
    hide QueueExact, Dispatch, ReturnCredit, Decoded, NewRetained, Stored, Consume, SaturatingSub;
    if key in m.sources && Consume(m.sources[key].credit, record.bytes).accepted {
      AcceptedIsNotEmpty(m.sources[key].credit, record.bytes);
      var charged := WithSource(m, key, m.sources[key].(credit := Consume(m.sources[key].credit, record.bytes).credit));
      SameQueue(m, charged);
      ChargedKeepsQueue(charged, key, record);
    }
    forall after: Media | QueueKept(m, after) ensures QueueExact(after) {
      SameQueue(m, after);
    }
  }

  lemma AcceptedIsNotEmpty(c: Credit, bytes: nat)
    requires Consume(c, bytes).accepted
    ensures bytes > 0
  {
  }

  lemma SameQueue(m: Media, after: Media)
    requires QueueExact(m) && QueueKept(m, after)
    ensures QueueExact(after)
  {
  }

  lemma ChargedKeepsQueue(m: Media, key: Key, record: Record)
    requires key in m.sources && QueueExact(m) && LimitFits(m) && record.bytes > 0
    requires Possible(m, RecordIngested(key, record)) && RecordFits(RecordIngested(key, record))
    ensures QueueExact(IngestCharged(m, key, record).media) && IngestCharged(m, key, record).media.config == m.config
  {
    hide QueueExact, Dispatch, ReturnCredit, Decoded, Stored, SaturatingSub;
    CreditReturnKeepsQueue(m, key, record.bytes, 1);
    forall after: Media | QueueKept(m, after) ensures QueueExact(after) {
      SameQueue(m, after);
    }
    var source := m.sources[key];
    if PayloadMatches(source.kind, record.payload) && Decoded(source, record.payload, key in m.projected).Ok? {
      var decoded := Decoded(source, record.payload, key in m.projected).value;
      var stored := Store(m, key, decoded, record);
      assert QueueKept(m, stored);
      SameQueue(m, stored);
      DispatchKeepsQueue(stored, key, record);
    }
  }

  lemma StepKeepsQueue(m: Media, step: Step)
    requires QueueExact(m) && LimitFits(m) && Possible(m, step) && RecordFits(step)
    ensures QueueExact(Next(m, step).media) && Next(m, step).media.config == m.config
  {
    hide QueueExact, Ingest, TakeDeliveries, SendFailed, CompleteDelivery, Project, Deactivate, RequestKeyframes, CleanupProducer,
      RevokePane, Commit, Orphans;
    var after := Next(m, step).media;
    match step
    case RecordIngested(key, record) => IngestKeepsQueue(m, key, record);
    case HandoverFailed(_, _) => DeliveryStepsKeepQueue(m, step);
    case DeliveryCompleted(_, _) => DeliveryStepsKeepQueue(m, step);
    case DeliveriesCancelled(_, deliveries) => TakeAllKeepsQueue(m, deliveries);
    case Projected(_, _, _) => DeliveryStepsKeepQueue(m, step);
    case Deactivated(_) => DeliveryStepsKeepQueue(m, step);
    case KeyframesRequested(requests) =>
      RequestsKeepQueue(m, requests);
      SameQueue(m, after);
    case Committed(producer, mutations, structureValid) =>
      CommitKeepsQueue(m, producer, mutations, structureValid);
      SameQueue(m, after);
    case Disconnected(producer) =>
      CleanupKeepsQueue(m, producer, true);
      SameQueue(m, after);
    case PaneRevoked(pane, producers) =>
      RevokeKeepsQueue(m, pane, producers);
      SameQueue(m, after);
    case _ => SameQueue(m, after);
  }

  lemma OtherStepsKeepQueue(m: Media, step: Step)
    requires !step.SourceCreated? && !step.RecordIngested? && !step.HandoverFailed? && !step.DeliveryCompleted?
             && !step.DeliveriesCancelled? && !step.Projected? && !step.Deactivated?
    ensures QueueKept(m, Next(m, step).media)
  {
    hide RequestKeyframes, CleanupProducer, RevokePane, Commit, Orphans, OrSame;
    match step
    case KeyframesRequested(requests) => RequestsKeepQueue(m, requests);
    case Committed(producer, mutations, structureValid) => CommitKeepsQueue(m, producer, mutations, structureValid);
    case Disconnected(producer) => CleanupKeepsQueue(m, producer, true);
    case PaneRevoked(pane, producers) => RevokeKeepsQueue(m, pane, producers);
    case SourceDestroyed(key) => RemoveKeepsQueue(m, key);
    case _ =>
  }

  lemma RemoveKeepsQueue(m: Media, key: Key)
    ensures QueueKept(m, OrSame(m, RemoveSource(m, key)))
  {
  }

  lemma DeliveryStepsKeepQueue(m: Media, step: Step)
    requires QueueExact(m)
    requires step.HandoverFailed? || step.DeliveryCompleted? || step.Projected? || step.Deactivated?
    ensures QueueExact(Next(m, step).media) && Next(m, step).media.config == m.config
  {
    hide QueueExact, TakeDelivery, TakeDeliveries;
    var after := Next(m, step).media;
    match step
    case HandoverFailed(key, delivery) =>
      TakeKeepsQueue(m, delivery);
      SameQueue(TakeDelivery(m, delivery).media, after);
    case DeliveryCompleted(delivery, delivered) =>
      if delivery in m.deliveries {
        var lost := Desynchronize(m, m.deliveries[delivery].source);
        SameQueue(m, lost);
        TakeKeepsQueue(m, delivery);
        TakeKeepsQueue(lost, delivery);
      }
    case Projected(visible, panes, hidden) =>
      SameQueue(m, m.(projected := visible));
      TakeAllKeepsQueue(m.(projected := visible), hidden);
      SameQueue(TakeDeliveries(m.(projected := visible), hidden).media, after);
    case Deactivated(deliveries) =>
      var sources :=
        map source | source in m.sources ::
          if m.sources[source].kind.Video? && m.sources[source].playing then m.sources[source].(desynchronized := true)
          else m.sources[source];
      var hidden := m.(projected := {}, sources := sources);
      SameQueue(m, hidden);
      TakeAllKeepsQueue(hidden, deliveries);
  }

  lemma RevokeKeepsQueue(m: Media, pane: nat, producers: seq<nat>)
    ensures QueueKept(m, RevokePane(m, pane, producers))
  {
    hide CleanupProducers, Orphans;
    CleanupsKeepQueue(m, producers);
  }

  lemma {:induction false} RequestsKeepQueue(m: Media, requests: seq<Request>)
    ensures QueueKept(m, RequestKeyframes(m, requests))
  {
    if requests != [] {
      RequestsKeepQueue(m, requests[..|requests| - 1]);
    }
  }

  lemma CommitKeepsQueue(m: Media, producer: nat, mutations: seq<Mutation>, structureValid: bool)
    ensures QueueKept(m, OrSame(m, Commit(m, producer, mutations, structureValid)))
  {
  }

  lemma CleanupKeepsQueue(m: Media, producer: nat, preserve: bool)
    ensures QueueKept(m, CleanupProducer(m, producer, preserve))
  {
  }

  lemma {:induction false} CleanupsKeepQueue(m: Media, producers: seq<nat>)
    ensures QueueKept(m, CleanupProducers(m, producers))
  {
    hide CleanupProducer;
    if producers != [] {
      var n := |producers| - 1;
      CleanupsKeepQueue(m, producers[..n]);
      CleanupKeepsQueue(CleanupProducers(m, producers[..n]), producers[n], false);
    }
  }

  ghost predicate RecordsFit(steps: seq<Step>) {
    forall i :: 0 <= i < |steps| ==> RecordFits(steps[i])
  }

  /** In every reachable state the queue counter is exact, and above its limit only for a single delivery. */
  lemma {:induction false} QueueStaysExact(config: Config, attached: bool, steps: seq<Step>)
    requires config.queueLimit + U32_MAX <= U64_MAX
    requires PossibleRun(Initially(config, attached), steps) && RecordsFit(steps)
    ensures QueueExact(Run(Initially(config, attached), steps))
    ensures Run(Initially(config, attached), steps).config == config
  {
    hide Next, Possible, RecordFits;
    var m := Initially(config, attached);
    if steps == [] {
      SumEmpty<nat>();
      assert QueuedSizes(m.deliveries) == map[];
    } else {
      var n := |steps| - 1;
      assert forall i :: 0 <= i < n ==> steps[..n][i] == steps[i];
      QueueStaysExact(config, attached, steps[..n]);
      StepKeepsQueue(Run(m, steps[..n]), steps[n]);
    }
  }
}
