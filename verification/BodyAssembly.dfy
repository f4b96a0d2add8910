/** Reassembly of media bodies by the bridge (src/bridge.rs:1348-1385), for sources that are not image-cache
    hits: one body in progress per source, whatever the interleaving of the sources' chunks. */
module BodyAssembly {
  import opened Wrappers
  import opened FixedWidth
  import opened BigEndian
  import opened Framing

  datatype PendingBody = PendingBody(recordType: u16, total: nat, bytes: seq<byte>)

  datatype Outcome = Waiting | Complete(delivery: Delivery) | Failed(error: string)

  datatype Slot = Slot(body: Option<PendingBody>, outcome: Outcome)

  /** What one chunk does to the body in progress of its own source. */
  function Accept(body: Option<PendingBody>, m: MediaMessage): Slot {
    var pending := if body.Some? then body.value else PendingBody(m.recordType, m.total as nat, []);
    if pending.recordType != m.recordType || pending.total != m.total as nat || |pending.bytes| != m.offset as nat then
      Slot(None, Failed("media chunk sequence gap"))
    else
      var bytes := pending.bytes + m.bytes;
      if |bytes| > pending.total then Slot(None, Failed("media chunks exceed total"))
      else if !m.last then Slot(Some(pending.(bytes := bytes)), Waiting)
      else if |bytes| != pending.total then Slot(None, Failed("incomplete media body"))
      else Slot(None, Complete(Delivery(m.deliveryId, m.key, m.recordType, bytes)))
  }

  function LookUp(pending: map<Key, PendingBody>, key: Key): Option<PendingBody> {
    if key in pending then Some(pending[key]) else None
  }

  function Store(pending: map<Key, PendingBody>, key: Key, body: Option<PendingBody>): map<Key, PendingBody> {
    if body.Some? then pending[key := body.value] else pending - {key}
  }

  class BodyAssembler {
    var pending: map<Key, PendingBody>

    constructor ()
      ensures pending == map[]
    {
      pending := map[];
    }

    /** A chunk touches only its own source's body. */
    method MediaChunk(m: MediaMessage) returns (outcome: Outcome)
      modifies this
      ensures outcome == Accept(LookUp(old(pending), m.key), m).outcome
      ensures pending == Store(old(pending), m.key, Accept(LookUp(old(pending), m.key), m).body)
    {
      if m.key !in pending {
        pending := pending[m.key := PendingBody(m.recordType, m.total as nat, [])];
      }
      var body := pending[m.key];
      if body.recordType != m.recordType || body.total != m.total as nat || |body.bytes| != m.offset as nat {
        pending := pending - {m.key};
        return Failed("media chunk sequence gap");
      }
      body := body.(bytes := body.bytes + m.bytes);
      pending := pending[m.key := body];
      if |body.bytes| > body.total {
        pending := pending - {m.key};
        return Failed("media chunks exceed total");
      }
      if !m.last {
        return Waiting;
      }
      pending := pending - {m.key};
      if |body.bytes| != body.total {
        return Failed("incomplete media body");
      }
      return Complete(Delivery(m.deliveryId, m.key, m.recordType, body.bytes));
    }
  }

  // ---- Runs ----

  datatype Run = Run(pending: map<Key, PendingBody>, outcomes: seq<Outcome>)

  /** A whole sequence of chunks; `outcomes[i]` is the outcome of the i-th. */
  function RunAll(pending: map<Key, PendingBody>, messages: seq<MediaMessage>): (run: Run)
    ensures |run.outcomes| == |messages|
  {
    if messages == [] then Run(pending, [])
    else
      var init := RunAll(pending, messages[..|messages| - 1]);
      var m := messages[|messages| - 1];
      var slot := Accept(LookUp(init.pending, m.key), m);
      Run(Store(init.pending, m.key, slot.body), init.outcomes + [slot.outcome])
  }

  datatype SlotRun = SlotRun(body: Option<PendingBody>, outcomes: seq<Outcome>)

  /** The same, for the chunks of one source alone. */
  function RunSlot(body: Option<PendingBody>, messages: seq<MediaMessage>): (run: SlotRun)
    ensures |run.outcomes| == |messages|
  {
    if messages == [] then SlotRun(body, [])
    else
      var init := RunSlot(body, messages[..|messages| - 1]);
      var slot := Accept(init.body, messages[|messages| - 1]);
      SlotRun(slot.body, init.outcomes + [slot.outcome])
  }

  function ChunksOf(messages: seq<MediaMessage>, key: Key): seq<MediaMessage> {
    if messages == [] then []
    else
      var last := messages[|messages| - 1];
      ChunksOf(messages[..|messages| - 1], key) + if last.key == key then [last] else []
  }

  function OutcomesOf(messages: seq<MediaMessage>, outcomes: seq<Outcome>, key: Key): seq<Outcome>
    requires |messages| == |outcomes|
  {
    if messages == [] then []
    else
      var n := |messages| - 1;
      OutcomesOf(messages[..n], outcomes[..n], key) + if messages[n].key == key then [outcomes[n]] else []
  }

  function Completed(outcomes: seq<Outcome>): seq<Delivery> {
    if outcomes == [] then []
    else
      var last := outcomes[|outcomes| - 1];
      Completed(outcomes[..|outcomes| - 1]) + if last.Complete? then [last.delivery] else []
  }

  /** Sources do not disturb each other: what happens to one depends on its own chunks only. */
  lemma {:induction false} SourcesAreIndependent(pending: map<Key, PendingBody>, messages: seq<MediaMessage>, key: Key)
    ensures
      var run, alone := RunAll(pending, messages), RunSlot(LookUp(pending, key), ChunksOf(messages, key));
      LookUp(run.pending, key) == alone.body && OutcomesOf(messages, run.outcomes, key) == alone.outcomes
  {
    hide Accept;
    if messages != [] {
      var n := |messages| - 1;
      SourcesAreIndependent(pending, messages[..n], key);
      var run := RunAll(pending, messages);
      assert run.outcomes[..n] == RunAll(pending, messages[..n]).outcomes;
      var earlier := ChunksOf(messages[..n], key);
      if messages[n].key == key {
        assert ChunksOf(messages, key)[..|earlier|] == earlier;
      } else {
        assert ChunksOf(messages, key) == earlier;
      }
    }
  }

  lemma {:induction false} RunSlotAppend(body: Option<PendingBody>, x: seq<MediaMessage>, y: seq<MediaMessage>)
    ensures
      var a := RunSlot(body, x);
      var b := RunSlot(a.body, y);
      RunSlot(body, x + y) == SlotRun(b.body, a.outcomes + b.outcomes)
  {
    hide Accept;
    if y == [] {
      assert x + y == x;
    } else {
      var n := |y| - 1;
      RunSlotAppend(body, x, y[..n]);
      assert (x + y)[..|x| + n] == x + y[..n];
    }
  }

  lemma {:induction false} CompletedAppend(x: seq<Outcome>, y: seq<Outcome>)
    ensures Completed(x + y) == Completed(x) + Completed(y)
  {
    if y == [] {
      assert x + y == x;
    } else {
      var n := |y| - 1;
      CompletedAppend(x, y[..n]);
      assert (x + y)[..|x| + n] == x + y[..n];
    }
  }

  // ---- Chunked bodies come back whole ----

  function InProgress(d: Delivery, offset: nat): Option<PendingBody>
    requires offset <= |d.body|
  {
    if offset == 0 then None else Some(PendingBody(d.recordType, |d.body|, d.body[..offset]))
  }

  predicate NoFailure(outcomes: seq<Outcome>) {
    forall i :: 0 <= i < |outcomes| ==> !outcomes[i].Failed?
  }

  /** The chunks turn one body in progress into another without failing, and complete these deliveries. */
  predicate Yields(body: Option<PendingBody>, messages: seq<MediaMessage>, after: Option<PendingBody>,
                   deliveries: seq<Delivery>)
  {
    var run := RunSlot(body, messages);
    run.body == after && Completed(run.outcomes) == deliveries && NoFailure(run.outcomes)
  }

  lemma YieldsAppend(body: Option<PendingBody>, x: seq<MediaMessage>, between: Option<PendingBody>, some: seq<Delivery>,
                     y: seq<MediaMessage>, after: Option<PendingBody>, others: seq<Delivery>)
    requires Yields(body, x, between, some) && Yields(between, y, after, others)
    ensures Yields(body, x + y, after, some + others)
  {
    hide RunSlot, Completed;
    RunSlotAppend(body, x, y);
    CompletedAppend(RunSlot(body, x).outcomes, RunSlot(between, y).outcomes);
  }

  lemma NothingYields(body: Option<PendingBody>)
    ensures Yields(body, [], body, [])
  {
  }

  lemma ChunkAccepted(d: Delivery, offset: nat, size: nat)
    requires |d.body| <= U32_MAX && 0 < size && (offset < |d.body| || offset == 0)
    ensures
      Accept(InProgress(d, offset), ChunkAt(d, offset, size))
      == if offset + size < |d.body| then Slot(InProgress(d, offset + size), Waiting) else Slot(None, Complete(d))
  {
    var end := if offset + size < |d.body| then offset + size else |d.body|;
    assert d.body[..offset] + d.body[offset..end] == d.body[..end];
    assert d.body[..|d.body|] == d.body;
    assert [] + d.body[0..end] == d.body[..end];
  }

  lemma ChunkYields(d: Delivery, offset: nat, size: nat)
    requires |d.body| <= U32_MAX && 0 < size && (offset < |d.body| || offset == 0)
    ensures
      if offset + size < |d.body| then
        Yields(InProgress(d, offset), [ChunkAt(d, offset, size)], InProgress(d, offset + size), [])
      else Yields(InProgress(d, offset), [ChunkAt(d, offset, size)], None, [d])
  {
    hide Accept, ChunkAt, InProgress, RunSlot, Completed;
    ChunkAccepted(d, offset, size);
    OneChunk(InProgress(d, offset), ChunkAt(d, offset, size));
  }

  lemma OneChunk(body: Option<PendingBody>, m: MediaMessage)
    ensures
      var slot := Accept(body, m);
      && RunSlot(body, [m]) == SlotRun(slot.body, [slot.outcome])
      && Completed([slot.outcome]) == if slot.outcome.Complete? then [slot.outcome.delivery] else []
  {
    hide Accept;
    assert [m][..0] == [];
    assert RunSlot(body, []) == SlotRun(body, []);
    assert [Accept(body, m).outcome][..0] == [];
    assert Completed([]) == [];
  }

  lemma {:induction false} ChunksFromReassemble(d: Delivery, offset: nat, size: nat)
    requires |d.body| <= U32_MAX && 0 < size && (offset < |d.body| || offset == 0)
    ensures Yields(InProgress(d, offset), ChunksFrom(d, offset, size), None, [d])
    decreases |d.body| - offset
  {
    hide Yields, ChunkAt, InProgress;
    ChunkYields(d, offset, size);
    if offset + size < |d.body| {
      ChunksFromReassemble(d, offset + size, size);
      YieldsAppend(InProgress(d, offset), [ChunkAt(d, offset, size)], InProgress(d, offset + size), [],
                   ChunksFrom(d, offset + size, size), None, [d]);
      assert [] + [d] == [d];
    }
  }

  function ChunksOfAll(deliveries: seq<Delivery>, size: nat): seq<MediaMessage>
    requires 0 < size && forall i :: 0 <= i < |deliveries| ==> |deliveries[i].body| <= U32_MAX
  {
    if deliveries == [] then []
    else
      var n := |deliveries| - 1;
      ChunksOfAll(deliveries[..n], size) + Chunks(deliveries[n], size)
  }

  /** Bodies sent one after the other for one source come back whole and in order. */
  lemma {:induction false} DeliveriesReassemble(deliveries: seq<Delivery>, size: nat)
    requires 0 < size && forall i :: 0 <= i < |deliveries| ==> |deliveries[i].body| <= U32_MAX
    ensures Yields(None, ChunksOfAll(deliveries, size), None, deliveries)
  {
    hide Yields, ChunksFrom;
    if deliveries == [] {
      NothingYields(None);
    } else {
      var n := |deliveries| - 1;
      assert forall i :: 0 <= i < n ==> deliveries[..n][i] == deliveries[i];
      DeliveriesReassemble(deliveries[..n], size);
      ChunksFromReassemble(deliveries[n], 0, size);
      assert InProgress(deliveries[n], 0) == None;
      YieldsAppend(None, ChunksOfAll(deliveries[..n], size), None, deliveries[..n], Chunks(deliveries[n], size), None,
                   [deliveries[n]]);
      assert deliveries == deliveries[..n] + [deliveries[n]];
    }
  }

  predicate LossFree(messages: seq<MediaMessage>, sent: map<Key, seq<Delivery>>, size: nat)
    requires 0 < size
  {
    && (forall key, i :: key in sent && 0 <= i < |sent[key]| ==> |sent[key][i].body| <= U32_MAX)
    && (forall key :: key in sent ==> ChunksOf(messages, key) == ChunksOfAll(sent[key], size))
    && (forall i :: 0 <= i < |messages| ==> messages[i].key in sent)
  }

  /** Any loss-free interleaving of the sources' chunk streams: every source receives exactly the bodies sent to it,
      in order, nothing fails and nothing is left over. */
  lemma InterleavingsReassemble(messages: seq<MediaMessage>, sent: map<Key, seq<Delivery>>, size: nat)
    requires 0 < size && LossFree(messages, sent, size)
    ensures
      var run := RunAll(map[], messages);
      && run.pending == map[]
      && NoFailure(run.outcomes)
      && forall key :: key in sent ==> Completed(OutcomesOf(messages, run.outcomes, key)) == sent[key]
  {
    hide RunAll, RunSlot, Completed, ChunksOfAll, OutcomesOf, ChunksOf;
    var run := RunAll(map[], messages);
    forall key | key in sent
      ensures LookUp(run.pending, key) == None
      ensures Completed(OutcomesOf(messages, run.outcomes, key)) == sent[key]
      ensures NoFailure(OutcomesOf(messages, run.outcomes, key))
    {
      SourcesAreIndependent(map[], messages, key);
      DeliveriesReassemble(sent[key], size);
    }
    forall i | 0 <= i < |messages| ensures !run.outcomes[i].Failed? {
      OutcomeIsOwn(messages, run.outcomes, i);
    }
    PendingKeysWereSent(map[], messages);
    assert forall key :: key in run.pending ==> LookUp(run.pending, key) != None;
  }

  lemma {:induction false} OutcomeIsOwn(messages: seq<MediaMessage>, outcomes: seq<Outcome>, i: nat)
    requires |messages| == |outcomes| && i < |messages|
    ensures outcomes[i] in OutcomesOf(messages, outcomes, messages[i].key)
  {
    var n := |messages| - 1;
    if i < n {
      OutcomeIsOwn(messages[..n], outcomes[..n], i);
    }
  }

  lemma {:induction false} PendingKeysWereSent(pending: map<Key, PendingBody>, messages: seq<MediaMessage>)
    ensures
      forall key :: key in RunAll(pending, messages).pending ==>
                      key in pending || exists i :: 0 <= i < |messages| && messages[i].key == key
  {
    hide Accept;
    if messages != [] {
      var n := |messages| - 1;
      PendingKeysWereSent(pending, messages[..n]);
      forall key | key in RunAll(pending, messages).pending && key !in pending
        ensures exists i :: 0 <= i < |messages| && messages[i].key == key
      {
        if key != messages[n].key {
          var i :| 0 <= i < n && messages[..n][i].key == key;
          assert messages[i].key == key;
        } else {
          assert messages[n].key == key;
        }
      }
    }
  }

  // ---- From one end of a connection to the other ----

  predicate AllCanBeSent(deliveries: seq<Delivery>, maximum: u32): (ok: bool)
    ensures ok ==> forall i :: 0 <= i < |deliveries| ==> |deliveries[i].body| <= U32_MAX
  {
    forall i :: 0 <= i < |deliveries| ==> CanSend(deliveries[i], maximum)
  }

  predicate AllSendable(chunks: seq<MediaMessage>, maximum: u32): (ok: bool)
    ensures ok ==> forall i :: 0 <= i < |chunks| ==> |MediaBytes(chunks[i])| <= U32_MAX
  {
    forall i :: 0 <= i < |chunks| ==>
                  Consistent(chunks[i]) && Sendable(Record(MEDIA_RECORD, 0, MediaBytes(chunks[i])), maximum)
  }

  lemma {:induction false} AllChunksFit(deliveries: seq<Delivery>, maximum: u32)
    requires AllCanBeSent(deliveries, maximum)
    ensures AllSendable(ChunksOfAll(deliveries, ChunkSize(maximum)), maximum)
  {
    hide Consistent, Sendable, MediaBytes, ChunksFrom, ChunkSize;
    if deliveries != [] {
      var n := |deliveries| - 1;
      assert forall i :: 0 <= i < n ==> deliveries[..n][i] == deliveries[i];
      AllChunksFit(deliveries[..n], maximum);
      assert CanSend(deliveries[n], maximum);
      ChunksAreSendable(deliveries[n], 0, maximum);
      var last := Chunks(deliveries[n], ChunkSize(maximum));
      forall i | 0 <= i < |last| ensures Consistent(last[i]) && Sendable(Record(MEDIA_RECORD, 0, MediaBytes(last[i])), maximum) {
        assert ChunkFits(deliveries[n], last[i], maximum);
      }
    }
  }

  /** The stream written for a sequence of bodies is accepted record by record by a reader with the same ceiling,
      every record decodes to its chunk, and for every source the assembled bodies are those sent to it. */
  lemma EveryBodyArrives(deliveries: seq<Delivery>, maximum: u32, sequence: u64, key: Key)
    requires AllCanBeSent(deliveries, maximum)
    ensures
      var chunks := ChunksOfAll(deliveries, ChunkSize(maximum));
      var records := MediaRecords(chunks);
      && (forall i :: 0 <= i < |records| ==> |records[i].body| <= U32_MAX)
      && ReadRecords(sequence, maximum, StreamBytes(sequence, records), |records|) == Ok((records, []))
      && (forall i :: 0 <= i < |records| ==> DecodeMedia(records[i].body) == Ok(chunks[i]))
      && Completed(OutcomesOf(chunks, RunAll(map[], chunks).outcomes, key)) == To(deliveries, key)
  {
    hide Consistent, DecodeMedia, MediaBytes, ReadRecords, StreamBytes, ChunksOfAll, ChunkSize, RunAll, Completed;
    var chunks := ChunksOfAll(deliveries, ChunkSize(maximum));
    var records := MediaRecords(chunks);
    AllChunksFit(deliveries, maximum);
    StreamRoundTrip(sequence, maximum, records, []);
    assert StreamBytes(sequence, records) + [] == StreamBytes(sequence, records);
    forall i | 0 <= i < |records| ensures DecodeMedia(records[i].body) == Ok(chunks[i]) {
      MediaRoundTrip(chunks[i]);
    }
    SourcesAreIndependent(map[], chunks, key);
    ChunksOfOneSource(deliveries, ChunkSize(maximum), key);
    DeliveriesReassemble(To(deliveries, key), ChunkSize(maximum));
  }

  /** The deliveries addressed to one source. */
  function To(deliveries: seq<Delivery>, key: Key): (mine: seq<Delivery>)
    ensures forall i :: 0 <= i < |mine| ==> mine[i] in deliveries
  {
    if deliveries == [] then []
    else
      var last := deliveries[|deliveries| - 1];
      To(deliveries[..|deliveries| - 1], key) + if last.key == key then [last] else []
  }

  lemma {:induction false} ChunksOfAppend(x: seq<MediaMessage>, y: seq<MediaMessage>, key: Key)
    ensures ChunksOf(x + y, key) == ChunksOf(x, key) + ChunksOf(y, key)
  {
    if y == [] {
      assert x + y == x;
    } else {
      var n := |y| - 1;
      ChunksOfAppend(x, y[..n], key);
      assert (x + y)[..|x| + n] == x + y[..n];
    }
  }

  lemma {:induction false} ChunksOfSame(messages: seq<MediaMessage>, own: Key, key: Key)
    requires forall i :: 0 <= i < |messages| ==> messages[i].key == own
    ensures ChunksOf(messages, key) == if own == key then messages else []
  {
    if messages != [] {
      var n := |messages| - 1;
      ChunksOfSame(messages[..n], own, key);
      assert messages == messages[..n] + [messages[n]];
    }
  }

  lemma {:induction false} ChunkKeys(d: Delivery, offset: nat, size: nat)
    requires |d.body| <= U32_MAX && offset <= |d.body| && 0 < size
    ensures forall i :: 0 <= i < |ChunksFrom(d, offset, size)| ==> ChunksFrom(d, offset, size)[i].key == d.key
    decreases |d.body| - offset
  {
    if offset + size < |d.body| {
      ChunkKeys(d, offset + size, size);
    }
  }

  lemma {:induction false} ChunksOfOneSource(deliveries: seq<Delivery>, size: nat, key: Key)
    requires 0 < size && forall i :: 0 <= i < |deliveries| ==> |deliveries[i].body| <= U32_MAX
    ensures ChunksOf(ChunksOfAll(deliveries, size), key) == ChunksOfAll(To(deliveries, key), size)
  {
    hide ChunksFrom, ChunksOf;
    if deliveries == [] {
      assert ChunksOf([], key) == [] by { ChunksOfSame([], key, key); }
    } else {
      var n := |deliveries| - 1;
      ChunksOfOneSource(deliveries[..n], size, key);
      var chunks := Chunks(deliveries[n], size);
      ChunkKeys(deliveries[n], 0, size);
      ChunksOfSame(chunks, deliveries[n].key, key);
      ChunksOfAppend(ChunksOfAll(deliveries[..n], size), chunks, key);
      var mine := To(deliveries[..n], key);
      if deliveries[n].key == key {
        assert To(deliveries, key)[..|mine|] == mine;
      } else {
        assert To(deliveries, key) == mine;
      }
    }
  }
}
