/** Terminal frames as records (src/ipc.rs:770-795, 856-885, 970-993): the same cutting as media bodies under a
    24-byte header, with a mark on the first record of a full frame and on the last record of every frame. */
module RenderFraming {
  import opened Wrappers
  import opened FixedWidth
  import opened BigEndian
  import opened Framing

  datatype RenderMessage = RenderMessage(frameId: u64, sessionSequence: u64, full: bool, last: bool, bytes: seq<byte>)

  /** One `send_render_record` call. */
  datatype RenderFrame = RenderFrame(frameId: u64, sessionSequence: u64, full: bool, body: seq<byte>)

  function RenderFlags(m: RenderMessage): (flags: u16)
    ensures flags <= 3
  {
    (if m.full then 1 else 0) + if m.last then 2 else 0
  }

  function RenderHeader(m: RenderMessage): (header: seq<byte>)
    ensures |header| == RENDER_RECORD_HEADER
  {
    OfU64(m.frameId) + OfU64(m.sessionSequence) + OfU16(RenderFlags(m)) + OfU16(0) + OfU32(0)
  }

  function RenderBytes(m: RenderMessage): seq<byte> {
    RenderHeader(m) + m.bytes
  }

  function DecodeRender(body: seq<byte>): Result<RenderMessage> {
    if |body| < RENDER_RECORD_HEADER then Err("VVMX render record is shorter than its header")
    else if U16(body[18..20]) != 0 || U32(body[20..24]) != 0 then Err("VVMX render record reserved field is nonzero")
    else
      var flags := U16(body[16..18]);
      if flags > 3 then Err("VVMX render record uses reserved flags")
      else
        Ok(RenderMessage(U64(body[0..8]), U64(body[8..16]), flags % 2 == 1, flags >= 2, body[RENDER_RECORD_HEADER..]))
  }

  lemma RenderFields(a: seq<byte>, b: seq<byte>, c: seq<byte>, d: seq<byte>, e: seq<byte>, rest: seq<byte>)
    requires |a| == 8 && |b| == 8 && |c| == 2 && |d| == 2 && |e| == 4
    ensures
      var whole := a + b + c + d + e + rest;
      && whole[0..8] == a && whole[8..16] == b && whole[16..18] == c && whole[18..20] == d && whole[20..24] == e
      && whole[RENDER_RECORD_HEADER..] == rest
  {
  }

  lemma RenderRoundTrip(m: RenderMessage)
    ensures DecodeRender(RenderBytes(m)) == Ok(m)
  {
    hide OfU16, OfU32, OfU64, U16, U32, U64;
    WordRoundTrips(RenderFlags(m), 0, m.frameId);
    WordRoundTrips(0, 0, m.sessionSequence);
    RenderFields(OfU64(m.frameId), OfU64(m.sessionSequence), OfU16(RenderFlags(m)), OfU16(0), OfU32(0), m.bytes);
  }

  /** Only its own encoding decodes to a message. */
  lemma RenderDecodesOnlyEncodings(body: seq<byte>)
    requires DecodeRender(body).Ok?
    ensures RenderBytes(DecodeRender(body).value) == body
  {
    hide OfU16, OfU32, OfU64, U16, U32, U64;
    BytesOfWord64(body[0..8]);
    BytesOfWord64(body[8..16]);
    BytesOfWord16(body[16..18]);
    BytesOfWord16(body[18..20]);
    BytesOfWord32(body[20..24]);
    assert RenderFlags(DecodeRender(body).value) == U16(body[16..18]);
    assert body == body[0..8] + body[8..16] + body[16..18] + body[18..20] + body[20..24] + body[24..];
  }

  // ---- Cutting a frame ----

  function RenderChunkSize(maximum: u32): (size: nat)
    ensures 1 <= size
    ensures maximum as nat > RENDER_RECORD_HEADER ==> RENDER_RECORD_HEADER + size <= maximum as nat
  {
    Clamp(PayloadCapacity(maximum, RENDER_RECORD_HEADER), 1, RENDER_CHUNK)
  }

  function RenderAt(f: RenderFrame, offset: nat, size: nat): RenderMessage
    requires offset <= |f.body| && 0 < size
  {
    var end := if offset + size < |f.body| then offset + size else |f.body|;
    RenderMessage(f.frameId, f.sessionSequence, f.full && offset == 0, end == |f.body|, f.body[offset..end])
  }

  function RenderChunksFrom(f: RenderFrame, offset: nat, size: nat): seq<RenderMessage>
    requires offset <= |f.body| && 0 < size
    decreases |f.body| - offset
  {
    if offset + size >= |f.body| then [RenderAt(f, offset, size)]
    else [RenderAt(f, offset, size)] + RenderChunksFrom(f, offset + size, size)
  }

  /** The terminal bytes a client collects from a frame's records. */
  function Payload(messages: seq<RenderMessage>): seq<byte> {
    if messages == [] then [] else messages[0].bytes + Payload(messages[1..])
  }

  function RenderRecord(m: RenderMessage): Record {
    Record(RENDER_RECORD, 0, RenderBytes(m))
  }

  predicate CanSendFrame(f: RenderFrame, maximum: u32) {
    if f.body == [] then maximum as nat >= RENDER_RECORD_HEADER else maximum as nat > RENDER_RECORD_HEADER
  }

  predicate IsPart(f: RenderFrame, m: RenderMessage, first: bool, last: bool, maximum: u32) {
    && m.frameId == f.frameId && m.sessionSequence == f.sessionSequence
    && (m.full <==> f.full && first) && (m.last <==> last)
    && Sendable(RenderRecord(m), maximum)
  }

  lemma RenderAtIsPart(f: RenderFrame, offset: nat, maximum: u32)
    requires offset <= |f.body| && CanSendFrame(f, maximum)
    ensures
      var size := RenderChunkSize(maximum);
      IsPart(f, RenderAt(f, offset, size), offset == 0, offset + size >= |f.body|, maximum)
  {
    hide RenderHeader, RenderChunkSize;
  }

  /** The records of a frame give its bytes back in order; only the first is marked full, when the frame is, and only
      the last is marked last; and all of them respect the ceiling. */
  lemma {:induction false} FrameChunksAreExact(f: RenderFrame, offset: nat, maximum: u32)
    requires offset <= |f.body| && CanSendFrame(f, maximum)
    ensures
      var chunks := RenderChunksFrom(f, offset, RenderChunkSize(maximum));
      && Payload(chunks) == f.body[offset..]
      && forall i :: 0 <= i < |chunks| ==> IsPart(f, chunks[i], offset == 0 && i == 0, i == |chunks| - 1, maximum)
    decreases |f.body| - offset
  {
    hide IsPart, RenderChunkSize;
    var size := RenderChunkSize(maximum);
    var first := RenderAt(f, offset, size);
    RenderAtIsPart(f, offset, maximum);
    var chunks := RenderChunksFrom(f, offset, size);
    if offset + size < |f.body| {
      FrameChunksAreExact(f, offset + size, maximum);
      var rest := RenderChunksFrom(f, offset + size, size);
      assert chunks == [first] + rest && chunks[1..] == rest;
      assert f.body[offset..] == f.body[offset..offset + size] + f.body[offset + size..];
      assert forall i :: 0 < i < |chunks| ==> chunks[i] == rest[i - 1];
    } else {
      assert chunks[1..] == [] && Payload([]) == [];
      assert Payload(chunks) == first.bytes + [];
    }
  }

  function RenderRecords(messages: seq<RenderMessage>): (records: seq<Record>)
    ensures |records| == |messages|
  {
    seq(|messages|, i requires 0 <= i < |messages| => RenderRecord(messages[i]))
  }

  /** A reader with the same ceiling takes the whole frame back, and every record decodes to its message. */
  lemma FrameArrives(f: RenderFrame, maximum: u32, sequence: u64, more: seq<byte>)
    requires CanSendFrame(f, maximum)
    ensures
      var chunks := RenderChunksFrom(f, 0, RenderChunkSize(maximum));
      var records := RenderRecords(chunks);
      && (forall i :: 0 <= i < |records| ==> |records[i].body| <= U32_MAX)
      && ReadRecords(sequence, maximum, StreamBytes(sequence, records) + more, |records|) == Ok((records, more))
      && (forall i :: 0 <= i < |records| ==> DecodeRender(records[i].body) == Ok(chunks[i]))
      && Payload(chunks) == f.body
  {
    hide RenderBytes, DecodeRender, RenderChunksFrom, RenderChunkSize, ReadRecords, StreamBytes, Payload;
    var chunks := RenderChunksFrom(f, 0, RenderChunkSize(maximum));
    var records := RenderRecords(chunks);
    FrameChunksAreExact(f, 0, maximum);
    assert f.body[0..] == f.body;
    forall i | 0 <= i < |records|
      ensures Sendable(records[i], maximum) && |records[i].body| <= U32_MAX && DecodeRender(records[i].body) == Ok(chunks[i])
    {
      assert IsPart(f, chunks[i], i == 0, i == |chunks| - 1, maximum);
      RenderRoundTrip(chunks[i]);
    }
    StreamRoundTrip(sequence, maximum, records, more);
  }

  // ---- Sending ----

  lemma RenderLength(f: RenderFrame, offset: nat, size: nat)
    requires offset <= |f.body| && 0 < size
    ensures
      var m := RenderAt(f, offset, size);
      && |m.bytes| == (if offset + size < |f.body| then size else |f.body| - offset)
      && |RenderBytes(m)| == RENDER_RECORD_HEADER + |m.bytes|
  {
    hide RenderHeader;
  }

  lemma AppendRender(sequence: u64, done: seq<RenderMessage>, m: RenderMessage)
    requires forall i :: 0 <= i < |done| ==> |RenderRecords(done)[i].body| <= U32_MAX
    requires |RenderBytes(m)| <= U32_MAX
    ensures RenderRecords(done + [m]) == RenderRecords(done) + [RenderRecord(m)]
    ensures StreamBytes(sequence, RenderRecords(done) + [RenderRecord(m)])
            == StreamBytes(sequence, RenderRecords(done)) + RecordBytes(Advance(sequence, |done|), RenderRecord(m))
    ensures Advance(sequence, |done| + 1) == NextSequence(Advance(sequence, |done|))
  {
    hide RenderBytes, RecordBytes, NextSequence, StreamBytes, Advance;
    StreamAppend(sequence, RenderRecords(done), [RenderRecord(m)]);
    OneRecord(Advance(sequence, |done|), RenderRecord(m));
  }

  lemma OneRecord(sequence: u64, record: Record)
    requires |record.body| <= U32_MAX
    ensures StreamBytes(sequence, [record]) == RecordBytes(sequence, record)
    ensures Advance(sequence, 1) == NextSequence(sequence)
  {
  }

  lemma RenderChunksSplit(f: RenderFrame, offset: nat, size: nat, done: seq<RenderMessage>)
    requires offset <= |f.body| && 0 < size
    ensures
      done + RenderChunksFrom(f, offset, size)
      == if offset + size < |f.body| then done + [RenderAt(f, offset, size)] + RenderChunksFrom(f, offset + size, size)
         else done + [RenderAt(f, offset, size)]
  {
    hide RenderAt;
    if offset + size < |f.body| {
      assert done + ([RenderAt(f, offset, size)] + RenderChunksFrom(f, offset + size, size))
          == done + [RenderAt(f, offset, size)] + RenderChunksFrom(f, offset + size, size);
    }
  }

  predicate AllSmall(messages: seq<RenderMessage>): (ok: bool)
    ensures ok ==> forall i :: 0 <= i < |messages| ==> |RenderRecords(messages)[i].body| <= U32_MAX
  {
    forall i :: 0 <= i < |messages| ==> |RenderBytes(messages[i])| <= U32_MAX
  }

  method WriteRenderRecord(writer: RecordWriter, m: RenderMessage) returns (r: Result<()>)
    modifies writer
    ensures r.Ok? <==> Sendable(RenderRecord(m), writer.maximumBody)
    ensures r.Ok? ==> writer.stream == old(writer.stream) + RecordBytes(old(writer.nextSequence), RenderRecord(m))
    ensures r.Ok? ==> writer.nextSequence == NextSequence(old(writer.nextSequence))
    ensures r.Err? ==> writer.stream == old(writer.stream) && writer.nextSequence == old(writer.nextSequence)
  {
    JoinTwo(RenderHeader(m), m.bytes);
    r := writer.WriteRawParts(RENDER_RECORD, 0, [RenderHeader(m), m.bytes]);
  }

  /** A frame is sent whole exactly when one byte of payload fits a record; otherwise nothing is written. */
  method SendRenderRecord(writer: RecordWriter, f: RenderFrame) returns (r: Result<()>)
    modifies writer
    ensures r.Ok? <==> CanSendFrame(f, writer.maximumBody)
    ensures r.Ok? ==>
      var chunks := RenderChunksFrom(f, 0, RenderChunkSize(writer.maximumBody));
      && AllSmall(chunks)
      && writer.stream == old(writer.stream) + StreamBytes(old(writer.nextSequence), RenderRecords(chunks))
      && writer.nextSequence == Advance(old(writer.nextSequence), |chunks|)
    ensures r.Err? ==> writer.stream == old(writer.stream) && writer.nextSequence == old(writer.nextSequence)
  {
    hide RenderBytes, RecordBytes, NextSequence, StreamBytes, Advance, RenderAt, RenderChunksFrom;
    var size := RenderChunkSize(writer.maximumBody);
    ghost var first := writer.nextSequence;
    ghost var done: seq<RenderMessage> := [];
    NoRecords(first);
    assert RenderRecords(done) == [];
    var offset := 0;
    var finished := false;
    while !finished
      invariant offset <= |f.body| && (offset == |f.body| && f.body != [] ==> finished)
      invariant writer.maximumBody as nat <= RENDER_RECORD_HEADER && f.body != [] ==> offset == 0 && done == [] && !finished
      invariant writer.maximumBody as nat < RENDER_RECORD_HEADER ==> done == [] && !finished
      invariant !finished ==> RenderChunksFrom(f, 0, size) == done + RenderChunksFrom(f, offset, size)
      invariant !finished && done == [] ==> offset == 0
      invariant done != [] ==> CanSendFrame(f, writer.maximumBody)
      invariant finished ==> RenderChunksFrom(f, 0, size) == done && done != []
      invariant AllSmall(done)
      invariant writer.stream == old(writer.stream) + StreamBytes(first, RenderRecords(done))
      invariant writer.nextSequence == Advance(first, |done|)
      decreases !finished, |f.body| - offset
    {
      var m := RenderAt(f, offset, size);
      RenderLength(f, offset, size);
      r := WriteRenderRecord(writer, m);
      if r.Err? {
        return;
      }
      AppendRender(first, done, m);
      RenderChunksSplit(f, offset, size, done);
      finished := offset + size >= |f.body|;
      done := done + [m];
      offset := offset + |m.bytes|;
    }
    r := Ok(());
  }
}
