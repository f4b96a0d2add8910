/** Record framing of the client connection (src/ipc.rs:601-968): sixteen-byte record headers with a
    sequence number, and media and terminal bodies cut into records that respect the negotiated ceiling. */
module Framing {
  import opened Wrappers
  import opened FixedWidth
  import opened BigEndian

  const RECORD_HEADER: nat := 16
  const MEDIA_RECORD_HEADER: nat := 40
  const RENDER_RECORD_HEADER: nat := 24
  const STRUCTURED_RECORD: u16 := 1
  const MEDIA_RECORD: u16 := 2
  const RENDER_RECORD: u16 := 3
  const MEDIA_CHUNK: nat := 128 * 1024
  const RENDER_CHUNK: nat := 256 * 1024

  // ---- Records ----

  datatype Record = Record(recordType: u16, flags: u16, body: seq<byte>)

  function NextSequence(sequence: u64): u64 {
    if sequence as int == U64_MAX then 0 else sequence + 1
  }

  /** A writer accepts a record whose flags are defined and whose body respects the ceiling. */
  predicate Sendable(record: Record, maximum: u32) {
    record.flags <= 1 && |record.body| <= maximum as int
  }

  function RecordBytes(sequence: u64, record: Record): seq<byte>
    requires |record.body| <= U32_MAX
  {
    OfU64(sequence) + OfU16(record.recordType) + OfU16(record.flags) + OfU32(|record.body| as u32) + record.body
  }

  datatype Received = Received(record: Record, rest: seq<byte>)

  function ReadRecord(expected: u64, maximum: u32, stream: seq<byte>): Result<Received> {
    if |stream| < RECORD_HEADER then Err("unexpected end of file")
    else if U64(stream[0..8]) != expected then Err("VVMX record sequence gap")
    else if U16(stream[10..12]) > 1 then Err("VVMX record uses reserved flags")
    else
      var length := U32(stream[12..16]);
      if length > maximum then Err("VVMX record body exceeds negotiated limit")
      else if |stream| < RECORD_HEADER + length as nat then Err("unexpected end of file")
      else
        var end := RECORD_HEADER + length as nat;
        Ok(Received(Record(U16(stream[8..10]), U16(stream[10..12]), stream[RECORD_HEADER..end]), stream[end..]))
  }

  lemma HeaderFields(a: seq<byte>, b: seq<byte>, c: seq<byte>, d: seq<byte>, rest: seq<byte>)
    requires |a| == 8 && |b| == 2 && |c| == 2 && |d| == 4
    ensures
      var whole := a + b + c + d + rest;
      && whole[0..8] == a && whole[8..10] == b && whole[10..12] == c && whole[12..16] == d
      && whole[RECORD_HEADER..] == rest
  {
  }

  /** A reader takes back exactly the records a writer may send, and nothing else starts with the right sequence. */
  lemma ReadsWhatWasWritten(sequence: u64, expected: u64, maximum: u32, record: Record, more: seq<byte>)
    requires |record.body| <= U32_MAX
    ensures
      ReadRecord(expected, maximum, RecordBytes(sequence, record) + more)
      == if sequence != expected then Err("VVMX record sequence gap")
         else if record.flags > 1 then Err("VVMX record uses reserved flags")
         else if |record.body| > maximum as int then Err("VVMX record body exceeds negotiated limit")
         else Ok(Received(record, more))
  {
    hide OfU16, OfU32, OfU64, U16, U32, U64;
    var length := |record.body| as u32;
    var a, b, c, d := OfU64(sequence), OfU16(record.recordType), OfU16(record.flags), OfU32(length);
    WordRoundTrips(record.recordType, length, sequence);
    WordRoundTrips(record.flags, length, sequence);
    var stream := RecordBytes(sequence, record) + more;
    assert stream == a + b + c + d + (record.body + more);
    HeaderFields(a, b, c, d, record.body + more);
    var end := RECORD_HEADER + |record.body|;
    assert stream[RECORD_HEADER..end] == (record.body + more)[..|record.body|];
    assert stream[end..] == (record.body + more)[|record.body|..];
  }

  /** Whatever a reader accepts is, byte for byte, a sendable record with the expected sequence number. */
  lemma AcceptsOnlyRecords(expected: u64, maximum: u32, stream: seq<byte>)
    requires ReadRecord(expected, maximum, stream).Ok?
    ensures
      var received := ReadRecord(expected, maximum, stream).value;
      && Sendable(received.record, maximum)
      && stream == RecordBytes(expected, received.record) + received.rest
  {
    hide OfU16, OfU32, OfU64, U16, U32, U64;
    BytesOfWord64(stream[0..8]);
    BytesOfWord16(stream[8..10]);
    BytesOfWord16(stream[10..12]);
    BytesOfWord32(stream[12..16]);
    var received := ReadRecord(expected, maximum, stream).value;
    var end := RECORD_HEADER + |received.record.body|;
    assert |received.record.body| == U32(stream[12..16]) as nat;
    assert stream == stream[0..8] + stream[8..10] + stream[10..12] + stream[12..16] + stream[16..end] + stream[end..];
  }

  /** Several records in a row, numbered from `sequence` on. */
  function StreamBytes(sequence: u64, records: seq<Record>): seq<byte>
    requires forall i :: 0 <= i < |records| ==> |records[i].body| <= U32_MAX
    decreases |records|
  {
    if records == [] then []
    else RecordBytes(sequence, records[0]) + StreamBytes(NextSequence(sequence), records[1..])
  }

  function Advance(sequence: u64, count: nat): u64
    decreases count
  {
    if count == 0 then sequence else Advance(NextSequence(sequence), count - 1)
  }

  lemma {:induction false} StreamAppend(sequence: u64, x: seq<Record>, y: seq<Record>)
    requires forall i :: 0 <= i < |x| ==> |x[i].body| <= U32_MAX
    requires forall i :: 0 <= i < |y| ==> |y[i].body| <= U32_MAX
    ensures StreamBytes(sequence, x + y) == StreamBytes(sequence, x) + StreamBytes(Advance(sequence, |x|), y)
    ensures Advance(sequence, |x| + |y|) == Advance(Advance(sequence, |x|), |y|)
    decreases |x|
  {
    hide RecordBytes, NextSequence;
    if x == [] {
      assert x + y == y;
    } else {
      StreamAppend(NextSequence(sequence), x[1..], y);
      assert (x + y)[1..] == x[1..] + y;
    }
  }

  /** Reading `count` records one after the other. */
  function ReadRecords(expected: u64, maximum: u32, stream: seq<byte>, count: nat): Result<(seq<Record>, seq<byte>)>
    decreases count
  {
    if count == 0 then Ok(([], stream))
    else
      match ReadRecord(expected, maximum, stream)
      case Err(error) => Err(error)
      case Ok(first) =>
        match ReadRecords(NextSequence(expected), maximum, first.rest, count - 1)
        case Err(error) => Err(error)
        case Ok(others) => Ok(([first.record] + others.0, others.1))
  }

  /** The reader accepts a writer's whole stream, in sequence, and returns its records. */
  lemma {:induction false} StreamRoundTrip(sequence: u64, maximum: u32, records: seq<Record>, more: seq<byte>)
    requires forall i :: 0 <= i < |records| ==> Sendable(records[i], maximum) && |records[i].body| <= U32_MAX
    ensures ReadRecords(sequence, maximum, StreamBytes(sequence, records) + more, |records|) == Ok((records, more))
    decreases |records|
  {
    hide RecordBytes, ReadRecord, NextSequence;
    if records == [] {
      assert StreamBytes(sequence, records) + more == more;
    } else {
      var rest := StreamBytes(NextSequence(sequence), records[1..]) + more;
      StreamRoundTrip(NextSequence(sequence), maximum, records[1..], more);
      assert StreamBytes(sequence, records) + more == RecordBytes(sequence, records[0]) + rest;
      ReadsWhatWasWritten(sequence, sequence, maximum, records[0], rest);
      assert [records[0]] + records[1..] == records;
    }
  }

  // ---- Media chunks ----

  datatype Key = Key(producer: u64, source: u64)

  datatype MediaMessage = MediaMessage(
    deliveryId: u64, key: Key, recordType: u16, offset: u32, total: u32, last: bool, bytes: seq<byte>)

  /** The chunk lies inside its body, and the last chunk is the one that ends it. */
  predicate Consistent(m: MediaMessage) {
    && m.offset as int + |m.bytes| <= m.total as int
    && (m.last <==> m.offset as int + |m.bytes| == m.total as int)
  }

  function MediaHeader(m: MediaMessage): (header: seq<byte>)
    ensures |header| == MEDIA_RECORD_HEADER
  {
    OfU64(m.deliveryId) + OfU64(m.key.producer) + OfU64(m.key.source) + OfU16(m.recordType)
    + OfU16(if m.last then 1 else 0) + OfU32(m.offset) + OfU32(m.total) + OfU32(0)
  }

  function MediaBytes(m: MediaMessage): seq<byte> {
    MediaHeader(m) + m.bytes
  }

  function DecodeMedia(body: seq<byte>): Result<MediaMessage> {
    if |body| < MEDIA_RECORD_HEADER then Err("VVMX media record is shorter than its header")
    else
      var flags := U16(body[26..28]);
      var offset, total := U32(body[28..32]), U32(body[32..36]);
      var bytes := body[MEDIA_RECORD_HEADER..];
      if U32(body[36..40]) != 0 then Err("VVMX media record reserved field is nonzero")
      else if flags > 1 then Err("VVMX media record uses reserved flags")
      else if offset as nat + |bytes| > U64_MAX then Err("VVMX media record chunk extent overflows")
      else if offset as nat + |bytes| > total as nat then Err("VVMX media record chunk exceeds its total")
      else if (flags == 1) != (offset as nat + |bytes| == total as nat) then
        Err("VVMX media record last flag disagrees with its total")
      else
        Ok(MediaMessage(U64(body[0..8]), Key(U64(body[8..16]), U64(body[16..24])), U16(body[24..26]), offset, total,
                        flags == 1, bytes))
  }

  lemma MediaFields(a: seq<byte>, b: seq<byte>, c: seq<byte>, d: seq<byte>, e: seq<byte>, f: seq<byte>, g: seq<byte>,
                    h: seq<byte>, rest: seq<byte>)
    requires |a| == 8 && |b| == 8 && |c| == 8 && |d| == 2 && |e| == 2 && |f| == 4 && |g| == 4 && |h| == 4
    ensures
      var whole := a + b + c + d + e + f + g + h + rest;
      && whole[0..8] == a && whole[8..16] == b && whole[16..24] == c && whole[24..26] == d && whole[26..28] == e
      && whole[28..32] == f && whole[32..36] == g && whole[36..40] == h && whole[MEDIA_RECORD_HEADER..] == rest
  {
  }

  /** Decoding inverts encoding exactly on consistent chunks and refuses every other one. */
  lemma MediaRoundTrip(m: MediaMessage)
    ensures Consistent(m) ==> DecodeMedia(MediaBytes(m)) == Ok(m)
    ensures !Consistent(m) ==> DecodeMedia(MediaBytes(m)).Err?
  {
    hide OfU16, OfU32, OfU64, U16, U32, U64;
    var flags: u16 := if m.last then 1 else 0;
    WordRoundTrips(m.recordType, m.offset, m.deliveryId);
    WordRoundTrips(flags, m.total, m.key.producer);
    WordRoundTrips(flags, 0, m.key.source);
    MediaFields(OfU64(m.deliveryId), OfU64(m.key.producer), OfU64(m.key.source), OfU16(m.recordType), OfU16(flags),
                OfU32(m.offset), OfU32(m.total), OfU32(0), m.bytes);
  }

  /** Whatever is decoded is a consistent chunk, and only its own encoding decodes to it. */
  lemma MediaDecodesOnlyEncodings(body: seq<byte>)
    requires DecodeMedia(body).Ok?
    ensures Consistent(DecodeMedia(body).value) && MediaBytes(DecodeMedia(body).value) == body
  {
    hide OfU16, OfU32, OfU64, U16, U32, U64;
    var m := DecodeMedia(body).value;
    BytesOfWord64(body[0..8]);
    BytesOfWord64(body[8..16]);
    BytesOfWord64(body[16..24]);
    BytesOfWord16(body[24..26]);
    BytesOfWord16(body[26..28]);
    BytesOfWord32(body[28..32]);
    BytesOfWord32(body[32..36]);
    BytesOfWord32(body[36..40]);
    assert U16(body[26..28]) == if m.last then 1 else 0;
    assert body == body[0..8] + body[8..16] + body[16..24] + body[24..26] + body[26..28] + body[28..32] + body[32..36]
                   + body[36..40] + body[40..];
  }

  // ---- Cutting a body into chunks ----

  function PayloadCapacity(maximum: u32, header: nat): nat {
    if maximum as nat >= header then maximum as nat - header else 0
  }

  function Clamp(x: nat, low: nat, high: nat): nat
    requires low <= high
  {
    if x < low then low else if x > high then high else x
  }

  function ChunkSize(maximum: u32): (size: nat)
    ensures 1 <= size
    ensures maximum as nat > MEDIA_RECORD_HEADER ==> MEDIA_RECORD_HEADER + size <= maximum as nat
  {
    Clamp(PayloadCapacity(maximum, MEDIA_RECORD_HEADER), 1, MEDIA_CHUNK)
  }

  /** The body and addressing of one `send_media_record` call. */
  datatype Delivery = Delivery(deliveryId: u64, key: Key, recordType: u16, body: seq<byte>)

  function ChunkAt(d: Delivery, offset: nat, size: nat): MediaMessage
    requires |d.body| <= U32_MAX && offset <= |d.body| && 0 < size
  {
    var end := if offset + size < |d.body| then offset + size else |d.body|;
    MediaMessage(d.deliveryId, d.key, d.recordType, offset as u32, |d.body| as u32, end == |d.body|, d.body[offset..end])
  }

  /** The chunks of a body from `offset` on; an empty body is one empty chunk. */
  function ChunksFrom(d: Delivery, offset: nat, size: nat): seq<MediaMessage>
    requires |d.body| <= U32_MAX && offset <= |d.body| && 0 < size
    decreases |d.body| - offset
  {
    if offset + size >= |d.body| then [ChunkAt(d, offset, size)]
    else [ChunkAt(d, offset, size)] + ChunksFrom(d, offset + size, size)
  }

  function Chunks(d: Delivery, size: nat): seq<MediaMessage>
    requires |d.body| <= U32_MAX && 0 < size
  {
    ChunksFrom(d, 0, size)
  }

  function MediaRecords(messages: seq<MediaMessage>): (records: seq<Record>)
    ensures |records| == |messages|
    ensures forall i :: 0 <= i < |messages| ==> records[i] == Record(MEDIA_RECORD, 0, MediaBytes(messages[i]))
  {
    seq(|messages|, i requires 0 <= i < |messages| => Record(MEDIA_RECORD, 0, MediaBytes(messages[i])))
  }

  predicate ChunksFit(d: Delivery, chunks: seq<MediaMessage>, maximum: u32) {
    forall i :: 0 <= i < |chunks| ==> ChunkFits(d, chunks[i], maximum)
  }

  predicate ChunkFits(d: Delivery, m: MediaMessage, maximum: u32) {
    Consistent(m) && m.key == d.key && Sendable(Record(MEDIA_RECORD, 0, MediaBytes(m)), maximum)
  }

  lemma ChunkIsSendable(d: Delivery, offset: nat, maximum: u32)
    requires |d.body| <= U32_MAX && offset <= |d.body|
    requires maximum as nat > MEDIA_RECORD_HEADER || (maximum as nat == MEDIA_RECORD_HEADER && d.body == [])
    ensures ChunkFits(d, ChunkAt(d, offset, ChunkSize(maximum)), maximum)
  {
    hide MediaHeader, ChunkSize;
  }

  /** Every chunk is consistent and belongs to its delivery, and its record respects the ceiling. */
  lemma {:induction false} ChunksAreSendable(d: Delivery, offset: nat, maximum: u32)
    requires |d.body| <= U32_MAX && offset <= |d.body|
    requires maximum as nat > MEDIA_RECORD_HEADER || (maximum as nat == MEDIA_RECORD_HEADER && d.body == [])
    ensures ChunksFit(d, ChunksFrom(d, offset, ChunkSize(maximum)), maximum)
    decreases |d.body| - offset
  {
    hide ChunkFits, ChunkSize, ChunkAt;
    var size := ChunkSize(maximum);
    ChunkIsSendable(d, offset, maximum);
    if offset + size < |d.body| {
      ChunksAreSendable(d, offset + size, maximum);
      assert ChunksFrom(d, offset, size) == [ChunkAt(d, offset, size)] + ChunksFrom(d, offset + size, size);
    }
  }

  /** Decoding the received bodies of all chunks, in order, gives the chunks back. */
  lemma DecodesChunks(d: Delivery, maximum: u32)
    requires CanSend(d, maximum)
    ensures
      var chunks := Chunks(d, ChunkSize(maximum));
      forall i :: 0 <= i < |chunks| ==> DecodeMedia(MediaRecords(chunks)[i].body) == Ok(chunks[i])
  {
    hide ChunksFrom, DecodeMedia, MediaBytes, ChunkSize;
    var chunks := Chunks(d, ChunkSize(maximum));
    ChunksAreSendable(d, 0, maximum);
    forall i | 0 <= i < |chunks| ensures DecodeMedia(MediaRecords(chunks)[i].body) == Ok(chunks[i]) {
      assert ChunkFits(d, chunks[i], maximum);
      MediaRoundTrip(chunks[i]);
    }
  }

  /** When the source can send a body: its length fits 32 bits and one byte of payload fits a record. */
  predicate CanSend(d: Delivery, maximum: u32) {
    && |d.body| <= U32_MAX
    && (if d.body == [] then maximum as nat >= MEDIA_RECORD_HEADER else maximum as nat > MEDIA_RECORD_HEADER)
  }

  // ---- Reader and writer ----

  class RecordWriter {
    var stream: seq<byte>
    var nextSequence: u64
    const maximumBody: u32

    constructor (maximumBody: u32)
      ensures this.maximumBody == maximumBody && stream == [] && nextSequence == 0
    {
      this.maximumBody := maximumBody;
      stream, nextSequence := [], 0;
    }

    /** One record whose body is the concatenation of the parts, or an error and nothing written. */
    method WriteRawParts(recordType: u16, flags: u16, parts: seq<seq<byte>>) returns (r: Result<()>)
      modifies this
      ensures r.Ok? <==> Sendable(Record(recordType, flags, Joined(parts)), maximumBody)
      ensures r.Ok? ==> stream == old(stream) + RecordBytes(old(nextSequence), Record(recordType, flags, Joined(parts)))
      ensures r.Ok? ==> nextSequence == NextSequence(old(nextSequence))
      ensures r.Err? ==> stream == old(stream) && nextSequence == old(nextSequence)
    {
      hide OfU16, OfU32, OfU64;
      if flags > 1 { return Err("VVMX record uses reserved flags"); }
      var length := 0;
      for i := 0 to |parts|
        invariant length == |Joined(parts[..i])|
      {
        assert parts[..i + 1][..i] == parts[..i];
        length := length + |parts[i]|;
      }
      assert parts[..|parts|] == parts;
      if length > maximumBody as nat { return Err("VVMX record body exceeds negotiated limit"); }
      var header := OfU64(nextSequence) + OfU16(recordType) + OfU16(flags) + OfU32(length as u32);
      stream := stream + header;
      for i := 0 to |parts|
        invariant stream == old(stream) + header + Joined(parts[..i])
        invariant nextSequence == old(nextSequence)
      {
        assert parts[..i + 1][..i] == parts[..i];
        stream := stream + parts[i];
      }
      assert old(stream) + (header + Joined(parts)) == old(stream) + header + Joined(parts);
      nextSequence := NextSequence(nextSequence);
      r := Ok(());
    }

    method WriteMediaRecord(m: MediaMessage) returns (r: Result<()>)
      modifies this
      ensures r.Ok? <==> Sendable(Record(MEDIA_RECORD, 0, MediaBytes(m)), maximumBody)
      ensures r.Ok? ==> stream == old(stream) + RecordBytes(old(nextSequence), Record(MEDIA_RECORD, 0, MediaBytes(m)))
      ensures r.Ok? ==> nextSequence == NextSequence(old(nextSequence))
      ensures r.Err? ==> stream == old(stream) && nextSequence == old(nextSequence)
    {
      JoinTwo(MediaHeader(m), m.bytes);
      r := WriteRawParts(MEDIA_RECORD, 0, [MediaHeader(m), m.bytes]);
    }

    /** An empty body is sent as one empty chunk. */
    method SendEmptyBody(d: Delivery) returns (r: Result<()>)
      requires d.body == []
      modifies this
      ensures r.Ok? <==> CanSend(d, maximumBody)
      ensures r.Ok? ==>
        var chunks := Chunks(d, ChunkSize(maximumBody));
        && ChunksFit(d, chunks, maximumBody)
        && stream == old(stream) + StreamBytes(old(nextSequence), MediaRecords(chunks))
        && nextSequence == Advance(old(nextSequence), |chunks|)
      ensures r.Err? ==> stream == old(stream) && nextSequence == old(nextSequence)
    {
      hide MediaBytes, MediaHeader, RecordBytes, NextSequence, StreamBytes, Advance, Consistent, ChunkAt, ChunksFrom;
      var size := ChunkSize(maximumBody);
      var m := ChunkAt(d, 0, size);
      ChunkLength(d, 0, size);
      r := WriteMediaRecord(m);
      if r.Ok? {
        SingleChunk(d, size);
        ChunksAreSendable(d, 0, maximumBody);
        SingleRecord(old(nextSequence), MediaBytes(m));
        assert MediaRecords([m]) == [Record(MEDIA_RECORD, 0, MediaBytes(m))];
      }
    }

    /** A body is sent whole, as the records of its chunks, exactly when it can be; otherwise nothing is written. */
    method SendMediaRecord(d: Delivery) returns (r: Result<()>)
      modifies this
      ensures r.Ok? <==> CanSend(d, maximumBody)
      ensures r.Ok? ==>
        var chunks := Chunks(d, ChunkSize(maximumBody));
        && ChunksFit(d, chunks, maximumBody)
        && stream == old(stream) + StreamBytes(old(nextSequence), MediaRecords(chunks))
        && nextSequence == Advance(old(nextSequence), |chunks|)
      ensures r.Err? ==> stream == old(stream) && nextSequence == old(nextSequence)
    {
      hide MediaBytes, MediaHeader, RecordBytes, NextSequence, StreamBytes, Advance, Consistent, ChunkAt, ChunksFrom, Chunks,
        SentSoFar;
      if |d.body| > U32_MAX { return Err("VVMX media body exceeds the addressable chunk range"); }
      var size := ChunkSize(maximumBody);
      NoRecords(nextSequence);
      if d.body == [] {
        r := SendEmptyBody(d);
        return;
      }
      ghost var done: seq<MediaMessage> := [];
      assert MediaRecords(done) == [];
      NothingSent(d, size, maximumBody);
      var offset := 0;
      while offset < |d.body|
        invariant offset <= |d.body|
        invariant maximumBody as nat <= MEDIA_RECORD_HEADER ==> offset == 0 && done == []
        invariant SentSoFar(d, size, offset, done, maximumBody) && ChunksFit(d, done, maximumBody)
        invariant stream == old(stream) + StreamBytes(old(nextSequence), MediaRecords(done))
        invariant nextSequence == Advance(old(nextSequence), |done|)
        decreases |d.body| - offset
      {
        var m := ChunkAt(d, offset, size);
        ChunkLength(d, offset, size);
        r := WriteMediaRecord(m);
        if r.Err? {
          return;
        }
        ChunkIsSendable(d, offset, maximumBody);
        AppendChunk(old(nextSequence), done, m);
        OneMoreSent(d, size, offset, done, maximumBody);
        done := done + [m];
        offset := offset + |m.bytes|;
      }
      AllSent(d, size, done, maximumBody);
      r := Ok(());
    }
  }

  /** The first chunks of a body, up to `offset`, in records that respect the ceiling. */
  ghost predicate SentSoFar(d: Delivery, size: nat, offset: nat, done: seq<MediaMessage>, maximum: u32) {
    && |d.body| <= U32_MAX && 0 < size && offset <= |d.body|
    && (offset < |d.body| ==> Chunks(d, size) == done + ChunksFrom(d, offset, size))
    && (offset == |d.body| ==> Chunks(d, size) == done)
    && ChunksFit(d, done, maximum)
  }

  lemma NothingSent(d: Delivery, size: nat, maximum: u32)
    requires |d.body| <= U32_MAX && 0 < size && d.body != []
    ensures SentSoFar(d, size, 0, [], maximum)
  {
    hide ChunksFrom;
    assert [] + ChunksFrom(d, 0, size) == ChunksFrom(d, 0, size);
  }

  lemma OneMoreSent(d: Delivery, size: nat, offset: nat, done: seq<MediaMessage>, maximum: u32)
    requires SentSoFar(d, size, offset, done, maximum) && offset < |d.body|
    requires ChunkFits(d, ChunkAt(d, offset, size), maximum)
    ensures SentSoFar(d, size, offset + |ChunkAt(d, offset, size).bytes|, done + [ChunkAt(d, offset, size)], maximum)
  {
    hide ChunksFrom, ChunkFits, Chunks;
    ChunkLength(d, offset, size);
    ChunksSplit(d, offset, size, done);
  }

  lemma AllSent(d: Delivery, size: nat, done: seq<MediaMessage>, maximum: u32)
    requires SentSoFar(d, size, |d.body|, done, maximum)
    ensures |d.body| <= U32_MAX && 0 < size && Chunks(d, size) == done && ChunksFit(d, done, maximum)
  {
  }

  lemma SingleChunk(d: Delivery, size: nat)
    requires d.body == [] && 0 < size
    ensures Chunks(d, size) == [ChunkAt(d, 0, size)]
  {
  }

  lemma ChunkLength(d: Delivery, offset: nat, size: nat)
    requires |d.body| <= U32_MAX && offset <= |d.body| && 0 < size
    ensures
      var m := ChunkAt(d, offset, size);
      && |m.bytes| == (if offset + size < |d.body| then size else |d.body| - offset)
      && |MediaBytes(m)| == MEDIA_RECORD_HEADER + |m.bytes|
  {
    HeaderAlone(ChunkAt(d, offset, size));
  }

  lemma ChunksSplit(d: Delivery, offset: nat, size: nat, done: seq<MediaMessage>)
    requires |d.body| <= U32_MAX && offset < |d.body| && 0 < size
    ensures
      done + ChunksFrom(d, offset, size)
      == if offset + size < |d.body| then done + [ChunkAt(d, offset, size)] + ChunksFrom(d, offset + size, size)
         else done + [ChunkAt(d, offset, size)]
  {
    hide ChunkAt;
    if offset + size < |d.body| {
      assert done + ([ChunkAt(d, offset, size)] + ChunksFrom(d, offset + size, size))
          == done + [ChunkAt(d, offset, size)] + ChunksFrom(d, offset + size, size);
    }
  }

  function Joined(parts: seq<seq<byte>>): seq<byte> {
    if parts == [] then [] else Joined(parts[..|parts| - 1]) + parts[|parts| - 1]
  }

  lemma JoinTwo(x: seq<byte>, y: seq<byte>)
    ensures Joined([x, y]) == x + y
  {
    assert [x, y][..1] == [x] && [x][..0] == [];
    assert Joined([x]) == [] + x;
  }

  lemma NoRecords(sequence: u64)
    ensures StreamBytes(sequence, []) == [] && Advance(sequence, 0) == sequence
  {
  }

  lemma SingleRecord(sequence: u64, body: seq<byte>)
    requires |body| <= U32_MAX
    ensures StreamBytes(sequence, [Record(MEDIA_RECORD, 0, body)]) == RecordBytes(sequence, Record(MEDIA_RECORD, 0, body))
    ensures Advance(sequence, 1) == NextSequence(sequence)
  {
  }

  lemma AppendChunk(sequence: u64, done: seq<MediaMessage>, m: MediaMessage)
    requires forall i :: 0 <= i < |done| ==> |MediaRecords(done)[i].body| <= U32_MAX
    requires |MediaBytes(m)| <= U32_MAX
    ensures MediaRecords(done + [m]) == MediaRecords(done) + [Record(MEDIA_RECORD, 0, MediaBytes(m))]
    ensures StreamBytes(sequence, MediaRecords(done) + [Record(MEDIA_RECORD, 0, MediaBytes(m))])
            == StreamBytes(sequence, MediaRecords(done))
               + RecordBytes(Advance(sequence, |done|), Record(MEDIA_RECORD, 0, MediaBytes(m)))
    ensures Advance(sequence, |done| + 1) == NextSequence(Advance(sequence, |done|))
  {
    hide MediaBytes, RecordBytes, NextSequence, StreamBytes, Advance;
    StreamAppend(sequence, MediaRecords(done), [Record(MEDIA_RECORD, 0, MediaBytes(m))]);
    SingleRecord(Advance(sequence, |done|), MediaBytes(m));
  }

  lemma HeaderAlone(m: MediaMessage)
    ensures |MediaBytes(m)| == MEDIA_RECORD_HEADER + |m.bytes|
  {
  }

  class RecordReader {
    var stream: seq<byte>
    var expectedSequence: u64
    const maximumBody: u32

    constructor (stream: seq<byte>, maximumBody: u32)
      ensures this.stream == stream && this.maximumBody == maximumBody && expectedSequence == 0
    {
      this.stream, this.maximumBody := stream, maximumBody;
      expectedSequence := 0;
    }

    method ReadExact(count: nat) returns (r: Option<seq<byte>>)
      modifies this`stream
      ensures r == if old(|stream|) < count then None else Some(old(stream)[..count])
      ensures stream == if old(|stream|) < count then [] else old(stream)[count..]
    {
      if |stream| < count {
        stream := [];
        return None;
      }
      r := Some(stream[..count]);
      stream := stream[count..];
    }

    method ReadRaw() returns (r: Result<Record>)
      modifies this
      ensures
        match ReadRecord(old(expectedSequence), maximumBody, old(stream))
        case Err(error) => r == Err(error) && expectedSequence == old(expectedSequence)
        case Ok(received) => r == Ok(received.record) && stream == received.rest
                             && expectedSequence == NextSequence(old(expectedSequence))
    {
      hide U16, U32, U64;
      var header := ReadExact(RECORD_HEADER);
      if header.None? { return Err("unexpected end of file"); }
      ghost var all := old(stream);
      assert header.value[0..8] == all[0..8] && header.value[8..10] == all[8..10];
      assert header.value[10..12] == all[10..12] && header.value[12..16] == all[12..16];
      var sequence := U64(header.value[0..8]);
      var recordType := U16(header.value[8..10]);
      var flags := U16(header.value[10..12]);
      var length := U32(header.value[12..16]);
      if sequence != expectedSequence { return Err("VVMX record sequence gap"); }
      if flags > 1 { return Err("VVMX record uses reserved flags"); }
      if length > maximumBody { return Err("VVMX record body exceeds negotiated limit"); }
      var body := ReadExact(length as nat);
      if body.None? { return Err("unexpected end of file"); }
      expectedSequence := NextSequence(expectedSequence);
      assert all[RECORD_HEADER..][..length as nat] == all[RECORD_HEADER..RECORD_HEADER + length as nat];
      assert all[RECORD_HEADER..][length as nat..] == all[RECORD_HEADER + length as nat..];
      r := Ok(Record(recordType, flags, body.value));
    }
  }
}
