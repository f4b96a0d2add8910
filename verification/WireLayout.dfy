/** Where the fields of records lie on the wire, byte for byte (src/ipc.rs:601-993): both ends of a connection may be of
    different builds, so the layout matters beyond what a round trip shows. */
module WireLayout {
  import opened FixedWidth
  import opened BigEndian
  import opened Framing
  import opened RenderFraming

  /** The number some bytes stand for, the most significant first. */
  function Number(bytes: seq<byte>): nat {
    if bytes == [] then 0 else bytes[0] as nat * Pow256(|bytes| - 1) + Number(bytes[1..])
  }

  lemma {:induction false} NumberAppend(bytes: seq<byte>, last: byte)
    ensures Number(bytes + [last]) == 256 * Number(bytes) + last as nat
  {
    if bytes == [] {
      assert (bytes + [last])[1..] == [];
    } else {
      NumberAppend(bytes[1..], last);
      assert (bytes + [last])[1..] == bytes[1..] + [last];
      Shift(bytes[0] as nat, Pow256(|bytes| - 1), Number(bytes[1..]));
    }
  }

  lemma Shift(digit: nat, power: nat, rest: nat)
    ensures digit * (256 * power) + 256 * rest == 256 * (digit * power + rest)
  {
  }

  lemma {:induction false} NumberIsValue(bytes: seq<byte>)
    ensures FromBytes(bytes) == Number(bytes)
  {
    if bytes != [] {
      var n := |bytes| - 1;
      NumberIsValue(bytes[..n]);
      NumberAppend(bytes[..n], bytes[n]);
      assert bytes == bytes[..n] + [bytes[n]];
    }
  }

  lemma WordNumbers(a: u16, b: u32, c: u64)
    ensures Number(OfU16(a)) == a as nat && |OfU16(a)| == 2
    ensures Number(OfU32(b)) == b as nat && |OfU32(b)| == 4
    ensures Number(OfU64(c)) == c as nat && |OfU64(c)| == 8
  {
    Widths();
    ValueRoundTrip(a as nat, 2);
    ValueRoundTrip(b as nat, 4);
    ValueRoundTrip(c as nat, 8);
    NumberIsValue(OfU16(a));
    NumberIsValue(OfU32(b));
    NumberIsValue(OfU64(c));
  }

  /** Sequence number, type, flags, length, body. */
  lemma RecordLayout(sequence: u64, record: Record)
    requires |record.body| <= U32_MAX
    ensures
      var wire := RecordBytes(sequence, record);
      && |wire| == 16 + |record.body|
      && Number(wire[0..8]) == sequence as nat && Number(wire[8..10]) == record.recordType as nat
      && Number(wire[10..12]) == record.flags as nat && Number(wire[12..16]) == |record.body|
      && wire[16..] == record.body
  {
    hide OfU16, OfU32, OfU64, Number;
    var length := |record.body| as u32;
    WordNumbers(record.recordType, length, sequence);
    WordNumbers(record.flags, length, sequence);
    HeaderFields(OfU64(sequence), OfU16(record.recordType), OfU16(record.flags), OfU32(length), record.body);
  }

  /** Delivery, producer, source, type, flags with the last mark in bit 0, offset, total, four zero bytes, payload. */
  lemma MediaLayout(m: MediaMessage)
    ensures
      var wire := MediaBytes(m);
      && |wire| == 40 + |m.bytes| && MEDIA_RECORD == 2
      && Number(wire[0..8]) == m.deliveryId as nat && Number(wire[8..16]) == m.key.producer as nat
      && Number(wire[16..24]) == m.key.source as nat && Number(wire[24..26]) == m.recordType as nat
      && Number(wire[26..28]) == (if m.last then 1 else 0) && Number(wire[28..32]) == m.offset as nat
      && Number(wire[32..36]) == m.total as nat && Number(wire[36..40]) == 0 && wire[40..] == m.bytes
  {
    hide OfU16, OfU32, OfU64, Number;
    var flags: u16 := if m.last then 1 else 0;
    WordNumbers(m.recordType, m.offset, m.deliveryId);
    WordNumbers(flags, m.total, m.key.producer);
    WordNumbers(flags, 0, m.key.source);
    MediaFields(OfU64(m.deliveryId), OfU64(m.key.producer), OfU64(m.key.source), OfU16(m.recordType), OfU16(flags),
                OfU32(m.offset), OfU32(m.total), OfU32(0), m.bytes);
    assert MediaBytes(m) == OfU64(m.deliveryId) + OfU64(m.key.producer) + OfU64(m.key.source) + OfU16(m.recordType)
                            + OfU16(flags) + OfU32(m.offset) + OfU32(m.total) + OfU32(0) + m.bytes;
  }

  /** Frame, session sequence, flags with the full mark in bit 0 and the last mark in bit 1, six zero bytes, payload. */
  lemma RenderLayout(m: RenderMessage)
    ensures
      var wire := RenderBytes(m);
      && |wire| == 24 + |m.bytes| && RENDER_RECORD == 3
      && Number(wire[0..8]) == m.frameId as nat && Number(wire[8..16]) == m.sessionSequence as nat
      && Number(wire[16..18]) == (if m.full then 1 else 0) + (if m.last then 2 else 0)
      && Number(wire[18..20]) == 0 && Number(wire[20..24]) == 0 && wire[24..] == m.bytes
  {
    hide OfU16, OfU32, OfU64, Number;
    WordNumbers(RenderFlags(m), 0, m.frameId);
    WordNumbers(0, 0, m.sessionSequence);
    RenderParts(OfU64(m.frameId), OfU64(m.sessionSequence), OfU16(RenderFlags(m)), OfU16(0), OfU32(0), m.bytes);
  }

  lemma RenderParts(a: seq<byte>, b: seq<byte>, c: seq<byte>, d: seq<byte>, e: seq<byte>, rest: seq<byte>)
    requires |a| == 8 && |b| == 8 && |c| == 2 && |d| == 2 && |e| == 4
    ensures
      var whole := a + b + c + d + e + rest;
      && whole[0..8] == a && whole[8..16] == b && whole[16..18] == c && whole[18..20] == d && whole[20..24] == e
      && whole[24..] == rest
  {
  }

  /** Sequence numbers count up and wrap around after 64 bits. */
  lemma {:induction false} SequenceCounts(sequence: u64, count: nat)
    ensures Advance(sequence, count) as nat == (sequence as nat + count) % 0x1_0000_0000_0000_0000
    decreases count
  {
    if count > 0 {
      SequenceCounts(NextSequence(sequence), count - 1);
    }
  }

  // ---- How bodies are cut ----

  /** As large as the ceiling allows, up to 128 KiB of a media body and 256 KiB of a frame, and never nothing. */
  lemma ChunkSizes(maximum: u32)
    ensures ChunkSize(maximum) == if maximum <= 41 then 1 else if maximum <= 131112 then maximum as nat - 40 else 131072
    ensures RenderChunkSize(maximum) == if maximum <= 25 then 1 else if maximum <= 262168 then maximum as nat - 24 else 262144
  {
  }

  /** No record is wasted: every chunk but the last is full, and the last is not empty unless the body is. */
  lemma {:induction false} MediaChunksAreFull(d: Delivery, offset: nat, size: nat)
    requires |d.body| <= U32_MAX && offset <= |d.body| && 0 < size && (offset < |d.body| || d.body == [])
    ensures
      var chunks := ChunksFrom(d, offset, size);
      var n := |chunks| - 1;
      && n >= 0 && (forall i :: 0 <= i < n ==> |chunks[i].bytes| == size)
      && 1 <= |chunks[n].bytes| + (if d.body == [] then 1 else 0) && |chunks[n].bytes| <= size
      && n * size + |chunks[n].bytes| == |d.body| - offset
      && forall i :: 0 <= i <= n ==> chunks[i].offset as int == offset + i * size
    decreases |d.body| - offset
  {
    if offset + size < |d.body| {
      MediaChunksAreFull(d, offset + size, size);
      var rest, chunks := ChunksFrom(d, offset + size, size), ChunksFrom(d, offset, size);
      assert chunks == [ChunkAt(d, offset, size)] + rest;
      forall i | 0 <= i < |chunks| ensures chunks[i].offset as int == offset + i * size {
        if i > 0 {
          assert chunks[i] == rest[i - 1];
          OneMore(offset, size, i - 1);
        }
      }
      OneMore(0, size, |rest| - 1);
    }
  }

  lemma OneMore(offset: nat, size: nat, n: nat)
    ensures offset + size + n * size == offset + (n + 1) * size
  {
  }

  lemma {:induction false} RenderChunksAreFull(f: RenderFrame, offset: nat, size: nat)
    requires offset <= |f.body| && 0 < size && (offset < |f.body| || f.body == [])
    ensures
      var chunks := RenderChunksFrom(f, offset, size);
      var n := |chunks| - 1;
      && n >= 0 && (forall i :: 0 <= i < n ==> |chunks[i].bytes| == size)
      && 1 <= |chunks[n].bytes| + (if f.body == [] then 1 else 0) && |chunks[n].bytes| <= size
      && n * size + |chunks[n].bytes| == |f.body| - offset
    decreases |f.body| - offset
  {
    if offset + size < |f.body| {
      RenderChunksAreFull(f, offset + size, size);
      assert RenderChunksFrom(f, offset, size) == [RenderAt(f, offset, size)] + RenderChunksFrom(f, offset + size, size);
      OneMore(0, size, |RenderChunksFrom(f, offset + size, size)| - 1);
    }
  }
}
