/** Network byte order: the `to_be_bytes` and `from_be_bytes` of the record and media headers. */
module BigEndian {
  import opened FixedWidth

  type byte = u8

  function Pow256(width: nat): (p: nat)
    ensures p > 0
  {
    if width == 0 then 1 else 256 * Pow256(width - 1)
  }

  lemma Widths()
    ensures Pow256(2) == 0x1_0000 && Pow256(4) == 0x1_0000_0000 && Pow256(8) == 0x1_0000_0000_0000_0000
  {
    assert Pow256(1) == 256 && Pow256(3) == 0x100_0000 && Pow256(5) == 0x100_0000_0000;
    assert Pow256(6) == 0x1_0000_0000_0000 && Pow256(7) == 0x100_0000_0000_0000;
  }

  function ToBytes(n: nat, width: nat): (bytes: seq<byte>)
    ensures |bytes| == width
  {
    if width == 0 then [] else ToBytes(n / 256, width - 1) + [(n % 256) as byte]
  }

  function FromBytes(bytes: seq<byte>): (n: nat)
    ensures n < Pow256(|bytes|)
  {
    if bytes == [] then 0 else FromBytes(bytes[..|bytes| - 1]) * 256 + bytes[|bytes| - 1] as nat
  }

  lemma {:induction false} ValueRoundTrip(n: nat, width: nat)
    requires n < Pow256(width)
    ensures FromBytes(ToBytes(n, width)) == n
  {
    if width != 0 {
      ValueRoundTrip(n / 256, width - 1);
      assert ToBytes(n, width)[..width - 1] == ToBytes(n / 256, width - 1);
    }
  }

  lemma LastDigit(high: nat, low: byte)
    ensures (high * 256 + low as nat) / 256 == high && (high * 256 + low as nat) % 256 == low as nat
  {
  }

  lemma {:induction false} BytesRoundTrip(bytes: seq<byte>)
    ensures ToBytes(FromBytes(bytes), |bytes|) == bytes
  {
    hide Pow256;
    if bytes != [] {
      var init, last := bytes[..|bytes| - 1], bytes[|bytes| - 1];
      BytesRoundTrip(init);
      LastDigit(FromBytes(init), last);
      assert bytes == init + [last];
    }
  }

  function U16(bytes: seq<byte>): (n: u16)
    requires |bytes| == 2
    ensures n as nat == FromBytes(bytes)
  {
    Widths(); FromBytes(bytes) as u16
  }

  function U32(bytes: seq<byte>): (n: u32)
    requires |bytes| == 4
    ensures n as nat == FromBytes(bytes)
  {
    Widths(); FromBytes(bytes) as u32
  }

  function U64(bytes: seq<byte>): (n: u64)
    requires |bytes| == 8
    ensures n as nat == FromBytes(bytes)
  {
    Widths(); FromBytes(bytes) as u64
  }

  function OfU16(n: u16): seq<byte> { ToBytes(n as nat, 2) }

  function OfU32(n: u32): seq<byte> { ToBytes(n as nat, 4) }

  function OfU64(n: u64): seq<byte> { ToBytes(n as nat, 8) }

  lemma WordRoundTrips(a: u16, b: u32, c: u64)
    ensures |OfU16(a)| == 2 && U16(OfU16(a)) == a
    ensures |OfU32(b)| == 4 && U32(OfU32(b)) == b
    ensures |OfU64(c)| == 8 && U64(OfU64(c)) == c
  {
    Widths();
    ValueRoundTrip(a as nat, 2);
    ValueRoundTrip(b as nat, 4);
    ValueRoundTrip(c as nat, 8);
  }

  lemma BytesOfWord16(bytes: seq<byte>)
    requires |bytes| == 2
    ensures OfU16(U16(bytes)) == bytes
  {
    BytesRoundTrip(bytes);
  }

  lemma BytesOfWord32(bytes: seq<byte>)
    requires |bytes| == 4
    ensures OfU32(U32(bytes)) == bytes
  {
    BytesRoundTrip(bytes);
  }

  lemma BytesOfWord64(bytes: seq<byte>)
    requires |bytes| == 8
    ensures OfU64(U64(bytes)) == bytes
  {
    BytesRoundTrip(bytes);
  }
}
