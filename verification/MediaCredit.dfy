/** The credit ledger of one media source (src/media.rs:1486-1564). */
module MediaCredit {
  import opened FixedWidth

  const INITIAL_PACKET_CREDITS: nat := 1
  const ROLLING_PACKET_CREDITS: nat := 8

  datatype Credit = Credit(
    windowBytes: nat, windowPackets: nat, outstandingBytes: nat, outstandingPackets: nat, chargedBytes: nat,
    chargedPackets: nat)

  datatype Grant = Grant(bytes: nat, packets: nat)

  function SaturatingAdd(a: nat, b: nat): nat {
    if a + b <= U64_MAX then a + b else U64_MAX
  }

  function SaturatingSub(a: nat, b: nat): nat {
    if a >= b then a - b else 0
  }

  /** The ledger of a new source: the whole byte window and one packet. */
  function Fresh(maximum: nat): Credit {
    Credit(maximum, ROLLING_PACKET_CREDITS, maximum, INITIAL_PACKET_CREDITS, 0, 0)
  }

  /** `accepted` tells whether the record may be ingested; the ledger keeps what was taken before a failure. */
  datatype Consumed = Consumed(credit: Credit, accepted: bool)

  function Consume(c: Credit, bytes: nat): Consumed {
    if bytes == 0 || c.outstandingBytes < bytes || c.outstandingPackets == 0 then Consumed(c, false)
    else
      var taken := c.(outstandingBytes := c.outstandingBytes - bytes, outstandingPackets := c.outstandingPackets - 1);
      if c.chargedBytes + bytes > U64_MAX then Consumed(taken, false)
      else
        var charged := taken.(chargedBytes := c.chargedBytes + bytes);
        if c.chargedPackets + 1 > U64_MAX then Consumed(charged, false)
        else Consumed(charged.(chargedPackets := c.chargedPackets + 1), true)
  }

  datatype Returned = Returned(credit: Credit, grant: Grant)

  /** Credit handed back to the producer: what was charged, plus for a visible source whatever its window misses. */
  function Return(c: Credit, bytes: nat, packets: nat, projected: bool): Returned {
    if c.chargedBytes < bytes || c.chargedPackets < packets then Returned(c, Grant(0, 0))
    else
      var back := c.(chargedBytes := c.chargedBytes - bytes, chargedPackets := c.chargedPackets - packets,
                     outstandingBytes := SaturatingAdd(c.outstandingBytes, bytes),
                     outstandingPackets := SaturatingAdd(c.outstandingPackets, packets));
      if !projected then Returned(back, Grant(bytes, packets))
      else
        var topBytes := SaturatingSub(c.windowBytes, SaturatingAdd(back.outstandingBytes, back.chargedBytes));
        var topPackets := SaturatingSub(c.windowPackets, SaturatingAdd(back.outstandingPackets, back.chargedPackets));
        Returned(
          back.(outstandingBytes := SaturatingAdd(back.outstandingBytes, topBytes),
                outstandingPackets := SaturatingAdd(back.outstandingPackets, topPackets)),
          Grant(SaturatingAdd(bytes, topBytes), SaturatingAdd(packets, topPackets)))
  }

  /** Every byte of the window is outstanding or charged; packets never exceed their window. */
  predicate Balanced(c: Credit) {
    && c.outstandingBytes + c.chargedBytes == c.windowBytes <= U64_MAX
    && c.outstandingPackets + c.chargedPackets <= c.windowPackets <= U64_MAX
  }

  function PacketSum(c: Credit): nat {
    c.outstandingPackets + c.chargedPackets
  }

  predicate SameWindows(c: Credit, d: Credit) {
    c.windowBytes == d.windowBytes && c.windowPackets == d.windowPackets
  }

  /** A charge moves credit from outstanding to charged; a refused record leaves a balanced ledger alone. */
  lemma ConsumeBalances(c: Credit, bytes: nat)
    requires Balanced(c)
    ensures
      var r := Consume(c, bytes);
      && Balanced(r.credit) && SameWindows(c, r.credit) && PacketSum(r.credit) == PacketSum(c)
      && (r.accepted <==> 0 < bytes <= c.outstandingBytes && 0 < c.outstandingPackets)
      && (if r.accepted then
            r.credit.outstandingBytes == c.outstandingBytes - bytes && r.credit.outstandingPackets == c.outstandingPackets - 1
          else r.credit == c)
  {
  }

  /** What was charged comes back: it leaves the charge and becomes outstanding again, no byte more or less. Packets too,
      and a visible source also gets what its packet window misses. Only a return of more than is charged gives nothing. */
  lemma ReturnBalances(c: Credit, bytes: nat, packets: nat, projected: bool)
    requires Balanced(c)
    ensures
      var r := Return(c, bytes, packets, projected);
      && Balanced(r.credit) && SameWindows(c, r.credit)
      && r.credit.outstandingBytes == c.outstandingBytes + r.grant.bytes
      && r.credit.outstandingPackets == c.outstandingPackets + r.grant.packets
      && (if bytes <= c.chargedBytes && packets <= c.chargedPackets then
            && r.credit.chargedBytes == c.chargedBytes - bytes && r.credit.chargedPackets == c.chargedPackets - packets
            && r.grant.bytes == bytes && packets <= r.grant.packets
            && PacketSum(r.credit) == (if projected then c.windowPackets else PacketSum(c))
          else r.grant == Grant(0, 0) && r.credit == c)
  {
  }
}
