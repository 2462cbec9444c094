/** `TCP.Companion.of`, `TCP.headerSize` and `TCP.onPayload`: decoding the
    20-byte TCP header of section 3.1 of RFC 9293 and its option area. */
module TcpHeader {
  import opened Wrappers
  import opened Bytes
  import opened OptionCodec
  import opened Packets

  /** The flag set `of` builds: NS when the offset byte's low bit is set, then
      every flag whose value shares a bit with the flag byte. So FIN..CWR come
      from bits 0..7 of the flag byte, each exactly when its bit is set, and NS
      from the offset byte's low bit and, through its overlapping value, also
      from URG's and ECE's bits. */
  function FlagsOf(offsetByte: byte, flagByte: byte): (flags: set<TcpFlag>)
    ensures FIN in flags <==> Bit(flagByte, 0)
    ensures SYN in flags <==> Bit(flagByte, 1)
    ensures RST in flags <==> Bit(flagByte, 2)
    ensures PSH in flags <==> Bit(flagByte, 3)
    ensures ACK in flags <==> Bit(flagByte, 4)
    ensures URG in flags <==> Bit(flagByte, 5)
    ensures ECE in flags <==> Bit(flagByte, 6)
    ensures CWR in flags <==> Bit(flagByte, 7)
    ensures NS in flags <==> Bit(offsetByte, 0) || Bit(flagByte, 5) || Bit(flagByte, 6)
  {
    SharedLow(flagByte);
    SharedHigh(flagByte);
    NsMask(flagByte);
    AndStep(offsetByte, 1);
    assert !AndNonZero(offsetByte / 2, 0);
    (if AndNonZero(offsetByte, 1) then {NS} else {}) + Shared(flagByte)
  }

  /** The flags whose value shares a bit with the flag byte. */
  function Shared(flagByte: byte): set<TcpFlag> {
    set f | f in AllTcpFlags && AndNonZero(f.Value(), flagByte)
  }

  lemma SharedLow(b: byte)
    ensures FIN in Shared(b) <==> Bit(b, 0)
    ensures SYN in Shared(b) <==> Bit(b, 1)
    ensures RST in Shared(b) <==> Bit(b, 2)
    ensures PSH in Shared(b) <==> Bit(b, 3)
  {
    assert Pow2(0) == 1 && Pow2(1) == 2 && Pow2(2) == 4 && Pow2(3) == 8;
    SingleBit(FIN, 0, b);
    SingleBit(SYN, 1, b);
    SingleBit(RST, 2, b);
    SingleBit(PSH, 3, b);
  }

  lemma SharedHigh(b: byte)
    ensures ACK in Shared(b) <==> Bit(b, 4)
    ensures URG in Shared(b) <==> Bit(b, 5)
    ensures ECE in Shared(b) <==> Bit(b, 6)
    ensures CWR in Shared(b) <==> Bit(b, 7)
  {
    assert Pow2(4) == 16 && Pow2(5) == 32 && Pow2(6) == 64 && Pow2(7) == 128;
    SingleBit(ACK, 4, b);
    SingleBit(URG, 5, b);
    SingleBit(ECE, 6, b);
    SingleBit(CWR, 7, b);
  }

  lemma AndStep(a: nat, w: nat)
    ensures AndNonZero(a, w) <==> (a % 2 == 1 && w % 2 == 1) || AndNonZero(a / 2, w / 2)
  {
    if a > 0 && w == 0 {
      assert !AndNonZero(a / 2, 0);
    }
  }

  /** NS's value 0x160 tests bits 5, 6 and 8 of the flag byte; a byte has no
      bit 8, so in effect NS looks at URG's and ECE's bits. */
  lemma NsMask(b: byte)
    ensures AndNonZero(TcpFlag.NS.Value(), b) <==> Bit(b, 5) || Bit(b, 6)
  {
    var w1 := b / 2;
    var w2 := w1 / 2;
    var w3 := w2 / 2;
    var w4 := w3 / 2;
    var w5 := w4 / 2;
    var w6 := w5 / 2;
    var w7 := w6 / 2;
    var w8 := w7 / 2;
    assert w8 == 0;
    AndStep(0x160, b);
    AndStep(0xB0, w1);
    AndStep(0x58, w2);
    AndStep(0x2C, w3);
    AndStep(0x16, w4);
    AndStep(0x0B, w5);
    AndStep(0x05, w6);
    AndStep(0x02, w7);
    AndStep(0x01, w8);
    assert !AndNonZero(0, w8 / 2);
    assert Bit(b, 5) <==> Bit(w1, 4);
    assert Bit(w1, 4) <==> Bit(w2, 3);
    assert Bit(w2, 3) <==> Bit(w3, 2);
    assert Bit(w3, 2) <==> Bit(w4, 1);
    assert Bit(w4, 1) <==> Bit(w5, 0);
    assert Bit(b, 6) <==> Bit(w1, 5);
    assert Bit(w1, 5) <==> Bit(w2, 4);
    assert Bit(w2, 4) <==> Bit(w3, 3);
    assert Bit(w3, 3) <==> Bit(w4, 2);
    assert Bit(w4, 2) <==> Bit(w5, 1);
    assert Bit(w5, 1) <==> Bit(w6, 0);
  }

  lemma SingleBit(f: TcpFlag, k: nat, b: byte)
    requires f.Value() == Pow2(k)
    ensures AndNonZero(f.Value(), b) <==> Bit(b, k)
  {
    AndPow2(k, b);
  }

  /** The control bits of `s` as they sit on the wire (RFC 9293, with NS in
      the low bit of the offset byte): the flag byte, FIN lowest, CWR highest. */
  function FlagByteOf(s: set<TcpFlag>): byte {
    assert Pow2(8) == 256;
    FromBits([FIN in s, SYN in s, RST in s, PSH in s, ACK in s, URG in s, ECE in s, CWR in s])
  }

  /** Decoding the wire bits of a flag set gives back the set, plus NS when URG
      or ECE is present: a superset, equal exactly when that extra NS is
      already there or not triggered. */
  lemma FlagsRoundTrip(s: set<TcpFlag>)
    ensures FlagsOf(if NS in s then 1 else 0, FlagByteOf(s))
            == s + (if URG in s || ECE in s then {NS} else {})
    ensures s <= FlagsOf(if NS in s then 1 else 0, FlagByteOf(s))
  {
    var o: byte := if NS in s then 1 else 0;
    var d := FlagsOf(o, FlagByteOf(s));
    var t := s + (if URG in s || ECE in s then {NS} else {});
    FlagByteBits(s);
    assert Bit(o, 0) <==> NS in s;
    forall f: TcpFlag
      ensures f in d <==> f in t
    {
      match f
      case FIN =>
      case SYN =>
      case RST =>
      case PSH =>
      case ACK =>
      case URG =>
      case ECE =>
      case CWR =>
      case NS =>
    }
  }

  /** Bit k of the flag byte is set exactly when the k-th flag is in the set. */
  lemma FlagByteBits(s: set<TcpFlag>)
    ensures Bit(FlagByteOf(s), 0) <==> FIN in s
    ensures Bit(FlagByteOf(s), 1) <==> SYN in s
    ensures Bit(FlagByteOf(s), 2) <==> RST in s
    ensures Bit(FlagByteOf(s), 3) <==> PSH in s
    ensures Bit(FlagByteOf(s), 4) <==> ACK in s
    ensures Bit(FlagByteOf(s), 5) <==> URG in s
    ensures Bit(FlagByteOf(s), 6) <==> ECE in s
    ensures Bit(FlagByteOf(s), 7) <==> CWR in s
  {
    var bits := [FIN in s, SYN in s, RST in s, PSH in s, ACK in s, URG in s, ECE in s, CWR in s];
    assert FlagByteOf(s) == FromBits(bits);
    FromBitsBit(bits, 0);
    FromBitsBit(bits, 1);
    FromBitsBit(bits, 2);
    FromBitsBit(bits, 3);
    FromBitsBit(bits, 4);
    FromBitsBit(bits, 5);
    FromBitsBit(bits, 6);
    FromBitsBit(bits, 7);
  }

  /** `TCP.Companion.of`: read the fixed 20 bytes, then the option area with a
      budget of `(dataofs - 5) * 4` bytes, then hand the rest to the context.
      Running out of bytes, in the fixed part or inside the option decoder, is
      caught and gives null. */
  function Of(bs: seq<byte>, optionOf: OptionDecoder, context: Context): (r: Option<Tcp>)
    requires Progress(optionOf)
    ensures r.Some? ==> |bs| >= 20
    ensures r.Some? ==>
      && r.value.dataofs.Some? && 0 <= r.value.dataofs.value < 16
      && 0 <= r.value.reserved < 8
      && (r.value.dataofs.value <= 5 ==> r.value.options == [])
  {
    var fixed :- ReadFixed(bs);
    OptionArea(fixed, optionOf, context)
  }

  /** The reads of `of` up to the urgent pointer: the header with no options
      and no payload yet, and the bytes that follow it. */
  function ReadFixed(bs: seq<byte>): (r: Option<Read<Tcp>>)
    ensures r.Some? ==> |bs| >= 20 && r.value.rest == bs[20..]
    ensures r.Some? ==>
      && r.value.item.dataofs.Some? && 0 <= r.value.item.dataofs.value < 16
      && 0 <= r.value.item.reserved < 8
      && r.value.item.options == []
  {
    var sport :- ReadU16(bs);
    var dport :- ReadU16(sport.rest);
    var seqNum :- ReadU32(dport.rest);
    var ackNum :- ReadU32(seqNum.rest);
    var offset :- ReadU8(ackNum.rest);
    var dataofs: int := offset.item / 16;                     // shr 4
    var reserved: int := (offset.item as int * 16) % 256 / 32;       // (shl 4) shr 5 on an unsigned byte
    var flagByte :- ReadU8(offset.rest);
    var flags := FlagsOf(offset.item, flagByte.item);
    var window :- ReadU16(flagByte.rest);
    var chksum :- ReadU16(window.rest);
    var urgptr :- ReadU16(chksum.rest);
    var tcp := Tcp(sport := Some(sport.item), dport := Some(dport.item), seqNum := seqNum.item,
                   ackNum := ackNum.item, dataofs := Some(dataofs), reserved := reserved, flags := flags,
                   window := window.item, chksum := Some(chksum.item), urgptr := urgptr.item,
                   options := [], payload := None);
    Some(Read(tcp, urgptr.rest))
  }

  /** The rest of `of` once the fixed part is read: the option loop with a
      budget of `(dataofs - 5) * 4` bytes, then the payload the context makes
      of what is left. */
  function OptionArea(fixed: Read<Tcp>, optionOf: OptionDecoder, context: Context): (r: Option<Tcp>)
    requires Progress(optionOf) && fixed.item.dataofs.Some?
    ensures var run := OptionLoop(optionOf, (fixed.item.dataofs.value - 5) * 4, fixed.rest);
      && (r.Some? <==> !run.threw)
      && (r.Some? ==> r.value.options == run.options)
      && (r.Some? ==> r.value.(payload := fixed.item.payload) == fixed.item.(options := run.options))
      && (r.Some? ==> r.value.payload == context(TcpLayer(fixed.item.(options := run.options)), run.rest))
  {
    var run := OptionLoop(optionOf, (fixed.item.dataofs.value - 5) * 4, fixed.rest);
    if run.threw then None                                   // the catch around the whole decoder
    else
    var tcp := fixed.item.(options := run.options);
    Some(tcp.(payload := context(TcpLayer(tcp), run.rest)))
  }

  /** The header `of` builds from the first 20 bytes, before the payload is attached. */
  function FixedHeader(bs: seq<byte>, options: seq<Opt>): Tcp
    requires |bs| >= 20
  {
    Tcp(sport := Some(Be16(bs[0], bs[1])), dport := Some(Be16(bs[2], bs[3])),
        seqNum := Be32(bs[4], bs[5], bs[6], bs[7]), ackNum := Be32(bs[8], bs[9], bs[10], bs[11]),
        dataofs := Some(bs[12] / 16), reserved := (bs[12] % 16) / 2, flags := FlagsOf(bs[12], bs[13]),
        window := Be16(bs[14], bs[15]), chksum := Some(Be16(bs[16], bs[17])), urgptr := Be16(bs[18], bs[19]),
        options := options, payload := None)
  }

  /** What `of` returns, stated by byte position: nothing for fewer than 20
      bytes or when the option decoder throws; otherwise the header of the
      first 20 bytes, the options the loop reads from byte 20 on with budget
      `(dataofs - 5) * 4`, and the payload the context makes of what is left. */
  function Decoded(bs: seq<byte>, optionOf: OptionDecoder, context: Context): Option<Tcp>
    requires Progress(optionOf)
  {
    if |bs| < 20 then None
    else
      var run := OptionLoop(optionOf, (bs[12] as int / 16 - 5) * 4, bs[20..]);
      if run.threw then None
      else
        var header := FixedHeader(bs, run.options);
        Some(header.(payload := context(TcpLayer(header), run.rest)))
  }

  /** The fixed part is exactly the first 20 bytes, field by field in wire
      order and big-endian; the option loop starts at byte 20 and the context
      gets what the loop leaves. */
  lemma OfFields(bs: seq<byte>, optionOf: OptionDecoder, context: Context)
    requires Progress(optionOf)
    ensures Of(bs, optionOf, context) == Decoded(bs, optionOf, context)
  {
    ReadsFixedPart(bs);
    if |bs| >= 20 {
      AreaAfterFixed(bs, optionOf, context);
    }
  }

  /** The fixed part fails exactly on fewer than 20 bytes, and otherwise is
      `FixedHeader` followed by everything from byte 20 on. */
  lemma ReadsFixedPart(bs: seq<byte>)
    ensures ReadFixed(bs) == if |bs| < 20 then None else Some(Read(FixedHeader(bs, []), bs[20..]))
  {
    if |bs| >= 20 {
      ReservedBits(bs[12]);
      assert bs[2..][2..][4..][4..][1..][1..][2..][2..][2..] == bs[20..];
    }
  }

  lemma AreaAfterFixed(bs: seq<byte>, optionOf: OptionDecoder, context: Context)
    requires Progress(optionOf) && |bs| >= 20
    ensures OptionArea(Read(FixedHeader(bs, []), bs[20..]), optionOf, context) == Decoded(bs, optionOf, context)
  {
    var run := OptionLoop(optionOf, (bs[12] as int / 16 - 5) * 4, bs[20..]);
    WithOptions(bs, run.options);
  }

  lemma WithOptions(bs: seq<byte>, options: seq<Opt>)
    requires |bs| >= 20
    ensures FixedHeader(bs, []).(options := options) == FixedHeader(bs, options)
  {
  }

  /** `of` gives a header exactly when there are 20 bytes and the option
      decoder does not throw inside the option area. */
  lemma OfSucceeds(bs: seq<byte>, optionOf: OptionDecoder, context: Context)
    requires Progress(optionOf)
    ensures Of(bs, optionOf, context).Some?
            <==> |bs| >= 20 && !OptionLoop(optionOf, (bs[12] as int / 16 - 5) * 4, bs[20..]).threw
  {
    OfFields(bs, optionOf, context);
  }

  /** A data offset above 5 with a decoder that throws at byte 20 (for instance
      a data offset of 15 on a bare 20-byte buffer) loses the whole segment. */
  lemma ThrowingOptionDropsSegment(bs: seq<byte>, optionOf: OptionDecoder, context: Context)
    requires Progress(optionOf)
    requires |bs| >= 20 && bs[12] / 16 > 5 && optionOf(bs[20..]).Threw?
    ensures Of(bs, optionOf, context) == None
  {
    OfFields(bs, optionOf, context);
  }

  /** `(b shl 4) shr 5` on an 8-bit value keeps bits 1..3 of `b`. */
  lemma ReservedBits(b: byte)
    ensures (b as int * 16) % 256 / 32 == (b % 16) / 2
  {
    assert b * 16 == 256 * (b / 16) + 16 * (b % 16);
    DivUnique(b * 16, 256, b / 16, 16 * (b % 16));
  }

  /** With a data offset of 6 and a NOP-only option area, exactly the four
      option bytes are read as four NOPs and the payload starts at byte 24. */
  lemma NopArea(bs: seq<byte>, optionOf: OptionDecoder, context: Context, nop: Opt)
    requires Progress(optionOf) && nop.Nop?
    requires |bs| >= 24 && bs[12] / 16 == 6
    requires forall k :: 20 <= k < 24 ==> optionOf(bs[k..]) == Got(nop, bs[k + 1..])
    ensures
      var header := FixedHeader(bs, [nop, nop, nop, nop]);
      Of(bs, optionOf, context) == Some(header.(payload := context(TcpLayer(header), bs[24..])))
  {
    OfFields(bs, optionOf, context);
    assert (bs[12] as int / 16 - 5) * 4 == 4;
    FourNops(bs, optionOf, nop);
  }

  lemma FourNops(bs: seq<byte>, optionOf: OptionDecoder, nop: Opt)
    requires Progress(optionOf) && nop.Nop? && |bs| >= 24
    requires forall k :: 20 <= k < 24 ==> optionOf(bs[k..]) == Got(nop, bs[k + 1..])
    ensures OptionLoop(optionOf, 4, bs[20..]) == OptionRun([nop, nop, nop, nop], bs[24..], false)
  {
    var area := bs[20..];
    forall k | 0 <= k < 4
      ensures optionOf(area[k..]) == Got(nop, area[k + 1..])
    {
      assert area[k..] == bs[20 + k..];
      assert area[k + 1..] == bs[20 + k + 1..];
    }
    NopRun(optionOf, nop, 4, area);
    assert seq(4, _ => nop) == [nop, nop, nop, nop];
    assert area[4..] == bs[24..];
  }

  /** `headerSize()`: the shared formula over this header's options. */
  function HeaderSize(tcp: Tcp): (size: nat)
    ensures size >= 20
    ensures size == 20 <==> tcp.options == []
    ensures size == 20 + OptionBytes(tcp.options) + OptionBytes(tcp.options) % 4
  {
    OptionCodec.HeaderSize(tcp.options)
  }

  /** `onPayload(ip)`: a TCP payload marks its carrier's protocol as TCP and
      changes nothing else. */
  function OnPayload(ip: Ip): (r: Ip)
    ensures r.proto == Some(ProtoTcp as nat)
    ensures r.(proto := ip.proto) == ip
  {
    ip.(proto := Some(ProtoTcp as nat))
  }

  /** A flag byte with only bit 1 set and an offset byte with a clear low bit
      decode to exactly `{SYN}`: the bits of the default `TCP()` flag set. */
  lemma SynOnly(o: byte, b: byte)
    requires !Bit(o, 0) && Bit(b, 1)
    requires !Bit(b, 0) && !Bit(b, 2) && !Bit(b, 3) && !Bit(b, 4) && !Bit(b, 5) && !Bit(b, 6) && !Bit(b, 7)
    ensures FlagsOf(o, b) == {SYN}
  {
  }
}
