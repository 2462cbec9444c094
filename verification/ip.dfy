/** `IP.Companion.of`, `IP.headerSize`, the `payload` setter hook and
    `IP.onPayload`: decoding the 20-byte IPv4 header of section 3.1 of RFC 791
    and its option area, as the source does it. */
module IpHeader {
  import opened Wrappers
  import opened Bytes
  import opened OptionCodec
  import opened Packets
  import TcpHeader

  /** The flag set `of` builds from the top three bits of the fourth 16-bit word
      (already shifted right by 13): every flag whose value shares a bit with them. */
  function FlagsOf(w: nat): (flags: set<IpFlag>)
    ensures Reserved in flags <==> Bit(w, 0)
    ensures DF in flags <==> Bit(w, 1)
    ensures MF in flags <==> Bit(w, 2)
  {
    assert Pow2(0) == 1 && Pow2(1) == 2 && Pow2(2) == 4;
    AndPow2(0, w);
    AndPow2(1, w);
    AndPow2(2, w);
    set f | f in AllIpFlags && AndNonZero(f.Value(), w)
  }

  /** Which flag comes from which bit of the flags/fragment word. RFC 791 puts
      the reserved bit at bit 15 and MF at bit 13; the source's constants read
      them the other way round. */
  lemma FlagsOfBits(word: nat)
    ensures Reserved in FlagsOf(word / 8192) <==> Bit(word, 13)
    ensures DF in FlagsOf(word / 8192) <==> Bit(word, 14)
    ensures MF in FlagsOf(word / 8192) <==> Bit(word, 15)
  {
    assert Pow2(13) == 8192;
    var w := word / 8192;
    ShrDiv(word, 13);
    assert w == Shr(word, 13);
    ShrBit(word, 13, 0);
    ShrBit(word, 13, 1);
    ShrBit(word, 13, 2);
  }

  /** Against section 3.1 of RFC 791, where bit 15 of the word is reserved,
      bit 14 is DF and bit 13 is MF, Reserved and MF come out swapped: a word
      with only the RFC's MF bit decodes as `{Reserved}`, one with only the
      RFC's reserved bit as `{MF}`; DF is where the RFC has it. */
  lemma RfcReservedAndMfSwapped()
    ensures FlagsOf(0x2000 / 8192) == {Reserved}
    ensures FlagsOf(0x4000 / 8192) == {DF}
    ensures FlagsOf(0x8000 / 8192) == {MF}
  {
    RfcWord(1, Reserved);
    RfcWord(2, DF);
    RfcWord(4, MF);
  }

  lemma RfcWord(w: nat, only: IpFlag)
    requires w == only.Value()
    ensures FlagsOf(w) == {only}
  {
    assert Pow2(0) == 1 && Pow2(1) == 2 && Pow2(2) == 4;
    forall f: IpFlag
      ensures f in FlagsOf(w) <==> f == only
    {
      match f
      case Reserved => assert Bit(w, 0) <==> only == Reserved;
      case DF => assert Bit(w, 1) <==> only == DF;
      case MF => assert Bit(w, 2) <==> only == MF;
    }
  }

  /** The three flag bits of a flag set, Reserved lowest, as `of` expects them
      after the shift. */
  function FlagBits(s: set<IpFlag>): (w: nat)
    ensures w < 8
  {
    assert Pow2(3) == 8;
    FromBits([Reserved in s, DF in s, MF in s])
  }

  /** The IP flag values are distinct single bits, so a flag set survives the
      trip through its bits unchanged. */
  lemma FlagsRoundTrip(s: set<IpFlag>)
    ensures FlagsOf(FlagBits(s)) == s
  {
    var bits := [Reserved in s, DF in s, MF in s];
    assert Pow2(0) == 1 && Pow2(1) == 2 && Pow2(2) == 4;
    forall k | 0 <= k < 3
      ensures AndNonZero(Pow2(k), FromBits(bits)) <==> bits[k]
    {
      FromBitsBit(bits, k);
      AndPow2(k, FromBits(bits));
    }
    assert AllIpFlags == {Reserved, DF, MF};
    forall f
      ensures f in FlagsOf(FlagBits(s)) <==> f in s
    {
      match f
      case Reserved => assert AndNonZero(Pow2(0), FromBits(bits)) <==> bits[0];
      case DF => assert AndNonZero(Pow2(1), FromBits(bits)) <==> bits[1];
      case MF => assert AndNonZero(Pow2(2), FromBits(bits)) <==> bits[2];
    }
  }

  /** `ECN.of`: the first constant with the given value; none matching throws. */
  function EcnOf(v: int): (r: Option<Ecn>)
    ensures r.Some? <==> 0 <= v < 4
    ensures r.Some? ==> r.value.Value() == v
  {
    if v == NonECT.Value() then Some(NonECT)
    else if v == ECT1.Value() then Some(ECT1)
    else if v == ECT0.Value() then Some(ECT0)
    else if v == CE.Value() then Some(CE)
    else None
  }

  lemma EcnRoundTrip(e: Ecn)
    ensures EcnOf(e.Value()) == Some(e)
  {
  }

  /** `IP.Companion.of`: read the fixed 20 bytes, then the option area with a
      budget of `ihl - 5` (not scaled by 4), then hand the rest to the context.
      The payload is stored directly, without the setter's hook. Running out of
      bytes, in the fixed part or inside the option decoder, is caught and
      gives null. */
  function Of(bs: seq<byte>, optionOf: OptionDecoder, context: Context): (r: Option<Ip>)
    requires Progress(optionOf)
    ensures r.Some? ==> |bs| >= 20
    ensures r.Some? ==>
      && 0 <= r.value.version < 16
      && r.value.ihl.Some? && 0 <= r.value.ihl.value < 16
      && r.value.tos < 64
      && r.value.flags.Some?
      && (r.value.ihl.value <= 5 ==> r.value.options == [])
  {
    var fixed :- ReadFixed(bs);
    OptionArea(fixed, optionOf, context)
  }

  /** The rest of `of` once the fixed part is read: the option loop with a
      budget of `ihl - 5`, then the payload the context makes of what is left. */
  function OptionArea(fixed: Read<Ip>, optionOf: OptionDecoder, context: Context): (r: Option<Ip>)
    requires Progress(optionOf) && fixed.item.ihl.Some?
    ensures var run := OptionLoop(optionOf, fixed.item.ihl.value - 5, fixed.rest);
      && (r.Some? <==> !run.threw)
      && (r.Some? ==> r.value.options == run.options)
      && (r.Some? ==> r.value.(payload := fixed.item.payload) == fixed.item.(options := run.options))
      && (r.Some? ==> r.value.payload == context(IpLayer(fixed.item.(options := run.options)), run.rest))
  {
    var run := OptionLoop(optionOf, fixed.item.ihl.value - 5, fixed.rest);
    if run.threw then None                                 // the catch around the whole decoder
    else
    var ip := fixed.item.(options := run.options);
    Some(ip.(payload := context(IpLayer(ip), run.rest)))
  }

  /** The reads of `of` up to the destination address: the header with no
      options and no payload yet, and the bytes that follow it. */
  function ReadFixed(bs: seq<byte>): (r: Option<Read<Ip>>)
    ensures r.Some? ==> |bs| >= 20 && r.value.rest == bs[20..]
    ensures r.Some? ==>
      && 0 <= r.value.item.version < 16
      && r.value.item.ihl.Some? && 0 <= r.value.item.ihl.value < 16
      && r.value.item.tos < 64
      && r.value.item.flags.Some?
      && r.value.item.options == []
  {
    var first :- ReadU8(bs);
    var second :- ReadU8(first.rest);
    var version: int := first.item / 16;                  // shr 4
    var ihl: int := ClearLeftBits(first.item, 4);
    var tos: nat := second.item / 4;                      // shr 2
    match EcnOf(ClearLeftBits(second.item, 6))
    case None => None                                      // `ECN.of` finds no constant
    case Some(ecn) =>
      var length :- ReadU16(second.rest);
      var id :- ReadU16(length.rest);
      var fourth :- ReadU16(id.rest);
      var flags := FlagsOf(fourth.item / 8192);           // shr 13; the fragment offset is dropped
      var ttl :- ReadU8(fourth.rest);
      var proto :- ReadU8(ttl.rest);
      var chksum :- ReadU16(proto.rest);
      var src :- ReadU32(chksum.rest);
      var dst :- ReadU32(src.rest);
      var ip := Ip(version := version, ihl := Some(ihl), tos := tos, ecn := ecn,
                   len := Some(length.item), id := id.item, flags := Some(flags), ttl := ttl.item,
                   proto := Some(proto.item), chksum := Some(chksum.item),
                   src := Some(Address(src.item)), dst := Address(dst.item),
                   options := [], payload := None);
      Some(Read(ip, dst.rest))
  }

  /** The header `of` builds from the first 20 bytes, before the payload is attached. */
  function FixedHeader(bs: seq<byte>, options: seq<Opt>): Ip
    requires |bs| >= 20
  {
    Ip(version := bs[0] / 16, ihl := Some(bs[0] % 16), tos := bs[1] / 4, ecn := EcnOf(bs[1] % 4).value,
       len := Some(Be16(bs[2], bs[3])), id := Be16(bs[4], bs[5]),
       flags := Some(FlagsOf(Be16(bs[6], bs[7]) / 8192)), ttl := bs[8], proto := Some(bs[9]),
       chksum := Some(Be16(bs[10], bs[11])), src := Some(Address(Be32(bs[12], bs[13], bs[14], bs[15]))),
       dst := Address(Be32(bs[16], bs[17], bs[18], bs[19])), options := options, payload := None)
  }

  /** What `of` returns, stated by byte position: nothing for fewer than 20
      bytes or when the option decoder throws; otherwise the header of the
      first 20 bytes, the options the loop reads from byte 20 on with budget
      `ihl - 5`, and the payload the context makes of what the loop leaves. */
  function Decoded(bs: seq<byte>, optionOf: OptionDecoder, context: Context): Option<Ip>
    requires Progress(optionOf)
  {
    if |bs| < 20 then None
    else
      var run := OptionLoop(optionOf, bs[0] as int % 16 - 5, bs[20..]);
      if run.threw then None
      else
        var header := FixedHeader(bs, run.options);
        Some(header.(payload := context(IpLayer(header), run.rest)))
  }

  /** The fixed part is exactly the first 20 bytes, field by field in wire
      order and big-endian, and the option area starts right after it. */
  lemma OfFields(bs: seq<byte>, optionOf: OptionDecoder, context: Context)
    requires Progress(optionOf)
    ensures Of(bs, optionOf, context) == Decoded(bs, optionOf, context)
  {
    ReadsFixedPart(bs);
    if |bs| >= 20 {
      AreaAfterFixed(bs, optionOf, context);
    }
  }

  lemma AreaAfterFixed(bs: seq<byte>, optionOf: OptionDecoder, context: Context)
    requires Progress(optionOf) && |bs| >= 20
    ensures OptionArea(Read(FixedHeader(bs, []), bs[20..]), optionOf, context) == Decoded(bs, optionOf, context)
  {
    var run := OptionLoop(optionOf, bs[0] as int % 16 - 5, bs[20..]);
    WithOptions(bs, run.options);
  }

  lemma WithOptions(bs: seq<byte>, options: seq<Opt>)
    requires |bs| >= 20
    ensures FixedHeader(bs, []).(options := options) == FixedHeader(bs, options)
  {
  }

  /** The fixed part fails exactly on fewer than 20 bytes, and otherwise is
      `FixedHeader` followed by everything from byte 20 on. */
  lemma ReadsFixedPart(bs: seq<byte>)
    ensures ReadFixed(bs) == if |bs| < 20 then None else Some(Read(FixedHeader(bs, []), bs[20..]))
  {
    if |bs| >= 20 {
      FixedReads(bs);
    }
  }

  lemma FixedReads(bs: seq<byte>)
    requires |bs| >= 20
    ensures ClearLeftBits(bs[0], 4) == bs[0] % 16 && ClearLeftBits(bs[1], 6) == bs[1] % 4
    ensures EcnOf(ClearLeftBits(bs[1], 6)).Some?
    ensures bs[1..][1..] == bs[2..] && bs[2..][2..] == bs[4..] && bs[4..][2..] == bs[6..]
    ensures bs[6..][2..] == bs[8..] && bs[8..][1..] == bs[9..] && bs[9..][1..] == bs[10..]
    ensures bs[10..][2..] == bs[12..] && bs[12..][4..] == bs[16..] && bs[16..][4..] == bs[20..]
  {
    assert Pow2(4) == 16 && Pow2(2) == 4;
  }

  /** `of` gives a header exactly when there are 20 bytes and the option
      decoder does not throw inside the option area. */
  lemma OfSucceeds(bs: seq<byte>, optionOf: OptionDecoder, context: Context)
    requires Progress(optionOf)
    ensures Of(bs, optionOf, context).Some?
            <==> |bs| >= 20 && !OptionLoop(optionOf, bs[0] as int % 16 - 5, bs[20..]).threw
  {
    OfFields(bs, optionOf, context);
  }

  /** An IHL above 5 with a decoder that throws at byte 20 (for instance IHL 15
      on a bare 20-byte buffer) loses the whole packet. */
  lemma ThrowingOptionDropsPacket(bs: seq<byte>, optionOf: OptionDecoder, context: Context)
    requires Progress(optionOf)
    requires |bs| >= 20 && bs[0] % 16 > 5 && optionOf(bs[20..]).Threw?
    ensures Of(bs, optionOf, context) == None
  {
    OfFields(bs, optionOf, context);
  }

  /** The decoded header's `proto` is the wire byte even when the context
      returns a TCP payload: decoding does not run the setter's hook. */
  lemma DecodeKeepsProto(bs: seq<byte>, optionOf: OptionDecoder, context: Context)
    requires Progress(optionOf)
    ensures Of(bs, optionOf, context).Some? ==> Of(bs, optionOf, context).value.proto == Some(bs[9] as nat)
  {
    OfFields(bs, optionOf, context);
  }

  lemma FlagWordHigh(hi: byte, lo: byte)
    ensures Be16(hi, lo) / 8192 == hi / 32
  {
    DivUnique(Be16(hi, lo), 8192, hi / 32, (hi % 32) * 256 + lo);
  }

  lemma DecodedIgnoresOffset(bs: seq<byte>, bs': seq<byte>, optionOf: OptionDecoder, context: Context)
    requires Progress(optionOf)
    requires |bs| == |bs'| >= 20
    requires forall i :: 0 <= i < |bs| && i != 6 && i != 7 ==> bs[i] == bs'[i]
    requires bs[6] / 32 == bs'[6] / 32
    ensures Decoded(bs', optionOf, context) == Decoded(bs, optionOf, context)
  {
    assert bs[0] == bs'[0];
    assert bs[20..] == bs'[20..];
    var run := OptionLoop(optionOf, bs[0] as int % 16 - 5, bs[20..]);
    FixedIgnoresOffset(bs, bs', run.options);
  }

  lemma FixedIgnoresOffset(bs: seq<byte>, bs': seq<byte>, options: seq<Opt>)
    requires |bs| == |bs'| >= 20
    requires forall i :: 0 <= i < |bs| && i != 6 && i != 7 ==> bs[i] == bs'[i]
    requires bs[6] / 32 == bs'[6] / 32
    ensures FixedHeader(bs', options) == FixedHeader(bs, options)
  {
    FlagWordHigh(bs[6], bs[7]);
    FlagWordHigh(bs'[6], bs'[7]);
    assert bs[0] == bs'[0] && bs[1] == bs'[1] && bs[2] == bs'[2] && bs[3] == bs'[3];
    assert bs[4] == bs'[4] && bs[5] == bs'[5] && bs[8] == bs'[8] && bs[9] == bs'[9];
    assert bs[10] == bs'[10] && bs[11] == bs'[11] && bs[12] == bs'[12] && bs[13] == bs'[13];
    assert bs[14] == bs'[14] && bs[15] == bs'[15] && bs[16] == bs'[16] && bs[17] == bs'[17];
    assert bs[18] == bs'[18] && bs[19] == bs'[19];
  }

  /** The low 13 bits of the fourth word (the fragment offset) are stored
      nowhere: inputs that differ only there decode to the same header. */
  lemma FragmentOffsetIgnored(bs: seq<byte>, bs': seq<byte>, optionOf: OptionDecoder, context: Context)
    requires Progress(optionOf)
    requires |bs| == |bs'| >= 20
    requires forall i :: 0 <= i < |bs| && i != 6 && i != 7 ==> bs[i] == bs'[i]
    requires bs[6] / 32 == bs'[6] / 32
    ensures Of(bs, optionOf, context) == Of(bs', optionOf, context)
  {
    OfFields(bs, optionOf, context);
    OfFields(bs', optionOf, context);
    DecodedIgnoresOffset(bs, bs', optionOf, context);
  }

  /** The option budget counts 32-bit words as if they were bytes: with IHL 6
      and a NOP-only option area only the first of its four bytes is read as
      an option, and the other three are handed to the context as payload. */
  lemma NopAreaUnderRead(bs: seq<byte>, optionOf: OptionDecoder, context: Context, nop: Opt)
    requires Progress(optionOf) && nop.Nop?
    requires |bs| >= 24 && bs[0] % 16 == 6
    requires forall k :: 20 <= k < 24 ==> optionOf(bs[k..]) == Got(nop, bs[k + 1..])
    ensures
      var header := FixedHeader(bs, [nop]);
      Of(bs, optionOf, context) == Some(header.(payload := context(IpLayer(header), bs[21..])))
  {
    assert optionOf(bs[20..]) == Got(nop, bs[21..]);
    LoopUnfold(optionOf, 1, bs[20..]);
    assert OptionLoop(optionOf, 1, bs[20..]) == OptionRun([nop], bs[21..], false);
    OfFields(bs, optionOf, context);
  }

  /** One 4-byte option under IHL 6: it is read and kept, and the budget
      (1 - 4) goes negative rather than reaching 0; the context gets the bytes
      after the option. */
  lemma SingleOptionArea(bs: seq<byte>, optionOf: OptionDecoder, context: Context, o: Opt)
    requires Progress(optionOf) && o.Other? && o.length == 4
    requires |bs| >= 24 && bs[0] % 16 == 6
    requires optionOf(bs[20..]) == Got(o, bs[24..])
    ensures
      var header := FixedHeader(bs, [o]);
      Of(bs, optionOf, context) == Some(header.(payload := context(IpLayer(header), bs[24..])))
  {
    OfFields(bs, optionOf, context);
    LoopUnfold(optionOf, 1, bs[20..]);
    assert OptionLoop(optionOf, 1, bs[20..]) == OptionRun([o], bs[24..], false);
  }

  /** `headerSize()`: the shared formula over this header's options. */
  function HeaderSize(ip: Ip): (size: nat)
    ensures size >= 20
    ensures size == 20 <==> ip.options == []
    ensures size == 20 + OptionBytes(ip.options) + OptionBytes(ip.options) % 4
  {
    OptionCodec.HeaderSize(ip.options)
  }

  /** The `payload` setter: store the new payload, then, if it is aware of its
      carrier (in this model TCP is the one such protocol), let it update this
      header. */
  function SetPayload(ip: Ip, value: Option<Protocol>): (r: Ip)
    ensures r.payload == value
    ensures value.Some? && value.value.TcpLayer? ==> r.proto == Some(ProtoTcp as nat)
    ensures !(value.Some? && value.value.TcpLayer?) ==> r.proto == ip.proto
    ensures r.(payload := ip.payload, proto := ip.proto) == ip
  {
    var stored := ip.(payload := value);
    match value
    case Some(TcpLayer(_)) => TcpHeader.OnPayload(stored)
    case _ => stored
  }

  /** Stacking TCP under an IP header leaves `proto` at TCP's number whatever
      the header carried before. */
  lemma StackTcpOverrides(ip: Ip, previous: Option<Protocol>, tcp: Tcp)
    ensures SetPayload(SetPayload(ip, previous), Some(TcpLayer(tcp))).proto == Some(ProtoTcp as nat)
    ensures SetPayload(SetPayload(ip, previous), Some(TcpLayer(tcp))).payload == Some(TcpLayer(tcp))
  {
  }

  /** `onPayload(ether)`: an IP payload marks its link-layer carrier as IP. */
  function OnPayloadEther(ether: Ether): (r: Ether)
    ensures r.etherType == EtherTypeIp
    ensures r.(etherType := ether.etherType) == ether
  {
    ether.(etherType := EtherTypeIp)
  }
}
