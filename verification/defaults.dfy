/** The default-constructed headers `IP()` and `TCP()` checked against the
    decoders: each is what `of` reads back from its own wire form, apart from
    the fields the defaults leave to be filled in. */
module Defaults {
  import opened Wrappers
  import opened Bytes
  import opened Packets
  import IpHeader
  import TcpHeader

  /** The default header `IP()` is what the decoder reads back from its own
      wire form (version 4, IHL 5, id 1, ttl 64, proto 0, no flags,
      destination 127.0.0.1), apart from the fields the defaults leave to be
      filled in, and stacking the default TCP header on it sets `proto` to TCP's number. */
  lemma IpDefault(bs: seq<byte>)
    requires |bs| >= 20 && bs[0] == 0x45 && bs[1] == 0 && bs[4] == 0 && bs[5] == 1
    requires bs[6] == 0 && bs[7] == 0 && bs[8] == 64 && bs[9] == 0
    requires bs[16] == 127 && bs[17] == 0 && bs[18] == 0 && bs[19] == 1
    ensures IpHeader.FixedHeader(bs, []).(ihl := None, len := None, chksum := None, src := None) == DefaultIp
    ensures IpHeader.SetPayload(DefaultIp, Some(TcpLayer(DefaultTcp))).proto == Some(ProtoTcp as nat)
  {
    assert IpHeader.FlagsOf(0) == {};
    assert Be32(127, 0, 0, 1) == 0x7F00_0001;
  }

  /** The default header `TCP()` is what the decoder reads back from its own
      wire form (ports 20 and 80, data offset 5, flag byte 0x02, window 8192),
      apart from the fields the defaults leave to be filled in: the flag byte
      0x02 decodes to exactly `{SYN}`. */
  lemma TcpDefault(bs: seq<byte>)
    requires |bs| >= 20 && bs[0] == 0 && bs[1] == 20 && bs[2] == 0 && bs[3] == 80
    requires bs[4] == bs[5] == bs[6] == bs[7] == 0 && bs[8] == bs[9] == bs[10] == bs[11] == 0
    requires bs[12] == 0x50 && bs[13] == 0x02 && bs[14] == 0x20 && bs[15] == 0
    requires bs[18] == 0 && bs[19] == 0
    ensures TcpHeader.FixedHeader(bs, []).(dataofs := None, chksum := None) == DefaultTcp
  {
    DefaultFlagBits();
    TcpHeader.SynOnly(bs[12], bs[13]);
    OffsetByte(bs[12]);
  }

  /** Offset byte 0x50: data offset 5, reserved bits clear. */
  lemma OffsetByte(b: byte)
    requires b == 0x50
    ensures b / 16 == 5 && (b % 16) / 2 == 0
  {
  }

  /** The bits of offset byte 0x50 and flag byte 0x02 that the flag decoding
      looks at: only bit 1 of the flag byte is set. */
  lemma DefaultFlagBits()
    ensures !Bit(0x50, 0) && Bit(0x02, 1)
    ensures !Bit(0x02, 0) && !Bit(0x02, 2) && !Bit(0x02, 3) && !Bit(0x02, 4)
    ensures !Bit(0x02, 5) && !Bit(0x02, 6) && !Bit(0x02, 7)
  {
  }

  /** Neither default carries options, so both sizes are the bare 20 bytes. */
  lemma DefaultSizes()
    ensures IpHeader.HeaderSize(DefaultIp) == 20
    ensures TcpHeader.HeaderSize(DefaultTcp) == 20
  {
  }
}
