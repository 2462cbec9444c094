/** The protocol instances: the IP and TCP headers with their payload link,
    the flag and ECN enumerations, and the carrier fields the layers set on
    each other. */
module Packets {
  import opened Wrappers
  import opened Bytes
  import opened OptionCodec

  /** `IP.Flag`, with the bit values of the source (after `shr 13`). */
  datatype IpFlag = Reserved | DF | MF {
    function Value(): nat {
      match this
      case Reserved => 0x1
      case DF => 0x2
      case MF => 0x4
    }
  }

  const AllIpFlags: set<IpFlag> := {Reserved, DF, MF}

  /** `IP.ECN`: the two congestion-notification bits. */
  datatype Ecn = NonECT | ECT1 | ECT0 | CE {
    function Value(): nat {
      match this
      case NonECT => 0
      case ECT1 => 1
      case ECT0 => 2
      case CE => 3
    }
  }

  /** `TCP.Flag`, with the values of the source; NS is 0x160, not 0x100. */
  datatype TcpFlag = FIN | SYN | RST | PSH | ACK | URG | ECE | CWR | NS {
    function Value(): nat {
      match this
      case FIN => 0x01
      case SYN => 0x02
      case RST => 0x04
      case PSH => 0x08
      case ACK => 0x10
      case URG => 0x20
      case ECE => 0x40
      case CWR => 0x80
      case NS => 0x160
    }
  }

  const AllTcpFlags: set<TcpFlag> := {FIN, SYN, RST, PSH, ACK, URG, ECE, CWR, NS}

  /** `IP.Address`: a 32-bit address. */
  datatype Address = Address(raw: nat)

  /** `IP.Protocol.TCP`, the `proto` value TCP's `onPayload` writes. */
  const ProtoTcp: byte := 6

  /** A protocol instance that can be carried as a payload. `Raw` is the opaque
      fallback of the serialization context. */
  datatype Protocol =
    | IpLayer(ip: Ip)
    | TcpLayer(tcp: Tcp)
    | Raw(load: seq<byte>)

  /** The IP header; `Option` fields are Kotlin's nullable fields. */
  datatype Ip = Ip(
    version: int,
    ihl: Option<int>,
    tos: nat,
    ecn: Ecn,
    len: Option<nat>,
    id: nat,
    flags: Option<set<IpFlag>>,
    ttl: nat,
    proto: Option<nat>,
    chksum: Option<nat>,
    src: Option<Address>,
    dst: Address,
    options: seq<Opt>,
    payload: Option<Protocol>)

  /** The TCP header. The source's fields `seq` and `ack` are `seqNum` and `ackNum`. */
  datatype Tcp = Tcp(
    sport: Option<nat>,
    dport: Option<nat>,
    seqNum: nat,
    ackNum: nat,
    dataofs: Option<int>,
    reserved: int,
    flags: set<TcpFlag>,
    window: nat,
    chksum: Option<nat>,
    urgptr: nat,
    options: seq<Opt>,
    payload: Option<Protocol>)

  /** The link-layer carrier, reduced to the one field IP sets on it. */
  datatype EtherType = EtherTypeIp | EtherTypeCode(code: nat)
  datatype Ether = Ether(etherType: EtherType, payload: Option<Protocol>)

  /** The serialization context: given the header just decoded (payload not
      yet attached) and the bytes after it, the payload instance or null. */
  type Context = (Protocol, seq<byte>) -> Option<Protocol>

  /** `IP()`: version 4, id 1, ttl 64, proto 0, no flags, destination 127.0.0.1. */
  const DefaultIp: Ip :=
    Ip(version := 4, ihl := None, tos := 0, ecn := NonECT, len := None, id := 1, flags := Some({}),
       ttl := 64, proto := Some(0), chksum := None, src := None, dst := Address(0x7F00_0001),
       options := [], payload := None)

  /** `TCP()`: ports 20 -> 80, flags {SYN}, window 8192, everything else zero or null. */
  const DefaultTcp: Tcp :=
    Tcp(sport := Some(20), dport := Some(80), seqNum := 0, ackNum := 0, dataofs := None, reserved := 0,
        flags := {SYN}, window := 8192, chksum := None, urgptr := 0, options := [], payload := None)
}
