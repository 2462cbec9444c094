# Skaty packet decoding, modelled in Dafny

Skaty is a Kotlin packet library in the style of Scapy. This project models
the part that turns bytes into protocol instances:

- `IP.Companion.of` decodes the 20-byte IPv4 header of section 3.1 of RFC 791
  and then its option area.
- `TCP.Companion.of` decodes the 20-byte TCP header of section 3.1 of RFC 9293
  and then its option area.
- Both headers share the option loop and the `headerSize` formula.
- The layers touch each other when stacked: the IP `payload` setter calls the
  new payload's `onPayload`, TCP's `onPayload` sets the carrier's protocol
  number to 6, and IP's `onPayload(ether)` marks the Ethernet type as IP.
- `Help.cleanTypeName` is a small recursive string rewrite that strips package
  qualifiers from a type name, including inside its generic arguments.

Everything is pure.

- The byte buffer is a `seq<byte>`.
- The reader (`SimpleReader`) is a set of big-endian `Read*` functions that
  return the value read and the bytes that remain, or `None` when too few
  bytes are left.
- A decode that fails returns `None`, which stands for Kotlin's `null` from
  the `catch`. This covers a short fixed part and an exception thrown by the
  option decoder alike.

Two collaborators are not part of this model. They are parameters instead:

- the per-protocol option decoder (`IPOption.of` / `TCPOption.of`). It has
  three outcomes: an option, `null` (possibly after consuming some bytes of
  the shared reader), or an exception. The model only assumes it consumes
  bytes from the front, and at least one when it yields an option (`Progress`);
- the serialization context (`SerializationContext.serialize`). It receives
  the decoded header and the bytes after it, and returns the payload or
  nothing.

The behaviour of the code is kept where it departs from the RFCs:

- The IP option budget is `ihl - 5`, not `(ihl - 5) * 4`.
- The IP flag constants after `shr 13` put Reserved at 0x1 and MF at 0x4.
  RFC 791 has these two bits the other way round.
- TCP's `NS` constant is 0x160. It is therefore also set by URG's and ECE's bits.
- `headerSize` is `20 + b + b % 4`, which is not always a multiple of 4.

Section 3.1 of RFC 791 defines IHL as the header length in 32-bit words, so
the option area is `(ihl - 5) * 4` bytes long, and with an IHL of 6 one 4-byte
option would use it up exactly. The code's budget is `ihl - 5`, so that option
takes it from 1 to -3, and a NOP-filled option word yields one NOP with the
other three bytes left to the payload. The model follows the code
(`IpHeader.SingleOptionArea`, `IpHeader.NopAreaUnderRead`).

The defaults of the Kotlin constructors are the constants `Packets.DefaultIp`
and `Packets.DefaultTcp`; the `Defaults` module checks them against the
decoders.

Files:

| file | contents |
|---|---|
| `wrappers.dfy` | `Option` with failure propagation |
| `bytes.dfy` | bytes, the big-endian reader, bit arithmetic (`Bit`, `AndNonZero` for Kotlin's `a and b != 0`) |
| `options.dfy` | the option entry, the budget-bounded option loop, the `headerSize` formula |
| `packets.dfy` | the IP, TCP and Ethernet instances, the flag and ECN enumerations, protocol numbers, defaults |
| `ip.dfy` | `IP.Companion.of`, the flag and ECN decoding, the payload setter, `onPayload(ether)` |
| `tcp.dfy` | `TCP.Companion.of`, the flag decoding with NS, `onPayload(ip)` |
| `defaults.dfy` | the default headers read back from their wire form |
| `help.dfy` | `cleanTypeName` |

## Model

| member | source | states |
|---|---|---|
| OptionCodec.OptionLoop | src/main/java/com/yoavst/skaty/protocols/layer3/IP.kt:79-90 | The loop only consumes a prefix of the buffer, and reads at most one option per byte consumed. A budget of 0 or less reads nothing, consumes nothing and does not throw. An end-of-options entry can only be the last option kept. |
| OptionCodec.OptionLoopSound | src/main/java/com/yoavst/skaty/protocols/layer3/IP.kt:79-90 | The loop's result is described without the loop. The options are the decoder's entries one after another from the front, in decode order. The budget minus the costs so far (NOP 1, others their length) is positive before each entry. Only the last entry may be end-of-options. After the last entry, either nothing more is read (end-of-options, or a budget at or below 0), or the decoder returned `null` and the rest is what it left, or it threw and the run is marked as thrown. |
| OptionCodec.OptionLoopUnique | src/main/java/com/yoavst/skaty/protocols/layer4/TCP.kt:66-77 | Conversely, any run (options, rest, thrown or not) that satisfies that description is exactly what the loop returns. |
| OptionCodec.NopRun | src/main/java/com/yoavst/skaty/protocols/layer3/IP.kt:81-89 | A NOP costs one unit of budget. Over a run of NOP bytes, a budget of n reads exactly n NOPs, leaves the buffer just after them and does not throw. |
| OptionCodec.OptionBytes | src/main/java/com/yoavst/skaty/protocols/layer3/IP.kt:45-48 | The summed option bytes (a zero length counts as 1) are at least the number of options. |
| OptionCodec.HeaderSize | src/main/java/com/yoavst/skaty/protocols/layer3/IP.kt:44-50 | The size is at least 20 plus the option bytes. It is exactly 20 iff there are no options. It is 20 plus the option bytes when those are a multiple of 4. It is 4-aligned iff the option bytes are even. |
| OptionCodec.HeaderSizeNotAligned | src/main/java/com/yoavst/skaty/protocols/layer4/TCP.kt:34-40 | The formula does not round up: one 1-byte option gives 22, and a 7-byte option gives 30 rather than 28. |
| IpHeader.FlagsOf | src/main/java/com/yoavst/skaty/protocols/layer3/IP.kt:71 | Reserved is in the decoded set iff bit 0 of the shifted word is set, DF iff bit 1, MF iff bit 2. |
| IpHeader.FlagsOfBits | src/main/java/com/yoavst/skaty/protocols/layer3/IP.kt:68-71 | After `shr 13`, Reserved is decoded iff bit 13 of the fourth word is set, DF iff bit 14, and MF iff bit 15. |
| IpHeader.RfcReservedAndMfSwapped | src/main/java/com/yoavst/skaty/protocols/layer3/IP.kt:68-71 | Read with the source's flag constants, a word carrying only RFC 791's MF bit (0x2000) decodes as `{Reserved}`, only its reserved bit (0x8000) as `{MF}`; only DF (0x4000) lands where the RFC puts it. |
| IpHeader.FlagsRoundTrip | src/main/java/com/yoavst/skaty/protocols/layer3/IP.kt:108-112 | The three flag values are distinct single bits, so any flag set decodes back from its bits unchanged. |
| IpHeader.EcnOf | src/main/java/com/yoavst/skaty/protocols/layer3/IP.kt:114-122 | `ECN.of` finds a constant exactly for 0..3, and the constant found has that value. Otherwise it fails. |
| IpHeader.EcnRoundTrip | src/main/java/com/yoavst/skaty/protocols/layer3/IP.kt:114-122 | Every ECN constant is found again from its value. |
| IpHeader.Of | src/main/java/com/yoavst/skaty/protocols/layer3/IP.kt:56-100 | Decoding needs at least 20 bytes. Version and IHL are nibbles, TOS is below 64, and a flag set is always present. An IHL of 5 or less reads no options. |
| IpHeader.ReadFixed | src/main/java/com/yoavst/skaty/protocols/layer3/IP.kt:57-77 | The fixed part reads only when at least 20 bytes are present, and leaves exactly the bytes after the first 20. Version and IHL are nibbles, TOS is below 64, a flag set is present, and no options are read yet; the field values are stated by `IpHeader.ReadsFixedPart`. |
| IpHeader.ReadsFixedPart | src/main/java/com/yoavst/skaty/protocols/layer3/IP.kt:57-77 | The fixed part fails exactly below 20 bytes. Otherwise it is the header of bytes 0..19, field by field in wire order and big-endian, followed by the bytes from 20 on; so ECN decoding never fails. |
| IpHeader.OptionArea | src/main/java/com/yoavst/skaty/protocols/layer3/IP.kt:79-94 | After the fixed part, the result is `null` exactly when the loop with budget `ihl - 5` over the remaining bytes throws. Otherwise it is the fixed header with every field kept, the loop's options, and as payload what the context makes of the bytes the loop leaves. |
| IpHeader.OfFields | src/main/java/com/yoavst/skaty/protocols/layer3/IP.kt:56-100 | Below 20 bytes, or when the option decoder throws, the result is `null`. Otherwise it is the header of bytes 0..19, field by field in wire order and big-endian. Its options are the loop from byte 20 with budget `ihl - 5`. Its payload is what the context makes of the bytes the loop leaves. |
| IpHeader.OfSucceeds | src/main/java/com/yoavst/skaty/protocols/layer3/IP.kt:97-100 | Decoding gives a header iff at least 20 bytes are present and the option loop from byte 20 does not throw (the context is assumed not to throw); so ECN decoding never fails. |
| IpHeader.ThrowingOptionDropsPacket | src/main/java/com/yoavst/skaty/protocols/layer3/IP.kt:79-100 | With an IHL above 5, a decoder that throws at byte 20 (as reading past the end of a bare 20-byte buffer does) makes the whole decode `null`, not a header without options. |
| IpHeader.DecodeKeepsProto | src/main/java/com/yoavst/skaty/protocols/layer3/IP.kt:92-94 | Decoding stores `proto` as the wire byte even when the payload is TCP: `_payload` is set directly, so the setter's hook does not run. |
| IpHeader.FragmentOffsetIgnored | src/main/java/com/yoavst/skaty/protocols/layer3/IP.kt:68-71 | Two buffers that differ only in the 13-bit fragment offset decode to the same result, so the offset is stored nowhere. |
| IpHeader.NopAreaUnderRead | src/main/java/com/yoavst/skaty/protocols/layer3/IP.kt:79-96 | With IHL 6 and a NOP-filled option word, decoding succeeds with exactly one NOP, and the context receives the buffer from byte 21. |
| IpHeader.SingleOptionArea | src/main/java/com/yoavst/skaty/protocols/layer3/IP.kt:79-96 | With IHL 6 and one 4-byte option, decoding succeeds with that option as the only one kept, and the context receives the buffer from byte 24. |
| IpHeader.HeaderSize | src/main/java/com/yoavst/skaty/protocols/layer3/IP.kt:44-50 | IP's size is at least 20, exactly 20 iff there are no options, and follows the shared formula. |
| IpHeader.SetPayload | src/main/java/com/yoavst/skaty/protocols/layer3/IP.kt:30-35 | The setter stores the new payload. A TCP payload sets `proto` to 6; any other payload leaves `proto` alone. No other field changes. |
| IpHeader.StackTcpOverrides | src/main/java/com/yoavst/skaty/protocols/layer3/IP.kt:30-35 | Whatever payload was set before, setting a TCP payload leaves `proto` at 6 and the TCP instance as payload. |
| IpHeader.OnPayloadEther | src/main/java/com/yoavst/skaty/protocols/layer3/IP.kt:37-39 | The carrier's Ethernet type becomes IP, and nothing else in it changes. |
| TcpHeader.FlagsOf | src/main/java/com/yoavst/skaty/protocols/layer4/TCP.kt:57-61 | FIN..CWR are each decoded iff their bit 0..7 of the flag byte is set. NS is decoded iff the offset byte's low bit, flag bit 5 or flag bit 6 is set, so a decoded URG or ECE always brings NS with it. |
| TcpHeader.NsMask | src/main/java/com/yoavst/skaty/protocols/layer4/TCP.kt:91-101 | Testing NS's value 0x160 against a byte is testing bits 5 and 6, which belong to URG and ECE. |
| TcpHeader.FlagsRoundTrip | src/main/java/com/yoavst/skaty/protocols/layer4/TCP.kt:57-61 | Decoding the wire bits of a flag set gives the set plus NS when URG or ECE is in it. So the result is a superset, equal exactly when no extra NS is added. |
| TcpHeader.Of | src/main/java/com/yoavst/skaty/protocols/layer4/TCP.kt:47-87 | Decoding needs at least 20 bytes. The data offset is a nibble and `reserved` is below 8. A data offset of 5 or less reads no options. |
| TcpHeader.ReadFixed | src/main/java/com/yoavst/skaty/protocols/layer4/TCP.kt:48-64 | The fixed part reads only when at least 20 bytes are present, and leaves exactly the bytes after the first 20. The data offset is a nibble, `reserved` is below 8, and no options are read yet; the field values are stated by `TcpHeader.ReadsFixedPart`. |
| TcpHeader.ReadsFixedPart | src/main/java/com/yoavst/skaty/protocols/layer4/TCP.kt:48-64 | The fixed part fails exactly below 20 bytes. Otherwise it is the header of bytes 0..19 in wire order, big-endian, with `reserved` as bits 1..3 of the offset byte, followed by the bytes from 20 on. |
| TcpHeader.OptionArea | src/main/java/com/yoavst/skaty/protocols/layer4/TCP.kt:66-81 | After the fixed part, the result is `null` exactly when the loop with budget `(dataofs - 5) * 4` over the remaining bytes throws. Otherwise it is the fixed header with every field kept, the loop's options, and as payload what the context makes of the bytes the loop leaves. |
| TcpHeader.OfFields | src/main/java/com/yoavst/skaty/protocols/layer4/TCP.kt:47-87 | Below 20 bytes, or when the option decoder throws, the result is `null`. Otherwise it is the header of bytes 0..19 in wire order, big-endian. `reserved` is bits 1..3 of the offset byte. The options are the loop from byte 20 with budget `(dataofs - 5) * 4`. The payload is what the context makes of the rest. |
| TcpHeader.OfSucceeds | src/main/java/com/yoavst/skaty/protocols/layer4/TCP.kt:84-87 | Decoding gives a header iff at least 20 bytes are present and the option loop from byte 20 does not throw (the context is assumed not to throw). |
| TcpHeader.ThrowingOptionDropsSegment | src/main/java/com/yoavst/skaty/protocols/layer4/TCP.kt:66-87 | With a data offset above 5, a decoder that throws at byte 20 makes the whole decode `null`. |
| TcpHeader.ReservedBits | src/main/java/com/yoavst/skaty/protocols/layer4/TCP.kt:55 | `(b shl 4) shr 5` on an unsigned byte keeps bits 1..3 of b. |
| TcpHeader.NopArea | src/main/java/com/yoavst/skaty/protocols/layer4/TCP.kt:66-81 | With a data offset of 6 and a NOP-filled option word, decoding succeeds with all four NOPs, and the context receives the buffer from byte 24. |
| TcpHeader.HeaderSize | src/main/java/com/yoavst/skaty/protocols/layer4/TCP.kt:34-40 | TCP's size is at least 20, exactly 20 iff there are no options, and follows the same formula as IP. |
| TcpHeader.OnPayload | src/main/java/com/yoavst/skaty/protocols/layer4/TCP.kt:26-28 | The carrier IP's `proto` becomes 6, and nothing else in it changes. |
| TcpHeader.SynOnly | src/main/java/com/yoavst/skaty/protocols/layer4/TCP.kt:57-61 | An offset byte with a clear low bit and a flag byte with only bit 1 set (the wire bits of the default `flagsOf(Flag.SYN)`) decode to exactly `{SYN}`. |
| Defaults.IpDefault | src/main/java/com/yoavst/skaty/protocols/layer3/IP.kt:15-28 | `Packets.DefaultIp` is what the decoder reads from version 4, IHL 5, id 1, ttl 64, proto 0, no flags and destination 127.0.0.1, except for the fields it leaves null. Stacking the default TCP header on it sets `proto` to 6. |
| Defaults.TcpDefault | src/main/java/com/yoavst/skaty/protocols/layer4/TCP.kt:14-25 | `Packets.DefaultTcp` is what the decoder reads from ports 20 and 80, data offset 5, flag byte 0x02 and window 8192, except for the fields it leaves null. |
| Defaults.DefaultSizes | src/main/java/com/yoavst/skaty/protocols/layer3/IP.kt:27 | Neither default has options, so `headerSize()` of both is 20. |
| Help.CleanTypeName | src/main/java/com/yoavst/skaty/utils/Help.kt:29-41 | A cleaned name never contains a '.' and is never longer than its input. |
| Help.CleanWithoutGenerics | src/main/java/com/yoavst/skaty/utils/Help.kt:30-35 | Without '<' the result is the longest suffix of the input that contains no '.'. It is preceded by a '.' when shorter than the input. |
| Help.CleanPlain | src/main/java/com/yoavst/skaty/utils/Help.kt:33-34 | A name with neither '.' nor '<' comes back unchanged. |
| Help.CleanQualifiedPlain | src/main/java/com/yoavst/skaty/utils/Help.kt:33-35 | `q.h` without generics cleans to `h`. |
| Help.CleanWithGenerics | src/main/java/com/yoavst/skaty/utils/Help.kt:36-40 | Let the first '<' be at g. The call fails iff that '<' is the last character or the inner part fails. Otherwise the result is the head after the last '.' before g, then '<', the cleaned text between g and the last character, and '>'. |
| Help.CleanGenericShape | src/main/java/com/yoavst/skaty/utils/Help.kt:37-39 | In the generic case the result ends in '>'. Its first '<' comes right after the head. |
| Help.CleanQualifiedGeneric | src/main/java/com/yoavst/skaty/utils/Help.kt:37-39 | `q.h<inner>x` cleans to `h<` + clean(inner) + `>`, whatever the last character x is. |
| Help.CleanTrailingOpen | src/main/java/com/yoavst/skaty/utils/Help.kt:38 | A first '<' that is the last character makes the substring bounds invert, and the call fails. |
| Help.CleanNestedFailure | src/main/java/com/yoavst/skaty/utils/Help.kt:38-39 | A failure in the inner part makes the whole name fail, at any nesting depth. |
| Help.DropsLastCharacter | src/main/java/com/yoavst/skaty/utils/Help.kt:38-39 | The last character is dropped unchecked and a '>' is written in its place: `a<b>x` cleans to `a<b>>`. |

## Left out

- Encoding (writing headers back to bytes): no writer is part of this model. The TCP flag round trip uses the layout of section 3.1 of RFC 9293; the IP one uses the source's own constant values (Reserved 0x1, MF 0x4 after `shr 13`), which put Reserved and MF the other way round from section 3.1 of RFC 791 (see `IpHeader.RfcReservedAndMfSwapped`).
- `SimpleReader` is reduced to big-endian reads that fail when too few bytes remain. Any other way it can throw is not modelled.
- `IPOption.of` / `TCPOption.of` are a parameter with three outcomes (an option, `null`, an exception); which bytes make which outcome is not part of this model. IP and TCP options share one entry type: NOP, end-of-options, or another kind with a length and data.
- `SerializationContext.serialize` is a parameter. It receives the header before the payload is attached, and an exception inside it is not modelled.
- `clearLeftBits` is not part of this model. It is assumed to keep the low `8 - n` bits.
- `unsigned` arithmetic: `Ubyte shl 4` is assumed to truncate to 8 bits before `shr 5`. The sign behaviour of `readByte().toUInt()` for the TCP flag byte is not modelled, and the byte is taken as 0..255.
- Ethernet is reduced to its type field, and the IP type code is kept symbolic (`EtherTypeIp`).
- Only TCP is an `IP.Aware` payload in this model. Other aware protocols are not part of it.
- `Packets.DefaultIp`: the destination `ip("127.0.0.1")` is taken as the raw value 0x7F000001 (the big-endian value of bytes 127, 0, 0, 1), because `ip(...)` is not part of this model.
- `Flags` / `Options` wrappers are plain sets and sequences.
- `toString`, `ToString.generate`, `Help.generate`, `IP.Protocol.format` and `KnownFormats`, and `Address.toString` / `toByteArray`: display code only.
- Logging (KLogging) is left out.
- The sample script is left out because its network functions are stubs.
- IpHeader.Of: its own contract states only bounds and that success needs 20 bytes. The exact success condition is stated by `IpHeader.OfSucceeds` and the field values by `IpHeader.OfFields`.
- TcpHeader.Of: likewise, the success condition is stated by `TcpHeader.OfSucceeds` and the field values by `TcpHeader.OfFields`.
- IpHeader.ReadFixed: its own contract states the bounds and the leftover bytes `bs[20..]`. The field values are stated by `IpHeader.ReadsFixedPart`.
- TcpHeader.ReadFixed: likewise, the field values are stated by `TcpHeader.ReadsFixedPart`.
- Help.CleanTypeName: a Dafny string is a sequence of Unicode scalar values, while Kotlin indexes UTF-16 code units. For a name ending in a character outside the Basic Multilingual Plane the model drops the whole character where Kotlin drops only its low surrogate (`A<B>𝔁` gives `A<B>\uD835>` in Kotlin). Names made of BMP characters behave the same.
