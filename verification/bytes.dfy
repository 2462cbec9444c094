/** The byte buffer, the forward-only big-endian reader over it, and the bit
    arithmetic the header decoders use. */
module Bytes {
  import opened Wrappers

  /** One octet of the wire buffer. */
  type byte = b: int | 0 <= b < 256

  /** A successful read: the value read and the bytes that remain after it. */
  datatype Read<T> = Read(item: T, rest: seq<byte>)

  /** `rest` is what is left of `bs` after some prefix of it has been consumed. */
  predicate IsSuffix(rest: seq<byte>, bs: seq<byte>) {
    |rest| <= |bs| && rest == bs[|bs| - |rest|..]
  }

  /** The 16-bit value of two bytes in network (big-endian) order. */
  function Be16(hi: byte, lo: byte): (v: nat)
    ensures v < 0x1_0000
    ensures v / 256 == hi && v % 256 == lo
  {
    hi * 256 + lo
  }

  /** The 32-bit value of four bytes in network (big-endian) order. */
  function Be32(b0: byte, b1: byte, b2: byte, b3: byte): (v: nat)
    ensures v < 0x1_0000_0000
    ensures v / 0x1_0000 == Be16(b0, b1) && v % 0x1_0000 == Be16(b2, b3)
  {
    Be16(b0, b1) * 0x1_0000 + Be16(b2, b3)
  }

  // The reader fails (OutOfData) exactly when fewer bytes remain than the width.

  function ReadU8(bs: seq<byte>): (r: Option<Read<byte>>)
    ensures r.Some? <==> |bs| >= 1
    ensures r.Some? ==> r.value.item == bs[0] && r.value.rest == bs[1..]
  {
    if |bs| < 1 then None else Some(Read(bs[0], bs[1..]))
  }

  function ReadU16(bs: seq<byte>): (r: Option<Read<nat>>)
    ensures r.Some? <==> |bs| >= 2
    ensures r.Some? ==> r.value.item == Be16(bs[0], bs[1]) && r.value.rest == bs[2..]
  {
    if |bs| < 2 then None else Some(Read(Be16(bs[0], bs[1]), bs[2..]))
  }

  function ReadU32(bs: seq<byte>): (r: Option<Read<nat>>)
    ensures r.Some? <==> |bs| >= 4
    ensures r.Some? ==> r.value.item == Be32(bs[0], bs[1], bs[2], bs[3]) && r.value.rest == bs[4..]
  {
    if |bs| < 4 then None else Some(Read(Be32(bs[0], bs[1], bs[2], bs[3]), bs[4..]))
  }

  function Pow2(k: nat): (p: nat)
    ensures p >= 1
  {
    if k == 0 then 1 else 2 * Pow2(k - 1)
  }

  /** Bit `k` (0 = least significant) of `w` is set. */
  predicate Bit(w: nat, k: nat) {
    if k == 0 then w % 2 == 1 else Bit(w / 2, k - 1)
  }

  /** Kotlin's `a and b != 0` on non-negative integers: some bit is set in both. */
  predicate AndNonZero(a: nat, b: nat)
    decreases a
  {
    a > 0 && b > 0 && ((a % 2 == 1 && b % 2 == 1) || AndNonZero(a / 2, b / 2))
  }

  /** `clearLeftBits(n)` on an unsigned byte: keep the low `8 - n` bits. */
  function ClearLeftBits(b: byte, n: nat): (r: byte)
    requires n <= 8
    ensures r < Pow2(8 - n)
  {
    var p := Pow2(8 - n);
    ModBelow(b, p);
    b % p
  }

  lemma ModBelow(b: nat, p: nat)
    requires p >= 1
    ensures b % p <= b && b % p < p
  {
    DivUnique(b, p, b / p, b % p);
  }

  lemma DivUnique(w: int, d: int, q: int, r: int)
    requires d > 0 && 0 <= r < d && w == d * q + r
    ensures w / d == q
  {
    var k := q - w / d;
    assert d * k == w % d - r;
  }

  lemma HalfDiv(w: nat, p: nat)
    requires p >= 1
    ensures (w / 2) / p == w / (2 * p)
  {
    var q := w / (2 * p);
    var r := w % (2 * p);
    assert w == (2 * p) * q + r;
    assert w == 2 * (p * q + r / 2) + r % 2;
    DivUnique(w, 2, p * q + r / 2, r % 2);
    DivUnique(p * q + r / 2, p, q, r / 2);
  }

  /** Testing a single power of two against `w` is reading one bit of `w`. */
  lemma {:induction false} AndPow2(k: nat, w: nat)
    ensures AndNonZero(Pow2(k), w) <==> Bit(w, k)
  {
    if k > 0 {
      AndPow2(k - 1, w / 2);
      assert Pow2(k) / 2 == Pow2(k - 1);
    }
  }

  lemma DivPow2Step(w: nat, s: nat)
    requires s > 0
    ensures w / Pow2(s) == (w / 2) / Pow2(s - 1)
  {
    var p := Pow2(s - 1);
    assert Pow2(s) == 2 * p;
    HalfDiv(w, p);
  }

  /** `w shr s`, as repeated halving. */
  function Shr(w: nat, s: nat): nat {
    if s == 0 then w else Shr(w / 2, s - 1)
  }

  /** Shifting right is dividing by a power of two. */
  lemma {:induction false} ShrDiv(w: nat, s: nat)
    ensures Shr(w, s) == w / Pow2(s)
  {
    if s > 0 {
      DivPow2Step(w, s);
      ShrDiv(w / 2, s - 1);
    }
  }

  /** Shifting right by `s` moves bit `s + k` to position `k`. */
  lemma {:induction false} ShrBit(w: nat, s: nat, k: nat)
    ensures Bit(Shr(w, s), k) <==> Bit(w, s + k)
  {
    if s > 0 {
      ShrBit(w / 2, s - 1, k);
    }
  }

  /** The number whose bits, least significant first, are `bits`. */
  function FromBits(bits: seq<bool>): (v: nat)
    ensures v < Pow2(|bits|)
  {
    if bits == [] then 0 else (if bits[0] then 1 else 0) + 2 * FromBits(bits[1..])
  }

  lemma {:induction false} FromBitsBit(bits: seq<bool>, k: nat)
    requires k < |bits|
    ensures Bit(FromBits(bits), k) <==> bits[k]
  {
    if k > 0 {
      FromBitsBit(bits[1..], k - 1);
    }
  }
}
