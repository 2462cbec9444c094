/** The option (TLV) area shared by the IP and TCP headers: the option entry,
    the budget-bounded decode loop and the header-size formula. */
module OptionCodec {
  import opened Wrappers
  import opened Bytes

  /** One decoded option. `Nop` and `EndOfOptions` are the two sentinels every
      option family has; `length` is the entry's own reported length. */
  datatype Opt =
    | Nop(length: nat)
    | EndOfOptions(length: nat)
    | Other(kind: byte, length: nat, data: seq<byte>)

  /** What the per-protocol option decoder (`IPOption.of` / `TCPOption.of`, not
      part of this model) does at the front of the shared reader: it reads one
      option, or returns null (possibly after consuming some bytes), or throws
      because the reader ran out of data. */
  datatype Step =
    | Got(item: Opt, rest: seq<byte>)
    | Null(rest: seq<byte>)
    | Threw

  type OptionDecoder = seq<byte> -> Step

  /** The only thing the loop relies on: the decoder only ever consumes bytes
      from the front of the buffer, and at least one when it yields an option. */
  ghost predicate Progress(optionOf: OptionDecoder) {
    forall bs: seq<byte> ::
      && (optionOf(bs).Got? ==> |optionOf(bs).rest| < |bs| && IsSuffix(optionOf(bs).rest, bs))
      && (optionOf(bs).Null? ==> IsSuffix(optionOf(bs).rest, bs))
  }

  /** The options read and the bytes left for the payload. `threw` records that
      the decoder threw; the enclosing `of` then catches it and returns null,
      so `options` and `rest` are of no further use. */
  datatype OptionRun = OptionRun(options: seq<Opt>, rest: seq<byte>, threw: bool)

  /** What one option takes off the budget: 1 for a NOP, its length otherwise. */
  function Cost(o: Opt): int {
    if o.Nop? then 1 else o.length
  }

  function SumCost(opts: seq<Opt>): int {
    if opts == [] then 0 else Cost(opts[0]) + SumCost(opts[1..])
  }

  /** The option loop of both decoders: while the budget is positive, decode an
      option, keep it, stop after an end-of-options entry, otherwise take its
      cost off the budget. A null from the decoder ends the loop, keeping what
      was read so far and whatever the decoder consumed; a throw ends it too and
      is reported in `threw`. */
  function OptionLoop(optionOf: OptionDecoder, budget: int, bs: seq<byte>): (r: OptionRun)
    requires Progress(optionOf)
    ensures IsSuffix(r.rest, bs)
    ensures |r.options| <= |bs| - |r.rest|
    ensures budget <= 0 ==> r == OptionRun([], bs, false)
    ensures forall i :: 0 <= i < |r.options| - 1 ==> !r.options[i].EndOfOptions?
    decreases |bs|
  {
    if budget <= 0 then OptionRun([], bs, false)
    else match optionOf(bs)
      case Threw => OptionRun([], bs, true)
      case Null(rest) => OptionRun([], rest, false)
      case Got(item, rest) =>
        if item.EndOfOptions? then OptionRun([item], rest, false)
        else
          var tail := OptionLoop(optionOf, budget - Cost(item), rest);
          OptionRun([item] + tail.options, tail.rest, tail.threw)
  }

  /** The buffer the decoder leaves after yielding `options` one after another
      from the front of `bs`, or `None` when it does not yield them. */
  ghost function After(optionOf: OptionDecoder, bs: seq<byte>, options: seq<Opt>): Option<seq<byte>>
    decreases |options|
  {
    if options == [] then Some(bs)
    else match optionOf(bs)
      case Got(item, rest) => if item == options[0] then After(optionOf, rest, options[1..]) else None
      case _ => None
  }

  predicate EndsWithEnd(options: seq<Opt>) {
    options != [] && options[|options| - 1].EndOfOptions?
  }

  /** Why the loop stopped at `mid` with `left` budget remaining: after an
      end-of-options entry or for lack of budget nothing more is read; otherwise
      the decoder returned null (and its leftover is the rest) or threw. */
  ghost predicate Stopped(optionOf: OptionDecoder, ended: bool, left: int, mid: seq<byte>, rest: seq<byte>, threw: bool) {
    if ended || left <= 0 then rest == mid && !threw
    else match optionOf(mid)
      case Got(_, _) => false
      case Null(r) => rest == r && !threw
      case Threw => rest == mid && threw
  }

  /** The loop's outcome described without the loop: entries read in order, the
      budget still positive before each of them, only the last may be an
      end-of-options entry, and the loop had a reason to stop after the last. */
  ghost predicate LoopOutcome(optionOf: OptionDecoder, budget: int, bs: seq<byte>, run: OptionRun) {
    && After(optionOf, bs, run.options).Some?
    && (forall k :: 0 <= k < |run.options| ==> budget - SumCost(run.options[..k]) > 0)
    && (forall k :: 0 <= k < |run.options| - 1 ==> !run.options[k].EndOfOptions?)
    && Stopped(optionOf, EndsWithEnd(run.options), budget - SumCost(run.options),
               After(optionOf, bs, run.options).value, run.rest, run.threw)
  }

  lemma PrefixCons(o: Opt, tail: seq<Opt>, k: nat)
    requires k <= |tail|
    ensures ([o] + tail)[..k + 1] == [o] + tail[..k]
  {
  }

  /** The loop's result satisfies the description. */
  lemma {:induction false} OptionLoopSound(optionOf: OptionDecoder, budget: int, bs: seq<byte>)
    requires Progress(optionOf)
    ensures LoopOutcome(optionOf, budget, bs, OptionLoop(optionOf, budget, bs))
    decreases |bs|
  {
    if budget > 0 && optionOf(bs).Got? && !optionOf(bs).item.EndOfOptions? {
      var item, rest := optionOf(bs).item, optionOf(bs).rest;
      OptionLoopSound(optionOf, budget - Cost(item), rest);
      SoundStep(optionOf, budget, bs);
    } else {
      SoundStop(optionOf, budget, bs);
    }
  }

  /** The loop's first turn reads nothing more after this step: no budget, a
      null, a throw, or an end-of-options entry. */
  lemma SoundStop(optionOf: OptionDecoder, budget: int, bs: seq<byte>)
    requires Progress(optionOf)
    requires !(budget > 0 && optionOf(bs).Got? && !optionOf(bs).item.EndOfOptions?)
    ensures LoopOutcome(optionOf, budget, bs, OptionLoop(optionOf, budget, bs))
  {
    if budget > 0 && optionOf(bs).Got? {
      var r := OptionLoop(optionOf, budget, bs);
      assert r.options == [optionOf(bs).item];
      assert r.options[..0] == [];
      assert After(optionOf, bs, r.options) == After(optionOf, optionOf(bs).rest, []);
    }
  }

  /** One turn of the loop keeps the description: if the recursive call's
      result is described, so is the whole loop's. */
  lemma SoundStep(optionOf: OptionDecoder, budget: int, bs: seq<byte>)
    requires Progress(optionOf)
    requires budget > 0 && optionOf(bs).Got? && !optionOf(bs).item.EndOfOptions?
    requires var tail := OptionLoop(optionOf, budget - Cost(optionOf(bs).item), optionOf(bs).rest);
      LoopOutcome(optionOf, budget - Cost(optionOf(bs).item), optionOf(bs).rest, tail)
    ensures LoopOutcome(optionOf, budget, bs, OptionLoop(optionOf, budget, bs))
  {
    var tail := OptionLoop(optionOf, budget - Cost(optionOf(bs).item), optionOf(bs).rest);
    LoopUnfold(optionOf, budget, bs);
    LoopOutcomeCons(optionOf, budget, bs, tail);
  }

  /** Prefixing an entry that is not end-of-options to an outcome of the rest of
      the buffer gives an outcome of the whole. */
  lemma LoopOutcomeCons(optionOf: OptionDecoder, budget: int, bs: seq<byte>, tail: OptionRun)
    requires budget > 0 && optionOf(bs).Got? && !optionOf(bs).item.EndOfOptions?
    requires LoopOutcome(optionOf, budget - Cost(optionOf(bs).item), optionOf(bs).rest, tail)
    ensures LoopOutcome(optionOf, budget, bs, OptionRun([optionOf(bs).item] + tail.options, tail.rest, tail.threw))
  {
    var item := optionOf(bs).item;
    var options := [item] + tail.options;
    assert options[0] == item && options[1..] == tail.options;
    assert After(optionOf, bs, options) == After(optionOf, optionOf(bs).rest, tail.options);
    forall k | 0 <= k < |options|
      ensures budget - SumCost(options[..k]) > 0
    {
      if k > 0 {
        PrefixCons(item, tail.options, k - 1);
        assert options[..k][1..] == tail.options[..k - 1];
      }
    }
    assert SumCost(options) == Cost(item) + SumCost(tail.options);
    assert EndsWithEnd(options) == EndsWithEnd(tail.options);
  }

  /** Anything satisfying the description is the loop's result: the description
      pins the loop down completely. */
  lemma {:induction false} OptionLoopUnique(optionOf: OptionDecoder, budget: int, bs: seq<byte>, run: OptionRun)
    requires Progress(optionOf)
    requires LoopOutcome(optionOf, budget, bs, run)
    ensures OptionLoop(optionOf, budget, bs) == run
    decreases |bs|
  {
    if run.options == [] {
      UniqueEmpty(optionOf, budget, bs, run);
    } else if run.options[0].EndOfOptions? {
      UniqueEnd(optionOf, budget, bs, run);
    } else {
      var tail := OptionRun(run.options[1..], run.rest, run.threw);
      LoopOutcomeTail(optionOf, budget, bs, run);
      OptionLoopUnique(optionOf, budget - Cost(run.options[0]), optionOf(bs).rest, tail);
      LoopStep(optionOf, budget, bs, run);
    }
  }

  /** No entries: the loop stopped at once, for lack of budget, on a null or on
      a throw. */
  lemma UniqueEmpty(optionOf: OptionDecoder, budget: int, bs: seq<byte>, run: OptionRun)
    requires Progress(optionOf)
    requires LoopOutcome(optionOf, budget, bs, run) && run.options == []
    ensures OptionLoop(optionOf, budget, bs) == run
  {
    assert After(optionOf, bs, run.options) == Some(bs);
  }

  /** An end-of-options entry first: it is the only entry and the loop stops. */
  lemma UniqueEnd(optionOf: OptionDecoder, budget: int, bs: seq<byte>, run: OptionRun)
    requires Progress(optionOf)
    requires LoopOutcome(optionOf, budget, bs, run)
    requires run.options != [] && run.options[0].EndOfOptions?
    ensures OptionLoop(optionOf, budget, bs) == run
  {
    assert run.options[..0] == [];
    assert |run.options| == 1;
    assert run.options[1..] == [];
    assert After(optionOf, bs, run.options) == Some(optionOf(bs).rest);
  }

  /** One turn of the loop past an entry that is not end-of-options. */
  lemma LoopStep(optionOf: OptionDecoder, budget: int, bs: seq<byte>, run: OptionRun)
    requires Progress(optionOf) && budget > 0 && run.options != []
    requires optionOf(bs).Got? && optionOf(bs).item == run.options[0] && !run.options[0].EndOfOptions?
    requires OptionLoop(optionOf, budget - Cost(run.options[0]), optionOf(bs).rest)
      == OptionRun(run.options[1..], run.rest, run.threw)
    ensures OptionLoop(optionOf, budget, bs) == run
  {
    LoopUnfold(optionOf, budget, bs);
    ConsSplit(run.options);
  }

  lemma ConsSplit(options: seq<Opt>)
    requires options != []
    ensures options == [options[0]] + options[1..]
  {
  }

  lemma LoopUnfold(optionOf: OptionDecoder, budget: int, bs: seq<byte>)
    requires Progress(optionOf) && budget > 0
    requires optionOf(bs).Got? && !optionOf(bs).item.EndOfOptions?
    ensures var r := OptionLoop(optionOf, budget - Cost(optionOf(bs).item), optionOf(bs).rest);
      OptionLoop(optionOf, budget, bs) == OptionRun([optionOf(bs).item] + r.options, r.rest, r.threw)
  {
  }

  /** After a first entry that is not end-of-options, the remaining entries
      describe the loop on the remaining bytes and budget. */
  lemma LoopOutcomeTail(optionOf: OptionDecoder, budget: int, bs: seq<byte>, run: OptionRun)
    requires LoopOutcome(optionOf, budget, bs, run)
    requires run.options != [] && !run.options[0].EndOfOptions?
    ensures budget > 0 && optionOf(bs).Got? && optionOf(bs).item == run.options[0]
    ensures LoopOutcome(optionOf, budget - Cost(run.options[0]), optionOf(bs).rest,
                        OptionRun(run.options[1..], run.rest, run.threw))
  {
    var options := run.options;
    var tail := options[1..];
    assert options[..0] == [];
    assert options == [options[0]] + tail;
    assert After(optionOf, bs, options) == After(optionOf, optionOf(bs).rest, tail);
    forall k | 0 <= k < |tail|
      ensures budget - Cost(options[0]) - SumCost(tail[..k]) > 0
    {
      PrefixCons(options[0], tail, k);
      assert options[..k + 1][1..] == tail[..k];
    }
    assert SumCost(options) == Cost(options[0]) + SumCost(tail);
    assert EndsWithEnd(options) == EndsWithEnd(tail);
  }

  /** A run of one-byte NOP entries is read one per unit of budget: with budget
      `n` the loop returns exactly `n` NOPs and leaves the buffer after them. */
  lemma {:induction false} NopRun(optionOf: OptionDecoder, nop: Opt, n: nat, bs: seq<byte>)
    requires Progress(optionOf) && nop.Nop?
    requires n <= |bs|
    requires forall k :: 0 <= k < n ==> optionOf(bs[k..]) == Got(nop, bs[k + 1..])
    ensures OptionLoop(optionOf, n, bs) == OptionRun(seq(n, _ => nop), bs[n..], false)
  {
    if n > 0 {
      assert bs[0..] == bs;
      NopShift(optionOf, nop, n, bs);
      NopRun(optionOf, nop, n - 1, bs[1..]);
      NopStep(optionOf, nop, n, bs);
      assert bs[1..][n - 1..] == bs[n..];
      assert seq(n, _ => nop) == [nop] + seq(n - 1, _ => nop);
    }
  }

  lemma NopShift(optionOf: OptionDecoder, nop: Opt, n: nat, bs: seq<byte>)
    requires 0 < n <= |bs|
    requires forall k :: 0 <= k < n ==> optionOf(bs[k..]) == Got(nop, bs[k + 1..])
    ensures forall k :: 0 <= k < n - 1 ==> optionOf(bs[1..][k..]) == Got(nop, bs[1..][k + 1..])
  {
    forall k | 0 <= k < n - 1
      ensures optionOf(bs[1..][k..]) == Got(nop, bs[1..][k + 1..])
    {
      assert bs[1..][k..] == bs[k + 1..];
      assert bs[1..][k + 1..] == bs[k + 2..];
    }
  }

  lemma NopStep(optionOf: OptionDecoder, nop: Opt, n: nat, bs: seq<byte>)
    requires Progress(optionOf) && nop.Nop? && 0 < n <= |bs|
    requires optionOf(bs) == Got(nop, bs[1..])
    ensures var r := OptionLoop(optionOf, n - 1, bs[1..]);
      OptionLoop(optionOf, n, bs) == OptionRun([nop] + r.options, r.rest, r.threw)
  {
  }

  /** The bytes an option occupies for size accounting: its length, with a
      zero length counted as one byte. */
  function Footprint(o: Opt): (n: nat)
    ensures n >= 1 && (o.length > 0 ==> n == o.length)
  {
    if o.length == 0 then 1 else o.length
  }

  function OptionBytes(opts: seq<Opt>): (b: nat)
    ensures b >= |opts|
  {
    if opts == [] then 0 else Footprint(opts[0]) + OptionBytes(opts[1..])
  }

  /** `headerSize()` of both headers: 20 + b + (b % 4) for b option bytes. */
  function HeaderSize(opts: seq<Opt>): (size: nat)
    ensures size >= 20 + OptionBytes(opts) >= 20 + |opts|
    ensures size == 20 <==> opts == []
    ensures OptionBytes(opts) % 4 == 0 ==> size == 20 + OptionBytes(opts)
    ensures size % 4 == 0 <==> OptionBytes(opts) % 2 == 0
  {
    SizeMod(OptionBytes(opts));
    20 + OptionBytes(opts) + OptionBytes(opts) % 4
  }

  /** Adding `b % 4` to an even `b` keeps it a multiple of 4 only when `b` is
      even; an odd `b` always leaves the sum odd. */
  lemma SizeMod(b: nat)
    ensures (20 + b + b % 4) % 4 == 0 <==> b % 2 == 0
  {
    var q, r := b / 4, b % 4;
    assert b == 4 * q + r;
    assert 20 + b + r == 4 * (5 + q) + 2 * r;
    assert b % 2 == r % 2;
  }

  /** The formula does not round up to a 4-byte boundary: one option of length
      one gives 22, and a 7-byte option area gives 30 where rounding gives 28. */
  lemma HeaderSizeNotAligned()
    ensures HeaderSize([Other(7, 1, [])]) == 22
    ensures HeaderSize([Other(7, 7, [])]) == 30
  {
    assert OptionBytes([Other(7, 1, [])]) == 1;
    assert OptionBytes([Other(7, 7, [])]) == 7;
  }
}
