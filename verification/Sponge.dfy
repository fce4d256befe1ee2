/** ASCON-XOF, ASCON-XOFA and ASCON-PRF: the same absorb and squeeze interface with three ways of
    placing the permutation. */
module Sponge {
  import opened Bytes
  import opened Snp
  import opened Duplex
  import opened Binding

  /** `first` is the first round run between blocks; `finish` says that the permutation also runs after
      the padding, and from then on after each squeezed block instead of before it. */
  datatype DisciplineData = Discipline(rateIn: Rate, rateOut: Rate, first: nat, separator: bool, finish: bool)

  type Discipline = d: DisciplineData | d.rateIn < 40 && d.rateOut < 40 witness Discipline(8, 8, 0, false, false)

  const XOF: Discipline := Discipline(8, 8, 0, false, false)
  const XOFA: Discipline := Discipline(8, 8, 4, false, true)
  const PRF: Discipline := Discipline(32, 16, 0, true, false)

  // ---------------------------------------------------------------- the simple form

  datatype SpongeState = At(s: Block, count: nat, squeezing: bool)

  predicate Proper(d: Discipline, z: SpongeState) {
    z.count < if z.squeezing then d.rateOut else d.rateIn
  }

  function AbsorbStep(p: Permutation, d: Discipline): Step { EncryptStep(p, d.rateIn, d.first) }

  function SqueezeStep(p: Permutation, d: Discipline): Step {
    if d.finish then SqueezeThenPermute(p, d.rateOut, d.first) else SqueezeAfterPermute(p, d.rateOut, d.first)
  }

  /** Back to absorbing, on a new block. */
  function ToAbsorb(p: Permutation, z: SpongeState): SpongeState {
    if z.squeezing then At(p(z.s, 0), 0, false) else z
  }

  /** The end of the input. */
  function ToSqueeze(p: Permutation, d: Discipline, z: SpongeState): SpongeState
    requires Proper(d, z)
  {
    if z.squeezing then z
    else
      var padded := PadAt(z.s, z.count);
      var separated := if d.separator then AddSeparator(padded) else padded;
      At(if d.finish then p(separated, 0) else separated, 0, true)
  }

  function Absorbed(p: Permutation, d: Discipline, z: SpongeState, data: seq<byte>): (r: SpongeState)
    requires Proper(d, z)
  {
    var from := ToAbsorb(p, z);
    var c := Run(AbsorbStep(p, d), Cursor(from.s, from.count), data).0;
    At(c.s, c.posn, false)
  }

  function Squeezed(p: Permutation, d: Discipline, z: SpongeState, n: nat): (r: (SpongeState, seq<byte>))
    requires Proper(d, z)
    ensures |r.1| == n
  {
    var from := ToSqueeze(p, d, z);
    var (c, out) := Run(SqueezeStep(p, d), Cursor(from.s, from.count), Zeros(n));
    (At(c.s, c.posn, true), out)
  }

  function Padded(p: Permutation, d: Discipline, z: SpongeState): SpongeState
    requires Proper(d, z)
  {
    if z.squeezing then Absorbed(p, d, z, [])
    else if z.count != 0 then At(p(z.s, d.first), 0, false)
    else z
  }

  // ---------------------------------------------------------------- what callers rely on

  lemma {:induction false} RunKeepsBelow(p: Permutation, rate: Rate, first: nat, step: Step, c: Cursor, input: seq<byte>)
    requires c.posn < rate < 40
    requires step == EncryptStep(p, rate, first) || step == SqueezeThenPermute(p, rate, first)
             || step == SqueezeAfterPermute(p, rate, first)
    ensures Run(step, c, input).0.posn < rate
    decreases |input|
  {
    if input != [] {
      RunKeepsBelow(p, rate, first, step, step(c, input[0]).0, input[1..]);
    }
  }

  /** The count stays below the rate. */
  lemma AbsorbedProper(p: Permutation, d: Discipline, z: SpongeState, data: seq<byte>)
    requires Proper(d, z)
    ensures Proper(d, Absorbed(p, d, z, data)) && !Absorbed(p, d, z, data).squeezing
  {
    var from := ToAbsorb(p, z);
    RunKeepsBelow(p, d.rateIn, d.first, AbsorbStep(p, d), Cursor(from.s, from.count), data);
  }

  lemma SqueezedProper(p: Permutation, d: Discipline, z: SpongeState, n: nat)
    requires Proper(d, z)
    ensures Proper(d, Squeezed(p, d, z, n).0) && Squeezed(p, d, z, n).0.squeezing
  {
    var from := ToSqueeze(p, d, z);
    RunKeepsBelow(p, d.rateOut, d.first, SqueezeStep(p, d), Cursor(from.s, from.count), Zeros(n));
  }

  /** From every mode and count, two absorbs are one absorb of both strings. */
  lemma AbsorbInTwo(p: Permutation, d: Discipline, z: SpongeState, a: seq<byte>, b: seq<byte>)
    requires Proper(d, z)
    ensures Proper(d, Absorbed(p, d, z, a))
    ensures Absorbed(p, d, Absorbed(p, d, z, a), b) == Absorbed(p, d, z, a + b)
  {
    AbsorbedProper(p, d, z, a);
    var from := ToAbsorb(p, z);
    RunConcat(AbsorbStep(p, d), Cursor(from.s, from.count), a, b);
  }

  /** Absorbing after squeezing goes on from a new block of the permuted state, wherever squeezing has
      stopped; so it gives back the state unchanged only at a fixed point of the permutation. */
  lemma TurnsAround(p: Permutation, d: Discipline, z: SpongeState, data: seq<byte>)
    requires Proper(d, z) && z.squeezing
    ensures Absorbed(p, d, z, data) == Absorbed(p, d, At(p(z.s, 0), 0, false), data)
    ensures Absorbed(p, d, z, []) == At(z.s, 0, false) <==> p(z.s, 0) == z.s
  {
    RunNothing(AbsorbStep(p, d), Cursor(p(z.s, 0), 0));
  }

  /** From every mode and count, two squeezes are one squeeze, cut in two. */
  lemma SqueezeInTwo(p: Permutation, d: Discipline, z: SpongeState, n: nat, m: nat)
    requires Proper(d, z)
    ensures var (mid, a) := Squeezed(p, d, z, n);
            Proper(d, mid)
            && var (last, b) := Squeezed(p, d, mid, m);
               Squeezed(p, d, z, n + m) == (last, a + b)
  {
    SqueezedProper(p, d, z, n);
    var from := ToSqueeze(p, d, z);
    assert Zeros(n) + Zeros(m) == Zeros(n + m);
    RunConcat(SqueezeStep(p, d), Cursor(from.s, from.count), Zeros(n), Zeros(m));
  }

  /** Padding while absorbing is absorbing zeros up to the end of the block. */
  lemma PadIsZeros(p: Permutation, d: Discipline, z: SpongeState)
    requires Proper(d, z) && !z.squeezing
    ensures Padded(p, d, z) == Absorbed(p, d, z, Zeros(if z.count == 0 then 0 else d.rateIn - z.count))
  {
    if z.count == 0 {
      assert Zeros(0) == [];
      RunNothing(AbsorbStep(p, d), Cursor(z.s, 0));
    } else {
      var n := d.rateIn - z.count;
      EncryptPart(p, d.rateIn, d.first, Cursor(z.s, z.count), Zeros(n));
      AddZeros(z.s, n, z.count);
    }
  }

  // ---------------------------------------------------------------- what the input leaves behind

  /** The end of the input keeps different states apart. */
  lemma EndKeepsApart(p: Permutation, d: Discipline, y: SpongeState, z: SpongeState)
    requires Injective(p) && Proper(d, y) && Proper(d, z) && !y.squeezing && !z.squeezing
    requires PadAt(y.s, y.count) != PadAt(z.s, z.count)
    ensures ToSqueeze(p, d, y).s != ToSqueeze(p, d, z).s
  {
    hide PadAt;
    PaddedApart(PadAt(y.s, y.count), PadAt(z.s, z.count), 0);
  }

  /** Wherever the input ends within a block, and whatever the end holds, the state tells: for every
      discipline, from every mode and count, and behind every common beginning. */
  lemma EndIsMarked(p: Permutation, d: Discipline, z: SpongeState, x: seq<byte>, u: seq<byte>, w: seq<byte>)
    requires Injective(p) && Proper(d, z) && u != w
    requires var count := Absorbed(p, d, z, x).count; count + |u| < d.rateIn && count + |w| < d.rateIn
    ensures Proper(d, Absorbed(p, d, z, x + u)) && Proper(d, Absorbed(p, d, z, x + w))
    ensures ToSqueeze(p, d, Absorbed(p, d, z, x + u)).s != ToSqueeze(p, d, Absorbed(p, d, z, x + w)).s
  {
    hide Run, EncryptStep, PadAt, AddSeparator;
    AbsorbedProper(p, d, z, x + u);
    AbsorbedProper(p, d, z, x + w);
    var from := ToAbsorb(p, z);
    EndEnters(p, d.rateIn, d.first, Cursor(from.s, from.count), x, u, w);
    EndKeepsApart(p, d, Absorbed(p, d, z, x + u), Absorbed(p, d, z, x + w));
  }

  /** And a change within one block is never undone by what is absorbed after it. */
  lemma ChangeIsKept(p: Permutation, d: Discipline, z: SpongeState, x: seq<byte>, u: seq<byte>, w: seq<byte>, y: seq<byte>)
    requires Injective(p) && Proper(d, z) && |u| == |w| && u != w && Absorbed(p, d, z, x).count + |u| <= d.rateIn
    ensures Proper(d, Absorbed(p, d, z, x + u + y)) && Proper(d, Absorbed(p, d, z, x + w + y))
    ensures ToSqueeze(p, d, Absorbed(p, d, z, x + u + y)).s != ToSqueeze(p, d, Absorbed(p, d, z, x + w + y)).s
  {
    hide Run, EncryptStep, PadAt, AddSeparator;
    AbsorbedProper(p, d, z, x);
    AbsorbedProper(p, d, z, x + u + y);
    AbsorbedProper(p, d, z, x + w + y);
    var from := ToAbsorb(p, z);
    ChangeEnters(p, d.rateIn, d.first, Cursor(from.s, from.count), x, u, w, y);
    var a, b := Absorbed(p, d, z, x + u + y), Absorbed(p, d, z, x + w + y);
    PaddedApart(a.s, b.s, a.count);
    EndKeepsApart(p, d, a, b);
  }

  /** Inputs that differ within one block leave different states; so when their outputs agree in the
      first block, two different states agree in as many bytes of what the permutation makes of them,
      or, where it has run already, of what they are. */
  lemma SameOutputIsCollision(p: Permutation, d: Discipline, initial: Block, a: seq<byte>, b: seq<byte>, front: nat)
    requires Injective(p) && DifferInBlock(d.rateIn, a, b, front)
    ensures var y, z := Absorbed(p, d, At(initial, 0, false), a), Absorbed(p, d, At(initial, 0, false), b);
            Proper(d, y) && Proper(d, z)
            && (var s, t := ToSqueeze(p, d, y).s, ToSqueeze(p, d, z).s;
                s != t
                && (Squeezed(p, d, y, d.rateOut).1 == Squeezed(p, d, z, d.rateOut).1 <==>
                    (if d.finish then s[..d.rateOut] == t[..d.rateOut]
                     else p(s, d.first)[..d.rateOut] == p(t, d.first)[..d.rateOut])))
  {
    hide Run, EncryptStep, PadAt, AddSeparator, DifferInBlock;
    var y, z := Absorbed(p, d, At(initial, 0, false), a), Absorbed(p, d, At(initial, 0, false), b);
    AbsorbedProper(p, d, At(initial, 0, false), a);
    AbsorbedProper(p, d, At(initial, 0, false), b);
    BlockEnters(p, d.rateIn, d.first, initial, a, b, front);
    EndKeepsApart(p, d, y, z);
    FirstBlock(p, d, y);
    FirstBlock(p, d, z);
  }

  lemma FirstBlock(p: Permutation, d: Discipline, z: SpongeState)
    requires Proper(d, z) && !z.squeezing
    ensures var s := ToSqueeze(p, d, z).s;
            Squeezed(p, d, z, d.rateOut).1 == if d.finish then s[..d.rateOut] else p(s, d.first)[..d.rateOut]
  {
    hide Run, PadAt, AddSeparator;
    var from := ToSqueeze(p, d, z);
    if d.finish {
      SqueezeThenPart(p, d.rateOut, d.first, Cursor(from.s, 0), d.rateOut);
    } else {
      SqueezeAfterPart(p, d.rateOut, d.first, Cursor(from.s, 0), d.rateOut);
    }
  }

  /** In all three algorithms the first block of output is read after all twelve rounds. */
  lemma AllRoundsFirst(p: Permutation, d: Discipline, z: SpongeState)
    requires (d == XOF || d == XOFA || d == PRF) && Proper(d, z) && !z.squeezing
    ensures var end := PadAt(z.s, z.count);
            Squeezed(p, d, z, d.rateOut).1 == p(if d == PRF then AddSeparator(end) else end, 0)[..d.rateOut]
  {
    hide PadAt, AddSeparator;
    FirstBlock(p, d, z);
  }

  /** Without a separator, reading is going on as if the padding had been absorbed; with one, as in the PRF,
      the state that is read is never one that absorbing leads to. */
  lemma ReadingApartIff(p: Permutation, d: Discipline, z: SpongeState)
    requires Injective(p) && Proper(d, z) && !z.squeezing && !d.finish
    ensures var padding := [0x80] + Zeros(d.rateIn - 1 - z.count);
            p(ToSqueeze(p, d, z).s, d.first) == Absorbed(p, d, z, padding).s <==> !d.separator
    ensures PRF.separator && !XOF.separator && !PRF.finish && !XOF.finish
  {
    hide PadAt, XorByte, AddAt, ExtractAt;
    var n := d.rateIn - 1 - z.count;
    EncryptPart(p, d.rateIn, d.first, Cursor(z.s, z.count), [0x80] + Zeros(n));
    PaddingIsAdded(z.s, n, z.count);
    var padded := PadAt(z.s, z.count);
    PadBitCounts(padded[39]);
    assert AddSeparator(padded)[39] != padded[39];
  }

  // ---------------------------------------------------------------- whole parts of a squeezed block

  /** The state from which `n` bytes at `posn` are read when the permutation runs before a block. */
  function BeforeBlock(p: Permutation, first: nat, s: Block, posn: nat, n: nat): Block {
    if posn == 0 && n > 0 then p(s, first) else s
  }

  lemma {:induction false} SqueezeAfterPart(p: Permutation, rate: Rate, first: nat, c: Cursor, n: nat)
    requires c.posn < rate && c.posn + n <= rate
    ensures var s := BeforeBlock(p, first, c.s, c.posn, n);
            Run(SqueezeAfterPermute(p, rate, first), c, Zeros(n))
            == (Cursor(s, if c.posn + n == rate then 0 else c.posn + n), ExtractAt(s, c.posn, n))
    decreases n
  {
    hide ExtractAt;
    var step := SqueezeAfterPermute(p, rate, first);
    if n == 0 {
      assert Zeros(0) == [];
      RunNothing(step, c);
      ExtractNothing(c.s, c.posn);
    } else {
      SqueezeAfterPart(p, rate, first, c, n - 1);
      assert Zeros(n - 1) + [0] == Zeros(n);
      var mid := Run(step, c, Zeros(n - 1)).0;
      RunConcat(step, c, Zeros(n - 1), [0]);
      RunOne(step, mid, 0);
      ExtractOneMore(step(mid, 0).0.s, c.posn, n - 1);
    }
  }

  lemma {:induction false} SqueezeThenPart(p: Permutation, rate: Rate, first: nat, c: Cursor, n: nat)
    requires c.posn < rate && c.posn + n <= rate
    ensures Run(SqueezeThenPermute(p, rate, first), c, Zeros(n))
         == (Moved(p, rate, first, c.s, c.posn + n), ExtractAt(c.s, c.posn, n))
    decreases n
  {
    hide ExtractAt;
    var step := SqueezeThenPermute(p, rate, first);
    if n == 0 {
      assert Zeros(0) == [];
      RunNothing(step, c);
      ExtractNothing(c.s, c.posn);
    } else {
      SqueezeThenPart(p, rate, first, c, n - 1);
      assert Zeros(n - 1) + [0] == Zeros(n);
      var mid := Run(step, c, Zeros(n - 1)).0;
      RunConcat(step, c, Zeros(n - 1), [0]);
      RunOne(step, mid, 0);
      ExtractOneMore(c.s, c.posn, n - 1);
    }
  }

  // ---------------------------------------------------------------- the object

  class Xof {
    const d: Discipline
    const state: State
    var count: nat
    var squeezing: bool

    ghost predicate Valid()
      reads this, state
    {
      state.Valid() && count < (if squeezing then d.rateOut else d.rateIn)
    }

    ghost function Now(): SpongeState
      requires Valid()
      reads this, state, state.B
    {
      At(state.Bytes(), count, squeezing)
    }

    ghost function P(): Permutation
      reads state
    {
      state.permutation
    }

    /** `initial` is the state after the initialization vector and key. */
    constructor (p: Permutation, d: Discipline, initial: Block)
      ensures Valid() && fresh(state) && fresh(state.B)
      ensures P() == p && this.d == d && Now() == At(initial, 0, false)
    {
      this.d := d;
      state := new State(p);
      count := 0;
      squeezing := false;
      new;
      OverwriteAll(state.Bytes(), initial);
      state.OverwriteBytes(initial, 0);
    }

    method Reinit(initial: Block)
      requires Valid()
      modifies this, state.B
      ensures Valid() && Now() == At(initial, 0, false)
    {
      OverwriteAll(state.Bytes(), initial);
      state.OverwriteBytes(initial, 0);
      count := 0;
      squeezing := false;
    }

    method Absorb(input: seq<byte>)
      requires Valid()
      modifies this, state.B
      ensures Valid()
      ensures Now() == Absorbed(P(), d, old(Now()), input)
    {
      hide AddAt, ExtractAt, Run, EncryptStep;
      ghost var p, step := P(), AbsorbStep(P(), d);
      if squeezing {
        squeezing := false;
        count := 0;
        state.Permute(0);
      }
      ghost var start := Cursor(state.Bytes(), count);
      var posn := 0;
      RunNothing(step, start);
      assert input[..0] == [];
      if count != 0 {
        var temp := d.rateIn - count;
        if temp > |input| {
          AbsorbPart(p, d, start, input, 0, start, |input|);
          assert input[0..|input|] == input && input[..|input|] == input;
          state.AddBytes(input, count);
          count := count + |input|;
          return;
        }
        AbsorbPart(p, d, start, input, 0, start, temp);
        state.AddBytes(input[0..temp], count);
        count := 0;
        posn := temp;
        state.Permute(d.first);
      }
      while |input| - posn >= d.rateIn
        invariant posn <= |input| && count == 0 && !squeezing
        invariant Run(step, start, input[..posn]).0 == Cursor(state.Bytes(), 0)
      {
        AbsorbPart(p, d, start, input, posn, Cursor(state.Bytes(), 0), d.rateIn);
        state.AddBytes(input[posn..posn + d.rateIn], 0);
        posn := posn + d.rateIn;
        state.Permute(d.first);
      }
      var temp := |input| - posn;
      AbsorbPart(p, d, start, input, posn, Cursor(state.Bytes(), 0), temp);
      assert input[..posn + temp] == input;
      if temp > 0 {
        state.AddBytes(input[posn..posn + temp], 0);
      } else {
        AddNothing(state.Bytes(), 0);
        assert input[posn..posn + temp] == [];
      }
      count := temp;
    }

    /** The input has ended: pads, and for the PRF separates. */
    method EndInput()
      requires Valid() && !squeezing
      modifies this, state.B
      ensures Valid() && Now() == ToSqueeze(P(), d, old(Now()))
    {
      hide PadAt, AddSeparator;
      state.Pad(count);
      if d.separator {
        state.Separator();
      }
      count := 0;
      squeezing := true;
      if d.finish {
        state.Permute(0);
      }
    }

    method Squeeze(outlen: nat) returns (out: seq<byte>)
      requires Valid()
      modifies this, state.B
      ensures Valid()
      ensures (Now(), out) == Squeezed(P(), d, old(Now()), outlen)
    {
      hide PadAt, AddSeparator, ToSqueeze, Run, SqueezeStep;
      EndedInput(P(), d, Now());
      if !squeezing {
        EndInput();
      }
      if d.finish {
        out := SqueezeThen(outlen);
      } else {
        out := SqueezeAfter(outlen);
      }
    }

    /** Permutes before each block. */
    method SqueezeAfter(outlen: nat) returns (out: seq<byte>)
      requires Valid() && squeezing && !d.finish
      modifies this, state.B
      ensures Valid() && squeezing
      ensures (Cursor(state.Bytes(), count), out) == Run(SqueezeStep(P(), d), old(Cursor(state.Bytes(), count)), Zeros(outlen))
    {
      hide ExtractAt, Run, SqueezeAfterPermute, Zeros;
      ghost var p, step, start := P(), SqueezeStep(P(), d), Cursor(state.Bytes(), count);
      out := [];
      RunNothing(step, start);
      assert Zeros(0) == [];
      if count != 0 {
        var temp := d.rateOut - count;
        if temp > outlen {
          SqueezePart(p, d, start, 0, start, outlen);
          out := state.ExtractBytes(count, outlen);
          assert [] + out == out;
          count := count + outlen;
          return;
        }
        SqueezePart(p, d, start, 0, start, temp);
        out := state.ExtractBytes(count, temp);
        assert [] + out == out;
        count := 0;
      }
      while outlen - |out| >= d.rateOut
        invariant |out| <= outlen && count == 0 && squeezing
        invariant Run(step, start, Zeros(|out|)) == (Cursor(state.Bytes(), 0), out)
      {
        SqueezePart(p, d, start, |out|, Cursor(state.Bytes(), 0), d.rateOut);
        state.Permute(d.first);
        var block := state.ExtractBytes(0, d.rateOut);
        out := out + block;
      }
      if outlen > |out| {
        var temp := outlen - |out|;
        SqueezePart(p, d, start, |out|, Cursor(state.Bytes(), 0), temp);
        state.Permute(d.first);
        var block := state.ExtractBytes(0, temp);
        out := out + block;
        count := temp;
      }
    }

    /** Permutes after each block. */
    method SqueezeThen(outlen: nat) returns (out: seq<byte>)
      requires Valid() && squeezing && d.finish
      modifies this, state.B
      ensures Valid() && squeezing
      ensures (Cursor(state.Bytes(), count), out) == Run(SqueezeStep(P(), d), old(Cursor(state.Bytes(), count)), Zeros(outlen))
    {
      hide ExtractAt, Run, SqueezeThenPermute, Zeros;
      ghost var p, step, start := P(), SqueezeStep(P(), d), Cursor(state.Bytes(), count);
      out := [];
      RunNothing(step, start);
      assert Zeros(0) == [];
      if count != 0 {
        var temp := d.rateOut - count;
        if temp > outlen {
          SqueezePart(p, d, start, 0, start, outlen);
          out := state.ExtractBytes(count, outlen);
          assert [] + out == out;
          count := count + outlen;
          return;
        }
        SqueezePart(p, d, start, 0, start, temp);
        out := state.ExtractBytes(count, temp);
        assert [] + out == out;
        count := 0;
        state.Permute(d.first);
      }
      while outlen - |out| >= d.rateOut
        invariant |out| <= outlen && count == 0 && squeezing
        invariant Run(step, start, Zeros(|out|)) == (Cursor(state.Bytes(), 0), out)
      {
        SqueezePart(p, d, start, |out|, Cursor(state.Bytes(), 0), d.rateOut);
        var block := state.ExtractBytes(0, d.rateOut);
        state.Permute(d.first);
        out := out + block;
      }
      if outlen > |out| {
        var temp := outlen - |out|;
        SqueezePart(p, d, start, |out|, Cursor(state.Bytes(), 0), temp);
        var block := state.ExtractBytes(0, temp);
        out := out + block;
        count := temp;
      }
    }

    method Pad()
      requires Valid()
      modifies this, state.B
      ensures Valid()
      ensures Now() == Padded(P(), d, old(Now()))
    {
      if squeezing {
        Absorb([]);
      } else if count != 0 {
        state.Permute(d.first);
        count := 0;
      }
    }
  }

  lemma EndedInput(p: Permutation, d: Discipline, z: SpongeState)
    requires Proper(d, z)
    ensures ToSqueeze(p, d, z).squeezing && ToSqueeze(p, d, z).count < d.rateOut
    ensures z.squeezing ==> ToSqueeze(p, d, z) == z
  {
  }

  /** Adding the next part of the input, up to the end of the block, moves the run on. */
  lemma AbsorbPart(p: Permutation, d: Discipline, start: Cursor, input: seq<byte>, done: nat, c: Cursor, n: nat)
    requires done + n <= |input| && c.posn < d.rateIn && c.posn + n <= d.rateIn
    requires Run(AbsorbStep(p, d), start, input[..done]).0 == c
    ensures Run(AbsorbStep(p, d), start, input[..done + n]).0
         == Moved(p, d.rateIn, d.first, AddAt(c.s, input[done..done + n], c.posn), c.posn + n)
  {
    hide AddAt, ExtractAt, Run, EncryptStep;
    var part := input[done..done + n];
    assert input[..done] + part == input[..done + n];
    RunConcat(AbsorbStep(p, d), start, input[..done], part);
    EncryptPart(p, d.rateIn, d.first, c, part);
  }

  lemma SqueezePart(p: Permutation, d: Discipline, start: Cursor, done: nat, c: Cursor, n: nat)
    requires c.posn < d.rateOut && c.posn + n <= d.rateOut
    requires Run(SqueezeStep(p, d), start, Zeros(done)).0 == c
    ensures var out := Run(SqueezeStep(p, d), start, Zeros(done)).1;
            var s := if d.finish then c.s else BeforeBlock(p, d.first, c.s, c.posn, n);
            Run(SqueezeStep(p, d), start, Zeros(done + n))
            == (if d.finish then Moved(p, d.rateOut, d.first, s, c.posn + n)
                else Cursor(s, if c.posn + n == d.rateOut then 0 else c.posn + n),
                out + ExtractAt(s, c.posn, n))
  {
    hide ExtractAt, Run, SqueezeAfterPermute, SqueezeThenPermute;
    assert Zeros(done) + Zeros(n) == Zeros(done + n);
    RunConcat(SqueezeStep(p, d), start, Zeros(done), Zeros(n));
    if d.finish {
      SqueezeThenPart(p, d.rateOut, d.first, c, n);
    } else {
      SqueezeAfterPart(p, d.rateOut, d.first, c, n);
    }
  }
}
