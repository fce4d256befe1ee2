/** What the duplex construction keeps apart.  The permutation is only assumed to lose nothing, which
    the Ascon permutation does not: strings that differ within one block, wherever it lies, lead to
    different states, and nothing that follows brings those together again. */
module Binding {
  import opened Bytes
  import opened Snp
  import opened Duplex
  import opened AeadCommon
  import opened BigEndian
  import BytePermutation

  ghost predicate Injective(p: Permutation) {
    forall s: Block, t: Block, first: nat :: p(s, first) == p(t, first) ==> s == t
  }

  lemma AsconIsInjective()
    ensures Injective(BytePermutation.Permute)
  {
    hide BytePermutation.Permute, BytePermutation.PermuteInverse;
    forall s: Block, t: Block, first: nat | BytePermutation.Permute(s, first) == BytePermutation.Permute(t, first)
      ensures s == t
    {
      BytePermutation.PermuteBijective(s, first);
      BytePermutation.PermuteBijective(t, first);
    }
  }

  // ---------------------------------------------------------------- adding and padding

  lemma XorByteCancels(a: byte, b: byte, c: byte)
    ensures XorByte(a, b) == XorByte(a, c) ==> b == c
    ensures XorByte(b, a) == XorByte(c, a) ==> b == c
  {
  }

  lemma AddedApart(s: Block, u: seq<byte>, v: seq<byte>, offset: nat)
    requires |u| == |v| && offset + |u| <= 40 && u != v
    ensures AddAt(s, u, offset) != AddAt(s, v, offset)
  {
    hide XorByte, AddAt;
    var i :| 0 <= i < |u| && u[i] != v[i];
    AddAtIndex(s, u, offset, offset + i);
    AddAtIndex(s, v, offset, offset + i);
    XorByteCancels(s[offset + i], u[i], v[i]);
  }

  lemma StatesStayApart(s: Block, t: Block, data: seq<byte>, offset: nat)
    requires offset + |data| <= 40 && s != t
    ensures AddAt(s, data, offset) != AddAt(t, data, offset)
  {
    hide XorByte, AddAt;
    var i :| 0 <= i < 40 && s[i] != t[i];
    AddAtIndex(s, data, offset, i);
    AddAtIndex(t, data, offset, i);
    if offset <= i < offset + |data| {
      XorByteCancels(data[i - offset], s[i], t[i]);
    }
  }

  lemma PaddedApart(s: Block, t: Block, posn: nat)
    requires posn < 40 && s != t
    ensures PadAt(s, posn) != PadAt(t, posn) && AddSeparator(s) != AddSeparator(t)
  {
    hide XorByte;
    var i :| 0 <= i < 40 && s[i] != t[i];
    XorByteCancels(0x80, s[i], t[i]);
    XorByteCancels(0x01, s[i], t[i]);
    assert PadAt(s, posn)[i] != PadAt(t, posn)[i];
    assert AddSeparator(s)[i] != AddSeparator(t)[i];
  }

  lemma PadBitCounts(b: byte)
    ensures XorByte(b, 0x80) != b && XorByte(b, 0x01) != b
  {
  }

  /** The padding shows where the last block ends, whatever it holds. */
  lemma EndsApart(s: Block, u: seq<byte>, v: seq<byte>, posn: nat)
    requires posn + |u| < 40 && posn + |v| < 40 && u != v
    ensures PadAt(AddAt(s, u, posn), posn + |u|) != PadAt(AddAt(s, v, posn), posn + |v|)
  {
    hide XorByte, AddAt;
    if |u| == |v| {
      AddedApart(s, u, v, posn);
      PaddedApart(AddAt(s, u, posn), AddAt(s, v, posn), posn + |u|);
    } else {
      var end := posn + if |u| < |v| then |v| else |u|;
      AddAtIndex(s, u, posn, end);
      AddAtIndex(s, v, posn, end);
      PadBitCounts(s[end]);
      assert PadAt(AddAt(s, u, posn), posn + |u|)[end] != PadAt(AddAt(s, v, posn), posn + |v|)[end];
    }
  }

  // ---------------------------------------------------------------- runs

  /** Different states stay different, whatever is added to both. */
  lemma {:induction false} RunsStayApart(p: Permutation, rate: Rate, first: nat, c1: Cursor, c2: Cursor, data: seq<byte>)
    requires Injective(p) && c1.posn == c2.posn && c1.s != c2.s
    ensures var d1, d2 := Run(EncryptStep(p, rate, first), c1, data).0, Run(EncryptStep(p, rate, first), c2, data).0;
            d1.posn == d2.posn && d1.s != d2.s
    decreases |data|
  {
    if data != [] {
      var next1, next2 := EncryptStep(p, rate, first)(c1, data[0]).0, EncryptStep(p, rate, first)(c2, data[0]).0;
      assert next1.posn == next2.posn && next1.s != next2.s by {
        hide XorByte, AddAt;
        AddOne(c1.s, data[0], c1.posn);
        AddOne(c2.s, data[0], c2.posn);
        StatesStayApart(c1.s, c2.s, [data[0]], c1.posn);
      }
      RunsStayApart(p, rate, first, next1, next2, data[1..]);
    }
  }

  lemma {:induction false} PosnAfter(p: Permutation, rate: Rate, first: nat, c: Cursor, data: seq<byte>)
    requires c.posn < rate
    ensures Run(EncryptStep(p, rate, first), c, data).0.posn == (c.posn + |data|) % rate
    decreases |data|
  {
    hide XorByte;
    if data != [] {
      var next := EncryptStep(p, rate, first)(c, data[0]).0;
      PosnAfter(p, rate, first, next, data[1..]);
      if c.posn + 1 == rate {
        Around(rate, |data| - 1);
      }
    }
  }

  lemma Around(rate: Rate, n: nat)
    ensures (rate + n) % rate == n % rate
  {
    var q, r := n / rate, n % rate;
    ModUnique(rate + n, rate, q + 1, r);
  }

  /** A change within one block is not undone by what follows. */
  lemma ChangeEnters(p: Permutation, rate: Rate, first: nat, c: Cursor, x: seq<byte>, u: seq<byte>, v: seq<byte>, y: seq<byte>)
    requires Injective(p) && |u| == |v| && u != v
    requires var posn := Run(EncryptStep(p, rate, first), c, x).0.posn; posn < rate && posn + |u| <= rate
    ensures var d1 := Run(EncryptStep(p, rate, first), c, x + u + y).0;
            var d2 := Run(EncryptStep(p, rate, first), c, x + v + y).0;
            d1.posn == d2.posn && d1.s != d2.s
  {
    hide Run, EncryptStep, AddAt, ExtractAt;
    var step := EncryptStep(p, rate, first);
    var mid := Run(step, c, x).0;
    EncryptPart(p, rate, first, mid, u);
    EncryptPart(p, rate, first, mid, v);
    AddedApart(mid.s, u, v, mid.posn);
    RunsStayApart(p, rate, first, Run(step, mid, u).0, Run(step, mid, v).0, y);
    RunConcat(step, c, x, u);
    RunConcat(step, c, x, v);
    RunConcat(step, c, x + u, y);
    RunConcat(step, c, x + v, y);
  }

  /** Neither is a change of the end, of any length. */
  lemma EndEnters(p: Permutation, rate: Rate, first: nat, c: Cursor, x: seq<byte>, u: seq<byte>, v: seq<byte>)
    requires u != v
    requires var posn := Run(EncryptStep(p, rate, first), c, x).0.posn; posn + |u| < rate && posn + |v| < rate
    ensures var d1 := Run(EncryptStep(p, rate, first), c, x + u).0;
            var d2 := Run(EncryptStep(p, rate, first), c, x + v).0;
            PadAt(d1.s, d1.posn) != PadAt(d2.s, d2.posn)
  {
    hide Run, EncryptStep, AddAt, ExtractAt, PadAt;
    var step := EncryptStep(p, rate, first);
    var mid := Run(step, c, x).0;
    EncryptPart(p, rate, first, mid, u);
    EncryptPart(p, rate, first, mid, v);
    RunConcat(step, c, x, u);
    RunConcat(step, c, x, v);
    assert Run(step, c, x + u).0 == Cursor(AddAt(mid.s, u, mid.posn), mid.posn + |u|);
    assert Run(step, c, x + v).0 == Cursor(AddAt(mid.s, v, mid.posn), mid.posn + |v|);
    EndsApart(mid.s, u, v, mid.posn);
  }

  // ---------------------------------------------------------------- whole strings

  predicate AtBlock(rate: Rate, n: nat) { n % rate == 0 }

  /** The strings differ within one block: in front of it they are the same, and either both end before
      the block does, or they are the same again behind it. */
  predicate DifferInBlock(rate: Rate, a: seq<byte>, b: seq<byte>, front: nat) {
    && a != b && AtBlock(rate, front)
    && front <= |a| && front <= |b| && a[..front] == b[..front]
    && if front + rate <= |a| && front + rate <= |b| then a[front + rate..] == b[front + rate..]
       else |a| < front + rate && |b| < front + rate
  }

  ghost predicate DifferInOneBlock(rate: Rate, a: seq<byte>, b: seq<byte>) {
    a != b && exists front :: DifferInBlock(rate, a, b, front)
  }

  /** Such strings are kept apart through the padding. */
  lemma BlockEnters(p: Permutation, rate: Rate, first: nat, s: Block, a: seq<byte>, b: seq<byte>, front: nat)
    requires Injective(p) && DifferInBlock(rate, a, b, front)
    ensures var c, d := Run(EncryptStep(p, rate, first), Cursor(s, 0), a).0, Run(EncryptStep(p, rate, first), Cursor(s, 0), b).0;
            PadAt(c.s, c.posn) != PadAt(d.s, d.posn)
  {
    hide Run, EncryptStep, PadAt;
    var x := a[..front];
    PosnAfter(p, rate, first, Cursor(s, 0), x);
    if front + rate <= |a| && front + rate <= |b| {
      var u, v, y := a[front..front + rate], b[front..front + rate], a[front + rate..];
      assert a == x + u + y && b == x + v + y;
      ChangeEnters(p, rate, first, Cursor(s, 0), x, u, v, y);
      var c, d := Run(EncryptStep(p, rate, first), Cursor(s, 0), a).0, Run(EncryptStep(p, rate, first), Cursor(s, 0), b).0;
      PaddedApart(c.s, d.s, c.posn);
    } else {
      assert a == x + a[front..] && b == x + b[front..];
      EndEnters(p, rate, first, Cursor(s, 0), x, a[front..], b[front..]);
    }
  }

  /** And absorbing them gives different states. */
  lemma AbsorbedApart(p: Permutation, rate: Rate, first: nat, s: Block, a: seq<byte>, b: seq<byte>, front: nat, last: bool)
    requires Injective(p) && DifferInBlock(rate, a, b, front)
    ensures Absorbed(p, rate, first, s, a, last) != Absorbed(p, rate, first, s, b, last)
  {
    hide Run, EncryptStep, PadAt;
    BlockEnters(p, rate, first, s, a, b, front);
  }

  /** The same string keeps different states apart. */
  lemma AbsorbedKeepsApart(p: Permutation, rate: Rate, first: nat, s: Block, t: Block, data: seq<byte>, last: bool)
    requires Injective(p) && s != t
    ensures Absorbed(p, rate, first, s, data, last) != Absorbed(p, rate, first, t, data, last)
  {
    hide Run, EncryptStep, PadAt;
    RunsStayApart(p, rate, first, Cursor(s, 0), Cursor(t, 0), data);
    var c, d := Run(EncryptStep(p, rate, first), Cursor(s, 0), data).0, Run(EncryptStep(p, rate, first), Cursor(t, 0), data).0;
    PaddedApart(c.s, d.s, c.posn);
  }

  // ---------------------------------------------------------------- two phases

  function PaddedTo(rate: Rate, data: seq<byte>): seq<byte> {
    data + [0x80] + Zeros(rate - 1 - |data| % rate)
  }

  /** What is absorbed behind the separator is not confused with what is absorbed in front of it. */
  lemma SeparatorCounts(p: Permutation, rate: Rate, first: nat, s: Block, a: seq<byte>, b: seq<byte>)
    requires Injective(p)
    ensures var step := EncryptStep(p, rate, first);
            var c := Run(step, Cursor(AddSeparator(Absorbed(p, rate, first, s, a, true)), 0), b).0;
            var d := Run(step, Cursor(s, 0), PaddedTo(rate, a) + b).0;
            c.posn == d.posn && c.s != d.s
  {
    hide AddAt, PadAt, ExtractAt, XorByte, Run, EncryptStep;
    var step, start, end := EncryptStep(p, rate, first), Cursor(s, 0), [0x80] + Zeros(rate - 1 - |a| % rate);
    var mid := Run(step, start, a).0;
    PosnAfter(p, rate, first, start, a);
    EncryptPart(p, rate, first, mid, end);
    PaddingIsAdded(mid.s, |end| - 1, mid.posn);
    RunConcat(step, start, a, end);
    assert a + end == PaddedTo(rate, a);
    RunConcat(step, start, PaddedTo(rate, a), b);
    var t := p(PadAt(mid.s, mid.posn), first);
    PadBitCounts(t[39]);
    assert AddSeparator(t)[39] != t[39];
    RunsStayApart(p, rate, first, Cursor(AddSeparator(t), 0), Cursor(t, 0), b);
  }

  lemma PaddingIsAdded(s: Block, n: nat, posn: nat)
    requires posn + 1 + n <= 40
    ensures AddAt(s, [0x80] + Zeros(n), posn) == PadAt(s, posn)
  {
    hide AddAt, XorByte;
    AddInTwo(s, [0x80], Zeros(n), posn);
    AddOne(s, 0x80, posn);
    AddZeros(PadAt(s, posn), n, posn + 1);
  }

  // ---------------------------------------------------------------- the limit

  /** Changes in two blocks may cancel: this is as far as injectivity goes. */
  lemma TwoChangesMayCancel(s: Block)
    ensures var p: Permutation := (s: Block, _: nat) => s;
            Injective(p) && Absorbed(p, 1, 0, s, [1, 1], true) == Absorbed(p, 1, 0, s, [0, 0], true)
  {
    hide XorByte;
    var p: Permutation := (s: Block, _: nat) => s;
    var step, start := EncryptStep(p, 1, 0), Cursor(s, 0);
    TwoBytes(step, start, 1, 1);
    TwoBytes(step, start, 0, 0);
    OneCancels(s[0]);
  }

  lemma TwoBytes(step: Step, c: Cursor, a: byte, b: byte)
    ensures Run(step, c, [a, b]).0 == step(step(c, a).0, b).0
  {
    assert [a, b] == [a] + [b];
    RunOne(step, c, a);
    RunOne(step, step(c, a).0, b);
    RunConcat(step, c, [a], [b]);
  }

  lemma OneCancels(b: byte)
    ensures XorByte(XorByte(b, 1), 1) == XorByte(XorByte(b, 0), 0)
  {
  }
}
