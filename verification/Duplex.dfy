/** The duplex construction one byte at a time: the simple form that every block-wise loop over
    the rate of the state is proved against.  A cursor is the state together with the number of
    bytes of the current block that have been handled. */
module Duplex {
  import opened Bytes
  import opened Snp

  datatype CursorData = Cursor(s: Block, posn: nat)

  type Cursor = c: CursorData | c.posn < 40 witness Cursor(Zeros(40), 0)

  type Rate = r: nat | 0 < r <= 40 witness 8

  /** Handles one byte and produces one byte. */
  type Step = (Cursor, byte) -> (Cursor, byte)

  function Advance(p: Permutation, rate: Rate, first: nat, s: Block, posn: nat): Cursor
    requires posn < 40
  {
    if posn + 1 >= rate then Cursor(p(s, first), 0) else Cursor(s, posn + 1)
  }

  /** Adds the byte to the state; the output is what the state then holds. */
  function EncryptStep(p: Permutation, rate: Rate, first: nat): Step {
    (c: Cursor, b: byte) =>
      var s: Block := c.s[c.posn := XorByte(c.s[c.posn], b)];
      (Advance(p, rate, first, s, c.posn), s[c.posn])
  }

  /** Replaces a byte of the state; the output is the sum of both. */
  function DecryptStep(p: Permutation, rate: Rate, first: nat): Step {
    (c: Cursor, b: byte) =>
      (Advance(p, rate, first, c.s[c.posn := b], c.posn), XorByte(b, c.s[c.posn]))
  }

  /** Reads a byte, permuting before the first byte of every block. */
  function SqueezeAfterPermute(p: Permutation, rate: Rate, first: nat): Step {
    (c: Cursor, _: byte) =>
      var s := if c.posn == 0 then p(c.s, first) else c.s;
      (Cursor(s, if c.posn + 1 >= rate then 0 else c.posn + 1), s[c.posn])
  }

  /** Reads a byte, permuting after the last byte of every block. */
  function SqueezeThenPermute(p: Permutation, rate: Rate, first: nat): Step {
    (c: Cursor, _: byte) => (Advance(p, rate, first, c.s, c.posn), c.s[c.posn])
  }

  // ---------------------------------------------------------------- running a step over a string

  function Run(step: Step, c: Cursor, input: seq<byte>): (r: (Cursor, seq<byte>))
    ensures |r.1| == |input|
    decreases |input|
  {
    if input == [] then (c, [])
    else
      var (next, out) := step(c, input[0]);
      var (last, rest) := Run(step, next, input[1..]);
      (last, [out] + rest)
  }

  /** Splitting the input anywhere changes nothing. */
  lemma {:induction false} RunConcat(step: Step, c: Cursor, a: seq<byte>, b: seq<byte>)
    ensures var (mid, out) := Run(step, c, a);
            var (last, rest) := Run(step, mid, b);
            Run(step, c, a + b) == (last, out + rest)
    decreases |a|
  {
    if a == [] {
      assert a + b == b;
      assert Run(step, c, a) == (c, []);
      assert [] + Run(step, c, b).1 == Run(step, c, b).1;
    } else {
      assert (a + b)[0] == a[0] && (a + b)[1..] == a[1..] + b;
      RunConcat(step, step(c, a[0]).0, a[1..], b);
      var (mid, out) := Run(step, c, a);
      assert out + Run(step, mid, b).1 == [out[0]] + (out[1..] + Run(step, mid, b).1);
    }
  }

  lemma RunNothing(step: Step, c: Cursor)
    ensures Run(step, c, []) == (c, [])
  {
  }

  lemma RunOne(step: Step, c: Cursor, b: byte)
    ensures Run(step, c, [b]) == (step(c, b).0, [step(c, b).1])
  {
    assert [b][1..] == [];
    assert Run(step, step(c, b).0, [b][1..]) == (step(c, b).0, []);
    assert [step(c, b).1] + [] == [step(c, b).1];
  }

  /** The chunks one after the other, whatever their sizes. */
  function Flatten(chunks: seq<seq<byte>>): seq<byte> {
    if chunks == [] then [] else chunks[0] + Flatten(chunks[1..])
  }

  function RunChunks(step: Step, c: Cursor, chunks: seq<seq<byte>>): (Cursor, seq<byte>)
    decreases |chunks|
  {
    if chunks == [] then (c, [])
    else
      var (mid, out) := Run(step, c, chunks[0]);
      var (last, rest) := RunChunks(step, mid, chunks[1..]);
      (last, out + rest)
  }

  lemma {:induction false} RunChunksFlatten(step: Step, c: Cursor, chunks: seq<seq<byte>>)
    ensures RunChunks(step, c, chunks) == Run(step, c, Flatten(chunks))
    decreases |chunks|
  {
    if chunks != [] {
      RunChunksFlatten(step, Run(step, c, chunks[0]).0, chunks[1..]);
      RunConcat(step, c, chunks[0], Flatten(chunks[1..]));
    }
  }

  // ---------------------------------------------------------------- whole parts of a block

  /** Where the cursor is after `n` bytes that do not go past the end of its block. */
  function Moved(p: Permutation, rate: Rate, first: nat, s: Block, posn: nat): Cursor
    requires posn <= rate
  {
    if posn == rate then Cursor(p(s, first), 0) else Cursor(s, posn)
  }

  lemma {:induction false} EncryptPart(p: Permutation, rate: Rate, first: nat, c: Cursor, data: seq<byte>)
    requires c.posn < rate && c.posn + |data| <= rate
    ensures var s := AddAt(c.s, data, c.posn);
            Run(EncryptStep(p, rate, first), c, data)
            == (Moved(p, rate, first, s, c.posn + |data|), ExtractAt(s, c.posn, |data|))
    decreases |data|
  {
    hide XorByte, AddAt, ExtractAt;
    var step := EncryptStep(p, rate, first);
    if data == [] {
      AddNothing(c.s, c.posn);
      ExtractNothing(c.s, c.posn);
    } else {
      var n := |data| - 1;
      var init, b := data[..n], data[n];
      assert init + [b] == data;
      EncryptPart(p, rate, first, c, init);
      var mid := Cursor(AddAt(c.s, init, c.posn), c.posn + n);
      RunConcat(step, c, init, [b]);
      RunOne(step, mid, b);
      AddInTwo(c.s, init, [b], c.posn);
      AddOne(mid.s, b, mid.posn);
      ExtractUpdated(mid.s, XorByte(mid.s[mid.posn], b), c.posn, n);
    }
  }

  lemma {:induction false} DecryptPart(p: Permutation, rate: Rate, first: nat, c: Cursor, data: seq<byte>)
    requires c.posn < rate && c.posn + |data| <= rate
    ensures Run(DecryptStep(p, rate, first), c, data)
         == (Moved(p, rate, first, OverwriteAt(c.s, data, c.posn), c.posn + |data|),
             XorBytes(data, ExtractAt(c.s, c.posn, |data|)))
    decreases |data|
  {
    hide XorByte, XorBytes, OverwriteAt, ExtractAt;
    var step := DecryptStep(p, rate, first);
    if data == [] {
      OverwriteNothing(c.s, c.posn);
      XorNothing();
      ExtractNothing(c.s, c.posn);
    } else {
      var n := |data| - 1;
      var init, b := data[..n], data[n];
      assert init + [b] == data;
      DecryptPart(p, rate, first, c, init);
      var mid := Cursor(OverwriteAt(c.s, init, c.posn), c.posn + n);
      RunConcat(step, c, init, [b]);
      RunOne(step, mid, b);
      OverwriteOneMore(c.s, init, b, c.posn);
      XorOneMore(init, b, c.s, c.posn);
    }
  }

  // ---------------------------------------------------------------- decryption undoes encryption

  lemma {:induction false} DecryptUndoesEncrypt(p: Permutation, rate: Rate, first: nat, c: Cursor, m: seq<byte>)
    ensures var (last, out) := Run(EncryptStep(p, rate, first), c, m);
            Run(DecryptStep(p, rate, first), c, out) == (last, m)
    decreases |m|
  {
    hide XorByte;
    if m == [] {
      assert Run(EncryptStep(p, rate, first), c, m) == (c, m);
    } else {
      var (next, b) := EncryptStep(p, rate, first)(c, m[0]);
      XorByteUndone(c.s[c.posn], m[0]);
      assert c.s[c.posn := b] == c.s[c.posn := XorByte(c.s[c.posn], m[0])];
      assert DecryptStep(p, rate, first)(c, b) == (next, m[0]);
      DecryptUndoesEncrypt(p, rate, first, next, m[1..]);
      RunFirst(EncryptStep(p, rate, first), c, m);
      var out := Run(EncryptStep(p, rate, first), c, m).1;
      RunFirst(DecryptStep(p, rate, first), c, out);
      assert m == [m[0]] + m[1..];
    }
  }

  /** And encryption undoes decryption: no two ciphertexts decrypt to the same bytes. */
  lemma {:induction false} EncryptUndoesDecrypt(p: Permutation, rate: Rate, first: nat, c: Cursor, d: seq<byte>)
    ensures var (last, out) := Run(DecryptStep(p, rate, first), c, d);
            Run(EncryptStep(p, rate, first), c, out) == (last, d)
    decreases |d|
  {
    hide XorByte;
    if d == [] {
      assert Run(DecryptStep(p, rate, first), c, d) == (c, d);
    } else {
      var (next, b) := DecryptStep(p, rate, first)(c, d[0]);
      XorByteUndone(c.s[c.posn], d[0]);
      assert EncryptStep(p, rate, first)(c, b) == (next, d[0]);
      EncryptUndoesDecrypt(p, rate, first, next, d[1..]);
      RunFirst(DecryptStep(p, rate, first), c, d);
      var out := Run(DecryptStep(p, rate, first), c, d).1;
      RunFirst(EncryptStep(p, rate, first), c, out);
      assert d == [d[0]] + d[1..];
    }
  }

  lemma RunFirst(step: Step, c: Cursor, input: seq<byte>)
    requires input != []
    ensures Run(step, c, input).0 == Run(step, step(c, input[0]).0, input[1..]).0
    ensures Run(step, c, input).1 == [step(c, input[0]).1] + Run(step, step(c, input[0]).0, input[1..]).1
    ensures Run(step, c, input).1[0] == step(c, input[0]).1
    ensures Run(step, c, input).1[1..] == Run(step, step(c, input[0]).0, input[1..]).1
  {
  }

  lemma XorByteUndone(a: byte, b: byte)
    ensures XorByte(XorByte(a, b), a) == b
    ensures XorByte(a, XorByte(b, a)) == b
  {
  }
}
