/** The block loops that the AEAD modes share. */
module AeadCommon {
  import opened Bytes
  import opened Snp
  import opened Duplex
  import opened Memory

  // ---------------------------------------------------------------- associated data

  /** The state after a string has been absorbed and padded. */
  function Absorbed(p: Permutation, rate: Rate, first: nat, s: Block, data: seq<byte>, lastPermute: bool): Block {
    var c := Run(EncryptStep(p, rate, first), Cursor(s, 0), data).0;
    var padded := PadAt(c.s, c.posn);
    if lastPermute then p(padded, first) else padded
  }

  method Absorb(state: State, data: seq<byte>, rate: Rate, firstRound: nat, lastPermute: bool)
    requires state.Valid()
    modifies state.B
    ensures state.Bytes() == Absorbed(state.permutation, rate, firstRound, old(state.Bytes()), data, lastPermute)
  {
    hide AddAt, ExtractAt, PadAt, Run, EncryptStep;
    ghost var p, step := state.permutation, EncryptStep(state.permutation, rate, firstRound);
    ghost var start := Cursor(state.Bytes(), 0);
    var posn := 0;
    assert data[..0] == [];
    RunNothing(step, start);
    while |data| - posn >= rate
      invariant posn <= |data|
      invariant Run(step, start, data[..posn]).0 == Cursor(state.Bytes(), 0)
    {
      ghost var c := Cursor(state.Bytes(), 0);
      var part := data[posn..posn + rate];
      state.AddBytes(part, 0);
      state.Permute(firstRound);
      EncryptPart(p, rate, firstRound, c, part);
      RunConcat(step, start, data[..posn], part);
      assert data[..posn] + part == data[..posn + rate];
      posn := posn + rate;
    }
    ghost var c := Cursor(state.Bytes(), 0);
    var part := data[posn..];
    if posn < |data| {
      state.AddBytes(part, 0);
    } else {
      AddNothing(c.s, 0);
    }
    EncryptPart(p, rate, firstRound, c, part);
    RunConcat(step, start, data[..posn], part);
    assert data[..posn] + part == data;
    state.Pad(|data| - posn);
    if lastPermute {
      state.Permute(firstRound);
    }
  }

  // ---------------------------------------------------------------- payload

  /** Neither buffer is overwritten before it has been read. */
  predicate Ordered(dest: nat, src: nat, len: nat) {
    dest <= src || src + len <= dest
  }

  method EncryptPartial(state: State, mem: array<byte>, dest: nat, src: nat, offset: nat, len: nat)
    requires state.Valid() && state.B != mem
    requires offset + len <= 40
    requires dest + len <= mem.Length && src + len <= mem.Length
    modifies state.B, mem
    ensures state.Bytes() == AddAt(old(state.Bytes()), old(mem[src..src + len]), offset)
    ensures mem[..] == Splice(old(mem[..]), dest, ExtractAt(state.Bytes(), offset, len))
  {
    hide AddAt, ExtractAt, Splice;
    state.AddBytes(mem[src..src + len], offset);
    var data := state.ExtractBytes(offset, len);
    Write(mem, dest, data);
  }

  method DecryptPartial(state: State, mem: array<byte>, dest: nat, src: nat, offset: nat, len: nat)
    requires state.Valid() && state.B != mem
    requires offset + len <= 40
    requires dest + len <= mem.Length && src + len <= mem.Length
    modifies state.B, mem
    ensures state.Bytes() == OverwriteAt(old(state.Bytes()), old(mem[src..src + len]), offset)
    ensures mem[..] == Splice(old(mem[..]), dest,
                              XorBytes(old(mem[src..src + len]), ExtractAt(old(state.Bytes()), offset, len)))
  {
    hide OverwriteAt, ExtractAt, Splice, XorBytes;
    var data := state.ExtractAndOverwriteBytes(mem[src..src + len], offset);
    Write(mem, dest, data);
  }

  /** How far a block-wise loop has come: the first `done` bytes have been handled. */
  ghost predicate Reached(step: Step, start: Cursor, before: seq<byte>, dest: nat, input: seq<byte>,
                          done: nat, c: Cursor, now: seq<byte>)
    requires done <= |input| && dest + |input| <= |before|
  {
    && Run(step, start, input[..done]).0 == c
    && now == Splice(before, dest, Run(step, start, input[..done]).1)
  }

  /** The next part is still unread, and handling it moves the loop on. */
  lemma Reach(step: Step, start: Cursor, before: seq<byte>, dest: nat, src: nat, input: seq<byte>,
              done: nat, c: Cursor, now: seq<byte>, n: nat)
    requires done + n <= |input| && dest + |input| <= |before| && src + |input| <= |before|
    requires Ordered(dest, src, |input|) && input == before[src..src + |input|]
    requires Reached(step, start, before, dest, input, done, c, now)
    ensures now[src + done..src + done + n] == input[done..done + n]
    ensures var (next, out) := Run(step, c, input[done..done + n]);
            Reached(step, start, before, dest, input, done + n, next, Splice(now, dest + done, out))
  {
    hide Run, Splice;
    var a, b := input[..done], input[done..done + n];
    assert a + b == input[..done + n];
    SliceOfSlice(before, src, |input|, done, n);
    RunConcat(step, start, a, b);
    SpliceElsewhere(before, dest, Run(step, start, a).1, src + done, src + done + n);
    SpliceInTwo(before, dest, Run(step, start, a).1, Run(step, c, b).1);
  }

  lemma SliceOfSlice(s: seq<byte>, from: nat, len: nat, at: nat, n: nat)
    requires from + len <= |s| && at + n <= len
    ensures s[from..from + len][at..at + n] == s[from + at..from + at + n]
  {
    var left, right := s[from..from + len][at..at + n], s[from + at..from + at + n];
    forall i | 0 <= i < n
      ensures left[i] == right[i]
    {
      assert left[i] == s[from..from + len][at + i] == s[from + at + i];
    }
  }

  lemma ReachEncrypt(p: Permutation, rate: Rate, first: nat, start: Cursor, before: seq<byte>, dest: nat, src: nat,
                     input: seq<byte>, done: nat, c: Cursor, now: seq<byte>, n: nat)
    requires done + n <= |input| && dest + |input| <= |before| && src + |input| <= |before|
    requires Ordered(dest, src, |input|) && input == before[src..src + |input|]
    requires c.posn < rate && c.posn + n <= rate
    requires Reached(EncryptStep(p, rate, first), start, before, dest, input, done, c, now)
    ensures |now| == |before|
    ensures var s := AddAt(c.s, now[src + done..src + done + n], c.posn);
            Reached(EncryptStep(p, rate, first), start, before, dest, input, done + n,
                    Moved(p, rate, first, s, c.posn + n), Splice(now, dest + done, ExtractAt(s, c.posn, n)))
  {
    hide Run, Splice, Moved, AddAt, ExtractAt, Reached, EncryptStep;
    assert |now| == |before| by { ReachedLength(EncryptStep(p, rate, first), start, before, dest, input, done, c, now); }
    Reach(EncryptStep(p, rate, first), start, before, dest, src, input, done, c, now, n);
    EncryptPart(p, rate, first, c, input[done..done + n]);
  }

  lemma ReachDecrypt(p: Permutation, rate: Rate, first: nat, start: Cursor, before: seq<byte>, dest: nat, src: nat,
                     input: seq<byte>, done: nat, c: Cursor, now: seq<byte>, n: nat)
    requires done + n <= |input| && dest + |input| <= |before| && src + |input| <= |before|
    requires Ordered(dest, src, |input|) && input == before[src..src + |input|]
    requires c.posn < rate && c.posn + n <= rate
    requires Reached(DecryptStep(p, rate, first), start, before, dest, input, done, c, now)
    ensures |now| == |before|
    ensures var part := now[src + done..src + done + n];
            Reached(DecryptStep(p, rate, first), start, before, dest, input, done + n,
                    Moved(p, rate, first, OverwriteAt(c.s, part, c.posn), c.posn + n),
                    Splice(now, dest + done, XorBytes(part, ExtractAt(c.s, c.posn, n))))
  {
    hide Run, Splice, Moved, OverwriteAt, ExtractAt, XorBytes, Reached, DecryptStep;
    assert |now| == |before| by { ReachedLength(DecryptStep(p, rate, first), start, before, dest, input, done, c, now); }
    Reach(DecryptStep(p, rate, first), start, before, dest, src, input, done, c, now, n);
    DecryptPart(p, rate, first, c, input[done..done + n]);
  }

  lemma ReachedLength(step: Step, start: Cursor, before: seq<byte>, dest: nat, input: seq<byte>,
                      done: nat, c: Cursor, now: seq<byte>)
    requires done <= |input| && dest + |input| <= |before|
    requires Reached(step, start, before, dest, input, done, c, now)
    ensures |now| == |before|
  {
  }

  lemma ReachedNothing(step: Step, start: Cursor, before: seq<byte>, dest: nat, input: seq<byte>)
    requires dest + |input| <= |before|
    ensures Reached(step, start, before, dest, input, 0, start, before)
  {
    SpliceNothing(before, dest);
  }

  method EncryptChunk(state: State, mem: array<byte>, dest: nat, src: nat, len: nat, rate: Rate, firstRound: nat,
                      posn: nat, done: nat, n: nat, ghost start: Cursor, ghost before: seq<byte>, ghost input: seq<byte>)
    requires state.Valid() && state.B != mem
    requires dest + len <= mem.Length && src + len <= mem.Length && Ordered(dest, src, len)
    requires |before| == mem.Length && len == |input| && input == before[src..src + len]
    requires done + n <= len && posn < rate && posn + n <= rate
    requires Reached(EncryptStep(state.permutation, rate, firstRound), start, before, dest, input, done,
                     Cursor(state.Bytes(), posn), mem[..])
    modifies state.B, mem
    ensures Reached(EncryptStep(state.permutation, rate, firstRound), start, before, dest, input, done + n,
                    Moved(state.permutation, rate, firstRound, state.Bytes(), posn + n), mem[..])
  {
    hide AddAt, ExtractAt, Splice, Run, Reached, EncryptStep, Moved;
    ReachEncrypt(state.permutation, rate, firstRound, start, before, dest, src, input, done,
            Cursor(state.Bytes(), posn), mem[..], n);
    EncryptPartial(state, mem, dest + done, src + done, posn, n);
  }

  method EncryptBlocks(state: State, mem: array<byte>, dest: nat, src: nat, len: nat,
                       rate: Rate, firstRound: nat, partial: nat) returns (posn: nat)
    requires state.Valid() && state.B != mem
    requires dest + len <= mem.Length && src + len <= mem.Length && Ordered(dest, src, len)
    requires partial < rate
    modifies state.B, mem
    ensures posn < rate
    ensures var (last, out) := Run(EncryptStep(state.permutation, rate, firstRound),
                                   Cursor(old(state.Bytes()), partial), old(mem[src..src + len]));
            && Cursor(state.Bytes(), posn) == last
            && mem[..] == Splice(old(mem[..]), dest, out)
  {
    hide AddAt, ExtractAt, Splice, Run, Reached, EncryptStep;
    ghost var p, step := state.permutation, EncryptStep(state.permutation, rate, firstRound);
    ghost var start, before, input := Cursor(state.Bytes(), partial), mem[..], mem[src..src + len];
    var done := 0;
    ReachedNothing(step, start, before, dest, input);
    if partial != 0 {
      var temp := rate - partial;
      if temp > len {
        EncryptChunk(state, mem, dest, src, len, rate, firstRound, partial, 0, len, start, before, input);
        ReachedAll(step, start, before, dest, input, Cursor(state.Bytes(), partial + len), mem[..]);
        return partial + len;
      }
      EncryptChunk(state, mem, dest, src, len, rate, firstRound, partial, 0, temp, start, before, input);
      state.Permute(firstRound);
      done := temp;
    }
    while len - done >= rate
      invariant done <= len
      invariant Reached(step, start, before, dest, input, done, Cursor(state.Bytes(), 0), mem[..])
    {
      EncryptChunk(state, mem, dest, src, len, rate, firstRound, 0, done, rate, start, before, input);
      state.Permute(firstRound);
      done := done + rate;
    }
    posn := len - done;
    if done < len {
      EncryptChunk(state, mem, dest, src, len, rate, firstRound, 0, done, posn, start, before, input);
    }
    ReachedAll(step, start, before, dest, input, Cursor(state.Bytes(), posn), mem[..]);
  }

  lemma ReachedAll(step: Step, start: Cursor, before: seq<byte>, dest: nat, input: seq<byte>, c: Cursor, now: seq<byte>)
    requires dest + |input| <= |before|
    requires Reached(step, start, before, dest, input, |input|, c, now)
    ensures var (last, out) := Run(step, start, input); c == last && now == Splice(before, dest, out)
  {
    assert input[..|input|] == input;
  }

  method DecryptChunk(state: State, mem: array<byte>, dest: nat, src: nat, len: nat, rate: Rate, firstRound: nat,
                      posn: nat, done: nat, n: nat, ghost start: Cursor, ghost before: seq<byte>, ghost input: seq<byte>)
    requires state.Valid() && state.B != mem
    requires dest + len <= mem.Length && src + len <= mem.Length && Ordered(dest, src, len)
    requires |before| == mem.Length && len == |input| && input == before[src..src + len]
    requires done + n <= len && posn < rate && posn + n <= rate
    requires Reached(DecryptStep(state.permutation, rate, firstRound), start, before, dest, input, done,
                     Cursor(state.Bytes(), posn), mem[..])
    modifies state.B, mem
    ensures Reached(DecryptStep(state.permutation, rate, firstRound), start, before, dest, input, done + n,
                    Moved(state.permutation, rate, firstRound, state.Bytes(), posn + n), mem[..])
  {
    hide OverwriteAt, XorBytes, ExtractAt, Splice, Run, Reached, DecryptStep, Moved;
    ReachDecrypt(state.permutation, rate, firstRound, start, before, dest, src, input, done,
            Cursor(state.Bytes(), posn), mem[..], n);
    DecryptPartial(state, mem, dest + done, src + done, posn, n);
  }

  method DecryptBlocks(state: State, mem: array<byte>, dest: nat, src: nat, len: nat,
                       rate: Rate, firstRound: nat, partial: nat) returns (posn: nat)
    requires state.Valid() && state.B != mem
    requires dest + len <= mem.Length && src + len <= mem.Length && Ordered(dest, src, len)
    requires partial < rate
    modifies state.B, mem
    ensures posn < rate
    ensures var (last, out) := Run(DecryptStep(state.permutation, rate, firstRound),
                                   Cursor(old(state.Bytes()), partial), old(mem[src..src + len]));
            && Cursor(state.Bytes(), posn) == last
            && mem[..] == Splice(old(mem[..]), dest, out)
  {
    hide OverwriteAt, XorBytes, ExtractAt, Splice, Run, Reached, DecryptStep;
    ghost var p, step := state.permutation, DecryptStep(state.permutation, rate, firstRound);
    ghost var start, before, input := Cursor(state.Bytes(), partial), mem[..], mem[src..src + len];
    var done := 0;
    ReachedNothing(step, start, before, dest, input);
    if partial != 0 {
      var temp := rate - partial;
      if temp > len {
        DecryptChunk(state, mem, dest, src, len, rate, firstRound, partial, 0, len, start, before, input);
        ReachedAll(step, start, before, dest, input, Cursor(state.Bytes(), partial + len), mem[..]);
        return partial + len;
      }
      DecryptChunk(state, mem, dest, src, len, rate, firstRound, partial, 0, temp, start, before, input);
      state.Permute(firstRound);
      done := temp;
    }
    while len - done >= rate
      invariant done <= len
      invariant Reached(step, start, before, dest, input, done, Cursor(state.Bytes(), 0), mem[..])
    {
      DecryptChunk(state, mem, dest, src, len, rate, firstRound, 0, done, rate, start, before, input);
      state.Permute(firstRound);
      done := done + rate;
    }
    posn := len - done;
    if done < len {
      DecryptChunk(state, mem, dest, src, len, rate, firstRound, 0, done, posn, start, before, input);
    }
    ReachedAll(step, start, before, dest, input, Cursor(state.Bytes(), posn), mem[..]);
  }

  // ---------------------------------------------------------------- the tag

  /** The mask of a comparison that does not branch on the tags: all ones if they agree. */
  method Compare(tag1: seq<byte>, tag2: seq<byte>) returns (accum: int)
    requires |tag1| == |tag2|
    ensures accum == if tag1 == tag2 then -1 else 0
  {
    hide ShiftRight8;
    var differing: byte := 0;
    var i := 0;
    while i < |tag1|
      invariant i <= |tag1|
      invariant differing == 0 <==> tag1[..i] == tag2[..i]
    {
      DifferingBits(differing, tag1[i], tag2[i]);
      assert tag1[..i + 1] == tag1[..i] + [tag1[i]] && tag2[..i + 1] == tag2[..i] + [tag2[i]];
      differing := differing | (tag1[i] ^ tag2[i]);
      i := i + 1;
    }
    assert tag1[..i] == tag1 && tag2[..i] == tag2;
    accum := ShiftRight8(differing as int - 1);
    ShiftedMask(differing as int);
  }

  /** Checks a tag; on a mismatch the plaintext is wiped. */
  method CheckTag(mem: array<byte>, plaintext: nat, plaintextLen: nat, tag1: seq<byte>, tag2: seq<byte>)
      returns (result: int)
    requires plaintext + plaintextLen <= mem.Length
    requires |tag1| == |tag2|
    modifies mem
    ensures result == if tag1 == tag2 then 0 else -1
    ensures mem[..] == if tag1 == tag2 then old(mem[..]) else Splice(old(mem[..]), plaintext, Zeros(plaintextLen))
  {
    hide Splice, LowByte;
    var accum := Compare(tag1, tag2);
    var posn := 0;
    WipeNothing(mem[..], plaintext);
    while posn < plaintextLen
      invariant posn <= plaintextLen
      invariant mem[..] == if accum == -1 then old(mem[..]) else Splice(old(mem[..]), plaintext, Zeros(posn))
    {
      MaskedByte(mem[plaintext + posn], accum);
      WipeOneMore(old(mem[..]), plaintext, posn);
      mem[plaintext + posn] := mem[plaintext + posn] & LowByte(accum);
      assert mem[..] == if accum == -1 then old(mem[..]) else Splice(old(mem[..]), plaintext, Zeros(posn))[plaintext + posn := 0];
      posn := posn + 1;
    }
    result := -accum - 1;
  }

  lemma ShiftedMask(n: int)
    requires 0 <= n < 0x100
    ensures ShiftRight8(n - 1) == if n == 0 then -1 else 0
  {
  }

  lemma MaskedByte(b: byte, mask: int)
    requires -1 <= mask <= 0
    ensures b & LowByte(mask) == if mask == -1 then b else 0
  {
  }

  lemma WipeNothing(before: seq<byte>, at: nat)
    requires at <= |before|
    ensures Splice(before, at, Zeros(0)) == before
  {
  }

  lemma WipeOneMore(before: seq<byte>, at: nat, n: nat)
    requires at + n < |before|
    ensures Splice(before, at, Zeros(n))[at + n := 0] == Splice(before, at, Zeros(n + 1))
  {
  }

  /** An arithmetic shift of an int by eight bits. */
  function ShiftRight8(n: int): int { n / 0x100 }

  /** The low byte of a mask that is all ones or all zeroes. */
  function LowByte(mask: int): byte
    requires -1 <= mask <= 0
  {
    if mask == -1 then 0xff else 0
  }

  lemma DifferingBits(d: byte, a: byte, b: byte)
    ensures d | (a ^ b) == 0 <==> d == 0 && a == b
  {
  }
}
