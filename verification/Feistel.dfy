/** The block cipher of the examples: a Feistel network whose round function is the permutation. */
module Feistel {
  import opened Bytes
  import opened Options
  import opened Snp

  const KEY_SIZE: nat := 16
  const TWEAK_SIZE: nat := 12

  type Half = h: seq<byte> | |h| == 8 witness Zeros(8)

  /** A round key and a round constant for every round. */
  datatype Round = Round(key: seq<byte>, constant: seq<byte>)

  predicate Proper(rounds: seq<Round>) {
    forall i | 0 <= i < |rounds| :: |rounds[i].key| == KEY_SIZE && |rounds[i].constant| == 4
  }

  predicate TweakSized(tweak: Option<seq<byte>>) {
    tweak.Some? ==> |tweak.value| == TWEAK_SIZE
  }

  // ---------------------------------------------------------------- round keys

  /** Doubling in GF(2^128), with the first byte the highest. */
  function Doubled(k: seq<byte>): (r: seq<byte>)
    requires |k| == KEY_SIZE
    ensures |r| == KEY_SIZE
  {
    seq(KEY_SIZE, i requires 0 <= i < KEY_SIZE =>
      if i < 15 then ShiftIn(k[i], k[i + 1]) else Reduced(k[15], k[0]))
  }

  function ShiftIn(b: byte, next: byte): byte { (b << 1) | (next >> 7) }

  function Reduced(last: byte, first: byte): byte { (last << 1) ^ (SignMask(first) & 0x87) }

  /** All ones if the highest bit is set: an arithmetic shift of a signed byte by seven. */
  function SignMask(b: byte): byte { if b & 0x80 != 0 then 0xff else 0 }

  /** Doubling loses nothing, so no two keys have the same schedule from any round on. */
  lemma DoubledInjective(a: seq<byte>, b: seq<byte>)
    requires |a| == |b| == KEY_SIZE && Doubled(a) == Doubled(b)
    ensures a == b
  {
    hide ShiftIn, Reduced;
    assert Doubled(a)[15] == Doubled(b)[15];
    LastDetermines(a[15], a[0], b[15], b[0]);
    forall i | 0 <= i < KEY_SIZE
      ensures a[i] == b[i]
    {
      ByteDetermined(a, b, i);
    }
  }

  lemma LastDetermines(last1: byte, first1: byte, last2: byte, first2: byte)
    requires Reduced(last1, first1) == Reduced(last2, first2)
    ensures last1 & 0x7f == last2 & 0x7f && first1 & 0x80 == first2 & 0x80
  {
  }

  lemma ByteDetermined(a: seq<byte>, b: seq<byte>, i: nat)
    requires |a| == |b| == KEY_SIZE && Doubled(a) == Doubled(b) && i < KEY_SIZE
    requires a[0] & 0x80 == b[0] & 0x80 && a[15] & 0x7f == b[15] & 0x7f
    ensures a[i] == b[i]
  {
    hide ShiftIn, Reduced, Doubled;
    if i > 0 {
      ShiftedAt(a, b, i - 1);
      ShiftDetermines(a[i - 1], a[i], b[i - 1], b[i]);
    }
    if i < 15 {
      ShiftedAt(a, b, i);
      ShiftDetermines(a[i], a[i + 1], b[i], b[i + 1]);
    }
    HalvesDetermine(a[i], b[i]);
  }

  lemma ShiftedAt(a: seq<byte>, b: seq<byte>, i: nat)
    requires |a| == |b| == KEY_SIZE && Doubled(a) == Doubled(b) && i < 15
    ensures ShiftIn(a[i], a[i + 1]) == ShiftIn(b[i], b[i + 1])
  {
    hide ShiftIn, Reduced;
    assert Doubled(a)[i] == ShiftIn(a[i], a[i + 1]);
    assert Doubled(b)[i] == ShiftIn(b[i], b[i + 1]);
  }

  lemma ShiftDetermines(b1: byte, next1: byte, b2: byte, next2: byte)
    requires ShiftIn(b1, next1) == ShiftIn(b2, next2)
    ensures b1 & 0x7f == b2 & 0x7f && next1 & 0x80 == next2 & 0x80
  {
  }

  lemma HalvesDetermine(a: byte, b: byte)
    requires a & 0x80 == b & 0x80 && a & 0x7f == b & 0x7f
    ensures a == b
  {
  }

  function Schedule(k: seq<byte>, constants: seq<seq<byte>>): (rounds: seq<Round>)
    requires |k| == KEY_SIZE && forall i | 0 <= i < |constants| :: |constants[i]| == 4
    ensures |rounds| == |constants| && Proper(rounds)
  {
    if constants == [] then []
    else
      var front := Schedule(k, constants[..|constants| - 1]);
      front + [Round(if front == [] then k else Doubled(front[|front| - 1].key), constants[|constants| - 1])]
  }

  /** The first round key is the key, every other one the double of the one before; so two keys have
      different round keys in every round. */
  lemma {:induction false} ScheduleDoubles(k: seq<byte>, constants: seq<seq<byte>>, i: nat)
    requires |k| == KEY_SIZE && forall j | 0 <= j < |constants| :: |constants[j]| == 4
    requires i < |constants|
    ensures var rounds := Schedule(k, constants);
            rounds[i].constant == constants[i] && rounds[i].key == if i == 0 then k else Doubled(rounds[i - 1].key)
    decreases |constants|
  {
    hide Doubled;
    if i < |constants| - 1 {
      ScheduleDoubles(k, constants[..|constants| - 1], i);
    }
  }

  lemma {:induction false} SchedulesApart(k1: seq<byte>, k2: seq<byte>, constants: seq<seq<byte>>, i: nat)
    requires |k1| == |k2| == KEY_SIZE && k1 != k2 && i < |constants|
    requires forall j | 0 <= j < |constants| :: |constants[j]| == 4
    ensures Schedule(k1, constants)[i].key != Schedule(k2, constants)[i].key
    decreases i
  {
    hide Doubled, Schedule;
    ScheduleDoubles(k1, constants, i);
    ScheduleDoubles(k2, constants, i);
    if i > 0 {
      SchedulesApart(k1, k2, constants, i - 1);
      var a, b := Schedule(k1, constants)[i - 1].key, Schedule(k2, constants)[i - 1].key;
      if Doubled(a) == Doubled(b) {
        DoubledInjective(a, b);
      }
    }
  }

  method Double(k: seq<byte>) returns (out: seq<byte>)
    requires |k| == KEY_SIZE
    ensures out == Doubled(k)
  {
    hide ShiftIn, Reduced, Doubled;
    var mask := SignMask(k[0]);
    out := [];
    while |out| < 15
      invariant |out| <= 15
      invariant out == Doubled(k)[..|out|]
    {
      DoubledNext(k, |out|);
      out := out + [ShiftIn(k[|out|], k[|out| + 1])];
    }
    DoubledLast(k);
    MaskUsed(k[15], k[0]);
    out := out + [(k[15] << 1) ^ (mask & 0x87)];
  }

  lemma DoubledNext(k: seq<byte>, i: nat)
    requires |k| == KEY_SIZE && i < 15
    ensures Doubled(k)[..i + 1] == Doubled(k)[..i] + [ShiftIn(k[i], k[i + 1])]
  {
    hide ShiftIn, Reduced;
  }

  lemma DoubledLast(k: seq<byte>)
    requires |k| == KEY_SIZE
    ensures Doubled(k) == Doubled(k)[..15] + [Reduced(k[15], k[0])]
  {
    hide ShiftIn, Reduced;
  }

  lemma MaskUsed(last: byte, first: byte)
    ensures (last << 1) ^ (SignMask(first) & 0x87) == Reduced(last, first)
  {
  }

  method Init(k: seq<byte>, constants: seq<seq<byte>>) returns (rounds: seq<Round>)
    requires |k| == KEY_SIZE && |constants| > 0 && forall i | 0 <= i < |constants| :: |constants[i]| == 4
    ensures rounds == Schedule(k, constants)
  {
    hide Doubled;
    rounds := [Round(k, constants[0])];
    assert constants[..1][..0] == [];
    var round := 1;
    while round < |constants|
      invariant 1 <= round <= |constants| && |rounds| == round
      invariant rounds == Schedule(k, constants[..round])
    {
      var key := Double(rounds[round - 1].key);
      assert constants[..round + 1][..round] == constants[..round];
      rounds := rounds + [Round(key, constants[round])];
      round := round + 1;
    }
    assert constants[..round] == constants;
  }

  // ---------------------------------------------------------------- what the rounds compute

  /** Half, round key, tweak and round constant fill the state. */
  function RoundInput(round: Round, tweak: Option<seq<byte>>, r: Half): Block
    requires |round.key| == KEY_SIZE && |round.constant| == 4 && TweakSized(tweak)
  {
    r + round.key + tweak.GetOr(Zeros(12)) + round.constant
  }

  function F(p: Permutation, round: Round, tweak: Option<seq<byte>>, r: Half): (f: Half)
    requires |round.key| == KEY_SIZE && |round.constant| == 4 && TweakSized(tweak)
  {
    ExtractAt(p(RoundInput(round, tweak, r), 6), 0, 8)
  }

  /** Two inputs of the round function are the same exactly if the halves, the round keys, the round
      constants and the tweaks are, where no tweak counts as zeros. */
  lemma SameInputIff(round1: Round, tweak1: Option<seq<byte>>, r1: Half, round2: Round, tweak2: Option<seq<byte>>, r2: Half)
    requires |round1.key| == |round2.key| == KEY_SIZE && |round1.constant| == |round2.constant| == 4
    requires TweakSized(tweak1) && TweakSized(tweak2)
    ensures RoundInput(round1, tweak1, r1) == RoundInput(round2, tweak2, r2) <==>
              r1 == r2 && round1 == round2 && tweak1.GetOr(Zeros(12)) == tweak2.GetOr(Zeros(12))
  {
    var a, b := RoundInput(round1, tweak1, r1), RoundInput(round2, tweak2, r2);
    assert a[..8] == r1 && a[8..24] == round1.key && a[24..36] == tweak1.GetOr(Zeros(12)) && a[36..] == round1.constant;
    assert b[..8] == r2 && b[8..24] == round2.key && b[24..36] == tweak2.GetOr(Zeros(12)) && b[36..] == round2.constant;
  }

  /** So the round function gives the same half for two of them only where the permutation maps
      different states to ones that begin with the same eight bytes. */
  lemma SameHalfIsCollision(p: Permutation, round1: Round, tweak1: Option<seq<byte>>, r1: Half,
                            round2: Round, tweak2: Option<seq<byte>>, r2: Half) returns (x: Block, y: Block)
    requires |round1.key| == |round2.key| == KEY_SIZE && |round1.constant| == |round2.constant| == 4
    requires TweakSized(tweak1) && TweakSized(tweak2)
    requires r1 != r2 || round1 != round2 || tweak1.GetOr(Zeros(12)) != tweak2.GetOr(Zeros(12))
    requires F(p, round1, tweak1, r1) == F(p, round2, tweak2, r2)
    ensures x != y && p(x, 6)[..8] == p(y, 6)[..8]
  {
    x, y := RoundInput(round1, tweak1, r1), RoundInput(round2, tweak2, r2);
    SameInputIff(round1, tweak1, r1, round2, tweak2, r2);
  }

  /** One round: the halves change places. */
  function Turn(p: Permutation, round: Round, tweak: Option<seq<byte>>, halves: (Half, Half)): (Half, Half)
    requires |round.key| == KEY_SIZE && |round.constant| == 4 && TweakSized(tweak)
  {
    (halves.1, XorBytes(halves.0, F(p, round, tweak, halves.1)))
  }

  function Forward(p: Permutation, rounds: seq<Round>, tweak: Option<seq<byte>>, n: nat, halves: (Half, Half)): (Half, Half)
    requires Proper(rounds) && TweakSized(tweak) && n <= |rounds|
  {
    if n == 0 then halves else Turn(p, rounds[n - 1], tweak, Forward(p, rounds, tweak, n - 1, halves))
  }

  function Backward(p: Permutation, rounds: seq<Round>, tweak: Option<seq<byte>>, n: nat, halves: (Half, Half)): (Half, Half)
    requires Proper(rounds) && TweakSized(tweak) && n <= |rounds|
  {
    if n == 0 then halves else Backward(p, rounds, tweak, n - 1, Turn(p, rounds[n - 1], tweak, halves))
  }

  function Swap(halves: (Half, Half)): (Half, Half) { (halves.1, halves.0) }

  function Encrypted(p: Permutation, rounds: seq<Round>, tweak: Option<seq<byte>>, m: seq<byte>): (c: seq<byte>)
    requires Proper(rounds) && TweakSized(tweak) && |m| == 16
    ensures |c| == 16
  {
    var last := Forward(p, rounds, tweak, |rounds|, (m[..8], m[8..]));
    last.1 + last.0
  }

  function Decrypted(p: Permutation, rounds: seq<Round>, tweak: Option<seq<byte>>, c: seq<byte>): (m: seq<byte>)
    requires Proper(rounds) && TweakSized(tweak) && |c| == 16
    ensures |m| == 16
  {
    var last := Backward(p, rounds, tweak, |rounds|, (c[..8], c[8..]));
    last.1 + last.0
  }

  /** A round on the swapped halves undoes the round. */
  lemma TurnBack(p: Permutation, round: Round, tweak: Option<seq<byte>>, halves: (Half, Half))
    requires |round.key| == KEY_SIZE && |round.constant| == 4 && TweakSized(tweak)
    ensures Turn(p, round, tweak, Swap(Turn(p, round, tweak, halves))) == Swap(halves)
  {
    hide XorBytes;
    XorTwice(halves.0, F(p, round, tweak, halves.1));
  }

  lemma {:induction false} BackwardUndoesForward(p: Permutation, rounds: seq<Round>, tweak: Option<seq<byte>>, n: nat,
                                                 halves: (Half, Half))
    requires Proper(rounds) && TweakSized(tweak) && n <= |rounds|
    ensures Backward(p, rounds, tweak, n, Swap(Forward(p, rounds, tweak, n, halves))) == Swap(halves)
  {
    hide Turn;
    if n > 0 {
      TurnBack(p, rounds[n - 1], tweak, Forward(p, rounds, tweak, n - 1, halves));
      BackwardUndoesForward(p, rounds, tweak, n - 1, halves);
    }
  }

  lemma {:induction false} ForwardUndoesBackward(p: Permutation, rounds: seq<Round>, tweak: Option<seq<byte>>, n: nat,
                                                 halves: (Half, Half))
    requires Proper(rounds) && TweakSized(tweak) && n <= |rounds|
    ensures Forward(p, rounds, tweak, n, Swap(Backward(p, rounds, tweak, n, halves))) == Swap(halves)
  {
    hide Turn;
    if n > 0 {
      var next := Turn(p, rounds[n - 1], tweak, halves);
      ForwardUndoesBackward(p, rounds, tweak, n - 1, next);
      TurnBack(p, rounds[n - 1], tweak, halves);
    }
  }

  /** For every key, every tweak or none, and every number of rounds, the cipher is a permutation of
      the blocks and decryption is its inverse. */
  lemma DecryptUndoesEncrypt(p: Permutation, rounds: seq<Round>, tweak: Option<seq<byte>>, block: seq<byte>)
    requires Proper(rounds) && TweakSized(tweak) && |block| == 16
    ensures Decrypted(p, rounds, tweak, Encrypted(p, rounds, tweak, block)) == block
    ensures Encrypted(p, rounds, tweak, Decrypted(p, rounds, tweak, block)) == block
  {
    var halves := (block[..8], block[8..]);
    BackwardUndoesForward(p, rounds, tweak, |rounds|, halves);
    var c := Encrypted(p, rounds, tweak, block);
    assert (c[..8], c[8..]) == Swap(Forward(p, rounds, tweak, |rounds|, halves));
    ForwardUndoesBackward(p, rounds, tweak, |rounds|, halves);
    var m := Decrypted(p, rounds, tweak, block);
    assert (m[..8], m[8..]) == Swap(Backward(p, rounds, tweak, |rounds|, halves));
    assert block == block[..8] + block[8..];
  }

  // ---------------------------------------------------------------- the loops

  /** The round function: all 40 bytes of the state are overwritten, so nothing of the previous round
      is left in it.  The result is added to the left half in place. */
  method AddRound(p: Permutation, state: State, round: Round, tweak: Option<seq<byte>>, left: array<byte>, right: array<byte>)
    requires state.Valid() && state.permutation == p
    requires |round.key| == KEY_SIZE && |round.constant| == 4 && TweakSized(tweak)
    requires left.Length == right.Length == 8 && left != right && left != state.B && right != state.B
    modifies state.B, left
    ensures left[..] == XorBytes(old(left[..]), F(p, round, tweak, right[..]))
  {
    hide XorByte, OverwriteAt;
    ghost var before, r := state.Bytes(), right[..];
    state.OverwriteBytes(right[..], 0);
    state.OverwriteBytes(round.key, 8);
    if tweak.Some? {
      state.OverwriteBytes(tweak.value, 24);
    } else {
      state.OverwriteWithZeroes(24, 12);
    }
    state.OverwriteBytes(round.constant, 36);
    AllOverwritten(before, right[..], round.key, tweak.GetOr(Zeros(12)), round.constant);
    state.Permute(6);
    var block := state.ExtractBytes(0, 8);
    assert block == F(p, round, tweak, right[..]);
    forall i | 0 <= i < 8 {
      left[i] := XorByte(left[i], block[i]);
    }
    assert left[..] == XorBytes(old(left[..]), block) && right[..] == r;
  }

  lemma AllOverwritten(s: Block, r: seq<byte>, key: seq<byte>, tweak: seq<byte>, constant: seq<byte>)
    requires |r| == 8 && |key| == 16 && |tweak| == 12 && |constant| == 4
    ensures OverwriteAt(OverwriteAt(OverwriteAt(OverwriteAt(s, r, 0), key, 8), tweak, 24), constant, 36)
         == r + key + tweak + constant
  {
    hide OverwriteAt;
    OverwriteInTwo(s, r, key, 0);
    OverwriteInTwo(s, r + key, tweak, 0);
    OverwriteInTwo(s, r + key + tweak, constant, 0);
    OverwriteAll(s, r + key + tweak + constant);
  }

  method Encrypt(p: Permutation, rounds: seq<Round>, tweak: Option<seq<byte>>, m: seq<byte>) returns (c: seq<byte>)
    requires Proper(rounds) && TweakSized(tweak) && |m| == 16
    ensures c == Encrypted(p, rounds, tweak, m)
  {
    hide XorBytes, F;
    var left, right := new byte[8](i requires 0 <= i < 8 => m[i]), new byte[8](i requires 0 <= i < 8 => m[8 + i]);
    ghost var start: (Half, Half) := (m[..8], m[8..]);
    assert left[..] == m[..8] && right[..] == m[8..];
    var state := new State(p);
    var round := 0;
    while round < |rounds|
      invariant round <= |rounds| && fresh(left) && fresh(right) && left != right
      invariant left.Length == right.Length == 8 && left != state.B && right != state.B
      invariant (left[..], right[..]) == Forward(p, rounds, tweak, round, start)
    {
      AddRound(p, state, rounds[round], tweak, left, right);
      left, right := right, left;
      round := round + 1;
    }
    c := right[..] + left[..];
  }

  method Decrypt(p: Permutation, rounds: seq<Round>, tweak: Option<seq<byte>>, c: seq<byte>) returns (m: seq<byte>)
    requires Proper(rounds) && TweakSized(tweak) && |c| == 16
    ensures m == Decrypted(p, rounds, tweak, c)
  {
    hide XorBytes, F;
    var left, right := new byte[8](i requires 0 <= i < 8 => c[i]), new byte[8](i requires 0 <= i < 8 => c[8 + i]);
    ghost var start: (Half, Half) := (c[..8], c[8..]);
    assert left[..] == c[..8] && right[..] == c[8..];
    var state := new State(p);
    var round := |rounds|;
    while round > 0
      invariant 0 <= round <= |rounds| && fresh(left) && fresh(right) && left != right
      invariant left.Length == right.Length == 8 && left != state.B && right != state.B
      invariant Backward(p, rounds, tweak, round, (left[..], right[..])) == Backward(p, rounds, tweak, |rounds|, start)
    {
      AddRound(p, state, rounds[round - 1], tweak, left, right);
      left, right := right, left;
      round := round - 1;
    }
    m := right[..] + left[..];
  }
}
