/** The 64-bit permutation on the direct-XOR state: five words are loaded from the bytes in
    big-endian order, permuted and stored back. */
module DirectXor {
  import opened Bytes
  import opened WordBytes
  import opened BytePermutation
  import AsconRounds
  import AsconC64

  // Stores word k of a state whose earlier words are stored already.
  method StoreNext(B: array<byte>, k: nat, v: bv64, ghost ws: seq<bv64>)
    requires B.Length == 40 && k < 5 && |ws| == 5 && v == ws[k]
    requires B[..8 * k] == StateBytes(ws)[..8 * k]
    modifies B
    ensures B[..8 * k + 8] == StateBytes(ws)[..8 * k + 8]
  {
    hide StoreWord, LoadWord, StateBytes;
    WordOfState(ws, k);
    var d := StoreWord(v);
    forall j | 0 <= j < 8 {
      B[8 * k + j] := d[j];
    }
    assert B[8 * k..8 * k + 8] == StateBytes(ws)[8 * k..8 * k + 8];
    assert B[..8 * k + 8] == B[..8 * k] + B[8 * k..8 * k + 8];
  }

  method Permute(B: array<byte>, firstRound: nat)
    requires B.Length == 40
    modifies B
    ensures B[..] == BytePermutation.Permute(old(B[..]), firstRound)
  {
    hide LoadWord, StoreWord, AsconRounds.Rounds, StateBytes;
    var x := LoadWords(B[..]);
    var S := new bv64[5];
    S[0], S[1], S[2], S[3], S[4] := x.x0, x.x1, x.x2, x.x3, x.x4;
    AsconC64.Permute(S, firstRound);
    ghost var ws := S[..];
    assert ws == WordSeq(AsconC64.StateWords(ws));
    StoreNext(B, 0, S[0], ws);
    StoreNext(B, 1, S[1], ws);
    StoreNext(B, 2, S[2], ws);
    StoreNext(B, 3, S[3], ws);
    StoreNext(B, 4, S[4], ws);
    assert B[..] == B[..40];
  }
}
