/** The permutation on a state of 40 bytes: the bytes are read as five big-endian words, run
    through the rounds and written back. */
module BytePermutation {
  import opened Bytes
  import opened AsconRounds
  import opened WordBytes

  function WordSeq(x: Words): (ws: seq<bv64>)
    ensures |ws| == 5
  {
    [x.x0, x.x1, x.x2, x.x3, x.x4]
  }

  function LoadWords(s: Block): Words {
    Words(LoadWord(s[0..8]), LoadWord(s[8..16]), LoadWord(s[16..24]), LoadWord(s[24..32]), LoadWord(s[32..40]))
  }

  function StoreWords(x: Words): Block { StateBytes(WordSeq(x)) }

  function Permute(s: Block, first: nat): Block { StoreWords(Rounds(LoadWords(s), first)) }

  lemma LoadStoreWords(x: Words)
    ensures LoadWords(StoreWords(x)) == x
  {
    hide LoadWord, StoreWord, StateBytes;
    var ws := WordSeq(x);
    WordOfState(ws, 0);
    WordOfState(ws, 1);
    WordOfState(ws, 2);
    WordOfState(ws, 3);
    WordOfState(ws, 4);
  }

  lemma StoreLoadWords(s: Block)
    ensures StoreWords(LoadWords(s)) == s
  {
    hide LoadWord, StoreWord, StateBytes;
    var ws := WordSeq(LoadWords(s));
    StoreLoad(s[0..8]);
    StoreLoad(s[8..16]);
    StoreLoad(s[16..24]);
    StoreLoad(s[24..32]);
    StoreLoad(s[32..40]);
    WordOfState(ws, 0);
    WordOfState(ws, 1);
    WordOfState(ws, 2);
    WordOfState(ws, 3);
    WordOfState(ws, 4);
    BlocksEqual(StateBytes(ws), s);
  }

  lemma BlocksEqual(s: Block, t: Block)
    requires s[0..8] == t[0..8] && s[8..16] == t[8..16] && s[16..24] == t[16..24]
    requires s[24..32] == t[24..32] && s[32..40] == t[32..40]
    ensures s == t
  {
    assert s == s[0..8] + s[8..16] + s[16..24] + s[24..32] + s[32..40];
    assert t == t[0..8] + t[8..16] + t[16..24] + t[24..32] + t[32..40];
  }

  /** The permutation on bytes is a bijection too, with the inverse rounds as its inverse. */
  function PermuteInverse(s: Block, first: nat): Block { StoreWords(RoundsInverse(LoadWords(s), first)) }

  lemma PermuteBijective(s: Block, first: nat)
    ensures PermuteInverse(Permute(s, first), first) == s
    ensures Permute(PermuteInverse(s, first), first) == s
  {
    hide LoadWords, StoreWords, Rounds, RoundsInverse;
    LoadStoreWords(Rounds(LoadWords(s), first));
    LoadStoreWords(RoundsInverse(LoadWords(s), first));
    RoundsBijective(LoadWords(s), first);
    StoreLoadWords(s);
  }
}
