/** Buffers as stretches of one memory, so that input and output may overlap. */
module Memory {
  import opened Bytes

  function Splice(s: seq<byte>, at: nat, data: seq<byte>): (r: seq<byte>)
    requires at + |data| <= |s|
    ensures |r| == |s|
  {
    s[..at] + data + s[at + |data|..]
  }

  lemma SpliceInTwo(s: seq<byte>, at: nat, a: seq<byte>, b: seq<byte>)
    requires at + |a| + |b| <= |s|
    ensures Splice(Splice(s, at, a), at + |a|, b) == Splice(s, at, a + b)
  {
  }

  lemma SpliceTwice(s: seq<byte>, at: nat, a: seq<byte>, b: seq<byte>)
    requires at + |a| <= |s| && |b| == |a|
    ensures Splice(Splice(s, at, a), at, b) == Splice(s, at, b)
  {
  }

  /** A longer write to the same place hides a shorter one. */
  lemma SpliceOver(s: seq<byte>, at: nat, a: seq<byte>, b: seq<byte>)
    requires |a| <= |b| && at + |b| <= |s|
    ensures Splice(Splice(s, at, a), at, b) == Splice(s, at, b)
  {
  }

  lemma SpliceBefore(s: seq<byte>, at: nat, a: seq<byte>, b: seq<byte>)
    requires at + |a| + |b| <= |s|
    ensures Splice(Splice(s, at + |a|, b), at, a) == Splice(s, at, a + b)
  {
  }

  lemma SpliceNothing(s: seq<byte>, at: nat)
    requires at <= |s|
    ensures Splice(s, at, []) == s
  {
  }

  /** A stretch that the written one does not reach keeps its bytes. */
  lemma SpliceElsewhere(s: seq<byte>, at: nat, data: seq<byte>, from: nat, to: nat)
    requires at + |data| <= |s| && from <= to <= |s|
    requires at + |data| <= from || to <= at
    ensures Splice(s, at, data)[from..to] == s[from..to]
  {
  }

  lemma SpliceHere(s: seq<byte>, at: nat, data: seq<byte>)
    requires at + |data| <= |s|
    ensures Splice(s, at, data)[at..at + |data|] == data
  {
  }

  lemma SpliceOneMore(s: seq<byte>, at: nat, data: seq<byte>, i: nat)
    requires i < |data| && at + |data| <= |s|
    ensures Splice(s, at, data[..i])[at + i := data[i]] == Splice(s, at, data[..i + 1])
  {
  }

  method Write(mem: array<byte>, at: nat, data: seq<byte>)
    requires at + |data| <= mem.Length
    modifies mem
    ensures mem[..] == Splice(old(mem[..]), at, data)
  {
    hide Splice;
    var i := 0;
    SpliceNothing(mem[..], at);
    while i < |data|
      invariant i <= |data|
      invariant mem[..] == Splice(old(mem[..]), at, data[..i])
    {
      SpliceOneMore(old(mem[..]), at, data, i);
      mem[at + i] := data[i];
      i := i + 1;
    }
    assert data[..i] == data;
  }

  /** memmove: the two stretches may overlap in any way. */
  method Move(mem: array<byte>, dest: nat, src: nat, len: nat)
    requires dest + len <= mem.Length && src + len <= mem.Length
    modifies mem
    ensures mem[..] == Splice(old(mem[..]), dest, old(mem[src..src + len]))
  {
    hide Splice;
    ghost var before := mem[..];
    SpliceNothing(before, dest);
    SpliceNothing(before, dest + len);
    assert before[src..src] == [] && before[src + len..src + len] == [];
    if dest <= src {
      var i := 0;
      while i < len
        invariant i <= len
        invariant mem[..] == Splice(before, dest, before[src..src + i])
      {
        SpliceAppend(before, dest, src, i);
        mem[dest + i] := mem[src + i];
        i := i + 1;
      }
    } else {
      var i := len;
      while 0 < i
        invariant 0 <= i <= len
        invariant mem[..] == Splice(before, dest + i, before[src + i..src + len])
      {
        i := i - 1;
        SplicePrepend(before, dest, src, i, len);
        mem[dest + i] := mem[src + i];
      }
    }
  }

  lemma SpliceAppend(s: seq<byte>, dest: nat, src: nat, i: nat)
    requires dest <= src && src + i < |s|
    ensures var now := Splice(s, dest, s[src..src + i]);
            now[dest + i := now[src + i]] == Splice(s, dest, s[src..src + i + 1])
  {
  }

  lemma SplicePrepend(s: seq<byte>, dest: nat, src: nat, i: nat, len: nat)
    requires src < dest && i < len && dest + len <= |s|
    ensures var now := Splice(s, dest + i + 1, s[src + i + 1..src + len]);
            now[dest + i := now[src + i]] == Splice(s, dest + i, s[src + i..src + len])
  {
  }
}
