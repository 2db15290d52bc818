/** Byte strings and the replacement of part of one. */
module Bytes {

  type Byte = b: int | 0 <= b < 256

  /** `s` with the bytes from `at` on replaced by `d`. */
  function Splice(s: seq<Byte>, at: nat, d: seq<Byte>): (r: seq<Byte>)
    requires at + |d| <= |s|
    ensures |r| == |s|
  {
    s[..at] + d + s[at + |d|..]
  }

  lemma SpliceAt(s: seq<Byte>, at: nat, d: seq<Byte>)
    requires at + |d| <= |s|
    ensures forall i :: 0 <= i < |s| ==> Splice(s, at, d)[i] == if at <= i < at + |d| then d[i - at] else s[i]
  {
  }

  lemma SpliceNothing(s: seq<Byte>, at: nat)
    requires at <= |s|
    ensures Splice(s, at, []) == s
  {
  }

  /** Replacing two neighbouring parts one after the other. */
  lemma SpliceTwice(s: seq<Byte>, at: nat, a: seq<Byte>, b: seq<Byte>)
    requires at + |a| + |b| <= |s|
    ensures Splice(Splice(s, at, a), at + |a|, b) == Splice(s, at, a + b)
  {
  }

  /** Replacing part of a block of s. */
  lemma SpliceWithin(s: seq<Byte>, start: nat, len: nat, at: nat, d: seq<Byte>)
    requires start + len <= |s| && at + |d| <= len
    ensures Splice(s, start, Splice(s[start..start + len], at, d)) == Splice(s, start + at, d)
  {
    SpliceAt(s[start..start + len], at, d);
    SpliceAt(s, start, Splice(s[start..start + len], at, d));
    SpliceAt(s, start + at, d);
  }

  lemma SpliceSlice(s: seq<Byte>, at: nat, d: seq<Byte>, lo: nat, hi: nat)
    requires at + |d| <= |s| && lo <= hi <= |s|
    ensures hi <= at || at + |d| <= lo ==> Splice(s, at, d)[lo..hi] == s[lo..hi]
    ensures Splice(s, at, d)[at..at + |d|] == d
  {
  }

  lemma SliceSlice(s: seq<Byte>, a: nat, b: nat, x: nat, y: nat)
    requires a <= b <= |s| && x <= y <= b - a
    ensures s[a..b][x..y] == s[a + x..a + y]
  {
    forall i | 0 <= i < y - x ensures s[a..b][x..y][i] == s[a + x..a + y][i] {}
  }

  lemma SliceJoin(s: seq<Byte>, a: nat, b: nat, c: nat)
    requires a <= b <= c <= |s|
    ensures s[a..b] + s[b..c] == s[a..c]
  {
  }

  lemma TakeMore(data: seq<Byte>, done: nat, k: nat)
    requires done + k <= |data|
    ensures data[..done] + data[done..done + k] == data[..done + k]
    ensures done + k == |data| ==> data[..done + k] == data
  {
  }
}
