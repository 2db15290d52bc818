/**
 The image that mkfs builds from a list of files: directory entries, inodes with block numbers, and data
 blocks, as byte strings.
 */
module MkfsImage {
  import opened Common
  import opened Bytes
  import opened KfsImage

  datatype File = File(name: seq<Byte>, data: seq<Byte>)

  /** What an inode's block numbers past the end of the file happen to be; mkfs does not set them. */
  type Junk = (nat, nat) -> nat

  function Zeros(n: nat): seq<Byte> { seq(n, i => 0) }

  function U32(x: nat): (s: seq<Byte>)
    ensures |s| == 4
  {
    [x % 0x100, x / 0x100 % 0x100, x / 0x1_0000 % 0x100, x / 0x100_0000 % 0x100]
  }

  lemma U32RoundTrip(x: nat)
    requires x < WRAP
    ensures U32At(U32(x), 0) == x
  {
    var x1 := x / 0x100;
    var x2 := x1 / 0x100;
    var x3 := x2 / 0x100;
    assert x == x % 0x100 + 0x100 * x1 && x1 == x1 % 0x100 + 0x100 * x2 && x2 == x2 % 0x100 + 0x100 * x3;
    assert x3 < 0x100;
    assert x / 0x1_0000 == x2 && x / 0x100_0000 == x3;
  }

  // Parts of equal size one after the other

  ghost predicate Sized(parts: seq<seq<Byte>>, n: nat) {
    forall i :: 0 <= i < |parts| ==> |parts[i]| == n
  }

  lemma {:induction false} FlatLength(parts: seq<seq<Byte>>, n: nat)
    requires Sized(parts, n)
    ensures |Flat(parts)| == |parts| * n
  {
    if parts != [] {
      var m := |parts| - 1;
      FlatLength(parts[..m], n);
      assert (m + 1) * n == m * n + n;
    }
  }

  /** A part is found after the parts before it. */
  lemma {:induction false} FlatAt(parts: seq<seq<Byte>>, i: nat)
    requires i < |parts|
    ensures var at := |Flat(parts[..i])|;
            at + |parts[i]| <= |Flat(parts)| && Flat(parts)[at..at + |parts[i]|] == parts[i]
    decreases |parts|
  {
    var front, last, at := parts[..|parts| - 1], parts[|parts| - 1], |Flat(parts[..i])|;
    if i < |front| {
      assert front[..i] == parts[..i];
      FlatAt(front, i);
    }
    SliceOfSum(Flat(front), last, at, |parts[i]|);
  }

  lemma FlatPart(parts: seq<seq<Byte>>, n: nat, i: nat)
    requires Sized(parts, n) && i < |parts|
    ensures i * n + n <= |Flat(parts)| && Flat(parts)[i * n..i * n + n] == parts[i]
  {
    FlatAt(parts, i);
    FlatLength(parts[..i], n);
  }

  lemma SliceOfSum(a: seq<Byte>, b: seq<Byte>, at: nat, n: nat)
    ensures at + n <= |a| ==> (a + b)[at..at + n] == a[at..at + n]
    ensures at == |a| && n == |b| ==> (a + b)[at..at + n] == b
  {
  }

  // Block counts

  /** How many blocks mkfs numbers for a file of this length. */
  function Numbered(len: nat): nat { len / BLK + 1 }

  /** How many blocks mkfs writes for a file of this length. */
  function Ceil(len: nat): nat { (len + BLK - 1) / BLK }

  /** The first block number of the file after `files`. */
  function First(files: seq<File>): nat {
    if files == [] then 0 else First(files[..|files| - 1]) + Numbered(|files[|files| - 1].data|)
  }

  // The parts of the image

  function Entry(files: seq<File>, i: nat): (s: seq<Byte>)
    requires forall f :: f in files ==> |f.name| < 32
    ensures |s| == 64
  {
    if i < |files| then
      assert files[i] in files;
      files[i].name + Zeros(32 - |files[i].name|) + U32(i) + Zeros(28)
    else Zeros(64)
  }

  function Boot(files: seq<File>): seq<Byte>
    requires forall f :: f in files ==> |f.name| < 32
  {
    U32(|files|) + U32(|files|) + U32(First(files)) + Zeros(52) + Flat(seq(ENTRIES, i requires 0 <= i => Entry(files, i)))
  }

  function BlockNum(files: seq<File>, junk: Junk, i: nat, k: nat): nat
    requires i < |files|
  {
    if k < Numbered(|files[i].data|) then First(files[..i]) + k else junk(i, k)
  }

  function Inode(files: seq<File>, junk: Junk, i: nat): seq<Byte>
    requires i < |files|
  {
    U32(|files[i].data|) + Flat(seq(BLOCKS, k requires 0 <= k => U32(BlockNum(files, junk, i, k))))
  }

  /** The data blocks of a file; the rest of a last block keeps what the buffer held before. */
  function Blocks(data: seq<Byte>, buf: seq<Byte>): (bs: seq<seq<Byte>>)
    requires |buf| == BLK
    ensures Sized(bs, BLK)
  {
    if data == [] then []
    else
      var n := Min(BLK, |data|);
      var b := data[..n] + buf[n..];
      [b] + Blocks(data[n..], b)
  }

  function AllBlocks(files: seq<File>): (bs: seq<seq<Byte>>)
    ensures Sized(bs, BLK)
  {
    if files == [] then [] else AllBlocks(files[..|files| - 1]) + Blocks(files[|files| - 1].data, Zeros(BLK))
  }

  function Inodes(files: seq<File>, junk: Junk): seq<seq<Byte>> {
    seq(|files|, i requires 0 <= i < |files| => Inode(files, junk, i))
  }

  /** What mkfs takes: at most 63 files with short names, each of at most 1022 numbered blocks. */
  ghost predicate Fits(files: seq<File>) {
    && |files| <= ENTRIES
    && forall f :: f in files ==> |f.name| < 32 && Numbered(|f.data|) < BLOCKS
  }

  function Build(files: seq<File>, junk: Junk): seq<Byte>
    requires forall f :: f in files ==> |f.name| < 32
  {
    Boot(files) + Flat(Inodes(files, junk)) + Flat(AllBlocks(files))
  }

  // What is where

  lemma EntriesSized(files: seq<File>)
    requires forall f :: f in files ==> |f.name| < 32
    ensures Sized(seq(ENTRIES, i requires 0 <= i => Entry(files, i)), 64)
    ensures |Boot(files)| == BLK
  {
    var es := seq(ENTRIES, i requires 0 <= i => Entry(files, i));
    assert Sized(es, 64);
    FlatLength(es, 64);
  }

  lemma InodeLength(files: seq<File>, junk: Junk, i: nat)
    requires i < |files|
    ensures |Inode(files, junk, i)| == BLK
  {
    FlatLength(seq(BLOCKS, k requires 0 <= k => U32(BlockNum(files, junk, i, k))), 4);
  }

  lemma BuildLength(files: seq<File>, junk: Junk)
    requires Fits(files)
    ensures |Boot(files)| == BLK && Sized(Inodes(files, junk), BLK)
    ensures |Flat(Inodes(files, junk))| == |files| * BLK && |Flat(AllBlocks(files))| == |AllBlocks(files)| * BLK
    ensures |Build(files, junk)| == BLK + |files| * BLK + |AllBlocks(files)| * BLK
  {
    EntriesSized(files);
    forall i | 0 <= i < |files| ensures |Inodes(files, junk)[i]| == BLK { InodeLength(files, junk, i); }
    FlatLength(Inodes(files, junk), BLK);
    FlatLength(AllBlocks(files), BLK);
  }

  lemma U32Shift(s: seq<Byte>, off: nat)
    requires off + 4 <= |s|
    ensures U32At(s, off) == U32At(s[off..off + 4], 0)
  {
  }

  /** A number encoded at an offset is read back from there. */
  lemma U32Stored(s: seq<Byte>, off: nat, x: nat)
    requires off + 4 <= |s| && s[off..off + 4] == U32(x) && x < WRAP
    ensures U32At(s, off) == x
  {
    U32Shift(s, off);
    U32RoundTrip(x);
  }

  lemma InodeWords(files: seq<File>, junk: Junk, i: nat, k: nat)
    requires i < |files| && k < BLOCKS
    ensures |Inode(files, junk, i)| == BLK
    ensures |files[i].data| < WRAP ==> U32At(Inode(files, junk, i), 0) == |files[i].data|
    ensures BlockNum(files, junk, i, k) < WRAP ==> U32At(Inode(files, junk, i), 4 + 4 * k) == BlockNum(files, junk, i, k)
  {
    InodeLength(files, junk, i);
    var blk, len := Inode(files, junk, i), U32(|files[i].data|);
    var nums := seq(BLOCKS, k requires 0 <= k => U32(BlockNum(files, junk, i, k)));
    FlatPart(nums, 4, k);
    assert blk == len + Flat(nums);
    assert blk[0..4] == len;
    assert blk[4 + 4 * k..4 + 4 * k + 4] == Flat(nums)[k * 4..k * 4 + 4];
    if |files[i].data| < WRAP { U32Stored(blk, 0, |files[i].data|); }
    if BlockNum(files, junk, i, k) < WRAP { U32Stored(blk, 4 + 4 * k, BlockNum(files, junk, i, k)); }
  }

  /** The part of a + b + c that comes from b. */
  lemma MiddlePart(a: seq<Byte>, b: seq<Byte>, c: seq<Byte>, lo: nat, hi: nat)
    requires lo <= hi <= |b|
    ensures (a + b + c)[|a| + lo..|a| + hi] == b[lo..hi]
  {
  }

  lemma LastPart(a: seq<Byte>, b: seq<Byte>, lo: nat, hi: nat)
    requires lo <= hi <= |b|
    ensures (a + b)[|a| + lo..|a| + hi] == b[lo..hi]
  {
  }

  lemma InodeInImage(files: seq<File>, junk: Junk, i: nat)
    requires Fits(files) && i < |files|
    ensures InodeAt(i) + BLK <= |Build(files, junk)|
    ensures Build(files, junk)[InodeAt(i)..InodeAt(i) + BLK] == Inode(files, junk, i)
  {
    BuildLength(files, junk);
    FlatPart(Inodes(files, junk), BLK, i);
    MiddlePart(Boot(files), Flat(Inodes(files, junk)), Flat(AllBlocks(files)), i * BLK, i * BLK + BLK);
  }

  lemma BlockInImage(files: seq<File>, junk: Junk, m: nat)
    requires Fits(files) && m < |AllBlocks(files)|
    ensures (m + |files|) * BLK + BLK + BLK <= |Build(files, junk)|
    ensures Build(files, junk)[(m + |files|) * BLK + BLK..(m + |files|) * BLK + BLK + BLK] == AllBlocks(files)[m]
  {
    BuildLength(files, junk);
    FlatPart(AllBlocks(files), BLK, m);
    LastPart(Boot(files) + Flat(Inodes(files, junk)), Flat(AllBlocks(files)), m * BLK, m * BLK + BLK);
  }

  lemma NumInodesInImage(files: seq<File>, junk: Junk)
    requires Fits(files)
    ensures |Build(files, junk)| >= BLK && NumInodes(Build(files, junk)) == |files|
  {
    BuildLength(files, junk);
    var img := Build(files, junk);
    assert img[4..8] == Boot(files)[4..8] == U32(|files|);
    U32Stored(img, 4, |files|);
  }

  // Block counts

  lemma {:induction false} FirstBound(files: seq<File>)
    requires forall f :: f in files ==> Numbered(|f.data|) < BLOCKS
    ensures First(files) <= |files| * (BLOCKS - 1)
  {
    if files != [] {
      var front := files[..|files| - 1];
      assert files[|files| - 1] in files;
      FirstBound(front);
    }
  }

  lemma {:induction false} FirstMonotonic(files: seq<File>, i: nat)
    requires i < |files|
    ensures First(files[..i]) + Numbered(|files[i].data|) <= First(files)
    decreases |files|
  {
    var front := files[..|files| - 1];
    if i == |files| - 1 {
      assert files[..i] == front;
    } else {
      FirstMonotonic(front, i);
      assert front[..i] == files[..i];
    }
  }

  lemma {:induction false} BlockCount(data: seq<Byte>, buf: seq<Byte>)
    requires |buf| == BLK
    ensures |Blocks(data, buf)| == Ceil(|data|)
    decreases |data|
  {
    if data != [] {
      var n := Min(BLK, |data|);
      BlockCount(data[n..], data[..n] + buf[n..]);
    }
  }

  lemma NumberedExactly(len: nat)
    ensures Ceil(len) <= Numbered(len)
    ensures Numbered(len) == Ceil(len) <==> len % BLK != 0
  {
  }

  /** mkfs never numbers fewer blocks than it writes, and exactly as many when no length is a multiple of 4096. */
  lemma {:induction false} NumberingMatches(files: seq<File>)
    ensures First(files) >= |AllBlocks(files)|
    ensures First(files) == |AllBlocks(files)| <==> forall j :: 0 <= j < |files| ==> |files[j].data| % BLK != 0
  {
    if files != [] {
      var front, last := files[..|files| - 1], files[|files| - 1];
      NumberingMatches(front);
      BlockCount(last.data, Zeros(BLK));
      NumberedExactly(|last.data|);
      assert forall j :: 0 <= j < |front| ==> front[j] == files[j];
    }
  }

  // Contents

  /** The blocks of a file hold its bytes in order. */
  lemma {:induction false} BlocksHold(data: seq<Byte>, buf: seq<Byte>, k: nat, off: nat)
    requires |buf| == BLK && off < BLK && k * BLK + off < |data|
    ensures k < |Blocks(data, buf)| && Blocks(data, buf)[k][off] == data[k * BLK + off]
    decreases |data|
  {
    var n := Min(BLK, |data|);
    var b := data[..n] + buf[n..];
    if k > 0 {
      BlocksHold(data[n..], b, k - 1, off);
    }
  }

  /** The blocks of file i come after those of the files before it. */
  lemma {:induction false} BlocksOf(files: seq<File>, i: nat, k: nat)
    requires i < |files| && k < |Blocks(files[i].data, Zeros(BLK))|
    ensures |AllBlocks(files[..i])| + k < |AllBlocks(files)|
    ensures AllBlocks(files)[|AllBlocks(files[..i])| + k] == Blocks(files[i].data, Zeros(BLK))[k]
    decreases |files|
  {
    var front := files[..|files| - 1];
    if i == |files| - 1 {
      assert files[..i] == front;
    } else {
      BlocksOf(front, i, k);
      assert front[..i] == files[..i];
    }
  }
}
