/**
 What the image that mkfs builds means to the file system: every inode describes its file, exactly as long
 as the files before it do not fill their last block.
 */
module MkfsTheorems {
  import opened Common
  import opened Bytes
  import opened KfsImage
  import opened MkfsImage

  lemma ImageInodes(files: seq<File>, junk: Junk)
    requires Fits(files)
    ensures HasInodes(Build(files, junk)) && NumInodes(Build(files, junk)) == |files|
    ensures |Build(files, junk)| % 512 == 0 && |Build(files, junk)| + 512 < 0x8000_0000
  {
    BuildLength(files, junk);
    NumInodesInImage(files, junk);
    FirstBound(files);
    NumberingMatches(files);
    WholeBlocks(1 + |files| + |AllBlocks(files)|);
    assert |Build(files, junk)| == (1 + |files| + |AllBlocks(files)|) * BLK;
  }

  lemma WholeBlocks(n: nat)
    ensures n * BLK % 512 == 0
  {
    assert n * BLK == n * 8 * 512;
  }

  lemma ImageLen(files: seq<File>, junk: Junk, i: nat)
    requires Fits(files) && i < |files| && HasInodes(Build(files, junk)) && NumInodes(Build(files, junk)) == |files|
    ensures FileLen(Build(files, junk), i) == |files[i].data|
  {
    assert files[i] in files;
    var img := Build(files, junk);
    InodeInImage(files, junk, i);
    InodeWords(files, junk, i, 0);
    U32Shift(img, InodeAt(i));
    U32Shift(Inode(files, junk, i), 0);
    assert img[InodeAt(i)..InodeAt(i) + 4] == img[InodeAt(i)..InodeAt(i) + BLK][0..4];
  }

  lemma ImageNum(files: seq<File>, junk: Junk, i: nat, k: nat)
    requires Fits(files) && i < |files| && k < Numbered(|files[i].data|)
    ensures k < BLOCKS && InodeAt(i) + 4 + 4 * k + 4 <= |Build(files, junk)|
    ensures U32At(Build(files, junk), InodeAt(i) + 4 + 4 * k) == First(files[..i]) + k < |files| * (BLOCKS - 1)
  {
    assert files[i] in files;
    FirstMonotonic(files, i);
    FirstBound(files);
    var img, a := Build(files, junk), InodeAt(i) + 4 + 4 * k;
    InodeInImage(files, junk, i);
    InodeWords(files, junk, i, k);
    U32Shift(img, a);
    U32Shift(Inode(files, junk, i), 4 + 4 * k);
    SliceSlice(img, InodeAt(i), InodeAt(i) + BLK, 4 + 4 * k, 4 + 4 * k + 4);
  }

  lemma AddrExact(num: nat, inodes: nat)
    requires (num + inodes + 1) * BLK < WRAP
    ensures BlockAddr(num, inodes) == (num + inodes) * BLK + BLK
  {
  }

  /** Where the file system looks for block k of file i. */
  lemma ImageStart(files: seq<File>, junk: Junk, i: nat, k: nat)
    requires Fits(files) && i < |files| && k < Numbered(|files[i].data|)
    requires HasInodes(Build(files, junk)) && NumInodes(Build(files, junk)) == |files|
    ensures k < BLOCKS && Start(Build(files, junk), i, k) == (First(files[..i]) + k + |files|) * BLK + BLK
  {
    ImageNum(files, junk, i, k);
    AddrExact(First(files[..i]) + k, |files|);
  }

  /** File i is described by inode i of the image: it is sound and has the file's bytes. */
  ghost predicate ReadsBack(files: seq<File>, junk: Junk, i: nat)
    requires Fits(files) && i < |files|
  {
    FileOk(Build(files, junk), i) && FileBytes(Build(files, junk), i) == files[i].data
  }

  /** No file before the i-th has a length that is a multiple of the block size. */
  ghost predicate NoFullBefore(files: seq<File>, i: nat)
    requires i <= |files|
  {
    forall j :: 0 <= j < i ==> |files[j].data| % BLK != 0
  }

  ghost predicate BlockAt(files: seq<File>, img: seq<Byte>, m: nat)
    requires m < |AllBlocks(files)|
  {
    && (m + |files|) * BLK + BLK + BLK <= |img|
    && img[(m + |files|) * BLK + BLK..(m + |files|) * BLK + BLK + BLK] == AllBlocks(files)[m]
  }

  ghost predicate InodeOf(files: seq<File>, img: seq<Byte>, i: nat)
    requires HasInodes(img) && NumInodes(img) == |files| && i < |files|
  {
    && FileLen(img, i) == |files[i].data| < (BLOCKS - 1) * BLK
    && forall k :: 0 <= k < BLOCKS && k * BLK < |files[i].data| ==>
         Start(img, i, k) == (First(files[..i]) + k + |files|) * BLK + BLK
  }

  /** What matters of the image: its inodes and its data blocks are where the file system looks for them. */
  ghost predicate Layout(files: seq<File>, img: seq<Byte>) {
    && HasInodes(img) && NumInodes(img) == |files|
    && |img| == BLK + |files| * BLK + |AllBlocks(files)| * BLK
    && (forall i :: 0 <= i < |files| ==> InodeOf(files, img, i))
    && (forall m :: 0 <= m < |AllBlocks(files)| ==> BlockAt(files, img, m))
  }

  lemma ImageInode(files: seq<File>, junk: Junk, i: nat)
    requires Fits(files) && i < |files|
    requires HasInodes(Build(files, junk)) && NumInodes(Build(files, junk)) == |files|
    ensures InodeOf(files, Build(files, junk), i)
  {
    assert files[i] in files;
    ImageLen(files, junk, i);
    forall k | 0 <= k < BLOCKS && k * BLK < |files[i].data|
      ensures Start(Build(files, junk), i, k) == (First(files[..i]) + k + |files|) * BLK + BLK {
      ImageStart(files, junk, i, k);
    }
  }

  lemma BuildLayout(files: seq<File>, junk: Junk)
    requires Fits(files)
    ensures Layout(files, Build(files, junk))
  {
    var img := Build(files, junk);
    ImageInodes(files, junk);
    BuildLength(files, junk);
    forall i | 0 <= i < |files| ensures InodeOf(files, img, i) { ImageInode(files, junk, i); }
    forall m | 0 <= m < |AllBlocks(files)| ensures BlockAt(files, img, m) { BlockInImage(files, junk, m); }
  }

  /** Block k of file i is where its inode says if the files before it were numbered as they were written. */
  lemma BlockPlace(files: seq<File>, img: seq<Byte>, i: nat, k: nat)
    requires Layout(files, img) && i < |files| && NoFullBefore(files, i) && k < BLOCKS && k * BLK < |files[i].data|
    ensures InFile(img, i, k) && k < |Blocks(files[i].data, Zeros(BLK))|
    ensures var a := Start(img, i, k);
            && a == (|AllBlocks(files[..i])| + k + |files|) * BLK + BLK && a + BLK <= |img|
            && img[a..a + BLK] == Blocks(files[i].data, Zeros(BLK))[k]
  {
    assert InodeOf(files, img, i);
    NumberingMatches(files[..i]);
    BlockCount(files[i].data, Zeros(BLK));
    BlocksOf(files, i, k);
    assert BlockAt(files, img, |AllBlocks(files[..i])| + k);
  }

  /** A file whose blocks follow each other in the data area is sound. */
  lemma ConsecutiveOk(img: seq<Byte>, ino: nat, base: nat)
    requires HasInodes(img) && ino < NumInodes(img) && FileLen(img, ino) <= (BLOCKS - 1) * BLK
    requires base >= NumInodes(img) + 1
    requires forall k :: 0 <= k && InFile(img, ino, k) ==> Start(img, ino, k) == (base + k) * BLK && Start(img, ino, k) + BLK <= |img|
    ensures FileOk(img, ino)
  {
    forall k | 0 <= k && InFile(img, ino, k) ensures InodeAt(NumInodes(img)) <= Start(img, ino, k) && Start(img, ino, k) % BLK == 0 {
      Aligned(Start(img, ino, k), base + k, NumInodes(img));
    }
    forall k, j | 0 <= k < j && InFile(img, ino, k) && InFile(img, ino, j) ensures Start(img, ino, k) != Start(img, ino, j) {
      Different(Start(img, ino, k), base + k, Start(img, ino, j), base + j);
    }
  }

  lemma Aligned(a: nat, m: nat, n: nat)
    requires a == m * BLK && m >= n + 1
    ensures InodeAt(n) <= a && a % BLK == 0
  {
  }

  lemma Different(a: nat, m: nat, b: nat, n: nat)
    requires a == m * BLK && b == n * BLK && m < n
    ensures a != b
  {
  }

  lemma LayoutFileOk(files: seq<File>, img: seq<Byte>, i: nat)
    requires Layout(files, img) && i < |files| && (files[i].data == [] || NoFullBefore(files, i))
    ensures FileOk(img, i) && FileLen(img, i) == |files[i].data|
  {
    assert InodeOf(files, img, i);
    var base := |AllBlocks(files[..i])| + |files| + 1;
    forall k | 0 <= k && InFile(img, i, k)
      ensures Start(img, i, k) == (base + k) * BLK && Start(img, i, k) + BLK <= |img| {
      BlockPlace(files, img, i, k);
    }
    ConsecutiveOk(img, i, base);
  }

  lemma LayoutByte(files: seq<File>, img: seq<Byte>, i: nat, p: nat)
    requires Layout(files, img) && i < |files| && NoFullBefore(files, i) && p < |files[i].data|
    requires FileOk(img, i) && FileLen(img, i) == |files[i].data|
    ensures FileByte(img, i, p) == files[i].data[p]
  {
    var k, off := p / BLK, p % BLK;
    assert k * BLK + off == p;
    BlockPlace(files, img, i, k);
    BlocksHold(files[i].data, Zeros(BLK), k, off);
    var a := Start(img, i, k);
    assert img[a + off] == img[a..a + BLK][off];
  }

  /** If no file before it fills its last block, a file is read back as it was put in. */
  lemma RoundTrip(files: seq<File>, junk: Junk, i: nat)
    requires Fits(files) && i < |files| && (files[i].data == [] || NoFullBefore(files, i))
    ensures ReadsBack(files, junk, i)
  {
    var img := Build(files, junk);
    BuildLayout(files, junk);
    LayoutFileOk(files, img, i);
    forall p | 0 <= p < |files[i].data| ensures FileBytes(img, i)[p] == files[i].data[p] {
      LayoutByte(files, img, i, p);
    }
  }

  /** No two files share a block. */
  lemma FilesSeparate(files: seq<File>, img: seq<Byte>, a: nat, b: nat)
    requires Layout(files, img) && a < b < |files|
    ensures Separate(img, a, b) && Separate(img, b, a)
  {
    assert InodeOf(files, img, a) && InodeOf(files, img, b);
    FirstMonotonic(files[..b], a);
    assert files[..b][..a] == files[..a];
  }

  // The directory

  /** Names that the directory can tell apart: not empty, without a 0 byte, all different. */
  ghost predicate NamesOk(files: seq<File>) {
    && (forall f :: f in files ==> 0 < |f.name| < 32 && 0 !in f.name)
    && (forall i, j :: 0 <= i < j < |files| ==> files[i].name != files[j].name)
  }

  lemma {:induction false} CStrIs(s: seq<Byte>, off: nat, name: seq<Byte>)
    requires off + |name| < |s| && s[off..off + |name|] == name && 0 !in name && s[off + |name|] == 0
    ensures CStr(s, off) == name
    decreases |name|
  {
    if name != [] {
      assert s[off] == name[0] && name[0] in name;
      assert s[off + 1..off + 1 + |name[1..]|] == name[1..] by {
        assert s[off..off + |name|][1..] == s[off + 1..off + |name|];
      }
      CStrIs(s, off + 1, name[1..]);
    }
  }

  lemma EntryInBoot(files: seq<File>, i: nat)
    requires Fits(files) && i < ENTRIES
    ensures |Boot(files)| == BLK && Boot(files)[EntryAt(i)..EntryAt(i) + 64] == Entry(files, i)
  {
    EntriesSized(files);
    var es := seq(ENTRIES, i requires 0 <= i => Entry(files, i));
    FlatPart(es, 64, i);
    var head := U32(|files|) + U32(|files|) + U32(First(files)) + Zeros(52);
    LastPart(head, Flat(es), i * 64, i * 64 + 64);
  }

  lemma EntryHolds(files: seq<File>, i: nat)
    requires Fits(files) && NamesOk(files) && i < ENTRIES
    ensures |Boot(files)| == BLK
    ensures i < |files| ==> EntryName(Boot(files), i) == files[i].name && EntryInode(Boot(files), i) == i
    ensures i >= |files| ==> EntryName(Boot(files), i) == []
  {
    EntryInBoot(files, i);
    if i < |files| {
      UsedName(files, i);
      UsedInode(files, i);
    } else {
      var boot, a := Boot(files), EntryAt(i);
      assert boot[a] == boot[a..a + 64][0] == Entry(files, i)[0] == 0;
      CStrIs(boot, a, []);
    }
  }

  lemma UsedName(files: seq<File>, i: nat)
    requires Fits(files) && NamesOk(files) && i < |files| <= ENTRIES
    ensures |Boot(files)| == BLK && EntryName(Boot(files), i) == files[i].name
  {
    EntryInBoot(files, i);
    assert files[i] in files;
    var boot, a, e, name := Boot(files), EntryAt(i), Entry(files, i), files[i].name;
    SliceSlice(boot, a, a + 64, 0, |name|);
    assert e[0..|name|] == name;
    assert boot[a + |name|] == boot[a..a + 64][|name|] == e[|name|] == 0;
    CStrIs(boot, a, name);
  }

  lemma UsedInode(files: seq<File>, i: nat)
    requires Fits(files) && i < |files| <= ENTRIES
    ensures |Boot(files)| == BLK && EntryInode(Boot(files), i) == i
  {
    EntryInBoot(files, i);
    assert files[i] in files;
    SliceSlice(Boot(files), EntryAt(i), EntryAt(i) + 64, 32, 36);
    assert Entry(files, i)[32..36] == U32(i);
    U32Stored(Boot(files), EntryAt(i) + 32, i);
  }

  /** An unused entry says inode 0. */
  lemma UnusedInode(files: seq<File>, i: nat)
    requires Fits(files) && |files| <= i < ENTRIES
    ensures |Boot(files)| == BLK && EntryInode(Boot(files), i) == 0
  {
    EntryInBoot(files, i);
    SliceSlice(Boot(files), EntryAt(i), EntryAt(i) + 64, 32, 36);
    assert Entry(files, i)[32..36] == U32(0);
    U32Stored(Boot(files), EntryAt(i) + 32, 0);
  }

  /** Opening a file by its name finds its own inode. */
  lemma LookupFinds(files: seq<File>, junk: Junk, i: nat)
    requires Fits(files) && NamesOk(files) && i < |files|
    ensures |Build(files, junk)| >= BLK
    ensures var boot := Build(files, junk)[..BLK];
            Lookup(boot, files[i].name, 0) == i && EntryInode(boot, i) == i
  {
    BuildLength(files, junk);
    assert Build(files, junk)[..BLK] == Boot(files);
    var boot := Boot(files);
    EntryHolds(files, i);
    forall j | 0 <= j < i ensures EntryName(boot, j) != files[i].name { EntryHolds(files, j); }
    var found := Lookup(boot, files[i].name, 0);
  }

  /** A name that no file has is not found. */
  lemma LookupFails(files: seq<File>, junk: Junk, name: seq<Byte>)
    requires Fits(files) && NamesOk(files) && name != [] && forall f :: f in files ==> f.name != name
    ensures |Build(files, junk)| >= BLK && Lookup(Build(files, junk)[..BLK], name, 0) == ENTRIES
  {
    BuildLength(files, junk);
    assert Build(files, junk)[..BLK] == Boot(files);
    forall k | 0 <= k < ENTRIES ensures EntryName(Boot(files), k) != name {
      EntryHolds(files, k);
      if k < |files| { assert files[k] in files; }
    }
  }

  /** The empty name is that of the first unused entry, which says inode 0; it is not found if there is none. */
  lemma LookupEmpty(files: seq<File>, junk: Junk)
    requires Fits(files) && NamesOk(files)
    ensures |Build(files, junk)| >= BLK
    ensures var boot := Build(files, junk)[..BLK];
            Lookup(boot, [], 0) == |files| && (|files| < ENTRIES ==> EntryInode(boot, |files|) == 0)
  {
    BuildLength(files, junk);
    assert Build(files, junk)[..BLK] == Boot(files);
    forall k | 0 <= k < ENTRIES ensures EntryName(Boot(files), k) == [] <==> k >= |files| { NamedExactly(files, k); }
    LookupIs(Boot(files), [], |files|);
    if |files| < ENTRIES { UnusedInode(files, |files|); }
  }

  lemma NamedExactly(files: seq<File>, k: nat)
    requires Fits(files) && NamesOk(files) && k < ENTRIES
    ensures |Boot(files)| == BLK && (EntryName(Boot(files), k) == [] <==> k >= |files|)
  {
    EntryHolds(files, k);
    if k < |files| { assert files[k] in files; }
  }

  lemma LookupIs(boot: seq<Byte>, name: seq<Byte>, k: nat)
    requires |boot| == BLK && k <= ENTRIES && (k < ENTRIES ==> EntryName(boot, k) == name)
    requires forall j :: 0 <= j < k ==> EntryName(boot, j) != name
    ensures Lookup(boot, name, 0) == k
  {
    var found := Lookup(boot, name, 0);
  }

  // The converse

  ghost predicate SameShape(files: seq<File>, other: seq<File>) {
    |other| == |files|
    && forall j :: 0 <= j < |files| ==> other[j].name == files[j].name && |other[j].data| == |files[j].data|
  }

  /** Files of the same names and lengths that are all zero, but for the first byte of file i. */
  function Marked(files: seq<File>, i: nat): (r: seq<File>)
    requires i < |files| && files[i].data != []
    ensures SameShape(files, r) && r[i].data[0] == 1
  {
    seq(|files|, j requires 0 <= j < |files| =>
      if j == i then File(files[j].name, [1] + Zeros(|files[j].data| - 1)) else File(files[j].name, Zeros(|files[j].data|)))
  }

  lemma {:induction false} ZeroBlocks(data: seq<Byte>, buf: seq<Byte>)
    requires |buf| == BLK && (forall p :: 0 < p < |data| ==> data[p] == 0) && forall p :: 0 < p < BLK ==> buf[p] == 0
    ensures forall k :: 0 < k < |Blocks(data, buf)| ==> Blocks(data, buf)[k][0] == 0
    ensures data != [] ==> Blocks(data, buf) != [] && Blocks(data, buf)[0][0] == data[0]
    decreases |data|
  {
    if data != [] {
      var n := Min(BLK, |data|);
      ZeroBlocks(data[n..], data[..n] + buf[n..]);
    }
  }

  /** Among the blocks of marked files only the first block of file i begins with a byte that is not 0. */
  lemma {:induction false} OneMark(files: seq<File>, i: nat, m: nat)
    requires m < |AllBlocks(files)|
    requires forall j, p :: 0 <= j < |files| && 0 <= p < |files[j].data| && (j != i || p > 0) ==> files[j].data[p] == 0
    requires i < |files| ==> m != |AllBlocks(files[..i])|
    ensures AllBlocks(files)[m][0] == 0
    decreases |files|
  {
    var front, last := files[..|files| - 1], files[|files| - 1];
    ZeroBlocks(last.data, Zeros(BLK));
    if m < |AllBlocks(front)| {
      if i < |front| { assert front[..i] == files[..i]; }
      OneMark(front, i, m);
    } else {
      var k := m - |AllBlocks(front)|;
      assert AllBlocks(files)[m] == Blocks(last.data, Zeros(BLK))[k];
      assert i == |files| - 1 ==> files[..i] == front;
    }
  }

  /** With an earlier file of full blocks, the first block of a marked file is not the one that its inode names. */
  lemma MarkMissed(files: seq<File>, img: seq<Byte>, i: nat)
    requires Layout(files, img) && i < |files| && files[i].data != [] && !NoFullBefore(files, i)
    requires forall j, p :: 0 <= j < |files| && 0 <= p < |files[j].data| && (j != i || p > 0) ==> files[j].data[p] == 0
    ensures FileOk(img, i) ==> FileBytes(img, i) != [] && FileBytes(img, i)[0] == 0
  {
    var m := First(files[..i]);
    assert InodeOf(files, img, i);
    var j :| 0 <= j < i && |files[j].data| % BLK == 0;
    assert files[..i][j] == files[j];
    NumberingMatches(files[..i]);
    if FileOk(img, i) {
      assert InFile(img, i, 0);
      assert m < |AllBlocks(files)|;
      OneMark(files, i, m);
      assert BlockAt(files, img, m);
      var a := Start(img, i, 0);
      assert img[a] == img[a..a + BLK][0];
      assert FileBytes(img, i)[0] == FileByte(img, i, 0);
    }
  }

  lemma MarkedMisread(files: seq<File>, junk: Junk, i: nat)
    requires Fits(files) && i < |files| && files[i].data != [] && !NoFullBefore(files, i)
    ensures Fits(Marked(files, i)) && !ReadsBack(Marked(files, i), junk, i)
  {
    var g := Marked(files, i);
    MarkedFits(files, i);
    BuildLayout(g, junk);
    var j :| 0 <= j < i && |files[j].data| % BLK == 0;
    assert |g[j].data| % BLK == 0;
    MarkMissed(g, Build(g, junk), i);
  }

  lemma MarkedFits(files: seq<File>, i: nat)
    requires Fits(files) && i < |files| && files[i].data != []
    ensures Fits(Marked(files, i))
  {
    var g := Marked(files, i);
    forall f | f in g ensures |f.name| < 32 && Numbered(|f.data|) < BLOCKS {
      var j :| 0 <= j < |g| && g[j] == f;
      assert files[j] in files;
    }
  }

  lemma ShapeFits(files: seq<File>, other: seq<File>)
    requires Fits(files) && SameShape(files, other)
    ensures Fits(other)
  {
    forall f | f in other ensures |f.name| < 32 && Numbered(|f.data|) < BLOCKS {
      var j :| 0 <= j < |other| && other[j] == f;
      assert files[j] in files;
    }
  }

  /**
   Files of given names and lengths are read back whatever their contents if and only if the file is empty
   or no file before it has a length that is a multiple of 4096.
   */
  lemma RoundTripExactly(files: seq<File>, junk: Junk, i: nat)
    requires Fits(files) && i < |files|
    ensures (forall other :: SameShape(files, other) ==> Fits(other) && ReadsBack(other, junk, i))
            <==> (files[i].data == [] || NoFullBefore(files, i))
  {
    if files[i].data == [] || NoFullBefore(files, i) {
      forall other | SameShape(files, other) ensures Fits(other) && ReadsBack(other, junk, i) {
        ShapeFits(files, other);
        RoundTrip(other, junk, i);
      }
    } else {
      MarkedMisread(files, junk, i);
    }
  }
}
