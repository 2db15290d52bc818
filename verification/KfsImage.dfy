/**
 The layout of a KFS image: one boot block, the inodes, the data blocks, 4096 bytes each, and the file
 that an inode describes.
 */
module KfsImage {
  import opened Bytes

  const BLK: nat := 4096
  const WRAP: nat := 0x1_0000_0000
  const BLOCKS: nat := 1023        // DATA_BLOCK_NUM
  const ENTRIES: nat := 63         // DIR_ENTRY_CT

  /** The little-endian 32-bit number at an offset. */
  function U32At(s: seq<Byte>, off: nat): (x: nat)
    requires off + 4 <= |s|
    ensures x < WRAP
  {
    var b0: int, b1: int, b2: int, b3: int := s[off], s[off + 1], s[off + 2], s[off + 3];
    b0 + 0x100 * b1 + 0x1_0000 * b2 + 0x100_0000 * b3
  }

  function NumInodes(img: seq<Byte>): nat
    requires |img| >= BLK
  {
    U32At(img, 4)
  }

  function InodeAt(ino: nat): nat { ino * BLK + BLK }

  /** The position of a data block as the code computes it, in 32-bit arithmetic. */
  function BlockAddr(num: nat, inodes: nat): nat {
    (((num + inodes) % WRAP * BLK) % WRAP + BLK) % WRAP
  }

  /** The inodes are in the image, and positions fit in an int. */
  ghost predicate HasInodes(img: seq<Byte>) {
    BLK <= |img| < 0x8000_0000 && InodeAt(NumInodes(img)) <= |img|
  }

  function FileLen(img: seq<Byte>, ino: nat): nat
    requires HasInodes(img) && ino < NumInodes(img)
  {
    U32At(img, InodeAt(ino))
  }

  /** Where the k-th block of a file is in the image. */
  function Start(img: seq<Byte>, ino: nat, k: nat): nat
    requires HasInodes(img) && ino < NumInodes(img) && k < BLOCKS
  {
    BlockAddr(U32At(img, InodeAt(ino) + 4 + 4 * k), NumInodes(img))
  }

  predicate InFile(img: seq<Byte>, ino: nat, k: nat)
    requires HasInodes(img) && ino < NumInodes(img)
  {
    k < BLOCKS && k * BLK < FileLen(img, ino)
  }

  /** Every block of the file lies in the data area, at a place of its own. */
  ghost predicate FileOk(img: seq<Byte>, ino: nat) {
    && HasInodes(img) && ino < NumInodes(img)
    && FileLen(img, ino) <= (BLOCKS - 1) * BLK
    && (forall k :: 0 <= k && InFile(img, ino, k) ==>
          InodeAt(NumInodes(img)) <= Start(img, ino, k) && Start(img, ino, k) % BLK == 0 && Start(img, ino, k) + BLK <= |img|)
    && (forall k, j :: 0 <= k < j && InFile(img, ino, k) && InFile(img, ino, j) ==> Start(img, ino, k) != Start(img, ino, j))
  }

  /** Two files share no block. */
  ghost predicate Separate(img: seq<Byte>, a: nat, b: nat)
    requires HasInodes(img) && a < NumInodes(img) && b < NumInodes(img)
  {
    forall k, j :: 0 <= k && 0 <= j && InFile(img, a, k) && InFile(img, b, j) ==> Start(img, a, k) != Start(img, b, j)
  }

  function FileByte(img: seq<Byte>, ino: nat, p: nat): Byte
    requires FileOk(img, ino) && p < FileLen(img, ino)
  {
    assert InFile(img, ino, p / BLK);
    img[Start(img, ino, p / BLK) + p % BLK]
  }

  /** The bytes of a file. */
  function FileBytes(img: seq<Byte>, ino: nat): (s: seq<Byte>)
    requires FileOk(img, ino)
    ensures |s| == FileLen(img, ino)
  {
    seq(FileLen(img, ino), p requires 0 <= p < FileLen(img, ino) => FileByte(img, ino, p))
  }

  // Directory

  /** The bytes from an offset up to the first 0 or the end. */
  function CStr(s: seq<Byte>, off: nat): (r: seq<Byte>)
    requires off <= |s|
    ensures off + |r| <= |s| && r == s[off..off + |r|] && 0 !in r
    ensures off + |r| < |s| ==> s[off + |r|] == 0
    decreases |s| - off
  {
    if off == |s| || s[off] == 0 then [] else [s[off]] + CStr(s, off + 1)
  }

  function EntryAt(i: nat): nat { 64 + 64 * i }

  function EntryName(boot: seq<Byte>, i: nat): seq<Byte>
    requires |boot| == BLK && i < ENTRIES
  {
    CStr(boot, EntryAt(i))
  }

  function EntryInode(boot: seq<Byte>, i: nat): nat
    requires |boot| == BLK && i < ENTRIES
  {
    U32At(boot, EntryAt(i) + 32)
  }

  /** The first directory entry at or after `from` with the given name, or ENTRIES. */
  function Lookup(boot: seq<Byte>, name: seq<Byte>, from: nat): (i: nat)
    requires |boot| == BLK && from <= ENTRIES
    ensures from <= i <= ENTRIES
    ensures i < ENTRIES ==> EntryName(boot, i) == name
    ensures forall j :: from <= j < i ==> EntryName(boot, j) != name
    decreases ENTRIES - from
  {
    if from == ENTRIES || EntryName(boot, from) == name then from else Lookup(boot, name, from + 1)
  }

  // Files in blocks

  lemma InBlock(k: nat, off: nat)
    requires off < BLK
    ensures (k * BLK + off) / BLK == k && (k * BLK + off) % BLK == off
  {
  }

  /** Bytes of a file that lie in one block are next to each other in the image. */
  lemma FileSlice(img: seq<Byte>, ino: nat, k: nat, off: nat, n: nat)
    requires FileOk(img, ino) && n > 0 && off + n <= BLK && k * BLK + off + n <= FileLen(img, ino)
    ensures InFile(img, ino, k)
    ensures var a := Start(img, ino, k) + off;
            a + n <= |img| && img[a..a + n] == FileBytes(img, ino)[k * BLK + off..k * BLK + off + n]
  {
    assert InFile(img, ino, k);
    var a, p := Start(img, ino, k) + off, k * BLK + off;
    var x, y := img[a..a + n], FileBytes(img, ino)[p..p + n];
    forall i | 0 <= i < n ensures x[i] == y[i] {
      InBlock(k, off + i);
      assert y[i] == FileByte(img, ino, k * BLK + (off + i));
    }
  }

  /** The boot block and the inodes of two images are the same. */
  ghost predicate SameMeta(img: seq<Byte>, img': seq<Byte>)
    requires HasInodes(img)
  {
    |img'| == |img| && img'[..InodeAt(NumInodes(img))] == img[..InodeAt(NumInodes(img))]
  }

  lemma U32Same(a: seq<Byte>, b: seq<Byte>, n: nat, off: nat)
    requires n <= |a| && n <= |b| && a[..n] == b[..n] && off + 4 <= n
    ensures U32At(a, off) == U32At(b, off)
  {
    forall i | off <= i < off + 4 ensures a[i] == b[i] {
      assert a[..n][i] == b[..n][i];
    }
  }

  lemma MetaKept(img: seq<Byte>, img': seq<Byte>)
    requires HasInodes(img) && SameMeta(img, img')
    ensures HasInodes(img') && NumInodes(img') == NumInodes(img)
    ensures forall ino :: 0 <= ino < NumInodes(img) ==> FileLen(img', ino) == FileLen(img, ino)
    ensures forall ino, k :: 0 <= ino < NumInodes(img) && 0 <= k < BLOCKS ==> Start(img', ino, k) == Start(img, ino, k)
  {
    var n := InodeAt(NumInodes(img));
    U32Same(img, img', n, 4);
    forall ino | 0 <= ino < NumInodes(img) ensures FileLen(img', ino) == FileLen(img, ino) {
      U32Same(img, img', n, InodeAt(ino));
    }
    forall ino, k | 0 <= ino < NumInodes(img) && 0 <= k < BLOCKS ensures Start(img', ino, k) == Start(img, ino, k) {
      U32Same(img, img', n, InodeAt(ino) + 4 + 4 * k);
    }
  }

  lemma FileOkKept(img: seq<Byte>, img': seq<Byte>, ino: nat)
    requires FileOk(img, ino) && SameMeta(img, img')
    ensures FileOk(img', ino) && FileLen(img', ino) == FileLen(img, ino)
  {
    MetaKept(img, img');
    forall k | 0 <= k && InFile(img', ino, k)
      ensures InodeAt(NumInodes(img')) <= Start(img', ino, k) && Start(img', ino, k) % BLK == 0
              && Start(img', ino, k) + BLK <= |img'| {
      assert InFile(img, ino, k);
    }
    forall k, j | 0 <= k < j && InFile(img', ino, k) && InFile(img', ino, j)
      ensures Start(img', ino, k) != Start(img', ino, j) {
      assert InFile(img, ino, k) && InFile(img, ino, j);
    }
  }

  /** `d` stored at offset `off` of block k of a file. */
  ghost predicate StoredAt(img: seq<Byte>, ino: nat, k: nat, off: nat, d: seq<Byte>, img': seq<Byte>)
    requires FileOk(img, ino)
  {
    && d != [] && off + |d| <= BLK && k * BLK + off + |d| <= FileLen(img, ino)
    && InFile(img, ino, k)
    && Start(img, ino, k) + off + |d| <= |img|
    && img' == Splice(img, Start(img, ino, k) + off, d)
  }

  lemma StoredMeta(img: seq<Byte>, ino: nat, k: nat, off: nat, d: seq<Byte>, img': seq<Byte>)
    requires FileOk(img, ino) && StoredAt(img, ino, k, off, d, img')
    ensures SameMeta(img, img') && FileOk(img', ino) && FileLen(img', ino) == FileLen(img, ino)
  {
    var n := InodeAt(NumInodes(img));
    SpliceSlice(img, Start(img, ino, k) + off, d, 0, n);
    assert img[0..n] == img[..n] && img'[0..n] == img'[..n];
    FileOkKept(img, img', ino);
  }

  /** Different aligned blocks do not overlap. */
  lemma BlocksApartFrom(a: nat, off: nat, len: nat, at: nat, b: nat, y: nat)
    requires a % BLK == 0 && b % BLK == 0 && a != b && off + len <= BLK && y < BLK && at == b + y
    ensures !(a + off <= at < a + off + len)
  {
  }

  /** One byte of a file after bytes were stored in a block of some file: changed only if it was overwritten. */
  lemma ByteAfterStore(img: seq<Byte>, a: nat, off: nat, d: seq<Byte>, b: nat, y: nat)
    requires a % BLK == 0 && b % BLK == 0 && off + |d| <= BLK && y < BLK
    requires a + off + |d| <= |img| && b + y < |img|
    ensures a != b ==> Splice(img, a + off, d)[b + y] == img[b + y]
    ensures a == b ==> Splice(img, a + off, d)[b + y] == if off <= y < off + |d| then d[y - off] else img[b + y]
  {
    if a != b { BlocksApartFrom(a, off, |d|, b + y, b, y); }
  }

  lemma SamePlace(k: nat, off: nat, n: nat, q: nat)
    requires off + n <= BLK
    ensures k * BLK + off <= q < k * BLK + off + n <==> q / BLK == k && off <= q % BLK < off + n
  {
  }

  lemma StoredByte(img: seq<Byte>, ino: nat, k: nat, off: nat, d: seq<Byte>, img': seq<Byte>, q: nat)
    requires FileOk(img, ino) && StoredAt(img, ino, k, off, d, img') && q < FileLen(img, ino)
    requires FileOk(img', ino) && FileLen(img', ino) == FileLen(img, ino)
    requires Start(img', ino, q / BLK) == Start(img, ino, q / BLK)
    ensures var p := k * BLK + off;
            FileByte(img', ino, q) == if p <= q < p + |d| then d[q - p] else FileByte(img, ino, q)
  {
    var j := q / BLK;
    assert InFile(img, ino, j) && InFile(img, ino, k);
    assert k != j ==> Start(img, ino, k) != Start(img, ino, j);
    SamePlace(k, off, |d|, q);
    ByteAfterStore(img, Start(img, ino, k), off, d, Start(img, ino, j), q % BLK);
  }

  /** Storing bytes in a block of a file replaces just those bytes of the file. */
  lemma StoredBytes(img: seq<Byte>, ino: nat, k: nat, off: nat, d: seq<Byte>, img': seq<Byte>)
    requires FileOk(img, ino) && StoredAt(img, ino, k, off, d, img')
    ensures FileOk(img', ino) && FileBytes(img', ino) == Splice(FileBytes(img, ino), k * BLK + off, d)
  {
    StoredMeta(img, ino, k, off, d, img');
    MetaKept(img, img');
    SpliceAt(FileBytes(img, ino), k * BLK + off, d);
    forall q | 0 <= q < FileLen(img, ino)
      ensures FileBytes(img', ino)[q] == Splice(FileBytes(img, ino), k * BLK + off, d)[q] {
      assert InFile(img, ino, q / BLK);
      StoredByte(img, ino, k, off, d, img', q);
    }
  }

  lemma OtherByte(img: seq<Byte>, ino: nat, k: nat, off: nat, d: seq<Byte>, img': seq<Byte>, other: nat, q: nat)
    requires FileOk(img, ino) && StoredAt(img, ino, k, off, d, img')
    requires FileOk(img, other) && Separate(img, ino, other) && q < FileLen(img, other)
    requires FileOk(img', other) && FileLen(img', other) == FileLen(img, other)
    requires Start(img', other, q / BLK) == Start(img, other, q / BLK)
    ensures FileByte(img', other, q) == FileByte(img, other, q)
  {
    var j := q / BLK;
    assert InFile(img, other, j) && InFile(img, ino, k);
    ByteAfterStore(img, Start(img, ino, k), off, d, Start(img, other, j), q % BLK);
  }

  lemma SeparateKept(img: seq<Byte>, img': seq<Byte>, a: nat, b: nat)
    requires HasInodes(img) && SameMeta(img, img') && a < NumInodes(img) && b < NumInodes(img) && Separate(img, a, b)
    ensures HasInodes(img') && NumInodes(img') == NumInodes(img) && Separate(img', a, b)
  {
    MetaKept(img, img');
    forall k, j | 0 <= k && 0 <= j && InFile(img', a, k) && InFile(img', b, j)
      ensures Start(img', a, k) != Start(img', b, j) {
      assert InFile(img, a, k) && InFile(img, b, j);
    }
  }

  /** Files that share no block with it are untouched. */
  lemma OthersUntouched(img: seq<Byte>, ino: nat, k: nat, off: nat, d: seq<Byte>, img': seq<Byte>, other: nat)
    requires FileOk(img, ino) && StoredAt(img, ino, k, off, d, img')
    requires FileOk(img, other) && Separate(img, ino, other)
    ensures FileOk(img', other) && FileBytes(img', other) == FileBytes(img, other)
    ensures FileOk(img', ino) && Separate(img', ino, other)
  {
    StoredMeta(img, ino, k, off, d, img');
    FileOkKept(img, img', other);
    SeparateKept(img, img', ino, other);
    MetaKept(img, img');
    forall q | 0 <= q < FileLen(img, other) ensures FileBytes(img', other)[q] == FileBytes(img, other)[q] {
      assert InFile(img, other, q / BLK);
      OtherByte(img, ino, k, off, d, img', other, q);
    }
  }

  /** Every other file of `img` that shares no block with the file still has its bytes in img'. */
  ghost predicate OthersKept(img: seq<Byte>, ino: nat, img': seq<Byte>)
    requires HasInodes(img) && ino < NumInodes(img)
    requires HasInodes(img') && NumInodes(img') == NumInodes(img)
  {
    forall other :: 0 <= other && FileOk(img, other) && Separate(img, ino, other) ==>
      FileOk(img', other) && FileBytes(img', other) == FileBytes(img, other) && Separate(img', ino, other)
  }

  /** img' is img with the bytes of the file from p on replaced by d, and nothing else changed that a file shows. */
  ghost predicate Updated(img: seq<Byte>, ino: nat, p: nat, d: seq<Byte>, img': seq<Byte>)
    requires FileOk(img, ino) && p + |d| <= FileLen(img, ino)
  {
    && SameMeta(img, img') && HasInodes(img') && NumInodes(img') == NumInodes(img)
    && FileOk(img', ino)
    && FileBytes(img', ino) == Splice(FileBytes(img, ino), p, d)
    && OthersKept(img, ino, img')
  }

  lemma UpdatedByNothing(img: seq<Byte>, ino: nat, p: nat)
    requires FileOk(img, ino) && p <= FileLen(img, ino)
    ensures Updated(img, ino, p, [], img)
  {
    SpliceNothing(FileBytes(img, ino), p);
  }

  lemma OthersStillKept(img: seq<Byte>, ino: nat, img': seq<Byte>, k: nat, off: nat, e: seq<Byte>, img'': seq<Byte>)
    requires FileOk(img, ino) && FileOk(img', ino) && NumInodes(img') == NumInodes(img)
    requires OthersKept(img, ino, img') && StoredAt(img', ino, k, off, e, img'')
    ensures HasInodes(img'') && NumInodes(img'') == NumInodes(img) && OthersKept(img, ino, img'')
  {
    StoredMeta(img', ino, k, off, e, img'');
    MetaKept(img', img'');
    forall other | 0 <= other && FileOk(img, other) && Separate(img, ino, other)
      ensures FileOk(img'', other) && FileBytes(img'', other) == FileBytes(img, other) && Separate(img'', ino, other) {
      assert FileOk(img', other);
      OthersUntouched(img', ino, k, off, e, img'', other);
    }
  }

  /** A further store, of the bytes that follow in the file. */
  lemma UpdatedFurther(img: seq<Byte>, ino: nat, p: nat, d: seq<Byte>, img': seq<Byte>,
                       k: nat, off: nat, e: seq<Byte>, img'': seq<Byte>)
    requires FileOk(img, ino) && p + |d| + |e| <= FileLen(img, ino) && p + |d| == k * BLK + off
    requires Updated(img, ino, p, d, img') && StoredAt(img', ino, k, off, e, img'')
    ensures Updated(img, ino, p, d + e, img'')
  {
    StoredMeta(img', ino, k, off, e, img'');
    MetaKept(img', img'');
    StoredBytes(img', ino, k, off, e, img'');
    SpliceTwice(FileBytes(img, ino), p, d, e);
    OthersStillKept(img, ino, img', k, off, e, img'');
  }
}
