/**
 mkfs as the program has it, with its running counters, and the whole way from a list of files to the bytes
 that the kernel reads.
 */
module Mkfs {
  import opened Common
  import opened Bytes
  import opened Vioblk
  import opened KfsImage
  import opened Kfs
  import opened MkfsImage
  import opened MkfsTheorems

  /** The loop that adds all directory entries. */
  method AddEntries(files: seq<File>) returns (entries: seq<seq<Byte>>)
    requires Fits(files)
    ensures entries == seq(ENTRIES, i requires 0 <= i => Entry(files, i))
  {
    entries := seq(ENTRIES, i => Zeros(64));
    var numberInodes := 0;
    while numberInodes < |files|
      invariant 0 <= numberInodes <= |files| && |entries| == ENTRIES
      invariant forall i :: 0 <= i < ENTRIES ==> entries[i] == if i < numberInodes then Entry(files, i) else Zeros(64)
    {
      var f := files[numberInodes];
      assert f in files;
      entries := entries[numberInodes := f.name + Zeros(32 - |f.name|) + U32(numberInodes) + Zeros(28)];
      numberInodes := numberInodes + 1;
    }
  }

  /** Numbers the blocks of one file from `dataBlockIdx` on. */
  method AddInode(files: seq<File>, junk: Junk, i: nat, dataBlockIdx: nat) returns (inode: seq<Byte>, next: nat)
    requires Fits(files) && i < |files| && dataBlockIdx == First(files[..i])
    ensures inode == Inode(files, junk, i) && next == First(files[..i + 1])
  {
    var f := files[i];
    assert f in files;
    var nums := seq(BLOCKS, k requires 0 <= k => U32(junk(i, k)));
    var j := 0;
    next := dataBlockIdx;
    while j < |f.data| / BLK + 1
      invariant 0 <= j <= Numbered(|f.data|) && next == dataBlockIdx + j && |nums| == BLOCKS
      invariant forall k :: 0 <= k < BLOCKS ==> nums[k] == if k < j then U32(First(files[..i]) + k) else U32(junk(i, k))
    {
      nums := nums[j := U32(next)];
      next := next + 1;
      j := j + 1;
    }
    assert nums == seq(BLOCKS, k requires 0 <= k => U32(BlockNum(files, junk, i, k)));
    assert files[..i + 1][..i] == files[..i];
    inode := U32(|f.data|) + Flat(nums);
  }

  /** The loop that adds all inodes. */
  method AddInodes(files: seq<File>, junk: Junk) returns (inodes: seq<seq<Byte>>, numData: nat)
    requires Fits(files)
    ensures inodes == Inodes(files, junk) && numData == First(files)
  {
    inodes := [];
    numData := 0;
    var i := 0;
    while i < |files|
      invariant 0 <= i <= |files| && |inodes| == i && numData == First(files[..i])
      invariant forall k :: 0 <= k < i ==> inodes[k] == Inode(files, junk, k)
    {
      var inode;
      inode, numData := AddInode(files, junk, i, numData);
      inodes := inodes + [inode];
      i := i + 1;
    }
    assert files[..i] == files;
  }

  /** Copies one file through a buffer that is zero at first and written out whole after each read. */
  method AddData(img: seq<Byte>, data: seq<Byte>) returns (out: seq<Byte>)
    ensures out == img + Flat(Blocks(data, Zeros(BLK)))
  {
    out := img;
    var buf, rest := Zeros(BLK), data;
    ghost var blocks: seq<seq<Byte>> := [];
    while rest != []
      invariant |buf| == BLK && out == img + Flat(blocks)
      invariant blocks + Blocks(rest, buf) == Blocks(data, Zeros(BLK))
      decreases |rest|
    {
      var n := Min(BLK, |rest|);
      ghost var todo := Blocks(rest, buf);
      buf := rest[..n] + buf[n..];
      rest := rest[n..];
      out := out + buf;
      assert blocks + todo == (blocks + [buf]) + Blocks(rest, buf);
      assert (blocks + [buf])[..|blocks|] == blocks;
      blocks := blocks + [buf];
    }
    assert blocks + [] == blocks;
  }

  /** The loop that adds all data blocks. */
  method AddAllData(meta: seq<Byte>, files: seq<File>) returns (img: seq<Byte>)
    ensures img == meta + Flat(AllBlocks(files))
  {
    img := meta;
    var i := 0;
    while i < |files|
      invariant 0 <= i <= |files| && img == meta + Flat(AllBlocks(files[..i]))
    {
      img := AddData(img, files[i].data);
      FlatConcat(AllBlocks(files[..i]), Blocks(files[i].data, Zeros(BLK)));
      assert files[..i + 1][..i] == files[..i];
      i := i + 1;
    }
    assert files[..i] == files;
  }

  /** The whole program. */
  method MakeImage(files: seq<File>, junk: Junk) returns (img: seq<Byte>)
    requires Fits(files)
    ensures img == Build(files, junk)
  {
    var entries := AddEntries(files);
    var inodes, numData := AddInodes(files, junk);
    var boot := U32(|files|) + U32(|files|) + U32(numData) + Zeros(52) + Flat(entries);
    img := AddAllData(boot + Flat(inodes), files);
  }

  /** Mounts an image, opens a file by name and reads it in portions of the given sizes. */
  method MountRead(img: seq<Byte>, name: seq<Byte>, ghost inode: nat, sizes: seq<nat>) returns (bytes: seq<Byte>)
    requires HasInodes(img) && |img| % SECTOR == 0 && |img| + SECTOR < 0x8000_0000
    requires Lookup(img[..BLK], name, 0) < ENTRIES && EntryInode(img[..BLK], Lookup(img[..BLK], name, 0)) == inode
    requires FileOk(img, inode) && Sum(sizes) < MAX64
    ensures bytes == FileBytes(img, inode)[..Min(Sum(sizes), FileLen(img, inode))]
  {
    var disk := new BlockDevice(img);
    disk.Open();
    var fs := new FileSystem(disk);
    assert fs.files[0] == Free;
    var _, fd := fs.Open(name);
    var _, all := fs.ReadInPortions(fd, sizes);
    return all;
  }

  /**
   From files to bytes read: an image is built, put on a disk, mounted, file i is opened by name and read in
   portions of any sizes. What comes out is the file, as far as was asked for.
   */
  method BuildMountRead(files: seq<File>, junk: Junk, i: nat, sizes: seq<nat>) returns (bytes: seq<Byte>)
    requires Fits(files) && NamesOk(files) && i < |files| && Sum(sizes) < MAX64
    requires files[i].data == [] || NoFullBefore(files, i)
    ensures bytes == files[i].data[..Min(Sum(sizes), |files[i].data|)]
  {
    var img := MakeImage(files, junk);
    ImageInodes(files, junk);
    RoundTrip(files, junk, i);
    LookupFinds(files, junk, i);
    bytes := MountRead(img, files[i].name, i, sizes);
  }
}
