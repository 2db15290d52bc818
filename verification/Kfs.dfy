/**
 The file system over the block device: mounting, opening by name, and reads and writes at a position,
 block by block. Operations of one thread.

 A loop invariant written `P(...) == true` is the predicate P taken as a whole: the steps of the loops
 establish it as such, and the verifier need not take it apart.
 */
module Kfs {
  import opened Common
  import opened Bytes
  import opened Vioblk
  import opened KfsImage

  const SLOTS: nat := 32           // MAX_OPEN_FILE_CT
  const MAX64: nat := 0x1_0000_0000_0000_0000

  const ENOENT: int := 7
  const EFILESYS: int := 8

  /** An entry of the open-file table. The io_intf of a file is identified with its entry. */
  datatype Slot = Free | Used(inode: nat, position: nat, size: nat)

  /**
   How the rest of a transfer is cut up: a leading part up to the end of a block, whole blocks, and a
   remainder.
   */
  datatype Plan = Plan(leading: nat, cycle: nat, remainder: nat) {
    /** This plan moves `rest` bytes from offset `off` of a block on, never across a block boundary. */
    ghost predicate Fits(off: nat, rest: nat) {
      && off < BLK && leading + cycle * BLK + remainder == rest && remainder < BLK
      && (leading != 0 ==> off + leading == BLK)
      && (leading == 0 ==> off == 0 || (cycle == 0 && off + remainder < BLK))
    }

    /** How many bytes the next turn of the loop moves. */
    function Count(): nat {
      if leading != 0 then leading else if cycle == 0 then remainder else BLK
    }

    predicate Last() { leading == 0 && cycle == 0 }

    function Next(): Plan
      requires !Last()
    {
      if leading != 0 then this.(leading := 0) else this.(cycle := cycle - 1)
    }
  }

  function MakePlan(p: nat, n: nat): (plan: Plan)
    ensures plan.Fits(p % BLK, n)
  {
    var compensation := if p % BLK == 0 then 0 else BLK - p % BLK;
    if n < compensation then Plan(0, 0, n)
    else Plan(compensation, (n - compensation) / BLK, (n - compensation) % BLK)
  }

  lemma PlanTurn(plan: Plan, off: nat, rest: nat)
    requires plan.Fits(off, rest)
    ensures plan.Count() <= rest && off + plan.Count() <= BLK
    ensures if plan.Last() then plan.Count() == rest
            else off + plan.Count() == BLK && plan.Next().Fits(0, rest - plan.Count())
  {
  }

  /** The file with this inode is opened at position 0 in the first free slot, if there is one. */
  predicate Opened(before: seq<Slot>, after: seq<Slot>, inode: nat, size: nat, fd: int) {
    if Free in before then
      && 0 <= fd < |before| && before[fd] == Free && (forall j :: 0 <= j < fd ==> before[j] != Free)
      && after == before[fd := Used(inode, 0, size)]
    else fd == -EFILESYS && after == before
  }

  /** `buf` is what the file holds from position p on. */
  ghost predicate Got(bytes: seq<Byte>, p: nat, buf: seq<Byte>) {
    p + |buf| <= |bytes| && buf == bytes[p..p + |buf|]
  }

  lemma GotMore(bytes: seq<Byte>, p: nat, buf: seq<Byte>, part: seq<Byte>)
    requires Got(bytes, p, buf) && Got(bytes, p + |buf|, part)
    ensures Got(bytes, p, buf + part)
  {
    SliceJoin(bytes, p, p + |buf|, p + |buf| + |part|);
  }

  class FileSystem {
    const dev: BlockDevice
    var superBlock: seq<Byte>
    var files: seq<Slot>
    var locked: bool         // the lock flk; whoever waits for it in a system of one thread waits for ever

    ghost predicate Mounted()
      reads this, dev
    {
      && dev.Valid() && dev.isOpen && HasInodes(dev.disk)
      && superBlock == dev.disk[..BLK] && |files| == SLOTS
    }

    /** Every open file is sound and its position is not past its end. */
    ghost predicate Valid()
      reads this, dev
    {
      && Mounted()
      && forall fd :: 0 <= fd < SLOTS && files[fd].Used? ==>
           && FileOk(dev.disk, files[fd].inode)
           && files[fd].position <= files[fd].size == FileLen(dev.disk, files[fd].inode)
    }

    /** The bytes of an open file. */
    ghost function Contents(fd: nat): (s: seq<Byte>)
      requires Valid() && fd < SLOTS && files[fd].Used?
      reads this, dev
      ensures |s| == files[fd].size
    {
      FileBytes(dev.disk, files[fd].inode)
    }

    lemma SuperNumInodes()
      requires Mounted()
      ensures NumInodes(superBlock) == NumInodes(dev.disk)
    {
      U32Same(superBlock, dev.disk, BLK, 4);
    }

    /** fs_mount on a device at position 0. */
    constructor (io: BlockDevice)
      requires io.Valid() && io.isOpen && io.pos == 0 && HasInodes(io.disk)
      modifies io`pos, io.blkbuf
      ensures dev == io && Valid() && files == seq(SLOTS, i => Free) && !locked
      ensures io.disk == old(io.disk)
    {
      dev := io;
      var block := io.ReadFull(BLK);
      superBlock := block;
      files := seq(SLOTS, i => Free);
      locked := false;
    }

    /** lock_acquire, which is not recursive; `got` is false if it does not return. */
    method Acquire() returns (got: bool)
      modifies this`locked
      ensures locked && (got <==> !old(locked))
    {
      got := !locked;
      locked := true;
    }

    /** lock_release. */
    method Release()
      requires locked
      modifies this`locked
      ensures !locked
    {
      locked := false;
    }

    /** The block numbers in `blk` are those of the inode. */
    ghost predicate InodeBlock(blk: seq<Byte>, inode: nat)
      requires Mounted() && inode < NumInodes(dev.disk)
      reads this, dev
    {
      && |blk| == BLK
      && forall k :: 0 <= k < BLOCKS ==> BlockAddr(U32At(blk, 4 + 4 * k), NumInodes(superBlock)) == Start(dev.disk, inode, k)
    }

    /** Seeks to offset `off` of the i-th block of the file. */
    method SeekBlock(ghost inode: nat, blk: seq<Byte>, i: nat, off: nat)
      requires Mounted() && inode < NumInodes(dev.disk) && InodeBlock(blk, inode) && i < BLOCKS
      modifies dev`pos
      ensures Mounted() && InodeBlock(blk, inode) && dev.pos == Start(dev.disk, inode, i) + off
    {
      dev.SetPos(BlockAddr(U32At(blk, 4 + 4 * i), NumInodes(superBlock)) + off);
    }

    /** Seeks to the inode block and reads it. */
    method ReadInode(inode: nat) returns (blk: seq<Byte>)
      requires Mounted() && inode < NumInodes(dev.disk)
      modifies dev`pos, dev.blkbuf
      ensures Mounted() && blk == dev.disk[InodeAt(inode)..InodeAt(inode) + BLK]
      ensures U32At(blk, 0) == FileLen(dev.disk, inode) && InodeBlock(blk, inode)
    {
      dev.SetPos(inode * BLK + BLK);
      blk := dev.ReadFull(BLK);
      SuperNumInodes();
    }

    /** The device stands at offset `off` of block i of the file. */
    ghost predicate At(inode: nat, i: nat, off: nat)
      requires Mounted() && inode < NumInodes(dev.disk)
      reads this, dev
    {
      i < BLOCKS && dev.pos == Start(dev.disk, inode, i) + off
    }

    /**
     What the loop of fs_read keeps: `buf` is what the file holds from p on, `rest` bytes are left to read,
     and the next one is at offset `off` of block i.
     */
    ghost predicate InRead(inode: nat, blk: seq<Byte>, p: nat, buf: seq<Byte>, i: nat, off: nat, rest: nat, plan: Plan)
      reads this, dev
    {
      && Mounted() && FileOk(dev.disk, inode) && InodeBlock(blk, inode)
      && p + |buf| == i * BLK + off && i * BLK + off + rest <= FileLen(dev.disk, inode)
      && Got(FileBytes(dev.disk, inode), p, buf)
      && plan.Fits(off, rest) && At(inode, i, off)
    }

    /** One turn of the loop of fs_read. */
    method ReadStep(ghost inode: nat, blk: seq<Byte>, ghost p: nat, ghost buf: seq<Byte>, i: nat, ghost off: nat,
                    ghost rest: nat, plan: Plan)
      returns (part: seq<Byte>, last: bool, next: Plan)
      requires InRead(inode, blk, p, buf, i, off, rest, plan)
      modifies dev`pos, dev.blkbuf
      ensures Mounted() && FileOk(dev.disk, inode) && |part| <= rest
      ensures Got(FileBytes(dev.disk, inode), p, buf + part)
      ensures last ==> |part| == rest
      ensures !last ==> InRead(inode, blk, p, buf + part, i + 1, 0, rest - |part|, next)
    {
      PlanTurn(plan, off, rest);
      part := ReadPart(inode, i, off, plan.Count());
      GotMore(FileBytes(dev.disk, inode), p, buf, part);
      if plan.Last() { return part, true, plan; }
      SeekBlock(inode, blk, i + 1, 0);
      return part, false, plan.Next();
    }

    /** The loop of fs_read. */
    method ReadLoop(ghost inode: nat, blk: seq<Byte>, ghost p: nat, first: nat, ghost off: nat, ghost n: nat, plan0: Plan)
      returns (buf: seq<Byte>)
      requires InRead(inode, blk, p, [], first, off, n, plan0) == true && first < BLOCKS
      modifies dev`pos, dev.blkbuf
      ensures Mounted() && FileOk(dev.disk, inode) && |buf| == n && Got(FileBytes(dev.disk, inode), p, buf)
    {
      buf := [];
      var i, plan := first, plan0;
      ghost var at := off;
      while i < BLOCKS
        invariant 0 <= at && |buf| <= n && i < BLOCKS
        invariant InRead(inode, blk, p, buf, i, at, n - |buf|, plan) == true
        decreases BLOCKS - i
      {
        var part, last, next := ReadStep(inode, blk, p, buf, i, at, n - |buf|, plan);
        buf := buf + part;
        if last { return; }
        plan, i, at := next, i + 1, 0;
      }
    }

    /** fs_read from the seek to the first byte on. */
    method ReadBlocks(inode: nat, blk: seq<Byte>, p: nat, n: nat) returns (buf: seq<Byte>)
      requires Mounted() && FileOk(dev.disk, inode) && p + n <= FileLen(dev.disk, inode)
      requires InodeBlock(blk, inode)
      modifies dev`pos, dev.blkbuf
      ensures Mounted() && FileOk(dev.disk, inode) && |buf| == n && Got(FileBytes(dev.disk, inode), p, buf)
    {
      SeekBlock(inode, blk, p / BLK, p % BLK);
      buf := ReadLoop(inode, blk, p, p / BLK, p % BLK, n, MakePlan(p, n));
    }

    /** One read of the loop, within one block; none at all if nothing is left. */
    method ReadPart(ghost inode: nat, ghost i: nat, ghost off: nat, count: nat) returns (part: seq<Byte>)
      requires Mounted() && FileOk(dev.disk, inode)
      requires i * BLK + off + count <= FileLen(dev.disk, inode) && off < BLK && off + count <= BLK && At(inode, i, off)
      modifies dev`pos, dev.blkbuf
      ensures Mounted() && |part| == count && Got(FileBytes(dev.disk, inode), i * BLK + off, part)
    {
      if count > 0 { FileSlice(dev.disk, inode, i, off, count); }
      part := dev.ReadFull(count);
    }

    /** The boot block and block numbers in memory are still those on the disk. */
    lemma MetaStillRead(before: seq<Byte>, inode: nat, blk: seq<Byte>)
      requires dev.Valid() && dev.isOpen && HasInodes(before) && SameMeta(before, dev.disk)
      requires superBlock == before[..BLK] && |files| == SLOTS && inode < NumInodes(before)
      requires |blk| == BLK && forall k :: 0 <= k < BLOCKS ==>
        BlockAddr(U32At(blk, 4 + 4 * k), NumInodes(superBlock)) == Start(before, inode, k)
      ensures Mounted() && NumInodes(dev.disk) == NumInodes(before) && InodeBlock(blk, inode)
    {
      MetaKept(before, dev.disk);
      var m := InodeAt(NumInodes(before));
      assert before[..m][..BLK] == before[..BLK] && dev.disk[..m][..BLK] == dev.disk[..BLK];
    }

    /** One write of the loop of fs_write, within one block; `d` is what it writes. */
    method WriteTurn(ghost inode: nat, ghost blk: seq<Byte>, ghost i: nat, ghost off: nat, d: seq<Byte>)
      requires Mounted() && FileOk(dev.disk, inode) && InodeBlock(blk, inode)
      requires i * BLK + off + |d| <= FileLen(dev.disk, inode) && off < BLK && off + |d| <= BLK && At(inode, i, off)
      modifies dev`pos, dev`disk, dev.blkbuf
      ensures Mounted() && FileOk(dev.disk, inode) && InodeBlock(blk, inode)
      ensures d == [] ==> dev.disk == old(dev.disk)
      ensures d != [] ==> StoredAt(old(dev.disk), inode, i, off, d, dev.disk)
    {
      ghost var before := dev.disk;
      if d != [] { FileSlice(dev.disk, inode, i, off, |d|); }
      var cnt := dev.WriteFull(d);
      assert d[..|d|] == d;
      if d != [] {
        StoredMeta(before, inode, i, off, d, dev.disk);
        MetaStillRead(before, inode, blk);
      }
    }

    /**
     What the loop of fs_write keeps: `written` has replaced the bytes from p on, `rest` bytes are left to
     write, and the next one goes to offset `off` of block i.
     */
    ghost predicate InWrite(img: seq<Byte>, inode: nat, blk: seq<Byte>, p: nat, written: seq<Byte>, i: nat, off: nat,
                            rest: nat, plan: Plan)
      requires FileOk(img, inode)
      reads this, dev
    {
      && p + |written| == i * BLK + off && i * BLK + off + rest <= FileLen(img, inode)
      && Mounted() && FileOk(dev.disk, inode) && InodeBlock(blk, inode)
      && Updated(img, inode, p, written, dev.disk)
      && plan.Fits(off, rest) && At(inode, i, off)
    }

    /** A store of the bytes that follow in the file. */
    method WriteOn(ghost img: seq<Byte>, ghost inode: nat, ghost blk: seq<Byte>, ghost p: nat, ghost written: seq<Byte>,
                   ghost i: nat, ghost off: nat, part: seq<Byte>)
      requires FileOk(img, inode) && p + |written| == i * BLK + off && off < BLK && off + |part| <= BLK
      requires i * BLK + off + |part| <= FileLen(img, inode)
      requires Mounted() && FileOk(dev.disk, inode) && InodeBlock(blk, inode)
      requires Updated(img, inode, p, written, dev.disk) && At(inode, i, off)
      modifies dev`pos, dev`disk, dev.blkbuf
      ensures Mounted() && FileOk(dev.disk, inode) && InodeBlock(blk, inode)
      ensures Updated(img, inode, p, written + part, dev.disk)
    {
      ghost var before := dev.disk;
      WriteTurn(inode, blk, i, off, part);
      if part != [] {
        UpdatedFurther(img, inode, p, written, before, i, off, part, dev.disk);
      } else {
        assert written + part == written;
      }
    }

    /** The loop of fs_write has written the first `done` bytes of data and comes to block i. */
    ghost predicate Writing(img: seq<Byte>, inode: nat, blk: seq<Byte>, p: nat, data: seq<Byte>, done: nat, i: nat, off: nat, plan: Plan)
      reads this, dev
    {
      FileOk(img, inode) && done <= |data| && InWrite(img, inode, blk, p, data[..done], i, off, |data| - done, plan)
    }

    /** All of data is written. */
    ghost predicate Written(img: seq<Byte>, inode: nat, p: nat, data: seq<Byte>)
      reads this, dev
    {
      FileOk(img, inode) && p + |data| <= FileLen(img, inode) && Mounted() && Updated(img, inode, p, data, dev.disk)
    }

    /** The first `done` bytes are written; the device is nowhere in particular. */
    ghost predicate Between(img: seq<Byte>, inode: nat, blk: seq<Byte>, p: nat, data: seq<Byte>, done: nat)
      reads this, dev
    {
      && FileOk(img, inode) && done <= |data| && p + |data| <= FileLen(img, inode)
      && Mounted() && FileOk(dev.disk, inode) && InodeBlock(blk, inode)
      && Updated(img, inode, p, data[..done], dev.disk)
    }

    /** The store of one turn of the loop. */
    method WriteChunk(ghost img: seq<Byte>, ghost inode: nat, ghost blk: seq<Byte>, ghost p: nat, data: seq<Byte>, done: nat,
                      ghost i: nat, ghost off: nat, plan: Plan)
      returns (done': nat)
      requires Writing(img, inode, blk, p, data, done, i, off, plan) == true
      modifies dev`pos, dev`disk, dev.blkbuf
      ensures done' == done + plan.Count() && Between(img, inode, blk, p, data, done') == true
    {
      PlanTurn(plan, off, |data| - done);
      done' := done + plan.Count();
      TakeMore(data, done, plan.Count());
      WriteOn(img, inode, blk, p, data[..done], i, off, data[done..done']);
    }

    /** Between two turns of the loop: seeks to block i. */
    method SeekNext(ghost img: seq<Byte>, ghost inode: nat, blk: seq<Byte>, ghost p: nat, ghost data: seq<Byte>, ghost done: nat,
                    i: nat, ghost plan: Plan)
      requires Between(img, inode, blk, p, data, done) == true
      requires i < BLOCKS && p + done == i * BLK && done <= |data| && plan.Fits(0, |data| - done) == true
      modifies dev`pos
      ensures Writing(img, inode, blk, p, data, done, i, 0, plan) == true
    {
      SeekBlock(inode, blk, i, 0);
    }

    /** What the plan says about where a turn of the loop ends. */
    lemma TurnEnds(img: seq<Byte>, inode: nat, blk: seq<Byte>, p: nat, data: seq<Byte>, done: nat, i: nat, off: nat, plan: Plan)
      requires Writing(img, inode, blk, p, data, done, i, off, plan) == true
      ensures var done' := done + plan.Count();
              && done' <= |data|
              && if plan.Last() then done' == |data|
                 else i + 1 < BLOCKS && p + done' == (i + 1) * BLK && plan.Next().Fits(0, |data| - done') == true
    {
      PlanTurn(plan, off, |data| - done);
    }

    lemma AllWritten(img: seq<Byte>, inode: nat, blk: seq<Byte>, p: nat, data: seq<Byte>)
      requires Between(img, inode, blk, p, data, |data|) == true
      ensures Written(img, inode, p, data) == true
    {
      assert data[..|data|] == data;
    }

    /** One turn of the loop of fs_write at block i: the next bytes of `data`, of which `done` are written. */
    method WriteStep(ghost img: seq<Byte>, ghost inode: nat, blk: seq<Byte>, ghost p: nat, data: seq<Byte>, done: nat,
                     i: nat, ghost off: nat, plan: Plan)
      returns (last: bool, done': nat, ghost off': nat, plan': Plan)
      requires Writing(img, inode, blk, p, data, done, i, off, plan) == true
      modifies dev`pos, dev`disk, dev.blkbuf
      ensures last ==> Written(img, inode, p, data) == true
      ensures !last ==> i + 1 < BLOCKS && Writing(img, inode, blk, p, data, done', i + 1, off', plan') == true
    {
      TurnEnds(img, inode, blk, p, data, done, i, off, plan);
      done' := WriteChunk(img, inode, blk, p, data, done, i, off, plan);
      last, off', plan' := plan.Last(), 0, plan;
      if last {
        AllWritten(img, inode, blk, p, data);
      } else {
        plan' := plan.Next();
        SeekNext(img, inode, blk, p, data, done', i + 1, plan');
      }
    }

    /** The loop of fs_write. */
    method WriteLoop(ghost img: seq<Byte>, ghost inode: nat, blk: seq<Byte>, ghost p: nat, data: seq<Byte>,
                     first: nat, ghost off: nat, plan0: Plan)
      requires Writing(img, inode, blk, p, data, 0, first, off, plan0) == true && first < BLOCKS
      modifies dev`pos, dev`disk, dev.blkbuf
      ensures Written(img, inode, p, data) == true
    {
      var i: nat, done: nat, plan, last := first, 0, plan0, false;
      ghost var at: nat := off;
      while i < BLOCKS && !last
        invariant if last then Written(img, inode, p, data) == true
                  else i < BLOCKS && Writing(img, inode, blk, p, data, done, i, at, plan) == true
        decreases BLOCKS - i
      {
        last, done, at, plan := WriteStep(img, inode, blk, p, data, done, i, at, plan);
        i := i + 1;
      }
    }

    /** fs_write from the seek to the first byte on: replaces the bytes of the file from p on by `data`. */
    method WriteBlocks(inode: nat, blk: seq<Byte>, p: nat, data: seq<Byte>)
      requires Mounted() && FileOk(dev.disk, inode) && p + |data| <= FileLen(dev.disk, inode)
      requires InodeBlock(blk, inode)
      modifies dev`pos, dev`disk, dev.blkbuf
      ensures Mounted() && FileOk(old(dev.disk), inode) && Updated(old(dev.disk), inode, p, data, dev.disk)
    {
      ghost var img := dev.disk;
      UpdatedByNothing(img, inode, p);
      SeekBlock(inode, blk, p / BLK, p % BLK);
      assert data[..0] == [];
      WriteLoop(img, inode, blk, p, data, p / BLK, p % BLK, MakePlan(p, |data|));
    }
  
    /** The search of fs_open through the boot block. */
    method FindEntry(name: seq<Byte>) returns (i: nat)
      requires Mounted()
      ensures i == Lookup(superBlock, name, 0)
    {
      i := 0;
      while i < ENTRIES && CStr(superBlock, EntryAt(i)) != name
        invariant i <= ENTRIES
        invariant Lookup(superBlock, name, 0) == Lookup(superBlock, name, i)
      {
        i := i + 1;
      }
    }

    /** fs_open once the entry is found. */
    method OpenInode(inode: nat) returns (fd: int)
      requires Valid() == true && FileOk(dev.disk, inode) == true
      modifies this`files, dev`pos, dev.blkbuf
      ensures Valid() == true && dev.disk == old(dev.disk) && superBlock == old(superBlock)
      ensures FileOk(dev.disk, inode) && Opened(old(files), files, inode, FileLen(dev.disk, inode), fd) == true
    {
      var blk := ReadInode(inode);
      var i := FindSlot();
      if i == SLOTS { return -EFILESYS; }
      Occupy(i, inode, U32At(blk, 0));
      return i;
    }

    method Occupy(i: nat, inode: nat, size: nat)
      requires Valid() && i < SLOTS && FileOk(dev.disk, inode) && size == FileLen(dev.disk, inode)
      modifies this`files
      ensures Valid() && files == old(files)[i := Used(inode, 0, size)]
    {
      files := files[i := Used(inode, 0, size)];
    }

    /**
     fs_open: the first entry with the name is opened at position 0 in the first free slot. Fails if there is
     no such entry, or if all slots are taken, and then keeps the lock. Like all calls it does not return if
     the lock is taken, and then changes nothing.
     */
    method Open(name: seq<Byte>) returns (returned: bool, fd: int)
      requires Valid()
      requires Lookup(superBlock, name, 0) < ENTRIES ==> FileOk(dev.disk, EntryInode(superBlock, Lookup(superBlock, name, 0)))
      modifies this`files, this`locked, dev`pos, dev.blkbuf
      ensures Valid() == true && dev.disk == old(dev.disk) && superBlock == old(superBlock)
      ensures returned <==> !old(locked)
      ensures !returned ==> files == old(files) && locked
      ensures returned ==> (locked <==> fd < 0)
      ensures returned && Lookup(superBlock, name, 0) == ENTRIES ==> fd == -ENOENT && files == old(files)
      ensures returned && Lookup(superBlock, name, 0) < ENTRIES ==>
        var inode := EntryInode(superBlock, Lookup(superBlock, name, 0));
        Opened(old(files), files, inode, FileLen(dev.disk, inode), fd) == true
    {
      fd := -ENOENT;
      returned := Acquire();
      if !returned { return; }
      var e := FindEntry(name);
      if e < ENTRIES { fd := OpenInode(EntryInode(superBlock, e)); }
      if fd >= 0 { Release(); }
    }

    /** The first free entry of the open-file table, or its length. */
    method FindSlot() returns (i: nat)
      requires |files| == SLOTS
      ensures i <= SLOTS && (i < SLOTS ==> files[i] == Free) && forall j :: 0 <= j < i ==> files[j] != Free
    {
      i := 0;
      while i < SLOTS && files[i] != Free
        invariant i <= SLOTS && forall j :: 0 <= j < i ==> files[j] != Free
      {
        i := i + 1;
      }
    }

    /** The IOCTL_SETPOS of a file. */
    method SetPosition(fd: nat, position: nat) returns (returned: bool)
      requires Valid() && fd < SLOTS && files[fd].Used? && position <= files[fd].size
      modifies this`files, this`locked
      ensures Valid() && locked == old(locked) && (returned <==> !locked)
      ensures files == if returned then old(files)[fd := old(files)[fd].(position := position)] else old(files)
    {
      returned := Acquire();
      if !returned { return; }
      files := files[fd := files[fd].(position := position)];
      Release();
    }

    /**
     fs_read: the bytes of the file at its position, up to its end; the position moves on. That the lock is given
     back and taken again several times makes no difference to one thread.
     */
    method Read(fd: nat, n: nat) returns (returned: bool, buf: seq<Byte>)
      requires Valid() && fd < SLOTS && files[fd].Used? && files[fd].position + n < MAX64
      modifies this`files, this`locked, dev`pos, dev.blkbuf
      ensures Valid() && dev.disk == old(dev.disk) && superBlock == old(superBlock)
      ensures locked == old(locked) && (returned <==> !locked)
      ensures !returned ==> files == old(files)
      ensures returned ==>
              var p := old(files[fd].position);
              && |buf| == Min(n, old(files[fd].size) - p)
              && buf == old(Contents(fd))[p..p + |buf|]
              && files == old(files)[fd := old(files)[fd].(position := p + |buf|)]
    {
      buf := [];
      returned := Acquire();
      if !returned { return; }
      var p, inode := files[fd].position, files[fd].inode;
      var blk := ReadInode(inode);
      var k := n;
      if p + k > U32At(blk, 0) { k := U32At(blk, 0) - p; }
      buf := ReadBlocks(inode, blk, p, k);
      files := files[fd := files[fd].(position := p + k)];
      Release();
    }

    /** Open files stay sound when the inodes do not change. */
    lemma StillOpen(img: seq<Byte>)
      requires Mounted() && HasInodes(img) && SameMeta(img, dev.disk)
      requires forall fd :: 0 <= fd < SLOTS && files[fd].Used? ==>
        FileOk(img, files[fd].inode) && files[fd].position <= files[fd].size == FileLen(img, files[fd].inode)
      ensures Valid()
    {
      forall fd | 0 <= fd < SLOTS && files[fd].Used?
        ensures FileOk(dev.disk, files[fd].inode) && FileLen(dev.disk, files[fd].inode) == FileLen(img, files[fd].inode) {
        FileOkKept(img, dev.disk, files[fd].inode);
      }
    }

    /**
     fs_write: replaces the bytes of the file at its position, up to its end, and moves the position on. The
     boot block, the inodes and every file that shares no block with this one are unchanged.
     */
    method Write(fd: nat, data: seq<Byte>) returns (returned: bool, cnt: nat)
      requires Valid() && fd < SLOTS && files[fd].Used? && files[fd].position + |data| < MAX64
      modifies this`files, this`locked, dev`pos, dev`disk, dev.blkbuf
      ensures Valid() && superBlock == old(superBlock)
      ensures locked == old(locked) && (returned <==> !locked)
      ensures !returned ==> files == old(files) && dev.disk == old(dev.disk)
      ensures returned ==> cnt == Min(|data|, old(files[fd].size) - old(files[fd].position))
      ensures returned ==> files == old(files)[fd := old(files)[fd].(position := old(files[fd].position) + cnt)]
      ensures returned ==> Updated(old(dev.disk), old(files[fd].inode), old(files[fd].position), data[..cnt], dev.disk)
    {
      cnt := 0;
      returned := Acquire();
      if !returned { return; }
      var p, inode := files[fd].position, files[fd].inode;
      ghost var img := dev.disk;
      var blk := ReadInode(inode);
      cnt := |data|;
      if p + cnt > U32At(blk, 0) { cnt := U32At(blk, 0) - p; }
      WriteBlocks(inode, blk, p, data[..cnt]);
      StillOpen(img);
      files := files[fd := files[fd].(position := p + cnt)];
      Release();
    }

    /** Reading a file in any portions gives its bytes in order. */
    method ReadInPortions(fd: nat, sizes: seq<nat>) returns (returned: bool, all: seq<Byte>)
      requires Valid() && fd < SLOTS && files[fd].Used?
      requires files[fd].position + Sum(sizes) < MAX64
      modifies this`files, this`locked, dev`pos, dev.blkbuf
      ensures Valid() && dev.disk == old(dev.disk) && locked == old(locked)
      ensures returned <==> sizes == [] || !locked
      ensures !returned ==> files == old(files)
      ensures returned ==>
              var p := old(files[fd].position);
              && |all| == Min(Sum(sizes), old(files[fd].size) - p)
              && all == old(Contents(fd))[p..p + |all|]
    {
      returned, all := true, [];
      ghost var p, size, bytes := files[fd].position, files[fd].size, Contents(fd);
      ghost var inode := files[fd].inode;
      var i := 0;
      SumTake(sizes, 0);
      while i < |sizes| && returned
        invariant Valid() == true && dev.disk == old(dev.disk) && 0 <= i <= |sizes| && locked == old(locked)
        invariant (returned <==> i == 0 || !locked) && (i == 0 || !returned ==> files == old(files))
        invariant files[fd] == Used(inode, p + |all|, size) && Got(bytes, p, all) == true
        invariant returned ==> |all| == Min(Sum(sizes[..i]), size - p)
      {
        SumTake(sizes, i);
        SumBound(sizes, i + 1);
        MinTwice(Sum(sizes[..i]), sizes[i], size - p);
        var part;
        returned, part := Read(fd, sizes[i]);
        if returned {
          assert Got(bytes, p + |all|, part);
          GotMore(bytes, p, all, part);
          all := all + part;
        }
        i := i + 1;
      }
      assert returned ==> sizes[..i] == sizes;
    }

    /** Seeking back after a write and reading returns what was written. */
    method WriteThenRead(fd: nat, data: seq<Byte>) returns (returned: bool, back: seq<Byte>)
      requires Valid() && fd < SLOTS && files[fd].Used? && files[fd].position + |data| < MAX64
      modifies this`files, this`locked, dev`pos, dev`disk, dev.blkbuf
      ensures Valid() && locked == old(locked) && (returned <==> !locked)
      ensures returned ==> back == data[..Min(|data|, old(files[fd].size) - old(files[fd].position))]
    {
      var p := files[fd].position;
      ghost var bytes := Contents(fd);
      back := [];
      var cnt;
      returned, cnt := Write(fd, data);
      if !returned { return; }
      returned := SetPosition(fd, p);
      returned, back := Read(fd, |data|);
      SpliceSlice(bytes, p, data[..cnt], p, p + cnt);
    }
  }

  lemma MinTwice(a: nat, b: nat, c: nat)
    ensures Min(a, c) + Min(b, c - Min(a, c)) == Min(a + b, c)
  {
  }

  function Sum(sizes: seq<nat>): nat {
    if sizes == [] then 0 else Sum(sizes[..|sizes| - 1]) + sizes[|sizes| - 1]
  }

  lemma SumTake(sizes: seq<nat>, i: nat)
    requires i <= |sizes|
    ensures i == 0 ==> Sum(sizes[..i]) == 0
    ensures i < |sizes| ==> Sum(sizes[..i + 1]) == Sum(sizes[..i]) + sizes[i]
  {
    if i < |sizes| { assert sizes[..i + 1][..i] == sizes[..i]; }
  }

  lemma {:induction false} SumBound(sizes: seq<nat>, i: nat)
    requires i <= |sizes|
    ensures Sum(sizes[..i]) <= Sum(sizes)
    decreases |sizes| - i
  {
    if i < |sizes| {
      SumTake(sizes, i);
      SumBound(sizes, i + 1);
    } else {
      assert sizes[..i] == sizes;
    }
  }
}
