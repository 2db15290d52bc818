/**
 The VirtIO block driver: byte-addressed reads and writes over requests for whole 512-byte sectors.
 A write reads the sector first, so that the rest of it is kept. Reads and writes of one thread.
 */
module Vioblk {
  import opened Common
  import opened Bytes

  const SECTOR: nat := 512
  const EBADFMT: int := 6

  /** How many of the next n bytes at `pos` lie in the sector of `pos`. */
  function InSector(pos: nat, n: nat): (count: nat)
    ensures count <= n && (n > 0 ==> count > 0)
    ensures pos + count <= (pos / SECTOR + 1) * SECTOR
  {
    var boundary := (pos / SECTOR + 1) * SECTOR;
    if pos + n > boundary then boundary - pos else n
  }

  class BlockDevice {
    var isOpen: bool
    var pos: nat
    const size: nat
    var disk: seq<Byte>            // the medium behind the device
    const blkbuf: array<Byte>

    /** Positions and counts pass through 32-bit int variables of the code, so the disk is smaller than 2^31. */
    ghost predicate Valid()
      reads this
    {
      && |disk| == size && size % SECTOR == 0 && size + SECTOR < 0x8000_0000
      && blkbuf.Length == SECTOR
    }

    constructor (image: seq<Byte>)
      requires |image| % SECTOR == 0 && |image| + SECTOR < 0x8000_0000
      ensures Valid() && fresh(blkbuf) && disk == image && pos == 0 && !isOpen
    {
      isOpen, pos, size, disk := false, 0, |image|, image;
      blkbuf := new Byte[SECTOR];
    }

    /** vioblk_open */
    method Open()
      requires Valid()
      modifies this`isOpen
      ensures Valid() && isOpen
    {
      isOpen := true;
    }

    /** One VIRTIO_BLK_T_IN request: the device fills the block buffer. */
    method RequestIn(sector: nat)
      requires Valid() && (sector + 1) * SECTOR <= size
      modifies blkbuf
      ensures blkbuf[..] == disk[sector * SECTOR..(sector + 1) * SECTOR]
    {
      forall i | 0 <= i < SECTOR { blkbuf[i] := disk[sector * SECTOR + i]; }
    }

    /** One VIRTIO_BLK_T_OUT request: the device stores the block buffer. */
    method RequestOut(sector: nat)
      requires Valid() && (sector + 1) * SECTOR <= size
      modifies this`disk
      ensures Valid() && disk == Splice(old(disk), sector * SECTOR, blkbuf[..])
    {
      disk := Splice(disk, sector * SECTOR, blkbuf[..]);
    }

    /** vioblk_setpos: any position is taken, also one past the end of the disk. */
    method SetPos(p: nat)
      requires Valid()
      modifies this`pos
      ensures Valid() && pos == p
    {
      pos := p;
    }

    /** The request and the copy in the loop of vioblk_read. */
    method ReadPart(count: nat) returns (part: seq<Byte>)
      requires Valid() && pos + count <= (pos / SECTOR + 1) * SECTOR <= size
      modifies blkbuf
      ensures part == disk[pos..pos + count]
    {
      var sector := pos / SECTOR;
      RequestIn(sector);
      part := blkbuf[pos % SECTOR..pos % SECTOR + count];
      SliceSlice(disk, sector * SECTOR, (sector + 1) * SECTOR, pos % SECTOR, pos % SECTOR + count);
    }

    /** vioblk_read: the bytes at the position, up to the end of the disk. */
    method Read(n: nat) returns (cnt: int, buf: seq<Byte>)
      requires Valid() && pos <= size
      modifies this`pos, blkbuf
      ensures Valid()
      ensures !isOpen ==> cnt == -EBADFMT && pos == old(pos)
      ensures isOpen ==> cnt == Min(n, size - old(pos)) && buf == disk[old(pos)..old(pos) + cnt] && pos == old(pos) + cnt
    {
      buf := [];
      if !isOpen { return -EBADFMT, buf; }
      if n == 0 { return 0, buf; }
      var bufsz := n;
      if pos + bufsz > size { bufsz := size - pos; }
      var oldPos := pos;
      while bufsz > 0
        invariant Valid() && oldPos <= pos <= size && 0 <= bufsz && pos + bufsz == oldPos + Min(n, size - oldPos)
        invariant buf == disk[oldPos..pos]
        decreases bufsz
      {
        var count := InSector(pos, bufsz);
        var part := ReadPart(count);
        SliceJoin(disk, oldPos, pos, pos + count);
        buf := buf + part;
        pos := pos + count;
        bufsz := bufsz - count;
      }
      return pos - oldPos, buf;
    }

    /** The body of the loop of vioblk_write: `part` goes into one sector, the rest of which is kept. */
    method WritePart(sector: nat, part: seq<Byte>)
      requires Valid() && isOpen && pos <= size && sector == pos / SECTOR && part != [] && pos + |part| <= (sector + 1) * SECTOR <= size
      modifies this`pos, this`disk, blkbuf
      ensures Valid() && pos == old(pos) + |part| && disk == Splice(old(disk), old(pos), part)
    {
      var posPre := pos;
      pos := sector * SECTOR;
      var cnt, block := Read(SECTOR);
      pos := posPre;
      var o := pos % SECTOR;
      SpliceWithin(disk, sector * SECTOR, SECTOR, o, part);
      block := Splice(block, o, part);
      forall i | 0 <= i < SECTOR { blkbuf[i] := block[i]; }
      assert blkbuf[..] == block;
      RequestOut(sector);
      pos := pos + |part|;
    }

    /** One turn of that loop: the next bytes of data, of which those before the position are written. */
    method WriteTurn(data: seq<Byte>, oldPos: nat, n: nat, ghost disk0: seq<Byte>)
      requires Valid() && isOpen && oldPos <= pos && 0 < n && pos + n <= size && pos - oldPos + n <= |data|
      requires |disk0| == size && disk == Splice(disk0, oldPos, data[..pos - oldPos])
      modifies this`pos, this`disk, blkbuf
      ensures Valid() && pos == old(pos) + InSector(old(pos), n) && pos - oldPos <= |data|
      ensures disk == Splice(disk0, oldPos, data[..pos - oldPos])
    {
      var count := InSector(pos, n);
      ghost var done := data[..pos - oldPos];
      var part := data[pos - oldPos..pos - oldPos + count];
      SpliceTwice(disk0, oldPos, done, part);
      assert done + part == data[..pos - oldPos + count];
      WritePart(pos / SECTOR, part);
    }

    /** vioblk_write: replaces exactly the bytes at the position, up to the end of the disk. */
    method Write(data: seq<Byte>) returns (cnt: int)
      requires Valid() && pos <= size
      modifies this`pos, this`disk, blkbuf
      ensures Valid()
      ensures !isOpen ==> cnt == -EBADFMT && pos == old(pos) && disk == old(disk)
      ensures isOpen ==>
        cnt == Min(|data|, size - old(pos)) && pos == old(pos) + cnt && disk == Splice(old(disk), old(pos), data[..cnt])
    {
      if !isOpen { return -EBADFMT; }
      SpliceNothing(disk, pos);
      if data == [] { return 0; }
      var n := |data|;
      if pos + n > size { n := size - pos; }
      var oldPos := pos;
      ghost var total := n;
      while n > 0
        invariant Valid() && oldPos <= pos <= size && 0 <= n && pos + n == oldPos + total
        invariant disk == Splice(old(disk), oldPos, data[..pos - oldPos])
        decreases n
      {
        var count := InSector(pos, n);
        WriteTurn(data, oldPos, n, old(disk));
        n := n - count;
      }
      return pos - oldPos;
    }

    /** ioread_full on this device. */
    method ReadFull(n: nat) returns (buf: seq<Byte>)
      requires Valid() && isOpen && (n == 0 || pos <= size)
      modifies this`pos, blkbuf
      ensures Valid()
      ensures n == 0 ==> buf == [] && pos == old(pos)
      ensures n > 0 ==> pos == old(pos) + Min(n, size - old(pos)) && buf == disk[old(pos)..pos]
    {
      buf := [];
      while |buf| < n
        invariant Valid() && old(pos) + |buf| == pos && |buf| <= n
        invariant n > 0 ==> pos <= size && buf == disk[old(pos)..pos]
        decreases n - |buf|
      {
        var cnt, part := Read(n - |buf|);
        if cnt == 0 { return; }
        buf := buf + part;
      }
    }

    /** iowrite on this device: all of the data, or as much as fits before the end of the disk. */
    method WriteFull(data: seq<Byte>) returns (cnt: nat)
      requires Valid() && isOpen && (data == [] || pos <= size)
      modifies this`pos, this`disk, blkbuf
      ensures Valid() && pos == old(pos) + cnt
      ensures data == [] ==> cnt == 0 && disk == old(disk)
      ensures data != [] ==> cnt == Min(|data|, size - old(pos)) && disk == Splice(old(disk), old(pos), data[..cnt])
    {
      cnt := 0;
      if data != [] { SpliceNothing(disk, pos); }
      var more := true;
      while cnt < |data| && more
        invariant Valid() && 0 <= cnt <= |data| && pos == old(pos) + cnt
        invariant data == [] ==> disk == old(disk)
        invariant data != [] ==> pos <= size && disk == Splice(old(disk), old(pos), data[..cnt])
        invariant !more ==> pos == size
        decreases |data| - cnt, more
      {
        ghost var done, before := data[..cnt], disk;
        var c := Write(data[cnt..]);
        SpliceTwice(old(disk), old(pos), done, data[cnt..][..c]);
        assert done + data[cnt..][..c] == data[..cnt + c];
        more := c != 0;
        cnt := cnt + c;
      }
    }
  }
}
