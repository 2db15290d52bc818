/**
 What a client of the file system sees: files that are byte sequences of their own, by name, and a table of open
 files with positions. Any sequence of calls of one thread to open, seek, read and write is shown to give the replies
 of this model, on any image whose files share no block, and so on every image that mkfs builds and the file system
 reads back. As an open that fails keeps the lock, it is also shown which sequences are answered to the end.
 */
module KfsSession {
  import opened Common
  import opened Bytes
  import opened KfsImage
  import opened MkfsImage
  import opened MkfsTheorems
  import opened Vioblk
  import opened Kfs

  /** A name that is found and the file that it stands for. */
  datatype DirEntry = DirEntry(name: seq<Byte>, inode: nat)

  datatype Model = Model(dir: seq<DirEntry>, data: seq<seq<Byte>>, files: seq<Slot>, locked: bool)

  datatype Op = OpOpen(name: seq<Byte>) | OpSeek(fd: nat, position: nat) | OpRead(fd: nat, n: nat) | OpWrite(fd: nat, bytes: seq<Byte>)

  datatype Reply = Handle(fd: int) | Sought | Bytes(bytes: seq<Byte>) | Count(cnt: nat)

  // The model

  /** The first place at or after `from` where x is, or the length. */
  function Index<T(==)>(s: seq<T>, x: T, from: nat): (i: nat)
    requires from <= |s|
    ensures from <= i <= |s| && (i < |s| ==> s[i] == x) && forall j :: from <= j < i ==> s[j] != x
    decreases |s| - from
  {
    if from == |s| || s[from] == x then from else Index(s, x, from + 1)
  }

  /** The first entry at or after `from` with the name, or the length. */
  function Find(dir: seq<DirEntry>, name: seq<Byte>, from: nat): (i: nat)
    requires from <= |dir|
    ensures from <= i <= |dir| && (i < |dir| ==> dir[i].name == name) && forall j :: from <= j < i ==> dir[j].name != name
    decreases |dir| - from
  {
    if from == |dir| || dir[from].name == name then from else Find(dir, name, from + 1)
  }

  /** The name is found. */
  predicate Known(m: Model, name: seq<Byte>) { Find(m.dir, name, 0) < |m.dir| }

  predicate IsOpen(m: Model, fd: nat) { fd < |m.files| && m.files[fd].Used? && m.files[fd].inode < |m.data| }

  /** Names stand for files, positions stay within the file, and position plus length does not wrap. */
  predicate Legal(m: Model, op: Op) {
    match op
    case OpOpen(name) => Known(m, name) ==> m.dir[Find(m.dir, name, 0)].inode < |m.data|
    case OpSeek(fd, position) => IsOpen(m, fd) && position <= |m.data[m.files[fd].inode]|
    case OpRead(fd, n) => IsOpen(m, fd) && m.files[fd].position + n < MAX64
    case OpWrite(fd, bytes) => IsOpen(m, fd) && m.files[fd].position + |bytes| < MAX64
  }

  /** How many of n bytes from the position on are in the file. */
  function Rest(m: Model, fd: nat, n: nat): nat
    requires IsOpen(m, fd)
  {
    var len, p := |m.data[m.files[fd].inode]|, m.files[fd].position;
    if p <= len then Min(n, len - p) else 0
  }

  function Moved(m: Model, fd: nat, position: nat): seq<Slot>
    requires IsOpen(m, fd)
  {
    m.files[fd := m.files[fd].(position := position)]
  }

  /** The state after a call that returns. */
  function After(m: Model, op: Op): Model
    requires Legal(m, op)
  {
    match op
    case OpOpen(name) =>
      if !Known(m, name) || Index(m.files, Free, 0) == |m.files| then m.(locked := true)
      else
        var i := m.dir[Find(m.dir, name, 0)].inode;
        m.(files := m.files[Index(m.files, Free, 0) := Used(i, 0, |m.data[i]|)])
    case OpSeek(fd, position) => m.(files := Moved(m, fd, position))
    case OpRead(fd, n) => m.(files := Moved(m, fd, m.files[fd].position + Rest(m, fd, n)))
    case OpWrite(fd, bytes) =>
      var f, k := m.files[fd], Rest(m, fd, |bytes|);
      if f.position + k > |m.data[f.inode]| then m
      else m.(data := m.data[f.inode := Splice(m.data[f.inode], f.position, bytes[..k])], files := Moved(m, fd, f.position + k))
  }

  function ReplyTo(m: Model, op: Op): Reply
    requires Legal(m, op)
  {
    match op
    case OpOpen(name) =>
      if !Known(m, name) then Handle(-ENOENT)
      else if Index(m.files, Free, 0) == |m.files| then Handle(-EFILESYS)
      else Handle(Index(m.files, Free, 0))
    case OpSeek(_, _) => Sought
    case OpRead(fd, n) =>
      var f, k := m.files[fd], Rest(m, fd, n);
      if f.position + k <= |m.data[f.inode]| then Bytes(m.data[f.inode][f.position..f.position + k]) else Bytes([])
    case OpWrite(fd, bytes) => Count(Rest(m, fd, |bytes|))
  }

  /** The calls are legal up to the first that does not return. */
  ghost predicate AllLegal(m: Model, ops: seq<Op>)
    decreases |ops|
  {
    ops != [] ==> Legal(m, ops[0]) && (!m.locked ==> AllLegal(After(m, ops[0]), ops[1..]))
  }

  /** A call does not return if the lock is taken. */
  function AfterAll(m: Model, ops: seq<Op>): Model
    requires AllLegal(m, ops)
    decreases |ops|
  {
    if ops == [] || m.locked then m else AfterAll(After(m, ops[0]), ops[1..])
  }

  /** The replies of the calls that return. */
  function Replies(m: Model, ops: seq<Op>): seq<Reply>
    requires AllLegal(m, ops)
    decreases |ops|
  {
    if ops == [] || m.locked then [] else [ReplyTo(m, ops[0])] + Replies(After(m, ops[0]), ops[1..])
  }

  // Which calls are answered

  function Opens(ops: seq<Op>): nat {
    if ops == [] then 0 else (if ops[0].OpOpen? then 1 else 0) + Opens(ops[1..])
  }

  function FreeSlots(files: seq<Slot>): nat {
    if files == [] then 0 else (if files[0] == Free then 1 else 0) + FreeSlots(files[1..])
  }

  /** Every name that these calls open is found, and there are slots for all of them. */
  predicate OpensGoWell(m: Model, ops: seq<Op>) {
    (forall op :: op in ops && op.OpOpen? ==> Known(m, op.name)) && Opens(ops) <= FreeSlots(m.files)
  }

  lemma {:induction false} FreeSlotsSet(files: seq<Slot>, i: nat, s: Slot)
    requires i < |files|
    ensures FreeSlots(files[i := s]) + (if files[i] == Free then 1 else 0) == FreeSlots(files) + if s == Free then 1 else 0
  {
    if i == 0 {
      assert files[i := s][1..] == files[1..];
    } else {
      assert files[i := s][1..] == files[1..][i - 1 := s];
      FreeSlotsSet(files[1..], i - 1, s);
    }
  }

  lemma {:induction false} FreeSlotsNone(files: seq<Slot>)
    ensures FreeSlots(files) == 0 <==> Free !in files
  {
    if files != [] { FreeSlotsNone(files[1..]); }
  }

  /** What a call leaves: an open that fails takes the lock, one that goes well takes a slot, all else takes neither. */
  lemma AfterTakes(m: Model, op: Op)
    requires Legal(m, op) && !m.locked
    ensures After(m, op).dir == m.dir
    ensures After(m, op).locked <==> op.OpOpen? && !(Known(m, op.name) && FreeSlots(m.files) > 0)
    ensures !After(m, op).locked ==> FreeSlots(After(m, op).files) + (if op.OpOpen? then 1 else 0) == FreeSlots(m.files)
  {
    FreeSlotsNone(m.files);
    match op
    case OpOpen(name) =>
      var slot := Index(m.files, Free, 0);
      if Known(m, name) && slot < |m.files| {
        var i := m.dir[Find(m.dir, name, 0)].inode;
        FreeSlotsSet(m.files, slot, Used(i, 0, |m.data[i]|));
      }
    case OpSeek(fd, position) => FreeSlotsSet(m.files, fd, m.files[fd].(position := position));
    case OpRead(fd, n) => FreeSlotsSet(m.files, fd, m.files[fd].(position := m.files[fd].position + Rest(m, fd, n)));
    case OpWrite(fd, bytes) => FreeSlotsSet(m.files, fd, m.files[fd].(position := m.files[fd].position + Rest(m, fd, |bytes|)));
  }

  lemma GoWellNext(m: Model, op: Op, ops: seq<Op>)
    requires Legal(m, op) && !m.locked && !After(m, op).locked
    ensures OpensGoWell(m, [op] + ops) <==> OpensGoWell(After(m, op), ops)
  {
    AfterTakes(m, op);
    assert ([op] + ops)[1..] == ops;
  }

  /**
   The calls are all answered exactly if the opens before the last call name files that are found, and there are
   slots for them. No call gives a slot back.
   */
  lemma {:induction false} AnsweredExactly(m: Model, ops: seq<Op>)
    requires AllLegal(m, ops) && ops != []
    ensures |Replies(m, ops)| == |ops| <==> !m.locked && OpensGoWell(m, ops[..|ops| - 1])
    decreases |ops|
  {
    if !m.locked {
      var op, rest, m' := ops[0], ops[1..], After(m, ops[0]);
      AfterTakes(m, op);
      if rest == [] {
        assert ops[..|ops| - 1] == [];
      } else {
        AnsweredExactly(m', rest);
        assert ops[..|ops| - 1] == [op] + rest[..|rest| - 1];
        if !m'.locked {
          GoWellNext(m, op, rest[..|rest| - 1]);
        } else {
          OpenFailed(m, op, rest[..|rest| - 1]);
        }
      }
    }
  }

  lemma OpenFailed(m: Model, op: Op, ops: seq<Op>)
    requires Legal(m, op) && !m.locked && After(m, op).locked
    ensures !OpensGoWell(m, [op] + ops)
  {
    AfterTakes(m, op);
    assert op in [op] + ops && ([op] + ops)[1..] == ops;
  }

  /** After an open of a name that is not found no call returns, whatever it is. */
  lemma MissingSticks(m: Model, missing: seq<Byte>, op: Op)
    requires !m.locked && !Known(m, missing) && Legal(m.(locked := true), op)
    ensures AllLegal(m, [OpOpen(missing), op]) && Replies(m, [OpOpen(missing), op]) == [Handle(-ENOENT)]
  {
    var ops := [OpOpen(missing), op];
    assert ops[1..] == [op];
  }

  // Images

  /** The files of the image are sound, hold these bytes and share no block. */
  ghost predicate HoldsData(img: seq<Byte>, data: seq<seq<Byte>>) {
    && HasInodes(img) && NumInodes(img) == |data|
    && (forall i :: 0 <= i < |data| ==> FileOk(img, i) && FileBytes(img, i) == data[i])
    && (forall i, j :: 0 <= i < |data| && 0 <= j < |data| && i != j ==> Separate(img, i, j))
  }

  /** The directory finds these names and no others. */
  ghost predicate HoldsNames(boot: seq<Byte>, dir: seq<DirEntry>) {
    |boot| == BLK && forall name :: HoldsName(boot, dir, name)
  }

  predicate HoldsName(boot: seq<Byte>, dir: seq<DirEntry>, name: seq<Byte>)
    requires |boot| == BLK
  {
    var i, e := Find(dir, name, 0), Lookup(boot, name, 0);
    if i == |dir| then e == ENTRIES else e < ENTRIES && EntryInode(boot, e) == dir[i].inode
  }

  function DataOf(files: seq<File>): seq<seq<Byte>> { seq(|files|, i requires 0 <= i < |files| => files[i].data) }

  /** The names that are found in a built image: those of its files, and the empty one if there is an unused entry. */
  function DirOf(files: seq<File>): seq<DirEntry> {
    seq(|files|, i requires 0 <= i < |files| => DirEntry(files[i].name, i)) + if |files| < ENTRIES then [DirEntry([], 0)] else []
  }

  /** A built image, mounted afresh. */
  function Mount(files: seq<File>): Model { Model(DirOf(files), DataOf(files), seq(SLOTS, i => Free), false) }

  /** An image that mkfs builds holds its files, if no file before another fills its last block. */
  lemma BuiltHolds(files: seq<File>, junk: Junk)
    requires Fits(files) && NamesOk(files) && forall i :: 0 <= i < |files| ==> files[i].data == [] || NoFullBefore(files, i)
    ensures HoldsData(Build(files, junk), DataOf(files)) && HoldsNames(Build(files, junk)[..BLK], DirOf(files))
  {
    var img := Build(files, junk);
    ImageInodes(files, junk);
    BuildLayout(files, junk);
    forall i | 0 <= i < |files| ensures FileOk(img, i) && FileBytes(img, i) == files[i].data { RoundTrip(files, junk, i); }
    forall i, j | 0 <= i < |files| && 0 <= j < |files| && i != j ensures Separate(img, i, j) {
      if i < j { FilesSeparate(files, img, i, j); } else { FilesSeparate(files, img, j, i); }
    }
    forall name ensures HoldsName(img[..BLK], DirOf(files), name) { BuiltName(files, junk, name); }
  }

  lemma BuiltName(files: seq<File>, junk: Junk, name: seq<Byte>)
    requires Fits(files) && NamesOk(files)
    ensures |Build(files, junk)| >= BLK && HoldsName(Build(files, junk)[..BLK], DirOf(files), name)
  {
    var i := Find(DirOf(files), name, 0);
    if i < |files| {
      LookupFinds(files, junk, i);
    } else {
      forall f | f in files ensures f.name != name {
        var j :| 0 <= j < |files| && files[j] == f;
        assert DirOf(files)[j].name == f.name;
      }
      if name == [] {
        LookupEmpty(files, junk);
        assert |files| < ENTRIES ==> DirOf(files)[|files|] == DirEntry([], 0);
      } else {
        LookupFails(files, junk, name);
      }
    }
  }

  /** On a built image: after an open of a name that no file has, not even a file that is there can be opened. */
  lemma MissingFileSticks(files: seq<File>, missing: seq<Byte>, i: nat)
    requires Fits(files) && NamesOk(files) && i < |files| && missing != [] && forall f :: f in files ==> f.name != missing
    ensures AllLegal(Mount(files), [OpOpen(files[i].name)]) && Replies(Mount(files), [OpOpen(files[i].name)]) == [Handle(0)]
    ensures AllLegal(Mount(files), [OpOpen(missing), OpOpen(files[i].name)])
    ensures Replies(Mount(files), [OpOpen(missing), OpOpen(files[i].name)]) == [Handle(-ENOENT)]
  {
    var m, name := Mount(files), files[i].name;
    forall j | 0 <= j < |files| ensures m.dir[j] == DirEntry(files[j].name, j) && files[j] in files {}
    assert Find(m.dir, name, 0) <= i;
    assert [OpOpen(name)][1..] == [];
    MissingSticks(m, missing, OpOpen(name));
  }

  /** The empty name opens the first file of a built image, if a directory entry is unused. */
  lemma OpenEmptyName(files: seq<File>)
    requires Fits(files) && NamesOk(files) && files != []
    ensures Legal(Mount(files), OpOpen([]))
    ensures if |files| < ENTRIES then
              && ReplyTo(Mount(files), OpOpen([])) == Handle(0)
              && After(Mount(files), OpOpen([])).files[0] == Used(0, 0, |files[0].data|)
            else ReplyTo(Mount(files), OpOpen([])) == Handle(-ENOENT)
  {
    var dir := DirOf(files);
    forall j | 0 <= j < |files| ensures dir[j].name != [] { assert files[j] in files; }
    assert |files| < ENTRIES ==> dir[|files|] == DirEntry([], 0);
  }

  /** A write to one file changes the data of that file only. */
  lemma WriteHolds(img: seq<Byte>, data: seq<seq<Byte>>, ino: nat, p: nat, d: seq<Byte>, img': seq<Byte>)
    requires HoldsData(img, data) && ino < |data| && p + |d| <= |data[ino]| && Updated(img, ino, p, d, img')
    ensures HoldsData(img', data[ino := Splice(data[ino], p, d)])
  {
    forall i | 0 <= i < |data| && i != ino ensures FileOk(img', i) && FileBytes(img', i) == data[i] {
      assert Separate(img, ino, i);
    }
    forall i, j | 0 <= i < |data| && 0 <= j < |data| && i != j ensures Separate(img', i, j) { SeparateKept(img, img', i, j); }
  }

  // The file system

  /** The mounted file system is in the state of the model. */
  ghost predicate Shows(fs: FileSystem, m: Model)
    reads fs, fs.dev
  {
    && fs.Valid() && fs.files == m.files && fs.locked == m.locked
    && HoldsData(fs.dev.disk, m.data) && HoldsNames(fs.superBlock, m.dir)
  }

  method DoOpen(fs: FileSystem, name: seq<Byte>, ghost m: Model) returns (returned: bool, reply: Reply)
    requires Shows(fs, m) && Legal(m, OpOpen(name))
    modifies fs`files, fs`locked, fs.dev`pos, fs.dev.blkbuf
    ensures returned <==> !m.locked
    ensures returned ==> Shows(fs, After(m, OpOpen(name))) && reply == ReplyTo(m, OpOpen(name))
    ensures !returned ==> Shows(fs, m)
  {
    assert HoldsName(fs.superBlock, m.dir, name);
    var fd;
    returned, fd := fs.Open(name);
    reply := Handle(fd);
    if returned && Known(m, name) {
      ghost var i := m.dir[Find(m.dir, name, 0)].inode;
      FirstFree(m.files, i, |m.data[i]|, fd, fs.files);
    }
  }

  /** The first free slot is the one that open takes. */
  lemma FirstFree(before: seq<Slot>, inode: nat, size: nat, fd: int, after: seq<Slot>)
    requires Opened(before, after, inode, size, fd)
    ensures var slot := Index(before, Free, 0);
            if slot == |before| then fd == -EFILESYS && after == before else fd == slot && after == before[slot := Used(inode, 0, size)]
  {
  }

  method DoSeek(fs: FileSystem, fd: nat, position: nat, ghost m: Model) returns (returned: bool)
    requires Shows(fs, m) && Legal(m, OpSeek(fd, position))
    modifies fs`files, fs`locked
    ensures (returned <==> !m.locked) && Shows(fs, if returned then After(m, OpSeek(fd, position)) else m)
  {
    returned := fs.SetPosition(fd, position);
  }

  method DoRead(fs: FileSystem, fd: nat, n: nat, ghost m: Model) returns (returned: bool, reply: Reply)
    requires Shows(fs, m) && Legal(m, OpRead(fd, n))
    modifies fs`files, fs`locked, fs.dev`pos, fs.dev.blkbuf
    ensures returned <==> !m.locked
    ensures returned ==> Shows(fs, After(m, OpRead(fd, n))) && reply == ReplyTo(m, OpRead(fd, n))
    ensures !returned ==> Shows(fs, m)
  {
    var buf;
    returned, buf := fs.Read(fd, n);
    reply := Bytes(buf);
  }

  method DoWrite(fs: FileSystem, fd: nat, bytes: seq<Byte>, ghost m: Model) returns (returned: bool, reply: Reply)
    requires Shows(fs, m) && Legal(m, OpWrite(fd, bytes))
    modifies fs`files, fs`locked, fs.dev`pos, fs.dev`disk, fs.dev.blkbuf
    ensures returned <==> !m.locked
    ensures returned ==> Shows(fs, After(m, OpWrite(fd, bytes))) && reply == ReplyTo(m, OpWrite(fd, bytes))
    ensures !returned ==> Shows(fs, m)
  {
    ghost var img := fs.dev.disk;
    WriteFits(fs, fd, |bytes|, m);
    var cnt;
    returned, cnt := fs.Write(fd, bytes);
    reply := Count(cnt);
    if returned { ShowsWritten(fs, fd, bytes, m, cnt, img); }
  }

  lemma ShowsWritten(fs: FileSystem, fd: nat, bytes: seq<Byte>, m: Model, cnt: nat, img: seq<Byte>)
    requires Legal(m, OpWrite(fd, bytes)) && cnt == Rest(m, fd, |bytes|) <= |bytes| && m.files[fd].position + cnt <= |m.data[m.files[fd].inode]|
    requires fs.Valid() && fs.files == Moved(m, fd, m.files[fd].position + cnt) && HoldsNames(fs.superBlock, m.dir) && fs.locked == m.locked
    requires HoldsData(img, m.data) && Updated(img, m.files[fd].inode, m.files[fd].position, bytes[..cnt], fs.dev.disk)
    ensures Shows(fs, After(m, OpWrite(fd, bytes)))
  {
    WriteHolds(img, m.data, m.files[fd].inode, m.files[fd].position, bytes[..cnt], fs.dev.disk);
  }

  /** What the open-file table says of a file, in terms of the model. */
  lemma WriteFits(fs: FileSystem, fd: nat, n: nat, m: Model)
    requires Shows(fs, m) && IsOpen(m, fd)
    ensures var f := m.files[fd];
            f.position <= f.size == |m.data[f.inode]| && Rest(m, fd, n) == Min(n, f.size - f.position) && fd < SLOTS
  {
  }

  /** One call. It returns exactly if the lock is not taken; if not, nothing changes. */
  method Do(fs: FileSystem, op: Op, ghost m: Model) returns (returned: bool, reply: Reply)
    requires Shows(fs, m) && Legal(m, op)
    modifies fs`files, fs`locked, fs.dev`pos, fs.dev`disk, fs.dev.blkbuf
    ensures returned <==> !m.locked
    ensures returned ==> Shows(fs, After(m, op)) == true && reply == ReplyTo(m, op)
    ensures !returned ==> Shows(fs, m) == true
  {
    match op
    case OpOpen(name) => returned, reply := DoOpen(fs, name, m);
    case OpSeek(fd, position) =>
      returned := DoSeek(fs, fd, position, m);
      reply := Sought;
    case OpRead(fd, n) => returned, reply := DoRead(fs, fd, n, m);
    case OpWrite(fd, bytes) => returned, reply := DoWrite(fs, fd, bytes, m);
  }

  /**
   Any sequence of calls of one thread: the calls that return, up to the first that does not, give the replies of the
   model, and the state that is left is its state. All return exactly if the opens before the last call go well.
   */
  method Play(fs: FileSystem, ops: seq<Op>, ghost m: Model) returns (replies: seq<Reply>)
    requires Shows(fs, m) == true && AllLegal(m, ops)
    modifies fs`files, fs`locked, fs.dev`pos, fs.dev`disk, fs.dev.blkbuf
    ensures replies == Replies(m, ops) && Shows(fs, AfterAll(m, ops)) == true
    ensures ops != [] ==> (|replies| == |ops| <==> !m.locked && OpensGoWell(m, ops[..|ops| - 1]))
    decreases |ops|
  {
    if ops == [] { return []; }
    AnsweredExactly(m, ops);
    var returned, reply := Do(fs, ops[0], m);
    if !returned { return []; }
    replies := Play(fs, ops[1..], After(m, ops[0]));
    replies := [reply] + replies;
  }

  /** On a built image, mounted afresh. */
  method PlayOnBuilt(files: seq<File>, junk: Junk, ops: seq<Op>) returns (replies: seq<Reply>)
    requires Fits(files) && NamesOk(files) && forall i :: 0 <= i < |files| ==> files[i].data == [] || NoFullBefore(files, i)
    requires AllLegal(Mount(files), ops)
    ensures replies == Replies(Mount(files), ops)
    ensures ops != [] ==> (|replies| == |ops| <==> OpensGoWell(Mount(files), ops[..|ops| - 1]))
  {
    BuiltHolds(files, junk);
    ImageInodes(files, junk);
    var dev := new BlockDevice(Build(files, junk));
    dev.Open();
    var fs := new FileSystem(dev);
    replies := Play(fs, ops, Mount(files));
  }
}
