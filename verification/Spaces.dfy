/**
 What memory_init, page faults and memory_space_clone leave: a space that the next fault, clone or reclaim can
 work on.
 */
module Spaces {
  import opened Common
  import opened Sv39
  import opened Walk
  import opened Clone
  import opened Mapping
  import opened MapFit
  import opened Reclaim
  import opened CloneTheorems

  /** In the user half of the space every entry on the way to a leaf is a table or empty. */
  ghost predicate CleanSpace(ts: Tables, root: nat) {
    forall r: Ref :: !r.R0? && r.v2 >= 3 ==> TableOrEmpty(EntryOf(ts, root, r))
  }

  /** What memory_space_clone relies on. */
  ghost predicate Clonable(w: World, parent: nat, main1: nat) {
    ParentOk(w, parent, main1) && CleanSpace(w.m.ts, parent)
  }

  /** A space that is ready for anything: sound, clonable and reclaimable. */
  ghost predicate SpaceInv(w: World, root: nat, main1: nat) {
    Clonable(w, root, main1) && GlobalOk(w.m.ts, root)
  }

  // memory_init

  function KernelLeaf(x: bool, w: bool, page: nat): Pte { Pte(Flags(true, true, w, x, false, true, true, true), page) }

  /** A page of the first megarange: text is RX, read-only data R, everything from dataStart on RW. */
  function KernelPage(textEnd: nat, roStart: nat, roEnd: nat, dataStart: nat, i: nat): Pte {
    if i < textEnd then KernelLeaf(true, false, RAM_PAGE + i)
    else if roStart <= i < roEnd then KernelLeaf(false, false, RAM_PAGE + i)
    else if dataStart <= i then KernelLeaf(false, true, RAM_PAGE + i)
    else NULL_PTE
  }

  function KernelLevel0(textEnd: nat, roStart: nat, roEnd: nat, dataStart: nat): (t: Table)
    ensures |t| == ENTRIES && forall i :: 0 <= i < ENTRIES ==> t[i] == KernelPage(textEnd, roStart, roEnd, dataStart, i)
  {
    seq(ENTRIES, i requires 0 <= i => KernelPage(textEnd, roStart, roEnd, dataStart, i))
  }

  /** A megarange: a table for the first, megapages for the rest of RAM. */
  function KernelMega(main0: nat, megas: nat, i: nat): Pte {
    if i == 0 then GlobalTable(main0) else if i < megas then KernelLeaf(false, true, RAM_PAGE + i * ENTRIES) else NULL_PTE
  }

  function KernelLevel1(main0: nat, megas: nat): (t: Table)
    ensures |t| == ENTRIES && forall i :: 0 <= i < ENTRIES ==> t[i] == KernelMega(main0, megas, i)
  {
    seq(ENTRIES, i requires 0 <= i => KernelMega(main0, megas, i))
  }

  function KernelTables(main2: nat, main1: nat, main0: nat, level1: Table, level0: Table): Tables {
    map[main2 := NewRoot(main1, ZeroTable()), main1 := level1, main0 := level0]
  }

  /** Where the kernel image and RAM end, in pages and megapages of RAM. */
  datatype Layout = Layout(textEnd: nat, roStart: nat, roEnd: nat, dataStart: nat, megas: nat)

  predicate LayoutOk(l: Layout) {
    l.textEnd <= l.roStart <= l.roEnd <= l.dataStart <= ENTRIES && 1 <= l.megas <= ENTRIES
  }

  /** The tables part of memory_init, by its loops. */
  method InitTables(main2: nat, main1: nat, main0: nat, l: Layout) returns (ts: Tables)
    requires LayoutOk(l)
    ensures ts == KernelTables(main2, main1, main0, KernelLevel1(main0, l.megas), KernelLevel0(l.textEnd, l.roStart, l.roEnd, l.dataStart))
  {
    var t2 := ZeroTable();
    var g := 0;
    while g < 2
      invariant 0 <= g <= 2 && |t2| == ENTRIES && forall i :: 0 <= i < ENTRIES ==> t2[i] == if i < g then Giga(i) else NULL_PTE
    {
      t2 := t2[g := Giga(g)];
      g := g + 1;
    }
    t2 := t2[2 := GlobalTable(main1)];
    assert t2 == NewRoot(main1, ZeroTable());
    var t0 := InitLevel0(l);
    var t1 := ZeroTable()[0 := GlobalTable(main0)];
    var k := 1;
    while k < l.megas
      invariant 1 <= k <= l.megas && |t1| == ENTRIES
      invariant forall i :: 0 <= i < ENTRIES ==> t1[i] == KernelLevel1(main0, k)[i]
    {
      t1 := t1[k := KernelLeaf(false, true, RAM_PAGE + k * ENTRIES)];
      k := k + 1;
    }
    assert t1 == KernelLevel1(main0, l.megas);
    ts := map[main2 := t2, main1 := t1, main0 := t0];
  }

  method InitLevel0(l: Layout) returns (t: Table)
    requires LayoutOk(l)
    ensures t == KernelLevel0(l.textEnd, l.roStart, l.roEnd, l.dataStart)
  {
    t := ZeroTable();
    var i := 0;
    while i < l.textEnd
      invariant 0 <= i <= l.textEnd && t == KernelLevel0(i, 0, 0, ENTRIES)
    {
      t := t[i := KernelLeaf(true, false, RAM_PAGE + i)];
      i := i + 1;
    }
    i := l.roStart;
    assert t == KernelLevel0(l.textEnd, i, i, ENTRIES);
    while i < l.roEnd
      invariant l.roStart <= i <= l.roEnd && t == KernelLevel0(l.textEnd, l.roStart, i, ENTRIES)
    {
      t := t[i := KernelLeaf(false, false, RAM_PAGE + i)];
      i := i + 1;
    }
    i := l.dataStart;
    while i < ENTRIES
      invariant l.dataStart <= i <= ENTRIES && |t| == ENTRIES
      invariant forall j :: 0 <= j < ENTRIES ==>
        t[j] == if l.dataStart <= j < i then KernelLeaf(false, true, RAM_PAGE + j) else KernelLevel0(l.textEnd, l.roStart, l.roEnd, ENTRIES)[j]
    {
      t := t[i := KernelLeaf(false, true, RAM_PAGE + i)];
      i := i + 1;
    }
    assert t == KernelLevel0(l.textEnd, l.roStart, l.roEnd, l.dataStart);
  }

  /** The kernel's tables at boot, entry by entry. */
  lemma BootEntries(main2: nat, main1: nat, main0: nat, l: Layout)
    requires LayoutOk(l) && main2 != main1 && main2 != main0 && main1 != main0
    ensures var level1, level0 := KernelLevel1(main0, l.megas), KernelLevel0(l.textEnd, l.roStart, l.roEnd, l.dataStart);
            var ts := KernelTables(main2, main1, main0, level1, level0);
            forall r: Ref :: EntryOf(ts, main2, r) ==
              match r
              case R2(v2) => KernelEntry(main1, v2)
              case R1(v2, v1) => if v2 == 2 && v1 < ENTRIES then level1[v1] else NULL_PTE
              case R0(v2, v1, v0) => if v2 == 2 && v1 == 0 && v0 < ENTRIES then level0[v0] else NULL_PTE
  {
    var ts := KernelTables(main2, main1, main0, KernelLevel1(main0, l.megas), KernelLevel0(l.textEnd, l.roStart, l.roEnd, l.dataStart));
    forall v2: nat ensures EntryOf(ts, main2, R2(v2)) == KernelEntry(main1, v2) {}
    forall v2: nat, v1: nat ensures EntryOf(ts, main2, R1(v2, v1)) == if v2 == 2 && v1 < ENTRIES then KernelLevel1(main0, l.megas)[v1] else NULL_PTE {
      assert EntryOf(ts, main2, R2(v2)) == KernelEntry(main1, v2);
    }
    forall v2: nat, v1: nat, v0: nat ensures EntryOf(ts, main2, R0(v2, v1, v0)) ==
      if v2 == 2 && v1 == 0 && v0 < ENTRIES then KernelLevel0(l.textEnd, l.roStart, l.roEnd, l.dataStart)[v0] else NULL_PTE {
      assert EntryOf(ts, main2, R1(v2, v1)) == if v2 == 2 && v1 < ENTRIES then KernelLevel1(main0, l.megas)[v1] else NULL_PTE;
    }
  }

  /** The main tables and the free pages at boot are pages of RAM, all different. */
  ghost predicate BootPages(main2: nat, main1: nat, main0: nat, free: seq<nat>) {
    Unique([main2, main1, main0] + free) && forall p :: p in [main2, main1, main0] + free ==> InRam(p)
  }

  lemma BootApart(main2: nat, main1: nat, main0: nat, free: seq<nat>)
    requires BootPages(main2, main1, main0, free)
    ensures main2 != main1 && main2 != main0 && main1 != main0 && InRam(main2) && InRam(main1) && InRam(main0) && Unique(free)
    ensures forall i :: 0 <= i < |free| ==> InRam(free[i]) && free[i] != main2 && free[i] != main1 && free[i] != main0
  {
    var all := [main2, main1, main0] + free;
    assert all[0] == main2 && all[1] == main1 && all[2] == main0;
    forall i | 0 <= i < |free| ensures free[i] == all[i + 3] {}
  }

  /** After boot the main space is ready, whatever pages outside its tables are free. */
  lemma BootInv(main2: nat, main1: nat, main0: nat, l: Layout, free: seq<nat>, fr: Contents)
    requires LayoutOk(l) && BootPages(main2, main1, main0, free)
    ensures var ts := KernelTables(main2, main1, main0, KernelLevel1(main0, l.megas),
                                   KernelLevel0(l.textEnd, l.roStart, l.roEnd, l.dataStart));
            SpaceInv(World(Mem(ts, free), fr), main2, main1)
  {
    BootApart(main2, main1, main0, free);
    BootEntries(main2, main1, main0, l);
    var ts := KernelTables(main2, main1, main0, KernelLevel1(main0, l.megas), KernelLevel0(l.textEnd, l.roStart, l.roEnd, l.dataStart));
    forall r | Holds(ts, main2, r)
      ensures (r == R2(2) && EntryOf(ts, main2, r).ppn == main1) || (r == R1(2, 0) && EntryOf(ts, main2, r).ppn == main0) {
      match r
      case R2(v2) => assert EntryOf(ts, main2, r) == KernelEntry(main1, v2);
      case R1(v2, v1) => assert v2 == 2 && v1 < ENTRIES && EntryOf(ts, main2, r) == KernelLevel1(main0, l.megas)[v1];
      case R0(v2, v1, v0) =>
    }
  }

  // Page faults

  lemma UserWalkable(w: World, root: nat, main1: nat, vptr: nat)
    requires SpaceInv(w, root, main1) && FaultInRange(vptr)
    ensures Vpn2(vptr) == 3 && Walkable(w.m.ts, root, 3, Vpn1(vptr))
  {
    PageNumber(vptr);
    assert R2(3).v2 == 3 && R1(3, Vpn1(vptr)).v2 == 3;
  }

  /** A page fault leaves the space ready. */
  lemma FaultKeeps(w: World, root: nat, main1: nat, vptr: nat, n: Mem)
    requires SpaceInv(w, root, main1) && FaultInRange(vptr) && MapFits(w.m, w.fr, root, Vpn2(vptr), Vpn1(vptr), Vpn0(vptr), USER_RW)
    requires MapPage(w.m, w.fr, root, Vpn2(vptr), Vpn1(vptr), Vpn0(vptr), USER_RW) == Next(n)
    ensures SpaceInv(World(n, w.fr), root, main1)
  {
    UserWalkable(w, root, main1, vptr);
    var ref := RefOf(vptr);
    var cs := MapBlanked(w.m, w.fr, root, 3, ref.v1, ref.v0);
    MapOver(w.m, w.fr, root, 3, ref.v1, ref.v0, USER_RW);
    MapPageRefines(w.m, cs, root, 3, ref.v1, ref.v0, USER_RW);
    forall r: Ref | !r.R0? ensures var e, e' := EntryOf(w.m.ts, root, r), EntryOf(n.ts, root, r);
                                   e' == e || (!e.flags.v && r.v2 == 3 && e' == TablePte(e'.ppn)) {
      MapPageUpper(w.m, cs, root, 3, ref.v1, ref.v0, USER_RW, r);
    }
    LeafKeeps(w, root, main1, n, ref);
  }

  lemma LeafKeeps(w: World, root: nat, main1: nat, n: Mem, ref: Ref)
    requires SpaceInv(w, root, main1) && MemOk(n, root) && ref.R0? && ref.v2 == 3
    requires forall r: Ref :: !r.R0? ==> var e, e' := EntryOf(w.m.ts, root, r), EntryOf(n.ts, root, r);
                                         e' == e || (!e.flags.v && r.v2 == 3 && e' == TablePte(e'.ppn))
    requires forall r: Ref :: r.R0? && r != ref ==> EntryOf(n.ts, root, r) == EntryOf(w.m.ts, root, r)
    requires EntryOf(n.ts, root, ref).flags == Or(EntryOf(w.m.ts, root, ref).flags, Marked(USER_RW))
    ensures SpaceInv(World(n, w.fr), root, main1)
  {
    forall r: Ref | !r.R0? && r.v2 >= 3 ensures TableOrEmpty(EntryOf(n.ts, root, r)) { assert TableOrEmpty(EntryOf(w.m.ts, root, r)); }
    forall r: Ref | r.R1? && EntryOf(n.ts, root, R2(r.v2)).flags.g && EntryOf(n.ts, root, r).flags.v ensures EntryOf(n.ts, root, r).flags.g {
      assert EntryOf(w.m.ts, root, R2(r.v2)).flags.g;
    }
    forall r: Ref | r.R0? && EntryOf(n.ts, root, R1(r.v2, r.v1)).flags.g && EntryOf(n.ts, root, r).flags.v ensures EntryOf(n.ts, root, r).flags.g {
      assert EntryOf(w.m.ts, root, R1(r.v2, r.v1)).flags.g;
    }
  }

  // Cloning

  /** A clone is ready for faults and clones of its own. */
  lemma ChildReady(w0: World, parent: nat, main1: nat, w: World)
    requires Cloned(w0, parent, main1, w) && SpaceInv(w0, parent, main1)
    ensures SpaceInv(w, w0.m.free[0], main1)
  {
    ChildGlobalOk(w0, parent, main1, w);
    var child := w0.m.free[0];
    forall r: Ref | r.R0? && r.v2 >= 3 ensures var f := EntryOf(w.m.ts, child, r).flags; !f.g && (f.v ==> f.a && f.d) {
      if j :| 0 <= j < USER_PAGES && r == UserRef(j) {
        assert CopyOf(EntryOf(w0.m.ts, parent, UserRef(j)), EntryOf(w.m.ts, child, UserRef(j)), w0.fr, w.fr);
      }
    }
  }
}
