/**
 memory_alloc_and_map_page, memory_set_page_flags and the walk that only reads, as functions on tables and free
 pages, and what they do to the flat map of a space.
 */
module Mapping {
  import opened Common
  import opened Sv39
  import opened Walk
  import opened Clone

  // The walk without create

  /** An entry as it is in memory; pages that are no tables read as zero. */
  function RawAt(ts: Tables, p: nat, i: nat): Pte {
    if p in ts && i < |ts[p]| then ts[p][i] else NULL_PTE
  }

  /** walk_pt with create 0: it follows page numbers without looking at flags; clone drops what is not in RAM. */
  function RawEntry(ts: Tables, root: nat, v2: nat, v1: nat, v0: nat): Pte {
    var p0 := RawAt(ts, RawAt(ts, root, v2).ppn, v1).ppn;
    if Checked(p0) then RawAt(ts, p0, v0) else NULL_PTE
  }

  /** If entries on the way are tables or blank, following page numbers gives the entry of the flat map. */
  lemma WalkReads(ts: Tables, root: nat, v2: nat, v1: nat, v0: nat)
    requires TidyTables(ts) && TableOrEmpty(EntryOf(ts, root, R2(v2))) && TableOrEmpty(EntryOf(ts, root, R1(v2, v1)))
    ensures Seen(RawEntry(ts, root, v2, v1, v0)) == EntryOf(ts, root, R0(v2, v1, v0))
  {
    RawTidy(ts, root, v2);
    var p1 := RawAt(ts, root, v2).ppn;
    RawTidy(ts, p1, v1);
  }

  lemma RawTidy(ts: Tables, p: nat, i: nat)
    requires TidyTables(ts)
    ensures RawAt(ts, p, i).flags.v || (!Checked(RawAt(ts, p, i).ppn) && RawAt(ts, p, i).ppn !in ts)
    ensures At(ts, p, i) == Seen(RawAt(ts, p, i))
  {
    if p in ts && i < |ts[p]| { assert Tidy(ts[p]); }
  }

  // The walk with create

  /** What the walk accesses: tables, and free pages that are no tables. */
  ghost predicate PathOk(m: Mem, root: nat, v2: nat, v1: nat) {
    && v2 < ENTRIES && v1 < ENTRIES && IsPage(m.ts, root)
    && (At(m.ts, root, v2).flags.v ==>
          && IsPage(m.ts, At(m.ts, root, v2).ppn)
          && var e := At(m.ts, At(m.ts, root, v2).ppn, v1); e.flags.v ==> IsPage(m.ts, e.ppn))
    && FreeApart(m)
  }

  ghost predicate FreeApart(m: Mem) {
    Unique(m.free) && forall i :: 0 <= i < |m.free| ==> m.free[i] !in m.ts
  }

  /** If the walk adds a level-1 table, the entry for the next table is not valid there. */
  predicate WalkGoesOn(m: Mem, cs: Contents, root: nat, v2: nat, v1: nat)
    requires v1 < ENTRIES
  {
    !At(m.ts, root, v2).flags.v && m.free != [] ==> !PageView(cs, m.free[0])[v1].flags.v
  }

  predicate IsPage(ts: Tables, p: nat) { p in ts && |ts[p]| == ENTRIES }

  lemma PathOfSpace(m: Mem, root: nat, v2: nat, v1: nat)
    requires MemOk(m, root) && Walkable(m.ts, root, v2, v1)
    ensures PathOk(m, root, v2, v1)
  {
    if At(m.ts, root, v2).flags.v {
      assert Holds(m.ts, root, R2(v2));
      if EntryOf(m.ts, root, R1(v2, v1)).flags.v { assert Holds(m.ts, root, R1(v2, v1)); }
    }
  }

  // Mapping a new page

  /** A | D | V are always set. */
  function Marked(f: Flags): Flags { f.(a := true, d := true, v := true) }

  function Or(f: Flags, g: Flags): Flags {
    Flags(f.v || g.v, f.r || g.r, f.w || g.w, f.x || g.x, f.u || g.u, f.g || g.g, f.a || g.a, f.d || g.d)
  }

  /** The entry for a new page: flags are added to what the entry had. */
  function MappedPte(before: Pte, f: Flags, page: nat): Pte { Pte(Or(before.flags, Marked(f)), page) }

  /** A walk gives no entry a page that was not in the free list. */
  lemma WalkNotHeld(m: Mem, cs: Contents, root: nat, v2: nat, v1: nat, page: nat)
    requires MemOk(m, root) && Walkable(m.ts, root, v2, v1) && WalkClean(m, cs, root, v2, v1) && WalkCreate(m, cs, root, v2, v1).Next?
    requires NotHeld(m.ts, root, page) && page !in m.free
    ensures NotHeld(WalkCreate(m, cs, root, v2, v1).value.ts, root, page) && page !in WalkCreate(m, cs, root, v2, v1).value.free
  {
    CleanNoneValid(m, cs, root, v2, v1);
    WalkSteps(m, cs, root, v2, v1);
    var g, n := Grow(m, cs, root, v2).value, WalkCreate(m, cs, root, v2, v1).value;
    GrewNotHeld(m, g, root, R2(v2), page);
    GrewNotHeld(g, n, root, R1(v2, v1), page);
  }

  lemma GrewNotHeld(m: Mem, n: Mem, root: nat, ref: Ref, page: nat)
    requires Grew(m, n, root, ref) && NotHeld(m.ts, root, page) && page !in m.free
    ensures NotHeld(n.ts, root, page) && page !in n.free
  {
    if n != m {
      assert m.free[0] in m.free;
      forall r | Holds(n.ts, root, r) ensures EntryOf(n.ts, root, r).ppn != page {
        if r != ref { assert Holds(m.ts, root, r); }
      }
    }
  }

  /** Where the walk was possible it stays so: a step only puts tables where nothing was. */
  lemma WalkableStays(m: Mem, cs: Contents, root: nat, v2: nat, v1: nat, a2: nat, a1: nat)
    requires MemOk(m, root) && Walkable(m.ts, root, v2, v1) && WalkClean(m, cs, root, v2, v1) && WalkCreate(m, cs, root, v2, v1).Next? && Walkable(m.ts, root, a2, a1)
    ensures Walkable(WalkCreate(m, cs, root, v2, v1).value.ts, root, a2, a1)
  {
    CleanNoneValid(m, cs, root, v2, v1);
    WalkSteps(m, cs, root, v2, v1);
  }

  /** A leaf set to a page that nothing holds and that is not free. */
  lemma SetLeafKeeps(m: Mem, root: nat, v2: nat, v1: nat, v0: nat, e: Pte)
    requires MemOk(m, root) && v0 < ENTRIES && IsPointer(EntryOf(m.ts, root, R1(v2, v1))) && e.flags.v
    requires !e.flags.g ==> NotHeldBut(m.ts, root, R0(v2, v1, v0), e.ppn) && e.ppn !in m.free
    ensures IsPage(m.ts, EntryOf(m.ts, root, R1(v2, v1)).ppn)
    ensures var ts' := SetEntry(m.ts, EntryOf(m.ts, root, R1(v2, v1)).ppn, v0, e);
            MemOk(Mem(ts', m.free), root) && OnlyChanges(m.ts, ts', root, R0(v2, v1, v0), e)
  {
    assert Holds(m.ts, root, R1(v2, v1));
    var ref, p0 := R0(v2, v1, v0), EntryOf(m.ts, root, R1(v2, v1)).ppn;
    var ts' := SetEntry(m.ts, p0, v0, e);
    SetLeafEntries(m.ts, root, v2, v1, v0, e);
    forall r ensures Holds(ts', root, r) == if r == ref then Keeps(ref, e) else Holds(m.ts, root, r) {}
    TidySet(m.ts[p0], v0, e);
    forall k | 0 <= k < |m.free| ensures m.free[k] !in ts' && NotHeld(ts', root, m.free[k]) {
      assert m.free[k] !in m.ts && NotHeld(m.ts, root, m.free[k]);
      assert m.free[k] in m.free;
    }
  }

  /** `page` is held by no entry but perhaps the one at ref, and is not the root. */
  ghost predicate NotHeldBut(ts: Tables, root: nat, ref: Ref, page: nat) {
    page != root && forall r :: r != ref && Holds(ts, root, r) ==> EntryOf(ts, root, r).ppn != page
  }

  /** memory_alloc_and_map_page for the address with these indices. */
  function MapPage(m: Mem, cs: Contents, root: nat, v2: nat, v1: nat, v0: nat, f: Flags): Outcome<Mem>
    requires root in m.ts && v2 < |m.ts[root]|
  {
    if m.free == [] then Panic
    else
      match WalkCreate(Mem(m.ts, m.free[1..]), cs, root, v2, v1)
      case Next(n) =>
        var p0 := EntryOf(n.ts, root, R1(v2, v1)).ppn;
        if p0 !in n.ts || v0 >= |n.ts[p0]| then Wild
        else Next(Mem(SetEntry(n.ts, p0, v0, MappedPte(n.ts[p0][v0], f, m.free[0])), n.free))
      case other => other
  }

  /** The pages that mapping takes for tables, after the one for the frame, can become so. */
  predicate MapClean(m: Mem, cs: Contents, root: nat, v2: nat, v1: nat) {
    m.free != [] ==> WalkClean(Mem(m.ts, m.free[1..]), cs, root, v2, v1)
  }

  lemma WithoutFirst(m: Mem, root: nat)
    requires MemOk(m, root) && m.free != []
    ensures MemOk(Mem(m.ts, m.free[1..]), root) && m.free[0] !in m.free[1..] && NotHeld(m.ts, root, m.free[0])
  {
    FreeTail(m, root);
    forall k | 0 <= k < |m.free[1..]| ensures m.free[1..][k] !in m.ts && NotHeld(m.ts, root, m.free[1..][k]) && InRam(m.free[1..][k]) {
      assert m.free[1..][k] == m.free[k + 1];
    }
    assert m.free[0] !in m.ts;
  }

  /** The flags of a leaf in memory are those of the flat map. */
  lemma LeafRaw(m: Mem, root: nat, v2: nat, v1: nat, v0: nat)
    requires MemOk(m, root) && IsPointer(EntryOf(m.ts, root, R1(v2, v1))) && v0 < ENTRIES
    ensures IsPage(m.ts, EntryOf(m.ts, root, R1(v2, v1)).ppn)
    ensures m.ts[EntryOf(m.ts, root, R1(v2, v1)).ppn][v0].flags == EntryOf(m.ts, root, R0(v2, v1, v0)).flags
  {
    assert Holds(m.ts, root, R1(v2, v1));
    assert Tidy(m.ts[EntryOf(m.ts, root, R1(v2, v1)).ppn]);
  }

  /**
   Mapping a page: it panics exactly when the free list is too short; otherwise the address maps to what was the
   first free page with at least the flags asked for, every other leaf is as it was, and the space is sound.
   */
  lemma MapPageRefines(m: Mem, cs: Contents, root: nat, v2: nat, v1: nat, v0: nat, f: Flags)
    requires MemOk(m, root) && Walkable(m.ts, root, v2, v1) && MapClean(m, cs, root, v2, v1) && v0 < ENTRIES
    ensures !MapPage(m, cs, root, v2, v1, v0, f).Wild?
    ensures MapPage(m, cs, root, v2, v1, v0, f).Panic? <==> |m.free| < 1 + NewTables(m.ts, root, v2, v1)
    ensures MapPage(m, cs, root, v2, v1, v0, f).Next? ==>
              var n := MapPage(m, cs, root, v2, v1, v0, f).value;
              && MemOk(n, root)
              && EntryOf(n.ts, root, R0(v2, v1, v0)) == MappedPte(EntryOf(m.ts, root, R0(v2, v1, v0)), f, m.free[0])
              && forall r: Ref :: r.R0? && r != R0(v2, v1, v0) ==> EntryOf(n.ts, root, r) == EntryOf(m.ts, root, r)
  {
    if m.free != [] {
      WithoutFirst(m, root);
      var m1 := Mem(m.ts, m.free[1..]);
      CleanNoneValid(m1, cs, root, v2, v1);
      WalkPanics(m1, cs, root, v2, v1);
      if WalkCreate(m1, cs, root, v2, v1).Next? {
        WalkCreateRefines(m1, cs, root, v2, v1);
        WalkNotHeld(m1, cs, root, v2, v1, m.free[0]);
        var n := WalkCreate(m1, cs, root, v2, v1).value;
        LeafRaw(n, root, v2, v1, v0);
        SetLeafKeeps(n, root, v2, v1, v0, MappedPte(EntryOf(n.ts, root, R0(v2, v1, v0)), f, m.free[0]));
      }
    }
  }

  /** The walks that were possible before mapping a page are possible afterwards. */
  lemma MapPageWalkable(m: Mem, cs: Contents, root: nat, v2: nat, v1: nat, v0: nat, f: Flags, a2: nat, a1: nat)
    requires MemOk(m, root) && Walkable(m.ts, root, v2, v1) && MapClean(m, cs, root, v2, v1) && v0 < ENTRIES && Walkable(m.ts, root, a2, a1)
    requires MapPage(m, cs, root, v2, v1, v0, f).Next?
    ensures Walkable(MapPage(m, cs, root, v2, v1, v0, f).value.ts, root, a2, a1)
  {
    WithoutFirst(m, root);
    var m1 := Mem(m.ts, m.free[1..]);
    WalkCreateRefines(m1, cs, root, v2, v1);
    WalkableStays(m1, cs, root, v2, v1, a2, a1);
    var n := WalkCreate(m1, cs, root, v2, v1).value;
    LeafRaw(n, root, v2, v1, v0);
    SetLeafEntries(n.ts, root, v2, v1, v0, MappedPte(EntryOf(n.ts, root, R0(v2, v1, v0)), f, m.free[0]));
  }

  // Setting flags

  /** memory_set_page_flags: the flags are replaced, the page number stays. */
  function SetFlags(m: Mem, cs: Contents, root: nat, v2: nat, v1: nat, v0: nat, f: Flags): Outcome<Mem>
    requires root in m.ts && v2 < |m.ts[root]|
  {
    match WalkCreate(m, cs, root, v2, v1)
    case Next(n) =>
      var p0 := At(n.ts, At(n.ts, root, v2).ppn, v1).ppn;
      if p0 !in n.ts || v0 >= |n.ts[p0]| then Wild
      else Next(Mem(SetEntry(n.ts, p0, v0, Pte(Marked(f), n.ts[p0][v0].ppn)), n.free))
    case other => other
  }

  /** On a mapped page: no page is taken, the page keeps its frame and gets these flags, other leaves stay. */
  lemma SetFlagsRefines(m: Mem, cs: Contents, root: nat, v2: nat, v1: nat, v0: nat, f: Flags)
    requires MemOk(m, root) && Walkable(m.ts, root, v2, v1) && v0 < ENTRIES && !f.g
    requires var e := EntryOf(m.ts, root, R0(v2, v1, v0)); e.flags.v && !e.flags.g
    ensures var o := SetFlags(m, cs, root, v2, v1, v0, f);
            && o.Next? && MemOk(o.value, root) && o.value.free == m.free
            && OnlyChanges(m.ts, o.value.ts, root, R0(v2, v1, v0), Pte(Marked(f), EntryOf(m.ts, root, R0(v2, v1, v0)).ppn))
  {
    var e := EntryOf(m.ts, root, R0(v2, v1, v0));
    assert Holds(m.ts, root, R0(v2, v1, v0));
    assert Holds(m.ts, root, R1(v2, v1)) && Holds(m.ts, root, R2(v2));
    forall k | 0 <= k < |m.free| ensures m.free[k] != e.ppn { assert NotHeld(m.ts, root, m.free[k]); }
    SetLeafKeeps(m, root, v2, v1, v0, Pte(Marked(f), e.ppn));
  }

  /**
   On any address: it panics exactly for want of pages for tables; otherwise the address has just these flags and
   no other leaf changes. A page that was mapped keeps its frame; one that was not is mapped to no page of RAM.
   */
  lemma SetFlagsAnywhere(m: Mem, cs: Contents, root: nat, v2: nat, v1: nat, v0: nat, f: Flags)
    requires MemOk(m, root) && Walkable(m.ts, root, v2, v1) && WalkClean(m, cs, root, v2, v1) && v0 < ENTRIES
    ensures var o, e := SetFlags(m, cs, root, v2, v1, v0, f), EntryOf(m.ts, root, R0(v2, v1, v0));
            && !o.Wild? && (o.Panic? <==> |m.free| < NewTables(m.ts, root, v2, v1))
            && (o.Next? ==>
                  && (forall r: Ref :: r.R0? && r != R0(v2, v1, v0) ==> EntryOf(o.value.ts, root, r) == EntryOf(m.ts, root, r))
                  && var e' := EntryOf(o.value.ts, root, R0(v2, v1, v0));
                     e'.flags == Marked(f) && if e.flags.v then e'.ppn == e.ppn else !InRam(e'.ppn))
  {
    CleanNoneValid(m, cs, root, v2, v1);
    WalkPanics(m, cs, root, v2, v1);
    if WalkCreate(m, cs, root, v2, v1).Next? {
      WalkCreateRefines(m, cs, root, v2, v1);
      var n := WalkCreate(m, cs, root, v2, v1).value;
      LeafRaw(n, root, v2, v1, v0);
      var p0 := EntryOf(n.ts, root, R1(v2, v1)).ppn;
      assert Tidy(n.ts[p0]);
      SetLeafEntries(n.ts, root, v2, v1, v0, Pte(Marked(f), n.ts[p0][v0].ppn));
    }
  }

  lemma WalkUpper(m: Mem, cs: Contents, root: nat, v2: nat, v1: nat, r: Ref)
    requires MemOk(m, root) && Walkable(m.ts, root, v2, v1) && WalkClean(m, cs, root, v2, v1) && WalkCreate(m, cs, root, v2, v1).Next? && !r.R0?
    ensures var e, e' := EntryOf(m.ts, root, r), EntryOf(WalkCreate(m, cs, root, v2, v1).value.ts, root, r);
            e' == e || (!e.flags.v && (r == R2(v2) || r == R1(v2, v1)) && e' == TablePte(e'.ppn))
  {
    CleanNoneValid(m, cs, root, v2, v1);
    WalkSteps(m, cs, root, v2, v1);
  }

  /** In the upper tables mapping a page adds at most the two tables on its way. */
  lemma MapPageUpper(m: Mem, cs: Contents, root: nat, v2: nat, v1: nat, v0: nat, f: Flags, r: Ref)
    requires MemOk(m, root) && Walkable(m.ts, root, v2, v1) && MapClean(m, cs, root, v2, v1) && v0 < ENTRIES && MapPage(m, cs, root, v2, v1, v0, f).Next? && !r.R0?
    ensures var e, e' := EntryOf(m.ts, root, r), EntryOf(MapPage(m, cs, root, v2, v1, v0, f).value.ts, root, r);
            e' == e || (!e.flags.v && (r == R2(v2) || r == R1(v2, v1)) && e' == TablePte(e'.ppn))
  {
    WithoutFirst(m, root);
    MapPageOnly(m, cs, root, v2, v1, v0, f, r);
    WalkUpper(Mem(m.ts, m.free[1..]), cs, root, v2, v1, r);
  }

  /** After its walk, mapping a page changes no upper table. */
  lemma MapPageOnly(m: Mem, cs: Contents, root: nat, v2: nat, v1: nat, v0: nat, f: Flags, r: Ref)
    requires MemOk(m, root) && Walkable(m.ts, root, v2, v1) && MapClean(m, cs, root, v2, v1) && v0 < ENTRIES && MapPage(m, cs, root, v2, v1, v0, f).Next? && !r.R0?
    ensures m.free != [] && WalkCreate(Mem(m.ts, m.free[1..]), cs, root, v2, v1).Next?
    ensures EntryOf(MapPage(m, cs, root, v2, v1, v0, f).value.ts, root, r) ==
            EntryOf(WalkCreate(Mem(m.ts, m.free[1..]), cs, root, v2, v1).value.ts, root, r)
  {
    WithoutFirst(m, root);
    WalkCreateRefines(Mem(m.ts, m.free[1..]), cs, root, v2, v1);
    var n := WalkCreate(Mem(m.ts, m.free[1..]), cs, root, v2, v1).value;
    LeafRaw(n, root, v2, v1, v0);
    LeafOnly(n.ts, root, v2, v1, v0, MappedPte(EntryOf(n.ts, root, R0(v2, v1, v0)), f, m.free[0]), r);
  }

  lemma LeafOnly(ts: Tables, root: nat, v2: nat, v1: nat, v0: nat, e: Pte, r: Ref)
    requires SpaceOk(ts, root) && v0 < ENTRIES && IsPointer(EntryOf(ts, root, R1(v2, v1))) && !r.R0? && e.flags.v
    ensures EntryOf(ts, root, R1(v2, v1)).ppn in ts && v0 < |ts[EntryOf(ts, root, R1(v2, v1)).ppn]|
    ensures EntryOf(SetEntry(ts, EntryOf(ts, root, R1(v2, v1)).ppn, v0, e), root, r) == EntryOf(ts, root, r)
  {
    SetLeafEntries(ts, root, v2, v1, v0, e);
  }

  // Page faults

  const USER_RW: Flags := Flags(false, true, true, false, true, false, false, false)

  /** The addresses memory_handle_page_fault accepts; the end is among them. */
  predicate FaultInRange(vptr: nat) { USER_START <= vptr <= USER_END }

  /** A fault at USER_END_VMA maps a page that memory_space_clone does not copy; at every smaller address it does. */
  lemma FaultAtEnd(vptr: nat)
    requires FaultInRange(vptr)
    ensures (exists j :: 0 <= j < USER_PAGES && RefOf(vptr) == UserRef(j)) <==> vptr != USER_END
  {
    PageNumber(vptr);
    var i := vptr / PAGE - 0xC0000;
    assert RefOf(vptr) == UserRef(i);
    if vptr == USER_END {
      forall j | 0 <= j < USER_PAGES ensures RefOf(vptr) != UserRef(j) { UserRefsDiffer(i, j); }
    }
  }
}
