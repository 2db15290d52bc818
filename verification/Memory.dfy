/**
 The memory manager as the code has it: page tables and the free list changed in place, loops over the
 entries of tables. A page that is freed stops being a table, so every access below is to a table that has
 not been freed.
 */
module Memory {
  import opened Common
  import opened Sv39
  import opened Walk
  import opened Clone
  import opened Mapping
  import opened MapFit
  import opened CloneFit
  import opened Spaces
  import opened Reclaim
  import opened Freeing
  import CloneTheorems

  /** The walk for this address meets no large page. */
  predicate WalkableAt(ts: Tables, root: nat, vma: nat) {
    Walkable(ts, root, Vpn2(vma), Vpn1(vma))
  }

  function MapAt(m: Mem, cs: Contents, root: nat, a: nat, f: Flags): Outcome<Mem>
    requires IsPage(m.ts, root)
  {
    MapPage(m, cs, root, Vpn2(a), Vpn1(a), Vpn0(a), f)
  }

  predicate MapFitsAt(m: Mem, cs: Contents, root: nat, a: nat, f: Flags) { MapFits(m, cs, root, Vpn2(a), Vpn1(a), Vpn0(a), f) }

  function NewTablesAt(ts: Tables, root: nat, a: nat): nat { NewTables(ts, root, Vpn2(a), Vpn1(a)) }

  lemma MapAtRefines(m: Mem, cs: Contents, root: nat, a: nat, f: Flags)
    requires MemOk(m, root) && WalkableAt(m.ts, root, a) && MapFitsAt(m, cs, root, a, f)
    ensures MapAt(m, cs, root, a, f).Next? <==> |m.free| >= 1 + NewTablesAt(m.ts, root, a)
    ensures MapAt(m, cs, root, a, f).Next? ==>
              var n := MapAt(m, cs, root, a, f).value;
              && MemOk(n, root) && Leaf(n.ts, root, a) == MappedPte(Leaf(m.ts, root, a), f, m.free[0])
              && n.free == m.free[1 + NewTablesAt(m.ts, root, a)..]
              && forall r: Ref :: r.R0? && r != RefOf(a) ==> EntryOf(n.ts, root, r) == EntryOf(m.ts, root, r)
  {
    var v2, v1, v0 := Vpn2(a), Vpn1(a), Vpn0(a);
    MapOver(m, cs, root, v2, v1, v0, f);
    MapPageRefines(m, MapBlanked(m, cs, root, v2, v1, v0), root, v2, v1, v0, f);
    if MapAt(m, cs, root, a, f).Next? { MapPageTakes(m, MapBlanked(m, cs, root, v2, v1, v0), root, v2, v1, v0, f); }
  }

  /** Upper entries afterwards: those there were and those on the way. */
  lemma MapAtUpper(m: Mem, cs: Contents, root: nat, a: nat, f: Flags, r: Ref)
    requires MemOk(m, root) && WalkableAt(m.ts, root, a) && MapFitsAt(m, cs, root, a, f) && MapAt(m, cs, root, a, f).Next? && !r.R0?
    requires Leaf(MapAt(m, cs, root, a, f).value.ts, root, a).flags.v
    ensures EntryOf(MapAt(m, cs, root, a, f).value.ts, root, r).flags.v <==> EntryOf(m.ts, root, r).flags.v || OnWay(a, r)
  {
    MapOver(m, cs, root, Vpn2(a), Vpn1(a), Vpn0(a), f);
    MapPageUpper(m, MapBlanked(m, cs, root, Vpn2(a), Vpn1(a), Vpn0(a)), root, Vpn2(a), Vpn1(a), Vpn0(a), f, r);
  }

  lemma MapAtWalkable(m: Mem, cs: Contents, root: nat, a: nat, f: Flags, b: nat)
    requires MemOk(m, root) && WalkableAt(m.ts, root, a) && MapFitsAt(m, cs, root, a, f) && MapAt(m, cs, root, a, f).Next?
    requires WalkableAt(m.ts, root, b)
    ensures WalkableAt(MapAt(m, cs, root, a, f).value.ts, root, b)
  {
    MapOver(m, cs, root, Vpn2(a), Vpn1(a), Vpn0(a), f);
    MapPageWalkable(m, MapBlanked(m, cs, root, Vpn2(a), Vpn1(a), Vpn0(a)), root, Vpn2(a), Vpn1(a), Vpn0(a), f, Vpn2(b), Vpn1(b));
  }

  /** At least the flags f, and A, D and V. */
  predicate HasFlags(e: Pte, f: Flags) { Or(e.flags, Marked(f)) == e.flags }

  predicate InRange(v: nat, vma: nat, n: nat) {
    vma / PAGE <= v / PAGE < vma / PAGE + n
  }

  /** n pages from vma on are mapped with flags f to pages that were free; all other leaves are as they were. */
  ghost predicate RangeMapped(m0: Mem, ts: Tables, root: nat, vma: nat, n: nat, f: Flags) {
    forall v :: 0 <= v < 0x80_0000_0000 ==>
      if InRange(v, vma, n) then HasFlags(Leaf(ts, root, v), f) && Leaf(ts, root, v).ppn in m0.free
      else Leaf(ts, root, v) == Leaf(m0.ts, root, v)
  }

  /** The place is on the way to the leaf for this address. */
  predicate OnWay(a: nat, r: Ref) { r == R2(Vpn2(a)) || r == R1(Vpn2(a), Vpn1(a)) }

  function PageAddr(vma: nat, i: nat): nat { vma + i * PAGE }

  /** A table for this place is missing, and page i - 1 of the range has not added it. */
  predicate Adds(ts: Tables, root: nat, vma: nat, i: nat, r: Ref) {
    !EntryOf(ts, root, r).flags.v && !(i > 0 && OnWay(PageAddr(vma, i - 1), r))
  }

  /** The pages that page i of the range takes: a frame, and the tables that it is the first to need. */
  function PagesAt(ts: Tables, root: nat, vma: nat, i: nat): nat {
    var a := PageAddr(vma, i);
    1 + (if Adds(ts, root, vma, i, R2(Vpn2(a))) then 1 else 0) + (if Adds(ts, root, vma, i, R1(Vpn2(a), Vpn1(a))) then 1 else 0)
  }

  /** The pages that mapping n pages from vma on takes. */
  function RangePages(ts: Tables, root: nat, vma: nat, n: nat): nat {
    if n == 0 then 0 else RangePages(ts, root, vma, n - 1) + PagesAt(ts, root, vma, n - 1)
  }

  lemma {:induction false} RangeGrows(ts: Tables, root: nat, vma: nat, i: nat, n: nat)
    requires i <= n
    ensures RangePages(ts, root, vma, i) <= RangePages(ts, root, vma, n)
    decreases n
  {
    if i < n { RangeGrows(ts, root, vma, i, n - 1); }
  }

  /** Some page before page i of the range has this place on its way. */
  ghost predicate Passed(vma: nat, i: nat, r: Ref) {
    exists k :: 0 <= k < i && OnWay(PageAddr(vma, k), r)
  }

  /** A place on the way of page i that an earlier page passed was passed by the page just before. */
  lemma PassedLast(vma: nat, i: nat, r: Ref)
    requires PageAddr(vma, i) < 0x80_0000_0000 && OnWay(PageAddr(vma, i), r)
    ensures Passed(vma, i, r) <==> i > 0 && OnWay(PageAddr(vma, i - 1), r)
  {
    if k :| 0 <= k < i && OnWay(PageAddr(vma, k), r) {
      Between(PageAddr(vma, k), PageAddr(vma, i - 1), PageAddr(vma, i));
    }
  }

  lemma Between(a: nat, b: nat, c: nat)
    requires a <= b <= c < 0x80_0000_0000
    ensures Vpn2(a) == Vpn2(c) ==> Vpn2(b) == Vpn2(c)
    ensures Vpn2(a) == Vpn2(c) && Vpn1(a) == Vpn1(c) ==> Vpn2(b) == Vpn2(c) && Vpn1(b) == Vpn1(c)
  {
    Megarange(a);
    Megarange(b);
    Megarange(c);
  }

  lemma Megarange(a: nat)
    requires a < 0x80_0000_0000
    ensures a / 0x20_0000 == Vpn2(a) * ENTRIES + Vpn1(a) && Vpn2(a) == a / 0x4000_0000
  {
    assert a / 0x4000_0000 == a / 0x20_0000 / ENTRIES;
  }

  /** After i pages the upper tables are those there were and those on the way of these pages. */
  ghost predicate UpperTables(ts0: Tables, ts: Tables, root: nat, vma: nat, i: nat) {
    forall r: Ref :: !r.R0? ==> (EntryOf(ts, root, r).flags.v <==> EntryOf(ts0, root, r).flags.v || Passed(vma, i, r))
  }

  /** No large page is in the way of the pages of the range. */
  ghost predicate AllWalkable(ts: Tables, root: nat, vma: nat, n: nat) {
    forall k :: 0 <= k < n ==> WalkableAt(ts, root, PageAddr(vma, k))
  }

  /** What the loop of memory_alloc_and_map_range has done after i pages. */
  ghost predicate Ranging(m0: Mem, m: Mem, root: nat, vma: nat, i: nat, n: nat, f: Flags) {
    && MemOk(m, root) && AllWalkable(m.ts, root, vma, n)
    && RangePages(m0.ts, root, vma, i) <= |m0.free| && m.free == m0.free[RangePages(m0.ts, root, vma, i)..]
    && UpperTables(m0.ts, m.ts, root, vma, i) && RangeMapped(m0, m.ts, root, vma, i, f)
  }

  lemma NewAt(ts0: Tables, ts: Tables, root: nat, vma: nat, i: nat)
    requires UpperTables(ts0, ts, root, vma, i) && PageAddr(vma, i) < 0x80_0000_0000
    ensures PagesAt(ts0, root, vma, i) == 1 + NewTablesAt(ts, root, PageAddr(vma, i))
  {
    var a := PageAddr(vma, i);
    PassedLast(vma, i, R2(Vpn2(a)));
    PassedLast(vma, i, R1(Vpn2(a), Vpn1(a)));
  }

  /** The pages that page i of the range takes for tables fit, by their place in the free list before the call. */
  predicate RangeFitsAt(m: Mem, cs: Contents, root: nat, vma: nat, i: nat, f: Flags) {
    var a, k := PageAddr(vma, i), RangePages(m.ts, root, vma, i) + 1;
    var new1, new0 := Adds(m.ts, root, vma, i, R2(Vpn2(a))), Adds(m.ts, root, vma, i, R1(Vpn2(a), Vpn1(a)));
    var k0 := if new1 then k + 1 else k;
    && (new1 && k < |m.free| ==> FitsLevel1(PageView(cs, m.free[k]), Vpn1(a)))
    && (new0 && k0 < |m.free| ==> FitsLevel0(PageView(cs, m.free[k0]), Vpn0(a), f))
  }

  ghost predicate RangeFits(m: Mem, cs: Contents, root: nat, vma: nat, n: nat, f: Flags) {
    forall i :: 0 <= i < n ==> RangeFitsAt(m, cs, root, vma, i, f)
  }

  /** The tables that are missing for page i are those that it is the first to need. */
  lemma AddsNow(ts0: Tables, ts: Tables, root: nat, vma: nat, i: nat, r: Ref)
    requires UpperTables(ts0, ts, root, vma, i) && PageAddr(vma, i) < 0x80_0000_0000 && OnWay(PageAddr(vma, i), r)
    ensures Adds(ts0, root, vma, i, r) <==> !EntryOf(ts, root, r).flags.v
  {
    PassedLast(vma, i, r);
  }

  lemma RangeTurnFits(m0: Mem, m: Mem, cs: Contents, root: nat, vma: nat, i: nat, f: Flags, a: nat)
    requires UpperTables(m0.ts, m.ts, root, vma, i) && a == PageAddr(vma, i) < 0x80_0000_0000
    requires RangePages(m0.ts, root, vma, i) <= |m0.free| && m.free == m0.free[RangePages(m0.ts, root, vma, i)..]
    ensures RangeFitsAt(m0, cs, root, vma, i, f) <==> MapFitsAt(m, cs, root, a, f)
  {
    AddsNow(m0.ts, m.ts, root, vma, i, R2(Vpn2(a)));
    AddsNow(m0.ts, m.ts, root, vma, i, R1(Vpn2(a), Vpn1(a)));
    var n := RangePages(m0.ts, root, vma, i);
    forall j | 0 <= j < |m.free| ensures m.free[j] == m0.free[n + j] {}
  }

  /** Page i of the range can be mapped, and how many pages that takes. */
  lemma RangeReady(m0: Mem, m: Mem, cs: Contents, root: nat, vma: nat, i: nat, n: nat, f: Flags, a: nat)
    requires Ranging(m0, m, root, vma, i, n, f) && i < n && vma + n * PAGE <= 0x80_0000_0000 && a == PageAddr(vma, i)
    requires RangeFits(m0, cs, root, vma, n, f)
    ensures MemOk(m, root) == true && IsPage(m.ts, root) && WalkableAt(m.ts, root, a) == true && MapFitsAt(m, cs, root, a, f) == true
    ensures |m.free| + RangePages(m0.ts, root, vma, i) == |m0.free|
    ensures RangePages(m0.ts, root, vma, i + 1) == RangePages(m0.ts, root, vma, i) + 1 + NewTablesAt(m.ts, root, a)
  {
    NewAt(m0.ts, m.ts, root, vma, i);
    RangeTurnFits(m0, m, cs, root, vma, i, f, a);
  }

  lemma MapAtPanics(m: Mem, cs: Contents, root: nat, a: nat, f: Flags)
    requires MemOk(m, root) == true && WalkableAt(m.ts, root, a) == true && MapFitsAt(m, cs, root, a, f) == true && IsPage(m.ts, root)
    ensures MapAt(m, cs, root, a, f).Next? <==> |m.free| >= 1 + NewTablesAt(m.ts, root, a)
  {
    MapAtRefines(m, cs, root, a, f);
  }

  /** One more page: it panics exactly when the pages for it are not there. */
  lemma RangeTurn(m0: Mem, m: Mem, cs: Contents, root: nat, vma: nat, i: nat, n: nat, f: Flags, a: nat)
    requires Ranging(m0, m, root, vma, i, n, f) == true && i < n && vma + n * PAGE <= 0x80_0000_0000 && a == PageAddr(vma, i)
    requires RangeFits(m0, cs, root, vma, n, f) == true
    ensures MemOk(m, root) == true && WalkableAt(m.ts, root, a) == true && MapFitsAt(m, cs, root, a, f) == true && IsPage(m.ts, root)
    ensures MapAt(m, cs, root, a, f).Next? <==> |m0.free| >= RangePages(m0.ts, root, vma, i + 1)
    ensures MapAt(m, cs, root, a, f).Next? ==> Ranging(m0, MapAt(m, cs, root, a, f).value, root, vma, i + 1, n, f) == true
  {
    RangeReady(m0, m, cs, root, vma, i, n, f, a);
    MapAtPanics(m, cs, root, a, f);
    if MapAt(m, cs, root, a, f).Next? { RangeStep(m0, m, cs, root, vma, i, n, f, a); }
  }

  lemma RangeWalkable(m: Mem, cs: Contents, root: nat, vma: nat, n: nat, f: Flags, a: nat)
    requires MemOk(m, root) == true && IsPage(m.ts, root) && WalkableAt(m.ts, root, a) == true && MapFitsAt(m, cs, root, a, f) == true
    requires MapAt(m, cs, root, a, f).Next? && AllWalkable(m.ts, root, vma, n)
    ensures AllWalkable(MapAt(m, cs, root, a, f).value.ts, root, vma, n)
  {
    forall k | 0 <= k < n ensures WalkableAt(MapAt(m, cs, root, a, f).value.ts, root, PageAddr(vma, k)) == true {
      assert WalkableAt(m.ts, root, PageAddr(vma, k));
      MapAtWalkable(m, cs, root, a, f, PageAddr(vma, k));
    }
  }

  lemma RangeUpper(ts0: Tables, m: Mem, cs: Contents, root: nat, vma: nat, i: nat, f: Flags, a: nat)
    requires UpperTables(ts0, m.ts, root, vma, i) == true && a == PageAddr(vma, i)
    requires MemOk(m, root) == true && IsPage(m.ts, root) && WalkableAt(m.ts, root, a) == true && MapFitsAt(m, cs, root, a, f) == true
    requires MapAt(m, cs, root, a, f).Next? && Leaf(MapAt(m, cs, root, a, f).value.ts, root, a).flags.v
    ensures UpperTables(ts0, MapAt(m, cs, root, a, f).value.ts, root, vma, i + 1) == true
  {
    var ts' := MapAt(m, cs, root, a, f).value.ts;
    forall r: Ref | !r.R0? ensures EntryOf(ts', root, r).flags.v <==> EntryOf(m.ts, root, r).flags.v || OnWay(a, r) {
      MapAtUpper(m, cs, root, a, f, r);
    }
    UpperNext(ts0, m.ts, ts', root, vma, i);
  }

  lemma RangeLeaves(m0: Mem, m: Mem, cs: Contents, root: nat, vma: nat, i: nat, f: Flags, a: nat)
    requires RangeMapped(m0, m.ts, root, vma, i, f) == true && a == PageAddr(vma, i) < 0x80_0000_0000
    requires MemOk(m, root) == true && IsPage(m.ts, root) && WalkableAt(m.ts, root, a) == true && MapFitsAt(m, cs, root, a, f) == true
    requires MapAt(m, cs, root, a, f).Next? && forall q :: q in m.free ==> q in m0.free
    ensures var m' := MapAt(m, cs, root, a, f).value;
            && MemOk(m', root) == true && RangeMapped(m0, m'.ts, root, vma, i + 1, f) == true && Leaf(m'.ts, root, a).flags.v
            && |m.free| >= 1 + NewTablesAt(m.ts, root, a) && m'.free == m.free[1 + NewTablesAt(m.ts, root, a)..]
  {
    MapAtRefines(m, cs, root, a, f);
    assert m.free[0] in m.free;
    NextInRange(m0, m.ts, MapAt(m, cs, root, a, f).value.ts, root, vma, i, f, m.free[0]);
  }

  lemma RangingParts(m0: Mem, m: Mem, root: nat, vma: nat, i: nat, n: nat, f: Flags)
    requires Ranging(m0, m, root, vma, i, n, f)
    ensures MemOk(m, root) == true && AllWalkable(m.ts, root, vma, n) == true && UpperTables(m0.ts, m.ts, root, vma, i) == true
    ensures RangeMapped(m0, m.ts, root, vma, i, f) == true && forall q :: q in m.free ==> q in m0.free
    ensures RangePages(m0.ts, root, vma, i) <= |m0.free| && m.free == m0.free[RangePages(m0.ts, root, vma, i)..]
  {
  }

  lemma RangeStep(m0: Mem, m: Mem, cs: Contents, root: nat, vma: nat, i: nat, n: nat, f: Flags, a: nat)
    requires Ranging(m0, m, root, vma, i, n, f) == true && i < n && vma + n * PAGE <= 0x80_0000_0000 && a == PageAddr(vma, i)
    requires IsPage(m.ts, root) && WalkableAt(m.ts, root, a) == true && MapFitsAt(m, cs, root, a, f) == true && MapAt(m, cs, root, a, f).Next?
    requires RangePages(m0.ts, root, vma, i + 1) == RangePages(m0.ts, root, vma, i) + 1 + NewTablesAt(m.ts, root, a)
    ensures Ranging(m0, MapAt(m, cs, root, a, f).value, root, vma, i + 1, n, f) == true
  {
    RangingParts(m0, m, root, vma, i, n, f);
    RangeWalkable(m, cs, root, vma, n, f, a);
    RangeLeaves(m0, m, cs, root, vma, i, f, a);
    RangeUpper(m0.ts, m, cs, root, vma, i, f, a);
    DropTwice(m0.free, RangePages(m0.ts, root, vma, i), 1 + NewTablesAt(m.ts, root, a));
  }

  lemma RangeStarts(m0: Mem, root: nat, vma: nat, n: nat, f: Flags)
    requires MemOk(m0, root) && AllWalkable(m0.ts, root, vma, n)
    ensures Ranging(m0, m0, root, vma, 0, n, f) == true
  {
  }

  lemma RangeEnds(m0: Mem, m: Mem, root: nat, vma: nat, n: nat, f: Flags)
    requires Ranging(m0, m, root, vma, n, n, f)
    ensures MemOk(m, root) == true && RangeMapped(m0, m.ts, root, vma, n, f) == true
    ensures RangePages(m0.ts, root, vma, n) <= |m0.free| && m.free == m0.free[RangePages(m0.ts, root, vma, n)..]
  {
  }

  lemma UpperNext(ts0: Tables, ts: Tables, ts': Tables, root: nat, vma: nat, i: nat)
    requires UpperTables(ts0, ts, root, vma, i)
    requires forall r: Ref :: !r.R0? ==> (EntryOf(ts', root, r).flags.v <==> EntryOf(ts, root, r).flags.v || OnWay(PageAddr(vma, i), r))
    ensures UpperTables(ts0, ts', root, vma, i + 1)
  {
    forall r: Ref | !r.R0? ensures Passed(vma, i + 1, r) <==> Passed(vma, i, r) || OnWay(PageAddr(vma, i), r) {
      if k :| 0 <= k < i + 1 && OnWay(PageAddr(vma, k), r) {}
    }
  }

  lemma MapPageTakes(m: Mem, cs: Contents, root: nat, v2: nat, v1: nat, v0: nat, f: Flags)
    requires MemOk(m, root) && Walkable(m.ts, root, v2, v1) && MapClean(m, cs, root, v2, v1) && MapPage(m, cs, root, v2, v1, v0, f).Next?
    ensures |m.free| >= 1 + NewTables(m.ts, root, v2, v1)
    ensures MapPage(m, cs, root, v2, v1, v0, f).value.free == m.free[1 + NewTables(m.ts, root, v2, v1)..]
  {
    WithoutFirst(m, root);
    CleanNoneValid(Mem(m.ts, m.free[1..]), cs, root, v2, v1);
    WalkSteps(Mem(m.ts, m.free[1..]), cs, root, v2, v1);
  }

  lemma NextInRange(m0: Mem, ts: Tables, ts': Tables, root: nat, vma: nat, i: nat, f: Flags, page: nat)
    requires PageAddr(vma, i) < 0x80_0000_0000 && RangeMapped(m0, ts, root, vma, i, f) && page in m0.free
    requires Leaf(ts', root, PageAddr(vma, i)) == MappedPte(Leaf(ts, root, PageAddr(vma, i)), f, page)
    requires forall r: Ref :: r.R0? && r != RefOf(PageAddr(vma, i)) ==> EntryOf(ts', root, r) == EntryOf(ts, root, r)
    ensures RangeMapped(m0, ts', root, vma, i + 1, f)
  {
    var a := PageAddr(vma, i);
    assert a / PAGE == vma / PAGE + i;
    forall v | 0 <= v < 0x80_0000_0000
      ensures if InRange(v, vma, i + 1) then HasFlags(Leaf(ts', root, v), f) && Leaf(ts', root, v).ppn in m0.free
              else Leaf(ts', root, v) == Leaf(m0.ts, root, v) {
      IndicesNamePage(v, a);
      if v / PAGE == a / PAGE {
        assert RefOf(v) == RefOf(a);
      } else {
        assert InRange(v, vma, i + 1) <==> InRange(v, vma, i);
      }
    }
  }

  // The walk in the parent

  /** New tables are not in its way, as blank entries point to no page of RAM. */
  lemma RawKept(w0: World, parent: nat, ts: Tables, v1: nat, v0: nat)
    requires MemOk(w0.m, parent) && OldKept(w0, ts)
    requires TableOrEmpty(EntryOf(w0.m.ts, parent, R2(3))) && TableOrEmpty(EntryOf(w0.m.ts, parent, R1(3, v1)))
    ensures RawEntry(ts, parent, 3, v1, v0) == RawEntry(w0.m.ts, parent, 3, v1, v0)
  {
    var ts0 := w0.m.ts;
    RawTidy(ts0, parent, 3);
    assert Holds(ts0, parent, R2(3)) ==> EntryOf(ts0, parent, R2(3)).ppn in ts0;
    var p1 := RawAt(ts0, parent, 3).ppn;
    assert RawAt(ts, p1, v1) == RawAt(ts0, p1, v1);
    RawTidy(ts0, p1, v1);
    assert Holds(ts0, parent, R1(3, v1)) ==> EntryOf(ts0, parent, R1(3, v1)).ppn in ts0;
  }

  /** The walk in the parent reads its leaf entry. */
  lemma ParentReads(w0: World, parent: nat, ts: Tables, i: nat)
    requires CleanSpace(w0.m.ts, parent) && MemOk(w0.m, parent) && OldKept(w0, ts) && ParentKept(w0, parent, ts)
    ensures Seen(RawEntry(ts, parent, 3, i / ENTRIES, i % ENTRIES)) == EntryOf(ts, parent, UserRef(i))
  {
    assert TableOrEmpty(EntryOf(w0.m.ts, parent, R2(3))) by { assert R2(3).v2 == 3; }
    assert TableOrEmpty(EntryOf(w0.m.ts, parent, R1(3, i / ENTRIES))) by { assert R1(3, i / ENTRIES).v2 == 3; }
    RawKept(w0, parent, ts, i / ENTRIES, i % ENTRIES);
    WalkReads(w0.m.ts, parent, 3, i / ENTRIES, i % ENTRIES);
  }

  /** The walk leads from the root to a table. */
  lemma WalkPointer(m: Mem, cs: Contents, root: nat, v2: nat, v1: nat)
    requires PathOk(m, root, v2, v1) && WalkGoesOn(m, cs, root, v2, v1) && Walkable(m.ts, root, v2, v1)
    ensures WalkCreate(m, cs, root, v2, v1).Next? ==> IsPointer(At(WalkCreate(m, cs, root, v2, v1).value.ts, root, v2))
  {
    PathGrows(m, cs, root, v2, v1);
  }

  // The flags of a page whose tables exist

  /** The tables p1 and p on the way to (v2, v1). */
  ghost predicate Path(ts: Tables, root: nat, v2: nat, v1: nat, p1: nat, p: nat) {
    && v2 < ENTRIES && v1 < ENTRIES && IsPage(ts, root) && IsPage(ts, p1) && IsPage(ts, p) && p != root && p != p1 && InRam(p)
    && PointsTo(ts[root][v2], p1) && PointsTo(ts[p1][v1], p)
  }

  lemma SetFlagsOnPath(m: Mem, cs: Contents, root: nat, v2: nat, v1: nat, v0: nat, f: Flags, p1: nat, p: nat)
    requires Path(m.ts, root, v2, v1, p1, p) && FreeApart(m) && v0 < ENTRIES
    ensures PathOk(m, root, v2, v1) && WalkGoesOn(m, cs, root, v2, v1)
    ensures SetFlags(m, cs, root, v2, v1, v0, f) == Next(Mem(SetEntry(m.ts, p, v0, Pte(Marked(f), m.ts[p][v0].ppn)), m.free))
    ensures RawEntry(m.ts, root, v2, v1, v0) == m.ts[p][v0]
  {
  }

  /** The child's tables are fit for a walk. */
  lemma ChildPath(w0: World, parent: nat, main1: nat, child: nat, w: World, i: nat)
    requires Cloning(w0, parent, main1, child, w, i) == true && i < USER_PAGES
    ensures PathOk(w.m, child, 3, i / ENTRIES)
  {
    ChildWalkable(w0, parent, child, w.m, i);
    PathOfSpace(w.m, child, 3, i / ENTRIES);
  }

  /** The parent's tables for a page it maps; the child's table is none of them. */
  lemma ParentPath(w0: World, parent: nat, child: nat, m: Mem, i: nat, p0: nat) returns (p1: nat, p: nat)
    requires MemOk(w0.m, parent) && ParentKept(w0, parent, m.ts) && ReadyToCopy(w0, child, m, i) && i < USER_PAGES
    requires p0 == LeafTable(m.ts, child, i) && EntryOf(m.ts, parent, UserRef(i)).flags.v
    ensures Path(m.ts, parent, 3, i / ENTRIES, p1, p) && m.ts[p][i % ENTRIES] == EntryOf(m.ts, parent, UserRef(i))
    ensures FreeApart(m) && IsPage(m.ts, p0) && p0 != parent && p0 != p1 && p0 != p
  {
    p1, p := EntryOf(m.ts, parent, R2(3)).ppn, EntryOf(m.ts, parent, R1(3, i / ENTRIES)).ppn;
    assert Holds(m.ts, parent, R2(3)) && Holds(m.ts, parent, R1(3, i / ENTRIES));
    ParentTableNotFree(w0, parent, m.ts, parent);
    ParentTableNotFree(w0, parent, m.ts, p1);
    ParentTableNotFree(w0, parent, m.ts, p);
  }

  /** Entry v0 of table pp is changed to x and back, entry v0 of table p is set twice. */
  lemma Restored(ts: Tables, p: nat, pp: nat, v0: nat, c1: Pte, c2: Pte, x: Pte)
    requires IsPage(ts, p) && IsPage(ts, pp) && p != pp && v0 < ENTRIES
    ensures var t1 := ts[p := ts[p][v0 := c1]];
            var t2 := t1[pp := t1[pp][v0 := x]];
            var t3 := t2[p := t2[p][v0 := c2]];
            t3[pp := t3[pp][v0 := ts[pp][v0]]] == ts[p := ts[p][v0 := c2]]
  {
    assert ts[p][v0 := c1][v0 := c2] == ts[p][v0 := c2];
    assert ts[pp][v0 := x][v0 := ts[pp][v0]] == ts[pp];
  }

  /** What reclaiming a clone needs and what it leaves. */
  lemma Restores(w0: World, parent: nat, main1: nat, w: World)
    requires CloneTheorems.Cloned(w0, parent, main1, w) == true && GlobalOk(w0.m.ts, parent)
    requires |w0.m.free| > 130 + Mapped(w0.m.ts, parent, USER_PAGES)
    ensures SpaceOk(w.m.ts, w0.m.free[0]) && GlobalOk(w.m.ts, w0.m.free[0]) && w.m.free != []
    ensures var freed := Freed(w.m.ts, w0.m.free[0]);
            && multiset(Reversed(freed) + w.m.free) + multiset{w0.m.free[0]} == multiset(w0.m.free)
            && ParentKept(w0, parent, Minus(w.m.ts, freed)) == true && FramesKept(w0, Stacked(w, w0.m.free[0], freed)) == true
  {
    CloneTheorems.ChildGlobalOk(w0, parent, main1, w);
    CloneTheorems.CloneReclaimConserves(w0, parent, main1, w);
    CloneTheorems.FreeLeft(w0, parent, main1, w);
    ReversedSame(Freed(w.m.ts, w0.m.free[0]));
    CloneTheorems.ParentSurvives(w0, parent, main1, w, Minus(w.m.ts, Freed(w.m.ts, w0.m.free[0])));
    forall q | q !in w0.m.free ensures Content(Stacked(w, w0.m.free[0], Freed(w.m.ts, w0.m.free[0])), q) == Content(w0.fr, q) {
      CloneTheorems.FreesWhatCloneTook(w0, parent, main1, w, q);
      StackedOther(w, w0.m.free[0], Freed(w.m.ts, w0.m.free[0]), q);
    }
  }

  /** The turn for page i goes well or panics. */
  lemma TurnIsReady(w0: World, parent: nat, main1: nat, child: nat, w: World, i: nat)
    requires Cloning(w0, parent, main1, child, w, i) == true && i < USER_PAGES && CloneTheorems.CloneFits(w0, parent)
    ensures TurnFits(w, parent, child, i) && child in w.m.ts && |w.m.ts[child]| == ENTRIES
    ensures match ClonePage(w, parent, child, i)
            case Next(w') => Cloning(w0, parent, main1, child, w', i + 1) == true
            case Panic => |w0.m.free| < Needed(w0.m.ts, parent, i + 1)
            case Wild => false
  {
    assert FitsAt(w0, parent, i);
    TurnFitsAt(w0, parent, main1, child, w, i);
    TurnKeeps(w0, parent, main1, child, w, i);
  }

  class Manager {
    var tables: Tables
    var free: seq<nat>
    var frames: Contents

    ghost function Abs(): Mem
      reads this`tables, this`free
    {
      Mem(tables, free)
    }

    ghost function Whole(): World
      reads this
    {
      World(Abs(), frames)
    }

    constructor (tables: Tables, free: seq<nat>, frames: Contents)
      ensures Whole() == World(Mem(tables, free), frames)
    {
      this.tables, this.free, this.frames := tables, free, frames;
    }

    /** memory_alloc_page; a panic is reported. */
    method AllocPage() returns (ok: bool, page: nat)
      modifies this`free
      ensures ok <==> old(free) != []
      ensures ok ==> page == old(free)[0] && free == old(free)[1..]
      ensures !ok ==> free == old(free)
    {
      if free == [] { return false, 0; }
      page := free[0];
      free := free[1..];
      return true, page;
    }

    /** memory_free_page: the page goes to the head of the list and keeps what it holds, but for the link in its first word. */
    method FreePage(page: nat)
      modifies this
      ensures Whole() == PageFreed(old(Whole()), page, Held(old(Whole()), page))
    {
      var d := if page in tables then Entries(tables[page]) else Content(frames, page);
      tables := map p | p in tables && p !in [page] :: tables[p];
      frames := frames[page := Linked(d, Head(free))];
      free := [page] + free;
    }

    /** The table that entry i of table p points to, added if the entry is not valid. */
    method NextTable(p: nat, i: nat) returns (ok: bool, next: nat)
      requires p in tables && i < |tables[p]| && (free != [] ==> free[0] != p)
      modifies this`tables, this`free
      ensures ok <==> Grow(old(Abs()), frames, p, i).Next?
      ensures ok ==> Abs() == Grow(old(Abs()), frames, p, i).value && next == At(tables, p, i).ppn
    {
      ok, next := true, tables[p][i].ppn;
      if !tables[p][i].flags.v {
        ok, next := AllocPage();
        if ok {
          tables := tables[p := tables[p][i := TablePte(next)]];
          tables := tables[next := PageView(frames, next)];
        }
      }
    }

    /** walk_pt with create: the tables for (v2, v1) exist afterwards, and p0 is the last one. */
    method WalkPt(root: nat, v2: nat, v1: nat) returns (ok: bool, p0: nat)
      requires PathOk(Abs(), root, v2, v1) && WalkGoesOn(Abs(), frames, root, v2, v1)
      modifies this`tables, this`free
      ensures ok <==> WalkCreate(old(Abs()), frames, root, v2, v1).Next?
      ensures ok ==> Abs() == WalkCreate(old(Abs()), frames, root, v2, v1).value && IsPage(tables, p0)
      ensures ok ==> p0 == At(tables, At(tables, root, v2).ppn, v1).ppn
    {
      PathGrows(Abs(), frames, root, v2, v1);
      var p1: nat;
      ok, p1 := NextTable(root, v2);
      if !ok { return false, 0; }
      ok, p0 := NextTable(p1, v1);
    }

    /** memory_alloc_and_map_page; a panic is reported. */
    method AllocAndMapPage(root: nat, vma: nat, f: Flags) returns (ok: bool)
      requires MemOk(Abs(), root) && WalkableAt(tables, root, vma) && MapFitsAt(Abs(), frames, root, vma, f)
      modifies this`tables, this`free
      ensures IsPage(old(tables), root)
      ensures ok <==> MapAt(old(Abs()), frames, root, vma, f).Next?
      ensures ok ==> Abs() == MapAt(old(Abs()), frames, root, vma, f).value
    {
      var page, p0;
      ok, page := AllocPage();
      if ok {
        WithoutFirst(old(Abs()), root);
        PathOfSpace(Abs(), root, Vpn2(vma), Vpn1(vma));
        WalkPointer(Abs(), frames, root, Vpn2(vma), Vpn1(vma));
        ok, p0 := WalkPt(root, Vpn2(vma), Vpn1(vma));
        if ok {
          tables := tables[p0 := tables[p0][Vpn0(vma) := MappedPte(tables[p0][Vpn0(vma)], f, page)]];
        }
      }
    }

    /** memory_set_page_flags; a panic is reported. */
    method SetPageFlags(root: nat, v2: nat, v1: nat, v0: nat, f: Flags) returns (ok: bool)
      requires PathOk(Abs(), root, v2, v1) && WalkGoesOn(Abs(), frames, root, v2, v1) && v0 < ENTRIES
      modifies this`tables, this`free
      ensures ok <==> SetFlags(old(Abs()), frames, root, v2, v1, v0, f).Next?
      ensures ok ==> Abs() == SetFlags(old(Abs()), frames, root, v2, v1, v0, f).value
    {
      var p0;
      ok, p0 := WalkPt(root, v2, v1);
      if ok { tables := tables[p0 := tables[p0][v0 := Pte(Marked(f), tables[p0][v0].ppn)]]; }
    }

    /** memory_alloc_and_map_range for n pages; a panic is reported. */
    method AllocAndMapRange(root: nat, vma: nat, n: nat, f: Flags) returns (ok: bool)
      requires MemOk(Abs(), root) && vma + n * PAGE <= 0x80_0000_0000
      requires AllWalkable(tables, root, vma, n) && RangeFits(Abs(), frames, root, vma, n, f)
      modifies this`tables, this`free
      ensures ok <==> |old(free)| >= RangePages(old(tables), root, vma, n)
      ensures ok ==> MemOk(Abs(), root) == true && RangeMapped(old(Abs()), tables, root, vma, n, f) == true
      ensures ok ==> free == old(free)[RangePages(old(tables), root, vma, n)..]
    {
      ghost var m0 := Abs();
      RangeStarts(m0, root, vma, n, f);
      ok := true;
      var i := 0;
      while ok && i < n
        invariant 0 <= i <= n
        invariant if ok then Ranging(m0, Abs(), root, vma, i, n, f) == true else |m0.free| < RangePages(m0.ts, root, vma, i)
      {
        RangeTurn(m0, Abs(), frames, root, vma, i, n, f, PageAddr(vma, i));
        ok := AllocAndMapPage(root, PageAddr(vma, i), f);
        i := i + 1;
      }
      RangeGrows(m0.ts, root, vma, i, n);
      if ok { RangeEnds(m0, Abs(), root, vma, n, f); }
    }

    /** memory_handle_page_fault; a panic is reported. */
    method HandlePageFault(root: nat, vptr: nat) returns (ok: bool)
      requires MemOk(Abs(), root) && (FaultInRange(vptr) ==> WalkableAt(tables, root, vptr))
      requires MapFitsAt(Abs(), frames, root, vptr, USER_RW)
      modifies this`tables, this`free
      ensures ok <==> FaultInRange(vptr) && |old(free)| >= 1 + NewTablesAt(old(tables), root, vptr)
      ensures ok ==>
                && MemOk(Abs(), root)
                && (forall v :: RefOf(v) != RefOf(vptr) ==> Leaf(tables, root, v) == Leaf(old(tables), root, v))
                && var e := Leaf(tables, root, vptr);
                   e.ppn == old(free)[0] && e.flags.v && e.flags.r && e.flags.w && e.flags.u
    {
      if !FaultInRange(vptr) { return false; }
      MapAtRefines(Abs(), frames, root, vptr, USER_RW);
      ok := AllocAndMapPage(root, vptr, USER_RW);
    }

    /** The body of the loop of memory_space_clone for page i. */
    method CloneTurn(parent: nat, child: nat, i: nat, ghost w0: World, ghost main1: nat) returns (ok: bool)
      requires Cloning(w0, parent, main1, child, Whole(), i) == true && i < USER_PAGES
      requires CleanSpace(w0.m.ts, parent) && TurnFits(Whole(), parent, child, i)
      modifies this
      ensures ok <==> ClonePage(old(Whole()), parent, child, i).Next?
      ensures ok ==> Whole() == ClonePage(old(Whole()), parent, child, i).value
    {
      var p0;
      TurnWalks(w0, parent, main1, child, Whole(), i);
      ChildPath(w0, parent, main1, child, Whole(), i);
      ok, p0 := WalkPt(child, 3, i / ENTRIES);
      if ok {
        ok := CopyIfMapped(parent, child, i, p0, w0, main1);
      }
    }

    /** The part of that body after the walk: the copy of the page, if the parent maps it. */
    method CopyIfMapped(parent: nat, child: nat, i: nat, p0: nat, ghost w0: World, ghost main1: nat) returns (ok: bool)
      requires ParentOk(w0, parent, main1) && ReadyToCopy(w0, child, Abs(), i) == true && i < USER_PAGES
      requires p0 == At(tables, At(tables, child, 3).ppn, i / ENTRIES).ppn
      requires CleanSpace(w0.m.ts, parent)
      modifies this
      ensures ok <==> CloneLeaf(old(Whole()), parent, child, i).Next?
      ensures ok ==> Whole() == CloneLeaf(old(Whole()), parent, child, i).value
    {
      assert p0 == LeafTable(tables, child, i);
      SpaceKept(w0, parent, tables);
      ParentReads(w0, parent, tables, i);
      var pe := RawEntry(tables, parent, 3, i / ENTRIES, i % ENTRIES);
      if !Copies(pe) { return true; }
      ghost var p1, pp := ParentPath(w0, parent, child, Abs(), i, p0);
      ok := CopyLeaf(parent, i / ENTRIES, i % ENTRIES, p0, pe, p1, pp);
    }

    /** The copy itself: the parent's page is made writable for a while, and the child's flags are read from it then. */
    method CopyLeaf(parent: nat, v1: nat, v0: nat, p0: nat, pe: Pte, ghost p1: nat, ghost pp: nat) returns (ok: bool)
      requires Path(tables, parent, 3, v1, p1, pp) && v0 < ENTRIES && tables[pp][v0] == pe && pe.flags == Marked(pe.flags)
      requires FreeApart(Abs()) && IsPage(tables, p0) && p0 != parent && p0 != p1 && p0 != pp
      modifies this
      ensures ok <==> old(free) != []
      ensures ok ==> Whole() == CopyPage(old(Whole()), p0, v0, pe)
    {
      var page;
      ok, page := AllocPage();
      if !ok { return; }
      tables := tables[p0 := tables[p0][v0 := Pte(pe.flags.(r := true, w := true), page)]];
      SetFlagsOnPath(Abs(), frames, parent, 3, v1, v0, pe.flags.(r := true, w := true), p1, pp);
      ok := SetPageFlags(parent, 3, v1, v0, pe.flags.(r := true, w := true));
      frames := frames[page := Content(frames, RawEntry(tables, parent, 3, v1, v0).ppn)];
      tables := tables[p0 := tables[p0][v0 := Pte(RawEntry(tables, parent, 3, v1, v0).flags, page)]];
      SetFlagsOnPath(Abs(), frames, parent, 3, v1, v0, pe.flags, p1, pp);
      ok := SetPageFlags(parent, 3, v1, v0, pe.flags);
      Restored(old(tables), p0, pp, v0, Pte(pe.flags.(r := true, w := true), page), Pte(Widened(pe.flags), page), Pte(Widened(pe.flags), pe.ppn));
    }

    /**
     memory_space_clone of the space with root `parent`, up to the switch to the new space; main1 is the kernel's
     level-1 table. The new space is the result; a panic is reported.
     */
    method CloneSpace(parent: nat, main1: nat) returns (ok: bool, child: nat)
      requires Clonable(Whole(), parent, main1) == true && CloneTheorems.CloneFits(Whole(), parent) == true
      modifies this
      ensures ok <==> |old(free)| >= 130 + Mapped(old(tables), parent, USER_PAGES)
      ensures ok ==> child == old(free)[0] && CloneTheorems.Cloned(old(Whole()), parent, main1, Whole()) == true
    {
      ghost var w0 := Whole();
      CloneTheorems.PagesNeeded(w0.m.ts, parent);
      ok, child := AllocPage();
      if !ok { return; }
      CloneTheorems.CloneStarts(w0, parent, main1);
      tables := tables[child := NewRoot(main1, PageView(frames, child))];
      var i := 0;
      while ok && i < USER_PAGES
        invariant 0 <= i <= USER_PAGES
        invariant if ok then Cloning(w0, parent, main1, child, Whole(), i) == true else |w0.m.free| < Needed(w0.m.ts, parent, i)
      {
        TurnIsReady(w0, parent, main1, child, Whole(), i);
        ok := CloneTurn(parent, child, i, w0, main1);
        i := i + 1;
      }
      CloneTheorems.NeededGrows(w0.m.ts, parent, i, USER_PAGES);
    }

    /**
     A space is cloned and the clone reclaimed, as for a process that forks and a child that exits: all pages are
     free again except the clone's root, and the parent is as it was.
     */
    method CloneThenReclaim(parent: nat, main1: nat) returns (ok: bool, child: nat)
      requires Clonable(Whole(), parent, main1) && GlobalOk(tables, parent) && CloneTheorems.CloneFits(Whole(), parent) == true
      requires |free| > 130 + Mapped(tables, parent, USER_PAGES)
      modifies this
      ensures ok && multiset(free) + multiset{child} == multiset(old(free))
      ensures ParentKept(old(Whole()), parent, tables) == true && FramesKept(old(Whole()), frames) == true
    {
      ghost var w0 := Whole();
      ok, child := CloneSpace(parent, main1);
      Restores(w0, parent, main1, Whole());
      ReclaimSpace(child);
    }

    /** The innermost loop of memory_space_reclaim. */
    method FreeLeaves(p0: nat, ghost w: World, ghost root: nat, ghost gone: seq<nat>)
      requires Whole() == After(w, root, gone) && p0 in w.m.ts && p0 !in gone
      requires forall i :: 0 <= i < |w.m.ts[p0]| ==> LeafFine(w, root, gone, p0, i)
      modifies this
      ensures Whole() == Emptied(w, root, gone, p0, |w.m.ts[p0]|)
    {
      ghost var t := w.m.ts[p0];
      var n := |tables[p0]|;
      EmptiedStart(w, root, gone, p0);
      var i := 0;
      while i < n
        invariant 0 <= i <= n == |t|
        invariant Whole() == Emptied(w, root, gone, p0, i)
      {
        FreeLeaf(p0, i, w, root, gone);
        i := i + 1;
      }
    }

    /** Its body: entry i of table p0. */
    method FreeLeaf(p0: nat, i: nat, ghost w: World, ghost root: nat, ghost gone: seq<nat>)
      requires p0 in w.m.ts && i < |w.m.ts[p0]| && LeafFine(w, root, gone, p0, i) && Whole() == Emptied(w, root, gone, p0, i)
      modifies this
      ensures Whole() == Emptied(w, root, gone, p0, i + 1)
    {
      var e := tables[p0][i];
      if e.flags.v && !e.flags.g {
        EmptiedNext(w, root, gone, p0, i);
        FreePage(e.ppn);
        tables := tables[p0 := tables[p0][i := NULL_PTE]];
      } else {
        EmptiedSkip(w, root, gone, p0, i);
      }
    }

    /** What memory_space_reclaim does for entry v1 of the level-1 table v2. */
    method FreeTable0(e: Pte, ghost w: World, ghost root: nat, ghost v2: nat, ghost v1: nat)
      requires Reclaimable(w, root) && Entered(w, root, v2) && v1 < ENTRIES && e == Level1(w.m.ts, root, v2)[v1]
      requires Whole() == After(w, root, Gone(w.m.ts, root, v2, v1))
      modifies this
      ensures Whole() == After(w, root, Gone(w.m.ts, root, v2, v1 + 1))
    {
      ghost var gone := Gone(w.m.ts, root, v2, v1);
      GoneNext(w.m.ts, root, v2, v1);
      if !IsPointer(e) {
        assert gone + [] == gone;
        return;
      }
      Enters0(w, root, v2, v1);
      FreeLeaves(e.ppn, w, root, gone);
      if !e.flags.g {
        EmptiedFreed(w, root, gone, e.ppn);
        FreePage(e.ppn);
      } else {
        EmptiedCalm(w, root, gone, e.ppn);
        assert gone + ([] + []) == gone;
      }
    }

    /** The middle loop: all entries of level-1 table p1. */
    method FreeTables0(p1: nat, ghost w: World, ghost root: nat, ghost v2: nat)
      requires Reclaimable(w, root) && Entered(w, root, v2) && p1 == EntryOf(w.m.ts, root, R2(v2)).ppn
      requires Whole() == After(w, root, Gone(w.m.ts, root, v2, 0))
      modifies this
      ensures Whole() == After(w, root, Gone(w.m.ts, root, v2, ENTRIES))
    {
      var i := 0;
      while i < ENTRIES
        invariant 0 <= i <= ENTRIES
        invariant Whole() == After(w, root, Gone(w.m.ts, root, v2, i))
      {
        TablesStay(w, root, v2, i);
        var e := tables[p1][i];
        FreeTable0(e, w, root, v2, i);
        i := i + 1;
      }
    }

    /** What memory_space_reclaim does for entry v2 of the root. */
    method FreeTable1(e: Pte, ghost w: World, ghost root: nat, ghost v2: nat)
      requires Reclaimable(w, root) && v2 < ENTRIES && e == At1(w.m.ts, root)[v2]
      requires Whole() == After(w, root, Freed2(w.m.ts, At1(w.m.ts, root), v2))
      modifies this
      ensures Whole() == After(w, root, Freed2(w.m.ts, At1(w.m.ts, root), v2 + 1))
    {
      ghost var before := Freed2(w.m.ts, At1(w.m.ts, root), v2);
      assert before + [] == before;
      if !IsPointer(e) {
        Freed2Next(w.m.ts, At1(w.m.ts, root), v2);
        return;
      }
      Enters(w, root, v2);
      FreeTables0(e.ppn, w, root, v2);
      GoneTable(w, root, v2);
      if !e.flags.g {
        ghost var gone := Gone(w.m.ts, root, v2, ENTRIES);
        TablesStay(w, root, v2, ENTRIES);
        LeavesTable1(w, root, v2);
        HeldStill(w, root, gone, e.ppn);
        AfterNext(w, root, gone, e.ppn);
        FreePage(e.ppn);
      }
    }

    /**
     memory_space_reclaim of the space with this root, after the switch to the main space. The freed pages come
     in front of the free list, last one first, with what they held, and all other pages are as they were.
     */
    method ReclaimSpace(root: nat)
      requires SpaceOk(tables, root) && GlobalOk(tables, root) && free != []
      modifies this
      ensures Whole() == After(old(Whole()), root, Freed(old(tables), root))
    {
      ghost var w := Whole();
      assert Minus(w.m.ts, []) == w.m.ts && [] + w.m.free == w.m.free;
      var i := 0;
      while i < ENTRIES
        invariant 0 <= i <= ENTRIES
        invariant Whole() == After(w, root, Freed2(w.m.ts, At1(w.m.ts, root), i))
      {
        RootStays(w, root, i);
        var e := tables[root][i];
        FreeTable1(e, w, root, i);
        i := i + 1;
      }
    }
  }

  /** The first step of a walk leads to a table, and the second can be taken from it. */
  lemma PathGrows(m: Mem, cs: Contents, root: nat, v2: nat, v1: nat)
    requires PathOk(m, root, v2, v1) && WalkGoesOn(m, cs, root, v2, v1)
    ensures Grow(m, cs, root, v2).Next? ==>
              var n := Grow(m, cs, root, v2).value;
              && IsPage(n.ts, At(n.ts, root, v2).ppn) && WalkCreate(m, cs, root, v2, v1) == Grow(n, cs, At(n.ts, root, v2).ppn, v1)
              && (n.free != [] ==> n.free[0] != At(n.ts, root, v2).ppn && n.free[0] != root)
              && (Grow(n, cs, At(n.ts, root, v2).ppn, v1).Next? ==>
                    var k := Grow(n, cs, At(n.ts, root, v2).ppn, v1).value;
                    At(k.ts, root, v2) == At(n.ts, root, v2) && IsPage(k.ts, At(k.ts, At(n.ts, root, v2).ppn, v1).ppn))
    ensures m.free != [] ==> m.free[0] != root
  {
    if Grow(m, cs, root, v2).Next? && !At(m.ts, root, v2).flags.v {
      if |m.free| > 1 { assert m.free[1] !in m.ts && m.free[0] != m.free[1]; }
    }
  }
}
