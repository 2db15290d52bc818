/**
 memory_space_clone page by page: what copying one page of the user range does to the parent, the child, the
 free list and the frames. What the whole loop achieves is in CloneTheorems.

 A clause `P(...) == true` is the predicate P taken as a whole, which the verifier need not take apart.
 */
module Clone {
  import opened Common
  import opened Sv39
  import opened Walk

  const USER_START: nat := 0xC000_0000
  const USER_END: nat := 0xD000_0000
  const USER_PAGES: nat := 0x1_0000

  function UserRef(i: nat): Ref { R0(3, i / ENTRIES, i % ENTRIES) }

  function Content(fr: Contents, p: nat): Data { if p in fr then fr[p] else Words([]) }

  /** The flags the child's entry ends with: those of the parent's while the page was made readable and writable. */
  function Widened(f: Flags): Flags { f.(r := true, w := true, a := true, d := true, v := true) }

  /** Whether clone copies the page of this entry. */
  predicate Copies(e: Pte) { e.flags.v && e.ppn != 0 }

  /** The whole memory: tables, free pages, and what the pages that are no tables hold. */
  datatype World = World(m: Mem, fr: Contents)

  /** The child takes the first free page for a copy of the page that entry pe of the parent maps. */
  function CopyPage(w: World, p0: nat, v0: nat, pe: Pte): World
    requires w.m.free != [] && p0 in w.m.ts && v0 < |w.m.ts[p0]|
  {
    World(Mem(SetEntry(w.m.ts, p0, v0, Pte(Widened(pe.flags), w.m.free[0])), w.m.free[1..]),
          w.fr[w.m.free[0] := Content(w.fr, pe.ppn)])
  }

  /** Clones page i of the user range from space `parent` to space `child`. */
  function ClonePage(w: World, parent: nat, child: nat, i: nat): Outcome<World>
    requires child in w.m.ts && |w.m.ts[child]| == ENTRIES
  {
    match WalkCreate(w.m, w.fr, child, 3, i / ENTRIES)
    case Next(n) => CloneLeaf(World(n, w.fr), parent, child, i)
    case Panic => Panic
    case Wild => Wild
  }

  /** The part after the walk: the page is copied if the parent maps it. */
  function CloneLeaf(w: World, parent: nat, child: nat, i: nat): Outcome<World> {
    var pe := EntryOf(w.m.ts, parent, UserRef(i));
    var p0 := EntryOf(w.m.ts, child, R1(3, i / ENTRIES)).ppn;
    if !Copies(pe) then Next(w)
    else if w.m.free == [] then Panic
    else if p0 !in w.m.ts || i % ENTRIES >= |w.m.ts[p0]| then Wild
    else Next(CopyPage(w, p0, i % ENTRIES, pe))
  }

  // The root of the new space

  /** leaf_pte for gigapage k of the identity mapping. */
  function Giga(k: nat): Pte { Pte(Flags(true, true, true, false, false, true, true, true), k * 0x4_0000) }

  /** ptab_pte with the G flag. */
  function GlobalTable(ppn: nat): Pte { Pte(Flags(true, false, false, false, false, true, false, false), ppn) }

  /** The global part of a root: two gigapages and the kernel's level-1 table. */
  function KernelEntry(main1: nat, v2: nat): Pte {
    if v2 < 2 then Giga(v2) else if v2 == 2 then GlobalTable(main1) else NULL_PTE
  }

  /** A new root table: the global part, and else what the page holds. */
  function NewRoot(main1: nat, t: Table): (root: Table)
    requires |t| == ENTRIES
    ensures |root| == ENTRIES && forall i :: 0 <= i < ENTRIES ==> root[i] == if i < 3 then KernelEntry(main1, i) else t[i]
  {
    t[0 := KernelEntry(main1, 0)][1 := KernelEntry(main1, 1)][2 := KernelEntry(main1, 2)]
  }

  /** A page that can become a root without being cleared. */
  predicate RootClean(t: Table) { |t| == ENTRIES && forall i :: 3 <= i < ENTRIES ==> Blank(t[i]) }

  /** The world when the loop starts; the child's root is the first free page. */
  function StartClone(w: World, main1: nat): World
    requires w.m.free != []
  {
    World(Mem(w.m.ts[w.m.free[0] := NewRoot(main1, PageView(w.fr, w.m.free[0]))], w.m.free[1..]), w.fr)
  }

  // Pages taken from the free list

  ghost predicate Suffix(free: seq<nat>, free0: seq<nat>) {
    |free| <= |free0| && free == free0[|free0| - |free|..]
  }

  /** A page that was free at the start and is not any more. */
  predicate Taken(free0: seq<nat>, free: seq<nat>, q: nat) {
    q in free0 && q !in free
  }

  /** One more page taken. */
  lemma SuffixTail(free: seq<nat>, free0: seq<nat>)
    requires Unique(free0) && Suffix(free, free0) && free != []
    ensures Suffix(free[1..], free0)
    ensures forall q :: Taken(free0, free[1..], q) <==> Taken(free0, free, q) || q == free[0]
  {
    var k := |free0| - |free|;
    assert free[0] == free0[k];
    forall j | 0 <= j < |free[1..]| ensures free[1..][j] != free[0] { assert free[1..][j] == free0[k + 1 + j]; }
    assert free == [free[0]] + free[1..];
  }

  // What the loop of memory_space_clone keeps; w0 is the world before the call, w the present one

  /** What clone relies on: a sound space with the kernel's global part, whose user pages are not global and have A and D set. */
  ghost predicate ParentOk(w0: World, parent: nat, main1: nat) {
    && MemOk(w0.m, parent)
    && (forall v2 :: 0 <= v2 < 3 ==> EntryOf(w0.m.ts, parent, R2(v2)) == KernelEntry(main1, v2))
    && forall r: Ref :: r.R0? && r.v2 >= 3 ==> var f := EntryOf(w0.m.ts, parent, r).flags; !f.g && (f.v ==> f.a && f.d)
  }

  ghost predicate SameEntries(ts0: Tables, ts: Tables, root: nat) {
    forall r :: EntryOf(ts, root, r) == EntryOf(ts0, root, r)
  }

  /** A space is as it was. */
  ghost predicate ParentKept(w0: World, parent: nat, ts: Tables) {
    SpaceOk(ts, parent) && SameEntries(w0.m.ts, ts, parent)
  }

  /** The tables there were are as they were, and new ones were free pages. */
  ghost predicate OldKept(w0: World, ts: Tables) {
    && (forall p :: p in w0.m.ts ==> p in ts && ts[p] == w0.m.ts[p])
    && (forall p :: p in ts ==> p in w0.m.ts || p in w0.m.free)
  }

  /** Frames that were not free are as they were. */
  ghost predicate FramesKept(w0: World, fr: Contents) {
    forall q :: q !in w0.m.free ==> Content(fr, q) == Content(w0.fr, q)
  }

  /** Below the user range the child is the parent; above, every page it holds was taken from the free list. */
  ghost predicate ChildOk(w0: World, parent: nat, child: nat, m: Mem) {
    && MemOk(m, child)
    && Unique(w0.m.free) && Suffix(m.free, w0.m.free) && Taken(w0.m.free, m.free, child)
    && (forall r: Ref :: r.v2 < 3 ==> EntryOf(m.ts, child, r) == EntryOf(w0.m.ts, parent, r))
    && (forall r: Ref :: r.v2 >= 3 && Holds(m.ts, child, r) ==> Taken(w0.m.free, m.free, EntryOf(m.ts, child, r).ppn))
    && (forall r: Ref :: r.v2 >= 3 && !r.R0? ==> TableOrEmpty(EntryOf(m.ts, child, r)))
    && (forall r: Ref :: r.v2 > 3 ==> EntryOf(m.ts, child, r) == NULL_PTE)
  }

  /** Some entry of the child's user half holds the page. */
  ghost predicate HeldByUser(ts: Tables, child: nat, q: nat) {
    exists r: Ref :: r.v2 >= 3 && Holds(ts, child, r) && EntryOf(ts, child, r).ppn == q
  }

  /** No page is lost: one that was taken is the child's root or held by the child. */
  ghost predicate NoneLost(w0: World, child: nat, m: Mem) {
    forall q :: Taken(w0.m.free, m.free, q) ==> q == child || HeldByUser(m.ts, child, q)
  }

  /** The child's entry and frame for a page of the parent. */
  ghost predicate CopyOf(pe: Pte, ce: Pte, fr0: Contents, fr: Contents) {
    if Copies(pe) then ce.flags == Widened(pe.flags) && Content(fr, ce.ppn) == Content(fr0, pe.ppn)
    else ce == NULL_PTE
  }

  /** The first i pages are copied, and nothing else is mapped in the user half. */
  ghost predicate Copied(w0: World, parent: nat, child: nat, ts: Tables, fr: Contents, i: nat) {
    && (forall j :: 0 <= j < i ==> CopyOf(EntryOf(w0.m.ts, parent, UserRef(j)), EntryOf(ts, child, UserRef(j)), w0.fr, fr))
    && (forall r: Ref :: r.R0? && r.v2 >= 3 && (forall j :: 0 <= j < i ==> r != UserRef(j)) ==> EntryOf(ts, child, r) == NULL_PTE)
  }

  /** How many of the first i user pages clone copies. */
  function Mapped(ts: Tables, parent: nat, i: nat): nat {
    if i == 0 then 0 else Mapped(ts, parent, i - 1) + if Copies(EntryOf(ts, parent, UserRef(i - 1))) then 1 else 0
  }

  /** Tables that i user pages need below the root: a level-1 table and a level-0 table for every 512 pages. */
  function TablesFor(i: nat): nat { if i == 0 then 0 else 1 + (i - 1) / ENTRIES + 1 }

  /** The pages that cloning i user pages takes: root, tables and copies. */
  function Needed(ts: Tables, parent: nat, i: nat): nat { 1 + TablesFor(i) + Mapped(ts, parent, i) }

  /** Which tables the child has after i pages, and how many pages that took. */
  ghost predicate Spent(w0: World, parent: nat, child: nat, m: Mem, i: nat) {
    && |m.free| + Needed(w0.m.ts, parent, i) == |w0.m.free|
    && (EntryOf(m.ts, child, R2(3)).flags.v <==> i > 0)
    && (forall v1 :: 0 <= v1 < ENTRIES ==> (EntryOf(m.ts, child, R1(3, v1)).flags.v <==> v1 * ENTRIES < i))
  }

  /** The pages that are still free hold what they held. */
  ghost predicate FreeSame(w0: World, w: World) {
    forall q :: q in w.m.free ==> PageView(w.fr, q) == PageView(w0.fr, q)
  }

  ghost predicate Cloning(w0: World, parent: nat, main1: nat, child: nat, w: World, i: nat) {
    && ParentOk(w0, parent, main1) && OldKept(w0, w.m.ts) && FramesKept(w0, w.fr) && FreeSame(w0, w)
    && ChildOk(w0, parent, child, w.m) && NoneLost(w0, child, w.m)
    && Copied(w0, parent, child, w.m.ts, w.fr, i) && Spent(w0, parent, child, w.m, i)
  }

  // Other spaces are not disturbed

  /** No table of a space is among the pages that were free. */
  lemma ParentTableNotFree(w0: World, parent: nat, ts: Tables, p: nat)
    requires MemOk(w0.m, parent) && SameEntries(w0.m.ts, ts, parent) && IsTable(ts, parent, p)
    ensures p !in w0.m.free
  {
    forall r | Holds(ts, parent, r) ensures Holds(w0.m.ts, parent, r) {}
    forall k | 0 <= k < |w0.m.free| ensures w0.m.free[k] != p { assert NotHeld(w0.m.ts, parent, w0.m.free[k]); }
  }

  /** A space whose tables are kept is as it was. */
  lemma SpaceKept(w0: World, parent: nat, ts: Tables)
    requires MemOk(w0.m, parent) && OldKept(w0, ts) && forall p :: p in ts ==> |ts[p]| == ENTRIES
    ensures ParentKept(w0, parent, ts)
  {
    forall p | IsTable(w0.m.ts, parent, p) ensures p in ts && ts[p] == At1(w0.m.ts, p) {
      if p != parent {
        var r: Ref :| !r.R0? && Holds(w0.m.ts, parent, r) && EntryOf(w0.m.ts, parent, r).ppn == p;
      }
      assert p in w0.m.ts;
    }
    Undisturbed(w0.m.ts, ts, parent);
    forall r ensures Holds(ts, parent, r) == Holds(w0.m.ts, parent, r) {}
  }

  /** The frame of a parent's user page has not changed. */
  lemma ParentFrameKept(w0: World, parent: nat, main1: nat, fr: Contents, r: Ref)
    requires ParentOk(w0, parent, main1) && FramesKept(w0, fr) && r.R0? && r.v2 == 3 && EntryOf(w0.m.ts, parent, r).flags.v
    ensures EntryOf(w0.m.ts, parent, r).ppn !in w0.m.free
    ensures Content(fr, EntryOf(w0.m.ts, parent, r).ppn) == Content(w0.fr, EntryOf(w0.m.ts, parent, r).ppn)
  {
    assert Holds(w0.m.ts, parent, r);
    var q := EntryOf(w0.m.ts, parent, r).ppn;
    forall k | 0 <= k < |w0.m.free| ensures w0.m.free[k] != q { assert NotHeld(w0.m.ts, parent, w0.m.free[k]); }
  }

  /** Growing a table that was a free page, by a free page. */
  lemma GrowKeepsOld(w0: World, parent: nat, m: Mem, cs: Contents, p: nat, i: nat)
    requires MemOk(w0.m, parent) && OldKept(w0, m.ts) && p in w0.m.free && Suffix(m.free, w0.m.free)
    requires p in m.ts && i < |m.ts[p]| && Grow(m, cs, p, i).Next?
    ensures OldKept(w0, Grow(m, cs, p, i).value.ts)
  {
    NotOld(w0, parent, p);
    if !m.ts[p][i].flags.v {
      assert m.free[0] == w0.m.free[|w0.m.free| - |m.free|];
      NotOld(w0, parent, m.free[0]);
    }
  }

  /** A page that was free was no table. */
  lemma NotOld(w0: World, parent: nat, p: nat)
    requires MemOk(w0.m, parent) && p in w0.m.free
    ensures p !in w0.m.ts
  {
    var k :| 0 <= k < |w0.m.free| && w0.m.free[k] == p;
  }

  // The walk

  lemma GrewKeepsChild(w0: World, parent: nat, child: nat, m: Mem, n: Mem, ref: Ref)
    requires ChildOk(w0, parent, child, m) && MemOk(n, child) && Grew(m, n, child, ref) && !ref.R0? && ref.v2 == 3
    ensures ChildOk(w0, parent, child, n)
  {
    if n != m {
      SuffixTail(m.free, w0.m.free);
      forall r: Ref | r.v2 >= 3 && Holds(n.ts, child, r) ensures Taken(w0.m.free, n.free, EntryOf(n.ts, child, r).ppn) {
        if r != ref { assert Holds(m.ts, child, r); }
      }
    }
  }

  /** An entry that was not valid and now holds the first free page: nothing is lost. */
  lemma NoneLostNext(w0: World, child: nat, m: Mem, n: Mem, ref: Ref, e: Pte)
    requires Unique(w0.m.free) && Suffix(m.free, w0.m.free) && NoneLost(w0, child, m)
    requires m.free != [] && n.free == m.free[1..] && OnlyChanges(m.ts, n.ts, child, ref, e)
    requires ref.v2 >= 3 && !EntryOf(m.ts, child, ref).flags.v && Keeps(ref, e) && e.ppn == m.free[0]
    ensures NoneLost(w0, child, n)
  {
    SuffixTail(m.free, w0.m.free);
    forall q | Taken(w0.m.free, n.free, q) ensures q == child || HeldByUser(n.ts, child, q) {
      if q == m.free[0] {
        assert Holds(n.ts, child, ref);
      } else if q != child {
        var r: Ref :| r.v2 >= 3 && Holds(m.ts, child, r) && EntryOf(m.ts, child, r).ppn == q;
        assert r != ref && Holds(n.ts, child, r);
      }
    }
  }

  lemma GrewLosesNone(w0: World, parent: nat, child: nat, m: Mem, n: Mem, ref: Ref)
    requires ChildOk(w0, parent, child, m) && NoneLost(w0, child, m) && Grew(m, n, child, ref) && !ref.R0? && ref.v2 == 3
    ensures NoneLost(w0, child, n)
  {
    if n != m { NoneLostNext(w0, child, m, n, ref, TablePte(m.free[0])); }
  }

  /** The pages that the walk for page i takes can become tables. */
  predicate TurnClean(w: World, child: nat, i: nat) {
    WalkClean(w.m, w.fr, child, 3, i / ENTRIES)
  }

  lemma ChildWalkable(w0: World, parent: nat, child: nat, m: Mem, i: nat)
    requires ChildOk(w0, parent, child, m) && i < USER_PAGES
    ensures Walkable(m.ts, child, 3, i / ENTRIES)
  {
    assert R2(3).v2 == 3 && R1(3, i / ENTRIES).v2 == 3;
  }

  /** The walk of the child for page i. */
  lemma WalkKeeps(w0: World, parent: nat, main1: nat, child: nat, w: World, i: nat)
    requires Cloning(w0, parent, main1, child, w, i) && i < USER_PAGES && TurnClean(w, child, i)
    ensures Walkable(w.m.ts, child, 3, i / ENTRIES)
    ensures WalkCreate(w.m, w.fr, child, 3, i / ENTRIES).Next? ==>
              var n := WalkCreate(w.m, w.fr, child, 3, i / ENTRIES).value;
              && OldKept(w0, n.ts) && ChildOk(w0, parent, child, n) && NoneLost(w0, child, n)
              && IsPointer(EntryOf(n.ts, child, R1(3, i / ENTRIES)))
  {
    var v1 := i / ENTRIES;
    ChildWalkable(w0, parent, child, w.m, i);
    CleanNoneValid(w.m, w.fr, child, 3, v1);
    WalkSteps(w.m, w.fr, child, 3, v1);
    if WalkCreate(w.m, w.fr, child, 3, v1).Next? {
      var g, n := Grow(w.m, w.fr, child, 3).value, WalkCreate(w.m, w.fr, child, 3, v1).value;
      GrewKeepsChild(w0, parent, child, w.m, g, R2(3));
      GrewLosesNone(w0, parent, child, w.m, g, R2(3));
      GrowKeepsOld(w0, parent, w.m, w.fr, child, 3);
      assert Holds(g.ts, child, R2(3));
      GrewKeepsChild(w0, parent, child, g, n, R1(3, v1));
      GrewLosesNone(w0, parent, child, g, n, R1(3, v1));
      GrowKeepsOld(w0, parent, g, w.fr, EntryOf(g.ts, child, R2(3)).ppn, v1);
    }
  }

  /** Only entries of level-0 tables matter for what is copied. */
  lemma WalkKeepsCopied(w0: World, parent: nat, child: nat, ts: Tables, ts': Tables, fr: Contents, i: nat)
    requires Copied(w0, parent, child, ts, fr, i)
    requires forall r: Ref :: r.R0? ==> EntryOf(ts', child, r) == EntryOf(ts, child, r)
    ensures Copied(w0, parent, child, ts', fr, i)
  {
    forall j | 0 <= j < i ensures CopyOf(EntryOf(w0.m.ts, parent, UserRef(j)), EntryOf(ts', child, UserRef(j)), w0.fr, fr) {
      assert UserRef(j).R0?;
    }
  }

  /** The tables the child has and the pages taken after the walk for page i, the copy still to come. */
  ghost predicate WalkSpent(w0: World, parent: nat, child: nat, m: Mem, i: nat) {
    && |m.free| + 1 + TablesFor(i + 1) + Mapped(w0.m.ts, parent, i) == |w0.m.free|
    && EntryOf(m.ts, child, R2(3)).flags.v
    && (forall v1 :: 0 <= v1 < ENTRIES ==> (EntryOf(m.ts, child, R1(3, v1)).flags.v <==> v1 * ENTRIES < i + 1))
  }

  /** The pages the walk for page i takes, and the tables the child then has. */
  lemma WalkSpends(w0: World, parent: nat, child: nat, m: Mem, cs: Contents, i: nat)
    requires MemOk(m, child) && Walkable(m.ts, child, 3, i / ENTRIES) && Spent(w0, parent, child, m, i) && i < USER_PAGES
    requires WalkClean(m, cs, child, 3, i / ENTRIES)
    ensures var o := WalkCreate(m, cs, child, 3, i / ENTRIES);
            && (o.Panic? <==> |w0.m.free| < 1 + TablesFor(i + 1) + Mapped(w0.m.ts, parent, i)) && !o.Wild?
            && (o.Next? ==> WalkSpent(w0, parent, child, o.value, i))
  {
    var v1 := i / ENTRIES;
    CleanNoneValid(m, cs, child, 3, v1);
    WalkPanics(m, cs, child, 3, v1);
    WalkSteps(m, cs, child, 3, v1);
    TablesNext(i);
    if WalkCreate(m, cs, child, 3, v1).Next? {
      WalkCreateRefines(m, cs, child, 3, v1);
      var n := WalkCreate(m, cs, child, 3, v1).value;
      forall k | 0 <= k < ENTRIES ensures EntryOf(n.ts, child, R1(3, k)).flags.v <==> k * ENTRIES < i + 1 {
        if k != v1 { BlockStarts(k, i); }
      }
    }
  }

  lemma TablesNext(i: nat)
    ensures TablesFor(i + 1) == TablesFor(i) + (if i > 0 then 0 else 1) + (if i / ENTRIES * ENTRIES < i then 0 else 1)
  {
  }

  lemma BlockStarts(k: nat, i: nat)
    requires k != i / ENTRIES
    ensures k * ENTRIES < i + 1 <==> k * ENTRIES < i
  {
  }

  // The copy

  /** A leaf entry that maps the first free page. */
  lemma MapPageKeeps(m: Mem, root: nat, v2: nat, v1: nat, v0: nat, f: Flags)
    requires MemOk(m, root) && m.free != [] && v0 < ENTRIES && IsPointer(EntryOf(m.ts, root, R1(v2, v1))) && f.v
    ensures EntryOf(m.ts, root, R1(v2, v1)).ppn in m.ts && |m.ts[EntryOf(m.ts, root, R1(v2, v1)).ppn]| == ENTRIES
    ensures var n := Mem(SetEntry(m.ts, EntryOf(m.ts, root, R1(v2, v1)).ppn, v0, Pte(f, m.free[0])), m.free[1..]);
            MemOk(n, root) && OnlyChanges(m.ts, n.ts, root, R0(v2, v1, v0), Pte(f, m.free[0]))
  {
    assert Holds(m.ts, root, R1(v2, v1));
    var e := Pte(f, m.free[0]);
    var ts' := SetEntry(m.ts, EntryOf(m.ts, root, R1(v2, v1)).ppn, v0, e);
    SetLeafEntries(m.ts, root, v2, v1, v0, e);
    assert NotHeld(m.ts, root, m.free[0]);
    ChangedOk(m.ts, ts', root, R0(v2, v1, v0), e);
    FreeTail(m, root);
    TidySet(m.ts[EntryOf(m.ts, root, R1(v2, v1)).ppn], v0, e);
    forall k | 0 <= k < |m.free[1..]| ensures m.free[1..][k] !in ts' && NotHeld(ts', root, m.free[1..][k]) && InRam(m.free[1..][k]) {
      assert m.free[k + 1] !in m.ts && NotHeld(m.ts, root, m.free[k + 1]);
      forall r | Holds(ts', root, r) ensures EntryOf(ts', root, r).ppn != m.free[1..][k] {
        if r != R0(v2, v1, v0) { assert Holds(m.ts, root, r); }
      }
    }
  }

  /** The child's table for page i. */
  function LeafTable(ts: Tables, child: nat, i: nat): nat { EntryOf(ts, child, R1(3, i / ENTRIES)).ppn }

  lemma CopyKeepsOld(w0: World, parent: nat, child: nat, w: World, i: nat, pe: Pte)
    requires MemOk(w0.m, parent) && OldKept(w0, w.m.ts) && ChildOk(w0, parent, child, w.m)
    requires w.m.free != [] && IsPointer(EntryOf(w.m.ts, child, R1(3, i / ENTRIES)))
    ensures LeafTable(w.m.ts, child, i) in w.m.ts && |w.m.ts[LeafTable(w.m.ts, child, i)]| == ENTRIES
    ensures OldKept(w0, CopyPage(w, LeafTable(w.m.ts, child, i), i % ENTRIES, pe).m.ts)
  {
    assert Holds(w.m.ts, child, R1(3, i / ENTRIES));
    NotOld(w0, parent, LeafTable(w.m.ts, child, i));
  }

  lemma CopyKeepsChild(w0: World, parent: nat, child: nat, w: World, i: nat, pe: Pte)
    requires ChildOk(w0, parent, child, w.m) && w.m.free != [] && IsPointer(EntryOf(w.m.ts, child, R1(3, i / ENTRIES)))
    ensures LeafTable(w.m.ts, child, i) in w.m.ts && |w.m.ts[LeafTable(w.m.ts, child, i)]| == ENTRIES
    ensures var m' := CopyPage(w, LeafTable(w.m.ts, child, i), i % ENTRIES, pe).m;
            ChildOk(w0, parent, child, m') && OnlyChanges(w.m.ts, m'.ts, child, UserRef(i), Pte(Widened(pe.flags), w.m.free[0]))
  {
    MapPageKeeps(w.m, child, 3, i / ENTRIES, i % ENTRIES, Widened(pe.flags));
    SuffixTail(w.m.free, w0.m.free);
    var m' := CopyPage(w, LeafTable(w.m.ts, child, i), i % ENTRIES, pe).m;
    forall r: Ref | r.v2 >= 3 && Holds(m'.ts, child, r) ensures Taken(w0.m.free, m'.free, EntryOf(m'.ts, child, r).ppn) {
      if r != UserRef(i) { assert Holds(w.m.ts, child, r); }
    }
  }

  lemma UserRefsDiffer(i: nat, j: nat)
    requires i != j
    ensures UserRef(i) != UserRef(j)
  {
  }

  /** An earlier copy is in a frame of its own, so it stays. */
  lemma OldCopyKept(w0: World, parent: nat, main1: nat, child: nat, w: World, i: nat, j: nat)
    requires ParentOk(w0, parent, main1) && ChildOk(w0, parent, child, w.m) && Copied(w0, parent, child, w.m.ts, w.fr, i)
    requires w.m.free != [] && j < i && Copies(EntryOf(w0.m.ts, parent, UserRef(j)))
    ensures EntryOf(w.m.ts, child, UserRef(j)).ppn != w.m.free[0]
  {
    var ce := EntryOf(w.m.ts, child, UserRef(j));
    assert CopyOf(EntryOf(w0.m.ts, parent, UserRef(j)), ce, w0.fr, w.fr);
    assert UserRef(j).R0? && UserRef(j).v2 == 3;
    assert Holds(w.m.ts, child, UserRef(j));
  }

  /** One more page copied. */
  lemma CopyExtends(w0: World, parent: nat, main1: nat, child: nat, w: World, i: nat, ts': Tables)
    requires ParentOk(w0, parent, main1) && FramesKept(w0, w.fr)
    requires ChildOk(w0, parent, child, w.m) && Copied(w0, parent, child, w.m.ts, w.fr, i) && w.m.free != []
    requires Copies(EntryOf(w0.m.ts, parent, UserRef(i)))
    requires OnlyChanges(w.m.ts, ts', child, UserRef(i), Pte(Widened(EntryOf(w0.m.ts, parent, UserRef(i)).flags), w.m.free[0]))
    ensures Copied(w0, parent, child, ts', w.fr[w.m.free[0] := Content(w.fr, EntryOf(w0.m.ts, parent, UserRef(i)).ppn)], i + 1)
  {
    var fr' := w.fr[w.m.free[0] := Content(w.fr, EntryOf(w0.m.ts, parent, UserRef(i)).ppn)];
    ParentFrameKept(w0, parent, main1, w.fr, UserRef(i));
    forall j | 0 <= j < i + 1 ensures CopyOf(EntryOf(w0.m.ts, parent, UserRef(j)), EntryOf(ts', child, UserRef(j)), w0.fr, fr') {
      if j < i {
        UserRefsDiffer(i, j);
        if Copies(EntryOf(w0.m.ts, parent, UserRef(j))) { OldCopyKept(w0, parent, main1, child, w, i, j); }
      }
    }
    forall r: Ref | r.R0? && r.v2 >= 3 && (forall j :: 0 <= j < i + 1 ==> r != UserRef(j)) ensures EntryOf(ts', child, r) == NULL_PTE {
      assert r != UserRef(i);
    }
  }

  /** A page the parent does not map. */
  lemma SkipExtends(w0: World, parent: nat, child: nat, ts: Tables, fr: Contents, i: nat)
    requires Copied(w0, parent, child, ts, fr, i) && !Copies(EntryOf(w0.m.ts, parent, UserRef(i)))
    ensures Copied(w0, parent, child, ts, fr, i + 1)
  {
    forall j | 0 <= j < i ensures UserRef(i) != UserRef(j) { UserRefsDiffer(i, j); }
  }

  /** Page i of the user half is not mapped in the child yet. */
  lemma NotYetMapped(w0: World, parent: nat, child: nat, ts: Tables, fr: Contents, i: nat)
    requires Copied(w0, parent, child, ts, fr, i)
    ensures EntryOf(ts, child, UserRef(i)) == NULL_PTE
  {
    forall j | 0 <= j < i ensures UserRef(i) != UserRef(j) { UserRefsDiffer(i, j); }
  }

  lemma CopyKeepsFree(w0: World, child: nat, w: World, w': World, d: Data)
    requires FreeSame(w0, w) && FreeOk(w.m, child) && w.m.free != []
    requires w'.m.free == w.m.free[1..] && w'.fr == w.fr[w.m.free[0] := d]
    ensures FreeSame(w0, w')
  {
    FreeTail(w.m, child);
    forall q | q in w'.m.free ensures PageView(w'.fr, q) == PageView(w0.fr, q) { assert q in w.m.free && q != w.m.free[0]; }
  }

  /** The copy after the walk. */
  lemma CopyKeeps(w0: World, parent: nat, main1: nat, child: nat, w: World, i: nat)
    requires ParentOk(w0, parent, main1) && OldKept(w0, w.m.ts) && FramesKept(w0, w.fr) && FreeSame(w0, w)
    requires ChildOk(w0, parent, child, w.m) && NoneLost(w0, child, w.m) && Copied(w0, parent, child, w.m.ts, w.fr, i)
    requires w.m.free != [] && IsPointer(EntryOf(w.m.ts, child, R1(3, i / ENTRIES)))
    requires Copies(EntryOf(w0.m.ts, parent, UserRef(i)))
    ensures LeafTable(w.m.ts, child, i) in w.m.ts && |w.m.ts[LeafTable(w.m.ts, child, i)]| == ENTRIES
    ensures var w' := CopyPage(w, LeafTable(w.m.ts, child, i), i % ENTRIES, EntryOf(w0.m.ts, parent, UserRef(i)));
            && OldKept(w0, w'.m.ts) && FramesKept(w0, w'.fr) && FreeSame(w0, w')
            && ChildOk(w0, parent, child, w'.m) && NoneLost(w0, child, w'.m) && Copied(w0, parent, child, w'.m.ts, w'.fr, i + 1)
            && forall r: Ref :: !r.R0? ==> EntryOf(w'.m.ts, child, r) == EntryOf(w.m.ts, child, r)
  {
    var pe := EntryOf(w0.m.ts, parent, UserRef(i));
    CopyKeepsOld(w0, parent, child, w, i, pe);
    CopyKeepsChild(w0, parent, child, w, i, pe);
    var w' := CopyPage(w, LeafTable(w.m.ts, child, i), i % ENTRIES, pe);
    CopyExtends(w0, parent, main1, child, w, i, w'.m.ts);
    NotYetMapped(w0, parent, child, w.m.ts, w.fr, i);
    assert UserRef(i).R0? && UserRef(i).v2 == 3;
    NoneLostNext(w0, child, w.m, w'.m, UserRef(i), Pte(Widened(pe.flags), w.m.free[0]));
    CopyKeepsFree(w0, child, w, w', Content(w.fr, pe.ppn));
  }

  /** Between the walk and the copy. */
  ghost predicate Walked(w0: World, parent: nat, main1: nat, child: nat, w: World, i: nat) {
    && ParentOk(w0, parent, main1) && OldKept(w0, w.m.ts) && FramesKept(w0, w.fr) && FreeSame(w0, w)
    && ChildOk(w0, parent, child, w.m) && NoneLost(w0, child, w.m) && IsPointer(EntryOf(w.m.ts, child, R1(3, i / ENTRIES)))
    && Copied(w0, parent, child, w.m.ts, w.fr, i) && WalkSpent(w0, parent, child, w.m, i)
  }

  lemma WalkTurn(w0: World, parent: nat, main1: nat, child: nat, w: World, i: nat)
    requires Cloning(w0, parent, main1, child, w, i) == true && i < USER_PAGES && TurnClean(w, child, i)
    ensures child in w.m.ts && |w.m.ts[child]| == ENTRIES
    ensures var o := WalkCreate(w.m, w.fr, child, 3, i / ENTRIES);
            && !o.Wild?
            && if o.Next? then Walked(w0, parent, main1, child, World(o.value, w.fr), i) == true
               else |w0.m.free| < 1 + TablesFor(i + 1) + Mapped(w0.m.ts, parent, i)
  {
    WalkKeeps(w0, parent, main1, child, w, i);
    WalkSpends(w0, parent, child, w.m, w.fr, i);
    if WalkCreate(w.m, w.fr, child, 3, i / ENTRIES).Next? {
      WalkCreateRefines(w.m, w.fr, child, 3, i / ENTRIES);
      WalkKeepsCopied(w0, parent, child, w.m.ts, WalkCreate(w.m, w.fr, child, 3, i / ENTRIES).value.ts, w.fr, i);
      WalkKeepsFree(w0, w, child, i);
    }
  }

  lemma WalkKeepsFree(w0: World, w: World, child: nat, i: nat)
    requires FreeSame(w0, w) && child in w.m.ts && |w.m.ts[child]| == ENTRIES && WalkCreate(w.m, w.fr, child, 3, i / ENTRIES).Next?
    ensures FreeSame(w0, World(WalkCreate(w.m, w.fr, child, 3, i / ENTRIES).value, w.fr))
  {
    var n := WalkCreate(w.m, w.fr, child, 3, i / ENTRIES).value;
    forall q | q in n.free ensures q in w.m.free {}
  }

  lemma SkipTurn(w0: World, parent: nat, main1: nat, child: nat, w: World, i: nat)
    requires Walked(w0, parent, main1, child, w, i) == true && !Copies(EntryOf(w0.m.ts, parent, UserRef(i)))
    ensures Cloning(w0, parent, main1, child, w, i + 1) == true
  {
    SkipExtends(w0, parent, child, w.m.ts, w.fr, i);
  }

  lemma CopyTurn(w0: World, parent: nat, main1: nat, child: nat, w: World, i: nat)
    requires Walked(w0, parent, main1, child, w, i) == true && Copies(EntryOf(w0.m.ts, parent, UserRef(i))) && w.m.free != []
    ensures LeafTable(w.m.ts, child, i) in w.m.ts && |w.m.ts[LeafTable(w.m.ts, child, i)]| == ENTRIES
    ensures Cloning(w0, parent, main1, child,
                    CopyPage(w, LeafTable(w.m.ts, child, i), i % ENTRIES, EntryOf(w0.m.ts, parent, UserRef(i))), i + 1) == true
  {
    CopyKeeps(w0, parent, main1, child, w, i);
    var w' := CopyPage(w, LeafTable(w.m.ts, child, i), i % ENTRIES, EntryOf(w0.m.ts, parent, UserRef(i)));
    CopySpends(w0, parent, child, w.m, w'.m, i);
  }

  lemma CopySpends(w0: World, parent: nat, child: nat, m: Mem, m': Mem, i: nat)
    requires WalkSpent(w0, parent, child, m, i) && Copies(EntryOf(w0.m.ts, parent, UserRef(i))) && |m'.free| + 1 == |m.free|
    requires forall r: Ref :: !r.R0? ==> EntryOf(m'.ts, child, r) == EntryOf(m.ts, child, r)
    ensures Spent(w0, parent, child, m', i + 1) == true
  {
    assert !R2(3).R0?;
    forall v1 | 0 <= v1 < ENTRIES ensures EntryOf(m'.ts, child, R1(3, v1)) == EntryOf(m.ts, child, R1(3, v1)) { assert !R1(3, v1).R0?; }
  }

  lemma CloneLeafKeeps(w0: World, parent: nat, main1: nat, child: nat, w: World, i: nat)
    requires Walked(w0, parent, main1, child, w, i) == true
    ensures var o := CloneLeaf(w, parent, child, i);
            && !o.Wild?
            && if o.Next? then Cloning(w0, parent, main1, child, o.value, i + 1) == true
               else |w0.m.free| < Needed(w0.m.ts, parent, i + 1)
  {
    SpaceKept(w0, parent, w.m.ts);
    if !Copies(EntryOf(w0.m.ts, parent, UserRef(i))) {
      SkipTurn(w0, parent, main1, child, w, i);
    } else if w.m.free != [] {
      CopyTurn(w0, parent, main1, child, w, i);
    }
  }

  /**
   One turn of the loop that takes clean pages for tables: it keeps everything Cloning says for one page more, and
   panics only if there were not enough free pages for that.
   */
  lemma ClonePageKeeps(w0: World, parent: nat, main1: nat, child: nat, w: World, i: nat)
    requires Cloning(w0, parent, main1, child, w, i) == true && i < USER_PAGES && TurnClean(w, child, i)
    ensures child in w.m.ts && |w.m.ts[child]| == ENTRIES
    ensures var o := ClonePage(w, parent, child, i);
            && !o.Wild?
            && if o.Next? then Cloning(w0, parent, main1, child, o.value, i + 1) == true
               else |w0.m.free| < Needed(w0.m.ts, parent, i + 1)
  {
    WalkTurn(w0, parent, main1, child, w, i);
    if WalkCreate(w.m, w.fr, child, 3, i / ENTRIES).Next? {
      CloneLeafKeeps(w0, parent, main1, child, World(WalkCreate(w.m, w.fr, child, 3, i / ENTRIES).value, w.fr), i);
    }
  }
}
