/**
 walk_pt: the walk that adds the tables it needs, taken from the free list. Table pages come from kmalloc of
 a whole page, which is the page allocator as long as the open heap block is smaller than a page (lemma
 Heap.OpenBlockStaysSmall). Nobody clears a page: a new table holds what the page held when it was free.
 */
module Walk {
  import opened Common
  import opened Sv39

  /** The page tables and the free pages. */
  datatype Mem = Mem(ts: Tables, free: seq<nat>)

  /** Wild: the code follows an entry to a page that is no table, and what it does there is not modelled. */
  datatype Outcome<T> = Next(value: T) | Panic | Wild

  // Contents of pages that are no tables

  /** A page as data, or as the table it was last used for. */
  datatype Data = Words(words: seq<nat>) | Entries(table: Table)

  type Contents = map<nat, Data>

  /** A 64-bit word as a page table entry; bits 8, 9 and 54 to 63 are left out. */
  function PteOf(x: nat): Pte {
    Pte(Flags(x % 2 == 1, x / 2 % 2 == 1, x / 4 % 2 == 1, x / 8 % 2 == 1, x / 16 % 2 == 1, x / 32 % 2 == 1, x / 64 % 2 == 1,
              x / 128 % 2 == 1),
        x / 0x400 % 0x1000_0000_0000)
  }

  /** What a page holds, read as a table. */
  function View(d: Data): (t: Table)
    ensures |t| == ENTRIES
  {
    match d
    case Words(words) => seq(ENTRIES, i requires 0 <= i => if i < |words| then PteOf(words[i]) else NULL_PTE)
    case Entries(table) => if |table| == ENTRIES then table else ZeroTable()
  }

  function PageView(cs: Contents, p: nat): (t: Table)
    ensures |t| == ENTRIES
  {
    if p in cs then View(cs[p]) else ZeroTable()
  }

  /** A page that can become a table without being cleared. */
  predicate Clean(cs: Contents, p: nat) { AllBlank(PageView(cs, p)) }

  /** The next field of a free page, which is the first entry of a table; 0 ends the list. */
  function Link(next: nat): Pte { Pte(NO_FLAGS, next * 4) }

  function Head(free: seq<nat>): nat { if free == [] then 0 else free[0] }

  /** The address of the next free page is that entry, and it is blank. */
  lemma LinkIsBlank(next: nat)
    requires InRam(next) || next == 0
    ensures PteOf(next * PAGE) == Link(next) && Blank(Link(next))
  {
    EvenHalves(next * 16);
    LinkPage(next);
  }

  lemma LinkPage(next: nat)
    requires next < RAM_PAGE + RAM_PAGES
    ensures PteOf(next * PAGE).ppn == next * 4
  {
    assert next * PAGE / 0x400 == next * 4;
  }

  /** A multiple of 256 has no flags. */
  lemma EvenHalves(k: nat)
    ensures PteOf(256 * k).flags == NO_FLAGS
  {
    var x := 256 * k;
    assert x / 2 == 128 * k && x / 4 == 64 * k && x / 8 == 32 * k && x / 16 == 16 * k;
    assert x / 32 == 8 * k && x / 64 == 4 * k && x / 128 == 2 * k;
  }

  // Spaces and free pages

  /** Free pages are in RAM, all different, are no tables and belong to no entry of the space. */
  ghost predicate FreeOk(m: Mem, root: nat) {
    && Unique(m.free)
    && (forall i :: 0 <= i < |m.free| ==> m.free[i] !in m.ts && NotHeld(m.ts, root, m.free[i]))
    && (forall i :: 0 <= i < |m.free| ==> InRam(m.free[i]))
  }

  ghost predicate Sound(m: Mem, root: nat) {
    SpaceOk(m.ts, root) && FreeOk(m, root)
  }

  /** Tables are in RAM, and their entries that are not valid are blank. */
  ghost predicate TidyTables(ts: Tables) {
    forall p :: p in ts ==> InRam(p) && Tidy(ts[p])
  }

  ghost predicate MemOk(m: Mem, root: nat) {
    Sound(m, root) && TidyTables(m.ts)
  }

  /** The walk finds tables or nothing on its way, never a large page. */
  predicate Walkable(ts: Tables, root: nat, v2: nat, v1: nat) {
    && v2 < ENTRIES && v1 < ENTRIES
    && (EntryOf(ts, root, R2(v2)).flags.v ==> IsPointer(EntryOf(ts, root, R2(v2))))
    && (EntryOf(ts, root, R1(v2, v1)).flags.v ==> IsPointer(EntryOf(ts, root, R1(v2, v1))))
  }

  /** The table that entry i of table p points to; a new one if the entry is not valid. */
  function Grow(m: Mem, cs: Contents, p: nat, i: nat): Outcome<Mem>
    requires p in m.ts && i < |m.ts[p]|
  {
    if m.ts[p][i].flags.v then Next(m)
    else if m.free == [] then Panic
    else Next(Mem(AddTable(m.ts, p, i, m.free[0], PageView(cs, m.free[0])), m.free[1..]))
  }

  /** walk_pt with create set: the tables on the way to (v2, v1) exist afterwards. */
  function WalkCreate(m: Mem, cs: Contents, root: nat, v2: nat, v1: nat): Outcome<Mem>
    requires root in m.ts && v2 < |m.ts[root]|
  {
    match Grow(m, cs, root, v2)
    case Next(n) =>
      var p1 := At(n.ts, root, v2).ppn;
      if p1 in n.ts && v1 < |n.ts[p1]| then Grow(n, cs, p1, v1) else Wild
    case other => other
  }

  /** The pages a walk takes from the free list. */
  function NewTables(ts: Tables, root: nat, v2: nat, v1: nat): nat {
    (if EntryOf(ts, root, R2(v2)).flags.v then 0 else 1) + (if EntryOf(ts, root, R1(v2, v1)).flags.v then 0 else 1)
  }

  /** The first k free pages can become tables. */
  predicate TakesClean(free: seq<nat>, cs: Contents, k: nat) {
    forall j :: 0 <= j < k && j < |free| ==> Clean(cs, free[j])
  }

  predicate WalkClean(m: Mem, cs: Contents, root: nat, v2: nat, v1: nat) {
    TakesClean(m.free, cs, NewTables(m.ts, root, v2, v1))
  }

  /** A page leaves the free list. */
  lemma FreeTail(m: Mem, root: nat)
    requires FreeOk(m, root) && m.free != []
    ensures Unique(m.free[1..]) && forall i :: 0 <= i < |m.free[1..]| ==> m.free[1..][i] != m.free[0]
  {
  }

  /** What adding a table does to the space and to the free list. */
  lemma AddTableKeeps(m: Mem, root: nat, ref: Ref, p: nat, i: nat, t: Table)
    requires Sound(m, root) && m.free != [] && p in m.ts && i < |m.ts[p]| && !ref.R0? && |t| == ENTRIES
    requires OnlyChanges(m.ts, AddTable(m.ts, p, i, m.free[0], t), root, ref, TablePte(m.free[0]))
    ensures Sound(Mem(AddTable(m.ts, p, i, m.free[0], t), m.free[1..]), root)
    ensures TidyTables(m.ts) && Tidy(t) ==> TidyTables(AddTable(m.ts, p, i, m.free[0], t))
  {
    var page, ts' := m.free[0], AddTable(m.ts, p, i, m.free[0], t);
    assert m.free[0] !in m.ts && NotHeld(m.ts, root, m.free[0]);
    ChangedOk(m.ts, ts', root, ref, TablePte(page));
    FreeTail(m, root);
    forall k | 0 <= k < |m.free[1..]| ensures m.free[1..][k] !in ts' && NotHeld(ts', root, m.free[1..][k]) && InRam(m.free[1..][k]) {
      assert m.free[k + 1] !in m.ts && NotHeld(m.ts, root, m.free[k + 1]);
    }
    if TidyTables(m.ts) { TidySet(m.ts[p], i, TablePte(page)); }
  }

  /** What growing at a place does: nothing if the entry is valid, else one new table from the free list. */
  ghost predicate Grew(m: Mem, n: Mem, root: nat, ref: Ref) {
    if EntryOf(m.ts, root, ref).flags.v then n == m
    else m.free != [] && n.free == m.free[1..] && OnlyChanges(m.ts, n.ts, root, ref, TablePte(m.free[0]))
  }

  /** The page that is next to become a table holds no valid entry. */
  predicate NextNoneValid(m: Mem, cs: Contents) { m.free != [] ==> NoneValid(PageView(cs, m.free[0])) }

  /** Growing the root. */
  lemma GrowRoot(m: Mem, cs: Contents, root: nat, v2: nat)
    requires Sound(m, root) && v2 < ENTRIES && (!EntryOf(m.ts, root, R2(v2)).flags.v ==> NextNoneValid(m, cs))
    ensures var g := Grow(m, cs, root, v2);
            && (g.Panic? <==> !EntryOf(m.ts, root, R2(v2)).flags.v && m.free == []) && !g.Wild?
            && (g.Next? ==> Sound(g.value, root) && Grew(m, g.value, root, R2(v2)))
            && (g.Next? && MemOk(m, root) && (!EntryOf(m.ts, root, R2(v2)).flags.v ==> TakesClean(m.free, cs, 1)) ==> MemOk(g.value, root))
  {
    if !m.ts[root][v2].flags.v && m.free != [] {
      var t := PageView(cs, m.free[0]);
      AddLevel1Entries(m.ts, root, v2, m.free[0], t);
      AddTableKeeps(m, root, R2(v2), root, v2, t);
    }
  }

  /** Growing a level-1 table. */
  lemma GrowLevel1(m: Mem, cs: Contents, root: nat, v2: nat, v1: nat)
    requires Sound(m, root) && v2 < ENTRIES && v1 < ENTRIES && IsPointer(EntryOf(m.ts, root, R2(v2)))
    requires !EntryOf(m.ts, root, R1(v2, v1)).flags.v ==> NextNoneValid(m, cs)
    ensures EntryOf(m.ts, root, R2(v2)).ppn in m.ts && |m.ts[EntryOf(m.ts, root, R2(v2)).ppn]| == ENTRIES
    ensures var g := Grow(m, cs, EntryOf(m.ts, root, R2(v2)).ppn, v1);
            && (g.Panic? <==> !EntryOf(m.ts, root, R1(v2, v1)).flags.v && m.free == []) && !g.Wild?
            && (g.Next? ==> Sound(g.value, root) && Grew(m, g.value, root, R1(v2, v1)))
            && (g.Next? && MemOk(m, root) && (!EntryOf(m.ts, root, R1(v2, v1)).flags.v ==> TakesClean(m.free, cs, 1)) ==> MemOk(g.value, root))
  {
    assert Holds(m.ts, root, R2(v2));
    var p1 := EntryOf(m.ts, root, R2(v2)).ppn;
    if !m.ts[p1][v1].flags.v && m.free != [] {
      var t := PageView(cs, m.free[0]);
      AddLevel0Entries(m.ts, root, v2, v1, m.free[0], t);
      AddTableKeeps(m, root, R1(v2, v1), p1, v1, t);
    }
  }

  /** The two steps of the walk, of which each panics exactly when it needs a page and there is none. */
  ghost predicate Steps(m: Mem, cs: Contents, root: nat, v2: nat, v1: nat)
    requires root in m.ts && v2 < |m.ts[root]| && v1 < ENTRIES
  {
    var g, n := Grow(m, cs, root, v2), WalkCreate(m, cs, root, v2, v1);
    && (g.Panic? <==> !EntryOf(m.ts, root, R2(v2)).flags.v && m.free == []) && !g.Wild?
    && (g.Panic? ==> n.Panic?)
    && (g.Next? ==>
          && Sound(g.value, root) && Grew(m, g.value, root, R2(v2)) && IsPointer(EntryOf(g.value.ts, root, R2(v2)))
          && EntryOf(g.value.ts, root, R2(v2)).ppn in g.value.ts
          && |g.value.ts[EntryOf(g.value.ts, root, R2(v2)).ppn]| == ENTRIES
          && n == Grow(g.value, cs, EntryOf(g.value.ts, root, R2(v2)).ppn, v1)
          && (n.Panic? <==> !EntryOf(g.value.ts, root, R1(v2, v1)).flags.v && g.value.free == []) && !n.Wild?
          && (n.Next? ==> Sound(n.value, root) && Grew(g.value, n.value, root, R1(v2, v1))))
  }

  /** The pages the walk takes hold no valid entry. */
  predicate WalkNoneValid(m: Mem, cs: Contents, root: nat, v2: nat, v1: nat) {
    forall j :: 0 <= j < NewTables(m.ts, root, v2, v1) && j < |m.free| ==> NoneValid(PageView(cs, m.free[j]))
  }

  lemma WalkSteps(m: Mem, cs: Contents, root: nat, v2: nat, v1: nat)
    requires Sound(m, root) && Walkable(m.ts, root, v2, v1) && WalkNoneValid(m, cs, root, v2, v1)
    ensures Steps(m, cs, root, v2, v1)
    ensures MemOk(m, root) && WalkClean(m, cs, root, v2, v1) ==>
              && (Grow(m, cs, root, v2).Next? ==> MemOk(Grow(m, cs, root, v2).value, root))
              && (WalkCreate(m, cs, root, v2, v1).Next? ==> MemOk(WalkCreate(m, cs, root, v2, v1).value, root))
  {
    GrowRoot(m, cs, root, v2);
    if Grow(m, cs, root, v2).Next? {
      var g := Grow(m, cs, root, v2).value;
      if !EntryOf(m.ts, root, R2(v2)).flags.v && |m.free| > 1 { assert g.free[0] == m.free[1]; }
      GrowLevel1(g, cs, root, v2, v1);
    }
  }

  lemma CleanNoneValid(m: Mem, cs: Contents, root: nat, v2: nat, v1: nat)
    requires WalkClean(m, cs, root, v2, v1)
    ensures WalkNoneValid(m, cs, root, v2, v1)
  {
  }

  /**
   walk_pt refines the flat map: it changes no leaf entry of the space, keeps the tables a tree apart from the
   free pages, and leads to a table for (v2, v1).
   */
  lemma WalkCreateRefines(m: Mem, cs: Contents, root: nat, v2: nat, v1: nat)
    requires MemOk(m, root) && Walkable(m.ts, root, v2, v1) && WalkClean(m, cs, root, v2, v1) && WalkCreate(m, cs, root, v2, v1).Next?
    ensures var n := WalkCreate(m, cs, root, v2, v1).value;
            && MemOk(n, root)
            && IsPointer(EntryOf(n.ts, root, R1(v2, v1))) && EntryOf(n.ts, root, R1(v2, v1)).ppn in n.ts
            && (forall r :: r != R2(v2) && r != R1(v2, v1) ==> EntryOf(n.ts, root, r) == EntryOf(m.ts, root, r))
            && (forall vma :: Leaf(n.ts, root, vma) == Leaf(m.ts, root, vma))
  {
    CleanNoneValid(m, cs, root, v2, v1);
    WalkSteps(m, cs, root, v2, v1);
    assert Holds(WalkCreate(m, cs, root, v2, v1).value.ts, root, R1(v2, v1));
  }

  /** The walk panics exactly when there are too few free pages for the tables it has to add. */
  lemma WalkPanics(m: Mem, cs: Contents, root: nat, v2: nat, v1: nat)
    requires Sound(m, root) && Walkable(m.ts, root, v2, v1) && WalkNoneValid(m, cs, root, v2, v1)
    ensures WalkCreate(m, cs, root, v2, v1).Panic? <==> |m.free| < NewTables(m.ts, root, v2, v1)
    ensures !WalkCreate(m, cs, root, v2, v1).Wild?
    ensures WalkCreate(m, cs, root, v2, v1).Next? ==> |WalkCreate(m, cs, root, v2, v1).value.free| == |m.free| - NewTables(m.ts, root, v2, v1)
  {
    WalkSteps(m, cs, root, v2, v1);
  }

  // When the walk goes wrong

  /** The walk adds the tables it needs and changes nothing else in the space. */
  ghost predicate WalkRight(m: Mem, cs: Contents, root: nat, v2: nat, v1: nat)
    requires root in m.ts && v2 < |m.ts[root]|
  {
    var o := WalkCreate(m, cs, root, v2, v1);
    && o.Next? && |o.value.free| + NewTables(m.ts, root, v2, v1) == |m.free|
    && forall r :: r != R2(v2) && r != R1(v2, v1) ==> EntryOf(o.value.ts, root, r) == EntryOf(m.ts, root, r)
  }

  /** With enough free pages, that is so exactly if the pages it takes hold no valid entry. */
  lemma WalkExactly(m: Mem, cs: Contents, root: nat, v2: nat, v1: nat)
    requires Sound(m, root) && Walkable(m.ts, root, v2, v1) && |m.free| >= NewTables(m.ts, root, v2, v1)
    ensures WalkRight(m, cs, root, v2, v1) <==> WalkNoneValid(m, cs, root, v2, v1)
  {
    if WalkNoneValid(m, cs, root, v2, v1) {
      WalkSteps(m, cs, root, v2, v1);
    } else {
      StaleShows(m, cs, root, v2, v1);
    }
  }

  /** A valid entry in a page that becomes a table shows in the space, or keeps the walk from adding a table. */
  lemma StaleShows(m: Mem, cs: Contents, root: nat, v2: nat, v1: nat)
    requires Sound(m, root) && Walkable(m.ts, root, v2, v1) && |m.free| >= NewTables(m.ts, root, v2, v1)
    requires !WalkNoneValid(m, cs, root, v2, v1)
    ensures !WalkRight(m, cs, root, v2, v1)
  {
    if EntryOf(m.ts, root, R2(v2)).flags.v {
      StaleLevel0(m, cs, root, v2, v1);
    } else {
      var t := PageView(cs, m.free[0]);
      if NoneValid(t) {
        GrowRoot(m, cs, root, v2);
        var g := Grow(m, cs, root, v2).value;
        assert g.free[0] == m.free[1];
        StaleLevel0(g, cs, root, v2, v1);
      } else {
        StaleLevel1(m, cs, root, v2, v1);
      }
    }
  }

  /** The page that becomes a level-0 table has a valid entry. */
  lemma StaleLevel0(m: Mem, cs: Contents, root: nat, v2: nat, v1: nat)
    requires Sound(m, root) && v2 < ENTRIES && v1 < ENTRIES && IsPointer(EntryOf(m.ts, root, R2(v2))) && m.free != []
    requires !EntryOf(m.ts, root, R1(v2, v1)).flags.v && !NoneValid(PageView(cs, m.free[0]))
    ensures EntryOf(m.ts, root, R2(v2)).ppn in m.ts && v1 < |m.ts[EntryOf(m.ts, root, R2(v2)).ppn]|
    ensures var g := Grow(m, cs, EntryOf(m.ts, root, R2(v2)).ppn, v1);
            g.Next? && exists v0 :: EntryOf(g.value.ts, root, R0(v2, v1, v0)) != EntryOf(m.ts, root, R0(v2, v1, v0))
  {
    assert Holds(m.ts, root, R2(v2));
    var p1, t := EntryOf(m.ts, root, R2(v2)).ppn, PageView(cs, m.free[0]);
    var n := Grow(m, cs, p1, v1).value;
    var v0 :| 0 <= v0 < ENTRIES && t[v0].flags.v;
    assert p1 != root && m.free[0] !in m.ts;
    assert EntryOf(n.ts, root, R0(v2, v1, v0)) == t[v0];
    assert EntryOf(m.ts, root, R0(v2, v1, v0)) == NULL_PTE;
  }

  /** The page that becomes a level-1 table has a valid entry. */
  lemma StaleLevel1(m: Mem, cs: Contents, root: nat, v2: nat, v1: nat)
    requires Sound(m, root) && v2 < ENTRIES && v1 < ENTRIES && !EntryOf(m.ts, root, R2(v2)).flags.v && |m.free| >= 2
    requires !NoneValid(PageView(cs, m.free[0]))
    ensures !WalkRight(m, cs, root, v2, v1)
  {
    var page, t := m.free[0], PageView(cs, m.free[0]);
    var g := Grow(m, cs, root, v2).value;
    var i :| 0 <= i < ENTRIES && t[i].flags.v;
    assert m.free[0] !in m.ts && m.free[1] != m.free[0] && m.free[1] !in m.ts && root in m.ts;
    assert At(g.ts, root, v2) == TablePte(page) && g.ts[page] == t;
    if !t[v1].flags.v {
      var n := WalkCreate(m, cs, root, v2, v1).value;
      assert g.free[0] == m.free[1];
      assert n.ts[page] == t[v1 := TablePte(m.free[1])] && At(n.ts, root, v2) == TablePte(page);
      assert EntryOf(n.ts, root, R1(v2, i)) == t[i] && EntryOf(m.ts, root, R1(v2, i)) == NULL_PTE;
    }
  }
}
