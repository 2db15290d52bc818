/**
 Exactly what mapping a page asks of the free pages that it takes for tables. An entry that it sets is written over,
 so it matters only for what is read of it first: that an entry for a table is not valid, and which flags an entry
 for a page has. All other entries of a new table must be blank.
 */
module MapFit {
  import opened Common
  import opened Sv39
  import opened Walk
  import opened Clone
  import opened Mapping

  /** All entries but one are blank. */
  predicate BlankBut(t: Table, i: nat) { |t| == ENTRIES && forall j :: 0 <= j < ENTRIES && j != i ==> Blank(t[j]) }

  /** A page that can become a level-1 table in which entry v1 gets a table. */
  predicate FitsLevel1(t: Table, v1: nat) { BlankBut(t, v1) && v1 < ENTRIES && !t[v1].flags.v }

  /** A page that can become a level-0 table in which entry v0 gets a page with flags f. */
  predicate FitsLevel0(t: Table, v0: nat, f: Flags) {
    BlankBut(t, v0) && v0 < ENTRIES && Or(t[v0].flags, Marked(f)) == Marked(f)
  }

  /** The pages that mapping takes for tables, after the one for the frame, fit. */
  predicate MapFits(m: Mem, cs: Contents, root: nat, v2: nat, v1: nat, v0: nat, f: Flags) {
    var root2, level1 := EntryOf(m.ts, root, R2(v2)).flags.v, EntryOf(m.ts, root, R1(v2, v1)).flags.v;
    var k := if root2 then 1 else 2;
    && (!root2 && 1 < |m.free| ==> FitsLevel1(PageView(cs, m.free[1]), v1))
    && (!level1 && k < |m.free| ==> FitsLevel0(PageView(cs, m.free[k]), v0, f))
  }

  // Writing over an entry

  /** The contents with one entry of a page blanked. */
  function Blanked(cs: Contents, page: nat, j: nat): Contents
    requires j < ENTRIES
  {
    cs[page := Entries(PageView(cs, page)[j := NULL_PTE])]
  }

  lemma BlankedView(cs: Contents, page: nat, j: nat, q: nat)
    requires j < ENTRIES
    ensures PageView(Blanked(cs, page, j), q) == if q == page then PageView(cs, page)[j := NULL_PTE] else PageView(cs, q)
  {
  }

  lemma BlankedClean(cs: Contents, page: nat, j: nat)
    requires BlankBut(PageView(cs, page), j) && j < ENTRIES
    ensures Clean(Blanked(cs, page, j), page)
  {
  }

  /** The walk does not notice the entry of the level-1 table that it writes over. */
  lemma WalkOver(m: Mem, cs: Contents, root: nat, v2: nat, v1: nat)
    requires root in m.ts && v2 < |m.ts[root]| && !m.ts[root][v2].flags.v && v1 < ENTRIES && Unique(m.free)
    requires m.free != [] && m.free[0] !in m.ts && !PageView(cs, m.free[0])[v1].flags.v
    ensures WalkCreate(m, Blanked(cs, m.free[0], v1), root, v2, v1) == WalkCreate(m, cs, root, v2, v1)
  {
    var page, t := m.free[0], PageView(cs, m.free[0]);
    var cs' := Blanked(cs, page, v1);
    var g, g' := Grow(m, cs, root, v2).value, Grow(m, cs', root, v2).value;
    assert At(g.ts, root, v2) == TablePte(page) && At(g'.ts, root, v2) == TablePte(page);
    assert g.ts[page] == t && g'.ts[page] == t[v1 := NULL_PTE] && g.free == g'.free == m.free[1..];
    if |m.free| > 1 {
      var q := m.free[1];
      assert g.free[0] == q && q != page;
      assert t[v1 := NULL_PTE][v1 := TablePte(q)] == t[v1 := TablePte(q)];
      assert AddTable(g'.ts, page, v1, q, PageView(cs, q)) == AddTable(g.ts, page, v1, q, PageView(cs, q));
    }
  }

  /** Nor of the contents of the page for the level-0 table, which it only adds. */
  lemma WalkAdds(m: Mem, cs: Contents, cs': Contents, root: nat, v2: nat, v1: nat, k: nat)
    requires Sound(m, root) && Walkable(m.ts, root, v2, v1) && WalkNoneValid(m, cs, root, v2, v1)
    requires NewTables(m.ts, root, v2, v1) == k + 1 && k < |m.free|
    requires forall q :: q != m.free[k] ==> PageView(cs', q) == PageView(cs, q)
    ensures WalkCreate(m, cs, root, v2, v1).Next? && WalkCreate(m, cs', root, v2, v1).Next?
    ensures var n, n' := WalkCreate(m, cs, root, v2, v1).value, WalkCreate(m, cs', root, v2, v1).value;
            && n'.free == n.free && n'.ts == n.ts[m.free[k] := PageView(cs', m.free[k])] && n.ts[m.free[k]] == PageView(cs, m.free[k])
            && EntryOf(n.ts, root, R1(v2, v1)) == TablePte(m.free[k]) && EntryOf(n'.ts, root, R1(v2, v1)) == TablePte(m.free[k])
  {
    WalkPanics(m, cs, root, v2, v1);
    assert m.free[k] !in m.ts && (k == 1 ==> m.free[0] !in m.ts && m.free[0] != m.free[1]);
    if EntryOf(m.ts, root, R2(v2)).flags.v {
      assert Holds(m.ts, root, R2(v2));
    } else {
      var t := PageView(cs, m.free[0]);
      var g := Grow(m, cs, root, v2).value;
      assert At(g.ts, root, v2) == TablePte(m.free[0]) && g.ts[m.free[0]] == t && g.free[0] == m.free[1];
    }
  }

  // Mapping a page

  /** The contents with the entries that mapping writes over blanked. */
  function MapBlanked(m: Mem, cs: Contents, root: nat, v2: nat, v1: nat, v0: nat): Contents
    requires v1 < ENTRIES && v0 < ENTRIES
  {
    var root2, level1 := EntryOf(m.ts, root, R2(v2)).flags.v, EntryOf(m.ts, root, R1(v2, v1)).flags.v;
    var k := if root2 then 1 else 2;
    var cs1 := if !root2 && 1 < |m.free| then Blanked(cs, m.free[1], v1) else cs;
    if !level1 && k < |m.free| then Blanked(cs1, m.free[k], v0) else cs1
  }

  lemma MapBlankedClean(m: Mem, cs: Contents, root: nat, v2: nat, v1: nat, v0: nat, f: Flags)
    requires Unique(m.free) && v1 < ENTRIES && v0 < ENTRIES && MapFits(m, cs, root, v2, v1, v0, f)
    ensures MapClean(m, MapBlanked(m, cs, root, v2, v1, v0), root, v2, v1)
  {
    var root2, level1 := EntryOf(m.ts, root, R2(v2)).flags.v, EntryOf(m.ts, root, R1(v2, v1)).flags.v;
    var cs1 := if !root2 && 1 < |m.free| then Blanked(cs, m.free[1], v1) else cs;
    var cs2 := MapBlanked(m, cs, root, v2, v1, v0);
    if !root2 && 1 < |m.free| {
      BlankedClean(cs, m.free[1], v1);
      if 2 < |m.free| { BlankedView(cs1, m.free[2], v0, m.free[1]); }
      assert Clean(cs2, m.free[1]);
    }
    var k := if root2 then 1 else 2;
    if !level1 && k < |m.free| {
      BlankedView(cs, m.free[1], v1, m.free[k]);
      BlankedClean(cs1, m.free[k], v0);
      assert Clean(cs2, m.free[k]);
    }
  }

  /** Mapping does not notice what those entries were. */
  lemma MapOver(m: Mem, cs: Contents, root: nat, v2: nat, v1: nat, v0: nat, f: Flags)
    requires MemOk(m, root) && Walkable(m.ts, root, v2, v1) && v0 < ENTRIES && MapFits(m, cs, root, v2, v1, v0, f)
    ensures MapClean(m, MapBlanked(m, cs, root, v2, v1, v0), root, v2, v1)
    ensures MapPage(m, MapBlanked(m, cs, root, v2, v1, v0), root, v2, v1, v0, f) == MapPage(m, cs, root, v2, v1, v0, f)
  {
    MapBlankedClean(m, cs, root, v2, v1, v0, f);
    if m.free != [] {
      WithoutFirst(m, root);
      var m1, cs2 := Mem(m.ts, m.free[1..]), MapBlanked(m, cs, root, v2, v1, v0);
      var root2, level1 := EntryOf(m.ts, root, R2(v2)).flags.v, EntryOf(m.ts, root, R1(v2, v1)).flags.v;
      var cs1 := if !root2 && 1 < |m.free| then Blanked(cs, m.free[1], v1) else cs;
      if !root2 && 1 < |m.free| {
        assert m1.free[0] == m.free[1];
        WalkOver(m1, cs, root, v2, v1);
      }
      assert WalkCreate(m1, cs1, root, v2, v1) == WalkCreate(m1, cs, root, v2, v1);
      var k := if root2 then 1 else 2;
      if !level1 && k < |m.free| { LeafOver(m, cs1, root, v2, v1, v0, f, k); }
    }
  }

  /** The new level-0 table with its entry set. */
  lemma LeafOver(m: Mem, cs: Contents, root: nat, v2: nat, v1: nat, v0: nat, f: Flags, k: nat)
    requires Sound(m, root) && m.free != [] && Sound(Mem(m.ts, m.free[1..]), root) && Walkable(m.ts, root, v2, v1) && v0 < ENTRIES
    requires NewTables(m.ts, root, v2, v1) == k && 0 < k < |m.free| && FitsLevel0(PageView(cs, m.free[k]), v0, f)
    requires WalkNoneValid(Mem(m.ts, m.free[1..]), Blanked(cs, m.free[k], v0), root, v2, v1)
    ensures MapPage(m, Blanked(cs, m.free[k], v0), root, v2, v1, v0, f) == MapPage(m, cs, root, v2, v1, v0, f)
  {
    var m1, cs2 := Mem(m.ts, m.free[1..]), Blanked(cs, m.free[k], v0);
    assert m1.free[k - 1] == m.free[k];
    WalkAdds(m1, cs2, cs, root, v2, v1, k - 1);
    LeafSame(m, cs, cs2, root, v2, v1, v0, f, m.free[k]);
  }

  lemma LeafSame(m: Mem, cs: Contents, cs2: Contents, root: nat, v2: nat, v1: nat, v0: nat, f: Flags, page: nat)
    requires root in m.ts && v2 < |m.ts[root]| && m.free != [] && FitsLevel0(PageView(cs, page), v0, f)
    requires PageView(cs2, page) == PageView(cs, page)[v0 := NULL_PTE]
    requires var o, o' := WalkCreate(Mem(m.ts, m.free[1..]), cs2, root, v2, v1), WalkCreate(Mem(m.ts, m.free[1..]), cs, root, v2, v1);
             && o.Next? && o'.Next? && o'.value.free == o.value.free && page in o.value.ts && o.value.ts[page] == PageView(cs2, page)
             && o'.value.ts == o.value.ts[page := PageView(cs, page)]
             && EntryOf(o.value.ts, root, R1(v2, v1)) == TablePte(page) && EntryOf(o'.value.ts, root, R1(v2, v1)) == TablePte(page)
    ensures MapPage(m, cs2, root, v2, v1, v0, f) == MapPage(m, cs, root, v2, v1, v0, f)
  {
    var m1, t := Mem(m.ts, m.free[1..]), PageView(cs, page);
    var e, n, n' := Pte(Marked(f), m.free[0]), WalkCreate(m1, cs2, root, v2, v1).value, WalkCreate(m1, cs, root, v2, v1).value;
    assert MappedPte(t[v0], f, m.free[0]) == e && MappedPte(NULL_PTE, f, m.free[0]) == e;
    assert t[v0 := NULL_PTE][v0 := e] == t[v0 := e];
    assert SetEntry(n'.ts, page, v0, e) == SetEntry(n.ts, page, v0, e);
  }

  // Both ways

  /**
   Mapping a page went well: it took the first free page for the frame and one for every new table, the address maps
   to that frame, no other leaf and no other table changed, and the space is sound.
   */
  ghost predicate MapRight(m: Mem, cs: Contents, root: nat, v2: nat, v1: nat, v0: nat, f: Flags)
    requires root in m.ts && v2 < |m.ts[root]|
  {
    var o := MapPage(m, cs, root, v2, v1, v0, f);
    && o.Next? && MemOk(o.value, root)
    && |o.value.free| + 1 + NewTables(m.ts, root, v2, v1) == |m.free|
    && EntryOf(o.value.ts, root, R0(v2, v1, v0)) == MappedPte(EntryOf(m.ts, root, R0(v2, v1, v0)), f, m.free[0])
    && forall r :: r != R2(v2) && r != R1(v2, v1) && r != R0(v2, v1, v0) ==> EntryOf(o.value.ts, root, r) == EntryOf(m.ts, root, r)
  }

  /** With enough free pages, it goes well exactly if the pages it takes for tables fit. */
  lemma MapExactly(m: Mem, cs: Contents, root: nat, v2: nat, v1: nat, v0: nat, f: Flags)
    requires MemOk(m, root) && Walkable(m.ts, root, v2, v1) && v0 < ENTRIES && |m.free| >= 1 + NewTables(m.ts, root, v2, v1)
    ensures MapRight(m, cs, root, v2, v1, v0, f) <==> MapFits(m, cs, root, v2, v1, v0, f)
  {
    if MapFits(m, cs, root, v2, v1, v0, f) { FitsMaps(m, cs, root, v2, v1, v0, f); }
    if MapRight(m, cs, root, v2, v1, v0, f) { MapNeeds(m, cs, root, v2, v1, v0, f, MapPage(m, cs, root, v2, v1, v0, f).value); }
  }

  lemma FitsMaps(m: Mem, cs: Contents, root: nat, v2: nat, v1: nat, v0: nat, f: Flags)
    requires MemOk(m, root) && Walkable(m.ts, root, v2, v1) && v0 < ENTRIES && |m.free| >= 1 + NewTables(m.ts, root, v2, v1)
    requires MapFits(m, cs, root, v2, v1, v0, f)
    ensures MapRight(m, cs, root, v2, v1, v0, f)
  {
    MapOver(m, cs, root, v2, v1, v0, f);
    var cs2 := MapBlanked(m, cs, root, v2, v1, v0);
    MapPageRefines(m, cs2, root, v2, v1, v0, f);
    var m1, n := Mem(m.ts, m.free[1..]), MapPage(m, cs2, root, v2, v1, v0, f).value;
    WithoutFirst(m, root);
    CleanNoneValid(m1, cs2, root, v2, v1);
    WalkPanics(m1, cs2, root, v2, v1);
    WalkCreateRefines(m1, cs2, root, v2, v1);
    forall r: Ref | r != R2(v2) && r != R1(v2, v1) && r != R0(v2, v1, v0) ensures EntryOf(n.ts, root, r) == EntryOf(m.ts, root, r) {
      if !r.R0? { MapPageOnly(m, cs2, root, v2, v1, v0, f, r); }
    }
  }

  /** The entries of the two tables when the leaf is set. */
  lemma LeafSet(n: Mem, n': Mem, root: nat, v2: nat, p1: nat, v1: nat, p0: nat, v0: nat, e: Pte, j: nat)
    requires IsPage(n.ts, root) && IsPage(n.ts, p1) && IsPage(n.ts, p0) && p0 != root && p0 != p1 && v0 < ENTRIES && e.flags.v
    requires PointsTo(At(n.ts, root, v2), p1) && PointsTo(At(n.ts, p1, v1), p0) && n' == Mem(SetEntry(n.ts, p0, v0, e), n.free) && j < ENTRIES
    requires TidyTables(n'.ts)
    ensures EntryOf(n'.ts, root, R0(v2, v1, v0)) == e
    ensures j != v0 && !EntryOf(n'.ts, root, R0(v2, v1, j)).flags.v ==> Blank(n.ts[p0][j])
    ensures !EntryOf(n'.ts, root, R1(v2, j)).flags.v ==> Blank(n.ts[p1][j])
  {
    assert Tidy(n'.ts[p0]) && Tidy(n'.ts[p1]);
  }

  /** A new level-0 table alone. */
  lemma MapNeeds0(m: Mem, cs: Contents, root: nat, v2: nat, v1: nat, v0: nat, f: Flags, n: Mem)
    requires Sound(m, root) && v2 < ENTRIES && v1 < ENTRIES && v0 < ENTRIES && IsPointer(EntryOf(m.ts, root, R2(v2)))
    requires !EntryOf(m.ts, root, R1(v2, v1)).flags.v && |m.free| >= 2 && MapPage(m, cs, root, v2, v1, v0, f) == Next(n) && TidyTables(n.ts)
    requires EntryOf(n.ts, root, R0(v2, v1, v0)).flags == Marked(f)
    requires forall j :: 0 <= j < ENTRIES && j != v0 ==> !EntryOf(n.ts, root, R0(v2, v1, j)).flags.v
    ensures FitsLevel0(PageView(cs, m.free[1]), v0, f)
  {
    assert Holds(m.ts, root, R2(v2));
    var m1, p1, page := Mem(m.ts, m.free[1..]), EntryOf(m.ts, root, R2(v2)).ppn, m.free[1];
    var g := WalkCreate(m1, cs, root, v2, v1).value;
    assert page !in m.ts && p1 != root;
    assert g.ts[page] == PageView(cs, page) && At(g.ts, root, v2) == At(m.ts, root, v2) && At(g.ts, p1, v1) == TablePte(page);
    var e := MappedPte(g.ts[page][v0], f, m.free[0]);
    LeafSet(g, n, root, v2, p1, v1, page, v0, e, v0);
    forall j | 0 <= j < ENTRIES && j != v0 ensures Blank(PageView(cs, page)[j]) {
      LeafSet(g, n, root, v2, p1, v1, page, v0, e, j);
      assert !EntryOf(n.ts, root, R0(v2, v1, j)).flags.v;
    }
  }

  /** New tables on both levels. */
  lemma MapNeeds1(m: Mem, cs: Contents, root: nat, v2: nat, v1: nat, v0: nat, f: Flags, n: Mem)
    requires Sound(m, root) && v2 < ENTRIES && v1 < ENTRIES && v0 < ENTRIES && !EntryOf(m.ts, root, R2(v2)).flags.v
    requires MapPage(m, cs, root, v2, v1, v0, f) == Next(n) && |n.free| + 3 == |m.free| && TidyTables(n.ts)
    requires EntryOf(n.ts, root, R0(v2, v1, v0)).flags == Marked(f)
    requires forall j :: 0 <= j < ENTRIES && j != v1 ==> !EntryOf(n.ts, root, R1(v2, j)).flags.v
    requires forall j :: 0 <= j < ENTRIES && j != v0 ==> !EntryOf(n.ts, root, R0(v2, v1, j)).flags.v
    ensures FitsLevel1(PageView(cs, m.free[1]), v1) && FitsLevel0(PageView(cs, m.free[2]), v0, f)
  {
    var m1, p1, page, t := Mem(m.ts, m.free[1..]), m.free[1], m.free[2], PageView(cs, m.free[1]);
    var g := Grow(m1, cs, root, v2).value;
    assert p1 !in m.ts && page !in m.ts && root in m.ts;
    assert At(g.ts, root, v2) == TablePte(p1) && g.ts[p1] == t && g.free == m.free[2..];
    assert !t[v1].flags.v;
    var k := WalkCreate(m1, cs, root, v2, v1).value;
    assert k.ts[p1] == t[v1 := TablePte(page)] && k.ts[page] == PageView(cs, page) && At(k.ts, root, v2) == TablePte(p1);
    var e := MappedPte(k.ts[page][v0], f, m.free[0]);
    LeafSet(k, n, root, v2, p1, v1, page, v0, e, v0);
    forall j | 0 <= j < ENTRIES && j != v1 ensures Blank(t[j]) {
      LeafSet(k, n, root, v2, p1, v1, page, v0, e, j);
      assert !EntryOf(n.ts, root, R1(v2, j)).flags.v;
    }
    forall j | 0 <= j < ENTRIES && j != v0 ensures Blank(PageView(cs, page)[j]) {
      LeafSet(k, n, root, v2, p1, v1, page, v0, e, j);
      assert !EntryOf(n.ts, root, R0(v2, v1, j)).flags.v;
    }
  }

  lemma MapNeeds(m: Mem, cs: Contents, root: nat, v2: nat, v1: nat, v0: nat, f: Flags, n: Mem)
    requires Sound(m, root) && Walkable(m.ts, root, v2, v1) && v0 < ENTRIES && MapPage(m, cs, root, v2, v1, v0, f) == Next(n)
    requires MapRight(m, cs, root, v2, v1, v0, f)
    ensures MapFits(m, cs, root, v2, v1, v0, f)
  {
    if !EntryOf(m.ts, root, R1(v2, v1)).flags.v {
      forall j | 0 <= j < ENTRIES && j != v0 ensures !EntryOf(n.ts, root, R0(v2, v1, j)).flags.v {
        assert EntryOf(n.ts, root, R0(v2, v1, j)) == EntryOf(m.ts, root, R0(v2, v1, j));
      }
      if EntryOf(m.ts, root, R2(v2)).flags.v {
        MapNeeds0(m, cs, root, v2, v1, v0, f, n);
      } else {
        forall j | 0 <= j < ENTRIES && j != v1 ensures !EntryOf(n.ts, root, R1(v2, j)).flags.v {
          assert EntryOf(n.ts, root, R1(v2, j)) == EntryOf(m.ts, root, R1(v2, j));
        }
        MapNeeds1(m, cs, root, v2, v1, v0, f, n);
      }
    }
  }
}
