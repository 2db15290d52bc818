/**
 Exactly what a turn of memory_space_clone asks of the free pages that it takes for tables: all that is not written
 over must be blank, and the entry of the level-1 table for the new level-0 table must not be valid.
 */
module CloneFit {
  import opened Common
  import opened Sv39
  import opened Walk
  import opened Clone
  import opened Mapping
  import opened MapFit

  /** A page that can become a level-0 table; its entry v0 is written over if a page is copied. */
  predicate FitsCopy(t: Table, v0: nat, copied: bool) { BlankBut(t, v0) && v0 < ENTRIES && (copied || Blank(t[v0])) }

  /** The pages that the turn for page i takes for tables fit. */
  predicate TurnFits(w: World, parent: nat, child: nat, i: nat) {
    var root2, level1 := EntryOf(w.m.ts, child, R2(3)).flags.v, EntryOf(w.m.ts, child, R1(3, i / ENTRIES)).flags.v;
    var k := if root2 then 0 else 1;
    && (!root2 && w.m.free != [] ==> FitsLevel1(PageView(w.fr, w.m.free[0]), i / ENTRIES))
    && (!level1 && k < |w.m.free| ==>
          FitsCopy(PageView(w.fr, w.m.free[k]), i % ENTRIES, Copies(EntryOf(w.m.ts, parent, UserRef(i)))))
  }

  // Frames do not matter but for what they hold

  /** What Cloning says does not depend on what pages held that are no frames of parent or child and are not free. */
  lemma FramesOnly(w0: World, w0': World, parent: nat, main1: nat, child: nat, w: World, w': World, i: nat)
    requires Cloning(w0, parent, main1, child, w, i) == true && w0'.m == w0.m && w'.m == w.m && i <= USER_PAGES
    requires forall q :: q !in w0.m.free ==> Content(w0'.fr, q) == Content(w0.fr, q) && Content(w'.fr, q) == Content(w.fr, q)
    requires forall q :: q in w.m.free ==> PageView(w'.fr, q) == PageView(w0'.fr, q)
    requires forall r: Ref :: r.R0? && r.v2 == 3 && Holds(w.m.ts, child, r) ==>
               Content(w'.fr, EntryOf(w.m.ts, child, r).ppn) == Content(w.fr, EntryOf(w.m.ts, child, r).ppn)
    ensures Cloning(w0', parent, main1, child, w', i) == true
  {
    forall j | 0 <= j < i
      ensures CopyOf(EntryOf(w0.m.ts, parent, UserRef(j)), EntryOf(w.m.ts, child, UserRef(j)), w0'.fr, w'.fr) {
      var pe, ce := EntryOf(w0.m.ts, parent, UserRef(j)), EntryOf(w.m.ts, child, UserRef(j));
      assert CopyOf(pe, ce, w0.fr, w.fr);
      if Copies(pe) {
        ParentFrameKept(w0, parent, main1, w.fr, UserRef(j));
        assert UserRef(j).R0? && UserRef(j).v2 == 3;
        assert !pe.flags.g && Holds(w.m.ts, child, UserRef(j));
      }
    }
    assert Copied(w0', parent, child, w'.m.ts, w'.fr, i);
    assert ChildOk(w0', parent, child, w'.m) && NoneLost(w0', child, w'.m) && Spent(w0', parent, child, w'.m, i) by {
      assert ChildOk(w0, parent, child, w.m) && NoneLost(w0, child, w.m) && Spent(w0, parent, child, w.m, i);
    }
  }

  /** The contents with the entries that the turn writes over blanked. */
  function TurnBlanked(m: Mem, fr: Contents, child: nat, i: nat, copied: bool): Contents
    requires i < USER_PAGES
  {
    var root2, level1 := EntryOf(m.ts, child, R2(3)).flags.v, EntryOf(m.ts, child, R1(3, i / ENTRIES)).flags.v;
    var k := if root2 then 0 else 1;
    var fr1 := if !root2 && m.free != [] then Blanked(fr, m.free[0], i / ENTRIES) else fr;
    if !level1 && k < |m.free| && copied then Blanked(fr1, m.free[k], i % ENTRIES) else fr1
  }

  /** The turn takes the page for a table. */
  ghost predicate BecomesTable(m: Mem, child: nat, i: nat, q: nat) {
    exists j :: 0 <= j < NewTables(m.ts, child, 3, i / ENTRIES) && j < |m.free| && m.free[j] == q
  }

  /** Only such pages are touched. */
  lemma TurnBlankedElse(m: Mem, fr: Contents, child: nat, i: nat, copied: bool, q: nat)
    requires i < USER_PAGES && !BecomesTable(m, child, i, q)
    ensures var fr2 := TurnBlanked(m, fr, child, i, copied); Content(fr2, q) == Content(fr, q) && PageView(fr2, q) == PageView(fr, q)
  {
  }

  lemma TurnBlankedSame(m: Mem, fr: Contents, fr': Contents, child: nat, i: nat, copied: bool, q: nat)
    requires i < USER_PAGES && forall p :: p in m.free ==> PageView(fr, p) == PageView(fr', p)
    requires q in m.free
    ensures PageView(TurnBlanked(m, fr, child, i, copied), q) == PageView(TurnBlanked(m, fr', child, i, copied), q)
  {
  }

  lemma TurnBlankedClean(w: World, parent: nat, child: nat, i: nat)
    requires Unique(w.m.free) && i < USER_PAGES && TurnFits(w, parent, child, i)
    ensures TurnClean(World(w.m, TurnBlanked(w.m, w.fr, child, i, Copies(EntryOf(w.m.ts, parent, UserRef(i))))), child, i)
  {
    var root2, level1 := EntryOf(w.m.ts, child, R2(3)).flags.v, EntryOf(w.m.ts, child, R1(3, i / ENTRIES)).flags.v;
    var copied, k, free := Copies(EntryOf(w.m.ts, parent, UserRef(i))), if root2 then 0 else 1, w.m.free;
    var fr1 := if !root2 && free != [] then Blanked(w.fr, free[0], i / ENTRIES) else w.fr;
    var fr2 := TurnBlanked(w.m, w.fr, child, i, copied);
    if !root2 && free != [] {
      BlankedClean(w.fr, free[0], i / ENTRIES);
      if 1 < |free| { BlankedView(fr1, free[1], i % ENTRIES, free[0]); }
      assert Clean(fr2, free[0]);
    }
    if !level1 && k < |free| {
      BlankedView(w.fr, free[0], i / ENTRIES, free[k]);
      if copied { BlankedClean(fr1, free[k], i % ENTRIES); }
      assert Clean(fr2, free[k]);
    }
  }

  // A turn does not notice the entries that it writes over

  /** The contents before the turn for page i with those entries blanked. */
  function Before(w: World, fr: Contents, parent: nat, child: nat, i: nat): World
    requires i < USER_PAGES
  {
    World(w.m, TurnBlanked(w.m, fr, child, i, Copies(EntryOf(w.m.ts, parent, UserRef(i)))))
  }

  lemma BlankedCloning(w0: World, parent: nat, main1: nat, child: nat, w: World, i: nat)
    requires Cloning(w0, parent, main1, child, w, i) == true && i < USER_PAGES
    ensures Cloning(World(w0.m, Before(w, w0.fr, parent, child, i).fr), parent, main1, child, Before(w, w.fr, parent, child, i), i) == true
  {
    var copied := Copies(EntryOf(w.m.ts, parent, UserRef(i)));
    var w0', w' := World(w0.m, Before(w, w0.fr, parent, child, i).fr), Before(w, w.fr, parent, child, i);
    forall q | q !in w.m.free ensures Content(w0'.fr, q) == Content(w0.fr, q) && Content(w'.fr, q) == Content(w.fr, q) {
      TurnBlankedElse(w.m, w0.fr, child, i, copied, q);
      TurnBlankedElse(w.m, w.fr, child, i, copied, q);
    }
    forall q | q in w.m.free ensures PageView(w'.fr, q) == PageView(w0'.fr, q) && q in w0.m.free {
      TurnBlankedSame(w.m, w0.fr, w.fr, child, i, copied, q);
    }
    forall r: Ref | r.R0? && r.v2 == 3 && Holds(w.m.ts, child, r) ensures EntryOf(w.m.ts, child, r).ppn !in w.m.free {}
    FramesOnly(w0, w0', parent, main1, child, w, w', i);
  }

  /** Two memories that differ at most in the child's entry for page i, in its level-0 table. */
  predicate SameBut(n: Mem, n': Mem, child: nat, i: nat) {
    var p0 := LeafTable(n.ts, child, i);
    && n'.free == n.free && LeafTable(n'.ts, child, i) == p0 && p0 in n.ts && p0 in n'.ts && |n.ts[p0]| == |n'.ts[p0]| == ENTRIES
    && n'.ts == n.ts[p0 := n'.ts[p0]] && n'.ts[p0] == n.ts[p0][i % ENTRIES := n'.ts[p0][i % ENTRIES]]
  }

  lemma TurnWalkOver(w: World, parent: nat, child: nat, i: nat)
    requires Sound(w.m, child) == true && child in w.m.ts && |w.m.ts[child]| == ENTRIES && Walkable(w.m.ts, child, 3, i / ENTRIES) && i < USER_PAGES && TurnFits(w, parent, child, i)
    ensures var o, o' := WalkCreate(w.m, Before(w, w.fr, parent, child, i).fr, child, 3, i / ENTRIES), WalkCreate(w.m, w.fr, child, 3, i / ENTRIES);
            o == o' || (Copies(EntryOf(w.m.ts, parent, UserRef(i))) && o.Next? && o'.Next? && SameBut(o.value, o'.value, child, i))
  {
    var v1, copied, free := i / ENTRIES, Copies(EntryOf(w.m.ts, parent, UserRef(i))), w.m.free;
    var root2, level1 := EntryOf(w.m.ts, child, R2(3)).flags.v, EntryOf(w.m.ts, child, R1(3, v1)).flags.v;
    var k := if root2 then 0 else 1;
    var fr1 := if !root2 && free != [] then Blanked(w.fr, free[0], v1) else w.fr;
    if !root2 && free != [] {
      assert free[0] !in w.m.ts;
      WalkOver(w.m, w.fr, child, 3, v1);
    }
    assert WalkCreate(w.m, fr1, child, 3, v1) == WalkCreate(w.m, w.fr, child, 3, v1);
    if !level1 && k < |free| && copied {
      TurnBlankedClean(w, parent, child, i);
      CleanNoneValid(w.m, Blanked(fr1, free[k], i % ENTRIES), child, 3, v1);
      NewTableSameBut(w.m, fr1, child, i, k);
    }
  }

  lemma NewTableSameBut(m: Mem, fr: Contents, child: nat, i: nat, k: nat)
    requires Sound(m, child) && Walkable(m.ts, child, 3, i / ENTRIES) && NewTables(m.ts, child, 3, i / ENTRIES) == k + 1 && k < |m.free|
    requires WalkNoneValid(m, Blanked(fr, m.free[k], i % ENTRIES), child, 3, i / ENTRIES)
    ensures var o, o' := WalkCreate(m, Blanked(fr, m.free[k], i % ENTRIES), child, 3, i / ENTRIES), WalkCreate(m, fr, child, 3, i / ENTRIES);
            o.Next? && o'.Next? && SameBut(o.value, o'.value, child, i)
  {
    var fr' := Blanked(fr, m.free[k], i % ENTRIES);
    WalkAdds(m, fr', fr, child, 3, i / ENTRIES, k);
    var t, v0 := PageView(fr, m.free[k]), i % ENTRIES;
    assert t[v0 := NULL_PTE][v0 := t[v0]] == t;
  }

  /** The copy writes over the entry. */
  lemma CopyOver(n: Mem, n': Mem, fr: Contents, fr': Contents, parent: nat, child: nat, i: nat, pe: Pte)
    requires EntryOf(n.ts, parent, UserRef(i)) == pe == EntryOf(n'.ts, parent, UserRef(i))
    requires Copies(pe) ==> Content(fr, pe.ppn) == Content(fr', pe.ppn)
    requires n == n' || (Copies(pe) && SameBut(n, n', child, i))
    ensures var o, o' := CloneLeaf(World(n, fr), parent, child, i), CloneLeaf(World(n', fr'), parent, child, i);
            && (o.Next? <==> o'.Next?) && (o.Panic? <==> o'.Panic?)
            && (o.Next? ==>
                  && o'.value.m == o.value.m
                  && if Copies(pe) then
                       && n.free != [] && o.value.m.free == n.free[1..]
                       && o.value.fr == fr[n.free[0] := Content(fr, pe.ppn)] && o'.value.fr == fr'[n.free[0] := Content(fr, pe.ppn)]
                     else o.value.m.free == n.free && o.value.fr == fr && o'.value.fr == fr')
  {
    if Copies(pe) && n.free != [] && n != n' {
      var p0, v0, e := LeafTable(n.ts, child, i), i % ENTRIES, Pte(Widened(pe.flags), n.free[0]);
      assert n.ts[p0][v0 := n'.ts[p0][v0]][v0 := e] == n.ts[p0][v0 := e];
      assert SetEntry(n'.ts, p0, v0, e) == SetEntry(n.ts, p0, v0, e);
    }
  }

  /** What the walk of a turn leaves for the copy. */
  ghost predicate ReadyToCopy(w0: World, child: nat, n: Mem, i: nat) {
    && OldKept(w0, n.ts) && FreeApart(n) && IsPage(n.ts, child) && IsPointer(At(n.ts, child, 3))
    && IsPage(n.ts, LeafTable(n.ts, child, i)) && LeafTable(n.ts, child, i) in w0.m.free
    && forall p :: p in n.ts ==> |n.ts[p]| == ENTRIES
  }

  lemma WalkedReady(w0: World, parent: nat, main1: nat, child: nat, w: World, i: nat, n: Mem)
    requires Walked(w0, parent, main1, child, w, i) == true && (n == w.m || SameBut(w.m, n, child, i))
    ensures ReadyToCopy(w0, child, n, i)
  {
    assert Holds(w.m.ts, child, R1(3, i / ENTRIES)) && R1(3, i / ENTRIES).v2 == 3;
    NotOld(w0, parent, LeafTable(w.m.ts, child, i));
  }

  lemma ReadySame(w0: World, w0': World, child: nat, n: Mem, i: nat)
    requires ReadyToCopy(w0, child, n, i) && w0'.m == w0.m
    ensures ReadyToCopy(w0', child, n, i) == true
  {
  }

  lemma ChildFacts(w0: World, parent: nat, main1: nat, child: nat, w: World, i: nat)
    requires Cloning(w0, parent, main1, child, w, i) == true && i < USER_PAGES
    ensures child in w.m.ts && |w.m.ts[child]| == ENTRIES && Sound(w.m, child) == true && Walkable(w.m.ts, child, 3, i / ENTRIES)
  {
    assert MemOk(w.m, child);
    ChildWalkable(w0, parent, child, w.m, i);
  }

  lemma TurnWalks(w0: World, parent: nat, main1: nat, child: nat, w: World, i: nat)
    requires Cloning(w0, parent, main1, child, w, i) == true && i < USER_PAGES && TurnFits(w, parent, child, i)
    ensures child in w.m.ts && |w.m.ts[child]| == ENTRIES && Sound(w.m, child) == true && Walkable(w.m.ts, child, 3, i / ENTRIES)
    ensures var o := WalkCreate(w.m, w.fr, child, 3, i / ENTRIES); !o.Wild? && (o.Next? ==> ReadyToCopy(w0, child, o.value, i) == true)
  {
    ChildFacts(w0, parent, main1, child, w, i);
    var v0, v := World(w0.m, Before(w, w0.fr, parent, child, i).fr), Before(w, w.fr, parent, child, i);
    BlankedCloning(w0, parent, main1, child, w, i);
    StillFree(w0, parent, main1, child, w, i);
    TurnBlankedClean(w, parent, child, i);
    WalkTurn(v0, parent, main1, child, v, i);
    TurnWalkOver(w, parent, child, i);
    var o, o' := WalkCreate(v.m, v.fr, child, 3, i / ENTRIES), WalkCreate(w.m, w.fr, child, 3, i / ENTRIES);
    if o.Next? {
      WalkedReady(v0, parent, main1, child, World(o.value, v.fr), i, o'.value);
      ReadySame(v0, w0, child, o'.value, i);
    }
  }

  /** The blanked world after the walk, as the parent sees it. */
  lemma ParentSame(w0: World, parent: nat, main1: nat, child: nat, w: World, i: nat, n: Mem)
    requires Walked(w0, parent, main1, child, w, i) && (n == w.m || SameBut(w.m, n, child, i))
    ensures EntryOf(w.m.ts, parent, UserRef(i)) == EntryOf(w0.m.ts, parent, UserRef(i)) == EntryOf(n.ts, parent, UserRef(i))
  {
    assert Holds(w.m.ts, child, R1(3, i / ENTRIES)) && R1(3, i / ENTRIES).v2 == 3;
    NotOld(w0, parent, LeafTable(w.m.ts, child, i));
    SpaceKept(w0, parent, w.m.ts);
    SpaceKept(w0, parent, n.ts);
  }

  /** The turn and the same turn with those entries blanked end alike, but for what the pages for tables held. */
  ghost predicate EndAlike(w: World, child: nat, i: nat, o: Outcome<World>, o': Outcome<World>) {
    && (o.Next? <==> o'.Next?) && (o.Panic? <==> o'.Panic?)
    && (o.Next? ==>
          && o'.value.m == o.value.m
          && (forall q :: q in o.value.m.free ==> q in w.m.free && PageView(o'.value.fr, q) == PageView(w.fr, q))
          && forall q :: !BecomesTable(w.m, child, i, q) ==> Content(o'.value.fr, q) == Content(o.value.fr, q))
  }

  lemma LeafAlike(w0: World, parent: nat, main1: nat, child: nat, w: World, i: nat, fr: Contents, n: Mem, n': Mem)
    requires ParentOk(w0, parent, main1) && i < USER_PAGES && Unique(n.free) && (forall q :: q in n.free ==> q in w.m.free) && Suffix(w.m.free, w0.m.free)
    requires var pe := EntryOf(w0.m.ts, parent, UserRef(i)); EntryOf(n.ts, parent, UserRef(i)) == pe == EntryOf(n'.ts, parent, UserRef(i))
    requires n == n' || (Copies(EntryOf(w0.m.ts, parent, UserRef(i))) && SameBut(n, n', child, i))
    requires forall q :: !BecomesTable(w.m, child, i, q) ==> Content(fr, q) == Content(w.fr, q)
    ensures EndAlike(w, child, i, CloneLeaf(World(n, fr), parent, child, i), CloneLeaf(World(n', w.fr), parent, child, i))
  {
    var pe := EntryOf(w0.m.ts, parent, UserRef(i));
    if Copies(pe) {
      assert FramesKept(w0, w0.fr);
      ParentFrameKept(w0, parent, main1, w0.fr, UserRef(i));
      assert !BecomesTable(w.m, child, i, pe.ppn);
    }
    CopyOver(n, n', fr, w.fr, parent, child, i, pe);
  }

  lemma TurnAlike(w0: World, parent: nat, main1: nat, child: nat, w: World, i: nat)
    requires Cloning(w0, parent, main1, child, w, i) && i < USER_PAGES && TurnFits(w, parent, child, i) && child in w.m.ts && |w.m.ts[child]| == ENTRIES
    requires var w' := Before(w, w.fr, parent, child, i);
             var o := WalkCreate(w.m, w'.fr, child, 3, i / ENTRIES);
             o.Next? ==> Walked(World(w0.m, Before(w, w0.fr, parent, child, i).fr), parent, main1, child, World(o.value, w'.fr), i)
    ensures EndAlike(w, child, i, ClonePage(Before(w, w.fr, parent, child, i), parent, child, i), ClonePage(w, parent, child, i))
  {
    var w' := Before(w, w.fr, parent, child, i);
    ChildWalkable(w0, parent, child, w.m, i);
    TurnWalkOver(w, parent, child, i);
    var o, o' := WalkCreate(w.m, w'.fr, child, 3, i / ENTRIES), WalkCreate(w.m, w.fr, child, 3, i / ENTRIES);
    if o.Next? {
      ParentSame(World(w0.m, Before(w, w0.fr, parent, child, i).fr), parent, main1, child, World(o.value, w'.fr), i, o'.value);
      SpaceKept(w0, parent, w.m.ts);
      forall q | !BecomesTable(w.m, child, i, q) ensures Content(w'.fr, q) == Content(w.fr, q) {
        TurnBlankedElse(w.m, w.fr, child, i, Copies(EntryOf(w.m.ts, parent, UserRef(i))), q);
      }
      LeafAlike(w0, parent, main1, child, w, i, w'.fr, o.value, o'.value);
    }
  }

  /** The pages that the walk takes are tables of the child. */
  lemma WalkedTables(m: Mem, fr: Contents, child: nat, i: nat, n: Mem, q: nat)
    requires Sound(m, child) && Walkable(m.ts, child, 3, i / ENTRIES) && WalkNoneValid(m, fr, child, 3, i / ENTRIES)
    requires WalkCreate(m, fr, child, 3, i / ENTRIES) == Next(n) && BecomesTable(m, child, i, q)
    ensures PointsTo(EntryOf(n.ts, child, R2(3)), q) || PointsTo(EntryOf(n.ts, child, R1(3, i / ENTRIES)), q)
  {
    WalkSteps(m, fr, child, 3, i / ENTRIES);
  }

  /** And stay so, as only the entry for page i is set after the walk. */
  lemma NewTablesStay(w0: World, parent: nat, main1: nat, child: nat, w: World, i: nat, w': World, r: Ref)
    requires Walked(w0, parent, main1, child, w, i) && CloneLeaf(w, parent, child, i) == Next(w') && !r.R0?
    ensures EntryOf(w'.m.ts, child, r) == EntryOf(w.m.ts, child, r)
  {
    SpaceKept(w0, parent, w.m.ts);
    if Copies(EntryOf(w0.m.ts, parent, UserRef(i))) { CopyKeeps(w0, parent, main1, child, w, i); }
  }

  /** So they are no frames of it. */
  lemma NewTablesNoFrames(w0: World, parent: nat, main1: nat, child: nat, w: World, i: nat, w': World, q: nat, r: Ref)
    requires Cloning(w0, parent, main1, child, w, i) == true && i < USER_PAGES && TurnClean(w, child, i) && child in w.m.ts && |w.m.ts[child]| == ENTRIES
    requires ClonePage(w, parent, child, i) == Next(w') && Cloning(w0, parent, main1, child, w', i + 1) == true && BecomesTable(w.m, child, i, q)
    requires r.R0? && Holds(w'.m.ts, child, r)
    ensures EntryOf(w'.m.ts, child, r).ppn != q
  {
    WalkTurn(w0, parent, main1, child, w, i);
    var n := WalkCreate(w.m, w.fr, child, 3, i / ENTRIES).value;
    assert MemOk(w.m, child);
    ChildWalkable(w0, parent, child, w.m, i);
    CleanNoneValid(w.m, w.fr, child, 3, i / ENTRIES);
    WalkedTables(w.m, w.fr, child, i, n, q);
    NewTablesStay(w0, parent, main1, child, World(n, w.fr), i, w', R2(3));
    NewTablesStay(w0, parent, main1, child, World(n, w.fr), i, w', R1(3, i / ENTRIES));
    assert Unshared(w'.m.ts, child);
    assert Holds(w'.m.ts, child, R2(3)) == IsPointer(EntryOf(n.ts, child, R2(3)));
    assert Holds(w'.m.ts, child, R1(3, i / ENTRIES)) == IsPointer(EntryOf(n.ts, child, R1(3, i / ENTRIES)));
  }

  /** What is free now was free before the call, and holds what it held. */
  lemma StillFree(w0: World, parent: nat, main1: nat, child: nat, w: World, i: nat)
    requires Cloning(w0, parent, main1, child, w, i) == true
    ensures Unique(w.m.free) && forall q :: q in w.m.free ==> q in w0.m.free && PageView(w.fr, q) == PageView(w0.fr, q)
  {
  }

  /** Back from the blanked world v0, v, v' to the world there is. */
  lemma TurnBack(w0: World, parent: nat, main1: nat, child: nat, w: World, i: nat, v0: World, v: World, v': World, w': World)
    requires Cloning(w0, parent, main1, child, w, i) == true && i < USER_PAGES && TurnClean(v, child, i)
    requires child in w.m.ts && |w.m.ts[child]| == ENTRIES && v == Before(w, w.fr, parent, child, i)
    requires v0 == World(w0.m, Before(w, w0.fr, parent, child, i).fr) && Cloning(v0, parent, main1, child, v, i) == true
    requires ClonePage(v, parent, child, i) == Next(v') && EndAlike(w, child, i, Next(v'), Next(w'))
    requires Cloning(v0, parent, main1, child, v', i + 1) == true
    ensures Cloning(w0, parent, main1, child, w', i + 1) == true
  {
    StillFree(w0, parent, main1, child, w, i);
    forall q | q !in w0.m.free ensures Content(w0.fr, q) == Content(v0.fr, q) && Content(w'.fr, q) == Content(v'.fr, q) {
      TurnBlankedElse(w.m, w0.fr, child, i, Copies(EntryOf(w.m.ts, parent, UserRef(i))), q);
    }
    forall r: Ref | r.R0? && r.v2 == 3 && Holds(v'.m.ts, child, r)
      ensures Content(w'.fr, EntryOf(v'.m.ts, child, r).ppn) == Content(v'.fr, EntryOf(v'.m.ts, child, r).ppn) {
      var q := EntryOf(v'.m.ts, child, r).ppn;
      if BecomesTable(w.m, child, i, q) { NewTablesNoFrames(v0, parent, main1, child, v, i, v', q, r); }
    }
    FramesOnly(v0, w0, parent, main1, child, v', w', i + 1);
  }

  /**
   One turn of the loop that takes pages for tables that fit: it keeps everything Cloning says for one page more, and
   panics only if there were not enough free pages for that.
   */
  lemma TurnKeeps(w0: World, parent: nat, main1: nat, child: nat, w: World, i: nat)
    requires Cloning(w0, parent, main1, child, w, i) == true && i < USER_PAGES && TurnFits(w, parent, child, i)
    ensures child in w.m.ts && |w.m.ts[child]| == ENTRIES
    ensures var o := ClonePage(w, parent, child, i);
            && !o.Wild?
            && if o.Next? then Cloning(w0, parent, main1, child, o.value, i + 1) == true
               else |w0.m.free| < Needed(w0.m.ts, parent, i + 1)
  {
    assert MemOk(w.m, child);
    var v0, v := World(w0.m, Before(w, w0.fr, parent, child, i).fr), Before(w, w.fr, parent, child, i);
    BlankedCloning(w0, parent, main1, child, w, i);
    TurnBlankedClean(w, parent, child, i);
    WalkTurn(v0, parent, main1, child, v, i);
    ClonePageKeeps(v0, parent, main1, child, v, i);
    TurnAlike(w0, parent, main1, child, w, i);
    if ClonePage(w, parent, child, i).Next? {
      TurnBack(w0, parent, main1, child, w, i, v0, v, ClonePage(v, parent, child, i).value, ClonePage(w, parent, child, i).value);
    }
  }

  // What a turn that went well shows about the pages it took

  /** The entries of a new level-0 table are what the page held, but for the copy. */
  lemma NewLevel0(m: Mem, fr: Contents, parent: nat, child: nat, i: nat, w: World, j: nat)
    requires Sound(m, child) && i < USER_PAGES && IsPointer(EntryOf(m.ts, child, R2(3))) && m.free != [] && j < ENTRIES
    requires !EntryOf(m.ts, child, R1(3, i / ENTRIES)).flags.v
    requires var p1 := EntryOf(m.ts, child, R2(3)).ppn;
             && p1 in m.ts && i / ENTRIES < |m.ts[p1]| && Grow(m, fr, p1, i / ENTRIES).Next?
             && CloneLeaf(World(Grow(m, fr, p1, i / ENTRIES).value, fr), parent, child, i) == Next(w)
             && (j != i % ENTRIES || !Copies(EntryOf(Grow(m, fr, p1, i / ENTRIES).value.ts, parent, UserRef(i))))
    ensures EntryOf(w.m.ts, child, R0(3, i / ENTRIES, j)) == Seen(PageView(fr, m.free[0])[j])
    ensures m.free[0] in w.m.ts && |w.m.ts[m.free[0]]| == ENTRIES && w.m.ts[m.free[0]][j] == PageView(fr, m.free[0])[j]
  {
    assert Holds(m.ts, child, R2(3));
    var p1, page, t := EntryOf(m.ts, child, R2(3)).ppn, m.free[0], PageView(fr, m.free[0]);
    var n := Grow(m, fr, p1, i / ENTRIES).value;
    assert p1 != child && page !in m.ts;
    assert n.ts[page] == t && At(n.ts, child, 3) == At(m.ts, child, 3) && At(n.ts, p1, i / ENTRIES) == TablePte(page);
    assert EntryOf(n.ts, child, R1(3, i / ENTRIES)) == TablePte(page);
  }

  /** Growing a table of the child leaves the parent as it is. */
  lemma GrowKeepsParent(w0: World, parent: nat, m: Mem, cs: Contents, p: nat, i: nat)
    requires MemOk(w0.m, parent) && OldKept(w0, m.ts) && p in w0.m.free && Suffix(m.free, w0.m.free)
    requires p in m.ts && i < |m.ts[p]| && Grow(m, cs, p, i).Next? && forall q :: q in m.ts ==> |m.ts[q]| == ENTRIES
    ensures SameEntries(w0.m.ts, Grow(m, cs, p, i).value.ts, parent) && OldKept(w0, Grow(m, cs, p, i).value.ts)
  {
    GrowKeepsOld(w0, parent, m, cs, p, i);
    SpaceKept(w0, parent, Grow(m, cs, p, i).value.ts);
  }

  /** What the level-0 table of a turn that went well held before. */
  lemma NeedsLevel0(w0: World, parent: nat, child: nat, m: Mem, fr: Contents, i: nat, w: World)
    requires Sound(m, child) && MemOk(w0.m, parent) && OldKept(w0, m.ts) && Suffix(m.free, w0.m.free) && i < USER_PAGES && i % ENTRIES == 0
    requires IsPointer(EntryOf(m.ts, child, R2(3))) && EntryOf(m.ts, child, R2(3)).ppn in w0.m.free && m.free != []
    requires !EntryOf(m.ts, child, R1(3, i / ENTRIES)).flags.v
    requires var p1 := EntryOf(m.ts, child, R2(3)).ppn;
             && p1 in m.ts && i / ENTRIES < |m.ts[p1]| && Grow(m, fr, p1, i / ENTRIES).Next?
             && CloneLeaf(World(Grow(m, fr, p1, i / ENTRIES).value, fr), parent, child, i) == Next(w)
    requires Copied(w0, parent, child, w.m.ts, w.fr, i + 1) == true && TidyTables(w.m.ts)
    ensures FitsCopy(PageView(fr, m.free[0]), i % ENTRIES, Copies(EntryOf(w0.m.ts, parent, UserRef(i))))
  {
    var p1, t := EntryOf(m.ts, child, R2(3)).ppn, PageView(fr, m.free[0]);
    var copies := Copies(EntryOf(w0.m.ts, parent, UserRef(i)));
    GrowKeepsParent(w0, parent, m, fr, p1, i / ENTRIES);
    forall j | (if copies then 1 else 0) <= j < ENTRIES ensures Blank(t[j]) {
      NewLevel0(m, fr, parent, child, i, w, j);
      NotCopied(w0, parent, child, w, i, j);
    }
  }

  lemma NotCopied(w0: World, parent: nat, child: nat, w: World, i: nat, j: nat)
    requires Copied(w0, parent, child, w.m.ts, w.fr, i + 1) && i % ENTRIES == 0 && j < ENTRIES
    requires j == 0 ==> !Copies(EntryOf(w0.m.ts, parent, UserRef(i)))
    ensures EntryOf(w.m.ts, child, R0(3, i / ENTRIES, j)) == NULL_PTE
  {
    if j == 0 {
      assert CopyOf(EntryOf(w0.m.ts, parent, UserRef(i)), EntryOf(w.m.ts, child, UserRef(i)), w0.fr, w.fr);
    } else {
      assert UserRef(i + j) == R0(3, i / ENTRIES, j);
      forall k | 0 <= k < i + 1 ensures R0(3, i / ENTRIES, j) != UserRef(k) { UserRefsDiffer(i + j, k); }
    }
  }

  /** The first turn when the page for its level-1 table has a valid first entry: no level-0 table is taken. */
  lemma FirstTurnTakes(w: World, parent: nat, child: nat, w': World)
    requires Sound(w.m, child) && !EntryOf(w.m.ts, child, R2(3)).flags.v && ClonePage(w, parent, child, 0) == Next(w')
    ensures w.m.free != []
    ensures var copy := if Copies(EntryOf(Grow(w.m, w.fr, child, 3).value.ts, parent, UserRef(0))) then 1 else 0;
            |w'.m.free| + copy + 1 != |w.m.free| ==> !PageView(w.fr, w.m.free[0])[0].flags.v
  {
    var page, t, g := w.m.free[0], PageView(w.fr, w.m.free[0]), Grow(w.m, w.fr, child, 3).value;
    assert page !in w.m.ts;
    assert At(g.ts, child, 3) == TablePte(page) && g.ts[page] == t;
  }

  /** Otherwise the entries of that page show in the child. */
  lemma FirstTurnShows(w: World, parent: nat, child: nat, w': World, k: nat)
    requires Sound(w.m, child) && !EntryOf(w.m.ts, child, R2(3)).flags.v && ClonePage(w, parent, child, 0) == Next(w')
    requires w.m.free != [] && !PageView(w.fr, w.m.free[0])[0].flags.v && 1 <= k < ENTRIES
    ensures EntryOf(w'.m.ts, child, R1(3, k)) == Seen(PageView(w.fr, w.m.free[0])[k])
    ensures w.m.free[0] in w'.m.ts && |w'.m.ts[w.m.free[0]]| == ENTRIES && w'.m.ts[w.m.free[0]][k] == PageView(w.fr, w.m.free[0])[k]
  {
    var page, t, g := w.m.free[0], PageView(w.fr, w.m.free[0]), Grow(w.m, w.fr, child, 3).value;
    assert page !in w.m.ts;
    assert At(g.ts, child, 3) == TablePte(page) && g.ts[page] == t;
    assert g.free != [] && g.free[0] == w.m.free[1];
    assert w.m.free[1] !in w.m.ts && w.m.free[1] != page;
    var n := WalkCreate(w.m, w.fr, child, 3, 0).value;
    assert n.ts[page] == t[0 := TablePte(w.m.free[1])] && At(n.ts, child, 3) == TablePte(page);
    assert EntryOf(n.ts, child, R1(3, 0)) == TablePte(w.m.free[1]);
  }

  lemma NeedsFirst(w0: World, parent: nat, child: nat, w: World, w': World)
    requires Sound(w.m, child) && MemOk(w0.m, parent) && OldKept(w0, w.m.ts) && Suffix(w.m.free, w0.m.free) && child in w0.m.free
    requires !EntryOf(w.m.ts, child, R2(3)).flags.v && ClonePage(w, parent, child, 0) == Next(w')
    requires |w'.m.free| + 2 + Mapped(w0.m.ts, parent, 1) == |w.m.free|
    ensures w.m.free != [] && !PageView(w.fr, w.m.free[0])[0].flags.v
  {
    FirstTurnTakes(w, parent, child, w');
    GrowKeepsParent(w0, parent, w.m, w.fr, child, 3);
    assert Mapped(w0.m.ts, parent, 1) == Mapped(w0.m.ts, parent, 0) + if Copies(EntryOf(w0.m.ts, parent, UserRef(0))) then 1 else 0;
  }

  /** The page for the level-1 table. */
  lemma NeedsLevel1(w0: World, parent: nat, child: nat, w: World, w': World)
    requires Sound(w.m, child) && MemOk(w0.m, parent) && OldKept(w0, w.m.ts) && Suffix(w.m.free, w0.m.free) && child in w0.m.free
    requires !EntryOf(w.m.ts, child, R2(3)).flags.v && ClonePage(w, parent, child, 0) == Next(w')
    requires |w'.m.free| + 2 + Mapped(w0.m.ts, parent, 1) == |w.m.free|
    requires TidyTables(w'.m.ts) && forall k :: 1 <= k < ENTRIES ==> !EntryOf(w'.m.ts, child, R1(3, k)).flags.v
    ensures w.m.free != [] && FitsLevel1(PageView(w.fr, w.m.free[0]), 0) == true
  {
    NeedsFirst(w0, parent, child, w, w');
    forall k | 1 <= k < ENTRIES ensures Blank(PageView(w.fr, w.m.free[0])[k]) { FirstTurnShows(w, parent, child, w', k); }
  }

  /** The pages and tables of the child after the first turn. */
  lemma SpentFirst(w0: World, parent: nat, child: nat, m: Mem, m': Mem)
    requires Spent(w0, parent, child, m, 0) && Spent(w0, parent, child, m', 1)
    ensures !EntryOf(m.ts, child, R2(3)).flags.v && |m'.free| + 2 + Mapped(w0.m.ts, parent, 1) == |m.free|
    ensures forall k :: 1 <= k < ENTRIES ==> !EntryOf(m'.ts, child, R1(3, k)).flags.v
  {
  }

  /** The child with its level-1 table. */
  lemma FirstGrown(w0: World, parent: nat, child: nat, w: World)
    requires Sound(w.m, child) && MemOk(w0.m, parent) && OldKept(w0, w.m.ts) && Suffix(w.m.free, w0.m.free) && child in w0.m.free
    requires !EntryOf(w.m.ts, child, R2(3)).flags.v && w.m.free != [] && FitsLevel1(PageView(w.fr, w.m.free[0]), 0)
    ensures var g := Grow(w.m, w.fr, child, 3);
            && g.Next? && Sound(g.value, child) == true && OldKept(w0, g.value.ts) == true && Suffix(g.value.free, w0.m.free) == true
            && g.value.free == w.m.free[1..] && EntryOf(g.value.ts, child, R2(3)) == TablePte(w.m.free[0])
            && EntryOf(g.value.ts, child, R2(3)).ppn in g.value.ts && |g.value.ts[w.m.free[0]]| == ENTRIES
            && !EntryOf(g.value.ts, child, R1(3, 0)).flags.v
  {
    GrowRoot(w.m, w.fr, child, 3);
    GrowKeepsParent(w0, parent, w.m, w.fr, child, 3);
    SuffixTail(w.m.free, w0.m.free);
  }

  /** The first turn. */
  lemma FirstTurnNeeds(w0: World, parent: nat, child: nat, w: World, w': World)
    requires ChildOk(w0, parent, child, w.m) && MemOk(w0.m, parent) && OldKept(w0, w.m.ts) && Spent(w0, parent, child, w.m, 0)
    requires ClonePage(w, parent, child, 0) == Next(w') && EntryOf(w.m.ts, parent, UserRef(0)) == EntryOf(w0.m.ts, parent, UserRef(0))
    requires Spent(w0, parent, child, w'.m, 1) && Copied(w0, parent, child, w'.m.ts, w'.fr, 1) == true && TidyTables(w'.m.ts)
    ensures TurnFits(w, parent, child, 0)
  {
    SpentFirst(w0, parent, child, w.m, w'.m);
    NeedsLevel1(w0, parent, child, w, w');
    FirstGrown(w0, parent, child, w);
    var g := Grow(w.m, w.fr, child, 3).value;
    if |w.m.free| > 1 {
      assert w.m.free[0] == w0.m.free[|w0.m.free| - |w.m.free|] && g.free[0] == w.m.free[1];
      NeedsLevel0(w0, parent, child, g, w.fr, 0, w');
    }
  }

  /** A later one. */
  lemma LaterTurnNeeds(w0: World, parent: nat, child: nat, w: World, i: nat, w': World)
    requires ChildOk(w0, parent, child, w.m) && MemOk(w0.m, parent) && OldKept(w0, w.m.ts) && Spent(w0, parent, child, w.m, i)
    requires 0 < i < USER_PAGES && ClonePage(w, parent, child, i) == Next(w') && Copied(w0, parent, child, w'.m.ts, w'.fr, i + 1) == true
    requires TidyTables(w'.m.ts)
    ensures TurnFits(w, parent, child, i)
  {
    ChildWalkable(w0, parent, child, w.m, i);
    if !EntryOf(w.m.ts, child, R1(3, i / ENTRIES)).flags.v {
      SpaceKept(w0, parent, w.m.ts);
      assert Holds(w.m.ts, child, R2(3)) && R2(3).v2 == 3;
      assert Taken(w0.m.free, w.m.free, EntryOf(w.m.ts, child, R2(3)).ppn);
      if w.m.free != [] { NeedsLevel0(w0, parent, child, w.m, w.fr, i, w'); }
    }
  }

  lemma TurnNeeds(w0: World, parent: nat, main1: nat, child: nat, w: World, i: nat, w': World)
    requires Cloning(w0, parent, main1, child, w, i) && i < USER_PAGES && child in w.m.ts && |w.m.ts[child]| == ENTRIES
    requires ClonePage(w, parent, child, i) == Next(w') && Cloning(w0, parent, main1, child, w', i + 1)
    ensures TurnFits(w, parent, child, i)
  {
    SpaceKept(w0, parent, w.m.ts);
    if i == 0 { FirstTurnNeeds(w0, parent, child, w, w'); } else { LaterTurnNeeds(w0, parent, child, w, i, w'); }
  }

  /** The turn for page i went well: what held for i pages holds for one more. */
  ghost predicate TurnRight(w0: World, parent: nat, main1: nat, child: nat, w: World, i: nat)
    requires child in w.m.ts && |w.m.ts[child]| == ENTRIES
  {
    var o := ClonePage(w, parent, child, i);
    o.Next? && Cloning(w0, parent, main1, child, o.value, i + 1)
  }

  /** With enough free pages, a turn goes well exactly if the pages that it takes for tables fit. */
  lemma TurnExactly(w0: World, parent: nat, main1: nat, child: nat, w: World, i: nat)
    requires Cloning(w0, parent, main1, child, w, i) == true && i < USER_PAGES && |w0.m.free| >= Needed(w0.m.ts, parent, i + 1)
    ensures child in w.m.ts && |w.m.ts[child]| == ENTRIES
    ensures TurnRight(w0, parent, main1, child, w, i) <==> TurnFits(w, parent, child, i)
  {
    assert MemOk(w.m, child);
    if TurnFits(w, parent, child, i) { TurnKeeps(w0, parent, main1, child, w, i); }
    if TurnRight(w0, parent, main1, child, w, i) { TurnNeeds(w0, parent, main1, child, w, i, ClonePage(w, parent, child, i).value); }
  }

  // Which pages cloning takes for tables

  /** The pages that the turn for page i takes for tables fit, by their place in the free list before the call. */
  predicate FitsAt(w0: World, parent: nat, i: nat) {
    var n := Needed(w0.m.ts, parent, i);
    var k := if i == 0 then n + 1 else n;
    && (i == 0 && n < |w0.m.free| ==> FitsLevel1(PageView(w0.fr, w0.m.free[n]), 0))
    && (i % ENTRIES == 0 && k < |w0.m.free| ==>
          FitsCopy(PageView(w0.fr, w0.m.free[k]), 0, Copies(EntryOf(w0.m.ts, parent, UserRef(i)))))
  }

  lemma TurnFitsAt(w0: World, parent: nat, main1: nat, child: nat, w: World, i: nat)
    requires Cloning(w0, parent, main1, child, w, i) && i < USER_PAGES
    ensures TurnFits(w, parent, child, i) <==> FitsAt(w0, parent, i)
  {
    SpaceKept(w0, parent, w.m.ts);
    var n := Needed(w0.m.ts, parent, i);
    assert w.m.free == w0.m.free[n..];
    forall j | 0 <= j < |w.m.free| ensures w.m.free[j] == w0.m.free[n + j] && PageView(w.fr, w.m.free[j]) == PageView(w0.fr, w0.m.free[n + j]) {
      assert w.m.free[j] in w.m.free;
    }
    assert EntryOf(w.m.ts, child, R1(3, i / ENTRIES)).flags.v <==> i / ENTRIES * ENTRIES < i;
    assert EntryOf(w.m.ts, parent, UserRef(i)) == EntryOf(w0.m.ts, parent, UserRef(i));
  }
}
