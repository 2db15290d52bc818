/**
 What memory_space_clone achieves for all inputs: what the child maps, which pages it takes, when it panics, and
 that reclaiming the child gives back every page but its root.
 */
module CloneTheorems {
  import opened Common
  import opened Sv39
  import opened Walk
  import opened Clone
  import opened CloneFit
  import opened Reclaim

  // The start

  /** The page that becomes the root of a clone. */
  predicate StartClean(w0: World) { w0.m.free != [] ==> RootClean(PageView(w0.fr, w0.m.free[0])) }

  /** The new root has the parent's global part and nothing else. */
  lemma RootEntries(w0: World, parent: nat, main1: nat)
    requires ParentOk(w0, parent, main1) && w0.m.free != [] && StartClean(w0)
    ensures var ts := StartClone(w0, main1).m.ts;
            forall r: Ref :: EntryOf(ts, w0.m.free[0], r) == if r.v2 < 3 then EntryOf(w0.m.ts, parent, r) else NULL_PTE
  {
    var child, ts := w0.m.free[0], StartClone(w0, main1).m.ts;
    assert NotHeld(w0.m.ts, parent, child);
    forall r: Ref ensures EntryOf(ts, child, r) == if r.v2 < 3 then EntryOf(w0.m.ts, parent, r) else NULL_PTE {
      assert At(ts, child, r.v2) == if r.v2 < 3 then EntryOf(w0.m.ts, parent, R2(r.v2)) else NULL_PTE;
      assert Holds(w0.m.ts, parent, R2(r.v2)) ==> EntryOf(w0.m.ts, parent, R2(r.v2)).ppn != child;
      if r.R0? { assert Holds(w0.m.ts, parent, R1(r.v2, r.v1)) ==> EntryOf(w0.m.ts, parent, R1(r.v2, r.v1)).ppn != child; }
    }
  }

  lemma StartSpaceOk(w0: World, parent: nat, main1: nat)
    requires ParentOk(w0, parent, main1) && w0.m.free != [] && StartClean(w0)
    ensures MemOk(StartClone(w0, main1).m, w0.m.free[0])
  {
    RootEntries(w0, parent, main1);
    var child, m := w0.m.free[0], StartClone(w0, main1).m;
    forall r: Ref | Holds(m.ts, child, r) ensures r.v2 < 3 && Holds(w0.m.ts, parent, r) {}
    assert NotHeld(w0.m.ts, parent, child);
    FreeTail(w0.m, parent);
    RootTidy(main1, PageView(w0.fr, child));
    forall k | 0 <= k < |m.free| ensures m.free[k] !in m.ts && NotHeld(m.ts, child, m.free[k]) && InRam(m.free[k]) {
      assert w0.m.free[k + 1] !in w0.m.ts && NotHeld(w0.m.ts, parent, w0.m.free[k + 1]);
    }
  }

  lemma RootTidy(main1: nat, t: Table)
    requires RootClean(t)
    ensures Tidy(NewRoot(main1, t))
  {
  }

  lemma StartChildOk(w0: World, parent: nat, main1: nat)
    requires ParentOk(w0, parent, main1) && w0.m.free != [] && StartClean(w0)
    ensures ChildOk(w0, parent, w0.m.free[0], StartClone(w0, main1).m)
    ensures NoneLost(w0, w0.m.free[0], StartClone(w0, main1).m)
  {
    RootEntries(w0, parent, main1);
    StartSpaceOk(w0, parent, main1);
    assert Suffix(w0.m.free, w0.m.free);
    SuffixTail(w0.m.free, w0.m.free);
  }

  /** What Cloning says holds before the first page. */
  lemma CloneStarts(w0: World, parent: nat, main1: nat)
    requires ParentOk(w0, parent, main1) && w0.m.free != [] && StartClean(w0)
    ensures Cloning(w0, parent, main1, w0.m.free[0], StartClone(w0, main1), 0) == true
  {
    RootEntries(w0, parent, main1);
    StartChildOk(w0, parent, main1);
    assert w0.m.free[0] !in w0.m.ts && NotHeld(w0.m.ts, parent, w0.m.free[0]);
  }

  /** The first turn finds it so exactly if the page for the root can become one without being cleared. */
  lemma StartExactly(w0: World, parent: nat, main1: nat)
    requires ParentOk(w0, parent, main1) && w0.m.free != []
    ensures Cloning(w0, parent, main1, w0.m.free[0], StartClone(w0, main1), 0) <==> StartClean(w0)
  {
    var child, t, m := w0.m.free[0], PageView(w0.fr, w0.m.free[0]), StartClone(w0, main1).m;
    if StartClean(w0) { CloneStarts(w0, parent, main1); }
    if ChildOk(w0, parent, child, m) && Spent(w0, parent, child, m, 0) {
      forall i | 3 <= i < ENTRIES ensures Blank(t[i]) {
        assert Tidy(m.ts[child]) && m.ts[child][i] == t[i];
        assert R2(i).v2 == i && EntryOf(m.ts, child, R2(i)) == Seen(t[i]);
      }
    }
  }

  // The loop

  function NextPage(o: Outcome<World>, parent: nat, child: nat, i: nat): Outcome<World> {
    if !o.Next? then o
    else if child in o.value.m.ts && |o.value.m.ts[child]| == ENTRIES then ClonePage(o.value, parent, child, i)
    else Wild
  }

  /** The loop of memory_space_clone over the first n user pages. */
  function ClonePages(w: World, parent: nat, child: nat, n: nat): Outcome<World> {
    if n == 0 then Next(w) else NextPage(ClonePages(w, parent, child, n - 1), parent, child, n - 1)
  }

  /** memory_space_clone up to the switch to the new space. */
  function SpaceClone(w: World, parent: nat, main1: nat): Outcome<World> {
    if w.m.free == [] then Panic else ClonePages(StartClone(w, main1), parent, w.m.free[0], USER_PAGES)
  }

  lemma {:induction false} MappedGrows(ts: Tables, parent: nat, i: nat, n: nat)
    requires i <= n
    ensures Mapped(ts, parent, i) <= Mapped(ts, parent, n)
    decreases n
  {
    if i < n { MappedGrows(ts, parent, i, n - 1); }
  }

  lemma NeededGrows(ts: Tables, parent: nat, i: nat, n: nat)
    requires i <= n
    ensures Needed(ts, parent, i) <= Needed(ts, parent, n)
  {
    MappedGrows(ts, parent, i, n);
    if i > 0 { Quotients(i - 1, n - 1); }
  }

  lemma Quotients(a: nat, b: nat)
    requires a <= b
    ensures a / ENTRIES <= b / ENTRIES
  {
  }

  /** What the loop has done after n pages, or why it panicked. */
  ghost predicate LoopDone(w0: World, parent: nat, main1: nat, child: nat, o: Outcome<World>, n: nat) {
    match o
    case Next(w) => Cloning(w0, parent, main1, child, w, n)
    case Panic => |w0.m.free| < Needed(w0.m.ts, parent, n)
    case Wild => false
  }

  lemma LoopTurn(w0: World, parent: nat, main1: nat, child: nat, o: Outcome<World>, n: nat)
    requires LoopDone(w0, parent, main1, child, o, n) == true && n < USER_PAGES && FitsAt(w0, parent, n)
    ensures LoopDone(w0, parent, main1, child, NextPage(o, parent, child, n), n + 1) == true
  {
    if o.Next? {
      TurnFitsAt(w0, parent, main1, child, o.value, n);
      TurnKeeps(w0, parent, main1, child, o.value, n);
    } else {
      NeededGrows(w0.m.ts, parent, n, n + 1);
    }
  }

  /** What holds before the loop and is kept by each turn holds after n turns. */
  lemma {:induction false} LoopInduction(w: World, parent: nat, child: nat, n: nat, kept: (Outcome<World>, nat) -> bool)
    requires n <= USER_PAGES && kept(Next(w), 0)
    requires forall o, i: nat :: i < USER_PAGES && kept(o, i) ==> kept(NextPage(o, parent, child, i), i + 1)
    ensures kept(ClonePages(w, parent, child, n), n)
  {
    if n > 0 { LoopInduction(w, parent, child, n - 1, kept); }
  }

  lemma LoopKeeps(w0: World, parent: nat, main1: nat, child: nat, w: World, n: nat)
    requires Cloning(w0, parent, main1, child, w, 0) == true && n <= USER_PAGES && forall i :: 0 <= i < USER_PAGES ==> FitsAt(w0, parent, i)
    ensures LoopDone(w0, parent, main1, child, ClonePages(w, parent, child, n), n) == true
  {
    var kept := (o: Outcome<World>, i: nat) => LoopDone(w0, parent, main1, child, o, i) == true;
    forall o, i: nat | i < USER_PAGES && kept(o, i) ensures kept(NextPage(o, parent, child, i), i + 1) {
      LoopTurn(w0, parent, main1, child, o, i);
    }
    LoopInduction(w, parent, child, n, kept);
  }

  /** The number of pages cloning takes: a root, a level-1 table, 128 level-0 tables and a frame for every page copied. */
  lemma PagesNeeded(ts: Tables, parent: nat)
    ensures Needed(ts, parent, USER_PAGES) == 130 + Mapped(ts, parent, USER_PAGES)
  {
  }

  /** The pages that cloning takes for root and tables can become so without being cleared. */
  ghost predicate CloneFits(w0: World, parent: nat) {
    StartClean(w0) && forall i :: 0 <= i < USER_PAGES ==> FitsAt(w0, parent, i)
  }

  /** Every turn of the loop goes well. */
  ghost predicate AllTurnsRight(w0: World, parent: nat, main1: nat) {
    && w0.m.free != []
    && forall i :: 0 <= i <= USER_PAGES ==>
                     var o := ClonePages(StartClone(w0, main1), parent, w0.m.free[0], i);
                     o.Next? && Cloning(w0, parent, main1, w0.m.free[0], o.value, i)
  }

  /** With enough free pages, that is so exactly if they can. */
  lemma CloneExactly(w0: World, parent: nat, main1: nat)
    requires ParentOk(w0, parent, main1) && |w0.m.free| >= 130 + Mapped(w0.m.ts, parent, USER_PAGES)
    ensures AllTurnsRight(w0, parent, main1) <==> CloneFits(w0, parent)
  {
    StartExactly(w0, parent, main1);
    PagesNeeded(w0.m.ts, parent);
    if CloneFits(w0, parent) {
      forall i | 0 <= i <= USER_PAGES ensures LoopDone(w0, parent, main1, w0.m.free[0], ClonePages(StartClone(w0, main1), parent, w0.m.free[0], i), i) {
        LoopKeeps(w0, parent, main1, w0.m.free[0], StartClone(w0, main1), i);
      }
      forall i | 0 <= i <= USER_PAGES ensures Needed(w0.m.ts, parent, i) <= |w0.m.free| { NeededGrows(w0.m.ts, parent, i, USER_PAGES); }
    }
    if AllTurnsRight(w0, parent, main1) {
      assert ClonePages(StartClone(w0, main1), parent, w0.m.free[0], 0) == Next(StartClone(w0, main1));
      forall i | 0 <= i < USER_PAGES ensures FitsAt(w0, parent, i) { TurnFitted(w0, parent, main1, i); }
    }
  }

  lemma TurnFitted(w0: World, parent: nat, main1: nat, i: nat)
    requires AllTurnsRight(w0, parent, main1) && i < USER_PAGES && |w0.m.free| >= Needed(w0.m.ts, parent, USER_PAGES)
    ensures FitsAt(w0, parent, i)
  {
    NeededGrows(w0.m.ts, parent, i + 1, USER_PAGES);
    var child, start := w0.m.free[0], StartClone(w0, main1);
    var o, o' := ClonePages(start, parent, child, i), ClonePages(start, parent, child, i + 1);
    assert o.Next? && Cloning(w0, parent, main1, child, o.value, i) && o'.Next? && Cloning(w0, parent, main1, child, o'.value, i + 1);
    TurnExactly(w0, parent, main1, child, o.value, i);
    TurnFitsAt(w0, parent, main1, child, o.value, i);
  }

  /** If they can, cloning panics exactly when there are fewer free pages than that, and otherwise takes just so many. */
  lemma CloneSucceeds(w0: World, parent: nat, main1: nat)
    requires ParentOk(w0, parent, main1) && CloneFits(w0, parent)
    ensures !SpaceClone(w0, parent, main1).Wild?
    ensures SpaceClone(w0, parent, main1).Next? <==> |w0.m.free| >= 130 + Mapped(w0.m.ts, parent, USER_PAGES)
    ensures SpaceClone(w0, parent, main1).Next? ==>
              && Cloned(w0, parent, main1, SpaceClone(w0, parent, main1).value) == true
              && |SpaceClone(w0, parent, main1).value.m.free| == |w0.m.free| - (130 + Mapped(w0.m.ts, parent, USER_PAGES))
  {
    if w0.m.free != [] {
      CloneStarts(w0, parent, main1);
      LoopKeeps(w0, parent, main1, w0.m.free[0], StartClone(w0, main1), USER_PAGES);
      PagesNeeded(w0.m.ts, parent);
    }
  }

  // What the child maps

  /** The world after memory_space_clone. */
  ghost predicate Cloned(w0: World, parent: nat, main1: nat, w: World) {
    w0.m.free != [] && Cloning(w0, parent, main1, w0.m.free[0], w, USER_PAGES)
  }

  /** The page number of an address counted from the start of the user range. */
  lemma UserIndex(vma: nat)
    requires USER_START <= vma < 0x1_0000_0000
    ensures var i := vma / PAGE - 0xC0000; 0 <= i < 0x4_0000 && RefOf(vma) == UserRef(i) && (i < USER_PAGES <==> vma < USER_END)
  {
    PageNumber(vma);
  }

  /**
   The flat map of the child: below the user range that of the parent, in the user range a copy of every page
   the parent maps there, above it nothing.
   */
  lemma CloneMaps(w0: World, parent: nat, main1: nat, w: World, vma: nat)
    requires Cloned(w0, parent, main1, w) && vma < 0x80_0000_0000
    ensures var pe, ce := Leaf(w0.m.ts, parent, vma), Leaf(w.m.ts, w0.m.free[0], vma);
            if vma < USER_START then ce == pe
            else if vma < USER_END && Copies(pe) then
              ce.flags == Widened(pe.flags) && Content(w.fr, ce.ppn) == Content(w0.fr, pe.ppn)
            else ce == NULL_PTE
  {
    PageNumber(vma);
    if vma < USER_START {
      assert RefOf(vma).v2 < 3;
    } else if vma < 0x1_0000_0000 {
      UserIndex(vma);
      var i := vma / PAGE - 0xC0000;
      if i < USER_PAGES {
        assert CopyOf(EntryOf(w0.m.ts, parent, UserRef(i)), EntryOf(w.m.ts, w0.m.free[0], UserRef(i)), w0.fr, w.fr);
      } else {
        forall j | 0 <= j < USER_PAGES ensures RefOf(vma) != UserRef(j) { UserRefsDiffer(i, j); }
      }
    } else {
      assert RefOf(vma).v2 > 3;
    }
  }

  /** The parent is as it was: same entries, same contents of every page it maps. */
  lemma ParentUnchanged(w0: World, parent: nat, main1: nat, w: World, vma: nat)
    requires Cloned(w0, parent, main1, w)
    ensures Leaf(w.m.ts, parent, vma) == Leaf(w0.m.ts, parent, vma)
    ensures var pe := Leaf(w0.m.ts, parent, vma);
            pe.flags.v && !pe.flags.g ==> Content(w.fr, pe.ppn) == Content(w0.fr, pe.ppn)
  {
    SpaceKept(w0, parent, w.m.ts);
    var pe := Leaf(w0.m.ts, parent, vma);
    if pe.flags.v && !pe.flags.g {
      assert Holds(w0.m.ts, parent, RefOf(vma));
      forall k | 0 <= k < |w0.m.free| ensures w0.m.free[k] != pe.ppn { assert NotHeld(w0.m.ts, parent, w0.m.free[k]); }
    }
  }

  /** A page that the child holds for its user half is held nowhere else, neither in the child nor in the parent. */
  lemma ChildPrivate(w0: World, parent: nat, main1: nat, w: World, r: Ref, q: Ref)
    requires Cloned(w0, parent, main1, w) && r.v2 >= 3 && Holds(w.m.ts, w0.m.free[0], r)
    ensures Holds(w.m.ts, w0.m.free[0], q) && q != r ==> EntryOf(w.m.ts, w0.m.free[0], q).ppn != EntryOf(w.m.ts, w0.m.free[0], r).ppn
    ensures Holds(w.m.ts, parent, q) ==> EntryOf(w.m.ts, parent, q).ppn != EntryOf(w.m.ts, w0.m.free[0], r).ppn
    ensures EntryOf(w.m.ts, w0.m.free[0], r).ppn !in w.m.free && EntryOf(w.m.ts, w0.m.free[0], r).ppn != parent
  {
    SpaceKept(w0, parent, w.m.ts);
    var page := EntryOf(w.m.ts, w0.m.free[0], r).ppn;
    assert Taken(w0.m.free, w.m.free, page);
    var k :| 0 <= k < |w0.m.free| && w0.m.free[k] == page;
    assert NotHeld(w0.m.ts, parent, w0.m.free[k]);
    if Holds(w.m.ts, parent, q) { assert Holds(w0.m.ts, parent, q); }
  }

  /** Whether the child maps in its user half exactly the pages the parent maps there. */
  ghost predicate SamePages(w0: World, parent: nat, child: nat, w: World) {
    forall r: Ref :: r.R0? && r.v2 >= 3 ==> (EntryOf(w.m.ts, child, r).flags.v <==> Copies(EntryOf(w0.m.ts, parent, r)))
  }

  /** The parent maps nothing from USER_END_VMA on. */
  ghost predicate NothingAbove(ts: Tables, parent: nat) {
    forall r: Ref :: r.R0? && r.v2 >= 3 && (forall j :: 0 <= j < USER_PAGES ==> r != UserRef(j)) ==> !Copies(EntryOf(ts, parent, r))
  }

  /**
   The clone is complete exactly when the parent maps nothing from USER_END_VMA on; a page fault at USER_END_VMA
   itself maps such a page (lemma FaultAtEnd).
   */
  lemma CompleteExactly(w0: World, parent: nat, main1: nat, w: World)
    requires Cloned(w0, parent, main1, w)
    ensures SamePages(w0, parent, w0.m.free[0], w) <==> NothingAbove(w0.m.ts, parent)
  {
    forall j | 0 <= j < USER_PAGES
      ensures EntryOf(w.m.ts, w0.m.free[0], UserRef(j)).flags.v <==> Copies(EntryOf(w0.m.ts, parent, UserRef(j))) {
      assert CopyOf(EntryOf(w0.m.ts, parent, UserRef(j)), EntryOf(w.m.ts, w0.m.free[0], UserRef(j)), w0.fr, w.fr);
    }
    if SamePages(w0, parent, w0.m.free[0], w) {
      forall r: Ref | r.R0? && r.v2 >= 3 && (forall j :: 0 <= j < USER_PAGES ==> r != UserRef(j))
        ensures !Copies(EntryOf(w0.m.ts, parent, r)) {
        assert !EntryOf(w.m.ts, w0.m.free[0], r).flags.v;
      }
    }
    if NothingAbove(w0.m.ts, parent) {
      forall r: Ref | r.R0? && r.v2 >= 3
        ensures EntryOf(w.m.ts, w0.m.free[0], r).flags.v <==> Copies(EntryOf(w0.m.ts, parent, r)) {
        if j :| 0 <= j < USER_PAGES && r == UserRef(j) {} else {
          assert !EntryOf(w.m.ts, w0.m.free[0], r).flags.v;
        }
      }
    }
  }

  // Clone, then reclaim

  lemma ChildGlobalOk(w0: World, parent: nat, main1: nat, w: World)
    requires Cloned(w0, parent, main1, w) && GlobalOk(w0.m.ts, parent)
    ensures SpaceOk(w.m.ts, w0.m.free[0]) && GlobalOk(w.m.ts, w0.m.free[0])
  {
    LowAndPlainGlobalOk(w0.m.ts, parent, w.m.ts, w0.m.free[0]);
  }

  /** Entries of a space with nothing global taken over below the user range, and plain tables above. */
  lemma LowAndPlainGlobalOk(ts0: Tables, parent: nat, ts: Tables, child: nat)
    requires GlobalOk(ts0, parent)
    requires forall r: Ref :: r.v2 < 3 ==> EntryOf(ts, child, r) == EntryOf(ts0, parent, r)
    requires forall r: Ref :: r.v2 >= 3 && !r.R0? ==> TableOrEmpty(EntryOf(ts, child, r))
    ensures GlobalOk(ts, child)
  {
    forall r: Ref | r.R1? && EntryOf(ts, child, R2(r.v2)).flags.g && EntryOf(ts, child, r).flags.v ensures EntryOf(ts, child, r).flags.g {
      var up := R2(r.v2);
      assert up.v2 < 3;
      assert EntryOf(ts0, parent, R2(r.v2)).flags.g;
    }
    forall r: Ref | r.R0? && EntryOf(ts, child, R1(r.v2, r.v1)).flags.g && EntryOf(ts, child, r).flags.v ensures EntryOf(ts, child, r).flags.g {
      var up := R1(r.v2, r.v1);
      assert up.v2 < 3;
      assert EntryOf(ts0, parent, R1(r.v2, r.v1)).flags.g;
    }
  }

  /** Reclaim takes nothing of the kernel's part. */
  lemma KernelNotOwned(w0: World, parent: nat, main1: nat, w: World, r: Ref)
    requires Cloned(w0, parent, main1, w) && GlobalOk(w0.m.ts, parent) && r.v2 < 3
    ensures !Owns(w.m.ts, w0.m.free[0], r)
  {
    assert EntryOf(w.m.ts, w0.m.free[0], r) == EntryOf(w0.m.ts, parent, r);
    var top := R2(r.v2);
    assert EntryOf(w0.m.ts, parent, top).flags.g;
    if r.R1? {
      assert r.R1? && EntryOf(w0.m.ts, parent, R2(r.v2)).flags.g;
    } else if r.R0? && EntryOf(w0.m.ts, parent, r).flags.v {
      var mid := R1(r.v2, r.v1);
      assert EntryOf(w0.m.ts, parent, R2(mid.v2)).flags.g && EntryOf(w0.m.ts, parent, mid).flags.v;
      assert EntryOf(w0.m.ts, parent, R1(r.v2, r.v1)).flags.g;
    }
  }

  /** Reclaiming the child frees exactly the pages cloning took, except for the child's root. */
  lemma FreesWhatCloneTook(w0: World, parent: nat, main1: nat, w: World, q: nat)
    requires Cloned(w0, parent, main1, w) && GlobalOk(w0.m.ts, parent)
    ensures q in Freed(w.m.ts, w0.m.free[0]) <==> Taken(w0.m.free, w.m.free, q) && q != w0.m.free[0]
  {
    var ts, child := w.m.ts, w0.m.free[0];
    FreedExactly(ts, child, q);
    if q in Freed(ts, child) {
      var r :| Owns(ts, child, r) && EntryOf(ts, child, r).ppn == q;
      if r.v2 < 3 { KernelNotOwned(w0, parent, main1, w, r); }
    }
    if Taken(w0.m.free, w.m.free, q) && q != child {
      assert HeldByUser(ts, child, q);
      var r: Ref :| r.v2 >= 3 && Holds(ts, child, r) && EntryOf(ts, child, r).ppn == q;
      assert Owns(ts, child, r);
    }
  }

  /** The pages of a list that are taken, but for one, and those that are not make up the list. */
  lemma Together(freed: seq<nat>, free: seq<nat>, free0: seq<nat>, child: nat)
    requires Unique(freed) && Unique(free) && Unique(free0) && Suffix(free, free0) && Taken(free0, free, child)
    requires forall q :: q in freed <==> Taken(free0, free, q) && q != child
    ensures multiset(freed) + multiset(free) + multiset{child} == multiset(free0)
  {
    forall q ensures (multiset(freed) + multiset(free) + multiset{child})[q] == multiset(free0)[q] {
      UniqueCount(freed, q);
      UniqueCount(free, q);
      UniqueCount(free0, q);
      if q in free { SuffixIn(free, free0, q); }
    }
  }

  /**
   Conservation: the pages that are free after the clone and those that reclaiming the child then frees are,
   with the child's root, the pages that were free before. The root is not given back.
   */
  lemma CloneReclaimConserves(w0: World, parent: nat, main1: nat, w: World)
    requires Cloned(w0, parent, main1, w) && GlobalOk(w0.m.ts, parent)
    ensures multiset(Freed(w.m.ts, w0.m.free[0])) + multiset(w.m.free) + multiset{w0.m.free[0]} == multiset(w0.m.free)
  {
    var child := w0.m.free[0];
    FreedOnce(w.m.ts, child);
    forall q ensures q in Freed(w.m.ts, child) <==> Taken(w0.m.free, w.m.free, q) && q != child {
      FreesWhatCloneTook(w0, parent, main1, w, q);
    }
    Together(Freed(w.m.ts, child), w.m.free, w0.m.free, child);
  }

  lemma SuffixIn(free: seq<nat>, free0: seq<nat>, q: nat)
    requires Suffix(free, free0) && q in free
    ensures q in free0
  {
    var j :| 0 <= j < |free| && free[j] == q;
    assert free0[|free0| - |free| + j] == q;
  }

  lemma FreeLeft(w0: World, parent: nat, main1: nat, w: World)
    requires Cloned(w0, parent, main1, w)
    ensures |w.m.free| == |w0.m.free| - (130 + Mapped(w0.m.ts, parent, USER_PAGES))
  {
    PagesNeeded(w0.m.ts, parent);
  }

  /** Reclaiming the child takes away no table of the parent. */
  lemma ParentSurvives(w0: World, parent: nat, main1: nat, w: World, ts: Tables)
    requires Cloned(w0, parent, main1, w) && GlobalOk(w0.m.ts, parent)
    requires forall p :: p in ts <==> p in w.m.ts && p !in Freed(w.m.ts, w0.m.free[0])
    requires forall p :: p in ts ==> ts[p] == w.m.ts[p]
    ensures SpaceOk(ts, parent) && SameEntries(w0.m.ts, ts, parent)
  {
    SpaceKept(w0, parent, w.m.ts);
    forall p | IsTable(w.m.ts, parent, p) ensures p in ts && ts[p] == At1(w.m.ts, p) {
      ParentTableNotFree(w0, parent, w.m.ts, p);
      FreesWhatCloneTook(w0, parent, main1, w, p);
      if p != parent {
        var r: Ref :| !r.R0? && Holds(w.m.ts, parent, r) && EntryOf(w.m.ts, parent, r).ppn == p;
      }
    }
    Undisturbed(w.m.ts, ts, parent);
    assert IsTable(w.m.ts, parent, parent);
    forall r ensures Holds(ts, parent, r) == Holds(w.m.ts, parent, r) {}
    forall r: Ref | !r.R0? && Holds(ts, parent, r) ensures EntryOf(ts, parent, r).ppn in ts {
      assert IsTable(w.m.ts, parent, EntryOf(w.m.ts, parent, r).ppn);
    }
  }
}
