/**
 Pages that nobody clears: when the condition on the pages that become tables holds, and what happens when it
 does not. It holds as long as no space has exited. An exit leaves level-0 tables fit for use, level-1 tables
 and written frames not, and the page that is freed last is a level-1 table: the next fork takes it for a root.
 */
module Stale {
  import opened Common
  import opened Sv39
  import opened Walk
  import opened Clone
  import opened Mapping
  import opened MapFit
  import opened CloneFit
  import opened Reclaim
  import opened Freeing
  import opened CloneTheorems
  import opened Spaces
  import opened Memory
  import opened Processes
  import opened Runs

  // Until a space exits

  ghost predicate AllClean(w: World) {
    forall q :: q in w.m.free ==> Clean(w.fr, q)
  }

  lemma AllCleanFits(s: Sys, e: Event)
    requires AllClean(s.w)
    ensures FitsFor(s, e)
  {
    match e
    case Fault(a, vptr) => EachClean(s.w);
    case Fork(a) =>
      EachClean(s.w);
      forall i | 0 <= i < USER_PAGES ensures FitsAt(s.w, a, i) {}
    case Write(_, _, _) =>
    case Exit(_) =>
  }

  lemma EachClean(w: World)
    requires AllClean(w)
    ensures forall j :: 0 <= j < |w.m.free| ==> Clean(w.fr, w.m.free[j])
  {
    forall j | 0 <= j < |w.m.free| ensures Clean(w.fr, w.m.free[j]) { assert w.m.free[j] in w.m.free; }
  }

  lemma AllCleanStays(s: Sys, main2: nat, main1: nat, e: Event)
    requires SysInv(s, main1) && Applicable(s, main2, e) && !e.Exit? && AllClean(s.w) && Step(s, main1, e).Next?
    ensures AllClean(Step(s, main1, e).value.w)
  {
    AllCleanFits(s, e);
    var t := Step(s, main1, e).value;
    match e
    case Fault(a, vptr) => FaultTouches(s, main1, a, vptr, t.w.m);
    case Write(a, vptr, words) =>
      LowIsGlobal(s, main1, a, vptr);
      WriteIsPrivate(s, main1, a, vptr);
    case Fork(a) =>
      ForkClones(s, main1, a, t.w);
      forall q | q in t.w.m.free ensures Clean(t.w.fr, q) { SuffixIn(t.w.m.free, s.w.m.free, q); }
  }

  /** If all free pages are clean, they are so after every run without an exit, whose steps so take pages that fit. */
  lemma {:induction false} CleanUntilExit(s: Sys, main2: nat, main1: nat, pages: seq<nat>, es: seq<Event>, t: Sys)
    requires Good(s, main2, main1, pages) == true && AllClean(s.w) && Run(s, main2, main1, es, t)
    requires forall i :: 0 <= i < |es| ==> !es[i].Exit?
    ensures FitsRun(s, main1, es) && AllClean(t.w)
    decreases |es|
  {
    if es != [] {
      AllCleanFits(s, es[0]);
      AllCleanStays(s, main2, main1, es[0]);
      StepGood(s, main2, main1, pages, es[0]);
      CleanUntilExit(Step(s, main1, es[0]).value, main2, main1, pages, es[1..], t);
    }
  }

  // What an exit leaves

  lemma {:induction false} StackedAt(w: World, root: nat, gone: seq<nat>, k: nat)
    requires Unique(gone) && k < |gone|
    ensures gone[k] in Stacked(w, root, gone)
    ensures Stacked(w, root, gone)[gone[k]] == Linked(LeftOn(w, root, gone[k]), Head(Reversed(gone[..k]) + w.m.free))
    decreases |gone|
  {
    if k < |gone| - 1 {
      var before := gone[..|gone| - 1];
      StackedAt(w, root, before, k);
      assert before[..k] == gone[..k] && before[k] == gone[k];
    }
  }

  /** All but the first entry is blank. */
  predicate BlankTail(t: Table) { |t| == ENTRIES && forall i :: 1 <= i < ENTRIES ==> Blank(t[i]) }

  lemma LinkedClean(d: Data, next: nat)
    requires InRam(next) || next == 0
    ensures AllBlank(View(Linked(d, next))) <==> BlankTail(View(d))
  {
    LinkIsBlank(next);
    LinkedView(d, next);
    var t := View(d);
    assert t[0 := Link(next)][0] == Link(next) && forall i :: 1 <= i < ENTRIES ==> t[0 := Link(next)][i] == t[i];
  }

  /** The link that is set in a page freed by an exit. */
  lemma NextInRam(w: World, a: nat, main1: nat, k: nat)
    requires SpaceInv(w, a, main1) && k <= |Freed(w.m.ts, a)| && forall q :: Private(w.m.ts, a, q) ==> InRam(q)
    ensures var next := Head(Reversed(Freed(w.m.ts, a)[..k]) + w.m.free); InRam(next) || next == 0
  {
    var freed := Freed(w.m.ts, a);
    var all := Reversed(freed[..k]) + w.m.free;
    if all != [] {
      assert all[0] in all;
      ReversedIn(freed[..k], all[0]);
      if all[0] in freed[..k] {
        assert all[0] in freed;
        FreedIsPrivate(w, a, main1, all[0]);
      } else {
        FreeNotTable(w.m, a, all[0]);
      }
    }
  }

  /** A page that an exit frees can become a table exactly if it was a level-0 table, or held nothing beyond its first word. */
  lemma CleanAfterExit(s: Sys, main1: nat, a: nat, q: nat)
    requires SysInv(s, main1) && a in s.roots && HeldByUser(s.w.m.ts, a, q)
    ensures Clean(AfterExit(s, a).w.fr, q) <==> IsLevel0(s.w.m.ts, a, q) || BlankTail(View(Held(s.w, q)))
  {
    assert SpaceInv(s.w, a, main1) && Outside(s.w.m.ts, a, s.lost);
    var freed := Freed(s.w.m.ts, a);
    FreedIsPrivate(s.w, a, main1, q);
    FreedOnce(s.w.m.ts, a);
    var k :| 0 <= k < |freed| && freed[k] == q;
    StackedAt(s.w, a, freed, k);
    NextInRam(s.w, a, main1, k);
    LinkedClean(LeftOn(s.w, a, q), Head(Reversed(freed[..k]) + s.w.m.free));
    if IsLevel0(s.w.m.ts, a, q) { Level0Blank(s.w, a, main1, q); }
  }

  /** A level-0 table of a space has its user pages unmapped by then, and is blank. */
  lemma Level0Blank(w: World, a: nat, main1: nat, q: nat)
    requires SpaceInv(w, a, main1) && IsLevel0(w.m.ts, a, q) && HeldByUser(w.m.ts, a, q)
    ensures BlankTail(View(LeftOn(w, a, q)))
  {
    var v2, v1 :| 0 <= v2 < ENTRIES && 0 <= v1 < ENTRIES && PointsTo(EntryOf(w.m.ts, a, R1(v2, v1)), q);
    var h: Ref :| h.v2 >= 3 && Holds(w.m.ts, a, h) && EntryOf(w.m.ts, a, h).ppn == q;
    assert Holds(w.m.ts, a, R1(v2, v1));
    assert h == R1(v2, v1);
    var t := w.m.ts[q];
    assert Tidy(t);
    forall i | 0 <= i < ENTRIES ensures Blank(Cleared(t, ENTRIES)[i]) {
      var r := R0(v2, v1, i);
      assert EntryOf(w.m.ts, a, r) == Seen(t[i]);
      assert r.R0? && r.v2 >= 3;
    }
  }

  // The fork after the exit of a forked space

  lemma {:induction false} NothingMore(ts: Tables, t: Table, n: nat)
    requires 4 <= n <= |t| && forall k :: 4 <= k < n ==> !IsPointer(t[k])
    ensures Freed2(ts, t, n) == Freed2(ts, t, 4)
  {
    if n > 4 {
      NothingMore(ts, t, n - 1);
      Freed2Next(ts, t, n - 1);
      assert Freed2(ts, t, n - 1) + [] == Freed2(ts, t, n - 1);
    }
  }

  /** The level-1 table of a clone. */
  function CloneLevel1(w: World, c: nat): nat { EntryOf(w.m.ts, c, R2(3)).ppn }

  /** It is the last page that the exit of a clone frees. */
  lemma Level1Last(w0: World, a: nat, main1: nat, w: World)
    requires Cloned(w0, a, main1, w)
    ensures var freed := Freed(w.m.ts, w0.m.free[0]);
            freed != [] && freed[|freed| - 1] == CloneLevel1(w, w0.m.free[0])
  {
    var ts, c := w.m.ts, w0.m.free[0];
    var t := ts[c];
    forall k | 4 <= k < ENTRIES ensures !IsPointer(t[k]) {
      assert R2(k).v2 > 3;
      assert EntryOf(ts, c, R2(k)) == Seen(t[k]);
    }
    NothingMore(ts, t, ENTRIES);
    Freed2Next(ts, t, 3);
    assert R2(3).v2 == 3 && EntryOf(ts, c, R2(3)) == Seen(t[3]) && TableOrEmpty(EntryOf(ts, c, R2(3)));
    var e := t[3];
    assert Table2(ts, e) == Freed1(ts, At1(ts, e.ppn), |At1(ts, e.ppn)|) + [e.ppn];
    assert Freed2(ts, t, 4)[|Freed2(ts, t, 4)| - 1] == e.ppn;
  }

  /** Entry 3 of that table points to a table that is freed with it. */
  lemma Level1Stale(w0: World, a: nat, main1: nat, w: World)
    requires Cloned(w0, a, main1, w) && GlobalOk(w0.m.ts, a)
    ensures var p1 := CloneLevel1(w, w0.m.free[0]);
            && p1 in w.m.ts && |w.m.ts[p1]| == ENTRIES && w.m.ts[p1][3].flags.v
            && w.m.ts[p1][3].ppn in Freed(w.m.ts, w0.m.free[0]) && w.m.ts[p1][3].ppn != p1
            && !IsLevel0(w.m.ts, w0.m.free[0], p1)
  {
    var ts, c := w.m.ts, w0.m.free[0];
    var r2, r1 := R2(3), R1(3, 3);
    assert EntryOf(ts, c, r2).flags.v && EntryOf(ts, c, r1).flags.v;
    assert TableOrEmpty(EntryOf(ts, c, r2)) && TableOrEmpty(EntryOf(ts, c, r1));
    assert Holds(ts, c, r2) && Holds(ts, c, r1);
    assert Owns(ts, c, r1);
    FreedExactly(ts, c, EntryOf(ts, c, r1).ppn);
    var p1 := CloneLevel1(w, c);
    forall v2, v1 | 0 <= v2 < ENTRIES && 0 <= v1 < ENTRIES ensures !PointsTo(EntryOf(ts, c, R1(v2, v1)), p1) {
      if IsPointer(EntryOf(ts, c, R1(v2, v1))) { assert Holds(ts, c, R1(v2, v1)); }
    }
  }

  /** The first free page after the exit of a clone, and its entry 3. */
  lemma HeadAfterExit(w0: World, a: nat, main1: nat, w: World)
    requires Cloned(w0, a, main1, w) && GlobalOk(w0.m.ts, a)
    ensures var c := w0.m.free[0];
            var x := After(w, c, Freed(w.m.ts, c));
            && x.m.free != [] && x.m.free[0] == CloneLevel1(w, c)
            && var e := PageView(x.fr, x.m.free[0])[3]; e.flags.v && e.ppn !in x.m.ts && e.ppn != x.m.free[0]
  {
    var c := w0.m.free[0];
    var freed := Freed(w.m.ts, c);
    Level1Last(w0, a, main1, w);
    Level1Stale(w0, a, main1, w);
  }

  /** A clone whose root has a valid entry 3 that points to no table goes wild. */
  lemma StaleRootWild(w: World, parent: nat, main1: nat)
    requires w.m.free != [] && PageView(w.fr, w.m.free[0])[3].flags.v
    requires PageView(w.fr, w.m.free[0])[3].ppn !in w.m.ts && PageView(w.fr, w.m.free[0])[3].ppn != w.m.free[0]
    ensures SpaceClone(w, parent, main1).Wild?
  {
    var root, start := w.m.free[0], StartClone(w, main1);
    assert ClonePage(start, parent, root, 0).Wild?;
    var kept := (o: Outcome<World>, i: nat) => if i == 0 then o == Next(start) else o.Wild?;
    LoopInduction(start, parent, root, USER_PAGES, kept);
  }

  lemma StaleRootNotClean(w: World, parent: nat)
    requires w.m.free != [] && PageView(w.fr, w.m.free[0])[3].flags.v
    ensures !CloneFits(w, parent)
  {
    assert !Blank(PageView(w.fr, w.m.free[0])[3]);
  }

  lemma CloneExitClone(w0: World, a: nat, main1: nat, w: World, b: nat)
    requires Cloned(w0, a, main1, w) == true && GlobalOk(w0.m.ts, a) == true
    ensures w0.m.free != []
    ensures var x := After(w, w0.m.free[0], Freed(w.m.ts, w0.m.free[0]));
            SpaceClone(x, b, main1).Wild? && !CloneFits(x, b)
  {
    HeadAfterExit(w0, a, main1, w);
    var x := After(w, w0.m.free[0], Freed(w.m.ts, w0.m.free[0]));
    StaleRootWild(x, b, main1);
    StaleRootNotClean(x, b);
  }

  /**
   After the fork of any space and the exit of the child, the condition does not hold for a fork of any space,
   and such a fork follows an entry of the dead child to a page that is free.
   */
  lemma ForkAfterExit(s: Sys, main1: nat, a: nat, b: nat)
    requires SysInv(s, main1) && a in s.roots && FitsFor(s, Fork(a)) && Step(s, main1, Fork(a)).Next? && s.w.m.free != []
    ensures var x := AfterExit(Step(s, main1, Fork(a)).value, s.w.m.free[0]);
            Step(x, main1, Fork(b)).Wild? && !FitsFor(x, Fork(b))
  {
    var t := Step(s, main1, Fork(a)).value;
    ForkIsClone(s, main1, a);
    CloneExitClone(s.w, a, main1, t.w, b);
    WildFork(AfterExit(t, s.w.m.free[0]), main1, b);
  }

  lemma ForkIsClone(s: Sys, main1: nat, a: nat)
    requires SysInv(s, main1) && a in s.roots && FitsFor(s, Fork(a)) && Step(s, main1, Fork(a)).Next?
    ensures Cloned(s.w, a, main1, Step(s, main1, Fork(a)).value.w) == true && GlobalOk(s.w.m.ts, a) == true
  {
    assert SpaceInv(s.w, a, main1);
    ForkClones(s, main1, a, Step(s, main1, Fork(a)).value.w);
  }

  lemma WildFork(x: Sys, main1: nat, b: nat)
    requires SpaceClone(x.w, b, main1).Wild? && !CloneFits(x.w, b)
    ensures Step(x, main1, Fork(b)).Wild? && !FitsFor(x, Fork(b))
  {
  }

  lemma RunOf2(s: Sys, main2: nat, main1: nat, e: Event, f: Event)
    requires Applicable(s, main2, e) && Step(s, main1, e).Next?
    requires var t := Step(s, main1, e).value; Applicable(t, main2, f) && Step(t, main1, f).Next?
    ensures Run(s, main2, main1, [e, f], Step(Step(s, main1, e).value, main1, f).value)
  {
    var t := Step(s, main1, e).value;
    var u := Step(t, main1, f).value;
    assert Run(u, main2, main1, [], u);
    assert [f][1..] == [] && [e, f][1..] == [f];
    assert Run(t, main2, main1, [f], u);
  }

  /** With clean pages enough, the fork and the exit are a run. */
  lemma ForkExitRun(s: Sys, main2: nat, main1: nat, a: nat)
    requires SysInv(s, main1) && a in s.roots && main2 in s.roots && AllClean(s.w) && |s.w.m.free| > 130 + Mapped(s.w.m.ts, a, USER_PAGES)
    ensures Step(s, main1, Fork(a)).Next?
    ensures var t := AfterExit(Step(s, main1, Fork(a)).value, s.w.m.free[0]);
            Run(s, main2, main1, [Fork(a), Exit(s.w.m.free[0])], t) && forall b :: Step(t, main1, Fork(b)).Wild?
  {
    var c := s.w.m.free[0];
    AllCleanFits(s, Fork(a));
    PanicsExactly(s, main2, main1, Fork(a));
    FreeAfterFork(s, main1, a);
    assert SpaceInv(s.w, main2, main1);
    assert c in s.w.m.free;
    FreeNotTable(s.w.m, main2, c);
    RunOf2(s, main2, main1, Fork(a), Exit(c));
    forall b ensures Step(AfterExit(Step(s, main1, Fork(a)).value, c), main1, Fork(b)).Wild? { ForkAfterExit(s, main1, a, b); }
  }

  /** The run from boot in which this happens: the main space forks, the child exits, the main space forks. */
  lemma ForkExitFork(main2: nat, main1: nat, main0: nat, l: Layout, free: seq<nat>, fr: Contents)
    requires LayoutOk(l) && BootPages(main2, main1, main0, free) && |free| > 130 && forall q :: q in free ==> Clean(fr, q)
    ensures exists t :: Run(Boot(main2, main1, main0, l, free, fr), main2, main1, [Fork(main2), Exit(free[0])], t)
                        && Step(t, main1, Fork(main2)).Wild?
  {
    BootGood(main2, main1, main0, l, free, fr);
    NoneMapped(main2, main1, main0, l, free, fr, USER_PAGES);
    ForkExitRun(Boot(main2, main1, main0, l, free, fr), main2, main1, main2);
  }

  lemma FreeAfterFork(s: Sys, main1: nat, a: nat)
    requires SysInv(s, main1) && a in s.roots && FitsFor(s, Fork(a)) && Step(s, main1, Fork(a)).Next?
    ensures s.w.m.free != []
    ensures |Step(s, main1, Fork(a)).value.w.m.free| == |s.w.m.free| - (130 + Mapped(s.w.m.ts, a, USER_PAGES))
  {
    var t := Step(s, main1, Fork(a)).value;
    ForkClones(s, main1, a, t.w);
    FreeLeft(s.w, a, main1, t.w);
  }

  /** The main space maps no user page. */
  lemma {:induction false} NoneMapped(main2: nat, main1: nat, main0: nat, l: Layout, free: seq<nat>, fr: Contents, n: nat)
    requires LayoutOk(l) && BootPages(main2, main1, main0, free)
    ensures Mapped(Boot(main2, main1, main0, l, free, fr).w.m.ts, main2, n) == 0
    decreases n
  {
    if n > 0 {
      NoneMapped(main2, main1, main0, l, free, fr, n - 1);
      BootApart(main2, main1, main0, free);
      BootEntries(main2, main1, main0, l);
    }
  }
}
