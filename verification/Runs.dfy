/**
 Runs of page faults, writes, forks and exits of any number of spaces. What one space does is not noticed by the
 others and every page is accounted for, as long as the pages that become tables hold nothing that looks like a
 table. Nobody clears pages: that is so until a space exits, and a fork of any space right after the exit of a
 forked one goes wrong.
 */
module Runs {
  import opened Common
  import opened Sv39
  import opened Walk
  import opened Clone
  import opened Mapping
  import opened MapFit
  import opened Reclaim
  import opened Freeing
  import opened CloneTheorems
  import opened Spaces
  import opened Memory
  import opened Processes

  datatype Event = Fault(root: nat, vptr: nat) | Write(root: nat, vptr: nat, words: seq<nat>) | Fork(root: nat) | Exit(root: nat)

  /** User code may write to the page of this entry. */
  predicate Writable(e: Pte) { e.flags.v && e.flags.w && e.flags.u && !e.flags.g }

  /**
   A live space acts; it writes to pages it may write to. The main space does not exit, and an exit needs a free
   page in the list.
   */
  predicate Applicable(s: Sys, main2: nat, e: Event) {
    && e.root in s.roots && (e.Write? ==> Writable(Leaf(s.w.m.ts, e.root, e.vptr)))
    && (e.Exit? ==> e.root != main2 && s.w.m.free != [])
  }

  /** User code of space a gives the page at vptr these contents. */
  function AfterWrite(s: Sys, a: nat, vptr: nat, words: seq<nat>): Sys {
    Sys(World(s.w.m, s.w.fr[Leaf(s.w.m.ts, a, vptr).ppn := Words(words)]), s.roots, s.lost)
  }

  function Step(s: Sys, main1: nat, e: Event): Outcome<Sys> {
    match e
    case Fault(a, vptr) =>
      if !FaultInRange(vptr) then Panic
      else if !IsPage(s.w.m.ts, a) then Wild
      else
        (match MapAt(s.w.m, s.w.fr, a, vptr, USER_RW)
         case Next(n) => Next(AfterFault(s, a, vptr, n))
         case Panic => Panic
         case Wild => Wild)
    case Write(a, vptr, words) => Next(AfterWrite(s, a, vptr, words))
    case Fork(a) =>
      (match SpaceClone(s.w, a, main1)
       case Next(v) => if s.w.m.free == [] then Panic else Next(AfterFork(s, v))
       case Panic => Panic
       case Wild => Wild)
    case Exit(a) => Next(AfterExit(s, a))
  }

  /** The free pages that the step takes for tables can become so without being cleared. */
  ghost predicate FitsFor(s: Sys, e: Event) {
    match e
    case Fault(a, vptr) => FaultInRange(vptr) ==> MapFitsAt(s.w.m, s.w.fr, a, vptr, USER_RW)
    case Fork(a) => CloneFits(s.w, a)
    case Write(_, _, _) => true
    case Exit(_) => true
  }

  ghost predicate Good(s: Sys, main2: nat, main1: nat, pages: seq<nat>) {
    SysInv(s, main1) && Accounted(pages, s) && main2 in s.roots
  }

  // Writes

  /** What is written is contents of a page that is private to the space. */
  lemma WriteIsPrivate(s: Sys, main1: nat, a: nat, vptr: nat)
    requires SysInv(s, main1) && a in s.roots && Writable(Leaf(s.w.m.ts, a, vptr)) && RefOf(vptr).v2 >= 3
    ensures Private(s.w.m.ts, a, Leaf(s.w.m.ts, a, vptr).ppn) && Leaf(s.w.m.ts, a, vptr).ppn !in s.w.m.free
  {
    assert SpaceInv(s.w, a, main1);
    assert Holds(s.w.m.ts, a, RefOf(vptr));
    PrivateNotFree(s.w.m, a, Leaf(s.w.m.ts, a, vptr).ppn);
  }

  /** Below the user range nothing can be written by user code: all of it is global. */
  lemma LowIsGlobal(s: Sys, main1: nat, a: nat, vptr: nat)
    requires SysInv(s, main1) && a in s.roots && Writable(Leaf(s.w.m.ts, a, vptr))
    ensures RefOf(vptr).v2 >= 3
  {
    assert SpaceInv(s.w, a, main1);
    if RefOf(vptr).v2 < 3 {
      assert Owns(s.w.m.ts, a, RefOf(vptr));
      GlobalNotOwned(s.w, a, main1, RefOf(vptr));
    }
  }

  lemma SpaceInvContents(w: World, fr: Contents, a: nat, main1: nat)
    requires SpaceInv(w, a, main1)
    ensures SpaceInv(World(w.m, fr), a, main1)
  {
  }

  lemma WriteStep(s: Sys, main1: nat, a: nat, vptr: nat, words: seq<nat>)
    requires SysInv(s, main1)
    ensures SysInv(AfterWrite(s, a, vptr, words), main1)
  {
    var t := AfterWrite(s, a, vptr, words);
    forall b | b in t.roots ensures SpaceInv(t.w, b, main1) == true {
      assert SpaceInv(s.w, b, main1);
      SpaceInvContents(s.w, t.w.fr, b, main1);
    }
  }

  // Steps

  lemma StepGood(s: Sys, main2: nat, main1: nat, pages: seq<nat>, e: Event)
    requires Good(s, main2, main1, pages) && Applicable(s, main2, e) && FitsFor(s, e) && Step(s, main1, e).Next?
    ensures Good(Step(s, main1, e).value, main2, main1, pages)
  {
    match e
    case Fault(a, vptr) =>
      var n := Step(s, main1, e).value.w.m;
      FaultStep(s, main1, a, vptr, n);
      FaultAccounts(s, main1, a, vptr, n, pages);
    case Write(a, vptr, words) =>
      WriteStep(s, main1, a, vptr, words);
    case Fork(a) =>
      var v := Step(s, main1, e).value.w;
      ForkStep(s, main1, a, v);
      ForkAccounts(s, main1, a, v, pages);
    case Exit(a) =>
      ExitStep(s, main1, a);
      ExitAccounts(s, main1, a, pages);
  }

  /** The pages a step takes from the free list. */
  function PagesFor(s: Sys, e: Event): nat {
    match e
    case Fault(a, vptr) => 1 + NewTablesAt(s.w.m.ts, a, vptr)
    case Fork(a) => 130 + Mapped(s.w.m.ts, a, USER_PAGES)
    case Write(_, _, _) => 0
    case Exit(_) => 0
  }

  /** A step panics exactly for an address out of range or for want of the pages it needs, and does nothing wild. */
  lemma PanicsExactly(s: Sys, main2: nat, main1: nat, e: Event)
    requires SysInv(s, main1) && Applicable(s, main2, e) && FitsFor(s, e)
    ensures Step(s, main1, e).Panic? <==> (e.Fault? && !FaultInRange(e.vptr)) || |s.w.m.free| < PagesFor(s, e)
    ensures !Step(s, main1, e).Wild?
  {
    assert SpaceInv(s.w, e.root, main1);
    match e
    case Fault(a, vptr) =>
      if FaultInRange(vptr) {
        UserWalkable(s.w, a, main1, vptr);
        MapOver(s.w.m, s.w.fr, a, 3, Vpn1(vptr), Vpn0(vptr), USER_RW);
        MapPageRefines(s.w.m, MapBlanked(s.w.m, s.w.fr, a, 3, Vpn1(vptr), Vpn0(vptr)), a, 3, Vpn1(vptr), Vpn0(vptr), USER_RW);
      }
    case Fork(a) => CloneSucceeds(s.w, a, main1);
    case Write(_, _, _) =>
    case Exit(_) =>
  }

  /** A fault or fork does to its space what it should. */
  ghost predicate StepRight(s: Sys, main1: nat, e: Event) {
    match e
    case Fault(a, vptr) => IsPage(s.w.m.ts, a) && MapRight(s.w.m, s.w.fr, a, Vpn2(vptr), Vpn1(vptr), Vpn0(vptr), USER_RW)
    case Fork(a) => AllTurnsRight(s.w, a, main1)
    case Write(_, _, _) => true
    case Exit(_) => true
  }

  /** With enough free pages, it does so exactly if the pages that it takes for tables fit. */
  lemma FitsExactly(s: Sys, main2: nat, main1: nat, e: Event)
    requires SysInv(s, main1) && Applicable(s, main2, e) && |s.w.m.free| >= PagesFor(s, e) && (e.Fault? ==> FaultInRange(e.vptr))
    ensures StepRight(s, main1, e) <==> FitsFor(s, e)
  {
    assert SpaceInv(s.w, e.root, main1);
    match e
    case Fault(a, vptr) =>
      UserWalkable(s.w, a, main1, vptr);
      MapExactly(s.w.m, s.w.fr, a, Vpn2(vptr), Vpn1(vptr), Vpn0(vptr), USER_RW);
    case Fork(a) => CloneExactly(s.w, a, main1);
    case Write(_, _, _) =>
    case Exit(_) =>
  }

  lemma HeldLeaf(s: Sys, main1: nat, b: nat, vma: nat)
    requires SpaceInv(s.w, b, main1) && Leaf(s.w.m.ts, b, vma).flags.v && !Leaf(s.w.m.ts, b, vma).flags.g
    ensures !NotHeld(s.w.m.ts, b, Leaf(s.w.m.ts, b, vma).ppn) && Leaf(s.w.m.ts, b, vma).ppn !in s.w.m.free
  {
    assert Holds(s.w.m.ts, b, RefOf(vma));
    forall q | q in s.w.m.free ensures q != Leaf(s.w.m.ts, b, vma).ppn { FreeNotTable(s.w.m, b, q); }
  }

  /** The contents of a page that space b maps, and that is not global. */
  ghost predicate SameContents(w: World, fr: Contents, b: nat, vma: nat) {
    var leaf := Leaf(w.m.ts, b, vma);
    leaf.flags.v && !leaf.flags.g ==> Content(fr, leaf.ppn) == Content(w.fr, leaf.ppn)
  }

  lemma WriteApart(s: Sys, main1: nat, a: nat, vptr: nat, words: seq<nat>, b: nat, vma: nat)
    requires SysInv(s, main1) && a in s.roots && b in s.roots && a != b && Writable(Leaf(s.w.m.ts, a, vptr))
    ensures SameContents(s.w, AfterWrite(s, a, vptr, words).w.fr, b, vma)
  {
    assert SpaceInv(s.w, b, main1);
    LowIsGlobal(s, main1, a, vptr);
    WriteIsPrivate(s, main1, a, vptr);
    assert Apart(s.w.m.ts, a, b);
    var leaf := Leaf(s.w.m.ts, b, vma);
    if leaf.flags.v && !leaf.flags.g { HeldLeaf(s, main1, b, vma); }
  }

  lemma ExitApart(s: Sys, main1: nat, a: nat, b: nat, vma: nat)
    requires SysInv(s, main1) && a in s.roots && b in s.roots && a != b
    ensures SameContents(s.w, AfterExit(s, a).w.fr, b, vma)
  {
    assert SpaceInv(s.w, a, main1) && SpaceInv(s.w, b, main1) && Apart(s.w.m.ts, a, b);
    var leaf := Leaf(s.w.m.ts, b, vma);
    if leaf.flags.v && !leaf.flags.g {
      HeldLeaf(s, main1, b, vma);
      FreedIsPrivate(s.w, a, main1, leaf.ppn);
      StackedOther(s.w, a, Freed(s.w.m.ts, a), leaf.ppn);
    }
  }

  lemma ForkSameContents(s: Sys, main1: nat, fr: Contents, b: nat, vma: nat)
    requires SysInv(s, main1) && b in s.roots && FramesKept(s.w, fr)
    ensures SameContents(s.w, fr, b, vma)
  {
    assert SpaceInv(s.w, b, main1);
    var leaf := Leaf(s.w.m.ts, b, vma);
    if leaf.flags.v && !leaf.flags.g { HeldLeaf(s, main1, b, vma); }
  }

  /** What one space does changes neither the map of another space nor the contents of its pages. */
  lemma Isolation(s: Sys, main2: nat, main1: nat, e: Event, b: nat, vma: nat)
    requires SysInv(s, main1) && Applicable(s, main2, e) && FitsFor(s, e) && Step(s, main1, e).Next?
    requires b in s.roots && (b != e.root || e.Fork?)
    ensures var t := Step(s, main1, e).value;
            b in t.roots && Leaf(t.w.m.ts, b, vma) == Leaf(s.w.m.ts, b, vma) && SameContents(s.w, t.w.fr, b, vma)
  {
    var t := Step(s, main1, e).value;
    match e
    case Fault(a, vptr) => FaultStep(s, main1, a, vptr, t.w.m);
    case Write(a, vptr, words) => WriteApart(s, main1, a, vptr, words, b, vma);
    case Fork(a) =>
      ForkStep(s, main1, a, t.w);
      ForkSameContents(s, main1, t.w.fr, b, vma);
    case Exit(a) =>
      ExitStep(s, main1, a);
      ExitApart(s, main1, a, b, vma);
  }

  // Runs

  ghost predicate Run(s: Sys, main2: nat, main1: nat, es: seq<Event>, t: Sys)
    decreases |es|
  {
    if es == [] then s == t
    else Applicable(s, main2, es[0]) && Step(s, main1, es[0]).Next? && Run(Step(s, main1, es[0]).value, main2, main1, es[1..], t)
  }

  /** Every step of the run takes only pages for tables that fit. */
  ghost predicate FitsRun(s: Sys, main1: nat, es: seq<Event>)
    decreases |es|
  {
    es != [] ==> FitsFor(s, es[0]) && (Step(s, main1, es[0]).Next? ==> FitsRun(Step(s, main1, es[0]).value, main1, es[1..]))
  }

  lemma {:induction false} RunGood(s: Sys, main2: nat, main1: nat, pages: seq<nat>, es: seq<Event>, t: Sys)
    requires Good(s, main2, main1, pages) == true && Run(s, main2, main1, es, t) && FitsRun(s, main1, es)
    ensures Good(t, main2, main1, pages) == true
    decreases |es|
  {
    if es != [] {
      StepGood(s, main2, main1, pages, es[0]);
      RunGood(Step(s, main1, es[0]).value, main2, main1, pages, es[1..], t);
    }
  }

  /** The system after boot: the main space alone. */
  function Boot(main2: nat, main1: nat, main0: nat, l: Layout, free: seq<nat>, fr: Contents): Sys {
    Sys(World(Mem(KernelTables(main2, main1, main0, KernelLevel1(main0, l.megas), KernelLevel0(l.textEnd, l.roStart, l.roEnd, l.dataStart)),
                  free), fr), {main2}, {})
  }

  /** The main space has no pages of its own but its root. */
  lemma BootPrivate(main2: nat, main1: nat, main0: nat, l: Layout, free: seq<nat>, fr: Contents, q: nat)
    requires LayoutOk(l) && BootPages(main2, main1, main0, free)
    ensures Private(Boot(main2, main1, main0, l, free, fr).w.m.ts, main2, q) ==> q == main2
  {
    BootApart(main2, main1, main0, free);
    BootEntries(main2, main1, main0, l);
  }

  lemma BootGood(main2: nat, main1: nat, main0: nat, l: Layout, free: seq<nat>, fr: Contents)
    requires LayoutOk(l) && BootPages(main2, main1, main0, free)
    ensures Good(Boot(main2, main1, main0, l, free, fr), main2, main1, free)
  {
    BootInv(main2, main1, main0, l, free, fr);
    BootApart(main2, main1, main0, free);
    var ts := Boot(main2, main1, main0, l, free, fr).w.m.ts;
    forall q | Private(ts, main2, q) ensures InRam(q) { BootPrivate(main2, main1, main0, l, free, fr, q); }
  }

  /**
   From boot on, after any run in which the pages that become tables fit: every live space is sound and
   ready, no two share a page, and every page that was free at boot is either free, or lost, or private to just
   one live space.
   */
  lemma EveryRun(main2: nat, main1: nat, main0: nat, l: Layout, free: seq<nat>, fr: Contents, es: seq<Event>, t: Sys, q: nat)
    requires LayoutOk(l) && BootPages(main2, main1, main0, free)
    requires Run(Boot(main2, main1, main0, l, free, fr), main2, main1, es, t) && FitsRun(Boot(main2, main1, main0, l, free, fr), main1, es)
    ensures SysInv(t, main1) && main2 in t.roots
    ensures q in free ==> q in t.w.m.free || q in t.lost || OwnedBySome(t, q)
    ensures q in t.w.m.free ==> q !in t.lost && !OwnedBySome(t, q)
    ensures forall a, b :: a in t.roots && b in t.roots && Private(t.w.m.ts, a, q) && Private(t.w.m.ts, b, q) ==> a == b && q !in t.lost
  {
    BootGood(main2, main1, main0, l, free, fr);
    RunGood(Boot(main2, main1, main0, l, free, fr), main2, main1, free, es, t);
    forall a, b | a in t.roots && b in t.roots && Private(t.w.m.ts, a, q) && Private(t.w.m.ts, b, q)
      ensures a == b && q !in t.lost && q !in t.w.m.free {
      OneOwner(t, main1, q, a, b);
    }
  }
}
