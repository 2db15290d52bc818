/**
 Any number of spaces at once, step by step: what a page fault, a fork or an exit of one space does to it, to the
 other spaces and to the pages. Runs are in Runs.
 */
module Processes {
  import opened Common
  import opened Sv39
  import opened Walk
  import opened Clone
  import opened Mapping
  import opened MapFit
  import opened Reclaim
  import opened Freeing
  import opened CloneTheorems
  import opened Spaces
  import opened Memory

  /** The live spaces by their roots, and the pages that were taken and can no longer be reached. */
  datatype Sys = Sys(w: World, roots: set<nat>, lost: set<nat>)

  /** The pages a space has for itself: its root and what its user half holds. */
  ghost predicate Private(ts: Tables, a: nat, p: nat) { p == a || HeldByUser(ts, a, p) }

  ghost predicate Apart(ts: Tables, a: nat, b: nat) {
    forall p :: Private(ts, a, p) ==> NotHeld(ts, b, p)
  }

  /** The pages of the space are in RAM, and no lost page is among them. */
  ghost predicate Outside(ts: Tables, a: nat, lost: set<nat>) {
    (forall q :: Private(ts, a, q) ==> InRam(q)) && forall q :: q in lost ==> NotHeld(ts, a, q)
  }

  ghost predicate SysInv(s: Sys, main1: nat) {
    && (forall a :: a in s.roots ==> SpaceInv(s.w, a, main1))
    && (forall a :: a in s.roots ==> Outside(s.w.m.ts, a, s.lost))
    && (forall a, b :: a in s.roots && b in s.roots && a != b ==> Apart(s.w.m.ts, a, b))
    && (forall q :: q in s.lost ==> q !in s.w.m.free)
  }

  // What a step of space a may change

  /** Only private pages of a and free pages change, and what a then holds it held before or was free. */
  ghost predicate Touched(m: Mem, n: Mem, a: nat) {
    && (forall p :: p in m.ts ==> p in n.ts && (n.ts[p] == m.ts[p] || Private(m.ts, a, p)))
    && (forall p :: p in n.ts ==> p in m.ts || p in m.free)
    && (forall q :: q in n.free ==> q in m.free)
    && (forall r :: Holds(n.ts, a, r) ==>
          (Holds(m.ts, a, r) && EntryOf(n.ts, a, r) == EntryOf(m.ts, a, r)) || EntryOf(n.ts, a, r).ppn in m.free)
  }

  /** No page is dropped: what was free is free or private to a, what was private to a still is. */
  ghost predicate Kept(m: Mem, n: Mem, a: nat) {
    && (forall q :: q in m.free ==> q in n.free || Private(n.ts, a, q))
    && (forall q :: Private(m.ts, a, q) ==> Private(n.ts, a, q))
  }

  lemma FreeNotTable(m: Mem, a: nat, q: nat)
    requires MemOk(m, a) && q in m.free
    ensures q !in m.ts && NotHeld(m.ts, a, q) && InRam(q)
  {
    var k :| 0 <= k < |m.free| && m.free[k] == q;
  }

  lemma PrivateNotFree(m: Mem, a: nat, p: nat)
    requires MemOk(m, a) && Private(m.ts, a, p)
    ensures p !in m.free
  {
    forall q | q in m.free ensures q != p { FreeNotTable(m, a, q); }
  }

  lemma GrowTouches(m: Mem, cs: Contents, n: Mem, a: nat, p: nat, i: nat, ref: Ref)
    requires MemOk(m, a) && p in m.ts && i < |m.ts[p]| && Private(m.ts, a, p) && Grow(m, cs, p, i) == Next(n)
    requires Grew(m, n, a, ref) && !ref.R0? && ref.v2 == 3
    ensures Touched(m, n, a) && Kept(m, n, a)
  {
    if n != m {
      assert m.free[0] in m.free && m.free == [m.free[0]] + m.free[1..];
      forall r | Holds(n.ts, a, r)
        ensures (Holds(m.ts, a, r) && EntryOf(n.ts, a, r) == EntryOf(m.ts, a, r)) || EntryOf(n.ts, a, r).ppn in m.free {}
      assert Holds(n.ts, a, ref) && EntryOf(n.ts, a, ref).ppn == m.free[0];
      forall q | Private(m.ts, a, q) ensures Private(n.ts, a, q) {
        if q != a {
          var r: Ref :| r.v2 >= 3 && Holds(m.ts, a, r) && EntryOf(m.ts, a, r).ppn == q;
          assert Holds(n.ts, a, r);
        }
      }
    }
  }

  lemma TouchedTwice(m: Mem, g: Mem, n: Mem, a: nat)
    requires MemOk(m, a) && Touched(m, g, a) && Touched(g, n, a)
    ensures Touched(m, n, a)
  {
    forall p | p in m.ts ensures p in n.ts && (n.ts[p] == m.ts[p] || Private(m.ts, a, p)) {
      if Private(g.ts, a, p) { StillPrivate(m, g, a, p); }
    }
    forall r | Holds(n.ts, a, r)
      ensures (Holds(m.ts, a, r) && EntryOf(n.ts, a, r) == EntryOf(m.ts, a, r)) || EntryOf(n.ts, a, r).ppn in m.free {
      if Holds(g.ts, a, r) {}
    }
  }

  /** A table that is private to a after a step was so before, or it was a free page. */
  lemma StillPrivate(m: Mem, g: Mem, a: nat, p: nat)
    requires MemOk(m, a) && Touched(m, g, a) && Private(g.ts, a, p) && p in m.ts
    ensures Private(m.ts, a, p)
  {
    if p != a {
      var r: Ref :| r.v2 >= 3 && Holds(g.ts, a, r) && EntryOf(g.ts, a, r).ppn == p;
      if p in m.free { FreeNotTable(m, a, p); }
    }
  }

  lemma KeptTwice(m: Mem, g: Mem, n: Mem, a: nat)
    requires Kept(m, g, a) && Kept(g, n, a)
    ensures Kept(m, n, a)
  {
  }

  lemma WalkTouches(m: Mem, cs: Contents, a: nat, v1: nat)
    requires MemOk(m, a) && Walkable(m.ts, a, 3, v1) && WalkClean(m, cs, a, 3, v1) && WalkCreate(m, cs, a, 3, v1).Next?
    ensures Touched(m, WalkCreate(m, cs, a, 3, v1).value, a) && Kept(m, WalkCreate(m, cs, a, 3, v1).value, a)
  {
    CleanNoneValid(m, cs, a, 3, v1);
    WalkSteps(m, cs, a, 3, v1);
    var g, n := Grow(m, cs, a, 3).value, WalkCreate(m, cs, a, 3, v1).value;
    GrowTouches(m, cs, g, a, a, 3, R2(3));
    assert Holds(g.ts, a, R2(3)) && R2(3).v2 == 3;
    GrowTouches(g, cs, n, a, EntryOf(g.ts, a, R2(3)).ppn, v1, R1(3, v1));
    TouchedTwice(m, g, n, a);
    KeptTwice(m, g, n, a);
  }

  /** The leaf is set to a page that was free. */
  lemma LeafTouches(m: Mem, n: Mem, n': Mem, a: nat, v1: nat, v0: nat, e: Pte)
    requires MemOk(m, a) && MemOk(n, a) && Touched(m, n, a) && v0 < ENTRIES && IsPointer(EntryOf(n.ts, a, R1(3, v1))) && e.ppn in m.free && e.flags.v
    requires EntryOf(n.ts, a, R1(3, v1)).ppn in n.ts && n' == Mem(SetEntry(n.ts, EntryOf(n.ts, a, R1(3, v1)).ppn, v0, e), n.free)
    ensures Touched(m, n', a)
  {
    SetLeafEntries(n.ts, a, 3, v1, v0, e);
    var p0 := EntryOf(n.ts, a, R1(3, v1)).ppn;
    assert Holds(n.ts, a, R1(3, v1)) && R1(3, v1).v2 == 3;
    assert Private(n.ts, a, p0);
    if p0 in m.ts { StillPrivate(m, n, a, p0); }
    forall r | Holds(n'.ts, a, r)
      ensures (Holds(m.ts, a, r) && EntryOf(n'.ts, a, r) == EntryOf(m.ts, a, r)) || EntryOf(n'.ts, a, r).ppn in m.free {
      if r != R0(3, v1, v0) { assert Holds(n.ts, a, r); }
    }
  }

  lemma MapPageTouches(m: Mem, cs: Contents, a: nat, v1: nat, v0: nat, f: Flags)
    requires MemOk(m, a) && Walkable(m.ts, a, 3, v1) && MapClean(m, cs, a, 3, v1) && v0 < ENTRIES && MapPage(m, cs, a, 3, v1, v0, f).Next?
    ensures Touched(m, MapPage(m, cs, a, 3, v1, v0, f).value, a)
  {
    WithoutFirst(m, a);
    var m1 := Mem(m.ts, m.free[1..]);
    WalkTouches(m1, cs, a, v1);
    WalkCreateRefines(m1, cs, a, 3, v1);
    var n := WalkCreate(m1, cs, a, 3, v1).value;
    assert Touched(m, m1, a);
    TouchedTwice(m, m1, n, a);
    var p0 := EntryOf(n.ts, a, R1(3, v1)).ppn;
    LeafTouches(m, n, MapPage(m, cs, a, 3, v1, v0, f).value, a, v1, v0, MappedPte(n.ts[p0][v0], f, m.free[0]));
  }

  // Bystanders

  /** A space whose entries are the same stays ready, if the free pages are still no pages of it. */
  lemma SpaceInvSame(w: World, w': World, b: nat, main1: nat)
    requires SpaceInv(w, b, main1) && SameEntries(w.m.ts, w'.m.ts, b) && SpaceOk(w'.m.ts, b) && TidyTables(w'.m.ts)
    requires Unique(w'.m.free) && forall q :: q in w'.m.free ==> q !in w'.m.ts && NotHeld(w.m.ts, b, q) && InRam(q)
    ensures SpaceInv(w', b, main1)
  {
    forall r ensures Holds(w'.m.ts, b, r) == Holds(w.m.ts, b, r) {}
    forall i | 0 <= i < |w'.m.free| ensures w'.m.free[i] !in w'.m.ts && NotHeld(w'.m.ts, b, w'.m.free[i]) && InRam(w'.m.free[i]) {
      assert w'.m.free[i] in w'.m.free;
    }
  }

  lemma SameHolds(ts: Tables, ts': Tables, b: nat)
    requires SameEntries(ts, ts', b)
    ensures forall p :: NotHeld(ts', b, p) <==> NotHeld(ts, b, p)
    ensures forall p :: Private(ts', b, p) <==> Private(ts, b, p)
  {
    forall r ensures Holds(ts', b, r) == Holds(ts, b, r) {}
    forall p ensures Private(ts', b, p) <==> Private(ts, b, p) {
      if HeldByUser(ts, b, p) {
        var r: Ref :| r.v2 >= 3 && Holds(ts, b, r) && EntryOf(ts, b, r).ppn == p;
        assert Holds(ts', b, r);
      }
      if HeldByUser(ts', b, p) {
        var r: Ref :| r.v2 >= 3 && Holds(ts', b, r) && EntryOf(ts', b, r).ppn == p;
        assert Holds(ts, b, r);
      }
    }
  }

  lemma SameApart(ts: Tables, ts': Tables, b: nat, d: nat)
    requires SameEntries(ts, ts', b) && SameEntries(ts, ts', d) && Apart(ts, b, d)
    ensures Apart(ts', b, d)
  {
    SameHolds(ts, ts', b);
    SameHolds(ts, ts', d);
  }

  /** A space does not notice a step of a space apart from it. */
  lemma BystanderSame(w: World, n: Mem, a: nat, b: nat, main1: nat)
    requires SpaceInv(w, b, main1) && Apart(w.m.ts, a, b) && Touched(w.m, n, a) && MemOk(n, a)
    ensures SameEntries(w.m.ts, n.ts, b) && SpaceOk(n.ts, b)
  {
    forall p | IsTable(w.m.ts, b, p) ensures p in n.ts && n.ts[p] == At1(w.m.ts, p) {
      if p != b {
        var r: Ref :| !r.R0? && Holds(w.m.ts, b, r) && EntryOf(w.m.ts, b, r).ppn == p;
      }
      assert p in w.m.ts;
      assert !NotHeld(w.m.ts, b, p);
    }
    Undisturbed(w.m.ts, n.ts, b);
    forall r ensures Holds(n.ts, b, r) == Holds(w.m.ts, b, r) {}
    assert IsTable(w.m.ts, b, b);
    forall r: Ref | !r.R0? && Holds(n.ts, b, r) ensures EntryOf(n.ts, b, r).ppn in n.ts {
      assert IsTable(w.m.ts, b, EntryOf(w.m.ts, b, r).ppn);
    }
  }

  lemma BystanderReady(w: World, n: Mem, fr: Contents, a: nat, b: nat, main1: nat)
    requires SpaceInv(w, b, main1) && Apart(w.m.ts, a, b) && Touched(w.m, n, a) && MemOk(n, a)
    ensures SpaceInv(World(n, fr), b, main1) && SameEntries(w.m.ts, n.ts, b)
  {
    BystanderSame(w, n, a, b, main1);
    forall q | q in n.free ensures q !in n.ts && NotHeld(w.m.ts, b, q) && InRam(q) {
      FreeNotTable(n, a, q);
      FreeNotTable(w.m, b, q);
    }
    SpaceInvSame(w, World(n, fr), b, main1);
  }

  /** After a step of a, a and b are still apart. */
  lemma StillApart(w: World, n: Mem, a: nat, b: nat, main1: nat)
    requires SpaceInv(w, a, main1) && SpaceInv(w, b, main1) && Apart(w.m.ts, a, b) && Apart(w.m.ts, b, a)
    requires Touched(w.m, n, a) && SameEntries(w.m.ts, n.ts, b)
    ensures Apart(n.ts, a, b) && Apart(n.ts, b, a)
  {
    SameHolds(w.m.ts, n.ts, b);
    forall p | Private(n.ts, a, p) ensures NotHeld(n.ts, b, p) {
      if p == a {
        assert Private(w.m.ts, a, p);
      } else {
        var r: Ref :| r.v2 >= 3 && Holds(n.ts, a, r) && EntryOf(n.ts, a, r).ppn == p;
        if p in w.m.free { FreeNotTable(w.m, b, p); } else { assert Private(w.m.ts, a, p); }
      }
    }
    forall p | Private(n.ts, b, p) ensures NotHeld(n.ts, a, p) {
      assert Private(w.m.ts, b, p);
      PrivateNotFree(w.m, b, p);
    }
  }

  /** A page outside a that is not free stays outside. */
  lemma StillOutside(m: Mem, n: Mem, a: nat, q: nat)
    requires Touched(m, n, a) && NotHeld(m.ts, a, q) && q !in m.free
    ensures NotHeld(n.ts, a, q)
  {
  }

  // Page faults

  /** The frame that a page mapped before loses to a new one. */
  function Dropped(e: Pte): set<nat> { if e.flags.v then {e.ppn} else {} }

  lemma DroppedOutside(w: World, n: Mem, a: nat, main1: nat, ref: Ref)
    requires SpaceInv(w, a, main1) && Touched(w.m, n, a) && ref.R0? && ref.v2 == 3 && EntryOf(w.m.ts, a, ref).flags.v
    requires EntryOf(n.ts, a, ref).ppn in w.m.free
    ensures NotHeld(n.ts, a, EntryOf(w.m.ts, a, ref).ppn) && EntryOf(w.m.ts, a, ref).ppn !in w.m.free
    ensures Private(w.m.ts, a, EntryOf(w.m.ts, a, ref).ppn)
  {
    assert Holds(w.m.ts, a, ref);
    PrivateNotFree(w.m, a, EntryOf(w.m.ts, a, ref).ppn);
  }

  function AfterFault(s: Sys, a: nat, vptr: nat, n: Mem): Sys {
    Sys(World(n, s.w.fr), s.roots, s.lost + Dropped(Leaf(s.w.m.ts, a, vptr)))
  }

  ghost predicate Faulted(s: Sys, main1: nat, a: nat, vptr: nat, n: Mem) {
    && SysInv(s, main1) && a in s.roots && FaultInRange(vptr) && IsPage(s.w.m.ts, a) && MapFitsAt(s.w.m, s.w.fr, a, vptr, USER_RW)
    && MapAt(s.w.m, s.w.fr, a, vptr, USER_RW) == Next(n)
  }

  lemma FaultTouches(s: Sys, main1: nat, a: nat, vptr: nat, n: Mem)
    requires Faulted(s, main1, a, vptr, n)
    ensures Touched(s.w.m, n, a) && SpaceInv(World(n, s.w.fr), a, main1)
    ensures RefOf(vptr).v2 == 3 && s.w.m.free != [] && EntryOf(n.ts, a, RefOf(vptr)).ppn == s.w.m.free[0]
  {
    assert SpaceInv(s.w, a, main1);
    UserWalkable(s.w, a, main1, vptr);
    var cs := MapBlanked(s.w.m, s.w.fr, a, 3, Vpn1(vptr), Vpn0(vptr));
    MapOver(s.w.m, s.w.fr, a, 3, Vpn1(vptr), Vpn0(vptr), USER_RW);
    MapPageTouches(s.w.m, cs, a, Vpn1(vptr), Vpn0(vptr), USER_RW);
    MapPageRefines(s.w.m, cs, a, 3, Vpn1(vptr), Vpn0(vptr), USER_RW);
    FaultKeeps(s.w, a, main1, vptr, n);
  }

  lemma FaultOutside(s: Sys, main1: nat, a: nat, vptr: nat, n: Mem, b: nat)
    requires Faulted(s, main1, a, vptr, n) && b in s.roots
    requires Touched(s.w.m, n, a) && (b != a ==> SameEntries(s.w.m.ts, n.ts, b))
    requires RefOf(vptr).v2 == 3 && s.w.m.free != [] && EntryOf(n.ts, a, RefOf(vptr)).ppn == s.w.m.free[0]
    ensures Outside(n.ts, b, s.lost + Dropped(Leaf(s.w.m.ts, a, vptr)))
  {
    var e := Leaf(s.w.m.ts, a, vptr);
    assert SpaceInv(s.w, a, main1) && Outside(s.w.m.ts, b, s.lost);
    if e.flags.v { DroppedOutside(s.w, n, a, main1, RefOf(vptr)); }
    if b != a {
      assert Apart(s.w.m.ts, a, b);
      SameHolds(s.w.m.ts, n.ts, b);
    } else {
      forall q | q in s.lost ensures NotHeld(n.ts, a, q) { StillOutside(s.w.m, n, a, q); }
      forall q | Private(n.ts, a, q) ensures InRam(q) { TouchedInRam(s.w.m, n, a, q); }
    }
  }

  lemma TouchedInRam(m: Mem, n: Mem, a: nat, q: nat)
    requires MemOk(m, a) && Touched(m, n, a) && Private(n.ts, a, q) && forall p :: Private(m.ts, a, p) ==> InRam(p)
    ensures InRam(q)
  {
    if q == a {
      assert Private(m.ts, a, a);
    } else {
      var r: Ref :| r.v2 >= 3 && Holds(n.ts, a, r) && EntryOf(n.ts, a, r).ppn == q;
      if q in m.free { FreeNotTable(m, a, q); } else { assert Private(m.ts, a, q); }
    }
  }

  lemma FaultEach(s: Sys, main1: nat, a: nat, vptr: nat, n: Mem, b: nat)
    requires Faulted(s, main1, a, vptr, n) && b in s.roots && b != a && Touched(s.w.m, n, a) && SpaceInv(World(n, s.w.fr), a, main1)
    ensures SpaceInv(World(n, s.w.fr), b, main1) == true && SameEntries(s.w.m.ts, n.ts, b) == true
    ensures Apart(n.ts, a, b) == true && Apart(n.ts, b, a) == true
  {
    assert SpaceInv(s.w, a, main1) && SpaceInv(s.w, b, main1) && Apart(s.w.m.ts, a, b) && Apart(s.w.m.ts, b, a);
    BystanderReady(s.w, n, s.w.fr, a, b, main1);
    StillApart(s.w, n, a, b, main1);
  }

  /** A fault of space a keeps the system in order, and no other space notices it. */
  lemma FaultStep(s: Sys, main1: nat, a: nat, vptr: nat, n: Mem)
    requires Faulted(s, main1, a, vptr, n)
    ensures SysInv(AfterFault(s, a, vptr, n), main1)
    ensures forall b :: b in s.roots && b != a ==> SameEntries(s.w.m.ts, n.ts, b)
  {
    FaultTouches(s, main1, a, vptr, n);
    assert SpaceInv(s.w, a, main1);
    forall b | b in s.roots && b != a
      ensures SpaceInv(World(n, s.w.fr), b, main1) == true && SameEntries(s.w.m.ts, n.ts, b) == true
      ensures Apart(n.ts, a, b) == true && Apart(n.ts, b, a) == true {
      FaultEach(s, main1, a, vptr, n, b);
    }
    forall b | b in s.roots ensures Outside(n.ts, b, s.lost + Dropped(Leaf(s.w.m.ts, a, vptr))) == true { FaultOutside(s, main1, a, vptr, n, b); }
    forall b, c | b in s.roots && c in s.roots && b != c && b != a && c != a ensures Apart(n.ts, b, c) == true {
      assert Apart(s.w.m.ts, b, c);
      SameApart(s.w.m.ts, n.ts, b, c);
    }
    forall q | q in AfterFault(s, a, vptr, n).lost ensures q !in n.free {
      if q !in s.lost { DroppedOutside(s.w, n, a, main1, RefOf(vptr)); }
    }
  }

  // Forks

  ghost predicate Forked(s: Sys, main1: nat, a: nat, v: World) {
    SysInv(s, main1) && a in s.roots && CloneFits(s.w, a) && SpaceClone(s.w, a, main1) == Next(v)
  }

  function AfterFork(s: Sys, v: World): Sys
    requires s.w.m.free != []
  {
    Sys(v, s.roots + {s.w.m.free[0]}, s.lost)
  }

  lemma ForkClones(s: Sys, main1: nat, a: nat, v: World)
    requires Forked(s, main1, a, v)
    ensures s.w.m.free != [] && Cloned(s.w, a, main1, v) && SpaceInv(v, s.w.m.free[0], main1)
  {
    assert SpaceInv(s.w, a, main1);
    CloneSucceeds(s.w, a, main1);
    ChildReady(s.w, a, main1, v);
  }

  /** The spaces there were do not notice a clone. */
  lemma ForkBystander(w: World, a: nat, main1: nat, v: World, b: nat)
    requires Cloned(w, a, main1, v) && SpaceInv(v, w.m.free[0], main1) && SpaceInv(w, b, main1)
    ensures SameEntries(w.m.ts, v.m.ts, b) && SpaceInv(v, b, main1)
  {
    SpaceKept(w, b, v.m.ts);
    forall q | q in v.m.free ensures q !in v.m.ts && NotHeld(w.m.ts, b, q) && InRam(q) {
      FreeNotTable(v.m, w.m.free[0], q);
      SuffixIn(v.m.free, w.m.free, q);
      FreeNotTable(w.m, b, q);
    }
    SpaceInvSame(w, v, b, main1);
  }

  /** What the child has for itself was free. */
  lemma ChildPages(w: World, a: nat, main1: nat, v: World, p: nat)
    requires Cloned(w, a, main1, v) && Private(v.m.ts, w.m.free[0], p)
    ensures p in w.m.free
  {
    if p != w.m.free[0] {
      var r: Ref :| r.v2 >= 3 && Holds(v.m.ts, w.m.free[0], r) && EntryOf(v.m.ts, w.m.free[0], r).ppn == p;
      assert Taken(w.m.free, v.m.free, p);
    }
  }

  /** A page outside the parent that was not free is outside the child. */
  lemma OutsideChild(w: World, a: nat, main1: nat, v: World, p: nat)
    requires Cloned(w, a, main1, v) && p !in w.m.free
    requires forall r: Ref :: r.v2 < 3 && Holds(w.m.ts, a, r) ==> EntryOf(w.m.ts, a, r).ppn != p
    ensures NotHeld(v.m.ts, w.m.free[0], p)
  {
    var c := w.m.free[0];
    assert c in w.m.free;
    forall r | Holds(v.m.ts, c, r) ensures EntryOf(v.m.ts, c, r).ppn != p {
      if r.v2 >= 3 {
        assert Taken(w.m.free, v.m.free, EntryOf(v.m.ts, c, r).ppn);
      } else {
        assert EntryOf(v.m.ts, c, r) == EntryOf(w.m.ts, a, r) && Holds(w.m.ts, a, r);
      }
    }
  }

  lemma ForkApart(s: Sys, main1: nat, a: nat, v: World, b: nat)
    requires SysInv(s, main1) && a in s.roots && b in s.roots && Cloned(s.w, a, main1, v) && SameEntries(s.w.m.ts, v.m.ts, b)
    ensures Apart(v.m.ts, s.w.m.free[0], b) && Apart(v.m.ts, b, s.w.m.free[0])
  {
    assert SpaceInv(s.w, a, main1) && SpaceInv(s.w, b, main1);
    SameHolds(s.w.m.ts, v.m.ts, b);
    forall p | Private(v.m.ts, s.w.m.free[0], p) ensures NotHeld(v.m.ts, b, p) {
      ChildPages(s.w, a, main1, v, p);
      FreeNotTable(s.w.m, b, p);
    }
    forall p | Private(v.m.ts, b, p) ensures NotHeld(v.m.ts, s.w.m.free[0], p) {
      assert Private(s.w.m.ts, b, p);
      PrivateNotFree(s.w.m, b, p);
      if b != a { assert Apart(s.w.m.ts, b, a); } else if p != a {
        var h: Ref :| h.v2 >= 3 && Holds(s.w.m.ts, a, h) && EntryOf(s.w.m.ts, a, h).ppn == p;
        forall r: Ref | r.v2 < 3 && Holds(s.w.m.ts, a, r) ensures EntryOf(s.w.m.ts, a, r).ppn != p { assert r != h; }
      }
      OutsideChild(s.w, a, main1, v, p);
    }
  }

  lemma ForkEach(s: Sys, main1: nat, a: nat, v: World, b: nat)
    requires Forked(s, main1, a, v) && b in s.roots
    ensures s.w.m.free != [] && SameEntries(s.w.m.ts, v.m.ts, b) == true && SpaceInv(v, b, main1) == true
    ensures Apart(v.m.ts, s.w.m.free[0], b) == true && Apart(v.m.ts, b, s.w.m.free[0]) == true && Outside(v.m.ts, b, s.lost) == true
  {
    ForkClones(s, main1, a, v);
    assert SpaceInv(s.w, b, main1);
    ForkBystander(s.w, a, main1, v, b);
    ForkApart(s, main1, a, v, b);
    assert Outside(s.w.m.ts, b, s.lost);
    SameHolds(s.w.m.ts, v.m.ts, b);
  }

  lemma ForkMem(s: Sys, main1: nat, a: nat, v: World)
    requires Forked(s, main1, a, v)
    ensures s.w.m.free != [] && FramesKept(s.w, v.fr) == true && forall q :: q in v.m.free ==> q in s.w.m.free
  {
    ForkClones(s, main1, a, v);
    forall q | q in v.m.free ensures q in s.w.m.free { SuffixIn(v.m.free, s.w.m.free, q); }
  }

  lemma ForkChild(s: Sys, main1: nat, a: nat, v: World)
    requires Forked(s, main1, a, v)
    ensures s.w.m.free != [] && SpaceInv(v, s.w.m.free[0], main1) == true && Outside(v.m.ts, s.w.m.free[0], s.lost) == true
  {
    ForkClones(s, main1, a, v);
    ForkOutside(s, main1, a, v);
  }

  /** Each space there was, with the new one. */
  ghost predicate Beside(v: World, main1: nat, c: nat, lost: set<nat>, b: nat) {
    SpaceInv(v, b, main1) && Outside(v.m.ts, b, lost) && Apart(v.m.ts, c, b) && Apart(v.m.ts, b, c)
  }

  lemma AddSpace(v: World, roots: set<nat>, lost: set<nat>, main1: nat, c: nat)
    requires forall b :: b in roots ==> Beside(v, main1, c, lost, b)
    requires forall b, d :: b in roots && d in roots && b != d ==> Apart(v.m.ts, b, d)
    requires SpaceInv(v, c, main1) && Outside(v.m.ts, c, lost) && forall q :: q in lost ==> q !in v.m.free
    ensures SysInv(Sys(v, roots + {c}, lost), main1) == true
  {
    var all := roots + {c};
    forall b | b in all ensures SpaceInv(v, b, main1) == true && Outside(v.m.ts, b, lost) == true {
      assert b in roots ==> Beside(v, main1, c, lost, b);
    }
    forall b, d | b in all && d in all && b != d ensures Apart(v.m.ts, b, d) == true {
      assert b in roots ==> Beside(v, main1, c, lost, b);
      assert d in roots ==> Beside(v, main1, c, lost, d);
    }
  }

  /** A fork of space a keeps the system in order, and no space notices it. */
  lemma ForkStep(s: Sys, main1: nat, a: nat, v: World)
    requires Forked(s, main1, a, v)
    ensures s.w.m.free != [] && SysInv(AfterFork(s, v), main1) == true
    ensures forall b :: b in s.roots ==> SameEntries(s.w.m.ts, v.m.ts, b)
    ensures FramesKept(s.w, v.fr) == true
  {
    ForkMem(s, main1, a, v);
    ForkChild(s, main1, a, v);
    var c := s.w.m.free[0];
    forall b | b in s.roots ensures SameEntries(s.w.m.ts, v.m.ts, b) == true && Beside(v, main1, c, s.lost, b) == true {
      ForkEach(s, main1, a, v, b);
    }
    forall b, d | b in s.roots && d in s.roots && b != d ensures Apart(v.m.ts, b, d) == true {
      assert Apart(s.w.m.ts, b, d);
      SameApart(s.w.m.ts, v.m.ts, b, d);
    }
    AddSpace(v, s.roots, s.lost, main1, c);
  }

  lemma ForkOutside(s: Sys, main1: nat, a: nat, v: World)
    requires SysInv(s, main1) && a in s.roots && Cloned(s.w, a, main1, v)
    ensures Outside(v.m.ts, s.w.m.free[0], s.lost)
  {
    assert SpaceInv(s.w, a, main1) && Outside(s.w.m.ts, a, s.lost);
    forall q | q in s.lost ensures NotHeld(v.m.ts, s.w.m.free[0], q) { OutsideChild(s.w, a, main1, v, q); }
    forall q | Private(v.m.ts, s.w.m.free[0], q) ensures InRam(q) {
      ChildPages(s.w, a, main1, v, q);
      FreeNotTable(s.w.m, a, q);
    }
  }

  // Exits

  /** Reclaim frees only private pages of the space, and not its root. */
  lemma FreedIsPrivate(w: World, a: nat, main1: nat, q: nat)
    requires SpaceInv(w, a, main1)
    ensures q in Freed(w.m.ts, a) <==> HeldByUser(w.m.ts, a, q)
    ensures q in Freed(w.m.ts, a) ==> q != a
  {
    FreedExactly(w.m.ts, a, q);
    if q in Freed(w.m.ts, a) {
      var r :| Owns(w.m.ts, a, r) && EntryOf(w.m.ts, a, r).ppn == q;
      if r.v2 < 3 { GlobalNotOwned(w, a, main1, r); }
    }
    if HeldByUser(w.m.ts, a, q) {
      var r: Ref :| r.v2 >= 3 && Holds(w.m.ts, a, r) && EntryOf(w.m.ts, a, r).ppn == q;
      if !r.R0? { assert TableOrEmpty(EntryOf(w.m.ts, a, r)); }
      assert Owns(w.m.ts, a, r);
    }
  }

  lemma GlobalNotOwned(w: World, a: nat, main1: nat, r: Ref)
    requires SpaceInv(w, a, main1) && r.v2 < 3
    ensures !Owns(w.m.ts, a, r)
  {
    assert EntryOf(w.m.ts, a, R2(r.v2)).flags.g;
    if r.R1? {
      assert r.R1? && EntryOf(w.m.ts, a, R2(r.v2)).flags.g;
    } else if r.R0? && EntryOf(w.m.ts, a, r).flags.v {
      var mid := R1(r.v2, r.v1);
      assert EntryOf(w.m.ts, a, R2(mid.v2)).flags.g && EntryOf(w.m.ts, a, mid).flags.v;
      assert EntryOf(w.m.ts, a, R1(r.v2, r.v1)).flags.g;
    }
  }

  function AfterExit(s: Sys, a: nat): Sys {
    Sys(After(s.w, a, Freed(s.w.m.ts, a)), s.roots - {a}, s.lost + {a})
  }

  lemma ExitFree(w: World, a: nat, main1: nat)
    requires SpaceInv(w, a, main1)
    ensures Unique(Reversed(Freed(w.m.ts, a)) + w.m.free)
  {
    var freed := Freed(w.m.ts, a);
    FreedOnce(w.m.ts, a);
    ReversedUnique(freed);
    forall x | x in Reversed(freed) ensures x !in w.m.free {
      ReversedIn(freed, x);
      FreedIsPrivate(w, a, main1, x);
      PrivateNotFree(w.m, a, x);
    }
    UniqueConcat(Reversed(freed), w.m.free);
  }

  /** Tables of b are not among the pages that reclaiming a frees. */
  lemma ExitSame(w: World, a: nat, b: nat, main1: nat)
    requires SpaceInv(w, a, main1) && SpaceInv(w, b, main1) && Apart(w.m.ts, a, b)
    ensures SameEntries(w.m.ts, Minus(w.m.ts, Freed(w.m.ts, a)), b) && SpaceOk(Minus(w.m.ts, Freed(w.m.ts, a)), b)
  {
    var freed := Freed(w.m.ts, a);
    var ts' := Minus(w.m.ts, freed);
    forall p | IsTable(w.m.ts, b, p) ensures p in ts' && ts'[p] == At1(w.m.ts, p) {
      if p != b {
        var r: Ref :| !r.R0? && Holds(w.m.ts, b, r) && EntryOf(w.m.ts, b, r).ppn == p;
      }
      assert p in w.m.ts && !NotHeld(w.m.ts, b, p);
      FreedIsPrivate(w, a, main1, p);
    }
    Undisturbed(w.m.ts, ts', b);
    forall r ensures Holds(ts', b, r) == Holds(w.m.ts, b, r) {}
    assert IsTable(w.m.ts, b, b);
    forall r: Ref | !r.R0? && Holds(ts', b, r) ensures EntryOf(ts', b, r).ppn in ts' {
      assert IsTable(w.m.ts, b, EntryOf(w.m.ts, b, r).ppn);
    }
  }

  lemma ExitBystander(s: Sys, main1: nat, a: nat, b: nat)
    requires SysInv(s, main1) && a in s.roots && b in s.roots && b != a
    ensures SpaceInv(AfterExit(s, a).w, b, main1) && SameEntries(s.w.m.ts, AfterExit(s, a).w.m.ts, b)
  {
    assert SpaceInv(s.w, a, main1) && SpaceInv(s.w, b, main1) && Apart(s.w.m.ts, a, b) && Outside(s.w.m.ts, a, s.lost);
    var freed, t := Freed(s.w.m.ts, a), AfterExit(s, a).w;
    ExitSame(s.w, a, b, main1);
    ExitFree(s.w, a, main1);
    forall q | q in t.m.free ensures q !in t.m.ts && NotHeld(s.w.m.ts, b, q) && InRam(q) {
      ReversedIn(freed, q);
      if q in freed { FreedIsPrivate(s.w, a, main1, q); } else { FreeNotTable(s.w.m, b, q); }
    }
    SpaceInvSame(s.w, t, b, main1);
  }

  /** The exit of space a keeps the system in order, and no other space notices it. */
  lemma ExitStep(s: Sys, main1: nat, a: nat)
    requires SysInv(s, main1) && a in s.roots
    ensures SysInv(AfterExit(s, a), main1)
    ensures forall b :: b in s.roots && b != a ==> SameEntries(s.w.m.ts, AfterExit(s, a).w.m.ts, b)
  {
    var t := AfterExit(s, a);
    assert SpaceInv(s.w, a, main1) && Outside(s.w.m.ts, a, s.lost);
    forall b | b in s.roots && b != a
      ensures SpaceInv(t.w, b, main1) && SameEntries(s.w.m.ts, t.w.m.ts, b) && Outside(t.w.m.ts, b, t.lost) {
      ExitBystander(s, main1, a, b);
      SameHolds(s.w.m.ts, t.w.m.ts, b);
      assert Outside(s.w.m.ts, b, s.lost) && Apart(s.w.m.ts, a, b) && Private(s.w.m.ts, a, a);
    }
    forall b, d | b in t.roots && d in t.roots && b != d ensures Apart(t.w.m.ts, b, d) {
      assert Apart(s.w.m.ts, b, d);
      SameApart(s.w.m.ts, t.w.m.ts, b, d);
    }
    forall q | q in t.lost ensures q !in t.w.m.free {
      ReversedIn(Freed(s.w.m.ts, a), q);
      FreedIsPrivate(s.w, a, main1, q);
      if q == a { PrivateNotFree(s.w.m, a, a); }
    }
  }

  // Pages

  ghost predicate OwnedBySome(s: Sys, q: nat) {
    exists a :: a in s.roots && Private(s.w.m.ts, a, q)
  }

  /** Every one of these pages is free, lost, or private to a live space. */
  ghost predicate Accounted(pages: seq<nat>, s: Sys) {
    forall q :: q in pages ==> q in s.w.m.free || q in s.lost || OwnedBySome(s, q)
  }

  /** And it is only one of these, and private to only one space. */
  lemma OneOwner(s: Sys, main1: nat, q: nat, a: nat, b: nat)
    requires SysInv(s, main1) && a in s.roots && Private(s.w.m.ts, a, q)
    ensures q !in s.w.m.free && q !in s.lost && (b in s.roots && Private(s.w.m.ts, b, q) ==> b == a)
  {
    assert SpaceInv(s.w, a, main1) && Outside(s.w.m.ts, a, s.lost);
    PrivateNotFree(s.w.m, a, q);
    if b in s.roots && b != a { assert Apart(s.w.m.ts, b, a); }
  }

  /** What becomes of the pages when a leaf is set to a new one. */
  lemma LeafKeepsPages(n: Mem, n': Mem, a: nat, ref: Ref, e: Pte, q: nat)
    requires OnlyChanges(n.ts, n'.ts, a, ref, e) && ref.R0? && ref.v2 == 3 && e.flags.v && !e.flags.g
    ensures Private(n'.ts, a, e.ppn)
    ensures Private(n.ts, a, q) ==> Private(n'.ts, a, q) || q in Dropped(EntryOf(n.ts, a, ref))
  {
    assert Holds(n'.ts, a, ref);
    if q != a && HeldByUser(n.ts, a, q) {
      var r: Ref :| r.v2 >= 3 && Holds(n.ts, a, r) && EntryOf(n.ts, a, r).ppn == q;
      if r != ref { assert Holds(n'.ts, a, r); }
    }
  }

  lemma MapPageKeepsPages(m: Mem, cs: Contents, a: nat, v1: nat, v0: nat, f: Flags, q: nat)
    requires MemOk(m, a) && Walkable(m.ts, a, 3, v1) && MapClean(m, cs, a, 3, v1) && v0 < ENTRIES && MapPage(m, cs, a, 3, v1, v0, f).Next?
    requires !f.g && !EntryOf(m.ts, a, R0(3, v1, v0)).flags.g
    ensures var n := MapPage(m, cs, a, 3, v1, v0, f).value;
            && (q in m.free ==> q in n.free || Private(n.ts, a, q) || q in Dropped(EntryOf(m.ts, a, R0(3, v1, v0))))
            && (Private(m.ts, a, q) ==> Private(n.ts, a, q) || q in Dropped(EntryOf(m.ts, a, R0(3, v1, v0))))
  {
    MapPageParts(m, cs, a, v1, v0, f);
    var n := WalkCreate(Mem(m.ts, m.free[1..]), cs, a, 3, v1).value;
    var e := MappedPte(EntryOf(m.ts, a, R0(3, v1, v0)), f, m.free[0]);
    LeafKeepsPages(n, MapPage(m, cs, a, 3, v1, v0, f).value, a, R0(3, v1, v0), e, q);
    if q in m.free && q != m.free[0] { assert q in m.free[1..]; }
  }

  /** Mapping a page is a walk, which keeps the pages, and the change of one leaf. */
  lemma MapPageParts(m: Mem, cs: Contents, a: nat, v1: nat, v0: nat, f: Flags)
    requires MemOk(m, a) && Walkable(m.ts, a, 3, v1) && MapClean(m, cs, a, 3, v1) && v0 < ENTRIES && MapPage(m, cs, a, 3, v1, v0, f).Next?
    ensures m.free != [] && WalkCreate(Mem(m.ts, m.free[1..]), cs, a, 3, v1).Next?
    ensures var m1, n' := Mem(m.ts, m.free[1..]), MapPage(m, cs, a, 3, v1, v0, f).value;
            var n, ref := WalkCreate(m1, cs, a, 3, v1).value, R0(3, v1, v0);
            && Kept(m1, n, a) && n'.free == n.free && EntryOf(n.ts, a, ref) == EntryOf(m.ts, a, ref)
            && OnlyChanges(n.ts, n'.ts, a, ref, MappedPte(EntryOf(m.ts, a, ref), f, m.free[0])) == true
  {
    WithoutFirst(m, a);
    var m1 := Mem(m.ts, m.free[1..]);
    WalkTouches(m1, cs, a, v1);
    WalkCreateRefines(m1, cs, a, 3, v1);
    var n := WalkCreate(m1, cs, a, 3, v1).value;
    LeafRaw(n, a, 3, v1, v0);
    SetLeafEntries(n.ts, a, 3, v1, v0, MappedPte(EntryOf(n.ts, a, R0(3, v1, v0)), f, m.free[0]));
  }

  lemma FaultAccounts(s: Sys, main1: nat, a: nat, vptr: nat, n: Mem, pages: seq<nat>)
    requires Faulted(s, main1, a, vptr, n) && Accounted(pages, s)
    requires forall b :: b in s.roots && b != a ==> SameEntries(s.w.m.ts, n.ts, b)
    ensures Accounted(pages, AfterFault(s, a, vptr, n))
  {
    var t := AfterFault(s, a, vptr, n);
    assert SpaceInv(s.w, a, main1);
    UserWalkable(s.w, a, main1, vptr);
    assert RefOf(vptr).R0? && RefOf(vptr).v2 == 3;
    MapOver(s.w.m, s.w.fr, a, 3, Vpn1(vptr), Vpn0(vptr), USER_RW);
    forall q | q in pages ensures q in n.free || q in t.lost || OwnedBySome(t, q) {
      MapPageKeepsPages(s.w.m, MapBlanked(s.w.m, s.w.fr, a, 3, Vpn1(vptr), Vpn0(vptr)), a, Vpn1(vptr), Vpn0(vptr), USER_RW, q);
      if q !in s.w.m.free && q !in s.lost {
        var b :| b in s.roots && Private(s.w.m.ts, b, q);
        if b != a { SameHolds(s.w.m.ts, n.ts, b); }
      }
    }
  }

  lemma ForkAccounts(s: Sys, main1: nat, a: nat, v: World, pages: seq<nat>)
    requires Forked(s, main1, a, v) && Accounted(pages, s)
    ensures s.w.m.free != [] && Accounted(pages, AfterFork(s, v))
  {
    ForkStep(s, main1, a, v);
    var t, c := AfterFork(s, v), s.w.m.free[0];
    forall q | q in pages ensures q in v.m.free || q in t.lost || OwnedBySome(t, q) {
      if q in s.w.m.free {
        ForkKeepsPage(s, main1, a, v, q);
        if q !in v.m.free { assert c in t.roots && Private(t.w.m.ts, c, q); }
      } else if q !in s.lost {
        var b :| b in s.roots && Private(s.w.m.ts, b, q);
        SameHolds(s.w.m.ts, v.m.ts, b);
        assert b in t.roots;
      }
    }
  }

  lemma ForkKeepsPage(s: Sys, main1: nat, a: nat, v: World, q: nat)
    requires Forked(s, main1, a, v) && q in s.w.m.free
    ensures s.w.m.free != [] && (q in v.m.free || Private(v.m.ts, s.w.m.free[0], q))
  {
    ForkClones(s, main1, a, v);
    if q !in v.m.free { assert Taken(s.w.m.free, v.m.free, q); }
  }

  lemma ExitAccounts(s: Sys, main1: nat, a: nat, pages: seq<nat>)
    requires SysInv(s, main1) && a in s.roots && Accounted(pages, s)
    requires forall b :: b in s.roots && b != a ==> SameEntries(s.w.m.ts, AfterExit(s, a).w.m.ts, b)
    ensures Accounted(pages, AfterExit(s, a))
  {
    var t := AfterExit(s, a);
    forall q | q in pages ensures q in t.w.m.free || q in t.lost || OwnedBySome(t, q) { ExitKeepsPage(s, main1, a, q); }
  }

  /** A page is still accounted for: those private to the space are free or lost then. */
  lemma ExitKeepsPage(s: Sys, main1: nat, a: nat, q: nat)
    requires SysInv(s, main1) && a in s.roots && (q in s.w.m.free || q in s.lost || OwnedBySome(s, q))
    requires forall b :: b in s.roots && b != a ==> SameEntries(s.w.m.ts, AfterExit(s, a).w.m.ts, b)
    ensures var t := AfterExit(s, a); q in t.w.m.free || q in t.lost || OwnedBySome(t, q)
  {
    var t := AfterExit(s, a);
    ReversedIn(Freed(s.w.m.ts, a), q);
    if q !in s.w.m.free && q !in s.lost {
      var b :| b in s.roots && Private(s.w.m.ts, b, q);
      if b != a {
        SameHolds(s.w.m.ts, t.w.m.ts, b);
        assert b in t.roots && Private(t.w.m.ts, b, q);
      } else {
        assert SpaceInv(s.w, a, main1);
        FreedIsPrivate(s.w, a, main1, q);
      }
    }
  }
}
