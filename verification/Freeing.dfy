/**
 What memory_space_reclaim leaves behind: the free list with the freed pages in front, last one first, and in
 every freed page the link to the next free page and, but for that, what the page held. Nothing is cleared
 except the entries of level-0 tables.
 */
module Freeing {
  import opened Common
  import opened Sv39
  import opened Walk
  import opened Clone
  import opened Reclaim

  function Reversed(s: seq<nat>): seq<nat> {
    if s == [] then [] else [s[|s| - 1]] + Reversed(s[..|s| - 1])
  }

  lemma {:induction false} ReversedIn(s: seq<nat>, q: nat)
    ensures q in Reversed(s) <==> q in s
  {
    if s != [] {
      ReversedIn(s[..|s| - 1], q);
      assert s == s[..|s| - 1] + [s[|s| - 1]];
    }
  }

  lemma {:induction false} ReversedUnique(s: seq<nat>)
    requires Unique(s)
    ensures Unique(Reversed(s))
  {
    if s != [] {
      var front, last := s[..|s| - 1], s[|s| - 1];
      ReversedUnique(front);
      forall x | x in [last] ensures x !in Reversed(front) { ReversedIn(front, x); }
      UniqueConcat([last], Reversed(front));
    }
  }

  lemma {:induction false} ReversedSame(s: seq<nat>)
    ensures multiset(Reversed(s)) == multiset(s)
  {
    if s != [] {
      ReversedSame(s[..|s| - 1]);
      assert s == s[..|s| - 1] + [s[|s| - 1]];
    }
  }

  /** Tables without the pages of a list. */
  function Minus(ts: Tables, gone: seq<nat>): Tables {
    map p | p in ts && p !in gone :: ts[p]
  }

  /** A level-0 table with its first n entries unmapped as reclaim does it. */
  function Cleared(t: Table, n: nat): (c: Table)
    requires n <= |t|
    ensures |c| == |t| && forall i :: 0 <= i < |t| ==> c[i] == if i < n && t[i].flags.v && !t[i].flags.g then NULL_PTE else t[i]
  {
    seq(|t|, i requires 0 <= i < |t| => if i < n && t[i].flags.v && !t[i].flags.g then NULL_PTE else t[i])
  }

  // One page

  /** What a page holds once memory_free_page has set its next field. */
  function Linked(d: Data, next: nat): Data {
    match d
    case Words(words) => Words([next * PAGE] + if words == [] then [] else words[1..])
    case Entries(_) => Entries(View(d)[0 := Link(next)])
  }

  lemma LinkedView(d: Data, next: nat)
    requires InRam(next) || next == 0
    ensures View(Linked(d, next)) == View(d)[0 := Link(next)]
  {
    LinkIsBlank(next);
  }

  function Held(w: World, p: nat): Data { if p in w.m.ts then Entries(w.m.ts[p]) else Content(w.fr, p) }

  /** memory_free_page of a page that holds d: it goes to the head of the list and keeps what it holds but for the link. */
  function PageFreed(w: World, p: nat, d: Data): World {
    World(Mem(Minus(w.m.ts, [p]), [p] + w.m.free), w.fr[p := Linked(d, Head(w.m.free))])
  }

  // A list of pages

  predicate IsLevel0(ts: Tables, root: nat, p: nat) {
    exists v2, v1 :: 0 <= v2 < ENTRIES && 0 <= v1 < ENTRIES && PointsTo(EntryOf(ts, root, R1(v2, v1)), p)
  }

  /** What a page of the space holds when its turn comes: a level-0 table has its entries cleared by then. */
  function LeftOn(w: World, root: nat, p: nat): Data {
    if p in w.m.ts && IsLevel0(w.m.ts, root, p) then Entries(Cleared(w.m.ts[p], |w.m.ts[p]|)) else Held(w, p)
  }

  /** Contents after these pages of the space have been freed one after the other. */
  function Stacked(w: World, root: nat, gone: seq<nat>): Contents {
    if gone == [] then w.fr
    else
      var before, p := gone[..|gone| - 1], gone[|gone| - 1];
      Stacked(w, root, before)[p := Linked(LeftOn(w, root, p), Head(Reversed(before) + w.m.free))]
  }

  function After(w: World, root: nat, gone: seq<nat>): World {
    World(Mem(Minus(w.m.ts, gone), Reversed(gone) + w.m.free), Stacked(w, root, gone))
  }

  lemma AfterNext(w: World, root: nat, gone: seq<nat>, p: nat)
    ensures After(w, root, gone + [p]) == PageFreed(After(w, root, gone), p, LeftOn(w, root, p))
  {
    assert (gone + [p])[..|gone|] == gone;
    assert [p] + Reversed(gone) + w.m.free == [p] + (Reversed(gone) + w.m.free);
    assert Minus(w.m.ts, gone + [p]) == Minus(Minus(w.m.ts, gone), [p]);
  }

  lemma {:induction false} StackedOther(w: World, root: nat, gone: seq<nat>, p: nat)
    requires p !in gone
    ensures Content(Stacked(w, root, gone), p) == Content(w.fr, p)
  {
    if gone != [] { StackedOther(w, root, gone[..|gone| - 1], p); }
  }

  /** A page that has not been freed holds what it held. */
  lemma HeldStill(w: World, root: nat, gone: seq<nat>, p: nat)
    requires p !in gone
    ensures Held(After(w, root, gone), p) == Held(w, p)
  {
    StackedOther(w, root, gone, p);
  }

  // One level-0 table

  function WithTable(w: World, p: nat, t: Table): World { World(Mem(w.m.ts[p := t], w.m.free), w.fr) }

  /** Another page is freed, and then the table is changed. */
  lemma FreedBeside(w: World, p: nat, t: Table, t': Table, q: nat, d: Data)
    requires q != p
    ensures WithTable(PageFreed(WithTable(w, p, t), q, d), p, t') == WithTable(PageFreed(w, q, d), p, t')
    ensures p in PageFreed(WithTable(w, p, t), q, d).m.ts && PageFreed(WithTable(w, p, t), q, d).m.ts[p] == t
    ensures Held(WithTable(w, p, t), q) == Held(w, q)
  {
  }

  /** All but table p0 is as after these pages and the frames of the first i entries of p0; p0 itself is still there. */
  function Emptied(w: World, root: nat, gone: seq<nat>, p0: nat, i: nat): World
    requires p0 in w.m.ts && i <= |w.m.ts[p0]|
  {
    WithTable(After(w, root, gone + Freed0(w.m.ts[p0], i)), p0, Cleared(w.m.ts[p0], i))
  }

  /** When the loop comes to entry i of p0, the frame it frees has not been freed and is no table of the space. */
  ghost predicate LeafFine(w: World, root: nat, gone: seq<nat>, p0: nat, i: nat)
    requires p0 in w.m.ts && i < |w.m.ts[p0]|
  {
    var t := w.m.ts[p0];
    t[i].flags.v && !t[i].flags.g ==>
      t[i].ppn !in gone && t[i].ppn !in Freed0(t, i) && t[i].ppn != p0 && !IsLevel0(w.m.ts, root, t[i].ppn)
  }

  lemma EmptiedStart(w: World, root: nat, gone: seq<nat>, p0: nat)
    requires p0 in w.m.ts && p0 !in gone
    ensures Emptied(w, root, gone, p0, 0) == After(w, root, gone)
  {
    assert gone + [] == gone;
    assert Cleared(w.m.ts[p0], 0) == w.m.ts[p0];
    assert Minus(w.m.ts, gone)[p0 := w.m.ts[p0]] == Minus(w.m.ts, gone);
  }

  /** An entry that frees nothing. */
  lemma EmptiedSkip(w: World, root: nat, gone: seq<nat>, p0: nat, i: nat)
    requires p0 in w.m.ts && i < |w.m.ts[p0]| && Leaf0(w.m.ts[p0][i]) == []
    ensures Emptied(w, root, gone, p0, i + 1) == Emptied(w, root, gone, p0, i)
  {
    var t := w.m.ts[p0];
    assert Freed0(t, i + 1) == Freed0(t, i) + [] == Freed0(t, i);
    assert Cleared(t, i) == Cleared(t, i + 1);
  }

  /** An entry whose frame is freed and which is then cleared. */
  lemma EmptiedNext(w: World, root: nat, gone: seq<nat>, p0: nat, i: nat)
    requires p0 in w.m.ts && i < |w.m.ts[p0]| && LeafFine(w, root, gone, p0, i) && Leaf0(w.m.ts[p0][i]) != []
    ensures var x, q := Emptied(w, root, gone, p0, i), w.m.ts[p0][i].ppn;
            var y := PageFreed(x, q, Held(x, q));
            && p0 in y.m.ts && |y.m.ts[p0]| == |w.m.ts[p0]|
            && Emptied(w, root, gone, p0, i + 1) == WithTable(y, p0, y.m.ts[p0][i := NULL_PTE])
  {
    var t, q := w.m.ts[p0], w.m.ts[p0][i].ppn;
    var f := gone + Freed0(t, i);
    assert gone + Freed0(t, i + 1) == f + [q];
    AfterNext(w, root, f, q);
    HeldStill(w, root, f, q);
    assert Cleared(t, i)[i := NULL_PTE] == Cleared(t, i + 1);
    FreedBeside(After(w, root, f), p0, Cleared(t, i), Cleared(t, i + 1), q, LeftOn(w, root, q));
  }

  /** The table goes after its frames. */
  lemma EmptiedFreed(w: World, root: nat, gone: seq<nat>, p0: nat)
    requires p0 in w.m.ts && IsLevel0(w.m.ts, root, p0)
    ensures var x := Emptied(w, root, gone, p0, |w.m.ts[p0]|);
            PageFreed(x, p0, Held(x, p0)) == After(w, root, gone + (Freed0(w.m.ts[p0], |w.m.ts[p0]|) + [p0]))
  {
    var t := w.m.ts[p0];
    var f := gone + Freed0(t, |t|);
    assert gone + (Freed0(t, |t|) + [p0]) == f + [p0];
    AfterNext(w, root, f, p0);
    var a := After(w, root, f);
    assert Minus(a.m.ts[p0 := Cleared(t, |t|)], [p0]) == Minus(a.m.ts, [p0]);
  }

  /** A global table whose leaves are all global stays as it is. */
  lemma EmptiedCalm(w: World, root: nat, gone: seq<nat>, p0: nat)
    requires p0 in w.m.ts && p0 !in gone && Freed0(w.m.ts[p0], |w.m.ts[p0]|) == []
    ensures Emptied(w, root, gone, p0, |w.m.ts[p0]|) == After(w, root, gone)
  {
    var t := w.m.ts[p0];
    EmptiedStart(w, root, gone, p0);
    forall i | 0 <= i < |t| ensures !(t[i].flags.v && !t[i].flags.g) { NoneFreed(t, |t|, i); }
    assert Cleared(t, |t|) == Cleared(t, 0);
  }

  lemma {:induction false} NoneFreed(t: Table, n: nat, i: nat)
    requires i < n <= |t| && Freed0(t, n) == []
    ensures !(t[i].flags.v && !t[i].flags.g)
  {
    assert Freed0(t, n) == Freed0(t, n - 1) + Leaf0(t[n - 1]);
    if i < n - 1 { NoneFreed(t, n - 1, i); }
  }

  // The order of reclaim

  /** A space that reclaim can work on. */
  ghost predicate Reclaimable(w: World, root: nat) {
    SpaceOk(w.m.ts, root) && GlobalOk(w.m.ts, root)
  }

  /** The level-1 table that entry v2 of the root points to. */
  function Level1(ts: Tables, root: nat, v2: nat): Table { At1(ts, EntryOf(ts, root, R2(v2)).ppn) }

  /** The pages freed before entry v1 of the level-1 table v2. */
  function Gone(ts: Tables, root: nat, v2: nat, v1: nat): seq<nat>
    requires v2 <= |At1(ts, root)| && v1 <= |Level1(ts, root, v2)|
  {
    Freed2(ts, At1(ts, root), v2) + Freed1(ts, Level1(ts, root, v2), v1)
  }

  /** Where reclaim reads: the root, and a level-1 table that has not been freed. */
  ghost predicate Entered(w: World, root: nat, v2: nat) {
    && v2 < ENTRIES == |At1(w.m.ts, root)| == |Level1(w.m.ts, root, v2)| && IsPointer(EntryOf(w.m.ts, root, R2(v2)))
    && At1(w.m.ts, root)[v2] == EntryOf(w.m.ts, root, R2(v2)) && EntryOf(w.m.ts, root, R2(v2)).ppn in w.m.ts
  }

  lemma Enters(w: World, root: nat, v2: nat)
    requires Reclaimable(w, root) && v2 < ENTRIES && IsPointer(At1(w.m.ts, root)[v2])
    ensures Entered(w, root, v2)
  {
    assert Holds(w.m.ts, root, R2(v2));
  }

  /** The level-1 table has not been freed when its entries are read, nor has the root. */
  lemma TablesStay(w: World, root: nat, v2: nat, v1: nat)
    requires Reclaimable(w, root) && Entered(w, root, v2) && v1 <= ENTRIES
    ensures EntryOf(w.m.ts, root, R2(v2)).ppn !in Gone(w.m.ts, root, v2, v1)
  {
    assert Holds(w.m.ts, root, R2(v2));
    NotFreedYet(w.m.ts, root, v2, v1, R2(v2));
  }

  lemma RootStays(w: World, root: nat, v2: nat)
    requires Reclaimable(w, root) && v2 <= ENTRIES
    ensures root !in Freed2(w.m.ts, At1(w.m.ts, root), v2)
  {
    In2(w.m.ts, root, v2, root);
  }

  /** Entry v1 of the level-1 table v2 points to a table whose frames can be freed. */
  ghost predicate Entered0(w: World, root: nat, v2: nat, v1: nat)
    requires Entered(w, root, v2) && v1 < ENTRIES
  {
    var p0, gone := Level1(w.m.ts, root, v2)[v1].ppn, Gone(w.m.ts, root, v2, v1);
    && p0 in w.m.ts && |w.m.ts[p0]| == ENTRIES && p0 !in gone && IsLevel0(w.m.ts, root, p0)
    && forall i :: 0 <= i < ENTRIES ==> LeafFine(w, root, gone, p0, i)
  }

  lemma Enters0(w: World, root: nat, v2: nat, v1: nat)
    requires Reclaimable(w, root) && Entered(w, root, v2) && v1 < ENTRIES && IsPointer(Level1(w.m.ts, root, v2)[v1])
    ensures Entered0(w, root, v2, v1) && Calm0(w.m.ts, Level1(w.m.ts, root, v2)[v1])
  {
    var ts, e := w.m.ts, EntryOf(w.m.ts, root, R1(v2, v1));
    assert Level1(ts, root, v2)[v1] == e;
    assert Holds(ts, root, R1(v2, v1));
    NotFreedYet(ts, root, v2, v1, R1(v2, v1));
    assert PointsTo(e, e.ppn);
    forall i | 0 <= i < ENTRIES ensures LeafFine(w, root, Gone(ts, root, v2, v1), e.ppn, i) { LeafIsFine(w, root, v2, v1, i); }
    if e.flags.g { NothingBelow0(ts, root, v2, v1); }
  }

  lemma LeafIsFine(w: World, root: nat, v2: nat, v1: nat, i: nat)
    requires Reclaimable(w, root) && Entered(w, root, v2) && v1 < ENTRIES && IsPointer(EntryOf(w.m.ts, root, R1(v2, v1))) && i < ENTRIES
    ensures EntryOf(w.m.ts, root, R1(v2, v1)).ppn in w.m.ts && i < |w.m.ts[EntryOf(w.m.ts, root, R1(v2, v1)).ppn]|
    ensures LeafFine(w, root, Gone(w.m.ts, root, v2, v1), EntryOf(w.m.ts, root, R1(v2, v1)).ppn, i)
  {
    var ts, ref := w.m.ts, R0(v2, v1, i);
    assert Holds(ts, root, R1(v2, v1));
    var t, q := ts[EntryOf(ts, root, R1(v2, v1)).ppn], EntryOf(ts, root, ref).ppn;
    assert EntryOf(ts, root, ref) == Seen(t[i]);
    if t[i].flags.v && !t[i].flags.g {
      assert Holds(ts, root, ref);
      NotFreedYet(ts, root, v2, v1, ref);
      In0(ts, root, v2, v1, i, q);
      forall r | Before0(r, v2, v1, i) && Owns(ts, root, r) ensures EntryOf(ts, root, r).ppn != q {}
      forall a, b | 0 <= a < ENTRIES && 0 <= b < ENTRIES ensures !PointsTo(EntryOf(ts, root, R1(a, b)), q) {
        if IsPointer(EntryOf(ts, root, R1(a, b))) { assert Holds(ts, root, R1(a, b)); }
      }
    }
  }

  /** A level-1 table is no level-0 table, and a global one has nothing below it that is freed. */
  lemma LeavesTable1(w: World, root: nat, v2: nat)
    requires Reclaimable(w, root) && Entered(w, root, v2)
    ensures LeftOn(w, root, EntryOf(w.m.ts, root, R2(v2)).ppn) == Held(w, EntryOf(w.m.ts, root, R2(v2)).ppn)
    ensures EntryOf(w.m.ts, root, R2(v2)).flags.g ==> Freed1(w.m.ts, Level1(w.m.ts, root, v2), ENTRIES) == []
  {
    var ts, e := w.m.ts, EntryOf(w.m.ts, root, R2(v2));
    assert Holds(ts, root, R2(v2));
    forall a, b | 0 <= a < ENTRIES && 0 <= b < ENTRIES ensures !PointsTo(EntryOf(ts, root, R1(a, b)), e.ppn) {
      if IsPointer(EntryOf(ts, root, R1(a, b))) { assert Holds(ts, root, R1(a, b)); }
    }
    if e.flags.g { NothingBelow1(ts, root, v2); }
  }

  lemma GoneNext(ts: Tables, root: nat, v2: nat, v1: nat)
    requires v2 <= |At1(ts, root)| && v1 < |Level1(ts, root, v2)|
    ensures Gone(ts, root, v2, v1 + 1) == Gone(ts, root, v2, v1) + Table1(ts, Level1(ts, root, v2)[v1])
  {
    Freed1Next(ts, Level1(ts, root, v2), v1);
  }

  /** After its entries a level-1 table that is not global is freed, and that completes entry v2 of the root. */
  lemma GoneTable(w: World, root: nat, v2: nat)
    requires Reclaimable(w, root) && Entered(w, root, v2)
    ensures var e, gone := EntryOf(w.m.ts, root, R2(v2)), Gone(w.m.ts, root, v2, ENTRIES);
            Freed2(w.m.ts, At1(w.m.ts, root), v2 + 1) == if e.flags.g then gone else gone + [e.ppn]
  {
    var ts, e := w.m.ts, EntryOf(w.m.ts, root, R2(v2));
    Freed2Next(ts, At1(ts, root), v2);
    var f := Freed1(ts, Level1(ts, root, v2), ENTRIES);
    assert Table2(ts, e) == f + if e.flags.g then [] else [e.ppn];
    assert Freed2(ts, At1(ts, root), v2) + (f + [e.ppn]) == Freed2(ts, At1(ts, root), v2) + f + [e.ppn];
    assert f + [] == f;
  }
}
