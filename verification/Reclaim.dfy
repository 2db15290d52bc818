/**
 What memory_space_reclaim frees: every frame that a non-global leaf maps and every non-global table, in the
 order of its three nested loops.
 */
module Reclaim {
  import opened Common
  import opened Sv39
  import opened Walk

  lemma {:induction false} FlatIn(parts: seq<seq<nat>>, q: nat)
    ensures q in Flat(parts) <==> exists k :: 0 <= k < |parts| && q in parts[k]
  {
    if parts != [] {
      FlatIn(parts[..|parts| - 1], q);
      assert forall k :: 0 <= k < |parts| - 1 ==> parts[..|parts| - 1][k] == parts[k];
    }
  }

  /** Parts that repeat nothing and share nothing give a list that repeats nothing. */
  lemma {:induction false} FlatOnce(parts: seq<seq<nat>>)
    requires forall k :: 0 <= k < |parts| ==> Unique(parts[k])
    requires forall j, k, x :: 0 <= j < k < |parts| && x in parts[j] ==> x !in parts[k]
    ensures Unique(Flat(parts))
  {
    if parts != [] {
      var n := |parts| - 1;
      FlatOnce(parts[..n]);
      forall x | x in Flat(parts[..n]) ensures x !in parts[n] {
        FlatIn(parts[..n], x);
        var k :| 0 <= k < n && x in parts[..n][k];
        assert x in parts[k];
      }
      UniqueConcat(Flat(parts[..n]), parts[n]);
    }
  }

  function Leaf0(e: Pte): seq<nat> {
    if e.flags.v && !e.flags.g then [e.ppn] else []
  }

  /** Frames freed from the first n entries of a level-0 table. */
  function Freed0(t: Table, n: nat): seq<nat>
    requires n <= |t|
  {
    if n == 0 then [] else Freed0(t, n - 1) + Leaf0(t[n - 1])
  }

  /** Pages freed for one entry of a level-1 table: the frames of its table, then the table. */
  function Table1(ts: Tables, e: Pte): seq<nat> {
    if !IsPointer(e) then []
    else Freed0(At1(ts, e.ppn), |At1(ts, e.ppn)|) + (if e.flags.g then [] else [e.ppn])
  }

  /** What the first n entries free, entry by entry. */
  function Parts1(ts: Tables, t: Table, n: nat): (parts: seq<seq<nat>>)
    requires n <= |t|
    ensures |parts| == n && forall k :: 0 <= k < n ==> parts[k] == Table1(ts, t[k])
  {
    seq(n, k requires 0 <= k < |t| => Table1(ts, t[k]))
  }

  function Freed1(ts: Tables, t: Table, n: nat): seq<nat>
    requires n <= |t|
  {
    Flat(Parts1(ts, t, n))
  }

  /** Pages freed for one entry of the root. */
  function Table2(ts: Tables, e: Pte): seq<nat> {
    if !IsPointer(e) then []
    else Freed1(ts, At1(ts, e.ppn), |At1(ts, e.ppn)|) + (if e.flags.g then [] else [e.ppn])
  }

  /** What the first n entries free, entry by entry. */
  function Parts2(ts: Tables, t: Table, n: nat): (parts: seq<seq<nat>>)
    requires n <= |t|
    ensures |parts| == n && forall k :: 0 <= k < n ==> parts[k] == Table2(ts, t[k])
  {
    seq(n, k requires 0 <= k < |t| => Table2(ts, t[k]))
  }

  function Freed2(ts: Tables, t: Table, n: nat): seq<nat>
    requires n <= |t|
  {
    Flat(Parts2(ts, t, n))
  }

  lemma Freed1Next(ts: Tables, t: Table, n: nat)
    requires n < |t|
    ensures Freed1(ts, t, n + 1) == Freed1(ts, t, n) + Table1(ts, t[n])
  {
    assert Parts1(ts, t, n + 1) == Parts1(ts, t, n) + [Table1(ts, t[n])];
    FlatNext(Parts1(ts, t, n), Table1(ts, t[n]));
  }

  lemma Freed2Next(ts: Tables, t: Table, n: nat)
    requires n < |t|
    ensures Freed2(ts, t, n + 1) == Freed2(ts, t, n) + Table2(ts, t[n])
  {
    assert Parts2(ts, t, n + 1) == Parts2(ts, t, n) + [Table2(ts, t[n])];
    FlatNext(Parts2(ts, t, n), Table2(ts, t[n]));
  }

  /** All pages that reclaiming the space frees. */
  function Freed(ts: Tables, root: nat): seq<nat> {
    Freed2(ts, At1(ts, root), |At1(ts, root)|)
  }

  /** Below a global entry everything is global. */
  ghost predicate GlobalOk(ts: Tables, root: nat) {
    && (forall r: Ref :: r.R1? && EntryOf(ts, root, R2(r.v2)).flags.g && EntryOf(ts, root, r).flags.v ==> EntryOf(ts, root, r).flags.g)
    && (forall r: Ref :: r.R0? && EntryOf(ts, root, R1(r.v2, r.v1)).flags.g && EntryOf(ts, root, r).flags.v ==> EntryOf(ts, root, r).flags.g)
  }

  // Freed pages and the entries that hold them

  /** The entry holds a page that reclaim frees. */
  predicate Owns(ts: Tables, root: nat, ref: Ref) {
    Holds(ts, root, ref) && !EntryOf(ts, root, ref).flags.g
  }

  /** Whether a place comes before the n-th entry of a table: everything freed up to there. */
  predicate Before0(ref: Ref, v2: nat, v1: nat, n: nat) {
    ref.R0? && ref.v2 == v2 && ref.v1 == v1 && ref.v0 < n
  }

  predicate Before1(ref: Ref, v2: nat, n: nat) {
    !ref.R2? && ref.v2 == v2 && ref.v1 < n
  }

  predicate Before2(ref: Ref, n: nat) {
    ref.v2 < n
  }

  /** In the table that entry v1 of the level-1 table points to, or that entry itself. */
  predicate AtOrBelow1(ref: Ref, v2: nat, v1: nat) {
    !ref.R2? && ref.v2 == v2 && ref.v1 == v1
  }

  predicate AtOrBelow2(ref: Ref, v2: nat) {
    ref.v2 == v2
  }

  /** The page is owned by an entry from these places. */
  ghost predicate Owned0(ts: Tables, root: nat, v2: nat, v1: nat, n: nat, q: nat) {
    exists r :: Before0(r, v2, v1, n) && Owns(ts, root, r) && EntryOf(ts, root, r).ppn == q
  }

  ghost predicate Owned1(ts: Tables, root: nat, v2: nat, n: nat, q: nat) {
    exists r :: Before1(r, v2, n) && Owns(ts, root, r) && EntryOf(ts, root, r).ppn == q
  }

  ghost predicate OwnedAt1(ts: Tables, root: nat, v2: nat, v1: nat, q: nat) {
    exists r :: AtOrBelow1(r, v2, v1) && Owns(ts, root, r) && EntryOf(ts, root, r).ppn == q
  }

  ghost predicate Owned2(ts: Tables, root: nat, n: nat, q: nat) {
    exists r :: Before2(r, n) && Owns(ts, root, r) && EntryOf(ts, root, r).ppn == q
  }

  ghost predicate OwnedAt2(ts: Tables, root: nat, v2: nat, q: nat) {
    exists r :: AtOrBelow2(r, v2) && Owns(ts, root, r) && EntryOf(ts, root, r).ppn == q
  }

  ghost predicate Owned(ts: Tables, root: nat, q: nat) {
    exists r :: Owns(ts, root, r) && EntryOf(ts, root, r).ppn == q
  }

  lemma {:induction false} In0(ts: Tables, root: nat, v2: nat, v1: nat, n: nat, q: nat)
    requires Closed(ts, root) && IsPointer(EntryOf(ts, root, R1(v2, v1))) && n <= ENTRIES
    ensures EntryOf(ts, root, R1(v2, v1)).ppn in ts && |ts[EntryOf(ts, root, R1(v2, v1)).ppn]| == ENTRIES
    ensures q in Freed0(ts[EntryOf(ts, root, R1(v2, v1)).ppn], n) <==> Owned0(ts, root, v2, v1, n, q)
  {
    assert Holds(ts, root, R1(v2, v1));
    if n > 0 {
      In0(ts, root, v2, v1, n - 1, q);
      var last := R0(v2, v1, n - 1);
      assert EntryOf(ts, root, last) == Seen(ts[EntryOf(ts, root, R1(v2, v1)).ppn][n - 1]);
      assert Before0(last, v2, v1, n);
      forall r | Before0(r, v2, v1, n) ensures r == last || Before0(r, v2, v1, n - 1) {}
      forall r | Before0(r, v2, v1, n - 1) ensures Before0(r, v2, v1, n) {}
    }
  }

  lemma In1(ts: Tables, root: nat, v2: nat, n: nat, q: nat)
    requires Closed(ts, root) && IsPointer(EntryOf(ts, root, R2(v2))) && n <= ENTRIES
    ensures EntryOf(ts, root, R2(v2)).ppn in ts && |ts[EntryOf(ts, root, R2(v2)).ppn]| == ENTRIES
    ensures q in Freed1(ts, ts[EntryOf(ts, root, R2(v2)).ppn], n) <==> Owned1(ts, root, v2, n, q)
  {
    assert Holds(ts, root, R2(v2));
    var t := ts[EntryOf(ts, root, R2(v2)).ppn];
    var parts := Parts1(ts, t, n);
    FlatIn(parts, q);
    if q in Freed1(ts, t, n) {
      var k :| 0 <= k < n && q in parts[k];
      assert EntryOf(ts, root, R1(v2, k)) == Seen(t[k]);
      InTable1(ts, root, v2, k, q);
      var r :| AtOrBelow1(r, v2, k) && Owns(ts, root, r) && EntryOf(ts, root, r).ppn == q;
      assert Before1(r, v2, n);
    }
    if Owned1(ts, root, v2, n, q) {
      var r :| Before1(r, v2, n) && Owns(ts, root, r) && EntryOf(ts, root, r).ppn == q;
      assert AtOrBelow1(r, v2, r.v1);
      InTable1(ts, root, v2, r.v1, q);
      assert EntryOf(ts, root, R1(v2, r.v1)) == Seen(t[r.v1]);
      assert q in parts[r.v1];
    }
  }

  lemma InTable1(ts: Tables, root: nat, v2: nat, v1: nat, q: nat)
    requires Closed(ts, root)
    ensures q in Table1(ts, EntryOf(ts, root, R1(v2, v1))) <==> OwnedAt1(ts, root, v2, v1, q)
  {
    var e := EntryOf(ts, root, R1(v2, v1));
    assert AtOrBelow1(R1(v2, v1), v2, v1);
    if IsPointer(e) {
      In0(ts, root, v2, v1, ENTRIES, q);
      forall r | AtOrBelow1(r, v2, v1) && Owns(ts, root, r) ensures r == R1(v2, v1) || Before0(r, v2, v1, ENTRIES) {
        if r.R0? { assert r.v0 < ENTRIES; }
      }
      forall r | Before0(r, v2, v1, ENTRIES) ensures AtOrBelow1(r, v2, v1) {}
    }
  }

  lemma InTable2(ts: Tables, root: nat, v2: nat, q: nat)
    requires Closed(ts, root)
    ensures q in Table2(ts, EntryOf(ts, root, R2(v2))) <==> OwnedAt2(ts, root, v2, q)
  {
    var e := EntryOf(ts, root, R2(v2));
    assert AtOrBelow2(R2(v2), v2);
    if IsPointer(e) {
      In1(ts, root, v2, ENTRIES, q);
      forall r | AtOrBelow2(r, v2) && Owns(ts, root, r) ensures r == R2(v2) || Before1(r, v2, ENTRIES) {
        if !r.R2? { assert r.v1 < ENTRIES; }
      }
      forall r | Before1(r, v2, ENTRIES) ensures AtOrBelow2(r, v2) {}
    }
  }

  lemma In2(ts: Tables, root: nat, n: nat, q: nat)
    requires Closed(ts, root) && n <= ENTRIES
    ensures q in Freed2(ts, ts[root], n) <==> Owned2(ts, root, n, q)
  {
    var t := ts[root];
    var parts := Parts2(ts, t, n);
    FlatIn(parts, q);
    if q in Freed2(ts, t, n) {
      var k :| 0 <= k < n && q in parts[k];
      assert EntryOf(ts, root, R2(k)) == Seen(t[k]);
      InTable2(ts, root, k, q);
      var r :| AtOrBelow2(r, k) && Owns(ts, root, r) && EntryOf(ts, root, r).ppn == q;
      assert Before2(r, n);
    }
    if Owned2(ts, root, n, q) {
      var r :| Before2(r, n) && Owns(ts, root, r) && EntryOf(ts, root, r).ppn == q;
      assert AtOrBelow2(r, r.v2);
      InTable2(ts, root, r.v2, q);
      assert EntryOf(ts, root, R2(r.v2)) == Seen(t[r.v2]);
      assert q in parts[r.v2];
    }
  }

  /** Reclaim frees exactly the pages that non-global entries of the space hold. */
  lemma FreedExactly(ts: Tables, root: nat, q: nat)
    requires Closed(ts, root)
    ensures q in Freed(ts, root) <==> Owned(ts, root, q)
  {
    In2(ts, root, ENTRIES, q);
    forall r | Owns(ts, root, r) ensures Before2(r, ENTRIES) { assert r.v2 < ENTRIES; }
  }

  // No page is freed twice

  lemma {:induction false} Once0(ts: Tables, root: nat, v2: nat, v1: nat, n: nat)
    requires SpaceOk(ts, root) && IsPointer(EntryOf(ts, root, R1(v2, v1))) && n <= ENTRIES
    ensures EntryOf(ts, root, R1(v2, v1)).ppn in ts && |ts[EntryOf(ts, root, R1(v2, v1)).ppn]| == ENTRIES
    ensures Unique(Freed0(ts[EntryOf(ts, root, R1(v2, v1)).ppn], n))
  {
    assert Holds(ts, root, R1(v2, v1));
    if n > 0 {
      Once0(ts, root, v2, v1, n - 1);
      var t, last := ts[EntryOf(ts, root, R1(v2, v1)).ppn], R0(v2, v1, n - 1);
      assert EntryOf(ts, root, last) == Seen(t[n - 1]);
      var before, more := Freed0(t, n - 1), Leaf0(t[n - 1]);
      forall x | x in before ensures x !in more {
        In0(ts, root, v2, v1, n - 1, x);
        var r :| Before0(r, v2, v1, n - 1) && Owns(ts, root, r) && EntryOf(ts, root, r).ppn == x;
      }
      UniqueConcat(Freed0(t, n - 1), Leaf0(t[n - 1]));
    }
  }

  lemma OnceTable1(ts: Tables, root: nat, v2: nat, v1: nat)
    requires SpaceOk(ts, root)
    ensures Unique(Table1(ts, EntryOf(ts, root, R1(v2, v1))))
  {
    var e := EntryOf(ts, root, R1(v2, v1));
    if IsPointer(e) {
      Once0(ts, root, v2, v1, ENTRIES);
      assert Holds(ts, root, R1(v2, v1));
      forall x | x in Freed0(ts[e.ppn], ENTRIES) ensures x != e.ppn {
        In0(ts, root, v2, v1, ENTRIES, x);
        var r :| Before0(r, v2, v1, ENTRIES) && Owns(ts, root, r) && EntryOf(ts, root, r).ppn == x;
      }
      UniqueConcat(Freed0(ts[e.ppn], ENTRIES), if e.flags.g then [] else [e.ppn]);
    }
  }

  lemma Apart1(ts: Tables, root: nat, v2: nat, j: nat, k: nat, x: nat)
    requires SpaceOk(ts, root) && j != k && x in Table1(ts, EntryOf(ts, root, R1(v2, j)))
    ensures x !in Table1(ts, EntryOf(ts, root, R1(v2, k)))
  {
    InTable1(ts, root, v2, j, x);
    InTable1(ts, root, v2, k, x);
    var r :| AtOrBelow1(r, v2, j) && Owns(ts, root, r) && EntryOf(ts, root, r).ppn == x;
    forall q | AtOrBelow1(q, v2, k) && Owns(ts, root, q) ensures EntryOf(ts, root, q).ppn != x { assert q != r; }
  }

  lemma Apart2(ts: Tables, root: nat, j: nat, k: nat, x: nat)
    requires SpaceOk(ts, root) && j != k && x in Table2(ts, EntryOf(ts, root, R2(j)))
    ensures x !in Table2(ts, EntryOf(ts, root, R2(k)))
  {
    InTable2(ts, root, j, x);
    InTable2(ts, root, k, x);
    var r :| AtOrBelow2(r, j) && Owns(ts, root, r) && EntryOf(ts, root, r).ppn == x;
    forall q | AtOrBelow2(q, k) && Owns(ts, root, q) ensures EntryOf(ts, root, q).ppn != x { assert q != r; }
  }

  lemma Once1(ts: Tables, root: nat, v2: nat)
    requires SpaceOk(ts, root) && IsPointer(EntryOf(ts, root, R2(v2)))
    ensures EntryOf(ts, root, R2(v2)).ppn in ts && |ts[EntryOf(ts, root, R2(v2)).ppn]| == ENTRIES
    ensures Unique(Freed1(ts, ts[EntryOf(ts, root, R2(v2)).ppn], ENTRIES))
  {
    assert Holds(ts, root, R2(v2));
    var t := ts[EntryOf(ts, root, R2(v2)).ppn];
    var parts := Parts1(ts, t, ENTRIES);
    forall k | 0 <= k < ENTRIES ensures Unique(parts[k]) {
      OnceTable1(ts, root, v2, k);
      assert EntryOf(ts, root, R1(v2, k)) == Seen(t[k]);
    }
    forall j, k, x | 0 <= j < k < ENTRIES && x in parts[j] ensures x !in parts[k] {
      assert EntryOf(ts, root, R1(v2, j)) == Seen(t[j]) && EntryOf(ts, root, R1(v2, k)) == Seen(t[k]);
      Apart1(ts, root, v2, j, k, x);
    }
    FlatOnce(parts);
  }

  lemma OnceTable2(ts: Tables, root: nat, v2: nat)
    requires SpaceOk(ts, root)
    ensures Unique(Table2(ts, EntryOf(ts, root, R2(v2))))
  {
    var e := EntryOf(ts, root, R2(v2));
    if IsPointer(e) {
      Once1(ts, root, v2);
      assert Holds(ts, root, R2(v2));
      forall x | x in Freed1(ts, ts[e.ppn], ENTRIES) ensures x != e.ppn {
        In1(ts, root, v2, ENTRIES, x);
        var r :| Before1(r, v2, ENTRIES) && Owns(ts, root, r) && EntryOf(ts, root, r).ppn == x;
      }
      UniqueConcat(Freed1(ts, ts[e.ppn], ENTRIES), if e.flags.g then [] else [e.ppn]);
    }
  }

  /** No page is freed twice. */
  lemma FreedOnce(ts: Tables, root: nat)
    requires SpaceOk(ts, root)
    ensures Unique(Freed(ts, root))
  {
    var t := ts[root];
    var parts := Parts2(ts, t, ENTRIES);
    forall k | 0 <= k < ENTRIES ensures Unique(parts[k]) {
      OnceTable2(ts, root, k);
      assert EntryOf(ts, root, R2(k)) == Seen(t[k]);
    }
    forall j, k, x | 0 <= j < k < ENTRIES && x in parts[j] ensures x !in parts[k] {
      assert EntryOf(ts, root, R2(j)) == Seen(t[j]) && EntryOf(ts, root, R2(k)) == Seen(t[k]);
      Apart2(ts, root, j, k, x);
    }
    FlatOnce(parts);
  }

  // No page is freed before its turn

  /** Nothing below a global entry is freed. */
  ghost predicate Calm0(ts: Tables, e: Pte) {
    e.flags.g ==> Freed0(At1(ts, e.ppn), |At1(ts, e.ppn)|) == []
  }

  /** A held page is not freed before the loops come to the entry that holds it. */
  lemma NotFreedYet(ts: Tables, root: nat, v2: nat, i: nat, ref: Ref)
    requires SpaceOk(ts, root) && v2 < ENTRIES && i <= ENTRIES && IsPointer(EntryOf(ts, root, R2(v2)))
    requires Holds(ts, root, ref) && !Before2(ref, v2) && !Before1(ref, v2, i)
    ensures EntryOf(ts, root, R2(v2)).ppn in ts && |ts[EntryOf(ts, root, R2(v2)).ppn]| == ENTRIES
    ensures EntryOf(ts, root, ref).ppn !in Freed2(ts, ts[root], v2)
    ensures EntryOf(ts, root, ref).ppn !in Freed1(ts, ts[EntryOf(ts, root, R2(v2)).ppn], i)
  {
    var q := EntryOf(ts, root, ref).ppn;
    In2(ts, root, v2, q);
    In1(ts, root, v2, i, q);
  }

  lemma {:induction false} NoLeaves(t: Table, n: nat)
    requires n <= |t| && forall i :: 0 <= i < n ==> Leaf0(t[i]) == []
    ensures Freed0(t, n) == []
  {
    if n > 0 {
      NoLeaves(t, n - 1);
      assert Leaf0(t[n - 1]) == [];
    }
  }

  lemma {:induction false} FlatEmpty(parts: seq<seq<nat>>)
    requires forall k :: 0 <= k < |parts| ==> parts[k] == []
    ensures Flat(parts) == []
  {
    if parts != [] { FlatEmpty(parts[..|parts| - 1]); }
  }

  lemma NothingBelow0(ts: Tables, root: nat, v2: nat, v1: nat)
    requires SpaceOk(ts, root) && GlobalOk(ts, root)
    requires IsPointer(EntryOf(ts, root, R1(v2, v1))) && EntryOf(ts, root, R1(v2, v1)).flags.g
    ensures EntryOf(ts, root, R1(v2, v1)).ppn in ts
    ensures Freed0(ts[EntryOf(ts, root, R1(v2, v1)).ppn], |ts[EntryOf(ts, root, R1(v2, v1)).ppn]|) == []
  {
    assert Holds(ts, root, R1(v2, v1));
    var t := ts[EntryOf(ts, root, R1(v2, v1)).ppn];
    forall i | 0 <= i < ENTRIES ensures Leaf0(t[i]) == [] {
      var r := R0(v2, v1, i);
      assert EntryOf(ts, root, r) == Seen(t[i]) && EntryOf(ts, root, R1(r.v2, r.v1)).flags.g;
    }
    NoLeaves(t, ENTRIES);
  }

  lemma NothingBelow1(ts: Tables, root: nat, v2: nat)
    requires SpaceOk(ts, root) && GlobalOk(ts, root) && IsPointer(EntryOf(ts, root, R2(v2))) && EntryOf(ts, root, R2(v2)).flags.g
    ensures EntryOf(ts, root, R2(v2)).ppn in ts
    ensures Freed1(ts, ts[EntryOf(ts, root, R2(v2)).ppn], |ts[EntryOf(ts, root, R2(v2)).ppn]|) == []
  {
    assert Holds(ts, root, R2(v2));
    var t := ts[EntryOf(ts, root, R2(v2)).ppn];
    var parts := Parts1(ts, t, ENTRIES);
    forall i | 0 <= i < ENTRIES ensures parts[i] == [] {
      var r := R1(v2, i);
      assert EntryOf(ts, root, r) == Seen(t[i]) && EntryOf(ts, root, R2(r.v2)).flags.g;
      if IsPointer(t[i]) { NothingBelow0(ts, root, v2, i); }
    }
    FlatEmpty(parts);
  }
}
