/**
 Sv39 page tables (section 4.4 of the RISC-V Privileged Architecture, version 20211203) as pages of 512
 entries, the walk through them, and what a table page or an entry added to a space does to it.
 */
module Sv39 {

  const ENTRIES: nat := 512
  const PAGE: nat := 4096

  datatype Flags = Flags(v: bool, r: bool, w: bool, x: bool, u: bool, g: bool, a: bool, d: bool)

  datatype Pte = Pte(flags: Flags, ppn: nat)

  const NO_FLAGS: Flags := Flags(false, false, false, false, false, false, false, false)
  const NULL_PTE: Pte := Pte(NO_FLAGS, 0)

  /** ptab_pte(ptab, 0): an entry that points to the next table. */
  function TablePte(ppn: nat): Pte { Pte(Flags(true, false, false, false, false, false, false, false), ppn) }

  /** What walk_pt leaves on its way: a table of its own, or nothing. */
  predicate TableOrEmpty(e: Pte) { e == NULL_PTE || e == TablePte(e.ppn) }

  predicate IsPointer(e: Pte) {
    e.flags.v && !e.flags.r && !e.flags.w && !e.flags.x
  }

  predicate PointsTo(e: Pte, p: nat) { IsPointer(e) && e.ppn == p }

  type Table = seq<Pte>
  /** The pages that are page tables, by page number. */
  type Tables = map<nat, Table>

  function ZeroTable(): (t: Table)
    ensures |t| == ENTRIES && forall i :: 0 <= i < ENTRIES ==> t[i] == NULL_PTE
  {
    seq(ENTRIES, i => NULL_PTE)
  }

  // What a page holds that no one has cleared

  const RAM_PAGE: nat := 0x8_0000          // RAM_START as a page number
  const RAM_PAGES: nat := 0x800            // RAM_SIZE in pages

  predicate InRam(p: nat) { RAM_PAGE <= p < RAM_PAGE + RAM_PAGES }

  /** The pages that pass the check of memory_space_clone for a leaf entry in RAM; the end is among them. */
  predicate Checked(p: nat) { RAM_PAGE <= p <= RAM_PAGE + RAM_PAGES }

  /** Nothing, also for a walk that does not look at V: no flag is set and the page number is none of RAM. */
  predicate Blank(e: Pte) { e.flags == NO_FLAGS && !Checked(e.ppn) }

  predicate AllBlank(t: Table) { |t| == ENTRIES && forall i :: 0 <= i < ENTRIES ==> Blank(t[i]) }

  predicate NoneValid(t: Table) { |t| == ENTRIES && forall i :: 0 <= i < ENTRIES ==> !t[i].flags.v }

  /** Entries that are not valid are blank. */
  predicate Tidy(t: Table) { |t| == ENTRIES && forall i :: 0 <= i < ENTRIES ==> t[i].flags.v || Blank(t[i]) }

  lemma TidySet(t: Table, i: nat, e: Pte)
    requires Tidy(t) && i < ENTRIES && e.flags.v
    ensures Tidy(t[i := e])
  {
  }

  /** An entry as the hardware sees it: what is not valid is nothing. */
  function Seen(e: Pte): Pte { if e.flags.v then e else NULL_PTE }

  // Addresses

  function Vpn2(vma: nat): nat { vma / 0x4000_0000 % ENTRIES }
  function Vpn1(vma: nat): nat { vma / 0x20_0000 % ENTRIES }
  function Vpn0(vma: nat): nat { vma / 0x1000 % ENTRIES }

  /** Two 39-bit addresses have the same three indices exactly when they are in the same page. */
  lemma IndicesNamePage(a: nat, b: nat)
    requires a < 0x80_0000_0000 && b < 0x80_0000_0000
    ensures Vpn2(a) == Vpn2(b) && Vpn1(a) == Vpn1(b) && Vpn0(a) == Vpn0(b) <==> a / PAGE == b / PAGE
  {
    PageNumber(a);
    PageNumber(b);
  }

  lemma PageNumber(a: nat)
    requires a < 0x80_0000_0000
    ensures a / PAGE == (Vpn2(a) * ENTRIES + Vpn1(a)) * ENTRIES + Vpn0(a)
    ensures Vpn2(a) == a / PAGE / 0x40000 && Vpn1(a) == a / PAGE / ENTRIES % ENTRIES && Vpn0(a) == a / PAGE % ENTRIES
  {
    var p := a / PAGE;
    assert a / 0x20_0000 == p / ENTRIES;
    assert a / 0x4000_0000 == p / 0x40000;
    assert p / 0x40000 == p / ENTRIES / ENTRIES;
    assert p / 0x40000 < ENTRIES;
  }

  const SV39_MODE: nat := 0x8000_0000_0000_0000
  const WRAP: nat := 0x1_0000_0000_0000_0000

  /** The memory space tag of a root table. */
  function Mtag(rootPpn: nat): nat { SV39_MODE + rootPpn }

  /** mtag_to_root: the address of the root table, by two shifts of a 64-bit word. */
  function MtagToRoot(mtag: nat): nat { mtag * 0x10_0000 % WRAP / 0x100 }

  /** pagenum_to_pageptr in 64-bit arithmetic. */
  function PagePtr(n: nat): nat { n * PAGE % WRAP }

  /** The table recovered from a tag is the one that was encoded, also by the shorter way reclaim takes. */
  lemma MtagRoundTrip(rootPpn: nat)
    requires rootPpn < 0x1000_0000_0000
    ensures MtagToRoot(Mtag(rootPpn)) == rootPpn * PAGE
    ensures PagePtr(Mtag(rootPpn)) == rootPpn * PAGE
  {
    assert Mtag(rootPpn) * 0x10_0000 == 0x8_0000 * WRAP + rootPpn * 0x10_0000;
    assert Mtag(rootPpn) * PAGE == 0x800 * WRAP + rootPpn * PAGE;
  }

  // Entries of a space

  /** The place of an entry: in the root, in a level-1 table or in a level-0 table. */
  datatype Ref = R2(v2: nat) | R1(v2: nat, v1: nat) | R0(v2: nat, v1: nat, v0: nat)

  function At(ts: Tables, p: nat, i: nat): Pte {
    if p in ts && i < |ts[p]| then Seen(ts[p][i]) else NULL_PTE
  }

  function Below(ts: Tables, e: Pte, i: nat): Pte {
    if IsPointer(e) then At(ts, e.ppn, i) else NULL_PTE
  }

  /** The entry at a place, or a null entry if the walk does not get there. */
  function EntryOf(ts: Tables, root: nat, ref: Ref): Pte {
    match ref
    case R2(v2) => At(ts, root, v2)
    case R1(v2, v1) => Below(ts, At(ts, root, v2), v1)
    case R0(v2, v1, v0) => Below(ts, Below(ts, At(ts, root, v2), v1), v0)
  }

  function RefOf(vma: nat): Ref { R0(Vpn2(vma), Vpn1(vma), Vpn0(vma)) }

  /** The leaf entry for an address: the flat map that the tables stand for. */
  function Leaf(ts: Tables, root: nat, vma: nat): Pte { EntryOf(ts, root, RefOf(vma)) }

  /** The entry at this place keeps a page for the space: a table, or a frame that is not global. */
  predicate Holds(ts: Tables, root: nat, ref: Ref) {
    Keeps(ref, EntryOf(ts, root, ref))
  }

  predicate Keeps(ref: Ref, e: Pte) {
    if ref.R0? then e.flags.v && !e.flags.g else IsPointer(e)
  }

  /** `page` is held by no entry of the space and is not its root. */
  ghost predicate NotHeld(ts: Tables, root: nat, page: nat) {
    page != root && forall r :: Holds(ts, root, r) ==> EntryOf(ts, root, r).ppn != page
  }

  ghost predicate Closed(ts: Tables, root: nat) {
    && root in ts
    && (forall p :: p in ts ==> |ts[p]| == ENTRIES)
    && (forall r: Ref :: !r.R0? && Holds(ts, root, r) ==> EntryOf(ts, root, r).ppn in ts)
  }

  /** No page is held twice: tables form a tree, and frames are not shared. */
  ghost predicate Unshared(ts: Tables, root: nat) {
    && (forall r, q :: Holds(ts, root, r) && Holds(ts, root, q) && r != q ==> EntryOf(ts, root, r).ppn != EntryOf(ts, root, q).ppn)
    && (forall r :: Holds(ts, root, r) ==> EntryOf(ts, root, r).ppn != root)
  }

  ghost predicate SpaceOk(ts: Tables, root: nat) {
    Closed(ts, root) && Unshared(ts, root)
  }

  // Adding tables and setting leaves

  function SetEntry(ts: Tables, p: nat, i: nat, e: Pte): Tables
    requires p in ts && i < |ts[p]|
  {
    ts[p := ts[p][i := e]]
  }

  /** Page `page` becomes a table with what it holds, t. */
  function AddTable(ts: Tables, p: nat, i: nat, page: nat, t: Table): Tables
    requires p in ts && i < |ts[p]|
  {
    SetEntry(ts, p, i, TablePte(page))[page := t]
  }

  /** An entry that a change of tables may make: the one place changes, all others stay. */
  ghost predicate OnlyChanges(ts: Tables, ts': Tables, root: nat, ref: Ref, e: Pte) {
    forall r :: EntryOf(ts', root, r) == if r == ref then e else EntryOf(ts, root, r)
  }

  lemma AddLevel1Entries(ts: Tables, root: nat, v2: nat, page: nat, t: Table)
    requires SpaceOk(ts, root) && v2 < ENTRIES && !EntryOf(ts, root, R2(v2)).flags.v
    requires page !in ts && NoneValid(t)
    ensures OnlyChanges(ts, AddTable(ts, root, v2, page, t), root, R2(v2), TablePte(page))
  {
    var ts' := AddTable(ts, root, v2, page, t);
    forall r ensures EntryOf(ts', root, r) == if r == R2(v2) then TablePte(page) else EntryOf(ts, root, r) {
      match r
      case R2(_) =>
      case R1(a, _) => if a != v2 { assert Holds(ts, root, R2(a)) ==> EntryOf(ts, root, R2(a)).ppn in ts; }
      case R0(a, b, _) =>
        if a != v2 {
          assert Holds(ts, root, R2(a)) ==> EntryOf(ts, root, R2(a)).ppn in ts;
          assert Holds(ts, root, R1(a, b)) ==> EntryOf(ts, root, R1(a, b)).ppn in ts;
        }
    }
  }

  /** The table pages of a space. */
  ghost predicate IsTable(ts: Tables, root: nat, p: nat) {
    p == root || exists r: Ref :: !r.R0? && Holds(ts, root, r) && EntryOf(ts, root, r).ppn == p
  }

  lemma AddLevel0Entries(ts: Tables, root: nat, v2: nat, v1: nat, page: nat, t: Table)
    requires SpaceOk(ts, root) && v2 < ENTRIES && v1 < ENTRIES && page !in ts && NoneValid(t)
    requires IsPointer(EntryOf(ts, root, R2(v2))) && !EntryOf(ts, root, R1(v2, v1)).flags.v
    ensures EntryOf(ts, root, R2(v2)).ppn in ts
    ensures OnlyChanges(ts, AddTable(ts, EntryOf(ts, root, R2(v2)).ppn, v1, page, t), root, R1(v2, v1), TablePte(page))
  {
    assert Holds(ts, root, R2(v2));
    var p1 := EntryOf(ts, root, R2(v2)).ppn;
    var ts' := AddTable(ts, p1, v1, page, t);
    forall r ensures EntryOf(ts', root, r) == if r == R1(v2, v1) then TablePte(page) else EntryOf(ts, root, r) {
      match r
      case R2(_) =>
      case R1(a, b) =>
        if a != v2 { assert Holds(ts, root, R2(a)) ==> EntryOf(ts, root, R2(a)).ppn !in {p1, page}; }
      case R0(a, b, _) =>
        if a != v2 { assert Holds(ts, root, R2(a)) ==> EntryOf(ts, root, R2(a)).ppn !in {p1, page}; }
        assert Holds(ts, root, R1(a, b)) ==> EntryOf(ts, root, R1(a, b)).ppn !in {p1, page};
    }
  }

  lemma SetLeafEntries(ts: Tables, root: nat, v2: nat, v1: nat, v0: nat, e: Pte)
    requires SpaceOk(ts, root) && v0 < ENTRIES && IsPointer(EntryOf(ts, root, R1(v2, v1))) && e.flags.v
    ensures EntryOf(ts, root, R1(v2, v1)).ppn in ts
    ensures OnlyChanges(ts, SetEntry(ts, EntryOf(ts, root, R1(v2, v1)).ppn, v0, e), root, R0(v2, v1, v0), e)
  {
    assert Holds(ts, root, R1(v2, v1));
    assert Holds(ts, root, R2(v2));
    var p0 := EntryOf(ts, root, R1(v2, v1)).ppn;
    var ts' := SetEntry(ts, p0, v0, e);
    forall r ensures EntryOf(ts', root, r) == if r == R0(v2, v1, v0) then e else EntryOf(ts, root, r) {
      match r
      case R2(_) =>
      case R1(a, _) => assert Holds(ts, root, R2(a)) ==> EntryOf(ts, root, R2(a)).ppn != p0;
      case R0(a, b, _) =>
        assert Holds(ts, root, R2(a)) ==> EntryOf(ts, root, R2(a)).ppn != p0;
        assert Holds(ts, root, R1(a, b)) && R1(a, b) != R1(v2, v1) ==> EntryOf(ts, root, R1(a, b)).ppn != p0;
    }
  }

  /** A space stays sound when one entry changes and what it then holds was not held before. */
  lemma ChangedOk(ts: Tables, ts': Tables, root: nat, ref: Ref, e: Pte)
    requires SpaceOk(ts, root) && OnlyChanges(ts, ts', root, ref, e)
    requires ts.Keys <= ts'.Keys && forall p :: p in ts' ==> |ts'[p]| == ENTRIES
    requires Keeps(ref, e) ==> NotHeld(ts, root, e.ppn) && (!ref.R0? ==> e.ppn in ts')
    ensures SpaceOk(ts', root)
  {
    forall r ensures Holds(ts', root, r) == if r == ref then Keeps(ref, e) else Holds(ts, root, r) {}
  }

  /** A space does not notice what happens to pages that are not its tables. */
  lemma Undisturbed(ts: Tables, ts': Tables, root: nat)
    requires Closed(ts, root)
    requires forall p :: IsTable(ts, root, p) ==> p in ts' && ts'[p] == At1(ts, p)
    ensures forall r :: EntryOf(ts', root, r) == EntryOf(ts, root, r)
  {
    forall r ensures EntryOf(ts', root, r) == EntryOf(ts, root, r) {
      assert IsTable(ts, root, root);
      match r
      case R2(_) =>
      case R1(a, _) => if Holds(ts, root, R2(a)) { assert IsTable(ts, root, EntryOf(ts, root, R2(a)).ppn); }
      case R0(a, b, _) =>
        if Holds(ts, root, R2(a)) { assert IsTable(ts, root, EntryOf(ts, root, R2(a)).ppn); }
        if Holds(ts, root, R1(a, b)) { assert IsTable(ts, root, EntryOf(ts, root, R1(a, b)).ppn); }
    }
  }

  function At1(ts: Tables, p: nat): Table { if p in ts then ts[p] else [] }
}
