/**
 The kernel heap and the free page list: kmalloc takes small blocks from the open heap block and whole pages
 from the page allocator. Blocks are never given back to the heap, but a whole page can be freed.
 */
module Heap {

  const PAGE: nat := 4096
  const WRAP: nat := 0x1_0000_0000_0000_0000

  datatype Region = Region(start: nat, len: nat)

  predicate Apart(a: Region, b: Region) {
    a.start + a.len <= b.start || b.start + b.len <= a.start
  }

  /** [start, end) is the open heap block, `free` the list of free pages, `live` the blocks handed out. */
  datatype State = State(start: nat, end: nat, free: seq<nat>, live: seq<Region>)

  datatype Outcome = Next(state: State, block: nat) | Panic

  function Page(p: nat): Region { Region(p, PAGE) }

  function Open(s: State): Region
    requires s.start <= s.end
  {
    Region(s.start, s.end - s.start)
  }

  /** kmalloc's rounding to a multiple of 16, in 64-bit arithmetic. */
  function RoundUp(size: nat): nat {
    (size + 15) % WRAP / 16 * 16
  }

  function AllocPage(s: State): Outcome {
    if s.free == [] then Panic
    else Next(s.(free := s.free[1..], live := s.live + [Page(s.free[0])]), s.free[0])
  }

  function Kmalloc(s: State, request: nat): Outcome
    requires s.start <= s.end
  {
    var size := RoundUp(request);
    if PAGE < size then Panic
    else if size <= s.end - s.start then
      Next(s.(end := s.end - size, live := s.live + [Region(s.end - size, size)]), s.end - size)
    else if s.free == [] then Panic
    else if s.end - s.start < PAGE - size then
      var page := s.free[0];
      Next(State(page, page + PAGE - size, s.free[1..], s.live + [Region(page + PAGE - size, size)]), page + PAGE - size)
    else
      Next(s.(free := s.free[1..], live := s.live + [Region(s.free[0], size)]), s.free[0])
  }

  /** memory_free_page of a block that is a whole page. */
  function FreePage(s: State, i: nat): State
    requires i < |s.live|
  {
    s.(free := [s.live[i].start] + s.free, live := s.live[..i] + s.live[i + 1..])
  }

  predicate ApartFromAll(r: Region, live: seq<Region>) {
    forall i :: 0 <= i < |live| ==> Apart(r, live[i])
  }

  predicate LiveOk(live: seq<Region>) {
    && (forall i, j :: 0 <= i < j < |live| ==> Apart(live[i], live[j]))
    && (forall i :: 0 <= i < |live| ==> live[i].start % 16 == 0)
  }

  predicate FreeOk(free: seq<nat>) {
    && (forall i, j :: 0 <= i < j < |free| ==> free[i] != free[j])
    && (forall i :: 0 <= i < |free| ==> free[i] % PAGE == 0)
  }

  predicate FreeApart(free: seq<nat>, r: Region) {
    forall i :: 0 <= i < |free| ==> Apart(Page(free[i]), r)
  }

  /** Open block, free pages and live blocks are all apart; the open block is at most a page and starts on one. */
  predicate Inv(s: State) {
    && s.start <= s.end <= s.start + PAGE && s.start % PAGE == 0 && s.end % 16 == 0
    && LiveOk(s.live) && FreeOk(s.free)
    && ApartFromAll(Open(s), s.live)
    && FreeApart(s.free, Open(s))
    && (forall i :: 0 <= i < |s.live| ==> FreeApart(s.free, s.live[i]))
  }

  /** The state memory_init leaves: one page for the heap after the page-aligned kernel image, the rest free. */
  function Init(imageEnd: nat, pages: nat): State {
    State(imageEnd, imageEnd + PAGE, seq(pages, i requires 0 <= i => FreePageAt(imageEnd, i)), [])
  }

  function FreePageAt(imageEnd: nat, i: nat): nat { imageEnd + PAGE + i * PAGE }

  lemma FreePagesApart(imageEnd: nat, i: nat, j: nat)
    requires imageEnd % PAGE == 0
    ensures FreePageAt(imageEnd, i) % PAGE == 0 && FreePageAt(imageEnd, i) >= imageEnd + PAGE
    ensures i < j ==> FreePageAt(imageEnd, i) < FreePageAt(imageEnd, j)
  {
    assert FreePageAt(imageEnd, i) == (imageEnd / PAGE + 1 + i) * PAGE;
  }

  lemma InitInv(imageEnd: nat, pages: nat)
    requires imageEnd % PAGE == 0
    ensures Inv(Init(imageEnd, pages))
  {
    var s := Init(imageEnd, pages);
    forall i | 0 <= i < |s.free| ensures s.free[i] % PAGE == 0 && s.free[i] >= imageEnd + PAGE { FreePagesApart(imageEnd, i, i); }
    forall i, j | 0 <= i < j < |s.free| ensures s.free[i] != s.free[j] { FreePagesApart(imageEnd, i, j); }
    assert imageEnd % 16 == 0;
  }

  lemma PagesApart(p: nat, q: nat)
    requires p % PAGE == 0 && q % PAGE == 0 && p != q
    ensures Apart(Page(p), Page(q))
  {
  }

  lemma RoundUpFits(size: nat)
    ensures RoundUp(size) % 16 == 0
    ensures size < WRAP ==> (RoundUp(size) >= size <==> size + 15 < WRAP)
  {
  }

  lemma LiveExtended(live: seq<Region>, r: Region)
    requires LiveOk(live) && ApartFromAll(r, live) && r.start % 16 == 0
    ensures LiveOk(live + [r])
  {
    var all := live + [r];
    forall i, j | 0 <= i < j < |all| ensures Apart(all[i], all[j]) {
      if j == |live| { assert Apart(r, live[i]); }
    }
  }

  /** A block inside a region that is apart from something is apart from it too. */
  lemma Inside(r: Region, whole: Region, other: Region)
    requires whole.start <= r.start && r.start + r.len <= whole.start + whole.len && Apart(whole, other)
    ensures Apart(r, other) && Apart(other, r)
  {
  }

  /** Handing out the end of the open block. */
  lemma CutKeeps(s: State, size: nat)
    requires Inv(s) && size <= s.end - s.start && size % 16 == 0
    ensures Inv(s.(end := s.end - size, live := s.live + [Region(s.end - size, size)]))
  {
    var r, open := Region(s.end - size, size), Open(s);
    forall i | 0 <= i < |s.live| ensures Apart(r, s.live[i]) && Apart(Region(s.start, s.end - size - s.start), s.live[i]) {
      assert Apart(open, s.live[i]);
    }
    forall i | 0 <= i < |s.free|
      ensures Apart(Page(s.free[i]), r) && Apart(Page(s.free[i]), Region(s.start, s.end - size - s.start)) {
      assert Apart(Page(s.free[i]), open);
    }
    LiveExtended(s.live, r);
  }

  /** The first free page: apart from everything else. */
  lemma HeadPage(s: State)
    requires Inv(s) && s.free != []
    ensures FreeOk(s.free[1..]) && FreeApart(s.free[1..], Page(s.free[0]))
    ensures FreeApart(s.free[1..], Open(s)) && Apart(Page(s.free[0]), Open(s)) && ApartFromAll(Page(s.free[0]), s.live)
    ensures forall i :: 0 <= i < |s.live| ==> FreeApart(s.free[1..], s.live[i])
  {
    var rest, page := s.free[1..], s.free[0];
    forall i | 0 <= i < |rest| ensures Apart(Page(rest[i]), Page(page)) { PagesApart(rest[i], page); }
    forall i | 0 <= i < |s.live| ensures Apart(Page(page), s.live[i]) && FreeApart(rest, s.live[i]) {
      assert FreeApart(s.free, s.live[i]);
    }
  }

  /** A part of the first free page handed out, the open block kept. */
  lemma TakeKeeps(s: State, size: nat)
    requires Inv(s) && s.free != [] && size <= PAGE
    ensures Inv(s.(free := s.free[1..], live := s.live + [Region(s.free[0], size)]))
  {
    HeadPage(s);
    var r, rest := Region(s.free[0], size), s.free[1..];
    forall i | 0 <= i < |s.live| ensures Apart(r, s.live[i]) { Inside(r, Page(s.free[0]), s.live[i]); }
    forall i | 0 <= i < |rest| ensures Apart(Page(rest[i]), r) { Inside(r, Page(s.free[0]), Page(rest[i])); }
    Inside(r, Page(s.free[0]), Open(s));
    LiveExtended(s.live, r);
  }

  /** The first free page becomes the open block, and its end is handed out. */
  lemma SwitchKeeps(s: State, size: nat)
    requires Inv(s) && s.free != [] && size <= PAGE && size % 16 == 0
    ensures Inv(State(s.free[0], s.free[0] + PAGE - size, s.free[1..], s.live + [Region(s.free[0] + PAGE - size, size)]))
  {
    OpenNext(s);
    CutKeeps(State(s.free[0], s.free[0] + PAGE, s.free[1..], s.live), size);
  }

  /** The first free page becomes the open block. */
  lemma OpenNext(s: State)
    requires Inv(s) && s.free != []
    ensures Inv(State(s.free[0], s.free[0] + PAGE, s.free[1..], s.live)) == true
  {
    HeadPage(s);
    assert Open(State(s.free[0], s.free[0] + PAGE, s.free[1..], s.live)) == Page(s.free[0]);
  }

  lemma KmallocKeeps(s: State, request: nat)
    requires Inv(s)
    ensures Kmalloc(s, request).Next? ==> Inv(Kmalloc(s, request).state)
  {
    var size := RoundUp(request);
    RoundUpFits(request);
    if size <= PAGE {
      if size <= s.end - s.start { CutKeeps(s, size); }
      else if s.free != [] {
        if s.end - s.start < PAGE - size { SwitchKeeps(s, size); } else { TakeKeeps(s, size); }
      }
    }
  }

  lemma LiveWithout(live: seq<Region>, i: nat, k: nat)
    requires i < |live| && k < |live| - 1
    ensures (live[..i] + live[i + 1..])[k] == live[if k < i then k else k + 1]
  {
  }

  lemma FreeKeeps(s: State, i: nat)
    requires Inv(s) && i < |s.live| && s.live[i].len == PAGE && s.live[i].start % PAGE == 0
    ensures Inv(FreePage(s, i))
  {
    var t, page := FreePage(s, i), s.live[i].start;
    assert s.live[i] == Page(page);
    forall k | 0 <= k < |t.live|
      ensures t.live[k] in s.live && Apart(Page(page), t.live[k]) && FreeApart(t.free, t.live[k]) && Apart(Open(s), t.live[k]) {
      LiveWithout(s.live, i, k);
      var j := if k < i then k else k + 1;
      assert FreeApart(s.free, s.live[j]);
    }
    forall k | 0 <= k < |s.free| ensures s.free[k] != page { assert FreeApart(s.free, s.live[i]); }
    forall a, b | 0 <= a < b < |t.live| ensures Apart(t.live[a], t.live[b]) {
      LiveWithout(s.live, i, a);
      LiveWithout(s.live, i, b);
    }
    forall k | 0 <= k < |t.live| ensures t.live[k].start % 16 == 0 { LiveWithout(s.live, i, k); }
  }

  datatype Event = EvKmalloc(request: nat) | EvAllocPage | EvFreePage(i: nat)

  predicate Applicable(s: State, e: Event) {
    e.EvFreePage? ==> e.i < |s.live| && s.live[e.i].len == PAGE && s.live[e.i].start % PAGE == 0
  }

  /** `t` is reached from `s` by the events, none of which panics. */
  ghost predicate Run(s: State, es: seq<Event>, t: State)
    decreases |es|
  {
    if es == [] then s == t
    else
      s.start <= s.end && Applicable(s, es[0]) &&
      match es[0]
      case EvKmalloc(n) => Kmalloc(s, n).Next? && Run(Kmalloc(s, n).state, es[1..], t)
      case EvAllocPage => AllocPage(s).Next? && Run(AllocPage(s).state, es[1..], t)
      case EvFreePage(i) => Run(FreePage(s, i), es[1..], t)
  }

  lemma {:induction false} RunKeeps(s: State, es: seq<Event>, t: State)
    requires Inv(s) && Run(s, es, t)
    ensures Inv(t)
    decreases |es|
  {
    if es != [] {
      match es[0] {
        case EvKmalloc(n) =>
          KmallocKeeps(s, n);
          RunKeeps(Kmalloc(s, n).state, es[1..], t);
        case EvAllocPage =>
          TakeKeeps(s, PAGE);
          RunKeeps(AllocPage(s).state, es[1..], t);
        case EvFreePage(i) =>
          FreeKeeps(s, i);
          RunKeeps(FreePage(s, i), es[1..], t);
      }
    }
  }

  /**
   After any sequence of calls, a kmalloc that returns gives a block that is 16-byte aligned, apart from every
   live block and every free page, and as large as asked for exactly when the rounding does not wrap. A request
   for a whole page gives an aligned page.
   */
  lemma KmallocSafe(imageEnd: nat, pages: nat, es: seq<Event>, s: State, request: nat)
    requires imageEnd % PAGE == 0 && Run(Init(imageEnd, pages), es, s) && request < WRAP
    requires s.start <= s.end && Kmalloc(s, request).Next?
    ensures var t, a := Kmalloc(s, request).state, Kmalloc(s, request).block;
            var r := Region(a, RoundUp(request));
            && a % 16 == 0 && t.live == s.live + [r]
            && ApartFromAll(r, s.live) && FreeApart(t.free, r)
            && (RoundUp(request) >= request <==> request + 15 < WRAP)
            && (request == PAGE ==> a % PAGE == 0)
  {
    InitInv(imageEnd, pages);
    RunKeeps(Init(imageEnd, pages), es, s);
    KmallocKeeps(s, request);
    RoundUpFits(request);
    var t := Kmalloc(s, request).state;
    var r := Region(Kmalloc(s, request).block, RoundUp(request));
    assert t.live[|s.live|] == r;
    forall i | 0 <= i < |s.live| ensures Apart(r, s.live[i]) {
      assert Apart(t.live[i], t.live[|s.live|]);
    }
  }

  /** The largest request there is rounds to nothing: kmalloc returns the end of the open block, with no byte of it. */
  lemma HugeRequest(s: State)
    requires Inv(s)
    ensures Kmalloc(s, WRAP - 1) == Next(s.(live := s.live + [Region(s.end, 0)]), s.end)
  {
    assert RoundUp(WRAP - 1) == 0;
  }

  // Pages for page tables

  /** The open block is smaller than a page; kmalloc of a page is memory_alloc_page then. */
  predicate Small(s: State) { s.start <= s.end < s.start + PAGE }

  lemma PageFromFreeList(s: State)
    requires Small(s)
    ensures Kmalloc(s, PAGE) == AllocPage(s)
  {
  }

  /** This call asks for at least a byte. */
  predicate Takes(e: Event) { e.EvKmalloc? && RoundUp(e.request) > 0 }

  lemma {:induction false} RunStaysSmall(s: State, es: seq<Event>, t: State)
    requires Inv(s) && Run(s, es, t) && (Small(s) || exists i :: 0 <= i < |es| && Takes(es[i]))
    ensures Small(t)
    decreases |es|
  {
    if es != [] {
      if !Small(s) && !Takes(es[0]) {
        var i :| 0 <= i < |es| && Takes(es[i]);
        assert es[1..][i - 1] == es[i];
      }
      match es[0] {
        case EvKmalloc(n) =>
          KmallocKeeps(s, n);
          RunStaysSmall(Kmalloc(s, n).state, es[1..], t);
        case EvAllocPage =>
          TakeKeeps(s, PAGE);
          RunStaysSmall(AllocPage(s).state, es[1..], t);
        case EvFreePage(i) =>
          FreeKeeps(s, i);
          RunStaysSmall(FreePage(s, i), es[1..], t);
      }
    }
  }

  /** In every run with a kmalloc of at least a byte, kmalloc of a page is memory_alloc_page from then on. */
  lemma OpenBlockStaysSmall(imageEnd: nat, pages: nat, es: seq<Event>, s: State)
    requires imageEnd % PAGE == 0 && Run(Init(imageEnd, pages), es, s) && exists i :: 0 <= i < |es| && Takes(es[i])
    ensures s.start <= s.end && Kmalloc(s, PAGE) == AllocPage(s)
  {
    InitInv(imageEnd, pages);
    RunStaysSmall(Init(imageEnd, pages), es, s);
    PageFromFreeList(s);
  }

  class Allocator {
    var heapStart: nat
    var heapEnd: nat
    var freeList: seq<nat>
    ghost var live: seq<Region>

    ghost function Abs(): State
      reads this
    {
      State(heapStart, heapEnd, freeList, live)
    }

    /** heap_init and the free list set up by memory_init. */
    constructor (imageEnd: nat, pages: nat)
      requires imageEnd % PAGE == 0
      ensures Abs() == Init(imageEnd, pages) && Inv(Abs())
    {
      heapStart, heapEnd := imageEnd, imageEnd + PAGE;
      freeList, live := seq(pages, i requires 0 <= i => FreePageAt(imageEnd, i)), [];
      new;
      InitInv(imageEnd, pages);
    }

    /** memory_alloc_page; a panic is reported. */
    method MemoryAllocPage() returns (ok: bool, page: nat)
      requires Inv(Abs())
      modifies this
      ensures ok <==> old(freeList) != []
      ensures ok ==> Next(Abs(), page) == AllocPage(old(Abs())) && Inv(Abs())
      ensures !ok ==> Abs() == old(Abs())
    {
      if freeList == [] { return false, 0; }
      TakeKeeps(Abs(), PAGE);
      page := freeList[0];
      freeList := freeList[1..];
      live := live + [Page(page)];
      return true, page;
    }

    /** kmalloc; a panic is reported. */
    method KernelMalloc(request: nat) returns (ok: bool, block: nat)
      requires Inv(Abs()) && request < WRAP
      modifies this
      ensures ok <==> Kmalloc(old(Abs()), request).Next?
      ensures ok ==> Next(Abs(), block) == Kmalloc(old(Abs()), request) && Inv(Abs())
    {
      KmallocKeeps(Abs(), request);
      var size := (request + 15) % WRAP / 16 * 16;
      if PAGE < size { return false, 0; }
      if size <= heapEnd - heapStart {
        heapEnd := heapEnd - size;
        live := live + [Region(heapEnd, size)];
        return true, heapEnd;
      }
      if freeList == [] { return false, 0; }
      var newBlock := freeList[0];
      freeList := freeList[1..];
      if heapEnd - heapStart < PAGE - size {
        heapStart := newBlock;
        heapEnd := newBlock + PAGE - size;
        live := live + [Region(heapEnd, size)];
        return true, heapEnd;
      }
      live := live + [Region(newBlock, size)];
      return true, newBlock;
    }
  }
}
