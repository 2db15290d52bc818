/**
 The intrusive thread lists: threads linked through their list_next members, with a head and a tail
 pointer. Each list is shown to behave as the sequence `elems` of its threads.
 */
module ThreadLists {

  import opened Common
  import S = Scheduler

  /** A thread; `ref` names it in the state machine, which also says where it is and what it holds. */
  class Thread {
    ghost const ref: S.Ref
    const id: nat
    var state: S.Status
    var parent: Thread?
    var listNext: Thread?
    var waitCond: Condition?
    ghost var place: S.Place
    ghost var holds: set<nat>

    constructor (ghost ref: S.Ref, id: nat, state: S.Status, parent: Thread?)
      ensures this.ref == ref && this.id == id && this.state == state && this.parent == parent
      ensures listNext == null && waitCond == null && place == S.Elsewhere && holds == {}
    {
      this.ref, this.id, this.state, this.parent := ref, id, state, parent;
      listNext, waitCond, place, holds := null, null, S.Elsewhere, {};
    }
  }

  /** A condition variable; `cond` names it in the state machine. */
  class Condition {
    const waitList: ThreadList
    ghost const cond: S.Cond

    constructor (ghost cond: S.Cond)
      ensures this.cond == cond && fresh(waitList) && waitList.Valid() && waitList.elems == []
    {
      this.cond := cond;
      waitList := new ThreadList();
    }
  }

  /** The threads of `elems` are linked in order and the last one ends the list. */
  ghost predicate Linked(elems: seq<Thread>)
    reads elems`listNext
  {
    && (forall i, j :: 0 <= i < j < |elems| ==> elems[i] != elems[j])
    && (forall i :: 0 <= i < |elems| - 1 ==> elems[i].listNext == elems[i + 1])
    && (elems != [] ==> elems[|elems| - 1].listNext == null)
  }

  class ThreadList {
    var head: Thread?
    var tail: Thread?
    ghost var elems: seq<Thread>

    ghost predicate Valid()
      reads this, elems`listNext
    {
      && Linked(elems)
      && head == (if elems == [] then null else elems[0])
      && tail == (if elems == [] then null else elems[|elems| - 1])
    }

    constructor ()
      ensures Valid() && elems == []
    {
      head, tail, elems := null, null, [];
    }

    /** tlclear */
    method Clear()
      modifies this
      ensures Valid() && elems == []
    {
      head, tail, elems := null, null, [];
    }

    /** tlinsert */
    method Insert(thr: Thread)
      requires Valid() && thr !in elems
      modifies this, thr`listNext, elems`listNext
      ensures Valid() && elems == old(elems) + [thr]
    {
      thr.listNext := null;
      if tail != null {
        tail.listNext := thr;
      } else {
        head := thr;
      }
      tail := thr;
      elems := elems + [thr];
    }
  
    /** tlremove */
    method Remove() returns (thr: Thread?)
      requires Valid()
      modifies this, elems`listNext
      ensures Valid()
      ensures if old(elems) == [] then thr == null && elems == []
              else thr == old(elems)[0] && thr.listNext == null && elems == old(elems)[1..]
    {
      thr := head;
      if thr == null { return; }
      head := thr.listNext;
      if head != null {
        thr.listNext := null;
      } else {
        tail := null;
      }
      thr.listNext := null;
      elems := elems[1..];
    }

    /** tlappend: moves the threads of `other` to the end of this list. */
    method Append(other: ThreadList)
      requires Valid() && other.Valid() && other != this
      requires forall t :: t in elems ==> t !in other.elems
      modifies this, other, elems`listNext
      ensures Valid() && other.Valid()
      ensures elems == old(elems) + old(other.elems) && other.elems == []
    {
      ghost var all := elems + other.elems;
      forall i, j | 0 <= i < |elems| && 0 <= j < |other.elems| ensures elems[i] != other.elems[j] {
        assert elems[i] in elems && other.elems[j] in other.elems;
      }
      if head != null {
        if other.head != null {
          tail.listNext := other.head;
          tail := other.tail;
        }
      } else {
        head, tail := other.head, other.tail;
      }
      other.head, other.tail := null, null;
      elems, other.elems := all, [];
    }
  }

  /** The first half of condition_wait. */
  method MarkWaiting(thr: Thread, cond: Condition, ghost p: S.Place)
    modifies thr`state, thr`waitCond, thr`listNext, thr`place
    ensures thr.state == S.Waiting && thr.waitCond == cond && thr.listNext == null && thr.place == p
  {
    thr.state := S.Waiting;
    thr.waitCond := cond;
    thr.listNext := null;
    thr.place := p;
  }

  /** The loop of condition_broadcast over the wait list. */
  method WakeAll(cond: Condition)
    requires cond.waitList.Valid() && forall t :: t in cond.waitList.elems ==> t.state == S.Waiting && t.waitCond == cond
    modifies cond.waitList.elems`state, cond.waitList.elems`waitCond
    ensures forall t :: t in cond.waitList.elems ==> t.state == S.Ready && t.waitCond == null
  {
    ghost var q := cond.waitList.elems;
    ghost var i := 0;
    var thr := cond.waitList.head;
    while thr != null
      invariant 0 <= i <= |q|
      invariant thr == if i < |q| then q[i] else null
      invariant forall k :: 0 <= k < i ==> q[k].state == S.Ready && q[k].waitCond == null
      invariant forall k :: i <= k < |q| ==> q[k].state == S.Waiting && q[k].waitCond == cond
      decreases |q| - i
    {
      assert thr.state == S.Waiting && thr.waitCond == cond;   // the two assertions of the code
      thr.state := S.Ready;
      thr.waitCond := null;
      thr := thr.listNext;
      i := i + 1;
    }
  }

  /**
   suspend_self up to the context switch: the head of the ready list becomes RUNNING, and the current
   thread goes to the end of the list if it was still RUNNING.
   */
  method Dispatch(ready: ThreadList, cur: Thread) returns (next: Thread)
    requires ready.Valid() && ready.elems != [] && forall t :: t in ready.elems ==> t.state == S.Ready
    requires cur != ready.elems[0]
    modifies ready, cur`state, cur`listNext, ready.elems`listNext, ready.elems`state
    ensures ready.Valid() && next == old(ready.elems)[0] && next.state == S.Running
    ensures ready.elems == old(ready.elems)[1..] + (if old(cur.state) == S.Running then [cur] else [])
    ensures cur.state == if old(cur.state) == S.Running then S.Ready else old(cur.state)
    ensures forall t :: t in old(ready.elems) && t != next && t != cur ==> t.state == old(t.state)
    ensures old(cur.state) != S.Running && cur !in old(ready.elems) ==> cur.listNext == old(cur.listNext)
  {
    ghost var q := ready.elems;
    next := ready.Remove();
    assert next.state == S.Ready;    // the assertion of the code
    next.state := S.Running;
    assert forall t :: t in ready.elems ==> t in q && t != next;
    if cur.state == S.Running {
      cur.state := S.Ready;
      ready.Insert(cur);
    }
  }

  /** condition_broadcast: all waiters become READY and follow the ready threads, in waiting order. */
  method WakeToReady(ready: ThreadList, cond: Condition)
    requires ready.Valid() && cond.waitList.Valid() && cond.waitList != ready
    requires forall t :: t in cond.waitList.elems ==> t.state == S.Waiting && t.waitCond == cond
    requires forall t :: t in ready.elems ==> t !in cond.waitList.elems
    modifies ready, cond.waitList, ready.elems`listNext, cond.waitList.elems`state, cond.waitList.elems`waitCond
    ensures ready.Valid() && cond.waitList.Valid()
    ensures ready.elems == old(ready.elems) + old(cond.waitList.elems) && cond.waitList.elems == []
    ensures forall t :: t in old(cond.waitList.elems) ==> t.state == S.Ready && t.waitCond == null
  {
    if cond.waitList.head == null { return; }
    WakeAll(cond);
    ready.Append(cond.waitList);
    cond.waitList.Clear();
  }
}
