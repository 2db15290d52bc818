/**
 The scheduler on the threads' own memory: thread objects linked into the ready list and into the wait list of
 one condition variable each. The heap stands for a state of the state machine, and the operations below take
 its steps. That a thread is linked on at most one list, without which an insertion would break another list,
 follows from the invariant of the state machine.
 */
module KernelThreads {
  import opened Common
  import opened ThreadLists
  import S = Scheduler
  import I = SchedulerInvariant

  // What the heap stands for

  ghost function View(t: Thread): S.Thread
    reads t
  {
    S.Thread(t.id, t.state, if t.parent == null then None else Some(t.parent.ref),
             if t.waitCond == null then None else Some(t.waitCond.cond), t.place, t.holds)
  }

  ghost function Refs(ts: seq<Thread>): (rs: seq<S.Ref>)
    ensures |rs| == |ts| && forall i :: 0 <= i < |ts| ==> rs[i] == ts[i].ref
  {
    seq(|ts|, i requires 0 <= i < |ts| => ts[i].ref)
  }

  /** Threads and condition variables by their names, and the objects that this makes up. */
  datatype Names = Names(threads: map<S.Ref, Thread>, conds: map<S.Cond, Condition>, objects: set<Thread>, lists: set<ThreadList>) {

    ghost predicate Known(t: Thread) { t in objects && t.ref in threads && threads[t.ref] == t }

    ghost predicate Named(c: Condition) { c.waitList in lists && c.cond in conds && conds[c.cond] == c }

    ghost predicate Ok(ready: ThreadList) {
      && (forall r :: r in threads ==> threads[r].ref == r && threads[r] in objects)
      && (forall c :: c in conds ==> conds[c].cond == c && conds[c].waitList in lists)
      && (forall c, d :: c in conds && d in conds && c != d ==> conds[c].waitList != conds[d].waitList)
      && ready !in lists
    }

    ghost function Views(): map<S.Ref, S.Thread>
      requires forall r :: r in threads ==> threads[r] in objects
      reads objects
    {
      map r | r in threads :: View(threads[r])
    }

    ghost function Waits(): map<S.Cond, seq<S.Ref>>
      requires forall c :: c in conds ==> conds[c].waitList in lists
      reads lists
    {
      map c | c in conds :: Refs(conds[c].waitList.elems)
    }

    ghost predicate ListOk(list: ThreadList)
      reads list, objects
    {
      (forall t :: t in list.elems ==> t in objects && Known(t)) && list.Valid()
    }

    ghost predicate WaitListsOk()
      requires forall c :: c in conds ==> conds[c].waitList in lists
      reads lists, objects
    {
      forall c :: c in conds ==> ListOk(conds[c].waitList)
    }

    ghost predicate WaitCondsOk()
      reads objects
    {
      forall t :: t in objects && t.waitCond != null ==> Named(t.waitCond)
    }
  }

  class Kernel {
    const ready: ThreadList
    var thrtab: seq<Thread?>
    var locks: map<nat, int>
    ghost var names: Names
    ghost var table: seq<Option<S.Ref>>
    ghost var next: S.Ref

    constructor (ready: ThreadList, mainThread: Thread, idleThread: Thread, ghost names: Names)
      requires mainThread.ref == S.MAIN && idleThread.ref == S.IDLE
      ensures this.ready == ready && this.names == names && locks == map[] && table == S.Init().table && next == 2 && TableOk()
    {
      this.ready, this.names := ready, names;
      thrtab := seq(S.NTHR, i => if i == S.MAIN_TID then mainThread else if i == S.IDLE_TID then idleThread else null);
      locks, table, next := map[], S.Init().table, 2;
    }

    /** The thread table holds the threads that `table` names. */
    ghost predicate TableOk()
      reads this`thrtab, this`table
    {
      && |thrtab| == |table| == S.NTHR
      && forall i :: 0 <= i < S.NTHR ==> table[i] == if thrtab[i] == null then None else Some(thrtab[i].ref)
    }

    /** Names are right, and the lists are lists of live threads. */
    ghost predicate Valid()
      reads this`names, ready, names.objects, names.lists
    {
      names.Ok(ready) && names.ListOk(ready) && names.WaitListsOk() && names.WaitCondsOk()
    }

    /** The state that the heap stands for when `cur` is the current thread. */
    ghost function Abs(cur: Thread, phase: S.Phase): S.State
      requires names.Ok(ready)
      reads this, ready, names.objects, names.lists
    {
      S.State(cur.ref, phase, names.Views(), table, Refs(ready.elems), names.Waits(), locks, next)
    }

    /** The states of threads on lists, by the invariant of the state machine. */
    lemma OnReady(cur: Thread, phase: S.Phase, t: Thread)
      requires Valid() && I.ListsOk(Abs(cur, phase)) && t in ready.elems
      ensures t.state == S.Ready && t.ref in names.Views()
    {
      var i :| 0 <= i < |ready.elems| && ready.elems[i] == t;
      assert Refs(ready.elems)[i] in Refs(ready.elems);
    }

    lemma OnWaitList(cur: Thread, phase: S.Phase, c: S.Cond, t: Thread)
      requires Valid() && I.ListsOk(Abs(cur, phase)) && c in names.conds && t in names.conds[c].waitList.elems
      ensures t.state == S.Waiting && t.waitCond == names.conds[c]
    {
      var q := names.conds[c].waitList.elems;
      var i :| 0 <= i < |q| && q[i] == t;
      assert names.ListOk(names.conds[c].waitList);
      assert Refs(q)[i] in Refs(q) && S.Queue(names.Waits(), c) == Refs(q);
      assert I.QueueOk(names.Views(), S.Queue(names.Waits(), c), c, I.Off(Abs(cur, phase)));
      assert names.Named(t.waitCond);
    }

    /** A thread is linked on at most one list. */
    lemma LinkedOnce(cur: Thread, phase: S.Phase, c: S.Cond, d: S.Cond, t: Thread)
      requires Valid() && I.ListsOk(Abs(cur, phase)) && c in names.conds && d in names.conds
      ensures t in ready.elems ==> t !in names.conds[c].waitList.elems
      ensures t in names.conds[c].waitList.elems && t in names.conds[d].waitList.elems ==> c == d
    {
      if t in ready.elems { OnReady(cur, phase, t); }
      if t in names.conds[c].waitList.elems { OnWaitList(cur, phase, c, t); }
      if t in names.conds[d].waitList.elems { OnWaitList(cur, phase, d, t); }
    }

    /** What suspend_self needs: no thread of a wait list is on the ready list or about to go there. */
    ghost predicate CanSwitch(cur: Thread)
      reads this, ready, names.objects, names.lists
    {
      && Valid() && names.Known(cur) && ready.elems != [] && ready.elems[0] != cur
      && (forall t :: t in ready.elems ==> t.state == S.Ready)
      && forall c, t :: c in names.conds && t in names.conds[c].waitList.elems ==> t !in ready.elems && (t == cur ==> cur.state != S.Running)
    }

    lemma SwitchReady(cur: Thread, phase: S.Phase)
      requires Valid() && names.Known(cur) && I.ListsOk(Abs(cur, phase)) && phase != S.Marked && ready.elems != []
      ensures CanSwitch(cur)
    {
      forall t | t in ready.elems ensures t.state == S.Ready { OnReady(cur, phase, t); }
      forall c, t | c in names.conds && t in names.conds[c].waitList.elems
        ensures t !in ready.elems && (t == cur ==> cur.state != S.Running) { OnWaitList(cur, phase, c, t); }
      assert cur.ref in names.Views();
      OnReady(cur, phase, ready.elems[0]);
    }

    /** The change of lists and threads of suspend_self. */
    method Switch(cur: Thread) returns (resumed: Thread)
      requires CanSwitch(cur)
      modifies ready, names.objects`state, names.objects`listNext
      ensures Valid() && names.Known(resumed) && resumed == old(ready.elems)[0]
      ensures ready.elems == old(ready.elems)[1..] + (if old(cur.state) == S.Running then [cur] else [])
      ensures forall t :: t in names.objects ==> View(t) == Switched(old(View(t)), t == resumed, t == cur)
      ensures forall c :: c in names.conds ==> names.conds[c].waitList.elems == old(names.conds[c].waitList.elems)
    {
      assert ready.elems[0] in ready.elems;
      resumed := Dispatch(ready, cur);
      forall c | c in names.conds ensures names.ListOk(names.conds[c].waitList) {
        assert old(names.ListOk(names.conds[c].waitList));
        forall t | t in names.conds[c].waitList.elems ensures t.listNext == old(t.listNext) {
          assert t !in old(ready.elems) && (t == cur ==> old(cur.state) != S.Running);
        }
      }
    }

    /** suspend_self up to the context switch: the thread to switch to becomes the current one. */
    method SuspendSelf(cur: Thread, ghost phase: S.Phase) returns (resumed: Thread)
      requires CanSwitch(cur)
      modifies ready, names.objects`state, names.objects`listNext
      ensures Valid() && names.Known(resumed) && S.Suspend(old(Abs(cur, phase))) == S.Next(Abs(resumed, S.Executing))
    {
      ghost var s, q := Abs(cur, phase), ready.elems;
      assert q[0] in q;
      resumed := Switch(cur);
      forall r | r in names.threads ensures names.Views()[r] == Switched(s.threads[r], r == s.ready[0], r == s.cur) {
        assert names.Known(names.threads[r]);
      }
      WaitsSame(names, s.queues);
      RefsNext(q, cur, s.threads[s.cur].status == S.Running);
      SuspendIs(s, Abs(resumed, S.Executing));
    }

    // New condition variables and threads

    /** One more condition variable, that nobody waits for. */
    lemma MoreConds(cond: Condition, names': Names)
      requires Valid() && cond.cond !in names.conds && cond.waitList.elems == [] && cond.waitList.Valid()
      requires cond.waitList !in names.lists && cond.waitList != ready
      requires names' == names.(conds := names.conds[cond.cond := cond], lists := names.lists + {cond.waitList})
      ensures names'.Ok(ready) && names'.ListOk(ready) && names'.WaitListsOk() && names'.WaitCondsOk()
      ensures names'.Views() == names.Views() && names'.Waits() == names.Waits()[cond.cond := []]
    {
      forall c | c in names'.conds ensures names'.ListOk(names'.conds[c].waitList) {
        if c != cond.cond { assert names.ListOk(names.conds[c].waitList); }
      }
      forall t | t in names.objects && names.Known(t) ensures names'.Known(t) {}
      WaitsSame(names', names.Waits()[cond.cond := []]);
    }

    /** condition_init for a condition variable of its own; nobody waits for it. */
    method InitCondition(ghost c: S.Cond, ghost cur: Thread, ghost phase: S.Phase) returns (cond: Condition)
      requires Valid() && c !in names.conds
      modifies this`names
      ensures Valid() && fresh(cond) && fresh(cond.waitList) && names.Named(cond) && cond.cond == c
      ensures names == old(names).(conds := old(names).conds[c := cond], lists := old(names).lists + {cond.waitList})
      ensures Abs(cur, phase) == old(Abs(cur, phase)).(queues := old(Abs(cur, phase)).queues[c := []])
    {
      cond := new Condition(c);
      NameCond(cond, cur, phase);
    }

    ghost method NameCond(cond: Condition, cur: Thread, phase: S.Phase)
      requires Valid() && cond.cond !in names.conds && cond.waitList.elems == [] && cond.waitList.Valid()
      requires cond.waitList !in names.lists && cond.waitList != ready
      modifies this`names
      ensures Valid() && names.Named(cond)
      ensures names == old(names).(conds := old(names).conds[cond.cond := cond], lists := old(names).lists + {cond.waitList})
      ensures Abs(cur, phase) == old(Abs(cur, phase)).(queues := old(Abs(cur, phase)).queues[cond.cond := []])
    {
      var names' := names.(conds := names.conds[cond.cond := cond], lists := names.lists + {cond.waitList});
      MoreConds(cond, names');
      names := names';
    }

    /** The search of thread_spawn for a free slot. */
    method FindThreadSlot() returns (tid: nat)
      requires TableOk()
      ensures tid == S.FreeSlot(table, 1)
    {
      tid := 1;
      while tid < S.NTHR && thrtab[tid] != null
        invariant 1 <= tid <= S.NTHR && S.FreeSlot(table, 1) == S.FreeSlot(table, tid)
      {
        tid := tid + 1;
      }
    }

    /** What thread_spawn needs. */
    ghost predicate CanSpawn(cur: Thread)
      reads this, ready, names.objects, names.lists
    {
      && Valid() && TableOk() && names.Known(cur) && next !in names.threads
      && forall c, t :: c in names.conds && t in names.conds[c].waitList.elems ==> t !in ready.elems
    }

    lemma SpawnReady(cur: Thread, phase: S.Phase)
      requires Valid() && TableOk() && names.Known(cur) && I.Inv(Abs(cur, phase))
      ensures CanSpawn(cur) == true
    {
      forall c, t | c in names.conds && t in names.conds[c].waitList.elems ensures t !in ready.elems { LinkedOnce(cur, phase, c, c, t); }
      NextIsNew(Abs(cur, phase));
      assert names.Views().Keys == names.threads.Keys;
    }

    /** A new thread is put at the end of the ready list. */
    method InsertNew(child: Thread)
      requires Valid() && child !in names.objects
      requires forall c, t :: c in names.conds && t in names.conds[c].waitList.elems ==> t !in ready.elems
      modifies ready, child`listNext, names.objects`listNext
      ensures names.Ok(ready) && names.WaitListsOk() && names.WaitCondsOk()
      ensures ready.Valid() && ready.elems == old(ready.elems) + [child] && forall t :: t in old(ready.elems) ==> names.Known(t)
      ensures View(child) == old(View(child)) && forall t :: t in names.objects ==> View(t) == old(View(t))
      ensures forall c :: c in names.conds ==> names.conds[c].waitList.elems == old(names.conds[c].waitList.elems)
    {
      assert names.ListOk(ready);
      ready.Insert(child);
      forall c | c in names.conds ensures names.ListOk(names.conds[c].waitList) {
        assert old(names.ListOk(names.conds[c].waitList));
        forall t | t in names.conds[c].waitList.elems ensures t.listNext == old(t.listNext) { assert t !in old(ready.elems); }
      }
    }

    method LinkNew(child: Thread)
      requires Valid() && child !in names.objects
      requires forall c, t :: c in names.conds && t in names.conds[c].waitList.elems ==> t !in ready.elems
      modifies ready, child`listNext, names.objects`listNext
      ensures names.Ok(ready) && names.WaitListsOk() && names.WaitCondsOk()
      ensures ready.Valid() && ready.elems == old(ready.elems) + [child] && forall t :: t in old(ready.elems) ==> names.Known(t)
      ensures names.Views() == old(names.Views()) && names.Waits() == old(names.Waits()) && View(child) == old(View(child))
    {
      ghost var views, waits := names.Views(), names.Waits();
      InsertNew(child);
      forall r | r in names.threads ensures names.Views()[r] == views[r] { assert names.threads[r] in names.objects; }
      WaitsSame(names, waits);
    }

    /** One more thread. */
    lemma MoreThreads(child: Thread, q: seq<Thread>, names': Names)
      requires names.Ok(ready) && names.WaitListsOk() && names.WaitCondsOk() && child.ref !in names.threads && child.waitCond == null
      requires ready.Valid() && ready.elems == q + [child] && forall t :: t in q ==> names.Known(t)
      requires names' == names.(threads := names.threads[child.ref := child], objects := names.objects + {child})
      ensures names'.Ok(ready) && names'.ListOk(ready) && names'.WaitListsOk() && names'.WaitCondsOk() && names'.Known(child)
      ensures names'.Views() == names.Views()[child.ref := View(child)] && names'.Waits() == names.Waits()
    {
      forall t | t in names.objects && names.Known(t) ensures names'.Known(t) {}
      forall c | c in names'.conds ensures names'.ListOk(names'.conds[c].waitList) { assert names.ListOk(names.conds[c].waitList); }
      WaitsSame(names', names.Waits());
    }

    /** The new thread of thread_spawn, on the ready list. */
    method Adding(cur: Thread, tid: nat) returns (child: Thread)
      requires CanSpawn(cur) == true
      modifies this`names, ready, names.objects`listNext
      ensures Valid() == true && names.Ok(ready) && fresh(child) && names.Known(child) && child.ref == next && ready.elems == old(ready.elems) + [child]
      ensures names == old(names).(threads := old(names).threads[next := child], objects := old(names).objects + {child})
      ensures names.Views() == old(names.Views())[next := S.Thread(tid, S.Ready, Some(cur.ref), None, S.Elsewhere, {})]
      ensures names.Waits() == old(names.Waits())
    {
      ghost var q := ready.elems;
      child := new Thread(next, tid, S.Ready, cur);
      LinkNew(child);
      NameThread(child, q);
    }

    ghost method NameThread(child: Thread, q: seq<Thread>)
      requires names.Ok(ready) && names.WaitListsOk() && names.WaitCondsOk() && child.ref !in names.threads && child.waitCond == null
      requires ready.Valid() && ready.elems == q + [child] && forall t :: t in q ==> names.Known(t)
      modifies this`names
      ensures Valid() && names.Known(child) && names.Views() == old(names.Views())[child.ref := View(child)] && names.Waits() == old(names.Waits())
      ensures names == old(names).(threads := old(names).threads[child.ref := child], objects := old(names).objects + {child})
    {
      var names' := names.(threads := names.threads[child.ref := child], objects := names.objects + {child});
      MoreThreads(child, q, names');
      names := names';
    }

    /** As the state machine has it. */
    method AddThread(cur: Thread, tid: nat) returns (child: Thread)
      requires CanSpawn(cur) == true
      modifies this`names, ready, names.objects`listNext
      ensures Valid() == true && names.Ok(ready) && fresh(child) && names.Known(child) && child.ref == next
      ensures names == old(names).(threads := old(names).threads[next := child], objects := old(names).objects + {child})
      ensures Abs(cur, S.Executing) == Added(old(Abs(cur, S.Executing)), tid)
    {
      ghost var q := ready.elems;
      child := Adding(cur, tid);
      RefsConcat(q, [child]);
      assert Refs([child]) == [child.ref];
    }

    /** The thread gets its slot of the table. */
    method Record(child: Thread, tid: nat, ghost cur: Thread)
      requires names.Ok(ready) && TableOk() == true && tid < S.NTHR && child.ref == next
      modifies this`thrtab, this`table, this`next
      ensures TableOk() == true && |old(table)| == S.NTHR
      ensures Abs(cur, S.Executing) == old(Abs(cur, S.Executing)).(table := old(table)[tid := Some(child.ref)], next := child.ref + 1)
    {
      thrtab, table, next := thrtab[tid := child], table[tid := Some(next)], next + 1;
    }

    /** thread_spawn once a slot is found. */
    method SpawnAt(cur: Thread, tid: nat) returns (child: Thread)
      requires CanSpawn(cur) == true && tid < S.NTHR
      modifies this`names, this`thrtab, this`table, this`next, ready, names.objects`listNext
      ensures Valid() == true && TableOk() == true && names.Ok(ready) && names.Known(cur) && names.Known(child)
      ensures fresh(child) && names.objects == old(names).objects + {child} && names.conds == old(names).conds && names.lists == old(names).lists
      ensures |old(table)| == S.NTHR && Abs(cur, S.Executing) == Spawned(old(Abs(cur, S.Executing)), tid)
    {
      child := AddThread(cur, tid);
      Record(child, tid, cur);
    }

    /** thread_spawn; a panic for want of a slot is reported. */
    method SpawnThread(cur: Thread) returns (ok: bool, child: Thread)
      requires CanSpawn(cur) == true
      modifies this`names, this`thrtab, this`table, this`next, ready, names.objects`listNext
      ensures Valid() == true && TableOk() == true && names.Ok(ready) && names.Known(cur) && fresh(names.objects - old(names).objects)
      ensures names.conds == old(names).conds && names.lists == old(names).lists
      ensures ok ==> names.Known(child) && S.Spawn(old(Abs(cur, S.Executing))) == S.Next(Abs(cur, S.Executing))
      ensures !ok ==> S.Spawn(old(Abs(cur, S.Executing))) == S.Panic(S.TooManyThreads) && Abs(cur, S.Executing) == old(Abs(cur, S.Executing))
    {
      assert cur.ref in names.Views();
      ghost var s := Abs(cur, S.Executing);
      var tid := FindThreadSlot();
      if tid == S.NTHR { return false, cur; }
      SpawnIs(s, tid);
      child := SpawnAt(cur, tid);
      ok := true;
    }

    // Waking

    /** What condition_broadcast needs. */
    ghost predicate CanWake(cond: Condition)
      reads this, ready, names.objects, names.lists
    {
      && Valid() && names.Named(cond)
      && (forall t :: t in cond.waitList.elems ==> t.state == S.Waiting && t.waitCond == cond)
      && (forall c, t :: c in names.conds && t in names.conds[c].waitList.elems ==> t !in ready.elems)
      && (forall c, t :: c in names.conds && t in names.conds[c].waitList.elems && t in cond.waitList.elems ==> c == cond.cond)
    }

    lemma WakeReady(cur: Thread, phase: S.Phase, cond: Condition)
      requires Valid() && I.ListsOk(Abs(cur, phase)) && names.Named(cond)
      ensures CanWake(cond)
    {
      forall t | t in cond.waitList.elems ensures t.state == S.Waiting && t.waitCond == cond { OnWaitList(cur, phase, cond.cond, t); }
      forall c, t | c in names.conds && t in names.conds[c].waitList.elems
        ensures t !in ready.elems && (t in cond.waitList.elems ==> c == cond.cond) { LinkedOnce(cur, phase, c, cond.cond, t); }
    }

    /** The change of lists and threads of condition_broadcast. */
    method Wake(cond: Condition)
      requires CanWake(cond)
      modifies ready, cond.waitList, names.objects`state, names.objects`waitCond, names.objects`listNext
      ensures Valid() && ready.elems == old(ready.elems) + old(cond.waitList.elems)
      ensures forall t :: t in names.objects ==> View(t) == Woken(old(View(t)), t in old(cond.waitList.elems))
      ensures forall c :: c in names.conds ==>
                names.conds[c].waitList.elems == if c == cond.cond then [] else old(names.conds[c].waitList.elems)
    {
      assert names.ListOk(cond.waitList);
      WakeToReady(ready, cond);
      forall c | c in names.conds && c != cond.cond ensures names.ListOk(names.conds[c].waitList) {
        assert old(names.ListOk(names.conds[c].waitList));
        assert names.conds[c].waitList != cond.waitList;
        forall t | t in names.conds[c].waitList.elems ensures t.listNext == old(t.listNext) {
          assert t !in old(ready.elems);
        }
      }
    }

    lemma WaitersMarked(cond: Condition)
      requires CanWake(cond)
      ensures AllWait(names.Views(), Refs(cond.waitList.elems), cond.cond)
      ensures forall t :: t in names.objects && names.Known(t) ==> (t.ref in Refs(cond.waitList.elems) <==> t in cond.waitList.elems)
    {
      var q := cond.waitList.elems;
      assert names.ListOk(cond.waitList);
      forall i | 0 <= i < |q| ensures Waits(names.Views(), Refs(q)[i], cond.cond) { assert q[i] in q; }
      forall t | t in names.objects && names.Known(t) ensures t.ref in Refs(q) <==> t in q { RefsIn(names, q, t); }
    }

    /** condition_broadcast */
    method Broadcast(cond: Condition, ghost cur: Thread, ghost phase: S.Phase)
      requires CanWake(cond)
      modifies ready, cond.waitList, names.objects`state, names.objects`waitCond, names.objects`listNext
      ensures Valid() && S.Broadcast(old(Abs(cur, phase)), cond.cond) == S.Next(Abs(cur, phase))
    {
      ghost var s, q := Abs(cur, phase), cond.waitList.elems;
      WaitersMarked(cond);
      RefsConcat(ready.elems, q);
      Wake(cond);
      forall r | r in names.threads ensures names.Views()[r] == Woken(s.threads[r], r in Refs(q)) {
        assert names.Known(names.threads[r]);
      }
      WaitsSame(names, s.queues[cond.cond := []]);
      BroadcastIs(s, Abs(cur, phase), cond.cond);
    }

    // Waiting

    ghost predicate OnNoList(t: Thread)
      requires names.Ok(ready)
      reads this, ready, names.lists
    {
      t !in ready.elems && forall c :: c in names.conds ==> t !in names.conds[c].waitList.elems
    }

    /** No thread is on two lists. */
    ghost predicate Separate()
      requires names.Ok(ready)
      reads this, ready, names.lists
    {
      && (forall c, t :: c in names.conds && t in names.conds[c].waitList.elems ==> t !in ready.elems)
      && (forall c, d, t :: c in names.conds && d in names.conds && t in names.conds[c].waitList.elems && t in names.conds[d].waitList.elems ==> c == d)
    }

    /** What condition_wait needs. */
    ghost predicate CanWait(cur: Thread, cond: Condition)
      reads this, ready, names.objects, names.lists
    {
      && Valid() && names.Known(cur) && names.Named(cond) && cur.state == S.Running && OnNoList(cur) && Separate()
      && ready.elems != [] && forall t :: t in ready.elems ==> t.state == S.Ready
    }

    lemma WaitReady(cur: Thread, cond: Condition)
      requires Valid() && names.Known(cur) && names.Named(cond) && I.ListsOk(Abs(cur, S.Executing)) && ready.elems != []
      ensures CanWait(cur, cond)
    {
      assert cur.ref in names.Views();
      forall t | t in ready.elems ensures t.state == S.Ready { OnReady(cur, S.Executing, t); }
      forall c, t | c in names.conds && t in names.conds[c].waitList.elems ensures t !in ready.elems && t != cur { OnWaitList(cur, S.Executing, c, t); }
      forall c, d, t | c in names.conds && d in names.conds && t in names.conds[c].waitList.elems && t in names.conds[d].waitList.elems
        ensures c == d { LinkedOnce(cur, S.Executing, c, d, t); }
    }

    /** The change of the current thread in condition_wait. */
    method Marking(cur: Thread, cond: Condition, ghost p: S.Place)
      requires Valid() && names.Known(cur) && names.Named(cond) && OnNoList(cur)
      modifies cur`state, cur`waitCond, cur`listNext, cur`place
      ensures Valid() && cur.state == S.Waiting && cur.waitCond == cond
      ensures View(cur) == old(View(cur)).(status := S.Waiting, waitCond := Some(cond.cond), place := p)
      ensures forall t :: t in names.objects && t != cur ==> View(t) == old(View(t))
    {
      MarkWaiting(cur, cond, p);
      forall c | c in names.conds ensures names.ListOk(names.conds[c].waitList) { assert old(names.ListOk(names.conds[c].waitList)); }
    }

    /** The first half of condition_wait: the current thread is WAITING but on no list. */
    method MarkSelf(cur: Thread, cond: Condition, ghost p: S.Place)
      requires Valid() && names.Known(cur) && names.Named(cond) && cur.state == S.Running && OnNoList(cur)
      modifies cur`state, cur`waitCond, cur`listNext, cur`place
      ensures Valid() && cur.state == S.Waiting && cur.waitCond == cond
      ensures S.Mark(old(Abs(cur, S.Executing)), cond.cond, p) == S.Next(Abs(cur, S.Marked))
    {
      ghost var s := Abs(cur, S.Executing);
      Marking(cur, cond, p);
      forall r | r in names.threads && r != cur.ref ensures names.Views()[r] == s.threads[r] { assert names.threads[r] != cur; }
      WaitsSame(names, s.queues);
      MarkIs(s, Abs(cur, S.Marked), cond.cond, p);
    }

    /** The change of the lists in condition_wait. */
    method Enqueuing(cur: Thread, cond: Condition)
      requires Valid() && names.Known(cur) && names.Named(cond) && OnNoList(cur) && Separate()
      modifies cond.waitList, names.objects`listNext
      ensures Valid() && ready.elems == old(ready.elems)
      ensures forall t :: t in names.objects ==> View(t) == old(View(t))
      ensures cond.waitList.elems == old(cond.waitList.elems) + [cur]
      ensures forall c :: c in names.conds && c != cond.cond ==> names.conds[c].waitList.elems == old(names.conds[c].waitList.elems)
    {
      ghost var q := cond.waitList.elems;
      assert names.ListOk(cond.waitList);
      cond.waitList.Insert(cur);
      assert names.ListOk(ready) by {
        forall t | t in ready.elems ensures t.listNext == old(t.listNext) { assert t !in q && t != cur; }
      }
      forall c | c in names.conds && c != cond.cond ensures names.ListOk(names.conds[c].waitList) {
        assert old(names.ListOk(names.conds[c].waitList));
        assert names.conds[c].waitList != cond.waitList;
        forall t | t in names.conds[c].waitList.elems ensures t.listNext == old(t.listNext) { assert t !in q && t != cur; }
      }
    }

    /** The second half: the current thread is put at the end of the wait list. */
    method EnqueueSelf(cur: Thread, cond: Condition)
      requires Valid() && names.Known(cur) && names.Named(cond) && cur.waitCond == cond && OnNoList(cur) && Separate()
      requires cur.state == S.Waiting && ready.elems != [] && forall t :: t in ready.elems ==> t.state == S.Ready
      modifies cond.waitList, names.objects`listNext
      ensures CanSwitch(cur) && S.Enqueue(old(Abs(cur, S.Marked))) == S.Next(Abs(cur, S.Suspending))
    {
      ghost var s, q := Abs(cur, S.Marked), cond.waitList.elems;
      Enqueuing(cur, cond);
      EnqueuedAbs(cur, cond, s, q);
      WaiterCanSwitch(cur, cond, q);
    }

    /** What the state machine makes of it. */
    lemma EnqueuedAbs(cur: Thread, cond: Condition, s: S.State, q: seq<Thread>)
      requires names.Ok(ready) && names.Known(cur) && names.Named(cond) && cur.waitCond == cond
      requires s == Abs(cur, S.Marked).(queues := s.queues, threads := s.threads) && s.queues.Keys == names.conds.Keys
      requires s.threads.Keys == names.threads.Keys && forall r :: r in names.threads ==> s.threads[r] == View(names.threads[r])
      requires s.queues[cond.cond] == Refs(q) && cond.waitList.elems == q + [cur]
      requires forall c :: c in names.conds && c != cond.cond ==> s.queues[c] == Refs(names.conds[c].waitList.elems)
      ensures S.Enqueue(s) == S.Next(Abs(cur, S.Suspending))
    {
      RefsConcat(q, [cur]);
      WaitsSame(names, s.queues[cond.cond := s.queues[cond.cond] + [cur.ref]]);
      assert s.threads == names.Views();
    }

    /** Both halves. */
    method WaitSelf(cur: Thread, cond: Condition, ghost p: S.Place)
      requires CanWait(cur, cond)
      modifies cond.waitList, cur`state, cur`waitCond, cur`place, names.objects`listNext
      ensures CanSwitch(cur)
      ensures var marked := S.Mark(old(Abs(cur, S.Executing)), cond.cond, p);
              marked.Next? && S.Enqueue(marked.state) == S.Next(Abs(cur, S.Suspending))
    {
      assert ready.elems[0] in ready.elems;
      MarkSelf(cur, cond, p);
      forall t | t in ready.elems ensures t.state == S.Ready { assert t != cur && old(t.state) == S.Ready; }
      EnqueueSelf(cur, cond);
    }

    lemma WaiterCanSwitch(cur: Thread, cond: Condition, q: seq<Thread>)
      requires Valid() && names.Known(cur) && names.Named(cond) && cur.state == S.Waiting && cond.waitList.elems == q + [cur]
      requires ready.elems != [] && cur !in ready.elems && forall t :: t in ready.elems ==> t.state == S.Ready && t !in q
      requires forall c, t :: c in names.conds && c != cond.cond && t in names.conds[c].waitList.elems ==> t !in ready.elems
      ensures CanSwitch(cur)
    {
      assert ready.elems[0] in ready.elems;
    }

    /** condition_wait, if no interrupt comes in between; `resumed` is the next current thread. */
    method ConditionWait(cur: Thread, cond: Condition, ghost p: S.Place) returns (resumed: Thread)
      requires CanWait(cur, cond)
      modifies ready, cond.waitList, names.objects`state, names.objects`waitCond, names.objects`listNext, names.objects`place
      ensures Valid() && names.Known(resumed)
      ensures var marked := S.Mark(old(Abs(cur, S.Executing)), cond.cond, p);
              marked.Next? && S.Suspend(S.Enqueue(marked.state).state) == S.Next(Abs(resumed, S.Executing))
    {
      WaitSelf(cur, cond, p);
      resumed := SuspendSelf(cur, S.Suspending);
    }

    // Exits

    /** thread_exit up to its broadcast: the current thread is EXITED. */
    method Leaving(cur: Thread, cond: Condition)
      requires CanWake(cond) && names.Known(cur) && OnNoList(cur)
      modifies cur`state
      ensures CanWake(cond) && View(cur) == old(View(cur)).(status := S.Exited)
      ensures forall t :: t in names.objects && t != cur ==> View(t) == old(View(t))
    {
      cur.state := S.Exited;
      forall c | c in names.conds ensures names.ListOk(names.conds[c].waitList) { assert old(names.ListOk(names.conds[c].waitList)); }
      assert names.ListOk(cond.waitList);
    }

    method LeaveSelf(cur: Thread, cond: Condition)
      requires CanWake(cond) && names.Known(cur) && OnNoList(cur)
      modifies cur`state
      ensures CanWake(cond)
      ensures var s := old(Abs(cur, S.Executing));
              s.cur in s.threads && Abs(cur, S.Suspending) == Left(s)
    {
      ghost var s := Abs(cur, S.Executing);
      Leaving(cur, cond);
      forall r | r in names.threads && r != cur.ref ensures names.Views()[r] == s.threads[r] { assert names.threads[r] != cur; }
      WaitsSame(names, s.queues);
      LeaveIs(s, Abs(cur, S.Suspending));
    }

    /** The running thread is on no list. */
    lemma LeaveReady(cur: Thread)
      requires Valid() && names.Known(cur) && I.ListsOk(Abs(cur, S.Executing))
      ensures OnNoList(cur)
    {
      assert cur.ref in names.Views();
      if cur in ready.elems { OnReady(cur, S.Executing, cur); }
      forall c | c in names.conds ensures cur !in names.conds[c].waitList.elems {
        if cur in names.conds[c].waitList.elems { OnWaitList(cur, S.Executing, c, cur); }
      }
    }

    /** thread_exit up to its call of suspend_self; `cond` is the parent's child_exit. */
    method ExitThread(cur: Thread, cond: Condition)
      requires CanWake(cond) && names.Known(cur) && OnNoList(cur) && cur.ref != S.MAIN
      requires cur.parent != null && names.Known(cur.parent) && cond.cond == S.ChildExit(cur.parent.ref)
      modifies ready, cond.waitList, names.objects`state, names.objects`waitCond, names.objects`listNext
      ensures Valid() && S.Exit(old(Abs(cur, S.Executing))) == S.Next(Abs(cur, S.Suspending))
    {
      LeaveSelf(cur, cond);
      Broadcast(cond, cur, S.Suspending);
    }

    // Locks

    /** The lock goes to the current thread. */
    method Take(l: nat, cur: Thread)
      requires Valid() && names.Known(cur)
      modifies this`locks, cur`place, cur`holds
      ensures Valid() && locks == old(locks)[l := cur.id]
      ensures View(cur) == old(View(cur)).(place := S.Elsewhere, holds := old(cur.holds) + {l})
      ensures forall t :: t in names.objects && t != cur ==> View(t) == old(View(t))
    {
      locks := locks[l := cur.id];
      cur.place, cur.holds := S.Elsewhere, cur.holds + {l};
      forall c | c in names.conds ensures names.ListOk(names.conds[c].waitList) { assert old(names.ListOk(names.conds[c].waitList)); }
    }

    method TakeLock(l: nat, cur: Thread)
      requires Valid() && names.Known(cur) && S.LockTid(locks, l) == -1
      modifies this`locks, cur`place, cur`holds
      ensures Valid() && S.AcquireTurn(old(Abs(cur, S.Executing)), l) == S.Next(Abs(cur, S.Executing))
    {
      ghost var s := Abs(cur, S.Executing);
      Take(l, cur);
      forall r | r in names.threads && r != cur.ref ensures names.Views()[r] == s.threads[r] { assert names.threads[r] != cur; }
      WaitsSame(names, s.queues);
      TakeIs(s, Abs(cur, S.Executing), l);
    }

    /** One turn of the loop of lock_acquire, with the condition_wait if the lock is held; `resumed` is the current thread then. */
    method AcquireLock(l: nat, cond: Condition, cur: Thread) returns (resumed: Thread)
      requires CanWait(cur, cond) && cond.cond == S.LockQueue(l)
      modifies this`locks, ready, cond.waitList
      modifies names.objects`state, names.objects`waitCond, names.objects`listNext, names.objects`place, names.objects`holds
      ensures Valid() && names.Known(resumed)
      ensures var turn := S.AcquireTurn(old(Abs(cur, S.Executing)), l);
              turn.Next? && if S.LockTid(old(locks), l) == -1 then turn == S.Next(Abs(resumed, S.Executing))
                            else S.Suspend(S.Enqueue(turn.state).state) == S.Next(Abs(resumed, S.Executing))
    {
      if S.LockTid(locks, l) != -1 {
        resumed := ConditionWait(cur, cond, S.InAcquire(l));
      } else {
        TakeLock(l, cur);
        resumed := cur;
      }
    }

    /** lock_release up to its broadcast. */
    method Unlock(l: nat, cond: Condition, cur: Thread)
      requires CanWake(cond) && names.Known(cur)
      modifies this`locks, cur`holds
      ensures CanWake(cond) && locks == old(locks)[l := -1]
      ensures View(cur) == old(View(cur)).(holds := old(cur.holds) - {l})
      ensures forall t :: t in names.objects && t != cur ==> View(t) == old(View(t))
    {
      locks := locks[l := -1];
      cur.holds := cur.holds - {l};
      forall c | c in names.conds ensures names.ListOk(names.conds[c].waitList) { assert old(names.ListOk(names.conds[c].waitList)); }
    }

    method UnlockSelf(l: nat, cond: Condition, cur: Thread, ghost phase: S.Phase)
      requires CanWake(cond) && names.Known(cur)
      modifies this`locks, cur`holds
      ensures CanWake(cond) && Abs(cur, phase) == old(I.Unlocked(Abs(cur, phase), l))
    {
      ghost var s := Abs(cur, phase);
      Unlock(l, cond, cur);
      forall r | r in names.threads && r != cur.ref ensures names.Views()[r] == s.threads[r] { assert names.threads[r] != cur; }
      WaitsSame(names, s.queues);
      UnlockIs(s, Abs(cur, phase), l);
    }

    /** lock_release */
    method ReleaseLock(l: nat, cond: Condition, cur: Thread, ghost phase: S.Phase)
      requires CanWake(cond) && names.Known(cur) && cond.cond == S.LockQueue(l) && S.LockTid(locks, l) == cur.id
      modifies this`locks, ready, cond.waitList, cur`holds, names.objects`state, names.objects`waitCond, names.objects`listNext
      ensures Valid() && S.Release(old(Abs(cur, phase)), l) == S.Next(Abs(cur, phase))
    {
      UnlockSelf(l, cond, cur, phase);
      Broadcast(cond, cur, phase);
    }
  }

  lemma NextIsNew(s: S.State)
    requires I.Inv(s)
    ensures s.next !in s.threads
  {
  }

  /** The state with a new thread. */
  ghost function Added(s: S.State, tid: nat): S.State {
    s.(threads := s.threads[s.next := S.Thread(tid, S.Ready, Some(s.cur), None, S.Elsewhere, {})], ready := s.ready + [s.next])
  }

  /** The thread is in slot tid. */
  ghost function Spawned(s: S.State, tid: nat): S.State
    requires tid < |s.table|
  {
    Added(s, tid).(table := s.table[tid := Some(s.next)], next := s.next + 1)
  }

  lemma SpawnIs(s: S.State, tid: nat)
    requires s.cur in s.threads && |s.table| == S.NTHR && tid == S.FreeSlot(s.table, 1) < S.NTHR
    ensures S.Spawn(s) == S.Next(Spawned(s, tid))
  {
  }

  lemma TakeIs(s: S.State, t: S.State, l: nat)
    requires s.cur in s.threads && S.LockTid(s.locks, l) == -1
    requires t == s.(threads := t.threads, locks := s.locks[l := s.threads[s.cur].id]) && t.threads.Keys == s.threads.Keys
    requires t.threads[s.cur] == s.threads[s.cur].(place := S.Elsewhere, holds := s.threads[s.cur].holds + {l})
    requires forall r :: r in s.threads && r != s.cur ==> t.threads[r] == s.threads[r]
    ensures S.AcquireTurn(s, l) == S.Next(t)
  {
    assert S.AcquireTurn(s, l).state.threads == t.threads;
  }

  /** The state in which thread_exit broadcasts. */
  ghost function Left(s: S.State): S.State
    requires s.cur in s.threads
  {
    s.(threads := s.threads[s.cur := s.threads[s.cur].(status := S.Exited)], phase := S.Suspending)
  }

  lemma LeaveIs(s: S.State, t: S.State)
    requires s.cur in s.threads && t == s.(threads := t.threads, phase := S.Suspending) && t.threads.Keys == s.threads.Keys
    requires t.threads[s.cur] == s.threads[s.cur].(status := S.Exited)
    requires forall r :: r in s.threads && r != s.cur ==> t.threads[r] == s.threads[r]
    ensures t == Left(s)
  {
    assert Left(s).threads == t.threads;
  }

  lemma UnlockIs(s: S.State, t: S.State, l: nat)
    requires s.cur in s.threads && t == s.(threads := t.threads, locks := s.locks[l := -1]) && t.threads.Keys == s.threads.Keys
    requires t.threads[s.cur] == s.threads[s.cur].(holds := s.threads[s.cur].holds - {l})
    requires forall r :: r in s.threads && r != s.cur ==> t.threads[r] == s.threads[r]
    ensures t == I.Unlocked(s, l)
  {
    assert I.Unlocked(s, l).threads == t.threads;
  }

  lemma MarkIs(s: S.State, t: S.State, c: S.Cond, p: S.Place)
    requires s.cur in s.threads && s.threads[s.cur].status == S.Running
    requires t == s.(threads := t.threads, phase := S.Marked) && t.threads.Keys == s.threads.Keys
    requires t.threads[s.cur] == s.threads[s.cur].(status := S.Waiting, waitCond := Some(c), place := p)
    requires forall r :: r in s.threads && r != s.cur ==> t.threads[r] == s.threads[r]
    ensures S.Mark(s, c, p) == S.Next(t)
  {
    assert S.Mark(s, c, p).state.threads == t.threads;
  }

  lemma RefsConcat(a: seq<Thread>, b: seq<Thread>)
    ensures Refs(a + b) == Refs(a) + Refs(b)
  {
  }

  /** In a list of known threads a thread is the one with its name. */
  lemma RefsIn(names: Names, ts: seq<Thread>, t: Thread)
    requires names.Known(t) && forall x :: x in ts ==> names.Known(x)
    ensures t.ref in Refs(ts) <==> t in ts
  {
    if t.ref in Refs(ts) {
      var i :| 0 <= i < |ts| && Refs(ts)[i] == t.ref;
      assert ts[i] in ts;
    }
    if t in ts {
      var i :| 0 <= i < |ts| && ts[i] == t;
      assert Refs(ts)[i] == t.ref;
    }
  }

  /** A thread after a broadcast. */
  ghost function Woken(t: S.Thread, waiter: bool): S.Thread {
    if waiter then t.(status := S.Ready, waitCond := None) else t
  }

  ghost predicate Waits(ts: map<S.Ref, S.Thread>, r: S.Ref, c: S.Cond) {
    r in ts && ts[r].status == S.Waiting && ts[r].waitCond == Some(c)
  }

  ghost predicate AllWait(ts: map<S.Ref, S.Thread>, q: seq<S.Ref>, c: S.Cond) {
    forall i :: 0 <= i < |q| ==> Waits(ts, q[i], c)
  }

  lemma BroadcastIs(s: S.State, t: S.State, c: S.Cond)
    requires c in s.queues && AllWait(s.threads, s.queues[c], c)
    requires t == s.(threads := t.threads, ready := s.ready + s.queues[c], queues := s.queues[c := []])
    requires t.threads.Keys == s.threads.Keys && forall r :: r in s.threads ==> t.threads[r] == Woken(s.threads[r], r in s.queues[c])
    ensures S.Broadcast(s, c) == S.Next(t)
  {
    forall i | 0 <= i < |s.queues[c]| ensures s.queues[c][i] in s.threads { assert Waits(s.threads, s.queues[c][i], c); }
    assert S.Broadcast(s, c).state.threads == t.threads;
  }

  lemma WaitsSame(names: Names, queues: map<S.Cond, seq<S.Ref>>)
    requires forall c :: c in names.conds ==> names.conds[c].waitList in names.lists
    requires queues.Keys == names.conds.Keys && forall c :: c in names.conds ==> queues[c] == Refs(names.conds[c].waitList.elems)
    ensures names.Waits() == queues
  {
  }

  lemma SuspendIs(s: S.State, t: S.State)
    requires s.ready != [] && s.ready[0] in s.threads && s.cur in s.threads && s.ready[0] != s.cur && s.threads[s.ready[0]].status == S.Ready
    requires t == s.(threads := t.threads, cur := s.ready[0], phase := S.Executing,
                     ready := s.ready[1..] + if s.threads[s.cur].status == S.Running then [s.cur] else [])
    requires t.threads.Keys == s.threads.Keys
    requires forall r :: r in s.threads ==> t.threads[r] == Switched(s.threads[r], r == s.ready[0], r == s.cur)
    ensures S.Suspend(s) == S.Next(t)
  {
    assert S.Suspend(s).state.threads == t.threads;
  }

  lemma RefsNext(ts: seq<Thread>, t: Thread, more: bool)
    requires ts != []
    ensures Refs(ts[1..] + if more then [t] else []) == Refs(ts)[1..] + if more then [t.ref] else []
  {
  }

  /** A thread after a switch: the resumed one is RUNNING, the suspended one READY if it was RUNNING. */
  ghost function Switched(t: S.Thread, resumed: bool, suspended: bool): S.Thread {
    if resumed then t.(status := S.Running) else if suspended && t.status == S.Running then t.(status := S.Ready) else t
  }

  method FirstThreads() returns (mainThread: Thread, idleThread: Thread, ready: ThreadList)
    ensures mainThread.ref == S.MAIN && View(mainThread) == S.Init().threads[S.MAIN]
    ensures fresh(mainThread) && fresh(idleThread) && fresh(ready)
    ensures idleThread.ref == S.IDLE && View(idleThread) == S.Init().threads[S.IDLE]
    ensures mainThread.waitCond == null && idleThread.waitCond == null && ready.Valid() && ready.elems == [idleThread]
  {
    mainThread := new Thread(S.MAIN, S.MAIN_TID, S.Running, null);
    idleThread := new Thread(S.IDLE, S.IDLE_TID, S.Ready, mainThread);
    ready := new ThreadList();
    ready.Insert(idleThread);
  }

  /** thread_init: the main thread runs, the idle thread is ready. */
  method InitThreads() returns (kernel: Kernel, cur: Thread)
    ensures kernel.Valid() && kernel.TableOk() && kernel.names.Known(cur) && kernel.Abs(cur, S.Executing) == S.Init()
    ensures fresh(kernel) && fresh(kernel.ready) && fresh(kernel.names.objects) && kernel.names.conds == map[] && kernel.names.lists == {}
  {
    var idleThread, ready;
    cur, idleThread, ready := FirstThreads();
    ghost var names := Names(map[S.MAIN := cur, S.IDLE := idleThread], map[], {cur, idleThread}, {});
    kernel := new Kernel(ready, cur, idleThread, names);
    assert names.Views() == S.Init().threads && Refs(ready.elems) == [S.IDLE] && names.Waits() == map[];
  }

  // A run on the heap

  lemma RunOf4(s: S.State, e1: S.Event, a: S.State, e2: S.Event, b: S.State, e3: S.Event, c: S.State, e4: S.Event, t: S.State)
    requires S.Applicable(s, e1) && S.Step(s, e1) == S.Next(a) && S.Applicable(a, e2) && S.Step(a, e2) == S.Next(b)
    requires S.Applicable(b, e3) && S.Step(b, e3) == S.Next(c) && S.Applicable(c, e4) && S.Step(c, e4) == S.Next(t)
    ensures S.Run(s, [e1, e2, e3, e4], t)
  {
    assert [e1, e2, e3, e4][1..] == [e2, e3, e4] && [e2, e3, e4][1..] == [e3, e4] && [e3, e4][1..] == [e4] && [e4][1..] == [];
    assert S.Run(t, [], t);
    assert S.Run(c, [e4], t);
    assert S.Run(b, [e3, e4], t);
    assert S.Run(a, [e2, e3, e4], t);
  }

  /** A wait for a condition variable is the same whether it had an empty list or none. */
  lemma FirstWait(a: S.State, d: nat, t: S.State)
    requires S.Spawn(S.Init()) == S.Next(a)
    requires var marked := S.Mark(a.(queues := a.queues[S.Device(d) := []]), S.Device(d), S.Elsewhere);
             marked.Next? && S.Suspend(S.Enqueue(marked.state).state) == S.Next(t)
    ensures S.Run(S.Init(), [S.EvSpawn, S.EvWait(d), S.EvEnqueue, S.EvSuspend], t) == true
  {
    var c := S.Device(d);
    var b := S.Mark(a, c, S.Elsewhere).state;
    var e := S.Enqueue(b).state;
    assert a.queues[c := []][c := [a.cur]] == a.queues[c := [a.cur]] && [] + [a.cur] == [a.cur];
    assert S.Enqueue(S.Mark(a.(queues := a.queues[c := []]), c, S.Elsewhere).state).state == e;
    RunOf4(S.Init(), S.EvSpawn, a, S.EvWait(d), b, S.EvEnqueue, e, S.EvSuspend, t);
  }

  lemma FirstSpawn()
    ensures S.Spawn(S.Init()).Next? && I.Inv(S.Init()) == true && I.Inv(S.Spawn(S.Init()).state) == true
    ensures S.Spawn(S.Init()).state.ready != [] && S.Spawn(S.Init()).state.queues == map[]
  {
    I.InitInv();
    assert S.Init().table[1].None?;
    I.SpawnKeeps(S.Init());
  }

  /** The current thread sets up a condition variable and waits for it. */
  method WaitOnNew(kernel: Kernel, cur: Thread, ghost c: S.Cond) returns (resumed: Thread)
    requires kernel.Valid() == true && kernel.names.Ok(kernel.ready) && kernel.names.Known(cur) && c !in kernel.names.conds && kernel.ready.elems != []
    requires I.Inv(kernel.Abs(cur, S.Executing)) == true
    modifies kernel`names, kernel.ready, kernel.names.objects
    ensures kernel.Valid() == true && kernel.names.Ok(kernel.ready) && kernel.names.Known(resumed)
    ensures var s := old(kernel.Abs(cur, S.Executing));
            var marked := S.Mark(s.(queues := s.queues[c := []]), c, S.Elsewhere);
            marked.Next? && S.Suspend(S.Enqueue(marked.state).state) == S.Next(kernel.Abs(resumed, S.Executing))
  {
    I.NewQueueKeeps(kernel.Abs(cur, S.Executing), c);
    var cond := kernel.InitCondition(c, cur, S.Executing);
    kernel.WaitReady(cur, cond);
    resumed := kernel.ConditionWait(cur, cond, S.Elsewhere);
  }

  /** Main spawns the first thread. */
  method SpawnFirst(kernel: Kernel, mainThread: Thread)
    requires kernel.Valid() && kernel.TableOk() && kernel.names.Known(mainThread) && kernel.Abs(mainThread, S.Executing) == S.Init()
    modifies kernel, kernel.ready, kernel.names.objects
    ensures kernel.Valid() == true && kernel.TableOk() == true && kernel.names.Ok(kernel.ready) && kernel.names.Known(mainThread)
    ensures S.Spawn(S.Init()) == S.Next(kernel.Abs(mainThread, S.Executing))
    ensures kernel.names.conds == old(kernel.names).conds && fresh(kernel.names.objects - old(kernel.names).objects)
  {
    FirstSpawn();
    kernel.SpawnReady(mainThread, S.Executing);
    var ok, child := kernel.SpawnThread(mainThread);
  }

  /**
   The operations in a row, on threads as InitThreads leaves them: main spawns a thread, sets up a condition variable
   and waits for it. The heap then stands for a state that the state machine reaches.
   */
  method SpawnAndWait(kernel: Kernel, mainThread: Thread, ghost d: nat) returns (cur: Thread)
    requires kernel.Valid() && kernel.TableOk() && kernel.names.Known(mainThread) && kernel.names.conds == map[]
    requires kernel.Abs(mainThread, S.Executing) == S.Init()
    modifies kernel, kernel.ready, kernel.names.objects
    ensures kernel.Valid() == true && kernel.TableOk() == true && kernel.names.Ok(kernel.ready) && kernel.names.Known(cur)
    ensures S.Run(S.Init(), [S.EvSpawn, S.EvWait(d), S.EvEnqueue, S.EvSuspend], kernel.Abs(cur, S.Executing)) == true
  {
    SpawnFirst(kernel, mainThread);
    ghost var a := kernel.Abs(mainThread, S.Executing);
    FirstSpawn();
    cur := WaitOnNew(kernel, mainThread, S.Device(d));
    FirstWait(a, d, kernel.Abs(cur, S.Executing));
  }
}
