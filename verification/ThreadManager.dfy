/**
 The thread manager as the code has it: global variables changed in place, loops over the thread table
 and over wait lists. Each operation is shown to take exactly the step of the state machine. The lists
 themselves, and the operations that are all about them, are in KernelThreads.
 */
module ThreadManager {
  import opened Common
  import opened Scheduler
  import opened SchedulerInvariant
  import opened SchedulerTheorems

  /** How a call ends: it returns, panics or halts the machine. */
  datatype Result = Done | Panicked(fault: Fault) | Halted

  /** The children of `gone` in the slots 1 to upto - 1 moved to its parent. */
  ghost function Reparented(ts: Threads, gone: Ref, upto: nat): Threads
    requires gone in ts
  {
    map r | r in ts ::
      if ts[r].parent == Some(gone) && 1 <= ts[r].id < upto then ts[r].(parent := ts[gone].parent) else ts[r]
  }

  lemma ReparentedNext(ts: Threads, table: seq<Option<Ref>>, next: Ref, gone: Ref, k: nat)
    requires TableOk(ts, table, next) && gone in ts && 1 <= k < NTHR
    ensures table[k].Some? && ts[table[k].value].parent == Some(gone) ==>
              Reparented(ts, gone, k + 1) ==
              Reparented(ts, gone, k)[table[k].value := ts[table[k].value].(parent := ts[gone].parent)]
    ensures !(table[k].Some? && ts[table[k].value].parent == Some(gone)) ==>
              Reparented(ts, gone, k + 1) == Reparented(ts, gone, k)
  {
    forall r | r in ts && ts[r].id == k ensures table[k] == Some(r) {}
  }

  lemma ReparentedAll(s: State, gone: Ref)
    requires TableOk(s.threads, s.table, s.next) && TreeOk(s.threads) && gone in s.threads
    requires 0 < s.threads[gone].id && s.threads[gone].status == Exited
    ensures Recycle(s, s.threads[gone].id).Next?
    ensures Recycle(s, s.threads[gone].id).state.threads ==
            map r | r in Reparented(s.threads, gone, NTHR) && r != gone :: Reparented(s.threads, gone, NTHR)[r]
  {
    forall r | r in s.threads && s.threads[r].parent == Some(gone) ensures s.threads[r].id >= 1 {
      assert ParentOk(s.threads, r);
    }
  }

  class Manager {
    var cur: Ref
    ghost var phase: Phase
    var threads: map<Ref, Thread>
    const table: array<Option<Ref>>
    var ready: seq<Ref>
    var queues: map<Cond, seq<Ref>>
    var locks: map<nat, int>
    var next: Ref

    ghost function Abs(): State
      reads this, table
    {
      State(cur, phase, threads, table[..], ready, queues, locks, next)
    }

    /** The outcome `o` of the state machine is what the call did. */
    ghost predicate Did(o: Outcome, r: Result)
      reads this, table
    {
      match o
      case Next(t) => r == Done && Abs() == t
      case Panic(f) => r == Panicked(f)
      case Halt => r == Halted
    }

    constructor ()
      ensures Abs() == Init() && fresh(table)
    {
      cur, phase := MAIN, Executing;
      threads := map[MAIN := Thread(MAIN_TID, Running, None, None, Elsewhere, {}),
                     IDLE := Thread(IDLE_TID, Ready, Some(MAIN), None, Elsewhere, {})];
      table := new Option<Ref>[NTHR](i => if i == MAIN_TID then Some(MAIN) else if i == IDLE_TID then Some(IDLE) else None);
      ready, queues, locks, next := [IDLE], map[], map[], 2;
      new;
      assert table[..] == Init().table;
    }

    /** condition_broadcast */
    method BroadcastCondition(c: Cond) returns (res: Result)
      requires Unique(Queue(queues, c))
      modifies this`threads, this`ready, this`queues
      ensures Did(Broadcast(old(Abs()), c), res)
    {
      var q := Queue(queues, c);
      var i := 0;
      while i < |q|
        invariant 0 <= i <= |q| && ready == old(ready) && queues == old(queues)
        invariant forall k :: 0 <= k < i ==>
          q[k] in old(threads) && old(threads)[q[k]].status == Waiting && old(threads)[q[k]].waitCond == Some(c)
        invariant threads == map r | r in old(threads) ::
          if r in q[..i] then old(threads)[r].(status := Ready, waitCond := None) else old(threads)[r]
      {
        var thr := q[i];
        if thr !in threads || threads[thr].status != Waiting || threads[thr].waitCond != Some(c) {
          assert thr !in q[..i];
          return Panicked(AssertFailed);
        }
        threads := threads[thr := threads[thr].(status := Ready, waitCond := None)];
        i := i + 1;
      }
      assert q[..|q|] == q;
      assert threads == Broadcast(old(Abs()), c).state.threads;
      ready := ready + q;
      queues := queues[c := []];
      return Done;
    }

    /** thread_spawn */
    method SpawnThread() returns (res: Result, tid: int)
      requires cur in threads && table.Length == NTHR
      modifies this`threads, this`ready, this`next, table
      ensures Did(Spawn(old(Abs())), res)
      ensures res == Done ==> 0 < tid < NTHR && table[tid] == Some(old(next))
    {
      tid := 1;
      while tid < NTHR && table[tid].Some?
        invariant 1 <= tid <= NTHR
        invariant FreeSlot(table[..], 1) == FreeSlot(table[..], tid)
      {
        tid := tid + 1;
      }
      if tid == NTHR { return Panicked(TooManyThreads), tid; }
      table[tid] := Some(next);
      threads := threads[next := Thread(tid, Ready, Some(cur), None, Elsewhere, {})];
      ready := ready + [next];
      next := next + 1;
      return Done, tid;
    }

    /** thread_fork_to_user, its table and list part. */
    method ForkToUser() returns (res: Result)
      requires cur in threads && table.Length == NTHR && HasFreeSlot(Abs())
      modifies this`cur, this`threads, this`ready, this`next, table
      ensures Did(Fork(old(Abs())), res)
    {
      var tid := 0;
      while tid < NTHR && table[tid].Some?
        invariant 0 <= tid <= NTHR
        invariant FreeSlot(table[..], 0) == FreeSlot(table[..], tid)
      {
        tid := tid + 1;
      }
      if tid < NTHR { table[tid] := Some(next); }
      ready := ready + [cur];
      threads := threads[cur := threads[cur].(status := Ready)]
                        [next := Thread(tid, Running, Some(cur), None, Elsewhere, {})];
      cur := next;
      next := next + 1;
      return Done;
    }

    /** The loop of recycle_thread that gives the children of `gone` to its parent. */
    method ReparentChildren(gone: Ref)
      requires TableOk(threads, table[..], next) && TreeOk(threads) && gone in threads
      modifies this`threads
      ensures threads == Reparented(old(threads), gone, NTHR)
    {
      ghost var was := threads;
      assert ParentOk(was, gone);
      var ctid := 1;
      while ctid < NTHR
        invariant 1 <= ctid <= NTHR
        invariant threads == Reparented(was, gone, ctid)
      {
        ReparentedNext(was, table[..], next, gone, ctid);
        if table[ctid].Some? && threads[table[ctid].value].parent == Some(gone) {
          threads := threads[table[ctid].value := threads[table[ctid].value].(parent := threads[gone].parent)];
        }
        ctid := ctid + 1;
      }
    }

    /** recycle_thread: the loop visits table slots, and so every thread whose parent is `gone`. */
    method RecycleThread(tid: nat) returns (res: Result)
      requires TableOk(threads, table[..], next) && TreeOk(threads)
      modifies this`threads, table
      ensures Did(Recycle(old(Abs()), tid), res)
    {
      if !(0 < tid < NTHR) || table[tid].None? { return Panicked(AssertFailed); }
      var gone := table[tid].value;
      if threads[gone].status != Exited { return Panicked(AssertFailed); }
      ReparentedAll(Abs(), gone);
      ReparentChildren(gone);
      table[tid] := None;
      threads := map r | r in threads && r != gone :: threads[r];
      return Done;
    }

    /** The scan of thread_join_any for an exited child. */
    method ScanExited() returns (tid: nat)
      requires TableOk(threads, table[..], next)
      ensures tid == FindExited(Abs(), cur, 1)
    {
      tid := 1;
      while tid < NTHR
             && !(table[tid].Some? && threads[table[tid].value].parent == Some(cur)
                  && threads[table[tid].value].status == Exited)
        invariant 1 <= tid <= NTHR
        invariant FindExited(Abs(), cur, 1) == FindExited(Abs(), cur, tid)
      {
        tid := tid + 1;
      }
    }

    /** One turn of the loop of thread_join, up to the middle of condition_wait if the child has not exited. */
    method JoinOnce(child: Ref) returns (res: Result)
      requires Inv(Abs()) && phase == Executing && ChildOf(threads, child, cur)
      modifies this`phase, this`threads, table
      ensures Did(JoinTurn(old(Abs()), child), res)
    {
      if threads[child].status != Exited {
        threads := threads[cur := threads[cur].(status := Waiting, waitCond := Some(ChildExit(cur)), place := InJoin(child))];
        phase := Marked;
        return Done;
      }
      RecycleState(Abs(), child);
      res := RecycleThread(threads[child].id);
      threads := threads[cur := threads[cur].(place := Elsewhere)];
    }

    /** thread_join up to the middle of condition_wait; an id that names no child of the caller is refused. */
    method JoinThread(tid: int) returns (res: Result)
      requires Inv(Abs()) && phase == Executing
      modifies this`phase, this`threads, table
      ensures Did(Join(old(Abs()), tid), res)
    {
      if tid <= 0 || NTHR <= tid { return Done; }
      if table[tid].None? || threads[table[tid].value].parent != Some(cur) { return Done; }
      res := JoinOnce(table[tid].value);
    }

    /** thread_join_any after it was woken: never panics. */
    method JoinAnyAfterWaking() returns (res: Result)
      requires Inv(Abs()) && phase == Executing && threads[cur].place == InJoinAny
      modifies this`threads, table
      ensures Did(JoinAnyWoken(old(Abs())), res) && res == Done
    {
      assert JoinAnyWoken(Abs()).Next? by { JoinAnyWokenKeeps(Abs()); }
      var tid := ScanExited();
      if tid == NTHR { return Panicked(SpuriousChildExit); }
      res := RecycleThread(tid);
      threads := threads[cur := threads[cur].(place := Elsewhere)];
    }

    /** thread_exit up to its call of suspend_self. */
    method ExitThread() returns (res: Result)
      requires Inv(Abs()) && CanCall(Abs())
      modifies this`phase, this`threads, this`ready, this`queues
      ensures Did(Exit(old(Abs())), res)
    {
      if cur == MAIN { return Halted; }
      assert ParentOk(threads, cur);
      var parent := threads[cur].parent.value;
      threads := threads[cur := threads[cur].(status := Exited)];
      phase := Suspending;
      assert QueueOk(old(threads), Queue(queues, ChildExit(parent)), ChildExit(parent), None);
      res := BroadcastCondition(ChildExit(parent));
    }
  }
}
