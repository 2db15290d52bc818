/**
 What holds of every run of the scheduler, stated in the kernel's own terms.
 */
module SchedulerTheorems {
  import opened Common
  import opened Scheduler
  import opened SchedulerInvariant

  /** A step keeps the invariant, or is one of the three ways the code stops on purpose. */
  lemma StepSafe(s: State, e: Event)
    requires Inv(s) && Applicable(s, e)
    ensures
      || Keeps(Step(s, e))
      || (Step(s, e) == Halt && e == EvExit && s.cur == MAIN)
      || (Step(s, e) == Panic(TooManyThreads) && e == EvSpawn && !HasFreeSlot(s))
      || (Step(s, e) == Panic(Childless) && e == EvJoinAny && forall c :: !ChildOf(s.threads, c, s.cur))
  {
    match e
    case EvInterrupt(d) => DeviceBroadcastKeeps(s, d);
    case EvEnqueue => EnqueueKeeps(s);
    case EvSuspend => SuspendKeeps(s);
    case EvResume => ResumeKeeps(s);
    case EvYield =>
      assert s.cur != IDLE ==> IDLE in s.ready;
      SuspendKeeps(s);
    case EvSpawn => SpawnKeeps(s);
    case EvFork => ForkKeeps(s);
    case EvExit => ExitKeeps(s);
    case EvJoin(tid) => JoinKeeps(s, tid);
    case EvJoinAny => JoinAnyKeeps(s);
    case EvWait(d) => DeviceWaitKeeps(s, d);
    case EvSignal(d) => DeviceBroadcastKeeps(s, d);
    case EvAcquire(l) => AcquireKeeps(s, l);
    case EvRelease(l) => ReleaseKeeps(s, l);
  }

  lemma {:induction false} RunInv(s: State, es: seq<Event>, t: State)
    requires Inv(s) && Run(s, es, t)
    ensures Inv(t)
    decreases |es|
  {
    if es != [] {
      StepSafe(s, es[0]);
      RunInv(Step(s, es[0]).state, es[1..], t);
    }
  }

  lemma ReachableInv(t: State)
    requires Reachable(t)
    ensures Inv(t)
  {
    var es :| Run(Init(), es, t);
    InitInv();
    RunInv(Init(), es, t);
  }

  /** No assertion of the code fails and "spurious child_exit signal" is never printed, in any run. */
  lemma NoAssertFails(t: State, e: Event)
    requires Reachable(t) && Applicable(t, e)
    ensures Step(t, e) != Panic(AssertFailed) && Step(t, e) != Panic(SpuriousChildExit)
  {
    ReachableInv(t);
    StepSafe(t, e);
  }

  /** A thread is never stuck for want of a step: the processor can always go on. */
  lemma AlwaysApplicable(t: State)
    requires Reachable(t)
    ensures (t.cur == IDLE && t.ready == []) || exists e: Event :: !e.EvInterrupt? && Applicable(t, e) && Step(t, e).Next?
  {
    ReachableInv(t);
    if t.cur != IDLE || t.ready != [] {
      var e := if t.phase == Marked then EvEnqueue
               else if t.phase == Suspending then EvSuspend
               else if t.threads[t.cur].place != Elsewhere then EvResume
               else EvYield;
      StepSafe(t, e);
    }
  }

  // Lists

  /**
   At most the current thread is RUNNING, and it is unless it is about to suspend. READY threads occur
   once in the ready list and in no wait list; WAITING threads occur once in the list of their
   condition and nowhere else; EXITED threads occur nowhere. The idle thread is ready or running.
   */
  lemma StatesMatchLists(t: State, r: Ref, c: Cond)
    requires Reachable(t) && r in t.threads
    ensures t.threads[r].status == Running <==> r == t.cur && t.phase == Executing
    ensures multiset(t.ready)[r] == if t.threads[r].status == Ready then 1 else 0
    ensures multiset(Queue(t.queues, c))[r] ==
            if t.threads[r].status == Waiting && t.threads[r].waitCond == Some(c) && !(t.phase == Marked && r == t.cur)
            then 1 else 0
    ensures t.threads[r].status == Waiting <==> t.threads[r].waitCond.Some?
    ensures r == IDLE ==> t.threads[r].status == Ready || t.threads[r].status == Running
  {
    ReachableInv(t);
    assert QueueOk(t.threads, Queue(t.queues, c), c, Off(t));
    UniqueCount(t.ready, r);
    UniqueCount(Queue(t.queues, c), r);
  }

  // First in, first out

  predicate Dispatches(e: Event) {
    e == EvSuspend || e == EvYield
  }

  function DispatchCount(es: seq<Event>): nat {
    if es == [] then 0 else (if Dispatches(es[0]) then 1 else 0) + DispatchCount(es[1..])
  }

  /** Nothing overtakes: a step drops the head of the ready list if it dispatches, and else only appends. */
  lemma StepReady(s: State, e: Event)
    requires Step(s, e).Next?
    ensures Dispatches(e) ==> s.ready != [] && s.ready[1..] <= Step(s, e).state.ready && Step(s, e).state.cur == s.ready[0]
    ensures !Dispatches(e) ==> s.ready <= Step(s, e).state.ready
  {
  }

  lemma PrefixDrop<T>(a: seq<T>, b: seq<T>, c: seq<T>, n: nat)
    requires n <= |a| && a <= b && b[n..] <= c
    ensures a[n..] <= c
  {
    assert forall i :: 0 <= i < |a| - n ==> a[n..][i] == b[n..][i];
  }

  lemma {:induction false} RunReady(s: State, es: seq<Event>, t: State)
    requires Inv(s) && Run(s, es, t) && DispatchCount(es) <= |s.ready|
    ensures s.ready[DispatchCount(es)..] <= t.ready
    decreases |es|
  {
    if es != [] {
      var u := Step(s, es[0]).state;
      var n := DispatchCount(es[1..]);
      assert Inv(u) by { StepSafe(s, es[0]); }
      assert (if Dispatches(es[0]) then s.ready[1..] else s.ready) <= u.ready by { StepReady(s, es[0]); }
      RunReady(u, es[1..], t);
      PrefixDrop(if Dispatches(es[0]) then s.ready[1..] else s.ready, u.ready, t.ready, n);
      if Dispatches(es[0]) { assert s.ready[1..][n..] == s.ready[1 + n..]; }
    }
  }

  /** The thread at index k of the ready list is the one that the (k+1)-th dispatch starts. */
  lemma StrictFifo(s: State, k: nat, es: seq<Event>, t: State, e: Event)
    requires Reachable(s) && k < |s.ready|
    requires Run(s, es, t) && DispatchCount(es) == k
    requires Applicable(t, e) && Dispatches(e)
    ensures Step(t, e).Next? && Step(t, e).state.cur == s.ready[k]
  {
    ReachableInv(s);
    RunInv(s, es, t);
    RunReady(s, es, t);
    StepSafe(t, e);
    StepReady(t, e);
    assert s.ready[k..][0] == t.ready[0];
  }

  // Joins

  /**
   No wake-up is lost. A thread parked in thread_join has a child that has not exited, and one parked in
   thread_join_any has no exited child. Once woken, thread_join_any finds an exited child in the table.
   */
  lemma JoinsNeverMissExit(t: State, r: Ref)
    requires Reachable(t) && r in t.threads
    ensures t.threads[r].place.InJoin? ==>
              && ChildOf(t.threads, t.threads[r].place.child, r)
              && (t.threads[r].status == Waiting ==> t.threads[t.threads[r].place.child].status != Exited)
    ensures |t.table| == NTHR
    ensures t.threads[r].place == InJoinAny ==>
              (t.threads[r].status == Waiting <==> FindExited(t, r, 1) == |t.table|)
  {
    ReachableInv(t);
    assert PlaceOk(t.threads, r);
    ScanComplete(t, r);
  }

  /** The first of the ancestors of r that has no parent. */
  ghost function Root(ts: Threads, r: Ref): Ref
    requires TreeOk(ts) && r in ts
    decreases r
  {
    assert ParentOk(ts, r);
    if ts[r].parent.None? then r else Root(ts, ts[r].parent.value)
  }

  lemma {:induction false} RootIsMain(ts: Threads, r: Ref)
    requires TreeOk(ts) && r in ts
    ensures Root(ts, r) == MAIN
    decreases r
  {
    assert ParentOk(ts, r);
    if r != MAIN { RootIsMain(ts, ts[r].parent.value); }
  }

  /** Slot i holds the thread with id i, every parent has a slot, and parents form a tree rooted at main. */
  lemma ParentsFormTree(t: State, r: Ref)
    requires Reachable(t) && r in t.threads
    ensures t.threads[r].id < |t.table| && t.table[t.threads[r].id] == Some(r)
    ensures r != MAIN ==>
              && t.threads[r].parent.Some? && t.threads[r].parent.value in t.threads
              && t.threads[t.threads[r].parent.value].id < |t.table|
              && t.table[t.threads[t.threads[r].parent.value].id] == t.threads[r].parent
    ensures TreeOk(t.threads) && Root(t.threads, r) == MAIN
  {
    ReachableInv(t);
    assert ParentOk(t.threads, r);
    RootIsMain(t.threads, r);
  }

  // Locks

  /** At most one thread is between lock_acquire and lock_release, and the lock records its id all that time. */
  lemma LockExcludes(t: State, l: nat, a: Ref, b: Ref)
    requires Reachable(t) && a in t.threads && b in t.threads && l in t.threads[a].holds
    ensures LockTid(t.locks, l) == t.threads[a].id
    ensures l in t.threads[b].holds ==> a == b
  {
    ReachableInv(t);
    assert HoldsOk(t.threads[a], t.locks);
    if l in t.threads[b].holds { HolderUnique(t, l, a, b); }
  }

  /** No thread stays parked on a free lock: a lock with a waiter has a thread id in its tid. */
  lemma WaitersImplyHeld(t: State, l: nat)
    requires Reachable(t) && Queue(t.queues, LockQueue(l)) != []
    ensures LockTid(t.locks, l) != -1
  {
    ReachableInv(t);
    var q := Queue(t.queues, LockQueue(l));
    assert QueueOk(t.threads, q, LockQueue(l), Off(t));
    assert q[0] in q;
    assert HoldsOk(t.threads[q[0]], t.locks);
  }

  /** A lock stays with its holder until the holder releases it. */
  lemma HeldUntilReleased(s: State, e: Event, l: nat, r: Ref)
    requires Reachable(s) && Step(s, e).Next?
    requires r in s.threads && l in s.threads[r].holds && !(e == EvRelease(l) && s.cur == r)
    ensures r in Step(s, e).state.threads ==> l in Step(s, e).state.threads[r].holds
  {
    NewThreadIsNew(s, r);
    StepHolds(s, e, l, r);
  }

  lemma NewThreadIsNew(s: State, r: Ref)
    requires Reachable(s) && r in s.threads
    ensures r != s.next
  {
    ReachableInv(s);
  }

  /** Only the release of a lock takes it from a thread. */
  lemma StepHolds(s: State, e: Event, l: nat, r: Ref)
    requires Step(s, e).Next? && r in s.threads && r != s.next && l in s.threads[r].holds && !(e == EvRelease(l) && s.cur == r)
    ensures r in Step(s, e).state.threads ==> l in Step(s, e).state.threads[r].holds
  {
    match e
    case EvResume => ResumeHolds(s, l, r);
    case EvJoin(tid) => JoinHolds(s, tid, l, r);
    case EvJoinAny => if FindExited(s, s.cur, 1) < NTHR { JoinHolds(s, FindExited(s, s.cur, 1), l, r); }
    case _ =>
  }

  lemma JoinHolds(s: State, tid: int, l: nat, r: Ref)
    requires Join(s, tid).Next? && r in s.threads && l in s.threads[r].holds
    ensures r in Join(s, tid).state.threads ==> l in Join(s, tid).state.threads[r].holds
  {
  }

  lemma ResumeHolds(s: State, l: nat, r: Ref)
    requires Resume(s).Next? && r in s.threads && l in s.threads[r].holds
    ensures r in Resume(s).state.threads ==> l in Resume(s).state.threads[r].holds
  {
  }
}
