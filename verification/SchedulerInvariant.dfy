/**
 What every step of the scheduler keeps, and that no step fails an assertion on the way.
 */
module SchedulerInvariant {
  import opened Common
  import opened Scheduler

  type Threads = map<Ref, Thread>

  /** The thread that is WAITING but on no list yet: the current one, halfway through condition_wait. */
  function Off(s: State): Option<Ref> {
    if s.phase == Marked then Some(s.cur) else None
  }

  /** Slot i of the table holds the thread with id i, and every live thread has a slot. */
  ghost predicate TableOk(ts: Threads, table: seq<Option<Ref>>, next: Ref) {
    && |table| == NTHR
    && (forall i :: 0 <= i < NTHR && table[i].Some? ==> table[i].value in ts && ts[table[i].value].id == i)
    && (forall r :: r in ts ==> ts[r].id < NTHR && table[ts[r].id] == Some(r) && r < next)
    && table[MAIN_TID] == Some(MAIN) && table[IDLE_TID] == Some(IDLE)
  }

  /** The current thread is the only one that can be RUNNING, and is RUNNING until it starts to suspend. */
  ghost predicate RunningOk(ts: Threads, cur: Ref, phase: Phase) {
    && cur in ts
    && (forall r :: r in ts && ts[r].status == Running ==> r == cur)
    && (ts[cur].status == Running <==> phase == Executing)
    && (phase == Marked ==> ts[cur].status == Waiting)
  }

  /** The ready list holds exactly the READY threads, once each. */
  ghost predicate ReadyOk(ts: Threads, ready: seq<Ref>) {
    && Unique(ready)
    && forall r :: r in ready <==> r in ts && ts[r].status == Ready
  }

  /** The list of condition c holds exactly the threads waiting for c, once each. */
  ghost predicate QueueOk(ts: Threads, q: seq<Ref>, c: Cond, off: Option<Ref>) {
    && Unique(q)
    && forall r :: r in q <==> r in ts && ts[r].waitCond == Some(c) && Some(r) != off
  }

  ghost predicate QueuesOk(ts: Threads, queues: map<Cond, seq<Ref>>, off: Option<Ref>) {
    forall c {:trigger Queue(queues, c)} :: QueueOk(ts, Queue(queues, c), c, off)
  }

  /** A thread is WAITING exactly when it has a condition to wait for. */
  ghost predicate WaitingOk(ts: Threads) {
    forall r :: r in ts ==> (ts[r].status == Waiting <==> ts[r].waitCond.Some?)
  }

  /** The idle thread is always ready or running, and the main thread never becomes EXITED. */
  ghost predicate RootsOk(ts: Threads) {
    && MAIN in ts && IDLE in ts
    && (ts[IDLE].status == Ready || ts[IDLE].status == Running)
    && ts[IDLE].place == Elsewhere
    && ts[MAIN].status != Exited
  }

  /** Only main has no parent; every other parent is live and older than its child. */
  ghost predicate ParentOk(ts: Threads, r: Ref)
    requires r in ts
  {
    var p := ts[r].parent;
    if r == MAIN then p.None? else p.Some? && p.value in ts && p.value < r
  }

  ghost predicate TreeOk(ts: Threads) {
    forall r {:trigger ParentOk(ts, r)} :: r in ts ==> ParentOk(ts, r)
  }

  ghost predicate ChildOf(ts: Threads, c: Ref, p: Ref) {
    c in ts && ts[c].parent == Some(p)
  }

  ghost predicate ExitedChild(ts: Threads, c: Ref, p: Ref) {
    ChildOf(ts, c, p) && ts[c].status == Exited
  }

  ghost predicate HasExitedChild(ts: Threads, p: Ref) {
    exists c :: ExitedChild(ts, c, p)
  }

  /** What a thread's place in a waiting loop says about what it waits for. */
  ghost predicate PlaceOk(ts: Threads, r: Ref)
    requires r in ts
  {
    var t := ts[r];
    match t.place
    case Elsewhere => t.waitCond.Some? ==> t.waitCond.value.Device?
    case InJoin(c) =>
      && ChildOf(ts, c, r) && t.status != Exited
      && (t.waitCond.Some? ==> t.waitCond == Some(ChildExit(r)) && ts[c].status != Exited)
    case InJoinAny =>
      && t.status != Exited
      && (t.waitCond.Some? ==> t.waitCond == Some(ChildExit(r)))
      && (t.waitCond.Some? <==> !HasExitedChild(ts, r))
    case InAcquire(l) =>
      && t.status != Exited
      && (t.waitCond.Some? ==> t.waitCond == Some(LockQueue(l)))
  }

  ghost predicate PlacesOk(ts: Threads) {
    forall r {:trigger PlaceOk(ts, r)} :: r in ts ==> PlaceOk(ts, r)
  }

  /** A held lock records its holder's id, and a lock that is waited for is held. */
  ghost predicate HoldsOk(t: Thread, locks: map<nat, int>) {
    && (forall l :: l in t.holds ==> LockTid(locks, l) == t.id)
    && (t.waitCond.Some? && t.waitCond.value.LockQueue? ==> LockTid(locks, t.waitCond.value.lock) != -1)
  }

  ghost predicate LocksOk(ts: Threads, locks: map<nat, int>) {
    forall r :: r in ts ==> HoldsOk(ts[r], locks)
  }

  /**
   A thread that is suspending is never at the head of the ready list, although an ISR may already have
   made it READY again. Otherwise suspend_self would take it off the list, find it RUNNING and put it
   back, and it would go on running while READY and on the ready list.
   */
  ghost predicate HeadOk(s: State) {
    s.phase != Executing ==> s.ready != [] && s.ready[0] != s.cur
  }

  ghost predicate ListsOk(s: State) {
    && HeadOk(s)
    && RunningOk(s.threads, s.cur, s.phase)
    && ReadyOk(s.threads, s.ready)
    && QueuesOk(s.threads, s.queues, Off(s))
    && WaitingOk(s.threads)
  }

  ghost predicate FamilyOk(s: State) {
    && TableOk(s.threads, s.table, s.next)
    && RootsOk(s.threads)
    && TreeOk(s.threads)
    && PlacesOk(s.threads)
    && LocksOk(s.threads, s.locks)
  }

  ghost predicate Inv(s: State) {
    ListsOk(s) && FamilyOk(s)
  }

  ghost predicate Keeps(o: Outcome) {
    o.Next? && Inv(o.state)
  }

  // Lists

  lemma InitInv()
    ensures Inv(Init())
  {
    var s := Init();
    assert ListsOk(s);
    assert TreeOk(s.threads);
    assert PlacesOk(s.threads);
  }

  // Broadcast

  lemma BroadcastSucceeds(s: State, c: Cond)
    requires QueuesOk(s.threads, s.queues, Off(s)) && WaitingOk(s.threads)
    ensures Broadcast(s, c).Next?
  {
    var q := Queue(s.queues, c);
    assert QueueOk(s.threads, q, c, Off(s));
    forall i | 0 <= i < |q| ensures q[i] in s.threads && s.threads[q[i]].status == Waiting
                                    && s.threads[q[i]].waitCond == Some(c) {
      assert q[i] in q;
    }
  }

  lemma BroadcastReady(s: State, c: Cond)
    requires ReadyOk(s.threads, s.ready) && QueuesOk(s.threads, s.queues, Off(s)) && WaitingOk(s.threads)
    ensures Broadcast(s, c).Next?
    ensures ReadyOk(Broadcast(s, c).state.threads, Broadcast(s, c).state.ready)
  {
    BroadcastSucceeds(s, c);
    var q := Queue(s.queues, c);
    assert QueueOk(s.threads, q, c, Off(s));
    UniqueConcat(s.ready, q);
  }

  lemma BroadcastQueues(s: State, c: Cond)
    requires QueuesOk(s.threads, s.queues, Off(s)) && WaitingOk(s.threads)
    ensures Broadcast(s, c).Next?
    ensures QueuesOk(Broadcast(s, c).state.threads, Broadcast(s, c).state.queues, Off(s))
  {
    BroadcastSucceeds(s, c);
    var q := Queue(s.queues, c);
    assert QueueOk(s.threads, q, c, Off(s));
    var t := Broadcast(s, c).state;
    forall d ensures QueueOk(t.threads, Queue(t.queues, d), d, Off(s)) {
      assert QueueOk(s.threads, Queue(s.queues, d), d, Off(s));
    }
  }

  lemma BroadcastLists(s: State, c: Cond)
    requires ListsOk(s)
    ensures Broadcast(s, c).Next?
    ensures ListsOk(Broadcast(s, c).state)
  {
    BroadcastReady(s, c);
    BroadcastQueues(s, c);
    assert QueueOk(s.threads, Queue(s.queues, c), c, Off(s));
  }

  // Families

  /** The same threads with the same parents, places and exits. */
  ghost predicate SameFamily(ts: Threads, us: Threads) {
    && ts.Keys == us.Keys
    && forall r :: r in ts ==>
         && us[r].parent == ts[r].parent
         && us[r].place == ts[r].place
         && (us[r].status == Exited <==> ts[r].status == Exited)
  }

  /** The same ids and the same held locks, and no new reason for waiting. */
  ghost predicate SameHoldings(ts: Threads, us: Threads) {
    && ts.Keys == us.Keys
    && forall r :: r in ts ==>
         && us[r].id == ts[r].id && us[r].holds == ts[r].holds
         && (us[r].waitCond == ts[r].waitCond || us[r].waitCond.None?)
  }

  lemma ParentsKept(ts: Threads, us: Threads)
    requires TreeOk(ts) && us.Keys == ts.Keys && forall r :: r in ts ==> us[r].parent == ts[r].parent
    ensures TreeOk(us)
  {
    forall r | r in us ensures ParentOk(us, r) {
      assert ParentOk(ts, r);
    }
  }

  lemma ExitedChildKept(ts: Threads, us: Threads, r: Ref)
    requires SameFamily(ts, us)
    ensures HasExitedChild(ts, r) <==> HasExitedChild(us, r)
  {
    forall c ensures ExitedChild(ts, c, r) == ExitedChild(us, c, r) {}
  }

  lemma PlaceKept(ts: Threads, us: Threads, r: Ref)
    requires SameFamily(ts, us) && r in ts && PlaceOk(ts, r)
    requires us[r].waitCond == ts[r].waitCond
    ensures PlaceOk(us, r)
  {
    ExitedChildKept(ts, us, r);
  }

  lemma PlacesKept(ts: Threads, us: Threads)
    requires SameFamily(ts, us) && PlacesOk(ts)
    requires forall r :: r in ts && us[r].waitCond != ts[r].waitCond ==> PlaceOk(us, r)
    ensures PlacesOk(us)
  {
    forall r | r in us ensures PlaceOk(us, r) {
      assert PlaceOk(ts, r);
      if us[r].waitCond == ts[r].waitCond { PlaceKept(ts, us, r); }
    }
  }

  /** A step that leaves table, locks and families alone keeps what is said about them. */
  lemma FamilyKept(s: State, t: State)
    requires FamilyOk(s) == true && RootsOk(t.threads) == true
    requires SameFamily(s.threads, t.threads) == true && SameHoldings(s.threads, t.threads) == true
    requires t.table == s.table && t.next == s.next && t.locks == s.locks
    requires forall r :: r in s.threads && t.threads[r].waitCond != s.threads[r].waitCond ==> PlaceOk(t.threads, r)
    ensures FamilyOk(t) == true
  {
    ParentsKept(s.threads, t.threads);
    PlacesKept(s.threads, t.threads);
  }

  // One lemma per operation

  lemma DeviceBroadcastKeeps(s: State, d: nat)
    requires Inv(s)
    ensures Keeps(Broadcast(s, Device(d)))
  {
    BroadcastLists(s, Device(d));
    DeviceBroadcastSame(s, d);
    DeviceBroadcastFamily(s, d);
  }

  lemma DeviceBroadcastSame(s: State, d: nat)
    requires WaitingOk(s.threads) && RootsOk(s.threads) && Broadcast(s, Device(d)).Next?
    requires QueueOk(s.threads, Queue(s.queues, Device(d)), Device(d), Off(s))
    ensures var t := Broadcast(s, Device(d)).state;
            SameFamily(s.threads, t.threads) == true && SameHoldings(s.threads, t.threads) == true && RootsOk(t.threads) == true
  {
  }

  lemma DeviceBroadcastFamily(s: State, d: nat)
    requires Inv(s) && Broadcast(s, Device(d)).Next?
    requires var t := Broadcast(s, Device(d)).state;
             SameFamily(s.threads, t.threads) == true && SameHoldings(s.threads, t.threads) == true && RootsOk(t.threads) == true
    ensures FamilyOk(Broadcast(s, Device(d)).state) == true
  {
    var t := Broadcast(s, Device(d)).state;
    assert QueueOk(s.threads, Queue(s.queues, Device(d)), Device(d), Off(s));
    forall r | r in s.threads && t.threads[r].waitCond != s.threads[r].waitCond ensures PlaceOk(t.threads, r) {
      assert PlaceOk(s.threads, r);
    }
    FamilyKept(s, t);
  }

  lemma SuspendReady(s: State)
    requires ListsOk(s) && s.phase != Marked && s.ready != []
    ensures Suspend(s).Next? && Suspend(s).state.cur == s.ready[0]
    ensures ReadyOk(Suspend(s).state.threads, Suspend(s).state.ready)
  {
    assert s.ready[0] in s.ready;
    UniqueTail(s.ready);
    if s.threads[s.cur].status == Running {
      UniqueConcat(s.ready[1..], [s.cur]);
    }
  }

  lemma SuspendLists(s: State)
    requires ListsOk(s) && s.phase != Marked && s.ready != []
    ensures Suspend(s).Next? && ListsOk(Suspend(s).state) == true
  {
    assert s.ready[0] in s.ready;
    SuspendReady(s);
    var t := Suspend(s).state;
    forall c ensures QueueOk(t.threads, Queue(t.queues, c), c, Off(t)) {
      assert QueueOk(s.threads, Queue(s.queues, c), c, Off(s));
    }
  }

  lemma SuspendSame(s: State)
    requires ListsOk(s) && s.phase != Marked && s.ready != []
    ensures Suspend(s).Next?
    ensures SameFamily(s.threads, Suspend(s).state.threads) == true && SameHoldings(s.threads, Suspend(s).state.threads) == true
  {
    assert s.ready[0] in s.ready;
  }

  lemma SuspendThreads(s: State)
    requires ListsOk(s) && RootsOk(s.threads) && s.phase != Marked && s.ready != []
    ensures Suspend(s).Next?
    ensures forall r :: r in s.threads ==> Suspend(s).state.threads[r].waitCond == s.threads[r].waitCond
    ensures RootsOk(Suspend(s).state.threads) == true
  {
    assert s.ready[0] in s.ready;
  }

  lemma SuspendKeeps(s: State)
    requires Inv(s) && s.phase != Marked && s.ready != []
    ensures Keeps(Suspend(s))
  {
    SuspendLists(s);
    SuspendFamily(s);
  }

  lemma SuspendFamily(s: State)
    requires Inv(s) && s.phase != Marked && s.ready != []
    ensures Suspend(s).Next? && FamilyOk(Suspend(s).state) == true
  {
    SuspendSame(s);
    SuspendThreads(s);
    FamilyKept(s, Suspend(s).state);
  }

  lemma EnqueueKeeps(s: State)
    requires Inv(s) && s.phase == Marked
    ensures Keeps(Enqueue(s))
  {
    var t := Enqueue(s).state;
    var c := s.threads[s.cur].waitCond.value;
    assert QueueOk(s.threads, Queue(s.queues, c), c, Off(s));
    UniqueConcat(Queue(s.queues, c), [s.cur]);
    forall d ensures QueueOk(t.threads, Queue(t.queues, d), d, Off(t)) {
      assert QueueOk(s.threads, Queue(s.queues, d), d, Off(s));
    }
  }

  lemma MarkLists(s: State, c: Cond, p: Place)
    requires ListsOk(s) && RootsOk(s.threads) && s.cur != IDLE && s.phase == Executing
    ensures Mark(s, c, p).Next? && ListsOk(Mark(s, c, p).state)
  {
    var t := Mark(s, c, p).state;
    assert IDLE in s.ready && s.ready[0] in s.ready;
    forall d ensures QueueOk(t.threads, Queue(t.queues, d), d, Off(t)) {
      assert QueueOk(s.threads, Queue(s.queues, d), d, Off(s));
    }
  }

  lemma MarkKeeps(s: State, c: Cond, p: Place)
    requires Inv(s) && s.phase == Executing && s.cur != IDLE
    requires PlaceOk(s.threads[s.cur := s.threads[s.cur].(status := Waiting, waitCond := Some(c), place := p)], s.cur)
    requires c.LockQueue? ==> LockTid(s.locks, c.lock) != -1
    ensures Keeps(Mark(s, c, p))
  {
    MarkLists(s, c, p);
    var t := Mark(s, c, p).state;
    forall r | r in t.threads ensures ParentOk(t.threads, r) && PlaceOk(t.threads, r) {
      assert ParentOk(s.threads, r) && PlaceOk(s.threads, r);
      forall c ensures ExitedChild(s.threads, c, r) == ExitedChild(t.threads, c, r) {}
    }
  }

  lemma DeviceWaitKeeps(s: State, d: nat)
    requires Inv(s) && CanCall(s)
    ensures Keeps(Mark(s, Device(d), Elsewhere))
  {
    MarkKeeps(s, Device(d), Elsewhere);
  }

  /** A condition variable that nobody waits for yet disturbs nothing. */
  lemma NewQueueKeeps(s: State, c: Cond)
    requires Inv(s) && c !in s.queues
    ensures Inv(s.(queues := s.queues[c := []]))
  {
    var t := s.(queues := s.queues[c := []]);
    forall d ensures QueueOk(t.threads, Queue(t.queues, d), d, Off(t)) { assert QueueOk(s.threads, Queue(s.queues, d), d, Off(s)); }
  }

  lemma SpawnLists(s: State)
    requires Inv(s) && CanCall(s) && Spawn(s).Next?
    ensures ListsOk(Spawn(s).state)
  {
    var t := Spawn(s).state;
    UniqueConcat(s.ready, [s.next]);
    forall d ensures QueueOk(t.threads, Queue(t.queues, d), d, Off(t)) {
      assert QueueOk(s.threads, Queue(s.queues, d), d, Off(s));
    }
  }

  /** Adding a child that has not exited disturbs nobody's place. */
  lemma AdoptKeeps(ts: Threads, us: Threads, p: Ref, child: Ref)
    requires TreeOk(ts) && PlacesOk(ts) && p in ts && p < child && child !in ts && child != MAIN
    requires us.Keys == ts.Keys + {child}
    requires us[child].parent == Some(p) && us[child].status != Exited && us[child].place == Elsewhere
    requires us[child].waitCond.None?
    requires forall r :: r in ts ==>
      us[r].parent == ts[r].parent && us[r].place == ts[r].place && us[r].waitCond == ts[r].waitCond
      && (us[r].status == Exited <==> ts[r].status == Exited)
    ensures TreeOk(us) && PlacesOk(us)
  {
    forall r | r in us ensures ParentOk(us, r) && PlaceOk(us, r) {
      if r != child {
        assert ParentOk(ts, r) && PlaceOk(ts, r);
        forall c ensures ExitedChild(ts, c, r) == ExitedChild(us, c, r) {}
      }
    }
  }

  lemma SpawnFamily(s: State)
    requires Inv(s) && CanCall(s) && Spawn(s).Next?
    ensures FamilyOk(Spawn(s).state)
  {
    AdoptKeeps(s.threads, Spawn(s).state.threads, s.cur, s.next);
  }

  lemma SpawnKeeps(s: State)
    requires Inv(s) && CanCall(s)
    ensures HasFreeSlot(s) ==> Keeps(Spawn(s))
    ensures !HasFreeSlot(s) ==> Spawn(s) == Panic(TooManyThreads)
  {
    var slot := FreeSlot(s.table, 1);
    if HasFreeSlot(s) {
      SpawnLists(s);
      SpawnFamily(s);
    }
  }

  lemma ForkLists(s: State)
    requires Inv(s) && CanCall(s) && HasFreeSlot(s)
    ensures Fork(s).Next? && ListsOk(Fork(s).state)
  {
    var t := Fork(s).state;
    UniqueConcat(s.ready, [s.cur]);
    forall d ensures QueueOk(t.threads, Queue(t.queues, d), d, Off(t)) {
      assert QueueOk(s.threads, Queue(s.queues, d), d, Off(s));
    }
  }

  lemma ForkKeeps(s: State)
    requires Inv(s) && CanCall(s) && HasFreeSlot(s)
    ensures Keeps(Fork(s))
  {
    var slot := FreeSlot(s.table, 0);
    ForkLists(s);
    AdoptKeeps(s.threads, Fork(s).state.threads, s.cur, s.next);
  }

  // Exit

  /** thread_exit just before it signals its parent. */
  function Leaving(s: State): State
    requires s.cur in s.threads
  {
    s.(threads := s.threads[s.cur := s.threads[s.cur].(status := Exited)], phase := Suspending)
  }

  lemma LeavingLists(s: State)
    requires ListsOk(s) && RootsOk(s.threads) && s.phase == Executing && s.cur != IDLE
    ensures ListsOk(Leaving(s))
  {
    var t := Leaving(s);
    assert IDLE in s.ready && s.ready[0] in s.ready;
    forall d ensures QueueOk(t.threads, Queue(t.queues, d), d, Off(t)) {
      assert QueueOk(s.threads, Queue(s.queues, d), d, Off(s));
    }
  }

  /** The exit of `gone` and the waking of its parent `p` keep every thread's place. */
  lemma ExitPlaces(ts: Threads, us: Threads, gone: Ref, p: Ref)
    requires PlacesOk(ts) && ChildOf(ts, gone, p) && p in ts && p != gone
    requires ts[gone].place == Elsewhere && ts[gone].waitCond.None?
    requires ts[p].waitCond.Some? ==> ts[p].status != Exited
    requires us.Keys == ts.Keys && us[gone] == ts[gone].(status := Exited)
    requires forall r :: r in ts && r != gone && r != p ==> us[r] == ts[r]
    requires us[p] == if ts[p].waitCond == Some(ChildExit(p)) then ts[p].(status := Ready, waitCond := None) else ts[p]
    ensures PlacesOk(us)
  {
    forall r | r in us ensures PlaceOk(us, r) {
      assert PlaceOk(ts, r);
      if r == p {
        assert ExitedChild(us, gone, p);
      } else {
        forall c ensures ExitedChild(ts, c, r) == ExitedChild(us, c, r) {}
      }
    }
  }

  /** Only its owner ever waits for a child_exit condition. */
  lemma ChildExitWaiters(s: State, p: Ref, r: Ref)
    requires PlacesOk(s.threads) && QueuesOk(s.threads, s.queues, None)
    ensures r in Queue(s.queues, ChildExit(p)) <==> r == p && p in s.threads && s.threads[p].waitCond == Some(ChildExit(p))
  {
    assert QueueOk(s.threads, Queue(s.queues, ChildExit(p)), ChildExit(p), None);
    if r in s.threads { assert PlaceOk(s.threads, r); }
  }

  lemma ExitThreads(s: State)
    requires Inv(s) && CanCall(s) && s.cur != MAIN
    ensures Exit(s).Next? && ListsOk(Exit(s).state)
    ensures s.threads[s.cur].parent.Some?
    ensures var p := s.threads[s.cur].parent.value;
            && p in s.threads && p != s.cur
            && Exit(s).state.threads == s.threads[s.cur := s.threads[s.cur].(status := Exited)]
                 [p := if s.threads[p].waitCond == Some(ChildExit(p))
                       then s.threads[p].(status := Ready, waitCond := None) else s.threads[p]]
  {
    assert ParentOk(s.threads, s.cur);
    var p := s.threads[s.cur].parent.value;
    LeavingLists(s);
    BroadcastLists(Leaving(s), ChildExit(p));
    forall r | r in s.threads
      ensures r in Queue(s.queues, ChildExit(p)) <==> r == p && s.threads[p].waitCond == Some(ChildExit(p)) {
      ChildExitWaiters(s, p, r);
    }
  }

  lemma ExitFamily(s: State, t: State)
    requires FamilyOk(s) && WaitingOk(s.threads) && CanCall(s) && s.threads[s.cur].status == Running && s.cur != MAIN
    requires ChildOf(s.threads, s.cur, if s.threads[s.cur].parent.Some? then s.threads[s.cur].parent.value else MAIN)
    requires var p := s.threads[s.cur].parent.value;
             && p in s.threads && p != s.cur
             && t.threads == s.threads[s.cur := s.threads[s.cur].(status := Exited)]
                  [p := if s.threads[p].waitCond == Some(ChildExit(p))
                        then s.threads[p].(status := Ready, waitCond := None) else s.threads[p]]
    requires t.table == s.table && t.next == s.next && t.locks == s.locks
    ensures FamilyOk(t)
  {
    var p := s.threads[s.cur].parent.value;
    ExitPlaces(s.threads, t.threads, s.cur, p);
    ParentsKept(s.threads, t.threads);
    forall r | r in t.threads ensures HoldsOk(t.threads[r], t.locks) { assert HoldsOk(s.threads[r], s.locks); }
  }

  lemma ExitKeeps(s: State)
    requires Inv(s) && CanCall(s)
    ensures s.cur == MAIN ==> Exit(s) == Halt
    ensures s.cur != MAIN ==> Keeps(Exit(s))
  {
    if s.cur != MAIN {
      ExitThreads(s);
      ExitFamily(s, Exit(s).state);
    }
  }

  // Locks

  lemma HolderUnique(s: State, l: nat, a: Ref, b: Ref)
    requires TableOk(s.threads, s.table, s.next) && LocksOk(s.threads, s.locks)
    requires a in s.threads && l in s.threads[a].holds && b in s.threads && l in s.threads[b].holds
    ensures a == b
  {
    assert HoldsOk(s.threads[a], s.locks) && HoldsOk(s.threads[b], s.locks);
    assert s.table[s.threads[a].id] == Some(a) && s.table[s.threads[b].id] == Some(b);
  }

  lemma AcquireKeeps(s: State, l: nat)
    requires Inv(s) && s.phase == Executing && s.cur != IDLE
    ensures Keeps(AcquireTurn(s, l))
  {
    if LockTid(s.locks, l) != -1 {
      MarkKeeps(s, LockQueue(l), InAcquire(l));
    } else {
      TakeLockKeeps(s, l);
    }
  }

  /** Changes only which locks the current thread holds and its place. */
  lemma CurrentLists(s: State, t: State)
    requires ListsOk(s)
    requires t.threads.Keys == s.threads.Keys && t.cur == s.cur && t.phase == s.phase
    requires t.ready == s.ready && t.queues == s.queues
    requires forall r :: r in s.threads ==>
      t.threads[r].status == s.threads[r].status && t.threads[r].waitCond == s.threads[r].waitCond
    ensures ListsOk(t)
  {
    forall d ensures QueueOk(t.threads, Queue(t.queues, d), d, Off(t)) {
      assert QueueOk(s.threads, Queue(s.queues, d), d, Off(s));
    }
  }

  lemma TakeLockPlaces(ts: Threads, p: Ref, l: nat)
    requires p in ts && ts[p].waitCond.None? && TreeOk(ts) && PlacesOk(ts)
    ensures TreeOk(ts[p := ts[p].(place := Elsewhere, holds := ts[p].holds + {l})])
    ensures PlacesOk(ts[p := ts[p].(place := Elsewhere, holds := ts[p].holds + {l})])
  {
    var us := ts[p := ts[p].(place := Elsewhere, holds := ts[p].holds + {l})];
    ParentsKept(ts, us);
    forall r | r in us ensures PlaceOk(us, r) {
      assert PlaceOk(ts, r);
      forall c ensures ExitedChild(ts, c, r) == ExitedChild(us, c, r) {}
    }
  }

  lemma TakeLockLocks(ts: Threads, locks: map<nat, int>, p: Ref, l: nat)
    requires p in ts && ts[p].waitCond.None? && LocksOk(ts, locks) && LockTid(locks, l) == -1
    ensures LocksOk(ts[p := ts[p].(place := Elsewhere, holds := ts[p].holds + {l})], locks[l := ts[p].id])
  {
    var us := ts[p := ts[p].(place := Elsewhere, holds := ts[p].holds + {l})];
    forall r | r in us ensures HoldsOk(us[r], locks[l := ts[p].id]) {
      assert HoldsOk(ts[r], locks);
    }
  }

  lemma TakeLockKeeps(s: State, l: nat)
    requires Inv(s) && s.phase == Executing && LockTid(s.locks, l) == -1
    ensures Keeps(AcquireTurn(s, l))
  {
    TakeLockPlaces(s.threads, s.cur, l);
    TakeLockLocks(s.threads, s.locks, s.cur, l);
    CurrentLists(s, AcquireTurn(s, l).state);
  }

  /** lock_release just before it wakes the waiters. */
  function Unlocked(s: State, l: nat): State
    requires s.cur in s.threads
  {
    var me := s.threads[s.cur];
    s.(threads := s.threads[s.cur := me.(holds := me.holds - {l})], locks := s.locks[l := -1])
  }

  lemma ReleaseLocks(s: State, l: nat)
    requires Inv(s) && CanCall(s) && l in s.threads[s.cur].holds
    requires Release(s, l).Next?
    ensures LocksOk(Release(s, l).state.threads, Release(s, l).state.locks)
  {
    assert QueueOk(s.threads, Queue(s.queues, LockQueue(l)), LockQueue(l), Off(s));
    var t := Release(s, l).state;
    forall r | r in t.threads ensures HoldsOk(t.threads[r], t.locks) {
      assert HoldsOk(s.threads[r], s.locks);
      if l in s.threads[r].holds { HolderUnique(s, l, r, s.cur); }
    }
  }

  lemma ReleaseSucceeds(s: State, l: nat)
    requires Inv(s) && CanCall(s) && l in s.threads[s.cur].holds
    ensures Release(s, l).Next? && ListsOk(Release(s, l).state)
  {
    assert HoldsOk(s.threads[s.cur], s.locks);
    CurrentLists(s, Unlocked(s, l));
    BroadcastLists(Unlocked(s, l), LockQueue(l));
  }

  lemma ReleaseFamily(s: State, l: nat)
    requires Inv(s) && CanCall(s) && l in s.threads[s.cur].holds && Release(s, l).Next?
    ensures TreeOk(Release(s, l).state.threads) && PlacesOk(Release(s, l).state.threads)
    ensures TableOk(Release(s, l).state.threads, Release(s, l).state.table, Release(s, l).state.next)
    ensures RootsOk(Release(s, l).state.threads)
  {
    var t := Release(s, l).state;
    assert QueueOk(s.threads, Queue(s.queues, LockQueue(l)), LockQueue(l), Off(s));
    assert SameFamily(s.threads, t.threads);
    ParentsKept(s.threads, t.threads);
    forall r | r in s.threads && t.threads[r].waitCond != s.threads[r].waitCond ensures PlaceOk(t.threads, r) {
      assert PlaceOk(s.threads, r);
    }
    PlacesKept(s.threads, t.threads);
  }

  lemma ReleaseKeeps(s: State, l: nat)
    requires Inv(s) && CanCall(s) && l in s.threads[s.cur].holds
    ensures Keeps(Release(s, l))
  {
    ReleaseSucceeds(s, l);
    ReleaseLocks(s, l);
    ReleaseFamily(s, l);
  }

  // Joins

  /** The threads that are left when `gone` is recycled by its parent `p`. */
  function Without(ts: Threads, gone: Ref, p: Ref): Threads
  {
    map r | r in ts && r != gone ::
      if r == p then ts[r].(place := Elsewhere)
      else if ts[r].parent == Some(gone) then ts[r].(parent := Some(p)) else ts[r]
  }

  lemma RecycleState(s: State, gone: Ref)
    requires TableOk(s.threads, s.table, s.next) && TreeOk(s.threads) && RootsOk(s.threads)
    requires s.cur in s.threads && s.threads[s.cur].status != Exited && ExitedChild(s.threads, gone, s.cur)
    ensures Return(Recycle(s, s.threads[gone].id)) ==
            Next(s.(threads := Without(s.threads, gone, s.cur), table := s.table[s.threads[gone].id := None]))
  {
    assert ParentOk(s.threads, gone) && ParentOk(s.threads, s.cur);
    assert s.table[s.threads[gone].id] == Some(gone);
    assert Return(Recycle(s, s.threads[gone].id)).state.threads == Without(s.threads, gone, s.cur);
  }

  lemma RecycleLists(s: State, t: State, gone: Ref)
    requires ListsOk(s) && s.phase == Executing && ExitedChild(s.threads, gone, s.cur)
    requires t == s.(threads := Without(s.threads, gone, s.cur), table := t.table)
    ensures ListsOk(t)
  {
    forall d ensures QueueOk(t.threads, Queue(t.queues, d), d, Off(t)) {
      assert QueueOk(s.threads, Queue(s.queues, d), d, Off(s));
    }
  }

  lemma RecyclePlaces(ts: Threads, gone: Ref, p: Ref)
    requires TreeOk(ts) && PlacesOk(ts) && ExitedChild(ts, gone, p) && p in ts && p != gone && gone != MAIN
    requires ts[p].waitCond.None?
    ensures TreeOk(Without(ts, gone, p)) && PlacesOk(Without(ts, gone, p))
  {
    var us := Without(ts, gone, p);
    forall r | r in us ensures ParentOk(us, r) && PlaceOk(us, r) {
      assert ParentOk(ts, r) && PlaceOk(ts, r) && ParentOk(ts, gone) && ParentOk(ts, p);
      if r != p {
        forall c ensures ExitedChild(ts, c, r) == ExitedChild(us, c, r) {}
      }
    }
  }

  lemma RecycleTable(s: State, gone: Ref)
    requires TableOk(s.threads, s.table, s.next) && gone in s.threads && gone != MAIN && gone != IDLE
    ensures TableOk(Without(s.threads, gone, s.cur), s.table[s.threads[gone].id := None], s.next)
  {
  }

  lemma RecycleFamily(s: State, t: State, gone: Ref)
    requires FamilyOk(s) && ExitedChild(s.threads, gone, s.cur)
    requires s.cur in s.threads && gone != s.cur && s.threads[s.cur].waitCond.None? && gone != MAIN && gone != IDLE
    requires t == s.(threads := Without(s.threads, gone, s.cur), table := s.table[s.threads[gone].id := None])
    ensures FamilyOk(t)
  {
    RecyclePlaces(s.threads, gone, s.cur);
    RecycleTable(s, gone);
  }

  lemma RecycleKeeps(s: State, gone: Ref)
    requires Inv(s) && s.phase == Executing && ExitedChild(s.threads, gone, s.cur)
    ensures Keeps(Return(Recycle(s, s.threads[gone].id)))
  {
    RecycleState(s, gone);
    RecycleLists(s, Return(Recycle(s, s.threads[gone].id)).state, gone);
    RecycleFamily(s, Return(Recycle(s, s.threads[gone].id)).state, gone);
  }

  lemma JoinTurnKeeps(s: State, child: Ref)
    requires Inv(s) && s.phase == Executing && s.cur != IDLE && ChildOf(s.threads, child, s.cur)
    ensures Keeps(JoinTurn(s, child))
  {
    if s.threads[child].status == Exited {
      RecycleKeeps(s, child);
    } else {
      assert ParentOk(s.threads, child);
      MarkKeeps(s, ChildExit(s.cur), InJoin(child));
    }
  }

  lemma JoinKeeps(s: State, tid: int)
    requires Inv(s) && CanCall(s)
    ensures Keeps(Join(s, tid))
  {
    if Join(s, tid) != Next(s) {
      JoinTurnKeeps(s, s.table[tid].value);
    }
  }

  /** The scan of the table finds an exited child exactly when there is one. */
  lemma ScanComplete(s: State, p: Ref)
    requires TableOk(s.threads, s.table, s.next) && TreeOk(s.threads)
    ensures FindExited(s, p, 1) < NTHR <==> HasExitedChild(s.threads, p)
    ensures FindExited(s, p, 1) < NTHR ==> IsExitedChild(s, FindExited(s, p, 1), p)
  {
    if HasExitedChild(s.threads, p) {
      var c :| ExitedChild(s.threads, c, p);
      assert ParentOk(s.threads, c);
      assert IsExitedChild(s, s.threads[c].id, p);
    }
    var slot := FindExited(s, p, 1);
    if slot < NTHR { assert ExitedChild(s.threads, s.table[slot].value, p); }
  }

  lemma JoinAnyKeeps(s: State)
    requires Inv(s) && CanCall(s)
    ensures Keeps(JoinAny(s)) || (JoinAny(s) == Panic(Childless) && forall c :: !ChildOf(s.threads, c, s.cur))
  {
    ScanComplete(s, s.cur);
    if FindExited(s, s.cur, 1) < NTHR {
      JoinKeeps(s, FindExited(s, s.cur, 1));
    } else if exists i :: 1 <= i < |s.table| && IsChild(s, i, s.cur) {
      var us := s.threads[s.cur := s.threads[s.cur].(status := Waiting, waitCond := Some(ChildExit(s.cur)), place := InJoinAny)];
      forall c ensures ExitedChild(s.threads, c, s.cur) == ExitedChild(us, c, s.cur) {}
      MarkKeeps(s, ChildExit(s.cur), InJoinAny);
    } else {
      forall c ensures !ChildOf(s.threads, c, s.cur) {
        if ChildOf(s.threads, c, s.cur) {
          assert ParentOk(s.threads, c);
          assert IsChild(s, s.threads[c].id, s.cur);
        }
      }
    }
  }

  lemma JoinAnyWokenKeeps(s: State)
    requires Inv(s) && s.phase == Executing && s.threads[s.cur].place == InJoinAny
    ensures Keeps(JoinAnyWoken(s))
  {
    assert PlaceOk(s.threads, s.cur);
    ScanComplete(s, s.cur);
    RecycleKeeps(s, s.table[FindExited(s, s.cur, 1)].value);
  }

  lemma ResumeKeeps(s: State)
    requires Inv(s) && s.phase == Executing && s.threads[s.cur].place != Elsewhere
    ensures Keeps(Resume(s))
  {
    assert PlaceOk(s.threads, s.cur);
    match s.threads[s.cur].place
    case InJoin(child) => JoinTurnKeeps(s, child);
    case InJoinAny => JoinAnyWokenKeeps(s);
    case InAcquire(l) => AcquireKeeps(s, l);
  }
}
