/**
 Threads, condition variables, joins and sleep locks of the kernel as one state machine.

 Kernel code is not preempted, so a thread's code between two calls that can suspend it is one step.
 Interrupt service routines are separate steps that may come between any two of them, also inside
 condition_wait: after the thread has marked itself WAITING and before it is on the wait list, and
 after it is on the list and before it has left the processor.

 A `struct thread` is named by its allocation number (`Ref`), because slots of the thread table, and
 with them thread ids, are used again after a thread is recycled.
 */
module Scheduler {
  import opened Common

  type Ref = nat

  const NTHR: nat := 16
  const MAIN: Ref := 0
  const IDLE: Ref := 1
  const MAIN_TID: nat := 0
  const IDLE_TID: nat := NTHR - 1

  /** A condition variable: a thread's child_exit, the queue of a sleep lock, or one signalled by an ISR. */
  datatype Cond = ChildExit(owner: Ref) | LockQueue(lock: nat) | Device(dev: nat)

  datatype Status = Waiting | Running | Ready | Exited

  /** Where a thread is, if it is inside one of the waiting loops. */
  datatype Place = Elsewhere | InJoin(child: Ref) | InJoinAny | InAcquire(lock: nat)

  /** `holds` are the locks between this thread's lock_acquire and its lock_release. */
  datatype Thread = Thread(
    id: nat,
    status: Status,
    parent: Option<Ref>,
    waitCond: Option<Cond>,
    place: Place,
    holds: set<nat>)

  /** The current thread runs ordinary code, is WAITING but on no list yet, or is about to call suspend_self. */
  datatype Phase = Executing | Marked | Suspending

  datatype State = State(
    cur: Ref,
    phase: Phase,
    threads: map<Ref, Thread>,
    table: seq<Option<Ref>>,
    ready: seq<Ref>,
    queues: map<Cond, seq<Ref>>,
    locks: map<nat, int>,
    next: Ref)

  datatype Fault = AssertFailed | SpuriousChildExit | TooManyThreads | Childless

  datatype Outcome = Next(state: State) | Panic(fault: Fault) | Halt

  function Queue(queues: map<Cond, seq<Ref>>, c: Cond): seq<Ref> {
    if c in queues then queues[c] else []
  }

  /** The `tid` member of a lock: the holder's thread id, or -1. */
  function LockTid(locks: map<nat, int>, l: nat): int {
    if l in locks then locks[l] else -1
  }

  function Init(): State {
    State(MAIN, Executing,
          map[MAIN := Thread(MAIN_TID, Running, None, None, Elsewhere, {}),
              IDLE := Thread(IDLE_TID, Ready, Some(MAIN), None, Elsewhere, {})],
          seq(NTHR, i => if i == MAIN_TID then Some(MAIN) else if i == IDLE_TID then Some(IDLE) else None),
          [IDLE], map[], map[], 2)
  }

  // Operations

  /** condition_broadcast: every waiter becomes READY and joins the end of the ready list, in order. */
  function Broadcast(s: State, c: Cond): Outcome {
    var q := Queue(s.queues, c);
    if exists i :: 0 <= i < |q| && !(q[i] in s.threads && s.threads[q[i]].status == Waiting
                                     && s.threads[q[i]].waitCond == Some(c)) then
      Panic(AssertFailed)
    else
      Next(s.(threads := map r | r in s.threads ::
                if r in q then s.threads[r].(status := Ready, waitCond := None) else s.threads[r],
              ready := s.ready + q,
              queues := s.queues[c := []]))
  }

  /** suspend_self: the head of the ready list becomes the current thread. */
  function Suspend(s: State): Outcome {
    if s.ready == [] || s.ready[0] !in s.threads || s.cur !in s.threads
       || s.threads[s.ready[0]].status != Ready then
      Panic(AssertFailed)
    else
      var next := s.ready[0];
      var ts := s.threads[next := s.threads[next].(status := Running)];
      if ts[s.cur].status == Running then
        Next(s.(threads := ts[s.cur := ts[s.cur].(status := Ready)], ready := s.ready[1..] + [s.cur],
                cur := next, phase := Executing))
      else
        Next(s.(threads := ts, ready := s.ready[1..], cur := next, phase := Executing))
  }

  /** First half of condition_wait: the current thread is WAITING but on no list. */
  function Mark(s: State, c: Cond, p: Place): Outcome {
    if s.cur !in s.threads || s.threads[s.cur].status != Running then
      Panic(AssertFailed)
    else
      Next(s.(threads := s.threads[s.cur := s.threads[s.cur].(status := Waiting, waitCond := Some(c), place := p)],
              phase := Marked))
  }

  /** Second half of condition_wait: the current thread is put at the end of the wait list. */
  function Enqueue(s: State): Outcome {
    if s.cur !in s.threads || s.threads[s.cur].waitCond.None? then
      Panic(AssertFailed)
    else
      var c := s.threads[s.cur].waitCond.value;
      Next(s.(queues := s.queues[c := Queue(s.queues, c) + [s.cur]], phase := Suspending))
  }

  /** The lowest free slot of the table at or above `from`. */
  function FreeSlot(table: seq<Option<Ref>>, from: nat): (slot: nat)
    requires from <= |table|
    ensures from <= slot <= |table|
    ensures forall i :: from <= i < slot ==> table[i].Some?
    ensures slot < |table| ==> table[slot].None?
    decreases |table| - from
  {
    if from == |table| || table[from].None? then from else FreeSlot(table, from + 1)
  }

  function Spawn(s: State): Outcome {
    if s.cur !in s.threads || |s.table| != NTHR then Panic(AssertFailed) else
    var tid := FreeSlot(s.table, 1);
    if tid == NTHR then
      Panic(TooManyThreads)
    else
      Next(s.(threads := s.threads[s.next := Thread(tid, Ready, Some(s.cur), None, Elsewhere, {})],
              table := s.table[tid := Some(s.next)],
              ready := s.ready + [s.next],
              next := s.next + 1))
  }

  predicate HasFreeSlot(s: State) {
    exists i :: 0 <= i < |s.table| && s.table[i].None?
  }

  /** thread_fork_to_user: the child runs at once, the parent goes to the end of the ready list. */
  function Fork(s: State): Outcome {
    if s.cur !in s.threads || |s.table| != NTHR || !HasFreeSlot(s) then Panic(AssertFailed) else
    var tid := FreeSlot(s.table, 0);
    Next(s.(threads := s.threads[s.cur := s.threads[s.cur].(status := Ready)]
                                [s.next := Thread(tid, Running, Some(s.cur), None, Elsewhere, {})],
            table := if tid < NTHR then s.table[tid := Some(s.next)] else s.table,
            ready := s.ready + [s.cur],
            cur := s.next,
            next := s.next + 1))
  }

  /** thread_exit up to its call of suspend_self. */
  function Exit(s: State): Outcome {
    if s.cur == MAIN then Halt
    else if s.cur !in s.threads || s.threads[s.cur].parent.None? || s.threads[s.cur].parent.value !in s.threads then
      Panic(AssertFailed)
    else
      Broadcast(s.(threads := s.threads[s.cur := s.threads[s.cur].(status := Exited)], phase := Suspending),
                ChildExit(s.threads[s.cur].parent.value))
  }

  /** recycle_thread: the children of the thread in slot `tid` go to its parent, then it leaves the table. */
  function Recycle(s: State, tid: int): Outcome {
    if !(0 < tid < NTHR && tid < |s.table| && s.table[tid].Some? && s.table[tid].value in s.threads) then
      Panic(AssertFailed)
    else
      var gone := s.table[tid].value;
      if s.threads[gone].status != Exited then Panic(AssertFailed) else
      Next(s.(threads := map r | r in s.threads && r != gone ::
                if s.threads[r].parent == Some(gone) then s.threads[r].(parent := s.threads[gone].parent)
                else s.threads[r],
              table := s.table[tid := None]))
  }

  /** The current thread's call returns: it is in no waiting loop any more. */
  function Return(o: Outcome): Outcome {
    match o
    case Next(s) =>
      if s.cur in s.threads then Next(s.(threads := s.threads[s.cur := s.threads[s.cur].(place := Elsewhere)]))
      else Panic(AssertFailed)
    case _ => o
  }

  /** One turn of the loop of thread_join(child). */
  function JoinTurn(s: State, child: Ref): Outcome {
    if s.cur !in s.threads || child !in s.threads then Panic(AssertFailed)
    else if s.threads[child].status == Exited then Return(Recycle(s, s.threads[child].id))
    else Mark(s, ChildExit(s.cur), InJoin(child))
  }

  function Join(s: State, tid: int): Outcome {
    if tid <= 0 || NTHR <= tid || |s.table| != NTHR || s.table[tid].None?
       || s.table[tid].value !in s.threads || s.threads[s.table[tid].value].parent != Some(s.cur) then
      Next(s)   // returns -1
    else
      JoinTurn(s, s.table[tid].value)
  }

  predicate IsChild(s: State, i: int, p: Ref) {
    && 1 <= i < |s.table| && s.table[i].Some? && s.table[i].value in s.threads
    && s.threads[s.table[i].value].parent == Some(p)
  }

  predicate IsExitedChild(s: State, i: int, p: Ref) {
    IsChild(s, i, p) && s.threads[s.table[i].value].status == Exited
  }

  /** The lowest slot at or above `from` that holds an exited child of `p`, or the table's length. */
  function FindExited(s: State, p: Ref, from: nat): (slot: nat)
    requires 1 <= from <= |s.table|
    ensures from <= slot <= |s.table|
    ensures slot < |s.table| ==> IsExitedChild(s, slot, p)
    ensures forall i :: from <= i < slot ==> !IsExitedChild(s, i, p)
    decreases |s.table| - from
  {
    if from == |s.table| || IsExitedChild(s, from, p) then from else FindExited(s, p, from + 1)
  }

  function JoinAny(s: State): Outcome {
    if |s.table| != NTHR then Panic(AssertFailed) else
    var tid := FindExited(s, s.cur, 1);
    if tid < NTHR then Join(s, tid)
    else if !exists i :: 1 <= i < |s.table| && IsChild(s, i, s.cur) then Panic(Childless)
    else Mark(s, ChildExit(s.cur), InJoinAny)
  }

  /** thread_join_any after its condition_wait. */
  function JoinAnyWoken(s: State): Outcome {
    if |s.table| != NTHR then Panic(AssertFailed) else
    var tid := FindExited(s, s.cur, 1);
    if tid < NTHR then Return(Recycle(s, tid)) else Panic(SpuriousChildExit)
  }

  /** One turn of the loop of lock_acquire. */
  function AcquireTurn(s: State, l: nat): Outcome {
    if s.cur !in s.threads then Panic(AssertFailed)
    else if LockTid(s.locks, l) != -1 then Mark(s, LockQueue(l), InAcquire(l))
    else
      var me := s.threads[s.cur];
      Next(s.(threads := s.threads[s.cur := me.(place := Elsewhere, holds := me.holds + {l})],
              locks := s.locks[l := me.id]))
  }

  function Release(s: State, l: nat): Outcome {
    if s.cur !in s.threads || LockTid(s.locks, l) != s.threads[s.cur].id then Panic(AssertFailed) else
    var me := s.threads[s.cur];
    Broadcast(s.(threads := s.threads[s.cur := me.(holds := me.holds - {l})], locks := s.locks[l := -1]),
              LockQueue(l))
  }

  function Resume(s: State): Outcome {
    if s.cur !in s.threads then Panic(AssertFailed) else
    match s.threads[s.cur].place
    case InJoin(child) => JoinTurn(s, child)
    case InJoinAny => JoinAnyWoken(s)
    case InAcquire(l) => AcquireTurn(s, l)
    case Elsewhere => Next(s)
  }

  // Steps

  datatype Event =
    | EvInterrupt(dev: nat)     // an ISR broadcasts its device's condition
    | EvEnqueue | EvSuspend     // the rest of condition_wait, or the end of thread_exit
    | EvResume                  // a thread inside a waiting loop runs again
    | EvYield | EvSpawn | EvFork | EvExit
    | EvJoin(tid: int) | EvJoinAny
    | EvWait(dev: nat) | EvSignal(dev: nat)
    | EvAcquire(lock: nat) | EvRelease(lock: nat)

  function Step(s: State, e: Event): Outcome {
    match e
    case EvInterrupt(d) => Broadcast(s, Device(d))
    case EvEnqueue => Enqueue(s)
    case EvSuspend => Suspend(s)
    case EvResume => Resume(s)
    case EvYield => Suspend(s)
    case EvSpawn => Spawn(s)
    case EvFork => Fork(s)
    case EvExit => Exit(s)
    case EvJoin(tid) => Join(s, tid)
    case EvJoinAny => JoinAny(s)
    case EvWait(d) => Mark(s, Device(d), Elsewhere)
    case EvSignal(d) => Broadcast(s, Device(d))
    case EvAcquire(l) => AcquireTurn(s, l)
    case EvRelease(l) => Release(s, l)
  }

  /**
   Which steps the code can take. The idle thread only yields, and only when the ready list is not
   empty. A thread releases only a lock it has acquired. A fork needs a free slot of the table.
   */
  predicate Applicable(s: State, e: Event) {
    s.cur in s.threads &&
    match e
    case EvInterrupt(_) => true
    case EvEnqueue => s.phase == Marked
    case EvSuspend => s.phase == Suspending
    case EvResume => s.phase == Executing && s.threads[s.cur].place != Elsewhere
    case EvYield => s.phase == Executing && s.threads[s.cur].place == Elsewhere && (s.cur == IDLE ==> s.ready != [])
    case EvFork => CanCall(s) && HasFreeSlot(s)
    case EvRelease(l) => CanCall(s) && l in s.threads[s.cur].holds
    case _ => CanCall(s)
  }

  predicate CanCall(s: State) {
    && s.cur in s.threads && s.cur != IDLE
    && s.phase == Executing && s.threads[s.cur].place == Elsewhere
  }

  /** `t` is reached from `s` by the steps `es`, none of which panics or halts. */
  ghost predicate Run(s: State, es: seq<Event>, t: State)
    decreases |es|
  {
    if es == [] then s == t
    else Applicable(s, es[0]) && Step(s, es[0]).Next? && Run(Step(s, es[0]).state, es[1..], t)
  }

  ghost predicate Reachable(t: State) {
    exists es :: Run(Init(), es, t)
  }
}
