/**
 Who holds a lock. lock_release is the only way out of a lock: a thread that exits with a lock takes it along,
 and when the thread is recycled nobody holds the lock, and nobody will ever acquire it.
 */
module Locks {
  import opened Common
  import opened Scheduler
  import opened SchedulerInvariant
  import opened SchedulerTheorems

  ghost predicate Held(s: State, l: nat) {
    exists r :: r in s.threads && l in s.threads[r].holds
  }

  /** The step recycles no thread that holds l. */
  ghost predicate HoldersStay(s: State, e: Event, l: nat) {
    forall r :: r in s.threads && l in s.threads[r].holds && Step(s, e).Next? ==> r in Step(s, e).state.threads
  }

  ghost predicate RunHoldersStay(s: State, es: seq<Event>, l: nat)
    decreases |es|
  {
    es != [] ==> HoldersStay(s, es[0], l) && (Step(s, es[0]).Next? ==> RunHoldersStay(Step(s, es[0]).state, es[1..], l))
  }

  /** How a step can change what lock l records. */
  lemma StepLock(s: State, e: Event, l: nat)
    requires Step(s, e).Next?
    ensures var t := Step(s, e).state;
            || LockTid(t.locks, l) == LockTid(s.locks, l)
            || (e == EvRelease(l) && LockTid(t.locks, l) == -1)
            || (LockTid(s.locks, l) == -1 && s.cur in t.threads && l in t.threads[s.cur].holds)
  {
  }

  lemma StepHeld(s: State, e: Event, l: nat)
    requires Inv(s) && Step(s, e).Next? && HoldersStay(s, e, l) && (LockTid(s.locks, l) != -1 ==> Held(s, l))
    ensures LockTid(Step(s, e).state.locks, l) != -1 ==> Held(Step(s, e).state, l)
  {
    var t := Step(s, e).state;
    StepLock(s, e, l);
    if LockTid(t.locks, l) != -1 && LockTid(s.locks, l) != -1 {
      var r :| r in s.threads && l in s.threads[r].holds;
      if !(e == EvRelease(l) && s.cur == r) {
        StepHolds(s, e, l, r);
        assert r in t.threads;
      }
    }
  }

  lemma {:induction false} RunHeld(s: State, es: seq<Event>, t: State, l: nat)
    requires Inv(s) && Run(s, es, t) && RunHoldersStay(s, es, l) && (LockTid(s.locks, l) != -1 ==> Held(s, l))
    ensures LockTid(t.locks, l) != -1 ==> Held(t, l)
    decreases |es|
  {
    if es != [] {
      StepHeld(s, es[0], l);
      StepSafe(s, es[0]);
      RunHeld(Step(s, es[0]).state, es[1..], t, l);
    }
  }

  /** As long as no holder of the lock is recycled, the lock records a thread exactly if a thread holds it. */
  lemma RecordedExactlyIfHeld(es: seq<Event>, t: State, l: nat)
    requires Run(Init(), es, t) && RunHoldersStay(Init(), es, l)
    ensures LockTid(t.locks, l) != -1 <==> Held(t, l)
  {
    InitInv();
    RunInv(Init(), es, t);
    RunHeld(Init(), es, t, l);
    if Held(t, l) {
      var r :| r in t.threads && l in t.threads[r].holds;
      assert HoldsOk(t.threads[r], t.locks);
    }
  }

  // A holder that is recycled

  /** The lock records a thread, but no thread holds it. */
  ghost predicate Orphaned(s: State, l: nat) {
    LockTid(s.locks, l) != -1 && !Held(s, l)
  }

  /** Recycling the holder of a lock leaves it so. */
  lemma RecycleOrphans(s: State, tid: int, l: nat)
    requires Inv(s) && Recycle(s, tid).Next? && l in s.threads[s.table[tid].value].holds
    ensures Orphaned(Recycle(s, tid).state, l)
  {
    var gone, t := s.table[tid].value, Recycle(s, tid).state;
    assert HoldsOk(s.threads[gone], s.locks);
    forall r | r in t.threads ensures l !in t.threads[r].holds {
      if l in s.threads[r].holds { HolderUnique(s, l, r, gone); }
    }
  }

  lemma OrphanStays(s: State, e: Event, l: nat)
    requires Inv(s) && Applicable(s, e) && Orphaned(s, l) && Step(s, e).Next?
    ensures Orphaned(Step(s, e).state, l)
  {
    StepLock(s, e, l);
    forall r | r in Step(s, e).state.threads ensures l !in Step(s, e).state.threads[r].holds { NoNewHolder(s, e, l, r); }
  }

  /** A lock that records a thread gets no new holder. */
  lemma NoNewHolder(s: State, e: Event, l: nat, r: Ref)
    requires Step(s, e).Next? && LockTid(s.locks, l) != -1 && r in Step(s, e).state.threads && !Held(s, l)
    ensures l !in Step(s, e).state.threads[r].holds
  {
    assert r in s.threads ==> l !in s.threads[r].holds;
  }

  /** From then on no thread acquires the lock, in any run. */
  lemma {:induction false} NeverAcquiredAgain(s: State, es: seq<Event>, t: State, l: nat)
    requires Inv(s) && Run(s, es, t) && Orphaned(s, l)
    ensures Orphaned(t, l)
    decreases |es|
  {
    if es != [] {
      OrphanStays(s, es[0], l);
      StepSafe(s, es[0]);
      NeverAcquiredAgain(Step(s, es[0]).state, es[1..], t, l);
    }
  }

  lemma RunFrom(s: State, e: Event, es: seq<Event>, t: State)
    requires Applicable(s, e) && Step(s, e).Next? && Run(Step(s, e).state, es, t)
    ensures Run(s, [e] + es, t)
  {
    assert ([e] + es)[1..] == es;
  }

  /** The thread that main spawns, and how it is scheduled for the first time. */
  lemma ChildRuns() returns (s: State)
    ensures Run(Init(), [EvSpawn, EvYield, EvYield], s)
    ensures s.cur == 2 && s.phase == Executing && s.ready == [MAIN, IDLE] && s.queues == map[] && s.locks == map[] && |s.table| == NTHR
    ensures s.threads.Keys == {MAIN, IDLE, 2} && s.table[1] == Some(2) && s.threads[2] == Thread(1, Running, Some(MAIN), None, Elsewhere, {})
    ensures s.threads[MAIN] == Thread(MAIN_TID, Ready, None, None, Elsewhere, {})
    ensures s.threads[IDLE] == Thread(IDLE_TID, Ready, Some(MAIN), None, Elsewhere, {})
  {
    var a := Step(Init(), EvSpawn).state;
    assert FreeSlot(Init().table, 1) == 1;
    assert a.ready == [IDLE, 2];
    var b := Step(a, EvYield).state;
    assert b.ready == [2, MAIN] && b.cur == IDLE;
    s := Step(b, EvYield).state;
    assert s.ready == [MAIN, IDLE];
    RunFrom(b, EvYield, [], s);
    RunFrom(a, EvYield, [EvYield], s);
    RunFrom(Init(), EvSpawn, [EvYield, EvYield], s);
    assert [EvSpawn] + [EvYield, EvYield] == [EvSpawn, EvYield, EvYield] && [EvYield] + [EvYield] == [EvYield, EvYield];
  }

  lemma {:induction false} RunTwice(s: State, es: seq<Event>, t: State, fs: seq<Event>, u: State)
    requires Run(s, es, t) && Run(t, fs, u)
    ensures Run(s, es + fs, u)
    decreases |es|
  {
    if es == [] {
      assert es + fs == fs;
    } else {
      RunTwice(Step(s, es[0]).state, es[1..], t, fs, u);
      RunFrom(s, es[0], es[1..] + fs, u);
      assert [es[0]] + (es[1..] + fs) == es + fs;
    }
  }

  /** The child acquires a lock and exits. */
  lemma ChildLeaves(s: State) returns (t: State)
    requires s.cur == 2 && s.phase == Executing && s.ready == [MAIN, IDLE] && s.queues == map[] && s.locks == map[]
    requires s.threads.Keys == {MAIN, IDLE, 2} && s.threads[2] == Thread(1, Running, Some(MAIN), None, Elsewhere, {})
    requires s.threads[MAIN] == Thread(MAIN_TID, Ready, None, None, Elsewhere, {})
    ensures Run(s, [EvAcquire(0), EvExit, EvSuspend], t)
    ensures t.cur == MAIN && t.phase == Executing && t.table == s.table && t.locks == map[0 := 1]
    ensures t.threads.Keys == {MAIN, IDLE, 2} && t.threads[2].id == 1 && t.threads[2].status == Exited && t.threads[2].parent == Some(MAIN)
    ensures t.threads[MAIN].holds == {} && t.threads[MAIN].place == Elsewhere && t.threads[IDLE] == s.threads[IDLE]
  {
    var a := Step(s, EvAcquire(0)).state;
    var b := Step(a, EvExit).state;
    assert b.ready == [MAIN, IDLE];
    t := Step(b, EvSuspend).state;
    RunFrom(b, EvSuspend, [], t);
    RunFrom(a, EvExit, [EvSuspend], t);
    RunFrom(s, EvAcquire(0), [EvExit, EvSuspend], t);
    assert [EvExit] + [EvSuspend] == [EvExit, EvSuspend] && [EvAcquire(0)] + [EvExit, EvSuspend] == [EvAcquire(0), EvExit, EvSuspend];
  }

  /** Main joins it. */
  lemma MainJoins(s: State) returns (t: State)
    requires s.cur == MAIN && s.phase == Executing && |s.table| == NTHR && s.table[1] == Some(2) && s.locks == map[0 := 1]
    requires s.threads.Keys == {MAIN, IDLE, 2} && s.threads[2].id == 1 && s.threads[2].status == Exited && s.threads[2].parent == Some(MAIN)
    requires s.threads[MAIN].holds == {} && s.threads[IDLE].holds == {} && s.threads[MAIN].place == Elsewhere
    ensures Run(s, [EvJoin(1)], t) && Orphaned(t, 0)
  {
    t := Step(s, EvJoin(1)).state;
    assert t.threads.Keys == {MAIN, IDLE};
    RunFrom(s, EvJoin(1), [], t);
    assert [EvJoin(1)] + [] == [EvJoin(1)];
  }

  /** So a lock can be lost. */
  lemma HolderRecycled()
    ensures exists es, t :: Run(Init(), es, t) && Orphaned(t, 0)
  {
    var s := ChildRuns();
    var t := ChildLeaves(s);
    var u := MainJoins(t);
    var es, fs := [EvSpawn, EvYield, EvYield], [EvAcquire(0), EvExit, EvSuspend];
    RunTwice(Init(), es, s, fs, t);
    RunTwice(Init(), es + fs, t, [EvJoin(1)], u);
  }
}
