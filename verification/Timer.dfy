/**
 Alarms: the sorted sleep list, the timer interrupt handler and the timer comparator.
 */
module Timer {

  const UINT64_MAX: nat := 0xFFFF_FFFF_FFFF_FFFF
  const TICK_PERIOD: nat := 10_000_000 / 50

  datatype Alarm = Alarm(id: nat, twake: nat)

  predicate Sorted(xs: seq<Alarm>) {
    forall i, j :: 0 <= i < j < |xs| ==> xs[i].twake <= xs[j].twake
  }

  /** Where alarm_sleep links an alarm in: before the first one that is not earlier. */
  function Position(xs: seq<Alarm>, twake: nat): (k: nat)
    ensures k <= |xs|
    ensures forall i :: 0 <= i < k ==> xs[i].twake < twake
    ensures k < |xs| ==> twake <= xs[k].twake
  {
    if xs == [] || twake <= xs[0].twake then 0 else 1 + Position(xs[1..], twake)
  }

  function Insert(xs: seq<Alarm>, a: Alarm): (ys: seq<Alarm>)
    ensures |ys| == |xs| + 1
  {
    var k := Position(xs, a.twake);
    xs[..k] + [a] + xs[k..]
  }

  /** How many alarms at the front of the list are due. */
  function DueCount(xs: seq<Alarm>, now: nat): (k: nat)
    ensures k <= |xs|
    ensures forall i :: 0 <= i < k ==> xs[i].twake <= now
    ensures k < |xs| ==> xs[k].twake > now
  {
    if xs == [] || xs[0].twake > now then 0 else 1 + DueCount(xs[1..], now)
  }

  /** The wake-up time after alarm_sleep(al, tcnt), which stops at the largest 64-bit number. */
  function WakeTime(twake: nat, tcnt: nat): nat {
    if UINT64_MAX - twake < tcnt then UINT64_MAX else twake + tcnt
  }

  function NextTick(nextTick: nat, now: nat): nat {
    if nextTick < now then (nextTick + TICK_PERIOD) % (UINT64_MAX + 1) else nextTick
  }

  function Earliest(xs: seq<Alarm>, nextTick: nat): (t: nat)
    ensures t <= nextTick && (t == nextTick || (exists i :: 0 <= i < |xs| && t == xs[i].twake))
  {
    if xs != [] && xs[0].twake < nextTick then xs[0].twake else nextTick
  }

  datatype State = State(sleeping: seq<Alarm>, nextTick: nat, mtcmp: nat, ticked: bool)

  function Init(): State {
    State([], 0, TICK_PERIOD, false)
  }

  /** An alarm whose time has passed is not put to sleep; only a new head can move the comparator. */
  function Sleep(s: State, a: Alarm, now: nat): State {
    if a.twake < now then s
    else
      var atHead := s.sleeping == [] || a.twake <= s.sleeping[0].twake;
      s.(sleeping := Insert(s.sleeping, a),
         mtcmp := if atHead && a.twake < s.nextTick then a.twake else s.mtcmp)
  }

  /** One run of the timer interrupt handler; `woken` is what it broadcasts, in order. */
  function Tick(s: State, now: nat): (r: (State, seq<Alarm>)) {
    var k := DueCount(s.sleeping, now);
    var rest, nextTick := s.sleeping[k..], NextTick(s.nextTick, now);
    (State(rest, nextTick, if rest != [] && rest[0].twake < nextTick then rest[0].twake else nextTick, true),
     s.sleeping[..k])
  }

  datatype Event = EvSleep(alarm: Alarm, now: nat) | EvTick(now: nat)

  function Step(s: State, e: Event): State {
    match e
    case EvSleep(a, now) => Sleep(s, a, now)
    case EvTick(now) => Tick(s, now).0
  }

  function Run(s: State, es: seq<Event>): State
    decreases |es|
  {
    if es == [] then s else Run(Step(s, es[0]), es[1..])
  }

  /** The list is sorted, and from the first handler run on the comparator is the earliest thing to wait for. */
  predicate Inv(s: State) {
    && Sorted(s.sleeping)
    && if s.ticked then s.mtcmp == Earliest(s.sleeping, s.nextTick) else s.nextTick == 0 && s.mtcmp == TICK_PERIOD
  }

  lemma InsertSorted(xs: seq<Alarm>, a: Alarm)
    requires Sorted(xs)
    ensures Sorted(Insert(xs, a)) && multiset(Insert(xs, a)) == multiset(xs) + multiset{a}
  {
    var k := Position(xs, a.twake);
    assert xs == xs[..k] + xs[k..];
    forall i, j | 0 <= i < j < |xs| + 1 ensures Insert(xs, a)[i].twake <= Insert(xs, a)[j].twake {
      if j == k { assert xs[i].twake < a.twake; }
      if i == k { assert xs[k].twake <= xs[j - 1].twake; }
    }
  }

  lemma SleepKeeps(s: State, a: Alarm, now: nat)
    requires Inv(s)
    ensures Inv(Sleep(s, a, now))
  {
    InsertSorted(s.sleeping, a);
    var k := Position(s.sleeping, a.twake);
  }

  lemma TickKeeps(s: State, now: nat)
    requires Inv(s)
    ensures Inv(Tick(s, now).0)
  {
  }

  lemma {:induction false} RunKeeps(s: State, es: seq<Event>)
    requires Inv(s)
    ensures Inv(Run(s, es))
    decreases |es|
  {
    if es != [] {
      match es[0] {
        case EvSleep(a, now) => SleepKeeps(s, a, now);
        case EvTick(now) => TickKeeps(s, now);
      }
      RunKeeps(Step(s, es[0]), es[1..]);
    }
  }

  function Filter(xs: seq<Alarm>, now: nat): seq<Alarm> {
    if xs == [] then [] else (if xs[0].twake <= now then [xs[0]] else []) + Filter(xs[1..], now)
  }

  lemma {:induction false} LateTail(xs: seq<Alarm>, now: nat)
    requires Sorted(xs) && (xs != [] ==> xs[0].twake > now)
    ensures Filter(xs, now) == []
  {
    if xs != [] { LateTail(xs[1..], now); }
  }

  lemma {:induction false} DueIsFilter(xs: seq<Alarm>, now: nat)
    requires Sorted(xs)
    ensures xs[..DueCount(xs, now)] == Filter(xs, now)
  {
    if xs != [] {
      if xs[0].twake > now {
        LateTail(xs, now);
      } else {
        DueIsFilter(xs[1..], now);
        assert xs[..DueCount(xs, now)] == [xs[0]] + xs[1..][..DueCount(xs[1..], now)];
      }
    }
  }

  /**
   After any run, a handler run wakes exactly the sleeping alarms that are due, in order of their wake
   times, none is lost, and the rest sleep on.
   */
  lemma TickWakesExactlyDue(es: seq<Event>, now: nat)
    ensures var s := Run(Init(), es);
            var (t, woken) := Tick(s, now);
            && woken == Filter(s.sleeping, now) && Sorted(woken)
            && multiset(woken) + multiset(t.sleeping) == multiset(s.sleeping)
            && (forall a :: a in t.sleeping ==> a.twake > now)
  {
    var s := Run(Init(), es);
    RunKeeps(Init(), es);
    var k := DueCount(s.sleeping, now);
    DueIsFilter(s.sleeping, now);
    assert s.sleeping == s.sleeping[..k] + s.sleeping[k..];
  }

  /**
   After any run, the next interrupt comes no later than a sleeping alarm is due if and only if the
   handler has run before or the alarm is not due before the first interrupt. The exception exists
   because next_tick starts at 0 and the comparator at TICK_PERIOD.
   */
  lemma ScheduledInTime(es: seq<Event>, i: nat)
    requires i < |Run(Init(), es).sleeping|
    ensures var s := Run(Init(), es);
            s.mtcmp <= s.sleeping[i].twake <==> s.ticked || TICK_PERIOD <= s.sleeping[i].twake
  {
    RunKeeps(Init(), es);
    var s := Run(Init(), es);
    assert i > 0 ==> s.sleeping[0].twake <= s.sleeping[i].twake;
  }

  /** A sleeping alarm that is due before the comparator fires. */
  lemma FirstTickCanBeLate()
    ensures var s := Run(Init(), [EvSleep(Alarm(0, 1), 0)]);
            s.sleeping == [Alarm(0, 1)] && s.mtcmp == TICK_PERIOD
  {
    assert [EvSleep(Alarm(0, 1), 0)][1..] == [];
  }

  class TimerManager {
    var sleepList: seq<Alarm>
    var nextTick: nat
    var mtcmp: nat
    ghost var ticked: bool

    ghost function Abs(): State
      reads this
    {
      State(sleepList, nextTick, mtcmp, ticked)
    }

    /** timer_init */
    constructor ()
      ensures Abs() == Init()
    {
      sleepList, nextTick, mtcmp, ticked := [], 0, TICK_PERIOD, false;
    }

    /** alarm_sleep up to its condition_wait; `al` is the alarm as it was before the call. */
    method AlarmSleep(al: Alarm, tcnt: nat, now: nat) returns (slept: bool, timed: Alarm)
      requires al.twake <= UINT64_MAX
      modifies this
      ensures timed == Alarm(al.id, WakeTime(al.twake, tcnt)) && timed.twake <= UINT64_MAX
      ensures slept <==> timed.twake >= now
      ensures Abs() == Sleep(old(Abs()), timed, now)
    {
      timed := al.(twake := if UINT64_MAX - al.twake < tcnt then UINT64_MAX else al.twake + tcnt);
      if timed.twake < now { return false, timed; }
      if sleepList == [] || timed.twake <= sleepList[0].twake {
        sleepList := [timed] + sleepList;
        if timed.twake < nextTick { mtcmp := timed.twake; }
      } else {
        var prev := 0;
        while prev + 1 < |sleepList| && timed.twake > sleepList[prev + 1].twake
          invariant prev < |sleepList|
          invariant forall i :: 0 <= i <= prev ==> sleepList[i].twake < timed.twake
        {
          prev := prev + 1;
        }
        PositionUnique(sleepList, timed.twake, prev + 1);
        sleepList := sleepList[..prev + 1] + [timed] + sleepList[prev + 1..];
      }
      return true, timed;
    }

    /** timer_intr_handler */
    method HandleInterrupt(now: nat) returns (woken: seq<Alarm>)
      modifies this
      ensures (Abs(), woken) == Tick(old(Abs()), now)
    {
      var head := 0;
      while head < |sleepList| && sleepList[head].twake <= now
        invariant head <= |sleepList|
        invariant forall i :: 0 <= i < head ==> sleepList[i].twake <= now
      {
        head := head + 1;
      }
      DueUnique(sleepList, now, head);
      woken := sleepList[..head];
      if nextTick < now { nextTick := (nextTick + TICK_PERIOD) % (UINT64_MAX + 1); }
      sleepList := sleepList[head..];
      if sleepList != [] && sleepList[0].twake < nextTick {
        mtcmp := sleepList[0].twake;
      } else {
        mtcmp := nextTick;
      }
      ticked := true;
    }
  }

  lemma {:induction false} PositionUnique(xs: seq<Alarm>, twake: nat, k: nat)
    requires k <= |xs| && (forall i :: 0 <= i < k ==> xs[i].twake < twake) && (k < |xs| ==> twake <= xs[k].twake)
    ensures Position(xs, twake) == k
  {
    if k > 0 { PositionUnique(xs[1..], twake, k - 1); }
  }

  lemma {:induction false} DueUnique(xs: seq<Alarm>, now: nat, k: nat)
    requires k <= |xs| && (forall i :: 0 <= i < k ==> xs[i].twake <= now) && (k < |xs| ==> xs[k].twake > now)
    ensures DueCount(xs, now) == k
  {
    if k > 0 { DueUnique(xs[1..], now, k - 1); }
  }
}
