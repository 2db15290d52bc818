/**
 The UART driver as a state machine. Threads and the interrupt service routine share two ring buffers
 with 16-bit indices, the interrupt-enable register and two condition variables. The ISR may run between
 the data access and the index update of a ring operation, and between the load and the store of a
 thread's update of the interrupt-enable register.
 */
module Uart {
  import opened Common

  type Byte = b: int | 0 <= b < 256
  const SIZE: nat := 64
  const WRAP: nat := 0x1_0000

  // Ring buffers

  datatype Ring = Ring(hpos: nat, tpos: nat, data: seq<Byte>) {
    /** The 16-bit difference of the indices. */
    function Count(): nat
      requires hpos < WRAP
    {
      (tpos + WRAP - hpos) % WRAP
    }

    ghost predicate Valid() {
      hpos < WRAP && tpos < WRAP && |data| == SIZE && Count() <= SIZE
    }

    function Contents(): (s: seq<Byte>)
      requires Valid()
      ensures |s| == Count()
    {
      seq(Count(), i requires 0 <= i => data[(hpos + i) % SIZE])
    }

    predicate Empty() { hpos == tpos }

    predicate Full()
      requires hpos < WRAP
    {
      (tpos + WRAP - hpos) % WRAP == SIZE
    }

    /** rbuf_put up to the memory barrier: the byte is stored at index t, the tail not yet moved. */
    function Store(t: nat, b: Byte): Ring
      requires |data| == SIZE
    {
      this.(data := data[t % SIZE := b])
    }

    function MoveTail(t: nat): Ring { this.(tpos := (t + 1) % WRAP) }

    function MoveHead(h: nat): Ring { this.(hpos := (h + 1) % WRAP) }
  }

  lemma EmptyMeansNothing(r: Ring)
    requires r.Valid()
    ensures r.Empty() <==> r.Contents() == []
    ensures r.Full() <==> |r.Contents()| == SIZE
  {
  }

  /** Two indices at most SIZE - 1 apart name different cells, also across the 16-bit wrap. */
  lemma CellsDiffer(h: nat, i: nat, j: nat)
    requires i < j < i + SIZE
    ensures (h + i) % SIZE != (h + j) % SIZE
  {
  }

  lemma TailCell(r: Ring)
    requires r.Valid()
    ensures r.tpos % SIZE == (r.hpos + r.Count()) % SIZE
  {
    assert r.tpos == r.hpos + r.Count() || r.tpos + WRAP == r.hpos + r.Count();
  }

  /** Storing at the tail of a ring that is not full disturbs none of its contents. */
  lemma StoreKeeps(r: Ring, b: Byte)
    requires r.Valid() && !r.Full()
    ensures r.Store(r.tpos, b).Valid() && r.Store(r.tpos, b).Contents() == r.Contents()
    ensures r.Store(r.tpos, b).data[r.tpos % SIZE] == b
  {
    TailCell(r);
    var t := r.Store(r.tpos, b);
    forall i | 0 <= i < r.Count() ensures t.Contents()[i] == r.Contents()[i] {
      CellsDiffer(r.hpos, i, r.Count());
    }
  }

  lemma MoveTailAppends(r: Ring)
    requires r.Valid() && !r.Full()
    ensures r.MoveTail(r.tpos).Valid()
    ensures r.MoveTail(r.tpos).Contents() == r.Contents() + [r.data[r.tpos % SIZE]]
  {
    TailCell(r);
    var t := r.MoveTail(r.tpos);
    assert t.Count() == r.Count() + 1;
  }

  lemma MoveHeadRemoves(r: Ring)
    requires r.Valid() && !r.Empty()
    ensures r.Contents() != [] && r.Contents()[0] == r.data[r.hpos % SIZE]
    ensures r.MoveHead(r.hpos).Valid() && r.MoveHead(r.hpos).Contents() == r.Contents()[1..]
  {
    var t := r.MoveHead(r.hpos);
    assert t.Count() == r.Count() - 1;
    assert t.hpos == r.hpos + 1 || t.hpos + WRAP == r.hpos + 1;
    forall i | 0 <= i < t.Count() ensures t.Contents()[i] == r.Contents()[i + 1] {
      assert (t.hpos + i) % SIZE == (r.hpos + (i + 1)) % SIZE;
    }
  }

  // The driver

  /**
   What the running thread is doing. A thread passes the checks at the head of uart_read and of the loop
   of uart_write with interrupts disabled, so a check and the wait it leads to are one step.
   */
  datatype Pc =
    | Outside
    | Reading(room: nat)                                  // at the head of the copy loop of uart_read
    | Took(room: nat, h: nat, b: Byte)                    // inside rbuf_get, before the head is moved
    | RxLoad                                              // ier |= IER_DREIE, before the load
    | RxStore(dre: bool, thre: bool)                      // ... between the load and the store
    | Checking(rest: seq<Byte>)                           // at the head of the loop of uart_write
    | Writing(rest: seq<Byte>)                            // at the head of its copy loop
    | Stored(rest: seq<Byte>, t: nat, b: Byte)            // inside rbuf_put, before the tail is moved
    | TxLoad(rest: seq<Byte>)                             // ier |= IER_THREIE, before the load
    | TxStore(rest: seq<Byte>, dre: bool, thre: bool)     // ... between the load and the store

  /** `rxIn`, `rxOut`, `txIn` and `txOut` record the bytes that have gone into and come out of each ring. */
  datatype State = State(
    rx: Ring, tx: Ring,
    dre: bool, thre: bool,
    rxWaiting: set<nat>, txWaiting: set<nat>,
    pc: Pc, thread: nat,
    rxIn: seq<Byte>, rxOut: seq<Byte>, txIn: seq<Byte>, txOut: seq<Byte>)

  datatype Event =
    | EvRead(thread: nat, bufsz: nat)          // a thread calls uart_read, or retries it after waking
    | EvWrite(thread: nat, data: seq<Byte>)    // a thread calls uart_write, or goes on with it after waking
    | EvThread                                 // the running thread takes its next step
    | EvIsr(received: Option<Byte>, sending: bool)

  /** The state after uart_open. */
  function Init(cells: seq<Byte>): State {
    State(Ring(0, 0, cells), Ring(0, 0, cells), true, false, {}, {}, Outside, 0, [], [], [], [])
  }

  predicate Shaped(s: State) {
    s.rx.hpos < WRAP && s.tx.hpos < WRAP && |s.rx.data| == SIZE && |s.tx.data| == SIZE
  }

  /** The receive half of uart_isr. */
  function IsrReceive(s: State, b: Byte): State
    requires Shaped(s)
  {
    if s.rx.Full() then s.(dre := false)
    else
      s.(rx := s.rx.Store(s.rx.tpos, b).MoveTail(s.rx.tpos),
         rxWaiting := if s.rx.Empty() then {} else s.rxWaiting,
         rxIn := s.rxIn + [b])
  }

  /** The transmit half of uart_isr. */
  function IsrSend(s: State): State
    requires Shaped(s)
  {
    if s.tx.Empty() then s.(thre := false)
    else
      s.(tx := s.tx.MoveHead(s.tx.hpos),
         txWaiting := if s.tx.Full() then {} else s.txWaiting,
         txOut := s.txOut + [s.tx.data[s.tx.hpos % SIZE]])
  }

  function Isr(s: State, received: Option<Byte>, sending: bool): (t: State)
    requires Shaped(s)
  {
    var r := if received.Some? then IsrReceive(s, received.value) else s;
    if sending then IsrSend(r) else r
  }

  /** The next step of the running thread. */
  function ThreadStep(s: State): State
    requires Shaped(s)
  {
    match s.pc
    case Outside => s
    case Reading(room) =>
      if !s.rx.Empty() && room > 0 then s.(pc := Took(room, s.rx.hpos, s.rx.data[s.rx.hpos % SIZE]))
      else s.(pc := RxLoad)
    case Took(room, h, b) =>
      s.(rx := s.rx.MoveHead(h), rxOut := s.rxOut + [b], pc := Reading(if room > 0 then room - 1 else 0))
    case RxLoad => s.(pc := RxStore(s.dre, s.thre))
    case RxStore(_, thre) => s.(dre := true, thre := thre, pc := Outside)
    case Checking(rest) =>
      if rest == [] then s.(pc := Outside)
      else if s.tx.Full() then s.(txWaiting := s.txWaiting + {s.thread}, pc := Outside)
      else s.(pc := Writing(rest))
    case Writing(rest) =>
      if !s.tx.Full() && rest != [] then s.(tx := s.tx.Store(s.tx.tpos, rest[0]), pc := Stored(rest[1..], s.tx.tpos, rest[0]))
      else s.(pc := TxLoad(rest))
    case Stored(rest, t, b) => s.(tx := s.tx.MoveTail(t), txIn := s.txIn + [b], pc := Writing(rest))
    case TxLoad(rest) => s.(pc := TxStore(rest, s.dre, s.thre))
    case TxStore(rest, dre, _) => s.(dre := dre, thre := true, pc := Checking(rest))
  }

  function Step(s: State, e: Event): State
    requires Shaped(s)
  {
    match e
    case EvRead(thread, bufsz) =>
      if bufsz == 0 then s
      else if s.rx.Empty() then s.(rxWaiting := s.rxWaiting + {thread})
      else s.(pc := Reading(bufsz), thread := thread)
    case EvWrite(thread, data) => s.(pc := Checking(data), thread := thread)
    case EvThread => ThreadStep(s)
    case EvIsr(received, sending) => Isr(s, received, sending)
  }

  predicate Applicable(s: State, e: Event) {
    match e
    case EvRead(thread, _) => s.pc == Outside && thread !in s.rxWaiting + s.txWaiting
    case EvWrite(thread, _) => s.pc == Outside && thread !in s.rxWaiting + s.txWaiting
    case EvThread => s.pc != Outside
    case EvIsr(_, _) => true
  }

  predicate InRead(pc: Pc) {
    pc.Reading? || pc.Took? || pc.RxLoad? || pc.RxStore?
  }

  predicate InWrite(pc: Pc) {
    pc.Writing? || pc.Stored? || pc.TxLoad? || pc.TxStore?
  }

  /** What the running thread has in its registers agrees with memory, whatever the ISR did since it was loaded. */
  ghost predicate PcOk(s: State)
    requires s.rx.Valid() && s.tx.Valid()
  {
    match s.pc
    case Took(_, h, b) => h == s.rx.hpos && !s.rx.Empty() && b == s.rx.data[h % SIZE]
    case Stored(_, t, b) => t == s.tx.tpos && !s.tx.Full() && b == s.tx.data[t % SIZE]
    case RxStore(dre, thre) => (s.dre ==> dre) && (s.thre ==> thre)
    case TxStore(_, dre, thre) => (s.dre ==> dre) && (s.thre ==> thre)
    case _ => true
  }

  /** Nothing is lost, repeated or reordered in either ring. */
  ghost predicate StreamsOk(s: State)
    requires s.rx.Valid() && s.tx.Valid()
  {
    s.rxIn == s.rxOut + s.rx.Contents() && s.txIn == s.txOut + s.tx.Contents()
  }

  /** Waiters are waiting for something that an enabled interrupt will bring. */
  ghost predicate WaitersOk(s: State)
    requires s.rx.Valid() && s.tx.Valid()
  {
    && (s.rxWaiting != {} ==> s.rx.Empty() && s.dre && !InRead(s.pc))
    && (s.txWaiting != {} ==> s.tx.Full() && s.thre && !InWrite(s.pc))
    && (!s.dre ==> s.rx.Full() || InRead(s.pc))
    && (!s.thre ==> s.tx.Empty() || InWrite(s.pc))
  }

  ghost predicate Inv(s: State) {
    s.rx.Valid() && s.tx.Valid() && PcOk(s) && StreamsOk(s) && WaitersOk(s)
  }

  lemma InitInv(cells: seq<Byte>)
    requires |cells| == SIZE
    ensures Inv(Init(cells))
  {
  }

  lemma ReceiveKeeps(s: State, b: Byte)
    requires Inv(s)
    ensures Inv(IsrReceive(s, b))
  {
    if !s.rx.Full() {
      StoreKeeps(s.rx, b);
      MoveTailAppends(s.rx.Store(s.rx.tpos, b));
      EmptyMeansNothing(s.rx);
      TailCell(s.rx);
      if s.pc.Took? { CellsDiffer(s.rx.hpos, 0, s.rx.Count()); }
    }
  }

  lemma SendKeeps(s: State)
    requires Inv(s)
    ensures Inv(IsrSend(s))
  {
    if !s.tx.Empty() {
      MoveHeadRemoves(s.tx);
    }
  }

  lemma GetKeeps(s: State)
    requires Inv(s) && s.pc.Took?
    ensures Inv(ThreadStep(s))
  {
    MoveHeadRemoves(s.rx);
    EmptyMeansNothing(s.rx);
    assert s.rxOut + [s.pc.b] + s.rx.Contents()[1..] == s.rxOut + s.rx.Contents();
  }

  lemma PutKeeps(s: State)
    requires Inv(s) && s.pc.Stored?
    ensures Inv(ThreadStep(s))
  {
    MoveTailAppends(s.tx);
    assert s.txOut + (s.tx.Contents() + [s.pc.b]) == s.txOut + s.tx.Contents() + [s.pc.b];
  }

  lemma BeginPutKeeps(s: State)
    requires Inv(s) && s.pc.Writing?
    ensures Inv(ThreadStep(s))
  {
    if !s.tx.Full() && s.pc.rest != [] { StoreKeeps(s.tx, s.pc.rest[0]); }
  }

  /** Looking at the receive ring, and the two halves of the update of the interrupt enable register. */
  lemma EnableKeeps(s: State)
    requires Inv(s) && s.pc != Outside && !s.pc.Took? && !s.pc.Stored? && !s.pc.Writing?
    ensures Inv(ThreadStep(s))
  {
    match s.pc
    case Reading(_) => assert StreamsOk(ThreadStep(s));
    case Checking(_) => assert StreamsOk(ThreadStep(s));
    case RxLoad => assert StreamsOk(ThreadStep(s));
    case RxStore(_, _) => assert StreamsOk(ThreadStep(s));
    case TxLoad(_) => assert StreamsOk(ThreadStep(s));
    case TxStore(_, _, _) => assert StreamsOk(ThreadStep(s));
  }

  lemma ThreadKeeps(s: State)
    requires Inv(s) && s.pc != Outside
    ensures Inv(ThreadStep(s))
  {
    if s.pc.Took? { GetKeeps(s); }
    else if s.pc.Stored? { PutKeeps(s); }
    else if s.pc.Writing? { BeginPutKeeps(s); }
    else { EnableKeeps(s); }
  }

  lemma StepKeeps(s: State, e: Event)
    requires Inv(s) && Applicable(s, e)
    ensures Inv(Step(s, e))
  {
    match e
    case EvIsr(received, sending) =>
      if received.Some? { ReceiveKeeps(s, received.value); }
      if sending { SendKeeps(if received.Some? then IsrReceive(s, received.value) else s); }
    case EvThread => ThreadKeeps(s);
    case _ =>
  }

  ghost predicate Run(s: State, es: seq<Event>, t: State)
    decreases |es|
  {
    if es == [] then s == t
    else Shaped(s) && Applicable(s, es[0]) && Run(Step(s, es[0]), es[1..], t)
  }

  lemma {:induction false} RunKeeps(s: State, es: seq<Event>, t: State)
    requires Inv(s) && Run(s, es, t)
    ensures Inv(t)
    decreases |es|
  {
    if es != [] {
      StepKeeps(s, es[0]);
      RunKeeps(Step(s, es[0]), es[1..], t);
    }
  }

  /** In every run, a waiting reader faces an empty ring with receive interrupts on, and a waiting writer a full one
      with transmit interrupts on. */
  lemma NoWaiterStranded(cells: seq<Byte>, es: seq<Event>, t: State)
    requires |cells| == SIZE && Run(Init(cells), es, t)
    ensures t.rx.Valid() && t.tx.Valid()
    ensures t.rxWaiting != {} ==> t.rx.Contents() == [] && t.dre
    ensures t.txWaiting != {} ==> |t.tx.Contents()| == SIZE && t.thre
  {
    InitInv(cells);
    RunKeeps(Init(cells), es, t);
  }

  /** In every run, the bytes taken out of a ring followed by those still in it are the bytes put in, in order. */
  lemma StreamsIntact(cells: seq<Byte>, es: seq<Event>, t: State)
    requires |cells| == SIZE && Run(Init(cells), es, t)
    ensures t.rx.Valid() && t.rxOut + t.rx.Contents() == t.rxIn && |t.rx.Contents()| <= SIZE
    ensures t.tx.Valid() && t.txOut + t.tx.Contents() == t.txIn && |t.tx.Contents()| <= SIZE
  {
    InitInv(cells);
    RunKeeps(Init(cells), es, t);
  }

  /** The interrupt that a waiter waits for wakes it. */
  lemma InterruptWakes(s: State, b: Byte)
    requires Inv(s)
    ensures s.rxWaiting != {} ==> Isr(s, Some(b), false).rxWaiting == {} && Isr(s, Some(b), false).rx.Contents() == [b]
    ensures s.txWaiting != {} ==> Isr(s, None, true).txWaiting == {} && !Isr(s, None, true).tx.Full()
  {
    ReceiveKeeps(s, b);
    SendKeeps(s);
    if s.rxWaiting != {} {
      StoreKeeps(s.rx, b);
      MoveTailAppends(s.rx.Store(s.rx.tpos, b));
      EmptyMeansNothing(s.rx);
    }
    if s.txWaiting != {} { MoveHeadRemoves(s.tx); }
  }
}
