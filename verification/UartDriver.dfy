/**
 The ring buffer and driver routines of the UART as the code has them, each run without an interrupt in
 between. Module Uart covers all interleavings.
 */
module UartDriver {
  import opened Common
  import opened Uart

  class RingBuf {
    var hpos: nat
    var tpos: nat
    const data: array<Byte>

    ghost function Abs(): Ring
      reads this, data
    {
      Ring(hpos, tpos, data[..])
    }

    ghost predicate Valid()
      reads this, data
    {
      Abs().Valid()
    }

    ghost function Contents(): seq<Byte>
      requires Valid()
      reads this, data
    {
      Abs().Contents()
    }

    constructor ()
      ensures fresh(data) && Valid() && Contents() == []
    {
      hpos, tpos := 0, 0;
      data := new Byte[SIZE];
    }

    method IsEmpty() returns (r: bool)
      requires Valid()
      ensures r <==> Contents() == []
      ensures r <==> Abs().Empty()
    {
      EmptyMeansNothing(Abs());
      return hpos == tpos;
    }

    method IsFull() returns (r: bool)
      requires Valid()
      ensures r <==> |Contents()| == SIZE
      ensures r <==> Abs().Full()
    {
      return (tpos + WRAP - hpos) % WRAP == SIZE;
    }

    /** rbuf_put */
    method Put(b: Byte)
      requires Valid() && !Abs().Full()
      modifies this, data
      ensures Valid() && Contents() == old(Contents()) + [b]
      ensures Abs() == old(Abs()).Store(old(tpos), b).MoveTail(old(tpos))
    {
      StoreKeeps(Abs(), b);
      MoveTailAppends(Abs().Store(tpos, b));
      var t := tpos;
      data[t % SIZE] := b;
      tpos := (t + 1) % WRAP;
      assert data[..] == old(data[..])[t % SIZE := b];
    }

    /** rbuf_get */
    method Get() returns (b: Byte)
      requires Valid() && !Abs().Empty()
      modifies this
      ensures Valid() && old(Contents()) != [] && b == old(Contents())[0] && Contents() == old(Contents())[1..]
      ensures Abs() == old(Abs()).MoveHead(old(hpos)) && b == old(data[hpos % SIZE])
    {
      MoveHeadRemoves(Abs());
      var h := hpos;
      b := data[h % SIZE];
      hpos := (h + 1) % WRAP;
    }
  }

  class Device {
    const rx: RingBuf
    const tx: RingBuf
    var dre: bool
    var thre: bool
    var rxWaiting: set<nat>
    var txWaiting: set<nat>
    ghost var pc: Pc
    ghost var thread: nat
    ghost var rxIn: seq<Byte>
    ghost var rxOut: seq<Byte>
    ghost var txIn: seq<Byte>
    ghost var txOut: seq<Byte>

    ghost function Abs(): State
      reads this, rx, tx, rx.data, tx.data
    {
      State(rx.Abs(), tx.Abs(), dre, thre, rxWaiting, txWaiting, pc, thread, rxIn, rxOut, txIn, txOut)
    }

    ghost predicate Valid()
      reads this, rx, tx, rx.data, tx.data
    {
      rx != tx && rx.data != tx.data && rx.Valid() && tx.Valid()
    }

    /** uart_open */
    constructor ()
      ensures Valid() && fresh(rx) && fresh(tx) && fresh(rx.data) && fresh(tx.data)
      ensures rx.Contents() == [] && tx.Contents() == [] && dre && !thre && rxWaiting == {} && txWaiting == {}
      ensures Inv(Abs())
    {
      rx := new RingBuf();
      tx := new RingBuf();
      dre, thre := true, false;
      rxWaiting, txWaiting, pc, thread := {}, {}, Outside, 0;
      rxIn, rxOut, txIn, txOut := [], [], [], [];
    }

    /** The receive half of uart_isr. */
    method Receive(b: Byte)
      requires Valid()
      modifies this, rx, rx.data
      ensures Valid() && Abs() == IsrReceive(old(Abs()), b)
    {
      var full := rx.IsFull();
      if !full {
        var empty := rx.IsEmpty();
        if empty { rxWaiting := {}; }
        rx.Put(b);
        rxIn := rxIn + [b];
      } else {
        dre := false;
      }
    }

    /** The transmit half of uart_isr; `sent` is what is written to the transmit register. */
    method Send() returns (sent: Option<Byte>)
      requires Valid()
      modifies this, tx
      ensures Valid() && Abs() == IsrSend(old(Abs()))
      ensures sent == if old(tx.Contents()) == [] then None else Some(old(tx.Contents())[0])
    {
      var empty := tx.IsEmpty();
      if !empty {
        var full := tx.IsFull();
        if full { txWaiting := {}; }
        var b := tx.Get();
        txOut := txOut + [b];
        return Some(b);
      } else {
        thre := false;
        return None;
      }
    }

    /** uart_read once the ring is not empty: up to bufsz bytes, oldest first, and receive interrupts on. */
    method CopyOut(bufsz: nat) returns (buf: seq<Byte>)
      requires Valid()
      modifies this`dre, rx
      ensures Valid() && buf + rx.Contents() == old(rx.Contents())
      ensures |buf| == bufsz || (|buf| < bufsz && rx.Contents() == [])
      ensures dre
    {
      buf := [];
      var empty := rx.IsEmpty();
      while !empty && |buf| < bufsz
        invariant Valid() && |buf| <= bufsz
        invariant empty <==> rx.Abs().Empty()
        invariant buf + rx.Contents() == old(rx.Contents())
        decreases bufsz - |buf|
      {
        ghost var before := rx.Contents();
        var b := rx.Get();
        assert buf + before == buf + [b] + rx.Contents();
        buf := buf + [b];
        empty := rx.IsEmpty();
      }
      EmptyMeansNothing(rx.Abs());
      dre := true;
    }

    /** One round of the copy loop of uart_write: as many bytes as fit, and transmit interrupts on. */
    method CopyIn(data: seq<Byte>) returns (n: nat)
      requires Valid()
      modifies this`thre, tx, tx.data
      ensures Valid() && n <= |data| && tx.Contents() == old(tx.Contents()) + data[..n]
      ensures n == |data| || |tx.Contents()| == SIZE
      ensures thre
    {
      n := 0;
      var full := tx.IsFull();
      while !full && n < |data|
        invariant Valid() && n <= |data|
        invariant full <==> tx.Abs().Full()
        invariant tx.Contents() == old(tx.Contents()) + data[..n]
        decreases |data| - n
      {
        tx.Put(data[n]);
        n := n + 1;
        full := tx.IsFull();
        assert data[..n] == data[..n - 1] + [data[n - 1]];
      }
      thre := true;
    }
  }
}
