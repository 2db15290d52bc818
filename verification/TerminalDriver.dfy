/**
 ioterm_write and ioterm_read as the code has them, over a raw device that may accept or deliver fewer
 bytes than asked for and may fail at any byte.
 */
module TerminalDriver {
  import opened Common
  import opened Terminal

  const EIO: int := 5

  /** A raw output that takes `room` more bytes, in any portions, and then answers `err` (0 is end of file). */
  class RawOutput {
    var sent: Text
    var room: nat
    const err: int

    constructor (room: nat, err: int)
      requires err <= 0
      ensures sent == [] && this.room == room && this.err == err
    {
      sent, this.room, this.err := [], room, err;
    }

    method Write(data: Text) returns (cnt: int)
      requires data != [] && err <= 0
      modifies this
      ensures if old(room) == 0 then cnt == err && sent == old(sent) && room == 0
              else 1 <= cnt <= |data| && cnt <= old(room)
                   && sent == old(sent) + data[..cnt] && room == old(room) - cnt
    {
      if room == 0 { return err; }
      var k: nat :| 1 <= k <= |data| && k <= room;
      sent := sent + data[..k];
      room := room - k;
      return k;
    }

    /** iowrite: as much as the device has room for is sent, whatever portions it takes. */
    method WriteAll(data: Text) returns (cnt: int)
      requires err <= 0
      modifies this
      ensures var k := Min(|data|, old(room));
              && sent == old(sent) + data[..k] && room == old(room) - k
              && cnt == if k < |data| && err < 0 then err else k
    {
      var acc := 0;
      while acc < |data|
        invariant 0 <= acc <= |data| && acc <= old(room)
        invariant sent == old(sent) + data[..acc] && room == old(room) - acc
      {
        var c := Write(data[acc..]);
        if c < 0 { return c; }
        if c == 0 { return acc; }
        assert data[..acc] + data[acc..][..c] == data[..acc + c];
        acc := acc + c;
      }
      return acc;
    }

    /** ioputc, without the value of the character. */
    method Put(ch: char) returns (r: int)
      requires err <= 0
      modifies this
      ensures if old(room) == 0 then sent == old(sent) && room == 0 && r == (if err < 0 then err else -EIO)
              else sent == old(sent) + [ch] && room == old(room) - 1 && r == 0
    {
      var wlen := WriteAll([ch]);
      assert [ch][..1] == [ch];
      if wlen < 0 { return wlen; }
      if wlen == 0 { return -EIO; }
      return 0;
    }

    /** Pending bytes followed by one more character; stops at the first write that falls short. */
    method WriteAndPut(data: Text, ch: char) returns (done: bool, cnt: int)
      requires err <= 0
      modifies this
      ensures done <==> |data| < old(room)
      ensures done ==> sent == old(sent) + data + [ch]
      ensures var k := Min(|data| + 1, old(room));
              sent == old(sent) + (data + [ch])[..k] && room == old(room) - k
      ensures if done then cnt == |data| else cnt <= 0 && (err < 0 ==> cnt == err)
    {
      if data != [] {
        cnt := WriteAll(data);
        assert data[..|data|] == data;
        if cnt <= 0 { return false, cnt; }
      }
      var r := Put(ch);
      if r < 0 { return false, r; }
      return true, |data|;
    }
  }

  /** The device has been given exactly the first bytes of `out`, as many as it had room for. */
  ghost predicate Delivered(before: Text, room: nat, out: Text, after: Text) {
    after == before + out[..Min(|out|, room)]
  }

  lemma OutNext(cr: bool, buf: Text, r: nat)
    requires r < |buf|
    ensures OutFold(cr, buf[..r + 1]) == OutStep(OutFold(cr, buf[..r]), buf[r])
  {
    assert buf[..r + 1][..r] == buf[..r];
  }

  /** A full device that stopped within the output for the first r characters has received a prefix of it all. */
  lemma CutOff(cr: bool, buf: Text, r: nat, before: Text, room: nat, after: Text)
    requires r <= |buf| && before <= after && |after| == |before| + room
    requires after <= before + OutFold(cr, buf[..r]).out && |after| < |before| + |OutFold(cr, buf[..r]).out|
    ensures |OutFold(cr, buf).out| > room
    ensures Delivered(before, room, OutFold(cr, buf).out, after)
  {
    OutFoldConcat(cr, buf[..r], buf[r..]);
    assert buf[..r] + buf[r..] == buf;
    var part, out := OutFold(cr, buf[..r]).out, OutFold(cr, buf).out;
    assert part <= out;
    assert after == (before + part)[..|after|];
    assert (before + part)[..|after|] == before + out[..room];
  }

  /** Sent bytes and pending buffer together are the machine's output for the first rp characters. */
  ghost predicate Scanned(cr: bool, before: Text, buf: Text, wp: nat, rp: nat, sent: Text)
    requires wp <= rp <= |buf|
  {
    && before <= sent
    && sent + buf[wp..rp] == before + OutFold(cr, buf[..rp]).out
  }

  /** An ordinary character, or a \r whose \n follows in the buffer, stays pending. */
  lemma ScanPlain(cr: bool, before: Text, buf: Text, wp: nat, rp: nat, sent: Text)
    requires wp <= rp < |buf| && Scanned(cr, before, buf, wp, rp, sent)
    ensures buf[rp] != '\r' && buf[rp] != '\n' ==> Scanned(cr, before, buf, wp, rp + 1, sent)
    ensures buf[rp] == '\r' && rp + 1 < |buf| && buf[rp + 1] == '\n' ==>
              Scanned(cr, before, buf, wp, rp + 2, sent) && !OutFold(cr, buf[..rp + 2]).cr
  {
    var out := OutFold(cr, buf[..rp]).out;
    OutNext(cr, buf, rp);
    assert sent + buf[wp..rp + 1] == sent + buf[wp..rp] + [buf[rp]];
    assert before + (out + [buf[rp]]) == before + out + [buf[rp]];
    if rp + 1 < |buf| {
      OutNext(cr, buf, rp + 1);
      assert sent + buf[wp..rp + 2] == sent + buf[wp..rp] + [buf[rp]] + [buf[rp + 1]];
      assert before + (out + "\r\n") == before + out + "\r" + "\n";
    }
  }

  lemma ScanCr(cr: bool, before: Text, buf: Text, wp: nat, rp: nat, sent: Text)
    requires wp <= rp < |buf| && Scanned(cr, before, buf, wp, rp, sent) && buf[rp] == '\r'
    ensures before + OutFold(cr, buf[..rp + 1]).out == sent + buf[wp..rp + 1] + "\n"
    ensures Scanned(cr, before, buf, rp + 1, rp + 1, sent + buf[wp..rp + 1] + "\n")
  {
    OutNext(cr, buf, rp);
    assert buf[wp..rp + 1] == buf[wp..rp] + "\r";
    assert before + (OutFold(cr, buf[..rp]).out + "\r\n") == sent + buf[wp..rp] + "\r" + "\n";
  }

  lemma ScanLf(cr: bool, before: Text, buf: Text, wp: nat, rp: nat, sent: Text)
    requires wp <= rp < |buf| && Scanned(cr, before, buf, wp, rp, sent) && buf[rp] == '\n'
    ensures !OutFold(cr, buf[..rp]).cr ==>
              && before + OutFold(cr, buf[..rp + 1]).out == sent + buf[wp..rp] + "\r" + "\n"
              && Scanned(cr, before, buf, rp, rp + 1, sent + buf[wp..rp] + "\r")
    ensures OutFold(cr, buf[..rp]).cr && wp == rp ==> Scanned(cr, before, buf, rp + 1, rp + 1, sent)
  {
    OutNext(cr, buf, rp);
    assert before + (OutFold(cr, buf[..rp]).out + "\r\n") == sent + buf[wp..rp] + "\r" + "\n";
  }

  /** CutOff for a device that filled up while it was given `rest`. */
  lemma CutWithin(cr: bool, buf: Text, r: nat, before: Text, room: nat, sent: Text, rest: Text, k: nat)
    requires r <= |buf| && before <= sent && k < |rest| && |sent| + k == |before| + room
    requires sent + rest == before + OutFold(cr, buf[..r]).out
    ensures |OutFold(cr, buf).out| > room
    ensures Delivered(before, room, OutFold(cr, buf).out, sent + rest[..k])
  {
    CutOff(cr, buf, r, before, room, sent + rest[..k]);
  }

  ghost predicate CutShort(cr: bool, buf: Text, before: Text, room: nat, after: Text) {
    |OutFold(cr, buf).out| > room && Delivered(before, room, OutFold(cr, buf).out, after)
  }

  /** The first \n completes a \r\n whose \r ended the previous call. */
  predicate Swallows(cr: bool, buf: Text) {
    cr && buf != [] && buf[0] == '\n'
  }

  /** What iowrite sends a second time. */
  function Repeated(cr: bool, buf: Text): Text {
    if Swallows(cr, buf) && |buf| >= 2 then OutFold(OutFold(cr, buf).cr, [buf[|buf| - 1]]).out else []
  }

  /** All that iowrite sends: the normalised text and what it repeats. */
  function SentInAll(cr: bool, buf: Text): Text { OutFold(cr, buf).out + Repeated(cr, buf) }

  lemma FoldOne(cr: bool, ch: char)
    ensures OutFold(cr, [ch]) == OutStep(Progress([], cr), ch)
  {
    assert [ch][..0] == [];
  }

  lemma LastByte(cr: bool, buf: Text)
    requires buf != []
    ensures OutFold(cr, buf).cr <==> buf[|buf| - 1] == '\r'
  {
  }

  /** iowrite on a terminal sends the normalised text if and only if no first \n of a longer buffer is swallowed. */
  lemma RepeatsExactlyAfterSwallow(cr: bool, buf: Text)
    ensures OutFold(cr, buf).out + Repeated(cr, buf) == OutFold(cr, buf).out <==> !(Swallows(cr, buf) && |buf| >= 2)
  {
    if Swallows(cr, buf) && |buf| >= 2 {
      LastByte(cr, buf);
      FoldOne(OutFold(cr, buf).cr, buf[|buf| - 1]);
    }
  }

  /** For example: after "\r" the text "\nab" is sent as "ab" and then its last byte once more. */
  lemma RepeatsLastByte()
    ensures OutFold(false, "\r") == Progress("\r\n", true)
    ensures OutFold(true, "\nab").out + Repeated(true, "\nab") == "ab" + "b"
  {
    FoldOne(false, '\r');
    assert "\nab"[..2] == "\na" && "\na"[..1] == "\n";
    FoldOne(true, '\n');
    assert OutFold(true, "\na") == OutStep(OutFold(true, "\n"), 'a');
    assert OutFold(true, "\nab") == OutStep(OutFold(true, "\na"), 'b');
    FoldOne(false, 'b');
  }

  /** The terminal and its device: what was sent, how much more can be, and whether the last byte was a \r. */
  datatype Line = Line(cr: bool, sent: Text, room: nat)

  /**
   What ioterm_write promises: the raw device receives the output of the cr_out machine, cut off where the device
   fails. If it does not fail the state is the machine's and every byte is counted, except a first \n that is
   swallowed because the previous call ended in \r.
   */
  ghost predicate Wrote(o: Line, buf: Text, err: int, l: Line, cnt: int) {
    var out := OutFold(o.cr, buf);
    && Delivered(o.sent, o.room, out.out, l.sent) && l.room == o.room - Min(|out.out|, o.room) && cnt <= |buf|
    && (|out.out| <= o.room ==> l.cr == out.cr && cnt == |buf| - (if Swallows(o.cr, buf) then 1 else 0))
    && (|out.out| > o.room && err < 0 ==> cnt == err)
  }

  class OutTerm {
    const raw: RawOutput
    var crOut: bool

    constructor (raw: RawOutput)
      ensures this.raw == raw && !crOut
    {
      this.raw, crOut := raw, false;
    }

    /** Writes out what is pending up to the \r at rp, and the \n it lacks. */
    method EmitCr(buf: Text, wp: nat, rp: nat, ghost cr0: bool, ghost sent0: Text, ghost room0: nat)
      returns (stop: bool, cnt: int)
      requires raw.err <= 0 && wp <= rp < |buf| && buf[rp] == '\r'
      requires Scanned(cr0, sent0, buf, wp, rp, raw.sent) && raw.room + |raw.sent| == room0 + |sent0|
      modifies raw
      ensures raw.room + |raw.sent| == room0 + |sent0|
      ensures stop ==> CutShort(cr0, buf, sent0, room0, raw.sent) && cnt <= 0 && (raw.err < 0 ==> cnt == raw.err)
      ensures !stop ==> cnt == rp + 1 - wp && Scanned(cr0, sent0, buf, rp + 1, rp + 1, raw.sent)
    {
      ScanCr(cr0, sent0, buf, wp, rp, raw.sent);
      ghost var sent := raw.sent;
      var done, c := raw.WriteAndPut(buf[wp..rp + 1], '\n');
      if !done {
        assert sent + (buf[wp..rp + 1] + "\n") == sent + buf[wp..rp + 1] + "\n";
        CutWithin(cr0, buf, rp + 1, sent0, room0, sent, buf[wp..rp + 1] + "\n", room0 + |sent0| - |sent|);
      }
      return !done, c;
    }

    /** Writes out what is pending before the lone \n at rp, and the \r it lacks; the \n is pending then. */
    method EmitLf(buf: Text, wp: nat, rp: nat, ghost cr0: bool, ghost sent0: Text, ghost room0: nat)
      returns (stop: bool, cnt: int)
      requires raw.err <= 0 && wp <= rp < |buf| && buf[rp] == '\n' && !OutFold(cr0, buf[..rp]).cr
      requires Scanned(cr0, sent0, buf, wp, rp, raw.sent) && raw.room + |raw.sent| == room0 + |sent0|
      modifies raw
      ensures raw.room + |raw.sent| == room0 + |sent0|
      ensures stop ==> CutShort(cr0, buf, sent0, room0, raw.sent) && cnt <= 0 && (raw.err < 0 ==> cnt == raw.err)
      ensures !stop ==> cnt == rp - wp && Scanned(cr0, sent0, buf, rp, rp + 1, raw.sent)
    {
      ScanLf(cr0, sent0, buf, wp, rp, raw.sent);
      ghost var sent := raw.sent;
      var done, c := raw.WriteAndPut(buf[wp..rp], '\r');
      if !done {
        ghost var rest := buf[wp..rp] + "\r" + "\n";
        assert sent + rest == sent + buf[wp..rp] + "\r" + "\n";
        assert rest[..|rest| - 1] == buf[wp..rp] + "\r";
        CutWithin(cr0, buf, rp + 1, sent0, room0, sent, rest, room0 + |sent0| - |sent|);
      }
      return !done, c;
    }

    /** What the scanning loop of ioterm_write keeps: rp characters are read, those before wp written or skipped. */
    ghost predicate InScan(cr0: bool, sent0: Text, room0: nat, buf: Text, wp: nat, rp: nat, acc: int)
      reads this, raw
    {
      && wp <= rp <= |buf|
      && Scanned(cr0, sent0, buf, wp, rp, raw.sent)
      && raw.room + |raw.sent| == room0 + |sent0|
      && crOut == OutFold(cr0, buf[..rp]).cr
      && (crOut ==> wp == rp)
      && (rp == 0 ==> crOut == cr0)
      && (crOut && 0 < rp < |buf| ==> buf[rp] != '\n')
      && acc == wp - (if rp > 0 && Swallows(cr0, buf) then 1 else 0)
    }

    /** One turn of the scanning loop. */
    method ScanChar(buf: Text, wp0: nat, rp0: nat, acc0: int, ghost cr0: bool, ghost sent0: Text, ghost room0: nat)
      returns (stop: bool, wp: nat, rp: nat, acc: int)
      requires raw.err <= 0 && rp0 < |buf| && InScan(cr0, sent0, room0, buf, wp0, rp0, acc0)
      modifies this, raw
      ensures stop ==> CutShort(cr0, buf, sent0, room0, raw.sent) && acc <= |buf| && (raw.err < 0 ==> acc == raw.err)
      ensures raw.room + |raw.sent| == room0 + |sent0|
      ensures !stop ==> rp0 < rp && InScan(cr0, sent0, room0, buf, wp, rp, acc)
    {
      OutNext(cr0, buf, rp0);
      stop, wp, rp, acc := false, wp0, rp0 + 1, acc0;
      var ch := buf[rp0];
      if ch == '\r' {
        if rp < |buf| && buf[rp] == '\n' {
          ScanPlain(cr0, sent0, buf, wp, rp0, raw.sent);
          crOut := false;
          rp := rp + 1;
        } else {
          var cut, c := EmitCr(buf, wp, rp0, cr0, sent0, room0);
          if cut { return true, wp, rp, if c < 0 then c else acc; }
          acc, wp := acc + c, wp + c;
          crOut := true;
        }
      } else if ch == '\n' {
        if crOut {
          ScanLf(cr0, sent0, buf, wp, rp0, raw.sent);
          crOut := false;
          wp := wp + 1;
        } else {
          var cut, c := EmitLf(buf, wp, rp0, cr0, sent0, room0);
          if cut { return true, wp, rp, if c < 0 then c else acc; }
          acc, wp := acc + c, wp + c;
          crOut := false;
        }
      } else {
        ScanPlain(cr0, sent0, buf, wp, rp0, raw.sent);
        crOut := false;
      }
    }

    /** The scanning loop of ioterm_write; `stop` when a raw write falls short, with `acc` to be returned. */
    method Scan(buf: Text) returns (stop: bool, acc: int, wp: nat)
      requires raw.err <= 0
      modifies this, raw
      ensures stop ==> CutShort(old(crOut), buf, old(raw.sent), old(raw.room), raw.sent) && acc <= |buf|
                       && (raw.err < 0 ==> acc == raw.err)
      ensures raw.room + |raw.sent| == old(raw.room + |raw.sent|)
      ensures !stop ==> InScan(old(crOut), old(raw.sent), old(raw.room), buf, wp, |buf|, acc)
    {
      acc, wp, stop := 0, 0, false;
      var rp := 0;
      ghost var cr0, sent0, room0 := crOut, raw.sent, raw.room;
      while rp < |buf|
        invariant InScan(cr0, sent0, room0, buf, wp, rp, acc)
      {
        stop, wp, rp, acc := ScanChar(buf, wp, rp, acc, cr0, sent0, room0);
        if stop { return; }
      }
    }

    /** ioterm_write */
    method Write(buf: Text) returns (cnt: int)
      requires raw.err <= 0
      modifies this, raw
      ensures Wrote(Line(old(crOut), old(raw.sent), old(raw.room)), buf, raw.err, Line(crOut, raw.sent, raw.room), cnt)
    {
      ghost var cr0, sent0, room0 := crOut, raw.sent, raw.room;
      var stop, acc, wp := Scan(buf);
      if stop { return acc; }
      ghost var out := OutFold(cr0, buf).out;
      assert buf[..|buf|] == buf && out[..|out|] == out;
      if wp != |buf| {
        ghost var sent := raw.sent;
        assert buf[wp..] == buf[wp..|buf|];
        var c := raw.WriteAll(buf[wp..]);
        assert buf[wp..][..|buf| - wp] == buf[wp..];
        if c != |buf| - wp {
          CutWithin(cr0, buf, |buf|, sent0, room0, sent, buf[wp..], room0 + |sent0| - |sent|);
        }
        if c < 0 { return c; }
        if c == 0 { return acc; }
        acc := acc + c;
      }
      return acc;
    }
  
    /** One turn of iowrite: a call of ioterm_write for the bytes that are not counted. */
    method WriteRest(buf: Text, acc: nat, ghost o: Line) returns (c: int)
      requires raw.err <= 0 && acc < |buf| && Counted(o, buf, acc, raw.err, Line(crOut, raw.sent, raw.room))
      modifies this, raw
      ensures c <= |buf| - acc
      ensures if c > 0 then Counted(o, buf, acc + c, raw.err, Line(crOut, raw.sent, raw.room))
              else Finished(o, buf, raw.err, raw.sent, if c < 0 then c else acc)
    {
      ghost var now := Line(crOut, raw.sent, raw.room);
      assert acc == 0 ==> buf[acc..] == buf;
      c := Write(buf[acc..]);
      ghost var l := Line(crOut, raw.sent, raw.room);
      if acc == 0 && now == o {
        FirstCall(o, buf, raw.err, l, c);
      } else if CutOffForGood(o, buf, raw.err, now) {
        assert l.sent == now.sent;
      } else {
        LastCall(o, buf, raw.err, now, l, c);
      }
    }

    /**
     iowrite on the terminal: repeats ioterm_write until every byte is counted. After a swallowed first
     \n the count is one short, so the last byte of a longer buffer is written a second time. A device that
     fails has received the first bytes of all that, and its error is returned.
     */
    method WriteAll(buf: Text) returns (cnt: int)
      requires raw.err <= 0
      modifies this, raw
      ensures Finished(Line(old(crOut), old(raw.sent), old(raw.room)), buf, raw.err, raw.sent, cnt)
    {
      ghost var o := Line(crOut, raw.sent, raw.room);
      var acc := 0;
      while acc < |buf|
        invariant 0 <= acc <= |buf| && Counted(o, buf, acc, raw.err, Line(crOut, raw.sent, raw.room))
      {
        var c := WriteRest(buf, acc, o);
        if c < 0 { return c; }
        if c == 0 { return acc; }
        acc := acc + c;
      }
      AllCounted(o, buf, raw.err, Line(crOut, raw.sent, raw.room));
      return acc;
    }
  }

  // iowrite, call by call

  /** What iowrite, started in o, has done when acc bytes are counted: nothing, all, all but the repetition, or what the device took. */
  ghost predicate Counted(o: Line, buf: Text, acc: nat, err: int, l: Line) {
    var out, all := OutFold(o.cr, buf).out, SentInAll(o.cr, buf);
    || (acc == 0 && l == o)
    || (acc == |buf| && |all| <= o.room && l.sent == o.sent + all && !(Swallows(o.cr, buf) && |buf| == 1))
    || (acc == |buf| - 1 && Swallows(o.cr, buf) && |buf| >= 2 && |out| <= o.room && l == Line(OutFold(o.cr, buf).cr, o.sent + out, o.room - |out|))
    || CutOffForGood(o, buf, err, l)
  }

  /** The device is full and answers 0. */
  ghost predicate CutOffForGood(o: Line, buf: Text, err: int, l: Line) {
    err == 0 && |SentInAll(o.cr, buf)| > o.room && l.room == 0 && Delivered(o.sent, o.room, SentInAll(o.cr, buf), l.sent)
  }

  /** What iowrite returns, and what the device has received then. */
  ghost predicate Finished(o: Line, buf: Text, err: int, sent: Text, cnt: int) {
    var all := SentInAll(o.cr, buf);
    && Delivered(o.sent, o.room, all, sent)
    && (|all| <= o.room ==> cnt == if Swallows(o.cr, buf) && |buf| == 1 then 0 else |buf|)
    && (|all| > o.room && err < 0 ==> cnt == err)
  }

  lemma FirstCall(o: Line, buf: Text, err: int, l: Line, c: int)
    requires Wrote(o, buf, err, l, c) && buf != [] && err <= 0
    ensures if c > 0 then Counted(o, buf, c, err, l) else Finished(o, buf, err, l.sent, c)
  {
    var out, all := OutFold(o.cr, buf).out, SentInAll(o.cr, buf);
    assert out[..|out|] == out && (Repeated(o.cr, buf) == [] ==> all == out);
    assert |out| > o.room ==> all[..o.room] == out[..o.room];
    if Swallows(o.cr, buf) && |buf| == 1 { FoldOne(o.cr, buf[0]); }
  }

  /** The call for the last byte, after a swallowed \n. */
  lemma LastCall(o: Line, buf: Text, err: int, now: Line, l: Line, c: int)
    requires |buf| >= 2 && Swallows(o.cr, buf) && |OutFold(o.cr, buf).out| <= o.room && err <= 0
    requires now == Line(OutFold(o.cr, buf).cr, o.sent + OutFold(o.cr, buf).out, o.room - |OutFold(o.cr, buf).out|)
    requires Wrote(now, [buf[|buf| - 1]], err, l, c)
    ensures if c > 0 then Counted(o, buf, |buf|, err, l) else Finished(o, buf, err, l.sent, if c < 0 then c else |buf| - 1)
  {
    var out, again, all := OutFold(o.cr, buf).out, Repeated(o.cr, buf), SentInAll(o.cr, buf);
    LastByte(o.cr, buf);
    assert again[..|again|] == again && o.sent + out + again == o.sent + all && all[..|all|] == all;
    assert |all| > o.room ==> o.sent + out + again[..o.room - |out|] == o.sent + all[..o.room];
  }

  lemma AllCounted(o: Line, buf: Text, err: int, l: Line)
    requires Counted(o, buf, |buf|, err, l)
    ensures Finished(o, buf, err, l.sent, |buf|)
  {
    var all := SentInAll(o.cr, buf);
    assert all[..|all|] == all && o.sent + [] == o.sent;
  }

  /** A raw input that delivers `pending` in any portions and then answers the error `err`. */
  class RawInput {
    var pending: Text
    const err: int

    constructor (pending: Text, err: int)
      requires err < 0
      ensures this.pending == pending && this.err == err
    {
      this.pending, this.err := pending, err;
    }

    method Read(buf: array<char>, len: nat) returns (cnt: int)
      requires 0 < len <= buf.Length && err < 0
      modifies this, buf
      ensures if old(pending) == [] then cnt == err && pending == []
              else 1 <= cnt <= len && cnt <= |old(pending)|
                   && buf[..cnt] == old(pending)[..cnt] && pending == old(pending)[cnt..]
    {
      if pending == [] { return err; }
      var k: nat :| 1 <= k <= len && k <= |pending|;
      forall i | 0 <= i < k { buf[i] := pending[i]; }
      pending := pending[k..];
      return k;
    }
  }

  lemma InNext(cr: bool, text: Text, r: nat)
    requires r < |text|
    ensures InFold(cr, text[..r + 1]) == InStep(InFold(cr, text[..r]), text[r])
  {
    assert text[..r + 1][..r] == text[..r];
  }

  class InTerm {
    const raw: RawInput
    var crIn: bool

    constructor (raw: RawInput)
      ensures this.raw == raw && !crIn
    {
      this.raw, crIn := raw, false;
    }

    /** The scan of ioterm_read: the first cnt characters are normalised in place. */
    method Compact(buf: array<char>, cnt: nat) returns (wp: nat)
      requires cnt <= buf.Length
      modifies this, buf
      ensures wp <= cnt && buf[..wp] == InFold(old(crIn), old(buf[..cnt])).out
      ensures crIn == InFold(old(crIn), old(buf[..cnt])).cr
    {
      ghost var text := buf[..cnt];
      wp := 0;
      var rp := 0;
      while rp < cnt
        invariant wp <= rp <= cnt
        invariant buf[..wp] == InFold(old(crIn), text[..rp]).out
        invariant crIn == InFold(old(crIn), text[..rp]).cr
        invariant forall i :: rp <= i < cnt ==> buf[i] == text[i]
      {
        InNext(old(crIn), text, rp);
        var ch := buf[rp];
        rp := rp + 1;
        if crIn {
          if ch == '\r' {
            buf[wp] := '\n';
            wp := wp + 1;
          } else if ch == '\n' {
            crIn := false;
          } else {
            crIn := false;
            buf[wp] := ch;
            wp := wp + 1;
          }
        } else if ch == '\r' {
          crIn := true;
          buf[wp] := '\n';
          wp := wp + 1;
        } else {
          buf[wp] := ch;
          wp := wp + 1;
        }
      }
      assert text[..rp] == text;
    }

    /**
     ioterm_read: takes the next k raw characters and returns what the cr_in machine makes of them, at
     least one character, after at most two raw reads; or the raw device's error, with nothing produced.
     */
    method Read(buf: array<char>, len: nat) returns (cnt: int, ghost k: nat, ghost rounds: nat)
      requires 0 < len <= buf.Length && raw.err < 0
      modifies this, raw, buf
      ensures k <= |old(raw.pending)| && raw.pending == old(raw.pending)[k..]
      ensures crIn == InFold(old(crIn), old(raw.pending)[..k]).cr
      ensures 1 <= rounds <= 2
      ensures if cnt < 0 then cnt == raw.err && raw.pending == [] && InFold(old(crIn), old(raw.pending)[..k]).out == []
              else 0 < cnt <= len && buf[..cnt] == InFold(old(crIn), old(raw.pending)[..k]).out
    {
      ghost var all, cr0 := raw.pending, crIn;
      k, rounds, cnt := 0, 0, 0;
      while cnt == 0
        invariant 0 <= cnt <= len && k <= |all| && raw.pending == all[k..]
        invariant InFold(cr0, all[..k]) == Progress(buf[..cnt], crIn)
        invariant rounds <= 2 && (cnt > 0 ==> rounds >= 1)
        invariant cnt == 0 ==> if rounds == 0 then k == 0 else rounds == 1 && !crIn
        decreases 2 - rounds, cnt == 0
      {
        rounds := rounds + 1;
        var c;
        c, cnt := ReadOnce(buf, len);
        if c < 0 {
          assert all[..k] == all;
          return c, k, rounds;
        }
        Extend(cr0, all, k, c);
        k := k + c;
      }
    }

    /**
     ioread_full on the terminal: repeats ioterm_read until n characters are there or the device fails. All calls
     together return what the cr_in machine makes of the k raw characters they take.
     */
    method ReadFull(n: nat) returns (got: Text, cnt: int, ghost k: nat)
      requires raw.err < 0
      modifies this, raw
      ensures k <= |old(raw.pending)| && raw.pending == old(raw.pending)[k..]
      ensures InFold(old(crIn), old(raw.pending)[..k]) == Progress(got, crIn)
      ensures |got| <= n && if cnt < 0 then cnt == raw.err && raw.pending == [] else cnt == n == |got|
    {
      ghost var all, cr0 := raw.pending, crIn;
      got, k := [], 0;
      while |got| < n
        invariant |got| <= n && k <= |all| && raw.pending == all[k..]
        invariant InFold(cr0, all[..k]) == Progress(got, crIn)
        decreases n - |got|
      {
        var buf := new char[n - |got|];
        ghost var more, rounds;
        cnt, more, rounds := Read(buf, n - |got|);
        InFoldConcat(cr0, all[..k], all[k..][..more]);
        assert all[..k] + all[k..][..more] == all[..k + more] && all[k..][more..] == all[k + more..];
        k := k + more;
        if cnt < 0 {
          return got, cnt, k;
        }
        got := got + buf[..cnt];
      }
      cnt := n;
    }

    /** One round of ioterm_read: a raw read and the scan. */
    method ReadOnce(buf: array<char>, len: nat) returns (c: int, wp: nat)
      requires 0 < len <= buf.Length && raw.err < 0
      modifies this, raw, buf
      ensures if old(raw.pending) == [] then c == raw.err && raw.pending == [] && crIn == old(crIn) && wp == 0
              else && 1 <= c <= |old(raw.pending)| && raw.pending == old(raw.pending)[c..] && wp <= len
                   && InFold(old(crIn), old(raw.pending)[..c]) == Progress(buf[..wp], crIn)
                   && (wp == 0 ==> old(crIn) && !crIn)
    {
      c := raw.Read(buf, len);
      if c < 0 { return c, 0; }
      QuietOnlyOnce(crIn, buf[..c]);
      wp := Compact(buf, c);
    }
  }

  lemma Extend(cr: bool, all: Text, k: nat, c: nat)
    requires k + c <= |all|
    ensures all[k..][c..] == all[k + c..]
    ensures InFold(cr, all[..k]).out == [] ==>
              InFold(cr, all[..k + c]) == InFold(InFold(cr, all[..k]).cr, all[k..][..c])
  {
    assert all[..k + c] == all[..k] + all[k..][..c];
    InFoldConcat(cr, all[..k], all[k..][..c]);
  }

  /** A non-empty portion that produces nothing is a single \n after a \r. */
  lemma QuietOnlyOnce(cr: bool, part: Text)
    requires part != []
    ensures InFold(cr, part).out == [] ==> cr && part == "\n" && !InFold(cr, part).cr
  {
    InHead(cr, part);
    if |part| > 1 { InHead(InStep(Progress([], cr), part[0]).cr, part[1..]); }
  }
}
