/**
 Newline normalisation of the terminal. The code scans whole buffers, in place on input and with partial
 writes on output; both are shown to equal the one-character machines documented beside the code.
 */
module Terminal {

  type Text = seq<char>

  /** What a machine has produced so far, and its one bit of state. */
  datatype Progress = Progress(out: Text, cr: bool)

  /** The documented cr_out machine, one character. */
  function OutStep(p: Progress, ch: char): Progress {
    if ch == '\r' then Progress(p.out + "\r\n", true)
    else if ch == '\n' then (if p.cr then Progress(p.out, false) else Progress(p.out + "\r\n", false))
    else Progress(p.out + [ch], false)
  }

  /** The documented cr_in machine, one character. */
  function InStep(p: Progress, ch: char): Progress {
    if ch == '\r' then Progress(p.out + "\n", true)
    else if p.cr && ch == '\n' then Progress(p.out, false)
    else Progress(p.out + [ch], false)
  }

  function OutFold(cr: bool, text: Text): Progress {
    if text == [] then Progress([], cr) else OutStep(OutFold(cr, text[..|text| - 1]), text[|text| - 1])
  }

  function InFold(cr: bool, text: Text): Progress {
    if text == [] then Progress([], cr) else InStep(InFold(cr, text[..|text| - 1]), text[|text| - 1])
  }

  /** Every chunk is one call; the state is carried from call to call. */
  function OutCalls(cr: bool, chunks: seq<Text>): Progress
    decreases |chunks|
  {
    if chunks == [] then Progress([], cr)
    else
      var first := OutFold(cr, chunks[0]);
      var rest := OutCalls(first.cr, chunks[1..]);
      Progress(first.out + rest.out, rest.cr)
  }

  function InCalls(cr: bool, chunks: seq<Text>): Progress
    decreases |chunks|
  {
    if chunks == [] then Progress([], cr)
    else
      var first := InFold(cr, chunks[0]);
      var rest := InCalls(first.cr, chunks[1..]);
      Progress(first.out + rest.out, rest.cr)
  }

  function Flatten(chunks: seq<Text>): Text {
    if chunks == [] then [] else chunks[0] + Flatten(chunks[1..])
  }

  /** Output rule of the documentation: \r\n, a lone \r and a lone \n are each written as \r\n. */
  function WithCrLf(text: Text): Text {
    if text == [] then []
    else if text[0] == '\r' && |text| > 1 && text[1] == '\n' then "\r\n" + WithCrLf(text[2..])
    else if text[0] == '\r' || text[0] == '\n' then "\r\n" + WithCrLf(text[1..])
    else [text[0]] + WithCrLf(text[1..])
  }

  /** Input rule of the documentation: \r\n, a lone \r and a lone \n are each read as \n. */
  function WithLf(text: Text): Text {
    if text == [] then []
    else if text[0] == '\r' && |text| > 1 && text[1] == '\n' then "\n" + WithLf(text[2..])
    else if text[0] == '\r' || text[0] == '\n' then "\n" + WithLf(text[1..])
    else [text[0]] + WithLf(text[1..])
  }

  // The machines

  lemma {:induction false} OutFoldConcat(cr: bool, a: Text, b: Text)
    ensures OutFold(cr, a + b) ==
            Progress(OutFold(cr, a).out + OutFold(OutFold(cr, a).cr, b).out, OutFold(OutFold(cr, a).cr, b).cr)
    decreases |b|
  {
    if b == [] {
      assert a + b == a;
    } else {
      assert (a + b)[..|a + b| - 1] == a + b[..|b| - 1];
      OutFoldConcat(cr, a, b[..|b| - 1]);
    }
  }

  lemma {:induction false} InFoldConcat(cr: bool, a: Text, b: Text)
    ensures InFold(cr, a + b) ==
            Progress(InFold(cr, a).out + InFold(InFold(cr, a).cr, b).out, InFold(InFold(cr, a).cr, b).cr)
    decreases |b|
  {
    if b == [] {
      assert a + b == a;
    } else {
      assert (a + b)[..|a + b| - 1] == a + b[..|b| - 1];
      InFoldConcat(cr, a, b[..|b| - 1]);
    }
  }

  /** Splitting a text over any number of calls gives the same raw output and the same final state. */
  lemma {:induction false} ChunkingInvisible(cr: bool, chunks: seq<Text>)
    ensures OutCalls(cr, chunks) == OutFold(cr, Flatten(chunks))
    decreases |chunks|
  {
    if chunks != [] {
      ChunkingInvisible(OutFold(cr, chunks[0]).cr, chunks[1..]);
      OutFoldConcat(cr, chunks[0], Flatten(chunks[1..]));
    }
  }

  /** The same for input: what any sequence of reads returns in all depends only on the raw bytes they take. */
  lemma {:induction false} ReadsInvisible(cr: bool, chunks: seq<Text>)
    ensures InCalls(cr, chunks) == InFold(cr, Flatten(chunks))
    decreases |chunks|
  {
    if chunks != [] {
      ReadsInvisible(InFold(cr, chunks[0]).cr, chunks[1..]);
      InFoldConcat(cr, chunks[0], Flatten(chunks[1..]));
    }
  }

  lemma OutHead(cr: bool, text: Text)
    requires text != []
    ensures var p := OutStep(Progress([], cr), text[0]);
            OutFold(cr, text) == Progress(p.out + OutFold(p.cr, text[1..]).out, OutFold(p.cr, text[1..]).cr)
  {
    OutFoldConcat(cr, text[..1], text[1..]);
    assert text[..1] + text[1..] == text;
    assert OutFold(cr, text[..1]) == OutStep(OutFold(cr, []), text[0]) by { assert text[..1][..0] == []; }
  }

  lemma InHead(cr: bool, text: Text)
    requires text != []
    ensures var p := InStep(Progress([], cr), text[0]);
            InFold(cr, text) == Progress(p.out + InFold(p.cr, text[1..]).out, InFold(p.cr, text[1..]).cr)
  {
    InFoldConcat(cr, text[..1], text[1..]);
    assert text[..1] + text[1..] == text;
    assert InFold(cr, text[..1]) == InStep(InFold(cr, []), text[0]) by { assert text[..1][..0] == []; }
  }

  /** The output machine computes the documented rule; started after a \r it first skips a \n. */
  lemma {:induction false} OutMachineMeetsRule(cr: bool, text: Text)
    ensures OutFold(cr, text).out == if cr && text != [] && text[0] == '\n' then WithCrLf(text[1..]) else WithCrLf(text)
    decreases |text|
  {
    if text != [] {
      var p := OutStep(Progress([], cr), text[0]);
      assert OutFold(cr, text).out == p.out + OutFold(p.cr, text[1..]).out by { OutHead(cr, text); }
      OutMachineMeetsRule(p.cr, text[1..]);
      OutRuleStep(cr, text, OutFold(p.cr, text[1..]).out);
    }
  }

  /** One character of the rule, given what the rest comes to. */
  lemma OutRuleStep(cr: bool, text: Text, rest: Text)
    requires text != []
    requires var p := OutStep(Progress([], cr), text[0]);
             rest == if p.cr && text[1..] != [] && text[1..][0] == '\n' then WithCrLf(text[1..][1..]) else WithCrLf(text[1..])
    ensures OutStep(Progress([], cr), text[0]).out + rest ==
            if cr && text[0] == '\n' then WithCrLf(text[1..]) else WithCrLf(text)
  {
    var out := OutStep(Progress([], cr), text[0]).out;
    if text[0] == '\r' {
      assert out == "\r\n";
      if |text| > 1 && text[1] == '\n' {
        assert text[1..][1..] == text[2..];
        assert WithCrLf(text) == "\r\n" + WithCrLf(text[2..]);
      } else {
        assert WithCrLf(text) == "\r\n" + WithCrLf(text[1..]);
      }
    } else if text[0] == '\n' && cr {
      assert out == [] && [] + rest == rest;
    } else if text[0] == '\n' {
      assert out == "\r\n" && WithCrLf(text) == "\r\n" + WithCrLf(text[1..]);
    } else {
      assert out == [text[0]];
    }
  }

  lemma {:induction false} InMachineMeetsRule(cr: bool, text: Text)
    ensures InFold(cr, text).out == if cr && text != [] && text[0] == '\n' then WithLf(text[1..]) else WithLf(text)
    decreases |text|
  {
    if text != [] {
      var p := InStep(Progress([], cr), text[0]);
      assert InFold(cr, text).out == p.out + InFold(p.cr, text[1..]).out by { InHead(cr, text); }
      InMachineMeetsRule(p.cr, text[1..]);
      if text[0] == '\r' && |text| > 1 && text[1] == '\n' {
        assert text[1..][1..] == text[2..];
      }
    }
  }

  lemma InSnoc(text: Text, ch: char)
    ensures InFold(false, text + [ch]) == InStep(InFold(false, text), ch)
  {
    assert (text + [ch])[..|text|] == text;
  }

  lemma OutSnoc(text: Text, ch: char)
    ensures OutFold(false, text + [ch]) == OutStep(OutFold(false, text), ch)
  {
    assert (text + [ch])[..|text|] == text;
  }

  /** A line end that the terminal wrote is read as one \n, and written again as it is. */
  lemma LineEndRead(text: Text)
    requires !InFold(false, text).cr
    ensures InFold(false, text + "\r\n") == Progress(InFold(false, text).out + "\n", false)
  {
    InSnoc(text, '\r');
    InSnoc(text + ['\r'], '\n');
    assert text + ['\r'] + ['\n'] == text + "\r\n";
  }

  lemma LineEndWritten(text: Text)
    requires !OutFold(false, text).cr
    ensures OutFold(false, text + "\r\n") == Progress(OutFold(false, text).out + "\r\n", false)
  {
    OutSnoc(text, '\r');
    OutSnoc(text + ['\r'], '\n');
    assert text + ['\r'] + ['\n'] == text + "\r\n";
  }

  /** Reading back what the terminal wrote gives what reading the original text gives. */
  lemma {:induction false} ReadBackWritten(text: Text)
    ensures InFold(false, OutFold(false, text).out) == Progress(InFold(false, text).out, false)
    ensures OutFold(false, text).cr == InFold(false, text).cr
  {
    if text != [] {
      var front, ch := text[..|text| - 1], text[|text| - 1];
      ReadBackWritten(front);
      var sent := OutFold(false, front);
      if ch == '\r' || (ch == '\n' && !sent.cr) {
        LineEndRead(sent.out);
      } else if ch != '\n' {
        InSnoc(sent.out, ch);
      }
    }
  }

  /** Text that is already normalised is written unchanged. */
  lemma {:induction false} WrittenTextIsStable(text: Text)
    ensures OutFold(false, OutFold(false, text).out) == Progress(OutFold(false, text).out, false)
  {
    if text != [] {
      var front, ch := text[..|text| - 1], text[|text| - 1];
      WrittenTextIsStable(front);
      var sent := OutFold(false, front);
      if ch == '\r' || (ch == '\n' && !sent.cr) {
        LineEndWritten(sent.out);
      } else if ch != '\n' {
        OutSnoc(sent.out, ch);
      }
    }
  }
}
