/** The streaming line splitter between the user process and the log sink
    (internal/agent/runner.go, logWriter). */
module LogLines {

  type Byte = bv8

  const NEWLINE: Byte := 10

  /** A line as the sink receives it, with its number. */
  datatype Line = Line(text: seq<Byte>, number: int)

  // ---- what the lines of a stream are --------------------------------------------------------

  /** The pieces between newlines; the last one follows the last newline and may be empty. */
  function Split(s: seq<Byte>): (pieces: seq<seq<Byte>>)
    ensures |pieces| >= 1
  {
    if s == [] then [[]]
    else
      var rest := Split(s[1..]);
      if s[0] == NEWLINE then [[]] + rest else Prepend(s[0], rest)
  }

  /** The same pieces, with one more byte at the front of the first. */
  function Prepend(b: Byte, pieces: seq<seq<Byte>>): seq<seq<Byte>>
    requires |pieces| >= 1
  {
    [[b] + pieces[0]] + pieces[1..]
  }

  function Last(pieces: seq<seq<Byte>>): seq<Byte>
    requires |pieces| >= 1
  {
    pieces[|pieces| - 1]
  }

  function Complete(pieces: seq<seq<Byte>>): seq<seq<Byte>>
    requires |pieces| >= 1
  {
    pieces[..|pieces| - 1]
  }

  /** The newline-split of a stream without an empty last piece. */
  function Lines(s: seq<Byte>): seq<seq<Byte>>
  {
    var pieces := Split(s);
    if Last(pieces) == [] then Complete(pieces) else pieces
  }

  function Number(texts: seq<seq<Byte>>, start: int): (lines: seq<Line>)
    ensures |lines| == |texts| && forall i :: 0 <= i < |texts| ==> lines[i] == Line(texts[i], start + i)
  {
    seq(|texts|, i requires 0 <= i < |texts| => Line(texts[i], start + i))
  }

  lemma PrependFront(b: Byte, front: seq<seq<Byte>>, back: seq<seq<Byte>>)
    requires |front| >= 1
    ensures Prepend(b, front + back) == Prepend(b, front) + back
  {
    assert (front + back)[1..] == front[1..] + back;
  }

  lemma PrependParts(b: Byte, pieces: seq<seq<Byte>>)
    requires |pieces| >= 2
    ensures Last(Prepend(b, pieces)) == Last(pieces) && Complete(Prepend(b, pieces)) == Prepend(b, Complete(pieces))
  {
  }

  /** Splitting in two goes through the unfinished last piece of the first part. */
  lemma {:induction false} SplitAppend(s: seq<Byte>, t: seq<Byte>)
    ensures Split(s + t) == Complete(Split(s)) + Split(Last(Split(s)) + t)
  {
    if s == [] {
      assert s + t == t && [] + t == t;
    } else {
      assert (s + t)[0] == s[0] && (s + t)[1..] == s[1..] + t;
      SplitAppend(s[1..], t);
      var rest := Split(s[1..]);
      if s[0] == NEWLINE {
        NewlineFront(rest, Split(Last(rest) + t));
      } else {
        PrependAppend(s[0], rest, t);
      }
    }
  }

  lemma NewlineFront(front: seq<seq<Byte>>, back: seq<seq<Byte>>)
    requires |front| >= 1
    ensures [[]] + (Complete(front) + back) == Complete([[]] + front) + back
    ensures Last([[]] + front) == Last(front)
  {
    assert Complete([[]] + front) == [[]] + Complete(front);
  }

  lemma PrependAppend(b: Byte, rest: seq<seq<Byte>>, t: seq<Byte>)
    requires |rest| >= 1 && b != NEWLINE
    ensures Prepend(b, Complete(rest) + Split(Last(rest) + t))
            == Complete(Prepend(b, rest)) + Split(Last(Prepend(b, rest)) + t)
  {
    if |rest| == 1 {
      SplitJoined(b, rest[0], t);
      assert Complete(rest) == [] && Complete(Prepend(b, rest)) == [];
    } else {
      PrependParts(b, rest);
      PrependFront(b, Complete(rest), Split(Last(rest) + t));
    }
  }

  lemma SplitJoined(b: Byte, piece: seq<Byte>, t: seq<Byte>)
    requires b != NEWLINE
    ensures Split([b] + piece + t) == Prepend(b, Split(piece + t))
  {
    var joined := [b] + piece + t;
    assert joined[0] == b && joined[1..] == piece + t;
  }

  /** A piece without a newline is its own split. */
  lemma {:induction false} SplitWhole(s: seq<Byte>)
    requires NEWLINE !in s
    ensures Split(s) == [s]
  {
    if s != [] {
      SplitWhole(s[1..]);
      assert s == [s[0]] + s[1..];
    }
  }

  lemma {:induction false} SplitAtNewline(s: seq<Byte>, t: seq<Byte>)
    requires NEWLINE !in s
    ensures Split(s + [NEWLINE] + t) == [s] + Split(t)
  {
    SplitWhole(s);
    assert s + [NEWLINE] + t == s + ([NEWLINE] + t);
    SplitAppend(s, [NEWLINE] + t);
    if s == [] {
      assert ([NEWLINE] + t)[1..] == t;
    } else {
      assert (s + ([NEWLINE] + t))[0] == s[0] && (s + ([NEWLINE] + t))[1..] == s[1..] + [NEWLINE] + t;
      SplitAtNewline(s[1..], t);
    }
  }

  /** The pieces with a newline between each two. */
  function Join(pieces: seq<seq<Byte>>): seq<Byte>
    requires |pieces| >= 1
  {
    if |pieces| == 1 then pieces[0] else pieces[0] + [NEWLINE] + Join(pieces[1..])
  }

  /** Splitting undoes joining by newlines: the pieces hold none, and joined give the stream. */
  lemma {:induction false} JoinOfSplit(s: seq<Byte>)
    ensures Join(Split(s)) == s
    ensures forall i :: 0 <= i < |Split(s)| ==> NEWLINE !in Split(s)[i]
  {
    if s != [] {
      JoinOfSplit(s[1..]);
      var rest := Split(s[1..]);
      assert s == [s[0]] + s[1..];
      if s[0] == NEWLINE {
        assert ([[]] + rest)[1..] == rest;
      } else {
        assert Prepend(s[0], rest)[1..] == rest[1..];
      }
    }
  }

  // ---- the writer ------------------------------------------------------------------------------

  /** The lines are the whole stream: joined, they give it back, but for a newline at its very end. */
  lemma LinesLoseNothing(s: seq<Byte>)
    ensures s == [] ==> Lines(s) == []
    ensures s != [] && s[|s| - 1] == NEWLINE ==> Lines(s) != [] && Join(Lines(s)) + [NEWLINE] == s
    ensures s != [] && s[|s| - 1] != NEWLINE ==> Lines(s) != [] && Join(Lines(s)) == s
  {
    var pieces := Split(s);
    JoinOfSplit(s);
    JoinLast(pieces);
    var last := Last(pieces);
    if last != [] {
      assert s[|s| - 1] == last[|last| - 1] && last[|last| - 1] in last;
    } else if |pieces| > 1 {
      assert s == Join(Complete(pieces)) + [NEWLINE];
    }
  }

  lemma {:induction false} JoinLast(pieces: seq<seq<Byte>>)
    requires |pieces| >= 1
    ensures Join(pieces) == if |pieces| == 1 then Last(pieces) else Join(Complete(pieces)) + [NEWLINE] + Last(pieces)
  {
    if |pieces| > 1 {
      var rest := pieces[1..];
      JoinLast(rest);
      assert Last(rest) == Last(pieces);
      if |rest| > 1 {
        assert Complete(pieces)[1..] == Complete(rest) && Complete(pieces)[0] == pieces[0];
        assert pieces[0] + [NEWLINE] + (Join(Complete(rest)) + [NEWLINE] + Last(rest))
            == pieces[0] + [NEWLINE] + Join(Complete(rest)) + [NEWLINE] + Last(rest);
      } else {
        assert Complete(pieces) == [pieces[0]];
      }
    }
  }

  /** Taking the first line off the buffer moves it to the lines done. */
  lemma LineOff(done: seq<seq<Byte>>, buf: seq<Byte>, i: nat)
    requires i < |buf| && buf[i] == NEWLINE && NEWLINE !in buf[..i]
    ensures done + Split(buf) == done + [buf[..i]] + Split(buf[i + 1..])
  {
    assert buf == buf[..i] + [NEWLINE] + buf[i + 1..];
    SplitAtNewline(buf[..i], buf[i + 1..]);
  }

  lemma NumberGrows(texts: seq<seq<Byte>>, text: seq<Byte>)
    ensures Number(texts + [text], 1) == Number(texts, 1) + [Line(text, |texts| + 1)]
  {}

  class LogWriter {
    var buf: seq<Byte>
    var line: int
    /** What the sink has been sent. */
    var sent: seq<Line>

    constructor ()
      ensures buf == [] && line == 0 && sent == []
    {
      buf, line, sent := [], 0, [];
    }

    /** Everything written so far was `stream`: its complete lines are sent, its tail buffered. */
    ghost predicate Holds(stream: seq<Byte>)
      reads this
    {
      && buf == Last(Split(stream))
      && sent == Number(Complete(Split(stream)), 1)
      && line == |sent|
    }

    method Emit(b: seq<Byte>)
      modifies this`line, this`sent
      ensures line == old(line) + 1 && sent == old(sent) + [Line(b, line)]
    {
      line := line + 1;
      sent := sent + [Line(b, line)];
    }

    method Write(p: seq<Byte>, ghost stream: seq<Byte>)
      requires Holds(stream)
      modifies this
      ensures Holds(stream + p)
    {
      ghost var before := Complete(Split(stream));
      SplitAppend(stream, p);
      buf := buf + p;
      ghost var target := Split(stream + p);
      ghost var done: seq<seq<Byte>> := before;
      assert done + Split(buf) == target;
      while true
        invariant done + Split(buf) == target
        invariant sent == Number(done, 1) && line == |sent|
        decreases |buf|
      {
        var i := IndexOf(buf, NEWLINE);
        if i < 0 { break; }
        LineOff(done, buf, i);
        NumberGrows(done, buf[..i]);
        Emit(buf[..i]);
        done := done + [buf[..i]];
        buf := buf[i + 1..];
      }
      SplitWhole(buf);
    }

    method Flush(ghost stream: seq<Byte>)
      requires Holds(stream)
      modifies this
      ensures buf == [] && sent == Number(Lines(stream), 1)
    {
      if |buf| > 0 {
        Emit(buf);
        buf := [];
        assert Lines(stream) == Complete(Split(stream)) + [Last(Split(stream))];
      }
    }
  }

  method IndexOf(s: seq<Byte>, b: Byte) returns (i: int)
    ensures i < 0 ==> b !in s
    ensures i >= 0 ==> i < |s| && s[i] == b && b !in s[..i]
  {
    i := 0;
    while i < |s|
      invariant 0 <= i <= |s| && b !in s[..i]
    {
      if s[i] == b { return; }
      i := i + 1;
    }
    assert s[..i] == s;
    i := -1;
  }

  function Concat(chunks: seq<seq<Byte>>): seq<Byte>
  {
    if chunks == [] then [] else Concat(chunks[..|chunks| - 1]) + chunks[|chunks| - 1]
  }

  /** However a byte stream is cut into writes, after the flush the sink holds the newline-split
      of the whole stream, numbered from one. */
  method WriteAll(chunks: seq<seq<Byte>>) returns (w: LogWriter)
    ensures fresh(w) && w.buf == [] && w.sent == Number(Lines(Concat(chunks)), 1)
  {
    w := new LogWriter();
    assert w.Holds([]);
    for i := 0 to |chunks|
      invariant fresh(w) && w.Holds(Concat(chunks[..i]))
    {
      assert chunks[..i + 1][..i] == chunks[..i];
      w.Write(chunks[i], Concat(chunks[..i]));
    }
    assert chunks[..|chunks|] == chunks;
    w.Flush(Concat(chunks));
  }
}
