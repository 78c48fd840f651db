/** Cutting a client's bytes into protocol lines, however the bytes are divided into reads. */
module Framing {
  import opened Text

  /** The text without the `c`s at its end. */
  function TrimRight(s: string, c: char): (r: string)
    ensures r <= s && (r == "" || r[|r| - 1] != c)
    ensures forall i | |r| <= i < |s| :: s[i] == c
  {
    if s != "" && s[|s| - 1] == c then TrimRight(s[..|s| - 1], c) else s
  }

  function Trimmed(ws: seq<string>): (ls: seq<string>)
    ensures |ls| == |ws| && forall i | 0 <= i < |ws| :: ls[i] == TrimRight(ws[i], '\r')
  {
    seq(|ws|, i requires 0 <= i < |ws| => TrimRight(ws[i], '\r'))
  }

  /** The complete lines of a text, in order. */
  function Lines(s: string): seq<string> {
    var ws := Split(s, '\n');
    Trimmed(ws[..|ws| - 1])
  }

  /** What follows the last line end. */
  function Leftover(s: string): string {
    var ws := Split(s, '\n');
    ws[|ws| - 1]
  }

  lemma FirstLine(s: string, i: nat)
    requires IndexOf(s, '\n') == i
    ensures Lines(s) == [TrimRight(s[..i], '\r')] + Lines(s[i + 1..])
    ensures Leftover(s) == Leftover(s[i + 1..])
  {
    hide Split, TrimRight;
    SplitStep(s, '\n');
    var rest := Split(s[i + 1..], '\n');
    assert ([s[..i]] + rest)[..|rest|] == [s[..i]] + rest[..|rest| - 1];
    assert Trimmed([s[..i]] + rest[..|rest| - 1]) == [TrimRight(s[..i], '\r')] + Trimmed(rest[..|rest| - 1]);
  }

  lemma NoLine(s: string)
    requires '\n' !in s
    ensures Lines(s) == [] && Leftover(s) == s
  {
    SplitPiece(s, '\n');
  }

  /** Takes line after line off the front of the buffer. */
  method TakeLines(received: string) returns (lines: seq<string>, buf: string)
    ensures lines == Lines(received) && buf == Leftover(received)
    ensures '\n' !in buf
  {
    hide Split, TrimRight, Lines, Leftover;
    buf := received;
    lines := [];
    while true
      invariant Lines(received) == lines + Lines(buf) && Leftover(received) == Leftover(buf)
      decreases |buf|
    {
      var idx := IndexOf(buf, '\n');
      if idx >= 0 {
        var line := buf[..idx];
        FirstLine(buf, idx);
        buf := buf[idx + 1..];
        line := TrimRight(line, '\r');
        lines := lines + [line];
      } else {
        NoLine(buf);
        break;
      }
    }
  }

  // ---- reads ----

  /** More bytes finish the line that was left over, and begin others. */
  lemma {:induction false} LinesContinue(a: string, b: string)
    ensures Lines(a + b) == Lines(a) + Lines(Leftover(a) + b)
    ensures Leftover(a + b) == Leftover(Leftover(a) + b)
    decreases |a|
  {
    hide Split, TrimRight, Lines, Leftover;
    var i := IndexOf(a, '\n');
    if i < 0 {
      NoLine(a);
    } else {
      assert (a + b)[i] == '\n' && (a + b)[..i] == a[..i];
      IndexOfAt(a + b, '\n', i);
      FirstLine(a + b, i);
      FirstLine(a, i);
      assert (a + b)[i + 1..] == a[i + 1..] + b;
      LinesContinue(a[i + 1..], b);
      assert [TrimRight(a[..i], '\r')] + (Lines(a[i + 1..]) + Lines(Leftover(a[i + 1..]) + b))
          == [TrimRight(a[..i], '\r')] + Lines(a[i + 1..]) + Lines(Leftover(a[i + 1..]) + b);
    }
  }

  function Concat(chunks: seq<string>): string {
    if chunks == [] then "" else Concat(chunks[..|chunks| - 1]) + chunks[|chunks| - 1]
  }

  /** The buffer after each read has been added to it and its lines taken off. */
  function BufferAfter(chunks: seq<string>): string {
    if chunks == [] then "" else Leftover(BufferAfter(chunks[..|chunks| - 1]) + chunks[|chunks| - 1])
  }

  /** The lines taken, read by read. */
  function LinesTaken(chunks: seq<string>): seq<string> {
    if chunks == [] then []
    else LinesTaken(chunks[..|chunks| - 1]) + Lines(BufferAfter(chunks[..|chunks| - 1]) + chunks[|chunks| - 1])
  }

  /** Reading in pieces takes the lines of the whole and leaves its leftover. */
  lemma {:induction false} ReadsAreOneRead(chunks: seq<string>)
    ensures LinesTaken(chunks) == Lines(Concat(chunks)) && BufferAfter(chunks) == Leftover(Concat(chunks))
    decreases |chunks|
  {
    hide Lines, Leftover;
    if chunks == [] {
      NoLine("");
    } else {
      var front, last := chunks[..|chunks| - 1], chunks[|chunks| - 1];
      ReadsAreOneRead(front);
      LinesContinue(Concat(front), last);
    }
  }

  /** Two divisions of the same bytes take the same lines in the same order and leave the same buffer. */
  lemma DivisionIrrelevant(chunks: seq<string>, chunks': seq<string>)
    requires Concat(chunks) == Concat(chunks')
    ensures LinesTaken(chunks) == LinesTaken(chunks') && BufferAfter(chunks) == BufferAfter(chunks')
  {
    hide Lines, Leftover, Concat, LinesTaken, BufferAfter;
    ReadsAreOneRead(chunks);
    ReadsAreOneRead(chunks');
  }
}
