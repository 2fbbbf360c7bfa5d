/** Bytes, errors and the splitting of a source's bytes into lines. */
module Text {

  /** A byte. It is a character below 256 so that ASCII text can be written as a string literal. */
  type byte = c: char | c as int < 256

  /** The line terminator. */
  const NL: byte := '\n'

  datatype Option<+T> = None | Some(value: T)

  /** The error values the engine and its collaborators report. */
  datatype Error =
    | ErrNoReader          // the engine has no reader
    | ErrNoWriter          // WriteTo was given no writer
    | ErrClosed            // a read after Close
    | EOF                  // end of the stream
    | WriteFailed          // the sink refused a write
    | CloseFailed(id: nat) // closing an underlying source failed

  function Min(a: nat, b: nat): nat
  {
    if a <= b then a else b
  }

  /** Index of the first line terminator in d, or |d| when there is none. */
  function LineEnd(d: seq<byte>): (r: nat)
    ensures r <= |d|
    ensures NL !in d[..r]
    ensures r < |d| ==> d[r] == NL
  {
    if d == [] then 0
    else if d[0] == NL then 0
    else
      var r := 1 + LineEnd(d[1..]);
      assert d[..r] == [d[0]] + d[1..][..r - 1];
      r
  }

  /** The bytes of the first line, without its terminator. */
  function FirstLine(d: seq<byte>): seq<byte>
  {
    d[..LineEnd(d)]
  }

  /** What follows the first line and its terminator. */
  function AfterLine(d: seq<byte>): (r: seq<byte>)
    ensures d != [] ==> |r| < |d|
  {
    if LineEnd(d) < |d| then d[LineEnd(d) + 1..] else []
  }

  /** The lines of a source. An unterminated last line is a line too; an empty source has none. */
  function Lines(d: seq<byte>): (r: seq<seq<byte>>)
    ensures forall k :: 0 <= k < |r| ==> NL !in r[k]
    ensures |r| <= |d|
    decreases |d|
  {
    if d == [] then [] else [FirstLine(d)] + Lines(AfterLine(d))
  }

  /** Every line followed by a terminator. */
  function JoinLines(ls: seq<seq<byte>>): seq<byte>
  {
    if ls == [] then [] else ls[0] + [NL] + JoinLines(ls[1..])
  }

  /** The source as the engine sees it: a newline is added after an unterminated last line. The
      result starts with the source, is at most one byte longer, and ends in a newline unless the
      source is empty. */
  function Terminated(d: seq<byte>): (r: seq<byte>)
    ensures d <= r && |r| <= |d| + 1
    ensures r == [] <==> d == []
    ensures r != [] ==> r[|r| - 1] == NL
  {
    if d == [] || d[|d| - 1] == NL then d else d + [NL]
  }

  /** A line followed by its terminator splits back into that line and the rest. */
  lemma {:induction false} SplitAtNewline(line: seq<byte>, rest: seq<byte>)
    requires NL !in line
    ensures LineEnd(line + [NL] + rest) == |line|
    ensures FirstLine(line + [NL] + rest) == line
    ensures AfterLine(line + [NL] + rest) == rest
  {
    var d := line + [NL] + rest;
    if line != [] {
      assert d[1..] == line[1..] + [NL] + rest;
      SplitAtNewline(line[1..], rest);
    }
    assert d[..|line|] == line;
    assert d[|line| + 1..] == rest;
  }

  /** Bytes without a terminator form one line. */
  lemma {:induction false} SplitUnterminated(d: seq<byte>)
    requires NL !in d
    ensures LineEnd(d) == |d| && FirstLine(d) == d && AfterLine(d) == []
  {
    if d != [] {
      assert NL !in d[1..];
      SplitUnterminated(d[1..]);
    }
  }

  /** Bytes holding one line, terminated or not, split into exactly that line. */
  lemma SingleLine(d: seq<byte>, line: seq<byte>)
    requires NL !in line && (d == line + [NL] || (line != [] && d == line))
    ensures Lines(d) == [line]
  {
    if d == line + [NL] {
      SplitAtNewline(line, []);
      assert line + [NL] + [] == d;
    } else {
      SplitUnterminated(line);
    }
    assert Lines(d) == [line] + Lines([]);
  }

  /** Joining the lines gives the source back, with a newline added after an unterminated last line. */
  lemma {:induction false} JoinOfLines(d: seq<byte>)
    ensures JoinLines(Lines(d)) == Terminated(d)
    decreases |d|
  {
    if d != [] {
      JoinOfLines(AfterLine(d));
      JoinStep(d);
      TerminatedStep(d);
    }
  }

  /** The joined lines of a non-empty source start with its first line and a terminator. */
  lemma JoinStep(d: seq<byte>)
    requires d != []
    ensures JoinLines(Lines(d)) == FirstLine(d) + [NL] + JoinLines(Lines(AfterLine(d)))
  {
    var ls := Lines(d);
    assert ls[0] == FirstLine(d) && ls[1..] == Lines(AfterLine(d));
  }

  /** A non-empty source, terminated, is its first line, a terminator and the rest terminated. */
  lemma TerminatedStep(d: seq<byte>)
    requires d != []
    ensures Terminated(d) == FirstLine(d) + [NL] + Terminated(AfterLine(d))
  {
    var e := LineEnd(d);
    if e < |d| {
      TerminatedAfterNewline(d, e);
    } else {
      assert d[..e] == d;
      assert d[|d| - 1] != NL by { assert d[|d| - 1] in d[..e]; }
    }
  }

  /** A suffix from i is its stretch up to j and the suffix from j. */
  lemma SliceSplit(s: seq<byte>, i: nat, j: nat)
    requires i <= j <= |s|
    ensures s[i..] == s[i..j] + s[j..]
  {
  }

  lemma TerminatedAfterNewline(d: seq<byte>, e: nat)
    requires e < |d| && d[e] == NL
    ensures Terminated(d) == d[..e] + [NL] + Terminated(d[e + 1..])
  {
    var a := d[e + 1..];
    assert d == d[..e] + [NL] + a;
    if a != [] {
      assert d[|d| - 1] == a[|a| - 1];
    }
  }

  /** Splitting joined lines gives the lines back. */
  lemma {:induction false} LinesOfJoin(ls: seq<seq<byte>>)
    requires forall i :: 0 <= i < |ls| ==> NL !in ls[i]
    ensures Lines(JoinLines(ls)) == ls
  {
    if ls != [] {
      SplitAtNewline(ls[0], JoinLines(ls[1..]));
      LinesOfJoin(ls[1..]);
    }
  }
}
