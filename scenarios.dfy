/** The behaviour the engine's tests pin down, stated on concrete inputs. Colours stay parameters:
    the concrete escape sequences are not part of the model. Input strings are written as
    concatenations of the words a proof looks at ("one" + " for all") only to spare the verifier
    from taking a long literal apart byte by byte. */
module Scenarios {
  import opened Text
  import opened Colours
  import opened Finders
  import opened Highlight
  import opened Stream
  import opened Composer
  import opened Engine

  /** A source of two terminated lines outputs the two lines in order. */
  lemma TwoLines(cfg: Config, s: Source, l1: seq<byte>, l2: seq<byte>)
    requires NL !in l1 && NL !in l2 && s.data == l1 + [NL] + (l2 + [NL])
    ensures Output(cfg, [s]) == Emit(cfg, s.name, l1) + Emit(cfg, s.name, l2)
    ensures FirstOut(cfg, [s]) ==
      if Emit(cfg, s.name, l1) != [] then Emit(cfg, s.name, l1) else Emit(cfg, s.name, l2)
  {
    var e1, e2 := Emit(cfg, s.name, l1), Emit(cfg, s.name, l2);
    SplitAtNewline(l1, l2 + [NL]);
    assert FirstLine(s.data) == l1;
    LineStep(cfg, [s]);
    var a, s' := Advance([s]), s.(data := l2 + [NL]);
    assert a == [s'] + [];
    OneLine(cfg, s', l2, []);
    OneLineFirst(cfg, s', l2, []);
    assert FirstOut(cfg, []) == [];
    assert Output(cfg, [s]) == e1 + Output(cfg, a);
    assert Output(cfg, a) == e2 + Output(cfg, []);
    assert Output(cfg, []) == [];
    assert e2 + [] == e2;
  }

  /** The line of the one-stream scenario, with an exact finder on "three": the line is kept and only
      that word is coloured. */
  lemma OneStreamLine(c: Colour, fs: seq<Finder>, line: seq<byte>)
    requires fs == [Exact("three", c)] && line == "one two " + "three" + " four"
    ensures NL !in line && Matched(fs, line)
    ensures RenderLine(fs, line) == "one " + "two " + Colourise("three", c) + " four"
  {
    var t := fs[0].text;
    Absent(line, t, 0, 8);
    Absent(line, t, 13, 18);
    FirstAtIs(fs, line, 8, 0, 0);
    RenderOneMatch(fs, line, 0, 8, 13);
    MatchedAt(fs, line, 0, 8);
    NoNewline(line);
  }

  lemma NoNewline(line: seq<byte>)
    requires line == "one two " + "three" + " four"
    ensures NL !in line
  {
    assert forall p :: 0 <= p < |line| ==> line[p] != NL;
  }

  /** An unnamed source of one line that a finder matches outputs the rendered line and a newline. */
  lemma KeptLine(cfg: Config, s: Source, line: seq<byte>)
    requires s.name == None && NL !in line && line != [] && s.data == line && Matched(cfg.finders, line)
    ensures Output(cfg, [s]) == RenderLine(cfg.finders, line) + [NL]
    ensures FirstOut(cfg, [s]) == Output(cfg, [s])
  {
    OneLine(cfg, s, line, []);
    OneLineFirst(cfg, s, line, []);
    assert [s] + [] == [s];
    KeptEmit(cfg, line);
  }

  /** A kept line of an unnamed source is the rendered line and a newline. */
  lemma KeptEmit(cfg: Config, line: seq<byte>)
    requires Matched(cfg.finders, line)
    ensures Emit(cfg, None, line) == RenderLine(cfg.finders, line) + [NL]
  {
  }

  /** The one-stream input outputs its single line, coloured, with a newline added at the end. */
  lemma OneStreamOutput(cfg: Config, src: Source, c: Colour)
    requires cfg == Config([Exact("three", c)], false, false)
    requires src == Source(None, "one two " + "three" + " four", None)
    ensures Output(cfg, [src]) == "one " + "two " + Colourise("three", c) + (" four" + [NL])
    ensures FirstOut(cfg, [src]) == Output(cfg, [src])
  {
    OneStreamLine(c, cfg.finders, src.data);
    KeptLine(cfg, src, src.data);
  }

  /** A read of size bytes into a fresh buffer: the bytes read come from the front of what remains,
      up to the end of the line the engine holds. */
  method ReadInto(b: Blush, size: nat) returns (chunk: seq<byte>, n: nat, err: Option<Error>)
    requires b.Valid() && b.reader != null && !b.closed
    modifies b, b.reader
    ensures b.Valid() && !b.closed
    ensures n == Min(size, |old(b.Front())|) && chunk == old(b.Front())[..n]
    ensures b.pending == old(b.Front())[n..]
    ensures b.Remaining() == old(b.Remaining())[n..]
    ensures err.Some? <==> old(b.Remaining()) == []
    ensures err.Some? ==> err == Some(EOF)
    ensures old(b.Front()) == old(b.Remaining()) ==> b.Front() == b.Remaining()
    ensures b.reader.closed == old(b.reader.closed) && b.reader.closeLog == old(b.reader.closeLog)
  {
    var p := new byte[size];
    n, err := b.Read(p);
    chunk := p[..n];
  }

  /** A read into a zeroed buffer of size bytes once everything has been delivered: it reports EOF,
      returns nothing and leaves the buffer as it was. */
  method ReadAtEnd(b: Blush, size: nat) returns (n: nat, err: Option<Error>, buf: seq<byte>)
    requires b.Valid() && b.reader != null && !b.closed && b.Remaining() == []
    modifies b, b.reader
    ensures n == 0 && err == Some(EOF) && buf == seq(size, _ => '\0')
  {
    var p := new byte[size](_ => '\0');
    assert p[..] == seq(size, _ => '\0');
    n, err := b.Read(p);
    buf := p[..];
  }

  /** Writing an open engine out to a writer that takes everything: all that is left comes out,
      with no error. */
  method WriteAll(b: Blush) returns (n: nat, err: Option<Error>, got: seq<byte>)
    requires b.Valid() && b.reader != null && !b.closed
    modifies b, b.reader
    ensures err == None && got == old(b.Remaining()) && n == |got|
  {
    var w := new Sink(None);
    n, err := b.WriteTo(w);
    got := w.received;
    assert got == old(b.Remaining())[..n];
  }

  /** A concatenation taken apart from its front: a, then b, then x, leaving d. */
  lemma Pieces(a: seq<byte>, b: seq<byte>, x: seq<byte>, d: seq<byte>)
    ensures (a + b + x + d)[..|a|] == a && (a + b + x + d)[|a|..] == b + x + d
    ensures (b + x + d)[..|b|] == b && (b + x + d)[|b|..] == x + d
    ensures (x + d)[..|x|] == x && (x + d)[|x|..] == d
  {
    assert a + b + x + d == a + (b + x + d);
    assert b + x + d == b + (x + d);
  }

  /** An engine over the one-stream input, with its whole output ahead. */
  method OpenOneStream(c: Colour) returns (b: Blush)
    ensures fresh(b) && fresh(b.reader) && b.Valid() && b.reader != null && !b.closed
    ensures b.Remaining() == "one " + "two " + Colourise("three", c) + (" four" + [NL])
    ensures b.Front() == b.Remaining()
  {
    var src := Source(None, "one two " + "three" + " four", None);
    var r := new MultiReader([src]);
    b := new Blush(r, [Exact("three", c)], false, false);
    OneStreamOutput(b.Cfg(), src, c);
  }

  /** Reading the one-stream input in pieces: "one ", "two ", the coloured "three", then " four" and
      the newline added at the end of the reader; the read after that reports EOF and leaves its
      zeroed 10-byte buffer as it was. got holds each read's bytes, and last the fifth buffer. */
  method ReadOneStream(c: Colour) returns (got: seq<seq<byte>>, ns: seq<nat>, errs: seq<Option<Error>>, last: seq<byte>)
    ensures got == ["one ", "two ", Colourise("three", c), " four" + [NL], []]
    ensures last == seq(10, _ => '\0')
    ensures ns == [4, 4, |Colourise("three", c)|, 6, 0]
    ensures errs == [None, None, None, None, Some(EOF)]
  {
    var b := OpenOneStream(c);
    var w := Colourise("three", c);
    var m := |w|;
    ghost var tail := " four" + [NL];
    Pieces("one ", "two ", w, tail);
    assert tail[..6] == tail;
    var g1, n1, e1 := ReadInto(b, 4);
    assert b.Remaining() == "two " + w + tail;
    var g2, n2, e2 := ReadInto(b, 4);
    assert b.Remaining() == w + tail;
    var g3, n3, e3 := ReadInto(b, m);
    assert b.Remaining() == tail;
    var g4, n4, e4 := ReadInto(b, 6);
    var n5, e5;
    n5, e5, last := ReadAtEnd(b, 10);
    got := [g1, g2, g3, g4, []];
    ns := [n1, n2, n3, n4, n5];
    errs := [e1, e2, e3, e4, e5];
  }

  /** The two lines of the two-stream input hold no newline. */
  lemma TwoStreamsText(l1: seq<byte>, l2: seq<byte>)
    requires l1 == "one" + " for all" && l2 == "all for " + "one"
    ensures NL !in l1 && NL !in l2
  {
    assert forall p :: 0 <= p < |l1| ==> l1[p] != NL;
    assert forall p :: 0 <= p < |l2| ==> l2[p] != NL;
  }

  /** "one for all": the finder on "one" colours the first word and nothing else. */
  lemma OneForAll(c: Colour, fs: seq<Finder>, line: seq<byte>)
    requires fs == [Exact("one", c)] && line == "one" + " for all"
    ensures Matched(fs, line) && RenderLine(fs, line) == Colourise("one", c) + " for all"
  {
    Absent(line, fs[0].text, 3, 11);
    FirstAtIs(fs, line, 0, 0, 0);
    RenderOneMatch(fs, line, 0, 0, 3);
    MatchedAt(fs, line, 0, 0);
  }

  /** "all for one": the finder on "one" colours the last word and nothing else. */
  lemma AllForOne(c: Colour, fs: seq<Finder>, line: seq<byte>)
    requires fs == [Exact("one", c)] && line == "all for " + "one"
    ensures Matched(fs, line) && RenderLine(fs, line) == "all for " + Colourise("one", c)
  {
    Absent(line, fs[0].text, 0, 8);
    FirstAtIs(fs, line, 8, 0, 0);
    RenderOneMatch(fs, line, 0, 8, 11);
    MatchedAt(fs, line, 0, 8);
  }

  /** The two-stream input (one reader over "one for all\n" then "all for one\n") outputs both lines,
      each with its "one" coloured. */
  lemma TwoStreamsOutput(cfg: Config, src: Source, c: Colour)
    requires cfg == Config([Exact("one", c)], false, false)
    requires src == Source(None, TwoStreamsInput, None)
    ensures Output(cfg, [src]) ==
      Colourise("one", c) + " for all" + [NL] + ("all for " + Colourise("one", c) + [NL])
    ensures FirstOut(cfg, [src]) == Colourise("one", c) + " for all" + [NL]
  {
    var l1, l2 := "one" + " for all", "all for " + "one";
    TwoStreamsText(l1, l2);
    OneForAll(c, cfg.finders, l1);
    AllForOne(c, cfg.finders, l2);
    TwoLines(cfg, src, l1, l2);
    KeptEmit(cfg, l1);
    KeptEmit(cfg, l2);
  }

  /** The first expected line of the two-stream test: the input line with its first "one" replaced
      by the coloured word. */
  lemma ReplaceOneForAll(c: Colour, b1: seq<byte>)
    requires b1 == "one for all\n"
    ensures Replace(b1, "one", Colourise("one", c), 1, 0) == Colourise("one", c) + " for all" + [NL]
  {
    assert b1 == "one" + " for all" + [NL];
    ReplaceFirst(b1, "one", Colourise("one", c), 0, 0);
    assert b1[3..] == " for all" + [NL];
  }

  /** The second expected line of the two-stream test. */
  lemma ReplaceAllForOne(c: Colour, b2: seq<byte>)
    requires b2 == "all for one\n"
    ensures Replace(b2, "one", Colourise("one", c), 1, 0) == "all for " + Colourise("one", c) + [NL]
  {
    assert b2 == "all for " + "one" + [NL];
    Absent(b2, "one", 0, 8);
    ReplaceFirst(b2, "one", Colourise("one", c), 0, 8);
    assert b2[..8] == "all for " && b2[11..] == [NL];
  }

  /** The two-stream input: two lines, each holding "one". */
  const TwoStreamsInput: seq<byte> := "one" + " for all" + [NL] + ("all for " + "one" + [NL])

  /** A reader of one source that closes cleanly reports no close error. */
  lemma OneSourceCloses(src: Source)
    requires src.closeError == None
    ensures FirstCloseError([src]) == None
  {
    assert [src][1..] == [];
  }

  /** An engine over the two-stream input, with its whole output ahead and the first line in front. */
  method OpenTwoStreams(c: Colour) returns (b: Blush)
    ensures fresh(b) && fresh(b.reader) && b.Valid() && b.reader != null && !b.closed
    ensures b.Remaining() == Colourise("one", c) + " for all" + [NL] + ("all for " + Colourise("one", c) + [NL])
    ensures b.Front() == Colourise("one", c) + " for all" + [NL]
    ensures !b.reader.closed && FirstCloseError(b.reader.all) == None
  {
    var src := Source(None, TwoStreamsInput, None);
    var r := new MultiReader([src]);
    b := new Blush(r, [Exact("one", c)], false, false);
    TwoStreamsOutput(b.Cfg(), src, c);
    OneSourceCloses(src);
  }

  /** Reading the two-stream input to its end gives each line with its "one" coloured, and the byte
      count grows by the colour's markers for each of the two matches. */
  method ReadTwoStreams(c: Colour) returns (n: nat, err: Option<Error>, got: seq<byte>)
    ensures err == None
    ensures got == Replace("one for all\n", "one", Colourise("one", c), 1, 0) +
                   Replace("all for one\n", "one", Colourise("one", c), 1, 0)
    ensures n == |got| == 12 + 12 - 2 * 3 + 2 * |Colourise("one", c)|
  {
    var b := OpenTwoStreams(c);
    var w := new Sink(None);
    n, err := b.WriteTo(w);
    got := w.received;
    ReplaceOneForAll(c, "one for all\n");
    ReplaceAllForOne(c, "all for one\n");
  }

  /** The first n bytes of a prefix are the first n bytes of the whole. */
  lemma PrefixSlice(front: seq<byte>, all: seq<byte>, n: nat)
    requires front <= all && n <= |front|
    ensures front[..n] == all[..n]
  {
  }

  /** Taking i bytes and then n more is taking i + n bytes. */
  lemma SliceJoin(s: seq<byte>, i: nat, n: nat)
    requires i + n <= |s|
    ensures s[..i + n] == s[..i] + s[i..][..n]
  {
  }

  /** Two reads of size bytes when the line in front holds at least that many: the first takes
      size bytes of that line, the second goes on from there, up to the end of the line when some
      of it is left. */
  method ReadTwice(b: Blush, size: nat) returns (n1: nat, e1: Option<Error>, n2: nat, e2: Option<Error>, got: seq<byte>)
    requires b.Valid() && b.reader != null && !b.closed && 0 < size <= |b.Front()|
    modifies b, b.reader
    ensures n1 == size && e1 == None && n2 <= size && n1 + n2 <= |old(b.Remaining())|
    ensures got == old(b.Remaining())[..n1 + n2]
    ensures |old(b.Remaining())| > size ==> e2 == None && 0 < n2
    ensures |old(b.Front())| > size ==> n2 == Min(size, |old(b.Front())| - size)
  {
    ghost var out := b.Remaining();
    var g1, g2;
    g1, n1, e1 := ReadInto(b, size);
    PrefixSlice(old(b.Front()), out, size);
    ghost var front := b.Front();
    g2, n2, e2 := ReadInto(b, size);
    PrefixSlice(front, out[size..], n2);
    SliceJoin(out, size, n2);
    got := g1 + g2;
  }

  /** Two reads of 12 bytes, the length of an input line, on the two-stream input: the first takes
      the first 12 output bytes and the second goes on from there. With visible markers the second
      ends where the first output line ends, so it returns the markers' length, or 12 bytes when
      the markers are longer. */
  method ReadHalfWay(c: Colour) returns (n1: nat, e1: Option<Error>, n2: nat, e2: Option<Error>, got: seq<byte>)
    ensures e1 == None && e2 == None && n1 == 12 && 0 < n2 <= 12
    ensures got == (Colourise("one", c) + " for all" + [NL] + ("all for " + Colourise("one", c) + [NL]))[..12 + n2]
    ensures c.Overhead() > 0 ==> n2 == Min(12, c.Overhead())
  {
    var b := OpenTwoStreams(c);
    StripColourise("one", c);
    n1, e1, n2, e2, got := ReadTwice(b, 12);
  }

  /** A read, then Close, on the two-stream input: Close succeeds, and a read after it reports
      ErrClosed and returns nothing. */
  method ReadOnClosed(c: Colour) returns (e1: Option<Error>, closeErr: Option<Error>, n: nat, e2: Option<Error>)
    ensures e1 == None && closeErr == None && n == 0 && e2 == Some(ErrClosed)
  {
    var b := OpenTwoStreams(c);
    var g, n1;
    g, n1, e1 := ReadInto(b, 12);
    closeErr := b.Close();
    var p := new byte[12];
    n, e2 := b.Read(p);
  }

  /** s occurs in a + s + b right after a. */
  lemma OccursBetween(a: seq<byte>, s: seq<byte>, b: seq<byte>)
    ensures OccursAt(a + s + b, s, |a|)
  {
    assert (a + s + b)[|a|..|a| + |s|] == s;
  }

  /** The long line of 10000 bytes, " FINDME " and 10000 more bytes, with no newline in it, is kept. */
  lemma LongLineOutput(cfg: Config, src: Source, c: Colour, head: seq<byte>, tail: seq<byte>)
    requires NL !in head && NL !in tail
    requires cfg == Config([Exact("FINDME", c)], false, false)
    requires src == Source(None, (head + " ") + "FINDME" + (" " + tail), None)
    ensures FirstOut(cfg, [src]) == Output(cfg, [src])
    ensures |Output(cfg, [src])| > |src.data|
  {
    var line := src.data;
    OccursBetween(head + " ", "FINDME", " " + tail);
    MatchedAt(cfg.finders, line, 0, |head| + 1);
    assert NL !in "FINDME" + (" " + tail) by {
      assert forall p :: 0 <= p < 7 ==> ("FINDME" + (" " + tail))[p] != NL;
    }
    KeptLine(cfg, src, line);
    RenderLength(cfg.finders, line);
  }

  /** An engine over the long line, with the whole line in front and a reader that closes cleanly. */
  method OpenLongLine(c: Colour, head: seq<byte>, tail: seq<byte>) returns (b: Blush)
    requires |head| == 10000 && |tail| == 10000 && NL !in head && NL !in tail
    ensures fresh(b) && fresh(b.reader) && b.Valid() && b.reader != null && !b.closed
    ensures b.Front() == b.Remaining() && |b.Remaining()| > 20008
    ensures !b.reader.closed && FirstCloseError(b.reader.all) == None
  {
    var src := Source(None, (head + " ") + "FINDME" + (" " + tail), None);
    var r := new MultiReader([src]);
    b := new Blush(r, [Exact("FINDME", c)], false, false);
    LongLineOutput(b.Cfg(), src, c, head, tail);
    OneSourceCloses(src);
  }

  /** A 20-byte read of the first part of a 20008-byte line that a finder matches succeeds; after
      Close, a read reports ErrClosed and returns nothing. */
  method ReadLongLine(c: Colour, head: seq<byte>, tail: seq<byte>)
    returns (n1: nat, e1: Option<Error>, closeErr: Option<Error>, n2: nat, e2: Option<Error>)
    requires |head| == 10000 && |tail| == 10000 && NL !in head && NL !in tail
    ensures n1 == 20 && e1 == None && closeErr == None && n2 == 0 && e2 == Some(ErrClosed)
  {
    var b := OpenLongLine(c, head, tail);
    var g;
    g, n1, e1 := ReadInto(b, 20);
    closeErr := b.Close();
    var p := new byte[20];
    n2, e2 := b.Read(p);
  }

  /** Close closes the underlying reader, whatever it holds, and so its one source, once; it reports
      success. */
  method CloseClosesReader(data: seq<byte>) returns (err: Option<Error>, closed: bool, log: seq<nat>)
    ensures err == None && closed && log == [0]
  {
    var src := Source(None, data, None);
    var r := new MultiReader([src]);
    var b := new Blush(r, [], false, false);
    OneSourceCloses(src);
    err := b.Close();
    closed, log := r.closed, r.closeLog;
  }

  /** WriteTo's errors: no reader (the writer gets nothing), no writer, and a writer that fails
      after taking 10 bytes. The last two engines share one reader: the failed call read nothing,
      so in pass-through mode the failing writer still gets all of "something" and a newline. */
  method WriteToErrors() returns (n1: nat, e1: Option<Error>, kept: seq<byte>, n2: nat, e2: Option<Error>, n3: nat, e3: Option<Error>)
    ensures n1 == 0 && e1 == Some(ErrNoReader) && kept == []
    ensures n2 == 0 && e2 == Some(ErrNoWriter)
    ensures n3 == 10 && e3 == Some(WriteFailed)
  {
    var w := new Sink(None);
    var b1 := new Blush(null, [], false, false);
    n1, e1 := b1.WriteTo(w);
    kept := w.received;
    var src := Source(None, "something", None);
    var r := new MultiReader([src]);
    var b2 := new Blush(r, [], false, false);
    n2, e2 := b2.WriteTo(null);
    var b3 := new Blush(r, [], true, false);
    SomethingOutput(b3.Cfg(), src);
    var bad := new Sink(Some(10));
    n3, e3 := b3.WriteTo(bad);
  }

  /** In pass-through mode, with no finders, "something" outputs its bytes and a newline. */
  lemma SomethingOutput(cfg: Config, src: Source)
    requires cfg == Config([], true, false) && src == Source(None, "something", None)
    ensures |Output(cfg, [src])| == 10
  {
    PassThrough(cfg, [src]);
    assert Concat([src]) == Terminated(src.data) + Concat([]);
  }

  /** The lines of the multiple-match input hold no newline. */
  lemma MultipleText(l1: seq<byte>, l2: seq<byte>)
    requires l1 == "this" + " is an example"
    requires l2 == "someone " + "should" + " find " + "this" + " line"
    ensures NL !in l1 && NL !in l2
  {
    assert forall p :: 0 <= p < |l1| ==> l1[p] != NL;
    assert forall p :: 0 <= p < |l2| ==> l2[p] != NL;
  }

  /** "this is an example": of the finders on "this" and "should", only the first word matches. */
  lemma ExampleLine(m: Colour, r: Colour, fs: seq<Finder>, line: seq<byte>)
    requires fs == [Exact("this", m), Exact("should", r)] && line == "this" + " is an example"
    ensures Matched(fs, line) && RenderLine(fs, line) == Colourise("this", m) + " is an example"
  {
    Absent(line, "this", 4, 18);
    Absent(line, "should", 4, 18);
    FirstAtIs(fs, line, 0, 0, 0);
    RenderOneMatch(fs, line, 0, 0, 4);
    MatchedAt(fs, line, 0, 0);
  }

  /** Where the finders' texts start in "someone should find this line": "should" at 8, "this" at
      20, and nowhere else. */
  lemma SomeoneQuiet(m: Colour, r: Colour, fs: seq<Finder>, line: seq<byte>)
    requires fs == [Exact("this", m), Exact("should", r)]
    requires line == "someone " + "should" + " find " + "this" + " line"
    ensures Quiet(fs, line, 0, 8) && Quiet(fs, line, 14, 20) && Quiet(fs, line, 24, 29)
    ensures !OccursAt(line, "this", 8) && OccursAt(line, "should", 8) && OccursAt(line, "this", 20)
  {
    SomeoneThis(line);
    SomeoneShould(line);
  }

  /** "this" occurs in "someone should find this line" at 20 and nowhere else. */
  lemma SomeoneThis(line: seq<byte>)
    requires line == "someone " + "should" + " find " + "this" + " line"
    ensures forall p :: 0 <= p < 20 || 24 <= p < 29 ==> !OccursAt(line, "this", p)
    ensures OccursAt(line, "this", 20)
  {
    Absent(line, "this", 0, 20);
    Absent(line, "this", 24, 29);
    assert line[20..24] == "this";
  }

  /** "should" occurs in "someone should find this line" at 8 and nowhere else. */
  lemma SomeoneShould(line: seq<byte>)
    requires line == "someone " + "should" + " find " + "this" + " line"
    ensures forall p :: 0 <= p < 8 || 14 <= p < 29 ==> !OccursAt(line, "should", p)
    ensures OccursAt(line, "should", 8)
  {
    Absent(line, "should", 0, 8);
    Absent(line, "should", 14, 29);
    assert line[8..14] == "should";
  }

  /** The plain stretches of "someone should find this line". */
  lemma SomeoneSlices(line: seq<byte>)
    requires line == "someone " + "should" + " find " + "this" + " line"
    ensures |line| == 29 && line[..8] == "someone " && line[14..20] == " find " && line[24..] == " line"
  {
  }

  /** "someone should find this line": both finders match, each word in its own finder's colour,
      though the finder on "should" comes second. */
  lemma SomeoneLine(m: Colour, r: Colour, fs: seq<Finder>, line: seq<byte>)
    requires fs == [Exact("this", m), Exact("should", r)]
    requires line == "someone " + "should" + " find " + "this" + " line"
    ensures Matched(fs, line)
    ensures RenderLine(fs, line) ==
      "someone " + (Colourise("should", r) + (" find " + (Colourise("this", m) + " line")))
  {
    SomeoneQuiet(m, r, fs, line);
    FirstAtIs(fs, line, 8, 1, 0);
    FirstAtIs(fs, line, 20, 0, 0);
    RenderTwoMatches(fs, line, 1, 8, 14, 0, 20, 24);
    MatchedAt(fs, line, 0, 20);
    SomeoneSlices(line);
  }

  /** The multiple-match input (one reader over "this is an example\n" then "someone should find
      this line\n") outputs both lines, coloured. */
  lemma MultipleOutput(cfg: Config, src: Source, m: Colour, r: Colour)
    requires cfg == Config([Exact("this", m), Exact("should", r)], false, false)
    requires src == Source(None, MultipleInput, None)
    ensures Output(cfg, [src]) == Colourise("this", m) + " is an example" + [NL] +
      ("someone " + (Colourise("should", r) + (" find " + (Colourise("this", m) + " line"))) + [NL])
  {
    var l1, l2 := "this" + " is an example", "someone " + "should" + " find " + "this" + " line";
    MultipleText(l1, l2);
    ExampleLine(m, r, cfg.finders, l1);
    SomeoneLine(m, r, cfg.finders, l2);
    TwoLines(cfg, src, l1, l2);
    KeptEmit(cfg, l1);
    KeptEmit(cfg, l2);
  }

  /** The multiple-match input: one reader over "this is an example\n" then "someone should find
      this line\n". */
  const MultipleInput: seq<byte> := "this" + " is an example" + [NL] + ("someone " + "should" + " find " + "this" + " line" + [NL])

  /** Writing out the multiple-match input: the second line comes out with "should" and "this" each
      in its own finder's colour. */
  method MultipleMatchInOneLine(m: Colour, r: Colour) returns (n: nat, err: Option<Error>, got: seq<byte>)
    ensures err == None && n == |got|
    ensures got == Colourise("this", m) + " is an example" + [NL] +
      ("someone " + (Colourise("should", r) + (" find " + (Colourise("this", m) + " line"))) + [NL])
  {
    var src := Source(None, MultipleInput, None);
    var rd := new MultiReader([src]);
    var b := new Blush(rd, [Exact("this", m), Exact("should", r)], false, false);
    MultipleOutput(b.Cfg(), src, m, r);
    n, err, got := WriteAll(b);
  }

  /** A source of a matched line then a line no finder matches: in pass-through mode the second
      line comes out once, as it is; otherwise it is dropped. */
  lemma CutOrKeep(cfg: Config, s: Source, hit: seq<byte>, quiet: seq<byte>)
    requires s.name == None && NL !in hit && NL !in quiet && s.data == hit + [NL] + (quiet + [NL])
    requires Matched(cfg.finders, hit) && !Matched(cfg.finders, quiet)
    ensures cfg.noCut ==> Output(cfg, [s]) == RenderLine(cfg.finders, hit) + [NL] + (quiet + [NL])
    ensures !cfg.noCut ==> Output(cfg, [s]) == RenderLine(cfg.finders, hit) + [NL]
  {
    var e1, e2 := Emit(cfg, None, hit), Emit(cfg, None, quiet);
    TwoLines(cfg, s, hit, quiet);
    KeptEmit(cfg, hit);
    QuietEmit(cfg, quiet);
    assert Output(cfg, [s]) == e1 + e2;
  }

  /** An unmatched line of an unnamed source: itself and a newline in pass-through mode, else
      nothing. */
  lemma QuietEmit(cfg: Config, quiet: seq<byte>)
    requires !Matched(cfg.finders, quiet)
    ensures cfg.noCut ==> Emit(cfg, None, quiet) == quiet + [NL]
    ensures !cfg.noCut ==> Emit(cfg, None, quiet) == []
  {
    if cfg.noCut {
      PassUnmatched(cfg, None, quiet);
    }
  }

  /** Writing out a matched line and an unmatched one, with and without pass-through mode. */
  method WriteNoCut(fs: seq<Finder>, hit: seq<byte>, quiet: seq<byte>, noCut: bool)
    returns (n: nat, err: Option<Error>, got: seq<byte>)
    requires NL !in hit && NL !in quiet && Matched(fs, hit) && !Matched(fs, quiet)
    ensures err == None && n == |got|
    ensures noCut ==> got == RenderLine(fs, hit) + [NL] + (quiet + [NL])
    ensures !noCut ==> got == RenderLine(fs, hit) + [NL]
  {
    var src := Source(None, hit + [NL] + (quiet + [NL]), None);
    var rd := new MultiReader([src]);
    var b := new Blush(rd, fs, noCut, false);
    CutOrKeep(b.Cfg(), src, hit, quiet);
    n, err, got := WriteAll(b);
  }

  /** A kept line of a named source, with names printed and no visible colour: the name, the
      separator, then the line as it is. */
  lemma NamedEmit(cfg: Config, name: seq<byte>, line: seq<byte>)
    requires cfg.withFileName && Uncoloured(cfg.finders) && Matched(cfg.finders, line)
    ensures Emit(cfg, Some(name), line) == name + Separator + line + [NL]
  {
    RenderUncoloured(cfg.finders, line);
  }

  /** A kept line of a source, with names not printed and no visible colour: the line as it is. */
  lemma PlainEmit(cfg: Config, name: Option<seq<byte>>, line: seq<byte>)
    requires !cfg.withFileName && Uncoloured(cfg.finders) && Matched(cfg.finders, line)
    ensures Emit(cfg, name, line) == line + [NL]
  {
    RenderUncoloured(cfg.finders, line);
  }

  /** "line one" and "line two" hold no newline, and the uncoloured finder on "line" matches both. */
  lemma PrintNameLines(cfg: Config, l1: seq<byte>, l2: seq<byte>)
    requires cfg.finders == [Exact("line", NoColour)] && l1 == "line" + " one" && l2 == "line" + " two"
    ensures NL !in l1 && NL !in l2 && Matched(cfg.finders, l1) && Matched(cfg.finders, l2)
    ensures Uncoloured(cfg.finders)
  {
    assert forall p :: 0 <= p < |l1| ==> l1[p] != NL;
    assert forall p :: 0 <= p < |l2| ==> l2[p] != NL;
    OccursBetween([], "line", " one");
    OccursBetween([], "line", " two");
    MatchedAt(cfg.finders, l1, 0, 0);
    MatchedAt(cfg.finders, l2, 0, 0);
  }

  /** Two sources of one line each output their two lines in order. */
  lemma TwoSources(cfg: Config, s1: Source, s2: Source, l1: seq<byte>, l2: seq<byte>)
    requires NL !in l1 && NL !in l2 && s1.data == l1 + [NL] && s2.data == l2 + [NL]
    ensures Output(cfg, [s1, s2]) == Emit(cfg, s1.name, l1) + Emit(cfg, s2.name, l2)
  {
    var e1, e2 := Emit(cfg, s1.name, l1), Emit(cfg, s2.name, l2);
    var one, both := [s2], [s1, s2];
    assert one == [s2] + [] && both == [s1] + one;
    OneLine(cfg, s2, l2, []);
    assert Output(cfg, one) == e2 + [];
    OneLine(cfg, s1, l1, one);
  }

  /** The two named sources "reader1" and "reader2", holding "line one\n" and "line two\n", with an
      uncoloured finder on "line": each line comes out after its source's name when names are
      printed, and as it is otherwise. */
  lemma PrintNameOutput(cfg: Config, s1: Source, s2: Source)
    requires cfg.finders == [Exact("line", NoColour)] && !cfg.noCut
    requires s1 == Source(Some("reader1"), "line" + " one" + [NL], None)
    requires s2 == Source(Some("reader2"), "line" + " two" + [NL], None)
    ensures cfg.withFileName ==>
      Output(cfg, [s1, s2]) == "reader1" + Separator + ("line" + " one") + [NL] + ("reader2" + Separator + ("line" + " two") + [NL])
    ensures !cfg.withFileName ==>
      Output(cfg, [s1, s2]) == "line" + " one" + [NL] + ("line" + " two" + [NL])
  {
    var l1, l2 := "line" + " one", "line" + " two";
    PrintNameLines(cfg, l1, l2);
    TwoSources(cfg, s1, s2, l1, l2);
    if cfg.withFileName {
      NamedEmit(cfg, "reader1", l1);
      NamedEmit(cfg, "reader2", l2);
    } else {
      PlainEmit(cfg, s1.name, l1);
      PlainEmit(cfg, s2.name, l2);
    }
  }

  /** The byte totals of the print-name test: with names printed, both lines, both names and a
      separator per line; without, the two lines alone. */
  lemma PrintNameTotals()
    ensures |"reader1" + Separator + ("line" + " one") + [NL] + ("reader2" + Separator + ("line" + " two") + [NL])|
      == |"line one\n" + "line two\n" + "reader1" + "reader2"| + 2 * |Separator|
    ensures |"line" + " one" + [NL] + ("line" + " two" + [NL])| == |"line one\n" + "line two\n"|
    ensures "line" + " one" + [NL] == "line one\n" && "line" + " two" + [NL] == "line two\n"
  {
  }

  /** Writing out the two named sources: with names printed each line follows its source's name and
      the separator; without, the lines come out as they are. */
  method PrintName(withFileName: bool) returns (n: nat, err: Option<Error>, got: seq<byte>)
    ensures err == None && n == |got|
    ensures withFileName ==>
      got == "reader1" + Separator + ("line" + " one") + [NL] + ("reader2" + Separator + ("line" + " two") + [NL])
    ensures !withFileName ==> got == "line" + " one" + [NL] + ("line" + " two" + [NL])
    ensures withFileName ==> n == |"line one\n" + "line two\n" + "reader1" + "reader2"| + 2 * |Separator|
    ensures !withFileName ==> n == |"line one\n" + "line two\n"|
  {
    var s1 := Source(Some("reader1"), "line" + " one" + [NL], None);
    var s2 := Source(Some("reader2"), "line" + " two" + [NL], None);
    var rd := new MultiReader([s1, s2]);
    var b := new Blush(rd, [Exact("line", NoColour)], false, withFileName);
    PrintNameOutput(b.Cfg(), s1, s2);
    n, err, got := WriteAll(b);
    PrintNameTotals();
  }
}
