/** What the engine produces from its sources, as a function of the sources and the configuration.
    The engine's Read and WriteTo are proved against these definitions. */
module Stream {
  import opened Text
  import opened Colours
  import opened Finders
  import opened Highlight

  /** Written between a source's name and each of its lines when names are printed. */
  const Separator: seq<byte> := ": "

  /** The engine's settings: Finders, NoCut and WithFileName. */
  datatype Config = Config(finders: seq<Finder>, noCut: bool, withFileName: bool)

  /** One underlying reader: an optional display name (a reader given without a name has none),
      its bytes, and what closing it reports. */
  datatype Source = Source(name: Option<seq<byte>>, data: seq<byte>, closeError: Option<Error>)

  /** The name header put in front of a line of the named source. */
  function Prefix(cfg: Config, name: Option<seq<byte>>): (r: seq<byte>)
    ensures r != [] ==> cfg.withFileName && name.Some?
    ensures cfg.withFileName && name.Some? ==> |r| == |name.value| + |Separator|
  {
    if cfg.withFileName && name.Some? then name.value + Separator else []
  }

  /** What one line of input turns into: nothing when it is cut, else its rendering and a newline. */
  function Emit(cfg: Config, name: Option<seq<byte>>, line: seq<byte>): (r: seq<byte>)
    ensures (r != []) == (cfg.noCut || Matched(cfg.finders, line))
    ensures r != [] ==> r[|r| - 1] == NL && |r| == |Prefix(cfg, name)| + |RenderLine(cfg.finders, line)| + 1
  {
    if cfg.noCut || Matched(cfg.finders, line) then Prefix(cfg, name) + RenderLine(cfg.finders, line) + [NL]
    else []
  }

  /** The output for a sequence of lines of one source. Every kept line ends in a newline, so the
      output does too. */
  function EmitLines(cfg: Config, name: Option<seq<byte>>, ls: seq<seq<byte>>): (r: seq<byte>)
    ensures r != [] ==> r[|r| - 1] == NL
  {
    if ls == [] then [] else Emit(cfg, name, ls[0]) + EmitLines(cfg, name, ls[1..])
  }

  /** The whole output for the sources, in order. It ends in a newline unless it is empty. */
  function Output(cfg: Config, srcs: seq<Source>): (r: seq<byte>)
    ensures r != [] ==> r[|r| - 1] == NL
  {
    if srcs == [] then [] else EmitLines(cfg, srcs[0].name, Lines(srcs[0].data)) + Output(cfg, srcs[1..])
  }

  /** The first line of output that is not cut, among lines ls. */
  function FirstOutLines(cfg: Config, name: Option<seq<byte>>, ls: seq<seq<byte>>): (r: seq<byte>)
    ensures r != [] ==> r[|r| - 1] == NL
  {
    if ls == [] then []
    else if Emit(cfg, name, ls[0]) != [] then Emit(cfg, name, ls[0])
    else FirstOutLines(cfg, name, ls[1..])
  }

  /** The first line of output that is not cut, among the sources: what one computation of the
      engine's carry-over buffer yields. It is one emitted line, so it ends in a newline unless it
      is empty. */
  function FirstOut(cfg: Config, srcs: seq<Source>): (r: seq<byte>)
    ensures r != [] ==> r[|r| - 1] == NL
  {
    if srcs == [] then []
    else if FirstOutLines(cfg, srcs[0].name, Lines(srcs[0].data)) != [] then
      FirstOutLines(cfg, srcs[0].name, Lines(srcs[0].data))
    else FirstOut(cfg, srcs[1..])
  }

  /** A measure of the input left: every byte and every source. */
  function Size(srcs: seq<Source>): nat
  {
    if srcs == [] then 0 else |srcs[0].data| + 1 + Size(srcs[1..])
  }

  /** Output is the concatenation of the sources' outputs. */
  lemma {:induction false} OutputAppend(cfg: Config, a: seq<Source>, b: seq<Source>)
    ensures Output(cfg, a + b) == Output(cfg, a) + Output(cfg, b)
  {
    if a != [] {
      assert (a + b)[0] == a[0] && (a + b)[1..] == a[1..] + b;
      OutputAppend(cfg, a[1..], b);
    } else {
      assert a + b == b;
    }
  }

  lemma OutputCons(cfg: Config, s: Source, rest: seq<Source>)
    ensures Output(cfg, [s] + rest) == EmitLines(cfg, s.name, Lines(s.data)) + Output(cfg, rest)
    ensures FirstOut(cfg, [s] + rest) ==
      if FirstOutLines(cfg, s.name, Lines(s.data)) != [] then FirstOutLines(cfg, s.name, Lines(s.data))
      else FirstOut(cfg, rest)
  {
    assert ([s] + rest)[0] == s && ([s] + rest)[1..] == rest;
  }

  /** A source whose bytes are used up contributes nothing. */
  lemma SkipEmpty(cfg: Config, srcs: seq<Source>)
    requires srcs != [] && srcs[0].data == []
    ensures Output(cfg, srcs) == Output(cfg, srcs[1..])
    ensures FirstOut(cfg, srcs) == FirstOut(cfg, srcs[1..])
  {
    var s, tail := srcs[0], srcs[1..];
    assert srcs == [s] + tail;
    assert Lines(s.data) == [];
    assert EmitLines(cfg, s.name, []) == [] && FirstOutLines(cfg, s.name, []) == [];
    OutputCons(cfg, s, tail);
  }

  /** The sources once the first line of the current source has been read. */
  function Advance(srcs: seq<Source>): seq<Source>
    requires srcs != []
  {
    [srcs[0].(data := AfterLine(srcs[0].data))] + srcs[1..]
  }

  /** Reading the first line of the current source: its output comes first, then the output of
      what is left. */
  lemma LineStep(cfg: Config, srcs: seq<Source>)
    requires srcs != [] && srcs[0].data != []
    ensures Output(cfg, srcs) == Emit(cfg, srcs[0].name, FirstLine(srcs[0].data)) + Output(cfg, Advance(srcs))
    ensures FirstOut(cfg, srcs) ==
      if Emit(cfg, srcs[0].name, FirstLine(srcs[0].data)) != [] then Emit(cfg, srcs[0].name, FirstLine(srcs[0].data))
      else FirstOut(cfg, Advance(srcs))
    ensures Size(Advance(srcs)) < Size(srcs)
  {
    var s, tail := srcs[0], srcs[1..];
    var s' := s.(data := AfterLine(s.data));
    assert Advance(srcs) == [s'] + tail;
    assert srcs == [s] + tail;
    var e := Emit(cfg, s.name, FirstLine(s.data));
    var later := EmitLines(cfg, s.name, Lines(AfterLine(s.data)));
    LinesStep(cfg, s.name, s.data);
    OutputCons(cfg, s, tail);
    OutputCons(cfg, s', tail);
    assert s'.name == s.name && s'.data == AfterLine(s.data);
    assert Output(cfg, [s'] + tail) == later + Output(cfg, tail);
    assert Output(cfg, srcs) == (e + later) + Output(cfg, tail);
    ConcatAssoc(e, later, Output(cfg, tail));
    SizeCons(s, tail);
    SizeCons(s', tail);
  }

  lemma LinesStep(cfg: Config, name: Option<seq<byte>>, d: seq<byte>)
    requires d != []
    ensures EmitLines(cfg, name, Lines(d)) == Emit(cfg, name, FirstLine(d)) + EmitLines(cfg, name, Lines(AfterLine(d)))
    ensures FirstOutLines(cfg, name, Lines(d)) ==
      if Emit(cfg, name, FirstLine(d)) != [] then Emit(cfg, name, FirstLine(d))
      else FirstOutLines(cfg, name, Lines(AfterLine(d)))
  {
    var ls := Lines(d);
    assert ls[0] == FirstLine(d) && ls[1..] == Lines(AfterLine(d));
  }

  lemma ConcatAssoc(a: seq<byte>, b: seq<byte>, c: seq<byte>)
    ensures (a + b) + c == a + (b + c)
  {
  }

  lemma SizeCons(s: Source, rest: seq<Source>)
    ensures Size([s] + rest) == |s.data| + 1 + Size(rest)
  {
    assert ([s] + rest)[0] == s && ([s] + rest)[1..] == rest;
  }

  /** The first output line is where the output starts, and there is output exactly when there is
      a first output line. */
  lemma {:induction false} FirstOutLinesPrefix(cfg: Config, name: Option<seq<byte>>, ls: seq<seq<byte>>)
    ensures FirstOutLines(cfg, name, ls) <= EmitLines(cfg, name, ls)
    ensures FirstOutLines(cfg, name, ls) == [] <==> EmitLines(cfg, name, ls) == []
  {
    if ls != [] {
      var e, rest := Emit(cfg, name, ls[0]), ls[1..];
      assert EmitLines(cfg, name, ls) == e + EmitLines(cfg, name, rest);
      FirstOutLinesPrefix(cfg, name, rest);
      if e == [] {
        assert FirstOutLines(cfg, name, ls) == FirstOutLines(cfg, name, rest);
        assert e + EmitLines(cfg, name, rest) == EmitLines(cfg, name, rest);
      } else {
        assert FirstOutLines(cfg, name, ls) == e;
      }
    }
  }

  lemma {:induction false} FirstOutPrefix(cfg: Config, srcs: seq<Source>)
    ensures FirstOut(cfg, srcs) <= Output(cfg, srcs)
    ensures FirstOut(cfg, srcs) == [] <==> Output(cfg, srcs) == []
  {
    if srcs != [] {
      FirstOutLinesPrefix(cfg, srcs[0].name, Lines(srcs[0].data));
      FirstOutPrefix(cfg, srcs[1..]);
    }
  }

  /** out is the output of srcs and first is the first line of it that is kept.

      Logically this is just out == Output(cfg, srcs) && first == FirstOut(cfg, srcs). The
      quantifier over every s equal to srcs is only there to keep the verifier's work small: it
      hides the two recursive functions from the engine's proofs, which otherwise unfold them at
      every mention of the engine's state. A proof that needs the equations gets them by naming
      Output(cfg, srcs), which triggers the quantifier (AheadOutput, AheadSkip, AheadLine). The small
      lemmas over plain sequences and numbers in this module, Highlight and Scenarios (ConcatAssoc,
      Regroup, MulSucc, CountStep, Pieces, SliceJoin, PrefixSlice and the like) serve the same end:
      they regroup concatenations, slices and products away from the recursive functions. */
  ghost predicate Ahead(cfg: Config, srcs: seq<Source>, out: seq<byte>, first: seq<byte>)
  {
    forall s {:trigger Output(cfg, s)} :: s == srcs ==> out == Output(cfg, s) && first == FirstOut(cfg, s)
  }

  /** The output of the sources, with its first kept line, is a case of Ahead. */
  lemma AheadOutput(cfg: Config, srcs: seq<Source>)
    ensures Ahead(cfg, srcs, Output(cfg, srcs), FirstOut(cfg, srcs))
  {
  }

  /** With no sources left there is no output. */
  lemma AheadEmpty(cfg: Config, out: seq<byte>, first: seq<byte>)
    requires Ahead(cfg, [], out, first)
    ensures out == [] && first == []
  {
    assert Output(cfg, []) == [];
  }

  /** Moving past a source that is used up changes neither the output nor its first kept line. */
  lemma AheadSkip(cfg: Config, srcs: seq<Source>, out: seq<byte>, first: seq<byte>)
    requires srcs != [] && srcs[0].data == [] && Ahead(cfg, srcs, out, first)
    ensures Ahead(cfg, srcs[1..], out, first) && Size(srcs[1..]) < Size(srcs)
  {
    SkipEmpty(cfg, srcs);
    assert out == Output(cfg, srcs);
  }

  /** Reading one line: the output is that line's output followed by the output of what is left,
      and the first kept line is that line's output when it is kept. */
  lemma AheadLine(cfg: Config, srcs: seq<Source>, out: seq<byte>, first: seq<byte>) returns (out': seq<byte>, first': seq<byte>)
    requires srcs != [] && srcs[0].data != [] && Ahead(cfg, srcs, out, first)
    ensures Ahead(cfg, Advance(srcs), out', first') && Size(Advance(srcs)) < Size(srcs)
    ensures first' <= out' && (first' == [] <==> out' == [])
    ensures out == Emit(cfg, srcs[0].name, FirstLine(srcs[0].data)) + out'
    ensures Emit(cfg, srcs[0].name, FirstLine(srcs[0].data)) == [] ==> first' == first
    ensures Emit(cfg, srcs[0].name, FirstLine(srcs[0].data)) != [] ==> first == Emit(cfg, srcs[0].name, FirstLine(srcs[0].data))
  {
    LineStep(cfg, srcs);
    assert out == Output(cfg, srcs);
    FirstOutPrefix(cfg, Advance(srcs));
    AheadOutput(cfg, Advance(srcs));
    out', first' := Output(cfg, Advance(srcs)), FirstOut(cfg, Advance(srcs));
  }

  /** A source holding one line, with or without its terminator, outputs that line alone, ahead of
      the sources after it. */
  lemma OneLine(cfg: Config, s: Source, line: seq<byte>, rest: seq<Source>)
    requires NL !in line && (s.data == line + [NL] || (line != [] && s.data == line))
    ensures Output(cfg, [s] + rest) == Emit(cfg, s.name, line) + Output(cfg, rest)
  {
    SingleLine(s.data, line);
    OneLineOut(cfg, s.name, line);
    OutputCons(cfg, s, rest);
  }

  /** The first output of such a source is its line when that line is kept, and otherwise the
      first output of the sources after it. */
  lemma OneLineFirst(cfg: Config, s: Source, line: seq<byte>, rest: seq<Source>)
    requires NL !in line && (s.data == line + [NL] || (line != [] && s.data == line))
    ensures FirstOut(cfg, [s] + rest) ==
      if Emit(cfg, s.name, line) != [] then Emit(cfg, s.name, line) else FirstOut(cfg, rest)
  {
    SingleLine(s.data, line);
    OneLineOut(cfg, s.name, line);
    OutputCons(cfg, s, rest);
  }

  /** The output for a single line is that line's output. */
  lemma OneLineOut(cfg: Config, name: Option<seq<byte>>, line: seq<byte>)
    ensures EmitLines(cfg, name, [line]) == Emit(cfg, name, line)
    ensures FirstOutLines(cfg, name, [line]) == Emit(cfg, name, line)
  {
    var ls := [line];
    assert ls[0] == line && ls[1..] == [];
    assert EmitLines(cfg, name, ls) == Emit(cfg, name, line) + [];
  }

  /** In pass-through mode a line no finder matches is output as it is, after its name header. */
  lemma PassUnmatched(cfg: Config, name: Option<seq<byte>>, line: seq<byte>)
    requires cfg.noCut && !Matched(cfg.finders, line)
    ensures Emit(cfg, name, line) == Prefix(cfg, name) + line + [NL]
  {
    RenderUnmatched(cfg.finders, line);
  }

  /** Every line of ls is kept: pass-through mode, or some finder matches it. */
  predicate AllKept(cfg: Config, ls: seq<seq<byte>>)
  {
    forall j :: 0 <= j < |ls| ==> cfg.noCut || Matched(cfg.finders, ls[j])
  }

  /** No line of ls is kept. */
  predicate NoneKept(cfg: Config, ls: seq<seq<byte>>)
  {
    forall j :: 0 <= j < |ls| ==> !cfg.noCut && !Matched(cfg.finders, ls[j])
  }

  /** Every finder renders without visible markers (NoColour). */
  predicate Uncoloured(fs: seq<Finder>)
  {
    forall k :: 0 <= k < |fs| ==> fs[k].colour.Overhead() == 0
  }

  /** Lines, each preceded by p and followed by a newline. */
  function JoinPrefixed(p: seq<byte>, ls: seq<seq<byte>>): (r: seq<byte>)
    ensures p == [] ==> r == JoinLines(ls)
    ensures |r| == |JoinLines(ls)| + |ls| * |p|
  {
    if ls == [] then []
    else
      var rest := JoinPrefixed(p, ls[1..]);
      assert |ls| * |p| == |p| + |ls[1..]| * |p| by { MulSucc(|ls[1..]|, |p|); }
      p + ls[0] + [NL] + rest
  }

  /** A line is cut exactly when it yields no output, so a source yields nothing exactly when
      none of its lines is kept. */
  lemma {:induction false} EmitLinesEmpty(cfg: Config, name: Option<seq<byte>>, ls: seq<seq<byte>>)
    ensures EmitLines(cfg, name, ls) == [] <==> NoneKept(cfg, ls)
  {
    if ls != [] {
      EmitLinesEmpty(cfg, name, ls[1..]);
      if NoneKept(cfg, ls) {
        assert NoneKept(cfg, ls[1..]) by {
          forall j | 0 <= j < |ls[1..]| ensures !cfg.noCut && !Matched(cfg.finders, ls[1..][j]) {
            assert ls[1..][j] == ls[j + 1];
          }
        }
      }
      if Emit(cfg, name, ls[0]) == [] && NoneKept(cfg, ls[1..]) {
        forall j | 0 <= j < |ls| ensures !cfg.noCut && !Matched(cfg.finders, ls[j]) {
          if j > 0 { assert ls[j] == ls[1..][j - 1]; }
        }
      }
    }
  }

  /** No line of any of the sources is kept. */
  predicate NothingKept(cfg: Config, srcs: seq<Source>)
  {
    forall i :: 0 <= i < |srcs| ==> NoneKept(cfg, Lines(srcs[i].data))
  }

  lemma NothingKeptCons(cfg: Config, srcs: seq<Source>)
    requires srcs != []
    ensures NothingKept(cfg, srcs) <==> NoneKept(cfg, Lines(srcs[0].data)) && NothingKept(cfg, srcs[1..])
  {
    assert forall i :: 1 <= i < |srcs| ==> srcs[i] == srcs[1..][i - 1];
  }

  /** Without NoCut, the output is empty exactly when no line of any source matches: a line
      without a match never appears. */
  lemma {:induction false} NoMatchNoOutput(cfg: Config, srcs: seq<Source>)
    ensures Output(cfg, srcs) == [] <==> NothingKept(cfg, srcs)
  {
    if srcs != [] {
      EmitLinesEmpty(cfg, srcs[0].name, Lines(srcs[0].data));
      NoMatchNoOutput(cfg, srcs[1..]);
      NothingKeptCons(cfg, srcs);
    }
  }

  /** Kept lines rendered without visible colour are the lines themselves, each after its name
      header and followed by a newline. */
  lemma {:induction false} EmitLinesUncoloured(cfg: Config, name: Option<seq<byte>>, ls: seq<seq<byte>>)
    requires AllKept(cfg, ls) && Uncoloured(cfg.finders)
    ensures EmitLines(cfg, name, ls) == JoinPrefixed(Prefix(cfg, name), ls)
  {
    if ls != [] {
      RenderUncoloured(cfg.finders, ls[0]);
      assert AllKept(cfg, ls[1..]) by {
        forall j | 0 <= j < |ls[1..]| ensures cfg.noCut || Matched(cfg.finders, ls[1..][j]) {
          assert ls[1..][j] == ls[j + 1];
        }
      }
      EmitLinesUncoloured(cfg, name, ls[1..]);
    }
  }

  /** The concatenation of the sources' bytes, each with a newline added after an unterminated last
      line. */
  function Concat(srcs: seq<Source>): seq<byte>
  {
    if srcs == [] then [] else Terminated(srcs[0].data) + Concat(srcs[1..])
  }

  /** When every line is kept, nothing is coloured visibly and no names are printed, the engine
      passes its input through, with a newline after the last line of each source. */
  lemma {:induction false} PassThrough(cfg: Config, srcs: seq<Source>)
    requires Uncoloured(cfg.finders) && !cfg.withFileName
    requires forall i :: 0 <= i < |srcs| ==> AllKept(cfg, Lines(srcs[i].data))
    ensures Output(cfg, srcs) == Concat(srcs)
  {
    if srcs != [] {
      EmitLinesUncoloured(cfg, srcs[0].name, Lines(srcs[0].data));
      JoinOfLines(srcs[0].data);
      assert forall i :: 1 <= i < |srcs| ==> srcs[1..][i - 1] == srcs[i];
      PassThrough(cfg, srcs[1..]);
    }
  }

  /** In pass-through mode with no visible colour and no names printed, the output is the input,
      with a newline after the last line of each source. */
  lemma NoCutPassThrough(cfg: Config, srcs: seq<Source>)
    requires cfg.noCut && Uncoloured(cfg.finders) && !cfg.withFileName
    ensures Output(cfg, srcs) == Concat(srcs)
  {
    PassThrough(cfg, srcs);
  }

  /** With names printed, every kept line of a named source grows by the name and the separator. */
  lemma NamedLength(cfg: Config, name: seq<byte>, d: seq<byte>)
    requires Uncoloured(cfg.finders) && cfg.withFileName && AllKept(cfg, Lines(d))
    ensures |EmitLines(cfg, Some(name), Lines(d))| == |Terminated(d)| + |Lines(d)| * (|name| + |Separator|)
    ensures EmitLines(cfg, Some(name), Lines(d)) == JoinPrefixed(name + Separator, Lines(d))
  {
    EmitLinesUncoloured(cfg, Some(name), Lines(d));
    JoinOfLines(d);
  }
}
