/** The exact finder: every literal occurrence of a fixed text in a line. */
module Finders {
  import opened Text
  import opened Colours

  /** NewExact(text, colour): a finder for a literal text, rendered in a colour. */
  datatype Finder = Exact(text: seq<byte>, colour: Colour)
  {
    /** The finder's text as it appears once coloured (the finder's String()). */
    function String(): (r: seq<byte>)
      ensures |r| == |text| + colour.Overhead()
      ensures Strip(r, colour) == Some(text)
    {
      StripColourise(text, colour);
      Colourise(text, colour)
    }
  }

  /** A half-open byte range [start, end) of a line. */
  datatype Span = Span(start: nat, end: nat)

  /** s occurs in line at position i. */
  predicate OccursAt(line: seq<byte>, s: seq<byte>, i: nat)
  {
    i + |s| <= |line| && line[i..i + |s|] == s
  }

  /** The occurrences of s in line found from position i onwards: left to right, and after a match
      the search resumes at the match's end. An empty s finds nothing. */
  function FindFrom(s: seq<byte>, line: seq<byte>, i: nat): (r: seq<Span>)
    requires i <= |line|
    ensures s == [] ==> r == []
    decreases |line| - i
  {
    if s == [] || i + |s| > |line| then []
    else if line[i..i + |s|] == s then [Span(i, i + |s|)] + FindFrom(s, line, i + |s|)
    else FindFrom(s, line, i + 1)
  }

  /** Every span FindFrom reports is an occurrence of s inside the line, at or after i, and the spans
      are sorted and do not overlap. */
  lemma {:induction false} FindFromSpans(s: seq<byte>, line: seq<byte>, i: nat)
    requires i <= |line|
    ensures forall q :: 0 <= q < |FindFrom(s, line, i)| ==>
      var r := FindFrom(s, line, i);
      i <= r[q].start && r[q].end == r[q].start + |s| && OccursAt(line, s, r[q].start)
    ensures forall q :: 0 <= q < |FindFrom(s, line, i)| - 1 ==>
      FindFrom(s, line, i)[q].end <= FindFrom(s, line, i)[q + 1].start
    decreases |line| - i
  {
    var r := FindFrom(s, line, i);
    if s == [] || i + |s| > |line| {
    } else if line[i..i + |s|] == s {
      var e := i + |s|;
      var rest := FindFrom(s, line, e);
      FindFromSpans(s, line, e);
      assert r == [Span(i, e)] + rest;
      assert forall q :: 1 <= q < |r| ==> r[q] == rest[q - 1];
    } else {
      var i' := i + 1;
      FindFromSpans(s, line, i');
      assert r == FindFrom(s, line, i');
    }
  }

  /** One step of the search: a match at i is reported and skipped, any other position is passed. */
  lemma FindFromStep(s: seq<byte>, line: seq<byte>, i: nat)
    requires i <= |line|
    ensures s == [] || i + |s| > |line| ==> FindFrom(s, line, i) == []
    ensures s != [] && OccursAt(line, s, i) ==>
      FindFrom(s, line, i) == [Span(i, i + |s|)] + FindFrom(s, line, i + |s|)
    ensures s != [] && i < |line| && !OccursAt(line, s, i) ==> FindFrom(s, line, i) == FindFrom(s, line, i + 1)
  {
  }

  /** Some span of r contains position j. */
  predicate Covers(r: seq<Span>, j: nat)
  {
    exists q :: 0 <= q < |r| && r[q].start <= j < r[q].end
  }

  /** Every occurrence of s at or after i lies inside a span FindFrom reports: nothing is missed. */
  lemma {:induction false} FindFromComplete(s: seq<byte>, line: seq<byte>, i: nat, j: nat)
    requires i <= j && s != [] && OccursAt(line, s, j)
    ensures Covers(FindFrom(s, line, i), j)
    decreases |line| - i
  {
    var r := FindFrom(s, line, i);
    var e := i + |s|;
    if line[i..e] == s {
      var rest := FindFrom(s, line, e);
      assert r == [Span(i, e)] + rest;
      if j < e {
        assert r[0].start <= j < r[0].end;
      } else {
        FindFromComplete(s, line, e, j);
        var q :| 0 <= q < |rest| && rest[q].start <= j < rest[q].end;
        assert r[q + 1] == rest[q];
        assert r[q + 1].start <= j < r[q + 1].end;
      }
    } else {
      var i' := i + 1;
      assert i != j;
      assert r == FindFrom(s, line, i');
      FindFromComplete(s, line, i', j);
      var q :| 0 <= q < |r| && r[q].start <= j < r[q].end;
    }
  }

  /** A text of two bytes or more does not occur where the line's next two bytes differ from its
      first two. */
  lemma Absent(line: seq<byte>, s: seq<byte>, i: nat, j: nat)
    requires |s| >= 2
    requires forall p :: i <= p < j && p + 1 < |line| ==> line[p] != s[0] || line[p + 1] != s[1]
    ensures forall p :: i <= p < j ==> !OccursAt(line, s, p)
  {
    forall p | i <= p < j
      ensures !OccursAt(line, s, p)
    {
      if p + |s| <= |line| {
        assert line[p..p + |s|][0] == line[p] && line[p..p + |s|][1] == line[p + 1];
      }
    }
  }

  /** The spans a finder reports for a line. */
  function Find(f: Finder, line: seq<byte>): (r: seq<Span>)
    ensures f.text == [] ==> r == []
  {
    FindFrom(f.text, line, 0)
  }

  /** A finder reports a match exactly when its text occurs somewhere in the line. */
  lemma FindIffOccurs(f: Finder, line: seq<byte>)
    requires f.text != []
    ensures Find(f, line) != [] <==> exists j :: OccursAt(line, f.text, j)
  {
    var r := Find(f, line);
    if r != [] {
      FindFromSpans(f.text, line, 0);
      assert OccursAt(line, f.text, r[0].start);
    }
    if exists j :: OccursAt(line, f.text, j) {
      var j :| OccursAt(line, f.text, j);
      FindFromComplete(f.text, line, 0, j);
    }
  }
}
