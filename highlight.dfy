/** Colouring one line with every configured finder. */
module Highlight {
  import opened Text
  import opened Colours
  import opened Finders

  /** A piece of a rendered line: a byte copied verbatim, or a match of the finder with that index. */
  datatype Segment = Plain(b: byte) | Hit(text: seq<byte>, finder: nat)

  /** The bytes the segments cover, without any colouring. */
  function Texts(segs: seq<Segment>): seq<byte>
  {
    if segs == [] then []
    else (match segs[0] case Plain(b) => [b] case Hit(t, _) => t) + Texts(segs[1..])
  }

  /** The text of some finder, in configuration order from k on, occurs at position i. */
  function FirstAt(fs: seq<Finder>, line: seq<byte>, i: nat, k: nat): (r: Option<nat>)
    requires k <= |fs|
    ensures r.Some? ==> k <= r.value < |fs| && fs[r.value].text != [] && OccursAt(line, fs[r.value].text, i)
    ensures r.Some? ==> forall q :: k <= q < r.value ==> fs[q].text == [] || !OccursAt(line, fs[q].text, i)
    ensures r.None? ==> forall q :: k <= q < |fs| ==> fs[q].text == [] || !OccursAt(line, fs[q].text, i)
    decreases |fs| - k
  {
    if k == |fs| then None
    else if fs[k].text != [] && OccursAt(line, fs[k].text, i) then Some(k)
    else FirstAt(fs, line, i, k + 1)
  }

  /** The segments of line from position i on. Scanning left to right, a position where the text of
      some finder occurs starts a match of the first such finder, and scanning resumes after it;
      any other byte is copied. */
  function Scan(fs: seq<Finder>, line: seq<byte>, i: nat): (r: seq<Segment>)
    requires i <= |line|
    ensures Texts(r) == line[i..]
    decreases |line| - i
  {
    if i == |line| then []
    else match FirstAt(fs, line, i, 0)
      case Some(k) =>
        var t := fs[k].text;
        var j := i + |t|;
        var rest := Scan(fs, line, j);
        var r := [Hit(t, k)] + rest;
        assert r[0] == Hit(t, k) && r[1..] == rest;
        SliceSplit(line, i, j);
        r
      case None =>
        var j := i + 1;
        var rest := Scan(fs, line, j);
        var r := [Plain(line[i])] + rest;
        assert r[0] == Plain(line[i]) && r[1..] == rest;
        SliceSplit(line, i, j);
        assert line[i..j] == [line[i]];
        r
  }

  /** The segments of a whole line. */
  function Segments(fs: seq<Finder>, line: seq<byte>): seq<Segment>
  {
    Scan(fs, line, 0)
  }

  /** The colour of the finder with index k; Scan only produces hits of configured finders. */
  function ColourOf(fs: seq<Finder>, k: nat): Colour
  {
    if k < |fs| then fs[k].colour else NoColour
  }

  /** The segments rendered: plain bytes as they are, matches wrapped in their finder's colour. */
  function Paint(fs: seq<Finder>, segs: seq<Segment>): seq<byte>
  {
    if segs == [] then [] else Piece(fs, segs[0]) + Paint(fs, segs[1..])
  }

  /** One segment rendered. */
  function Piece(fs: seq<Finder>, x: Segment): seq<byte>
  {
    match x
    case Plain(b) => [b]
    case Hit(t, k) => Colourise(t, ColourOf(fs, k))
  }

  /** The line with every match coloured. */
  function RenderLine(fs: seq<Finder>, line: seq<byte>): seq<byte>
  {
    Paint(fs, Segments(fs, line))
  }

  /** Some finder reports a match in the line. */
  predicate Matched(fs: seq<Finder>, line: seq<byte>)
  {
    exists k :: 0 <= k < |fs| && Find(fs[k], line) != []
  }

  /** Some segment is a match. */
  predicate HasHit(segs: seq<Segment>)
  {
    exists q :: 0 <= q < |segs| && segs[q].Hit?
  }

  /** Some finder's text occurs in line at or after position i. */
  predicate OccursFrom(fs: seq<Finder>, line: seq<byte>, i: nat)
  {
    exists k, j :: 0 <= k < |fs| && i <= j <= |line| && fs[k].text != [] && OccursAt(line, fs[k].text, j)
  }

  lemma HasHitCons(x: Segment, rest: seq<Segment>)
    ensures HasHit([x] + rest) <==> x.Hit? || HasHit(rest)
  {
    var r := [x] + rest;
    assert r[0] == x;
    if HasHit(rest) {
      var q :| 0 <= q < |rest| && rest[q].Hit?;
      assert r[q + 1].Hit?;
    }
    if HasHit(r) && !x.Hit? {
      var q :| 0 <= q < |r| && r[q].Hit?;
      assert q != 0;
      assert r[q] == rest[q - 1];
    }
  }

  /** A match in the scan is an occurrence of some finder's text. */
  lemma {:induction false} ScanHitOccurs(fs: seq<Finder>, line: seq<byte>, i: nat)
    requires i <= |line| && HasHit(Scan(fs, line, i))
    ensures OccursFrom(fs, line, i)
    decreases |line| - i
  {
    match FirstAt(fs, line, i, 0)
    case Some(k) =>
      assert OccursAt(line, fs[k].text, i);
    case None =>
      HasHitCons(Plain(line[i]), Scan(fs, line, i + 1));
      ScanHitOccurs(fs, line, i + 1);
      var k, j :| 0 <= k < |fs| && i + 1 <= j <= |line| && fs[k].text != [] && OccursAt(line, fs[k].text, j);
  }

  /** An occurrence of some finder's text is never scanned without producing a match. */
  lemma {:induction false} OccursScanHit(fs: seq<Finder>, line: seq<byte>, i: nat)
    requires i <= |line| && OccursFrom(fs, line, i)
    ensures HasHit(Scan(fs, line, i))
    decreases |line| - i
  {
    var first := FirstAt(fs, line, i, 0);
    if first.Some? {
      var k' := first.value;
      var j' := i + |fs[k'].text|;
      ScanHitAt(fs, line, i, k', j');
      HasHitCons(Hit(fs[k'].text, k'), Scan(fs, line, j'));
    } else {
      var k, j :| 0 <= k < |fs| && i <= j <= |line| && fs[k].text != [] && OccursAt(line, fs[k].text, j);
      assert !OccursAt(line, fs[k].text, i);
      var i' := i + 1;
      assert OccursFrom(fs, line, i');
      OccursScanHit(fs, line, i');
      ScanPlainAt(fs, line, i);
      HasHitCons(Plain(line[i]), Scan(fs, line, i'));
    }
  }

  /** A line is kept for its matches exactly when its rendering colours at least one span:
      a finder reports a match iff the merged scan produces one. */
  lemma MatchedIffHit(fs: seq<Finder>, line: seq<byte>)
    ensures Matched(fs, line) <==> HasHit(Segments(fs, line))
  {
    if HasHit(Segments(fs, line)) {
      ScanHitOccurs(fs, line, 0);
    }
    if Matched(fs, line) {
      var k :| 0 <= k < |fs| && Find(fs[k], line) != [];
      assert fs[k].text != [];
      FindIffOccurs(fs[k], line);
      var j :| OccursAt(line, fs[k].text, j);
      assert OccursFrom(fs, line, 0);
      OccursScanHit(fs, line, 0);
    }
    if OccursFrom(fs, line, 0) {
      var k, j :| 0 <= k < |fs| && 0 <= j && fs[k].text != [] && OccursAt(line, fs[k].text, j);
      FindIffOccurs(fs[k], line);
    }
  }

  /** Without hits, painting copies the segments' bytes. */
  lemma {:induction false} PaintPlain(fs: seq<Finder>, segs: seq<Segment>)
    requires !HasHit(segs)
    ensures Paint(fs, segs) == Texts(segs)
  {
    if segs != [] {
      HasHitCons(segs[0], segs[1..]);
      assert [segs[0]] + segs[1..] == segs;
      PaintPlain(fs, segs[1..]);
    }
  }

  /** When every finder's colour has empty markers (NoColour), rendering leaves the line unchanged,
      though the line still counts as matched. */
  lemma {:induction false} PaintUncoloured(fs: seq<Finder>, segs: seq<Segment>)
    requires forall k :: 0 <= k < |fs| ==> fs[k].colour.Overhead() == 0
    ensures Paint(fs, segs) == Texts(segs)
  {
    if segs != [] {
      if segs[0].Hit? {
        ColouriseNoColour(segs[0].text, ColourOf(fs, segs[0].finder));
      }
      PaintUncoloured(fs, segs[1..]);
    }
  }

  lemma RenderUncoloured(fs: seq<Finder>, line: seq<byte>)
    requires forall k :: 0 <= k < |fs| ==> fs[k].colour.Overhead() == 0
    ensures RenderLine(fs, line) == line
  {
    PaintUncoloured(fs, Segments(fs, line));
  }

  /** A line no finder matches is rendered as it is. */
  lemma RenderUnmatched(fs: seq<Finder>, line: seq<byte>)
    requires !Matched(fs, line)
    ensures RenderLine(fs, line) == line
  {
    MatchedIffHit(fs, line);
    PaintPlain(fs, Segments(fs, line));
    assert line[0..] == line;
  }

  /** The colouring bytes the hits of segs add. */
  function Overheads(fs: seq<Finder>, segs: seq<Segment>): nat
  {
    if segs == [] then 0
    else (if segs[0].Hit? then ColourOf(fs, segs[0].finder).Overhead() else 0) + Overheads(fs, segs[1..])
  }

  /** A rendered line is the line plus the markers around each match. */
  lemma {:induction false} PaintLength(fs: seq<Finder>, segs: seq<Segment>)
    ensures |Paint(fs, segs)| == |Texts(segs)| + Overheads(fs, segs)
  {
    if segs != [] {
      if segs[0].Hit? {
        StripColourise(segs[0].text, ColourOf(fs, segs[0].finder));
      }
      PaintLength(fs, segs[1..]);
    }
  }

  lemma RenderLength(fs: seq<Finder>, line: seq<byte>)
    ensures |RenderLine(fs, line)| == |line| + Overheads(fs, Segments(fs, line))
  {
    PaintLength(fs, Segments(fs, line));
  }

  /** Reference definition: line from position i on, with the first n non-overlapping occurrences
      of pat (searched left to right) replaced by rep. */
  function Replace(line: seq<byte>, pat: seq<byte>, rep: seq<byte>, n: nat, i: nat): seq<byte>
    requires pat != [] && i <= |line|
    decreases |line| - i
  {
    if n == 0 || i + |pat| > |line| then line[i..]
    else if line[i..i + |pat|] == pat then rep + Replace(line, pat, rep, n - 1, i + |pat|)
    else [line[i]] + Replace(line, pat, rep, n, i + 1)
  }

  /** One step of the replacement, as FindFromStep is one step of the search. */
  lemma ReplaceStep(line: seq<byte>, pat: seq<byte>, rep: seq<byte>, n: nat, i: nat)
    requires pat != [] && i <= |line|
    ensures n == 0 || i + |pat| > |line| ==> Replace(line, pat, rep, n, i) == line[i..]
    ensures n > 0 && OccursAt(line, pat, i) ==>
      Replace(line, pat, rep, n, i) == rep + Replace(line, pat, rep, n - 1, i + |pat|)
    ensures n > 0 && i < |line| && !OccursAt(line, pat, i) ==>
      Replace(line, pat, rep, n, i) == [line[i]] + Replace(line, pat, rep, n, i + 1)
  {
  }

  /** A scan position where a finder matches starts a hit of the first such finder. */
  lemma ScanHitAt(fs: seq<Finder>, line: seq<byte>, i: nat, k: nat, j: nat)
    requires i <= |line| && FirstAt(fs, line, i, 0) == Some(k) && j == i + |fs[k].text|
    ensures j <= |line|
    ensures Scan(fs, line, i) == [Hit(fs[k].text, k)] + Scan(fs, line, j)
  {
    assert i < |line|;
    var r := Scan(fs, line, i);
    assert r == [Hit(fs[k].text, k)] + Scan(fs, line, j);
  }

  /** A scan position where no finder matches copies its byte. */
  lemma ScanPlainAt(fs: seq<Finder>, line: seq<byte>, i: nat)
    requires i < |line| && FirstAt(fs, line, i, 0) == None
    ensures Scan(fs, line, i) == [Plain(line[i])] + Scan(fs, line, i + 1)
  {
  }

  lemma PaintCons(fs: seq<Finder>, x: Segment, rest: seq<Segment>)
    ensures Paint(fs, [x] + rest) == Piece(fs, x) + Paint(fs, rest)
  {
    var r := [x] + rest;
    assert r[0] == x && r[1..] == rest;
  }

  /** Where no finder's text occurs any more, painting the scan gives the rest of the line unchanged. */
  lemma ScanNoOccurrence(fs: seq<Finder>, line: seq<byte>, i: nat)
    requires i <= |line| && !OccursFrom(fs, line, i)
    ensures Paint(fs, Scan(fs, line, i)) == line[i..]
  {
    if HasHit(Scan(fs, line, i)) {
      ScanHitOccurs(fs, line, i);
    }
    PaintPlain(fs, Scan(fs, line, i));
  }

  /** A finder that reports nothing from position i on has no occurrence there. */
  lemma NoFindNoOccurrence(f: Finder, line: seq<byte>, i: nat)
    requires i <= |line| && FindFrom(f.text, line, i) == []
    ensures !OccursFrom([f], line, i)
  {
    if OccursFrom([f], line, i) {
      var k, j :| 0 <= k < 1 && i <= j <= |line| && [f][k].text != [] && OccursAt(line, [f][k].text, j);
      FindFromComplete(f.text, line, i, j);
    }
  }

  /** With a single finder, a rendered line is the line with every occurrence of the finder's text
      replaced by its coloured form: replacing at most n occurrences is enough when the line holds
      at most n of them. */
  lemma {:induction false} RenderSingle(f: Finder, line: seq<byte>, n: nat, i: nat)
    requires f.text != [] && i <= |line| && |FindFrom(f.text, line, i)| <= n
    ensures Paint([f], Scan([f], line, i)) == Replace(line, f.text, Colourise(f.text, f.colour), n, i)
    decreases |line| - i, 1
  {
    if n == 0 || i + |f.text| > |line| {
      RenderSingleRest(f, line, n, i);
    } else if OccursAt(line, f.text, i) {
      RenderSingleHit(f, line, n, i);
    } else {
      RenderSinglePlain(f, line, n, i);
    }
  }

  lemma RenderSingleRest(f: Finder, line: seq<byte>, n: nat, i: nat)
    requires f.text != [] && i <= |line| && |FindFrom(f.text, line, i)| <= n
    requires n == 0 || i + |f.text| > |line|
    ensures Paint([f], Scan([f], line, i)) == Replace(line, f.text, Colourise(f.text, f.colour), n, i)
  {
    FindFromStep(f.text, line, i);
    ReplaceStep(line, f.text, Colourise(f.text, f.colour), n, i);
    NoFindNoOccurrence(f, line, i);
    ScanNoOccurrence([f], line, i);
  }

  lemma {:induction false} RenderSingleHit(f: Finder, line: seq<byte>, n: nat, i: nat)
    requires f.text != [] && i <= |line| && |FindFrom(f.text, line, i)| <= n
    requires n > 0 && OccursAt(line, f.text, i)
    ensures Paint([f], Scan([f], line, i)) == Replace(line, f.text, Colourise(f.text, f.colour), n, i)
    decreases |line| - i, 0
  {
    var fs, s, col := [f], f.text, Colourise(f.text, f.colour);
    var j, m := i + |s|, n - 1;
    assert |FindFrom(s, line, j)| <= m by {
      FindFromStep(s, line, i);
    }
    RenderSingle(f, line, m, j);
    var rest := Scan(fs, line, j);
    SingleHitAt(f, line, i, j);
    PaintCons(fs, Hit(s, 0), rest);
    assert Piece(fs, Hit(s, 0)) == col;
    ReplaceHit(line, s, col, n, i, m, j);
  }

  lemma SingleHitAt(f: Finder, line: seq<byte>, i: nat, j: nat)
    requires f.text != [] && OccursAt(line, f.text, i) && j == i + |f.text|
    ensures Scan([f], line, i) == [Hit(f.text, 0)] + Scan([f], line, j)
  {
    assert FirstAt([f], line, i, 0) == Some(0);
    ScanHitAt([f], line, i, 0, j);
  }

  /** A replacement step at an occurrence, with the position and count after it given as j and m. */
  lemma ReplaceHit(line: seq<byte>, pat: seq<byte>, rep: seq<byte>, n: nat, i: nat, m: nat, j: nat)
    requires pat != [] && n > 0 && OccursAt(line, pat, i) && m == n - 1 && j == i + |pat|
    ensures Replace(line, pat, rep, n, i) == rep + Replace(line, pat, rep, m, j)
  {
    assert j <= |line| && line[i..j] == pat;
    var r := Replace(line, pat, rep, n, i);
    assert r == rep + Replace(line, pat, rep, m, j);
  }

  lemma {:induction false} RenderSinglePlain(f: Finder, line: seq<byte>, n: nat, i: nat)
    requires f.text != [] && i < |line| && |FindFrom(f.text, line, i)| <= n
    requires n > 0 && !OccursAt(line, f.text, i)
    ensures Paint([f], Scan([f], line, i)) == Replace(line, f.text, Colourise(f.text, f.colour), n, i)
    decreases |line| - i, 0
  {
    var j := i + 1;
    assert |FindFrom(f.text, line, j)| <= n by {
      FindFromStep(f.text, line, i);
    }
    RenderSingle(f, line, n, j);
    ReplaceStep(line, f.text, Colourise(f.text, f.colour), n, i);
    assert FirstAt([f], line, i, 1) == None;
    ScanPlainAt([f], line, i);
    PaintCons([f], Plain(line[i]), Scan([f], line, i + 1));
  }

  /** Replacing the c occurrences of pat from position i on by rep changes the length by c times
      the difference in length. */
  lemma {:induction false} ReplaceLength(line: seq<byte>, pat: seq<byte>, rep: seq<byte>, n: nat, i: nat)
    requires pat != [] && i <= |line| && |FindFrom(pat, line, i)| <= n
    ensures |Replace(line, pat, rep, n, i)| + |FindFrom(pat, line, i)| * |pat|
         == |line| - i + |FindFrom(pat, line, i)| * |rep|
    decreases |line| - i
  {
    FindFromStep(pat, line, i);
    if n == 0 || i + |pat| > |line| {
    } else if line[i..i + |pat|] == pat {
      var j := i + |pat|;
      ReplaceLength(line, pat, rep, n - 1, j);
      CountStep(|Replace(line, pat, rep, n, i)|, |Replace(line, pat, rep, n - 1, j)|,
        |FindFrom(pat, line, j)|, |pat|, |rep|, |line| - i);
    } else {
      ReplaceLength(line, pat, rep, n, i + 1);
    }
  }

  /** A line rendered with one exact finder: each of the c occurrences the finder reports is replaced
      by the coloured text, so the line grows by c times the colour's markers. */
  lemma RenderExact(f: Finder, line: seq<byte>)
    requires f.text != []
    ensures RenderLine([f], line) == Replace(line, f.text, f.String(), |Find(f, line)|, 0)
    ensures |RenderLine([f], line)| + |Find(f, line)| * |f.text| == |line| + |Find(f, line)| * |f.String()|
  {
    RenderSingle(f, line, |Find(f, line)|, 0);
    ReplaceLength(line, f.text, f.String(), |Find(f, line)|, 0);
  }

  /** No finder's text starts anywhere in [i, j). */
  predicate Quiet(fs: seq<Finder>, line: seq<byte>, i: nat, j: nat)
  {
    forall p, k :: i <= p < j && 0 <= k < |fs| && fs[k].text != [] ==> !OccursAt(line, fs[k].text, p)
  }

  /** Where no finder's text starts, no finder is the first to occur. */
  lemma QuietNone(fs: seq<Finder>, line: seq<byte>, i: nat, j: nat)
    requires i < j && Quiet(fs, line, i, j)
    ensures FirstAt(fs, line, i, 0) == None
  {
    var r := FirstAt(fs, line, i, 0);
    if r.Some? {
      assert false;
    }
  }

  /** A stretch where no finder's text starts is copied as it is. */
  lemma ScanGap(fs: seq<Finder>, line: seq<byte>, i: nat, j: nat)
    requires i <= j <= |line| && Quiet(fs, line, i, j)
    ensures Paint(fs, Scan(fs, line, i)) == line[i..j] + Paint(fs, Scan(fs, line, j))
  {
    forall p | i <= p < j
      ensures FirstAt(fs, line, p, 0) == None
    {
      QuietNone(fs, line, p, j);
    }
    PlainRun(fs, line, i, j);
  }

  /** A stretch of positions where no finder is the first to occur is copied as it is. */
  lemma {:induction false} PlainRun(fs: seq<Finder>, line: seq<byte>, i: nat, j: nat)
    requires i <= j <= |line| && forall p :: i <= p < j ==> FirstAt(fs, line, p, 0) == None
    ensures Paint(fs, Scan(fs, line, i)) == line[i..j] + Paint(fs, Scan(fs, line, j))
    decreases j - i
  {
    if i < j {
      PaintPlainAt(fs, line, i);
      PlainRun(fs, line, i + 1, j);
      SliceHead(line, i, j);
      Regroup(line[i], line[i + 1..j], Paint(fs, Scan(fs, line, j)), Paint(fs, Scan(fs, line, i + 1)));
    }
  }

  /** A byte put before a text that is followed by a tail: the same as the byte and the text,
      then the tail. */
  lemma Regroup(x: byte, y: seq<byte>, c: seq<byte>, b: seq<byte>)
    requires b == y + c
    ensures [x] + b == ([x] + y) + c
  {
  }

  /** A position where no finder's text occurs is painted as the byte it holds. */
  lemma PaintPlainAt(fs: seq<Finder>, line: seq<byte>, i: nat)
    requires i < |line| && FirstAt(fs, line, i, 0) == None
    ensures Paint(fs, Scan(fs, line, i)) == [line[i]] + Paint(fs, Scan(fs, line, i + 1))
  {
    ScanPlainAt(fs, line, i);
    PaintCons(fs, Plain(line[i]), Scan(fs, line, i + 1));
  }

  /** A non-empty slice is its first element followed by the rest. */
  lemma SliceHead(s: seq<byte>, i: nat, j: nat)
    requires i < j <= |s|
    ensures s[i..j] == [s[i]] + s[i + 1..j]
  {
    assert s[i..j] == [s[i]] + s[i + 1..j];
  }

  /** Finder k is the first, from q on, whose text occurs at i when it occurs there and none of
      q..k-1 does. */
  lemma {:induction false} FirstAtIs(fs: seq<Finder>, line: seq<byte>, i: nat, k: nat, q: nat)
    requires q <= k < |fs| && fs[k].text != [] && OccursAt(line, fs[k].text, i)
    requires forall m :: q <= m < k && fs[m].text != [] ==> !OccursAt(line, fs[m].text, i)
    ensures FirstAt(fs, line, i, q) == Some(k)
    decreases k - q
  {
    if q < k {
      FirstAtIs(fs, line, i, k, q + 1);
    }
  }

  /** A position where finder k is the first whose text occurs starts a match in finder k's colour;
      the scan goes on at j, right after it. */
  lemma ScanMatch(fs: seq<Finder>, line: seq<byte>, i: nat, k: nat, j: nat)
    requires i <= |line| && FirstAt(fs, line, i, 0) == Some(k) && j == i + |fs[k].text|
    ensures j <= |line|
    ensures Paint(fs, Scan(fs, line, i)) == Colourise(fs[k].text, fs[k].colour) + Paint(fs, Scan(fs, line, j))
  {
    ScanHitAt(fs, line, i, k, j);
    PaintCons(fs, Hit(fs[k].text, k), Scan(fs, line, j));
  }

  /** A line with one match, of finder k between i and j, and no other finder text starting
      anywhere else: the match is coloured and the rest copied. */
  lemma RenderOneMatch(fs: seq<Finder>, line: seq<byte>, k: nat, i: nat, j: nat)
    requires i <= |line| && FirstAt(fs, line, i, 0) == Some(k) && j == i + |fs[k].text|
    requires Quiet(fs, line, 0, i) && j <= |line| && Quiet(fs, line, j, |line|)
    ensures RenderLine(fs, line) == line[..i] + (Colourise(fs[k].text, fs[k].colour) + line[j..])
  {
    ScanGap(fs, line, 0, i);
    PaintLast(fs, line, k, i, j);
    assert line[0..i] == line[..i];
  }

  /** Two matches, of finder k1 between i1 and j1 and of finder k2 between i2 and j2, and no other
      finder text starting anywhere else: both are coloured, each in its own finder's colour. */
  lemma RenderTwoMatches(fs: seq<Finder>, line: seq<byte>, k1: nat, i1: nat, j1: nat, k2: nat, i2: nat, j2: nat)
    requires i1 <= |line| && FirstAt(fs, line, i1, 0) == Some(k1) && j1 == i1 + |fs[k1].text|
    requires j1 <= i2 <= |line| && FirstAt(fs, line, i2, 0) == Some(k2) && j2 == i2 + |fs[k2].text|
    requires Quiet(fs, line, 0, i1) && Quiet(fs, line, j1, i2) && j2 <= |line| && Quiet(fs, line, j2, |line|)
    ensures RenderLine(fs, line) ==
      line[..i1] + (Colourise(fs[k1].text, fs[k1].colour) + (line[j1..i2] + (Colourise(fs[k2].text, fs[k2].colour) + line[j2..])))
  {
    ScanGap(fs, line, 0, i1);
    ScanMatch(fs, line, i1, k1, j1);
    ScanGap(fs, line, j1, i2);
    PaintLast(fs, line, k2, i2, j2);
    assert line[0..i1] == line[..i1];
  }

  /** A last match, of finder k between i and j, with no finder text starting after it. */
  lemma PaintLast(fs: seq<Finder>, line: seq<byte>, k: nat, i: nat, j: nat)
    requires i <= |line| && FirstAt(fs, line, i, 0) == Some(k) && j == i + |fs[k].text|
    requires j <= |line| && Quiet(fs, line, j, |line|)
    ensures Paint(fs, Scan(fs, line, i)) == Colourise(fs[k].text, fs[k].colour) + line[j..]
  {
    ScanMatch(fs, line, i, k, j);
    ScanGap(fs, line, j, |line|);
    assert Scan(fs, line, |line|) == [];
    assert line[j..|line|] == line[j..];
  }

  /** A finder whose text occurs in the line reports a match. */
  lemma MatchedAt(fs: seq<Finder>, line: seq<byte>, k: nat, i: nat)
    requires k < |fs| && fs[k].text != [] && OccursAt(line, fs[k].text, i)
    ensures Matched(fs, line)
  {
    FindIffOccurs(fs[k], line);
  }

  /** Replacing the first occurrence: the bytes before it, the replacement, the bytes after it. */
  lemma {:induction false} ReplaceFirst(line: seq<byte>, pat: seq<byte>, rep: seq<byte>, q: nat, i: nat)
    requires pat != [] && q <= i && OccursAt(line, pat, i)
    requires forall p :: q <= p < i ==> !OccursAt(line, pat, p)
    ensures Replace(line, pat, rep, 1, q) == line[q..i] + rep + line[i + |pat|..]
    decreases i - q
  {
    var r := Replace(line, pat, rep, 1, q);
    if q < i {
      var q' := q + 1;
      assert !OccursAt(line, pat, q);
      assert r == [line[q]] + Replace(line, pat, rep, 1, q');
      ReplaceFirst(line, pat, rep, q', i);
      assert line[q..i] == [line[q]] + line[q'..i];
    } else {
      var e := i + |pat|;
      assert line[i..e] == pat;
      assert r == rep + Replace(line, pat, rep, 0, e);
    }
  }

  lemma MulSucc(a: nat, b: nat)
    ensures (a + 1) * b == b + a * b
  {
  }

  /** The length bookkeeping of one replaced occurrence: with c occurrences after it, of a pattern
      of length p replaced by q bytes, in a rest of length l. */
  lemma CountStep(r: int, r': int, c: int, p: int, q: int, l: int)
    requires r == q + r' && r' + c * p == l - p + c * q
    ensures r + (c + 1) * p == l + (c + 1) * q
  {
    assert (c + 1) * p == c * p + p && (c + 1) * q == c * q + q;
  }
}
