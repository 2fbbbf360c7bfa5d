/** Colours as pairs of markers wrapped around a span. */
module Colours {
  import opened Text

  /** A colour is an enter marker and an exit marker; NoColour has empty markers. */
  datatype Colour = NoColour | Markers(enter: seq<byte>, exit: seq<byte>)
  {
    function Enter(): seq<byte>
    {
      if NoColour? then [] else enter
    }

    function Exit(): seq<byte>
    {
      if NoColour? then [] else exit
    }

    /** How many bytes colouring a span adds. */
    function Overhead(): nat
    {
      |Enter()| + |Exit()|
    }
  }

  /** The span s wrapped in the markers of c. */
  function Colourise(s: seq<byte>, c: Colour): seq<byte>
  {
    c.Enter() + s + c.Exit()
  }

  /** The span inside coloured bytes r, when r carries the markers of c. */
  function Strip(r: seq<byte>, c: Colour): (s: Option<seq<byte>>)
    ensures s.Some? ==> |s.value| + c.Overhead() == |r|
  {
    var n, x := |c.Enter()|, |c.Exit()|;
    if n + x <= |r| && r[..n] == c.Enter() && r[|r| - x..] == c.Exit() then Some(r[n..|r| - x])
    else None
  }

  /** Stripping undoes colouring. */
  lemma StripColourise(s: seq<byte>, c: Colour)
    ensures Strip(Colourise(s, c), c) == Some(s)
    ensures |Colourise(s, c)| == |s| + c.Overhead()
  {
    var r := Colourise(s, c);
    var n := |c.Enter()|;
    assert r[..n] == c.Enter();
    assert r[|r| - |c.Exit()|..] == c.Exit();
    assert r[n..|r| - |c.Exit()|] == s;
  }

  /** Colouring is injective: two spans with the same colour render differently unless equal. */
  lemma ColouriseInjective(s: seq<byte>, t: seq<byte>, c: Colour)
    requires Colourise(s, c) == Colourise(t, c)
    ensures s == t
  {
    StripColourise(s, c);
    StripColourise(t, c);
  }

  /** NoColour, or a colour with empty markers, leaves the span as it is. */
  lemma ColouriseNoColour(s: seq<byte>, c: Colour)
    requires c.Overhead() == 0
    ensures Colourise(s, c) == s
  {
    assert c.Enter() == [] && c.Exit() == [];
  }
}
