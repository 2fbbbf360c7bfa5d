/** NewMultiReader(WithReader(name, r)...): an ordered list of named sources read one after another. */
module Composer {
  import opened Text
  import opened Stream

  /** The first error reported by closing the sources, in order. */
  function FirstCloseError(srcs: seq<Source>): Option<Error>
  {
    if srcs == [] then None
    else if srcs[0].closeError.Some? then srcs[0].closeError
    else FirstCloseError(srcs[1..])
  }

  /** Close succeeds exactly when every source closes cleanly; otherwise it reports the error of the
      first source that failed. */
  lemma {:induction false} FirstCloseErrorIsFirst(srcs: seq<Source>)
    ensures FirstCloseError(srcs).None? <==> forall i :: 0 <= i < |srcs| ==> srcs[i].closeError.None?
    ensures FirstCloseError(srcs).Some? ==>
      exists i :: 0 <= i < |srcs| && srcs[i].closeError == FirstCloseError(srcs) && forall j :: 0 <= j < i ==> srcs[j].closeError.None?
  {
    if srcs != [] && srcs[0].closeError.None? {
      FirstCloseErrorIsFirst(srcs[1..]);
      assert forall i :: 1 <= i < |srcs| ==> srcs[i] == srcs[1..][i - 1];
      if FirstCloseError(srcs).Some? {
        var i :| 0 <= i < |srcs[1..]| && srcs[1..][i].closeError == FirstCloseError(srcs) && forall j :: 0 <= j < i ==> srcs[1..][j].closeError.None?;
        assert srcs[i + 1].closeError == FirstCloseError(srcs);
      }
    } else if srcs != [] {
      assert srcs[0].closeError == FirstCloseError(srcs);
    }
  }

  /** Closing one more source keeps the first error seen so far. */
  lemma {:induction false} FirstCloseErrorSnoc(srcs: seq<Source>, s: Source)
    ensures FirstCloseError(srcs + [s]) ==
      if FirstCloseError(srcs).Some? then FirstCloseError(srcs) else s.closeError
  {
    if srcs != [] {
      assert (srcs + [s])[0] == srcs[0] && (srcs + [s])[1..] == srcs[1..] + [s];
      FirstCloseErrorSnoc(srcs[1..], s);
    } else {
      assert [s][1..] == [];
    }
  }

  class MultiReader {
    /** The sources as configured. */
    const all: seq<Source>
    /** What is left to read: the current source, partly read, and the sources after it. */
    var sources: seq<Source>
    var closed: bool
    /** The indices into all of the sources whose Close has been invoked, one entry per call. */
    var closeLog: seq<nat>

    constructor (srcs: seq<Source>)
      ensures all == srcs && sources == srcs && !closed && closeLog == []
    {
      all := srcs;
      sources := srcs;
      closed := false;
      closeLog := [];
    }

    /** The next byte of the current source, or None at its end. */
    method ReadByte() returns (b: Option<byte>)
      requires sources != []
      modifies this
      ensures old(sources[0].data) == [] ==> b == None && sources == old(sources)
      ensures old(sources[0].data) != [] ==>
        b == Some(old(sources[0].data[0])) &&
        sources == [old(sources[0]).(data := old(sources[0].data[1..]))] + old(sources[1..])
      ensures closed == old(closed) && closeLog == old(closeLog)
    {
      var s := sources[0];
      if s.data == [] {
        b := None;
      } else {
        b := Some(s.data[0]);
        sources := [s.(data := s.data[1..])] + sources[1..];
      }
    }

    /** Moves on from the current source to the next one. */
    method NextSource()
      requires sources != []
      modifies this
      ensures sources == old(sources[1..])
      ensures closed == old(closed) && closeLog == old(closeLog)
    {
      sources := sources[1..];
    }

    /** Closes every source, in order, each once, and reports the first error; closing again does
        nothing. */
    method Close() returns (err: Option<Error>)
      modifies this
      ensures closed && sources == old(sources)
      ensures old(closed) ==> err == None && closeLog == old(closeLog)
      ensures !old(closed) ==> err == FirstCloseError(all) && closeLog == old(closeLog) + seq(|all|, i => i)
    {
      if closed {
        return None;
      }
      err := None;
      var i := 0;
      while i < |all|
        invariant 0 <= i <= |all|
        invariant err == FirstCloseError(all[..i])
        invariant closeLog == old(closeLog) + seq(i, k => k)
        invariant sources == old(sources)
      {
        FirstCloseErrorSnoc(all[..i], all[i]);
        assert all[..i + 1] == all[..i] + [all[i]];
        if err.None? {
          err := all[i].closeError;
        }
        assert seq(i + 1, k => k) == seq(i, k => k) + [i];
        closeLog := closeLog + [i];
        i := i + 1;
      }
      assert all[..i] == all;
      closed := true;
    }
  }
}
