/** The Blush engine: a pull transform from its reader to highlighted lines, and the drain into a
    writer. */
module Engine {
  import opened Text
  import opened Finders
  import opened Highlight
  import opened Stream
  import opened Composer

  /** How many bytes a sink with the given budget accepts of a write of len bytes. */
  function Accepted(budget: Option<nat>, len: nat): nat
  {
    if budget.None? then len else Min(len, budget.value)
  }

  /** A write of len bytes (or, in total, of len bytes) to a sink with the given budget fails. */
  predicate Fails(budget: Option<nat>, len: nat)
  {
    budget.Some? && len > 0 && len >= budget.value
  }

  /** The writer WriteTo copies into. With no budget it accepts everything; with a budget of k bytes,
      the write that reaches the budget is accepted up to it and then fails. */
  class Sink {
    var received: seq<byte>
    var budget: Option<nat>

    constructor (budget: Option<nat>)
      ensures received == [] && this.budget == budget
    {
      received := [];
      this.budget := budget;
    }

    method Write(chunk: seq<byte>) returns (m: nat, err: Option<Error>)
      modifies this
      ensures m == Accepted(old(budget), |chunk|) && m <= |chunk|
      ensures received == old(received) + chunk[..m]
      ensures err.Some? <==> old(budget).Some? && |chunk| >= old(budget).value
      ensures err.Some? ==> err == Some(WriteFailed)
      ensures budget == if old(budget).None? then None else Some(old(budget).value - m)
    {
      if budget.None? {
        m, err := |chunk|, None;
      } else if |chunk| < budget.value {
        m, err := |chunk|, None;
        budget := Some(budget.value - m);
      } else {
        m, err := budget.value, Some(WriteFailed);
        budget := Some(0);
      }
      received := received + chunk[..m];
    }
  }

  /** Copies the first n bytes of src to the front of p, leaving the rest of p as it was. */
  method CopyPrefix(p: array<byte>, src: seq<byte>, n: nat)
    requires n <= p.Length && n <= |src|
    modifies p
    ensures p[..n] == src[..n] && p[n..] == old(p[n..])
  {
    for i := 0 to n
      invariant p[..i] == src[..i]
      invariant p[i..] == old(p[i..])
    {
      p[i] := src[i];
      assert p[..i + 1] == src[..i + 1];
    }
  }

  /** The sink holds what it had plus the first done bytes of all, and its budget went down by as
      much; no write has failed yet. */
  ghost predicate Delivered(rcv: seq<byte>, wb: Option<nat>, received: seq<byte>, budget: Option<nat>, all: seq<byte>, done: nat)
  {
    && done <= |all|
    && rcv == received + all[..done]
    && (budget.None? ==> wb.None?)
    && (budget.Some? ==> wb == Some(budget.value - done) && (done < budget.value || done == 0))
  }

  /** A drain that reached the end without a failed write delivered everything. */
  lemma AccountAtEnd(budget: Option<nat>, done: nat, total: nat)
    requires done == total && (budget.Some? ==> done < budget.value || done == 0)
    ensures Accepted(budget, total) == total && !Fails(budget, total)
  {
  }

  /** Writes the next chunk of the output, all[done..next], to w: either w takes all of it, or it
      takes exactly up to its budget and fails. */
  method Deliver(w: Sink, chunk: seq<byte>, ghost received: seq<byte>, ghost budget: Option<nat>,
                 ghost all: seq<byte>, ghost done: nat, ghost next: nat) returns (k: nat, err: Option<Error>)
    requires Delivered(w.received, w.budget, received, budget, all, done)
    requires done < next <= |all| && chunk == all[done..next]
    modifies w
    ensures done + k <= next
    ensures err.None? ==> done + k == next && Delivered(w.received, w.budget, received, budget, all, next)
    ensures err.Some? ==> err == Some(WriteFailed) && budget.Some? && done + k == budget.value
    ensures err.Some? ==> Accepted(budget, |all|) == done + k && Fails(budget, |all|)
    ensures w.received == received + all[..done + k]
  {
    k, err := w.Write(chunk);
    ghost var d := done + k;
    assert d <= next && chunk[..k] == all[done..d];
    assert all[..done] + all[done..d] == all[..d];
  }

  /** The size of WriteTo's scratch buffer. */
  const ScratchSize: nat := 32 * 1024

  class Blush {
    const reader: MultiReader?
    const finders: seq<Finder>
    const noCut: bool
    const withFileName: bool
    var closed: bool
    /** Rendered bytes not yet delivered: the carry-over buffer. */
    var pending: seq<byte>
    /** The output of the input not yet read. */
    ghost var rest: seq<byte>
    /** The first line of rest that is kept. */
    ghost var head: seq<byte>

    /** rest is the output of what the reader has left and head the first kept line of it; without
        a reader there is neither. */
    ghost predicate Valid()
      reads this, reader
    {
      && (reader == null ==> rest == [] && head == [])
      && (reader != null ==> Ahead(Cfg(), reader.sources, rest, head))
      && head <= rest && (head == [] <==> rest == [])
    }

    constructor (reader: MultiReader?, finders: seq<Finder>, noCut: bool, withFileName: bool)
      ensures this.reader == reader && this.finders == finders
      ensures this.noCut == noCut && this.withFileName == withFileName
      ensures !closed && pending == []
      ensures Valid() && Remaining() == if reader == null then [] else Output(Cfg(), reader.sources)
      ensures Front() == if reader == null then [] else FirstOut(Cfg(), reader.sources)
    {
      this.reader := reader;
      this.finders := finders;
      this.noCut := noCut;
      this.withFileName := withFileName;
      closed := false;
      pending := [];
      if reader == null {
        rest, head := [], [];
      } else {
        var cfg := Config(finders, noCut, withFileName);
        FirstOutPrefix(cfg, reader.sources);
        AheadOutput(cfg, reader.sources);
        rest, head := Output(cfg, reader.sources), FirstOut(cfg, reader.sources);
      }
    }

    function Cfg(): Config
    {
      Config(finders, noCut, withFileName)
    }

    /** Everything still to be delivered: the carry-over buffer, then the output of the unread input. */
    ghost function Remaining(): seq<byte>
      reads this
    {
      pending + rest
    }

    /** What the next Read delivers from: the carry-over buffer, or else the next line kept. */
    ghost function Front(): (r: seq<byte>)
      requires Valid()
      reads this, reader
      ensures r <= Remaining() && (r == [] <==> Remaining() == [])
    {
      if pending != [] then pending else head
    }

    /** Reads the first line of the current source, byte by byte, up to its terminator or its end. */
    method ReadLine() returns (name: Option<seq<byte>>, line: seq<byte>)
      requires reader != null && reader.sources != [] && reader.sources[0].data != []
      modifies reader
      ensures reader.sources == Advance(old(reader.sources))
      ensures name == old(reader.sources[0].name) && line == FirstLine(old(reader.sources[0].data))
      ensures reader.closed == old(reader.closed) && reader.closeLog == old(reader.closeLog)
    {
      var s, tail := reader.sources[0], reader.sources[1..];
      var d := s.data;
      name := s.name;
      line := [];
      var done := false;
      while !done
        invariant |line| <= |d| && line == d[..|line|] && NL !in line
        invariant !done ==> reader.sources == [s.(data := d[|line|..])] + tail
        invariant done ==> reader.sources == Advance(old(reader.sources)) && line == FirstLine(d)
        invariant reader.closed == old(reader.closed) && reader.closeLog == old(reader.closeLog)
        decreases |d| - |line|, if done then 0 else 1
      {
        var b := reader.ReadByte();
        if b.None? {
          assert line == d;
          SplitUnterminated(d);
          done := true;
        } else if b.value == NL {
          assert d == line + [NL] + d[|line| + 1..];
          SplitAtNewline(line, d[|line| + 1..]);
          done := true;
        } else {
          assert d[..|line| + 1] == line + [b.value];
          line := line + [b.value];
        }
      }
    }

    /** Fills p from the carry-over buffer, computing the next kept line first when the buffer is
        empty. After Close it fails with ErrClosed; at the end of the input it reports EOF. */
    method Read(p: array<byte>) returns (n: nat, err: Option<Error>)
      requires Valid()
      modifies this, p, reader
      ensures Valid() && closed == old(closed)
      ensures old(closed) ==>
        n == 0 && err == Some(ErrClosed) && Remaining() == old(Remaining()) && p[..] == old(p[..]) &&
        (reader != null ==> reader.sources == old(reader.sources))
      ensures !old(closed) && reader == null ==>
        n == 0 && err == Some(ErrNoReader) && Remaining() == old(Remaining()) && p[..] == old(p[..])
      ensures !old(closed) && reader != null ==>
        && n == Min(p.Length, |old(Front())|)
        && p[..n] == old(Front())[..n]
        && p[n..] == old(p[n..])
        && pending == old(Front())[n..]
        && Remaining() == old(Remaining())[n..]
        && (err.Some? <==> old(Remaining()) == [])
        && (err.Some? ==> err == Some(EOF))
        && (old(pending) != [] ==> reader.sources == old(reader.sources))
      ensures reader != null ==> reader.closed == old(reader.closed) && reader.closeLog == old(reader.closeLog)
    {
      if closed {
        return 0, Some(ErrClosed);
      }
      if reader == null {
        return 0, Some(ErrNoReader);
      }
      n, err := ReadOpen(p);
    }

    /** Read on an open engine with a reader. */
    method ReadOpen(p: array<byte>) returns (n: nat, err: Option<Error>)
      requires Valid() && reader != null && !closed
      modifies this, p, reader
      ensures Valid() && !closed
      ensures n == Min(p.Length, |old(Front())|)
      ensures p[..n] == old(Front())[..n]
      ensures p[n..] == old(p[n..])
      ensures pending == old(Front())[n..]
      ensures Remaining() == old(Remaining())[n..]
      ensures err.Some? <==> old(Remaining()) == []
      ensures err.Some? ==> err == Some(EOF)
      ensures old(pending) != [] ==> reader.sources == old(reader.sources)
      ensures reader.closed == old(reader.closed) && reader.closeLog == old(reader.closeLog)
    {
      ghost var rem, front := Remaining(), Front();
      Fill();
      if pending == [] {
        return 0, Some(EOF);
      }
      n := Min(p.Length, |pending|);
      CopyPrefix(p, pending, n);
      pending := pending[n..];
      assert rem[n..] == pending + rest;
      err := None;
    }

    /** Computes lines until one is kept, unless the carry-over buffer already holds bytes or the
        input is used up. */
    method Fill()
      requires Valid() && reader != null
      modifies this, reader
      ensures Valid() && closed == old(closed)
      ensures pending == old(Front()) && Remaining() == old(Remaining())
      ensures old(pending) != [] ==> reader.sources == old(reader.sources)
      ensures pending == [] ==> reader.sources == []
      ensures reader.closed == old(reader.closed) && reader.closeLog == old(reader.closeLog)
    {
      ghost var rem, front := Remaining(), Front();
      while pending == [] && reader.sources != []
        invariant Valid() && pending + rest == rem
        invariant pending == [] ==> head == front
        invariant pending != [] ==> pending == front
        invariant old(pending) != [] ==> pending == old(pending) && reader.sources == old(reader.sources)
        invariant closed == old(closed)
        invariant reader.closed == old(reader.closed) && reader.closeLog == old(reader.closeLog)
        decreases Size(reader.sources)
      {
        Step();
      }
      if pending == [] {
        AheadEmpty(Cfg(), rest, head);
      }
    }

    /** Moves past the current source when it is used up, or else reads and renders its next line. */
    method Step()
      requires Valid() && reader != null && pending == [] && reader.sources != []
      modifies this, reader
      ensures Valid() && closed == old(closed)
      ensures pending + rest == old(rest)
      ensures pending == [] ==> head == old(head)
      ensures pending != [] ==> pending == old(head)
      ensures Size(reader.sources) < old(Size(reader.sources))
      ensures reader.closed == old(reader.closed) && reader.closeLog == old(reader.closeLog)
    {
      if reader.sources[0].data == [] {
        AheadSkip(Cfg(), reader.sources, rest, head);
        reader.NextSource();
      } else {
        var cfg := Cfg();
        ghost var out, first := AheadLine(cfg, reader.sources, rest, head);
        var name, line := ReadLine();
        pending := Emit(cfg, name, line);
        rest, head := out, first;
      }
    }

    /** Moves to the closed state for good, dropping the carry-over buffer, and closes the reader.
        It fails only when closing a source fails; with no reader there is nothing to close. */
    method Close() returns (err: Option<Error>)
      requires Valid()
      modifies this, reader
      ensures Valid() && closed && pending == []
      ensures reader == null ==> err == None
      ensures reader != null ==>
        reader.closed && reader.sources == old(reader.sources) &&
        (old(reader.closed) ==> err == None && reader.closeLog == old(reader.closeLog)) &&
        (!old(reader.closed) ==>
          err == FirstCloseError(reader.all) && reader.closeLog == old(reader.closeLog) + seq(|reader.all|, i => i))
    {
      closed := true;
      pending := [];
      if reader == null {
        return None;
      }
      err := reader.Close();
    }

    /** One Read into the scratch buffer, as the next chunk all[done..next] of the output, where
        all[done..] is what remains before the call. */
    method Pull(scratch: array<byte>, ghost all: seq<byte>, ghost done: nat) returns (chunk: seq<byte>, eof: bool, ghost next: nat)
      requires Valid() && reader != null && !closed && scratch.Length > 0
      requires done <= |all| && Remaining() == all[done..]
      modifies this, reader, scratch
      ensures Valid() && !closed
      ensures eof <==> done == |all|
      ensures eof ==> Remaining() == []
      ensures !eof ==> done < next <= |all| && chunk == all[done..next] && Remaining() == all[next..]
      ensures reader.closed == old(reader.closed) && reader.closeLog == old(reader.closeLog)
    {
      ghost var rem, front := Remaining(), Front();
      var m, e := ReadOpen(scratch);
      eof := e.Some?;
      chunk := scratch[..m];
      next := done + m;
      assert chunk == front[..m];
      assert front[..m] == rem[..m];
      assert rem[..m] == all[done..next];
      assert rem[m..] == all[next..];
    }

    /** Copies the whole remaining output to w, pulling it through a buffer of the given size. The
        count is what w accepted; the error is the first one w reported. */
    method Drain(w: Sink, size: nat) returns (n: nat, err: Option<Error>)
      requires Valid() && reader != null && !closed && size > 0
      modifies this, reader, w
      ensures Valid() && closed == old(closed)
      ensures n == Accepted(old(w.budget), |old(Remaining())|)
      ensures w.received == old(w.received) + old(Remaining())[..n]
      ensures err.Some? <==> Fails(old(w.budget), |old(Remaining())|)
      ensures err.Some? ==> err == Some(WriteFailed)
      ensures err.None? ==> Remaining() == []
      ensures reader.closed == old(reader.closed) && reader.closeLog == old(reader.closeLog)
    {
      ghost var all, budget, received := Remaining(), w.budget, w.received;
      var scratch := new byte[size];
      n := 0;
      while true
        invariant fresh(scratch) && scratch.Length == size && !closed && Valid()
        invariant n <= |all| && Remaining() == all[n..]
        invariant Delivered(w.received, w.budget, received, budget, all, n)
        invariant reader.closed == old(reader.closed) && reader.closeLog == old(reader.closeLog)
        decreases |all| - n
      {
        var chunk, eof, next := Pull(scratch, all, n);
        if eof {
          AccountAtEnd(budget, n, |all|);
          return n, None;
        }
        var k;
        k, err := Deliver(w, chunk, received, budget, all, n, next);
        n := n + k;
        if err.Some? {
          return;
        }
      }
    }

    /** WriteTo: checks that there is a reader and a writer, then drains into the writer. */
    method WriteTo(w: Sink?) returns (n: nat, err: Option<Error>)
      requires Valid()
      modifies this, reader, w
      ensures Valid() && closed == old(closed)
      ensures reader == null ==> n == 0 && err == Some(ErrNoReader)
      ensures reader != null && w == null ==> n == 0 && err == Some(ErrNoWriter)
      ensures reader != null && w != null && old(closed) ==> n == 0 && err == Some(ErrClosed)
      ensures reader != null && w != null && !old(closed) ==>
        && n == Accepted(old(w.budget), |old(Remaining())|)
        && w.received == old(w.received) + old(Remaining())[..n]
        && (err.Some? <==> Fails(old(w.budget), |old(Remaining())|))
        && (err.Some? ==> err == Some(WriteFailed))
        && (err.None? ==> Remaining() == [])
      ensures reader == null || w == null || old(closed) ==>
        && pending == old(pending) && Remaining() == old(Remaining()) && Front() == old(Front())
        && (w != null ==> w.received == old(w.received) && w.budget == old(w.budget))
        && (reader != null ==> reader.sources == old(reader.sources))
      ensures reader != null ==> reader.closed == old(reader.closed) && reader.closeLog == old(reader.closeLog)
    {
      if reader == null {
        return 0, Some(ErrNoReader);
      }
      if w == null {
        return 0, Some(ErrNoWriter);
      }
      if closed {
        return 0, Some(ErrClosed);
      }
      n, err := Drain(w, ScratchSize);
    }
  }
}
