/** Pipes (old/kernel_pipe.c): a bounded byte queue in a ring of PIPE_BUFFER_SIZE + 1 cells. */
module Pipe {
  import opened Bytes

  // ---------------------------------------------------------------- what a pipe does

  /** A call either has to wait, or is done with this return value and these bytes read. */
  datatype Outcome = Blocked | Done(ret: int, data: seq<byte>)

  /** The capacity, the bytes in the pipe, and whether its ends are open. */
  datatype State = State(size: nat, contents: seq<byte>, reader: bool, writer: bool)

  function Min(a: nat, b: nat): nat { if a < b then a else b }

  /** `pipe_write` from its wait loop on: once after the first checks, and after each wake-up. */
  function WriteTurn(s: State, buf: seq<byte>): (State, Outcome)
    requires |s.contents| <= s.size
  {
    if |s.contents| == s.size && s.reader then (s, Blocked)
    else if !s.reader then (s, Done(-1, []))
    else
      var w := Min(|buf|, s.size - |s.contents|);
      (s.(contents := s.contents + buf[..w]), Done(w, []))
  }

  function Write(s: State, buf: seq<byte>): (State, Outcome)
    requires |s.contents| <= s.size
  {
    if !s.writer || !s.reader then (s, Done(-1, [])) else WriteTurn(s, buf)
  }

  /** `pipe_read` from its wait loop on. */
  function ReadTurn(s: State, n: nat): (State, Outcome) {
    if s.contents == [] then
      if s.writer then (s, Blocked) else (s, Done(0, []))
    else
      var r := Min(n, |s.contents|);
      (s.(contents := s.contents[r..]), Done(r, s.contents[..r]))
  }

  function Read(s: State, n: nat): (State, Outcome) {
    if !s.reader then (s, Done(-1, []))
    else if !s.writer && s.contents == [] then (s, Done(0, []))
    else ReadTurn(s, n)
  }

  function CloseWriter(s: State): (State, Outcome) {
    (s.(writer := false), Done(0, []))
  }

  function CloseReader(s: State): (State, Outcome) {
    if !s.reader then (s, Done(-1, [])) else (s.(reader := false), Done(0, []))
  }

  // ---------------------------------------------------------------- what one call does

  predicate Bounded(s: State) {
    |s.contents| <= s.size
  }

  /** A write that has not found the reader closed waits exactly while the pipe is full.
      Otherwise it appends a prefix of the buffer, and says how long: all of it, or as much as
      fills the pipe. */
  lemma WriteLaw(s: State, buf: seq<byte>)
    requires Bounded(s)
    ensures var (t, o) := WriteTurn(s, buf);
      && (o == Done(-1, []) <==> !s.reader)
      && (o == Blocked <==> s.reader && |s.contents| == s.size)
      && (!s.reader || |s.contents| == s.size ==> t == s)
      && (s.reader && |s.contents| < s.size ==>
            && o.Done? && o.data == [] && 0 <= o.ret <= |buf|
            && t == s.(contents := s.contents + buf[..o.ret])
            && (o.ret == |buf| || |t.contents| == s.size))
    ensures var (t, o) := Write(s, buf);
      && (o == Done(-1, []) <==> !s.reader || !s.writer) && (o == Done(-1, []) ==> t == s)
      && (s.reader && s.writer ==> (t, o) == WriteTurn(s, buf))
  {
  }

  /** A read that has not found the reader's end closed waits exactly while the pipe is empty and
      its writer open.  Otherwise it takes a prefix of the contents, and says how long: as many
      bytes as asked for, or all there are. */
  lemma ReadLaw(s: State, n: nat)
    ensures var (t, o) := ReadTurn(s, n);
      && (o == Blocked <==> s.contents == [] && s.writer)
      && (o == Blocked ==> t == s)
      && (o != Blocked ==>
            && o.ret == |o.data| <= n && o.data + t.contents == s.contents && t == s.(contents := t.contents)
            && (|o.data| == n || t.contents == []))
    ensures var (t, o) := Read(s, n);
      && (o == Done(-1, []) <==> !s.reader) && (o == Done(-1, []) ==> t == s)
      && (s.reader ==> (t, o) == ReadTurn(s, n))
  {
  }

  /** Closing fails iff it is the reader's end and that is closed; it touches no byte and not the
      other end. */
  lemma CloseLaw(s: State)
    ensures var (t, o) := CloseWriter(s); o == Done(0, []) && t == s.(writer := false)
    ensures var (t, o) := CloseReader(s); (o == Done(-1, []) <==> !s.reader) && t == s.(reader := false)
    ensures CloseReader(s).1 in {Done(0, []), Done(-1, [])}
  {
  }

  // ---------------------------------------------------------------- all runs of calls

  datatype Call =
    | CallWrite(buf: seq<byte>) | ResumeWrite(buf: seq<byte>)
    | CallRead(n: nat) | ResumeRead(n: nat)
    | CallCloseWriter | CallCloseReader

  function Step(s: State, c: Call): (r: (State, Outcome))
    requires Bounded(s)
    ensures Bounded(r.0) && r.0.size == s.size
  {
    match c
    case CallWrite(buf) => Write(s, buf)
    case ResumeWrite(buf) => WriteTurn(s, buf)
    case CallRead(n) => Read(s, n)
    case ResumeRead(n) => ReadTurn(s, n)
    case CallCloseWriter => CloseWriter(s)
    case CallCloseReader => CloseReader(s)
  }

  function After(s: State, cs: seq<Call>): (r: State)
    requires Bounded(s)
    ensures Bounded(r)
    decreases |cs|
  {
    if cs == [] then s else After(Step(s, cs[0]).0, cs[1..])
  }

  /** The bytes that a step accepts from a writer: as many as the call says it wrote. */
  function Taken(s: State, c: Call): seq<byte>
    requires Bounded(s)
  {
    var o := Step(s, c).1;
    if (c.CallWrite? || c.ResumeWrite?) && o.Done? && 0 <= o.ret <= |c.buf| then c.buf[..o.ret] else []
  }

  /** The bytes that a step returns to a reader. */
  function Given(s: State, c: Call): seq<byte>
    requires Bounded(s)
  {
    var o := Step(s, c).1;
    if o.Done? then o.data else []
  }

  function Accepted(s: State, cs: seq<Call>): seq<byte>
    requires Bounded(s)
    decreases |cs|
  {
    if cs == [] then [] else Taken(s, cs[0]) + Accepted(Step(s, cs[0]).0, cs[1..])
  }

  function Delivered(s: State, cs: seq<Call>): seq<byte>
    requires Bounded(s)
    decreases |cs|
  {
    if cs == [] then [] else Given(s, cs[0]) + Delivered(Step(s, cs[0]).0, cs[1..])
  }

  lemma FifoStep(s: State, c: Call)
    requires Bounded(s)
    ensures Given(s, c) + Step(s, c).0.contents == s.contents + Taken(s, c)
  {
  }

  lemma Glue<T>(d: seq<T>, x: seq<T>, s: seq<T>, a: seq<T>, d': seq<T>, e: seq<T>, a': seq<T>)
    requires d + x == s + a && d' + e == x + a'
    ensures (d + d') + e == s + (a + a')
  {
    calc {
      (d + d') + e;
      d + (d' + e);
      d + (x + a');
      (d + x) + a';
      (s + a) + a';
      s + (a + a');
    }
  }

  /** Over any calls, in any order: the bytes returned by reads, followed by the bytes still
      in the pipe, are the bytes that were there followed by those that writes accepted. */
  lemma {:induction false} FifoRun(s: State, cs: seq<Call>)
    requires Bounded(s)
    ensures Delivered(s, cs) + After(s, cs).contents == s.contents + Accepted(s, cs)
    decreases |cs|
  {
    if cs != [] {
      var s' := Step(s, cs[0]).0;
      FifoStep(s, cs[0]);
      FifoRun(s', cs[1..]);
      Glue(Given(s, cs[0]), s'.contents, s.contents, Taken(s, cs[0]),
           Delivered(s', cs[1..]), After(s', cs[1..]).contents, Accepted(s', cs[1..]));
    }
  }

  /** Each end is closed exactly by its own call, for good. */
  lemma {:induction false} EndsClosed(s: State, cs: seq<Call>)
    requires Bounded(s)
    ensures After(s, cs).writer <==> s.writer && CallCloseWriter !in cs
    ensures After(s, cs).reader <==> s.reader && CallCloseReader !in cs
    ensures After(s, cs).size == s.size
    decreases |cs|
  {
    if cs != [] {
      EndsClosed(Step(s, cs[0]).0, cs[1..]);
      assert cs == [cs[0]] + cs[1..];
    }
  }

  /** From an empty pipe, a read of at least one byte returns 0 exactly when the writer is
      closed and every byte accepted so far has been delivered. */
  lemma EndOfFile(size: nat, cs: seq<Call>, n: nat)
    requires n > 0
    ensures var s0 := State(size, [], true, true);
      var s := After(s0, cs);
      s.reader ==> (Read(s, n).1 == Done(0, []) <==> !s.writer && Delivered(s0, cs) == Accepted(s0, cs))
  {
    var s0 := State(size, [], true, true);
    FifoRun(s0, cs);
    assert [] + Accepted(s0, cs) == Accepted(s0, cs);
    assert |Delivered(s0, cs)| + |After(s0, cs).contents| == |Accepted(s0, cs)|;
    assert Delivered(s0, cs) + [] == Delivered(s0, cs);
  }

  /** After the writer is closed, reads never wait, and get all remaining bytes, in order,
      before the first 0. */
  lemma {:induction false} Drain(s: State, ns: seq<nat>)
    requires Bounded(s) && s.reader && !s.writer
    requires |ns| >= |s.contents| && forall i :: 0 <= i < |ns| ==> ns[i] > 0
    ensures After(s, Reads(ns)).contents == [] && Delivered(s, Reads(ns)) == s.contents
    decreases |ns|
  {
    if ns == [] {
    } else {
      var s', n := Read(s, ns[0]).0, Min(ns[0], |s.contents|);
      assert Reads(ns)[0] == CallRead(ns[0]) && Reads(ns)[1..] == Reads(ns[1..]);
      Drain(s', ns[1..]);
      assert s.contents == s.contents[..n] + s.contents[n..];
    }
  }

  function Reads(ns: seq<nat>): (cs: seq<Call>)
    ensures |cs| == |ns|
  {
    seq(|ns|, i requires 0 <= i < |ns| => CallRead(ns[i]))
  }

  /** A writer that writes what is left of `buf` and a reader that reads, in turns. */
  function Turns(buf: seq<byte>, size: nat): (cs: seq<Call>)
    requires size > 0
    decreases |buf|
  {
    if buf == [] then [] else [CallWrite(buf)] + ([CallRead(size)] + Turns(buf[Min(|buf|, size)..], size))
  }

  lemma FirstCall(s: State, c: Call, cs: seq<Call>)
    requires Bounded(s)
    ensures After(s, [c] + cs) == After(Step(s, c).0, cs)
    ensures Delivered(s, [c] + cs) == Given(s, c) + Delivered(Step(s, c).0, cs)
  {
    assert ([c] + cs)[1..] == cs;
  }

  /** Any buffer goes through a pipe of any size, whole and in order: each
      turn moves as much as fits. */
  lemma {:induction false} Transfer(buf: seq<byte>, size: nat)
    requires size > 0
    ensures var s := State(size, [], true, true);
      && Delivered(s, Turns(buf, size)) == buf && After(s, Turns(buf, size)) == s
    decreases |buf|
  {
    if buf != [] {
      var s, k := State(size, [], true, true), Min(|buf|, size);
      var rest := buf[k..];
      TurnMoves(buf, size);
      FirstCall(s, CallWrite(buf), [CallRead(size)] + Turns(rest, size));
      FirstCall(s.(contents := buf[..k]), CallRead(size), Turns(rest, size));
      Transfer(rest, size);
      assert [] + (buf[..k] + rest) == buf;
    }
  }

  lemma TurnMoves(buf: seq<byte>, size: nat)
    requires size > 0 && buf != []
    ensures var s, k := State(size, [], true, true), Min(|buf|, size);
      var full := s.(contents := buf[..k]);
      && Step(s, CallWrite(buf)).0 == full && Given(s, CallWrite(buf)) == []
      && Step(full, CallRead(size)).0 == s && Given(full, CallRead(size)) == buf[..k]
  {
    var k := Min(|buf|, size);
    assert [] + buf[..k] == buf[..k];
    assert buf[..k][k..] == [] && buf[..k][..k] == buf[..k];
  }
}
