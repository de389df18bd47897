/** The cells of a pipe: a circular list with a read and a write position. */
module PipeBuffer {
  import opened Sequences
  import opened Bytes
  import opened Pipe

  class Cell {
    var prev: Cell?
    var next: Cell?
    var c: byte

    constructor ()
      ensures prev == null && next == null && c == 0
    {
      prev, next, c := null, null, 0;
    }
  }

  function Wrap(i: nat, n: nat): int {
    if i < n then i else i - n
  }

  /** What cell `k` of `n` holds when the contents start at cell `at`. */
  function Held(k: nat, at: nat, n: nat, contents: seq<byte>): byte
    requires k < n && at < n
  {
    var off := if at <= k then k - at else k + n - at;
    if off < |contents| then contents[off] else 0
  }

  /** The cells form one ring in this order. */
  ghost predicate IsRing(cells: seq<Cell>)
    reads cells
  {
    && |cells| > 1 && Distinct(cells)
    && (forall i {:trigger cells[i].next} :: 0 <= i < |cells| - 1 ==> cells[i].next == cells[i + 1])
    && (forall i {:trigger cells[i].prev} :: 0 < i < |cells| ==> cells[i].prev == cells[i - 1])
    && cells[|cells| - 1].next == cells[0] && cells[0].prev == cells[|cells| - 1]
  }

  /** `init_list` without initial data: `size + 1` cells holding zero, in a ring. */
  method InitList(size: nat) returns (list: Cell, ghost cells: seq<Cell>)
    ensures |cells| == size + 1 && cells[0] == list && Distinct(cells) && fresh(set n | n in cells)
    ensures forall i :: 0 <= i < |cells| ==> cells[i].c == 0
    ensures size > 0 ==> IsRing(cells)
  {
    var start := new Cell();
    list := start;
    cells := [start];
    for k := 0 to size
      invariant |cells| == k + 1 && cells[0] == list && cells[k] == start && Distinct(cells)
      invariant fresh(set n | n in cells)
      invariant forall i :: 0 <= i < |cells| ==> cells[i].c == 0
      invariant if k == 0 then start.next == null else IsRing(cells)
    {
      var node := new Cell();
      node.next := if start.next != null then start.next else start;
      node.prev := start;
      start.next := node;
      node.next.prev := node;
      cells := cells + [node];
      start := node;
    }
  }

  /** The pipe control block. */
  class PipeCb {
    const size: nat
    var reader: bool        // the reader end is open
    var writer: bool
    var wPos: Cell
    var rPos: Cell
    var bufferBytes: nat
    ghost const cells: seq<Cell>
    ghost var at: nat       // rPos is cells[at]
    ghost var contents: seq<byte>

    /** The write position is `bufferBytes` cells after the read position; the cells between
        hold the contents, and all others hold zero. */
    ghost predicate Valid()
      reads this, cells
    {
      && size > 0 && |cells| == size + 1 && IsRing(cells) && at <= size
      && bufferBytes == |contents| <= size
      && rPos == cells[at] && wPos == cells[Wrap(at + bufferBytes, size + 1)]
      && (forall k {:trigger cells[k].c} :: 0 <= k <= size ==> cells[k].c == Held(k, at, size + 1, contents))
    }

    ghost function View(): State
      reads this
    {
      State(size, contents, reader, writer)
    }

    /** `pipe_init`, with both ends attached. */
    constructor (size: nat)
      requires size > 0
      ensures Valid() && View() == State(size, [], true, true)
    {
      var list, cs := InitList(size);
      this.size := size;
      this.reader, this.writer := true, true;
      this.wPos, this.rPos := list, list;
      this.bufferBytes := 0;
      this.cells, this.at, this.contents := cs, 0, [];
    }

    lemma NextCell(i: nat)
      requires Valid() && i <= size
      ensures cells[i].next == cells[Wrap(i + 1, size + 1)]
    {
    }

    /** One turn of the write loop; its test for an occupied cell never succeeds. */
    method PutByte(b: byte)
      requires Valid() && bufferBytes < size
      modifies this`wPos, this`bufferBytes, this`contents, wPos`c
      ensures Valid() && contents == old(contents) + [b]
    {
      ghost var w := Wrap(at + bufferBytes, size + 1);
      NextCell(w);
      assert Held(w, at, size + 1, contents) == 0;
      assert wPos.c == 0;
      wPos.c := b;
      wPos := wPos.next;
      bufferBytes := bufferBytes + 1;
      contents := contents + [b];
      HeldAfterPut(at, size + 1, old(contents), b);
    }

    /** One turn of the read loop. */
    method TakeByte() returns (b: byte)
      requires Valid() && bufferBytes > 0
      modifies this`rPos, this`bufferBytes, this`contents, this`at, rPos`c
      ensures Valid() && [b] + contents == old(contents)
    {
      ghost var a := at;
      NextCell(a);
      b := rPos.c;
      assert b == Held(a, a, size + 1, contents) == contents[0];
      rPos.c := 0;
      rPos := rPos.next;
      bufferBytes := bufferBytes - 1;
      contents := contents[1..];
      at := Wrap(a + 1, size + 1);
      HeldAfterTake(a, size + 1, old(contents));
    }

    /** `pipe_write` from its wait loop on; `Blocked` is a call of `kernel_wait`. */
    method PipeWriteTurn(buf: seq<byte>) returns (o: Outcome)
      requires Valid()
      modifies this`wPos, this`bufferBytes, this`contents, cells
      ensures Valid() && (View(), o) == WriteTurn(old(View()), buf)
    {
      var available := size - bufferBytes;
      if available == 0 && reader {
        return Blocked;
      }
      if !reader {
        return Done(-1, []);
      }
      var w := if |buf| < available then |buf| else available;
      ghost var s := contents;
      for i := 0 to w
        invariant Valid() && contents == s + buf[..i]
      {
        PutByte(buf[i]);
        assert buf[..i + 1] == buf[..i] + [buf[i]];
      }
      return Done(w, []);
    }

    method PipeWrite(buf: seq<byte>) returns (o: Outcome)
      requires Valid()
      modifies this`wPos, this`bufferBytes, this`contents, cells
      ensures Valid() && (View(), o) == Write(old(View()), buf)
    {
      if !writer || !reader {
        return Done(-1, []);
      }
      o := PipeWriteTurn(buf);
    }

    /** `pipe_read` from its wait loop on. */
    method PipeReadTurn(n: nat) returns (o: Outcome)
      requires Valid()
      modifies this`rPos, this`bufferBytes, this`contents, this`at, cells
      ensures Valid() && (View(), o) == ReadTurn(old(View()), n)
    {
      if bufferBytes == 0 && writer {
        return Blocked;
      }
      if !writer && bufferBytes == 0 {
        return Done(0, []);
      }
      var r := if n < bufferBytes then n else bufferBytes;
      ghost var s := contents;
      var buf := [];
      for i := 0 to r
        invariant Valid() && |buf| == i && buf + contents == s
      {
        var b := TakeByte();
        ghost var rest := contents;
        assert (buf + [b]) + rest == buf + ([b] + rest);
        buf := buf + [b];
      }
      assert buf == s[..r] && contents == s[r..];
      return Done(r, buf);
    }

    method PipeRead(n: nat) returns (o: Outcome)
      requires Valid()
      modifies this`rPos, this`bufferBytes, this`contents, this`at, cells
      ensures Valid() && (View(), o) == Read(old(View()), n)
    {
      if !reader {
        return Done(-1, []);
      }
      if !writer && bufferBytes == 0 {
        return Done(0, []);
      }
      o := PipeReadTurn(n);
    }

    method PipeWriterClose() returns (o: Outcome)
      requires Valid()
      modifies this`writer
      ensures Valid() && (View(), o) == CloseWriter(old(View()))
    {
      writer := false;
      return Done(0, []);
    }

    method PipeReaderClose() returns (o: Outcome)
      requires Valid()
      modifies this`reader
      ensures Valid() && (View(), o) == CloseReader(old(View()))
    {
      if !reader {
        return Done(-1, []);
      }
      reader := false;
      return Done(0, []);
    }
  }

  lemma HeldAfterPut(at: nat, n: nat, s: seq<byte>, b: byte)
    requires at < n && |s| + 1 < n
    ensures forall k {:trigger Held(k, at, n, s + [b])} :: 0 <= k < n ==>
      Held(k, at, n, s + [b]) == if k == Wrap(at + |s|, n) then b else Held(k, at, n, s)
  {
  }

  lemma HeldAfterTake(at: nat, n: nat, s: seq<byte>)
    requires at < n && 0 < |s| < n
    ensures forall k {:trigger Held(k, Wrap(at + 1, n), n, s[1..])} :: 0 <= k < n ==>
      Held(k, Wrap(at + 1, n), n, s[1..]) == if k == at then 0 else Held(k, at, n, s)
  {
  }
}
