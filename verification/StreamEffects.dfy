/** What each system call on streams (old/kernel_streams.c, old/kernel_pipe.c) does: to which
    stream each descriptor of each process leads afterwards, and which streams are closed. */
module StreamEffects {
  import opened Sequences
  import opened StreamTable
  import opened StreamCalls

  /** From `t` to `r` entry `fd` of process `p` became `f`, and no other entry of any process
      changed. */
  ghost predicate OneEntry(t: Table, r: Table, p: nat, fd: int, f: int) {
    && p < |t.fidt| == |r.fidt| && 0 <= fd < |t.fidt[p]| && |r.fidt[p]| == |t.fidt[p]|
    && r.fidt[p][fd] == f
    && (forall e :: 0 <= e < |t.fidt[p]| && e != fd ==> r.fidt[p][e] == t.fidt[p][e])
    && (forall q :: 0 <= q < |t.fidt| && q != p ==> r.fidt[q] == t.fidt[q])
  }

  /** The stream of FCB `f` was closed, and no other. */
  ghost predicate JustClosed(t: Table, r: Table, f: int) {
    && 0 <= f < |t.stream| && r.closed == t.closed + [t.stream[f]] && r.stream == t.stream[f := NULL]
    && r.free == t.free + [f] && r.opens == t.opens
  }

  ghost predicate NoneClosed(t: Table, r: Table) {
    r.closed == t.closed && r.stream == t.stream && r.free == t.free && r.opens == t.opens
  }

  /** One reference to FCB `f` was given up: its stream was closed iff that was the only one. */
  ghost predicate GaveUp(t: Table, r: Table, f: int) {
    if Refs(t, f) == 1 then JustClosed(t, r, f) else NoneClosed(t, r)
  }

  lemma DecrefGivesUp(t: Table, s: Table, f: int)
    requires Inv(t) && 0 <= f < |t.ref| && f !in t.free && s == t.(fidt := s.fidt, inflight := s.inflight)
    ensures GaveUp(t, Decref(s, f), f)
    ensures Decref(s, f).fidt == s.fidt && Decref(s, f).inflight == s.inflight && |Decref(s, f).ref| == |t.ref|
  {
  }

  /** Close of a descriptor that is closed, or none, changes nothing.  Otherwise the descriptor is
      closed, and its stream iff nothing else refers to it. */
  lemma CloseLaw(t: Table, p: nat, fd: int)
    requires Inv(t) && p < |t.fidt|
    ensures var f, r := Entry(t, p, fd), Close(t, p, fd);
      if f == NULL then r == t
      else OneEntry(t, r, p, fd, NULL) && GaveUp(t, r, f) && r.inflight == t.inflight
  {
    if Entry(t, p, fd) != NULL {
      EntryInUse(t, p, fd);
      DecrefGivesUp(t, SetEntry(t, p, fd, NULL), Entry(t, p, fd));
    }
  }

  /** Dup2 fails, and changes nothing, iff a descriptor is out of range or `oldfd` is closed.
      Otherwise `newfd` leads to the same stream as `oldfd` and all other descriptors of all
      processes lead where they did; a stream that only `newfd` referred to is closed, unless
      it is the same, and no other. */
  lemma Dup2Law(t: Table, p: nat, oldfd: int, newfd: int)
    requires Inv(t) && p < |t.fidt|
    ensures var r, f, g := Dup2(t, p, oldfd, newfd), Entry(t, p, oldfd), Entry(t, p, newfd);
      if 0 <= newfd < |t.fidt[p]| && f != NULL then
        && OneEntry(t, r, p, newfd, f) && r.inflight == t.inflight
        && (if g != NULL && g != f then GaveUp(t, r, g) else NoneClosed(t, r))
        && 0 <= f < |t.stream| == |r.stream| && r.stream[f] == t.stream[f]
      else r == t
  {
    var f, g := Entry(t, p, oldfd), Entry(t, p, newfd);
    if 0 <= newfd < |t.fidt[p]| && f != NULL {
      EntryInUse(t, p, oldfd);
      if f != g && g != NULL {
        EntryInUse(t, p, newfd);
        DecrefGivesUp(t, t, g);
      }
    }
  }

  /** Only the order of the free list may have changed, and counters of free FCBs. */
  ghost predicate NothingOpened(t: Table, r: Table) {
    r == t.(ref := r.ref, free := r.free) && forall f :: f in r.free <==> f in t.free
  }

  lemma ReserveFailsClean(t: Table, p: nat, num: nat)
    requires Inv(t) && p < |t.fidt| && !Reserve(t, p, num).1
    ensures NothingOpened(t, Reserve(t, p, num).0)
  {
    ReserveLaw(t, p, num);
    forall f ensures f in Rev(t.free) <==> f in t.free {
      RevMembers(t.free, f);
    }
  }

  /** Opening a stream needs a closed descriptor, a free FCB and the device.  The lowest closed
      descriptor then leads to the new stream; if it fails no descriptor and no stream changes. */
  lemma OpenStreamLaw(t: Table, p: nat, deviceOk: bool)
    requires Inv(t) && p < |t.fidt|
    ensures var r, fids := OpenStream(t, p, deviceOk), FreeFids(t.fidt[p], 0, 1);
      if deviceOk && fids != [] && t.free != [] then
        var f := t.free[0];
        && OneEntry(t, r, p, fids[0], f) && t.fidt[p][fids[0]] == NULL && r.inflight == t.inflight
        && 0 <= f < |t.stream| && r.stream == t.stream[f := t.opens] && r.opens == t.opens + 1
        && r.closed == t.closed && r.free == t.free[1..]
      else
        && NothingOpened(t, r)
        && (fids != [] && t.free != [] ==> r.free == t.free[1..] + [t.free[0]])
  {
    ReserveLaw(t, p, 1);
    var fids := FreeFids(t.fidt[p], 0, 1);
    if fids != [] && t.free != [] {
      ReserveOne(t, p);
      assert t.free[..1] == [t.free[0]] && fids == [fids[0]];
      if !deviceOk {
        UnreserveUndoes(t, p);
      }
    } else {
      ReserveFailsClean(t, p, 1);
    }
  }

  /** Giving the reservation of one FCB back leaves the descriptors as they were. */
  lemma UnreserveUndoes(t: Table, p: nat)
    requires Inv(t) && p < |t.fidt| && Reserve(t, p, 1).1
    ensures t.free != [] && |FreeFids(t.fidt[p], 0, 1)| == 1
    ensures var r, fd, f := Reserve(t, p, 1).0, FreeFids(t.fidt[p], 0, 1)[0], t.free[0];
      p < |r.fidt| && fd < |r.fidt[p]| && NothingOpened(t, Unreserve(r, p, fd, f))
      && Unreserve(r, p, fd, f).free == t.free[1..] + [f]
  {
    ReserveLaw(t, p, 1);
    var r, fids, f := Reserve(t, p, 1).0, FreeFids(t.fidt[p], 0, 1), t.free[0];
    var u := Unreserve(r, p, fids[0], f);
    assert t.free == [f] + t.free[1..];
    assert fids == [fids[0]];
    assert u.fidt[p] == t.fidt[p];
    assert u.fidt == t.fidt;
  }

  /** From `t` to `r` the two free entries hold two FCBs with new streams, the reader's end first. */
  ghost predicate Piped(t: Table, r: Table, p: nat, fids: seq<nat>) {
    && p < |t.fidt| && |fids| == 2 && fids[0] < fids[1] < |t.fidt[p]| && |t.free| >= 2
    && t.fidt[p][fids[0]] == NULL == t.fidt[p][fids[1]]
    && var f, g := t.free[0], t.free[1];
       && Entered(t, r, p, fids, [f, g]) && r.inflight == t.inflight
       && 0 <= f < |t.stream| && 0 <= g < |t.stream| && f != g
       && r.stream == t.stream[f := t.opens][g := t.opens + 1] && r.opens == t.opens + 2
       && r.closed == t.closed && r.free == t.free[2..]
  }

  lemma PipeReserves(t: Table, p: nat)
    requires Inv(t) && p < |t.fidt| && Reserve(t, p, 2).1
    ensures var r, fids := Reserve(t, p, 2).0, FreeFids(t.fidt[p], 0, 2);
      && |fids| == 2 && |t.free| >= 2 && t.free[0] != t.free[1]
      && 0 <= t.free[0] < |t.stream| && 0 <= t.free[1] < |t.stream|
      && Entered(t, r, p, fids, [t.free[0], t.free[1]]) && r == t.(ref := r.ref, free := t.free[2..], fidt := r.fidt)
  {
    ReserveLaw(t, p, 2);
    assert t.free[..2] == [t.free[0], t.free[1]];
  }

  /** Pipe needs two closed descriptors and two free FCBs.  The two lowest closed descriptors then
      lead to two new streams, the lower one to the reader's end and the other to the writer's;
      if it fails no descriptor and no stream changes. */
  lemma OpenPipeLaw(t: Table, p: nat)
    requires Inv(t) && p < |t.fidt|
    ensures var r, fids := OpenPipe(t, p), FreeFids(t.fidt[p], 0, 2);
      if |fids| == 2 && |t.free| >= 2 then Piped(t, r, p, fids) else NothingOpened(t, r)
  {
    var fids := FreeFids(t.fidt[p], 0, 2);
    if Reserve(t, p, 2).1 {
      PipeReserves(t, p);
      PipeInstalls(t, Reserve(t, p, 2).0, p, fids);
    } else {
      ReserveFailsClean(t, p, 2);
    }
  }

  lemma PipeInstalls(t: Table, r: Table, p: nat, fids: seq<nat>)
    requires p < |t.fidt| && |fids| == 2 && fids[0] < fids[1] < |t.fidt[p]| && |t.free| >= 2 && t.free[0] != t.free[1]
    requires t.fidt[p][fids[0]] == NULL == t.fidt[p][fids[1]]
    requires 0 <= t.free[0] < |t.stream| && 0 <= t.free[1] < |t.stream|
    requires Entered(t, r, p, fids, [t.free[0], t.free[1]])
    requires r == t.(ref := r.ref, free := t.free[2..], fidt := r.fidt)
    ensures Piped(t, Install(Install(r, t.free[0]), t.free[1]), p, fids)
  {
  }

  /** A Read or Write of an open descriptor holds its stream, and changes no descriptor; */
  lemma BeginIoLaw(t: Table, p: nat, fd: int)
    requires Inv(t) && p < |t.fidt|
    ensures var r, f := BeginIo(t, p, fd), Entry(t, p, fd);
      && r.fidt == t.fidt && NoneClosed(t, r)
      && r.inflight == if f == NULL then t.inflight else t.inflight[f := t.inflight[f] + 1]
  {
  }

  /** at its end the stream is closed iff the call was all that referred to it. */
  lemma EndIoLaw(t: Table, f: int)
    requires Inv(t) && f in t.inflight
    ensures 0 <= f < |t.ref|
    ensures var r := EndIo(t, f);
      r.fidt == t.fidt && GaveUp(t, r, f) && r.inflight == t.inflight[f := t.inflight[f] - 1]
  {
    assert Refs(t, f) > 0;
    DecrefGivesUp(t, t.(inflight := t.inflight - multiset{f}), f);
  }

  /** Exec opens and closes nothing. */
  lemma {:induction false} InheritLaw(t: Table, parent: nat, child: nat, fd: nat)
    requires Inv(t) && parent < |t.fidt| && child < |t.fidt| && parent != child && fd <= |t.fidt[parent]|
    requires forall i :: fd <= i < |t.fidt[child]| ==> t.fidt[child][i] == NULL
    ensures var r := Inherit(t, parent, child, fd); NoneClosed(t, r) && r.inflight == t.inflight
    decreases |t.fidt[parent]| - fd
  {
    if fd < |t.fidt[parent]| {
      ShareInv(t, parent, child, fd);
      InheritLaw(Share(t, parent, child, fd), parent, child, fd + 1);
    }
  }

  /** Every FCB carries its stream, or has none any more; a stream once closed stays closed. */
  ghost predicate OnlyCloses(t: Table, r: Table) {
    && |r.stream| == |t.stream| && r.opens == t.opens && r.inflight == t.inflight && t.closed <= r.closed
    && forall f :: 0 <= f < |t.stream| ==>
         r.stream[f] == t.stream[f] || (r.stream[f] == NULL && t.stream[f] in r.closed)
  }

  /** The exit of a process clears its descriptors and no others, and opens nothing; which streams
      it closes follows from the invariant: those with no reference left. */
  lemma {:induction false} CleanUpLaw(t: Table, p: nat, fd: nat)
    requires Inv(t) && p < |t.fidt| && fd <= |t.fidt[p]| && forall i :: 0 <= i < fd ==> t.fidt[p][i] == NULL
    ensures var r := CleanUp(t, p, fd);
      && r.fidt == t.fidt[p := seq(|t.fidt[p]|, _ => NULL)] && OnlyCloses(t, r)
    decreases |t.fidt[p]| - fd
  {
    if fd == |t.fidt[p]| {
      assert t.fidt[p] == seq(|t.fidt[p]|, _ => NULL);
      assert t.fidt == t.fidt[p := seq(|t.fidt[p]|, _ => NULL)];
    } else if t.fidt[p][fd] == NULL {
      CleanUpLaw(t, p, fd + 1);
    } else {
      var s := DropRef(t, p, fd);
      DropRefInv(t, p, fd);
      CloseLaw(t, p, fd);
      CleanUpLaw(s, p, fd + 1);
      ClosesOn(t, s, CleanUp(s, p, fd + 1), t.fidt[p][fd]);
    }
  }

  lemma ClosesOn(t: Table, s: Table, r: Table, f: int)
    requires GaveUp(t, s, f) && s.inflight == t.inflight && OnlyCloses(s, r)
    ensures OnlyCloses(t, r)
  {
    assert t.closed <= s.closed <= r.closed;
    forall g | 0 <= g < |t.stream| && r.stream[g] != t.stream[g]
      ensures r.stream[g] == NULL && t.stream[g] in r.closed
    {
      if s.stream[g] != t.stream[g] {
        assert s.closed[|t.closed|] == t.stream[g] == r.closed[|t.closed|];
      }
    }
  }
}
