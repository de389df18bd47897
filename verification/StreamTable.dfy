/** The table of file control blocks, shared by the file tables of all processes
    (old/kernel_streams.c). */
module StreamTable {
  import opened Sequences

  /** A null pointer in a file table, or no stream. */
  const NULL := -1

  datatype Table = Table(
    ref: seq<int>,              // refcount of each FCB
    free: seq<int>,             // FCB_freelist, from its head
    fidt: seq<seq<int>>,        // FIDT of each process: an FCB, or NULL
    inflight: multiset<int>,    // FCBs held by calls of Read and Write that have not returned
    stream: seq<int>,           // the stream each FCB carries: streams are numbered as they are opened
    opens: nat,                 // how many streams were opened
    closed: seq<int>)           // the streams whose Close ran, in order

  // ---------------------------------------------------------------- counting references

  /** How many entries of one file table name `f`. */
  function Count(row: seq<int>, f: int): nat {
    if row == [] then 0 else (if row[0] == f then 1 else 0) + Count(row[1..], f)
  }

  /** How many entries of all file tables name `f`. */
  function Named(fidt: seq<seq<int>>, f: int): nat {
    if fidt == [] then 0 else Count(fidt[0], f) + Named(fidt[1..], f)
  }

  /** The references to FCB `f`: entries of file tables, and calls under way. */
  function Refs(t: Table, f: int): nat {
    Named(t.fidt, f) + t.inflight[f]
  }

  lemma {:induction false} CountUpdate(row: seq<int>, fd: nat, x: int, f: int)
    requires fd < |row|
    ensures Count(row[fd := x], f) == Count(row, f) - (if row[fd] == f then 1 else 0) + (if x == f then 1 else 0)
  {
    if fd == 0 {
      assert row[0 := x][1..] == row[1..];
    } else {
      assert row[fd := x][1..] == row[1..][fd - 1 := x];
      CountUpdate(row[1..], fd - 1, x, f);
    }
  }

  lemma {:induction false} NamedUpdate(fidt: seq<seq<int>>, p: nat, row: seq<int>, f: int)
    requires p < |fidt|
    ensures Named(fidt[p := row], f) == Named(fidt, f) - Count(fidt[p], f) + Count(row, f)
  {
    if p == 0 {
      assert fidt[0 := row][1..] == fidt[1..];
    } else {
      assert fidt[p := row][1..] == fidt[1..][p - 1 := row];
      NamedUpdate(fidt[1..], p - 1, row, f);
    }
  }

  /** Changing one entry moves one reference. */
  lemma EntryUpdate(fidt: seq<seq<int>>, p: nat, fd: nat, x: int)
    requires p < |fidt| && fd < |fidt[p]|
    ensures forall f {:trigger Named(fidt[p := fidt[p][fd := x]], f)} ::
      Named(fidt[p := fidt[p][fd := x]], f) ==
        Named(fidt, f) - (if fidt[p][fd] == f then 1 else 0) + (if x == f then 1 else 0)
  {
    forall f
      ensures Named(fidt[p := fidt[p][fd := x]], f) ==
        Named(fidt, f) - (if fidt[p][fd] == f then 1 else 0) + (if x == f then 1 else 0)
    {
      CountUpdate(fidt[p], fd, x, f);
      NamedUpdate(fidt, p, fidt[p][fd := x], f);
    }
  }

  lemma {:induction false} CountIn(row: seq<int>, f: int)
    ensures Count(row, f) > 0 <==> f in row
  {
    if row != [] {
      CountIn(row[1..], f);
    }
  }

  /** An FCB has no entry exactly when no file table names it. */
  lemma {:induction false} NamedIn(fidt: seq<seq<int>>, f: int)
    ensures Named(fidt, f) > 0 <==> exists p :: 0 <= p < |fidt| && f in fidt[p]
  {
    if fidt != [] {
      CountIn(fidt[0], f);
      NamedIn(fidt[1..], f);
      if f in fidt[0] {
      } else if Named(fidt[1..], f) > 0 {
        var p :| 0 <= p < |fidt[1..]| && f in fidt[1..][p];
        assert f in fidt[p + 1];
      }
      assert forall p :: 1 <= p < |fidt| ==> fidt[p] == fidt[1..][p - 1];
    }
  }

  // ---------------------------------------------------------------- the invariant

  ghost predicate Shape(t: Table) {
    && |t.stream| == |t.ref|
    && (forall i :: 0 <= i < |t.free| ==> 0 <= t.free[i] < |t.ref|)
    && (forall p, fd :: 0 <= p < |t.fidt| && 0 <= fd < |t.fidt[p]| ==> NULL <= t.fidt[p][fd] < |t.ref|)
    && (forall p, q :: 0 <= p < q < |t.fidt| ==> |t.fidt[p]| == |t.fidt[q]|)
    && (forall f :: f in t.inflight ==> 0 <= f < |t.ref|)
  }

  /** An FCB is on the free list, once, iff nothing refers to it; otherwise its counter is
      the number of references.  The FCBs `pending` were taken off the list by a reservation
      that has not entered them in a file table yet. */
  ghost predicate Conserved(t: Table, pending: set<int>)
    requires Shape(t)
  {
    && Distinct(t.free)
    && (forall f :: 0 <= f < |t.ref| ==> (f in t.free <==> Refs(t, f) == 0 && f !in pending))
    && (forall f :: 0 <= f < |t.ref| && f !in t.free ==> t.ref[f] == Refs(t, f))
    && (forall f :: f in pending ==> 0 <= f < |t.ref| && Refs(t, f) == 0)
  }

  /** Every opened stream was closed once, or is carried by exactly one FCB in use. */
  ghost predicate StreamsOnce(t: Table)
    requires Shape(t)
  {
    && Distinct(t.closed)
    && (forall i :: 0 <= i < |t.closed| ==> 0 <= t.closed[i] < t.opens)
    && (forall f :: 0 <= f < |t.ref| ==> NULL <= t.stream[f] < t.opens && t.stream[f] !in t.closed)
    && (forall f :: 0 <= f < |t.ref| && f in t.free ==> t.stream[f] == NULL)
    && (forall f, g :: 0 <= f < g < |t.ref| && t.stream[f] != NULL ==> t.stream[f] != t.stream[g])
    && (forall n :: 0 <= n < t.opens ==> n in t.closed || n in t.stream)
  }

  ghost predicate InvBut(t: Table, pending: set<int>) {
    Shape(t) && Conserved(t, pending) && StreamsOnce(t)
  }

  /** What holds whenever the kernel lock is released: also, every FCB in use carries a stream. */
  ghost predicate Inv(t: Table) {
    InvBut(t, {}) && forall f :: 0 <= f < |t.ref| && f !in t.free ==> t.stream[f] != NULL
  }

  // ---------------------------------------------------------------- reference counting

  function Incref(t: Table, f: int): Table
    requires 0 <= f < |t.ref|
  {
    t.(ref := t.ref[f := t.ref[f] + 1])
  }

  /** `FCB_decref`: the last reference closes the stream and frees the FCB. */
  function Decref(t: Table, f: int): Table
    requires 0 <= f < |t.ref| == |t.stream|
  {
    var t1 := t.(ref := t.ref[f := t.ref[f] - 1]);
    if t1.ref[f] == 0 then
      t1.(closed := t1.closed + [t1.stream[f]], stream := t1.stream[f := NULL], free := t1.free + [f])
    else t1
  }

  function SetEntry(t: Table, p: nat, fd: nat, f: int): Table
    requires p < |t.fidt| && fd < |t.fidt[p]|
  {
    t.(fidt := t.fidt[p := t.fidt[p][fd := f]])
  }

  /** A new entry for an FCB in use. */
  function AddRef(t: Table, p: nat, fd: nat, f: int): Table
    requires p < |t.fidt| && fd < |t.fidt[p]| && 0 <= f < |t.ref|
  {
    SetEntry(Incref(t, f), p, fd, f)
  }

  /** An entry is cleared. */
  function DropRef(t: Table, p: nat, fd: nat): Table
    requires Shape(t) && p < |t.fidt| && fd < |t.fidt[p]| && t.fidt[p][fd] != NULL
  {
    Decref(SetEntry(t, p, fd, NULL), t.fidt[p][fd])
  }

  lemma AddRefInv(t: Table, pending: set<int>, p: nat, fd: nat, f: int)
    requires InvBut(t, pending) && p < |t.fidt| && fd < |t.fidt[p]| && t.fidt[p][fd] == NULL
    requires 0 <= f < |t.ref| && f !in t.free
    ensures InvBut(AddRef(t, p, fd, f), pending - {f})
  {
    EntryUpdate(t.fidt, p, fd, f);
    var r := AddRef(t, p, fd, f);
    assert forall g :: 0 <= g < |t.ref| ==> Refs(r, g) == Refs(t, g) + (if g == f then 1 else 0);
  }

  lemma DecrefConserved(t: Table, s: Table, f: int)
    requires Shape(t) && Conserved(t, {}) && Shape(s) && 0 <= f < |t.ref| && f !in t.free
    requires s == t.(fidt := s.fidt, inflight := s.inflight)
    requires forall g :: 0 <= g < |t.ref| ==> Refs(s, g) == Refs(t, g) - (if g == f then 1 else 0)
    ensures Shape(Decref(s, f)) && Conserved(Decref(s, f), {})
  {
    var r := Decref(s, f);
    assert forall g :: Refs(r, g) == Refs(s, g);
    assert forall g :: g in t.free + [f] <==> g in t.free || g == f;
  }

  /** Closing the stream of one FCB, which goes to the free list. */
  lemma CloseStreams(t: Table, f: int)
    requires Shape(t) && StreamsOnce(t) && 0 <= f < |t.ref| && t.stream[f] != NULL
    ensures StreamsOnce(t.(closed := t.closed + [t.stream[f]], stream := t.stream[f := NULL], free := t.free + [f]))
  {
    var r := t.(closed := t.closed + [t.stream[f]], stream := t.stream[f := NULL], free := t.free + [f]);
    forall n | 0 <= n < t.opens ensures n in r.closed || n in r.stream {
      if n !in t.closed {
        var g :| 0 <= g < |t.stream| && t.stream[g] == n;
        assert g != f ==> r.stream[g] == n;
        assert g == f ==> r.closed[|t.closed|] == n;
      }
    }
    assert forall n :: n in r.closed <==> n in t.closed || n == t.stream[f];
  }

  /** One reference to FCB `f` goes: the counter follows, and the last one closes its stream. */
  lemma DecrefInv(t: Table, s: Table, f: int)
    requires Inv(t) && Shape(s) && 0 <= f < |t.ref| && f !in t.free
    requires s == t.(fidt := s.fidt, inflight := s.inflight)
    requires forall g :: 0 <= g < |t.ref| ==> Refs(s, g) == Refs(t, g) - (if g == f then 1 else 0)
    ensures Inv(Decref(s, f))
  {
    DecrefConserved(t, s, f);
    if t.ref[f] == 1 {
      CloseStreams(t, f);
    }
  }

  lemma DropRefInv(t: Table, p: nat, fd: nat)
    requires Inv(t) && p < |t.fidt| && fd < |t.fidt[p]| && t.fidt[p][fd] != NULL
    ensures Inv(DropRef(t, p, fd)) && t.fidt[p][fd] !in t.free
  {
    var f := t.fidt[p][fd];
    EntryUpdate(t.fidt, p, fd, NULL);
    NamedIn(t.fidt, f);
    assert f in t.fidt[p];
    DecrefInv(t, SetEntry(t, p, fd, NULL), f);
  }

  // ---------------------------------------------------------------- reservation

  /** The first `num` free entries of a file table from `fd` on, or all of them if fewer. */
  function FreeFids(row: seq<int>, fd: nat, num: nat): (r: seq<nat>)
    ensures |r| <= num
    ensures forall i :: 0 <= i < |r| ==> fd <= r[i] < |row| && row[r[i]] == NULL
    ensures forall i, j :: 0 <= i < j < |r| ==> r[i] < r[j]
    decreases |row| - fd
  {
    if num == 0 || fd >= |row| then []
    else if row[fd] == NULL then [fd] + FreeFids(row, fd + 1, num - 1)
    else FreeFids(row, fd + 1, num)
  }

  /** No free entry before the last one found was passed over; if fewer than `num` were found
      there are no others. */
  lemma {:induction false} FreeFidsSmallest(row: seq<int>, fd: nat, num: nat, n: nat)
    requires fd <= n < |row| && row[n] == NULL
    ensures n in FreeFids(row, fd, num)
        || (|FreeFids(row, fd, num)| == num && forall i :: 0 <= i < num ==> FreeFids(row, fd, num)[i] < n)
    decreases |row| - fd
  {
    if num > 0 && fd < n {
      FreeFidsSmallest(row, fd + 1, if row[fd] == NULL then num - 1 else num, n);
    }
  }

  function ZeroRefs(ref: seq<int>, fcbs: seq<int>): (r: seq<int>)
    requires forall i :: 0 <= i < |fcbs| ==> 0 <= fcbs[i] < |ref|
    ensures |r| == |ref|
    ensures forall f :: 0 <= f < |ref| ==> r[f] == if f in fcbs then 0 else ref[f]
    decreases |fcbs|
  {
    if fcbs == [] then ref else ZeroRefs(ref[fcbs[0] := 0], fcbs[1..])
  }

  /** `acquire_FCB`, `n` times. */
  function Acquire(t: Table, n: nat): Table
    requires Shape(t) && n <= |t.free|
  {
    t.(free := t.free[n..], ref := ZeroRefs(t.ref, t.free[..n]))
  }

  /** Enters the FCBs in a file table. */
  function Fill(t: Table, p: nat, fids: seq<nat>, fcbs: seq<int>): (r: Table)
    requires p < |t.fidt| && |fids| == |fcbs|
    requires forall i :: 0 <= i < |fids| ==> fids[i] < |t.fidt[p]| && 0 <= fcbs[i] < |t.ref|
    decreases |fids|
  {
    if fids == [] then t else Fill(AddRef(t, p, fids[0], fcbs[0]), p, fids[1..], fcbs[1..])
  }

  /** `FCB_reserve`: the new state, and whether it succeeded. */
  function Reserve(t: Table, p: nat, num: nat): (Table, bool)
    requires Shape(t) && p < |t.fidt|
  {
    var fids := FreeFids(t.fidt[p], 0, num);
    if |fids| < num then (t, false)
    else if |t.free| < num then (t.(free := Rev(t.free), ref := ZeroRefs(t.ref, t.free)), false)
    else (Fill(Acquire(t, num), p, fids, t.free[..num]), true)
  }

  ghost function SetOf(s: seq<int>): set<int> {
    set f | f in s
  }

  lemma AcquireInv(t: Table, n: nat)
    requires InvBut(t, {}) && n <= |t.free|
    ensures InvBut(Acquire(t, n), SetOf(t.free[..n]))
  {
    var r := Acquire(t, n);
    assert t.free == t.free[..n] + t.free[n..];
    assert forall f :: Refs(r, f) == Refs(t, f);
    forall f | f in t.free[..n] ensures f !in t.free[n..] {
    }
  }

  /** From `t` to `r` the file table of process `p` got exactly these entries. */
  ghost predicate Entered(t: Table, r: Table, p: nat, fids: seq<nat>, fcbs: seq<int>) {
    && |r.ref| == |t.ref| && |r.fidt| == |t.fidt| && p < |t.fidt| && |r.fidt[p]| == |t.fidt[p]| && |fids| == |fcbs|
    && (forall i :: 0 <= i < |fids| ==> fids[i] < |t.fidt[p]| && r.fidt[p][fids[i]] == fcbs[i])
    && (forall fd: nat :: fd < |t.fidt[p]| && fd !in fids ==> r.fidt[p][fd] == t.fidt[p][fd])
    && (forall q :: 0 <= q < |t.fidt| && q != p ==> r.fidt[q] == t.fidt[q])
  }

  ghost predicate Fits(t: Table, p: nat, fids: seq<nat>, fcbs: seq<int>) {
    && p < |t.fidt| && |fids| == |fcbs| && Distinct(fcbs)
    && (forall i, j :: 0 <= i < j < |fids| ==> fids[i] < fids[j])
    && (forall i :: 0 <= i < |fids| ==> fids[i] < |t.fidt[p]| && 0 <= fcbs[i] < |t.ref|)
  }

  lemma EnteredFirst(t: Table, t1: Table, r: Table, p: nat, fids: seq<nat>, fcbs: seq<int>)
    requires Fits(t, p, fids, fcbs) && fids != [] && t1 == AddRef(t, p, fids[0], fcbs[0])
    requires Entered(t1, r, p, fids[1..], fcbs[1..])
    ensures Entered(t, r, p, fids, fcbs)
  {
    assert fids[0] !in fids[1..];
    assert forall i :: 1 <= i < |fids| ==> fids[i] == fids[1..][i - 1] && fcbs[i] == fcbs[1..][i - 1];
    assert fids == [fids[0]] + fids[1..];
  }

  lemma FitsRest(t: Table, p: nat, fids: seq<nat>, fcbs: seq<int>)
    requires Fits(t, p, fids, fcbs) && fids != []
    ensures Fits(AddRef(t, p, fids[0], fcbs[0]), p, fids[1..], fcbs[1..])
    ensures fcbs[0] !in fcbs[1..] && fcbs == [fcbs[0]] + fcbs[1..]
  {
  }

  /** Filling enters exactly the given FCBs at the given places, each with one reference more. */
  lemma {:induction false} FillLaw(t: Table, p: nat, fids: seq<nat>, fcbs: seq<int>)
    requires Fits(t, p, fids, fcbs)
    ensures var r := Fill(t, p, fids, fcbs);
      && r == t.(ref := r.ref, fidt := r.fidt) && Entered(t, r, p, fids, fcbs)
      && (forall f :: 0 <= f < |t.ref| ==> r.ref[f] == t.ref[f] + if f in fcbs then 1 else 0)
    decreases |fids|
  {
    if fids != [] {
      var t1 := AddRef(t, p, fids[0], fcbs[0]);
      FitsRest(t, p, fids, fcbs);
      FillLaw(t1, p, fids[1..], fcbs[1..]);
      EnteredFirst(t, t1, Fill(t, p, fids, fcbs), p, fids, fcbs);
    }
  }

  lemma {:induction false} FillInv(t: Table, pending: set<int>, p: nat, fids: seq<nat>, fcbs: seq<int>)
    requires InvBut(t, pending) && p < |t.fidt| && |fids| == |fcbs|
    requires forall i, j :: 0 <= i < j < |fids| ==> fids[i] < fids[j]
    requires forall i :: 0 <= i < |fids| ==> fids[i] < |t.fidt[p]| && t.fidt[p][fids[i]] == NULL
    requires forall i :: 0 <= i < |fcbs| ==> 0 <= fcbs[i] < |t.ref| && fcbs[i] !in t.free
    ensures InvBut(Fill(t, p, fids, fcbs), pending - SetOf(fcbs))
    decreases |fids|
  {
    if fids == [] {
      assert pending - SetOf(fcbs) == pending;
    } else {
      AddRefInv(t, pending, p, fids[0], fcbs[0]);
      FillInv(AddRef(t, p, fids[0], fcbs[0]), pending - {fcbs[0]}, p, fids[1..], fcbs[1..]);
      assert (pending - {fcbs[0]}) - SetOf(fcbs[1..]) == pending - SetOf(fcbs);
    }
  }

  lemma ReserveInv(t: Table, p: nat, num: nat)
    requires InvBut(t, {}) && p < |t.fidt|
    ensures InvBut(Reserve(t, p, num).0, {})
  {
    var fids := FreeFids(t.fidt[p], 0, num);
    if |fids| == num && |t.free| < num {
      RollbackInv(t);
    } else if |fids| == num {
      var taken := t.free[..num];
      AcquireInv(t, num);
      FillInv(Acquire(t, num), SetOf(taken), p, fids, taken);
      assert SetOf(taken) - SetOf(taken) == {};
    }
  }

  /** `FCB_reserve` is all or nothing.  It succeeds iff there are `num` free entries and `num`
      free FCBs; then the smallest free entries, in order, hold the first FCBs of the free
      list with one reference each, and nothing else changed.  If it fails, no entry changed,
      and the free list is as it was, or reversed when there were entries but no FCBs. */
  lemma ReserveLaw(t: Table, p: nat, num: nat)
    requires Shape(t) && Distinct(t.free) && p < |t.fidt|
    ensures var (r, ok) := Reserve(t, p, num);
      var fids := FreeFids(t.fidt[p], 0, num);
      && (ok <==> |fids| == num && |t.free| >= num)
      && (ok ==>
            && r == t.(ref := r.ref, free := t.free[num..], fidt := r.fidt) && Entered(t, r, p, fids, t.free[..num])
            && (forall f :: 0 <= f < |t.ref| ==> r.ref[f] == if f in t.free[..num] then 1 else t.ref[f]))
      && (!ok ==> r == t.(ref := r.ref, free := r.free))
      && (!ok ==> r.free == if |fids| < num then t.free else Rev(t.free))
  {
    var fids := FreeFids(t.fidt[p], 0, num);
    if |fids| == num && |t.free| >= num {
      FillLaw(Acquire(t, num), p, fids, t.free[..num]);
      assert Entered(Acquire(t, num), Reserve(t, p, num).0, p, fids, t.free[..num]);
    }
  }

  lemma RollbackInv(t: Table)
    requires InvBut(t, {})
    ensures InvBut(t.(free := Rev(t.free), ref := ZeroRefs(t.ref, t.free)), {})
  {
    var r := t.(free := Rev(t.free), ref := ZeroRefs(t.ref, t.free));
    forall f ensures f in r.free <==> f in t.free {
      RevMembers(t.free, f);
    }
    assert forall f :: Refs(r, f) == Refs(t, f);
  }
}
