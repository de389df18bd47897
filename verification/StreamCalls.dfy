/** The system calls on streams, and all runs of them. */
module StreamCalls {
  import opened Sequences
  import opened StreamTable

  /** The entry of file `fd`, or NULL (`get_fcb`). */
  function Entry(t: Table, p: nat, fd: int): int
    requires p < |t.fidt|
  {
    if 0 <= fd < |t.fidt[p]| then t.fidt[p][fd] else NULL
  }

  /** A successful open gives the FCB its stream. */
  function Install(t: Table, f: int): Table
    requires 0 <= f < |t.stream|
  {
    t.(stream := t.stream[f := t.opens], opens := t.opens + 1)
  }

  /** `FCB_unreserve` of one FCB. */
  function Unreserve(t: Table, p: nat, fd: nat, f: int): Table
    requires p < |t.fidt| && fd < |t.fidt[p]|
  {
    SetEntry(t, p, fd, NULL).(free := t.free + [f])
  }

  /** `open_stream`; `deviceOk` is whether the device could be opened. */
  function OpenStream(t: Table, p: nat, deviceOk: bool): Table
    requires InvBut(t, {}) && p < |t.fidt|
  {
    var (r, ok) := Reserve(t, p, 1);
    if !ok then r
    else
      ReserveLaw(t, p, 1);
      var fd, f := FreeFids(t.fidt[p], 0, 1)[0], t.free[0];
      if deviceOk then Install(r, f) else Unreserve(r, p, fd, f)
  }

  /** The part of `sys_Pipe` that concerns FCBs. */
  function OpenPipe(t: Table, p: nat): Table
    requires InvBut(t, {}) && p < |t.fidt|
  {
    var (r, ok) := Reserve(t, p, 2);
    if !ok then r
    else
      ReserveLaw(t, p, 2);
      Install(Install(r, t.free[0]), t.free[1])
  }

  /** The start and the end of `sys_Read` and `sys_Write`: the call holds a reference. */
  function BeginIo(t: Table, p: nat, fd: int): Table
    requires Shape(t) && p < |t.fidt|
  {
    var f := Entry(t, p, fd);
    if f == NULL then t else Incref(t, f).(inflight := t.inflight + multiset{f})
  }

  function EndIo(t: Table, f: int): Table
    requires Shape(t) && 0 <= f < |t.ref|
  {
    Decref(t.(inflight := t.inflight - multiset{f}), f)
  }

  function Close(t: Table, p: nat, fd: int): Table
    requires Shape(t) && p < |t.fidt|
  {
    if Entry(t, p, fd) == NULL then t else DropRef(t, p, fd)
  }

  function Dup2(t: Table, p: nat, oldfd: int, newfd: int): Table
    requires Shape(t) && p < |t.fidt|
  {
    var f, g := Entry(t, p, oldfd), Entry(t, p, newfd);
    if !(0 <= oldfd < |t.fidt[p]| && 0 <= newfd < |t.fidt[p]|) || f == NULL || f == g then t
    else
      var t1 := if g != NULL then Decref(t, g) else t;
      SetEntry(Incref(t1, f), p, newfd, f)
  }

  /** The loop of `sys_Exec` that copies the parent's file table, from entry `fd` on. */
  function Inherit(t: Table, parent: nat, child: nat, fd: nat): Table
    requires Shape(t) && parent < |t.fidt| && child < |t.fidt| && parent != child && fd <= |t.fidt[parent]|
    decreases |t.fidt[parent]| - fd
  {
    if fd == |t.fidt[parent]| then t
    else
      Inherit(Share(t, parent, child, fd), parent, child, fd + 1)
  }

  /** The loop of `sys_ThreadExit` that clears the file table, from entry `fd` on. */
  function CleanUp(t: Table, p: nat, fd: nat): Table
    requires Shape(t) && p < |t.fidt| && fd <= |t.fidt[p]|
    decreases |t.fidt[p]| - fd
  {
    if fd == |t.fidt[p]| then t
    else CleanUp(if t.fidt[p][fd] == NULL then t else DropRef(t, p, fd), p, fd + 1)
  }

  // ---------------------------------------------------------------- every call keeps the invariant

  lemma InstallInv(t: Table, f: int)
    requires InvBut(t, {}) && 0 <= f < |t.ref| && f !in t.free && t.stream[f] == NULL
    ensures InvBut(Install(t, f), {})
  {
    var r := Install(t, f);
    assert forall g :: Refs(r, g) == Refs(t, g);
    InstallStreams(t, f);
  }

  lemma InstallStreams(t: Table, f: int)
    requires Shape(t) && StreamsOnce(t) && 0 <= f < |t.ref| && f !in t.free && t.stream[f] == NULL
    ensures StreamsOnce(Install(t, f))
  {
    var r := Install(t, f);
    forall n | 0 <= n < r.opens ensures n in r.closed || n in r.stream {
      if n == t.opens {
        assert r.stream[f] == n;
      } else if n !in t.closed {
        var g :| 0 <= g < |t.stream| && t.stream[g] == n;
        assert r.stream[g] == n;
      }
    }
  }

  lemma UnreserveInv(t: Table, p: nat, fd: nat, f: int)
    requires InvBut(t, {}) && p < |t.fidt| && fd < |t.fidt[p]| && t.fidt[p][fd] == f
    requires 0 <= f < |t.ref| && f !in t.free && Refs(t, f) == 1 && t.stream[f] == NULL
    ensures InvBut(Unreserve(t, p, fd, f), {})
  {
    var r := Unreserve(t, p, fd, f);
    EntryUpdate(t.fidt, p, fd, NULL);
    assert forall g :: 0 <= g < |t.ref| ==> Refs(r, g) == Refs(t, g) - (if g == f then 1 else 0);
    assert forall g :: g in r.free <==> g in t.free || g == f;
  }

  /** An FCB that a file table names is in use. */
  lemma EntryInUse(t: Table, p: nat, fd: int)
    requires InvBut(t, {}) && p < |t.fidt| && Entry(t, p, fd) != NULL
    ensures Entry(t, p, fd) !in t.free && 0 <= Entry(t, p, fd) < |t.ref|
  {
    NamedIn(t.fidt, Entry(t, p, fd));
    assert Entry(t, p, fd) in t.fidt[p];
  }

  /** What a reservation of one FCB leaves behind. */
  lemma ReserveOne(t: Table, p: nat)
    requires Inv(t) && p < |t.fidt| && Reserve(t, p, 1).1
    ensures var r := Reserve(t, p, 1).0;
      && InvBut(r, {}) && |FreeFids(t.fidt[p], 0, 1)| == 1 && t.free != []
      && r.free == t.free[1..] && r.stream == t.stream && |r.fidt| == |t.fidt|
      && var fd, f := FreeFids(t.fidt[p], 0, 1)[0], t.free[0];
         fd < |r.fidt[p]| && r.fidt[p][fd] == f && 0 <= f < |r.ref| && f !in r.free && r.stream[f] == NULL
             && Refs(r, f) == 1
  {
    ReserveLaw(t, p, 1);
    ReserveInv(t, p, 1);
    assert t.free[..1][0] == t.free[0] && t.free[0] in t.free[..1] && t.free[0] in t.free;
    assert t.free[0] !in t.free[1..];
  }

  lemma OpenStreamInv(t: Table, p: nat, deviceOk: bool)
    requires Inv(t) && p < |t.fidt|
    ensures Inv(OpenStream(t, p, deviceOk))
  {
    var (r, ok) := Reserve(t, p, 1);
    ReserveInv(t, p, 1);
    if ok {
      ReserveOne(t, p);
      var fd, f := FreeFids(t.fidt[p], 0, 1)[0], t.free[0];
      assert t.free == [f] + t.free[1..];
      if deviceOk {
        InstallInv(r, f);
      } else {
        UnreserveInv(r, p, fd, f);
        assert forall g :: g in t.free[1..] + [f] <==> g in t.free;
      }
    } else {
      ReserveFailed(t, p, 1);
    }
  }

  lemma ReserveFailed(t: Table, p: nat, num: nat)
    requires Inv(t) && p < |t.fidt| && !Reserve(t, p, num).1
    ensures Inv(Reserve(t, p, num).0)
  {
    ReserveInv(t, p, num);
    ReserveLaw(t, p, num);
  }

  /** What a reservation of two FCBs leaves behind. */
  lemma ReserveTwo(t: Table, p: nat)
    requires Inv(t) && p < |t.fidt| && Reserve(t, p, 2).1
    ensures var r := Reserve(t, p, 2).0;
      && InvBut(r, {}) && |t.free| >= 2 && r.free == t.free[2..] && r.stream == t.stream
      && t.free[0] != t.free[1] && t.free[0] !in r.free && t.free[1] !in r.free
      && r.stream[t.free[0]] == NULL == r.stream[t.free[1]]
  {
    ReserveLaw(t, p, 2);
    ReserveInv(t, p, 2);
    assert t.free[0] in t.free && t.free[1] in t.free;
  }

  lemma PipeSettled(t: Table, r: Table, f: int, g: int)
    requires Inv(t) && |t.free| >= 2 && f == t.free[0] && g == t.free[1]
    requires Shape(r) && r.free == t.free[2..] && r.stream == t.stream && 0 <= f < |r.ref| && 0 <= g < |r.ref|
    ensures var s := Install(Install(r, f), g);
      forall h :: 0 <= h < |s.ref| && h !in s.free ==> s.stream[h] != NULL
  {
    assert t.free == [f, g] + t.free[2..];
  }

  lemma OpenPipeInv(t: Table, p: nat)
    requires Inv(t) && p < |t.fidt|
    ensures Inv(OpenPipe(t, p))
  {
    var (r, ok) := Reserve(t, p, 2);
    if ok {
      ReserveTwo(t, p);
      var f, g := t.free[0], t.free[1];
      InstallInv(r, f);
      InstallInv(Install(r, f), g);
      PipeSettled(t, r, f, g);
    } else {
      ReserveFailed(t, p, 2);
    }
  }

  lemma BeginIoInv(t: Table, p: nat, fd: int)
    requires Inv(t) && p < |t.fidt|
    ensures Inv(BeginIo(t, p, fd))
  {
    var f := Entry(t, p, fd);
    if f != NULL {
      EntryInUse(t, p, fd);
      var r := BeginIo(t, p, fd);
      assert forall g :: Refs(r, g) == Refs(t, g) + (if g == f then 1 else 0);
    }
  }

  lemma EndIoInv(t: Table, f: int)
    requires Inv(t) && f in t.inflight
    ensures 0 <= f < |t.ref| && Inv(EndIo(t, f))
  {
    var s := t.(inflight := t.inflight - multiset{f});
    assert Refs(t, f) > 0;
    assert forall g :: Refs(s, g) == Refs(t, g) - (if g == f then 1 else 0);
    DecrefInv(t, s, f);
  }

  lemma CloseInv(t: Table, p: nat, fd: int)
    requires Inv(t) && p < |t.fidt|
    ensures Inv(Close(t, p, fd))
  {
    if Entry(t, p, fd) != NULL {
      DropRefInv(t, p, fd);
    }
  }

  /** Giving up the old stream of `newfd` before or after clearing the entry is the same. */
  lemma Dup2Order(t: Table, p: nat, newfd: nat, f: int)
    requires Shape(t) && p < |t.fidt| && newfd < |t.fidt[p]| && 0 <= f < |t.ref| && t.fidt[p][newfd] != NULL
    ensures SetEntry(Incref(Decref(t, t.fidt[p][newfd]), f), p, newfd, f) == AddRef(DropRef(t, p, newfd), p, newfd, f)
  {
    var row := t.fidt[p];
    assert row[newfd := NULL][newfd := f] == row[newfd := f];
    assert t.fidt[p := row[newfd := NULL]][p := row[newfd := f]] == t.fidt[p := row[newfd := f]];
  }

  lemma Dup2Drops(t: Table, p: nat, oldfd: nat, newfd: nat)
    requires Inv(t) && p < |t.fidt| && oldfd < |t.fidt[p]| && newfd < |t.fidt[p]|
    requires t.fidt[p][oldfd] != NULL && t.fidt[p][newfd] != NULL && t.fidt[p][oldfd] != t.fidt[p][newfd]
    ensures Inv(AddRef(DropRef(t, p, newfd), p, newfd, t.fidt[p][oldfd]))
  {
    DropRefInv(t, p, newfd);
    EntryInUse(DropRef(t, p, newfd), p, oldfd);
    AddRefInv(DropRef(t, p, newfd), {}, p, newfd, t.fidt[p][oldfd]);
  }

  lemma Dup2Inv(t: Table, p: nat, oldfd: int, newfd: int)
    requires Inv(t) && p < |t.fidt|
    ensures Inv(Dup2(t, p, oldfd, newfd))
  {
    var f, g := Entry(t, p, oldfd), Entry(t, p, newfd);
    if 0 <= oldfd < |t.fidt[p]| && 0 <= newfd < |t.fidt[p]| && f != NULL && f != g {
      EntryInUse(t, p, oldfd);
      if g == NULL {
        AddRefInv(t, {}, p, newfd, f);
      } else {
        Dup2Order(t, p, newfd, f);
        Dup2Drops(t, p, oldfd, newfd);
      }
    }
  }

  /** One turn of the loop of `Inherit`. */
  function Share(t: Table, parent: nat, child: nat, fd: nat): Table
    requires Shape(t) && parent < |t.fidt| && child < |t.fidt| && fd < |t.fidt[parent]|
  {
    var f := t.fidt[parent][fd];
    if f == NULL then SetEntry(t, child, fd, NULL) else AddRef(t, child, fd, f)
  }

  lemma ShareInv(t: Table, parent: nat, child: nat, fd: nat)
    requires Inv(t) && parent < |t.fidt| && child < |t.fidt| && parent != child && fd < |t.fidt[parent]|
    requires t.fidt[child][fd] == NULL
    ensures Inv(Share(t, parent, child, fd))
    ensures Share(t, parent, child, fd).fidt == t.fidt[child := t.fidt[child][fd := t.fidt[parent][fd]]]
  {
    if t.fidt[parent][fd] != NULL {
      EntryInUse(t, parent, fd);
      AddRefInv(t, {}, child, fd, t.fidt[parent][fd]);
    } else {
      assert t.fidt[child][fd := NULL] == t.fidt[child];
      assert t.fidt[child := t.fidt[child]] == t.fidt;
    }
  }

  lemma RowsShared(t: seq<seq<int>>, s: seq<seq<int>>, parent: nat, child: nat, fd: nat)
    requires parent < |t| && child < |t| && parent != child && fd < |t[parent]| == |t[child]|
    requires t[child][..fd] == t[parent][..fd] && s == t[child := t[child][fd := t[parent][fd]]]
    ensures s[child][..fd + 1] == s[parent][..fd + 1]
    ensures s[child := s[parent]] == t[child := t[parent]]
  {
  }

  /** A new process shares its parent's streams: every reference is counted. */
  lemma {:induction false} InheritInv(t: Table, parent: nat, child: nat, fd: nat)
    requires Inv(t) && parent < |t.fidt| && child < |t.fidt| && parent != child && fd <= |t.fidt[parent]|
    requires forall i :: fd <= i < |t.fidt[child]| ==> t.fidt[child][i] == NULL
    requires t.fidt[child][..fd] == t.fidt[parent][..fd]
    ensures var r := Inherit(t, parent, child, fd);
      Inv(r) && r.fidt == t.fidt[child := t.fidt[parent]]
    decreases |t.fidt[parent]| - fd
  {
    if fd == |t.fidt[parent]| {
      assert t.fidt[child] == t.fidt[child][..fd] == t.fidt[parent][..fd] == t.fidt[parent];
    } else {
      ShareInv(t, parent, child, fd);
      RowsShared(t.fidt, Share(t, parent, child, fd).fidt, parent, child, fd);
      InheritInv(Share(t, parent, child, fd), parent, child, fd + 1);
    }
  }

  /** An exiting process gives up all its references. */
  lemma {:induction false} CleanUpInv(t: Table, p: nat, fd: nat)
    requires Inv(t) && p < |t.fidt| && fd <= |t.fidt[p]|
    requires forall i :: 0 <= i < fd ==> t.fidt[p][i] == NULL
    ensures var r := CleanUp(t, p, fd);
      && Inv(r) && |r.fidt| == |t.fidt| && forall i :: 0 <= i < |r.fidt[p]| ==> r.fidt[p][i] == NULL
    decreases |t.fidt[p]| - fd
  {
    if fd < |t.fidt[p]| {
      if t.fidt[p][fd] != NULL {
        DropRefInv(t, p, fd);
      }
      CleanUpInv(if t.fidt[p][fd] == NULL then t else DropRef(t, p, fd), p, fd + 1);
    }
  }

  // ---------------------------------------------------------------- all runs

  datatype Call =
    | CallOpen(p: nat, deviceOk: bool) | CallPipe(p: nat)
    | CallIo(p: nat, fd: int) | ReturnIo(f: int)
    | CallClose(p: nat, fd: int) | CallDup2(p: nat, oldfd: int, newfd: int)
    | CallExec(parent: nat, child: nat) | CallExit(p: nat)

  /** A process given to `Exec` is fresh: its file table is empty. */
  predicate Enabled(t: Table, c: Call)
    requires Shape(t)
  {
    match c
    case CallOpen(p, _) => p < |t.fidt|
    case CallPipe(p) => p < |t.fidt|
    case CallIo(p, _) => p < |t.fidt|
    case ReturnIo(f) => f in t.inflight
    case CallClose(p, _) => p < |t.fidt|
    case CallDup2(p, _, _) => p < |t.fidt|
    case CallExec(parent, child) =>
      parent < |t.fidt| && child < |t.fidt| && parent != child
      && forall i :: 0 <= i < |t.fidt[child]| ==> t.fidt[child][i] == NULL
    case CallExit(p) => p < |t.fidt|
  }

  function Step(t: Table, c: Call): (r: Table)
    requires Inv(t) && Enabled(t, c)
    ensures Inv(r)
  {
    match c
    case CallOpen(p, ok) => OpenStreamInv(t, p, ok); OpenStream(t, p, ok)
    case CallPipe(p) => OpenPipeInv(t, p); OpenPipe(t, p)
    case CallIo(p, fd) => BeginIoInv(t, p, fd); BeginIo(t, p, fd)
    case ReturnIo(f) => EndIoInv(t, f); EndIo(t, f)
    case CallClose(p, fd) => CloseInv(t, p, fd); Close(t, p, fd)
    case CallDup2(p, a, b) => Dup2Inv(t, p, a, b); Dup2(t, p, a, b)
    case CallExec(parent, child) => InheritInv(t, parent, child, 0); Inherit(t, parent, child, 0)
    case CallExit(p) => CleanUpInv(t, p, 0); CleanUp(t, p, 0)
  }

  ghost predicate Runs(t: Table, cs: seq<Call>)
    requires Inv(t)
    decreases |cs|
  {
    cs == [] || (Enabled(t, cs[0]) && Runs(Step(t, cs[0]), cs[1..]))
  }

  ghost function After(t: Table, cs: seq<Call>): (r: Table)
    requires Inv(t) && Runs(t, cs)
    ensures Inv(r)
    decreases |cs|
  {
    if cs == [] then t else After(Step(t, cs[0]), cs[1..])
  }

  /** `initialize_files`, with empty file tables. */
  function Initial(files: nat, procs: nat, entries: nat): Table {
    Table(seq(files, _ => 0), seq(files, i => i), seq(procs, _ => seq(entries, _ => NULL)), multiset{},
          seq(files, _ => NULL), 0, [])
  }

  lemma InitialInv(files: nat, procs: nat, entries: nat)
    ensures Inv(Initial(files, procs, entries))
  {
    var t := Initial(files, procs, entries);
    forall f | 0 <= f < files ensures Refs(t, f) == 0 && f in t.free {
      NamedIn(t.fidt, f);
      assert t.free[f] == f;
    }
  }

  function Boot(files: nat, procs: nat, entries: nat): (t: Table)
    ensures Inv(t)
  {
    InitialInv(files, procs, entries);
    Initial(files, procs, entries)
  }

  /** After any calls of any processes, whenever the kernel lock is free: every FCB in use
      counts exactly its references, the free FCBs are those without references, and every
      stream ever opened has been closed exactly once or has references left. */
  lemma ReferencesConserved(files: nat, procs: nat, entries: nat, cs: seq<Call>)
    requires Runs(Boot(files, procs, entries), cs)
    ensures var t := After(Boot(files, procs, entries), cs);
      && (forall f :: 0 <= f < |t.ref| ==> (f in t.free <==> Refs(t, f) == 0))
      && (forall f :: 0 <= f < |t.ref| && Refs(t, f) > 0 ==> t.ref[f] == Refs(t, f))
      && Distinct(t.closed)
      && (forall n :: 0 <= n < t.opens ==>
            (n in t.closed <==> !exists f :: 0 <= f < |t.ref| && Refs(t, f) > 0 && t.stream[f] == n))
  {
    var t := After(Boot(files, procs, entries), cs);
    forall n | 0 <= n < t.opens
      ensures n in t.closed <==> !exists f :: 0 <= f < |t.ref| && Refs(t, f) > 0 && t.stream[f] == n
    {
      if n !in t.closed {
        var f :| 0 <= f < |t.stream| && t.stream[f] == n;
        assert f !in t.free;
      }
    }
  }
}
