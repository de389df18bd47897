/** The process table in the form the kernel has it, updated in place.  Every routine is tied
    to its step in ProcTable. */
module Processes {
  import opened Sequences
  import opened ProcTable
  import opened ProcRuns
  import opened ProcInvariant

  class ProcessTable {
    // the fields of the control blocks PT[0..MAX_PROC]
    const pstate: array<PidState>
    const parent: array<Pid>
    const exitval: array<int>
    const children: array<seq<Pid>>
    const exited: array<seq<Pid>>
    const threads: array<int>
    const fidt: array<seq<int>>
    var freeHead: Pid   // pcb_freelist
    var count: int      // process_count
    ghost var free: seq<Pid>
    ghost var waiting: seq<Pid>
    ghost var woken: seq<bool>
    ghost var number: seq<nat>
    ghost var created: nat
    ghost var exits: map<nat, int>
    ghost var delivered: seq<nat>
    ghost var said: seq<Said>

    ghost function View(): Procs
      reads this, pstate, parent, exitval, children, exited, threads, fidt
    {
      Procs(pstate[..], parent[..], exitval[..], children[..], exited[..], threads[..], fidt[..],
            freeHead, count, free, waiting, woken, number, created, exits, delivered, said)
    }

    ghost predicate Valid()
      reads this, pstate, parent, exitval, children, exited, threads, fidt
    {
      && parent != exitval && parent != threads && exitval != threads
      && children != exited && children != fidt && exited != fidt
      && Shape(View())
    }

    /** `initialize_processes` up to its call of Exec; `status` is what the exit statuses hold. */
    constructor (n: nat, files: nat, status: seq<int>)
      requires n > INIT && |status| == n
      ensures Valid() && View() == Initial(n, files, status)
      ensures fresh(pstate) && fresh(parent) && fresh(exitval) && fresh(children) && fresh(exited) && fresh(threads)
          && fresh(fidt)
    {
      pstate := new PidState[n](_ => FREE);
      parent := new Pid[n](_ => NULL);
      exitval := new int[n](i requires 0 <= i < n => status[i]);
      children := new seq<Pid>[n](_ => []);
      exited := new seq<Pid>[n](_ => []);
      threads := new int[n](_ => 0);
      fidt := new seq<int>[n](_ => seq(files, _ => NULL));
      count := 0;
      freeHead := NULL;
      free, waiting, woken, number := seq(n, i => i), seq(n, _ => NOT_WAITING), seq(n, _ => false), seq(n, _ => 0);
      created, exits, delivered, said := 0, map[], [], seq(n, _ => Nothing);
      new;
      InitialShape(n, files, status);
      BuildFreeList();
      assert View() == Initial(n, files, status);
    }

    /** The loop that links the free list, from the last control block to the first. */
    method BuildFreeList()
      modifies this`freeHead, parent
      ensures freeHead == if parent.Length > 0 then 0 else NULL
      ensures parent[..] == FreeLinks(parent.Length)
    {
      freeHead := NULL;
      var p := parent.Length;
      while p != 0
        invariant 0 <= p <= parent.Length && freeHead == (if p < parent.Length then p else NULL)
        invariant forall i :: p <= i < parent.Length ==> parent[i] == if i + 1 < parent.Length then i + 1 else NULL
      {
        p := p - 1;
        parent[p] := freeHead;
        freeHead := p;
      }
    }

    /** `acquire_PCB`: NULL when there is none. */
    method AcquirePcb() returns (n: Pid)
      requires Valid()
      modifies this, pstate
      ensures n == old(freeHead)
      ensures Valid() && View() == if n == NULL then old(View()) else Acquire(old(View()))
    {
      n := NULL;
      if freeHead != NULL {
        n := freeHead;
        pstate[n] := ALIVE;
        freeHead, count := parent[n], count + 1;
        free, number := if free == [] then [] else free[1..], number[n := created];
        created, said := created + 1, said[n := Nothing];
      }
    }

    /** `release_PCB`. */
    method ReleasePcb(z: Pid)
      requires Valid() && 0 <= z < pstate.Length
      modifies this, pstate, parent
      ensures Valid() && View() == Release(old(View()), z)
    {
      pstate[z] := FREE;
      parent[z] := freeHead;
      freeHead, count, free := z, count - 1, [z] + free;
    }

    /** The loop of `sys_Exec` over the file table; the references are counted by Streams. */
    method InheritFiles(p: Pid, n: Pid)
      requires 0 <= p < fidt.Length && 0 <= n < fidt.Length && |fidt[n]| == |fidt[p]| && p != n
      modifies fidt
      ensures fidt[..] == old(fidt[..])[n := old(fidt[p])]
    {
      ghost var row, was := fidt[p], fidt[n];
      assert was == row[..0] + was[0..];
      for i := 0 to |fidt[p]|
        invariant fidt[n] == row[..i] + was[i..]
        invariant forall x :: 0 <= x < fidt.Length && x != n ==> fidt[x] == old(fidt[x])
      {
        var f := fidt[p][i];
        fidt[n] := fidt[n][i := f];
        assert fidt[n] == row[..i + 1] + was[i + 1..];
      }
      assert fidt[n] == row;
    }

    /** The new process becomes a child of `p`, unless it is one of the first two. */
    method Attach(p: Pid, n: Pid)
      requires Valid() && 0 <= p < pstate.Length && 0 <= n < pstate.Length && (n > INIT ==> p != n)
      modifies parent, children, fidt
      ensures Valid()
      ensures n <= INIT ==> View() == old(View()).(parent := old(parent[..])[n := NULL])
      ensures n > INIT ==>
        View() == old(View()).(parent := old(parent[..])[n := p],
                               children := old(children[..])[p := [n] + old(children[p])],
                               fidt := old(fidt[..])[n := old(fidt[p])])
    {
      if n <= INIT {
        parent[n] := NULL;
      } else {
        parent[n] := p;
        children[p] := [n] + children[p];
        InheritFiles(p, n);
      }
    }

    /** `sys_Exec`, called by process `p`; the control block is not the caller's own. */
    method SysExec(p: Pid, runs: bool) returns (pid: Pid)
      requires Valid() && 0 <= p < pstate.Length && (freeHead > INIT ==> p != freeHead)
      modifies this, pstate, parent, children, threads, fidt
      ensures Valid() && View() == Exec(old(View()), p, runs)
      ensures pid == old(freeHead)
    {
      pid := AcquirePcb();
      if pid == NULL {
        return;
      }
      Attach(p, pid);
      if runs {
        threads[pid] := threads[pid] + 1;
      }
    }

    /** `cleanup_zombie`. */
    method CleanupZombie(z: Pid) returns (status: int)
      requires Valid() && 0 <= z < pstate.Length && 0 <= parent[z]
      modifies this, pstate, parent, children, exited
      ensures Valid() && View() == CleanUp(old(View()), z) && status == old(exitval[z])
    {
      status := exitval[z];
      var q := parent[z];
      children[q] := Remove(children[q], z);
      exited[q] := Remove(exited[q], z);
      delivered := delivered + [number[z]];
      ReleasePcb(z);
    }

    /** `kernel_wait` on the process's `child_exit`: the thread sleeps and the kernel is left. */
    ghost method Sleep(p: Pid, c: Pid)
      requires 0 <= p < |waiting| == |woken|
      modifies this`waiting, this`woken
      ensures waiting == old(waiting)[p := c] && woken == old(woken)[p := false]
    {
      waiting, woken := waiting[p := c], woken[p := false];
    }

    ghost method Awake(p: Pid)
      requires 0 <= p < |waiting|
      modifies this`waiting
      ensures waiting == old(waiting)[p := NOT_WAITING]
    {
      waiting := waiting[p := NOT_WAITING];
    }

    /** One turn of the loop of `wait_for_specific_child`, and what follows it. */
    method WaitForSpecificChild(p: Pid, c: Pid) returns (o: Outcome)
      requires Valid() && 0 <= p < pstate.Length && 0 <= c < pstate.Length && 0 <= parent[c]
      modifies this, pstate, parent, children, exited
      ensures Valid() && (View(), o) == WaitSpecific(old(View()), p, c)
    {
      if pstate[c] == ALIVE {
        Sleep(p, c);
        o := Blocked;
      } else {
        var status := CleanupZombie(c);
        Awake(p);
        o := Done(c, status);
      }
    }

    /** One turn of the loop of `wait_for_any_child`, and what follows it. */
    method WaitForAnyChild(p: Pid) returns (o: Outcome)
      requires Valid() && 0 <= p < pstate.Length && HeadDefined(View(), p)
      modifies this, pstate, parent, children, exited
      ensures Valid() && (View(), o) == WaitAny(old(View()), p)
    {
      if children[p] == [] {
        Awake(p);
        o := FAILED;
      } else if exited[p] == [] {
        Sleep(p, NOPROC);
        o := Blocked;
      } else {
        var z := exited[p][0];
        var status := CleanupZombie(z);
        Awake(p);
        o := Done(z, status);
      }
    }

    /** `sys_WaitChild`. */
    method SysWaitChild(p: Pid, c: Pid) returns (o: Outcome)
      requires Valid() && 0 <= p < pstate.Length && HeadDefined(View(), p)
      modifies this, pstate, parent, children, exited
      ensures Valid() && (View(), o) == WaitChild(old(View()), p, c)
      ensures o.Done? && c != NOPROC ==> o == FAILED || o.pid == c
    {
      if c == NOPROC {
        o := WaitForAnyChild(p);
      } else if c < 0 || c >= pstate.Length || pstate[c] == FREE || parent[c] != p {
        o := FAILED;
      } else {
        o := WaitForSpecificChild(p, c);
      }
    }

    // -------------------------------------------------------------- sys_ThreadExit

    /** One turn of the loop that gives the children to the initial process. */
    method MoveChild(p: Pid)
      requires Valid() && 0 <= p < pstate.Length && p != INIT && children[p] != []
      modifies parent, children
      ensures Valid() && View() == MoveFirst(old(View()), p)
    {
      var child := children[p][0];
      children[p] := children[p][1..];
      parent[child] := INIT;
      children[INIT] := [child] + children[INIT];
    }

    method ReparentChildren(p: Pid)
      requires Valid() && 0 <= p < pstate.Length && p != INIT
      modifies parent, children
      ensures Valid() && View() == Reparent(old(View()), p)
    {
      ghost var s := View();
      while children[p] != []
        invariant Valid() && Reparent(View(), p) == Reparent(s, p)
        decreases |children[p]|
      {
        ReparentStep(View(), p);
        MoveChild(p);
      }
      ReparentEnd(View(), p);
    }

    /** Its exited children go to the initial process, which is woken if there are any. */
    method AppendExited(p: Pid)
      requires Valid() && 0 <= p < pstate.Length && p != INIT
      modifies this`woken, exited
      ensures exited[..] == old(exited[..])[p := []][INIT := old(exited[INIT]) + old(exited[p])]
      ensures woken == if old(exited[p]) != [] then old(woken)[INIT := true] else old(woken)
    {
      if exited[p] != [] {
        exited[INIT] := exited[INIT] + exited[p];
        exited[p] := [];
        woken := woken[INIT := true];
      } else {
        assert exited[INIT] + [] == exited[INIT];
      }
    }

    /** Then itself to its parent, which is woken. */
    method HandOver(p: Pid)
      requires Valid() && 0 <= p < pstate.Length && p != INIT && 0 <= parent[p]
      modifies this`woken, exited
      ensures Valid() && View() == MergeExited(old(View()), p)
    {
      var q := parent[p];
      MergeShape(View(), p);
      AppendExited(p);
      exited[q] := [p] + exited[q];
      woken := woken[q := true];
    }

    /** The loop over the file table. */
    method CleanUpFiles(p: Pid)
      requires 0 <= p < fidt.Length
      modifies fidt
      ensures fidt[..] == old(fidt[..])[p := seq(|old(fidt[p])|, _ => NULL)]
    {
      for i := 0 to |fidt[p]|
        invariant |fidt[p]| == |old(fidt[p])| && forall k :: 0 <= k < i ==> fidt[p][k] == NULL
        invariant forall x :: 0 <= x < fidt.Length && x != p ==> fidt[x] == old(fidt[x])
      {
        if fidt[p][i] != NULL {
          fidt[p] := fidt[p][i := NULL];
        }
      }
      assert fidt[p] == seq(|old(fidt[p])|, _ => NULL);
    }

    /** The part of `sys_ThreadExit` done by the last thread. */
    method TerminateProcess(p: Pid)
      requires Valid() && 0 <= p < pstate.Length
          && (p != INIT ==> 0 <= parent[p] && parent[p] != p && p !in children[p])
      modifies this, pstate, parent, children, exited, fidt
      ensures Valid() && View() == Terminate(old(View()), p)
    {
      if p != INIT {
        ReparentChildren(p);
        HandOver(p);
        exits := exits[number[p] := exitval[p]];
      }
      CleanUpFiles(p);
      pstate[p] := ZOMBIE;
    }

    /** `sys_ThreadExit`, called by a thread of process `p`. */
    method SysThreadExit(p: Pid)
      requires Valid() && 0 <= p < pstate.Length
          && (p != INIT ==> 0 <= parent[p] && parent[p] != p && p !in children[p])
      modifies this, pstate, parent, children, exited, threads, fidt
      ensures Valid() && View() == ThreadExit(old(View()), p)
    {
      threads[p] := threads[p] - 1;
      if threads[p] == 0 {
        TerminateProcess(p);
      }
    }
  }

  function MoveFirst(s: Procs, p: Pid): Procs
    requires Shape(s) && 0 <= p < s.N() && s.children[p] != []
  {
    var c := s.children[p][0];
    assert AllPids(s.children[p], s.N());
    var ch := s.children[p := s.children[p][1..]];
    s.(parent := s.parent[c := INIT], children := ch[INIT := [c] + ch[INIT]])
  }

  lemma ReparentStep(s: Procs, p: Pid)
    requires Shape(s) && 0 <= p < s.N() && p != INIT && s.children[p] != []
    ensures Shape(MoveFirst(s, p)) && Reparent(MoveFirst(s, p), p) == Reparent(s, p)
  {
    var t, c := MoveFirst(s, p), s.children[p];
    forall x | 0 <= x < s.N() ensures AllPids(t.children[x], s.N()) {
      assert AllPids(s.children[x], s.N()) && AllPids(c, s.N());
    }
    assert Rev(c[1..]) + ([c[0]] + s.children[INIT]) == Rev(c) + s.children[INIT];
    assert forall x :: x in c <==> x == c[0] || x in c[1..];
    assert Reparent(t, p).parent == Reparent(s, p).parent;
    assert Reparent(t, p).children == Reparent(s, p).children;
  }

  lemma ReparentEnd(s: Procs, p: Pid)
    requires Shape(s) && 0 <= p < s.N() && p != INIT && s.children[p] == []
    ensures Reparent(s, p) == s
  {
    assert Rev([]) + s.children[INIT] == s.children[INIT];
    assert Reparent(s, p).parent == s.parent;
  }

  lemma MergeShape(s: Procs, p: Pid)
    requires Shape(s) && 0 <= p < s.N() && p != INIT && 0 <= s.parent[p]
    ensures Shape(MergeExited(s, p))
  {
    var t, q := MergeExited(s, p), s.parent[p];
    PidsOf(s.exited[INIT], s.exited[p], s.N());
    var e1 := s.exited[p := []][INIT := s.exited[INIT] + s.exited[p]];
    PidsOf([p], e1[q], s.N());
    forall x | 0 <= x < s.N() ensures AllPids(t.exited[x], s.N()) {
      assert AllPids(s.exited[x], s.N());
    }
  }
}
