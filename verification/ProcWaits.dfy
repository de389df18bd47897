/** What the calls of the process table (old/kernel_proc.c, old/kernel_threads.c) return and
    change, each by itself and over the runs of ProcRuns: which child a wait call returns,
    which status it hands over, and when a process ends. */
module ProcWaits {
  import opened Sequences
  import opened ProcTable
  import opened ProcInvariant
  import opened ProcRuns

  // ---------------------------------------------------------------- single calls

  /** `wait_for_specific_child`'s legal children of process `p`. */
  ghost predicate ChildOf(s: Procs, c: Pid, p: Pid)
    requires Shape(s)
  {
    0 <= c < s.N() && s.pstate[c] != FREE && s.parent[c] == p
  }

  /** Waiting for a given process fails, and changes nothing, exactly if it is no child of the
      caller; it sleeps, waiting for that very child, exactly if that is alive; and otherwise it
      returns that child and its status. */
  lemma WaitOneLaw(s: Procs, p: Pid, c: Pid)
    requires Inv(s) && INIT <= p < s.N() && c != NOPROC
    ensures HeadDefined(s, p)
    ensures var (t, o) := WaitChild(s, p, c);
      && (o == FAILED <==> !ChildOf(s, c, p)) && (o == FAILED ==> t == s)
      && (o == Blocked <==> ChildOf(s, c, p) && s.pstate[c] == ALIVE)
      && (o == Blocked ==> t == s.(waiting := s.waiting[p := c], woken := s.woken[p := false]))
      && (ChildOf(s, c, p) && s.pstate[c] != ALIVE ==> o == Done(c, s.exitval[c]))
  {
    HeadIn(s.exited[p]);
  }

  /** Waiting for any child fails exactly if there is none, sleeps exactly if there are some and
      all are alive, and otherwise returns the first of the list of exited children. */
  lemma WaitFirstLaw(s: Procs, p: Pid)
    requires Inv(s) && INIT <= p < s.N() && s.pstate[p] == ALIVE
    ensures HeadDefined(s, p)
    ensures var o := WaitAny(s, p).1;
      && (o == FAILED <==> !exists c :: ChildOf(s, c, p))
      && (o == Blocked <==> (exists c :: ChildOf(s, c, p)) && forall c :: ChildOf(s, c, p) ==> s.pstate[c] == ALIVE)
      && (o != FAILED && o != Blocked ==> s.exited[p] != [] && o == Done(s.exited[p][0], s.exitval[s.exited[p][0]]))
  {
    WaitAnyLaw(s, p);
    WaitReturnsFirst(s, p);
    ChildrenAreHigh(s, p);
  }

  lemma WaitReturnsFirst(s: Procs, p: Pid)
    requires Shape(s) && 0 <= p < s.N() && HeadDefined(s, p)
    ensures var o := WaitAny(s, p).1;
      o != FAILED && o != Blocked ==> s.exited[p] != [] && o == Done(s.exited[p][0], s.exitval[s.exited[p][0]])
  {
  }

  lemma ChildrenAreHigh(s: Procs, p: Pid)
    requires Shape(s) && Roots(s) && INIT <= p
    ensures forall c :: ChildOf(s, c, p) <==> 2 <= c < s.N() && s.pstate[c] != FREE && s.parent[c] == p
  {
  }

  /** Only process `z` and its lists changed: it left its parent's lists, and its control block is
      the first free one. */
  ghost predicate Collected(s: Procs, t: Procs, p: Pid, z: Pid)
    requires Shape(s)
  {
    && 2 <= z < s.N() && 0 <= p < s.N() && s.pstate[z] == ZOMBIE && s.parent[z] == p && Shape(t)
    && t.pstate == s.pstate[z := FREE] && t.free == [z] + s.free && t.count == s.count - 1
    && (forall x :: 0 <= x < s.N() && x != z ==> t.parent[x] == s.parent[x])
    && (forall q :: 0 <= q < s.N() && q != p ==> t.children[q] == s.children[q] && t.exited[q] == s.exited[q])
    && (forall x :: x in t.children[p] <==> x in s.children[p] && x != z)
    && (forall x :: x in t.exited[p] <==> x in s.exited[p] && x != z)
    && t.waiting == s.waiting[p := NOT_WAITING] && t.number == s.number && t.exitval == s.exitval
    && t.threads == s.threads && t.fidt == s.fidt && t.exits == s.exits
  }

  lemma ReapedCollected(s: Procs, z: Pid)
    requires Inv(s) && 2 <= z < s.N() && s.pstate[z] == ZOMBIE && s.parent[z] >= 0
    ensures Shape(CleanUp(s, z)) && Collected(s, DoneWaiting(CleanUp(s, z), s.parent[z]), s.parent[z], z)
  {
    CleanUpReaped(s, z);
    RemovesOne(s.children[s.parent[z]], z);
    RemovesOne(s.exited[s.parent[z]], z);
  }

  lemma RemovesOne(l: seq<Pid>, z: Pid)
    requires Distinct(l)
    ensures forall x :: x in Remove(l, z) <==> x in l && x != z
  {
  }

  lemma StepDefined(s: Procs, a: Step)
    requires Inv(s) && Enabled(s, a)
    ensures Defined(s, a)
  {
    StepInv(s, a);
  }

  lemma CollectsByCleanUp(s: Procs, a: Step)
    requires Shape(s) && Defined(s, a) && (a.CallWaitChild? || a.WakeUp?)
    requires var o := Effect(s, a).1; o != Blocked && o != FAILED
    ensures var (t, o) := Effect(s, a);
      0 <= o.pid < s.N() && 0 <= s.parent[o.pid] && t == DoneWaiting(CleanUp(s, o.pid), a.p)
  {
  }

  /** What a wait call that returns a child changes. */
  lemma CollectLaw(s: Procs, a: Step)
    requires Inv(s) && Enabled(s, a) && (a.CallWaitChild? || a.WakeUp?)
    ensures var (t, o) := Effect(s, a); o != Blocked && o != FAILED ==> Collected(s, t, a.p, o.pid)
  {
    WaitDelivers(s, a);
    StepDefined(s, a);
    var (t, o) := Effect(s, a);
    if o != Blocked && o != FAILED {
      CollectsByCleanUp(s, a);
      ReapedCollected(s, o.pid);
    }
  }

  /** What one that returns none changes: the caller waits on iff the call blocks, and any other
      outcome ends its wait. */
  lemma NoCollectLaw(s: Procs, a: Step)
    requires Inv(s) && Enabled(s, a) && (a.CallWaitChild? || a.WakeUp?)
    ensures var (t, o) := Effect(s, a);
      && (o == FAILED ==> t == s.(waiting := s.waiting[a.p := NOT_WAITING]))
      && (o == Blocked ==>
            var c := if a.WakeUp? then s.waiting[a.p] else a.c;
            t == s.(waiting := s.waiting[a.p := c], woken := s.woken[a.p := false]))
  {
    StepDefined(s, a);
    BlocksOrFails(s, a);
  }

  lemma BlocksOrFails(s: Procs, a: Step)
    requires Enabled(s, a) && Defined(s, a) && WaitsLegal(s) && (a.CallWaitChild? || a.WakeUp?)
    ensures var (t, o) := Effect(s, a);
      && (o == FAILED ==> t == s.(waiting := s.waiting[a.p := NOT_WAITING]))
      && (o == Blocked ==>
            var c := if a.WakeUp? then s.waiting[a.p] else a.c;
            t == s.(waiting := s.waiting[a.p := c], woken := s.woken[a.p := false]))
  {
    assert s.waiting[a.p] == NOT_WAITING ==> s.waiting[a.p := NOT_WAITING] == s.waiting;
  }

  /** The exit of a thread that is not the last one of its process only counts it.  The last one
      of any but the initial process makes it a zombie without open files, on record with the
      status it stored last, and wakes its parent; */
  lemma ExitLaw(s: Procs, p: Pid)
    requires Inv(s) && Enabled(s, CallThreadExit(p)) && p != INIT
    ensures s.parent[p] != NULL
    ensures s.threads[p] != 1 ==> ThreadExit(s, p) == s.(threads := s.threads[p := s.threads[p] - 1])
    ensures s.threads[p] == 1 ==> var t, q := ThreadExit(s, p), s.parent[p];
      && t.pstate == s.pstate[p := ZOMBIE] && t.threads == s.threads[p := 0] && |t.woken| == s.N() && t.woken[q]
      && t.exits == s.exits[s.number[p] := s.exitval[p]]
      && t.fidt == s.fidt[p := seq(|s.fidt[p]|, _ => NULL)]
  {
    HasAParent(s, p);
    if s.threads[p] == 1 {
      ExitDied(s, p);
    }
  }

  /** its children go in front of the initial process's, last one first, the exited ones behind
      those already there; and it goes in front of its parent's exited children. */
  lemma ExitLists(s: Procs, p: Pid)
    requires Inv(s) && Enabled(s, CallThreadExit(p)) && p != INIT && s.threads[p] == 1
    ensures s.parent[p] != NULL
    ensures var t, q := ThreadExit(s, p), s.parent[p];
      && Shape(t) && t.N() == s.N()
      && (forall x :: 0 <= x < s.N() ==> t.parent[x] == if x in s.children[p] then INIT else s.parent[x])
      && t.children == s.children[p := []][INIT := Rev(s.children[p]) + s.children[INIT]]
      && t.exited[p] == [] && t.exited[INIT] == (if q == INIT then [p] else []) + s.exited[INIT] + s.exited[p]
      && (q != INIT ==> t.exited[q] == [p] + s.exited[q])
      && (forall x :: 0 <= x < s.N() && x != p && x != INIT && x != q ==> t.exited[x] == s.exited[x])
  {
    HasAParent(s, p);
    ExitDied(s, p);
    MergedIs(s.exited, p, s.parent[p]);
  }

  lemma MergedIs(e: seq<seq<Pid>>, p: Pid, q: Pid)
    requires 0 <= p < |e| && 0 <= q < |e| && INIT < |e| && p != INIT && p != q
    ensures var m := Merged(e, p, q);
      && m[p] == [] && m[INIT] == (if q == INIT then [p] else []) + e[INIT] + e[p]
      && (q != INIT ==> m[q] == [p] + e[q])
      && (forall x :: 0 <= x < |e| && x != p && x != INIT && x != q ==> m[x] == e[x])
  {
  }

  // ---------------------------------------------------------------- places in a run

  /** The state before step `i`. */
  ghost function At(s: Procs, run: seq<Step>, i: nat): Procs
    requires i <= |run|
  {
    if i == 0 then s else After(At(s, run, i - 1), run[i - 1])
  }

  lemma {:induction false} AtShift(s: Procs, run: seq<Step>, i: nat)
    requires 0 < i <= |run|
    ensures At(s, run, i) == At(After(s, run[0]), run[1..], i - 1)
  {
    if i > 1 {
      AtShift(s, run, i - 1);
      assert run[1..][i - 2] == run[i - 1];
    }
  }

  lemma {:induction false} EnabledAt(s: Procs, run: seq<Step>, i: nat)
    requires Runs(s, run) && i < |run|
    ensures Enabled(At(s, run, i), run[i])
    decreases |run|
  {
    if i > 0 {
      EnabledAt(After(s, run[0]), run[1..], i - 1);
      AtShift(s, run, i);
      assert run[1..][i - 1] == run[i];
    }
  }

  lemma {:induction false} PrefixRuns(s: Procs, run: seq<Step>, i: nat)
    requires Runs(s, run) && i <= |run|
    ensures Runs(s, run[..i]) && Final(s, run[..i]) == At(s, run, i)
    decreases |run|
  {
    if i > 0 {
      PrefixRuns(After(s, run[0]), run[1..], i - 1);
      AtShift(s, run, i);
      assert run[..i][1..] == run[1..][..i - 1];
    }
  }

  lemma RunAt(s: Procs, run: seq<Step>, i: nat)
    requires Inv(s) && Runs(s, run) && i < |run|
    ensures Inv(At(s, run, i)) && Enabled(At(s, run, i), run[i])
  {
    EnabledAt(s, run, i);
    PrefixRuns(s, run, i);
    RunsKeepInv(s, run[..i]);
  }

  /** The outcome of step `i`, if it is a wait call or its wake-up. */
  ghost function OutcomeAt(s: Procs, run: seq<Step>, i: nat): Outcome
    requires i < |run|
  {
    Effect(At(s, run, i), run[i]).1
  }

  /** At step `i` the wait call of process `p` returns. */
  ghost predicate ReturnsAt(s: Procs, run: seq<Step>, p: Pid, i: nat)
    requires i < |run|
  {
    run[i] == WakeUp(p) && OutcomeAt(s, run, i) != Blocked
  }

  // ---------------------------------------------------------------- wait calls that slept

  /** Process `p` waits for child `c`, the process with number `k`, or for any child. */
  ghost predicate WaitsFor(s: Procs, p: Pid, c: Pid, k: nat) {
    && Shape(s) && 0 <= p < s.N() && c != NOT_WAITING && s.waiting[p] == c
    && (c != NOPROC ==> 2 <= c < s.N() && s.number[c] == k)
  }

  function NumberOf(s: Procs, c: Pid): nat {
    if 0 <= c < |s.number| then s.number[c] else 0
  }

  /** Nothing changed in the statuses, thread counts and numbers, and no other process started
      or stopped waiting. */
  ghost predicate OnlyWaits(s: Procs, t: Procs, p: Pid) {
    && t.N() == s.N() && |t.waiting| == |s.waiting|
    && t.number == s.number && t.exitval == s.exitval && t.threads == s.threads
    && forall x :: 0 <= x < |s.waiting| && x != p ==> t.waiting[x] == s.waiting[x]
  }

  lemma SpecificFrame(s: Procs, p: Pid, c: Pid)
    requires Shape(s) && 0 <= p < s.N() && 0 <= c < s.N() && 0 <= s.parent[c]
    ensures OnlyWaits(s, WaitSpecific(s, p, c).0, p)
  {
  }

  lemma AnyFrame(s: Procs, p: Pid)
    requires Shape(s) && 0 <= p < s.N() && HeadDefined(s, p)
    ensures OnlyWaits(s, WaitAny(s, p).0, p)
  {
  }

  lemma WaitFrame(s: Procs, a: Step)
    requires Defined(s, a) && (a.CallWaitChild? || a.WakeUp?)
    ensures OnlyWaits(s, After(s, a), a.p)
  {
    match a
    case CallWaitChild(p, c) =>
      if c == NOPROC {
        AnyFrame(s, p);
      } else if ChildOf(s, c, p) {
        SpecificFrame(s, p, c);
      }
    case WakeUp(p) =>
      if s.waiting[p] < 0 {
        AnyFrame(s, p);
      } else {
        SpecificFrame(s, p, s.waiting[p]);
      }
  }

  /** The exit of a thread changes none of these, except that it is counted. */
  lemma ExitFrame(s: Procs, p: Pid)
    requires Defined(s, CallThreadExit(p))
    ensures var t := ThreadExit(s, p);
      && t.N() == s.N() && t.waiting == s.waiting && t.number == s.number && t.exitval == s.exitval
      && t.threads == s.threads[p := s.threads[p] - 1]
  {
  }

  lemma ExecFrame(s: Procs, p: Pid, runs: bool)
    requires Shape(s) && 0 <= p < s.N()
    ensures var t, n := Exec(s, p, runs), s.freeHead;
      && t.N() == s.N() && t.waiting == s.waiting && t.exitval == s.exitval
      && t.number == (if n != NULL then s.number[n := s.created] else s.number)
      && t.threads == if n != NULL && runs then s.threads[n := s.threads[n] + 1] else s.threads
  {
  }

  /** What a step does to the pending wait calls, and to the numbers of processes, */
  lemma StepWaits(s: Procs, a: Step)
    requires Defined(s, a)
    ensures var t := After(s, a);
      && |t.waiting| == |t.number| == s.N()
      && (forall x :: 0 <= x < s.N() && x != a.p ==> t.waiting[x] == s.waiting[x])
      && (!a.CallWaitChild? && !a.WakeUp? ==> t.waiting == s.waiting)
      && t.number == if a.CallExec? && s.freeHead != NULL then s.number[s.freeHead := s.created] else s.number
  {
    match a
    case CallExec(p, runs) => ExecFrame(s, p, runs);
    case CallThreadExit(p) => ExitFrame(s, p);
    case CallWaitChild(p, c) => WaitFrame(s, a);
    case WakeUp(p) => WaitFrame(s, a);
    case _ =>
  }

  /** and to their statuses and threads. */
  lemma StepThreads(s: Procs, a: Step)
    requires Defined(s, a)
    ensures var t := After(s, a);
      && t.N() == |t.exitval| == |t.threads| == s.N()
      && t.exitval == (if a.StoreStatus? then s.exitval[a.p := a.v] else s.exitval)
      && forall p :: 0 <= p < s.N() ==>
           t.threads[p] == s.threads[p] + (if StartsThread(s, a, p) then 1 else 0) -
             (if a == CallThreadExit(p) then 1 else 0)
  {
    match a
    case CallExec(p, runs) => ExecFrame(s, p, runs);
    case CallThreadExit(p) => ExitFrame(s, p);
    case CallWaitChild(p, c) => WaitFrame(s, a);
    case WakeUp(p) => WaitFrame(s, a);
    case _ =>
  }

  /** A waiting process goes on waiting for the same child until its call returns, and makes no
      other wait call: the child's control block is not given to another process. */
  lemma StillWaits(s: Procs, a: Step, p: Pid, c: Pid, k: nat)
    requires Enabled(s, a) && Defined(s, a) && FreeExact(s) && WaitsLegal(s)
    requires WaitsFor(s, p, c, k) && !(a == WakeUp(p) && Effect(s, a).1 != Blocked)
    requires Shape(After(s, a))
    ensures WaitsFor(After(s, a), p, c, k) && !(a.CallWaitChild? && a.p == p)
  {
    StepWaits(s, a);
    HeadIn(s.free);
    if a == WakeUp(p) {
      assert After(s, a).waiting == s.waiting[p := c];
    }
  }

  lemma StillWaitsAt(s: Procs, run: seq<Step>, p: Pid, c: Pid, k: nat, i: nat)
    requires Inv(s) && Runs(s, run) && i < |run| && WaitsFor(At(s, run, i), p, c, k) && !ReturnsAt(s, run, p, i)
    ensures WaitsFor(At(s, run, i + 1), p, c, k) && !(run[i].CallWaitChild? && run[i].p == p)
  {
    RunAt(s, run, i);
    StepInv(At(s, run, i), run[i]);
    StillWaits(At(s, run, i), run[i], p, c, k);
  }

  lemma StartsWaiting(s: Procs, p: Pid, c: Pid)
    requires Inv(s) && Enabled(s, CallWaitChild(p, c)) && Effect(s, CallWaitChild(p, c)).1 == Blocked
    ensures WaitsFor(After(s, CallWaitChild(p, c)), p, c, NumberOf(s, c))
  {
    StepInv(s, CallWaitChild(p, c));
    if c != NOPROC {
      WaitOneLaw(s, p, c);
    }
  }

  lemma StartsWaitingAt(s: Procs, run: seq<Step>, p: Pid, c: Pid, i: nat)
    requires Inv(s) && Runs(s, run) && i < |run| && run[i] == CallWaitChild(p, c) && OutcomeAt(s, run, i) == Blocked
    ensures var u := At(s, run, i); WaitsFor(At(s, run, i + 1), p, c, NumberOf(u, c))
  {
    RunAt(s, run, i);
    StartsWaiting(At(s, run, i), p, c);
  }

  /** If process `p` waits for `c` at step `m`, it still does after it. */
  ghost predicate KeepsWaiting(s: Procs, run: seq<Step>, p: Pid, c: Pid, k: nat, m: nat)
    requires m < |run|
  {
    WaitsFor(At(s, run, m), p, c, k) ==> WaitsFor(At(s, run, m + 1), p, c, k)
  }

  lemma {:induction false} WaitsOn(s: Procs, run: seq<Step>, p: Pid, c: Pid, k: nat, i: nat, j: nat)
    requires i < j <= |run| && WaitsFor(At(s, run, i + 1), p, c, k)
    requires forall m :: i < m < j ==> KeepsWaiting(s, run, p, c, k, m)
    ensures WaitsFor(At(s, run, j), p, c, k)
    decreases j
  {
    if j > i + 1 {
      WaitsOn(s, run, p, c, k, i, j - 1);
      assert KeepsWaiting(s, run, p, c, k, j - 1);
    }
  }

  lemma WaitsUntil(s: Procs, run: seq<Step>, p: Pid, c: Pid, i: nat, j: nat)
    requires Inv(s) && Runs(s, run) && i < j <= |run| && run[i] == CallWaitChild(p, c)
    requires OutcomeAt(s, run, i) == Blocked && forall m :: i < m < j ==> !ReturnsAt(s, run, p, m)
    ensures WaitsFor(At(s, run, j), p, c, NumberOf(At(s, run, i), c))
  {
    var k := NumberOf(At(s, run, i), c);
    StartsWaitingAt(s, run, p, c, i);
    forall m | i < m < j ensures KeepsWaiting(s, run, p, c, k, m) {
      if WaitsFor(At(s, run, m), p, c, k) {
        StillWaitsAt(s, run, p, c, k, m);
      }
    }
    WaitsOn(s, run, p, c, k, i, j);
  }

  /** A call that went to sleep waiting for one child, step `i`, returns that child and no other:
      each of its wake-ups finds it alive and sleeps on, or returns its pid, it being the same
      process as at the call, and the status it terminated with.  Until then the thread makes no
      other wait call. */
  lemma AskedChildReturned(s: Procs, run: seq<Step>, p: Pid, c: Pid, i: nat, j: nat)
    requires Inv(s) && Runs(s, run) && i < j < |run|
    requires run[i] == CallWaitChild(p, c) && c != NOPROC && OutcomeAt(s, run, i) == Blocked
    requires forall m :: i < m < j ==> !ReturnsAt(s, run, p, m)
    ensures !(run[j].CallWaitChild? && run[j].p == p)
    ensures run[j] == WakeUp(p) ==> var u, o := At(s, run, j), OutcomeAt(s, run, j);
      && 0 <= c < |u.pstate| && NumberOf(u, c) == NumberOf(At(s, run, i), c)
      && (o == Blocked <==> u.pstate[c] == ALIVE)
      && (o != Blocked ==> o.pid == c && NumberOf(u, c) in u.exits && o.status == u.exits[NumberOf(u, c)])
  {
    WaitsUntil(s, run, p, c, i, j);
    if ReturnsAt(s, run, p, j) {
      WakesForChildAt(s, run, p, c, j);
    } else {
      StillWaitsAt(s, run, p, c, NumberOf(At(s, run, i), c), j);
      if run[j] == WakeUp(p) {
        WakesForChildAt(s, run, p, c, j);
      }
    }
  }

  lemma WakesForChildAt(s: Procs, run: seq<Step>, p: Pid, c: Pid, j: nat)
    requires Inv(s) && Runs(s, run) && j < |run| && run[j] == WakeUp(p) && c != NOPROC
    requires WaitsFor(At(s, run, j), p, c, NumberOf(At(s, run, j), c))
    ensures var u, o := At(s, run, j), OutcomeAt(s, run, j);
      && (o == Blocked <==> u.pstate[c] == ALIVE)
      && (o != Blocked ==> o.pid == c && NumberOf(u, c) in u.exits && o.status == u.exits[NumberOf(u, c)])
  {
    RunAt(s, run, j);
    StepDefined(At(s, run, j), run[j]);
    WakesForChild(At(s, run, j), p, c);
  }

  lemma WakesForChild(s: Procs, p: Pid, c: Pid)
    requires Enabled(s, WakeUp(p)) && Defined(s, WakeUp(p)) && Recorded(s) && WaitsLegal(s)
    requires 2 <= c < s.N() && s.waiting[p] == c
    ensures var o := Effect(s, WakeUp(p)).1;
      && (o == Blocked <==> s.pstate[c] == ALIVE)
      && (o != Blocked ==> o.pid == c && s.number[c] in s.exits && o.status == s.exits[s.number[c]])
  {
  }

  /** A call that went to sleep waiting for any child sleeps on exactly as long as all children
      are alive, and returns the first exited one. */
  lemma AnyChildReturned(s: Procs, run: seq<Step>, p: Pid, i: nat, j: nat)
    requires Inv(s) && Runs(s, run) && i < j < |run|
    requires run[i] == CallWaitChild(p, NOPROC) && OutcomeAt(s, run, i) == Blocked && run[j] == WakeUp(p)
    requires forall m :: i < m < j ==> !ReturnsAt(s, run, p, m)
    ensures var u, o := At(s, run, j), OutcomeAt(s, run, j);
      && Inv(u) && 0 <= p < u.N()
      && (o == FAILED <==> !exists c :: ChildOf(u, c, p))
      && (o == Blocked <==> (exists c :: ChildOf(u, c, p)) && forall c :: ChildOf(u, c, p) ==> u.pstate[c] == ALIVE)
      && (o != FAILED && o != Blocked ==> u.exited[p] != [] && o == Done(u.exited[p][0], u.exitval[u.exited[p][0]]))
  {
    WaitsUntil(s, run, p, NOPROC, i, j);
    RunAt(s, run, j);
    WaitFirstLaw(At(s, run, j), p);
  }

  // ---------------------------------------------------------------- statuses

  /** Step `m` leaves the status of process `p`. */
  ghost predicate KeepsStatus(s: Procs, run: seq<Step>, p: Pid, v: int, m: nat)
    requires m < |run|
  {
    Holds(At(s, run, m), p, v) ==> Holds(At(s, run, m + 1), p, v)
  }

  ghost predicate Holds(s: Procs, p: Pid, v: int) {
    0 <= p < |s.exitval| && s.exitval[p] == v
  }

  lemma StatusAt(s: Procs, run: seq<Step>, p: Pid, v: int, m: nat)
    requires Inv(s) && Runs(s, run) && m < |run|
    ensures run[m] == StoreStatus(p, v) ==> Holds(At(s, run, m + 1), p, v)
    ensures !(run[m].StoreStatus? && run[m].p == p) ==> KeepsStatus(s, run, p, v, m)
  {
    RunAt(s, run, m);
    StepDefined(At(s, run, m), run[m]);
    StepThreads(At(s, run, m), run[m]);
  }

  lemma {:induction false} StoredUntil(s: Procs, run: seq<Step>, p: Pid, v: int, i: nat, j: nat)
    requires i < j <= |run| && Holds(At(s, run, i + 1), p, v)
    requires forall m :: i < m < j ==> KeepsStatus(s, run, p, v, m)
    ensures Holds(At(s, run, j), p, v)
    decreases j
  {
    if j > i + 1 {
      StoredUntil(s, run, p, v, i, j - 1);
      assert KeepsStatus(s, run, p, v, j - 1);
    }
  }

  /** The status given to `Exit` is the one that a wait call returns, unless a thread of the
      process stores another before. */
  lemma StatusReachesParent(s: Procs, run: seq<Step>, p: Pid, v: int, i: nat, j: nat)
    requires Inv(s) && Runs(s, run) && i < j < |run| && run[i] == StoreStatus(p, v)
    requires forall m :: i < m < j ==> !(run[m].StoreStatus? && run[m].p == p)
    requires p >= 0 && OutcomeAt(s, run, j).Done? && OutcomeAt(s, run, j).pid == p
    ensures OutcomeAt(s, run, j).status == v
  {
    StatusAt(s, run, p, v, i);
    forall m | i < m < j ensures KeepsStatus(s, run, p, v, m) {
      StatusAt(s, run, p, v, m);
    }
    StoredUntil(s, run, p, v, i, j);
    RunAt(s, run, j);
    StepDefined(At(s, run, j), run[j]);
    DeliversHeld(At(s, run, j), run[j]);
  }

  lemma DeliversHeld(s: Procs, a: Step)
    requires Defined(s, a) && Effect(s, a).1.Done? && 0 <= Effect(s, a).1.pid
    ensures var o := Effect(s, a).1; o.pid < |s.exitval| && o.status == s.exitval[o.pid]
  {
  }

  // ---------------------------------------------------------------- threads

  /** Step `a` starts a thread of process `p`: its own first one, or a further one. */
  ghost predicate StartsThread(s: Procs, a: Step, p: Pid) {
    a == CallCreateThread(p) || (a.CallExec? && a.runs && s.freeHead == p)
  }

  ghost function Started(s: Procs, run: seq<Step>, p: Pid): nat
    decreases |run|
  {
    if run == [] then 0 else (if StartsThread(s, run[0], p) then 1 else 0) + Started(After(s, run[0]), run[1..], p)
  }

  function Ended(run: seq<Step>, p: Pid): nat {
    if run == [] then 0 else (if run[0] == CallThreadExit(p) then 1 else 0) + Ended(run[1..], p)
  }

  lemma OneThreads(s: Procs, a: Step, p: Pid)
    requires Defined(s, a) && 0 <= p < s.N()
    ensures var t := After(s, a);
      && t.N() == |t.threads| == s.N()
      && t.threads[p] == s.threads[p] + (if StartsThread(s, a, p) then 1 else 0) -
           (if a == CallThreadExit(p) then 1 else 0)
  {
    StepThreads(s, a);
  }

  /** Over any run the threads of a process are those started less those ended, whatever
      processes its control block held; and `ExitLaw` says that a process ends with its last. */
  lemma {:induction false} ThreadsConserved(s: Procs, run: seq<Step>, p: Pid)
    requires Inv(s) && Runs(s, run) && 0 <= p < s.N()
    ensures Final(s, run).N() == s.N() && |Final(s, run).threads| == s.N()
    ensures Final(s, run).threads[p] == s.threads[p] + Started(s, run, p) - Ended(run, p)
    decreases |run|
  {
    if run != [] {
      StepInv(s, run[0]);
      OneThreads(s, run[0], p);
      ThreadsConserved(After(s, run[0]), run[1..], p);
    }
  }
}
