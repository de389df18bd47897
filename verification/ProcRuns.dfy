/** Runs of the process table: what holds after every sequence of calls. */
module ProcRuns {
  import opened Sequences
  import opened ProcTable
  import opened ProcInvariant

  // ---------------------------------------------------------------- the start

  /** The parent fields of a free list of `n` blocks in ascending order. */
  function FreeLinks(n: nat): seq<Pid> {
    seq(n, i => if i + 1 < n then i + 1 else NULL)
  }

  /** The tables as `initialize_processes` leaves them before its call of Exec. */
  function Initial(n: nat, files: nat, status: seq<int>): Procs
    requires n > INIT && |status| == n
  {
    Procs(seq(n, _ => FREE), FreeLinks(n), status,
          seq(n, _ => []), seq(n, _ => []), seq(n, _ => 0), seq(n, _ => seq(files, _ => NULL)),
          0, 0, seq(n, i => i), seq(n, _ => NOT_WAITING), seq(n, _ => false),
          seq(n, _ => 0), 0, map[], [], seq(n, _ => Nothing))
  }

  lemma InitialShape(n: nat, files: nat, status: seq<int>)
    requires n > INIT && |status| == n
    ensures Shape(Initial(n, files, status)) && Initial(n, files, status).freeHead == 0
  {
  }

  /** The idle process, then the initial one. */
  function Boot(n: nat, files: nat, status: seq<int>): (r: Procs)
    requires n > INIT && |status| == n
    ensures Shape(r)
  {
    InitialShape(n, files, status);
    var s := Initial(n, files, status);
    Exec(Exec(s, 0, false), 0, true)
  }

  lemma BootState(n: nat, files: nat, status: seq<int>)
    requires n > INIT && |status| == n
    ensures var t := Boot(n, files, status); var s := Initial(n, files, status);
            t == s.(pstate := s.pstate[0 := ALIVE][INIT := ALIVE], parent := s.parent[0 := NULL][INIT := NULL],
                    threads := s.threads[INIT := 1], freeHead := if n > 2 then 2 else NULL, count := 2,
                    free := seq(n - 2, i requires 0 <= i => i + 2), number := s.number[INIT := 1], created := 2)
  {
    InitialShape(n, files, status);
    var s := Initial(n, files, status);
    var s1 := Exec(s, 0, false);
    assert s1.freeHead == 1;
    var t := Exec(s1, 0, true);
    assert t.free == seq(n - 2, i requires 0 <= i => i + 2);
    assert t.said == s.said && t.number == s.number[INIT := 1] && t.threads == s.threads[INIT := 1];
  }

  lemma BootForest(n: nat, files: nat, status: seq<int>)
    requires n > INIT && |status| == n
    ensures Forest(Boot(n, files, status)) && ExitedExact(Boot(n, files, status))
  {
    BootState(n, files, status);
  }

  lemma BootLists(n: nat, files: nat, status: seq<int>)
    requires n > INIT && |status| == n
    ensures DeadIsEmpty(Boot(n, files, status)) && FreeExact(Boot(n, files, status))
  {
    BootState(n, files, status);
    var t := Boot(n, files, status);
    assert forall i :: 0 <= i < |t.free| ==> t.free[i] == i + 2;
    forall p | 0 <= p < n ensures t.pstate[p] == FREE <==> p in t.free {
      if p >= 2 {
        assert t.free[p - 2] == p;
      }
    }
  }

  lemma BootRest(n: nat, files: nat, status: seq<int>)
    requires n > INIT && |status| == n
    ensures var t := Boot(n, files, status);
            ExitsOnce(t) && WaitsLegal(t) && NoneForgotten(t) && StatusSaid(t) && ThreadsCounted(t) && Running(t, INIT)
  {
    BootState(n, files, status);
  }

  lemma BootInv(n: nat, files: nat, status: seq<int>)
    requires n > INIT && |status| == n
    ensures Inv(Boot(n, files, status)) && Running(Boot(n, files, status), INIT)
  {
    BootForest(n, files, status);
    BootLists(n, files, status);
    BootRest(n, files, status);
  }

  // ---------------------------------------------------------------- steps

  datatype Step =
    | CallExec(p: Pid, runs: bool)
    | CallCreateThread(p: Pid)
    | StoreStatus(p: Pid, v: int)
    | CallThreadExit(p: Pid)
    | CallWaitChild(p: Pid, c: Pid)
    | WakeUp(p: Pid)

  /** Calls are made by running threads; the initial process exits without children; one
      thread of a process waits at a time, and any wake-up may be spurious. */
  ghost predicate Enabled(s: Procs, a: Step)
  {
    && Shape(s)
    && match a
       case CallExec(p, _) => Running(s, p)
       case CallCreateThread(p) => Running(s, p)
       case StoreStatus(p, _) => Running(s, p)
       case CallThreadExit(p) => Running(s, p) && (p == INIT && s.threads[p] == 1 ==> s.children[p] == [])
       case CallWaitChild(p, _) => Running(s, p) && s.waiting[p] == NOT_WAITING
       case WakeUp(p) => 0 <= p < s.N() && s.waiting[p] != NOT_WAITING
  }

  /** The pointers that the step follows are not null. */
  ghost predicate Defined(s: Procs, a: Step) {
    && Shape(s) && 0 <= a.p < s.N()
    && match a
       case CallThreadExit(p) => p != INIT ==> s.parent[p] != NULL
       case CallWaitChild(p, _) => HeadDefined(s, p)
       case WakeUp(p) =>
         if s.waiting[p] < 0 then HeadDefined(s, p)
         else s.waiting[p] < s.N() && 0 <= s.parent[s.waiting[p]]
       case _ => true
  }

  ghost predicate HeadDefined(s: Procs, p: Pid)
    requires Shape(s) && 0 <= p < s.N()
  {
    s.exited[p] != [] ==> 0 <= s.parent[s.exited[p][0]]
  }

  /** The new state, and the outcome if the step is a wait call or its wake-up. */
  ghost function Effect(s: Procs, a: Step): (Procs, Outcome) {
    if !Defined(s, a) then (s, Blocked)
    else match a
      case CallExec(p, runs) => (Exec(s, p, runs), Blocked)
      case CallCreateThread(p) => (CreateThread(s, p), Blocked)
      case StoreStatus(p, v) => (SetExit(s, p, v), Blocked)
      case CallThreadExit(p) => (ThreadExit(s, p), Blocked)
      case CallWaitChild(p, c) => WaitChild(s, p, c)
      case WakeUp(p) => if s.waiting[p] >= 0 then WaitSpecific(s, p, s.waiting[p]) else WaitAny(s, p)
  }

  ghost function After(s: Procs, a: Step): Procs {
    Effect(s, a).0
  }

  lemma WakeUpInv(s: Procs, p: Pid)
    requires Inv(s) && Enabled(s, WakeUp(p))
    ensures Defined(s, WakeUp(p)) && Inv(After(s, WakeUp(p)))
  {
    if s.waiting[p] >= 0 {
      WaitSpecificInv(s, p, s.waiting[p]);
    } else {
      WaitAnyInv(s, p);
    }
  }

  /** Every step keeps the invariant and follows no null pointer. */
  lemma StepInv(s: Procs, a: Step)
    requires Inv(s) && Enabled(s, a)
    ensures Defined(s, a) && Inv(After(s, a))
  {
    match a
    case CallExec(p, runs) => ExecInv(s, p, runs);
    case CallCreateThread(p) => CreateThreadInv(s, p);
    case StoreStatus(p, v) => SetExitInv(s, p, v);
    case CallThreadExit(p) => ThreadExitInv(s, p);
    case CallWaitChild(p, c) => WaitChildInv(s, p, c);
    case WakeUp(p) => WakeUpInv(s, p);
  }

  ghost predicate Runs(s: Procs, run: seq<Step>)
    decreases |run|
  {
    run == [] || (Enabled(s, run[0]) && Runs(After(s, run[0]), run[1..]))
  }

  ghost function Final(s: Procs, run: seq<Step>): Procs
    decreases |run|
  {
    if run == [] then s else Final(After(s, run[0]), run[1..])
  }

  /** The invariant holds after every run. */
  lemma {:induction false} RunsKeepInv(s: Procs, run: seq<Step>)
    requires Inv(s) && Runs(s, run)
    ensures Inv(Final(s, run))
    decreases |run|
  {
    if run != [] {
      StepInv(s, run[0]);
      RunsKeepInv(After(s, run[0]), run[1..]);
    }
  }

  // ---------------------------------------------------------------- statuses

  datatype Delivery = Delivery(number: nat, status: int)

  /** What a wait call hands to the parent, if it does. */
  ghost function Delivered(s: Procs, a: Step): seq<Delivery> {
    var o := Effect(s, a).1;
    if Shape(s) && o.Done? && 0 <= o.pid < s.N() then [Delivery(s.number[o.pid], o.status)] else []
  }

  /** What the wait calls of a run handed to parents, in order. */
  ghost function Deliveries(s: Procs, run: seq<Step>): seq<Delivery>
    decreases |run|
  {
    if run == [] then [] else Delivered(s, run[0]) + Deliveries(After(s, run[0]), run[1..])
  }

  function Numbers(d: seq<Delivery>): (r: seq<nat>)
    ensures |r| == |d| && forall i :: 0 <= i < |d| ==> r[i] == d[i].number
  {
    seq(|d|, i requires 0 <= i < |d| => d[i].number)
  }

  lemma CollectDelivers(s: Procs, z: Pid, p: Pid)
    requires Shape(s) && ExitsOnce(s) && StatusSaid(s) && 2 <= z < s.N() && s.pstate[z] == ZOMBIE
        && s.parent[z] == p >= 0
    ensures Shape(CleanUp(s, z))
    ensures CleanUp(s, z).delivered == s.delivered + [s.number[z]] && CleanUp(s, z).exits == s.exits
    ensures CleanUp(s, z).pstate[z] == FREE
    ensures s.number[z] in s.exits && s.exits[s.number[z]] == s.exitval[z]
    ensures s.said[z] == Value(s.exitval[z]) <==> s.said[z].Value?
  {
    CleanUpReaped(s, z);
  }

  /** A wait call collects one ZOMBIE child of the caller. */
  ghost predicate Collects(s: Procs, t: Procs, p: Pid, o: Outcome)
    requires Shape(s)
  {
    && o.Done? && 2 <= o.pid < s.N() && s.pstate[o.pid] == ZOMBIE && s.parent[o.pid] == p
    && |t.pstate| == s.N() && t.pstate[o.pid] == FREE
    && s.number[o.pid] in s.exits && o.status == s.exits[s.number[o.pid]]
    && (s.said[o.pid] == Value(o.status) <==> s.said[o.pid].Value?)
    && t.delivered == s.delivered + [s.number[o.pid]] && t.exits == s.exits
  }

  ghost predicate CollectsNothing(s: Procs, t: Procs, o: Outcome) {
    (o == FAILED || o == Blocked) && t.delivered == s.delivered && t.exits == s.exits
  }

  lemma SpecificDelivers(s: Procs, p: Pid, c: Pid)
    requires Shape(s) && ExitsOnce(s) && StatusSaid(s)
    requires 0 <= p < s.N() && 2 <= c < s.N() && s.pstate[c] != FREE && s.parent[c] == p
    ensures var (t, o) := WaitSpecific(s, p, c); Collects(s, t, p, o) || CollectsNothing(s, t, o)
  {
    if s.pstate[c] == ZOMBIE {
      CollectDelivers(s, c, p);
    }
  }

  lemma AnyDelivers(s: Procs, p: Pid)
    requires Shape(s) && ExitsOnce(s) && StatusSaid(s) && ExitedSound(s) && 0 <= p < s.N()
    ensures HeadDefined(s, p)
    ensures var (t, o) := WaitAny(s, p); Collects(s, t, p, o) || CollectsNothing(s, t, o)
  {
    HeadIn(s.exited[p]);
    if s.exited[p] != [] {
      CollectDelivers(s, s.exited[p][0], p);
    }
  }

  lemma WaitCases(s: Procs, p: Pid, c: Pid)
    requires Shape(s) && Roots(s) && 0 <= p < s.N() && HeadDefined(s, p)
    ensures c == NOPROC ==> WaitChild(s, p, c) == WaitAny(s, p)
    ensures c != NOPROC && !(2 <= c < s.N() && s.pstate[c] != FREE && s.parent[c] == p) ==>
        WaitChild(s, p, c) == (s, FAILED)
    ensures 2 <= c < s.N() && s.pstate[c] != FREE && s.parent[c] == p ==> WaitChild(s, p, c) == WaitSpecific(s, p, c)
  {
  }

  lemma ChildDelivers(s: Procs, p: Pid, c: Pid)
    requires Shape(s) && ExitsOnce(s) && StatusSaid(s) && ExitedSound(s) && Roots(s) && 0 <= p < s.N()
    ensures HeadDefined(s, p)
    ensures var (t, o) := WaitChild(s, p, c); Collects(s, t, p, o) || CollectsNothing(s, t, o)
  {
    AnyDelivers(s, p);
    WaitCases(s, p, c);
    if 2 <= c < s.N() && s.pstate[c] != FREE && s.parent[c] == p {
      SpecificDelivers(s, p, c);
    }
  }

  lemma WakeUpDelivers(s: Procs, p: Pid)
    requires Shape(s) && ExitsOnce(s) && StatusSaid(s) && ExitedSound(s) && WaitsLegal(s)
    requires 0 <= p < s.N() && s.waiting[p] != NOT_WAITING
    ensures var (t, o) := Effect(s, WakeUp(p)); Collects(s, t, p, o) || CollectsNothing(s, t, o)
  {
    if s.waiting[p] >= 0 {
      SpecificDelivers(s, p, s.waiting[p]);
    } else {
      AnyDelivers(s, p);
    }
  }

  /** A wait call hands over the status of one ZOMBIE child of the caller, the one with which
      it terminated, or nothing. */
  lemma WaitDelivers(s: Procs, a: Step)
    requires Inv(s) && Enabled(s, a) && (a.CallWaitChild? || a.WakeUp?)
    ensures var (t, o) := Effect(s, a); Collects(s, t, a.p, o) || CollectsNothing(s, t, o)
  {
    match a
    case CallWaitChild(p, c) => ChildDelivers(s, p, c);
    case WakeUp(p) => WakeUpDelivers(s, p);
    case _ =>
  }

  /** A call that is not a wait hands over nothing; the exit of the last thread of a process
      records the status it leaves, under a number that had none. */
  lemma OtherStepRecords(s: Procs, a: Step)
    requires Shape(s) && Recorded(s) && Enabled(s, a) && Defined(s, a) && !a.CallWaitChild? && !a.WakeUp?
    ensures var t := After(s, a); t.delivered == s.delivered && Effect(s, a).1 == Blocked
    ensures var t := After(s, a);
            if a.CallThreadExit? && a.p != INIT && s.threads[a.p] == 1
            then s.number[a.p] !in s.exits && t.exits == s.exits[s.number[a.p] := s.exitval[a.p]]
            else t.exits == s.exits
  {
  }

  ghost predicate Extends(d: map<nat, int>, e: map<nat, int>) {
    forall k :: k in d ==> k in e && e[k] == d[k]
  }

  lemma DeliveredIs(s: Procs, a: Step, t: Procs, o: Outcome)
    requires Shape(s) && (t, o) == Effect(s, a)
    requires Collects(s, t, a.p, o) || CollectsNothing(s, t, o)
    ensures t.delivered == s.delivered + Numbers(Delivered(s, a)) && t.exits == s.exits
    ensures forall x :: x in Delivered(s, a) ==> x.number in s.exits && s.exits[x.number] == x.status
  {
    if Collects(s, t, a.p, o) {
      assert Delivered(s, a) == [Delivery(s.number[o.pid], o.status)];
      assert Numbers(Delivered(s, a)) == [s.number[o.pid]];
    } else {
      assert Delivered(s, a) == [];
      assert s.delivered + Numbers(Delivered(s, a)) == s.delivered;
    }
  }

  lemma NothingDelivered(s: Procs, a: Step, t: Procs)
    requires Shape(s) && Recorded(s) && Enabled(s, a) && Defined(s, a) && !a.CallWaitChild? && !a.WakeUp?
        && t == After(s, a)
    ensures t.delivered == s.delivered + Numbers(Delivered(s, a)) && Extends(s.exits, t.exits)
    ensures Delivered(s, a) == []
  {
    OtherStepRecords(s, a);
    assert s.delivered + Numbers(Delivered(s, a)) == s.delivered;
  }

  lemma StepDelivers(s: Procs, a: Step)
    requires Inv(s) && Enabled(s, a)
    ensures After(s, a).delivered == s.delivered + Numbers(Delivered(s, a))
    ensures Extends(s.exits, After(s, a).exits)
    ensures forall x :: x in Delivered(s, a) ==> x.number in s.exits && s.exits[x.number] == x.status
  {
    var (t, o) := Effect(s, a);
    if a.CallWaitChild? || a.WakeUp? {
      WaitDelivers(s, a);
      DeliveredIs(s, a, t, o);
    } else {
      StepInv(s, a);
      NothingDelivered(s, a, t);
    }
  }

  lemma NumbersJoin(l: seq<nat>, d: seq<Delivery>, e: seq<Delivery>)
    ensures l + Numbers(d) + Numbers(e) == l + Numbers(d + e)
  {
  }

  lemma {:induction false} RunDelivers(s: Procs, run: seq<Step>)
    requires Inv(s) && Runs(s, run)
    ensures Final(s, run).delivered == s.delivered + Numbers(Deliveries(s, run))
    ensures Extends(s.exits, Final(s, run).exits)
    ensures forall x :: x in Deliveries(s, run) ==>
              x.number in Final(s, run).exits && Final(s, run).exits[x.number] == x.status
    decreases |run|
  {
    if run != [] {
      var t := After(s, run[0]);
      StepInv(s, run[0]);
      StepDelivers(s, run[0]);
      RunDelivers(t, run[1..]);
      NumbersJoin(s.delivered, Delivered(s, run[0]), Deliveries(t, run[1..]));
    }
  }

  /** From the start of the system: the status with which a process terminates is handed to a
      parent at most once, unchanged, and until then a zombie keeps it. */
  lemma EveryStatusOnce(n: nat, files: nat, status: seq<int>, run: seq<Step>)
    requires n > INIT && |status| == n && Runs(Boot(n, files, status), run)
    ensures var d := Deliveries(Boot(n, files, status), run); var t := Final(Boot(n, files, status), run);
            && (forall i, j :: 0 <= i < j < |d| ==> d[i].number != d[j].number)
            && (forall x :: x in d ==> x.number in t.exits && t.exits[x.number] == x.status)
            && (forall k :: k in t.exits && k !in Numbers(d) ==> Shape(t) && ZombieNumbered(t, k))
  {
    var s := Boot(n, files, status);
    BootInv(n, files, status);
    BootState(n, files, status);
    RunsKeepInv(s, run);
    RunDelivers(s, run);
    var d := Deliveries(s, run);
    assert s.delivered == [];
    assert Final(s, run).delivered == Numbers(d);
    NumbersDistinct(Final(s, run), d);
  }

  lemma NumbersDistinct(t: Procs, d: seq<Delivery>)
    requires Distinct(t.delivered) && t.delivered == Numbers(d)
    ensures forall i, j :: 0 <= i < j < |d| ==> d[i].number != d[j].number
  {
    forall i, j | 0 <= i < j < |d| ensures d[i].number != d[j].number {
      assert t.delivered[i] != t.delivered[j];
    }
  }

  // ---------------------------------------------------------------- what the tables promise

  /** `k` steps to the parent lead from `p` to the initial process. */
  ghost predicate LeadsToInit(s: Procs, p: Pid, k: nat)
    requires Shape(s)
    decreases k
  {
    if k == 0 then p == INIT
    else 2 <= p < s.N() && s.parent[p] >= 0 && s.pstate[s.parent[p]] == ALIVE && LeadsToInit(s, s.parent[p], k - 1)
  }

  lemma LivingParent(s: Procs, p: Pid)
    requires Shape(s) && Parents(s) && 2 <= p < s.N() && s.pstate[p] != FREE
    ensures INIT <= s.parent[p] && s.pstate[s.parent[p]] == ALIVE && s.number[s.parent[p]] < s.number[p]
  {
    assert HasParent(s, p);
  }

  /** The parents of any process are alive and lead to the initial one, without cycles. */
  lemma {:induction false} ParentsLeadToInit(s: Procs, p: Pid) returns (k: nat)
    requires Shape(s) && Parents(s) && INIT <= p < s.N() && s.pstate[p] != FREE
    ensures LeadsToInit(s, p, k)
    decreases s.number[p]
  {
    if p == INIT {
      k := 0;
    } else {
      LivingParent(s, p);
      k := ParentsLeadToInit(s, s.parent[p]);
      k := k + 1;
    }
  }

  /** Zombies have no children: every process belongs to a living parent. */
  lemma NoOrphans(s: Procs, p: Pid)
    requires Inv(s) && 2 <= p < s.N() && s.pstate[p] != FREE
    ensures 0 <= s.parent[p] && s.pstate[s.parent[p]] == ALIVE
    ensures s.pstate[p] == ZOMBIE ==> s.children[p] == []
    ensures forall q :: 0 <= q < s.N() ==> (p in s.children[q] <==> q == s.parent[p])
    ensures forall q :: 0 <= q < s.N() ==> (p in s.exited[q] <==> q == s.parent[p] && s.pstate[p] == ZOMBIE)
  {
    assert HasParent(s, p);
  }

  /** Control blocks are conserved: one is free exactly if fewer than all are in use, and Exec
      fails only when none is. A recycled one starts clean. */
  lemma BlocksConserved(s: Procs, p: Pid, runs: bool)
    requires Inv(s) && Running(s, p)
    ensures s.freeHead == NULL <==> s.count == s.N()
    ensures s.freeHead == NULL ==> Exec(s, p, runs) == s
    ensures s.freeHead != NULL ==>
              var t, c := Exec(s, p, runs), s.freeHead;
              && 2 <= c && s.pstate[c] == FREE && t.pstate[c] == ALIVE && t.parent[c] == p
              && t.children[c] == [] == t.exited[c] && t.threads[c] == (if runs then 1 else 0)
              && t.fidt[c] == s.fidt[p] && t.children[p] == [c] + s.children[p]
  {
    if s.freeHead != NULL {
      ExecBorn(s, p, runs);
      ExecThreads(s, p, runs);
    }
  }

  lemma ExecThreads(s: Procs, p: Pid, runs: bool)
    requires Shape(s) && DeadIsEmpty(s) && 0 <= p < s.N() && s.pstate[p] == ALIVE && s.freeHead != NULL
    requires s.pstate[s.freeHead] == FREE && 2 <= s.freeHead
    ensures var t, c := Exec(s, p, runs), s.freeHead;
            t.children[c] == [] == t.exited[c] && t.threads[c] == (if runs then 1 else 0)
  {
  }

  /** `wait_for_any_child` fails exactly if the caller has no child, sleeps exactly if all its
      children are alive, and otherwise returns an exited child. */
  lemma WaitAnyLaw(s: Procs, p: Pid)
    requires Inv(s) && INIT <= p < s.N() && s.pstate[p] == ALIVE
    ensures HeadDefined(s, p)
    ensures var o := WaitAny(s, p).1;
            && (o == FAILED <==> forall c :: 2 <= c < s.N() && s.pstate[c] != FREE ==> s.parent[c] != p)
            && (o == Blocked <==>
                  && (forall c :: 2 <= c < s.N() && s.pstate[c] != FREE && s.parent[c] == p ==> s.pstate[c] == ALIVE)
                  && (exists c :: 2 <= c < s.N() && s.pstate[c] != FREE && s.parent[c] == p))
  {
    HeadIn(s.exited[p]);
    HeadIn(s.children[p]);
    forall c | 2 <= c < s.N() && s.pstate[c] != FREE && s.parent[c] == p
      ensures s.children[p] != [] && (s.pstate[c] == ZOMBIE ==> s.exited[p] != [])
    {
      assert HasParent(s, c);
      assert c in s.children[p];
    }
  }

  /** A process asleep in a wait call that now could return was woken for it. */
  lemma NoLostWakeUp(s: Procs, p: Pid)
    requires Inv(s) && Enabled(s, WakeUp(p)) && Effect(s, WakeUp(p)).1 != Blocked
    ensures s.woken[p]
  {
    StepInv(s, WakeUp(p));
  }

  /** The assertions at the end of `sys_ThreadExit`: the lists of the process are empty. */
  ghost predicate ExitAssertsHold(s: Procs, p: Pid)
    requires Shape(s) && 0 <= p < s.N() && (p != INIT ==> s.parent[p] != NULL)
  {
    ThreadExit(s, p).children[p] == [] && ThreadExit(s, p).exited[p] == []
  }

  /** They hold exactly if the process is not the initial one, or that has no children. */
  lemma ExitAssertsIff(s: Procs, p: Pid)
    requires Inv(s) && Running(s, p) && s.threads[p] == 1
    ensures p != INIT ==> s.parent[p] != NULL
    ensures ExitAssertsHold(s, p) <==> (p != INIT || s.children[INIT] == [])
  {
    if p == INIT {
      if s.children[INIT] == [] {
        InitExitFinal(s);
      }
    } else {
      HasAParent(s, p);
      ExitDied(s, p);
    }
  }

  /** The initial process calling Exit collects children until there are none, so the
      assertions hold for it. */
  lemma InitExitIsSafe(s: Procs)
    requires Inv(s) && Running(s, INIT) && HeadDefined(s, INIT) && WaitAny(s, INIT).1 == FAILED
    ensures Enabled(s, CallThreadExit(INIT))
  {
    HeadIn(s.exited[INIT]);
  }

  lemma ExecChild(s: Procs, t: Procs, p: Pid)
    requires Shape(s) && Forest(s) && FreeExact(s) && DeadIsEmpty(s) && WaitsLegal(s)
    requires Running(s, p) && s.waiting[p] == NOT_WAITING && s.freeHead != NULL
    requires t == Exec(s, p, true)
    ensures Shape(t) && Running(t, s.freeHead) && t.threads[s.freeHead] == 1 && t.parent[s.freeHead] == p
    ensures t.waiting[s.freeHead] == NOT_WAITING
    ensures 2 <= s.freeHead && s.freeHead != p && t.children[s.freeHead] == []
    ensures t.exitval == s.exitval && t.number[s.freeHead] == s.created && t.said[s.freeHead] == Nothing
    ensures Running(t, p) && t.waiting[p] == NOT_WAITING
  {
    ExecBorn(s, p, true);
    ExecThreads(s, p, true);
  }

  lemma ExitChild(s: Procs, t: Procs, n: Pid, p: Pid)
    requires Shape(s) && Parents(s) && Children(s) && Running(s, n) && s.threads[n] == 1 && 2 <= n
    requires s.parent[n] == p && n != p && s.children[n] == [] && s.waiting[n] == NOT_WAITING
    requires Running(s, p) && s.waiting[p] == NOT_WAITING
    requires t == ThreadExit(s, n)
    ensures Shape(t) && t.pstate[n] == ZOMBIE && t.parent[n] == p
    ensures t.exitval == s.exitval && t.number == s.number && Running(t, p) && t.waiting[p] == NOT_WAITING
  {
    ExitDied(s, n);
  }

  lemma OneStep(s: Procs, a: Step, run: seq<Step>)
    requires Enabled(s, a) && Runs(After(s, a), run)
    ensures Runs(s, [a] + run) && Deliveries(s, [a] + run) == Delivered(s, a) + Deliveries(After(s, a), run)
  {
    assert ([a] + run)[1..] == run;
  }

  lemma WaitCollects(s: Procs, p: Pid, c: Pid)
    requires Shape(s) && 2 <= c < s.N() && s.pstate[c] == ZOMBIE && s.parent[c] == p
    requires Enabled(s, CallWaitChild(p, c)) && Defined(s, CallWaitChild(p, c))
    ensures Delivered(s, CallWaitChild(p, c)) == [Delivery(s.number[c], s.exitval[c])]
  {
  }

  /** A process that ends by ThreadExit alone hands over the status left in its control block
      by the previous process in it. */
  lemma StaleStatus(s: Procs, p: Pid)
    requires Inv(s) && Running(s, p) && s.waiting[p] == NOT_WAITING && s.freeHead != NULL
    ensures var n := s.freeHead;
            var run := [CallExec(p, true)] + ([CallThreadExit(n)] + ([CallWaitChild(p, n)] + []));
            Runs(s, run) && Deliveries(s, run) == [Delivery(s.created, s.exitval[n])]
  {
    var n := s.freeHead;
    var a, b, c := CallExec(p, true), CallThreadExit(n), CallWaitChild(p, n);
    StepInv(s, a);
    var s1 := After(s, a);
    ExecChild(s, s1, p);
    StepInv(s1, b);
    var s2 := After(s1, b);
    ExitChild(s1, s2, n, p);
    StepInv(s2, c);
    WaitCollects(s2, p, n);
    StaleRun(s, a, b, c);
  }

  lemma StaleRun(s: Procs, a: Step, b: Step, c: Step)
    requires var s1 := After(s, a); Enabled(s, a) && Enabled(s1, b) && Enabled(After(s1, b), c)
    requires a.CallExec? && b.CallThreadExit?
    ensures Runs(s, [a] + ([b] + ([c] + [])))
    ensures Deliveries(s, [a] + ([b] + ([c] + []))) == Delivered(After(After(s, a), b), c)
  {
    var s1 := After(s, a);
    var s2 := After(s1, b);
    OneStep(s2, c, []);
    OneStep(s1, b, [c] + []);
    OneStep(s, a, [b] + ([c] + []));
    assert Deliveries(After(s2, c), []) == [];
  }

  /** After the first child of the initial process is created, the assertions would fail if
      the initial process ended. */
  lemma ExitAssertsFail(n: nat, files: nat, status: seq<int>)
    requires n > 2 && |status| == n
    ensures var run := [CallExec(INIT, true)];
            && Runs(Boot(n, files, status), run)
            && var s := Final(Boot(n, files, status), run);
               Inv(s) && Running(s, INIT) && s.threads[INIT] == 1 && !ExitAssertsHold(s, INIT)
  {
    var s, a := Boot(n, files, status), CallExec(INIT, true);
    BootInv(n, files, status);
    BootState(n, files, status);
    FirstChild(s);
    assert [a][1..] == [];
    assert Runs(After(s, a), []) && Final(After(s, a), []) == After(s, a);
    StepInv(s, a);
    ExitAssertsIff(After(s, a), INIT);
  }

  lemma FirstChild(s: Procs)
    requires Inv(s) && Running(s, INIT) && s.threads[INIT] == 1 && s.freeHead == 2
    ensures var t := After(s, CallExec(INIT, true));
            Shape(t) && Running(t, INIT) && t.threads[INIT] == 1 && t.children[INIT] != []
  {
    ExecBorn(s, INIT, true);
  }
}
