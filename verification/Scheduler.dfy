/** The scheduler in the form the kernel has it: tables and lists updated in place.
    Every routine is tied to its step in SchedModel. */
module Scheduler {
  import opened Sequences
  import opened SchedModel
  import opened SchedInvariant
  import opened SchedRuns
  import opened SchedLaws

  lemma {:induction false} InsertPosUnique(tcb: seq<Tcb>, l: seq<Tid>, w: nat, k: nat)
    requires forall i :: 0 <= i < |l| ==> l[i] < |tcb|
    requires k <= |l| && (forall i :: 0 <= i < k ==> tcb[l[i]].wakeupTime <= w)
    requires k < |l| ==> w < tcb[l[k]].wakeupTime
    ensures InsertPos(tcb, l, w) == k
  {
    if k > 0 {
      InsertPosUnique(tcb, l[1..], w, k - 1);
    }
  }

  const NULL := -1

  class Kernel {
    const cfg: Config
    const tcb: array<Tcb>           // thread_pool, then the idle threads
    const used: array<bool>         // thread_used
    var active: int                 // active_threads
    const queues: array<seq<Tid>>   // SCHED
    var timeouts: seq<Tid>          // TIMEOUT_LIST
    var yieldCount: nat             // yield_count
    const cur: array<Tid>           // current_thread of each core
    const prev: array<Tid>          // previous_thread of each core
    ghost var pc: seq<Pc>           // where each core is in its time slice

    ghost function View(): State
      reads this, tcb, used, queues, cur, prev
    {
      State(cfg, tcb[..], used[..], active, queues[..], timeouts, yieldCount, cur[..], prev[..], pc)
    }

    ghost predicate Valid()
      reads this, tcb, used, queues, cur, prev
    {
      cur != prev && Shape(View())
    }

    /** `initialize_scheduler`, and every core entering `run_scheduler`. */
    constructor (cfg: Config)
      requires cfg.Ok()
      ensures Valid() && fresh(tcb) && fresh(used) && fresh(queues) && fresh(cur) && fresh(prev)
      ensures View() == Initial(cfg)
    {
      var n := cfg.threads;
      var idle := FRESH_TCB.(state := RUNNING, phase := CTX_DIRTY);
      this.cfg := cfg;
      this.tcb := new Tcb[n + cfg.cores](t => if t < n then FRESH_TCB else idle);
      this.used := new bool[n](_ => false);
      this.active := 0;
      this.queues := new seq<Tid>[cfg.queues](_ => []);
      this.timeouts := [];
      this.yieldCount := 0;
      this.cur := new Tid[cfg.cores](c requires 0 <= c => n + c);
      this.prev := new Tid[cfg.cores](c requires 0 <= c => n + c);
      this.pc := seq(cfg.cores, _ => Running);
      new;
      assert View().tcb == Initial(cfg).tcb;
      assert View().used == Initial(cfg).used;
      assert View().queues == Initial(cfg).queues;
      assert View().cur == Initial(cfg).cur;
      assert View().prev == Initial(cfg).prev;
    }

    /** The search of `sched_register_timeout` for the first node with a later time. */
    method FindPlace(w: nat) returns (n: nat)
      requires Valid()
      ensures n == InsertPos(tcb[..], timeouts, w) && n <= |timeouts|
    {
      n := 0;
      while n < |timeouts| && !(w < tcb[timeouts[n]].wakeupTime)
        invariant n <= |timeouts|
        invariant forall i :: 0 <= i < n ==> tcb[timeouts[i]].wakeupTime <= w
      {
        n := n + 1;
      }
      InsertPosUnique(tcb[..], timeouts, w, n);
    }

    method SetWakeupTime(t: Tid, w: nat)
      requires Valid() && t < tcb.Length
      modifies tcb
      ensures Valid() && View() == old(View()).(tcb := old(tcb[..])[t := old(tcb[t]).(wakeupTime := w)])
    {
      tcb[t] := tcb[t].(wakeupTime := w);
    }

    method SchedRegisterTimeout(t: Tid, timeout: nat, now: nat)
      requires Valid() && t < tcb.Length
      modifies this`timeouts, tcb
      ensures Valid()
      ensures View() == if timeout == NO_TIMEOUT then old(View())
          else RegisterTimeout(old(View()), t, WakeAt(now, timeout))
    {
      if timeout != NO_TIMEOUT {
        var w := WakeAt(now, timeout);
        SetWakeupTime(t, w);
        var n := FindPlace(w);
        timeouts := timeouts[..n] + [t] + timeouts[n..];
      }
    }

    method SchedQueueAdd(t: Tid)
      requires Valid() && t < tcb.Length
      modifies queues
      ensures Valid() && View() == QueueAdd(old(View()), t)
    {
      var p := tcb[t].priority;
      queues[p] := queues[p] + [t];
      assert View().queues == QueueAdd(old(View()), t).queues;
    }

    /** The three assertions of `sched_make_ready` are proved where it makes them. */
    method SchedMakeReady(t: Tid)
      requires Valid() && t < tcb.Length && MakeReadyAsserts(View(), t)
      modifies this`timeouts, tcb, queues
      ensures Valid() && View() == MakeReady(old(View()), t)
    {
      assert tcb[t].state == STOPPED || tcb[t].state == INIT;
      if tcb[t].wakeupTime != NO_TIMEOUT {
        assert t in timeouts && tcb[t].state == STOPPED;
        timeouts := Remove(timeouts, t);
        tcb[t] := tcb[t].(wakeupTime := NO_TIMEOUT);
      }
      tcb[t] := tcb[t].(state := READY);
      if tcb[t].phase == CTX_CLEAN {
        SchedQueueAdd(t);
      }
      assert View().tcb == MakeReady(old(View()), t).tcb;
    }

    method SchedWakeupExpiredTimeouts(now: nat)
      requires Valid() && Inv(View())
      modifies this`timeouts, tcb, queues
      ensures Valid() && View() == Tick(old(View()), now)
    {
      while timeouts != []
        invariant Valid() && Inv(View()) && Tick(View(), now) == Tick(old(View()), now)
        decreases |timeouts|
      {
        var t := timeouts[0];
        if tcb[t].wakeupTime > now {
          break;
        }
        ghost var s := View();
        HeadReady(s);
        MakeReadyInv(s, t);
        SchedMakeReady(t);
      }
    }

    /** The head of the highest non-empty queue; a null choice falls to the current thread if
        that can go on, and otherwise to the idle thread. */
    method SchedQueueSelect(c: nat) returns (next: int)
      requires Valid() && c < cfg.cores
      modifies queues
      ensures next != NULL && next == Select(old(View()), c).cur[c]
      ensures View() == old(View()).(queues := Select(old(View()), c).queues)
    {
      ghost var s := View();
      var highest := 0;
      for i := 0 to cfg.queues
        invariant highest == 0 && forall j :: 0 <= j < i ==> queues[j] == []
      {
        if queues[i] != [] {
          highest := i;
          break;
        }
      }
      assert queues[highest] != [] ==> FirstNonEmpty(s.queues) == highest;
      next := NULL;
      if queues[highest] != [] {
        next := queues[highest][0];
        queues[highest] := queues[highest][1..];
      }
      if next == NULL {
        next := if tcb[cur[c]].state == READY then cur[c] else cfg.threads + c;
      }
      assert View().queues == Select(s, c).queues;
    }

    method Wakeup(t: Tid) returns (woken: bool)
      requires Valid() && Inv(View()) && t < cfg.threads && used[t]
      modifies this`timeouts, tcb, queues
      ensures Valid() && Inv(View()) && View() == SchedModel.Wakeup(old(View()), t)
      ensures woken <==> old(tcb[t].state) in {STOPPED, INIT}
    {
      ghost var s := View();
      WakeupInv(s, t);
      woken := false;
      if tcb[t].state == STOPPED || tcb[t].state == INIT {
        assert s.tcb[t].wakeupTime != NO_TIMEOUT ==> Timed(s, t);
        SchedMakeReady(t);
        woken := true;
      }
    }

    /** `sleep_releasing` on core `c`, up to its call of `yield`. */
    method SleepMark(c: nat, state: ThreadState, timeout: nat, now: nat)
      requires Valid() && Inv(View()) && c < cfg.cores && MaySleep(View(), c, state, timeout, now)
      modifies this`timeouts, this`pc, tcb
      ensures Valid() && Inv(View()) && View() == Sleep(old(View()), c, state, timeout, now)
    {
      SleepInv(View(), c, state, timeout, now);
      var t := cur[c];
      tcb[t] := tcb[t].(state := state);
      pc := pc[c := Leaving];
      assert View().tcb == Mark(old(View()), c, state).tcb;
      if state != EXITED {
        SchedRegisterTimeout(t, timeout, now);
      }
    }

    method ReleaseTcb(t: Tid)
      requires Valid() && t < cfg.threads
      modifies this`active, used
      ensures Valid() && View() == Release(old(View()), t)
    {
      used[t] := false;
      active := active - 1;
    }

    /** What `gain` does with the previous thread; the default case of its switch asserts,
        and is proved unreachable. */
    method SettlePrevious(p: Tid)
      requires Valid() && p < tcb.Length && tcb[p].state in {READY, EXITED, STOPPED}
      requires tcb[p].state == EXITED ==> p < cfg.threads
      modifies this`active, tcb, used, queues
      ensures Valid() && View() == Depart(old(View()), p)
    {
      tcb[p] := tcb[p].(phase := CTX_CLEAN);
      match tcb[p].state {
        case READY =>
          if p < cfg.threads {
            SchedQueueAdd(p);
          }
        case EXITED =>
          ReleaseTcb(p);
        case STOPPED =>
        case _ =>
          assert false;
      }
    }

    method Gain(c: nat)
      requires Valid() && Inv(View()) && c < cfg.cores && pc[c] == Switching
      modifies this`active, this`pc, tcb, used, queues
      ensures Valid() && Inv(View()) && View() == SchedModel.Gain(old(View()), c)
    {
      GainInv(View(), c);
      GainPrevious(View(), c);
      assert CoreOk(View(), c);
      var t, p := cur[c], prev[c];
      tcb[t] := tcb[t].(state := RUNNING, phase := CTX_DIRTY);
      pc := pc[c := Running];
      assert View() == Arrive(old(View()), c);
      if t != p {
        SettlePrevious(p);
      }
    }

    method SpawnThread() returns (slot: int)
      requires Valid()
      modifies this`active, tcb, used
      ensures Valid() && View() == Spawn(old(View()))
      ensures slot == -1 <==> forall t :: 0 <= t < cfg.threads ==> old(used[t])
      ensures slot >= 0 ==> slot < cfg.threads && !old(used[slot]) && tcb[slot] == FRESH_TCB
    {
      ghost var s := View();
      slot := -1;
      for i := 0 to cfg.threads
        invariant slot == -1 && used[..] == s.used && forall j :: 0 <= j < i ==> used[j]
      {
        if !used[i] {
          slot := i;
          used[i] := true;
          break;
        }
      }
      if slot == -1 {
        return;
      }
      assert FirstUnused(s.used) == slot;
      tcb[slot] := FRESH_TCB;
      active := active + 1;
      assert View().tcb == Spawn(s).tcb;
    }

    // -------------------------------------------------------------- boost

    /** The inner loop of `sched_boost_priority`, for one queue. */
    method LiftQueue(i: nat)
      requires 1 <= i < queues.Length && Distinct(queues[i])
      requires forall j :: 0 <= j < |queues[i]| ==> queues[i][j] < tcb.Length
      modifies queues, tcb
      ensures queues[..] == Lifted(old(queues[..]), i)
      ensures tcb[..] == Lowered(old(tcb[..]), old(queues[i]))
    {
      ghost var l, b, k := queues[i], queues[i - 1], 0;
      while queues[i] != []
        invariant k <= |l| && queues[i] == l[k..] && queues[i - 1] == b + l[..k]
        invariant forall j :: 0 <= j < queues.Length && j != i && j != i - 1 ==> queues[j] == old(queues[j])
        invariant tcb[..] == Lowered(old(tcb[..]), l[..k])
        decreases |queues[i]|
      {
        var tmp := queues[i][0];
        assert tmp == l[k] && tmp !in l[..k] && l[..k + 1] == l[..k] + [tmp];
        queues[i] := queues[i][1..];
        queues[i - 1] := queues[i - 1] + [tmp];
        tcb[tmp] := tcb[tmp].(priority := tcb[tmp].priority - 1);
        k := k + 1;
        assert tcb[..] == Lowered(old(tcb[..]), l[..k]);
      }
      assert l[..k] == l;
    }

    /** One turn of the outer loop; `s` is the state at the start. */
    method LiftNext(i: nat, ghost s: State)
      requires Shape(s) && QueuesExact(s) && 1 <= i < queues.Length == |s.queues| && tcb.Length == |s.tcb|
      requires queues[..] == LiftedBelow(s.queues, i) && tcb[..] == LoweredBelow(s.tcb, s.queues, i)
      modifies tcb, queues
      ensures queues[..] == LiftedBelow(s.queues, i + 1) && tcb[..] == LoweredBelow(s.tcb, s.queues, i + 1)
    {
      LiftedBelowAt(s.queues, i);
      assert queues[i] == queues[..][i] == s.queues[i];
      LiftQueue(i);
      LoweredStep(s, i);
    }

    method SchedBoostPriority()
      requires Valid() && QueuesExact(View())
      modifies tcb, queues
      ensures Valid() && View() == Boost(old(View()))
    {
      ghost var s := View();
      BoostShape(s);
      NothingLifted(s);
      for i := 1 to cfg.queues
        invariant queues[..] == LiftedBelow(s.queues, i) && tcb[..] == LoweredBelow(s.tcb, s.queues, i)
      {
        LiftNext(i, s);
      }
      BoostDone(s);
    }

    // -------------------------------------------------------------- yield

    method CountBoost()
      requires Valid() && QueuesExact(View())
      modifies this`yieldCount, tcb, queues
      ensures Valid() && View() == CountYield(old(View()))
    {
      if yieldCount + 1 == cfg.yieldRuns {
        SchedBoostPriority();
        yieldCount := 0;
      } else {
        yieldCount := yieldCount + 1;
      }
    }

    /** The scheduling data of the thread that leaves core `c`. */
    method UpdateCurrent(c: nat, cause: Cause)
      requires Valid() && c < cfg.cores
      modifies this`pc, tcb
      ensures Valid() && View() == Demote(old(View()), c, cause)
    {
      var t := cur[c];
      if tcb[t].state == RUNNING {
        tcb[t] := tcb[t].(state := READY);
      }
      tcb[t] := tcb[t].(lastCause := tcb[t].currCause, currCause := cause);
      match cause {
        case SCHED_IO =>
          if tcb[t].priority > 0 {
            tcb[t] := tcb[t].(priority := tcb[t].priority - 1);
          }
        case SCHED_QUANTUM =>
          if tcb[t].priority < cfg.queues - 1 {
            tcb[t] := tcb[t].(priority := tcb[t].priority + 1);
          }
        case SCHED_MUTEX =>
          if tcb[t].currCause == tcb[t].lastCause && tcb[t].priority < cfg.queues - 1 {
            tcb[t] := tcb[t].(priority := tcb[t].priority + 1);
          }
        case _ =>
      }
      pc := pc[c := Leaving];
      assert View().tcb == Demote(old(View()), c, cause).tcb;
    }

    /** The choice of the next thread, which becomes current on core `c`. */
    method SwitchTo(c: nat)
      requires Valid() && c < cfg.cores
      modifies this`pc, queues, cur, prev
      ensures Valid() && View() == Select(old(View()), c)
    {
      var current := cur[c];
      var next := SchedQueueSelect(c);
      assert next != NULL;
      prev[c] := current;
      cur[c] := next;
      pc := pc[c := Switching];
      assert View().cur == Select(old(View()), c).cur;
      assert View().prev == Select(old(View()), c).prev;
    }

    /** `yield` on core `c`, up to the context switch. */
    method Yield(c: nat, cause: Cause, now: nat)
      requires Valid() && Inv(View()) && c < cfg.cores && pc[c] != Switching
      modifies this`timeouts, this`yieldCount, this`pc, tcb, queues, cur, prev
      ensures Valid() && View() == SchedRuns.Yield(old(View()), c, cause, now)
    {
      ghost var s := View();
      CountBoost();
      UpdateCurrent(c, cause);
      assert View() == Leave(s, c, cause);
      SchedWakeupExpiredTimeouts(now);
      SwitchTo(c);
    }
  }

  /** Queue `i` appended to the one before it. */
  function Lifted(qs: seq<seq<Tid>>, i: nat): seq<seq<Tid>>
    requires 1 <= i < |qs|
  {
    qs[i - 1 := qs[i - 1] + qs[i]][i := []]
  }

  /** All queues from 1 up to `n` lifted, lowest first. */
  function LiftedBelow(qs: seq<seq<Tid>>, n: nat): (r: seq<seq<Tid>>)
    requires n <= |qs|
    ensures |r| == |qs|
  {
    if n <= 1 then qs else Lifted(LiftedBelow(qs, n - 1), n - 1)
  }

  lemma {:induction false} LiftedBelowAt(qs: seq<seq<Tid>>, n: nat)
    requires 1 <= n <= |qs|
    ensures forall j :: n <= j < |qs| ==> LiftedBelow(qs, n)[j] == qs[j]
    ensures n > 1 ==> LiftedBelow(qs, n)[n - 1] == [] && LiftedBelow(qs, n)[0] == qs[0] + qs[1]
    ensures forall j :: 1 <= j < n - 1 ==> LiftedBelow(qs, n)[j] == qs[j + 1]
  {
    if n > 1 {
      LiftedBelowAt(qs, n - 1);
    }
  }

  function Lowered(tcb: seq<Tcb>, l: seq<Tid>): seq<Tcb> {
    seq(|tcb|, t requires 0 <= t < |tcb| => if t in l then tcb[t].(priority := tcb[t].priority - 1) else tcb[t])
  }

  function LoweredBelow(tcb: seq<Tcb>, qs: seq<seq<Tid>>, n: nat): seq<Tcb>
    requires n <= |qs|
  {
    seq(|tcb|, t requires 0 <= t < |tcb| =>
      if exists q :: 1 <= q < n && t in qs[q] then tcb[t].(priority := tcb[t].priority - 1) else tcb[t])
  }

  lemma LoweredStep(s: State, i: nat)
    requires Shape(s) && QueuesExact(s) && 1 <= i < |s.queues|
    ensures Lowered(LoweredBelow(s.tcb, s.queues, i), s.queues[i]) == LoweredBelow(s.tcb, s.queues, i + 1)
  {
    forall t | t in s.queues[i] ensures forall q :: 0 <= q < |s.queues| && t in s.queues[q] ==> q == i {
      QueuedAt(s, i, t);
    }
    LoweredMore(s.tcb, s.queues, i);
  }

  lemma LoweredMore(tcb: seq<Tcb>, qs: seq<seq<Tid>>, i: nat)
    requires 1 <= i < |qs|
    requires forall t :: t in qs[i] ==> forall q :: 0 <= q < |qs| && t in qs[q] ==> q == i
    ensures Lowered(LoweredBelow(tcb, qs, i), qs[i]) == LoweredBelow(tcb, qs, i + 1)
  {
    var a, b := LoweredBelow(tcb, qs, i), LoweredBelow(tcb, qs, i + 1);
    forall t | 0 <= t < |tcb| ensures Lowered(a, qs[i])[t] == b[t] {
      if t in qs[i] {
        assert forall q :: 1 <= q < i ==> t !in qs[q];
      }
    }
  }

  lemma NothingLifted(s: State)
    requires Shape(s)
    ensures LiftedBelow(s.queues, 1) == s.queues && LoweredBelow(s.tcb, s.queues, 1) == s.tcb
  {
  }

  /** The loops together are a boost. */
  lemma BoostDone(s: State)
    requires Shape(s)
    ensures LiftedBelow(s.queues, |s.queues|) == Boost(s).queues
    ensures LoweredBelow(s.tcb, s.queues, |s.queues|) == Boost(s).tcb
  {
    LiftedBelowAt(s.queues, |s.queues|);
  }
}
