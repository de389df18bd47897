/** Runs of the scheduler: every interleaving of its steps on any number of cores. */
module SchedRuns {
  import opened SchedModel
  import opened SchedInvariant

  /** One section under `sched_spinlock`.  `now` is the reading of the clock. */
  datatype Label =
    | DoWakeup(t: Tid)
    | DoSleep(core: nat, state: ThreadState, timeout: nat, now: nat)
    | DoYield(core: nat, cause: Cause, now: nat)
    | DoGain(core: nat)
    | DoSpawn

  /** Waking a sleeper leaves the cores and every other thread as they are. */
  lemma MakeReadyFrame(s: State, t: Tid)
    requires Shape(s) && t < |s.tcb|
    ensures MakeReady(s, t).(tcb := s.tcb, queues := s.queues, timeouts := s.timeouts) == s
    ensures forall u :: 0 <= u < |s.tcb| && u != t ==> MakeReady(s, t).tcb[u] == s.tcb[u]
    ensures forall q :: 0 <= q < |s.queues| ==> s.queues[q] <= MakeReady(s, t).queues[q]
  {
  }

  lemma {:induction false} ExpireFrame(s: State, now: nat)
    requires Inv(s)
    ensures var r := Expire(s, now);
      && r.(tcb := s.tcb, queues := s.queues, timeouts := s.timeouts) == s
      && (forall t :: 0 <= t < |s.tcb| && s.tcb[t].state != STOPPED ==> r.tcb[t] == s.tcb[t])
      && (forall q :: 0 <= q < |s.queues| ==> s.queues[q] <= r.queues[q])
    decreases |s.timeouts|
  {
    if s.timeouts != [] && s.tcb[s.timeouts[0]].wakeupTime <= now {
      var t := s.timeouts[0];
      RemoveDistinct(s.timeouts, t);
      assert Timed(s, t);
      MakeReadyInv(s, t);
      MakeReadyFrame(s, t);
      ExpireFrame(MakeReady(s, t), now);
    }
  }

  /** The first half of `yield`: counting, boosting, and updating the leaving thread. */
  function Leave(s: State, c: nat, cause: Cause): (r: State)
    requires Inv(s) && c < s.cfg.cores && s.pc[c] != Switching
    ensures Inv(r) && r.pc == s.pc[c := Leaving] && r.cfg == s.cfg
  {
    CountYieldInv(s);
    DemoteInv(CountYield(s), c, cause);
    Demote(CountYield(s), c, cause)
  }

  /** The expiry pass of `yield`. */
  function Tick(s: State, now: nat): (r: State)
    requires Inv(s)
    ensures Inv(r) && r.pc == s.pc && r.cfg == s.cfg
  {
    ExpireInv(s, now);
    ExpireFrame(s, now);
    Expire(s, now)
  }

  function Dispatch(s: State, c: nat): (r: State)
    requires Inv(s) && c < s.cfg.cores && s.pc[c] == Leaving
    ensures Inv(r) && r.pc == s.pc[c := Switching] && r.cfg == s.cfg
  {
    SelectInv(s, c);
    Select(s, c)
  }

  /** `yield` up to the context switch. */
  function Yield(s: State, c: nat, cause: Cause, now: nat): (r: State)
    requires Inv(s) && c < s.cfg.cores && s.pc[c] != Switching
    ensures Inv(r) && r.pc == s.pc[c := Switching] && r.cfg == s.cfg
  {
    Dispatch(Tick(Leave(s, c, cause), now), c)
  }

  /** When a step may be taken.  Only used slots may be woken, and a core yields or sleeps
      only while it runs a thread. */
  predicate Enabled(s: State, l: Label)
    requires Shape(s)
  {
    match l
    case DoWakeup(t) => t < s.cfg.threads && s.used[t]
    case DoSleep(c, st, timeout, now) => c < s.cfg.cores && MaySleep(s, c, st, timeout, now)
    case DoYield(c, cause, now) => c < s.cfg.cores && s.pc[c] != Switching
    case DoGain(c) => c < s.cfg.cores && s.pc[c] == Switching
    case DoSpawn => true
  }

  function Apply(s: State, l: Label): (r: State)
    requires Inv(s) && Enabled(s, l)
    ensures Inv(r) && r.cfg == s.cfg
  {
    match l
    case DoWakeup(t) => WakeupInv(s, t); Wakeup(s, t)
    case DoSleep(c, st, timeout, now) => SleepInv(s, c, st, timeout, now); Sleep(s, c, st, timeout, now)
    case DoYield(c, cause, now) => Yield(s, c, cause, now)
    case DoGain(c) => GainInv(s, c); Gain(s, c)
    case DoSpawn => SpawnInv(s); Spawn(s)
  }

  /** `ls` can be taken from `s`, one step after the other. */
  ghost predicate Runs(s: State, ls: seq<Label>)
    requires Inv(s)
    decreases |ls|
  {
    ls == [] || (Enabled(s, ls[0]) && Runs(Apply(s, ls[0]), ls[1..]))
  }

  ghost function After(s: State, ls: seq<Label>): (r: State)
    requires Inv(s) && Runs(s, ls)
    ensures Inv(r) && r.cfg == s.cfg
    decreases |ls|
  {
    if ls == [] then s else After(Apply(s, ls[0]), ls[1..])
  }

  function Boot(cfg: Config): (s: State)
    requires cfg.Ok()
    ensures Inv(s) && s.cfg == cfg
  {
    InitialInv(cfg);
    Initial(cfg)
  }

  // ---------------------------------------------------------------- safety over all runs

  /** From boot, whatever the threads do on whatever number of cores: the refined form of
      the header's invariant, and the exclusion properties that follow from it. */
  lemma RunsAreSafe(cfg: Config, ls: seq<Label>)
    requires cfg.Ok()
    requires Runs(Boot(cfg), ls)
    ensures
      var s := After(Boot(cfg), ls);
      && (forall t, q :: 0 <= t < cfg.threads && s.used[t] && 0 <= q < cfg.queues ==>
            (t in s.queues[q] <==> q == s.tcb[t].priority && Runnable(s, t)))
      && (forall t :: 0 <= t < cfg.threads && s.used[t] ==>
            (t in s.timeouts <==> s.tcb[t].state == STOPPED && s.tcb[t].wakeupTime != NO_TIMEOUT))
      && (forall t, q :: 0 <= q < cfg.queues && t in s.queues[q] ==> t !in s.timeouts)
      && (forall c, d :: 0 <= c < d < cfg.cores ==> s.cur[c] != s.cur[d])
      && s.active == CountUsed(s.used)
  {
    var s := After(Boot(cfg), ls);
    forall t | 0 <= t < cfg.threads && s.used[t]
      ensures t in s.timeouts <==> s.tcb[t].state == STOPPED && s.tcb[t].wakeupTime != NO_TIMEOUT
    {
      assert t in s.timeouts <==> Timed(s, t);
    }
  }
}
