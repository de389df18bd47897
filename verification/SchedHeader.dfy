/** The invariant as the scheduler's header has it: when it holds, and reachable states in
    which it does not. */
module SchedHeader {
  import opened SchedModel
  import opened SchedInvariant
  import opened SchedRuns
  import opened SchedWaiting

  ghost predicate Queued(s: State, t: Tid) {
    exists q :: 0 <= q < |s.queues| && t in s.queues[q]
  }

  /** A thread is in a run queue exactly when it is READY and CLEAN. */
  ghost predicate HeaderHolds(s: State, t: Tid)
    requires Shape(s) && t < |s.tcb|
  {
    Queued(s, t) <==> s.tcb[t].state == READY && s.tcb[t].phase == CTX_CLEAN
  }

  lemma QueuedIsRunnable(s: State, t: Tid)
    requires Shape(s) && QueuesExact(s) && Queued(s, t)
    ensures t < s.cfg.threads && s.used[t] && Runnable(s, t)
  {
    var q :| 0 <= q < |s.queues| && t in s.queues[q];
    var i :| 0 <= i < |s.queues[q]| && s.queues[q][i] == t;
  }

  /** It holds of a normal thread exactly when no core is in the middle of a hand-over to it,
      and of an idle thread exactly when that is not READY and CLEAN. */
  lemma HeaderHoldsIff(s: State, t: Tid)
    requires Inv(s) && t < |s.tcb| && Live(s, t)
    ensures HeaderHolds(s, t) <==>
      if IsIdle(s, t) then !(s.tcb[t].state == READY && s.tcb[t].phase == CTX_CLEAN) else !Handed(s, t)
  {
    if Queued(s, t) {
      QueuedIsRunnable(s, t);
    }
    if Handed(s, t) {
      var c :| 0 <= c < |s.cur| && s.cur[c] == t && t != Owner(s, c);
      assert CoreOk(s, c);
    }
    if !IsIdle(s, t) && Runnable(s, t) {
      RunnableIsQueued(s, t);
    }
  }

  lemma RunnableIsQueued(s: State, t: Tid)
    requires Shape(s) && QueuesExact(s) && t < s.cfg.threads && s.used[t] && Runnable(s, t)
    ensures Queued(s, t)
  {
    assert t in s.queues[s.tcb[t].priority];
  }

  /** Whenever a core selects a queued thread, that thread is READY and CLEAN and in no queue
      until the core has switched to it. */
  lemma SelectBreaksHeader(s: State, c: nat)
    requires Inv(s) && c < s.cfg.cores && s.pc[c] == Leaving && FirstNonEmpty(s.queues) < |s.queues|
    ensures var r := Dispatch(s, c); var t := r.cur[c];
      t < s.cfg.threads && r.used[t] && Handed(r, t) && !HeaderHolds(r, t)
  {
    var r, q := Dispatch(s, c), FirstNonEmpty(s.queues);
    var t := s.queues[q][0];
    assert t in s.queues[q] && r.cur[c] == t;
    QueuedIsRunnable(s, t);
    assert CoreOk(s, c);
    assert Owner(r, c) == s.cur[c] && t != s.cur[c];
    HeaderHoldsIff(r, t);
  }

  lemma WaitsIsQueued(s: State, t: Tid)
    requires Shape(s) && Waits(s, t)
    ensures FirstNonEmpty(s.queues) < |s.queues|
  {
  }

  /** Any yield while a thread is queued leads to such a state. */
  lemma YieldBreaksHeader(s: State, c: nat, cause: Cause, now: nat, u: Tid)
    requires Inv(s) && c < s.cfg.cores && s.pc[c] != Switching && Waits(s, u)
    ensures var r := Yield(s, c, cause, now);
      r.cur[c] < s.cfg.threads && r.used[r.cur[c]] && !HeaderHolds(r, r.cur[c])
  {
    var s1 := Leave(s, c, cause);
    LeaveRank(s, c, cause, u);
    TickRank(s1, now, u);
    WaitsIsQueued(Tick(s1, now), u);
    SelectBreaksHeader(Tick(s1, now), c);
  }

  // ---------------------------------------------------------------- reachable states

  lemma OneStep(s: State, l: Label, ls: seq<Label>)
    requires Inv(s) && Enabled(s, l) && Runs(Apply(s, l), ls)
    ensures Runs(s, [l] + ls) && After(s, [l] + ls) == After(Apply(s, l), ls)
  {
    assert ([l] + ls)[1..] == ls;
  }

  /** Some thread has been spawned and woken, and waits in queue 0. */
  lemma FirstThreadWaits(cfg: Config)
    requires cfg.Ok() && cfg.threads > 0
    ensures var s := Apply(Boot(cfg), DoSpawn);
      Enabled(s, DoWakeup(0)) && Waits(Apply(s, DoWakeup(0)), 0) && Apply(s, DoWakeup(0)).pc == Boot(cfg).pc
  {
    var s := Apply(Boot(cfg), DoSpawn);
    assert s.used[0] && s.tcb[0] == FRESH_TCB;
    assert Apply(s, DoWakeup(0)).queues[0] == [0];
  }

  /** The header's invariant fails in a reachable state of every kernel with a thread slot. */
  lemma HeaderFails(cfg: Config)
    requires cfg.Ok() && cfg.threads > 0
    ensures var ls := [DoSpawn] + ([DoWakeup(0)] + ([DoYield(0, SCHED_USER, 0)] + []));
      && Runs(Boot(cfg), ls)
      && var s := After(Boot(cfg), ls);
         s.cur[0] < cfg.threads && s.used[s.cur[0]] && !HeaderHolds(s, s.cur[0])
  {
    var s1 := Apply(Boot(cfg), DoSpawn);
    FirstThreadWaits(cfg);
    var s2 := Apply(s1, DoWakeup(0));
    YieldBreaksHeader(s2, 0, SCHED_USER, 0, 0);
    OneStep(s2, DoYield(0, SCHED_USER, 0), []);
    OneStep(s1, DoWakeup(0), [DoYield(0, SCHED_USER, 0)] + []);
    OneStep(Boot(cfg), DoSpawn, [DoWakeup(0)] + ([DoYield(0, SCHED_USER, 0)] + []));
  }

  lemma SwitchedThreadRuns(s: State, c: nat)
    requires Inv(s) && c < s.cfg.cores && s.pc[c] == Switching && s.cur[c] < s.cfg.threads
    ensures var r := Apply(s, DoGain(c)); r.pc[c] == Running && !IsIdle(r, r.cur[c])
  {
  }

  /** Core `c` runs a thread that may call `sleep_releasing`; at a clock reading one short of
      NO_TIMEOUT a sleep of one tick breaks the invariant. */
  ghost predicate SleepBreaks(s: State, c: nat) {
    && Inv(s) && c < s.cfg.cores && s.pc[c] == Running && !IsIdle(s, s.cur[c])
    && !Inv(Sleep(s, c, STOPPED, 1, NO_TIMEOUT - 1))
  }

  lemma SwitchedThreadSleeps(s: State, c: nat)
    requires Inv(s) && c < s.cfg.cores && s.pc[c] == Switching && s.cur[c] < s.cfg.threads
    ensures Runs(s, [DoGain(c)] + []) && SleepBreaks(After(s, [DoGain(c)] + []), c)
  {
    SwitchedThreadRuns(s, c);
    SleepInvIff(Apply(s, DoGain(c)), c, 1, NO_TIMEOUT - 1);
    OneStep(s, DoGain(c), []);
  }

  /** Such a state is reachable in every kernel with a thread slot. */
  lemma SleepFails(cfg: Config)
    requires cfg.Ok() && cfg.threads > 0
    ensures var ls := [DoSpawn] + ([DoWakeup(0)] + ([DoYield(0, SCHED_USER, 0)] + ([DoGain(0)] + [])));
      Runs(Boot(cfg), ls) && SleepBreaks(After(Boot(cfg), ls), 0)
  {
    var s1 := Apply(Boot(cfg), DoSpawn);
    FirstThreadWaits(cfg);
    var s2 := Apply(s1, DoWakeup(0));
    YieldBreaksHeader(s2, 0, SCHED_USER, 0, 0);
    SwitchedThreadSleeps(Apply(s2, DoYield(0, SCHED_USER, 0)), 0);
    OneStep(s2, DoYield(0, SCHED_USER, 0), [DoGain(0)] + []);
    OneStep(s1, DoWakeup(0), [DoYield(0, SCHED_USER, 0)] + ([DoGain(0)] + []));
    OneStep(Boot(cfg), DoSpawn, [DoWakeup(0)] + ([DoYield(0, SCHED_USER, 0)] + ([DoGain(0)] + [])));
  }
}
