/** What one step of the scheduler does, and what it leaves alone: the feedback of `yield` on
    priorities, the choice of the next thread, and the other steps. */
module SchedEffects {
  import opened Sequences
  import opened SchedModel
  import opened SchedInvariant
  import opened SchedRuns
  import opened SchedLaws

  /** At boot every slot is free, nothing is queued, no yield was counted, and each core runs its
      own idle thread. */
  lemma BootLaw(cfg: Config)
    requires cfg.Ok()
    ensures var s := Boot(cfg);
      && (forall t :: 0 <= t < cfg.threads ==> !s.used[t]) && s.active == 0 && s.yieldCount == 0
      && (forall q :: 0 <= q < cfg.queues ==> s.queues[q] == []) && s.timeouts == []
      && (forall c :: 0 <= c < cfg.cores ==>
            s.pc[c] == Running && s.cur[c] == cfg.threads + c && s.tcb[s.cur[c]].state == RUNNING
            && s.tcb[s.cur[c]].phase == CTX_DIRTY && s.tcb[s.cur[c]].priority == 0)
  {
    IdleExitAt(Boot(cfg));
  }

  // ---------------------------------------------------------------- yield

  /** The thread that leaves a core is in no queue, so a boost passes it by. */
  lemma LeavingIsUnqueued(s: State, c: nat)
    requires Inv(s) && c < s.cfg.cores && s.pc[c] != Switching
    ensures forall q :: 0 <= q < s.cfg.queues ==> s.cur[c] !in s.queues[q]
    ensures !InLowerQueue(s.queues, s.cur[c])
  {
    assert CoreOk(s, c);
    forall q, i | 0 <= q < s.cfg.queues && 0 <= i < |s.queues[q]| ensures s.queues[q][i] != s.cur[c] {
      assert Runnable(s, s.queues[q][i]);
    }
  }

  /** Apart from a boost, counting changes no thread; */
  lemma CountYieldThreads(s: State, c: nat)
    requires Inv(s) && c < s.cfg.cores && s.pc[c] != Switching
    ensures var r := CountYield(s);
      && r.(tcb := s.tcb, queues := s.queues, yieldCount := s.yieldCount) == s && |r.tcb| == |s.tcb|
      && r.tcb[s.cur[c]] == s.tcb[s.cur[c]]
      && (forall u :: 0 <= u < |s.tcb| ==> r.tcb[u] == s.tcb[u].(priority := s.tcb[u].priority -
            if s.yieldCount + 1 == s.cfg.yieldRuns && InLowerQueue(s.queues, u) then 1 else 0))
  {
    LeavingIsUnqueued(s, c);
  }

  /** the rest of `yield` changes the data of the leaving thread, and wakes due sleepers. */
  lemma YieldThreads(s: State, c: nat, cause: Cause, now: nat)
    requires Inv(s) && c < s.cfg.cores && s.pc[c] != Switching
    ensures var l, r := Leave(s, c, cause), Yield(s, c, cause, now);
            |r.tcb| == |s.tcb| && WakesDue(l, r, now)
  {
    ExpiryLaw(Leave(s, c, cause), now);
  }

  /** The feedback on the leaving thread's priority, whether or not this yield boosts: a used-up
      quantum, or the second yield running for a mutex, lowers it by one level if there is a
      lower one, input or output raises it by one if there is a higher one, and any other cause
      leaves it.  The cause is recorded, and the one before it. */
  lemma YieldFeedback(s: State, c: nat, cause: Cause, now: nat)
    requires Inv(s) && c < s.cfg.cores && s.pc[c] != Switching
    ensures var was, b := s.tcb[s.cur[c]], Yield(s, c, cause, now).tcb[s.cur[c]];
      && b.currCause == cause && b.lastCause == was.currCause
      && (cause == SCHED_QUANTUM ==>
            b.priority == if was.priority == s.cfg.queues - 1 then s.cfg.queues - 1 else was.priority + 1)
      && (cause == SCHED_IO ==> b.priority == if was.priority == 0 then 0 else was.priority - 1)
      && (cause == SCHED_MUTEX && was.currCause == SCHED_MUTEX ==>
            b.priority == if was.priority == s.cfg.queues - 1 then s.cfg.queues - 1 else was.priority + 1)
      && (cause == SCHED_MUTEX && was.currCause != SCHED_MUTEX ==> b.priority == was.priority)
      && (cause in {SCHED_PIPE, SCHED_POLL, SCHED_IDLE, SCHED_USER} ==> b.priority == was.priority)
  {
    CountYieldThreads(s, c);
    YieldThreads(s, c, cause, now);
  }

  /** No other thread's priority or causes change, except that every yieldRuns-th yield lifts the
      queued ones that are not in the first queue by one level. */
  lemma YieldOthers(s: State, c: nat, cause: Cause, now: nat, u: Tid)
    requires Inv(s) && c < s.cfg.cores && s.pc[c] != Switching && u < |s.tcb| && u != s.cur[c]
    ensures var was, b := s.tcb[u], Yield(s, c, cause, now).tcb[u];
      && b.currCause == was.currCause && b.lastCause == was.lastCause
      && (s.yieldCount + 1 != s.cfg.yieldRuns ==> b.priority == was.priority)
      && (s.yieldCount + 1 == s.cfg.yieldRuns ==>
            b.priority == was.priority -
              if exists q :: 1 <= q < s.cfg.queues && u in s.queues[q] then 1 else 0)
  {
    CountYieldThreads(s, c);
    YieldThreads(s, c, cause, now);
  }

  /** A yield makes the leaving thread READY if it was running, and the sleepers whose time has
      come; it changes no other state, and no phase. */
  lemma YieldStates(s: State, c: nat, cause: Cause, now: nat, u: Tid)
    requires Inv(s) && c < s.cfg.cores && s.pc[c] != Switching && u < |s.tcb|
    ensures var was, b := s.tcb[u], Yield(s, c, cause, now).tcb[u];
      && b.phase == was.phase
      && if Timed(s, u) && was.wakeupTime <= now then b.state == READY && b.wakeupTime == NO_TIMEOUT
         else
           && b.wakeupTime == was.wakeupTime
           && b.state == if u == s.cur[c] && was.state == RUNNING then READY else was.state
  {
    CountYieldThreads(s, c);
    YieldThreads(s, c, cause, now);
    assert Timed(Leave(s, c, cause), u) <==> Timed(s, u);
  }

  /** The yields since the last boost are counted, and no slot is taken or freed. */
  lemma YieldCounts(s: State, c: nat, cause: Cause, now: nat)
    requires Inv(s) && c < s.cfg.cores && s.pc[c] != Switching
    ensures var r := Yield(s, c, cause, now);
      && r.yieldCount == (if s.yieldCount + 1 == s.cfg.yieldRuns then 0 else s.yieldCount + 1)
      && r.used == s.used && r.active == s.active
  {
    ExpireFrame(Leave(s, c, cause), now);
  }

  // ---------------------------------------------------------------- the choice of a thread

  /** The head of the highest-priority queue that is not empty is taken off it and becomes
      current; nothing else changes in the queues, and nothing at all for the threads and the
      other cores. */
  lemma SelectsHead(s: State, c: nat, q: nat)
    requires Shape(s) && c < s.cfg.cores && q < |s.queues| && s.queues[q] != []
    requires forall k :: 0 <= k < q ==> s.queues[k] == []
    ensures var r := Select(s, c);
      && r.cur == s.cur[c := s.queues[q][0]] && r.prev == s.prev[c := s.cur[c]] && r.pc == s.pc[c := Switching]
      && [r.cur[c]] + r.queues[q] == s.queues[q]
      && (forall k :: 0 <= k < |s.queues| && k != q ==> r.queues[k] == s.queues[k])
      && r.(queues := s.queues, cur := s.cur, prev := s.prev, pc := s.pc) == s
  {
    assert FirstNonEmpty(s.queues) == q;
  }

  /** With all queues empty a READY current thread goes on, and otherwise the core's own idle
      thread runs; the queues stay empty. */
  lemma SelectsCurrentOrIdle(s: State, c: nat)
    requires Shape(s) && c < s.cfg.cores && forall q :: 0 <= q < |s.queues| ==> s.queues[q] == []
    ensures var r, t := Select(s, c), s.cur[c];
      && (s.tcb[t].state == READY ==> r.cur == s.cur)
      && (s.tcb[t].state != READY ==> r.cur == s.cur[c := s.cfg.threads + c])
      && r.prev == s.prev[c := t] && r.pc == s.pc[c := Switching]
      && r.(cur := s.cur, prev := s.prev, pc := s.pc) == s
  {
    assert FirstNonEmpty(s.queues) == |s.queues|;
  }

  /** From `m` to `r` core `c` got the first thread of the first queue that has one, or else its
      current thread if that is READY, or else its own idle thread. */
  ghost predicate Chosen(m: State, r: State, c: nat)
    requires Shape(m) && Shape(r) && r.cfg == m.cfg && c < m.cfg.cores
  {
    && (forall q :: 0 <= q < m.cfg.queues && m.queues[q] != [] && (forall k :: 0 <= k < q ==> m.queues[k] == []) ==>
          [r.cur[c]] + r.queues[q] == m.queues[q] && r.queues == m.queues[q := r.queues[q]])
    && ((forall q :: 0 <= q < m.cfg.queues ==> m.queues[q] == []) ==>
          && r.queues == m.queues
          && r.cur[c] == if m.tcb[m.cur[c]].state == READY then m.cur[c] else m.cfg.threads + c)
  }

  lemma SelectChooses(m: State, c: nat)
    requires Shape(m) && c < m.cfg.cores
    ensures Chosen(m, Select(m, c), c)
  {
    forall q | 0 <= q < m.cfg.queues && m.queues[q] != [] && (forall k :: 0 <= k < q ==> m.queues[k] == [])
      ensures var r := Select(m, c); [r.cur[c]] + r.queues[q] == m.queues[q] && r.queues == m.queues[q := r.queues[q]]
    {
      SelectsHead(m, c, q);
    }
    if forall q :: 0 <= q < m.cfg.queues ==> m.queues[q] == [] {
      SelectsCurrentOrIdle(m, c);
    }
  }

  /** What `yield` does to the lists before it chooses: the boost, if one is due, and then the
      expiry pass. */
  lemma YieldLists(s: State, c: nat, cause: Cause, now: nat)
    requires Inv(s) && c < s.cfg.cores && s.pc[c] != Switching
    ensures var l := Leave(s, c, cause);
      var m := Tick(l, now);
      && l.timeouts == s.timeouts
      && l.queues == (if s.yieldCount + 1 == s.cfg.yieldRuns then BoostedQueues(s.queues) else s.queues)
      && TakesDue(l.timeouts, l.tcb, l.queues, m.timeouts, m.queues, now)
      && m.cur == s.cur && m.prev == s.prev
  {
    ExpiryLaw(Leave(s, c, cause), now);
    ExpireFrame(Leave(s, c, cause), now);
  }

  /** It chooses among the queues as these leave them, and changes nothing on other cores. */
  lemma YieldChooses(s: State, c: nat, cause: Cause, now: nat)
    requires Inv(s) && c < s.cfg.cores && s.pc[c] != Switching
    ensures var m, r := Tick(Leave(s, c, cause), now), Yield(s, c, cause, now);
      && Chosen(m, r, c) && r.timeouts == m.timeouts
      && r.prev == s.prev[c := s.cur[c]] && r.cur == s.cur[c := r.cur[c]]
  {
    YieldLists(s, c, cause, now);
    SelectChooses(Tick(Leave(s, c, cause), now), c);
  }

  // ---------------------------------------------------------------- the other steps

  /** A wake-up of a thread that is not asleep changes nothing; otherwise the thread is READY,
      in no list of sleepers, and last in the queue of its priority iff it has left its core. */
  lemma WakeupLaw(s: State, t: Tid)
    requires Inv(s) && t < s.cfg.threads && s.used[t]
    ensures var r := Wakeup(s, t);
      if s.tcb[t].state !in {STOPPED, INIT} then r == s
      else
        && r.tcb == s.tcb[t := s.tcb[t].(state := READY, wakeupTime := NO_TIMEOUT)]
        && t !in r.timeouts && (forall u :: u != t ==> (u in r.timeouts <==> u in s.timeouts))
        && (forall q :: 0 <= q < s.cfg.queues ==>
              r.queues[q] == if q == s.tcb[t].priority && s.tcb[t].phase == CTX_CLEAN then s.queues[q] + [t]
                             else s.queues[q])
        && r.(tcb := s.tcb, timeouts := s.timeouts, queues := s.queues) == s
  {
    if s.tcb[t].state in {STOPPED, INIT} {
      assert t in s.timeouts <==> Timed(s, t);
      RemoveDistinct(s.timeouts, t);
    }
  }

  /** A thread that goes to sleep is marked, and nothing else in any thread changes but its wake-up
      time; */
  lemma SleepMarks(s: State, c: nat, state: ThreadState, timeout: nat, now: nat)
    requires Inv(s) && c < s.cfg.cores && MaySleep(s, c, state, timeout, now)
    ensures var r, t := Sleep(s, c, state, timeout, now), s.cur[c];
      && |r.tcb| == |s.tcb| && r.tcb == s.tcb[t := s.tcb[t].(state := state, wakeupTime := r.tcb[t].wakeupTime)]
      && r.(tcb := s.tcb, timeouts := s.timeouts, pc := s.pc) == s && r.pc == s.pc[c := Leaving]
  {
  }

  /** it is listed as a sleeper, with a wake-up time, iff it stops with a time-out, and no other
      thread is listed or taken off the list; `RegisterIsStable` says where it goes. */
  lemma SleepLaw(s: State, c: nat, state: ThreadState, timeout: nat, now: nat)
    requires Inv(s) && c < s.cfg.cores && MaySleep(s, c, state, timeout, now)
    ensures var r, t := Sleep(s, c, state, timeout, now), s.cur[c];
      && (if state == STOPPED && timeout != NO_TIMEOUT
          then r.tcb[t].wakeupTime == (now + timeout) % CLOCK_RANGE && t in r.timeouts
          else r.tcb[t].wakeupTime == NO_TIMEOUT && t !in r.timeouts)
      && (forall u :: u != t ==> (u in r.timeouts <==> u in s.timeouts))
  {
    var t := s.cur[c];
    RunningIsUntimed(s, c);
    if state == STOPPED && timeout != NO_TIMEOUT {
      var k := InsertPos(Sleep(s, c, state, timeout, now).tcb, s.timeouts, WakeAt(now, timeout));
      InsertMembers(s.timeouts, k, t);
    }
  }

  lemma RunningIsUntimed(s: State, c: nat)
    requires Inv(s) && c < s.cfg.cores && s.pc[c] == Running
    ensures s.cur[c] !in s.timeouts && s.tcb[s.cur[c]].wakeupTime == NO_TIMEOUT
  {
    assert CoreOk(s, c);
    assert s.cur[c] in s.timeouts <==> Timed(s, s.cur[c]);
  }

  /** `gain` starts the time slice of the thread that was chosen; the one that left, if another,
      has left its core. */
  lemma GainThreads(s: State, c: nat)
    requires Inv(s) && c < s.cfg.cores && s.pc[c] == Switching
    ensures var r, n, p := Gain(s, c), s.cur[c], s.prev[c];
      && |r.tcb| == |s.tcb| && r.tcb[n] == s.tcb[n].(state := RUNNING, phase := CTX_DIRTY)
      && (p != n ==> r.tcb[p] == s.tcb[p].(phase := CTX_CLEAN))
      && (forall u :: 0 <= u < |s.tcb| && u != n && u != p ==> r.tcb[u] == s.tcb[u])
      && r.pc == s.pc[c := Running]
      && r.(tcb := s.tcb, queues := s.queues, used := s.used, active := s.active, pc := s.pc) == s
  {
    GainPrevious(s, c);
  }

  /** The thread that left goes to the end of the queue of its priority iff it is READY and not
      idle, and its slot is free again iff it has exited; a sleeping one is left alone. */
  lemma GainLists(s: State, c: nat)
    requires Inv(s) && c < s.cfg.cores && s.pc[c] == Switching
    ensures var r, p := Gain(s, c), s.prev[c]; var left := p != s.cur[c] && p < s.cfg.threads;
      && (forall q :: 0 <= q < s.cfg.queues ==>
            r.queues[q] == s.queues[q] + if left && s.tcb[p].state == READY && s.tcb[p].priority == q then [p] else [])
      && r.used == (if left && s.tcb[p].state == EXITED then s.used[p := false] else s.used)
      && r.active == (if left && s.tcb[p].state == EXITED then s.active - 1 else s.active)
  {
    assert CoreOk(s, c);
    assert forall q :: 0 <= q < s.cfg.queues ==> s.queues[q] + [] == s.queues[q];
  }

  /** A spawn takes the first unused slot for a thread that waits to be woken, or changes
      nothing if there is none. */
  lemma SpawnLaw(s: State)
    requires Inv(s)
    ensures var r := Spawn(s);
      && ((forall t :: 0 <= t < s.cfg.threads ==> s.used[t]) ==> r == s)
      && (forall t :: 0 <= t < s.cfg.threads && !s.used[t] && (forall u :: 0 <= u < t ==> s.used[u]) ==>
            && r.used == s.used[t := true] && r.active == s.active + 1
            && r.tcb == s.tcb[t := Tcb(INIT, CTX_CLEAN, 0, NO_TIMEOUT, SCHED_IDLE, SCHED_IDLE)]
            && r.(used := s.used, active := s.active, tcb := s.tcb) == s)
  {
    forall t | 0 <= t < s.cfg.threads && !s.used[t] && (forall u :: 0 <= u < t ==> s.used[u])
      ensures FirstUnused(s.used) == t
    {
    }
  }
}
