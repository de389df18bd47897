/** What every step of the scheduler keeps. */
module SchedInvariant {
  import opened Sequences
  import opened SchedModel

  /** The thread slot is in use, or it is an idle thread. */
  predicate Live(s: State, t: Tid)
    requires |s.used| == s.cfg.threads
  {
    t < s.cfg.threads ==> s.used[t]
  }

  /** The thread whose context is (still) in the registers of core `c`. */
  function Owner(s: State, c: nat): Tid
    requires c < |s.cur| == |s.prev| == |s.pc|
  {
    if s.pc[c] == Switching then s.prev[c] else s.cur[c]
  }

  /** Selected by `yield` on some core, but `gain` has not run yet. */
  ghost predicate Handed(s: State, t: Tid)
    requires |s.cur| == |s.prev| == |s.pc|
  {
    exists c :: 0 <= c < |s.cur| && s.cur[c] == t && t != Owner(s, c)
  }

  ghost predicate Runnable(s: State, t: Tid)
    requires Shape(s) && t < |s.tcb|
  {
    s.tcb[t].state == READY && s.tcb[t].phase == CTX_CLEAN && !Handed(s, t)
  }

  /** The header's invariant, refined: a normal thread is in exactly one run queue, that of
      its priority, iff it is READY and CLEAN and not in the middle of a hand-over. */
  ghost predicate QueuesExact(s: State)
    requires Shape(s)
  {
    && (forall q :: 0 <= q < |s.queues| ==> Distinct(s.queues[q]))
    && (forall q, i {:trigger s.queues[q][i]} :: 0 <= q < |s.queues| && 0 <= i < |s.queues[q]| ==>
          var t := s.queues[q][i];
          t < s.cfg.threads && s.used[t] && Runnable(s, t) && s.tcb[t].priority == q)
    && (forall t {:trigger s.used[t]} :: 0 <= t < s.cfg.threads && s.used[t] && Runnable(s, t) ==>
          t in s.queues[s.tcb[t].priority])
  }

  ghost predicate SortedBy(l: seq<Tid>, tcb: seq<Tcb>)
    requires forall i :: 0 <= i < |l| ==> l[i] < |tcb|
  {
    forall i, j :: 0 <= i < j < |l| ==> tcb[l[i]].wakeupTime <= tcb[l[j]].wakeupTime
  }

  /** The thread sleeps with a time-out. */
  predicate Timed(s: State, t: Tid)
    requires Shape(s)
  {
    t < |s.tcb| && Live(s, t) && s.tcb[t].wakeupTime != NO_TIMEOUT
  }

  /** A thread is in the timeout list, once, iff it is STOPPED with a wake-up time. */
  ghost predicate TimeoutsExact(s: State)
    requires Shape(s)
  {
    && Distinct(s.timeouts)
    && SortedBy(s.timeouts, s.tcb)
    && TimedListed(s)
  }

  ghost predicate TimedListed(s: State)
    requires Shape(s)
  {
    && (forall t: Tid :: t in s.timeouts <==> Timed(s, t))
    && (forall t: Tid :: Timed(s, t) ==> t < s.cfg.threads && s.tcb[t].state == STOPPED)
  }

  /** The thread may run on core `c`: a used slot, or that core's own idle thread. */
  predicate RunsOn(s: State, t: Tid, c: nat)
    requires |s.used| == s.cfg.threads
  {
    if t < s.cfg.threads then s.used[t] else t == s.cfg.threads + c
  }

  /** The part of the thread states that one core answers for. */
  ghost predicate CoreOk(s: State, c: nat)
    requires Shape(s) && c < s.cfg.cores
  {
    var own, next := s.tcb[Owner(s, c)], s.tcb[s.cur[c]];
    && RunsOn(s, Owner(s, c), c) && RunsOn(s, s.cur[c], c)
    && own.phase == CTX_DIRTY
    && (own.state == RUNNING <==> s.pc[c] == Running)
    && own.state != INIT
    && (IsIdle(s, Owner(s, c)) ==> own.state in {RUNNING, READY})
    && (s.pc[c] == Switching ==>
          next.state == READY && (s.cur[c] != s.prev[c] ==> next.phase == CTX_CLEAN))
  }

  ghost predicate CoresExact(s: State)
    requires Shape(s)
  {
    && (forall c :: 0 <= c < s.cfg.cores ==> CoreOk(s, c))
    && OnePerCore(s)
    && (forall t :: 0 <= t < |s.tcb| && Live(s, t) ==> ThreadOk(s, t))
  }

  /** No thread is current on two cores, or still in the registers of two cores. */
  ghost predicate OnePerCore(s: State)
    requires Shape(s)
  {
    && (forall c, d :: 0 <= c < d < s.cfg.cores ==> Owner(s, c) != Owner(s, d))
    && (forall c, d :: 0 <= c < d < s.cfg.cores ==> s.cur[c] != s.cur[d])
  }

  /** Running, exited or dirty threads are on a core; an idle thread is otherwise READY. */
  ghost predicate ThreadOk(s: State, t: Tid)
    requires Shape(s) && t < |s.tcb|
  {
    && (s.tcb[t].phase == CTX_DIRTY ==> exists c :: 0 <= c < s.cfg.cores && Owner(s, c) == t)
    && (s.tcb[t].state in {RUNNING, EXITED} ==> s.tcb[t].phase == CTX_DIRTY)
    && (s.tcb[t].state == INIT ==> s.tcb[t].phase == CTX_CLEAN)
    && (IsIdle(s, t) && s.tcb[t].phase == CTX_CLEAN ==> s.tcb[t].state == READY)
  }

  ghost predicate Inv(s: State) {
    && Shape(s)
    && QueuesExact(s)
    && TimeoutsExact(s)
    && CoresExact(s)
    && s.active == CountUsed(s.used)
  }

  // ---------------------------------------------------------------- framing

  lemma SameCores(s: State, r: State)
    requires |s.cur| == |s.prev| == |s.pc|
    requires r.cur == s.cur && r.prev == s.prev && r.pc == s.pc
    ensures forall c :: 0 <= c < |s.cur| ==> Owner(r, c) == Owner(s, c)
    ensures forall t :: Handed(r, t) <==> Handed(s, t)
  {
    assert forall c :: 0 <= c < |s.cur| ==> Owner(r, c) == Owner(s, c);
  }

  lemma RemoveSorted(l: seq<Tid>, t: Tid, tcb: seq<Tcb>)
    requires forall i :: 0 <= i < |l| ==> l[i] < |tcb|
    requires SortedBy(l, tcb)
    ensures SortedBy(Remove(l, t), tcb)
  {
    var k, r := IndexOf(l, t), Remove(l, t);
    if k < |l| {
      forall i, j | 0 <= i < j < |r| ensures tcb[r[i]].wakeupTime <= tcb[r[j]].wakeupTime {
        var i', j' := if i < k then i else i + 1, if j < k then j else j + 1;
        assert r[i] == l[i'] && r[j] == l[j'];
      }
    }
  }

  // ---------------------------------------------------------------- wake-up

  lemma MakeReadyListed(s: State, t: Tid)
    requires Shape(s) && TimedListed(s) && t < s.cfg.threads && s.used[t]
    requires forall u :: u in Remove(s.timeouts, t) <==> u in s.timeouts && u != t
    ensures TimedListed(MakeReady(s, t))
  {
    var r := MakeReady(s, t);
    assert forall u: Tid :: Timed(r, u) <==> Timed(s, u) && u != t;
  }

  lemma MakeReadyTimeouts(s: State, t: Tid)
    requires Shape(s) && TimeoutsExact(s) && t < s.cfg.threads && s.used[t] && s.tcb[t].state in {STOPPED, INIT}
    ensures TimeoutsExact(MakeReady(s, t))
  {
    var r := MakeReady(s, t);
    RemoveDistinct(s.timeouts, t);
    MakeReadyListed(s, t);
    RemoveSorted(s.timeouts, t, s.tcb);
    assert t !in r.timeouts by {
      assert Timed(s, t) <==> s.tcb[t].wakeupTime != NO_TIMEOUT;
    }
    assert SortedBy(r.timeouts, r.tcb);
  }

  lemma MakeReadyCores(s: State, t: Tid)
    requires Shape(s) && CoresExact(s) && t < s.cfg.threads && s.used[t] && s.tcb[t].state in {STOPPED, INIT}
    ensures CoresExact(MakeReady(s, t))
  {
    var r := MakeReady(s, t);
    SameCores(s, r);
    forall c | 0 <= c < s.cfg.cores ensures CoreOk(r, c) {
      assert CoreOk(s, c);
    }
    forall u | 0 <= u < |s.tcb| && Live(r, u) ensures ThreadOk(r, u) {
      assert ThreadOk(s, u);
    }
  }

  lemma MakeReadyQueues(s: State, t: Tid)
    requires Shape(s) && QueuesExact(s) && !Handed(s, t)
    requires t < s.cfg.threads && s.used[t] && s.tcb[t].state in {STOPPED, INIT}
    ensures QueuesExact(MakeReady(s, t))
  {
    SameCores(s, MakeReady(s, t));
  }

  lemma MakeReadyInv(s: State, t: Tid)
    requires Inv(s) && t < s.cfg.threads && s.used[t] && s.tcb[t].state in {STOPPED, INIT}
    ensures Inv(MakeReady(s, t))
  {
    MakeReadyTimeouts(s, t);
    MakeReadyCores(s, t);
    HandedReady(s, t);
    MakeReadyQueues(s, t);
  }

  lemma HandedReady(s: State, t: Tid)
    requires Shape(s) && CoresExact(s)
    ensures Handed(s, t) ==> t < |s.tcb| && s.tcb[t].state == READY && s.tcb[t].phase == CTX_CLEAN
  {
    if Handed(s, t) {
      var c :| 0 <= c < |s.cur| && s.cur[c] == t && t != Owner(s, c);
      assert CoreOk(s, c);
    }
  }

  lemma TimedHaveTimes(s: State)
    requires Shape(s) && TimeoutsExact(s)
    ensures TimeoutsListed(s)
  {
    assert forall i :: 0 <= i < |s.timeouts| ==> s.timeouts[i] in s.timeouts;
  }

  lemma {:induction false} ExpireInv(s: State, now: nat)
    requires Inv(s)
    ensures TimeoutsListed(s) && Inv(Expire(s, now))
    decreases |s.timeouts|
  {
    TimedHaveTimes(s);
    if s.timeouts != [] && s.tcb[s.timeouts[0]].wakeupTime <= now {
      RemoveDistinct(s.timeouts, s.timeouts[0]);
      assert Timed(s, s.timeouts[0]);
      MakeReadyInv(s, s.timeouts[0]);
      ExpireInv(MakeReady(s, s.timeouts[0]), now);
    }
  }

  lemma WakeupInv(s: State, t: Tid)
    requires Inv(s) && t < s.cfg.threads && s.used[t]
    ensures Inv(Wakeup(s, t))
  {
    if s.tcb[t].state in {STOPPED, INIT} {
      MakeReadyInv(s, t);
    }
  }

  // ---------------------------------------------------------------- yield

  lemma BoostShape(s: State)
    requires Shape(s) && QueuesExact(s)
    ensures Shape(Boost(s))
    ensures forall t :: 0 <= t < |s.tcb| ==>
      Boost(s).tcb[t] == s.tcb[t] ||
      (Runnable(s, t) && s.tcb[t].priority >= 1 && Boost(s).tcb[t] == s.tcb[t].(priority := s.tcb[t].priority - 1))
  {
  }

  lemma BoostDistinct(s: State)
    requires Shape(s) && QueuesExact(s)
    ensures forall q :: 0 <= q < |s.queues| ==> Distinct(Boost(s).queues[q])
  {
    forall q | 0 <= q < |s.queues| ensures Distinct(Boost(s).queues[q]) {
      if q == 0 && |s.queues| > 1 {
        assert forall i, j :: 0 <= i < |s.queues[0]| && 0 <= j < |s.queues[1]| ==> s.queues[0][i] != s.queues[1][j];
      }
    }
  }

  lemma BoostHolds(s: State, q: nat, i: nat)
    requires Shape(s) && QueuesExact(s) && q < |s.queues| && Shape(Boost(s)) && i < |Boost(s).queues[q]|
    ensures var r := Boost(s); var t := r.queues[q][i];
            t < s.cfg.threads && s.used[t] && Runnable(s, t) && r.tcb[t].priority == q
  {
    var r := Boost(s);
    var t := r.queues[q][i];
    if q == 0 && |s.queues| > 1 && i >= |s.queues[0]| {
      assert t == s.queues[1][i - |s.queues[0]|];
      assert InLowerQueue(s.queues, t);
    } else if q == 0 {
      assert t == s.queues[0][i];
      assert !InLowerQueue(s.queues, t);
    } else {
      assert t == s.queues[q + 1][i];
      assert InLowerQueue(s.queues, t);
    }
  }

  lemma BoostListed(s: State, t: Tid)
    requires Shape(s) && QueuesExact(s) && Shape(Boost(s)) && t < s.cfg.threads && s.used[t] && Runnable(s, t)
    ensures t in Boost(s).queues[Boost(s).tcb[t].priority]
  {
    var q := s.tcb[t].priority;
    assert t in s.queues[q];
    assert InLowerQueue(s.queues, t) <==> q > 0;
  }

  lemma BoostQueues(s: State)
    requires Shape(s) && QueuesExact(s)
    ensures Shape(Boost(s)) && QueuesExact(Boost(s))
  {
    BoostShape(s);
    var r := Boost(s);
    SameCores(s, r);
    BoostDistinct(s);
    forall q, i | 0 <= q < |r.queues| && 0 <= i < |r.queues[q]|
      ensures r.queues[q][i] < s.cfg.threads && s.used[r.queues[q][i]]
      ensures Runnable(r, r.queues[q][i]) && r.tcb[r.queues[q][i]].priority == q
    {
      BoostHolds(s, q, i);
    }
    forall t | 0 <= t < s.cfg.threads && s.used[t] && Runnable(r, t)
      ensures t in r.queues[r.tcb[t].priority]
    {
      BoostListed(s, t);
    }
  }

  lemma BoostOthers(s: State)
    requires Inv(s)
    ensures Shape(Boost(s)) && TimeoutsExact(Boost(s)) && CoresExact(Boost(s))
  {
    BoostShape(s);
    var r := Boost(s);
    SameCores(s, r);
    assert forall t: Tid :: Timed(r, t) <==> Timed(s, t);
    forall c | 0 <= c < s.cfg.cores ensures CoreOk(r, c) {
      assert CoreOk(s, c);
    }
    forall u | 0 <= u < |s.tcb| && Live(r, u) ensures ThreadOk(r, u) {
      assert ThreadOk(s, u);
    }
  }

  lemma CountYieldInv(s: State)
    requires Inv(s)
    ensures Inv(CountYield(s))
  {
    BoostQueues(s);
    BoostOthers(s);
    var b := if s.yieldCount + 1 == s.cfg.yieldRuns then Boost(s) else s;
    var r := CountYield(s);
    SameParts(b, r);
  }

  lemma SameParts(b: State, r: State)
    requires Shape(b) && QueuesExact(b) && TimeoutsExact(b) && CoresExact(b)
    requires r.yieldCount < r.cfg.yieldRuns
    requires r == b.(yieldCount := r.yieldCount)
    ensures Shape(r) && QueuesExact(r) && TimeoutsExact(r) && CoresExact(r)
  {
    SameCores(b, r);
    assert forall t: Tid :: Timed(r, t) <==> Timed(b, t);
    forall c | 0 <= c < b.cfg.cores ensures CoreOk(r, c) {
      assert CoreOk(b, c);
    }
    forall u | 0 <= u < |b.tcb| && Live(r, u) ensures ThreadOk(r, u) {
      assert ThreadOk(b, u);
    }
  }

  lemma DemoteInv(s: State, c: nat, cause: Cause)
    requires Inv(s) && c < s.cfg.cores && s.pc[c] != Switching
    ensures Inv(Demote(s, c, cause))
  {
    var r, t := Demote(s, c, cause), s.cur[c];
    assert CoreOk(s, c) && Owner(s, c) == t;
    assert forall d :: 0 <= d < s.cfg.cores ==> Owner(r, d) == Owner(s, d);
    assert forall u :: Handed(r, u) <==> Handed(s, u);
    assert QueuesExact(r);
    assert forall u: Tid :: Timed(r, u) <==> Timed(s, u);
    assert TimeoutsExact(r);
    DemoteCores(s, c, cause);
  }

  lemma DemoteCores(s: State, c: nat, cause: Cause)
    requires Shape(s) && CoresExact(s) && c < s.cfg.cores && s.pc[c] != Switching
    ensures CoresExact(Demote(s, c, cause))
  {
    var r, t := Demote(s, c, cause), s.cur[c];
    assert CoreOk(s, c) && Owner(s, c) == t;
    assert forall d :: 0 <= d < s.cfg.cores ==> Owner(r, d) == Owner(s, d);
    forall d | 0 <= d < s.cfg.cores ensures CoreOk(r, d) {
      assert CoreOk(s, d);
    }
    forall u | 0 <= u < |s.tcb| && Live(r, u) ensures ThreadOk(r, u) {
      assert ThreadOk(s, u);
    }
  }

  /** Selecting changes no owner; only the selected thread becomes handed over. */
  lemma SelectFrame(s: State, c: nat)
    requires Shape(s) && c < s.cfg.cores && s.pc[c] == Leaving
    ensures forall d :: 0 <= d < s.cfg.cores ==> Owner(Select(s, c), d) == Owner(s, d)
    ensures forall u :: u != Select(s, c).cur[c] && u != s.cur[c] ==> (Handed(Select(s, c), u) <==> Handed(s, u))
    ensures Select(s, c).cur[c] != s.cur[c] ==> Handed(Select(s, c), Select(s, c).cur[c])
  {
    var r := Select(s, c);
    assert forall d :: 0 <= d < s.cfg.cores ==> Owner(r, d) == Owner(s, d);
    forall u | u != r.cur[c] && u != s.cur[c] ensures Handed(r, u) <==> Handed(s, u) {
      if Handed(s, u) {
        var d :| 0 <= d < s.cfg.cores && s.cur[d] == u && u != Owner(s, d);
        assert r.cur[d] == u && u != Owner(r, d);
      }
    }
  }

  lemma SelectQueues(s: State, c: nat)
    requires Shape(s) && QueuesExact(s) && c < s.cfg.cores && s.pc[c] == Leaving
    requires s.tcb[s.cur[c]].phase == CTX_DIRTY
    ensures QueuesExact(Select(s, c))
  {
    var r, q, t := Select(s, c), FirstNonEmpty(s.queues), s.cur[c];
    SelectFrame(s, c);
    if q < |s.queues| {
      assert s.queues[q] == [s.queues[q][0]] + r.queues[q];
      assert Runnable(s, r.cur[c]) && r.cur[c] != t;
    } else {
      assert r.queues == s.queues;
    }
  }

  /** The thread `yield` selects is READY, may run on this core, and is on no other core;
      unless it is the leaving thread itself, its saved context is clean. */
  ghost predicate Free(s: State, n: Tid, c: nat)
    requires Shape(s) && c < s.cfg.cores
  {
    && n < |s.tcb| && RunsOn(s, n, c) && s.tcb[n].state == READY
    && (n != s.cur[c] ==> s.tcb[n].phase == CTX_CLEAN)
    && (forall d :: 0 <= d < s.cfg.cores && d != c ==> s.cur[d] != n && Owner(s, d) != n)
  }

  lemma SelectedIsFree(s: State, c: nat)
    requires Shape(s) && QueuesExact(s) && CoresExact(s) && c < s.cfg.cores && s.pc[c] == Leaving
    ensures Free(s, Select(s, c).cur[c], c)
  {
    var n, q, t := Select(s, c).cur[c], FirstNonEmpty(s.queues), s.cur[c];
    assert CoreOk(s, c) && Owner(s, c) == t;
    if q < |s.queues| {
      assert Runnable(s, s.queues[q][0]);
    } else if n != t {
      assert Live(s, n) && ThreadOk(s, n);
    }
    forall d | 0 <= d < s.cfg.cores && d != c ensures s.cur[d] != n && Owner(s, d) != n {
      assert CoreOk(s, d);
    }
  }

  lemma SelectCores(s: State, c: nat)
    requires Shape(s) && CoresExact(s) && c < s.cfg.cores && s.pc[c] == Leaving
    requires Free(s, Select(s, c).cur[c], c)
    ensures CoresExact(Select(s, c))
  {
    var r := Select(s, c);
    SelectFrame(s, c);
    assert r.tcb == s.tcb && r.used == s.used && r.cfg == s.cfg;
    forall d | 0 <= d < s.cfg.cores ensures CoreOk(r, d) {
      assert CoreOk(s, d);
    }
    forall u | 0 <= u < |s.tcb| && Live(r, u) ensures ThreadOk(r, u) {
      assert ThreadOk(s, u);
    }
  }

  lemma SelectInv(s: State, c: nat)
    requires Inv(s) && c < s.cfg.cores && s.pc[c] == Leaving
    ensures Inv(Select(s, c))
  {
    var r := Select(s, c);
    assert CoreOk(s, c);
    SelectQueues(s, c);
    SelectedIsFree(s, c);
    SelectCores(s, c);
    assert forall u: Tid :: Timed(r, u) <==> Timed(s, u);
  }

  // ---------------------------------------------------------------- gain

  /** What `gain` asserts: the previous thread is READY, EXITED or STOPPED. */
  lemma GainPrevious(s: State, c: nat)
    requires Inv(s) && c < s.cfg.cores && s.pc[c] == Switching
    ensures s.tcb[s.prev[c]].state in {READY, EXITED, STOPPED}
    ensures s.tcb[s.prev[c]].phase == CTX_DIRTY
    ensures s.tcb[s.cur[c]].state == READY
  {
    assert CoreOk(s, c);
  }

  lemma ArriveFrame(s: State, c: nat)
    requires Shape(s) && c < s.cfg.cores && s.pc[c] == Switching
    ensures forall d :: 0 <= d < s.cfg.cores ==> Owner(Arrive(s, c), d) == if d == c then s.cur[c] else Owner(s, d)
    ensures forall u :: u != s.cur[c] ==> (Handed(Arrive(s, c), u) <==> Handed(s, u))
  {
    var r := Arrive(s, c);
    assert r.cur == s.cur && r.prev == s.prev && r.pc == s.pc[c := Running];
    forall u | u != s.cur[c] ensures Handed(r, u) <==> Handed(s, u) {
      if Handed(s, u) {
        var d :| 0 <= d < s.cfg.cores && s.cur[d] == u && u != Owner(s, d);
        assert r.cur[d] == u && u != Owner(r, d);
      }
    }
  }

  /** The cores agree with the threads, except that thread `x` has left its core dirty. */
  ghost predicate CoresBut(s: State, x: Tid)
    requires Shape(s)
  {
    && (forall c :: 0 <= c < s.cfg.cores ==> CoreOk(s, c) && s.cur[c] != x && Owner(s, c) != x)
    && OnePerCore(s)
    && (forall t :: 0 <= t < |s.tcb| && Live(s, t) && t != x ==> ThreadOk(s, t))
  }

  lemma ArriveCores(s: State, c: nat)
    requires Shape(s) && CoresExact(s) && c < s.cfg.cores && s.pc[c] == Switching
    ensures s.cur[c] == s.prev[c] ==> CoresExact(Arrive(s, c))
    ensures s.cur[c] != s.prev[c] ==> CoresBut(Arrive(s, c), s.prev[c])
  {
    var r, t, p := Arrive(s, c), s.cur[c], s.prev[c];
    assert CoreOk(s, c);
    ArriveFrame(s, c);
    forall d | 0 <= d < s.cfg.cores && d != c ensures Owner(s, d) != t && s.cur[d] != p {
      assert CoreOk(s, d);
    }
    forall d | 0 <= d < s.cfg.cores ensures CoreOk(r, d) {
      assert CoreOk(s, d);
    }
    forall u | 0 <= u < |s.tcb| && Live(r, u) && (t == p || u != p) ensures ThreadOk(r, u) {
      assert ThreadOk(s, u);
      assert Owner(r, c) == t;
    }
  }

  lemma ArriveQueues(s: State, c: nat)
    requires Shape(s) && QueuesExact(s) && c < s.cfg.cores && s.pc[c] == Switching && CoreOk(s, c)
    ensures QueuesExact(Arrive(s, c))
  {
    var t, p := s.cur[c], s.prev[c];
    ArriveFrame(s, c);
    assert t != p ==> Handed(s, t);
    assert forall q, i :: 0 <= q < |s.queues| && 0 <= i < |s.queues[q]| ==> s.queues[q][i] != t;
  }

  lemma ArriveTimeouts(s: State, c: nat)
    requires Shape(s) && TimeoutsExact(s) && c < s.cfg.cores && s.pc[c] == Switching && CoreOk(s, c)
    ensures TimeoutsExact(Arrive(s, c))
  {
    assert !Timed(s, s.cur[c]);
    assert forall u: Tid :: Timed(Arrive(s, c), u) <==> Timed(s, u);
  }

  ghost predicate Departing(s: State, p: Tid)
    requires Shape(s)
  {
    && p < |s.tcb| && Live(s, p)
    && s.tcb[p].state in {READY, STOPPED, EXITED} && s.tcb[p].phase == CTX_DIRTY
    && (IsIdle(s, p) ==> s.tcb[p].state == READY)
  }

  lemma DepartCores(s: State, p: Tid)
    requires Shape(s) && CoresBut(s, p) && Departing(s, p)
    ensures CoresExact(Depart(s, p))
  {
    var r := Depart(s, p);
    SameCores(s, r);
    forall d | 0 <= d < s.cfg.cores ensures CoreOk(r, d) {
      assert CoreOk(s, d);
    }
    forall u | 0 <= u < |s.tcb| && Live(r, u) ensures ThreadOk(r, u) {
      assert u != p ==> ThreadOk(s, u);
    }
  }

  lemma DepartQueues(s: State, p: Tid)
    requires Shape(s) && QueuesExact(s) && Departing(s, p) && !Handed(s, p)
    ensures QueuesExact(Depart(s, p))
  {
    SameCores(s, Depart(s, p));
    assert forall q, i :: 0 <= q < |s.queues| && 0 <= i < |s.queues[q]| ==> s.queues[q][i] != p;
    if s.tcb[p].state == READY && !IsIdle(s, p) {
      DepartReady(s, p);
    }
  }

  lemma DepartReady(s: State, p: Tid)
    requires Shape(s) && QueuesExact(s) && Departing(s, p) && !Handed(s, p) && s.tcb[p].state == READY && !IsIdle(s, p)
    ensures QueuesExact(Depart(s, p))
  {
    SameCores(s, Depart(s, p));
    assert forall q, i :: 0 <= q < |s.queues| && 0 <= i < |s.queues[q]| ==> s.queues[q][i] != p;
  }

  lemma DepartTimeouts(s: State, p: Tid)
    requires Shape(s) && TimeoutsExact(s) && Departing(s, p)
    ensures TimeoutsExact(Depart(s, p))
  {
    assert s.tcb[p].state == EXITED ==> !Timed(s, p);
    assert forall u: Tid :: Timed(Depart(s, p), u) <==> Timed(s, u);
  }

  lemma GainInv(s: State, c: nat)
    requires Inv(s) && c < s.cfg.cores && s.pc[c] == Switching
    ensures Inv(Gain(s, c))
  {
    var p, s1 := s.prev[c], Arrive(s, c);
    assert CoreOk(s, c);
    ArriveCores(s, c);
    ArriveQueues(s, c);
    ArriveTimeouts(s, c);
    if p != s.cur[c] {
      assert !Handed(s1, p);
      DepartCores(s1, p);
      DepartQueues(s1, p);
      DepartTimeouts(s1, p);
      if p < s.cfg.threads {
        CountUpdate(s.used, p, false);
      }
    }
  }

  lemma {:induction false} CountUpdate(used: seq<bool>, i: nat, v: bool)
    requires i < |used|
    ensures CountUsed(used[i := v]) == CountUsed(used) - (if used[i] then 1 else 0) + (if v then 1 else 0)
  {
    if i == 0 {
      assert used[0 := v][1..] == used[1..];
    } else {
      assert used[i := v][1..] == used[1..][i - 1 := v];
      CountUpdate(used[1..], i - 1, v);
    }
  }

  // ---------------------------------------------------------------- sleep

  /** The running part of `sleep_releasing`, before any time-out is registered. */
  function Mark(s: State, c: nat, state: ThreadState): (r: State)
    requires Shape(s) && c < s.cfg.cores
    ensures Shape(r)
  {
    var t := s.cur[c];
    s.(pc := s.pc[c := Leaving], tcb := s.tcb[t := s.tcb[t].(state := state)])
  }

  lemma MarkInv(s: State, c: nat, state: ThreadState)
    requires Inv(s) && c < s.cfg.cores && s.pc[c] == Running && !IsIdle(s, s.cur[c]) && state in {STOPPED, EXITED}
    ensures Inv(Mark(s, c, state))
  {
    var r, t := Mark(s, c, state), s.cur[c];
    assert CoreOk(s, c) && Owner(s, c) == t;
    assert forall d :: 0 <= d < s.cfg.cores ==> Owner(r, d) == Owner(s, d);
    assert forall u :: Handed(r, u) <==> Handed(s, u);
    assert QueuesExact(r);
    assert forall u: Tid :: Timed(r, u) <==> Timed(s, u);
    MarkCores(s, c, state);
  }

  lemma MarkCores(s: State, c: nat, state: ThreadState)
    requires Shape(s) && CoresExact(s)
    requires c < s.cfg.cores && s.pc[c] == Running && !IsIdle(s, s.cur[c]) && state in {STOPPED, EXITED}
    ensures CoresExact(Mark(s, c, state))
  {
    var r, t := Mark(s, c, state), s.cur[c];
    assert CoreOk(s, c) && Owner(s, c) == t;
    assert forall d :: 0 <= d < s.cfg.cores ==> Owner(r, d) == Owner(s, d);
    forall d | 0 <= d < s.cfg.cores ensures CoreOk(r, d) {
      assert CoreOk(s, d);
    }
    forall u | 0 <= u < |s.tcb| && Live(r, u) ensures ThreadOk(r, u) {
      assert ThreadOk(s, u);
    }
  }

  lemma RegisterTimeouts(s: State, t: Tid, w: nat)
    requires Shape(s) && TimeoutsExact(s) && t < s.cfg.threads && s.used[t]
    requires s.tcb[t].state == STOPPED && s.tcb[t].wakeupTime == NO_TIMEOUT != w
    ensures TimeoutsExact(RegisterTimeout(s, t, w))
  {
    assert !Timed(s, t);
    assert forall i :: 0 <= i < |s.timeouts| ==> s.timeouts[i] != t;
    RegisterSorted(s, t, w);
    RegisterListed(s, t, w);
  }

  lemma RegisterSorted(s: State, t: Tid, w: nat)
    requires Shape(s) && t < |s.tcb| && SortedBy(s.timeouts, s.tcb)
    requires forall i :: 0 <= i < |s.timeouts| ==> s.timeouts[i] != t
    ensures SortedBy(RegisterTimeout(s, t, w).timeouts, RegisterTimeout(s, t, w).tcb)
  {
  }

  lemma InsertMembers(l: seq<Tid>, k: nat, t: Tid)
    requires k <= |l|
    ensures forall u :: u in l[..k] + [t] + l[k..] <==> u in l || u == t
  {
    assert l == l[..k] + l[k..];
  }

  lemma RegisterListed(s: State, t: Tid, w: nat)
    requires Shape(s) && TimedListed(s) && t < s.cfg.threads && s.used[t] && s.tcb[t].state == STOPPED
        && w != NO_TIMEOUT
    ensures TimedListed(RegisterTimeout(s, t, w))
  {
    var r := RegisterTimeout(s, t, w);
    InsertMembers(s.timeouts, InsertPos(r.tcb, s.timeouts, w), t);
    assert forall u: Tid :: Timed(r, u) <==> Timed(s, u) || u == t;
  }

  lemma RegisterOthers(s: State, t: Tid, w: nat)
    requires Shape(s) && QueuesExact(s) && CoresExact(s) && t < s.cfg.threads
    ensures QueuesExact(RegisterTimeout(s, t, w)) && CoresExact(RegisterTimeout(s, t, w))
  {
    var r := RegisterTimeout(s, t, w);
    SameCores(s, r);
    forall d | 0 <= d < s.cfg.cores ensures CoreOk(r, d) {
      assert CoreOk(s, d);
    }
    forall u | 0 <= u < |s.tcb| && Live(r, u) ensures ThreadOk(r, u) {
      assert ThreadOk(s, u);
    }
  }

  /** The calls of `sleep_releasing` the scheduler supports: a normal thread stops or exits,
      and its wake-up time does not fall on the value that means "none". */
  predicate MaySleep(s: State, c: nat, state: ThreadState, timeout: nat, now: nat)
    requires Shape(s) && c < s.cfg.cores
  {
    && s.pc[c] == Running && !IsIdle(s, s.cur[c]) && state in {STOPPED, EXITED}
    && (state == STOPPED && timeout != NO_TIMEOUT ==> WakeAt(now, timeout) != NO_TIMEOUT)
  }

  lemma SleepInv(s: State, c: nat, state: ThreadState, timeout: nat, now: nat)
    requires Inv(s) && c < s.cfg.cores && MaySleep(s, c, state, timeout, now)
    ensures Inv(Sleep(s, c, state, timeout, now))
  {
    var s1, t := Mark(s, c, state), s.cur[c];
    assert CoreOk(s, c);
    assert !Timed(s, t);
    MarkInv(s, c, state);
    if state == STOPPED && timeout != NO_TIMEOUT {
      RegisterTimeouts(s1, t, WakeAt(now, timeout));
      RegisterOthers(s1, t, WakeAt(now, timeout));
    }
  }

  /** `sleep_releasing` with a time-out keeps the scheduler consistent exactly when
      `curtime + timeout`, wrapped to 32 bits, is not NO_TIMEOUT. */
  lemma SleepInvIff(s: State, c: nat, timeout: nat, now: nat)
    requires Inv(s) && c < s.cfg.cores && s.pc[c] == Running && !IsIdle(s, s.cur[c]) && timeout < NO_TIMEOUT
    ensures Inv(Sleep(s, c, STOPPED, timeout, now)) <==> WakeAt(now, timeout) != NO_TIMEOUT
  {
    if WakeAt(now, timeout) != NO_TIMEOUT {
      SleepInv(s, c, STOPPED, timeout, now);
    } else {
      var r, t := Sleep(s, c, STOPPED, timeout, now), s.cur[c];
      var k := InsertPos(r.tcb, s.timeouts, NO_TIMEOUT);
      assert r.timeouts[k] == t && !Timed(r, t);
    }
  }

  // ---------------------------------------------------------------- spawn

  lemma SpawnInv(s: State)
    requires Inv(s)
    ensures Inv(Spawn(s))
  {
    var r, i := Spawn(s), FirstUnused(s.used);
    if i < |s.used| {
      CountUpdate(s.used, i, true);
      SpawnCores(s);
      SpawnQueues(s);
      SpawnTimeouts(s);
    }
  }

  lemma SpawnTimeouts(s: State)
    requires Shape(s) && TimeoutsExact(s)
    ensures TimeoutsExact(Spawn(s))
  {
    var i := FirstUnused(s.used);
    assert !Timed(s, i);
    assert forall j :: 0 <= j < |s.timeouts| ==> s.timeouts[j] != i;
    assert forall u: Tid :: Timed(Spawn(s), u) <==> Timed(s, u);
  }

  lemma SpawnQueues(s: State)
    requires Shape(s) && QueuesExact(s)
    ensures QueuesExact(Spawn(s))
  {
    SameCores(s, Spawn(s));
  }

  lemma SpawnCores(s: State)
    requires Shape(s) && CoresExact(s)
    ensures CoresExact(Spawn(s))
  {
    var r, i := Spawn(s), FirstUnused(s.used);
    SameCores(s, r);
    forall d | 0 <= d < s.cfg.cores ensures CoreOk(r, d) {
      assert CoreOk(s, d);
    }
    forall u | 0 <= u < |s.tcb| && Live(r, u) ensures ThreadOk(r, u) {
      assert u != i ==> ThreadOk(s, u);
    }
  }

  lemma {:induction false} CountNone(used: seq<bool>)
    requires forall i :: 0 <= i < |used| ==> !used[i]
    ensures CountUsed(used) == 0
  {
    if used != [] {
      CountNone(used[1..]);
    }
  }

  lemma InitialInv(cfg: Config)
    requires cfg.Ok()
    ensures Inv(Initial(cfg))
  {
    var s := Initial(cfg);
    CountNone(s.used);
    assert forall u: Tid :: !Timed(s, u);
    assert forall c :: 0 <= c < cfg.cores ==> Owner(s, c) == cfg.threads + c;
    forall u | 0 <= u < |s.tcb| && Live(s, u) ensures ThreadOk(s, u) {
      assert Owner(s, u - cfg.threads) == u;
    }
  }
}
