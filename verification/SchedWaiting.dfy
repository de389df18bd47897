/** Bounded waiting: every queued thread is dispatched after a bounded number of yields. */
module SchedWaiting {
  import opened Sequences
  import opened SchedModel
  import opened SchedInvariant
  import opened SchedRuns

  /** The thread is in its run queue. */
  predicate Waits(s: State, t: Tid)
    requires Shape(s)
  {
    t < s.cfg.threads && s.used[t] && t in s.queues[s.tcb[t].priority]
  }

  /** A bound on the yields before a waiting thread is dispatched: in queue 0 its turn,
      below it the time to be boosted to queue 0 and a full round there. */
  function Rank(s: State, t: Tid): nat
    requires Shape(s) && Waits(s, t)
  {
    var p := s.tcb[t].priority;
    if p == 0 then IndexOf(s.queues[0], t) + 1
    else s.cfg.yieldRuns - s.yieldCount + Rounds(p - 1, s.cfg.yieldRuns) + s.cfg.threads
  }

  /** The yields that `p` boosts take. */
  function Rounds(p: nat, yieldRuns: nat): nat {
    if p == 0 then 0 else yieldRuns + Rounds(p - 1, yieldRuns)
  }

  lemma {:induction false} RoundsIsProduct(p: nat, yieldRuns: nat)
    ensures Rounds(p, yieldRuns) == p * yieldRuns
  {
    if p > 0 {
      RoundsIsProduct(p - 1, yieldRuns);
      assert p * yieldRuns == (p - 1) * yieldRuns + yieldRuns;
    }
  }

  // ---------------------------------------------------------------- positions in queues

  /** Distinct numbers below `n` are at most `n`. */
  lemma {:induction false} Pigeonhole(l: seq<Tid>, n: nat)
    requires Distinct(l) && forall t :: t in l ==> t < n
    ensures |l| <= n
    decreases n
  {
    if l != [] {
      assert l[0] in l;
      RemoveDistinct(l, n - 1);
      Pigeonhole(Remove(l, n - 1), n - 1);
    }
  }

  lemma {:induction false} IndexIn(l: seq<Tid>, t: Tid)
    requires t in l
    ensures IndexOf(l, t) < |l|
  {
    var i :| 0 <= i < |l| && l[i] == t;
  }

  lemma {:induction false} IndexPrefix(l: seq<Tid>, m: seq<Tid>, t: Tid)
    requires l <= m && t in l
    ensures IndexOf(m, t) == IndexOf(l, t)
  {
    IndexIn(l, t);
    var i, j := IndexOf(l, t), IndexOf(m, t);
    assert m[i] == t;
    assert j <= i ==> l[j] == m[j];
  }

  lemma IndexTail(l: seq<Tid>, t: Tid)
    requires t in l && l[0] != t
    ensures t in l[1..] && IndexOf(l, t) == 1 + IndexOf(l[1..], t)
  {
  }

  /** `r` is `s` but for threads added at the ends of queues and other threads' states. */
  ghost predicate Extends(s: State, r: State, t: Tid)
    requires Shape(s) && Waits(s, t)
  {
    && Shape(r) && r.cfg == s.cfg && r.used[t] && r.tcb[t].priority == s.tcb[t].priority && r.yieldCount == s.yieldCount
    && s.queues[s.tcb[t].priority] <= r.queues[s.tcb[t].priority]
  }

  lemma ExtendsRank(s: State, r: State, t: Tid)
    requires Shape(s) && Waits(s, t) && Extends(s, r, t)
    ensures Waits(r, t) && Rank(r, t) == Rank(s, t)
  {
    var p := s.tcb[t].priority;
    IndexPrefix(s.queues[p], r.queues[p], t);
    IndexIn(s.queues[p], t);
    assert r.queues[p][IndexOf(s.queues[p], t)] == t;
  }

  // ---------------------------------------------------------------- one step

  lemma WakeupExtends(s: State, u: Tid, t: Tid)
    requires Shape(s) && Waits(s, t) && u < |s.tcb|
    ensures Extends(s, Wakeup(s, u), t)
  {
  }

  lemma SleepExtends(s: State, c: nat, st: ThreadState, timeout: nat, now: nat, t: Tid)
    requires Shape(s) && Waits(s, t) && c < s.cfg.cores
    ensures Extends(s, Sleep(s, c, st, timeout, now), t)
  {
  }

  lemma GainExtends(s: State, c: nat, t: Tid)
    requires Shape(s) && Waits(s, t) && c < s.cfg.cores && s.prev[c] != t && s.prev[c] < |s.tcb|
    ensures Extends(s, Gain(s, c), t)
  {
    var r := Arrive(s, c);
    assert Extends(s, r, t);
  }

  lemma SpawnExtends(s: State, t: Tid)
    requires Shape(s) && Waits(s, t)
    ensures Extends(s, Spawn(s), t)
  {
  }

  lemma OtherStepExtends(s: State, l: Label, t: Tid)
    requires Inv(s) && Waits(s, t) && Enabled(s, l) && !l.DoYield?
    ensures Extends(s, Apply(s, l), t)
  {
    match l
    case DoWakeup(u) => WakeupExtends(s, u, t);
    case DoSleep(c, st, timeout, now) => SleepExtends(s, c, st, timeout, now, t);
    case DoGain(c) =>
      QueuedReady(s, t);
      assert s.prev[c] == Owner(s, c);
      GainExtends(s, c, t);
    case DoSpawn => SpawnExtends(s, t);
  }

  lemma OtherStepRank(s: State, l: Label, t: Tid)
    requires Inv(s) && Waits(s, t) && Enabled(s, l) && !l.DoYield?
    ensures Waits(Apply(s, l), t) && Rank(Apply(s, l), t) == Rank(s, t)
  {
    OtherStepExtends(s, l, t);
    ExtendsRank(s, Apply(s, l), t);
  }

  lemma QueuedReady(s: State, t: Tid)
    requires Inv(s) && Waits(s, t)
    ensures Runnable(s, t)
    ensures forall c :: 0 <= c < s.cfg.cores ==> s.cur[c] != t && Owner(s, c) != t
  {
    forall c | 0 <= c < s.cfg.cores ensures s.cur[c] != t && Owner(s, c) != t {
      assert CoreOk(s, c);
    }
  }

  /** Counting a yield: a boost lifts the thread one level, and otherwise the next boost
      comes one yield closer. */
  lemma CountYieldRank(s: State, t: Tid)
    requires Inv(s) && Waits(s, t)
    ensures var r := CountYield(s);
      && Inv(r) && Waits(r, t)
      && (if s.tcb[t].priority == 0 then Rank(r, t) == Rank(s, t) else Rank(r, t) < Rank(s, t))
  {
    CountYieldInv(s);
    if s.yieldCount + 1 == s.cfg.yieldRuns {
      BoostedRank(s, t);
    } else {
      CountedRank(s, t);
    }
  }

  lemma CountedRank(s: State, t: Tid)
    requires Shape(s) && Waits(s, t) && s.yieldCount + 1 != s.cfg.yieldRuns && Shape(CountYield(s))
    ensures var r := CountYield(s);
      && Waits(r, t)
      && (if s.tcb[t].priority == 0 then Rank(r, t) == Rank(s, t) else Rank(r, t) < Rank(s, t))
  {
  }

  lemma BoostedRank(s: State, t: Tid)
    requires Shape(s) && QueuesExact(s) && Waits(s, t) && s.yieldCount + 1 == s.cfg.yieldRuns && Shape(CountYield(s))
    ensures var r := CountYield(s);
      && Waits(r, t)
      && (if s.tcb[t].priority == 0 then Rank(r, t) == Rank(s, t) else Rank(r, t) < Rank(s, t))
  {
    BoostRank(s, t);
    BoostedRankFrom(s, CountYield(s), t, s.tcb[t].priority);
  }

  lemma BoostedRankFrom(s: State, r: State, t: Tid, p: int)
    requires Shape(s) && Shape(r) && Waits(s, t) && r.cfg == s.cfg && p == s.tcb[t].priority && r.used[t]
    requires r.yieldCount == 0 && s.yieldCount < s.cfg.yieldRuns
    requires r.tcb[t].priority == (if p == 0 then 0 else p - 1) && t in r.queues[if p == 0 then 0 else p - 1]
    requires |r.queues[0]| <= s.cfg.threads
    requires p == 0 ==> IndexOf(r.queues[0], t) == IndexOf(s.queues[0], t)
    requires p == 1 ==> IndexOf(r.queues[0], t) < |r.queues[0]|
    ensures Waits(r, t) && (if p == 0 then Rank(r, t) == Rank(s, t) else Rank(r, t) < Rank(s, t))
  {
    if p > 1 {
      assert Rounds(p - 1, s.cfg.yieldRuns) == s.cfg.yieldRuns + Rounds(p - 2, s.cfg.yieldRuns);
    }
  }

  lemma BoostRank(s: State, t: Tid)
    requires Shape(s) && QueuesExact(s) && Waits(s, t)
    ensures Shape(Boost(s)) && |Boost(s).queues[0]| <= s.cfg.threads
    ensures var r, p := Boost(s), s.tcb[t].priority;
      && t in r.queues[if p == 0 then 0 else p - 1] && r.tcb[t].priority == (if p == 0 then 0 else p - 1)
      && (p == 0 ==> IndexOf(r.queues[0], t) == IndexOf(s.queues[0], t))
      && (p == 1 ==> IndexOf(r.queues[0], t) < |r.queues[0]|)
  {
    var r, p := Boost(s), s.tcb[t].priority;
    BoostQueues(s);
    QueueLength(r, 0);
    BoostedPlace(s.queues, p, t);
    assert InLowerQueue(s.queues, t) <==> p > 0;
  }

  /** Where a queued thread goes in a boost. */
  lemma BoostedPlace(queues: seq<seq<Tid>>, p: nat, t: Tid)
    requires p < |queues| && t in queues[p]
    ensures var r := BoostedQueues(queues);
      && t in r[if p == 0 then 0 else p - 1]
      && (p == 0 ==> IndexOf(r[0], t) == IndexOf(queues[0], t))
      && (p == 1 ==> IndexOf(r[0], t) < |r[0]|)
  {
    var r := BoostedQueues(queues);
    if p == 0 {
      assert queues[0] <= r[0];
      IndexPrefix(queues[0], r[0], t);
    }
    assert t in r[if p == 0 then 0 else p - 1];
    if p == 1 {
      IndexIn(r[0], t);
    }
  }

  lemma QueueLength(s: State, q: nat)
    requires Shape(s) && QueuesExact(s) && q < s.cfg.queues
    ensures |s.queues[q]| <= s.cfg.threads
  {
    Pigeonhole(s.queues[q], s.cfg.threads);
  }

  lemma LeaveRank(s: State, c: nat, cause: Cause, t: Tid)
    requires Inv(s) && c < s.cfg.cores && s.pc[c] != Switching && Waits(s, t)
    ensures var r := Leave(s, c, cause);
      && Waits(r, t)
      && (if s.tcb[t].priority == 0 then r.tcb[t].priority == 0 && Rank(r, t) == Rank(s, t)
          else Rank(r, t) < Rank(s, t))
  {
    CountYieldRank(s, t);
    var s1 := CountYield(s);
    QueuedReady(s1, t);
    assert Extends(s1, Demote(s1, c, cause), t);
    ExtendsRank(s1, Demote(s1, c, cause), t);
  }

  lemma TickRank(s: State, now: nat, t: Tid)
    requires Inv(s) && Waits(s, t)
    ensures Waits(Tick(s, now), t) && Rank(Tick(s, now), t) == Rank(s, t)
    ensures Tick(s, now).tcb[t] == s.tcb[t]
  {
    QueuedReady(s, t);
    ExpireFrame(s, now);
    ExtendsRank(s, Tick(s, now), t);
  }

  lemma DispatchRank(s: State, c: nat, t: Tid)
    requires Inv(s) && c < s.cfg.cores && s.pc[c] == Leaving && Waits(s, t)
    ensures var r := Dispatch(s, c);
      r.cur[c] != t ==>
        && Waits(r, t)
        && (if s.tcb[t].priority == 0 then Rank(r, t) < Rank(s, t) else Rank(r, t) == Rank(s, t))
  {
    var r, p, q := Dispatch(s, c), s.tcb[t].priority, FirstNonEmpty(s.queues);
    assert q <= p;
    if r.cur[c] != t && q == p {
      IndexTail(s.queues[p], t);
    }
  }

  lemma YieldRank(s: State, c: nat, cause: Cause, now: nat, t: Tid)
    requires Inv(s) && c < s.cfg.cores && s.pc[c] != Switching && Waits(s, t)
    ensures var r := Yield(s, c, cause, now);
      r.cur[c] == t || (Waits(r, t) && Rank(r, t) < Rank(s, t))
  {
    var s1 := Leave(s, c, cause);
    LeaveRank(s, c, cause, t);
    TickRank(s1, now, t);
    DispatchRank(Tick(s1, now), c, t);
  }

  // ---------------------------------------------------------------- whole runs

  function Yields(ls: seq<Label>): nat {
    if ls == [] then 0 else (if ls[0].DoYield? then 1 else 0) + Yields(ls[1..])
  }

  /** Some `yield` of the run hands its core to the thread. */
  ghost predicate Dispatched(s: State, ls: seq<Label>, t: Tid)
    requires Inv(s) && Runs(s, ls)
    decreases |ls|
  {
    && ls != []
    && ((ls[0].DoYield? && Apply(s, ls[0]).cur[ls[0].core] == t)
        || Dispatched(Apply(s, ls[0]), ls[1..], t))
  }

  lemma {:induction false} RankBoundsWait(s: State, ls: seq<Label>, t: Tid)
    requires Inv(s) && Runs(s, ls) && Waits(s, t) && Yields(ls) >= Rank(s, t)
    ensures Dispatched(s, ls, t)
    decreases |ls|
  {
    var l, s' := ls[0], Apply(s, ls[0]);
    if l.DoYield? {
      YieldRank(s, l.core, l.cause, l.now, t);
      if s'.cur[l.core] != t {
        RankBoundsWait(s', ls[1..], t);
      }
    } else {
      OtherStepRank(s, l, t);
      RankBoundsWait(s', ls[1..], t);
    }
  }

  lemma RankBound(s: State, t: Tid)
    requires Shape(s) && QueuesExact(s) && Waits(s, t)
    ensures Rank(s, t) <= s.tcb[t].priority * s.cfg.yieldRuns + s.cfg.threads
  {
    RoundsIsProduct(s.tcb[t].priority, s.cfg.yieldRuns);
    if s.tcb[t].priority == 0 {
      QueueLength(s, 0);
      IndexIn(s.queues[0], t);
    }
  }

  /** Whatever the other threads do, a thread queued at priority `p` gets a core within
      `p * YIELD_RUNS + MAX_THREADS` yields. */
  lemma BoundedWaiting(s: State, ls: seq<Label>, t: Tid)
    requires Inv(s) && Runs(s, ls) && Waits(s, t)
    requires Yields(ls) >= s.tcb[t].priority * s.cfg.yieldRuns + s.cfg.threads
    ensures Dispatched(s, ls, t)
  {
    RankBound(s, t);
    RankBoundsWait(s, ls, t);
  }
}
