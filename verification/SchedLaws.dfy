/** Laws of the single scheduler operations: boosting, expiry, wake-up races, assertions. */
module SchedLaws {
  import opened Sequences
  import opened SchedModel
  import opened SchedInvariant
  import opened SchedRuns

  // ---------------------------------------------------------------- boost

  /** All queued threads, highest priority first. */
  function Flatten(queues: seq<seq<Tid>>): seq<Tid> {
    if queues == [] then [] else queues[0] + Flatten(queues[1..])
  }

  lemma {:induction false} FlattenAppendEmpty(queues: seq<seq<Tid>>)
    ensures Flatten(queues + [[]]) == Flatten(queues)
  {
    if queues == [] {
      assert (queues + [[]])[1..] == [];
    } else {
      assert (queues + [[]])[1..] == queues[1..] + [[]];
      FlattenAppendEmpty(queues[1..]);
    }
  }

  lemma QueuedAt(s: State, q: nat, t: Tid)
    requires Shape(s) && QueuesExact(s) && q < |s.queues| && t in s.queues[q]
    ensures t < s.cfg.threads && s.tcb[t].priority == q
    ensures forall p :: 0 <= p < |s.queues| && t in s.queues[p] ==> p == q
  {
    var i :| 0 <= i < |s.queues[q]| && s.queues[q][i] == t;
    forall p | 0 <= p < |s.queues| && t in s.queues[p] ensures p == q {
      var j :| 0 <= j < |s.queues[p]| && s.queues[p][j] == t;
    }
  }

  lemma BoostMoves(s: State, q: nat, t: Tid)
    requires Shape(s) && q < |s.queues| && t in s.queues[q] && t < |s.tcb| && s.tcb[t].priority == q
    requires forall p :: 0 <= p < |s.queues| && t in s.queues[p] ==> p == q
    ensures var r, to := Boost(s), if q == 0 then 0 else q - 1;
      r.tcb[t] == s.tcb[t].(priority := to) && t in r.queues[to]
  {
    assert InLowerQueue(s.queues, t) <==> q > 0;
  }

  /** A boost keeps the order in which queued threads would run, lifts each one level
      unless it is at the top, and leaves the last queue empty. */
  lemma BoostLaw(s: State)
    requires Inv(s)
    ensures var r := Boost(s);
      && Flatten(r.queues) == Flatten(s.queues)
      && (forall q, t :: 0 <= q < s.cfg.queues && t in s.queues[q] ==>
            t < |s.tcb| && r.tcb[t] == s.tcb[t].(priority := if q == 0 then 0 else q - 1)
            && t in r.queues[if q == 0 then 0 else q - 1])
      && (forall t :: 0 <= t < |s.tcb| && (forall q :: 0 <= q < s.cfg.queues ==> t !in s.queues[q]) ==>
          r.tcb[t] == s.tcb[t])
      && (s.cfg.queues > 1 ==> r.queues[s.cfg.queues - 1] == [])
  {
    BoostFlatten(s.queues);
    forall q, t | 0 <= q < s.cfg.queues && t in s.queues[q]
      ensures t < |s.tcb| && Boost(s).tcb[t] == s.tcb[t].(priority := if q == 0 then 0 else q - 1)
      ensures t in Boost(s).queues[if q == 0 then 0 else q - 1]
    {
      QueuedAt(s, q, t);
      BoostMoves(s, q, t);
    }
  }

  lemma BoostFlatten(queues: seq<seq<Tid>>)
    ensures Flatten(BoostedQueues(queues)) == Flatten(queues)
  {
    var r, n := BoostedQueues(queues), |queues|;
    if n <= 1 {
      assert r == queues;
    } else {
      assert r == [queues[0] + queues[1]] + queues[2..] + [[]];
      FlattenAppendEmpty([queues[0] + queues[1]] + queues[2..]);
      assert ([queues[0] + queues[1]] + queues[2..])[1..] == queues[2..];
      assert queues[1..][1..] == queues[2..];
      assert Flatten(queues) == queues[0] + (queues[1] + Flatten(queues[2..]));
    }
  }

  // ---------------------------------------------------------------- expiry

  /** How many listed sleepers, from the front, are due. */
  function Due(l: seq<Tid>, tcb: seq<Tcb>, now: nat): (k: nat)
    requires forall i :: 0 <= i < |l| ==> l[i] < |tcb|
    ensures k <= |l|
  {
    if l == [] || tcb[l[0]].wakeupTime > now then 0 else 1 + Due(l[1..], tcb, now)
  }

  /** The threads of a list that a wake-up puts in queue `q`. */
  function ForQueue(l: seq<Tid>, tcb: seq<Tcb>, q: int): seq<Tid>
    requires forall i :: 0 <= i < |l| ==> l[i] < |tcb|
  {
    if l == [] then []
    else (if tcb[l[0]].phase == CTX_CLEAN && tcb[l[0]].priority == q then [l[0]] else []) + ForQueue(l[1..], tcb, q)
  }

  lemma {:induction false} DueForQueueFrame(l: seq<Tid>, a: seq<Tcb>, b: seq<Tcb>, now: nat, q: int)
    requires |a| == |b| && forall i :: 0 <= i < |l| ==> l[i] < |a| && a[l[i]] == b[l[i]]
    ensures Due(l, a, now) == Due(l, b, now)
    ensures forall k :: 0 <= k <= |l| ==> ForQueue(l[..k], a, q) == ForQueue(l[..k], b, q)
  {
    if l != [] {
      DueForQueueFrame(l[1..], a, b, now, q);
      forall k | 0 <= k <= |l| ensures ForQueue(l[..k], a, q) == ForQueue(l[..k], b, q) {
        if k > 0 {
          assert l[..k][1..] == l[1..][..k - 1];
        }
      }
    }
  }

  /** The due sleepers leave the front of the timeout list `l` and are appended, in list
      order, to the queues of their priorities. */
  ghost predicate TakesDue(l: seq<Tid>, tcb: seq<Tcb>, qs: seq<seq<Tid>>, l': seq<Tid>, qs': seq<seq<Tid>>, now: nat) {
    && (forall i :: 0 <= i < |l| ==> l[i] < |tcb|)
    && |qs'| == |qs|
    && l' == l[Due(l, tcb, now)..]
    && (forall q :: 0 <= q < |qs| ==> qs'[q] == qs[q] + ForQueue(l[..Due(l, tcb, now)], tcb, q))
  }

  /** A due sleeper in front of list `l` is the first to go to its queue. */
  lemma ForQueueHead(l: seq<Tid>, tcb: seq<Tcb>, tcb1: seq<Tcb>, now: nat, q: int)
    requires forall i :: 0 <= i < |l| ==> l[i] < |tcb|
    requires l != [] && tcb[l[0]].wakeupTime <= now
    requires |tcb1| == |tcb| && forall i :: 1 <= i < |l| ==> tcb1[l[i]] == tcb[l[i]]
    ensures Due(l, tcb, now) == 1 + Due(l[1..], tcb1, now)
    ensures ForQueue(l[..Due(l, tcb, now)], tcb, q)
         == ForQueue([l[0]], tcb, q) + ForQueue(l[1..][..Due(l[1..], tcb1, now)], tcb1, q)
  {
    DueForQueueFrame(l[1..], tcb1, tcb, now, q);
    assert l[..Due(l, tcb, now)][1..] == l[1..][..Due(l[1..], tcb1, now)];
  }

  lemma TakesHead(l: seq<Tid>, tcb: seq<Tcb>, tcb1: seq<Tcb>, qs: seq<seq<Tid>>, qs1: seq<seq<Tid>>,
                  l': seq<Tid>, qs': seq<seq<Tid>>, now: nat)
    requires forall i :: 0 <= i < |l| ==> l[i] < |tcb|
    requires l != [] && tcb[l[0]].wakeupTime <= now
    requires |tcb1| == |tcb| && forall i :: 1 <= i < |l| ==> tcb1[l[i]] == tcb[l[i]]
    requires |qs1| == |qs| && forall q :: 0 <= q < |qs| ==> qs1[q] == qs[q] + ForQueue([l[0]], tcb, q)
    requires TakesDue(l[1..], tcb1, qs1, l', qs', now)
    ensures TakesDue(l, tcb, qs, l', qs', now)
  {
    TakesRest(l, tcb, tcb1, l', now);
    forall q | 0 <= q < |qs| ensures qs'[q] == qs[q] + ForQueue(l[..Due(l, tcb, now)], tcb, q) {
      TakesOne(l, tcb, tcb1, qs[q], qs1[q], qs'[q], now, q);
    }
  }

  lemma TakesRest(l: seq<Tid>, tcb: seq<Tcb>, tcb1: seq<Tcb>, l': seq<Tid>, now: nat)
    requires forall i :: 0 <= i < |l| ==> l[i] < |tcb|
    requires l != [] && tcb[l[0]].wakeupTime <= now
    requires |tcb1| == |tcb| && forall i :: 1 <= i < |l| ==> tcb1[l[i]] == tcb[l[i]]
    requires l' == l[1..][Due(l[1..], tcb1, now)..]
    ensures l' == l[Due(l, tcb, now)..]
  {
    ForQueueHead(l, tcb, tcb1, now, 0);
    DropTail(l, Due(l[1..], tcb1, now));
  }

  lemma DropTail(l: seq<Tid>, k: nat)
    requires l != [] && k < |l|
    ensures k <= |l[1..]| && l[1..][k..] == l[1 + k..]
  {
  }

  lemma Regroup(x: seq<Tid>, a: seq<Tid>, b: seq<Tid>)
    ensures (x + a) + b == x + (a + b)
  {
  }

  lemma TakesOne(l: seq<Tid>, tcb: seq<Tcb>, tcb1: seq<Tcb>, x: seq<Tid>, x1: seq<Tid>, x': seq<Tid>, now: nat, q: int)
    requires forall i :: 0 <= i < |l| ==> l[i] < |tcb|
    requires l != [] && tcb[l[0]].wakeupTime <= now
    requires |tcb1| == |tcb| && forall i :: 1 <= i < |l| ==> tcb1[l[i]] == tcb[l[i]]
    requires x1 == x + ForQueue([l[0]], tcb, q)
    requires x' == x1 + ForQueue(l[1..][..Due(l[1..], tcb1, now)], tcb1, q)
    ensures x' == x + ForQueue(l[..Due(l, tcb, now)], tcb, q)
  {
    ForQueueHead(l, tcb, tcb1, now, q);
    Regroup(x, ForQueue([l[0]], tcb, q), ForQueue(l[1..][..Due(l[1..], tcb1, now)], tcb1, q));
  }

  lemma HeadQueued(s: State)
    requires Shape(s) && s.timeouts != []
    ensures forall q :: 0 <= q < |s.queues| ==>
      MakeReady(s, s.timeouts[0]).queues[q] == s.queues[q] + ForQueue([s.timeouts[0]], s.tcb, q)
  {
  }

  /** From `s` to `m` the first sleeper of the timeout list was woken. */
  ghost predicate FirstWoken(s: State, m: State)
    requires Shape(s) && s.timeouts != []
  {
    && m.timeouts == s.timeouts[1..] && |m.tcb| == |s.tcb| && |m.queues| == |s.queues|
    && (forall i {:trigger s.timeouts[i]} :: 1 <= i < |s.timeouts| ==> m.tcb[s.timeouts[i]] == s.tcb[s.timeouts[i]])
    && (forall q :: 0 <= q < |s.queues| ==> m.queues[q] == s.queues[q] + ForQueue([s.timeouts[0]], s.tcb, q))
  }

  lemma WakesFirst(s: State)
    requires Shape(s) && TimeoutsExact(s) && s.timeouts != []
    ensures TimeoutsExact(MakeReady(s, s.timeouts[0])) && FirstWoken(s, MakeReady(s, s.timeouts[0]))
  {
    HeadReady(s);
    MakeReadyTimeouts(s, s.timeouts[0]);
    HeadQueued(s);
    FirstIsWoken(s);
  }

  lemma FirstIsWoken(s: State)
    requires Shape(s) && s.timeouts != [] && MakesHeadReady(s)
    requires forall q :: 0 <= q < |s.queues| ==>
      MakeReady(s, s.timeouts[0]).queues[q] == s.queues[q] + ForQueue([s.timeouts[0]], s.tcb, q)
    ensures FirstWoken(s, MakeReady(s, s.timeouts[0]))
  {
  }

  lemma ExpireUnfolds(s: State, now: nat)
    requires Shape(s) && TimeoutsListed(s) && s.timeouts != [] && s.tcb[s.timeouts[0]].wakeupTime <= now
    ensures TimeoutsListed(MakeReady(s, s.timeouts[0])) && Expire(s, now) == Expire(MakeReady(s, s.timeouts[0]), now)
  {
    RemoveDistinct(s.timeouts, s.timeouts[0]);
  }

  lemma {:induction false} ExpireLists(s: State, now: nat)
    requires Shape(s) && TimeoutsExact(s)
    ensures TimeoutsListed(s)
    ensures TakesDue(s.timeouts, s.tcb, s.queues, Expire(s, now).timeouts, Expire(s, now).queues, now)
    decreases |s.timeouts|
  {
    TimedHaveTimes(s);
    if s.timeouts != [] && s.tcb[s.timeouts[0]].wakeupTime <= now {
      WakesFirst(s);
      var m := MakeReady(s, s.timeouts[0]);
      ExpireLists(m, now);
      ExpireUnfolds(s, now);
      var r := Expire(m, now);
      TakesHead(s.timeouts, s.tcb, m.tcb, s.queues, m.queues, r.timeouts, r.queues, now);
    } else {
      TakesNone(s, now);
    }
  }

  lemma TakesNone(s: State, now: nat)
    requires Shape(s) && TimeoutsListed(s) && (s.timeouts == [] || s.tcb[s.timeouts[0]].wakeupTime > now)
    ensures TakesDue(s.timeouts, s.tcb, s.queues, Expire(s, now).timeouts, Expire(s, now).queues, now)
  {
  }

  /** Waking the head of the timeout list removes just the head. */
  ghost predicate MakesHeadReady(s: State)
    requires Shape(s) && s.timeouts != []
  {
    && MakeReady(s, s.timeouts[0]).timeouts == s.timeouts[1..]
    && (forall i :: 1 <= i < |s.timeouts| ==> s.timeouts[i] != s.timeouts[0])
  }

  lemma HeadReady(s: State)
    requires Shape(s) && TimeoutsExact(s) && s.timeouts != []
    ensures Timed(s, s.timeouts[0]) && s.timeouts[0] < s.cfg.threads && s.tcb[s.timeouts[0]].state == STOPPED
    ensures MakesHeadReady(s)
  {
    assert Timed(s, s.timeouts[0]);
    assert IndexOf(s.timeouts, s.timeouts[0]) == 0;
  }

  /** From `s` to `r` exactly the sleepers whose time has come were made READY. */
  ghost predicate WakesDue(s: State, r: State, now: nat)
    requires Shape(s)
  {
    && |r.tcb| == |s.tcb|
    && forall t: Tid :: t < |s.tcb| ==>
         r.tcb[t] == if Timed(s, t) && s.tcb[t].wakeupTime <= now
                     then s.tcb[t].(state := READY, wakeupTime := NO_TIMEOUT)
                     else s.tcb[t]
  }

  lemma WakesNone(s: State, now: nat)
    requires Shape(s) && TimeoutsExact(s) && (s.timeouts == [] || s.tcb[s.timeouts[0]].wakeupTime > now)
    ensures WakesDue(s, s, now)
  {
    forall t: Tid | Timed(s, t) ensures s.tcb[t].wakeupTime > now {
      assert t in s.timeouts;
    }
  }

  lemma {:induction false} ExpireThreads(s: State, now: nat)
    requires Shape(s) && TimeoutsExact(s)
    ensures TimeoutsListed(s)
    ensures WakesDue(s, Expire(s, now), now)
    decreases |s.timeouts|
  {
    TimedHaveTimes(s);
    if s.timeouts == [] || s.tcb[s.timeouts[0]].wakeupTime > now {
      WakesNone(s, now);
    } else {
      HeadReady(s);
      MakeReadyTimeouts(s, s.timeouts[0]);
      ExpireThreads(MakeReady(s, s.timeouts[0]), now);
      WakesHead(s, Expire(s, now), now);
    }
  }

  lemma WakesHead(s: State, r: State, now: nat)
    requires Shape(s) && s.timeouts != [] && Timed(s, s.timeouts[0]) && s.tcb[s.timeouts[0]].wakeupTime <= now
    requires WakesDue(MakeReady(s, s.timeouts[0]), r, now)
    ensures WakesDue(s, r, now)
  {
    var t, m := s.timeouts[0], MakeReady(s, s.timeouts[0]);
    assert forall u: Tid :: Timed(m, u) <==> Timed(s, u) && u != t;
  }

  /** An expiry pass wakes exactly the sleepers with `wakeup_time <= now`, in the order of the
      timeout list, and queues those that have left their core. */
  lemma ExpiryLaw(s: State, now: nat)
    requires Inv(s)
    ensures TimeoutsListed(s)
    ensures WakesDue(s, Expire(s, now), now)
    ensures TakesDue(s.timeouts, s.tcb, s.queues, Expire(s, now).timeouts, Expire(s, now).queues, now)
  {
    ExpireThreads(s, now);
    ExpireLists(s, now);
  }

  lemma InsertedAt(l: seq<Tid>, k: nat, t: Tid)
    requires k <= |l|
    ensures var r := l[..k] + [t] + l[k..];
      && |r| == |l| + 1 && r[..k] == l[..k] && r[k + 1..] == l[k..]
      && forall i :: 0 <= i < |r| ==> r[i] == if i < k then l[i] else if i == k then t else l[i - 1]
  {
  }

  /** A sleeper that registers a time-out goes behind all that wake no later and before all
      others: the list stays sorted, and the others keep their order. */
  lemma RegisterIsStable(s: State, t: Tid, w: nat)
    requires Shape(s) && SortedBy(s.timeouts, s.tcb) && t < |s.tcb| && t !in s.timeouts
    ensures var r := RegisterTimeout(s, t, w);
      var k := InsertPos(r.tcb, s.timeouts, w);
      && r.timeouts[k] == t && r.tcb[t].wakeupTime == w
      && r.timeouts[..k] == s.timeouts[..k] && r.timeouts[k + 1..] == s.timeouts[k..]
      && (forall i :: 0 <= i < |s.timeouts| ==> (i < k <==> s.tcb[s.timeouts[i]].wakeupTime <= w))
      && SortedBy(r.timeouts, r.tcb)
  {
    var r, l := RegisterTimeout(s, t, w), s.timeouts;
    forall i | 0 <= i < |l| ensures l[i] != t {
      assert l[i] in l;
    }
    RegisterSorted(s, t, w);
    InsertedAt(l, InsertPos(r.tcb, l, w), t);
    PlaceSplits(r.tcb, l, w);
  }

  lemma PlaceSplits(tcb: seq<Tcb>, l: seq<Tid>, w: nat)
    requires (forall i :: 0 <= i < |l| ==> l[i] < |tcb|) && SortedBy(l, tcb)
    ensures forall i :: 0 <= i < |l| ==> (i < InsertPos(tcb, l, w) <==> tcb[l[i]].wakeupTime <= w)
  {
  }

  // ---------------------------------------------------------------- wake-up racing a hand-over

  lemma CommuteAt(s: State, c: nat)
    requires Shape(s) && c < s.cfg.cores && s.prev[c] != s.cur[c] && s.prev[c] < s.cfg.threads
    requires s.tcb[s.prev[c]].state == STOPPED && s.tcb[s.prev[c]].phase == CTX_DIRTY
    ensures Gain(Wakeup(s, s.prev[c]), c) == Wakeup(Gain(s, c), s.prev[c])
    ensures var p := s.tcb[s.prev[c]].priority;
      Wakeup(Gain(s, c), s.prev[c]).queues == s.queues[p := s.queues[p] + [s.prev[c]]]
  {
    var x, y := Gain(Wakeup(s, s.prev[c]), c), Wakeup(Gain(s, c), s.prev[c]);
    assert x.tcb == y.tcb;
    assert x.queues == y.queues;
  }

  /** A thread that is woken between its sleep and the end of its hand-over ends up queued
      once, at the tail of its priority's queue, whichever of `wakeup` and `gain` is first. */
  lemma WakeupCommutesWithGain(s: State, c: nat)
    requires Inv(s) && c < s.cfg.cores && s.pc[c] == Switching && s.tcb[s.prev[c]].state == STOPPED
    ensures Gain(Wakeup(s, s.prev[c]), c) == Wakeup(Gain(s, c), s.prev[c])
    ensures var p := s.tcb[s.prev[c]].priority;
      && Wakeup(Gain(s, c), s.prev[c]).queues == s.queues[p := s.queues[p] + [s.prev[c]]]
      && s.prev[c] !in s.queues[p]
  {
    assert CoreOk(s, c);
    CommuteAt(s, c);
  }

  // ---------------------------------------------------------------- assertions

  /** The assertions of `sched_make_ready`. */
  predicate MakeReadyAsserts(s: State, t: Tid)
    requires Shape(s) && t < |s.tcb|
  {
    && s.tcb[t].state in {STOPPED, INIT}
    && (s.tcb[t].wakeupTime != NO_TIMEOUT ==> t in s.timeouts && s.tcb[t].state == STOPPED)
  }

  /** `sched_make_ready` asserts at every turn of the expiry loop. */
  predicate ExpireAsserts(s: State, now: nat)
    requires Shape(s) && TimeoutsListed(s)
    decreases |s.timeouts|
  {
    s.timeouts == [] || s.tcb[s.timeouts[0]].wakeupTime > now ||
    (RemoveDistinct(s.timeouts, s.timeouts[0]);
     MakeReadyAsserts(s, s.timeouts[0]) && ExpireAsserts(MakeReady(s, s.timeouts[0]), now))
  }

  /** The assertions that a step evaluates. */
  predicate StepAsserts(s: State, l: Label)
    requires Inv(s) && Enabled(s, l)
  {
    match l
    case DoWakeup(t) => s.tcb[t].state in {STOPPED, INIT} ==> MakeReadyAsserts(s, t)
    case DoSleep(c, st, timeout, now) => st in {STOPPED, EXITED}
    case DoYield(c, cause, now) => ExpireAsserts(Leave(s, c, cause), now)
    case DoGain(c) => s.cur[c] != s.prev[c] ==> s.tcb[s.prev[c]].state in {READY, EXITED, STOPPED}
    case DoSpawn => true
  }

  lemma {:induction false} ExpireNeverAsserts(s: State, now: nat)
    requires Inv(s)
    ensures ExpireAsserts(s, now)
    decreases |s.timeouts|
  {
    if s.timeouts != [] && s.tcb[s.timeouts[0]].wakeupTime <= now {
      HeadReady(s);
      MakeReadyInv(s, s.timeouts[0]);
      ExpireNeverAsserts(MakeReady(s, s.timeouts[0]), now);
    }
  }

  /** No assertion of the scheduler fires, in any step of any run. */
  lemma AssertionsNeverFire(cfg: Config, ls: seq<Label>, l: Label)
    requires cfg.Ok() && Runs(Boot(cfg), ls) && Enabled(After(Boot(cfg), ls), l)
    ensures StepAsserts(After(Boot(cfg), ls), l)
  {
    var s := After(Boot(cfg), ls);
    match l
    case DoWakeup(t) => assert s.tcb[t].wakeupTime != NO_TIMEOUT ==> Timed(s, t);
    case DoSleep(c, st, timeout, now) =>
    case DoYield(c, cause, now) => ExpireNeverAsserts(Leave(s, c, cause), now);
    case DoGain(c) => GainPrevious(s, c);
    case DoSpawn =>
  }

  // ---------------------------------------------------------------- leaving the scheduler

  lemma {:induction false} CountZero(used: seq<bool>)
    ensures CountUsed(used) == 0 <==> forall i :: 0 <= i < |used| ==> !used[i]
  {
    if used != [] {
      CountZero(used[1..]);
      assert forall i :: 1 <= i < |used| ==> used[i] == used[1..][i - 1];
    }
  }

  /** The idle loop ends exactly when every spawned thread has been released; then no
      thread is queued or asleep, and every core runs its own idle thread. */
  lemma IdleExit(cfg: Config, ls: seq<Label>)
    requires cfg.Ok() && Runs(Boot(cfg), ls)
    ensures var s := After(Boot(cfg), ls);
      && s.active >= 0
      && (s.active == 0 <==> forall t :: 0 <= t < cfg.threads ==> !s.used[t])
      && (s.active == 0 ==>
            && s.timeouts == []
            && (forall q :: 0 <= q < cfg.queues ==> s.queues[q] == [])
            && (forall c :: 0 <= c < cfg.cores ==> s.cur[c] == cfg.threads + c))
  {
    IdleExitAt(After(Boot(cfg), ls));
  }

  lemma IdleExitAt(s: State)
    requires Inv(s)
    ensures s.active >= 0
    ensures s.active == 0 <==> forall t :: 0 <= t < s.cfg.threads ==> !s.used[t]
    ensures s.active == 0 ==>
      && s.timeouts == []
      && (forall q :: 0 <= q < s.cfg.queues ==> s.queues[q] == [])
      && (forall c :: 0 <= c < s.cfg.cores ==> s.cur[c] == s.cfg.threads + c)
  {
    CountZero(s.used);
    if s.active == 0 {
      HeadIn(s.timeouts);
      forall q | 0 <= q < s.cfg.queues ensures s.queues[q] == [] {
        HeadIn(s.queues[q]);
      }
      forall c | 0 <= c < s.cfg.cores ensures s.cur[c] == s.cfg.threads + c {
        assert CoreOk(s, c);
      }
    }
  }
}
