/** The order of the timeout list over whole runs: by wake-up time, and among equal times by
    registration. */
module SchedOrder {
  import opened Sequences
  import opened SchedModel
  import opened SchedInvariant
  import opened SchedRuns
  import opened SchedLaws

  /** Registrations are numbered: the number of each thread's latest one, and the next. */
  datatype Log = Log(stamp: seq<nat>, clock: nat)

  /** The step registers a time-out for the thread of its core. */
  predicate Registers(l: Label) {
    l.DoSleep? && l.state != EXITED && l.timeout != NO_TIMEOUT
  }

  function Noted(s: State, h: Log, l: Label): Log
    requires Shape(s) && Enabled(s, l) && |h.stamp| == |s.tcb|
  {
    if Registers(l) then Log(h.stamp[s.cur[l.core] := h.clock], h.clock + 1) else h
  }

  /** Earlier times are in front, and of equal times the earlier registration. */
  ghost predicate Before(t: Tid, u: Tid, tcb: seq<Tcb>, h: Log)
    requires t < |tcb| == |h.stamp| && u < |tcb|
  {
    || tcb[t].wakeupTime < tcb[u].wakeupTime
    || (tcb[t].wakeupTime == tcb[u].wakeupTime && h.stamp[t] < h.stamp[u])
  }

  ghost predicate Ordered(l: seq<Tid>, tcb: seq<Tcb>, h: Log) {
    && |h.stamp| == |tcb|
    && (forall i :: 0 <= i < |l| ==> l[i] < |tcb| && h.stamp[l[i]] < h.clock)
    && (forall i, j :: 0 <= i < j < |l| ==> Before(l[i], l[j], tcb, h))
  }

  ghost predicate InOrder(s: State, h: Log) {
    Ordered(s.timeouts, s.tcb, h)
  }

  /** The order depends on the listed threads' times only. */
  lemma SameTimes(l: seq<Tid>, a: seq<Tcb>, b: seq<Tcb>, h: Log)
    requires Ordered(l, a, h) && |b| == |a|
    requires forall i :: 0 <= i < |l| ==> b[l[i]].wakeupTime == a[l[i]].wakeupTime
    ensures Ordered(l, b, h)
  {
  }

  lemma RemoveOrdered(l: seq<Tid>, t: Tid, tcb: seq<Tcb>, h: Log)
    requires Ordered(l, tcb, h)
    ensures Ordered(Remove(l, t), tcb, h)
  {
    RemoveIs(l, t);
    if t in l {
      var k, r := IndexOf(l, t), Remove(l, t);
      assert forall i :: 0 <= i < |r| ==> r[i] == l[if i < k then i else i + 1];
    }
  }

  lemma MakeReadyOrder(s: State, t: Tid, h: Log)
    requires Shape(s) && Distinct(s.timeouts) && InOrder(s, h) && t < |s.tcb|
    requires s.tcb[t].wakeupTime == NO_TIMEOUT ==> t !in s.timeouts
    ensures InOrder(MakeReady(s, t), h)
  {
    var r := MakeReady(s, t);
    RemoveOrdered(s.timeouts, t, s.tcb, h);
    assert r.timeouts == if s.tcb[t].wakeupTime != NO_TIMEOUT then Remove(s.timeouts, t) else s.timeouts;
    forall i | 0 <= i < |r.timeouts| ensures r.tcb[r.timeouts[i]].wakeupTime == s.tcb[r.timeouts[i]].wakeupTime {
      assert r.timeouts[i] in r.timeouts;
      assert r.timeouts[i] != t;
    }
    SameTimes(r.timeouts, s.tcb, r.tcb, h);
  }

  lemma {:induction false} ExpireOrder(s: State, now: nat, h: Log)
    requires Inv(s) && InOrder(s, h)
    ensures TimeoutsListed(s) && InOrder(Expire(s, now), h)
    decreases |s.timeouts|
  {
    TimedHaveTimes(s);
    if s.timeouts != [] && s.tcb[s.timeouts[0]].wakeupTime <= now {
      var t := s.timeouts[0];
      HeadReady(s);
      MakeReadyInv(s, t);
      MakeReadyOrder(s, t, h);
      ExpireUnfolds(s, now);
      ExpireOrder(MakeReady(s, t), now, h);
    }
  }

  /** Whoever registers goes behind all that wake no later, and before all others. */
  lemma RegisterOrder(s: State, t: Tid, w: nat, h: Log)
    requires Shape(s) && InOrder(s, h) && t < |s.tcb| && t !in s.timeouts
    ensures InOrder(RegisterTimeout(s, t, w), Log(h.stamp[t := h.clock], h.clock + 1))
  {
    var tcb, l := RegisterTimeout(s, t, w).tcb, s.timeouts;
    assert forall i :: 0 <= i < |l| ==> l[i] in l;
    SameTimes(l, s.tcb, tcb, h);
    SameStamps(l, tcb, h, t);
    InsertOrdered(l, t, w, tcb, Log(h.stamp[t := h.clock], h.clock + 1));
  }

  lemma SameStamps(l: seq<Tid>, tcb: seq<Tcb>, h: Log, t: Tid)
    requires Ordered(l, tcb, h) && t < |tcb| && t !in l
    ensures Ordered(l, tcb, Log(h.stamp[t := h.clock], h.clock + 1))
    ensures forall i :: 0 <= i < |l| ==> h.stamp[t := h.clock][l[i]] < h.clock
  {
    assert forall i :: 0 <= i < |l| ==> l[i] in l;
  }

  lemma OrderedIsSorted(l: seq<Tid>, tcb: seq<Tcb>, h: Log)
    requires Ordered(l, tcb, h)
    ensures SortedBy(l, tcb)
  {
    forall i, j | 0 <= i < j < |l| ensures tcb[l[i]].wakeupTime <= tcb[l[j]].wakeupTime {
      assert Before(l[i], l[j], tcb, h);
    }
  }

  /** Entry `i` of the list with `t` put in at `k`. */
  function At(l: seq<Tid>, k: nat, t: Tid, i: nat): Tid
    requires k <= |l| && i <= |l|
  {
    if i < k then l[i] else if i == k then t else l[i - 1]
  }

  lemma PairBefore(l: seq<Tid>, t: Tid, w: nat, tcb: seq<Tcb>, h: Log, k: nat, i: nat, j: nat)
    requires t < |tcb| == |h.stamp| && tcb[t].wakeupTime == w && k <= |l|
    requires Ordered(l, tcb, h) && forall x :: 0 <= x < |l| ==> h.stamp[l[x]] < h.stamp[t]
    requires forall x :: 0 <= x < |l| ==> (x < k <==> tcb[l[x]].wakeupTime <= w)
    requires i < j <= |l|
    ensures Before(At(l, k, t, i), At(l, k, t, j), tcb, h)
  {
    if i != k && j != k {
      assert Before(l[if i < k then i else i - 1], l[if j < k then j else j - 1], tcb, h);
    }
  }

  lemma InsertOrdered(l: seq<Tid>, t: Tid, w: nat, tcb: seq<Tcb>, h: Log)
    requires t < |tcb| == |h.stamp| && tcb[t].wakeupTime == w && h.clock == h.stamp[t] + 1
    requires Ordered(l, tcb, h) && forall i :: 0 <= i < |l| ==> h.stamp[l[i]] < h.stamp[t]
    ensures var k := InsertPos(tcb, l, w); Ordered(l[..k] + [t] + l[k..], tcb, h)
  {
    var k := InsertPos(tcb, l, w);
    var r := l[..k] + [t] + l[k..];
    InsertedAt(l, k, t);
    OrderedIsSorted(l, tcb, h);
    PlaceSplits(tcb, l, w);
    assert forall i :: 0 <= i < |r| ==> r[i] == At(l, k, t, i);
    forall i, j | 0 <= i < j < |r| ensures Before(r[i], r[j], tcb, h) {
      PairBefore(l, t, w, tcb, h, k, i, j);
    }
  }

  // ---------------------------------------------------------------- the steps

  lemma LeaveOrder(s: State, c: nat, cause: Cause, h: Log)
    requires Inv(s) && c < s.cfg.cores && s.pc[c] != Switching && InOrder(s, h)
    ensures InOrder(Leave(s, c, cause), h)
  {
    SameTimes(s.timeouts, s.tcb, Leave(s, c, cause).tcb, h);
  }

  lemma YieldOrder(s: State, c: nat, cause: Cause, now: nat, h: Log)
    requires Inv(s) && c < s.cfg.cores && s.pc[c] != Switching && InOrder(s, h)
    ensures InOrder(Yield(s, c, cause, now), h)
  {
    var s1 := Leave(s, c, cause);
    LeaveOrder(s, c, cause, h);
    ExpireOrder(s1, now, h);
    SelectKeepsOrder(Tick(s1, now), c, h);
  }

  lemma SelectKeepsOrder(s: State, c: nat, h: Log)
    requires Inv(s) && c < s.cfg.cores && s.pc[c] == Leaving && InOrder(s, h)
    ensures InOrder(Dispatch(s, c), h)
  {
  }

  lemma SleepOrder(s: State, l: Label, h: Log)
    requires Inv(s) && l.DoSleep? && Enabled(s, l) && InOrder(s, h)
    ensures InOrder(Sleep(s, l.core, l.state, l.timeout, l.now), Noted(s, h, l))
  {
    var t := s.cur[l.core];
    var s1 := s.(pc := s.pc[l.core := Leaving], tcb := s.tcb[t := s.tcb[t].(state := l.state)]);
    assert CoreOk(s, l.core);
    assert !Timed(s, t);
    SameTimes(s.timeouts, s.tcb, s1.tcb, h);
    if Registers(l) {
      RegisterOrder(s1, t, WakeAt(l.now, l.timeout), h);
    }
  }

  lemma WakeupOrder(s: State, t: Tid, h: Log)
    requires Inv(s) && InOrder(s, h) && t < s.cfg.threads && s.used[t]
    ensures InOrder(Wakeup(s, t), h)
  {
    assert s.tcb[t].wakeupTime == NO_TIMEOUT ==> !Timed(s, t);
    MakeReadyOrder(s, t, h);
  }

  lemma GainOrder(s: State, c: nat, h: Log)
    requires Inv(s) && InOrder(s, h) && c < s.cfg.cores && s.pc[c] == Switching
    ensures InOrder(Gain(s, c), h)
  {
    SameTimes(s.timeouts, s.tcb, Gain(s, c).tcb, h);
  }

  lemma SpawnOrder(s: State, h: Log)
    requires Inv(s) && InOrder(s, h)
    ensures InOrder(Spawn(s), h)
  {
    forall i | 0 <= i < |s.timeouts| ensures Spawn(s).tcb[s.timeouts[i]] == s.tcb[s.timeouts[i]] {
      assert s.timeouts[i] in s.timeouts;
      assert Timed(s, s.timeouts[i]);
    }
    SameTimes(s.timeouts, s.tcb, Spawn(s).tcb, h);
  }

  lemma StepOrder(s: State, l: Label, h: Log)
    requires Inv(s) && Enabled(s, l) && InOrder(s, h)
    ensures InOrder(Apply(s, l), Noted(s, h, l))
  {
    match l
    case DoWakeup(t) => WakeupOrder(s, t, h);
    case DoSleep(c, st, timeout, now) => SleepOrder(s, l, h);
    case DoYield(c, cause, now) => YieldOrder(s, c, cause, now, h);
    case DoGain(c) => GainOrder(s, c, h);
    case DoSpawn => SpawnOrder(s, h);
  }

  // ---------------------------------------------------------------- over runs

  /** The registrations of a run. */
  ghost function LogOf(s: State, h: Log, ls: seq<Label>): (g: Log)
    requires Inv(s) && Runs(s, ls) && |h.stamp| == |s.tcb|
    ensures |g.stamp| == |s.tcb|
    decreases |ls|
  {
    if ls == [] then h else LogOf(Apply(s, ls[0]), Noted(s, h, ls[0]), ls[1..])
  }

  lemma {:induction false} RunOrder(s: State, h: Log, ls: seq<Label>)
    requires Inv(s) && Runs(s, ls) && InOrder(s, h)
    ensures InOrder(After(s, ls), LogOf(s, h, ls))
    decreases |ls|
  {
    if ls != [] {
      StepOrder(s, ls[0], h);
      RunOrder(Apply(s, ls[0]), Noted(s, h, ls[0]), ls[1..]);
    }
  }

  /** After any run from boot the timeout list is sorted by wake-up time, and sleepers with
      equal times stand in the order in which they registered. */
  lemma TimeoutsInOrder(cfg: Config, ls: seq<Label>)
    requires cfg.Ok() && Runs(Boot(cfg), ls)
    ensures var s := After(Boot(cfg), ls);
      var h := LogOf(Boot(cfg), Log(seq(|s.tcb|, _ => 0), 0), ls);
      forall i, j :: 0 <= i < j < |s.timeouts| ==>
        var t, u := s.timeouts[i], s.timeouts[j];
        || s.tcb[t].wakeupTime < s.tcb[u].wakeupTime
        || (s.tcb[t].wakeupTime == s.tcb[u].wakeupTime && h.stamp[t] < h.stamp[u])
  {
    RunOrder(Boot(cfg), Log(seq(|Boot(cfg).tcb|, _ => 0), 0), ls);
  }
}
