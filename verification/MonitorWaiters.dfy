/** The kernel monitor uses its condition variable as CondVar describes: every step of the
    monitor is a step of CondVar on `kernel_sem_cv`, or none. */
module MonitorWaiters {
  import opened Sequences
  import C = CondVar
  import M = KernelMonitor

  function PhaseOf(p: M.Pc): C.Phase {
    if M.Waiting(p) then C.Blocked else if p == M.Roused then C.Awake else C.Out
  }

  /** `c` is the state of the condition variable in the state `s` of the monitor. */
  ghost predicate Mirrors(s: M.Monitor, c: C.Cond) {
    && C.Shape(c) && c.N() == s.N() && c.ring == s.ring
    && (forall t :: 0 <= t < s.N() ==> c.phase[t] == PhaseOf(s.pc[t]))
    && LockShown(s, c.lock)
  }

  ghost predicate Shows(s: M.Monitor, c: C.Cond) {
    C.Inv(c) && Mirrors(s, c)
  }

  /** Its ring is locked for signalling exactly while some thread is in `cv_signal`. */
  ghost predicate LockShown(s: M.Monitor, l: C.Lock) {
    && (forall t :: 0 <= t < s.N() && s.pc[t].Signalling? ==> l == C.Signalling(false, s.pc[t].found))
    && (l != C.Open ==> exists t :: 0 <= t < s.N() && s.pc[t].Signalling?)
  }

  datatype Option<T> = None | Some(value: T)

  /** The step of the condition variable in a step of the monitor. */
  function StepOf(s: M.Monitor, a: M.Step): Option<C.Step>
    requires M.Enabled(s, a)
  {
    match a
    case Enqueue(t) => Some(C.CvWait(t))
    case Wake(t) => if s.pc[t] == M.Asleep then Some(C.Rouse(t)) else None
    case Tidy(t) => Some(C.Return(t))
    case StartSignal(_) => Some(C.Begin(false))
    case Examine(_) => Some(C.Turn)
    case EndSignal(_) => Some(C.End)
    case _ => None
  }

  lemma OpenLock(s: M.Monitor, c: C.Cond)
    requires Mirrors(s, c) && M.RingFree(s)
    ensures c.lock == C.Open
  {
  }

  /** The locks are shown by the program counters of the threads in `cv_signal`. */
  lemma LockFollows(s: M.Monitor, u: M.Monitor, t: nat, l: C.Lock, m: C.Lock)
    requires t < s.N() == u.N() && LockShown(s, l)
    requires forall x :: 0 <= x < s.N() && x != t ==> !s.pc[x].Signalling? && !u.pc[x].Signalling?
    requires if u.pc[t].Signalling? then m == C.Signalling(false, u.pc[t].found) else m == C.Open
    ensures LockShown(u, m)
  {
  }

  lemma EnqueueFollows(s: M.Monitor, c: C.Cond, t: nat)
    requires M.Inv(s) && Shows(s, c) && M.Enabled(s, M.Enqueue(t))
    ensures C.Enabled(c, C.CvWait(t)) && Shows(M.After(s, M.Enqueue(t)), C.After(c, C.CvWait(t)))
  {
    OpenLock(s, c);
    C.StepInv(c, C.CvWait(t));
  }

  /** Whether the record was removed before or is now, it is off the ring. */
  lemma LeaveRemoves(c: C.Cond, t: nat)
    requires C.Shape(c) && C.RingExact(c) && t < c.N()
    ensures C.Leave(c, t).0.ring == Remove(c.ring, t)
  {
    RemoveIs(c.ring, t);
  }

  lemma TidyShows(s: M.Monitor, c: C.Cond, t: nat, d: C.Cond)
    requires M.RingFree(s) && Mirrors(s, c) && M.Enabled(s, M.Tidy(t))
    requires C.Shape(d) && d.ring == Remove(c.ring, t) && d.phase == c.phase[t := C.Out] && d.lock == c.lock
    ensures Mirrors(M.After(s, M.Tidy(t)), d)
  {
  }

  lemma TidyFollows(s: M.Monitor, c: C.Cond, t: nat)
    requires M.Inv(s) && Shows(s, c) && M.Enabled(s, M.Tidy(t))
    ensures C.Enabled(c, C.Return(t)) && Shows(M.After(s, M.Tidy(t)), C.After(c, C.Return(t)))
  {
    OpenLock(s, c);
    C.StepInv(c, C.Return(t));
    LeaveRemoves(c, t);
    TidyShows(s, c, t, C.After(c, C.Return(t)));
  }

  /** A thread in `cv_signal` has the ring's lock to itself. */
  lemma OnlySignaller(s: M.Monitor, t: nat)
    requires M.OneRingLock(s) && t < s.N() && M.HasRing(s.pc[t])
    ensures forall x :: 0 <= x < s.N() && x != t ==> !M.HasRing(s.pc[x])
  {
  }

  lemma StartFollows(s: M.Monitor, c: C.Cond, t: nat)
    requires M.Inv(s) && Shows(s, c) && M.Enabled(s, M.StartSignal(t))
    ensures C.Enabled(c, C.Begin(false)) && Shows(M.After(s, M.StartSignal(t)), C.After(c, C.Begin(false)))
  {
    OpenLock(s, c);
    C.StepInv(c, C.Begin(false));
    LockFollows(s, M.After(s, M.StartSignal(t)), t, c.lock, C.Signalling(false, false));
  }

  /** The first waiter is not on its way to sleep: it sleeps, or was woken. */
  lemma FirstWaiter(s: M.Monitor, t: nat)
    requires M.RingRight(s) && M.OneRingLock(s) && M.Enabled(s, M.Examine(t))
    ensures var h := s.ring[0]; h != t && (s.pc[h] == M.Asleep || s.pc[h] == M.Roused)
    ensures forall x :: 0 <= x < s.N() && x != t ==> !M.HasRing(s.pc[x])
  {
    OnlySignaller(s, t);
    assert s.ring[0] in s.ring;
  }

  lemma ExamineShows(s: M.Monitor, c: C.Cond, t: nat, d: C.Cond)
    requires Mirrors(s, c) && M.Enabled(s, M.Examine(t)) && C.Shape(d) && C.Enabled(c, C.Turn) && d == C.Examine(c)
    requires s.ring[0] != t && (s.pc[s.ring[0]] == M.Asleep || s.pc[s.ring[0]] == M.Roused)
    requires forall x :: 0 <= x < s.N() && x != t ==> !M.HasRing(s.pc[x])
    ensures Mirrors(M.After(s, M.Examine(t)), d)
  {
    var h, u := s.ring[0], M.After(s, M.Examine(t));
    assert u.ring == d.ring == s.ring[1..];
    assert forall x :: 0 <= x < s.N() && x != t && x != h ==> u.pc[x] == s.pc[x] && d.phase[x] == c.phase[x];
    LockFollows(s, M.After(s, M.Examine(t)), t, c.lock, d.lock);
  }

  lemma ExamineFollows(s: M.Monitor, c: C.Cond, t: nat)
    requires M.Inv(s) && Shows(s, c) && M.Enabled(s, M.Examine(t))
    ensures C.Enabled(c, C.Turn) && Shows(M.After(s, M.Examine(t)), C.After(c, C.Turn))
  {
    FirstWaiter(s, t);
    C.StepInv(c, C.Turn);
    ExamineShows(s, c, t, C.After(c, C.Turn));
  }

  lemma EndFollows(s: M.Monitor, c: C.Cond, t: nat)
    requires M.Inv(s) && Shows(s, c) && M.Enabled(s, M.EndSignal(t))
    ensures C.Enabled(c, C.End) && Shows(M.After(s, M.EndSignal(t)), C.After(c, C.End))
  {
    OnlySignaller(s, t);
    C.StepInv(c, C.End);
    LockFollows(s, M.After(s, M.EndSignal(t)), t, c.lock, C.Open);
  }

  lemma WakeFollows(s: M.Monitor, c: C.Cond, t: nat)
    requires Shows(s, c) && M.Enabled(s, M.Wake(t)) && s.pc[t] == M.Asleep
    ensures C.Enabled(c, C.Rouse(t)) && Shows(M.After(s, M.Wake(t)), C.After(c, C.Rouse(t)))
  {
    C.StepInv(c, C.Rouse(t));
  }

  lemma OtherFollows(s: M.Monitor, c: C.Cond, a: M.Step)
    requires Mirrors(s, c) && M.Enabled(s, a) && StepOf(s, a).None?
    ensures Mirrors(M.After(s, a), c)
  {
    var u := M.After(s, a);
    assert u.ring == s.ring && PhaseOf(u.pc[a.t]) == PhaseOf(s.pc[a.t]);
    assert !u.pc[a.t].Signalling? && !s.pc[a.t].Signalling?;
  }

  /** Each step of the monitor is the step of the condition variable that StepOf names, which
      may be taken there, or leaves the condition variable alone. */
  lemma StepFollows(s: M.Monitor, c: C.Cond, a: M.Step)
    requires M.Inv(s) && Shows(s, c) && M.Enabled(s, a)
    ensures match StepOf(s, a)
            case Some(b) => C.Enabled(c, b) && Shows(M.After(s, a), C.After(c, b))
            case None => Shows(M.After(s, a), c)
  {
    match a
    case Enqueue(t) => EnqueueFollows(s, c, t);
    case Tidy(t) => TidyFollows(s, c, t);
    case StartSignal(t) => StartFollows(s, c, t);
    case Examine(t) => ExamineFollows(s, c, t);
    case EndSignal(t) => EndFollows(s, c, t);
    case Wake(t) =>
      if s.pc[t] == M.Asleep {
        WakeFollows(s, c, t);
      } else {
        OtherFollows(s, c, a);
      }
    case _ => OtherFollows(s, c, a);
  }

  /** The steps of the condition variable in a run of the monitor. */
  function StepsOf(s: M.Monitor, run: seq<M.Step>): seq<C.Step>
    requires M.Runs(s, run)
    decreases |run|
  {
    if run == [] then []
    else (match StepOf(s, run[0]) case Some(b) => [b] case None => []) + StepsOf(M.After(s, run[0]), run[1..])
  }

  /** Every run of the monitor is a run of the condition variable, so its laws hold of the
      waiters for the kernel. */
  lemma {:induction false} RunFollows(s: M.Monitor, c: C.Cond, run: seq<M.Step>)
    requires M.Inv(s) && Shows(s, c) && M.Runs(s, run)
    ensures C.Runs(c, StepsOf(s, run)) && Shows(M.Final(s, run), C.Final(c, StepsOf(s, run)))
    decreases |run|
  {
    if run != [] {
      var a, u := run[0], M.After(s, run[0]);
      M.StepInv(s, a);
      StepFollows(s, c, a);
      match StepOf(s, a)
      case Some(b) =>
        RunFollows(u, C.After(c, b), run[1..]);
        C.RunFromFront(c, b, StepsOf(u, run[1..]));
      case None =>
        RunFollows(u, c, run[1..]);
        assert [] + StepsOf(u, run[1..]) == StepsOf(u, run[1..]);
    }
  }

  lemma StartsTogether(n: nat)
    ensures Shows(M.Initial(n), C.Initial(n))
  {
    C.InitialInv(n);
  }

  // ---------------------------------------------------------------- signals for the kernel

  /** Until thread `t` ends its signal, the only steps on the ring are its own turns and
      wake-ups. */
  lemma SignallingStep(s: M.Monitor, t: nat, a: M.Step)
    requires M.OneRingLock(s) && t < s.N() && s.pc[t].Signalling? && M.Enabled(s, a) && !a.EndSignal?
    ensures M.After(s, a).N() == s.N() && M.After(s, a).pc[t].Signalling?
    ensures StepOf(s, a).Some? ==> StepOf(s, a).value == C.Turn || (a.Wake? && StepOf(s, a).value == C.Rouse(a.t))
  {
    OnlySignaller(s, t);
    M.OthersStay(s, a);
    assert !M.RingFree(s);
  }

  lemma {:induction false} SignallingRun(s: M.Monitor, t: nat, run: seq<M.Step>)
    requires M.Inv(s) && M.Runs(s, run) && t < s.N() && s.pc[t].Signalling?
    requires forall i :: 0 <= i < |run| ==> !run[i].EndSignal?
    ensures C.Racing(StepsOf(s, run)) && M.Final(s, run).N() == s.N() && M.Final(s, run).pc[t].Signalling?
    ensures forall x :: C.Rouse(x) in StepsOf(s, run) ==> M.Wake(x) in run
    decreases |run|
  {
    if run != [] {
      var a, rest := run[0], run[1..];
      SignallingStep(s, t, a);
      M.StepInv(s, a);
      assert forall i :: 0 <= i < |rest| ==> rest[i] == run[i + 1];
      SignallingRun(M.After(s, a), t, rest);
      assert run == [a] + rest;
    }
  }

  /** Thread `x` is asleep on the ring in `s`, and nothing but a signal wakes it in `run`. */
  ghost predicate LeftAsleep(s: M.Monitor, run: seq<M.Step>, x: nat)
    requires x < s.N()
  {
    s.pc[x] == M.Asleep && M.Wake(x) !in run
  }

  /** What a signal did, from `s` to `v`: `k` waiters were taken off the ring. */
  ghost predicate Signalled(s: M.Monitor, run: seq<M.Step>, v: M.Monitor, t: nat, k: nat) {
    && v.N() == s.N() && t < s.N() && v.pc[t].Signalling? && k <= |s.ring| && v.ring == s.ring[k..]
    && (forall i :: 0 <= i < |s.ring| ==> s.ring[i] < s.N())
    && if v.pc[t].found
       then && k > 0 && s.pc[s.ring[k - 1]] == M.Asleep && v.pc[s.ring[k - 1]] == M.Roused
            && (forall i :: 0 <= i < k - 1 ==> !LeftAsleep(s, run, s.ring[i]))
            && (forall x :: 0 <= x < s.N() && x != s.ring[k - 1] && LeftAsleep(s, run, x) ==> v.pc[x] == M.Asleep)
       else k == |s.ring| && forall x :: 0 <= x < s.N() ==> !LeftAsleep(s, run, x)
  }

  /** In the terms of the monitor. */
  lemma SignalShown(s: M.Monitor, c: C.Cond, run: seq<M.Step>, steps: seq<C.Step>, v: M.Monitor, d: C.Cond,
                    t: nat, k: nat)
    requires Mirrors(s, c) && Mirrors(v, d) && M.RingFree(s) && t < s.N() == v.N() && v.pc[t].Signalling?
    requires M.OneRingLock(v)
    requires forall x :: C.Rouse(x) in steps ==> M.Wake(x) in run
    requires k <= |c.ring| && d.ring == c.ring[k..]
    requires d.lock.Signalling? &&
             if d.lock.found
             then && k > 0 && c.phase[c.ring[k - 1]] == C.Blocked && d.phase[c.ring[k - 1]] == C.Awake
                  && (forall i :: 0 <= i < k - 1 ==> !C.LeftAlone(c, steps, c.ring[i]))
                  && (forall x :: 0 <= x < c.N() && x != c.ring[k - 1] && C.LeftAlone(c, steps, x) ==>
                      d.phase[x] == C.Blocked)
             else k == |c.ring| && forall x :: 0 <= x < c.N() ==> !C.LeftAlone(c, steps, x)
    ensures Signalled(s, run, v, t, k)
  {
    OnlySignaller(v, t);
    assert forall x :: 0 <= x < s.N() ==> (M.Waiting(s.pc[x]) <==> s.pc[x] == M.Asleep);
    assert forall x :: 0 <= x < s.N() ==> (M.Waiting(v.pc[x]) <==> v.pc[x] == M.Asleep);
    assert forall x :: 0 <= x < s.N() && LeftAsleep(s, run, x) ==> C.LeftAlone(c, steps, x);
  }

  /** In every run of the kernel lock, whoever gives the kernel up wakes exactly the first
      waiter on the ring that is still asleep when looked at, whatever else happens meanwhile,
      or nobody if none was left asleep. */
  lemma KernelSignal(n: nat, pre: seq<M.Step>, t: nat, run: seq<M.Step>) returns (k: nat)
    requires M.Runs(M.Initial(n), pre) && M.Enabled(M.Final(M.Initial(n), pre), M.StartSignal(t))
    requires M.Runs(M.After(M.Final(M.Initial(n), pre), M.StartSignal(t)), run)
    requires forall i :: 0 <= i < |run| ==> !run[i].EndSignal?
    requires M.Enabled(M.Final(M.After(M.Final(M.Initial(n), pre), M.StartSignal(t)), run), M.EndSignal(t))
    ensures var s := M.Final(M.Initial(n), pre);
            Signalled(s, run, M.Final(M.After(s, M.StartSignal(t)), run), t, k)
  {
    M.InitialInv(n);
    StartsTogether(n);
    M.RunsKeepInv(M.Initial(n), pre);
    RunFollows(M.Initial(n), C.Initial(n), pre);
    k := SignalFollows(M.Final(M.Initial(n), pre), C.Final(C.Initial(n), StepsOf(M.Initial(n), pre)), t, run);
  }

  lemma SignalFollows(s: M.Monitor, c: C.Cond, t: nat, run: seq<M.Step>) returns (k: nat)
    requires M.Inv(s) && Shows(s, c) && M.Enabled(s, M.StartSignal(t))
    requires M.Runs(M.After(s, M.StartSignal(t)), run) && forall i :: 0 <= i < |run| ==> !run[i].EndSignal?
    requires M.Enabled(M.Final(M.After(s, M.StartSignal(t)), run), M.EndSignal(t))
    ensures Signalled(s, run, M.Final(M.After(s, M.StartSignal(t)), run), t, k)
  {
    var u, b := M.After(s, M.StartSignal(t)), C.After(c, C.Begin(false));
    StartFollows(s, c, t);
    M.StepInv(s, M.StartSignal(t));
    RunFollows(u, b, run);
    SignallingRun(u, t, run);
    M.RunsKeepInv(u, run);
    var v, steps := M.Final(u, run), StepsOf(u, run);
    EndFollows(v, C.Final(b, steps), t);
    OpenLock(s, c);
    k := C.SignalLaw(c, steps);
    SignalShown(s, c, run, steps, v, C.Final(b, steps), t, k);
  }
}
