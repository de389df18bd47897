/** The kernel lock (old/kernel_cc.c): a semaphore built as a monitor from `kernel_mutex` and
    the condition variable `kernel_sem_cv`, with the calls that give it up and take it again.
    Each thread is a little program; any interleaving of their sections is a run, and a
    sleeping thread may be woken at any time. */
module KernelMonitor {
  import opened Sequences

  /** What a thread that gives the kernel up does next. */
  datatype Next = Unlocks | Waits | Sleeps

  datatype Pc =
    | Idle                                    // without the kernel
    | Wanting(woken: bool)                    // about to lock kernel_mutex and test the counter
    | Checking(woken: bool)                   // at the test, with kernel_mutex
    | Pushing                                 // on the ring, with kernel_mutex and the ring's lock
    | Pushed                                  // on the ring, with the ring's lock, not yet asleep
    | Asleep                                  // on the ring
    | Roused                                  // woken, before tidying up
    | Holding                                 // with the kernel
    | MustSignal(next: Next)                  // counter raised, with kernel_mutex
    | Signalling(next: Next, found: bool)     // in cv_signal, with both locks
    | Leaving(next: Next)                     // after it, with kernel_mutex
    | Elsewhere(back: bool)                   // asleep in kernel_wait, or in kernel_sleep

  datatype Monitor = Monitor(pc: seq<Pc>, sem: int, ring: seq<nat>)
  {
    function N(): nat { |pc| }
  }

  predicate HasMutex(p: Pc) {
    p.Checking? || p.Pushing? || p.MustSignal? || p.Signalling? || p.Leaving?
  }

  predicate HasRing(p: Pc) {
    p.Pushing? || p.Pushed? || p.Signalling?
  }

  /** kernel_mutex is free. */
  predicate MutexFree(s: Monitor) {
    forall t :: 0 <= t < s.N() ==> !HasMutex(s.pc[t])
  }

  /** The lock of the ring is free. */
  predicate RingFree(s: Monitor) {
    forall t :: 0 <= t < s.N() ==> !HasRing(s.pc[t])
  }

  datatype Step =
    // what threads decide, and wake-ups
    | Call(t: nat)
    | Release(t: nat, next: Next)
    | Wake(t: nat)
    // what they do on the way
    | Lock(t: nat)
    | Take(t: nat)
    | Enqueue(t: nat)
    | Unlock(t: nat)
    | FallAsleep(t: nat)
    | Tidy(t: nat)
    | StartSignal(t: nat)
    | Examine(t: nat)
    | EndSignal(t: nat)
    | Leave(t: nat)

  predicate Internal(a: Step) {
    !a.Call? && !a.Release? && !a.Wake?
  }

  predicate Enabled(s: Monitor, a: Step) {
    && a.t < s.N()
    && var p := s.pc[a.t];
       match a
       case Call(_) => p == Idle
       case Release(_, _) => p == Holding && MutexFree(s)
       case Wake(_) => p == Asleep || p.Elsewhere?
       case Lock(_) => p.Wanting? && MutexFree(s)
       case Take(_) => p.Checking? && s.sem > 0
       case Enqueue(_) => p.Checking? && s.sem <= 0 && RingFree(s)
       case Unlock(_) => p == Pushing
       case FallAsleep(_) => p == Pushed
       case Tidy(_) => p == Roused && RingFree(s)
       case StartSignal(_) => p.MustSignal? && RingFree(s)
       case Examine(_) => p.Signalling? && !p.found && s.ring != [] && s.ring[0] < s.N()
       case EndSignal(_) => p.Signalling? && (p.found || s.ring == [])
       case Leave(_) => p.Leaving?
  }

  function Goes(s: Monitor, t: nat, p: Pc): Monitor
    requires t < s.N()
  {
    s.(pc := s.pc[t := p])
  }

  /** One turn of the loop of `cv_signal`. */
  function ExamineFirst(s: Monitor, t: nat): Monitor
    requires Enabled(s, Examine(t))
  {
    var h, s1 := s.ring[0], s.(ring := s.ring[1..]);
    if s.pc[h] == Asleep then Goes(Goes(s1, h, Roused), t, Signalling(s.pc[t].next, true)) else s1
  }

  function After(s: Monitor, a: Step): Monitor
    requires Enabled(s, a)
  {
    var p := s.pc[a.t];
    match a
    case Call(t) => Goes(s, t, Wanting(false))
    case Release(t, next) => Goes(s.(sem := s.sem + 1), t, MustSignal(next))
    case Wake(t) => Goes(s, t, if p == Asleep then Roused else if p.back then Wanting(false) else Idle)
    case Lock(t) => Goes(s, t, Checking(p.woken))
    case Take(t) => Goes(s.(sem := s.sem - 1), t, Holding)
    case Enqueue(t) => Goes(s.(ring := s.ring + [t]), t, Pushing)
    case Unlock(t) => Goes(s, t, Pushed)
    case FallAsleep(t) => Goes(s, t, Asleep)
    case Tidy(t) => Goes(s.(ring := Remove(s.ring, t)), t, Wanting(true))
    case StartSignal(t) => Goes(s, t, Signalling(p.next, false))
    case Examine(t) => ExamineFirst(s, t)
    case EndSignal(t) => Goes(s, t, Leaving(p.next))
    case Leave(t) => Goes(s, t, if p.next == Unlocks then Idle else Elsewhere(p.next == Waits))
  }

  // ---------------------------------------------------------------- the invariant

  /** The threads before `n` with the kernel. */
  function Holders(s: Monitor, n: nat): nat
    requires n <= s.N()
  {
    if n == 0 then 0 else Holders(s, n - 1) + if s.pc[n - 1] == Holding then 1 else 0
  }

  /** The counter and the holders of the kernel make one. */
  predicate Counted(s: Monitor) {
    s.sem >= 0 && s.sem + Holders(s, s.N()) == 1
  }

  predicate OneMutex(s: Monitor) {
    forall t, u :: 0 <= t < u < s.N() ==> !(HasMutex(s.pc[t]) && HasMutex(s.pc[u]))
  }

  predicate OneRingLock(s: Monitor) {
    forall t, u :: 0 <= t < u < s.N() ==> !(HasRing(s.pc[t]) && HasRing(s.pc[u]))
  }

  /** In the first half of `cv_wait`, or asleep in it. */
  predicate Waiting(p: Pc) {
    p == Pushing || p == Pushed || p == Asleep
  }

  /** Waiting threads are on the ring, and only they and those just woken are. */
  ghost predicate RingRight(s: Monitor) {
    && Distinct(s.ring)
    && (forall t :: t in s.ring ==> t < s.N() && (Waiting(s.pc[t]) || s.pc[t] == Roused))
    && (forall t :: 0 <= t < s.N() && Waiting(s.pc[t]) ==> t in s.ring)
  }

  /** A thread that was woken and has yet to test the counter, or one that raised it and has
      yet to look for a thread to wake. */
  predicate Concerned(p: Pc) {
    || p == Roused || p == Wanting(true) || p == Checking(true)
    || p.MustSignal? || (p.Signalling? && !p.found)
  }

  ghost predicate SomeoneConcerned(s: Monitor) {
    exists t :: 0 <= t < s.N() && Concerned(s.pc[t])
  }

  /** The lock is never stuck: while the kernel is free and a thread waits for it, another is
      about to see to that. */
  ghost predicate NotStuck(s: Monitor) {
    s.sem > 0 && (exists t :: 0 <= t < s.N() && Waiting(s.pc[t])) ==> SomeoneConcerned(s)
  }

  ghost predicate Inv(s: Monitor) {
    Counted(s) && OneMutex(s) && OneRingLock(s) && RingRight(s) && NotStuck(s)
  }

  function Initial(n: nat): Monitor {
    Monitor(seq(n, _ => Idle), 1, [])
  }

  lemma {:induction false} NoHolders(s: Monitor, n: nat)
    requires n <= s.N() && forall t :: 0 <= t < n ==> s.pc[t] != Holding
    ensures Holders(s, n) == 0
  {
    if n > 0 {
      NoHolders(s, n - 1);
    }
  }

  lemma InitialInv(n: nat)
    ensures Inv(Initial(n))
  {
    NoHolders(Initial(n), n);
  }

  /** One thread comes or goes. */
  lemma {:induction false} HoldersChange(s: Monitor, u: Monitor, t: nat, n: nat)
    requires n <= s.N() == u.N() && forall x :: 0 <= x < n && x != t ==> (s.pc[x] == Holding <==> u.pc[x] == Holding)
    ensures t >= n || (s.pc[t] == Holding <==> u.pc[t] == Holding) ==> Holders(u, n) == Holders(s, n)
    ensures t < n && s.pc[t] != Holding && u.pc[t] == Holding ==> Holders(u, n) == Holders(s, n) + 1
    ensures t < n && s.pc[t] == Holding && u.pc[t] != Holding ==> Holders(u, n) == Holders(s, n) - 1
  {
    if n > 0 {
      HoldersChange(s, u, t, n - 1);
    }
  }

  lemma StepCounts(s: Monitor, a: Step)
    requires Enabled(s, a) && Counted(s)
    ensures After(s, a).N() == s.N() && Counted(After(s, a))
  {
    HoldersChange(s, After(s, a), a.t, s.N());
  }

  /** A step changes the program counter of its thread; `cv_signal` may also wake another. */
  lemma OthersStay(s: Monitor, a: Step)
    requires Enabled(s, a)
    ensures var t := After(s, a);
            && t.N() == s.N()
            && forall u :: 0 <= u < s.N() && u != a.t ==>
                 t.pc[u] == s.pc[u] || (a.Examine? && u == s.ring[0] && s.pc[u] == Asleep && t.pc[u] == Roused)
  {
  }

  lemma StepMutex(s: Monitor, a: Step)
    requires Enabled(s, a) && OneMutex(s)
    ensures OneMutex(After(s, a))
  {
    OthersStay(s, a);
    var u := After(s, a);
    assert HasMutex(u.pc[a.t]) ==> HasMutex(s.pc[a.t]) || MutexFree(s);
    assert forall x :: 0 <= x < s.N() && x != a.t && HasMutex(u.pc[x]) ==> HasMutex(s.pc[x]);
  }

  lemma StepRingLock(s: Monitor, a: Step)
    requires Enabled(s, a) && OneRingLock(s)
    ensures OneRingLock(After(s, a))
  {
    OthersStay(s, a);
    var u := After(s, a);
    assert HasRing(u.pc[a.t]) ==> HasRing(s.pc[a.t]) || RingFree(s);
    assert forall x :: 0 <= x < s.N() && x != a.t && HasRing(u.pc[x]) ==> HasRing(s.pc[x]);
  }

  predicate OnRing(p: Pc) {
    Waiting(p) || p == Roused
  }

  /** Most steps leave the ring, and their thread on it or off it. */
  lemma StepRingSame(s: Monitor, a: Step)
    requires Enabled(s, a) && RingRight(s) && !a.Enqueue? && !a.Tidy? && !a.Examine?
    ensures RingRight(After(s, a))
  {
    var u := After(s, a);
    assert u.ring == s.ring && forall x :: 0 <= x < s.N() && x != a.t ==> u.pc[x] == s.pc[x];
    assert OnRing(s.pc[a.t]) ==> OnRing(u.pc[a.t]);
    assert Waiting(u.pc[a.t]) ==> Waiting(s.pc[a.t]);
  }

  lemma EnqueueRing(s: Monitor, t: nat)
    requires Enabled(s, Enqueue(t)) && RingRight(s)
    ensures RingRight(After(s, Enqueue(t)))
  {
    var u := After(s, Enqueue(t));
    assert t !in s.ring;
    assert forall x :: x in u.ring <==> x in s.ring || x == t;
  }

  lemma TidyRing(s: Monitor, t: nat)
    requires Enabled(s, Tidy(t)) && RingRight(s)
    ensures RingRight(After(s, Tidy(t)))
  {
  }

  lemma ExamineRing(s: Monitor, t: nat)
    requires Enabled(s, Examine(t)) && RingRight(s) && OneRingLock(s)
    ensures RingRight(After(s, Examine(t)))
  {
    var u, h := After(s, Examine(t)), s.ring[0];
    assert s.ring == [h] + u.ring && h in s.ring && h !in u.ring;
    assert h != t && !HasRing(s.pc[h]);
    forall x | x in u.ring ensures x < u.N() && OnRing(u.pc[x]) {
      assert x in s.ring && x != h && x != t;
    }
    forall x | 0 <= x < u.N() && Waiting(u.pc[x]) ensures x in u.ring {
      assert x != h && x != t && Waiting(s.pc[x]);
      assert x in s.ring;
    }
  }

  lemma StepRing(s: Monitor, a: Step)
    requires Enabled(s, a) && RingRight(s) && OneRingLock(s)
    ensures RingRight(After(s, a))
  {
    match a
    case Enqueue(t) => EnqueueRing(s, t);
    case Tidy(t) => TidyRing(s, t);
    case Examine(t) => ExamineRing(s, t);
    case _ => StepRingSame(s, a);
  }

  /** Concern passes from thread to thread until the counter is taken. */
  lemma ConcernStays(s: Monitor, a: Step, c: nat)
    requires Enabled(s, a) && c < s.N() && Concerned(s.pc[c]) && RingRight(s)
    requires After(s, a).sem > 0 && !(a.EndSignal? && c == a.t)
    requires !a.Take? && !a.Enqueue?
    ensures SomeoneConcerned(After(s, a))
  {
    var u := After(s, a);
    OthersStay(s, a);
    if a.Examine? && s.pc[s.ring[0]] == Asleep {
      assert u.pc[s.ring[0]] == Roused;
    } else {
      assert Concerned(u.pc[c]);
    }
  }

  lemma StepNotStuck(s: Monitor, a: Step)
    requires Enabled(s, a) && RingRight(s) && NotStuck(s) && Counted(s) && OneMutex(s)
    ensures NotStuck(After(s, a))
  {
    var u := After(s, a);
    OthersStay(s, a);
    if u.sem > 0 && exists t :: 0 <= t < u.N() && Waiting(u.pc[t]) {
      var w :| 0 <= w < u.N() && Waiting(u.pc[w]);
      AtMostOne(s);
      if a.Release? {
        assert Concerned(u.pc[a.t]);
      } else {
        assert Waiting(s.pc[w]);
        var c :| 0 <= c < s.N() && Concerned(s.pc[c]);
        ConcernStays(s, a, c);
      }
    }
  }

  lemma AtMostOne(s: Monitor)
    requires Counted(s)
    ensures s.sem <= 1
  {
  }

  lemma StepInv(s: Monitor, a: Step)
    requires Inv(s) && Enabled(s, a)
    ensures Inv(After(s, a))
  {
    StepCounts(s, a);
    StepMutex(s, a);
    StepRingLock(s, a);
    StepRing(s, a);
    StepNotStuck(s, a);
  }

  // ---------------------------------------------------------------- runs

  predicate Runs(s: Monitor, run: seq<Step>)
    decreases |run|
  {
    run == [] || (Enabled(s, run[0]) && Runs(After(s, run[0]), run[1..]))
  }

  function Final(s: Monitor, run: seq<Step>): Monitor
    requires Runs(s, run)
    decreases |run|
  {
    if run == [] then s else Final(After(s, run[0]), run[1..])
  }

  lemma {:induction false} RunsKeepInv(s: Monitor, run: seq<Step>)
    requires Inv(s) && Runs(s, run)
    ensures Inv(Final(s, run))
    decreases |run|
  {
    if run != [] {
      StepInv(s, run[0]);
      RunsKeepInv(After(s, run[0]), run[1..]);
    }
  }

  lemma {:induction false} HoldersGrow(s: Monitor, m: nat, n: nat)
    requires m <= n <= s.N()
    ensures Holders(s, m) <= Holders(s, n)
  {
    if m < n {
      HoldersGrow(s, m, n - 1);
    }
  }

  lemma CountedExcludes(s: Monitor)
    requires Counted(s)
    ensures forall x, y :: 0 <= x < y < s.N() ==> !(s.pc[x] == Holding && s.pc[y] == Holding)
    ensures s.sem == 1 <==> forall x :: 0 <= x < s.N() ==> s.pc[x] != Holding
  {
    forall x | 0 <= x < s.N() && s.pc[x] == Holding ensures Holders(s, s.N()) >= Holders(s, x) + 1 {
      HoldersGrow(s, x + 1, s.N());
    }
    forall x, y | 0 <= x < y < s.N() ensures !(s.pc[x] == Holding && s.pc[y] == Holding) {
      HoldersGrow(s, x + 1, y);
    }
    if forall x :: 0 <= x < s.N() ==> s.pc[x] != Holding {
      NoHolders(s, s.N());
    }
  }

  /** From the start, whatever the interleaving: at most one thread has the kernel, and nobody
      does exactly while the counter is one. */
  lemma MutualExclusion(n: nat, run: seq<Step>)
    requires Runs(Initial(n), run)
    ensures var t := Final(Initial(n), run);
            && 0 <= t.sem <= 1
            && (forall x, y :: 0 <= x < y < t.N() ==> !(t.pc[x] == Holding && t.pc[y] == Holding))
            && (t.sem == 1 <==> forall x :: 0 <= x < t.N() ==> t.pc[x] != Holding)
  {
    InitialInv(n);
    RunsKeepInv(Initial(n), run);
    CountedExcludes(Final(Initial(n), run));
  }

  // ---------------------------------------------------------------- progress

  /** Outside the lock's code, or asleep. */
  predicate Quiet(p: Pc) {
    p == Idle || p == Holding || p == Asleep || p.Elsewhere?
  }

  /** What a thread with the ring's lock, or with kernel_mutex while that is free, can do. */
  function NextStep(s: Monitor, t: nat): Step
    requires t < s.N()
  {
    match s.pc[t]
    case Wanting(_) => Lock(t)
    case Checking(_) => if s.sem > 0 then Take(t) else Enqueue(t)
    case Pushing => Unlock(t)
    case Pushed => FallAsleep(t)
    case Roused => Tidy(t)
    case MustSignal(_) => StartSignal(t)
    case Signalling(_, found) => if found || s.ring == [] then EndSignal(t) else Examine(t)
    case _ => Leave(t)
  }

  /** No deadlock: unless all threads are outside or asleep, one of them can go on. */
  lemma NoDeadlock(s: Monitor, t: nat) returns (a: Step)
    requires RingRight(s) && t < s.N() && !Quiet(s.pc[t])
    ensures Internal(a) && Enabled(s, a)
  {
    assert s.ring == [] || s.ring[0] in s.ring;
    if h :| 0 <= h < s.N() && HasRing(s.pc[h]) {
      a := NextStep(s, h);
    } else if h :| 0 <= h < s.N() && HasMutex(s.pc[h]) {
      a := NextStep(s, h);
    } else {
      a := NextStep(s, t);
    }
  }

  /** Waiting for the kernel, or woken to take it. */
  predicate Contends(p: Pc) {
    Waiting(p) || p == Roused || p.Wanting? || p.Checking?
  }

  ghost predicate SomeoneContends(s: Monitor) {
    exists t :: 0 <= t < s.N() && Contends(s.pc[t])
  }

  /** While the kernel is free and a thread contends for it, some thread can go on. */
  lemma FreeKernelMoves(s: Monitor) returns (a: Step)
    requires Inv(s) && s.sem > 0 && SomeoneContends(s)
    ensures Internal(a) && Enabled(s, a)
  {
    var t :| 0 <= t < s.N() && Contends(s.pc[t]);
    if s.pc[t] == Asleep {
      t :| 0 <= t < s.N() && Concerned(s.pc[t]);
    }
    a := NoDeadlock(s, t);
  }

  function Rank(p: Pc): nat {
    match p
    case Roused => 3
    case Wanting(_) => 2
    case Checking(_) => 1
    case Pushing => 2
    case Pushed => 1
    case MustSignal(_) => 3
    case Signalling(_, _) => 2
    case Leaving(_) => 1
    case _ => 0
  }

  function RankSum(s: Monitor, n: nat): nat
    requires n <= s.N()
  {
    if n == 0 then 0 else RankSum(s, n - 1) + Rank(s.pc[n - 1])
  }

  /** A bound on the steps until the kernel is taken. */
  function Measure(s: Monitor): nat {
    RankSum(s, s.N()) + 4 * |s.ring|
  }

  lemma {:induction false} RankChange(s: Monitor, t: nat, p: Pc, n: nat)
    requires n <= s.N() && t < s.N()
    ensures RankSum(Goes(s, t, p), n) == RankSum(s, n) + if t < n then Rank(p) - Rank(s.pc[t]) else 0
  {
    if n > 0 {
      RankChange(s, t, p, n - 1);
    }
  }

  lemma {:induction false} RankSame(s: Monitor, u: Monitor, n: nat)
    requires s.pc == u.pc && n <= s.N()
    ensures RankSum(s, n) == RankSum(u, n)
  {
    if n > 0 {
      RankSame(s, u, n - 1);
    }
  }

  lemma MeasureGoes(s: Monitor, ring: seq<nat>, t: nat, p: Pc)
    requires t < s.N()
    ensures Measure(Goes(s.(ring := ring), t, p)) == Measure(s) + Rank(p) - Rank(s.pc[t]) + 4 * (|ring| - |s.ring|)
  {
    RankSame(s, s.(ring := ring), s.N());
    RankChange(s.(ring := ring), t, p, s.N());
  }

  /** Every step on the way gets closer to the kernel being taken. */
  lemma StepDescends(s: Monitor, a: Step)
    requires Enabled(s, a) && Internal(a) && !a.Take? && s.sem > 0
    ensures Measure(After(s, a)) < Measure(s) && After(s, a).sem == s.sem
  {
    if a.Examine? {
      ExamineDescends(s, a.t);
    } else {
      RemoveIs(s.ring, a.t);
      MeasureGoes(s, After(s, a).ring, a.t, After(s, a).pc[a.t]);
    }
  }

  lemma ExamineDescends(s: Monitor, t: nat)
    requires Enabled(s, Examine(t))
    ensures Measure(After(s, Examine(t))) < Measure(s)
  {
    var h, r := s.ring[0], s.(ring := s.ring[1..]);
    RankSame(s, r, s.N());
    if s.pc[h] == Asleep {
      RankChange(r, h, Roused, s.N());
      RankChange(Goes(r, h, Roused), t, Signalling(s.pc[t].next, true), s.N());
    }
  }

  /** What a step from outside may add to the way: a woken thread has it all before it, a
      caller the lock and the test. */
  function Added(a: Step): nat {
    match a
    case Wake(_) => 3
    case Call(_) => 2
    case _ => 0
  }

  lemma OutsideStep(s: Monitor, a: Step)
    requires Enabled(s, a) && (a.Call? || a.Wake?)
    ensures Measure(After(s, a)) <= Measure(s) + Added(a) && After(s, a).sem == s.sem
  {
    RankChange(s, a.t, After(s, a).pc[a.t], s.N());
  }

  /** While the kernel is free it cannot be released, and every step of a thread on its way
      that does not take it gets closer to that. */
  lemma FreeStep(s: Monitor, a: Step)
    requires Inv(s) && s.sem > 0 && Enabled(s, a) && !a.Take?
    ensures After(s, a).sem == s.sem
    ensures Measure(After(s, a)) + (if Internal(a) then 1 else 0) <= Measure(s) + Added(a)
  {
    CountedExcludes(s);
    AtMostOne(s);
    if Internal(a) {
      StepDescends(s, a);
    } else {
      OutsideStep(s, a);
    }
  }

  /** The steps of a run that threads take on their way. */
  function OwnSteps(run: seq<Step>): nat {
    if run == [] then 0 else (if Internal(run[0]) then 1 else 0) + OwnSteps(run[1..])
  }

  /** What the calls and wake-ups of a run add. */
  function AllAdded(run: seq<Step>): nat {
    if run == [] then 0 else Added(run[0]) + AllAdded(run[1..])
  }

  predicate Takes(run: seq<Step>) {
    exists i :: 0 <= i < |run| && run[i].Take?
  }

  /** In every run from a state with a free kernel, whatever new calls and wake-ups come in
      between, the kernel is taken by the time the threads have taken Measure(s) steps and one
      more, not counting 3 for each wake-up and 2 for each call since; */
  lemma {:induction false} TakenInTime(s: Monitor, run: seq<Step>)
    requires Inv(s) && s.sem > 0 && Runs(s, run) && OwnSteps(run) > Measure(s) + AllAdded(run)
    ensures Takes(run)
    decreases |run|
  {
    var a, rest := run[0], run[1..];
    if !a.Take? {
      FreeStep(s, a);
      StepInv(s, a);
      TakenInTime(After(s, a), rest);
      var i :| 0 <= i < |rest| && rest[i].Take?;
      assert run[i + 1].Take?;
    }
  }

  lemma ContentionStays(s: Monitor, a: Step)
    requires Inv(s) && s.sem > 0 && Enabled(s, a) && !a.Take? && SomeoneContends(s)
    ensures SomeoneContends(After(s, a))
  {
    CountedExcludes(s);
    AtMostOne(s);
    OthersStay(s, a);
    var t :| 0 <= t < s.N() && Contends(s.pc[t]);
    assert Contends(After(s, a).pc[t]);
  }

  /** and as long as it is not taken, some thread on its way can go on. */
  lemma {:induction false} NeverStuckBefore(s: Monitor, run: seq<Step>) returns (a: Step)
    requires Inv(s) && s.sem > 0 && SomeoneContends(s) && Runs(s, run) && !Takes(run)
    ensures Internal(a) && Enabled(Final(s, run), a)
    decreases |run|
  {
    if run == [] {
      a := FreeKernelMoves(s);
    } else {
      assert !run[0].Take?;
      StepInv(s, run[0]);
      FreeStep(s, run[0]);
      ContentionStays(s, run[0]);
      assert forall i :: 0 <= i < |run[1..]| ==> run[1..][i] == run[i + 1];
      a := NeverStuckBefore(After(s, run[0]), run[1..]);
    }
  }

  // ---------------------------------------------------------------- the window

  ghost predicate Reaches(s: Monitor, v: Monitor) {
    exists run :: Runs(s, run) && Final(s, run) == v
  }

  lemma Then(s: Monitor, a: Step, u: Monitor, v: Monitor)
    requires Enabled(s, a) && After(s, a) == u && Reaches(u, v)
    ensures Reaches(s, v)
  {
    var run :| Runs(u, run) && Final(u, run) == v;
    assert ([a] + run)[1..] == run;
    assert Runs(s, [a] + run) && Final(s, [a] + run) == v;
  }

  /** Woken by a signal or otherwise, and yet to test the counter. */
  predicate Woken(p: Pc) {
    p == Roused || p == Wanting(true) || p == Checking(true)
  }

  /** While kernel_mutex is free, woken threads do suffice: a free kernel with a waiting thread
      has a woken one. */
  lemma WokenWhileMutexFree(s: Monitor)
    requires Inv(s) && MutexFree(s) && s.sem > 0 && exists t :: 0 <= t < s.N() && Waiting(s.pc[t])
    ensures exists t :: 0 <= t < s.N() && Woken(s.pc[t])
  {
    var t :| 0 <= t < s.N() && Concerned(s.pc[t]);
    assert Woken(s.pc[t]);
  }

  const BOTH := Monitor([MustSignal(Unlocks), Asleep, Roused], 1, [1, 2])

  /** That is not the only time: a thread may be woken by something else while the signaller
      holds kernel_mutex. */
  lemma WokenBesideSignaller()
    ensures Inv(BOTH) && !MutexFree(BOTH) && Waiting(BOTH.pc[1]) && Woken(BOTH.pc[2])
  {
    NoHolders(BOTH, 3);
    assert HasMutex(BOTH.pc[0]) && Concerned(BOTH.pc[0]);
  }

  const WINDOW := Monitor([MustSignal(Unlocks), Asleep], 1, [1])

  lemma SecondSleeps()
    ensures Reaches(Monitor([Holding, Pushing], 0, [1]), WINDOW)
  {
    var s7, s8 := Monitor([Holding, Pushed], 0, [1]), Monitor([Holding, Asleep], 0, [1]);
    assert Runs(WINDOW, []) && Final(WINDOW, []) == WINDOW;
    Then(s8, Release(0, Unlocks), WINDOW, WINDOW);
    Then(s7, FallAsleep(1), s8, WINDOW);
    Then(Monitor([Holding, Pushing], 0, [1]), Unlock(1), s7, WINDOW);
  }

  lemma SecondCalls()
    ensures Reaches(Monitor([Holding, Idle], 0, []), WINDOW)
  {
    var s4, s5 := Monitor([Holding, Wanting(false)], 0, []), Monitor([Holding, Checking(false)], 0, []);
    SecondSleeps();
    Then(s5, Enqueue(1), Monitor([Holding, Pushing], 0, [1]), WINDOW);
    Then(s4, Lock(1), s5, WINDOW);
    Then(Monitor([Holding, Idle], 0, []), Call(1), s4, WINDOW);
  }

  lemma FirstCalls()
    ensures Reaches(Monitor([Wanting(false), Idle], 1, []), WINDOW)
  {
    var s2 := Monitor([Checking(false), Idle], 1, []);
    SecondCalls();
    Then(s2, Take(0), Monitor([Holding, Idle], 0, []), WINDOW);
    Then(Monitor([Wanting(false), Idle], 1, []), Lock(0), s2, WINDOW);
  }

  lemma FromTheStart()
    ensures Reaches(Initial(2), WINDOW)
  {
    FirstCalls();
    assert Initial(2) == Monitor([Idle, Idle], 1, []);
    Then(Initial(2), Call(0), Monitor([Wanting(false), Idle], 1, []), WINDOW);
  }

  /** Woken threads alone do not suffice in NotStuck: in a reachable state the kernel is free, a
      thread sleeps and none was woken; the one that gave the kernel up has yet to signal. */
  lemma SignallerWindow()
    ensures Reaches(Initial(2), WINDOW) && WINDOW.sem == 1 && WINDOW.pc[1] == Asleep
    ensures forall x :: 0 <= x < WINDOW.N() ==> !Woken(WINDOW.pc[x])
  {
    FromTheStart();
  }
}
