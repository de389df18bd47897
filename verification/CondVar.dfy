/** Condition variables (old/kernel_cc.c): the ring of waiters, its lock, and wake-ups that
    race with signals.  One step per section under the ring's lock or under the scheduler's;
    a timeout or another kernel routine may wake a waiter between any two steps. */
module CondVar {
  import opened Sequences

  /** Of a thread with respect to the condition variable: not in `cv_wait`, asleep in it, or
      woken and not yet past the second half of it. */
  datatype Phase = Out | Blocked | Awake

  /** The lock of the ring: open, or held by a thread in Cond_Signal or Cond_Broadcast, which
      has or has not found a waiter to signal. */
  datatype Lock = Open | Signalling(all: bool, found: bool)

  datatype Cond = Cond(
    ring: seq<nat>,          // the waiters from `waitset` on
    phase: seq<Phase>,
    signalled: seq<bool>, removed: seq<bool>, // flags of the waiter records
    lock: Lock,
    // bookkeeping: order of arrival, waiters signalled, calls of cv_wait that returned 1
    stamp: seq<nat>, clock: nat, hits: nat, trues: nat)
  {
    function N(): nat { |phase| }
  }

  ghost predicate Shape(s: Cond) {
    && |s.signalled| == |s.removed| == |s.stamp| == s.N()
    && forall i :: 0 <= i < |s.ring| ==> s.ring[i] < s.N()
  }

  // ---------------------------------------------------------------- steps

  /** The first half of `cv_wait`: a new record at the end of the ring, and asleep.  The lock
      of the ring is held until the thread sleeps. */
  function Wait(s: Cond, t: nat): Cond
    requires Shape(s) && t < s.N()
  {
    s.(ring := s.ring + [t], phase := s.phase[t := Blocked], signalled := s.signalled[t := false],
       removed := s.removed[t := false], stamp := s.stamp[t := s.clock], clock := s.clock + 1)
  }

  /** The scheduler's `wakeup`: it wakes only a sleeping thread. */
  function WakeUp(s: Cond, t: nat): Cond
    requires Shape(s) && t < s.N()
  {
    if s.phase[t] == Blocked then s.(phase := s.phase[t := Awake]) else s
  }

  /** One turn of the loop of `cv_signal`. */
  function Examine(s: Cond): Cond
    requires Shape(s) && s.ring != []
  {
    var t := s.ring[0];
    var s1 := WakeUp(s.(ring := s.ring[1..], removed := s.removed[t := true]), t);
    if s.phase[t] == Blocked
    then s1.(signalled := s.signalled[t := true], hits := s.hits + 1,
             lock := if s.lock == Open then Open else s.lock.(found := true))
    else s1
  }

  /** The second half of `cv_wait`, which returns whether the record was signalled. */
  function Leave(s: Cond, t: nat): (Cond, bool)
    requires Shape(s) && t < s.N()
  {
    var r := if !s.removed[t] then Remove(s.ring, t) else s.ring;
    (s.(ring := r, phase := s.phase[t := Out], trues := s.trues + if s.signalled[t] then 1 else 0), s.signalled[t])
  }

  datatype Step =
    | CvWait(t: nat)
    | Rouse(t: nat)
    | Begin(all: bool)
    | Turn
    | End
    | Return(t: nat)

  ghost predicate Enabled(s: Cond, a: Step) {
    && Shape(s)
    && match a
       case CvWait(t) => t < s.N() && s.phase[t] == Out && s.lock == Open
       case Rouse(t) => t < s.N()
       case Begin(_) => s.lock == Open
       case Turn => s.lock != Open && s.ring != [] && (s.lock.all || !s.lock.found)
       case End => s.lock != Open && (s.ring == [] || (!s.lock.all && s.lock.found))
       case Return(t) => t < s.N() && s.phase[t] == Awake && s.lock == Open
  }

  ghost function After(s: Cond, a: Step): Cond {
    if !Enabled(s, a) then s
    else match a
      case CvWait(t) => Wait(s, t)
      case Rouse(t) => WakeUp(s, t)
      case Begin(all) => s.(lock := Signalling(all, false))
      case Turn => Examine(s)
      case End => s.(lock := Open)
      case Return(t) => Leave(s, t).0
  }

  ghost function Final(s: Cond, run: seq<Step>): Cond
    decreases |run|
  {
    if run == [] then s else After(Final(s, run[..|run| - 1]), run[|run| - 1])
  }

  ghost predicate Runs(s: Cond, run: seq<Step>)
    decreases |run|
  {
    run == [] || (Runs(s, run[..|run| - 1]) && Enabled(Final(s, run[..|run| - 1]), run[|run| - 1]))
  }

  // ---------------------------------------------------------------- the invariant

  /** The ring holds exactly the records in use that were not removed. */
  ghost predicate RingExact(s: Cond)
    requires Shape(s)
  {
    && Distinct(s.ring)
    && forall t :: 0 <= t < s.N() ==> (t in s.ring <==> s.phase[t] != Out && !s.removed[t])
  }

  /** A sleeping thread is on the ring; a signalled one is awake and off it. */
  ghost predicate FlagsRight(s: Cond)
    requires Shape(s)
  {
    && (forall t :: 0 <= t < s.N() && s.phase[t] == Blocked ==> !s.removed[t] && !s.signalled[t])
    && (forall t :: 0 <= t < s.N() && s.phase[t] == Awake && s.signalled[t] ==> s.removed[t])
  }

  /** The ring is in order of arrival. */
  ghost predicate InOrder(s: Cond)
    requires Shape(s)
  {
    && (forall i, j :: 0 <= i < j < |s.ring| ==> s.stamp[s.ring[i]] < s.stamp[s.ring[j]])
    && (forall i :: 0 <= i < |s.ring| ==> s.stamp[s.ring[i]] < s.clock)
  }

  ghost predicate Owed(s: Cond, t: nat)
    requires Shape(s) && t < s.N()
  {
    s.phase[t] == Awake && s.signalled[t]
  }

  /** The threads before `n` that were signalled and have not returned. */
  ghost function Pending(s: Cond, n: nat): nat
    requires Shape(s) && n <= s.N()
  {
    if n == 0 then 0 else Pending(s, n - 1) + if Owed(s, n - 1) then 1 else 0
  }

  /** Every signal that found a waiter makes one call return 1. */
  ghost predicate Conserved(s: Cond)
    requires Shape(s)
  {
    s.hits == s.trues + Pending(s, s.N())
  }

  ghost predicate Inv(s: Cond) {
    Shape(s) && RingExact(s) && FlagsRight(s) && InOrder(s) && Conserved(s)
  }

  lemma {:induction false} PendingSame(s: Cond, u: Cond, n: nat)
    requires Shape(s) && Shape(u) && n <= s.N() == u.N()
    requires forall t :: 0 <= t < n ==> (Owed(s, t) <==> Owed(u, t))
    ensures Pending(s, n) == Pending(u, n)
  {
    if n > 0 {
      PendingSame(s, u, n - 1);
    }
  }

  lemma {:induction false} PendingChange(s: Cond, u: Cond, t: nat, n: nat)
    requires Shape(s) && Shape(u) && t < n <= s.N() == u.N()
    requires !Owed(s, t) && Owed(u, t) && forall x :: 0 <= x < n && x != t ==> (Owed(s, x) <==> Owed(u, x))
    ensures Pending(u, n) == Pending(s, n) + 1
  {
    if t == n - 1 {
      PendingSame(s, u, n - 1);
    } else {
      PendingChange(s, u, t, n - 1);
    }
  }

  lemma WaitInv(s: Cond, t: nat)
    requires Inv(s) && t < s.N() && s.phase[t] == Out
    ensures Inv(Wait(s, t))
  {
    var u := Wait(s, t);
    assert t !in s.ring;
    forall x | 0 <= x < u.N() ensures x in u.ring <==> u.phase[x] != Out && !u.removed[x] {
      assert x in u.ring <==> x in s.ring || x == t;
    }
    forall i | 0 <= i < |s.ring| ensures s.ring[i] != t {
      assert s.ring[i] in s.ring;
    }
    PendingSame(s, u, s.N());
  }

  lemma RouseInv(s: Cond, t: nat)
    requires Inv(s) && t < s.N()
    ensures Inv(WakeUp(s, t))
  {
    PendingSame(s, WakeUp(s, t), s.N());
  }

  lemma ExamineInv(s: Cond)
    requires Inv(s) && s.ring != []
    ensures Inv(Examine(s))
  {
    var u, t := Examine(s), s.ring[0];
    assert s.ring == [t] + u.ring;
    assert t in s.ring && t !in u.ring;
    forall x | 0 <= x < u.N() ensures x in u.ring <==> u.phase[x] != Out && !u.removed[x] {
      assert x in s.ring <==> x == t || x in u.ring;
    }
    if s.phase[t] == Blocked {
      PendingChange(s, u, t, s.N());
    } else {
      PendingSame(s, u, s.N());
    }
  }

  lemma LeaveInv(s: Cond, t: nat)
    requires Inv(s) && t < s.N() && s.phase[t] == Awake
    ensures Inv(Leave(s, t).0)
  {
    var u := Leave(s, t).0;
    RemoveOrder(s, t);
    assert t !in u.ring;
    if s.signalled[t] {
      PendingChange(u, s, t, s.N());
    } else {
      PendingSame(s, u, s.N());
    }
  }

  ghost predicate Sorted(l: seq<nat>, stamp: seq<nat>) {
    && (forall i :: 0 <= i < |l| ==> l[i] < |stamp|)
    && forall i, j :: 0 <= i < j < |l| ==> stamp[l[i]] < stamp[l[j]]
  }

  lemma RemoveSorted(l: seq<nat>, x: nat, stamp: seq<nat>)
    requires Sorted(l, stamp)
    ensures Sorted(Remove(l, x), stamp)
  {
    RemoveIs(l, x);
    if x in l {
      var k, r := IndexOf(l, x), Remove(l, x);
      assert forall i :: 0 <= i < |r| ==> r[i] == l[if i < k then i else i + 1];
    }
  }

  ghost predicate Below(l: seq<nat>, stamp: seq<nat>, clock: nat) {
    forall i :: 0 <= i < |l| ==> l[i] < |stamp| && stamp[l[i]] < clock
  }

  lemma RemoveBelow(l: seq<nat>, x: nat, stamp: seq<nat>, clock: nat)
    requires Below(l, stamp, clock)
    ensures Below(Remove(l, x), stamp, clock)
  {
    var r := Remove(l, x);
    forall i | 0 <= i < |r| ensures r[i] < |stamp| && stamp[r[i]] < clock {
      var j :| 0 <= j < |l| && l[j] == r[i];
    }
  }

  lemma RemoveOrder(s: Cond, t: nat)
    requires Shape(s) && InOrder(s) && t < s.N()
    ensures Shape(Leave(s, t).0) && InOrder(Leave(s, t).0)
  {
    RemoveSorted(s.ring, t, s.stamp);
    RemoveBelow(s.ring, t, s.stamp, s.clock);
  }

  lemma LockInv(s: Cond, l: Lock)
    requires Inv(s)
    ensures Inv(s.(lock := l))
  {
    PendingSame(s, s.(lock := l), s.N());
  }

  lemma StepInv(s: Cond, a: Step)
    requires Inv(s) && Enabled(s, a)
    ensures Inv(After(s, a))
  {
    match a
    case CvWait(t) => WaitInv(s, t);
    case Rouse(t) => RouseInv(s, t);
    case Begin(all) => LockInv(s, Signalling(all, false));
    case Turn => ExamineInv(s);
    case End => LockInv(s, Open);
    case Return(t) => LeaveInv(s, t);
  }

  function Initial(n: nat): Cond {
    Cond([], seq(n, _ => Out), seq(n, _ => false), seq(n, _ => false), Open, seq(n, _ => 0), 0, 0, 0)
  }

  lemma {:induction false} NothingPending(s: Cond, n: nat)
    requires Shape(s) && n <= s.N() && forall t :: 0 <= t < n ==> !Owed(s, t)
    ensures Pending(s, n) == 0
  {
    if n > 0 {
      NothingPending(s, n - 1);
    }
  }

  lemma InitialInv(n: nat)
    ensures Inv(Initial(n))
  {
    NothingPending(Initial(n), n);
  }

  /** The invariant holds after every run, whatever the interleaving. */
  lemma {:induction false} RunsKeepInv(s: Cond, run: seq<Step>)
    requires Inv(s) && Runs(s, run)
    ensures Inv(Final(s, run))
    decreases |run|
  {
    if run != [] {
      RunsKeepInv(s, run[..|run| - 1]);
      StepInv(Final(s, run[..|run| - 1]), run[|run| - 1]);
    }
  }

  // ---------------------------------------------------------------- what signals do

  /** Steps that may come between the Begin of a signal and its End. */
  ghost predicate Racing(run: seq<Step>) {
    forall i :: 0 <= i < |run| ==> run[i].Rouse? || run[i] == Turn
  }

  /** Thread `t` was asleep when the signal began and nothing else has woken it since. */
  ghost predicate LeftAlone(s0: Cond, run: seq<Step>, t: nat)
    requires t < s0.N()
  {
    s0.phase[t] == Blocked && Rouse(t) !in run
  }

  /** `k` waiters of the ring of `s0` were examined in `run`; the others are still on it. */
  ghost predicate Examined(s0: Cond, run: seq<Step>, s: Cond, k: nat)
    requires Shape(s0)
  {
    && Shape(s) && s.N() == s0.N() && k <= |s0.ring| && s.ring == s0.ring[k..]
    && s.lock != Open && s0.lock != Open && s.lock.all == s0.lock.all
    && (forall i :: 0 <= i < k ==> s.removed[s0.ring[i]] && s.phase[s0.ring[i]] == Awake)
    && Untouched(s0, run, s, k)
  }

  /** The other threads keep their records, and are asleep unless something else woke them. */
  ghost predicate Untouched(s0: Cond, run: seq<Step>, s: Cond, k: nat)
    requires Shape(s0) && Shape(s) && s.N() == s0.N() && k <= |s0.ring|
  {
    forall t :: 0 <= t < s.N() && t !in s0.ring[..k] ==>
      && s.signalled[t] == s0.signalled[t] && s.removed[t] == s0.removed[t]
      && (LeftAlone(s0, run, t) ==> s.phase[t] == Blocked)
      && (s.phase[t] == Blocked ==> s0.phase[t] == Blocked)
  }

  /** Among the first `k`, those signalled were asleep, and the rest had been woken otherwise. */
  ghost predicate FairlyTreated(s0: Cond, run: seq<Step>, s: Cond, k: nat)
    requires Shape(s0) && Shape(s) && s.N() == s0.N() && k <= |s0.ring|
  {
    forall i :: 0 <= i < k ==>
      if s.signalled[s0.ring[i]] then s0.phase[s0.ring[i]] == Blocked else !LeftAlone(s0, run, s0.ring[i])
  }

  /** Nobody among the first `k` was signalled. */
  ghost predicate NoneSignalled(s0: Cond, s: Cond, k: nat)
    requires Shape(s0) && Shape(s) && s.N() == s0.N() && k <= |s0.ring|
  {
    forall i :: 0 <= i < k ==> !s.signalled[s0.ring[i]]
  }

  /** A signal stops at the first waiter it could wake. */
  ghost predicate FirstOnly(s0: Cond, s: Cond, k: nat)
    requires Shape(s0) && Shape(s) && s.N() == s0.N() && k <= |s0.ring|
  {
    if s.lock.Signalling? && s.lock.found
    then k > 0 && NoneSignalled(s0, s, k - 1) && s.signalled[s0.ring[k - 1]]
    else NoneSignalled(s0, s, k)
  }

  ghost predicate Scanned(s0: Cond, run: seq<Step>, s: Cond, k: nat)
    requires Shape(s0)
  {
    && Examined(s0, run, s, k) && FairlyTreated(s0, run, s, k)
    && (!s0.lock.all ==> FirstOnly(s0, s, k))
  }

  lemma NextWaiter(s0: Cond, s: Cond, k: nat)
    requires Shape(s0) && Distinct(s0.ring) && k < |s0.ring| && s.ring == s0.ring[k..]
    ensures s.ring[0] == s0.ring[k] && s.ring[1..] == s0.ring[k + 1..] && s0.ring[k] in s.ring
    ensures s0.ring[..k + 1] == s0.ring[..k] + [s0.ring[k]] && s0.ring[k] !in s0.ring[..k]
    ensures forall i :: 0 <= i < k ==> s0.ring[i] != s0.ring[k]
  {
  }

  lemma SameRoused(run: seq<Step>)
    ensures forall x :: Rouse(x) in run + [Turn] <==> Rouse(x) in run
  {
  }

  lemma TurnUntouched(s0: Cond, run: seq<Step>, s: Cond, k: nat)
    requires Shape(s0) && Shape(s) && s.N() == s0.N() && s.ring != [] && k < |s0.ring| && s.ring[0] == s0.ring[k]
    requires s0.ring[..k + 1] == s0.ring[..k] + [s0.ring[k]] && Untouched(s0, run, s, k) && Shape(Examine(s))
    ensures Untouched(s0, run + [Turn], Examine(s), k + 1)
  {
    SameRoused(run);
    var u, t := Examine(s), s0.ring[k];
    forall x | 0 <= x < u.N() && x !in s0.ring[..k + 1] ensures x !in s0.ring[..k] && x != t {
      assert x in s0.ring[..k + 1] <==> x in s0.ring[..k] || x == t;
    }
    forall x | 0 <= x < u.N() && LeftAlone(s0, run + [Turn], x) ensures LeftAlone(s0, run, x) {
      assert Rouse(x) !in run;
    }
  }

  lemma TurnExamines(s0: Cond, run: seq<Step>, s: Cond, k: nat)
    requires Shape(s0) && Distinct(s0.ring) && Examined(s0, run, s, k) && Enabled(s, Turn) && RingExact(s)
    ensures k < |s0.ring| && Examined(s0, run + [Turn], Examine(s), k + 1)
  {
    NextWaiter(s0, s, k);
    var u, t := Examine(s), s0.ring[k];
    TurnUntouched(s0, run, s, k);
    assert s.phase[t] != Out;
    forall i | 0 <= i < k + 1 ensures u.removed[s0.ring[i]] && u.phase[s0.ring[i]] == Awake {
      assert i == k || (s.removed[s0.ring[i]] && s.phase[s0.ring[i]] == Awake);
    }
  }

  lemma TurnIsFair(s0: Cond, run: seq<Step>, s: Cond, k: nat)
    requires Shape(s0) && Distinct(s0.ring) && Examined(s0, run, s, k) && Enabled(s, Turn)
    requires FairlyTreated(s0, run, s, k) && RingExact(s) && FlagsRight(s)
    ensures k < |s0.ring| && Shape(Examine(s)) && FairlyTreated(s0, run + [Turn], Examine(s), k + 1)
    ensures !s.lock.all && FirstOnly(s0, s, k) ==> FirstOnly(s0, Examine(s), k + 1)
  {
    NextWaiter(s0, s, k);
    SameRoused(run);
    var t := s0.ring[k];
    assert s.phase[t] != Out && !s.removed[t] && !s.signalled[t];
  }

  lemma RouseScans(s0: Cond, run: seq<Step>, s: Cond, k: nat, t: nat)
    requires Shape(s0) && Scanned(s0, run, s, k) && t < s.N()
    ensures Scanned(s0, run + [Rouse(t)], WakeUp(s, t), k)
  {
    assert forall x :: Rouse(x) in run + [Rouse(t)] <==> Rouse(x) in run || x == t;
  }

  /** Whatever races with it, a signal or broadcast works through the ring from its front. */
  lemma {:induction false} Scans(s0: Cond, run: seq<Step>) returns (k: nat)
    requires Inv(s0) && s0.lock.Signalling? && !s0.lock.found && Runs(s0, run) && Racing(run)
    ensures Scanned(s0, run, Final(s0, run), k)
    decreases |run|
  {
    if run == [] {
      k := 0;
    } else {
      var p, a := run[..|run| - 1], run[|run| - 1];
      assert run == p + [a];
      k := Scans(s0, p);
      RunsKeepInv(s0, p);
      k := ScanStep(s0, p, a, Final(s0, p), k);
    }
  }

  lemma ScanStep(s0: Cond, p: seq<Step>, a: Step, s: Cond, k0: nat) returns (k: nat)
    requires Shape(s0) && Distinct(s0.ring) && Scanned(s0, p, s, k0) && Enabled(s, a) && (a.Rouse? || a == Turn)
    requires RingExact(s) && FlagsRight(s)
    ensures Scanned(s0, p + [a], After(s, a), k)
  {
    if a == Turn {
      TurnExamines(s0, p, s, k0);
      TurnIsFair(s0, p, s, k0);
      k := k0 + 1;
    } else {
      RouseScans(s0, p, s, k0, a.t);
      k := k0;
    }
  }

  /** No other thread's flag is set. */
  ghost predicate OnlySignals(s: Cond, t: Cond, w: nat)
    requires Shape(s) && Shape(t) && t.N() == s.N()
  {
    forall x :: 0 <= x < s.N() && x != w && t.signalled[x] ==> s.signalled[x]
  }

  /** Cond_Signal signals exactly the first waiter, in order of arrival, that is still asleep
      when it is looked at, and drops those ahead of it; the rest of the ring stays.  If it
      signals nobody, the ring is empty and nobody was left asleep. */
  lemma SignalLaw(s: Cond, run: seq<Step>) returns (k: nat)
    requires Inv(s) && s.lock == Open && Racing(run)
    requires Enabled(s, Begin(false)) && Runs(After(s, Begin(false)), run)
    requires Enabled(Final(After(s, Begin(false)), run), End)
    ensures var t := Final(After(s, Begin(false)), run);
            && t.N() == s.N() && t.lock.Signalling? && k <= |s.ring| && t.ring == s.ring[k..]
            && if t.lock.found
               then && k > 0 && s.phase[s.ring[k - 1]] == Blocked
                    && t.signalled[s.ring[k - 1]] && t.phase[s.ring[k - 1]] == Awake && OnlySignals(s, t, s.ring[k - 1])
                    && (forall i :: 0 <= i < k - 1 ==>
                          !t.signalled[s.ring[i]] && t.removed[s.ring[i]] && !LeftAlone(s, run, s.ring[i]))
                    && (forall x :: 0 <= x < s.N() && LeftAlone(s, run, x) ==> s.stamp[s.ring[k - 1]] <= s.stamp[x])
                    && (forall x :: 0 <= x < s.N() && x != s.ring[k - 1] && LeftAlone(s, run, x) ==>
                        t.phase[x] == Blocked)
               else && k == |s.ring| && (forall x :: 0 <= x < s.N() ==> !LeftAlone(s, run, x))
                    && (forall x :: 0 <= x < s.N() && t.signalled[x] ==> s.signalled[x])
  {
    var s0 := After(s, Begin(false));
    LockInv(s, Signalling(false, false));
    k := Scans(s0, run);
    var t := Final(s0, run);
    assert forall x :: 0 <= x < s.N() ==> LeftAlone(s, run, x) == LeftAlone(s0, run, x);
    if t.lock.found {
      SignalsOne(s0, run, t, k);
      FirstArrived(s0, run, k);
    } else {
      NobodyLeft(s0, run, t, k);
    }
  }

  lemma SignalsOne(s: Cond, run: seq<Step>, t: Cond, k: nat)
    requires Shape(s) && Scanned(s, run, t, k) && !s.lock.all && t.lock.Signalling? && t.lock.found
    ensures OnlySignals(s, t, s.ring[k - 1]) && s.phase[s.ring[k - 1]] == Blocked
    ensures forall i :: 0 <= i < k - 1 ==> !LeftAlone(s, run, s.ring[i])
    ensures forall x :: 0 <= x < s.N() && x != s.ring[k - 1] && LeftAlone(s, run, x) ==> t.phase[x] == Blocked
  {
    forall x | 0 <= x < s.N() && x != s.ring[k - 1]
      ensures t.signalled[x] ==> s.signalled[x]
      ensures LeftAlone(s, run, x) ==> t.phase[x] == Blocked
    {
      if x in s.ring[..k] {
        var i :| 0 <= i < k && s.ring[i] == x;
        assert !t.signalled[s.ring[i]];
      }
    }
  }

  lemma NobodyLeft(s: Cond, run: seq<Step>, t: Cond, k: nat)
    requires Inv(s) && Scanned(s, run, t, k) && !s.lock.all && t.lock.Signalling? && !t.lock.found && t.ring == []
    ensures k == |s.ring| && forall x :: 0 <= x < s.N() ==> !LeftAlone(s, run, x)
    ensures forall x :: 0 <= x < s.N() && t.signalled[x] ==> s.signalled[x]
  {
    assert k == |s.ring| && s.ring[..k] == s.ring;
    forall x | 0 <= x < s.N() ensures !LeftAlone(s, run, x) && (t.signalled[x] ==> s.signalled[x]) {
      if x in s.ring {
        var i :| 0 <= i < |s.ring| && s.ring[i] == x;
        assert !t.signalled[s.ring[i]];
      } else {
        assert s.phase[x] != Blocked;
      }
    }
  }

  /** Whoever was left asleep arrived no earlier than the last waiter looked at. */
  lemma FirstArrived(s: Cond, run: seq<Step>, k: nat)
    requires Inv(s) && 0 < k <= |s.ring| && forall i :: 0 <= i < k - 1 ==> !LeftAlone(s, run, s.ring[i])
    ensures forall x :: 0 <= x < s.N() && LeftAlone(s, run, x) ==> s.stamp[s.ring[k - 1]] <= s.stamp[x]
  {
    forall x | 0 <= x < s.N() && LeftAlone(s, run, x) ensures s.stamp[s.ring[k - 1]] <= s.stamp[x] {
      assert x in s.ring;
      var i :| 0 <= i < |s.ring| && s.ring[i] == x;
      assert i >= k - 1;
    }
  }

  /** Cond_Broadcast empties the ring, and nobody who was asleep when it began still is: each
      was signalled, or woken by something else meanwhile. */
  lemma BroadcastLaw(s: Cond, run: seq<Step>)
    requires Inv(s) && s.lock == Open && Racing(run)
    requires Enabled(s, Begin(true)) && Runs(After(s, Begin(true)), run)
    requires Enabled(Final(After(s, Begin(true)), run), End)
    ensures var t := Final(After(s, Begin(true)), run);
            && t.ring == [] && t.N() == s.N()
            && forall x :: 0 <= x < s.N() ==>
                 t.phase[x] != Blocked && (LeftAlone(s, run, x) ==> t.phase[x] == Awake && t.signalled[x])
  {
    var s0 := After(s, Begin(true));
    LockInv(s, Signalling(true, false));
    var k := Scans(s0, run);
    var t := Final(s0, run);
    assert forall x :: 0 <= x < s.N() ==> LeftAlone(s, run, x) == LeftAlone(s0, run, x);
    AllTreated(s0, run, t, k);
  }

  lemma AllTreated(s: Cond, run: seq<Step>, t: Cond, k: nat)
    requires Inv(s) && Scanned(s, run, t, k) && t.ring == []
    ensures forall x :: 0 <= x < s.N() ==>
              t.phase[x] != Blocked && (LeftAlone(s, run, x) ==> t.phase[x] == Awake && t.signalled[x])
  {
    assert k == |s.ring| && s.ring[..k] == s.ring;
    forall x | 0 <= x < s.N()
      ensures t.phase[x] != Blocked && (LeftAlone(s, run, x) ==> t.phase[x] == Awake && t.signalled[x])
    {
      if x in s.ring {
        var i :| 0 <= i < |s.ring| && s.ring[i] == x;
        assert t.phase[s.ring[i]] == Awake;
        assert if t.signalled[s.ring[i]] then s.phase[s.ring[i]] == Blocked else !LeftAlone(s, run, s.ring[i]);
      } else {
        assert s.phase[x] != Blocked;
      }
    }
  }

  lemma StillThere(s: Cond, t: nat)
    requires Inv(s) && t < s.N() && s.phase[t] == Awake
    ensures !s.removed[t] ==> t in s.ring && !s.signalled[t]
  {
  }

  /** `cv_wait` returns 1 exactly if it was signalled; a record still on the ring was not, and
      none is left there once the call has returned. */
  lemma ReturnLaw(s: Cond, t: nat)
    requires Inv(s) && Enabled(s, Return(t))
    ensures !s.removed[t] ==> !s.signalled[t]
    ensures var (u, r) := Leave(s, t);
            && (r <==> s.signalled[t]) && t !in u.ring && u.trues == s.trues + (if r then 1 else 0)
            && forall x :: x in u.ring <==> x in s.ring && x != t
  {
  }

  /** No signal is lost or counted twice: after any run, the waiters signalled are the calls
      that returned 1 and those that will. */
  lemma SignalsConserved(n: nat, run: seq<Step>)
    requires Runs(Initial(n), run)
    ensures var t := Final(Initial(n), run); Shape(t) && t.hits == t.trues + Pending(t, t.N())
  {
    InitialInv(n);
    RunsKeepInv(Initial(n), run);
  }

  // ---------------------------------------------------------------- undisturbed signals

  /** The loop of `cv_signal` when no other wake-up races with it. */
  function Signal(s: Cond): Cond
    requires Shape(s)
    decreases |s.ring|
  {
    if s.ring == [] then s
    else if s.phase[s.ring[0]] == Blocked then Examine(s)
    else Signal(Examine(s))
  }

  /** The loop of Cond_Broadcast likewise. */
  function Broadcast(s: Cond): Cond
    requires Shape(s)
    decreases |s.ring|
  {
    if s.ring == [] then s
    else SignalShortens(s); Broadcast(Signal(s))
  }

  lemma {:induction false} SignalShortens(s: Cond)
    requires Shape(s) && s.ring != []
    ensures Shape(Signal(s)) && |Signal(s).ring| < |s.ring|
    decreases |s.ring|
  {
    if s.phase[s.ring[0]] != Blocked && Examine(s).ring != [] {
      SignalShortens(Examine(s));
    }
  }

  lemma {:induction false} RunFromFront(s: Cond, a: Step, run: seq<Step>)
    requires Enabled(s, a) && Runs(After(s, a), run)
    ensures Runs(s, [a] + run) && Final(s, [a] + run) == Final(After(s, a), run)
    decreases |run|
  {
    if run == [] {
      assert ([a] + run)[..0] == [] && Final(s, []) == s;
    } else {
      RunFromFront(s, a, run[..|run| - 1]);
      assert ([a] + run)[..|run|] == [a] + run[..|run| - 1];
    }
  }

  /** An undisturbed signal is a run of turns that may end, so SignalLaw holds of it. */
  lemma {:induction false} SignalIsARun(s: Cond) returns (run: seq<Step>)
    requires Shape(s) && s.lock == Signalling(false, false)
    ensures Racing(run) && Runs(s, run) && Final(s, run) == Signal(s) && Enabled(Signal(s), End)
    decreases |s.ring|
  {
    if s.ring == [] {
      run := [];
    } else if s.phase[s.ring[0]] == Blocked {
      RunFromFront(s, Turn, []);
      run := [Turn] + [];
    } else {
      var r := SignalIsARun(Examine(s));
      RunFromFront(s, Turn, r);
      run := [Turn] + r;
    }
  }
}
