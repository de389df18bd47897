/** With what the calls of the kernel lock (old/kernel_cc.c) return: `kernel_lock` and
    `kernel_wait` with the kernel, `kernel_unlock` and `kernel_sleep` without it.  All laws are
    about the order of a thread's steps in a run of KernelMonitor. */
module MonitorReturns {
  import opened KernelMonitor

  /** What a thread's last step of interest leaves it in: a call that returns with the kernel;
      possession of it; a call that returns without it, or no call; and the part of
      `kernel_wait` or `kernel_sleep` up to its wake-up. */
  datatype Phase = Owed | Owns | Parted | Away(call: Next)

  /** In a call that returns with the kernel. */
  predicate IsOwed(p: Pc) {
    match p
    case Idle => false
    case Holding => false
    case MustSignal(next) => next == Waits
    case Signalling(next, _) => next == Waits
    case Leaving(next) => next == Waits
    case Elsewhere(back) => back
    case _ => true
  }

  /** In the first half of this call, up to the wake-up it waits for. */
  predicate IsAway(p: Pc, call: Next) {
    match p
    case MustSignal(next) => next == call
    case Signalling(next, _) => next == call
    case Leaving(next) => next == call
    case Elsewhere(back) => call == if back then Waits else Sleeps
    case _ => false
  }

  predicate In(ph: Phase, p: Pc) {
    match ph
    case Owed => IsOwed(p)
    case Owns => p == Holding
    case Parted => p != Holding && !IsOwed(p)
    case Away(call) => IsAway(p, call)
  }

  predicate IsRelease(a: Step, t: nat) {
    a.Release? && a.t == t
  }

  /** The step of thread `t` that ends its phase. */
  predicate Ends(ph: Phase, a: Step, t: nat) {
    match ph
    case Owed => a == Take(t)
    case Owns => IsRelease(a, t)
    case Parted => a == Call(t)
    case Away(_) => a == Wake(t)
  }

  /** The other ones by which a call is started or the kernel is taken or given up. */
  predicate Barred(ph: Phase, a: Step, t: nat) {
    !Ends(ph, a, t) && (a == Call(t) || a == Take(t) || IsRelease(a, t))
  }

  /** `t` ends its phase between the steps `i` and `j`. */
  predicate EndsBetween(ph: Phase, run: seq<Step>, t: nat, i: int, j: nat) {
    exists k :: 0 <= k < |run| && i < k < j && Ends(ph, run[k], t)
  }

  lemma StepInPhase(ph: Phase, s: Monitor, a: Step, t: nat)
    requires Enabled(s, a) && t < s.N() && In(ph, s.pc[t]) && ph != Away(Unlocks)
    ensures !Barred(ph, a, t)
    ensures !Ends(ph, a, t) ==> In(ph, After(s, a).pc[t])
  {
    OthersStay(s, a);
  }

  /** A phase lasts until the step that ends it, and until then none of the barred ones comes. */
  lemma {:induction false} RunInPhase(ph: Phase, s: Monitor, run: seq<Step>, t: nat)
    requires Runs(s, run) && t < s.N() && In(ph, s.pc[t]) && ph != Away(Unlocks)
    ensures forall j :: 0 <= j < |run| && Barred(ph, run[j], t) ==> EndsBetween(ph, run, t, -1, j)
    ensures !EndsBetween(ph, run, t, -1, |run|) ==> Final(s, run).N() == s.N() && In(ph, Final(s, run).pc[t])
    decreases |run|
  {
    if run != [] {
      var a, rest := run[0], run[1..];
      StepInPhase(ph, s, a, t);
      OthersStay(s, a);
      if Ends(ph, a, t) {
        assert forall j :: 0 < j <= |run| ==> EndsBetween(ph, run, t, -1, j);
      } else {
        RunInPhase(ph, After(s, a), rest, t);
        forall j: nat | j <= |rest| && EndsBetween(ph, rest, t, -1, j) ensures EndsBetween(ph, run, t, -1, j + 1) {
          EndsShift(ph, run, 1, t, j);
        }
        assert forall j :: 1 <= j < |run| ==> run[j] == rest[j - 1];
      }
    }
  }

  /** Seen from further back. */
  lemma EndsShift(ph: Phase, run: seq<Step>, m: nat, t: nat, j: nat)
    requires m <= |run| && EndsBetween(ph, run[m..], t, -1, j)
    ensures EndsBetween(ph, run, t, m - 1, m + j) && EndsBetween(ph, run, t, -1, m + j)
  {
    var k :| 0 <= k < |run[m..]| && -1 < k < j && Ends(ph, run[m..][k], t);
    assert run[m + k] == run[m..][k];
  }

  /** The state before step `i`. */
  function At(s: Monitor, run: seq<Step>, i: nat): Monitor
    requires Runs(s, run) && i <= |run|
    decreases |run|
  {
    if i == 0 then s else At(After(s, run[0]), run[1..], i - 1)
  }

  lemma {:induction false} RunFrom(s: Monitor, run: seq<Step>, i: nat)
    requires Runs(s, run) && i < |run|
    ensures var u := At(s, run, i);
            && Enabled(u, run[i]) && Runs(After(u, run[i]), run[i + 1..])
            && Final(After(u, run[i]), run[i + 1..]) == Final(s, run)
    decreases |run|
  {
    if i > 0 {
      RunFrom(After(s, run[0]), run[1..], i - 1);
      assert run[1..][i..] == run[i + 1..];
    }
  }

  /** The phase that step `i` starts. */
  lemma PhaseFrom(ph: Phase, s: Monitor, run: seq<Step>, i: nat, t: nat)
    requires Runs(s, run) && i < |run| && run[i].t == t && ph != Away(Unlocks)
    requires Enabled(At(s, run, i), run[i]) ==> In(ph, After(At(s, run, i), run[i]).pc[t])
    ensures forall j :: i < j < |run| && Barred(ph, run[j], t) ==> EndsBetween(ph, run, t, i, j)
    ensures !EndsBetween(ph, run, t, i, |run|) ==> t < Final(s, run).N() && In(ph, Final(s, run).pc[t])
  {
    RunFrom(s, run, i);
    var rest := run[i + 1..];
    RunInPhase(ph, After(At(s, run, i), run[i]), rest, t);
    forall j: nat | j <= |rest| && EndsBetween(ph, rest, t, -1, j) ensures EndsBetween(ph, run, t, i, i + 1 + j) {
      EndsShift(ph, run, i + 1, t, j);
    }
    assert forall j :: i < j < |run| ==> run[j] == rest[j - i - 1];
  }

  // ---------------------------------------------------------------- the laws

  /** `kernel_lock` and `kernel_wait` return with the kernel: a thread that called one of them
      takes the kernel before it gives it up or calls again, and until it does, it is in the
      call. */
  lemma ReturnsWithKernel(s: Monitor, run: seq<Step>, t: nat, i: nat)
    requires Runs(s, run) && i < |run| && (run[i] == Call(t) || run[i] == Release(t, Waits))
    ensures forall j :: i < j < |run| && (run[j] == Call(t) || IsRelease(run[j], t)) ==>
              exists k :: i < k < j && run[k] == Take(t)
    ensures (forall k :: i < k < |run| ==> run[k] != Take(t)) ==>
              t < Final(s, run).N() && Final(s, run).pc[t] != Idle && Final(s, run).pc[t] != Holding
  {
    PhaseFrom(Owed, s, run, i, t);
    forall j | i < j < |run| && (run[j] == Call(t) || IsRelease(run[j], t))
      ensures exists k :: i < k < j && run[k] == Take(t)
    {
      assert Barred(Owed, run[j], t);
    }
  }

  /** `kernel_unlock` and `kernel_sleep` return without it: a thread that called one of them
      neither has the kernel nor takes it before it calls `kernel_lock`. */
  lemma ReturnsWithout(s: Monitor, run: seq<Step>, t: nat, i: nat, next: Next)
    requires Runs(s, run) && i < |run| && run[i] == Release(t, next) && next != Waits
    ensures forall j :: i < j < |run| && (run[j] == Take(t) || IsRelease(run[j], t)) ==>
              exists k :: i < k < j && run[k] == Call(t)
    ensures (forall k :: i < k < |run| ==> run[k] != Call(t)) ==>
              t < Final(s, run).N() && Final(s, run).pc[t] != Holding
  {
    PhaseFrom(Parted, s, run, i, t);
    forall j | i < j < |run| && (run[j] == Take(t) || IsRelease(run[j], t))
      ensures exists k :: i < k < j && run[k] == Call(t)
    {
      assert Barred(Parted, run[j], t);
    }
  }

  /** `kernel_wait` and `kernel_sleep` return only after a wake-up: before it their thread
      takes no kernel and makes no call. */
  lemma ReturnsAfterWakeUp(s: Monitor, run: seq<Step>, t: nat, i: nat, next: Next)
    requires Runs(s, run) && i < |run| && run[i] == Release(t, next) && next != Unlocks
    ensures forall j :: i < j < |run| && (run[j] == Call(t) || run[j] == Take(t) || IsRelease(run[j], t)) ==>
              exists k :: i < k < j && run[k] == Wake(t)
    ensures (forall k :: i < k < |run| ==> run[k] != Wake(t)) ==>
              t < Final(s, run).N() && Final(s, run).pc[t] != Idle && Final(s, run).pc[t] != Holding
  {
    PhaseFrom(Away(next), s, run, i, t);
    forall j | i < j < |run| && (run[j] == Call(t) || run[j] == Take(t) || IsRelease(run[j], t))
      ensures exists k :: i < k < j && run[k] == Wake(t)
    {
      assert Barred(Away(next), run[j], t);
    }
  }

  /** The kernel, once taken, stays with the thread until it gives it up. */
  lemma KeptUntilReleased(s: Monitor, run: seq<Step>, t: nat, i: nat)
    requires Runs(s, run) && i < |run| && run[i] == Take(t)
    ensures forall j :: i < j < |run| && (run[j] == Call(t) || run[j] == Take(t)) ==>
              exists k :: i < k < j && IsRelease(run[k], t)
    ensures (forall k :: i < k < |run| ==> !IsRelease(run[k], t)) ==>
              t < Final(s, run).N() && Final(s, run).pc[t] == Holding
  {
    PhaseFrom(Owns, s, run, i, t);
    forall j | i < j < |run| && (run[j] == Call(t) || run[j] == Take(t))
      ensures exists k :: i < k < j && IsRelease(run[k], t)
    {
      assert Barred(Owns, run[j], t);
    }
  }

  /** From the start, no thread takes the kernel or gives it up without having called
      `kernel_lock`. */
  lemma NoneUncalled(n: nat, run: seq<Step>, t: nat, j: nat)
    requires Runs(Initial(n), run) && j < |run| && (run[j] == Take(t) || IsRelease(run[j], t))
    ensures exists k :: 0 <= k < j && run[k] == Call(t)
  {
    if t < n {
      RunInPhase(Parted, Initial(n), run, t);
      assert Barred(Parted, run[j], t);
    } else {
      RunFrom(Initial(n), run, j);
      AtSize(Initial(n), run, j);
    }
  }

  lemma {:induction false} AtSize(s: Monitor, run: seq<Step>, i: nat)
    requires Runs(s, run) && i <= |run|
    ensures At(s, run, i).N() == s.N()
    decreases |run|
  {
    if i > 0 {
      OthersStay(s, run[0]);
      AtSize(After(s, run[0]), run[1..], i - 1);
    }
  }
}
