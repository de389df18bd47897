/** The scheduler of src/kernel/kernel_sched.c as a transition system, one step for each
    section executed under `sched_spinlock`.

    Threads 0 .. threads-1 are the slots of the thread pool; thread `threads + c` is the
    idle thread of core `c`.  A run-queue or timeout list is the sequence of the threads
    between its sentinel's `next` and `prev`. */
module SchedModel {
  import opened Sequences

  type Tid = nat

  /** `TimerDuration` is a 32-bit unsigned integer and NO_TIMEOUT its largest value. */
  const CLOCK_RANGE: nat := 0x1_0000_0000
  const NO_TIMEOUT: nat := CLOCK_RANGE - 1

  datatype ThreadState = INIT | READY | RUNNING | STOPPED | EXITED
  datatype Phase = CTX_CLEAN | CTX_DIRTY
  datatype Cause =
    SCHED_QUANTUM | SCHED_IO | SCHED_MUTEX | SCHED_PIPE | SCHED_POLL | SCHED_IDLE | SCHED_USER

  datatype Tcb = Tcb(
    state: ThreadState, phase: Phase, priority: int, wakeupTime: nat,
    currCause: Cause, lastCause: Cause)

  /** Where a core is in its time slice.  `Leaving`: between the start of `yield` (or the
      sleep mark that precedes it) and the choice of the next thread.  `Switching`: the next
      thread is chosen, `gain` has not run. */
  datatype Pc = Running | Leaving | Switching

  datatype Config = Config(threads: nat, cores: nat, queues: nat, yieldRuns: nat) {
    predicate Ok() { cores > 0 && queues > 0 && yieldRuns > 0 }
  }

  datatype State = State(
    cfg: Config,
    tcb: seq<Tcb>,          // thread_pool, then the idle threads of cctx
    used: seq<bool>,        // thread_used
    active: int,            // active_threads
    queues: seq<seq<Tid>>,  // SCHED
    timeouts: seq<Tid>,     // TIMEOUT_LIST
    yieldCount: nat,        // yield_count
    cur: seq<Tid>,          // cctx[c].current_thread
    prev: seq<Tid>,         // cctx[c].previous_thread
    pc: seq<Pc>)

  /** Array sizes, priorities that index a queue, and lists that name existing threads. */
  ghost predicate Shape(s: State) {
    && s.cfg.Ok()
    && |s.tcb| == s.cfg.threads + s.cfg.cores
    && |s.used| == s.cfg.threads
    && |s.queues| == s.cfg.queues
    && |s.cur| == |s.prev| == |s.pc| == s.cfg.cores
    && s.yieldCount < s.cfg.yieldRuns
    && (forall t :: 0 <= t < |s.tcb| ==> 0 <= s.tcb[t].priority < s.cfg.queues)
    && (forall q, i :: 0 <= q < |s.queues| && 0 <= i < |s.queues[q]| ==> s.queues[q][i] < |s.tcb|)
    && (forall i :: 0 <= i < |s.timeouts| ==> s.timeouts[i] < |s.tcb|)
    && (forall c :: 0 <= c < |s.cur| ==> s.cur[c] < |s.tcb|)
    && (forall c :: 0 <= c < |s.prev| ==> s.prev[c] < |s.tcb|)
  }

  predicate IsIdle(s: State, t: Tid) { t >= s.cfg.threads }

  // ---------------------------------------------------------------- list operations

  /** Where the timeout list takes a thread that wakes at `w`: before the first later entry. */
  function InsertPos(tcb: seq<Tcb>, l: seq<Tid>, w: nat): (k: nat)
    requires forall i :: 0 <= i < |l| ==> l[i] < |tcb|
    ensures k <= |l|
    ensures forall i :: 0 <= i < k ==> tcb[l[i]].wakeupTime <= w
    ensures k < |l| ==> w < tcb[l[k]].wakeupTime
  {
    if l == [] || w < tcb[l[0]].wakeupTime then 0 else 1 + InsertPos(tcb, l[1..], w)
  }

  /** The lowest non-empty queue, or the number of queues when all are empty. */
  function FirstNonEmpty(queues: seq<seq<Tid>>): (q: nat)
    ensures q <= |queues|
    ensures forall i :: 0 <= i < q ==> queues[i] == []
    ensures q < |queues| ==> queues[q] != []
  {
    if queues == [] || queues[0] != [] then 0 else 1 + FirstNonEmpty(queues[1..])
  }

  /** The lowest unused slot, or the number of slots when all are used. */
  function FirstUnused(used: seq<bool>): (i: nat)
    ensures i <= |used|
    ensures forall j :: 0 <= j < i ==> used[j]
    ensures i < |used| ==> !used[i]
  {
    if used == [] || !used[0] then 0 else 1 + FirstUnused(used[1..])
  }

  function CountUsed(used: seq<bool>): nat {
    if used == [] then 0 else (if used[0] then 1 else 0) + CountUsed(used[1..])
  }

  // ---------------------------------------------------------------- scheduler primitives

  function QueueAdd(s: State, t: Tid): (r: State)
    requires Shape(s) && t < |s.tcb|
    ensures Shape(r)
  {
    var p := s.tcb[t].priority;
    s.(queues := s.queues[p := s.queues[p] + [t]])
  }

  function MakeReady(s: State, t: Tid): (r: State)
    requires Shape(s) && t < |s.tcb|
    ensures Shape(r)
  {
    var timed := s.tcb[t].wakeupTime != NO_TIMEOUT;
    var l := if timed then Remove(s.timeouts, t) else s.timeouts;
    var r := s.(timeouts := l, tcb := s.tcb[t := s.tcb[t].(state := READY, wakeupTime := NO_TIMEOUT)]);
    if r.tcb[t].phase == CTX_CLEAN then QueueAdd(r, t) else r
  }

  /** Every listed sleeper has a wake-up time, and is listed once. */
  ghost predicate TimeoutsListed(s: State)
    requires Shape(s)
  {
    && Distinct(s.timeouts)
    && (forall i :: 0 <= i < |s.timeouts| ==> s.tcb[s.timeouts[i]].wakeupTime != NO_TIMEOUT)
  }

  lemma RemoveDistinct(l: seq<Tid>, t: Tid)
    requires Distinct(l)
    ensures Distinct(Remove(l, t))
    ensures forall u :: u in Remove(l, t) <==> u in l && u != t
  {
  }

  /** `sched_wakeup_expired_timeouts`. */
  function Expire(s: State, now: nat): (r: State)
    requires Shape(s) && TimeoutsListed(s)
    ensures Shape(r) && TimeoutsListed(r) && r.cfg == s.cfg
    decreases |s.timeouts|
  {
    if s.timeouts == [] || s.tcb[s.timeouts[0]].wakeupTime > now then s
    else
      RemoveDistinct(s.timeouts, s.timeouts[0]);
      Expire(MakeReady(s, s.timeouts[0]), now)
  }

  /** `sched_boost_priority`: every queue but the first moves to the end of the one before. */
  function Boost(s: State): (r: State)
    requires Shape(s)
  {
    s.(queues := BoostedQueues(s.queues),
       tcb := seq(|s.tcb|, t requires 0 <= t < |s.tcb| =>
         if InLowerQueue(s.queues, t) then s.tcb[t].(priority := s.tcb[t].priority - 1) else s.tcb[t]))
  }

  predicate InLowerQueue(queues: seq<seq<Tid>>, t: Tid) {
    exists q :: 1 <= q < |queues| && t in queues[q]
  }

  function BoostedQueues(queues: seq<seq<Tid>>): (r: seq<seq<Tid>>)
    ensures |r| == |queues|
  {
    seq(|queues|, q requires 0 <= q < |queues| =>
      if |queues| == 1 then queues[0]
      else if q == 0 then queues[0] + queues[1]
      else if q + 1 < |queues| then queues[q + 1]
      else [])
  }

  /** The priority of the current thread after a time slice that ended for `cause`. */
  function Adjusted(b: Tcb, cause: Cause, queues: nat): int {
    match cause
    case SCHED_IO => if b.priority > 0 then b.priority - 1 else b.priority
    case SCHED_QUANTUM => if b.priority < queues - 1 then b.priority + 1 else b.priority
    case SCHED_MUTEX =>
      if b.currCause == SCHED_MUTEX && b.priority < queues - 1 then b.priority + 1 else b.priority
    case _ => b.priority
  }

  // ---------------------------------------------------------------- the steps

  /** The counting and boosting part of `yield`. */
  function CountYield(s: State): (r: State)
    requires Shape(s)
  {
    if s.yieldCount + 1 == s.cfg.yieldRuns then Boost(s).(yieldCount := 0)
    else s.(yieldCount := s.yieldCount + 1)
  }

  /** The part of `yield` that updates the thread leaving core `c`. */
  function Demote(s: State, c: nat, cause: Cause): (r: State)
    requires Shape(s) && c < s.cfg.cores
    ensures Shape(r)
  {
    var t := s.cur[c];
    var b := s.tcb[t];
    var st := if b.state == RUNNING then READY else b.state;
    s.(pc := s.pc[c := Leaving],
       tcb := s.tcb[t := b.(state := st, lastCause := b.currCause, currCause := cause,
                            priority := Adjusted(b, cause, s.cfg.queues))])
  }

  /** `sched_queue_select`, and the hand-over of core `c` to the selected thread. */
  function Select(s: State, c: nat): (r: State)
    requires Shape(s) && c < s.cfg.cores
    ensures Shape(r)
  {
    var q := FirstNonEmpty(s.queues);
    var t := s.cur[c];
    if q < |s.queues| then
      s.(queues := s.queues[q := s.queues[q][1..]],
         prev := s.prev[c := t], cur := s.cur[c := s.queues[q][0]], pc := s.pc[c := Switching])
    else
      s.(prev := s.prev[c := t],
         cur := s.cur[c := if s.tcb[t].state == READY then t else s.cfg.threads + c],
         pc := s.pc[c := Switching])
  }

  /** `release_TCB`. */
  function Release(s: State, t: Tid): (r: State)
    requires Shape(s) && t < s.cfg.threads
    ensures Shape(r)
  {
    s.(used := s.used[t := false], active := s.active - 1)
  }

  /** The part of `gain` that starts the time slice of the current thread. */
  function Arrive(s: State, c: nat): (r: State)
    requires Shape(s) && c < s.cfg.cores
    ensures Shape(r)
  {
    var t := s.cur[c];
    s.(pc := s.pc[c := Running], tcb := s.tcb[t := s.tcb[t].(state := RUNNING, phase := CTX_DIRTY)])
  }

  /** The part of `gain` that takes care of the previous thread. */
  function Depart(s: State, p: Tid): (r: State)
    requires Shape(s) && p < |s.tcb|
    ensures Shape(r)
  {
    var r := s.(tcb := s.tcb[p := s.tcb[p].(phase := CTX_CLEAN)]);
    if r.tcb[p].state == READY && !IsIdle(r, p) then QueueAdd(r, p)
    else if r.tcb[p].state == EXITED && !IsIdle(r, p) then Release(r, p)
    else r
  }

  /** `gain` on core `c`. */
  function Gain(s: State, c: nat): (r: State)
    requires Shape(s) && c < s.cfg.cores
    ensures Shape(r)
  {
    if s.cur[c] == s.prev[c] then Arrive(s, c) else Depart(Arrive(s, c), s.prev[c])
  }

  /** `wakeup`: also says whether the thread was woken. */
  function Wakeup(s: State, t: Tid): (r: State)
    requires Shape(s) && t < |s.tcb|
    ensures Shape(r)
  {
    if s.tcb[t].state == STOPPED || s.tcb[t].state == INIT then MakeReady(s, t) else s
  }

  function WakeAt(now: nat, timeout: nat): nat { (now + timeout) % CLOCK_RANGE }

  /** The part of `sleep_releasing` before it calls `yield`. */
  function Sleep(s: State, c: nat, state: ThreadState, timeout: nat, now: nat): (r: State)
    requires Shape(s) && c < s.cfg.cores
    ensures Shape(r)
  {
    var t := s.cur[c];
    var s1 := s.(pc := s.pc[c := Leaving], tcb := s.tcb[t := s.tcb[t].(state := state)]);
    if state == EXITED || timeout == NO_TIMEOUT then s1
    else RegisterTimeout(s1, t, WakeAt(now, timeout))
  }

  function RegisterTimeout(s: State, t: Tid, w: nat): (r: State)
    requires Shape(s) && t < |s.tcb|
    ensures Shape(r)
  {
    var tcb := s.tcb[t := s.tcb[t].(wakeupTime := w)];
    var k := InsertPos(tcb, s.timeouts, w);
    s.(tcb := tcb, timeouts := s.timeouts[..k] + [t] + s.timeouts[k..])
  }

  const FRESH_TCB := Tcb(INIT, CTX_CLEAN, 0, NO_TIMEOUT, SCHED_IDLE, SCHED_IDLE)

  /** `spawn_thread`: nothing changes when no slot is free. */
  function Spawn(s: State): (r: State)
    requires Shape(s)
    ensures Shape(r)
  {
    var i := FirstUnused(s.used);
    if i == |s.used| then s
    else s.(used := s.used[i := true], tcb := s.tcb[i := FRESH_TCB], active := s.active + 1)
  }

  /** The state in which every core enters `run_scheduler`. */
  function Initial(cfg: Config): (s: State)
    requires cfg.Ok()
    ensures Shape(s)
  {
    var n := cfg.threads;
    State(cfg,
          seq(n + cfg.cores, t => if t < n then FRESH_TCB else FRESH_TCB.(state := RUNNING, phase := CTX_DIRTY)),
          seq(n, _ => false), 0, seq(cfg.queues, _ => []), [], 0,
          seq(cfg.cores, c requires 0 <= c => n + c), seq(cfg.cores, c requires 0 <= c => n + c),
          seq(cfg.cores, _ => Running))
  }
}
