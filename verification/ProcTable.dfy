/** The process table (old/kernel_proc.c, old/kernel_threads.c): process creation, exit,
    waiting for children, and the recycling of control blocks, one step per section under
    the kernel lock. */
module ProcTable {
  import opened Sequences

  type Pid = int

  /** NOPROC, and a null pointer in the tables. */
  const NOPROC: Pid := -1
  const NULL := -1

  /** The initial process. */
  const INIT: Pid := 1

  /** No thread of the process is waiting for a child. */
  const NOT_WAITING := -2

  datatype PidState = FREE | ALIVE | ZOMBIE

  datatype Said = Nothing | Value(v: int)

  datatype Procs = Procs(
    // the table PT, one entry per pid
    pstate: seq<PidState>, parent: seq<Pid>, exitval: seq<int>,
    children: seq<seq<Pid>>, exited: seq<seq<Pid>>, threads: seq<int>, fidt: seq<seq<int>>,
    // pcb_freelist and process_count
    freeHead: Pid, count: int,
    // the free list as a sequence; it is linked through the parent field
    free: seq<Pid>,
    // one thread of each process may wait: for a child, for any (NOPROC), or not at all
    waiting: seq<Pid>,
    // child_exit was broadcast since that thread went to sleep
    woken: seq<bool>,
    // bookkeeping: processes are numbered as they are created; the status with which each
    // terminated; those whose status was handed to a parent; what each last gave to Exit
    number: seq<nat>, created: nat, exits: map<nat, int>, delivered: seq<nat>, said: seq<Said>)
  {
    function N(): nat { |pstate| }
  }

  ghost predicate AllPids(s: seq<Pid>, n: nat) {
    forall i :: 0 <= i < |s| ==> 0 <= s[i] < n
  }

  ghost predicate Shape(s: Procs) {
    && |s.parent| == |s.exitval| == |s.children| == |s.exited| == |s.threads| == |s.fidt| == s.N()
    && |s.waiting| == |s.woken| == |s.number| == |s.said| == s.N() > INIT
    && NULL <= s.freeHead < s.N()
    && (forall p :: 0 <= p < s.N() ==> NULL <= s.parent[p] < s.N())
    && (forall p :: 0 <= p < s.N() ==> AllPids(s.children[p], s.N()) && AllPids(s.exited[p], s.N()))
    && (forall p :: 0 <= p < s.N() ==> |s.fidt[p]| == |s.fidt[0]|)
  }

  // ---------------------------------------------------------------- creation

  /** `acquire_PCB`: the head of the free list. */
  function Acquire(s: Procs): Procs
    requires Shape(s) && s.freeHead != NULL
  {
    var n := s.freeHead;
    s.(pstate := s.pstate[n := ALIVE], freeHead := s.parent[n], count := s.count + 1,
       free := if s.free == [] then [] else s.free[1..],
       number := s.number[n := s.created], created := s.created + 1, said := s.said[n := Nothing])
  }

  /** `sys_Exec` called by process `p`; `runs` is whether a task is given. */
  function Exec(s: Procs, p: Pid, runs: bool): Procs
    requires Shape(s) && 0 <= p < s.N()
  {
    if s.freeHead == NULL then s
    else
      var n, s1 := s.freeHead, Acquire(s);
      var s2 := if n <= INIT then s1.(parent := s1.parent[n := NULL])
                else s1.(parent := s1.parent[n := p], children := s1.children[p := [n] + s1.children[p]],
                         fidt := s1.fidt[n := s1.fidt[p]]);
      if runs then s2.(threads := s2.threads[n := s2.threads[n] + 1]) else s2
  }

  // ---------------------------------------------------------------- termination

  /** The children of a terminating process go to the initial process. */
  function Reparent(s: Procs, p: Pid): Procs
    requires Shape(s) && 0 <= p < s.N()
  {
    var c := s.children[p];
    s.(parent := seq(s.N(), x requires 0 <= x < s.N() => if x in c then INIT else s.parent[x]),
       children := s.children[p := []][INIT := Rev(c) + s.children[INIT]])
  }

  /** The exited lists after process `p` with parent `q` exits. */
  function Merged(e: seq<seq<Pid>>, p: Pid, q: Pid): seq<seq<Pid>>
    requires 0 <= p < |e| && 0 <= q < |e| && INIT < |e|
  {
    var e1 := e[p := []][INIT := e[INIT] + e[p]];
    e1[q := [p] + e1[q]]
  }

  /** Its exited children go to the end of the initial process's list, and it goes to the
      front of its parent's. */
  function MergeExited(s: Procs, p: Pid): Procs
    requires Shape(s) && 0 <= p < s.N() && 0 <= s.parent[p]
  {
    var w := if s.exited[p] != [] then s.woken[INIT := true] else s.woken;
    s.(exited := Merged(s.exited, p, s.parent[p]), woken := w[s.parent[p] := true])
  }

  /** What the last thread of process `p` does in `sys_ThreadExit`. */
  function Terminate(s: Procs, p: Pid): Procs
    requires Shape(s) && 0 <= p < s.N() && (p != INIT ==> s.parent[p] != NULL)
  {
    var s1 := if p == INIT then s else MergeExited(Reparent(s, p), p);
    s1.(fidt := s1.fidt[p := seq(|s1.fidt[p]|, _ => NULL)], pstate := s1.pstate[p := ZOMBIE],
        exits := if p == INIT then s1.exits else s1.exits[s1.number[p] := s1.exitval[p]])
  }

  function ThreadExit(s: Procs, p: Pid): Procs
    requires Shape(s) && 0 <= p < s.N() && (p != INIT ==> s.parent[p] != NULL)
  {
    var s1 := s.(threads := s.threads[p := s.threads[p] - 1]);
    if s1.threads[p] == 0 then Terminate(s1, p) else s1
  }

  /** The first line of `sys_Exit`. */
  function SetExit(s: Procs, p: Pid, v: int): Procs
    requires Shape(s) && 0 <= p < s.N()
  {
    s.(exitval := s.exitval[p := v], said := s.said[p := Value(v)])
  }

  /** A process starts another thread. */
  function CreateThread(s: Procs, p: Pid): Procs
    requires Shape(s) && 0 <= p < s.N()
  {
    s.(threads := s.threads[p := s.threads[p] + 1])
  }

  // ---------------------------------------------------------------- waiting

  /** `release_PCB`. */
  function Release(s: Procs, z: Pid): Procs
    requires Shape(s) && 0 <= z < s.N()
  {
    s.(pstate := s.pstate[z := FREE], parent := s.parent[z := s.freeHead], freeHead := z, count := s.count - 1,
       free := [z] + s.free)
  }

  /** `cleanup_zombie`: the child leaves the lists it is in, and its status is handed over. */
  function CleanUp(s: Procs, z: Pid): Procs
    requires Shape(s) && 0 <= z < s.N() && 0 <= s.parent[z]
  {
    var q := s.parent[z];
    Release(s.(children := s.children[q := Remove(s.children[q], z)], exited := s.exited[q := Remove(s.exited[q], z)],
               delivered := s.delivered + [s.number[z]]), z)
  }

  datatype Outcome = Blocked | Done(pid: Pid, status: int)

  const FAILED := Done(NOPROC, 0)

  /** `kernel_wait` on the process's own `child_exit`. */
  function Block(s: Procs, p: Pid, c: Pid): Procs
    requires Shape(s) && 0 <= p < s.N()
  {
    s.(waiting := s.waiting[p := c], woken := s.woken[p := false])
  }

  function DoneWaiting(s: Procs, p: Pid): Procs
    requires Shape(s) && 0 <= p < s.N()
  {
    s.(waiting := s.waiting[p := NOT_WAITING])
  }

  /** `wait_for_specific_child` from its loop on: once after the legality checks, and after
      each wake-up. */
  function WaitSpecific(s: Procs, p: Pid, c: Pid): (Procs, Outcome)
    requires Shape(s) && 0 <= p < s.N() && 0 <= c < s.N() && 0 <= s.parent[c]
  {
    if s.pstate[c] == ALIVE then (Block(s, p, c), Blocked)
    else (DoneWaiting(CleanUp(s, c), p), Done(c, s.exitval[c]))
  }

  /** The same of `wait_for_any_child`. */
  function WaitAny(s: Procs, p: Pid): (Procs, Outcome)
    requires Shape(s) && 0 <= p < s.N() && (s.exited[p] != [] ==> 0 <= s.parent[s.exited[p][0]])
  {
    if s.children[p] == [] then (DoneWaiting(s, p), FAILED)
    else if s.exited[p] == [] then (Block(s, p, NOPROC), Blocked)
    else
      var z := s.exited[p][0];
      (DoneWaiting(CleanUp(s, z), p), Done(z, s.exitval[z]))
  }

  /** `sys_WaitChild`. */
  function WaitChild(s: Procs, p: Pid, c: Pid): (Procs, Outcome)
    requires Shape(s) && 0 <= p < s.N() && (s.exited[p] != [] ==> 0 <= s.parent[s.exited[p][0]])
  {
    if c == NOPROC then WaitAny(s, p)
    else if c < 0 || c >= s.N() || s.pstate[c] == FREE || s.parent[c] != p then (s, FAILED)
    else WaitSpecific(s, p, c)
  }

  // ---------------------------------------------------------------- the invariant

  /** Processes 0 and 1 are there and have no parent. */
  ghost predicate Roots(s: Procs)
    requires Shape(s)
  {
    s.pstate[0] != FREE && s.pstate[INIT] != FREE && s.parent[0] == NULL == s.parent[INIT]
  }

  /** Every other process is in its parent's list of children; the parent is alive and older. */
  ghost predicate Parents(s: Procs)
    requires Shape(s)
  {
    forall p :: 2 <= p < s.N() && s.pstate[p] != FREE ==> HasParent(s, p)
  }

  /** It is in no other list. */
  ghost predicate Children(s: Procs)
    requires Shape(s)
  {
    forall q, c {:trigger c in s.children[q]} :: 0 <= q < s.N() && c in s.children[q] ==>
      2 <= c < s.N() && s.pstate[c] != FREE && s.parent[c] == q
  }

  ghost predicate ChildrenOnce(s: Procs)
    requires Shape(s)
  {
    forall q :: 0 <= q < s.N() ==> Distinct(s.children[q])
  }

  ghost predicate Forest(s: Procs)
    requires Shape(s)
  {
    Roots(s) && Parents(s) && Children(s) && ChildrenOnce(s)
  }

  ghost predicate HasParent(s: Procs, p: Pid)
    requires Shape(s) && 0 <= p < s.N()
  {
    var q := s.parent[p];
    INIT <= q && s.pstate[q] == ALIVE && s.number[q] < s.number[p] && p in s.children[q]
  }

  /** Each list of exited children holds ZOMBIE children of its owner, */
  ghost predicate ExitedSound(s: Procs)
    requires Shape(s)
  {
    forall q, z {:trigger z in s.exited[q]} :: 0 <= q < s.N() && z in s.exited[q] ==>
      2 <= z < s.N() && s.pstate[z] == ZOMBIE && s.parent[z] == q
  }

  /** all of them, */
  ghost predicate ExitedComplete(s: Procs)
    requires Shape(s)
  {
    forall z :: 2 <= z < s.N() && s.pstate[z] == ZOMBIE && s.parent[z] >= 0 ==> z in s.exited[s.parent[z]]
  }

  /** each once. */
  ghost predicate ExitedOnce(s: Procs)
    requires Shape(s)
  {
    forall q :: 0 <= q < s.N() ==> Distinct(s.exited[q])
  }

  ghost predicate ExitedExact(s: Procs)
    requires Shape(s)
  {
    ExitedSound(s) && ExitedComplete(s) && ExitedOnce(s)
  }

  /** Zombies and free control blocks have no children, threads or open files. */
  ghost predicate DeadIsEmpty(s: Procs)
    requires Shape(s)
  {
    forall p :: 0 <= p < s.N() && s.pstate[p] != ALIVE ==>
      s.children[p] == [] && s.exited[p] == [] && s.threads[p] == 0
      && forall i :: 0 <= i < |s.fidt[p]| ==> s.fidt[p][i] == NULL
  }

  /** The free list holds exactly the FREE control blocks, once, linked through `parent`;
      process_count is the number of the others. */
  ghost predicate FreeExact(s: Procs)
    requires Shape(s)
  {
    && AllPids(s.free, s.N()) && Distinct(s.free)
    && (forall p :: 0 <= p < s.N() ==> (s.pstate[p] == FREE <==> p in s.free))
    && s.freeHead == (if s.free == [] then NULL else s.free[0])
    && (forall i {:trigger s.parent[s.free[i]]} :: 0 <= i < |s.free| ==>
        s.parent[s.free[i]] == if i + 1 < |s.free| then s.free[i + 1] else NULL)
    && s.count + |s.free| == s.N()
  }

  /** Processes are numbered in the order of their creation. */
  ghost predicate Numbered(s: Procs)
    requires Shape(s)
  {
    && (forall p :: 0 <= p < s.N() && s.pstate[p] != FREE ==> s.number[p] < s.created)
    && (forall p, q :: 0 <= p < q < s.N() && s.pstate[p] != FREE && s.pstate[q] != FREE ==> s.number[p] != s.number[q])
  }

  /** A termination is on record with its status: a zombie holds it, and it is handed over at
      most once. */
  ghost predicate Recorded(s: Procs)
    requires Shape(s)
  {
    && Distinct(s.delivered)
    && (forall k :: k in s.exits ==> k < s.created)
    && (forall k :: k in s.delivered ==> k in s.exits)
    && (forall p :: 0 <= p < s.N() && s.pstate[p] == ALIVE ==> s.number[p] !in s.exits)
    && (forall p :: 2 <= p < s.N() && s.pstate[p] == ZOMBIE ==>
          s.number[p] in s.exits && s.exits[s.number[p]] == s.exitval[p] && s.number[p] !in s.delivered)
  }

  /** No status is lost: one not yet handed over is held by a zombie. */
  ghost predicate Held(s: Procs)
    requires Shape(s)
  {
    forall k :: k in s.exits && k !in s.delivered ==> ZombieNumbered(s, k)
  }

  ghost predicate ExitsOnce(s: Procs)
    requires Shape(s)
  {
    Numbered(s) && Recorded(s) && Held(s)
  }

  ghost predicate ZombieNumbered(s: Procs, k: nat)
    requires Shape(s)
  {
    exists z :: 2 <= z < s.N() && s.pstate[z] == ZOMBIE && s.number[z] == k
  }

  /** A waiting process is alive, and the child it waits for is its own. */
  ghost predicate WaitsLegal(s: Procs)
    requires Shape(s)
  {
    && (forall p :: 0 <= p < s.N() && s.waiting[p] != NOT_WAITING ==>
          s.pstate[p] == ALIVE && s.threads[p] >= 1 && p >= INIT)
    && (forall p :: 0 <= p < s.N() && s.waiting[p] >= 0 ==>
          2 <= s.waiting[p] < s.N() && s.pstate[s.waiting[p]] != FREE && s.parent[s.waiting[p]] == p)
    && (forall p :: 0 <= p < s.N() ==> s.waiting[p] >= NOT_WAITING)
  }

  /** No waiting process is forgotten: as long as it was not woken, it has nothing to collect. */
  ghost predicate NoneForgotten(s: Procs)
    requires Shape(s)
  {
    && (forall p :: 0 <= p < s.N() && 0 <= s.waiting[p] < s.N() && !s.woken[p] ==> s.pstate[s.waiting[p]] == ALIVE)
    && (forall p :: 0 <= p < s.N() && s.waiting[p] == NOPROC && !s.woken[p] ==>
          s.children[p] != [] && s.exited[p] == [])
  }

  /** After a call of Exit the status is the value given last. */
  ghost predicate StatusSaid(s: Procs)
    requires Shape(s)
  {
    forall p :: 0 <= p < s.N() && s.said[p].Value? ==> s.exitval[p] == s.said[p].v
  }

  /** Thread counts; the idle process has no thread of its own here. */
  ghost predicate ThreadsCounted(s: Procs)
    requires Shape(s)
  {
    s.threads[0] == 0 && forall p :: 0 <= p < s.N() ==> s.threads[p] >= 0
  }

  ghost predicate Inv(s: Procs) {
    && Shape(s) && Forest(s) && ExitedExact(s) && DeadIsEmpty(s) && FreeExact(s) && ExitsOnce(s) && WaitsLegal(s)
    && NoneForgotten(s) && StatusSaid(s)
    && ThreadsCounted(s)
  }
}
