/** The condition variable in the form the kernel has it: `waitset` points into a ring of
    waiter records linked both ways, and the flags of the records are set in place.  Every
    routine is tied to its step in CondVar.  A record is named by its thread, and the pointers
    are a pair of maps; ResourceList has the list operations on nodes of the heap. */
module CondWaiters {
  import opened Sequences
  import opened RingTheory
  import opened ListTheory
  import C = CondVar

  /** The nodes `ring` form one ring, in this order from its first. */
  ghost predicate IsRingFrom<T>(h: Links<T>, ring: seq<T>) {
    Linked(h) && (ring != [] ==> ring[0] in h.next && Contents(h, ring[0]) == ring[1..])
  }

  /** All nodes but `ring` are alone. */
  ghost predicate OthersAlone<T>(h: Links<T>, ring: seq<T>) {
    forall n {:trigger Contents(h, n)} :: n in h.next && n !in ring ==> Contents(h, n) == []
  }

  ghost predicate OneRing<T>(h: Links<T>, ring: seq<T>) {
    IsRingFrom(h, ring) && OthersAlone(h, ring)
  }

  lemma RingIsAll<T>(h: Links<T>, ring: seq<T>)
    requires IsRingFrom(h, ring) && ring != []
    ensures RingOf(h, ring[0]) == ring && Distinct(ring) && forall n :: n in ring ==> n in h.next
  {
    ContentsRing(h, ring[0]);
    assert [ring[0]] + ring[1..] == ring;
  }

  lemma JoinAlone<T>(h: Links<T>, ring: seq<T>, n: T, m: T)
    requires OneRing(h, ring) && ring != [] && n in h.next && m in h.next && m !in ring && m != n
    ensures h.prev[ring[0]] in h.next && Linked(PushBack(h, ring[0], n)) && Contents(PushBack(h, ring[0], n), m) == []
  {
    RingIsAll(h, ring);
    assert RingOf(h, m) == [m];
    PushBackKeeps(h, ring[0], n, m);
  }

  lemma JoinLast<T>(h: Links<T>, ring: seq<T>, n: T)
    requires IsRingFrom(h, ring) && ring != [] && n in h.next && n !in ring && Contents(h, n) == []
    ensures h.prev[ring[0]] in h.next && IsRingFrom(PushBack(h, ring[0], n), ring + [n])
  {
    RingIsAll(h, ring);
    PushBackLaw(h, ring[0], n);
    assert (ring + [n])[1..] == ring[1..] + ([] + [n]);
  }

  lemma SpliceNodes<T>(h: Links<T>, a: T, b: T)
    requires Linked(h) && a in h.next && b in h.next
    ensures Splice(h, a, b).next.Keys == h.next.Keys
  {
    SpliceLinked(h, a, b);
  }

  lemma JoinOthers<T>(h: Links<T>, ring: seq<T>, n: T)
    requires OneRing(h, ring) && ring != [] && n in h.next && n !in ring && h.prev[ring[0]] in h.next
    ensures OthersAlone(PushBack(h, ring[0], n), ring + [n])
  {
    var g := PushBack(h, ring[0], n);
    SpliceNodes(h, h.prev[ring[0]], n);
    forall m | m in g.next && m !in ring + [n] ensures Contents(g, m) == [] {
      JoinAlone(h, ring, n, m);
    }
  }

  /** A lone node pushed behind the ring becomes its last. */
  lemma JoinRing<T>(h: Links<T>, ring: seq<T>, n: T)
    requires OneRing(h, ring) && ring != [] && n in h.next && n !in ring
    ensures h.prev[ring[0]] in h.next && OneRing(PushBack(h, ring[0], n), ring + [n])
  {
    JoinLast(h, ring, n);
    JoinOthers(h, ring, n);
  }

  lemma FirstRing<T>(h: Links<T>, n: T)
    requires OneRing(h, []) && n in h.next
    ensures OneRing(h, [n])
  {
  }

  lemma LeaveBehind<T>(h: Links<T>, a: seq<T>, n: T, b: seq<T>)
    requires IsRingFrom(h, a + [n] + b) && a != []
    ensures n in h.next && h.prev[n] in h.next && IsRingFrom(RemoveNode(h, n), a + b)
        && Contents(RemoveNode(h, n), n) == []
  {
    var ring := a + [n] + b;
    assert ring[1..] == a[1..] + [n] + b && (a + b)[1..] == a[1..] + b;
    RemoveLaw(h, a[0], a[1..], n, b);
  }

  lemma LeaveFront<T>(h: Links<T>, n: T, b: seq<T>)
    requires IsRingFrom(h, [n] + b)
    ensures n in h.next && h.prev[n] in h.next && IsRingFrom(RemoveNode(h, n), b) && Contents(RemoveNode(h, n), n) == []
    ensures h.next[n] == if b == [] then n else b[0]
  {
    assert ([n] + b)[1..] == b;
    Ends(h, n);
    if b == [] {
      RemoveAlone(h, n);
    } else {
      assert b == [] + [b[0]] + b[1..];
      Rotate(h, n, [], b[0], b[1..]);
      assert b[1..] + [n] + [] == b[1..] + [n];
      RemoveLaw(h, b[0], b[1..], n, []);
    }
  }

  lemma LeaveAlone<T>(h: Links<T>, ring: seq<T>, n: T, m: T)
    requires OneRing(h, ring) && ring != [] && n in ring && m in h.next && m !in ring
    ensures n in h.next && h.prev[n] in h.next && Linked(RemoveNode(h, n)) && Contents(RemoveNode(h, n), m) == []
  {
    RingIsAll(h, ring);
    assert RingOf(h, m) == [m];
    RemoveKeeps(h, n, m);
  }

  lemma LeaveEither<T>(h: Links<T>, a: seq<T>, n: T, b: seq<T>)
    requires IsRingFrom(h, a + [n] + b)
    ensures n in h.next && h.prev[n] in h.next && IsRingFrom(RemoveNode(h, n), a + b)
        && Contents(RemoveNode(h, n), n) == []
    ensures a == [] ==> h.next[n] == if b == [] then n else b[0]
  {
    if a == [] {
      assert a + [n] + b == [n] + b && a + b == b;
      LeaveFront(h, n, b);
    } else {
      LeaveBehind(h, a, n, b);
    }
  }

  /** A node removed from the ring is alone; the ring keeps its order. */
  lemma LeaveRing<T>(h: Links<T>, a: seq<T>, n: T, b: seq<T>)
    requires OneRing(h, a + [n] + b)
    ensures n in h.next && h.prev[n] in h.next && OneRing(RemoveNode(h, n), a + b)
    ensures a == [] ==> h.next[n] == if b == [] then n else b[0]
  {
    LeaveEither(h, a, n, b);
    LeaveOthers(h, a, n, b);
  }

  lemma LeaveOthers<T>(h: Links<T>, a: seq<T>, n: T, b: seq<T>)
    requires OneRing(h, a + [n] + b) && n in h.next && h.prev[n] in h.next
    requires Contents(RemoveNode(h, n), n) == []
    ensures OthersAlone(RemoveNode(h, n), a + b)
  {
    var g := RemoveNode(h, n);
    SpliceNodes(h, n, h.prev[n]);
    forall m | m in g.next && m !in a + b ensures Contents(g, m) == [] {
      if m != n {
        assert m !in a + [n] + b;
        LeaveAlone(h, a + [n] + b, n, m);
      }
    }
  }

  const NULL := -1

  function HeadOf(ring: seq<nat>): int {
    if ring == [] then NULL else ring[0]
  }

  function NewHead(waitset: int, w: nat, nextw: nat): int {
    if waitset == w then (if nextw == w then NULL else nextw) else waitset
  }

  function Without<T>(l: seq<T>, k: nat): seq<T>
    requires k < |l|
  {
    l[..k] + l[k + 1..]
  }

  lemma RemoveIndex(l: seq<nat>, t: nat) returns (k: nat)
    requires t in l
    ensures k < |l| && l[k] == t && Remove(l, t) == Without(l, k)
  {
    RemoveIs(l, t);
    k := IndexOf(l, t);
  }

  lemma RemoveHead(l: seq<nat>, k: nat, w: nat, nextw: nat)
    requires k < |l| && l[k] == w && Distinct(l)
    requires k == 0 ==> nextw == if |l| == 1 then w else l[1]
    ensures HeadOf(Without(l, k)) == NewHead(HeadOf(l), w, nextw)
  {
  }

  lemma RemoveRing(h: Links<nat>, l: seq<nat>, k: nat)
    requires OneRing(h, l) && k < |l|
    ensures l[k] in h.next && h.prev[l[k]] in h.next && OneRing(RemoveNode(h, l[k]), Without(l, k))
    ensures k == 0 ==> h.next[l[k]] == if |l| == 1 then l[0] else l[1]
  {
    assert l == l[..k] + [l[k]] + l[k + 1..];
    LeaveRing(h, l[..k], l[k], l[k + 1..]);
  }

  /** Removing a record from the ring, with `waitset` made safe first. */
  lemma RemoveLinks(h: Links<nat>, l: seq<nat>, w: nat)
    requires OneRing(h, l) && w in l
    ensures w in h.next && h.prev[w] in h.next && OneRing(RemoveNode(h, w), Remove(l, w))
    ensures HeadOf(Remove(l, w)) == NewHead(HeadOf(l), w, h.next[w])
  {
    var k := RemoveIndex(l, w);
    RemoveRing(h, l, k);
    RingIsAll(h, l);
    RemoveHead(l, k, w, h.next[w]);
  }

  function Self(n: nat): map<nat, nat> {
    map t: nat {:trigger Mentioned(t)} | t < n :: t
  }

  predicate Mentioned(k: int) { true }

  class Condition {
    var waitset: int               // the first record of the ring, or NULL
    var links: Links<nat>          // the nodes of the records
    const phase: array<C.Phase>    // what the scheduler knows of the thread
    const signalled: array<bool>
    const removed: array<bool>
    ghost var ring: seq<nat>       // the ring from waitset on
    ghost var lock: C.Lock
    ghost var stamp: seq<nat>
    ghost var clock: nat
    ghost var hits: nat
    ghost var trues: nat

    ghost function View(): C.Cond
      reads this, phase, signalled, removed
    {
      C.Cond(ring, phase[..], signalled[..], removed[..], lock, stamp, clock, hits, trues)
    }

    /** The records of `ring` are linked in a ring from `waitset` on, the others to themselves.
        Stated for any `k` that is Mentioned, so that only proofs that mention one unfold it. */
    ghost predicate Linkage()
      reads this`waitset, this`links, this`ring
    {
      forall k :: Mentioned(k) ==>
        && OneRing(links, ring) && waitset == HeadOf(ring)
        && forall t :: 0 <= t < phase.Length ==> t in links.next
    }

    ghost predicate Valid()
      reads this, phase, signalled, removed
    {
      signalled != removed && C.Shape(View()) && Linkage() && (waitset == NULL <==> ring == [])
    }

    constructor (n: nat)
      ensures Valid() && View() == C.Initial(n)
    {
      waitset := NULL;
      links := Links(Self(n), Self(n));
      phase := new C.Phase[n](_ => C.Out);
      signalled := new bool[n](_ => false);
      removed := new bool[n](_ => false);
      ring, lock, stamp, clock, hits, trues := [], C.Open, seq(n, _ => 0), 0, 0, 0;
      new;
      SelfRings(links);
    }

    /** `remove_from_ring`. */
    method RemoveFromRing(t: nat)
      requires Linkage() && t in ring
      modifies this`waitset, this`links, this`ring
      ensures Linkage() && ring == Remove(old(ring), t) && (waitset == NULL <==> ring == [])
    {
      assert Mentioned(0);
      RemoveLinks(links, ring, t);
      if waitset == t {
        var nextw := links.next[t];
        waitset := if nextw == t then NULL else nextw;
      }
      links := RemoveNode(links, t);
      ring := Remove(ring, t);
    }

    /** A new record. */
    method InitRecord(t: nat)
      requires Valid() && t < phase.Length
      modifies signalled, removed
      ensures Valid()
      ensures View() == old(View()).(signalled := old(signalled[..])[t := false],
          removed := old(removed[..])[t := false])
    {
      signalled[t] := false;
      removed[t] := false;
    }

    /** `sleep_releasing`. */
    method Sleep(t: nat)
      requires Valid() && t < phase.Length
      modifies this`stamp, this`clock, phase
      ensures Valid()
      ensures View() == old(View()).(phase := old(phase[..])[t := C.Blocked], stamp := old(stamp)[t := old(clock)],
          clock := old(clock) + 1)
    {
      phase[t] := C.Blocked;
      stamp, clock := stamp[t := clock], clock + 1;
    }

    /** The first half of `cv_wait`, until the thread sleeps. */
    method CvWait(t: nat)
      requires Valid() && t < phase.Length && t !in ring
      modifies this`waitset, this`links, this`ring, this`stamp, this`clock, phase, signalled, removed
      ensures Valid() && View() == C.Wait(old(View()), t)
    {
      InitRecord(t);
      PushRecord(t);
      Sleep(t);
    }

    /** The record becomes the last of the ring. */
    method PushRecord(t: nat)
      requires Linkage() && (waitset == NULL <==> ring == []) && t < phase.Length && t !in ring
      modifies this`waitset, this`links, this`ring
      ensures Linkage() && waitset != NULL && ring == old(ring) + [t]
    {
      assert Mentioned(0);
      if waitset != NULL {
        JoinRing(links, ring, t);
        links := PushBack(links, waitset, t);
      } else {
        FirstRing(links, t);
        waitset := t;
      }
      ring := ring + [t];
    }

    lemma HeadIsFirst()
      requires Linkage() && waitset != NULL
      ensures ring != [] && waitset == ring[0] && Remove(ring, ring[0]) == ring[1..]
    {
      assert Mentioned(0);
    }

    /** The scheduler's `wakeup`. */
    method Wakeup(t: nat) returns (woken: bool)
      requires Valid() && t < phase.Length
      modifies phase
      ensures Valid() && View() == C.WakeUp(old(View()), t) && (woken <==> old(phase[t]) == C.Blocked)
    {
      woken := phase[t] == C.Blocked;
      if woken {
        phase[t] := C.Awake;
      }
    }

    /** Takes the first record off the ring. */
    method DropHead() returns (waiter: nat)
      requires Valid() && waitset != NULL
      modifies this`waitset, this`links, this`ring, removed
      ensures Valid() && old(ring) != [] && waiter == old(ring[0])
      ensures View() == old(View()).(ring := old(ring)[1..], removed := old(removed[..])[waiter := true])
    {
      HeadIsFirst();
      waiter := waitset;
      RemoveShape(View(), waiter);
      RemoveFromRing(waiter);
      removed[waiter] := true;
    }

    /** One turn of the loop of `cv_signal`. */
    method SignalTurn() returns (done: bool)
      requires Valid() && waitset != NULL
      modifies this`waitset, this`links, this`ring, this`lock, this`hits, phase, signalled, removed
      ensures Valid() && old(ring) != [] && View() == C.Examine(old(View()))
          && (done <==> old(phase[ring[0]]) == C.Blocked)
    {
      var waiter := DropHead();
      done := Wakeup(waiter);
      if done {
        MarkSignalled(waiter);
      }
    }

    method MarkSignalled(t: nat)
      requires Valid() && t < phase.Length
      modifies this`lock, this`hits, signalled
      ensures Valid()
      ensures View() == old(View()).(signalled := old(signalled[..])[t := true], hits := old(hits) + 1,
                                     lock := if old(lock) == C.Open then C.Open else old(lock).(found := true))
    {
      signalled[t] := true;
      hits, lock := hits + 1, if lock == C.Open then C.Open else lock.(found := true);
    }

    /** `cv_signal`. */
    method CvSignal()
      requires Valid()
      modifies this`waitset, this`links, this`ring, this`lock, this`hits, phase, signalled, removed
      ensures Valid() && View() == C.Signal(old(View()))
    {
      ghost var s := View();
      while waitset != NULL
        invariant Valid() && C.Signal(View()) == C.Signal(s)
        decreases |ring|
      {
        var done := SignalTurn();
        if done {
          return;
        }
      }
    }

    method CondSignal()
      requires Valid() && lock == C.Open
      modifies this`waitset, this`links, this`ring, this`lock, this`hits, phase, signalled, removed
      ensures Valid()
      ensures View() == C.Signal(old(View()).(lock := C.Signalling(false, false))).(lock := C.Open)
    {
      lock := C.Signalling(false, false);
      CvSignal();
      lock := C.Open;
    }

    /** The loop of `Cond_Broadcast`. */
    method SignalAll()
      requires Valid()
      modifies this`waitset, this`links, this`ring, this`lock, this`hits, phase, signalled, removed
      ensures Valid() && View() == C.Broadcast(old(View()))
    {
      ghost var s := View();
      while waitset != NULL
        invariant Valid() && C.Broadcast(View()) == C.Broadcast(s)
        decreases |ring|
      {
        C.SignalShortens(View());
        CvSignal();
      }
    }

    method CondBroadcast()
      requires Valid() && lock == C.Open
      modifies this`waitset, this`links, this`ring, this`lock, this`hits, phase, signalled, removed
      ensures Valid()
      ensures View() == C.Broadcast(old(View()).(lock := C.Signalling(true, false))).(lock := C.Open)
    {
      lock := C.Signalling(true, false);
      SignalAll();
      lock := C.Open;
    }

    /** A record still on the ring is taken off. */
    method TidyUp(t: nat)
      requires Valid() && t < phase.Length && (!removed[t] ==> t in ring && !signalled[t])
      modifies this`waitset, this`links, this`ring
      ensures Valid()
      ensures View() == old(View()).(ring := if removed[t] then old(ring) else Remove(old(ring), t))
    {
      if !removed[t] {
        assert !signalled[t];
        RemoveShape(View(), t);
        RemoveFromRing(t);
      }
    }

    /** The second half of `cv_wait`. */
    method CvReturn(t: nat) returns (r: bool)
      requires Valid() && C.Inv(View()) && t < phase.Length && phase[t] == C.Awake
      modifies this`waitset, this`links, this`ring, this`trues, phase
      ensures Valid() && (View(), r) == C.Leave(old(View()), t)
    {
      C.StillThere(View(), t);
      TidyUp(t);
      r := Finish(t);
    }

    method Finish(t: nat) returns (r: bool)
      requires Valid() && t < phase.Length
      modifies this`trues, phase
      ensures Valid() && r == signalled[t]
      ensures View() == old(View()).(phase := old(phase[..])[t := C.Out], trues := old(trues) + if r then 1 else 0)
    {
      r := signalled[t];
      trues := trues + if r then 1 else 0;
      LeaveOut(t);
    }

    method LeaveOut(t: nat)
      requires Valid() && t < phase.Length
      modifies phase
      ensures Valid() && View() == old(View()).(phase := old(phase[..])[t := C.Out])
    {
      phase[t] := C.Out;
    }
  }

  lemma SelfRings(h: Links<nat>)
    requires Linked(h) && forall n :: n in h.next ==> h.next[n] == n
    ensures OneRing(h, [])
  {
    forall n | n in h.next ensures Contents(h, n) == [] {
      Ends(h, n);
      ContentsRing(h, n);
    }
  }

  lemma RemoveShape(s: C.Cond, t: nat)
    requires C.Shape(s)
    ensures C.Shape(s.(ring := Remove(s.ring, t)))
  {
    var r := Remove(s.ring, t);
    forall i | 0 <= i < |r| ensures r[i] < s.N() {
      assert r[i] in s.ring;
    }
  }
}
