/** Resource lists on the heap: nodes with `prev` and `next` pointers, updated in place. */
module ResourceList {
  import opened RingTheory
  import opened ListTheory

  class Node {
    var prev: Node
    var next: Node
    var key: int

    /** `rlnode_init`: a ring of one. */
    constructor (key: int)
      ensures prev == this == next && this.key == key
    {
      this.prev := this;
      this.next := this;
      this.key := key;
    }
  }

  ghost function NextMap(u: set<Node>): map<Node, Node>
    reads u`next
  {
    map n | n in u :: n.next
  }

  ghost function PrevMap(u: set<Node>): map<Node, Node>
    reads u`prev
  {
    map n | n in u :: n.prev
  }

  /** The pointers of the nodes `u`. */
  ghost function View(u: set<Node>): Links<Node>
    reads u`next, u`prev
  {
    Links(NextMap(u), PrevMap(u))
  }

  /** The nodes `u` are initialised and point to each other only. */
  ghost predicate Good(u: set<Node>)
    reads u`next, u`prev
  {
    Linked(View(u))
  }

  lemma GoodPointers(u: set<Node>, n: Node)
    requires Good(u) && n in u
    ensures n.next in u && n.prev in u && n.next.prev == n && n.prev.next == n
  {
    var h := View(u);
    assert h.next[n] == n.next && h.prev[n] == n.prev;
    assert h.next[n.prev] == n.prev.next && h.prev[n.next] == n.next.prev;
  }

  /** `rlnode_swap` of two `prev` pointers. */
  method SwapPrev(p: Node, q: Node, ghost u: set<Node>)
    requires p in u && q in u
    modifies u`prev
    ensures PrevMap(u) == Swap(old(PrevMap(u)), p, q) && NextMap(u) == old(NextMap(u))
  {
    var temp := p.prev;
    p.prev := q.prev;
    q.prev := temp;
  }

  /** `rlnode_swap` of two `next` pointers. */
  method SwapNext(p: Node, q: Node, ghost u: set<Node>)
    requires p in u && q in u
    modifies u`next
    ensures NextMap(u) == Swap(old(NextMap(u)), p, q) && PrevMap(u) == old(PrevMap(u))
  {
    var temp := p.next;
    p.next := q.next;
    q.next := temp;
  }

  /** The two pointer swaps of `rl_splice`. */
  method SwapBoth(a: Node, b: Node, ghost u: set<Node>)
    requires a in u && b in u && a.next in u && b.next in u
    modifies u`next, u`prev
    ensures NextMap(u) == Swap(old(NextMap(u)), a, b)
    ensures PrevMap(u) == Swap(old(PrevMap(u)), old(a.next), old(b.next))
  {
    SwapPrev(a.next, b.next, u);
    SwapNext(a, b, u);
  }

  lemma StaysGood(u: set<Node>, h: Links<Node>, a: Node, b: Node)
    requires Linked(h) && a in h.next && b in h.next && View(u) == Splice(h, a, b)
    ensures Good(u)
  {
    SpliceLinked(h, a, b);
  }

  method RlSplice(a: Node, b: Node, ghost u: set<Node>) returns (r: Node)
    requires Good(u) && a in u && b in u
    modifies u`next, u`prev
    ensures r == b && Good(u) && View(u) == Splice(old(View(u)), a, b)
  {
    ghost var h := View(u);
    GoodPointers(u, a);
    GoodPointers(u, b);
    SwapBoth(a, b, u);
    StaysGood(u, h, a, b);
    return b;
  }

  method RlistRemove(a: Node, ghost u: set<Node>) returns (r: Node)
    requires Good(u) && a in u
    modifies u`next, u`prev
    ensures r == a && Good(u)
    ensures View(u) == RemoveNode(old(View(u)), a)
  {
    GoodPointers(u, a);
    var _ := RlSplice(a, a.prev, u);
    return a;
  }

  method IsRlistEmpty(list: Node, ghost u: set<Node>) returns (empty: bool)
    requires Good(u) && list in u
    ensures empty <==> Contents(View(u), list) == []
  {
    Ends(View(u), list);
    ContentsRing(View(u), list);
    return list == list.next;
  }

  method RlistPushFront(list: Node, node: Node, ghost u: set<Node>)
    requires Good(u) && list in u && node in u
    modifies u`next, u`prev
    ensures Good(u) && View(u) == PushFront(old(View(u)), list, node)
  {
    var _ := RlSplice(list, node, u);
  }

  method RlistPushBack(list: Node, node: Node, ghost u: set<Node>)
    requires Good(u) && list in u && node in u
    modifies u`next, u`prev
    ensures Good(u) && View(u) == PushBack(old(View(u)), list, node)
  {
    GoodPointers(u, list);
    var _ := RlSplice(list.prev, node, u);
  }

  method RlistPopFront(list: Node, ghost u: set<Node>) returns (r: Node)
    requires Good(u) && list in u
    modifies u`next, u`prev
    ensures r == old(list.next) && Good(u) && View(u) == PopFront(old(View(u)), list)
  {
    GoodPointers(u, list);
    r := RlSplice(list, list.next, u);
  }

  method RlistPopBack(list: Node, ghost u: set<Node>) returns (r: Node)
    requires Good(u) && list in u
    modifies u`next, u`prev
    ensures r == old(list.prev) && Good(u) && View(u) == PopBack(old(View(u)), list)
  {
    GoodPointers(u, list);
    r := RlSplice(list, list.prev, u);
  }

  method RlistAppend(dest: Node, src: Node, ghost u: set<Node>)
    requires Good(u) && dest in u && src in u
    modifies u`next, u`prev
    ensures Good(u) && View(u) == Append(old(View(u)), dest, src)
  {
    RlistPushBack(dest, src, u);
    var _ := RlistRemove(src, u);
  }

  method RlistPrepend(dest: Node, src: Node, ghost u: set<Node>)
    requires Good(u) && dest in u && src in u
    modifies u`next, u`prev
    ensures Good(u) && View(u) == Prepend(old(View(u)), dest, src)
  {
    RlistPushFront(dest, src, u);
    var _ := RlistRemove(src, u);
  }

  // ---------------------------------------------------------------- walking a list

  /** The node at position `i` of the list, or the sentinel past its end. */
  ghost function At(x: seq<Node>, i: nat, list: Node): Node {
    if i < |x| then x[i] else list
  }

  lemma Walk(u: set<Node>, list: Node)
    requires Good(u) && list in u
    ensures var x := Contents(View(u), list);
      && list.next == At(x, 0, list)
      && (forall i :: 0 <= i < |x| ==> x[i] in u && x[i] != list)
      && (forall i {:trigger x[i].next} :: 0 <= i < |x| ==> x[i].next == At(x, i + 1, list))
  {
    var h, x := View(u), Contents(View(u), list);
    ContentsRing(h, list);
    Ends(h, list);
    forall i | 0 <= i < |x| ensures x[i] in u && x[i] != list && x[i].next == At(x, i + 1, list) {
      assert x[i] in x;
      assert h.next[x[i]] == x[i].next;
    }
  }

  method RlistLen(list: Node, ghost u: set<Node>) returns (count: nat)
    requires Good(u) && list in u
    ensures count == |Contents(View(u), list)|
  {
    ghost var x := Contents(View(u), list);
    Walk(u, list);
    count := 0;
    var p := list.next;
    while p != list
      invariant count <= |x| && p == At(x, count, list)
      decreases |x| - count
    {
      p := p.next;
      count := count + 1;
    }
  }

  ghost function Keys(x: seq<Node>): seq<int>
    reads x
  {
    seq(|x|, i requires 0 <= i < |x| reads x => x[i].key)
  }

  lemma KeysDiffer(x: seq<Node>, y: seq<Node>, k: nat)
    requires k <= |x| && k <= |y|
    requires (k == |x|) != (k == |y|) || (k < |x| && k < |y| && x[k].key != y[k].key)
    ensures Keys(x) != Keys(y)
  {
    if k < |x| && k < |y| {
      assert Keys(x)[k] != Keys(y)[k];
    } else {
      assert |Keys(x)| != |Keys(y)|;
    }
  }

  method RlistEqual(list1: Node, list2: Node, ghost u: set<Node>) returns (equal: bool)
    requires Good(u) && list1 in u && list2 in u
    ensures equal <==> Keys(Contents(View(u), list1)) == Keys(Contents(View(u), list2))
  {
    ghost var x, y, k := Contents(View(u), list1), Contents(View(u), list2), 0;
    Walk(u, list1);
    Walk(u, list2);
    var i1, i2 := list1.next, list2.next;
    while i1 != list1
      invariant k <= |x| && k <= |y| && i1 == At(x, k, list1) && i2 == At(y, k, list2)
      invariant forall j :: 0 <= j < k ==> x[j].key == y[j].key
      decreases |x| - k
    {
      if i2 == list2 || i1.key != i2.key {
        KeysDiffer(x, y, k);
        return false;
      }
      i1, i2 := i1.next, i2.next;
      k := k + 1;
    }
    equal := i2 == list2;
    if !equal {
      KeysDiffer(x, y, k);
    }
  }

  method RlistFind(list: Node, key: int, fail: Node?, ghost u: set<Node>) returns (r: Node?)
    requires Good(u) && list in u
    ensures var x := Contents(View(u), list);
      if exists i :: 0 <= i < |x| && x[i].key == key
      then exists i :: 0 <= i < |x| && r == x[i] && x[i].key == key && forall j :: 0 <= j < i ==> x[j].key != key
      else r == fail
  {
    ghost var x, k := Contents(View(u), list), 0;
    Walk(u, list);
    var i := list.next;
    while i != list
      invariant k <= |x| && i == At(x, k, list)
      invariant forall j :: 0 <= j < k ==> x[j].key != key
      decreases |x| - k
    {
      if i.key == key {
        return i;
      }
      i := i.next;
      k := k + 1;
    }
    return fail;
  }

  // ---------------------------------------------------------------- reverse

  /** The node visited after `k` steps back round the ring of `l`. */
  ghost function Back(x: seq<Node>, k: nat, l: Node): Node {
    if 0 < k <= |x| then x[|x| - k] else l
  }

  /** The nodes visited in the first `k` steps. */
  ghost function Visited(x: seq<Node>, k: nat, l: Node): set<Node> {
    if k == 0 then {} else Visited(x, k - 1, l) + {Back(x, k - 1, l)}
  }

  lemma {:induction false} VisitedIs(x: seq<Node>, k: nat, l: Node, n: Node)
    requires k <= |x| + 1
    ensures n in Visited(x, k, l) <==> (k > 0 && n == l) || exists i :: |x| - k < i < |x| && x[i] == n
  {
    if k > 0 {
      VisitedIs(x, k - 1, l, n);
    }
  }

  /** One step back along the ring of `l` reaches a node that was not visited before. */
  lemma WalkBack(h: Links<Node>, l: Node, k: nat)
    requires Linked(h) && l in h.next && k <= |Contents(h, l)|
    ensures var x := Contents(h, l);
      && Back(x, k, l) in h.next && Back(x, k, l) !in Visited(x, k, l)
      && h.prev[Back(x, k, l)] == Back(x, k + 1, l)
      && (k < |x| ==> Back(x, k + 1, l) != l)
  {
    var x := Contents(h, l);
    ContentsRing(h, l);
    Ends(h, l);
    VisitedIs(x, k, l, Back(x, k, l));
    if k > 0 {
      var i := |x| - k;
      assert x[i] in x;
      assert i > 0 ==> h.next[x[i - 1]] == x[i];
    }
    if k < |x| {
      assert x[|x| - k - 1] in x;
    }
  }

  lemma VisitedAt(x: seq<Node>, l: Node, n: Node)
    ensures n in Visited(x, |x| + 1, l) <==> n in [l] + x
  {
    VisitedIs(x, |x| + 1, l, n);
    assert n in x <==> exists i :: -1 < i < |x| && x[i] == n;
  }

  lemma VisitedAll(x: seq<Node>, l: Node)
    ensures Visited(x, |x| + 1, l) == set n | n in [l] + x
  {
    forall n | n in Visited(x, |x| + 1, l) ensures n in [l] + x {
      VisitedAt(x, l, n);
    }
    forall n | n in [l] + x ensures n in Visited(x, |x| + 1, l) {
      VisitedAt(x, l, n);
    }
  }

  lemma ReversedAdd(h: Links<Node>, v: set<Node>, p: Node)
    requires h.next.Keys == h.prev.Keys && p in h.next && p !in v
    ensures Reversed(h, v).next[p := h.prev[p]] == Reversed(h, v + {p}).next
    ensures Reversed(h, v).prev[p := h.next[p]] == Reversed(h, v + {p}).prev
    ensures Reversed(h, v).next[p] == h.next[p] && Reversed(h, v).prev[p] == h.prev[p]
  {
  }

  lemma ReversedNone(h: Links<Node>)
    requires h.next.Keys == h.prev.Keys
    ensures Reversed(h, {}) == h
  {
    assert Reversed(h, {}).next == h.next;
    assert Reversed(h, {}).prev == h.prev;
  }

  /** `rlnode_swap` of the two pointers of one node. */
  method Turn(p: Node, ghost u: set<Node>)
    requires p in u
    modifies p`next, p`prev
    ensures NextMap(u) == old(NextMap(u))[p := old(p.prev)] && PrevMap(u) == old(PrevMap(u))[p := old(p.next)]
    ensures p.next == old(p.prev)
  {
    var temp := p.prev;
    p.prev := p.next;
    p.next := temp;
  }

  type Snapshot = h: Links<Node> | Linked(h) witness Links(map[], map[])

  /** One turn of the loop of `rlist_reverse`. */
  method TurnBack(p: Node, ghost k: nat, l: Node, ghost h: Snapshot, ghost u: set<Node>) returns (next: Node)
    requires l in h.next && h.next.Keys == u && k <= |Contents(h, l)|
    requires p == Back(Contents(h, l), k, l) && View(u) == Reversed(h, Visited(Contents(h, l), k, l))
    modifies u`next, u`prev
    ensures View(u) == Reversed(h, Visited(Contents(h, l), k + 1, l))
    ensures next == Back(Contents(h, l), k + 1, l) && (k < |Contents(h, l)| <==> next != l)
  {
    WalkBack(h, l, k);
    ReversedAdd(h, Visited(Contents(h, l), k, l), p);
    assert p.prev == PrevMap(u)[p] && p.next == NextMap(u)[p];
    Turn(p, u);
    next := p.next;
  }

  method TurnAll(l: Node, ghost h: Snapshot, ghost u: set<Node>)
    requires l in h.next && h.next.Keys == u && View(u) == h
    modifies u`next, u`prev
    ensures View(u) == Reversed(h, Visited(Contents(h, l), |Contents(h, l)| + 1, l))
  {
    ghost var x, k := Contents(h, l), 0;
    ReversedNone(h);
    var p := l;
    while true
      invariant k <= |x| && p == Back(x, k, l)
      invariant View(u) == Reversed(h, Visited(x, k, l))
      decreases |x| - k
    {
      p := TurnBack(p, k, l, h, u);
      if p == l {
        break;
      }
      k := k + 1;
    }
  }

  method RlistReverse(l: Node, ghost u: set<Node>)
    requires Good(u) && l in u
    modifies u`next, u`prev
    ensures View(u) == Reversed(old(View(u)), set n | n in RingOf(old(View(u)), l))
  {
    VisitedAll(Contents(View(u), l), l);
    TurnAll(l, View(u), u);
  }

  // ---------------------------------------------------------------- select

  /** The nodes of `x` that satisfy `pred` (or do not), in order. */
  ghost function Filter(x: seq<Node>, pred: Node -> bool, want: bool): seq<Node> {
    if x == [] then []
    else Filter(x[..|x| - 1], pred, want) + (if pred(x[|x| - 1]) == want then [x[|x| - 1]] else [])
  }

  lemma FilterNext(x: seq<Node>, j: nat, pred: Node -> bool, want: bool)
    requires j < |x|
    ensures Filter(x[..j + 1], pred, want) == Filter(x[..j], pred, want) + (if pred(x[j]) == want then [x[j]] else [])
  {
    assert x[..j + 1][..j] == x[..j];
  }

  method MoveToBack(node: Node, dest: Node, ghost u: set<Node>)
    requires Good(u) && node in u && dest in u
    modifies u`next, u`prev
    ensures Good(u) && View(u) == MoveBack(old(View(u)), node, dest)
  {
    var p := RlistRemove(node, u);
    RlistPushBack(dest, p, u);
  }

  /** The loop of `rlist_select` has decided the first `j` nodes of the source list `x`; `i`
      is the last node it kept there, or the sentinel. */
  ghost predicate Selecting(u: set<Node>, src: Node, dest: Node, x: seq<Node>, d: seq<Node>, j: nat,
                            pred: Node -> bool, i: Node)
    requires j <= |x|
    reads u`next, u`prev
  {
    var kept := Filter(x[..j], pred, false);
    && src !in RingOf(View(u), dest)
    && Contents(View(u), src) == kept + x[j..]
    && Contents(View(u), dest) == d + Filter(x[..j], pred, true)
    && i == if kept == [] then src else kept[|kept| - 1]
  }

  lemma SelectCursor(u: set<Node>, src: Node, kept: seq<Node>, rest: seq<Node>, i: Node)
    requires Good(u) && src in u && Contents(View(u), src) == kept + rest
    requires i == if kept == [] then src else kept[|kept| - 1]
    ensures i in u && i.next == if rest == [] then src else rest[0]
    ensures rest == [] || rest[0] != src
  {
    Walk(u, src);
    var x := kept + rest;
    if kept != [] {
      assert x[|kept| - 1] == i;
    }
  }

  method SelectMove(src: Node, dest: Node, node: Node, ghost kept: seq<Node>, ghost rest: seq<Node>, ghost u: set<Node>)
    requires Good(u) && src in u && dest in u && node in u && src !in RingOf(View(u), dest)
    requires Contents(View(u), src) == kept + [node] + rest
    modifies u`next, u`prev
    ensures Good(u) && src !in RingOf(View(u), dest)
    ensures Contents(View(u), src) == kept + rest
    ensures Contents(View(u), dest) == old(Contents(View(u), dest)) + [node]
  {
    MoveLaw(View(u), src, kept, node, rest, dest);
    MoveToBack(node, dest, u);
  }

  lemma Shift(kept: seq<Node>, x: seq<Node>, j: nat)
    requires j < |x|
    ensures (kept + [x[j]]) + x[j + 1..] == kept + x[j..]
    ensures x[..j + 1][..j] == x[..j] && kept + [] == kept && x[j..] != [] && x[j..][0] == x[j]
  {
  }

  lemma Tail(d: seq<Node>, t: seq<Node>, n: Node)
    ensures d + t + [n] == d + (t + [n]) && t + [] == t
  {
  }

  /** The loop moves on over a node it keeps. */
  lemma SelectKeep(u: set<Node>, src: Node, dest: Node, x: seq<Node>, d: seq<Node>, j: nat, pred: Node -> bool, i: Node)
    requires Good(u) && src in u && j < |x| && Selecting(u, src, dest, x, d, j, pred, i) && !pred(x[j])
    ensures i.next == x[j] && Selecting(u, src, dest, x, d, j + 1, pred, x[j])
  {
    var kept := Filter(x[..j], pred, false);
    SelectCursor(u, src, kept, x[j..], i);
    FilterNext(x, j, pred, false);
    FilterNext(x, j, pred, true);
    Shift(kept, x, j);
  }

  /** The loop moves a matching node to the destination. */
  method SelectTake(src: Node, dest: Node, i: Node, ghost x: seq<Node>, ghost d: seq<Node>, ghost j: nat,
                    ghost pred: Node -> bool, ghost u: set<Node>)
    requires Good(u) && src in u && dest in u && i in u
    requires j < |x| && Selecting(u, src, dest, x, d, j, pred, i) && i.next == x[j] && x[j] in u && pred(x[j])
    modifies u`next, u`prev
    ensures Good(u) && Selecting(u, src, dest, x, d, j + 1, pred, i)
  {
    ghost var kept := Filter(x[..j], pred, false);
    FilterNext(x, j, pred, false);
    FilterNext(x, j, pred, true);
    Shift(kept, x, j);
    Tail(d, Filter(x[..j], pred, true), x[j]);
    SelectMove(src, dest, i.next, kept, x[j + 1..], u);
  }

  lemma SelectHere(u: set<Node>, src: Node, dest: Node, x: seq<Node>, d: seq<Node>, j: nat, pred: Node -> bool, i: Node)
    requires Good(u) && src in u && j <= |x| && Selecting(u, src, dest, x, d, j, pred, i)
    ensures i in u && (i.next == src <==> j == |x|) && (j < |x| ==> i.next == x[j] && x[j] in u)
  {
    SelectCursor(u, src, Filter(x[..j], pred, false), x[j..], i);
    GoodPointers(u, i);
  }

  lemma SelectStart(u: set<Node>, src: Node, dest: Node, x: seq<Node>, d: seq<Node>, pred: Node -> bool)
    requires src !in RingOf(View(u), dest) && x == Contents(View(u), src) && d == Contents(View(u), dest)
    ensures Selecting(u, src, dest, x, d, 0, pred, src)
  {
    assert x[..0] == [] && [] + x[0..] == x && d + [] == d;
  }

  lemma SelectDone(u: set<Node>, src: Node, dest: Node, x: seq<Node>, d: seq<Node>, pred: Node -> bool, i: Node)
    requires Selecting(u, src, dest, x, d, |x|, pred, i)
    ensures Contents(View(u), src) == Filter(x, pred, false)
    ensures Contents(View(u), dest) == d + Filter(x, pred, true)
  {
    assert x[..|x|] == x && Filter(x, pred, false) + x[|x|..] == Filter(x, pred, false);
  }

  /** Where the loop of `rlist_select` stands. */
  ghost predicate SelectAt(u: set<Node>, src: Node, dest: Node, x: seq<Node>, d: seq<Node>, j: nat, pred: Node -> bool,
                           i: Node)
    reads u`next, u`prev, i`next
  {
    && Good(u) && src in u && dest in u && i in u
    && j <= |x| && Selecting(u, src, dest, x, d, j, pred, i)
    && (i.next == src <==> j == |x|)
    && (j < |x| ==> i.next == x[j] && x[j] in u)
  }

  /** One turn of the loop of `rlist_select`. */
  method SelectTurn(src: Node, dest: Node, pred: Node -> bool, i: Node, ghost x: seq<Node>, ghost d: seq<Node>,
                    ghost j: nat, ghost u: set<Node>)
    returns (next: Node)
    requires j < |x| && SelectAt(u, src, dest, x, d, j, pred, i)
    modifies u`next, u`prev
    ensures SelectAt(u, src, dest, x, d, j + 1, pred, next)
  {
    if pred(i.next) {
      SelectTake(src, dest, i, x, d, j, pred, u);
      next := i;
    } else {
      SelectKeep(u, src, dest, x, d, j, pred, i);
      next := i.next;
    }
    SelectHere(u, src, dest, x, d, j + 1, pred, next);
  }

  method RlistSelect(src: Node, dest: Node, pred: Node -> bool, ghost u: set<Node>)
    requires Good(u) && src in u && dest in u && src !in RingOf(View(u), dest)
    modifies u`next, u`prev
    ensures Contents(View(u), src) == Filter(old(Contents(View(u), src)), pred, false)
    ensures Contents(View(u), dest) == old(Contents(View(u), dest)) + Filter(old(Contents(View(u), src)), pred, true)
  {
    ghost var x, d, j := Contents(View(u), src), Contents(View(u), dest), 0;
    var i := src;
    SelectStart(u, src, dest, x, d, pred);
    SelectHere(u, src, dest, x, d, 0, pred, src);
    while i.next != src
      invariant SelectAt(u, src, dest, x, d, j, pred, i)
      decreases |x| - j
    {
      i := SelectTurn(src, dest, pred, i, x, d, j, u);
      j := j + 1;
    }
    SelectDone(u, src, dest, x, d, pred, i);
  }
}
