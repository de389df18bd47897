/** Resource lists (include/util.h): every operation is one or two splices, and this is what
    it does to the sequence of nodes of the list. */
module ListTheory {
  import opened Sequences
  import opened RingTheory

  // ---------------------------------------------------------------- the splice law

  lemma ContentsRing<T>(h: Links<T>, a: T)
    requires Linked(h) && a in h.next
    ensures IsRing(h, [a] + Contents(h, a)) && Leads(h, a, Contents(h, a), a)
    ensures a !in Contents(h, a) && Distinct(Contents(h, a)) && forall n :: n in Contents(h, a) ==> n in h.next
  {
    RingLeads(h, a, Contents(h, a));
    DistinctTail(a, Contents(h, a));
  }

  /** A ring seen from another of its nodes. */
  lemma Rotate<T>(h: Links<T>, a: T, x: seq<T>, b: T, y: seq<T>)
    requires Linked(h) && a in h.next && Contents(h, a) == x + [b] + y
    ensures b in h.next && Contents(h, b) == y + [a] + x
  {
    ContentsRing(h, a);
    LeadsConcat(h, a, x, b, y, a);
    LeadsConcat(h, b, y, a, x, b);
    DistinctParts(a, x, b, y);
    DistinctRotate(a, x, b, y);
    RingLeads(h, b, y + [a] + x);
    RingIsRingOf(h, b, y + [a] + x);
  }

  lemma DistinctRotate<T>(a: T, x: seq<T>, b: T, y: seq<T>)
    requires Distinct([a] + (x + [b] + y))
    ensures Distinct([b] + (y + [a] + x))
  {
    var s, t := [a] + (x + [b] + y), [b] + (y + [a] + x);
    var m, n := |x| + 1, |y| + 1;
    assert forall i :: 0 <= i < n ==> t[i] == s[m + i];
    assert forall i :: n <= i < |t| ==> t[i] == s[i - n];
  }

  lemma SplitAt<T>(s: seq<T>, n: T)
    requires n in s
    ensures IndexOf(s, n) < |s| && s == s[..IndexOf(s, n)] + [n] + s[IndexOf(s, n) + 1..]
  {
    FirstAt(s, n);
    SplitOut(s, IndexOf(s, n));
  }

  /** All nodes of a ring are on the same ring. */
  lemma SameRing<T>(h: Links<T>, a: T, n: T)
    requires Linked(h) && a in h.next && n in RingOf(h, a)
    ensures n in h.next && forall m :: m in RingOf(h, n) <==> m in RingOf(h, a)
  {
    var x := Contents(h, a);
    if n != a {
      var k := IndexOf(x, n);
      SplitAt(x, n);
      Rotate(h, a, x[..k], n, x[k + 1..]);
      assert forall m :: m in x <==> m in x[..k] || m == n || m in x[k + 1..];
    }
  }

  lemma RingsApart<T>(h: Links<T>, a: T, b: T, n: T)
    requires Linked(h) && a in h.next && b in h.next && b !in RingOf(h, a)
    ensures !(n in RingOf(h, a) && n in RingOf(h, b))
  {
    if n in RingOf(h, a) && n in RingOf(h, b) {
      SameRing(h, a, n);
      SameRing(h, b, n);
    }
  }

  lemma DistinctJoin<T>(a: T, x: seq<T>, b: T, y: seq<T>)
    requires Distinct([a] + x) && Distinct([b] + y)
    requires forall i, j :: 0 <= i <= |x| && 0 <= j <= |y| ==> ([a] + x)[i] != ([b] + y)[j]
    ensures Distinct([a] + (y + [b] + x))
  {
    var s, p, q, m := [a] + (y + [b] + x), [a] + x, [b] + y, |y| + 1;
    assert forall i :: 0 <= i < |s| ==>
      s[i] == if i == 0 then p[0] else if i < m then q[i] else if i == m then q[0] else p[i - m];
  }

  lemma JoinDistinct<T>(h: Links<T>, a: T, b: T)
    requires Linked(h) && a in h.next && b in h.next && b !in RingOf(h, a)
    ensures Distinct([a] + (Contents(h, b) + [b] + Contents(h, a)))
  {
    var p, q := RingOf(h, a), RingOf(h, b);
    forall i, j | 0 <= i < |p| && 0 <= j < |q| ensures p[i] != q[j] {
      RingsApart(h, a, b, p[i]);
    }
    DistinctJoin(a, Contents(h, a), b, Contents(h, b));
  }

  lemma JoinContents<T>(h: Links<T>, a: T, b: T)
    requires Linked(h) && a in h.next && b in h.next && b !in RingOf(h, a)
    ensures Linked(Splice(h, a, b)) && a in Splice(h, a, b).next
    ensures Contents(Splice(h, a, b), a) == Contents(h, b) + [b] + Contents(h, a)
  {
    SpliceLinked(h, a, b);
    JoinDistinct(h, a, b);
    SpliceJoins(h, a, Contents(h, a), b, Contents(h, b));
    RingIsRingOf(Splice(h, a, b), a, Contents(h, b) + [b] + Contents(h, a));
  }

  lemma SplitContents<T>(h: Links<T>, a: T, x: seq<T>, b: T, y: seq<T>)
    requires Linked(h) && a in h.next && Contents(h, a) == x + [b] + y
    ensures b in h.next
    ensures Linked(Splice(h, a, b)) && a in Splice(h, a, b).next && b in Splice(h, a, b).next
    ensures Contents(Splice(h, a, b), a) == y && Contents(Splice(h, a, b), b) == x
  {
    ContentsRing(h, a);
    assert (x + [b] + y)[|x|] == b;
    SpliceLinked(h, a, b);
    SpliceSplits(h, a, x, b, y);
    RingIsRingOf(Splice(h, a, b), a, y);
    RingIsRingOf(Splice(h, a, b), b, x);
  }

  lemma KeepContents<T>(h: Links<T>, a: T, b: T, n: T)
    requires Linked(h) && a in h.next && b in h.next && n in h.next && a !in RingOf(h, n) && b !in RingOf(h, n)
    ensures Linked(Splice(h, a, b)) && n in Splice(h, a, b).next
    ensures Contents(Splice(h, a, b), n) == Contents(h, n)
  {
    SpliceLinked(h, a, b);
    ContentsRing(h, n);
    SpliceKeeps(h, a, b, RingOf(h, n));
    RingIsRingOf(Splice(h, a, b), n, Contents(h, n));
  }

  lemma SpliceSelf<T>(h: Links<T>, a: T)
    requires Linked(h) && a in h.next
    ensures Splice(h, a, a) == h && a !in Contents(h, a)
  {
    ContentsRing(h, a);
  }

  // ---------------------------------------------------------------- the list operations

  function PushFront<T(==)>(h: Links<T>, list: T, node: T): Links<T>
    requires Linked(h) && list in h.next && node in h.next
  {
    Splice(h, list, node)
  }

  function PushBack<T(==)>(h: Links<T>, list: T, node: T): Links<T>
    requires Linked(h) && list in h.next && node in h.next
  {
    Splice(h, h.prev[list], node)
  }

  function RemoveNode<T(==)>(h: Links<T>, node: T): Links<T>
    requires Linked(h) && node in h.next
  {
    Splice(h, node, h.prev[node])
  }

  function PopFront<T(==)>(h: Links<T>, list: T): Links<T>
    requires Linked(h) && list in h.next
  {
    Splice(h, list, h.next[list])
  }

  function PopBack<T(==)>(h: Links<T>, list: T): Links<T>
    requires Linked(h) && list in h.next
  {
    Splice(h, list, h.prev[list])
  }

  /** The head and the tail of a list are next to its sentinel. */
  lemma Ends<T>(h: Links<T>, list: T)
    requires Linked(h) && list in h.next
    ensures var x := Contents(h, list);
      && h.next[list] == (if x == [] then list else x[0])
      && h.prev[list] == (if x == [] then list else x[|x| - 1])
  {
    ContentsRing(h, list);
  }

  /** Pushing in front of list X the ring [N, Y] gives Y, N, X. */
  lemma PushFrontLaw<T>(h: Links<T>, list: T, node: T)
    requires Linked(h) && list in h.next && node in h.next && node !in RingOf(h, list)
    ensures Linked(PushFront(h, list, node)) && list in PushFront(h, list, node).next
    ensures Contents(PushFront(h, list, node), list) == Contents(h, node) + [node] + Contents(h, list)
  {
    JoinContents(h, list, node);
  }

  /** Splicing the last node `p` of a list with a node of another ring. */
  lemma SpliceLast<T>(h: Links<T>, list: T, w: seq<T>, p: T, node: T)
    requires Linked(h) && list in h.next && node in h.next && node !in RingOf(h, list)
    requires Contents(h, list) == w + [p] + []
    ensures p in h.next && Linked(Splice(h, p, node)) && list in Splice(h, p, node).next
    ensures Contents(Splice(h, p, node), list) == w + [p] + (Contents(h, node) + [node])
  {
    var y := Contents(h, node);
    Rotate(h, list, w, p, []);
    SameRing(h, list, p);
    JoinContents(h, p, node);
    Regroup(y, node, list, w);
    Rotate(Splice(h, p, node), p, y + [node], list, w);
  }

  lemma Regroup<T>(y: seq<T>, node: T, list: T, w: seq<T>)
    ensures y + [node] + ([] + [list] + w) == (y + [node]) + [list] + w
  {
  }

  /** Pushing behind list X the ring [N, Y] gives X, Y, N. */
  lemma PushBackLaw<T>(h: Links<T>, list: T, node: T)
    requires Linked(h) && list in h.next && node in h.next && node !in RingOf(h, list)
    ensures h.prev[list] in h.next
    ensures Linked(PushBack(h, list, node)) && list in PushBack(h, list, node).next
    ensures Contents(PushBack(h, list, node), list) == Contents(h, list) + (Contents(h, node) + [node])
  {
    var x := Contents(h, list);
    Ends(h, list);
    if x == [] {
      JoinContents(h, list, node);
    } else {
      LastSplit(x);
      SpliceLast(h, list, x[..|x| - 1], x[|x| - 1], node);
    }
  }

  lemma LastSplit<T>(x: seq<T>)
    requires x != []
    ensures x == x[..|x| - 1] + [x[|x| - 1]] + [] && x == x[..|x| - 1] + [x[|x| - 1]]
    ensures x[|x| - 1] in x
  {
  }

  /** Cutting the ring between `node` and the node `q` before it. */
  lemma RemoveAt<T>(h: Links<T>, node: T, w: seq<T>, q: T)
    requires Linked(h) && node in h.next && Contents(h, node) == w + [q]
    ensures q in h.next && h.prev[node] == q
    ensures Linked(RemoveNode(h, node)) && node in RemoveNode(h, node).next && q in RemoveNode(h, node).next
    ensures Contents(RemoveNode(h, node), node) == [] && Contents(RemoveNode(h, node), q) == w
  {
    Ends(h, node);
    assert w + [q] == w + [q] + [];
    SplitContents(h, node, w, q, []);
  }

  /** Removing a node takes just that node out of its list and makes it a ring of its own. */
  lemma RemoveLaw<T>(h: Links<T>, list: T, u: seq<T>, node: T, v: seq<T>)
    requires Linked(h) && list in h.next && Contents(h, list) == u + [node] + v
    ensures node in h.next && h.prev[node] in h.next
    ensures Linked(RemoveNode(h, node)) && list in RemoveNode(h, node).next && node in RemoveNode(h, node).next
    ensures Contents(RemoveNode(h, node), list) == u + v
    ensures Contents(RemoveNode(h, node), node) == []
  {
    Rotate(h, list, u, node, v);
    if u == [] {
      assert v + [list] + u == v + [list] && u + v == v;
      RemoveAt(h, node, v, list);
    } else {
      var t, q := u[..|u| - 1], u[|u| - 1];
      LastInside(v, list, u);
      RemoveAt(h, node, v + [list] + t, q);
      Rotate(RemoveNode(h, node), q, v, list, t);
    }
  }

  lemma LastInside<T>(v: seq<T>, list: T, u: seq<T>)
    requires u != []
    ensures v + [list] + u == (v + [list] + u[..|u| - 1]) + [u[|u| - 1]]
    ensures u[..|u| - 1] + [u[|u| - 1]] == u
  {
  }

  lemma RemoveAlone<T>(h: Links<T>, node: T)
    requires Linked(h) && node in h.next && Contents(h, node) == []
    ensures RemoveNode(h, node) == h
  {
    Ends(h, node);
    SpliceSelf(h, node);
  }

  /** Popping the front of a non-empty list removes and returns its first node. */
  lemma PopFrontLaw<T>(h: Links<T>, list: T)
    requires Linked(h) && list in h.next && Contents(h, list) != []
    ensures var x := Contents(h, list);
      && h.next[list] == x[0]
      && Linked(PopFront(h, list)) && list in PopFront(h, list).next && x[0] in PopFront(h, list).next
      && Contents(PopFront(h, list), list) == x[1..]
      && Contents(PopFront(h, list), x[0]) == []
  {
    var x := Contents(h, list);
    Ends(h, list);
    assert x == [] + [x[0]] + x[1..];
    SplitContents(h, list, [], x[0], x[1..]);
  }

  /** Popping an empty list, from either end, returns the sentinel and changes nothing. */
  lemma PopEmpty<T>(h: Links<T>, list: T)
    requires Linked(h) && list in h.next && Contents(h, list) == []
    ensures h.next[list] == list == h.prev[list] && PopFront(h, list) == h && PopBack(h, list) == h
  {
    Ends(h, list);
    SpliceSelf(h, list);
  }

  /** What `rlist_pop_back` really does: it empties the list, and the node it returns keeps
      all the other nodes in its ring. */
  lemma PopBackLaw<T>(h: Links<T>, list: T)
    requires Linked(h) && list in h.next && Contents(h, list) != []
    ensures var x := Contents(h, list);
      && h.prev[list] == x[|x| - 1]
      && Linked(PopBack(h, list)) && list in PopBack(h, list).next && x[|x| - 1] in PopBack(h, list).next
      && Contents(PopBack(h, list), list) == []
      && Contents(PopBack(h, list), x[|x| - 1]) == x[..|x| - 1]
  {
    var x := Contents(h, list);
    Ends(h, list);
    LastSplit(x);
    SplitContents(h, list, x[..|x| - 1], x[|x| - 1], []);
  }

  /** `rlist_pop_back` removes just the tail, as documented, exactly when the list has no
      more than one node. */
  lemma PopBackIff<T>(h: Links<T>, list: T)
    requires Linked(h) && list in h.next && Contents(h, list) != []
    ensures Linked(PopBack(h, list)) && list in PopBack(h, list).next
    ensures var x := Contents(h, list);
      Contents(PopBack(h, list), list) == x[..|x| - 1] <==> |x| == 1
  {
    PopBackLaw(h, list);
  }

  function Append<T(==)>(h: Links<T>, dest: T, src: T): Links<T>
    requires Linked(h) && dest in h.next && src in h.next
  {
    SpliceLinked(h, h.prev[dest], src);
    RemoveNode(PushBack(h, dest, src), src)
  }

  function Prepend<T(==)>(h: Links<T>, dest: T, src: T): Links<T>
    requires Linked(h) && dest in h.next && src in h.next
  {
    SpliceLinked(h, dest, src);
    RemoveNode(PushFront(h, dest, src), src)
  }

  /** [dest, X] [src, Y]  ==>  [dest, X, Y] [src] */
  lemma AppendLaw<T>(h: Links<T>, dest: T, src: T)
    requires Linked(h) && dest in h.next && src in h.next && src !in RingOf(h, dest)
    ensures Linked(Append(h, dest, src)) && dest in Append(h, dest, src).next && src in Append(h, dest, src).next
    ensures Contents(Append(h, dest, src), dest) == Contents(h, dest) + Contents(h, src)
    ensures Contents(Append(h, dest, src), src) == []
  {
    var x, y := Contents(h, dest), Contents(h, src);
    PushBackLaw(h, dest, src);
    assert x + (y + [src]) == (x + y) + [src] + [];
    RemoveLaw(PushBack(h, dest, src), dest, x + y, src, []);
    assert (x + y) + [] == x + y;
  }

  /** [dest, X] [src, Y]  ==>  [dest, Y, X] [src] */
  lemma PrependLaw<T>(h: Links<T>, dest: T, src: T)
    requires Linked(h) && dest in h.next && src in h.next && src !in RingOf(h, dest)
    ensures Linked(Prepend(h, dest, src)) && dest in Prepend(h, dest, src).next && src in Prepend(h, dest, src).next
    ensures Contents(Prepend(h, dest, src), dest) == Contents(h, src) + Contents(h, dest)
    ensures Contents(Prepend(h, dest, src), src) == []
  {
    PushFrontLaw(h, dest, src);
    RemoveLaw(PushFront(h, dest, src), dest, Contents(h, src), src, Contents(h, dest));
  }

  // ---------------------------------------------------------------- other lists

  lemma OffRing<T>(h: Links<T>, list: T, node: T, n: T)
    requires Linked(h) && n in h.next && list in h.next && node in RingOf(h, list) && list !in RingOf(h, n)
    ensures node in h.next && node !in RingOf(h, n)
  {
    SameRing(h, list, node);
    if node in RingOf(h, n) {
      SameRing(h, n, node);
    }
  }

  lemma PrevOnRing<T>(h: Links<T>, list: T)
    requires Linked(h) && list in h.next
    ensures h.prev[list] in RingOf(h, list)
  {
    Ends(h, list);
  }

  lemma PushBackKeeps<T>(h: Links<T>, list: T, node: T, n: T)
    requires Linked(h) && list in h.next && node in h.next && n in h.next
    requires list !in RingOf(h, n) && node !in RingOf(h, n)
    ensures h.prev[list] in h.next
    ensures Linked(PushBack(h, list, node)) && n in PushBack(h, list, node).next
    ensures Contents(PushBack(h, list, node), n) == Contents(h, n)
  {
    PrevOnRing(h, list);
    OffRing(h, list, h.prev[list], n);
    KeepContents(h, h.prev[list], node, n);
  }

  lemma RemoveKeeps<T>(h: Links<T>, node: T, n: T)
    requires Linked(h) && node in h.next && n in h.next && node !in RingOf(h, n)
    ensures h.prev[node] in h.next
    ensures Linked(RemoveNode(h, node)) && n in RemoveNode(h, node).next
    ensures Contents(RemoveNode(h, node), n) == Contents(h, n)
  {
    PrevOnRing(h, node);
    OffRing(h, node, h.prev[node], n);
    KeepContents(h, node, h.prev[node], n);
  }

  // ---------------------------------------------------------------- moving a node

  /** Removing a node and pushing it behind another list. */
  function MoveBack<T(==)>(h: Links<T>, node: T, dest: T): Links<T>
    requires Linked(h) && node in h.next && dest in h.next
  {
    SpliceLinked(h, node, h.prev[node]);
    PushBack(RemoveNode(h, node), dest, node)
  }

  lemma Apart<T>(h: Links<T>, src: T, dest: T)
    requires Linked(h) && src in h.next && dest in h.next && src !in RingOf(h, dest)
    ensures dest !in RingOf(h, src)
  {
    if dest in RingOf(h, src) {
      SameRing(h, src, dest);
    }
  }

  lemma RemoveForMove<T>(h: Links<T>, src: T, a: seq<T>, node: T, b: seq<T>, dest: T)
    requires Linked(h) && src in h.next && dest in h.next && src !in RingOf(h, dest)
    requires Contents(h, src) == a + [node] + b
    ensures node in h.next && h.prev[node] in h.next
    ensures var g := RemoveNode(h, node);
      && Linked(g) && src in g.next && dest in g.next && node in g.next
      && Contents(g, src) == a + b && Contents(g, dest) == Contents(h, dest) && Contents(g, node) == []
      && node !in RingOf(g, dest) && src !in RingOf(g, dest)
  {
    RemoveLaw(h, src, a, node, b);
    assert (a + [node] + b)[|a|] == node;
    OffRing(h, src, node, dest);
    RemoveKeeps(h, node, dest);
  }

  /** The source list loses just that node; the destination gains it at its end. */
  lemma MoveLaw<T>(h: Links<T>, src: T, a: seq<T>, node: T, b: seq<T>, dest: T)
    requires Linked(h) && src in h.next && dest in h.next && src !in RingOf(h, dest)
    requires Contents(h, src) == a + [node] + b
    ensures node in h.next
    ensures var g := MoveBack(h, node, dest);
      && Linked(g) && src in g.next && dest in g.next
      && Contents(g, src) == a + b
      && Contents(g, dest) == Contents(h, dest) + [node]
      && src !in RingOf(g, dest)
  {
    RemoveForMove(h, src, a, node, b, dest);
    var g := RemoveNode(h, node);
    PushBackLaw(g, dest, node);
    assert Contents(h, dest) + ([] + [node]) == Contents(h, dest) + [node];
    Apart(g, src, dest);
    NotInRest(h, src, a, node, b);
    PushBackKeeps(g, dest, node, src);
  }

  lemma NotInRest<T>(h: Links<T>, src: T, a: seq<T>, node: T, b: seq<T>)
    requires Linked(h) && src in h.next && Contents(h, src) == a + [node] + b
    ensures node != src && node !in [src] + (a + b)
  {
    ContentsRing(h, src);
    DistinctParts(src, a, node, b);
  }

  // ---------------------------------------------------------------- reversal

  /** The pointers after the nodes `s` have swapped their `prev` and `next`. */
  function Reversed<T(==)>(h: Links<T>, s: set<T>): Links<T>
    requires h.next.Keys == h.prev.Keys
  {
    Links(map n | n in h.next :: if n in s then h.prev[n] else h.next[n],
          map n | n in h.prev :: if n in s then h.next[n] else h.prev[n])
  }

  lemma RingClosed<T>(h: Links<T>, a: T, n: T)
    requires Linked(h) && a in h.next && n in h.next
    ensures n in RingOf(h, a) <==> h.next[n] in RingOf(h, a)
  {
    var q := h.next[n];
    Ends(h, n);
    Ends(h, q);
    if n in RingOf(h, a) {
      SameRing(h, a, n);
    }
    if q in RingOf(h, a) {
      SameRing(h, a, q);
    }
  }

  lemma ReverseAt<T>(h: Links<T>, s: set<T>, n: T)
    requires Linked(h) && n in h.next && (n in s <==> h.next[n] in s) && (n in s <==> h.prev[n] in s)
    ensures var g := Reversed(h, s);
      g.next[n] in g.prev && g.prev[g.next[n]] == n && g.prev[n] in g.next && g.next[g.prev[n]] == n
  {
  }

  ghost predicate Closed<T>(h: Links<T>, s: set<T>)
    requires Linked(h)
  {
    forall n {:trigger n in s} :: n in h.next ==> (n in s <==> h.next[n] in s)
  }

  lemma ReverseLinked<T>(h: Links<T>, s: set<T>)
    requires Linked(h) && Closed(h, s)
    ensures Linked(Reversed(h, s))
  {
    var g := Reversed(h, s);
    forall n {:trigger g.next[n]} | n in g.next ensures g.next[n] in g.prev && g.prev[g.next[n]] == n {
      ClosedAt(h, s, n);
      ReverseAt(h, s, n);
    }
    forall n {:trigger g.prev[n]} | n in g.prev ensures g.prev[n] in g.next && g.next[g.prev[n]] == n {
      ClosedAt(h, s, n);
      ReverseAt(h, s, n);
    }
  }

  lemma ClosedAt<T>(h: Links<T>, s: set<T>, n: T)
    requires Linked(h) && Closed(h, s) && n in h.next
    ensures (n in s <==> h.next[n] in s) && (n in s <==> h.prev[n] in s)
  {
    assert h.next[h.prev[n]] == n;
  }

  /** In a reversed path each node leads to the one that was before it. */
  lemma ReversePath<T>(h: Links<T>, s: set<T>, x: seq<T>)
    requires Linked(h) && IsPath(h, x) && forall n :: n in x ==> n in s
    ensures IsPath(Reversed(h, s), Rev(x))
  {
    var g, r := Reversed(h, s), Rev(x);
    forall i | 0 <= i < |r| ensures r[i] in g.next {
      assert r[i] == x[|x| - 1 - i];
    }
    forall i | 0 <= i < |r| - 1 ensures g.next[r[i]] == r[i + 1] {
      var j := |x| - 2 - i;
      assert h.next[x[j]] == x[j + 1] == r[i];
      assert r[i + 1] == x[j] && x[j + 1] in x;
    }
  }

  lemma RevDistinct<T>(list: T, x: seq<T>)
    requires Distinct([list] + x)
    ensures Distinct([list] + Rev(x))
  {
    var s, r, n := [list] + x, [list] + Rev(x), |x| + 1;
    assert forall i :: 0 <= i < n ==> r[i] == s[if i == 0 then 0 else n - i];
  }

  lemma ReverseRing<T>(h: Links<T>, list: T, x: seq<T>, s: set<T>)
    requires Linked(h) && list in h.next && Leads(h, list, x, list) && Distinct([list] + x)
    requires list in s && forall n :: n in x ==> n in s
    ensures IsRing(Reversed(h, s), [list] + Rev(x))
  {
    var g, r := Reversed(h, s), Rev(x);
    ReversePath(h, s, x);
    RevDistinct(list, x);
    if x == [] {
      assert h.prev[list] == list;
    } else {
      assert h.prev[list] == x[|x| - 1] == r[0];
      assert h.prev[x[0]] == list && x[0] == r[|r| - 1] && x[0] in x;
    }
    RingLeads(g, list, r);
  }

  /** Reversing the direction of a ring reverses the list. */
  lemma ReverseLaw<T>(h: Links<T>, list: T, s: set<T>)
    requires Linked(h) && list in h.next && s == set n | n in RingOf(h, list)
    ensures Linked(Reversed(h, s)) && list in Reversed(h, s).next
    ensures Contents(Reversed(h, s), list) == Rev(Contents(h, list))
  {
    var x := Contents(h, list);
    forall n | n in h.next ensures n in s <==> h.next[n] in s {
      RingClosed(h, list, n);
    }
    ReverseLinked(h, s);
    ContentsRing(h, list);
    ReverseRing(h, list, x, s);
    RingIsRingOf(Reversed(h, s), list, Rev(x));
  }
}
