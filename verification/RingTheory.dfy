/** Circular doubly linked rings (include/util.h) as a pair of pointer maps, and what one
    `rl_splice` does to them. */
module RingTheory {
  import opened Sequences

  datatype Links<T> = Links(next: map<T, T>, prev: map<T, T>)

  /** `prev` and `next` are each other's inverse on the same nodes. */
  predicate Linked<T(==)>(h: Links<T>) {
    && h.next.Keys == h.prev.Keys
    && (forall n {:trigger h.next[n]} :: n in h.next ==> h.next[n] in h.prev && h.prev[h.next[n]] == n)
    && (forall n {:trigger h.prev[n]} :: n in h.prev ==> h.prev[n] in h.next && h.next[h.prev[n]] == n)
  }

  /** `rlnode_swap` on two entries of a pointer map. */
  function Swap<T(==)>(m: map<T, T>, a: T, b: T): map<T, T>
    requires a in m && b in m
  {
    m[a := m[b]][b := m[a]]
  }

  /** Swaps two `next` pointers, and the `prev` pointers of the nodes they pointed at. */
  function Splice<T(==)>(h: Links<T>, a: T, b: T): Links<T>
    requires Linked(h) && a in h.next && b in h.next
  {
    Links(Swap(h.next, a, b), Swap(h.prev, h.next[a], h.next[b]))
  }

  /** Each node of `s` but the last points to the one after it. */
  ghost predicate IsPath<T>(h: Links<T>, s: seq<T>) {
    && (forall i :: 0 <= i < |s| ==> s[i] in h.next)
    && (forall i {:trigger h.next[s[i]]} :: 0 <= i < |s| - 1 ==> h.next[s[i]] == s[i + 1])
  }

  /** The nodes of `s`, in this order and starting anywhere, are one ring. */
  ghost predicate IsRing<T>(h: Links<T>, s: seq<T>) {
    s != [] && Distinct(s) && IsPath(h, s) && h.next[s[|s| - 1]] == s[0]
  }

  // ---------------------------------------------------------------- splice is an involution

  lemma SpliceLinked<T>(h: Links<T>, a: T, b: T)
    requires Linked(h) && a in h.next && b in h.next
    ensures Linked(Splice(h, a, b)) && Splice(h, a, b).next.Keys == h.next.Keys
  {
  }

  lemma SwapTwice<T>(m: map<T, T>, a: T, b: T)
    requires a in m && b in m
    ensures Swap(m, a, b) == Swap(m, b, a) && Swap(Swap(m, a, b), a, b) == m
  {
  }

  /** Repeating a splice undoes it. */
  lemma SpliceTwice<T>(h: Links<T>, a: T, b: T)
    requires Linked(h) && a in h.next && b in h.next
    ensures Linked(Splice(h, a, b)) && Splice(Splice(h, a, b), a, b) == h
  {
    SpliceLinked(h, a, b);
    SwapTwice(h.next, a, b);
    SwapTwice(h.prev, h.next[a], h.next[b]);
    SwapTwice(Splice(h, a, b).prev, h.next[a], h.next[b]);
  }

  // ---------------------------------------------------------------- join, split, frame

  lemma PathConcat<T>(h: Links<T>, s: seq<T>, t: seq<T>)
    requires IsPath(h, s) && IsPath(h, t)
    requires s != [] && t != [] ==> h.next[s[|s| - 1]] == t[0]
    ensures IsPath(h, s + t)
  {
  }

  lemma PathPart<T>(h: Links<T>, s: seq<T>, t: seq<T>, u: seq<T>)
    requires IsPath(h, s + t + u)
    ensures IsPath(h, t)
  {
    var r := s + t + u;
    forall i | 0 <= i < |t| ensures t[i] in h.next {
      assert r[|s| + i] == t[i];
    }
    forall i | 0 <= i < |t| - 1 ensures h.next[t[i]] == t[i + 1] {
      assert r[|s| + i] == t[i] && r[|s| + i + 1] == t[i + 1];
    }
  }

  /** Only the two spliced nodes get new successors. */
  lemma PathKeeps<T>(h: Links<T>, a: T, b: T, s: seq<T>)
    requires Linked(h) && a in h.next && b in h.next && IsPath(h, s) && a !in s && b !in s
    ensures IsPath(Splice(h, a, b), s)
  {
    assert forall i :: 0 <= i < |s| ==> s[i] in s;
  }

  /** A path that leads from `a` round to `z`: `a` points to the first node of `x`, and the
      last one to `z`. */
  ghost predicate Leads<T>(h: Links<T>, a: T, x: seq<T>, z: T) {
    && a in h.next && IsPath(h, x)
    && (if x == [] then h.next[a] == z else h.next[a] == x[0] && h.next[x[|x| - 1]] == z)
  }

  lemma RingLeads<T>(h: Links<T>, a: T, x: seq<T>)
    ensures IsRing(h, [a] + x) <==> Leads(h, a, x, a) && Distinct([a] + x)
  {
    var s := [a] + x;
    assert s[1..] == x;
    if IsRing(h, s) {
      assert [a] + x + [] == s;
      PathPart(h, [a], x, []);
      assert x != [] ==> s[1] == x[0];
    }
    if Leads(h, a, x, a) {
      PathConcat(h, [a], x);
    }
  }

  lemma LeadsConcat<T>(h: Links<T>, a: T, x: seq<T>, b: T, y: seq<T>, z: T)
    ensures Leads(h, a, x + [b] + y, z) <==> Leads(h, a, x, b) && Leads(h, b, y, z)
  {
    var s := x + [b] + y;
    assert s[|x|] == b;
    if Leads(h, a, s, z) {
      assert [] + x + ([b] + y) == s;
      PathPart(h, [], x, [b] + y);
      assert (x + [b]) + y + [] == s;
      PathPart(h, x + [b], y, []);
      assert x != [] ==> s[|x| - 1] == x[|x| - 1];
      assert y != [] ==> s[|x| + 1] == y[0];
    }
    if Leads(h, a, x, b) && Leads(h, b, y, z) {
      PathConcat(h, x, [b]);
      PathConcat(h, x + [b], y);
    }
  }

  lemma SpliceLeads<T>(h: Links<T>, a: T, b: T, x: seq<T>, z: T)
    requires Linked(h) && a in h.next && b in h.next && a !in x && b !in x
    ensures Leads(h, a, x, z) ==> Leads(Splice(h, a, b), b, x, z)
    ensures Leads(h, b, x, z) ==> Leads(Splice(h, a, b), a, x, z)
  {
    if IsPath(h, x) {
      PathKeeps(h, a, b, x);
    }
    assert x != [] ==> x[|x| - 1] in x;
  }

  /** [a, x] [b, y]  ==>  [a, y, b, x] */
  lemma SpliceJoins<T>(h: Links<T>, a: T, x: seq<T>, b: T, y: seq<T>)
    requires Linked(h) && a in h.next && b in h.next
    requires IsRing(h, [a] + x) && IsRing(h, [b] + y) && Distinct([a] + (y + [b] + x))
    ensures IsRing(Splice(h, a, b), [a] + (y + [b] + x))
  {
    var g := Splice(h, a, b);
    RingLeads(h, a, x);
    RingLeads(h, b, y);
    DistinctParts(a, y, b, x);
    SpliceLeads(h, a, b, x, a);
    SpliceLeads(h, a, b, y, b);
    LeadsConcat(g, a, y, b, x, a);
    RingLeads(g, a, y + [b] + x);
  }

  lemma DistinctParts<T>(a: T, x: seq<T>, b: T, y: seq<T>)
    requires Distinct([a] + (x + [b] + y))
    ensures a != b && a !in x && b !in x && a !in y && b !in y
    ensures Distinct([a] + y) && Distinct([b] + x)
  {
    var s := [a] + (x + [b] + y);
    assert s[0] == a && s[|x| + 1] == b;
    assert forall i :: 0 <= i < |x| ==> s[i + 1] == x[i];
    assert forall i :: 0 <= i < |y| ==> s[i + |x| + 2] == y[i];
  }

  /** [a, x, b, y]  ==>  [a, y] [b, x] */
  lemma SpliceSplits<T>(h: Links<T>, a: T, x: seq<T>, b: T, y: seq<T>)
    requires Linked(h) && a in h.next && b in h.next
    requires IsRing(h, [a] + (x + [b] + y))
    ensures IsRing(Splice(h, a, b), [a] + y) && IsRing(Splice(h, a, b), [b] + x)
  {
    var g := Splice(h, a, b);
    RingLeads(h, a, x + [b] + y);
    LeadsConcat(h, a, x, b, y, a);
    DistinctParts(a, x, b, y);
    SpliceLeads(h, a, b, x, b);
    SpliceLeads(h, a, b, y, a);
    RingLeads(g, a, y);
    RingLeads(g, b, x);
  }

  /** A ring that holds neither node is left alone. */
  lemma SpliceKeeps<T>(h: Links<T>, a: T, b: T, z: seq<T>)
    requires Linked(h) && a in h.next && b in h.next
    requires IsRing(h, z) && a !in z && b !in z
    ensures IsRing(Splice(h, a, b), z)
  {
    PathKeeps(h, a, b, z);
    assert z[|z| - 1] in z;
  }

  // ---------------------------------------------------------------- every node is on one ring

  /** The nodes met from `n` on, before `stop` comes round again. */
  function Chain<T(==)>(h: Links<T>, n: T, stop: T, unseen: set<T>): seq<T>
    requires Linked(h) && n in h.next
    decreases |unseen|
  {
    if n == stop || n !in unseen then [] else [n] + Chain(h, h.next[n], stop, unseen - {n})
  }

  /** A path without repetition cannot run back into its middle. */
  lemma PathNext<T>(h: Links<T>, a: T, x: seq<T>, last: T)
    requires Linked(h) && a in h.next && Distinct([a] + x) && IsPath(h, [a] + x) && last == ([a] + x)[|x|]
    ensures last in h.next && h.next[last] !in x
  {
    var s := [a] + x;
    forall i | 0 <= i < |x| ensures x[i] != h.next[last] {
      assert h.next[s[i]] == s[i + 1] == x[i];
      assert h.prev[x[i]] == s[i];
    }
  }

  lemma PathExtend<T>(h: Links<T>, a: T, x: seq<T>, n: T)
    requires Distinct([a] + x) && IsPath(h, [a] + x) && h.next[([a] + x)[|x|]] == n
    requires n in h.next && n != a && n !in x
    ensures Distinct([a] + (x + [n])) && IsPath(h, [a] + (x + [n]))
  {
    var s, t := [a] + x, [a] + (x + [n]);
    assert s + [n] == t;
    PathConcat(h, s, [n]);
    assert forall i :: 0 <= i < |x| ==> t[i + 1] == x[i];
  }

  lemma AppendOne<T>(x: seq<T>, n: T, y: seq<T>)
    ensures (x + [n]) + y == x + ([n] + y)
  {
  }

  /** A path that starts at `a` is completed by the chain from its last node. */
  lemma {:induction false} ChainCloses<T>(h: Links<T>, a: T, x: seq<T>, last: T, unseen: set<T>)
    requires Linked(h) && a in h.next && Distinct([a] + x) && IsPath(h, [a] + x)
    requires last == ([a] + x)[|x|] && forall n :: n in h.next && n !in x ==> n in unseen
    ensures IsRing(h, [a] + (x + Chain(h, h.next[last], a, unseen)))
    decreases |unseen|
  {
    var n := h.next[last];
    PathNext(h, a, x, last);
    if n == a {
      assert x + [] == x;
    } else {
      PathExtend(h, a, x, n);
      ChainCloses(h, a, x + [n], n, unseen - {n});
      AppendOne(x, n, Chain(h, h.next[n], a, unseen - {n}));
    }
  }

  lemma RingExists<T>(h: Links<T>, a: T)
    requires Linked(h) && a in h.next
    ensures exists x :: IsRing(h, [a] + x)
  {
    var x := Chain(h, h.next[a], a, h.next.Keys);
    ChainCloses(h, a, [], a, h.next.Keys);
    assert [] + x == x;
  }

  /** The other nodes of the ring of `a`: the contents of the list whose sentinel is `a`. */
  ghost function Contents<T>(h: Links<T>, a: T): (x: seq<T>) {
    if Linked(h) && a in h.next then
      RingExists(h, a);
      var x :| IsRing(h, [a] + x);
      x
    else []
  }

  /** The ring of `a`, from `a` on. */
  ghost function RingOf<T>(h: Links<T>, a: T): seq<T> {
    [a] + Contents(h, a)
  }

  lemma RingIsChain<T>(h: Links<T>, a: T, x: seq<T>)
    requires Linked(h) && a in h.next && IsRing(h, [a] + x)
    ensures Chain(h, h.next[a], a, h.next.Keys) == x
  {
    RingLeads(h, a, x);
    DistinctTail(a, x);
    LeadsIsChain(h, a, x, a, h.next.Keys);
  }

  /** There is only one ring that starts at a node. */
  lemma RingIsRingOf<T>(h: Links<T>, a: T, x: seq<T>)
    requires Linked(h) && IsRing(h, [a] + x)
    ensures a in h.next && Contents(h, a) == x
  {
    assert ([a] + x)[0] == a;
    RingIsChain(h, a, x);
    RingIsChain(h, a, Contents(h, a));
  }
  lemma DistinctTail<T>(a: T, x: seq<T>)
    requires Distinct([a] + x)
    ensures a !in x && Distinct(x)
  {
    assert ([a] + x)[0] == a;
    assert forall i :: 0 <= i < |x| ==> ([a] + x)[i + 1] == x[i];
  }

  lemma {:induction false} LeadsIsChain<T>(h: Links<T>, a: T, x: seq<T>, stop: T, unseen: set<T>)
    requires Linked(h) && Leads(h, a, x, stop) && stop !in x && Distinct(x)
    requires forall n :: n in x ==> n in unseen
    ensures Chain(h, h.next[a], stop, unseen) == x
  {
    if x != [] {
      var n := x[0];
      assert [] + [n] + x[1..] == x;
      LeadsConcat(h, a, [], n, x[1..], stop);
      LeadsIsChain(h, n, x[1..], stop, unseen - {n});
    }
  }
}
