/** Sequences without repetition, and operations on sequences that several modules use. */
module Sequences {

  ghost predicate Distinct<T>(s: seq<T>) {
    forall i, j :: 0 <= i < j < |s| ==> s[i] != s[j]
  }

  /** The first place of `x` in `l`, or the length. */
  function IndexOf<T(==)>(l: seq<T>, x: T): (k: nat)
    ensures k <= |l| && (k < |l| ==> l[k] == x) && forall i :: 0 <= i < k ==> l[i] != x
  {
    if l == [] || l[0] == x then 0 else 1 + IndexOf(l[1..], x)
  }

  /** `l` without the first `x`. */
  function Remove<T(!new,==)>(l: seq<T>, x: T): (r: seq<T>)
    ensures forall i :: 0 <= i < |r| ==> r[i] in l
    ensures forall y :: y in l && y != x ==> y in r
    ensures x in l ==> |r| == |l| - 1
    ensures Distinct(l) ==> Distinct(r) && x !in r
  {
    var k := IndexOf(l, x);
    if k < |l| then
      var r := l[..k] + l[k + 1..];
      assert forall i :: 0 <= i < |l| && i != k ==> l[i] == r[if i < k then i else i - 1];
      assert forall i :: 0 <= i < |r| ==> r[i] == l[if i < k then i else i + 1];
      r
    else l
  }

  lemma RemoveIs<T(!new)>(l: seq<T>, x: T)
    ensures x in l ==> IndexOf(l, x) < |l| && Remove(l, x) == l[..IndexOf(l, x)] + l[IndexOf(l, x) + 1..]
    ensures x !in l ==> Remove(l, x) == l
  {
    FirstAt(l, x);
  }

  lemma FirstAt<T>(l: seq<T>, x: T)
    ensures x in l <==> IndexOf(l, x) < |l|
  {
    if x in l {
      var i :| 0 <= i < |l| && l[i] == x;
      assert IndexOf(l, x) <= i;
    }
  }

  lemma HeadIn<T>(l: seq<T>)
    ensures l == [] || l[0] in l
  {
  }

  lemma SplitOut<T>(l: seq<T>, k: nat)
    requires k < |l|
    ensures l == l[..k] + [l[k]] + l[k + 1..]
  {
  }

  function Rev<T>(s: seq<T>): (r: seq<T>)
    ensures |r| == |s|
    ensures forall i :: 0 <= i < |s| ==> r[i] == s[|s| - 1 - i]
  {
    if s == [] then [] else Rev(s[1..]) + [s[0]]
  }

  lemma RevMembers<T>(s: seq<T>, y: T)
    ensures y in Rev(s) <==> y in s
  {
    var r := Rev(s);
    if y in s {
      var i :| 0 <= i < |s| && s[i] == y;
      assert r[|s| - 1 - i] == y;
    }
  }
}
