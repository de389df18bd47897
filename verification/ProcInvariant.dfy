/** Every step of the process table keeps its invariant. */
module ProcInvariant {
  import opened Sequences
  import opened ProcTable

  /** Some thread of process `p` is running: it has one that is not the one waiting. */
  ghost predicate Running(s: Procs, p: Pid)
    requires Shape(s)
  {
    && INIT <= p < s.N() && s.pstate[p] == ALIVE
    && s.threads[p] >= (if s.waiting[p] == NOT_WAITING then 1 else 2)
  }

  // ---------------------------------------------------------------- Exec

  /** What Exec does when a control block is free: `n` becomes the newest child of `p`. */
  ghost predicate Born(s: Procs, t: Procs, p: Pid, n: Pid)
    requires Shape(s)
  {
    && 2 <= n < s.N() && 0 <= p < s.N() && |s.free| > 0 && n == s.free[0] == s.freeHead
    && s.pstate[n] == FREE
    && Shape(t)
    && t.pstate == s.pstate[n := ALIVE]
    && t.parent == s.parent[n := p]
    && t.children == s.children[p := [n] + s.children[p]]
    && t.exitval == s.exitval && t.exited == s.exited
    && t.fidt == s.fidt[n := s.fidt[p]]
    && (t.threads == s.threads || t.threads == s.threads[n := s.threads[n] + 1])
    && t.free == s.free[1..] && t.count == s.count + 1
    && t.freeHead == s.parent[n]
    && t.waiting == s.waiting && t.woken == s.woken && t.number == s.number[n := s.created]
        && t.created == s.created + 1
    && t.exits == s.exits && t.delivered == s.delivered && t.said == s.said[n := Nothing]
  }

  lemma ExecBorn(s: Procs, p: Pid, runs: bool)
    requires Shape(s) && Forest(s) && FreeExact(s) && 0 <= p < s.N() && s.freeHead != NULL
    ensures Born(s, Exec(s, p, runs), p, s.freeHead)
  {
    var n := s.freeHead;
    assert n == s.free[0] && n in s.free;
    assert n != 0 && n != INIT;
    var t := Exec(s, p, runs);
    forall q | 0 <= q < s.N() ensures AllPids(t.children[q], s.N()) && AllPids(t.exited[q], s.N()) {
      assert AllPids(s.children[q], s.N()) && AllPids(s.exited[q], s.N());
    }
  }

  lemma BornParents(s: Procs, t: Procs, p: Pid, n: Pid)
    requires Shape(s) && Born(s, t, p, n) && Parents(s)
    requires s.children[n] == [] && INIT <= p && s.pstate[p] == ALIVE && s.number[p] < s.created
    ensures Parents(t)
  {
    forall q | 2 <= q < t.N() && t.pstate[q] != FREE ensures HasParent(t, q) {
      if q == n {
        assert t.children[p][0] == n;
      } else {
        assert HasParent(s, q);
      }
    }
  }

  lemma BornChildren(s: Procs, t: Procs, p: Pid, n: Pid)
    requires Shape(s) && Born(s, t, p, n) && Children(s) && ChildrenOnce(s)
    requires s.children[n] == [] && s.pstate[p] == ALIVE
    ensures Children(t) && ChildrenOnce(t)
  {
    forall q, c {:trigger c in t.children[q]} | 0 <= q < t.N() && c in t.children[q]
      ensures 2 <= c < t.N() && t.pstate[c] != FREE && t.parent[c] == q
    {
      if q != p || c != n {
        assert c in s.children[q];
        assert s.pstate[c] != FREE;
      }
    }
    forall q | 0 <= q < t.N() ensures Distinct(t.children[q]) {
      assert Distinct(s.children[q]);
      assert n !in s.children[p];
    }
  }

  lemma BornExited(s: Procs, t: Procs, p: Pid, n: Pid)
    requires Shape(s) && Born(s, t, p, n) && ExitedExact(s)
    ensures ExitedExact(t)
  {
  }

  lemma BornEmpty(s: Procs, t: Procs, p: Pid, n: Pid)
    requires Shape(s) && Born(s, t, p, n) && DeadIsEmpty(s) && s.pstate[p] == ALIVE
    ensures DeadIsEmpty(t)
  {
  }

  lemma BornFree(s: Procs, t: Procs, p: Pid, n: Pid)
    requires Shape(s) && Born(s, t, p, n) && FreeExact(s)
    ensures FreeExact(t)
  {
    forall q | 0 <= q < t.N() ensures t.pstate[q] == FREE <==> q in t.free {
      assert s.free == [n] + t.free;
      assert n !in t.free;
      assert q in s.free <==> q == n || q in t.free;
    }
    assert forall i :: 0 <= i < |t.free| ==> t.free[i] == s.free[i + 1];
    assert s.parent[s.free[0]] == if 1 < |s.free| then s.free[1] else NULL;
  }

  lemma BornExits(s: Procs, t: Procs, p: Pid, n: Pid)
    requires Shape(s) && Born(s, t, p, n) && ExitsOnce(s)
    ensures ExitsOnce(t)
  {
    forall k | k in t.exits && k !in t.delivered ensures ZombieNumbered(t, k) {
      assert ZombieNumbered(s, k);
      var z :| 2 <= z < s.N() && s.pstate[z] == ZOMBIE && s.number[z] == k;
      assert t.pstate[z] == ZOMBIE && t.number[z] == k;
    }
  }

  lemma BornWaits(s: Procs, t: Procs, p: Pid, n: Pid)
    requires Shape(s) && Born(s, t, p, n) && WaitsLegal(s) && NoneForgotten(s)
    ensures WaitsLegal(t) && NoneForgotten(t)
  {
  }

  lemma BornRest(s: Procs, t: Procs, p: Pid, n: Pid)
    requires Shape(s) && Born(s, t, p, n) && Roots(s) && StatusSaid(s) && ThreadsCounted(s)
    ensures Roots(t) && StatusSaid(t) && ThreadsCounted(t)
  {
  }

  lemma BornIsNew(s: Procs, t: Procs, p: Pid, n: Pid)
    requires Shape(s) && Born(s, t, p, n) && DeadIsEmpty(s) && ExitsOnce(s) && s.pstate[p] == ALIVE
    ensures s.children[n] == [] && s.number[p] < s.created
  {
  }

  lemma BornInv(s: Procs, t: Procs, p: Pid, n: Pid)
    requires Inv(s) && Running(s, p) && Born(s, t, p, n)
    ensures Inv(t)
  {
    BornIsNew(s, t, p, n);
    BornRest(s, t, p, n);
    BornParents(s, t, p, n);
    BornChildren(s, t, p, n);
    BornExited(s, t, p, n);
    BornEmpty(s, t, p, n);
    BornFree(s, t, p, n);
    BornExits(s, t, p, n);
    BornWaits(s, t, p, n);
  }

  lemma ExecInv(s: Procs, p: Pid, runs: bool)
    requires Inv(s) && Running(s, p)
    ensures Inv(Exec(s, p, runs))
  {
    if s.freeHead != NULL {
      ExecBorn(s, p, runs);
      BornInv(s, Exec(s, p, runs), p, s.freeHead);
    }
  }

  // ---------------------------------------------------------------- ThreadExit

  /** Following parents from any process leads to the initial one, which is therefore alive,
      older, and has a child. */
  lemma {:induction false} Rooted(s: Procs, p: Pid)
    requires Shape(s) && Parents(s) && 2 <= p < s.N() && s.pstate[p] != FREE
    ensures s.pstate[INIT] == ALIVE && s.number[INIT] < s.number[p] && s.children[INIT] != []
    decreases s.number[p]
  {
    assert HasParent(s, p);
    if s.parent[p] != INIT {
      Rooted(s, s.parent[p]);
    }
  }

  /** What the exit of the last thread of process `p` does, `p` not being the initial one. */
  ghost predicate Died(s: Procs, t: Procs, p: Pid)
    requires Shape(s)
  {
    && 2 <= p < s.N() && s.pstate[p] == ALIVE && s.threads[p] == 1 && s.waiting[p] == NOT_WAITING
    && INIT <= s.parent[p] && s.parent[p] != p && s.pstate[s.parent[p]] == ALIVE
    && s.pstate[INIT] == ALIVE && s.number[INIT] < s.number[p]
    && Shape(t) && t.N() == s.N()
    && t.pstate == s.pstate[p := ZOMBIE]
    && (forall x :: 0 <= x < s.N() ==> t.parent[x] == if x in s.children[p] then INIT else s.parent[x])
    && t.children == s.children[p := []][INIT := Rev(s.children[p]) + s.children[INIT]]
    && t.exited == Merged(s.exited, p, s.parent[p])
    && t.exitval == s.exitval && t.waiting == s.waiting && t.number == s.number && t.created == s.created
    && t.woken == (if s.exited[p] != [] then s.woken[INIT := true] else s.woken)[s.parent[p] := true]
    && t.exits == s.exits[s.number[p] := s.exitval[p]] && t.delivered == s.delivered && t.said == s.said
    && t.free == s.free && t.freeHead == s.freeHead && t.count == s.count
    && t.threads == s.threads[p := 0]
    && t.fidt == s.fidt[p := seq(|s.fidt[p]|, _ => NULL)]
  }

  lemma PidsOf(l: seq<Pid>, m: seq<Pid>, n: nat)
    requires AllPids(l, n) && AllPids(m, n)
    ensures AllPids(l + m, n) && AllPids(Rev(l), n)
  {
  }

  lemma TerminateShape(s: Procs, p: Pid)
    requires Shape(s) && 0 <= p < s.N() && p != INIT && s.parent[p] != NULL
    ensures Shape(Terminate(s, p))
  {
    var t, q := Terminate(s, p), s.parent[p];
    PidsOf(s.children[p], s.children[INIT], s.N());
    PidsOf(Rev(s.children[p]), s.children[INIT], s.N());
    PidsOf(s.exited[INIT], s.exited[p], s.N());
    var e1 := s.exited[p := []][INIT := s.exited[INIT] + s.exited[p]];
    PidsOf([p], e1[q], s.N());
    forall x | 0 <= x < s.N() ensures AllPids(t.children[x], s.N()) && AllPids(t.exited[x], s.N()) {
      assert AllPids(s.children[x], s.N()) && AllPids(s.exited[x], s.N());
    }
  }

  lemma ExitDied(s: Procs, p: Pid)
    requires Shape(s) && Parents(s) && Children(s) && 2 <= p < s.N() && s.pstate[p] == ALIVE
    requires s.threads[p] == 1 && s.waiting[p] == NOT_WAITING
    ensures 0 <= s.parent[p] && Died(s, ThreadExit(s, p), p)
  {
    assert HasParent(s, p);
    Rooted(s, p);
    assert p !in s.children[p];
    var s1 := s.(threads := s.threads[p := 0]);
    TerminateShape(s1, p);
    var t := ThreadExit(s, p);
    assert t == Terminate(s1, p);
    assert t.exited == Merged(s.exited, p, s.parent[p]);
  }

  lemma DiedParents(s: Procs, t: Procs, p: Pid)
    requires Shape(s) && Died(s, t, p) && Parents(s) && Children(s)
    ensures Parents(t)
  {
    forall x | 2 <= x < t.N() && t.pstate[x] != FREE ensures HasParent(t, x) {
      assert HasParent(s, x);
      if x in s.children[p] {
        assert s.parent[x] == p;
        RevMembers(s.children[p], x);
      } else {
        assert s.parent[x] != p;
      }
    }
  }

  lemma JoinDistinct(l: seq<Pid>, m: seq<Pid>)
    requires Distinct(l) && Distinct(m) && forall x :: x in l ==> x !in m
    ensures Distinct(l + m)
  {
    forall i, j | 0 <= i < j < |l + m| ensures (l + m)[i] != (l + m)[j] {
      if i < |l| <= j {
        assert l[i] in l && m[j - |l|] in m;
      }
    }
  }

  lemma RevDistinct(l: seq<Pid>)
    requires Distinct(l)
    ensures Distinct(Rev(l))
  {
  }

  lemma DiedChild(s: Procs, t: Procs, p: Pid, x: Pid, c: Pid)
    requires Shape(s) && Died(s, t, p) && Children(s) && 0 <= x < t.N() && c in t.children[x]
    ensures 2 <= c < t.N() && t.pstate[c] != FREE && t.parent[c] == x
  {
    RevMembers(s.children[p], c);
    if x == INIT && c in s.children[p] {
      assert s.pstate[c] != FREE && 2 <= c;
    } else {
      assert x != p && c in s.children[x];
      assert s.pstate[c] != FREE && s.parent[c] == x && c !in s.children[p];
    }
  }

  lemma DiedChildren(s: Procs, t: Procs, p: Pid)
    requires Shape(s) && Died(s, t, p) && Children(s) && ChildrenOnce(s)
    ensures Children(t) && ChildrenOnce(t)
  {
    forall x, c {:trigger c in t.children[x]} | 0 <= x < t.N() && c in t.children[x]
      ensures 2 <= c < t.N() && t.pstate[c] != FREE && t.parent[c] == x
    {
      DiedChild(s, t, p, x, c);
    }
    DiedChildrenOnce(s, t, p);
  }

  lemma DiedChildrenOnce(s: Procs, t: Procs, p: Pid)
    requires Shape(s) && Died(s, t, p) && Children(s) && ChildrenOnce(s)
    ensures ChildrenOnce(t)
  {
    forall x | 0 <= x < t.N() ensures Distinct(t.children[x]) {
      assert Distinct(s.children[x]) && Distinct(s.children[p]);
      if x == INIT {
        RevDistinct(s.children[p]);
        forall c | c in Rev(s.children[p]) ensures c !in s.children[INIT] {
          RevMembers(s.children[p], c);
          assert s.parent[c] == p;
        }
        JoinDistinct(Rev(s.children[p]), s.children[INIT]);
      }
    }
  }

  lemma MergedMembers(e: seq<seq<Pid>>, p: Pid, q: Pid, x: Pid, z: Pid)
    requires 0 <= p < |e| && 0 <= q < |e| && INIT < |e| && p != INIT && p != q && 0 <= x < |e|
    ensures z in Merged(e, p, q)[x] <==>
            x != p && (z in e[x] || (x == INIT && z in e[p]) || (x == q && z == p))
  {
  }

  lemma MergedOnce(e: seq<seq<Pid>>, p: Pid, q: Pid, x: Pid)
    requires 0 <= p < |e| && 0 <= q < |e| && INIT < |e| && p != INIT && p != q && 0 <= x < |e|
    requires Distinct(e[x]) && Distinct(e[p]) && Distinct(e[INIT])
    requires p !in e[x] && p !in e[p] && forall z :: z in e[INIT] ==> z !in e[p]
    ensures Distinct(Merged(e, p, q)[x])
  {
    JoinDistinct(e[INIT], e[p]);
    var e1 := e[p := []][INIT := e[INIT] + e[p]];
    JoinDistinct([p], e1[x]);
  }

  lemma DiedExitedSound(s: Procs, t: Procs, p: Pid, x: Pid, z: Pid)
    requires Shape(s) && Died(s, t, p) && Parents(s) && Children(s) && ExitedExact(s)
    requires 0 <= x < t.N() && z in t.exited[x]
    ensures 2 <= z < t.N() && t.pstate[z] == ZOMBIE && t.parent[z] == x
  {
    MergedMembers(s.exited, p, s.parent[p], x, z);
    assert HasParent(s, p);
    if z == p {
      assert p !in s.children[p];
    } else {
      var y := s.parent[z];
      assert HasParent(s, z);
      assert z in s.children[p] <==> y == p;
    }
  }

  lemma DiedExitedComplete(s: Procs, t: Procs, p: Pid, z: Pid)
    requires Shape(s) && Died(s, t, p) && Parents(s) && Children(s) && ExitedExact(s)
    requires 2 <= z < t.N() && t.pstate[z] == ZOMBIE && t.parent[z] >= 0
    ensures z in t.exited[t.parent[z]]
  {
    MergedMembers(s.exited, p, s.parent[p], t.parent[z], z);
    assert HasParent(s, z);
    assert z in s.children[p] <==> s.parent[z] == p;
  }

  lemma DiedExitedOnce(s: Procs, t: Procs, p: Pid)
    requires Shape(s) && Died(s, t, p) && ExitedSound(s) && ExitedOnce(s)
    ensures ExitedOnce(t)
  {
    forall x | 0 <= x < t.N() ensures Distinct(t.exited[x]) {
      assert Distinct(s.exited[x]) && Distinct(s.exited[p]) && Distinct(s.exited[INIT]);
      forall z | z in s.exited[INIT] ensures z !in s.exited[p] {
        assert s.parent[z] == INIT;
      }
      MergedOnce(s.exited, p, s.parent[p], x);
    }
  }

  lemma DiedExited(s: Procs, t: Procs, p: Pid)
    requires Shape(s) && Died(s, t, p) && Parents(s) && Children(s) && ExitedExact(s)
    ensures ExitedExact(t)
  {
    forall x, z {:trigger z in t.exited[x]} | 0 <= x < t.N() && z in t.exited[x]
      ensures 2 <= z < t.N() && t.pstate[z] == ZOMBIE && t.parent[z] == x
    {
      DiedExitedSound(s, t, p, x, z);
    }
    assert ExitedSound(t);
    forall z | 2 <= z < t.N() && t.pstate[z] == ZOMBIE && t.parent[z] >= 0 ensures z in t.exited[t.parent[z]] {
      DiedExitedComplete(s, t, p, z);
    }
    assert ExitedComplete(t);
    DiedExitedOnce(s, t, p);
  }

  lemma DiedEmpty(s: Procs, t: Procs, p: Pid)
    requires Shape(s) && Died(s, t, p) && DeadIsEmpty(s)
    ensures DeadIsEmpty(t)
  {
    forall x | 0 <= x < t.N() && t.pstate[x] != ALIVE
      ensures t.children[x] == [] && t.exited[x] == [] && t.threads[x] == 0
      ensures forall i :: 0 <= i < |t.fidt[x]| ==> t.fidt[x][i] == NULL
    {
      assert x != INIT && x != s.parent[p];
    }
  }

  lemma DiedFree(s: Procs, t: Procs, p: Pid)
    requires Shape(s) && Died(s, t, p) && Children(s) && FreeExact(s)
    ensures FreeExact(t)
  {
    forall i | 0 <= i < |t.free| ensures t.parent[t.free[i]] == if i + 1 < |t.free| then t.free[i + 1] else NULL {
      assert s.free[i] in s.free;
      assert s.pstate[s.free[i]] == FREE;
      assert s.free[i] !in s.children[p];
    }
  }

  lemma DiedRest(s: Procs, t: Procs, p: Pid)
    requires Shape(s) && Died(s, t, p) && Roots(s) && Children(s) && StatusSaid(s) && ThreadsCounted(s)
    ensures Roots(t) && StatusSaid(t) && ThreadsCounted(t)
  {
    assert 0 !in s.children[p] && INIT !in s.children[p];
  }

  lemma DiedExits(s: Procs, t: Procs, p: Pid)
    requires Shape(s) && Died(s, t, p) && ExitsOnce(s)
    ensures ExitsOnce(t)
  {
    assert Numbered(t);
    assert Recorded(t);
    forall k | k in t.exits && k !in t.delivered ensures ZombieNumbered(t, k) {
      if k == s.number[p] {
        assert t.pstate[p] == ZOMBIE && t.number[p] == k;
      } else {
        assert ZombieNumbered(s, k);
        var z :| 2 <= z < s.N() && s.pstate[z] == ZOMBIE && s.number[z] == k;
        assert t.pstate[z] == ZOMBIE && t.number[z] == k;
      }
    }
  }

  lemma DiedWaits(s: Procs, t: Procs, p: Pid)
    requires Shape(s) && Died(s, t, p) && WaitsLegal(s) && Children(s)
    ensures WaitsLegal(t)
  {
    assert forall x :: x in s.children[p] ==> s.parent[x] == p;
  }

  lemma DiedForgotten(s: Procs, t: Procs, p: Pid)
    requires Shape(s) && Died(s, t, p) && WaitsLegal(s) && NoneForgotten(s)
    ensures NoneForgotten(t)
  {
  }

  lemma DiedInv(s: Procs, t: Procs, p: Pid)
    requires Inv(s) && Died(s, t, p)
    ensures Inv(t)
  {
    DiedParents(s, t, p);
    DiedChildren(s, t, p);
    DiedExited(s, t, p);
    DiedEmpty(s, t, p);
    DiedFree(s, t, p);
    DiedRest(s, t, p);
    DiedExits(s, t, p);
    DiedWaits(s, t, p);
    DiedForgotten(s, t, p);
  }

  lemma InitExitFinal(s: Procs)
    requires Inv(s) && Running(s, INIT) && s.threads[INIT] == 1 && s.children[INIT] == []
    ensures forall p :: 2 <= p < s.N() ==> s.pstate[p] == FREE
    ensures s.exited[INIT] == []
  {
    forall p | 2 <= p < s.N() ensures s.pstate[p] == FREE {
      if s.pstate[p] != FREE {
        Rooted(s, p);
      }
    }
    if s.exited[INIT] != [] {
      assert s.exited[INIT][0] in s.exited[INIT];
    }
  }

  lemma InitExitLists(s: Procs, t: Procs)
    requires Inv(s) && s.children[INIT] == [] == s.exited[INIT] && s.threads[INIT] == 1
    requires s.waiting[INIT] == NOT_WAITING && s.pstate[INIT] == ALIVE
    requires t == ThreadExit(s, INIT) && Shape(t)
    requires forall p :: 2 <= p < s.N() ==> s.pstate[p] == FREE
    ensures Forest(t) && ExitedExact(t) && FreeExact(t)
  {
  }

  lemma InitExitRest(s: Procs, t: Procs)
    requires Inv(s) && s.children[INIT] == [] == s.exited[INIT] && s.threads[INIT] == 1
    requires s.waiting[INIT] == NOT_WAITING && s.pstate[INIT] == ALIVE
    requires t == ThreadExit(s, INIT) && Shape(t)
    requires forall p :: 2 <= p < s.N() ==> s.pstate[p] == FREE
    ensures DeadIsEmpty(t) && WaitsLegal(t) && NoneForgotten(t) && StatusSaid(t) && ThreadsCounted(t)
  {
  }

  lemma SameExits(s: Procs, t: Procs)
    requires Shape(s) && Shape(t) && ExitsOnce(s) && s.N() == t.N()
    requires t.number == s.number && t.created == s.created && t.exits == s.exits && t.delivered == s.delivered
    requires t.exitval == s.exitval
    requires t.pstate == s.pstate || t.pstate == s.pstate[INIT := ZOMBIE]
    requires s.pstate[INIT] != FREE
    ensures ExitsOnce(t)
  {
    forall k | k in t.exits && k !in t.delivered ensures ZombieNumbered(t, k) {
      assert ZombieNumbered(s, k);
      var y :| 2 <= y < s.N() && s.pstate[y] == ZOMBIE && s.number[y] == k;
      assert t.pstate[y] == ZOMBIE && t.number[y] == k;
    }
  }

  /** The last thread of the initial process leaves an empty table but for the two roots. */
  lemma InitExitInv(s: Procs)
    requires Inv(s) && Running(s, INIT) && s.threads[INIT] == 1 && s.children[INIT] == []
    ensures Inv(ThreadExit(s, INIT))
  {
    InitExitFinal(s);
    var t := ThreadExit(s, INIT);
    InitExitLists(s, t);
    InitExitRest(s, t);
    SameExits(s, t);
  }

  // ---------------------------------------------------------------- WaitChild

  /** Process `q` collects the status of its child `z` and the control block is released. */
  ghost predicate Reaped(s: Procs, t: Procs, q: Pid, z: Pid)
    requires Shape(s)
  {
    && 2 <= z < s.N() && s.pstate[z] == ZOMBIE && q == s.parent[z] && 0 <= q
    && Shape(t)
    && t.pstate == s.pstate[z := FREE] && t.parent == s.parent[z := s.freeHead]
    && t.children == s.children[q := Remove(s.children[q], z)]
    && t.exited == s.exited[q := Remove(s.exited[q], z)]
    && t.delivered == s.delivered + [s.number[z]]
    && t.free == [z] + s.free && t.freeHead == z && t.count == s.count - 1
    && t.waiting == s.waiting[q := NOT_WAITING] && t.woken == s.woken
    && t.exitval == s.exitval && t.threads == s.threads && t.fidt == s.fidt
    && t.number == s.number && t.created == s.created && t.exits == s.exits && t.said == s.said
  }

  lemma CleanUpReaped(s: Procs, z: Pid)
    requires Shape(s) && 2 <= z < s.N() && s.pstate[z] == ZOMBIE && 0 <= s.parent[z]
    ensures Shape(CleanUp(s, z))
    ensures Reaped(s, DoneWaiting(CleanUp(s, z), s.parent[z]), s.parent[z], z)
  {
    var t := CleanUp(s, z);
    forall x | 0 <= x < s.N() ensures AllPids(t.children[x], s.N()) && AllPids(t.exited[x], s.N()) {
      assert AllPids(s.children[x], s.N()) && AllPids(s.exited[x], s.N());
      SubPids(s.children[x], t.children[x], s.N());
      SubPids(s.exited[x], t.exited[x], s.N());
    }
  }

  lemma SubPids(l: seq<Pid>, m: seq<Pid>, n: nat)
    requires AllPids(l, n) && forall i :: 0 <= i < |m| ==> m[i] in l
    ensures AllPids(m, n)
  {
  }

  lemma ReapedParents(s: Procs, t: Procs, q: Pid, z: Pid)
    requires Shape(s) && Reaped(s, t, q, z) && Parents(s) && Children(s) && ChildrenOnce(s)
    ensures Parents(t)
  {
    forall x | 2 <= x < t.N() && t.pstate[x] != FREE ensures HasParent(t, x) {
      assert HasParent(s, x);
      assert Distinct(s.children[q]);
    }
  }

  lemma ReapedChildren(s: Procs, t: Procs, q: Pid, z: Pid)
    requires Shape(s) && Reaped(s, t, q, z) && Children(s) && ChildrenOnce(s)
    ensures Children(t) && ChildrenOnce(t)
  {
    assert Distinct(s.children[q]);
    forall x, c {:trigger c in t.children[x]} | 0 <= x < t.N() && c in t.children[x]
      ensures 2 <= c < t.N() && t.pstate[c] != FREE && t.parent[c] == x
    {
      assert c in s.children[x];
      assert s.pstate[c] != FREE;
    }
  }

  lemma ReapedExited(s: Procs, t: Procs, q: Pid, z: Pid)
    requires Shape(s) && Reaped(s, t, q, z) && ExitedExact(s)
    ensures ExitedExact(t)
  {
    assert Distinct(s.exited[q]);
    forall x, c {:trigger c in t.exited[x]} | 0 <= x < t.N() && c in t.exited[x]
      ensures 2 <= c < t.N() && t.pstate[c] == ZOMBIE && t.parent[c] == x
    {
      assert c in s.exited[x];
    }
    assert ExitedSound(t);
    assert ExitedComplete(t);
  }

  lemma ReapedEmpty(s: Procs, t: Procs, q: Pid, z: Pid)
    requires Shape(s) && Reaped(s, t, q, z) && DeadIsEmpty(s) && s.pstate[q] == ALIVE
    ensures DeadIsEmpty(t)
  {
  }

  lemma ReapedFree(s: Procs, t: Procs, q: Pid, z: Pid)
    requires Shape(s) && Reaped(s, t, q, z) && FreeExact(s)
    ensures FreeExact(t)
  {
    assert z !in s.free;
    forall x | 0 <= x < t.N() ensures t.pstate[x] == FREE <==> x in t.free {
      assert x in t.free <==> x == z || x in s.free;
    }
    forall i | 0 <= i < |t.free| ensures t.parent[t.free[i]] == if i + 1 < |t.free| then t.free[i + 1] else NULL {
      if i > 0 {
        assert t.free[i] == s.free[i - 1];
        assert s.free[i - 1] in s.free;
        assert s.parent[s.free[i - 1]] == if i < |s.free| then s.free[i] else NULL;
      }
    }
  }

  lemma ReapedExits(s: Procs, t: Procs, q: Pid, z: Pid)
    requires Shape(s) && Reaped(s, t, q, z) && ExitsOnce(s)
    ensures ExitsOnce(t)
  {
    assert Recorded(t) by {
      assert s.number[z] !in s.delivered;
      forall k | k in t.delivered ensures k in t.exits {
        assert k == s.number[z] || k in s.delivered;
      }
    }
    forall k | k in t.exits && k !in t.delivered ensures ZombieNumbered(t, k) {
      assert k !in s.delivered;
      assert t.delivered[|s.delivered|] == s.number[z];
      assert ZombieNumbered(s, k);
      var y :| 2 <= y < s.N() && s.pstate[y] == ZOMBIE && s.number[y] == k;
      assert t.pstate[y] == ZOMBIE && t.number[y] == k;
    }
  }

  lemma ReapedWaits(s: Procs, t: Procs, q: Pid, z: Pid)
    requires Shape(s) && Reaped(s, t, q, z) && WaitsLegal(s) && NoneForgotten(s)
    ensures WaitsLegal(t) && NoneForgotten(t)
  {
  }

  lemma ReapedRest(s: Procs, t: Procs, q: Pid, z: Pid)
    requires Shape(s) && Reaped(s, t, q, z) && Roots(s) && StatusSaid(s) && ThreadsCounted(s)
    ensures Roots(t) && StatusSaid(t) && ThreadsCounted(t)
  {
  }

  lemma ReapedInv(s: Procs, t: Procs, q: Pid, z: Pid)
    requires Inv(s) && Reaped(s, t, q, z)
    ensures Inv(t)
  {
    assert HasParent(s, z);
    ReapedParents(s, t, q, z);
    ReapedChildren(s, t, q, z);
    ReapedExited(s, t, q, z);
    ReapedEmpty(s, t, q, z);
    ReapedFree(s, t, q, z);
    ReapedExits(s, t, q, z);
    ReapedWaits(s, t, q, z);
    ReapedRest(s, t, q, z);
  }

  /** Process `p` sleeps with nothing to collect, or is done waiting. */
  ghost predicate MayBlock(s: Procs, p: Pid, w: Pid)
    requires Shape(s) && 0 <= p < s.N()
  {
    && INIT <= p && s.pstate[p] == ALIVE && s.threads[p] >= 1
    && (w == NOPROC || (2 <= w < s.N() && s.pstate[w] == ALIVE && s.parent[w] == p))
    && (w == NOPROC ==> s.children[p] != [] && s.exited[p] == [])
  }

  lemma BlockedWaits(s: Procs, p: Pid, w: Pid)
    requires Shape(s) && WaitsLegal(s) && NoneForgotten(s) && 0 <= p < s.N() && MayBlock(s, p, w)
    ensures WaitsLegal(Block(s, p, w)) && NoneForgotten(Block(s, p, w))
  {
  }

  lemma DoneWaits(s: Procs, p: Pid)
    requires Shape(s) && WaitsLegal(s) && NoneForgotten(s) && 0 <= p < s.N()
    ensures WaitsLegal(DoneWaiting(s, p)) && NoneForgotten(DoneWaiting(s, p))
  {
  }

  /** Only `waiting` and `woken` change. */
  lemma SameButWaits(s: Procs, t: Procs)
    requires Inv(s) && Shape(t) && t == s.(waiting := t.waiting, woken := t.woken)
    requires WaitsLegal(t) && NoneForgotten(t)
    ensures Inv(t)
  {
    SameForest(s, t);
    SameLists(s, t);
    SameExits(s, t);
    SameDead(s, t);
  }

  lemma SameDead(s: Procs, t: Procs)
    requires Shape(s) && Shape(t) && DeadIsEmpty(s) && s.N() == t.N() && StatusSaid(s) && ThreadsCounted(s)
    requires t.pstate == s.pstate && t.children == s.children && t.exited == s.exited && t.fidt == s.fidt
    requires t.threads == s.threads && t.exitval == s.exitval && t.said == s.said
    ensures DeadIsEmpty(t) && StatusSaid(t) && ThreadsCounted(t)
  {
  }

  lemma SameForest(s: Procs, t: Procs)
    requires Shape(s) && Shape(t) && Forest(s)
    requires t.pstate == s.pstate && t.parent == s.parent && t.children == s.children && t.number == s.number
    ensures Forest(t)
  {
    forall p | 2 <= p < t.N() && t.pstate[p] != FREE ensures HasParent(t, p) {
      assert HasParent(s, p);
    }
  }

  lemma SameLists(s: Procs, t: Procs)
    requires Shape(s) && Shape(t) && ExitedExact(s) && FreeExact(s)
    requires t.pstate == s.pstate && t.parent == s.parent && t.exited == s.exited
    requires t.free == s.free && t.freeHead == s.freeHead && t.count == s.count
    ensures ExitedExact(t) && FreeExact(t)
  {
  }

  // ---------------------------------------------------------------- threads and status

  lemma RecountRest(s: Procs, p: Pid, k: int)
    requires Shape(s) && DeadIsEmpty(s) && WaitsLegal(s) && NoneForgotten(s) && StatusSaid(s) && ThreadsCounted(s)
    requires INIT <= p < s.N() && s.pstate[p] == ALIVE && k >= 1
    ensures var t := s.(threads := s.threads[p := k]);
            DeadIsEmpty(t) && WaitsLegal(t) && NoneForgotten(t) && StatusSaid(t) && ThreadsCounted(t)
  {
  }

  /** Only the number of threads of a living process changes. */
  lemma RecountInv(s: Procs, t: Procs, p: Pid, k: int)
    requires Inv(s) && Running(s, p) && k >= 1 && t == s.(threads := s.threads[p := k])
    ensures Inv(t)
  {
    SameForest(s, t);
    SameLists(s, t);
    SameExits(s, t);
    RecountRest(s, p, k);
  }

  lemma CreateThreadInv(s: Procs, p: Pid)
    requires Inv(s) && Running(s, p)
    ensures Inv(CreateThread(s, p))
  {
    RecountInv(s, CreateThread(s, p), p, s.threads[p] + 1);
  }

  lemma HasAParent(s: Procs, p: Pid)
    requires Shape(s) && Parents(s) && 2 <= p < s.N() && s.pstate[p] != FREE
    ensures INIT <= s.parent[p] && s.parent[p] != p
  {
    assert HasParent(s, p);
  }

  /** A thread that is not the last only lowers the count. */
  lemma OtherExit(s: Procs, p: Pid)
    requires Shape(s) && INIT <= p < s.N() && s.threads[p] >= 2 && (p != INIT ==> s.parent[p] != NULL)
    ensures ThreadExit(s, p) == s.(threads := s.threads[p := s.threads[p] - 1])
  {
  }

  lemma OtherExitInv(s: Procs, p: Pid)
    requires Inv(s) && Running(s, p) && s.threads[p] >= 2 && (p != INIT ==> s.parent[p] != NULL)
    ensures Inv(ThreadExit(s, p))
  {
    OtherExit(s, p);
    RecountInv(s, ThreadExit(s, p), p, s.threads[p] - 1);
  }

  lemma LastExitInv(s: Procs, p: Pid)
    requires Inv(s) && Running(s, p) && s.threads[p] == 1 && p != INIT && s.parent[p] != NULL
    ensures Inv(ThreadExit(s, p))
  {
    ExitDied(s, p);
    DiedInv(s, ThreadExit(s, p), p);
  }

  lemma ThreadExitInv(s: Procs, p: Pid)
    requires Inv(s) && Running(s, p)
    requires p == INIT && s.threads[p] == 1 ==> s.children[p] == []
    ensures p != INIT ==> s.parent[p] != NULL
    ensures Inv(ThreadExit(s, p))
  {
    if p != INIT {
      HasAParent(s, p);
    }
    if s.threads[p] >= 2 {
      OtherExitInv(s, p);
    } else if p == INIT {
      InitExitInv(s);
    } else {
      LastExitInv(s, p);
    }
  }

  lemma SetExitInv(s: Procs, p: Pid, v: int)
    requires Inv(s) && Running(s, p)
    ensures Inv(SetExit(s, p, v))
  {
    var t := SetExit(s, p, v);
    SameForest(s, t);
    SameLists(s, t);
    SetExitExits(s, p, v);
    SetExitRest(s, p, v);
  }

  lemma SetExitRest(s: Procs, p: Pid, v: int)
    requires Shape(s) && DeadIsEmpty(s) && WaitsLegal(s) && NoneForgotten(s) && StatusSaid(s) && ThreadsCounted(s)
    requires 0 <= p < s.N()
    ensures var t := SetExit(s, p, v);
            DeadIsEmpty(t) && WaitsLegal(t) && NoneForgotten(t) && StatusSaid(t) && ThreadsCounted(t)
  {
  }

  lemma SetExitExits(s: Procs, p: Pid, v: int)
    requires Shape(s) && ExitsOnce(s) && 0 <= p < s.N() && s.pstate[p] == ALIVE
    ensures ExitsOnce(SetExit(s, p, v))
  {
    var t := SetExit(s, p, v);
    forall k | k in t.exits && k !in t.delivered ensures ZombieNumbered(t, k) {
      assert ZombieNumbered(s, k);
      var y :| 2 <= y < s.N() && s.pstate[y] == ZOMBIE && s.number[y] == k;
      assert t.pstate[y] == ZOMBIE && t.number[y] == k;
    }
  }

  // ---------------------------------------------------------------- WaitChild

  /** Collecting an exited child keeps the invariant. */
  lemma CollectInv(s: Procs, z: Pid)
    requires Inv(s) && 2 <= z < s.N() && s.pstate[z] == ZOMBIE
    ensures 0 <= s.parent[z] && Shape(CleanUp(s, z)) && Inv(DoneWaiting(CleanUp(s, z), s.parent[z]))
  {
    assert HasParent(s, z);
    CleanUpReaped(s, z);
    ReapedInv(s, DoneWaiting(CleanUp(s, z), s.parent[z]), s.parent[z], z);
  }

  lemma WaitSpecificInv(s: Procs, p: Pid, c: Pid)
    requires Inv(s) && INIT <= p < s.N() && s.pstate[p] == ALIVE && s.threads[p] >= 1
    requires 2 <= c < s.N() && s.pstate[c] != FREE && s.parent[c] == p
    ensures Inv(WaitSpecific(s, p, c).0)
  {
    if s.pstate[c] == ALIVE {
      BlockedWaits(s, p, c);
      SameButWaits(s, Block(s, p, c));
    } else {
      CollectInv(s, c);
    }
  }

  lemma WaitAnyInv(s: Procs, p: Pid)
    requires Inv(s) && INIT <= p < s.N() && s.pstate[p] == ALIVE && s.threads[p] >= 1
    ensures s.exited[p] != [] ==> 0 <= s.parent[s.exited[p][0]]
    ensures Inv(WaitAny(s, p).0)
  {
    HeadIn(s.exited[p]);
    if s.children[p] == [] {
      DoneWaits(s, p);
      SameButWaits(s, DoneWaiting(s, p));
    } else if s.exited[p] == [] {
      BlockedWaits(s, p, NOPROC);
      SameButWaits(s, Block(s, p, NOPROC));
    } else {
      CollectInv(s, s.exited[p][0]);
    }
  }

  lemma WaitChildInv(s: Procs, p: Pid, c: Pid)
    requires Inv(s) && INIT <= p < s.N() && s.pstate[p] == ALIVE && s.threads[p] >= 1
    ensures s.exited[p] != [] ==> 0 <= s.parent[s.exited[p][0]]
    ensures Inv(WaitChild(s, p, c).0)
  {
    WaitAnyInv(s, p);
    if c != NOPROC && 0 <= c < s.N() && s.pstate[c] != FREE && s.parent[c] == p {
      assert c != 0 && c != INIT;
      WaitSpecificInv(s, p, c);
    }
  }
}
