/** The stream table in the form the kernel has it: counters, free list and file tables
    updated in place.  Every routine is tied to its step in StreamTable or StreamCalls. */
module Streams {
  import opened Sequences
  import opened StreamTable
  import opened StreamCalls
  import opened StreamEffects

  class Files {
    const ref: array<int>           // refcount of each FCB of FT
    var free: seq<int>              // FCB_freelist
    const fidt: array<seq<int>>     // FIDT of each process
    ghost var inflight: multiset<int>
    ghost var stream: seq<int>
    ghost var opens: nat
    ghost var closed: seq<int>

    ghost function View(): Table
      reads this, ref, fidt
    {
      Table(ref[..], free, fidt[..], inflight, stream, opens, closed)
    }

    ghost predicate Valid()
      reads this, ref, fidt
    {
      Shape(View())
    }

    /** `initialize_files`. */
    constructor (files: nat, procs: nat, entries: nat)
      ensures Valid() && fresh(ref) && fresh(fidt) && View() == Initial(files, procs, entries)
    {
      ref := new int[files](_ => 1);
      free := [];
      fidt := new seq<int>[procs](_ => seq(entries, _ => NULL));
      inflight, stream, opens, closed := multiset{}, seq(files, _ => NULL), 0, [];
      new;
      for i := 0 to files
        invariant free == seq(i, k => k) && forall k :: 0 <= k < i ==> ref[k] == 0
        invariant fidt[..] == seq(procs, _ => seq(entries, _ => NULL))
        invariant inflight == multiset{} && stream == seq(files, _ => NULL) && opens == 0 && closed == []
      {
        ref[i] := 0;
        ReleaseFcb(i);
      }
      assert ref[..] == seq(files, _ => 0);
    }

    /** `acquire_FCB`: NULL when the free list is empty. */
    method AcquireFcb() returns (f: int)
      requires Valid()
      modifies this`free, ref
      ensures if old(free) == [] then f == NULL && View() == old(View())
              else f == old(free[0]) && View() == Acquire(old(View()), 1)
    {
      if free == [] {
        return NULL;
      }
      f := free[0];
      free := free[1..];
      ref[f] := 0;
      assert ref[..] == ZeroRefs(old(ref[..]), old(free)[..1]);
    }

    method ReleaseFcb(f: int)
      modifies this`free
      ensures free == old(free) + [f]
    {
      free := free + [f];
    }

    method FcbIncref(f: int)
      requires Valid() && 0 <= f < ref.Length
      modifies ref
      ensures Valid() && View() == Incref(old(View()), f)
    {
      ref[f] := ref[f] + 1;
    }

    /** `closeResult` is what the stream's Close returns when it is called. */
    method FcbDecref(f: int, closeResult: int) returns (retval: int)
      requires Valid() && 0 <= f < ref.Length
      modifies this`free, this`stream, this`closed, ref
      ensures Valid() && View() == Decref(old(View()), f)
      ensures retval == if old(ref[f]) == 1 then closeResult else 0
    {
      ref[f] := ref[f] - 1;
      if ref[f] == 0 {
        retval := closeResult;
        closed := closed + [stream[f]];
        stream := stream[f := NULL];
        ReleaseFcb(f);
      } else {
        retval := 0;
      }
    }

    // -------------------------------------------------------------- FCB_reserve

    /** The inner loop of the search: on to the next free entry. */
    method NextFree(p: nat, f: nat, ghost num: nat) returns (r: nat)
      requires p < fidt.Length && f <= |fidt[p]|
      ensures f <= r <= |fidt[p]| && (r < |fidt[p]| ==> fidt[p][r] == NULL)
      ensures FreeFids(fidt[p], f, num) == FreeFids(fidt[p], r, num)
    {
      r := f;
      while r < |fidt[p]| && fidt[p][r] != NULL
        invariant f <= r <= |fidt[p]| && FreeFids(fidt[p], f, num) == FreeFids(fidt[p], r, num)
      {
        r := r + 1;
      }
    }

    /** The search for distinct free entries. */
    method FindFids(p: nat, num: nat) returns (fid: seq<nat>)
      requires p < fidt.Length
      ensures fid == FreeFids(fidt[p], 0, num)
    {
      var f := 0;
      fid := [];
      for i := 0 to num
        invariant |fid| == i && f <= |fidt[p]|
        invariant fid + FreeFids(fidt[p], f, num - i) == FreeFids(fidt[p], 0, num)
      {
        f := NextFree(p, f, num - i);
        if f == |fidt[p]| {
          break;
        }
        OneMore(fid, f, FreeFids(fidt[p], f + 1, num - i - 1));
        fid := fid + [f];
        f := f + 1;
      }
    }

    lemma OneMore(x: seq<nat>, f: nat, y: seq<nat>)
      ensures x + ([f] + y) == (x + [f]) + y
    {
    }

    /** Takes FCBs off the free list until there are `num` or no more. */
    method AcquireFcbs(num: nat) returns (fcb: seq<int>)
      requires Valid()
      modifies this`free, ref
      ensures |fcb| == (if num <= |old(free)| then num else |old(free)|)
      ensures Valid() && fcb == old(free)[..|fcb|] && View() == Acquire(old(View()), |fcb|)
    {
      ghost var t := View();
      fcb := [];
      for i := 0 to num
        invariant |fcb| == i <= |t.free| && fcb == t.free[..i] && Valid()
        invariant View() == Acquire(t, i)
      {
        var f := AcquireFcb();
        if f == NULL {
          break;
        }
        assert t.free[i..][1..] == t.free[i + 1..];
        assert t.free[..i + 1] == t.free[..i] + [f];
        fcb := fcb + [f];
        assert ref[..] == Acquire(t, i + 1).ref;
      }
    }

    /** Gives the FCBs back, last one first. */
    method RollBack(fcb: seq<int>)
      requires free == []
      modifies this`free
      ensures free == Rev(fcb)
    {
      var i := |fcb|;
      while i > 0
        invariant 0 <= i <= |fcb| && free == Rev(fcb)[..|fcb| - i]
      {
        ReleaseFcb(fcb[i - 1]);
        i := i - 1;
      }
    }

    method FillFid(p: nat, fd: nat, f: int)
      requires Valid() && p < fidt.Length && fd < |fidt[p]| && 0 <= f < ref.Length
      modifies ref, fidt
      ensures Valid() && View() == AddRef(old(View()), p, fd, f)
    {
      fidt[p] := fidt[p][fd := f];
      FcbIncref(f);
    }

    method FillFids(p: nat, fid: seq<nat>, fcb: seq<int>)
      requires Valid() && p < fidt.Length && |fid| == |fcb|
      requires forall i :: 0 <= i < |fid| ==> fid[i] < |fidt[p]| && 0 <= fcb[i] < ref.Length
      modifies ref, fidt
      ensures Valid() && View() == Fill(old(View()), p, fid, fcb)
    {
      ghost var goal := Fill(View(), p, fid, fcb);
      assert fid[0..] == fid && fcb[0..] == fcb;
      for i := 0 to |fid|
        invariant Valid() && forall j :: i <= j < |fid| ==> fid[j] < |fidt[p]| && 0 <= fcb[j] < ref.Length
        invariant Fill(View(), p, fid[i..], fcb[i..]) == goal
      {
        assert fid[i..][1..] == fid[i + 1..] && fcb[i..][1..] == fcb[i + 1..];
        FillFid(p, fid[i], fcb[i]);
      }
    }

    method FcbReserve(p: nat, num: nat) returns (ok: bool, fid: seq<nat>, fcb: seq<int>)
      requires Valid() && p < fidt.Length
      modifies this`free, ref, fidt
      ensures (View(), ok) == Reserve(old(View()), p, num)
      ensures ok ==> Valid() && fid == FreeFids(old(fidt[p]), 0, num) && num <= |old(free)| && fcb == old(free)[..num]
    {
      ghost var t := View();
      fid := FindFids(p, num);
      fcb := [];
      if |fid| < num {
        return false, fid, fcb;
      }
      fcb := AcquireFcbs(num);
      if |fcb| < num {
        assert fcb == t.free && t.free[..|t.free|] == t.free;
        RollBack(fcb);
        return false, fid, fcb;
      }
      FillFids(p, fid, fcb);
      return true, fid, fcb;
    }

    method FcbUnreserve(p: nat, fid: nat, fcb: int)
      requires Valid() && p < fidt.Length && fid < |fidt[p]| && 0 <= fcb < ref.Length
      modifies this`free, fidt
      ensures Valid() && View() == Unreserve(old(View()), p, fid, fcb)
    {
      fidt[p] := fidt[p][fid := NULL];
      ReleaseFcb(fcb);
    }

    // -------------------------------------------------------------- system calls

    /** `open_stream`; `deviceOk` is whether the device could be opened. */
    method OpenStream(p: nat, deviceOk: bool) returns (fid: int)
      requires Valid() && Inv(View()) && p < fidt.Length
      modifies this`free, this`stream, this`opens, ref, fidt
      ensures Inv(View()) && View() == StreamCalls.OpenStream(old(View()), p, deviceOk)
      ensures fid != NULL <==> deviceOk && FreeFids(old(fidt[p]), 0, 1) != [] && old(free) != []
      ensures fid != NULL ==>
        && [fid] == FreeFids(old(fidt[p]), 0, 1) && 0 <= fid < |fidt[p]|
        && 0 <= fidt[p][fid] < |stream| && stream[fidt[p][fid]] == old(opens)
    {
      OpenStreamInv(View(), p, deviceOk);
      OpenStreamLaw(View(), p, deviceOk);
      ReserveLaw(View(), p, 1);
      var ok, fids, fcbs := FcbReserve(p, 1);
      if !ok {
        return NULL;
      }
      if !deviceOk {
        FcbUnreserve(p, fids[0], fcbs[0]);
        return NULL;
      }
      Attach(fcbs[0]);
      return fids[0];
    }

    /** A stream starts to be carried by FCB `f`. */
    method Attach(f: int)
      requires 0 <= f < |stream|
      modifies this`stream, this`opens
      ensures View() == Install(old(View()), f)
    {
      stream := stream[f := opens];
      opens := opens + 1;
    }

    /** The FCB part of `sys_Pipe`: the two descriptors, and the FCBs of the two ends. */
    method OpenPipe(p: nat) returns (read: int, write: int, reader: int, writer: int)
      requires Valid() && Inv(View()) && p < fidt.Length
      modifies this`free, this`stream, this`opens, ref, fidt
      ensures Inv(View()) && View() == StreamCalls.OpenPipe(old(View()), p)
      ensures read == NULL <==> !(|FreeFids(old(fidt[p]), 0, 2)| == 2 && |old(free)| >= 2)
      ensures read != NULL ==>
        && [read, write] == FreeFids(old(fidt[p]), 0, 2) && reader == old(free)[0] && writer == old(free)[1]
        && 0 <= read < write < |fidt[p]| && fidt[p][read] == reader && fidt[p][write] == writer
        && 0 <= reader < |stream| && stream[reader] == old(opens)
        && 0 <= writer < |stream| && stream[writer] == old(opens) + 1
    {
      OpenPipeInv(View(), p);
      OpenPipeLaw(View(), p);
      ReserveLaw(View(), p, 2);
      var ok, fids, fcbs := FcbReserve(p, 2);
      if !ok {
        return NULL, NULL, NULL, NULL;
      }
      Attach(fcbs[0]);
      Attach(fcbs[1]);
      return fids[0], fids[1], fcbs[0], fcbs[1];
    }

    method GetFcb(p: nat, fd: int) returns (f: int)
      requires p < fidt.Length
      ensures f == Entry(View(), p, fd)
    {
      if fd < 0 || fd >= |fidt[p]| {
        return NULL;
      }
      return fidt[p][fd];
    }

    /** `sys_Read` and `sys_Write` up to the device's routine. */
    method BeginIo(p: nat, fd: int) returns (f: int)
      requires Valid() && Inv(View()) && p < fidt.Length
      modifies this`inflight, ref
      ensures f == Entry(old(View()), p, fd)
      ensures Inv(View()) && View() == StreamCalls.BeginIo(old(View()), p, fd)
    {
      BeginIoInv(View(), p, fd);
      f := GetFcb(p, fd);
      if f != NULL {
        FcbIncref(f);
        inflight := inflight + multiset{f};
      }
    }

    /** `sys_Read` and `sys_Write` once the device's routine has returned. */
    method EndIo(f: int, closeResult: int)
      requires Valid() && Inv(View()) && f in inflight
      modifies this`free, this`inflight, this`stream, this`closed, ref
      ensures 0 <= f < ref.Length && Inv(View()) && View() == StreamCalls.EndIo(old(View()), f)
    {
      EndIoInv(View(), f);
      inflight := inflight - multiset{f};
      var _ := FcbDecref(f, closeResult);
    }

    /** Clears one entry and gives up its reference. */
    method DropEntry(p: nat, fd: nat, closeResult: int) returns (retcode: int)
      requires Valid() && p < fidt.Length && fd < |fidt[p]| && fidt[p][fd] != NULL
      modifies this`free, this`stream, this`closed, ref, fidt
      ensures View() == DropRef(old(View()), p, fd)
      ensures retcode == if old(ref[fidt[p][fd]]) == 1 then closeResult else 0
    {
      var f := fidt[p][fd];
      fidt[p] := fidt[p][fd := NULL];
      retcode := FcbDecref(f, closeResult);
    }

    method SysClose(p: nat, fd: int, closeResult: int) returns (retcode: int)
      requires Valid() && Inv(View()) && p < fidt.Length
      modifies this`free, this`stream, this`closed, ref, fidt
      ensures Inv(View()) && View() == Close(old(View()), p, fd)
      ensures retcode ==
        var f := Entry(old(View()), p, fd);
        if f != NULL then (if old(ref[..])[f] == 1 then closeResult else 0)
        else if 0 <= fd < |old(fidt[p])| then 0 else -1
    {
      CloseInv(View(), p, fd);
      retcode := if fd >= 0 && fd < |fidt[p]| then 0 else -1;
      var f := GetFcb(p, fd);
      if f != NULL {
        retcode := DropEntry(p, fd, closeResult);
      }
    }

    method SysDup2(p: nat, oldfd: int, newfd: int, closeResult: int) returns (retcode: int)
      requires Valid() && Inv(View()) && p < fidt.Length
      modifies this`free, this`stream, this`closed, ref, fidt
      ensures Inv(View()) && View() == Dup2(old(View()), p, oldfd, newfd)
      ensures retcode == 0 <==>
        0 <= oldfd < |old(fidt[p])| && 0 <= newfd < |old(fidt[p])| && old(fidt[p])[oldfd] != NULL
      ensures retcode == 0 ==> fidt[p] == old(fidt[p])[newfd := old(fidt[p])[oldfd]]
    {
      Dup2Inv(View(), p, oldfd, newfd);
      if oldfd < 0 || newfd < 0 || oldfd >= |fidt[p]| || newfd >= |fidt[p]| {
        return -1;
      }
      var f := GetFcb(p, oldfd);
      var g := GetFcb(p, newfd);
      if f == NULL {
        return -1;
      }
      if f != g {
        ReplaceEntry(p, newfd, f, g, closeResult);
      }
      return 0;
    }

    method ReplaceEntry(p: nat, newfd: nat, f: int, g: int, closeResult: int)
      requires Valid() && p < fidt.Length && newfd < |fidt[p]| && 0 <= f < ref.Length && NULL <= g < ref.Length
      modifies this`free, this`stream, this`closed, ref, fidt
      ensures Valid()
      ensures View() == SetEntry(Incref(if g != NULL then Decref(old(View()), g) else old(View()), f), p, newfd, f)
    {
      if g != NULL {
        var _ := FcbDecref(g, closeResult);
      }
      FcbIncref(f);
      fidt[p] := fidt[p][newfd := f];
    }

    method ShareEntry(parent: nat, child: nat, i: nat)
      requires Valid() && parent < fidt.Length && child < fidt.Length && parent != child && i < |fidt[parent]|
      modifies ref, fidt
      ensures Valid() && View() == Share(old(View()), parent, child, i)
    {
      var f := fidt[parent][i];
      fidt[child] := fidt[child][i := f];
      if f != NULL {
        FcbIncref(f);
      }
    }

    /** The loop of `sys_Exec` over the file table. */
    method InheritFiles(parent: nat, child: nat)
      requires Valid() && parent < fidt.Length && child < fidt.Length && parent != child
      modifies ref, fidt
      ensures Valid() && View() == Inherit(old(View()), parent, child, 0)
    {
      ghost var t := View();
      for i := 0 to |fidt[parent]|
        invariant Valid() && |fidt[parent]| == |t.fidt[parent]|
        invariant Inherit(View(), parent, child, i) == Inherit(t, parent, child, 0)
      {
        ShareEntry(parent, child, i);
      }
    }

    method CleanEntry(p: nat, i: nat)
      requires Valid() && p < fidt.Length && i < |fidt[p]|
      modifies this`free, this`stream, this`closed, ref, fidt
      ensures Valid() && |fidt[p]| == old(|fidt[p]|)
      ensures View() == if old(fidt[p][i]) == NULL then old(View()) else DropRef(old(View()), p, i)
    {
      if fidt[p][i] != NULL {
        var _ := DropEntry(p, i, 0);
      }
    }

    /** The loop of `sys_ThreadExit` over the file table; Close results are ignored. */
    method CleanUpFiles(p: nat)
      requires Valid() && p < fidt.Length
      modifies this`free, this`stream, this`closed, ref, fidt
      ensures Valid() && View() == CleanUp(old(View()), p, 0)
    {
      ghost var t := View();
      for i := 0 to |fidt[p]|
        invariant Valid() && |fidt[p]| == |t.fidt[p]|
        invariant CleanUp(View(), p, i) == CleanUp(t, p, 0)
      {
        CleanEntry(p, i);
      }
    }
  }
}
