/** The AVR context switch: `cpu_swap_context` (src/arch/avr/context.S) and the first frame
    that `cpu_initialize_context` (src/arch/avr/cpu.c) builds. */
module Context {
  import opened Bytes

  /** Registers r0..r31, the status register, the stack pointer, the program counter that
      the last `ret` loaded, and the data memory. */
  datatype Cpu = Cpu(r: seq<byte>, sreg: byte, sp: nat, pc: nat, mem: seq<byte>)

  predicate Ok(c: Cpu) {
    |c.r| == 32 && |c.mem| <= 0x1_0000 && c.sp < |c.mem|
  }

  // ---------------------------------------------------------------- instructions

  function Push(c: Cpu, i: nat): (d: Cpu)
    requires Ok(c) && i < 32 && c.sp > 0
    ensures Ok(d)
  {
    c.(mem := c.mem[c.sp := c.r[i]], sp := c.sp - 1)
  }

  function Pop(c: Cpu, i: nat): (d: Cpu)
    requires Ok(c) && i < 32 && c.sp + 1 < |c.mem|
    ensures Ok(d)
  {
    c.(r := c.r[i := c.mem[c.sp + 1]], sp := c.sp + 1)
  }

  /** `ret` pops the high byte of the return address first. */
  function Ret(c: Cpu): (d: Cpu)
    requires Ok(c) && c.sp + 2 < |c.mem|
    ensures Ok(d)
  {
    c.(pc := Word(c.mem[c.sp + 2], c.mem[c.sp + 1]), sp := c.sp + 2)
  }

  function Word(lo: byte, hi: byte): (w: nat)
    ensures w < 0x1_0000
  {
    lo as nat + 256 * (hi as nat)
  }

  function Lo(w: nat): byte { (w % 256) as byte }
  function Hi(w: nat): byte { (w / 256 % 256) as byte }

  lemma WordOf(w: nat)
    requires w < 0x1_0000
    ensures Word(Lo(w), Hi(w)) == w
  {
  }

  // ---------------------------------------------------------------- the four parts of a swap

  /** `push` of r`i` .. r31. */
  function PushFrom(c: Cpu, i: nat): (d: Cpu)
    requires Ok(c) && 1 <= i <= 32 && c.sp >= 32 - i
    ensures Ok(d) && d.sp == c.sp - (32 - i) && |d.mem| == |c.mem|
    decreases 32 - i, c.sp
  {
    if i == 32 then c else PushFrom(Push(c, i), i + 1)
  }

  /** `pop` of r`i` .. r1. */
  function PopDown(c: Cpu, i: nat): (d: Cpu)
    requires Ok(c) && i < 32 && c.sp + i < |c.mem|
    ensures Ok(d) && d.sp == c.sp + i && d.mem == c.mem
    decreases i, c.sp
  {
    if i == 0 then c else PopDown(Pop(c, i), i - 1)
  }

  /** r0, SREG and r1 .. r31 go onto the stack; r0 is the scratch register. */
  function Save(c: Cpu): (d: Cpu)
    requires Ok(c) && c.sp >= 33
    ensures Ok(d) && d.sp == c.sp - 33 && |d.mem| == |c.mem|
  {
    var c1 := Push(c, 0);
    var c2 := c1.(r := c1.r[0 := c1.sreg]);
    PushFrom(Push(c2, 0), 1)
  }

  /** The stack pointer is stored at `a`. */
  function StoreSp(c: Cpu, a: nat): (d: Cpu)
    requires Ok(c) && a + 1 < |c.mem|
    ensures Ok(d)
  {
    c.(mem := c.mem[a := Lo(c.sp)][a + 1 := Hi(c.sp)])
  }

  /** The word at `a` becomes the stack pointer. */
  function LoadSp(c: Cpu, a: nat): (d: Cpu)
    requires Ok(c) && a + 1 < |c.mem| && Word(c.mem[a], c.mem[a + 1]) < |c.mem|
    ensures Ok(d)
  {
    c.(sp := Word(c.mem[a], c.mem[a + 1]))
  }

  /** SREG, r0 and the return address come off the stack; r0 is the scratch register. */
  function FinishRestore(c: Cpu): (d: Cpu)
    requires Ok(c) && c.sp + 4 < |c.mem|
    ensures Ok(d)
  {
    var c1 := Pop(c, 0);
    Ret(Pop(c1.(sreg := c1.r[0]), 0))
  }

  /** First r31 .. r1. */
  function Restore(c: Cpu): (d: Cpu)
    requires Ok(c) && c.sp + 35 < |c.mem|
    ensures Ok(d)
  {
    FinishRestore(PopDown(c, 31))
  }

  /** The pointer arguments: r25:r24 and r23:r22. */
  function OldCtx(c: Cpu): nat requires Ok(c) { Word(c.r[24], c.r[25]) }
  function NewCtx(c: Cpu): nat requires Ok(c) { Word(c.r[22], c.r[23]) }

  /** There is room for the frame, and the contexts and the loaded stack pointer are in memory. */
  predicate MaySwap(c: Cpu) {
    && Ok(c) && c.sp >= 33 && OldCtx(c) + 1 < |c.mem| && NewCtx(c) + 1 < |c.mem|
    && var d := StoreSp(Save(c), OldCtx(c));
       Word(d.mem[NewCtx(c)], d.mem[NewCtx(c) + 1]) + 35 < |c.mem|
  }

  function Swap(c: Cpu): (d: Cpu)
    requires MaySwap(c)
    ensures Ok(d)
  {
    Restore(LoadSp(StoreSp(Save(c), OldCtx(c)), NewCtx(c)))
  }

  // ---------------------------------------------------------------- frames

  /** The 35 bytes above the saved stack pointer of a suspended thread. */
  ghost predicate IsFrame(f: seq<byte>, r: seq<byte>, sreg: byte, ret: nat) {
    && |f| == 35 && |r| == 32
    && (forall i {:trigger r[i]} :: 1 <= i < 32 ==> f[31 - i] == r[i])
    && f[31] == sreg && f[32] == r[0]
    && Word(f[34], f[33]) == ret
  }

  lemma {:induction false} PushFromMem(c: Cpu, i: nat)
    requires Ok(c) && 1 <= i <= 32 && c.sp >= 32 - i
    ensures var d := PushFrom(c, i);
      && d == c.(sp := d.sp, mem := d.mem)
      && (forall j :: i <= j < 32 ==> d.mem[c.sp + i - j] == c.r[j])
      && (forall a :: 0 <= a < |c.mem| && !(d.sp < a <= c.sp) ==> d.mem[a] == c.mem[a])
    decreases 32 - i
  {
    if i < 32 {
      PushFromMem(Push(c, i), i + 1);
    }
  }

  /** Saving leaves a frame for the caller's registers and return address, and touches the
      33 bytes below the stack pointer only. */
  lemma SaveFrame(c: Cpu)
    requires Ok(c) && c.sp >= 33 && c.sp + 2 < |c.mem|
    ensures var d := Save(c);
      && IsFrame(d.mem[c.sp - 32..c.sp + 3], c.r, c.sreg, Word(c.mem[c.sp + 2], c.mem[c.sp + 1]))
      && (forall a :: 0 <= a < |c.mem| && !(c.sp - 33 < a <= c.sp) ==> d.mem[a] == c.mem[a])
  {
    var c1 := Push(c, 0);
    var c2 := Push(c1.(r := c1.r[0 := c1.sreg]), 0);
    PushFromMem(c2, 1);
    var d := Save(c);
    var f := d.mem[c.sp - 32..c.sp + 3];
    forall i {:trigger c.r[i]} | 1 <= i < 32 ensures f[31 - i] == c.r[i] {
      assert d.mem[c2.sp + 1 - i] == c2.r[i];
    }
    assert d.mem[c.sp - 1] == c2.mem[c.sp - 1] && d.mem[c.sp] == c2.mem[c.sp];
    assert f[33] == d.mem[c.sp + 1] && f[34] == d.mem[c.sp + 2];
  }

  lemma {:induction false} PopDownRegs(c: Cpu, i: nat)
    requires Ok(c) && i < 32 && c.sp + i < |c.mem|
    decreases i
    ensures var d := PopDown(c, i);
      && d == c.(sp := d.sp, r := d.r)
      && (forall j :: 1 <= j <= i ==> d.r[j] == c.mem[c.sp + 1 + i - j])
      && (forall j :: 0 <= j < 32 && !(1 <= j <= i) ==> d.r[j] == c.r[j])
  {
    if i > 0 {
      PopDownRegs(Pop(c, i), i - 1);
    }
  }

  /** Restoring from a frame resumes the saved registers, status and return address, with
      the stack pointer just above the return address. */
  lemma RestoreFrame(c: Cpu, r: seq<byte>, sreg: byte, ret: nat)
    requires Ok(c) && c.sp + 35 < |c.mem| && IsFrame(c.mem[c.sp + 1..c.sp + 36], r, sreg, ret)
    ensures Restore(c) == Cpu(r, sreg, c.sp + 35, ret, c.mem)
  {
    PopDownRegs(c, 31);
    var c1, f := PopDown(c, 31), c.mem[c.sp + 1..c.sp + 36];
    forall j {:trigger r[j]} | 1 <= j < 32 ensures c1.r[j] == r[j] {
      assert c1.r[j] == c.mem[c.sp + 32 - j] == f[31 - j];
    }
    assert f[31] == c.mem[c.sp + 32] && f[32] == c.mem[c.sp + 33];
    assert f[33] == c.mem[c.sp + 34] && f[34] == c.mem[c.sp + 35];
    assert Restore(c).r == r;
  }

  /** Memory once the caller is saved: all that a swap writes. */
  function SavedMem(c: Cpu): (m: seq<byte>)
    requires Ok(c) && c.sp >= 33 && OldCtx(c) + 1 < |c.mem|
    ensures |m| == |c.mem|
  {
    StoreSp(Save(c), OldCtx(c)).mem
  }

  /** Which bytes a swap writes: the caller's new frame and the word at `oldctx`. */
  predicate Written(c: Cpu, a: nat)
    requires Ok(c)
  {
    c.sp - 33 < a <= c.sp || a == OldCtx(c) || a == OldCtx(c) + 1
  }

  lemma SavedMemKeeps(c: Cpu)
    requires Ok(c) && c.sp >= 33 && c.sp + 2 < |c.mem| && OldCtx(c) + 1 < |c.mem|
    ensures forall a: nat :: a < |c.mem| && !Written(c, a) ==> SavedMem(c)[a] == c.mem[a]
  {
    SaveFrame(c);
  }

  /** The context at `ctx` belongs to a suspended thread with this saved state. */
  ghost predicate Suspended(mem: seq<byte>, ctx: nat, sp: nat, r: seq<byte>, sreg: byte, ret: nat) {
    && ctx + 1 < |mem| && sp + 35 < |mem|
    && Word(mem[ctx], mem[ctx + 1]) == sp
    && IsFrame(mem[sp + 1..sp + 36], r, sreg, ret)
  }

  /** Swapping out suspends the caller: its registers, status and return address are in its
      frame, unless the context word lies in the frame itself. */
  lemma SwapSuspends(c: Cpu)
    requires Ok(c) && c.sp >= 33 && c.sp + 2 < |c.mem| && OldCtx(c) + 1 < |c.mem|
    requires !(c.sp - 34 < OldCtx(c) <= c.sp + 2)
    ensures Suspended(SavedMem(c), OldCtx(c), c.sp - 33, c.r, c.sreg, Word(c.mem[c.sp + 2], c.mem[c.sp + 1]))
  {
    SaveFrame(c);
    WordOf(c.sp - 33);
    assert SavedMem(c)[c.sp - 32..c.sp + 3] == Save(c).mem[c.sp - 32..c.sp + 3];
  }

  /** The swap `c` overwrites neither the frame above `sp` nor the context word at `ctx`. */
  ghost predicate Spares(c: Cpu, ctx: nat, sp: nat)
    requires Ok(c)
  {
    forall a: nat :: Written(c, a) ==> !(sp < a <= sp + 35) && a != ctx && a != ctx + 1
  }

  lemma SparedMem(c: Cpu, ctx: nat, sp: nat)
    requires Ok(c) && c.sp >= 33 && c.sp + 2 < |c.mem| && OldCtx(c) + 1 < |c.mem|
    requires ctx + 1 < |c.mem| && sp + 35 < |c.mem| && Spares(c, ctx, sp)
    ensures SavedMem(c)[sp + 1..sp + 36] == c.mem[sp + 1..sp + 36]
    ensures SavedMem(c)[ctx] == c.mem[ctx] && SavedMem(c)[ctx + 1] == c.mem[ctx + 1]
  {
    SavedMemKeeps(c);
    assert !Written(c, ctx) && !Written(c, ctx + 1);
    assert forall a: nat :: sp < a <= sp + 35 ==> !Written(c, a);
  }

  /** Swapping in a suspended thread whose frame and context the swap does not overwrite. */
  lemma SwapResumes(c: Cpu, sp: nat, r: seq<byte>, sreg: byte, ret: nat)
    requires Ok(c) && c.sp >= 33 && c.sp + 2 < |c.mem| && OldCtx(c) + 1 < |c.mem|
    requires Suspended(c.mem, NewCtx(c), sp, r, sreg, ret) && Spares(c, NewCtx(c), sp)
    ensures MaySwap(c)
    ensures Swap(c) == Cpu(r, sreg, sp + 35, ret, SavedMem(c))
  {
    SparedMem(c, NewCtx(c), sp);
    RestoreFrame(LoadSp(StoreSp(Save(c), OldCtx(c)), NewCtx(c)), r, sreg, ret);
  }

  /** The caller of the swap `c` is suspended in any memory that kept its frame and context. */
  lemma SuspendedAfter(c: Cpu, m: seq<byte>)
    requires Ok(c) && c.sp >= 33 && c.sp + 2 < |c.mem| == |m| && OldCtx(c) + 1 < |c.mem|
    requires !(c.sp - 34 < OldCtx(c) <= c.sp + 2)
    requires m[c.sp - 32..c.sp + 3] == SavedMem(c)[c.sp - 32..c.sp + 3]
    requires m[OldCtx(c)] == SavedMem(c)[OldCtx(c)] && m[OldCtx(c) + 1] == SavedMem(c)[OldCtx(c) + 1]
    ensures Suspended(m, OldCtx(c), c.sp - 33, c.r, c.sreg, Word(c.mem[c.sp + 2], c.mem[c.sp + 1]))
  {
    SwapSuspends(c);
  }

  /** A thread that calls `cpu_swap_context` in state `a` resumes, at the later swap `b` that
      names its context, with the same 32 registers and SREG, just after the call; provided
      its frame and context word were left alone in between. */
  lemma SwapRoundTrip(a: Cpu, b: Cpu)
    requires Ok(a) && a.sp >= 33 && a.sp + 2 < |a.mem| && OldCtx(a) + 1 < |a.mem|
    requires !(a.sp - 34 < OldCtx(a) <= a.sp + 2)
    requires Ok(b) && b.sp >= 33 && b.sp + 2 < |b.mem| && OldCtx(b) + 1 < |b.mem| == |a.mem|
    requires b.mem[a.sp - 32..a.sp + 3] == SavedMem(a)[a.sp - 32..a.sp + 3]
    requires b.mem[OldCtx(a)] == SavedMem(a)[OldCtx(a)] && b.mem[OldCtx(a) + 1] == SavedMem(a)[OldCtx(a) + 1]
    requires NewCtx(b) == OldCtx(a) && Spares(b, OldCtx(a), a.sp - 33)
    ensures MaySwap(b)
    ensures Swap(b) == Cpu(a.r, a.sreg, a.sp + 2, Word(a.mem[a.sp + 2], a.mem[a.sp + 1]), SavedMem(b))
  {
    SuspendedAfter(a, b.mem);
    SwapResumes(b, a.sp - 33, a.r, a.sreg, Word(a.mem[a.sp + 2], a.mem[a.sp + 1]));
  }

  // ---------------------------------------------------------------- the first frame

  /** Memory with `vals` pushed downwards from address `a`. */
  function PushedDown(mem: seq<byte>, a: nat, vals: seq<byte>): (m: seq<byte>)
    requires a < |mem| && |vals| <= a + 1
    ensures |m| == |mem|
    ensures forall j :: 0 <= j < |vals| ==> m[a - j] == vals[j]
    ensures forall i :: 0 <= i < |mem| && !(a - |vals| < i <= a) ==> m[i] == mem[i]
  {
    seq(|mem|, i requires 0 <= i < |mem| => if a - |vals| < i <= a then vals[a - i] else mem[i])
  }

  /** Program counter, r0, SREG with interrupts enabled, and r1 .. r31. */
  function FirstFrame(func: nat): (v: seq<byte>)
    ensures |v| == 35
  {
    [Lo(func), Hi(func), 0, 0x80] + seq(31, _ => 0)
  }

  const ZEROS: seq<byte> := seq(32, _ => 0)

  /** Memory after `cpu_initialize_context` for the context at `ctx`, with a stack block that
      ends at `top`. */
  function Initialized(mem: seq<byte>, top: nat, ctx: nat, func: nat): (m: seq<byte>)
    requires 35 <= top < |mem| && ctx + 1 < |mem|
    ensures |m| == |mem|
  {
    PushedDown(mem, top, FirstFrame(func))[ctx := Lo(top - 35)][ctx + 1 := Hi(top - 35)]
  }

  /** The thread whose stack block ends at `top` is suspended at the entry of `func`, with
      zero registers and interrupts enabled; its stack will be empty. */
  lemma FirstFrameSuspended(mem: seq<byte>, top: nat, ctx: nat, func: nat)
    requires top < |mem| && top >= 35 && ctx + 1 < |mem| && !(top - 36 < ctx <= top) && top < 0x1_0000
    ensures Suspended(Initialized(mem, top, ctx, func), ctx, top - 35, ZEROS, 0x80, func % 0x1_0000)
  {
    var v, p := FirstFrame(func), PushedDown(mem, top, FirstFrame(func));
    var m := p[ctx := Lo(top - 35)][ctx + 1 := Hi(top - 35)];
    WordOf(top - 35);
    var f := m[top - 34..top + 1];
    forall k | 0 <= k < 35 ensures f[k] == v[34 - k] {
      assert f[k] == m[top - 34 + k] == p[top - (34 - k)];
    }
    assert f[31] == v[3] && f[32] == v[2] && f[33] == v[1] && f[34] == v[0];
    FuncWord(func);
  }

  lemma FuncWord(func: nat)
    ensures Word(Lo(func), Hi(func)) == func % 0x1_0000
  {
  }

  /** The first swap to a context that `cpu_initialize_context` made, its frame and context
      word not written since, enters `func` with r0 .. r31 zero, SREG 0x80, and the stack
      pointer at the top of the stack block. */
  lemma FirstSwap(c: Cpu, mem: seq<byte>, top: nat, func: nat)
    requires Ok(c) && c.sp >= 33 && c.sp + 2 < |c.mem| == |mem| && OldCtx(c) + 1 < |c.mem|
    requires 35 <= top < |mem| && top < 0x1_0000 && NewCtx(c) + 1 < |mem| && !(top - 36 < NewCtx(c) <= top)
    requires var m := Initialized(mem, top, NewCtx(c), func);
      && c.mem[top - 34..top + 1] == m[top - 34..top + 1]
      && c.mem[NewCtx(c)] == m[NewCtx(c)] && c.mem[NewCtx(c) + 1] == m[NewCtx(c) + 1]
    requires Spares(c, NewCtx(c), top - 35)
    ensures MaySwap(c)
    ensures Swap(c) == Cpu(ZEROS, 0x80, top, func % 0x1_0000, SavedMem(c))
  {
    FirstFrameSuspended(mem, top, NewCtx(c), func);
    SwapResumes(c, top - 35, ZEROS, 0x80, func % 0x1_0000);
  }

  /** Every register comes off the stack, whatever the scratch registers hold. */
  lemma RestoreIgnoresRegisters(c: Cpu, r: seq<byte>, sreg: byte)
    requires Ok(c) && c.sp + 35 < |c.mem| && |r| == 32
    ensures Restore(c.(r := r, sreg := sreg)) == Restore(c)
  {
    var d := c.(r := r, sreg := sreg);
    PopDownRegs(c, 31);
    PopDownRegs(d, 31);
    var x, y := PopDown(c, 31), PopDown(d, 31);
    assert forall j :: 1 <= j < 32 ==> x.r[j] == y.r[j];
    assert x.r[0 := c.mem[c.sp + 33]] == y.r[0 := c.mem[c.sp + 33]];
    FinishIgnores(x, y);
  }

  lemma FinishIgnores(x: Cpu, y: Cpu)
    requires Ok(x) && x.sp + 4 < |x.mem| && |y.r| == 32 && y == x.(r := y.r, sreg := y.sreg)
    requires forall j :: 1 <= j < 32 ==> x.r[j] == y.r[j]
    ensures FinishRestore(x) == FinishRestore(y)
  {
    assert FinishRestore(x).r == FinishRestore(y).r;
  }

  // ---------------------------------------------------------------- on the machine

  class Avr {
    const r: array<byte>
    const mem: array<byte>
    var sreg: byte
    var sp: nat
    var pc: nat

    ghost function View(): Cpu
      reads this, r, mem
    {
      Cpu(r[..], sreg, sp, pc, mem[..])
    }

    ghost predicate Valid()
      reads this, r, mem
    {
      r != mem && Ok(View())
    }

    constructor (size: nat)
      requires 0 < size <= 0x1_0000
      ensures Valid() && fresh(r) && fresh(mem) && mem.Length == size
    {
      r := new byte[32](_ => 0);
      mem := new byte[size](_ => 0);
      sreg, sp, pc := 0, 0, 0;
    }

    /** `push` of the next register; `goal` is the state after the last push. */
    method PushNext(i: nat, ghost goal: Cpu)
      requires Valid() && 1 <= i < 32 && sp >= 32 - i && PushFrom(View(), i) == goal
      modifies this`sp, mem
      ensures Valid() && sp == old(sp) - 1 && PushFrom(View(), i + 1) == goal
    {
      mem[sp] := r[i];
      sp := sp - 1;
      assert View() == Push(old(View()), i);
    }

    /** `pop` of the next register; `goal` is the state after the last pop. */
    method PopNext(i: nat, ghost goal: Cpu)
      requires Valid() && 1 <= i < 32 && sp + i < mem.Length && PopDown(View(), i) == goal
      modifies this`sp, r
      ensures Valid() && sp == old(sp) + 1 && PopDown(View(), i - 1) == goal
    {
      sp := sp + 1;
      r[i] := mem[sp];
      assert View() == Pop(old(View()), i);
    }

    method PushEight(i: nat, ghost goal: Cpu)
      requires Valid() && 1 <= i <= 24 && sp >= 32 - i && PushFrom(View(), i) == goal
      modifies this`sp, mem
      ensures Valid() && sp == old(sp) - 8 && PushFrom(View(), i + 8) == goal
    {
      PushNext(i, goal);
      PushNext(i + 1, goal);
      PushNext(i + 2, goal);
      PushNext(i + 3, goal);
      PushNext(i + 4, goal);
      PushNext(i + 5, goal);
      PushNext(i + 6, goal);
      PushNext(i + 7, goal);
    }

    method PushSeven(i: nat, ghost goal: Cpu)
      requires Valid() && i == 25 && sp >= 32 - i && PushFrom(View(), i) == goal
      modifies this`sp, mem
      ensures Valid() && View() == goal
    {
      PushNext(i, goal);
      PushNext(i + 1, goal);
      PushNext(i + 2, goal);
      PushNext(i + 3, goal);
      PushNext(i + 4, goal);
      PushNext(i + 5, goal);
      PushNext(i + 6, goal);
    }

    /** `push r0`, then SREG through r0. */
    method SaveStatus()
      requires Valid() && sp >= 33
      modifies this`sp, r, mem
      ensures Valid() && sp == old(sp) - 2 && PushFrom(View(), 1) == Save(old(View()))
      ensures r.Length == 32
    {
      mem[sp] := r[0];
      sp := sp - 1;
      r[0] := sreg;
      mem[sp] := r[0];
      sp := sp - 1;
      ghost var c1 := Push(old(View()), 0);
      assert View() == Push(c1.(r := c1.r[0 := c1.sreg]), 0);
    }

    /** The pushes at the start of `cpu_swap_context`. */
    method SaveRegisters()
      requires Valid() && sp >= 33
      modifies this`sp, r, mem
      ensures Valid() && View() == Save(old(View()))
    {
      ghost var g := Save(View());
      SaveStatus();
      PushEight(1, g);
      PushEight(9, g);
      PushEight(17, g);
      PushSeven(25, g);
    }

    method PopEight(i: nat, ghost goal: Cpu)
      requires Valid() && 8 <= i < 32 && sp + i < mem.Length && PopDown(View(), i) == goal
      modifies this`sp, r
      ensures Valid() && sp == old(sp) + 8 && PopDown(View(), i - 8) == goal
    {
      PopNext(i, goal);
      PopNext(i - 1, goal);
      PopNext(i - 2, goal);
      PopNext(i - 3, goal);
      PopNext(i - 4, goal);
      PopNext(i - 5, goal);
      PopNext(i - 6, goal);
      PopNext(i - 7, goal);
    }

    method PopSeven(i: nat, ghost goal: Cpu)
      requires Valid() && i == 7 && sp + i < mem.Length && PopDown(View(), i) == goal
      modifies this`sp, r
      ensures Valid() && View() == goal
    {
      PopNext(i, goal);
      PopNext(i - 1, goal);
      PopNext(i - 2, goal);
      PopNext(i - 3, goal);
      PopNext(i - 4, goal);
      PopNext(i - 5, goal);
      PopNext(i - 6, goal);
    }

    /** The pops at the end of `cpu_swap_context`. */
    method RestoreRegisters()
      requires Valid() && sp + 31 < mem.Length
      modifies this`sp, r
      ensures Valid() && View() == PopDown(old(View()), 31)
    {
      ghost var g := PopDown(View(), 31);
      PopEight(31, g);
      PopEight(23, g);
      PopEight(15, g);
      PopSeven(7, g);
    }

    /** SREG through r0, `pop r0`, and `ret`. */
    method RestoreStatus()
      requires Valid() && sp + 4 < mem.Length
      modifies this`sp, this`sreg, this`pc, r
      ensures Valid()
      ensures View() == FinishRestore(old(View()))
    {
      sp := sp + 1;
      r[0] := mem[sp];
      sreg := r[0];
      sp := sp + 1;
      r[0] := mem[sp];
      pc := Word(mem[sp + 2], mem[sp + 1]);
      sp := sp + 2;
      assert View().r == FinishRestore(old(View())).r;
    }

    /** `movw`, `in`, `st Z+`, `in`, `st Z`: the stack pointer goes to the old context; then
        `movw`, `ld Z+`, `out`, `ld Z`, `out`: it comes from the new one. */
    method ExchangeSp()
      requires Valid() && OldCtx(View()) + 1 < mem.Length && NewCtx(View()) + 1 < mem.Length
      requires var m := StoreSp(View(), OldCtx(View())).mem;
        Word(m[NewCtx(View())], m[NewCtx(View()) + 1]) < mem.Length
      modifies this`sp, r, mem
      ensures Valid()
      ensures View() == LoadSp(StoreSp(old(View()), OldCtx(old(View()))), NewCtx(old(View()))).(r := View().r)
    {
      ghost var c := View();
      r[30], r[31] := r[24], r[25];
      var z := Word(r[30], r[31]);
      r[0] := Lo(sp);
      mem[z] := r[0];
      z := z + 1;
      r[30], r[31] := Lo(z), Hi(z);
      r[0] := Hi(sp);
      mem[z] := r[0];
      assert mem[..] == StoreSp(c, OldCtx(c)).mem;
      r[30], r[31] := r[22], r[23];
      z := Word(r[30], r[31]);
      r[0] := mem[z];
      var spl := r[0];
      z := z + 1;
      r[30], r[31] := Lo(z), Hi(z);
      r[0] := mem[z];
      sp := Word(spl, r[0]);
    }

    method CpuSwapContext()
      requires Valid() && MaySwap(View())
      modifies this, r, mem
      ensures Valid() && View() == Swap(old(View()))
    {
      ghost var c := View();
      SavedPointers(c);
      SaveRegisters();
      ExchangeSp();
      RestoreIgnoresRegisters(LoadSp(StoreSp(Save(c), OldCtx(c)), NewCtx(c)), r[..], sreg);
      RestoreRegisters();
      RestoreStatus();
    }

    /** The loop that clears r1 to r31, below the four bytes pushed before it. */
    method PushZeros(top: nat, ghost m: seq<byte>, ghost vals: seq<byte>) returns (stack: nat)
      requires Valid() && 35 <= top < mem.Length && |m| == mem.Length && |vals| == 4
      requires mem[..] == PushedDown(m, top, vals)
      modifies mem
      ensures stack == top - 35 && mem[..] == PushedDown(m, top, vals + seq(31, _ => 0x00))
    {
      stack := top - 4;
      for i := 1 to 32
        invariant stack == top - 3 - i
        invariant mem[..] == PushedDown(m, top, vals + seq(i - 1, _ => 0x00))
      {
        mem[stack] := 0x00;
        stack := stack - 1;
        assert mem[..] == PushedDown(m, top, vals + seq(i, _ => 0x00));
      }
    }

    /** `cpu_initialize_context`; the thread function is its word address. */
    method CpuInitializeContext(ctx: nat, base: nat, size: nat, func: nat)
      requires Valid() && size >= 35 && 36 <= base + size <= mem.Length
      requires ctx + 1 < mem.Length && (ctx + 1 < base || base + size <= ctx)
      modifies mem
      ensures Valid()
      ensures var top := base + size - 1;
        mem[..] == Initialized(old(mem[..]), top, ctx, func)
    {
      var top := base + size - 1;
      ghost var m := mem[..];
      mem[top] := Lo(func);
      mem[top - 1] := Hi(func);
      mem[top - 2] := 0x00;
      mem[top - 3] := 0x80;
      var stack := PushZeros(top, m, [Lo(func), Hi(func), 0x00, 0x80]);
      assert FirstFrame(func) == [Lo(func), Hi(func), 0x00, 0x80] + seq(31, _ => 0x00);
      mem[ctx] := Lo(stack);
      mem[ctx + 1] := Hi(stack);
    }
  }

  /** Saving leaves the pointer arguments in their registers. */
  lemma SavedPointers(c: Cpu)
    requires Ok(c) && c.sp >= 33
    ensures OldCtx(Save(c)) == OldCtx(c) && NewCtx(Save(c)) == NewCtx(c)
  {
    var c1 := Push(c, 0);
    PushFromMem(Push(c1.(r := c1.r[0 := c1.sreg]), 0), 1);
  }
}
