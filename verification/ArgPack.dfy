/** Packing vectors of strings into argument buffers (include/util.h). */
module ArgPack {
  import opened Bytes

  /** A C string without its terminating zero, or a buffer of several. */
  type Text = seq<byte>

  predicate ZeroFree(argv: seq<Text>) {
    forall i, j :: 0 <= i < |argv| && 0 <= j < |argv[i]| ==> argv[i][j] != 0
  }

  /** The strings one after the other, each with its terminating zero. */
  function Packed(argv: seq<Text>): Text {
    if argv == [] then [] else argv[0] + [0] + Packed(argv[1..])
  }

  lemma {:induction false} PackedSnoc(argv: seq<Text>, s: Text)
    ensures Packed(argv + [s]) == Packed(argv) + s + [0]
  {
    if argv == [] {
      assert ([] + [s])[1..] == [];
    } else {
      assert (argv + [s])[1..] == argv[1..] + [s];
      PackedSnoc(argv[1..], s);
    }
  }

  lemma PackedStep(argv: seq<Text>, i: nat)
    requires i < |argv|
    ensures Packed(argv[..i + 1]) == Packed(argv[..i]) + argv[i] + [0]
  {
    assert argv[..i + 1] == argv[..i] + [argv[i]];
    PackedSnoc(argv[..i], argv[i]);
  }

  lemma {:induction false} PackedPrefix(argv: seq<Text>, i: nat)
    requires i <= |argv|
    ensures |Packed(argv[..i])| <= |Packed(argv)|
  {
    if i > 0 {
      assert argv[..i][1..] == argv[1..][..i - 1];
      PackedPrefix(argv[1..], i - 1);
    }
  }

  // ---------------------------------------------------------------- argvlen, argvpack

  method ArgvLen(argv: seq<Text>) returns (l: nat)
    ensures l == |Packed(argv)|
  {
    l := 0;
    for i := 0 to |argv|
      invariant l == |Packed(argv[..i])|
    {
      PackedStep(argv, i);
      l := l + |argv[i]| + 1;
    }
    assert argv[..|argv|] == argv;
  }

  /** Copies a string and its terminating zero to position `start`, counting its characters. */
  method CopyString(args: array<byte>, start: nat, s: Text) returns (pos: nat, copied: nat)
    requires start + |s| < args.Length && forall j :: 0 <= j < |s| ==> s[j] != 0
    modifies args
    ensures pos == start + |s| + 1 && copied == |s|
    ensures args[..] == old(args[..start]) + s + [0] + old(args[pos..])
  {
    pos, copied := start, 0;
    var c: byte := 1;
    while c != 0
      invariant c != 0 ==> copied <= |s| && pos == start + copied
      invariant c == 0 ==> copied == |s| && pos == start + |s| + 1
      invariant forall j :: 0 <= j < args.Length ==>
        args[j] == if start <= j < pos then (s + [0])[j - start] else old(args[j])
      decreases c != 0, |s| - copied
    {
      c := (s + [0])[copied];
      args[pos] := c;
      pos := pos + 1;
      if c != 0 {
        copied := copied + 1;
      }
    }
  }

  /** Packs the strings at the start of the buffer, and returns the number of bytes. */
  method ArgvPack(args: array<byte>, argv: seq<Text>) returns (len: nat)
    requires ZeroFree(argv) && |Packed(argv)| <= args.Length
    modifies args
    ensures len == |Packed(argv)|
    ensures args[..] == Packed(argv) + old(args[len..])
  {
    var argl, pos := 0, 0;
    for i := 0 to |argv|
      invariant pos == |Packed(argv[..i])| == argl + i <= args.Length
      invariant args[..] == Packed(argv[..i]) + old(args[pos..])
    {
      PackedStep(argv, i);
      PackedPrefix(argv, i + 1);
      var n;
      ghost var before := args[..];
      pos, n := CopyString(args, pos, argv[i]);
      assert args[..] == Packed(argv[..i + 1]) + old(args[pos..]) by {
        assert before[pos..] == old(args[pos..]);
      }
      argl := argl + n;
    }
    assert argv[..|argv|] == argv;
    return argl + |argv|;
  }

  // ---------------------------------------------------------------- argscount

  function Zeros(b: Text): nat {
    if b == [] then 0 else (if b[0] == 0 then 1 else 0) + Zeros(b[1..])
  }

  lemma {:induction false} ZerosConcat(a: Text, b: Text)
    ensures Zeros(a + b) == Zeros(a) + Zeros(b)
  {
    if a == [] {
      assert [] + b == b;
    } else {
      assert (a + b)[1..] == a[1..] + b;
      ZerosConcat(a[1..], b);
    }
  }

  method ArgsCount(argl: nat, args: array<byte>) returns (n: nat)
    requires argl <= args.Length
    ensures n == Zeros(args[..argl])
  {
    n := 0;
    for i := 0 to argl
      invariant n == Zeros(args[..i])
    {
      assert args[..i + 1] == args[..i] + [args[i]];
      ZerosConcat(args[..i], [args[i]]);
      if args[i] == 0 {
        n := n + 1;
      }
    }
  }

  // ---------------------------------------------------------------- argvunpack

  /** The length of the C string at the start of the buffer. */
  function StrLen(b: Text): (n: nat)
    ensures n <= |b|
  {
    if b == [] || b[0] == 0 then 0 else 1 + StrLen(b[1..])
  }

  lemma {:induction false} StrLenIs(b: Text)
    ensures forall j :: 0 <= j < StrLen(b) ==> b[j] != 0
    ensures StrLen(b) < |b| ==> b[StrLen(b)] == 0
  {
    if b != [] && b[0] != 0 {
      StrLenIs(b[1..]);
    }
  }

  /** Where the first `n` strings of a buffer start, from offset `base`. */
  function Starts(b: Text, n: nat, base: nat): (r: seq<nat>)
    requires n <= Zeros(b)
    ensures |r| == n
  {
    if n == 0 then []
    else
      var k := StrLen(b) + 1;
      ZerosRest(b);
      [base] + Starts(b[k..], n - 1, base + k)
  }

  /** The position behind the first `n` strings. */
  function Behind(b: Text, n: nat): (p: nat)
    requires n <= Zeros(b)
    ensures p <= |b|
  {
    if n == 0 then 0
    else
      var k := StrLen(b) + 1;
      ZerosRest(b);
      k + Behind(b[k..], n - 1)
  }

  lemma {:induction false} ZerosRest(b: Text)
    requires Zeros(b) > 0
    ensures StrLen(b) < |b| && Zeros(b[StrLen(b) + 1..]) == Zeros(b) - 1
  {
    if b[0] != 0 {
      ZerosRest(b[1..]);
      assert b[1..][StrLen(b[1..]) + 1..] == b[StrLen(b) + 1..];
    }
  }

  lemma {:induction false} BehindSnoc(b: Text, n: nat)
    requires n < Zeros(b)
    ensures Zeros(b[Behind(b, n)..]) == Zeros(b) - n
    ensures Behind(b, n + 1) == Behind(b, n) + StrLen(b[Behind(b, n)..]) + 1
  {
    ZerosRest(b);
    var k := StrLen(b) + 1;
    if n == 0 {
      assert b[0..] == b;
    } else {
      BehindSnoc(b[k..], n - 1);
      assert b[k..][Behind(b[k..], n - 1)..] == b[Behind(b, n)..];
    }
  }

  /** The first string, and the rest. */
  lemma FirstString(b: Text, n: nat, base: nat)
    requires 0 < n <= Zeros(b)
    ensures var k := StrLen(b) + 1;
      && k <= |b| && n - 1 <= Zeros(b[k..])
      && Starts(b, n, base) == [base] + Starts(b[k..], n - 1, base + k) && Behind(b, n) == k + Behind(b[k..], n - 1)
  {
    ZerosRest(b);
  }

  lemma {:induction false} StartsSnoc(b: Text, n: nat, base: nat)
    requires n < Zeros(b)
    ensures Starts(b, n + 1, base) == Starts(b, n, base) + [base + Behind(b, n)]
  {
    FirstString(b, n + 1, base);
    if n > 0 {
      FirstString(b, n, base);
      var k := StrLen(b) + 1;
      StartsSnoc(b[k..], n - 1, base + k);
      OneBefore(base, Starts(b[k..], n, base + k), Starts(b[k..], n - 1, base + k), base + k + Behind(b[k..], n - 1));
    }
  }

  lemma OneBefore(p: nat, x: seq<nat>, y: seq<nat>, q: nat)
    requires x == y + [q]
    ensures [p] + x == ([p] + y) + [q]
  {
  }

  /** Skips the string at position `a` and its terminating zero. */
  method SkipString(args: array<byte>, a: nat) returns (p: nat)
    requires a <= args.Length && Zeros(args[a..]) > 0
    ensures p == a + StrLen(args[a..]) + 1 <= args.Length
  {
    p := a;
    ZerosRest(args[a..]);
    StrLenIs(args[a..]);
    ghost var n := StrLen(args[a..]);
    while args[p] != 0
      invariant a <= p <= a + n
      decreases a + n - p
    {
      assert args[p] == args[a..][p - a];
      p := p + 1;
    }
    assert args[p] == args[a..][p - a];
    p := p + 1;
  }

  /** The starts of the first `argc` strings of the buffer, and the position behind them. */
  method ArgvUnpack(argc: nat, args: array<byte>) returns (argv: seq<nat>, a: nat)
    requires argc <= Zeros(args[..])
    ensures argv == Starts(args[..], argc, 0) && a == Behind(args[..], argc)
  {
    argv, a := [], 0;
    for i := 0 to argc
      invariant argv == Starts(args[..], i, 0) && a == Behind(args[..], i)
    {
      BehindSnoc(args[..], i);
      StartsSnoc(args[..], i, 0);
      assert args[..][a..] == args[a..];
      argv := argv + [a];
      a := SkipString(args, a);
    }
  }

  // ---------------------------------------------------------------- the round trip

  lemma {:induction false} PackedZeros(argv: seq<Text>, rest: Text)
    requires ZeroFree(argv)
    ensures Zeros(Packed(argv) + rest) == |argv| + Zeros(rest)
  {
    if argv == [] {
      assert Packed(argv) + rest == rest;
    } else {
      var s, t := argv[0], Packed(argv[1..]) + rest;
      assert Packed(argv) + rest == s + ([0] + t);
      ZerosConcat(s, [0] + t);
      ZerosConcat([0], t);
      NoZeros(s);
      PackedZeros(argv[1..], rest);
    }
  }

  lemma {:induction false} NoZeros(s: Text)
    requires forall j :: 0 <= j < |s| ==> s[j] != 0
    ensures Zeros(s) == 0
  {
    if s != [] {
      NoZeros(s[1..]);
    }
  }

  lemma {:induction false} StrLenOf(s: Text, t: Text)
    requires forall j :: 0 <= j < |s| ==> s[j] != 0
    ensures StrLen(s + ([0] + t)) == |s|
  {
    var b := s + ([0] + t);
    if s == [] {
      assert b[0] == 0;
    } else {
      assert b[1..] == s[1..] + ([0] + t);
      StrLenOf(s[1..], t);
    }
  }

  /** The string at offset `p` of the buffer. */
  function StringAt(b: Text, p: nat): Text {
    if p <= |b| then b[p..][..StrLen(b[p..])] else []
  }

  /** The first string and the rest of a packed buffer. */
  lemma PackedHead(argv: seq<Text>, rest: Text)
    requires ZeroFree(argv) && argv != []
    ensures var b, k := Packed(argv) + rest, |argv[0]| + 1;
      && |argv| <= Zeros(b)
      && k <= |b| && StrLen(b) + 1 == k && b[k..] == Packed(argv[1..]) + rest && StringAt(b, 0) == argv[0]
  {
    PackedZeros(argv, rest);
    var s, t := argv[0], Packed(argv[1..]) + rest;
    PackedIs(argv, rest);
    StrLenOf(s, t);
    HeadParts(s, t);
  }

  lemma PackedIs(argv: seq<Text>, rest: Text)
    requires argv != []
    ensures Packed(argv) + rest == argv[0] + ([0] + (Packed(argv[1..]) + rest))
  {
  }

  lemma HeadParts(s: Text, t: Text)
    ensures var b := s + ([0] + t);
      |s| + 1 <= |b| && b[|s| + 1..] == t && b[0..] == b && b[..|s|] == s
  {
  }

  lemma {:induction false} BehindPacked(argv: seq<Text>, rest: Text)
    requires ZeroFree(argv)
    ensures |argv| <= Zeros(Packed(argv) + rest) && Behind(Packed(argv) + rest, |argv|) == |Packed(argv)|
  {
    PackedZeros(argv, rest);
    if argv != [] {
      PackedHead(argv, rest);
      BehindPacked(argv[1..], rest);
    }
  }

  lemma {:induction false} StartPacked(argv: seq<Text>, rest: Text, base: nat, i: nat)
    requires ZeroFree(argv) && i < |argv|
    ensures |argv| <= Zeros(Packed(argv) + rest)
    ensures var b := Packed(argv) + rest;
      var p := Starts(b, |argv|, base)[i];
      p >= base && StringAt(b, p - base) == argv[i]
    decreases i
  {
    PackedHead(argv, rest);
    if i > 0 {
      StartPacked(argv[1..], rest, base + |argv[0]| + 1, i - 1);
      PackedZeros(argv[1..], rest);
      StringShift(Packed(argv) + rest, |argv[0]| + 1,
                  Starts(Packed(argv[1..]) + rest, |argv| - 1, base + |argv[0]| + 1)[i - 1] - base - |argv[0]| - 1);
    }
  }

  lemma StringShift(b: Text, k: nat, p: nat)
    requires k <= |b|
    ensures StringAt(b[k..], p) == StringAt(b, k + p)
  {
    if p <= |b| - k {
      assert b[k..][p..] == b[k + p..];
    }
  }

  /** Unpacking what was packed: the buffer counts as many strings as were packed, each is
      recovered at its start, and the position behind them is the packed length. */
  lemma RoundTrip(argv: seq<Text>, rest: Text)
    requires ZeroFree(argv)
    ensures var b := Packed(argv) + rest;
      && Zeros(b[..|Packed(argv)|]) == |argv| <= Zeros(b)
      && Behind(b, |argv|) == |Packed(argv)|
      && (forall i :: 0 <= i < |argv| ==> StringAt(b, Starts(b, |argv|, 0)[i]) == argv[i])
  {
    var b := Packed(argv) + rest;
    PackedZeros(argv, []);
    assert Packed(argv) + [] == Packed(argv) == b[..|Packed(argv)|];
    BehindPacked(argv, rest);
    forall i | 0 <= i < |argv| ensures StringAt(b, Starts(b, |argv|, 0)[i]) == argv[i] {
      StartPacked(argv, rest, 0, i);
    }
  }
}
