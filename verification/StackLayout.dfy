/** The arguments and the environment on a new process's user stack: what the
    scheduler writes and what the program's entry point reads. */
module StackLayout {
  import opened AddressMap
  import opened Bits
  import opened ByteBlocks

  type CStr = s: Block | forall i :: 0 <= i < |s| ==> s[i] != 0

  function At(mem: Block, x: nat): bv8
    requires |mem| == STACK_BYTES && STACK_BOTTOM <= x < STACK_TOP
  {
    mem[x - STACK_BOTTOM]
  }

  /** The bytes from `lo` to `hi` are the same. */
  predicate Same(m: Block, r: Block, lo: nat, hi: nat)
    requires |m| == STACK_BYTES == |r| && STACK_BOTTOM <= lo && hi <= STACK_TOP
  {
    forall x: nat :: lo <= x < hi ==> At(r, x) == At(m, x)
  }

  /** `bytes` lie at `a`. */
  predicate Holds(mem: Block, a: nat, bytes: Block)
    requires |mem| == STACK_BYTES && InStack(a, |bytes|)
  {
    forall x: nat :: a <= x < a + |bytes| ==> At(mem, x) == bytes[x - a]
  }

  predicate InStack(a: nat, n: nat) {
    STACK_BOTTOM <= a && a + n <= STACK_TOP
  }

  // ----- writing downward

  /** `mem` holds the bytes from `STACK_BOTTOM` to `STACK_TOP`; what is pushed ends at `addr`. */
  function Push(mem: Block, addr: nat, bytes: Block): (r: Block)
    requires |mem| == STACK_BYTES && STACK_BOTTOM + |bytes| <= addr <= STACK_TOP
    ensures |r| == STACK_BYTES && Same(mem, r, STACK_BOTTOM, addr - |bytes|) && Same(mem, r, addr, STACK_TOP)
            && Holds(r, addr - |bytes|, bytes)
  {
    Splice(mem, addr - STACK_BOTTOM - |bytes|, bytes)
  }

  function Bytes(strs: seq<CStr>): nat {
    if strs == [] then 0 else Bytes(strs[..|strs| - 1]) + |strs[|strs| - 1]| + 1
  }

  /** The loop over the strings: memory, address, and where each string went. */
  function PushStrings(mem: Block, addr: nat, strs: seq<CStr>): (r: (Block, nat, seq<nat>))
    requires |mem| == STACK_BYTES && STACK_BOTTOM + Bytes(strs) <= addr <= STACK_TOP
    ensures |r.0| == STACK_BYTES && r.1 == addr - Bytes(strs) && |r.2| == |strs|
    decreases |strs|
  {
    if strs == [] then (mem, addr, [])
    else
      var n := |strs| - 1;
      var (m, a, ptrs) := PushStrings(mem, addr, strs[..n]);
      var next: nat := a - (|strs[n]| + 1);
      (Push(m, a, strs[n] + [0]), next, ptrs + [next])
  }

  /** The loop over the pointers, last one first. */
  function PushWords(mem: Block, addr: nat, words: seq<nat>): (r: Block)
    requires |mem| == STACK_BYTES && STACK_BOTTOM + 4 * |words| <= addr <= STACK_TOP
    ensures |r| == STACK_BYTES
    decreases |words|
  {
    if words == [] then mem
    else Push(PushWords(mem, addr, words[1..]), addr - 4 * (|words| - 1), WordBytes(words[0]))
  }

  function Need(argv: seq<CStr>, env: seq<CStr>): nat {
    Bytes(argv) + Bytes(env) + 4 * (|argv| + |env| + 2)
  }

  /** The whole layout: memory and the user stack pointer. */
  function Layout(mem: Block, argv: seq<CStr>, env: seq<CStr>): (r: (Block, nat))
    requires |mem| == STACK_BYTES && Need(argv, env) <= STACK_BYTES
    ensures |r.0| == STACK_BYTES && r.1 == STACK_TOP - Need(argv, env)
  {
    var (m1, a1, args) := PushStrings(mem, STACK_TOP, argv);
    var (m2, a2, envs) := PushStrings(m1, a1, env);
    var m3 := PushWords(m2, a2, envs + [0]);
    var a3: nat := a2 - 4 * (|env| + 1);
    (PushWords(m3, a3, args + [0]), a3 - 4 * (|argv| + 1))
  }

  // ----- reading

  function WordAt(mem: Block, a: nat): nat
    requires |mem| == STACK_BYTES && InStack(a, 4)
  {
    U32(mem, a - STACK_BOTTOM)
  }

  /** The C string at `a`: bytes up to the first 0 or the end of the stack. */
  function StringFrom(mem: Block, a: nat): Block
    requires |mem| == STACK_BYTES && STACK_BOTTOM <= a <= STACK_TOP
    decreases STACK_TOP - a
  {
    if a == STACK_TOP || At(mem, a) == 0 then [] else [At(mem, a)] + StringFrom(mem, a + 1)
  }

  /** The counting loop of `_start`: words before the first 0. */
  function CountFrom(mem: Block, a: nat, k: nat): (n: nat)
    requires |mem| == STACK_BYTES && STACK_BOTTOM <= a
    decreases STACK_TOP - (a + 4 * k)
  {
    if !InStack(a + 4 * k, 4) || WordAt(mem, a + 4 * k) == 0 then k else CountFrom(mem, a, k + 1)
  }

  /** The argument count, and `environ`. */
  function Start(mem: Block, esp: nat): (nat, nat)
    requires |mem| == STACK_BYTES && STACK_BOTTOM <= esp
  {
    var argc := CountFrom(mem, esp, 0);
    (argc, esp + 4 * (argc + 1))
  }

  // ----- the proof

  lemma {:induction false} SameString(m: Block, r: Block, a: nat)
    requires |m| == STACK_BYTES == |r| && STACK_BOTTOM <= a <= STACK_TOP && Same(m, r, a, STACK_TOP)
    ensures StringFrom(r, a) == StringFrom(m, a)
    decreases STACK_TOP - a
  {
    if a < STACK_TOP {
      assert At(r, a) == At(m, a);
      SameString(m, r, a + 1);
    }
  }

  lemma {:induction false} ReadsString(mem: Block, a: nat, s: CStr, k: nat)
    requires |mem| == STACK_BYTES && InStack(a, |s| + 1) && Holds(mem, a, s + [0]) && k <= |s|
    ensures StringFrom(mem, a + k) == s[k..]
    decreases |s| - k
  {
    assert At(mem, a + k) == (s + [0])[k];
    if k < |s| {
      ReadsString(mem, a, s, k + 1);
      assert s[k..] == [s[k]] + s[k + 1..];
    }
  }

  predicate StringsAt(m: Block, lo: nat, hi: nat, strs: seq<CStr>, ptrs: seq<nat>)
    requires |m| == STACK_BYTES && STACK_BOTTOM <= lo && hi <= STACK_TOP && |ptrs| == |strs|
  {
    forall i: nat :: i < |strs| ==> lo <= ptrs[i] && ptrs[i] + |strs[i]| + 1 <= hi && StringFrom(m, ptrs[i]) == strs[i]
  }

  /** Every string is where its pointer says, and nothing outside changes. */
  lemma {:induction false} StringsPlaced(mem: Block, addr: nat, strs: seq<CStr>)
    requires |mem| == STACK_BYTES && STACK_BOTTOM + Bytes(strs) <= addr <= STACK_TOP
    ensures var (m, a, ptrs) := PushStrings(mem, addr, strs);
      Same(mem, m, addr, STACK_TOP) && Same(mem, m, STACK_BOTTOM, a) && StringsAt(m, a, addr, strs, ptrs)
    decreases |strs|
  {
    hide StringFrom, At, Push;
    if strs != [] {
      var n := |strs| - 1;
      StringsPlaced(mem, addr, strs[..n]);
      var (m1, a1, ptrs) := PushStrings(mem, addr, strs[..n]);
      var (m, a, all) := PushStrings(mem, addr, strs);
      ReadsString(m, a, strs[n], 0);
      forall i: nat | i < n ensures StringFrom(m, ptrs[i]) == strs[i] {
        assert strs[..n][i] == strs[i];
        SameString(m1, m, ptrs[i]);
      }
    }
  }

  predicate WordsAt(m: Block, lo: nat, words: seq<nat>)
    requires |m| == STACK_BYTES && InStack(lo, 4 * |words|)
  {
    forall i: nat :: i < |words| ==> WordAt(m, lo + 4 * i) == words[i]
  }

  lemma {:induction false} WordsPlaced(mem: Block, addr: nat, words: seq<nat>)
    requires |mem| == STACK_BYTES && STACK_BOTTOM + 4 * |words| <= addr <= STACK_TOP
    requires forall i: nat :: i < |words| ==> words[i] < WORD
    ensures var m := PushWords(mem, addr, words); var lo: nat := addr - 4 * |words|;
      Same(mem, m, addr, STACK_TOP) && Same(mem, m, STACK_BOTTOM, lo) && WordsAt(m, lo, words)
    decreases |words|
  {
    hide At, Push, WordAt, WordsAt, Holds;
    NoWords(mem, addr);
    if words != [] {
      var rest := words[1..];
      WordsPlaced(mem, addr, rest);
      var m1 := PushWords(mem, addr, rest);
      var hi: nat := addr - 4 * |rest|;
      WordPushed(m1, hi, words[0], rest);
      assert words == [words[0]] + rest;
    }
  }

  lemma NoWords(m: Block, lo: nat)
    requires |m| == STACK_BYTES && InStack(lo, 0)
    ensures WordsAt(m, lo, [])
  {
  }

  lemma WordPushed(m1: Block, hi: nat, w: nat, rest: seq<nat>)
    requires |m1| == STACK_BYTES && STACK_BOTTOM + 4 <= hi && InStack(hi, 4 * |rest|) && WordsAt(m1, hi, rest)
             && w < WORD
    ensures WordsAt(Push(m1, hi, WordBytes(w)), hi - 4, [w] + rest)
  {
    hide At, WordAt;
    var m := Push(m1, hi, WordBytes(w));
    var lo: nat := hi - 4;
    hide Push, Holds;
    WordHeld(m, lo, w);
    forall i: nat | 0 < i < 1 + |rest| ensures WordAt(m, lo + 4 * i) == rest[i - 1] {
      assert WordAt(m1, hi + 4 * (i - 1)) == rest[i - 1];
      SameWord(m1, m, hi + 4 * (i - 1));
    }
  }

  lemma WordHeld(m: Block, a: nat, w: nat)
    requires |m| == STACK_BYTES && InStack(a, 4) && Holds(m, a, WordBytes(w)) && w < WORD
    ensures WordAt(m, a) == w
  {
    hide Value, WordBytes;
    forall k: nat | k < 4 ensures m[a - STACK_BOTTOM..a - STACK_BOTTOM + 4][k] == WordBytes(w)[k] {
      assert At(m, a + k) == WordBytes(w)[k];
    }
    U32OfBytes(m, a - STACK_BOTTOM, w);
  }

  lemma SameWord(m: Block, r: Block, a: nat)
    requires |m| == STACK_BYTES == |r| && InStack(a, 4) && Same(m, r, a, STACK_TOP)
    ensures WordAt(r, a) == WordAt(m, a)
  {
    hide Value;
    assert At(r, a) == At(m, a) && At(r, a + 1) == At(m, a + 1) && At(r, a + 2) == At(m, a + 2)
        && At(r, a + 3) == At(m, a + 3);
  }

  /** A list of nonzero words ended by 0 is counted. */
  lemma {:induction false} CountsTo(mem: Block, a: nat, words: seq<nat>, k: nat)
    requires |mem| == STACK_BYTES && InStack(a, 4 * |words| + 4) && k <= |words|
    requires WordsAt(mem, a, words + [0]) && forall i: nat :: i < |words| ==> words[i] != 0
    ensures CountFrom(mem, a, k) == |words|
    decreases |words| - k
  {
    hide WordAt;
    assert WordAt(mem, a + 4 * k) == (words + [0])[k];
    if k < |words| { CountsTo(mem, a, words, k + 1); }
  }

  /** What the program finds: `argc`, the argument pointers, and the environment. */
  ghost predicate Finds(m: Block, at: nat, strs: seq<CStr>)
    requires |m| == STACK_BYTES
  {
    && InStack(at, 4 * (|strs| + 1)) && CountFrom(m, at, 0) == |strs| && WordAt(m, at + 4 * |strs|) == 0
    && forall i: nat :: i < |strs| ==>
         InStack(WordAt(m, at + 4 * i), |strs[i]| + 1) && StringFrom(m, WordAt(m, at + 4 * i)) == strs[i]
  }

  lemma FindsList(m: Block, at: nat, strs: seq<CStr>, ptrs: seq<nat>, lo: nat, hi: nat)
    requires |m| == STACK_BYTES && STACK_BOTTOM <= lo && hi <= STACK_TOP && |ptrs| == |strs|
             && InStack(at, 4 * (|strs| + 1))
    requires StringsAt(m, lo, hi, strs, ptrs) && WordsAt(m, at, ptrs + [0])
    ensures Finds(m, at, strs)
  {
    hide WordAt, StringFrom;
    CountsTo(m, at, ptrs, 0);
    forall i: nat | i < |strs| ensures WordAt(m, at + 4 * i) == ptrs[i] {
      assert (ptrs + [0])[i] == ptrs[i];
    }
    assert WordAt(m, at + 4 * |ptrs|) == (ptrs + [0])[|ptrs|];
  }

  lemma StringsKept(m: Block, r: Block, lo: nat, hi: nat, strs: seq<CStr>, ptrs: seq<nat>)
    requires |m| == STACK_BYTES == |r| && STACK_BOTTOM <= lo && hi <= STACK_TOP && |ptrs| == |strs|
    requires StringsAt(m, lo, hi, strs, ptrs) && Same(m, r, lo, STACK_TOP)
    ensures StringsAt(r, lo, hi, strs, ptrs)
  {
    hide StringFrom, At;
    forall i: nat | i < |strs| ensures StringFrom(r, ptrs[i]) == strs[i] {
      SameString(m, r, ptrs[i]);
    }
  }

  lemma WordsKept(m: Block, r: Block, lo: nat, words: seq<nat>)
    requires |m| == STACK_BYTES == |r| && InStack(lo, 4 * |words|) && WordsAt(m, lo, words) && Same(m, r, lo, STACK_TOP)
    ensures WordsAt(r, lo, words)
  {
    hide WordAt, At;
    forall i: nat | i < |words| ensures WordAt(r, lo + 4 * i) == words[i] {
      SameWord(m, r, lo + 4 * i);
    }
  }

  /** The round trip: `_start` finds as many arguments as were given, the same
      strings in the same order, and the same environment, each list ended by a null
      pointer; the memory below the stack pointer is untouched. */
  lemma LayoutRoundTrip(mem: Block, argv: seq<CStr>, env: seq<CStr>)
    requires |mem| == STACK_BYTES && Need(argv, env) <= STACK_BYTES
    ensures var (m, esp) := Layout(mem, argv, env); var (argc, environ) := Start(m, esp);
      && argc == |argv| && Finds(m, esp, argv) && Finds(m, environ, env)
      && esp + Need(argv, env) == STACK_TOP && Same(mem, m, STACK_BOTTOM, esp)
  {
    hide PushStrings, PushWords, WordAt, StringFrom, Bytes, At, StringsAt, WordsAt, Finds;
    var (m1, a1, args) := PushStrings(mem, STACK_TOP, argv);
    var (m2, a2, envs) := PushStrings(m1, a1, env);
    StringsPlaced(mem, STACK_TOP, argv);
    StringsPlaced(m1, a1, env);
    PointersFit(m1, a1, STACK_TOP, argv, args);
    PointersFit(m2, a2, a1, env, envs);
    var m3 := PushWords(m2, a2, envs + [0]);
    var environ: nat := a2 - 4 * (|env| + 1);
    var m := PushWords(m3, environ, args + [0]);
    var esp: nat := environ - 4 * (|argv| + 1);
    WordsPlaced(m2, a2, envs + [0]);
    WordsPlaced(m3, environ, args + [0]);
    StringsKept(m1, m, a1, STACK_TOP, argv, args);
    StringsKept(m2, m, a2, a1, env, envs);
    WordsKept(m3, m, environ, envs + [0]);
    FindsList(m, esp, argv, args, a1, STACK_TOP);
    FindsList(m, environ, env, envs, a2, a1);
    FoundCount(m, esp, argv);
  }

  /** Pointer `i` is where the first `i + 1` strings below `top` end. */
  ghost predicate PointsBelow(ptrs: seq<nat>, strs: seq<CStr>, top: nat) {
    |ptrs| == |strs| && forall i: nat :: i < |strs| ==> EndsAt(ptrs[i], strs, i, top)
  }

  predicate EndsAt(p: nat, strs: seq<CStr>, i: nat, top: nat)
    requires i < |strs|
  {
    p + Bytes(strs[..i + 1]) == top
  }

  lemma {:induction false} PointersAre(mem: Block, addr: nat, strs: seq<CStr>)
    requires |mem| == STACK_BYTES && STACK_BOTTOM + Bytes(strs) <= addr <= STACK_TOP
    ensures PointsBelow(PushStrings(mem, addr, strs).2, strs, addr)
    decreases |strs|
  {
    hide Push, At;
    if strs != [] {
      var n := |strs| - 1;
      PointersAre(mem, addr, strs[..n]);
      var before := PushStrings(mem, addr, strs[..n]).2;
      var ptrs := PushStrings(mem, addr, strs).2;
      assert ptrs == before + [ptrs[n]];
      forall i: nat | i < |strs| ensures EndsAt(ptrs[i], strs, i, addr) {
        if i < n {
          assert EndsAt(before[i], strs[..n], i, addr);
          assert strs[..n][..i + 1] == strs[..i + 1];
        } else {
          assert strs[..i + 1] == strs;
        }
      }
    }
  }

  /** The pointers that lie at the stack pointer and at the environment: the argument
      strings end downwards from 0x8000000, in order, and those of the environment from
      the last argument on. */
  lemma LayoutAddresses(mem: Block, argv: seq<CStr>, env: seq<CStr>) returns (args: seq<nat>, envs: seq<nat>)
    requires |mem| == STACK_BYTES && Need(argv, env) <= STACK_BYTES
    ensures Bytes(argv) <= 0x800_0000 && |args| == |argv| && |envs| == |env|
    ensures PointsBelow(args, argv, 0x800_0000) && PointsBelow(envs, env, 0x800_0000 - Bytes(argv))
    ensures var (m, esp) := Layout(mem, argv, env); var environ := esp + 4 * (|argv| + 1);
      && InStack(esp, 4 * |args + [0]|) && WordsAt(m, esp, args + [0])
      && InStack(environ, 4 * |envs + [0]|) && WordsAt(m, environ, envs + [0])
  {
    hide PushStrings, PushWords, WordAt, StringFrom, Bytes, At, StringsAt, WordsAt, PointsBelow;
    var (m1, a1, args') := PushStrings(mem, STACK_TOP, argv);
    var (m2, a2, envs') := PushStrings(m1, a1, env);
    args, envs := args', envs';
    StringsPlaced(mem, STACK_TOP, argv);
    StringsPlaced(m1, a1, env);
    PointersFit(m1, a1, STACK_TOP, argv, args);
    PointersFit(m2, a2, a1, env, envs);
    PointersAre(mem, STACK_TOP, argv);
    PointersAre(m1, a1, env);
    var m3 := PushWords(m2, a2, envs + [0]);
    var environ: nat := a2 - 4 * (|env| + 1);
    var m := PushWords(m3, environ, args + [0]);
    WordsPlaced(m2, a2, envs + [0]);
    WordsPlaced(m3, environ, args + [0]);
    WordsKept(m3, m, environ, envs + [0]);
  }

  lemma FoundCount(m: Block, at: nat, strs: seq<CStr>)
    requires |m| == STACK_BYTES && Finds(m, at, strs)
    ensures CountFrom(m, at, 0) == |strs| && STACK_BOTTOM <= at
  {
  }

  lemma PointersFit(m: Block, lo: nat, hi: nat, strs: seq<CStr>, ptrs: seq<nat>)
    requires |m| == STACK_BYTES && STACK_BOTTOM <= lo && hi <= STACK_TOP && |ptrs| == |strs|
             && StringsAt(m, lo, hi, strs, ptrs)
    ensures forall i: nat :: i < |ptrs| ==> 0 < ptrs[i] < WORD
  {
  }

  // ----- the loops

  method PushOnto(stack: array<bv8>, addr: nat, bytes: Block)
    requires stack.Length == STACK_BYTES && STACK_BOTTOM + |bytes| <= addr <= STACK_TOP
    modifies stack
    ensures stack[..] == Push(old(stack[..]), addr, bytes)
  {
    var o := addr - STACK_BOTTOM - |bytes|;
    for k := 0 to |bytes|
      invariant forall x :: 0 <= x < STACK_BYTES ==> stack[x] == if o <= x < o + k then bytes[x - o] else old(stack[x])
    {
      stack[o + k] := bytes[k];
    }
    assert stack[..] == Splice(old(stack[..]), o, bytes);
  }

  lemma {:induction false} BytesPrefix(strs: seq<CStr>, n: nat)
    requires n <= |strs|
    ensures Bytes(strs[..n]) <= Bytes(strs)
    decreases |strs|
  {
    if n < |strs| {
      BytesPrefix(strs[..|strs| - 1], n);
      assert strs[..|strs| - 1][..n] == strs[..n];
    } else {
      assert strs[..n] == strs;
    }
  }

  method PlaceStrings(stack: array<bv8>, top: nat, strs: seq<CStr>) returns (addr: nat, ptrs: seq<nat>)
    requires stack.Length == STACK_BYTES && STACK_BOTTOM + Bytes(strs) <= top <= STACK_TOP
    modifies stack
    ensures (stack[..], addr, ptrs) == PushStrings(old(stack[..]), top, strs)
  {
    hide Push;
    addr, ptrs := top, [];
    var i := 0;
    while i < |strs|
      invariant i <= |strs| && STACK_BOTTOM + Bytes(strs[..i]) <= top
      invariant (stack[..], addr, ptrs) == PushStrings(old(stack[..]), top, strs[..i])
    {
      BytesPrefix(strs, i + 1);
      assert strs[..i + 1][..i] == strs[..i];
      PushOnto(stack, addr, strs[i] + [0]);
      addr := addr - (|strs[i]| + 1);
      ptrs := ptrs + [addr];
      i := i + 1;
    }
    assert strs[..i] == strs;
  }

  method PlaceWords(stack: array<bv8>, top: nat, words: seq<nat>) returns (addr: nat)
    requires stack.Length == STACK_BYTES && STACK_BOTTOM + 4 * |words| <= top <= STACK_TOP
    modifies stack
    ensures stack[..] == PushWords(old(stack[..]), top, words) && addr == top - 4 * |words|
  {
    hide Push;
    addr := top;
    var i := |words|;
    while i > 0
      invariant 0 <= i <= |words| && addr == top - 4 * (|words| - i)
      invariant stack[..] == PushWords(old(stack[..]), top, words[i..])
    {
      assert words[i - 1..][1..] == words[i..];
      PushOnto(stack, addr, WordBytes(words[i - 1]));
      addr := addr - 4;
      i := i - 1;
    }
    assert words[0..] == words;
  }

  /** The layout part of `__scheduler_core`; the result becomes the user stack
      pointer. */
  method LayOut(stack: array<bv8>, argv: seq<CStr>, env: seq<CStr>) returns (esp: nat)
    requires stack.Length == STACK_BYTES && Need(argv, env) <= STACK_BYTES
    modifies stack
    ensures (stack[..], esp) == Layout(old(stack[..]), argv, env)
  {
    hide PushStrings, PushWords;
    var a1, args := PlaceStrings(stack, STACK_TOP, argv);
    var a2, envs := PlaceStrings(stack, a1, env);
    var a3 := PlaceWords(stack, a2, envs + [0]);
    esp := PlaceWords(stack, a3, args + [0]);
  }

  /** The entry point's loop. */
  method CountArguments(stack: array<bv8>, esp: nat) returns (argc: nat, environ: nat)
    requires stack.Length == STACK_BYTES && STACK_BOTTOM <= esp
    ensures (argc, environ) == Start(stack[..], esp)
  {
    argc := 0;
    while InStack(esp + 4 * argc, 4) && WordAt(stack[..], esp + 4 * argc) != 0
      invariant CountFrom(stack[..], esp, 0) == CountFrom(stack[..], esp, argc)
      decreases STACK_TOP - (esp + 4 * argc)
    {
      argc := argc + 1;
    }
    environ := esp + 4 * (argc + 1);
  }
}
