/** Arguments and environment on their way through execve: flat buffer, stack image, crt0. */
module ExecArgs {
  import opened Basics
  import opened Words

  const STACK_BASE := 0x4010_0000
  const STACK_BYTES := 0x1_0000
  const MAX_ARGS := 16
  const MAX_ENV := 32
  const MAX_STR := 192

  /** The characters of a C string, without the NUL. */
  type Str = s: seq<byte> | forall i :: 0 <= i < |s| ==> s[i] != 0

  // ---------------------------------------------------------------- what a program finds

  /** A C string at an offset of the stack. */
  ghost predicate StrAt(m: seq<byte>, a: nat, s: Str) {
    a + |s| < |m| && m[a..a + |s|] == s && m[a + |s|] == 0
  }

  /** strlen and a copy: how a program reads a string. */
  function ReadStr(m: seq<byte>, a: nat): seq<byte>
    decreases |m| - a
  {
    if a >= |m| || m[a] == 0 then [] else [m[a]] + ReadStr(m, a + 1)
  }

  lemma {:induction false} StrReads(m: seq<byte>, a: nat, s: Str)
    requires StrAt(m, a, s)
    ensures ReadStr(m, a) == s
    decreases |s|
  {
    if s != [] {
      assert m[a] == m[a..a + |s|][0];
      assert m[a + 1..a + |s|] == m[a..a + |s|][1..];
      StrReads(m, a + 1, s[1..]);
      assert [s[0]] + s[1..] == s;
    }
  }

  /** An array of n string pointers at an offset of the stack, followed. */
  function ReadStrs(m: seq<byte>, at: nat, n: nat): seq<seq<byte>>
    requires at + 4 * n <= |m|
  {
    seq(n, i requires 0 <= i < n => Follow(m, at + 4 * i))
  }

  /** The string a pointer leads to. */
  function Follow(m: seq<byte>, at: nat): seq<byte>
    requires at + 4 <= |m|
  {
    var p := Word(m, at);
    if p < STACK_BASE then [] else ReadStr(m, p - STACK_BASE)
  }

  /** crt0: argc at esp, argv behind it, the environment behind the null of argv. */
  function ArgvAt(sp: nat): nat { sp + 4 }

  function EnvpAt(sp: nat, argc: nat): nat { sp + 8 + 4 * argc }

  // ---------------------------------------------------------------- what build_stack leaves there

  /** Strings laid down one under the other, from the top of the stack to s. */
  ghost predicate Placed(m: seq<byte>, s: nat, ptrs: seq<nat>, strs: seq<Str>) {
    && |m| == STACK_BYTES && s <= STACK_BYTES && |ptrs| == |strs|
    && (forall i :: 0 <= i < |ptrs| ==> s <= ptrs[i] && StrAt(m, ptrs[i], strs[i]))
    && (forall i, j :: 0 <= i < j < |ptrs| ==> ptrs[j] + |strs[j]| + 1 <= ptrs[i])
  }

  function Addresses(ptrs: seq<nat>): (r: seq<nat>)
    ensures |r| == |ptrs| && forall i :: 0 <= i < |r| ==> r[i] == STACK_BASE + ptrs[i]
  {
    seq(|ptrs|, i requires 0 <= i < |ptrs| => STACK_BASE + ptrs[i])
  }

  /** The words from the stack pointer up: argc, argv, null, envp, null. */
  function Table(argc: nat, ptrs: seq<nat>): seq<nat>
    requires argc <= |ptrs|
  {
    [argc] + Addresses(ptrs[..argc]) + [0] + Addresses(ptrs[argc..]) + [0]
  }

  /** Strings at the top, the table under them, and the two do not touch. */
  ghost predicate Image(m: seq<byte>, sp: nat, args: seq<Str>, env: seq<Str>, ptrs: seq<nat>) {
    && |ptrs| == |args| + |env| && WordsAt(m, sp, Table(|args|, ptrs))
    && Placed(m, sp + 4 * (|args| + |env| + 3), ptrs, args + env)
  }

  lemma TableWord(m: seq<byte>, sp: nat, args: seq<Str>, env: seq<Str>, ptrs: seq<nat>, i: nat)
    requires Image(m, sp, args, env, ptrs)
    ensures Word(m, sp) == |args| && Word(m, sp + 4 + 4 * |args|) == 0 && Word(m, EnvpAt(sp, |args|) + 4 * |env|) == 0
    ensures i < |args| ==> Word(m, ArgvAt(sp) + 4 * i) == STACK_BASE + ptrs[i]
    ensures i < |env| ==> Word(m, EnvpAt(sp, |args|) + 4 * i) == STACK_BASE + ptrs[|args| + i]
  {
    hide Word, Placed;
    var t := Table(|args|, ptrs);
    assert t[0] == |args| && t[1 + |args|] == 0 && t[2 + |args| + |env|] == 0;
    assert Word(m, sp + 4 * 0) == t[0];
    assert Word(m, sp + 4 * (1 + |args|)) == t[1 + |args|];
    assert Word(m, sp + 4 * (2 + |args| + |env|)) == t[2 + |args| + |env|];
    if i < |args| { assert Word(m, sp + 4 * (1 + i)) == t[1 + i]; }
    if i < |env| { assert Word(m, sp + 4 * (2 + |args| + i)) == t[2 + |args| + i]; }
  }

  lemma OneArg(m: seq<byte>, sp: nat, args: seq<Str>, env: seq<Str>, ptrs: seq<nat>, i: nat)
    requires Image(m, sp, args, env, ptrs)
    ensures i < |args| ==> StrAt(m, ptrs[i], args[i])
    ensures i < |env| ==> StrAt(m, ptrs[|args| + i], env[i])
  {
    hide WordsAt, StrAt;
    var all := args + env;
    assert i < |args| ==> all[i] == args[i];
    assert i < |env| ==> all[|args| + i] == env[i];
  }

  /** Following the pointers as crt0 does gives back the strings the image was built from. */
  lemma ProgramSees(m: seq<byte>, sp: nat, args: seq<Str>, env: seq<Str>, ptrs: seq<nat>)
    requires Image(m, sp, args, env, ptrs)
    ensures Inside(m, sp, |args|, |env|) && Word(m, sp) == |args|
    ensures ReadStrs(m, ArgvAt(sp), |args|) == args && ReadStrs(m, EnvpAt(sp, |args|), |env|) == env
    ensures Word(m, ArgvAt(sp) + 4 * |args|) == 0 && Word(m, EnvpAt(sp, |args|) + 4 * |env|) == 0
  {
    assert Inside(m, sp, |args|, |env|);
    hide Word, Image, ReadStrs;
    TableWord(m, sp, args, env, ptrs, 0);
    ArgvReads(m, sp, args, env, ptrs);
    EnvpReads(m, sp, args, env, ptrs);
  }

  lemma ArgvReads(m: seq<byte>, sp: nat, args: seq<Str>, env: seq<Str>, ptrs: seq<nat>)
    requires Image(m, sp, args, env, ptrs) && Inside(m, sp, |args|, |env|)
    ensures ReadStrs(m, ArgvAt(sp), |args|) == args
  {
    hide Word, Image, ReadStrs, Follow;
    forall i | 0 <= i < |args| ensures Follow(m, ArgvAt(sp) + 4 * i) == args[i] {
      FollowArg(m, sp, args, env, ptrs, i);
    }
    AllFollowed(m, ArgvAt(sp), args);
  }

  lemma EnvpReads(m: seq<byte>, sp: nat, args: seq<Str>, env: seq<Str>, ptrs: seq<nat>)
    requires Image(m, sp, args, env, ptrs) && Inside(m, sp, |args|, |env|)
    ensures ReadStrs(m, EnvpAt(sp, |args|), |env|) == env
  {
    hide Word, Image, ReadStrs, Follow;
    forall i | 0 <= i < |env| ensures Follow(m, EnvpAt(sp, |args|) + 4 * i) == env[i] {
      FollowArg(m, sp, args, env, ptrs, i);
    }
    AllFollowed(m, EnvpAt(sp, |args|), env);
  }

  lemma AllFollowed(m: seq<byte>, at: nat, strs: seq<Str>)
    requires at + 4 * |strs| <= |m| && forall i {:trigger strs[i]} :: 0 <= i < |strs| ==> Follow(m, at + 4 * i) == strs[i]
    ensures ReadStrs(m, at, |strs|) == strs
  {
    hide Follow;
    var r := ReadStrs(m, at, |strs|);
    forall i | 0 <= i < |strs| ensures r[i] == strs[i] {}
  }

  lemma FollowArg(m: seq<byte>, sp: nat, args: seq<Str>, env: seq<Str>, ptrs: seq<nat>, i: nat)
    requires Image(m, sp, args, env, ptrs) && Inside(m, sp, |args|, |env|)
    ensures i < |args| ==> Follow(m, ArgvAt(sp) + 4 * i) == args[i]
    ensures i < |env| ==> Follow(m, EnvpAt(sp, |args|) + 4 * i) == env[i]
  {
    assert |ptrs| == |args| + |env|;
    hide Word, Image, StrAt, Follow;
    TableWord(m, sp, args, env, ptrs, i);
    OneArg(m, sp, args, env, ptrs, i);
    if i < |args| { FollowOne(m, ArgvAt(sp) + 4 * i, ptrs[i], args[i]); }
    if i < |env| { FollowOne(m, EnvpAt(sp, |args|) + 4 * i, ptrs[|args| + i], env[i]); }
  }

  lemma FollowOne(m: seq<byte>, at: nat, p: nat, s: Str)
    requires at + 4 <= |m| && Word(m, at) == STACK_BASE + p && StrAt(m, p, s)
    ensures Follow(m, at) == s
  {
    StrReads(m, p, s);
  }

  /** The table lies in the stack. */
  predicate Inside(m: seq<byte>, sp: nat, argc: nat, envc: nat) { EnvpAt(sp, argc) + 4 * envc + 4 <= |m| }

  // ---------------------------------------------------------------- the flat buffer

  function Packed(strs: seq<Str>): seq<byte> {
    if strs == [] then [] else Packed(strs[..|strs| - 1]) + strs[|strs| - 1] + [0]
  }

  predicate AllShort(strs: seq<Str>) { forall i :: 0 <= i < |strs| ==> |strs[i]| < MAX_STR }

  lemma PackedMore(strs: seq<Str>, n: nat)
    requires n < |strs|
    ensures Packed(strs[..n + 1]) == Packed(strs[..n]) + strs[n] + [0]
  {
    assert strs[..n + 1][..n] == strs[..n];
  }

  lemma {:induction false} PackedBound(strs: seq<Str>)
    requires AllShort(strs)
    ensures |Packed(strs)| <= MAX_STR * |strs|
  {
    if strs != [] { PackedBound(strs[..|strs| - 1]); }
  }

  lemma {:induction false} PackedBoth(a: seq<Str>, b: seq<Str>)
    ensures Packed(a + b) == Packed(a) + Packed(b)
  {
    if b == [] {
      assert a + b == a;
    } else {
      PackedBoth(a, b[..|b| - 1]);
      assert (a + b)[..|a + b| - 1] == a + b[..|b| - 1];
    }
  }

  /** copy_args' buffer: the length of the arguments, the number of variables, all the strings. */
  ghost predicate Flat(f: seq<byte>, args: seq<Str>, env: seq<Str>) {
    && 8 + |Packed(args + env)| <= |f|
    && Word(f, 0) == |Packed(args)| && Word(f, 4) == |env| && f[8..8 + |Packed(args + env)|] == Packed(args + env)
  }

  /** The n-th string of the buffer, where the ones before it end. */
  lemma StrInFlat(f: seq<byte>, args: seq<Str>, env: seq<Str>, n: nat)
    requires Flat(f, args, env) && n < |args + env|
    ensures StrAt(f, 8 + |Packed((args + env)[..n])|, (args + env)[n])
    ensures |Packed((args + env)[..n + 1])| == |Packed((args + env)[..n])| + |(args + env)[n]| + 1
    ensures 8 + |Packed((args + env)[..n + 1])| <= |f|
  {
    var all := args + env;
    PackedMore(all, n);
    PackedBoth(all[..n + 1], all[n + 1..]);
    assert all == all[..n + 1] + all[n + 1..];
    StrInside(f, Packed(all), Packed(all[..n]), all[n], Packed(all[n + 1..]));
  }

  lemma StrInside(f: seq<byte>, w: seq<byte>, q: seq<byte>, s: Str, r: seq<byte>)
    requires 8 + |w| <= |f| && f[8..8 + |w|] == w == q + s + [0] + r
    ensures StrAt(f, 8 + |q|, s)
  {
    var a, v := 8 + |q|, f[8..8 + |w|];
    assert |w| == |q| + |s| + 1 + |r|;
    forall k | 0 <= k <= |s| ensures f[a + k] == if k < |s| then s[k] else 0 {
      assert f[a + k] == v[|q| + k] == w[|q| + k];
    }
    assert f[a + |s|] == 0;
    assert f[a..a + |s|] == s;
  }

  // ---------------------------------------------------------------- the code

  /** memcpy of a string with its NUL. */
  method CopyStr(a: array<byte>, at: nat, s: Str)
    requires at + |s| < a.Length
    modifies a
    ensures a[..at] == old(a[..at]) && a[at..at + |s| + 1] == s + [0] && a[at + |s| + 1..] == old(a[at + |s| + 1..])
  {
    for i := 0 to |s|
      invariant a[..at] == old(a[..at]) && a[at..at + i] == s[..i] && a[at + |s| + 1..] == old(a[at + |s| + 1..])
    {
      a[at + i] := s[i];
    }
    a[at + |s|] := 0;
  }

  /** One of the loops of copy_args. */
  method CopyStrs(strs: seq<Str>, out: array<byte>, p0: nat) returns (ok: bool, p: nat)
    requires p0 + MAX_STR * |strs| <= out.Length
    modifies out
    ensures ok <==> AllShort(strs)
    ensures ok ==> p == p0 + |Packed(strs)| <= out.Length && out[p0..p] == Packed(strs)
    ensures out[..p0] == old(out[..p0])
  {
    p := p0;
    for i := 0 to |strs|
      invariant p0 <= p <= p0 + MAX_STR * i && AllShort(strs[..i])
      invariant p == p0 + |Packed(strs[..i])| && out[p0..p] == Packed(strs[..i]) && out[..p0] == old(out[..p0])
    {
      var n := |strs[i]|;
      if n >= MAX_STR { return false, p; }
      PackedMore(strs, i);
      ghost var was := out[..];
      CopyStr(out, p, strs[i]);
      Laid(was, out[..], p0, p, strs[i]);
      p := p + n + 1;
    }
    assert strs[..|strs|] == strs;
    return true, p;
  }

  lemma Laid(m: seq<byte>, m2: seq<byte>, p0: nat, p: nat, s: Str)
    requires |m2| == |m| && p0 <= p && p + |s| < |m| && m2[..p] == m[..p] && m2[p..p + |s| + 1] == s + [0]
    ensures m2[..p0] == m[..p0] && m2[p0..p + |s| + 1] == m[p0..p] + s + [0]
  {
    assert m2[..p0] == m2[..p][..p0] && m[..p0] == m[..p][..p0];
    assert m2[p0..p] == m2[..p][p0..] && m[p0..p] == m[..p][p0..];
    assert m2[p0..p + |s| + 1] == m2[p0..p] + m2[p..p + |s| + 1];
  }

  /** copy_args: fails on a string that would have to be cut, and on nothing else. */
  method CopyArgs(av: seq<Str>, ev: seq<Str>, out: array<byte>) returns (ok: bool)
    requires |av| <= MAX_ARGS && |ev| <= MAX_ENV && out.Length == 8 + (MAX_ARGS + MAX_ENV) * MAX_STR
    modifies out
    ensures ok <==> AllShort(av + ev)
    ensures ok ==> Flat(out[..], av, ev)
  {
    hide Packed, Put, Word;
    ShortBoth(av, ev);
    var p;
    ok, p := CopyStrs(av, out, 8);
    if !ok { return; }
    var arglen := p - 8;
    PackedBound(av);
    ghost var m1 := out[..];
    ok, p := CopyStrs(ev, out, p);
    if !ok { return; }
    PackedBoth(av, ev);
    ghost var w := Packed(av + ev);
    ghost var m := out[..];
    assert m[8..8 + |w|] == w by { Adjoined(m1, m, 8, 8 + arglen, p, Packed(av), Packed(ev)); }
    PackedBound(ev);
    StoreWord(out, 0, arglen);
    StoreWord(out, 4, |ev|);
    Labelled(m, arglen, |ev|, w);
  }

  /** The two counts in front leave the strings alone. */
  lemma Labelled(m: seq<byte>, a: nat, b: nat, w: seq<byte>)
    requires 8 + |w| <= |m| && m[8..8 + |w|] == w && a < WORD && b < WORD
    ensures var r := Put(Put(m, 0, a), 4, b);
            Word(r, 0) == a && Word(r, 4) == b && r[8..8 + |w|] == w
  {
    hide Word, Put;
    var r := Put(Put(m, 0, a), 4, b);
    assert r[8..8 + |w|] == m[8..8 + |w|];
  }

  lemma ShortBoth(a: seq<Str>, b: seq<Str>)
    ensures AllShort(a + b) <==> AllShort(a) && AllShort(b)
  {
    if AllShort(a + b) {
      assert forall i :: 0 <= i < |a| ==> (a + b)[i] == a[i];
      forall i | 0 <= i < |b| ensures |b[i]| < MAX_STR { assert (a + b)[|a| + i] == b[i]; }
    }
  }

  lemma Adjoined(m1: seq<byte>, m: seq<byte>, a: nat, b: nat, c: nat, x: seq<byte>, y: seq<byte>)
    requires a <= b <= c <= |m| == |m1| && m1[a..b] == x && m[..b] == m1[..b] && m[b..c] == y
    ensures m[a..c] == x + y
  {
    assert m[a..b] == m[..b][a..] == m1[..b][a..] == m1[a..b];
    assert m[a..c] == m[a..b] + m[b..c];
  }

  /** strlen */
  method StrLen(a: array<byte>, q: nat, ghost s: Str) returns (n: nat)
    requires StrAt(a[..], q, s)
    ensures n == |s|
  {
    ghost var m := a[..];
    assert forall i {:trigger s[i]} :: 0 <= i < |s| ==> m[q..q + |s|][i] == s[i] == a[q + i];
    n := 0;
    while a[q + n] != 0
      invariant n <= |s| && (n < |s| ==> s[n] == a[q + n])
      decreases |s| - n
    {
      n := n + 1;
    }
  }

  lemma {:induction false} PackedGrows(strs: seq<Str>, n: nat)
    requires n <= |strs|
    ensures |Packed(strs[..n])| <= |Packed(strs)| && (|Packed(strs[..n])| == |Packed(strs)| <==> n == |strs|)
  {
    if n == |strs| { assert strs[..n] == strs; } else {
      PackedGrows(strs[..|strs| - 1], n);
      assert strs[..|strs| - 1][..n] == strs[..n];
    }
  }

  lemma EmptyPacked(all: seq<Str>)
    ensures Packed(all[..0]) == []
  {
  }

  /** The first loop of build_stack. */
  method CountArgs(flat: array<byte>, ghost args: seq<Str>, ghost env: seq<Str>) returns (argc: nat)
    requires Flat(flat[..], args, env)
    ensures argc == |args|
  {
    hide Packed, Word;
    ghost var all := args + env;
    EmptyPacked(all);
    var arglen := Word(flat[..], 0);
    var q := 8;
    argc := 0;
    while q - 8 < arglen
      invariant argc <= |args| && q == 8 + |Packed(all[..argc])|
      decreases |args| - argc
    {
      assert all[..argc] == args[..argc];
      PackedGrows(args, argc);
      StrInFlat(flat[..], args, env, argc);
      var n := StrLen(flat, q, all[argc]);
      q := q + n + 1;
      argc := argc + 1;
    }
    assert all[..argc] == args[..argc];
    PackedGrows(args, argc);
  }

  lemma PlacedMore(m: seq<byte>, m2: seq<byte>, s: nat, ptrs: seq<nat>, strs: seq<Str>, t: Str)
    requires Placed(m, s, ptrs, strs) && |t| + 1 <= s && |m2| == |m|
    requires m2[s - |t| - 1..s] == t + [0] && m2[s..] == m[s..]
    ensures Placed(m2, s - |t| - 1, ptrs + [s - |t| - 1], strs + [t])
  {
    var a := s - |t| - 1;
    assert StrAt(m2, a, t) by { Slices(m2, a, s, t); }
    forall i | 0 <= i < |ptrs| ensures StrAt(m2, ptrs[i], strs[i]) { StrKept(m, m2, s, ptrs[i], strs[i]); }
  }

  lemma Slices(m: seq<byte>, a: nat, s: nat, t: Str)
    requires a + |t| + 1 == s <= |m| && m[a..s] == t + [0]
    ensures StrAt(m, a, t)
  {
    assert m[a..a + |t|] == m[a..s][..|t|];
    assert m[a + |t|] == m[a..s][|t|];
  }

  lemma StrKept(m: seq<byte>, m2: seq<byte>, s: nat, a: nat, t: Str)
    requires |m2| == |m| && s <= a && StrAt(m, a, t) && m2[s..] == m[s..]
    ensures StrAt(m2, a, t)
  {
    assert m2[a..a + |t|] == m2[s..][a - s..a - s + |t|] == m[s..][a - s..a - s + |t|] == m[a..a + |t|];
    assert m2[a + |t|] == m2[s..][a - s + |t|] == m[s..][a - s + |t|];
  }

  lemma PlacedKept(m: seq<byte>, m2: seq<byte>, s: nat, ptrs: seq<nat>, strs: seq<Str>)
    requires Placed(m, s, ptrs, strs) && |m2| == |m| && m2[s..] == m[s..]
    ensures Placed(m2, s, ptrs, strs)
  {
    forall i | 0 <= i < |ptrs| ensures StrAt(m2, ptrs[i], strs[i]) { StrKept(m, m2, s, ptrs[i], strs[i]); }
  }

  /** One of the string loops of build_stack: the next `count` strings, each under the one before. */
  method PushStrs(flat: array<byte>, stack: array<byte>, p0: nat, s0: nat, ptrs0: seq<nat>, count: nat, ghost args: seq<Str>, ghost env: seq<Str>)
    returns (ok: bool, p: nat, s: nat, ptrs: seq<nat>)
    requires flat != stack && Flat(flat[..], args, env) && |ptrs0| + count <= |args + env| && stack.Length == STACK_BYTES
    requires p0 == 8 + |Packed((args + env)[..|ptrs0|])| && s0 + |Packed((args + env)[..|ptrs0|])| == STACK_BYTES
    requires Placed(stack[..], s0, ptrs0, (args + env)[..|ptrs0|])
    modifies stack
    ensures ok <==> |Packed((args + env)[..|ptrs0| + count])| <= STACK_BYTES
    ensures ok ==> |ptrs| == |ptrs0| + count && Placed(stack[..], s, ptrs, (args + env)[..|ptrs|])
    ensures ok ==> p == 8 + |Packed((args + env)[..|ptrs|])| && s + |Packed((args + env)[..|ptrs|])| == STACK_BYTES
  {
    hide Packed, Flat, Placed, StrAt;
    ghost var all := args + env;
    p, s, ptrs := p0, s0, ptrs0;
    for i := 0 to count
      invariant flat[..] == old(flat[..]) && |ptrs| == |ptrs0| + i && Placed(stack[..], s, ptrs, all[..|ptrs|])
      invariant p == 8 + |Packed(all[..|ptrs|])| && s + |Packed(all[..|ptrs|])| == STACK_BYTES
    {
      ghost var k := |ptrs|;
      StrInFlat(flat[..], args, env, k);
      InsideFlat(flat[..], p, all[k]);
      var n := StrLen(flat, p, all[k]);
      if n + 1 > s {
        LongerPacked(all, k + 1, |ptrs0| + count);
        return false, p, s, ptrs;
      }
      s := s - n - 1;
      ghost var was := stack[..];
      assert flat[p..p + n] == flat[..][p..p + n];
      CopyStr(stack, s, flat[p..p + n]);
      PlacedMore(was, stack[..], s + n + 1, ptrs, all[..k], all[k]);
      assert all[..k] + [all[k]] == all[..k + 1];
      ptrs := ptrs + [s];
      p := p + n + 1;
    }
    return true, p, s, ptrs;
  }

  lemma InsideFlat(f: seq<byte>, p: nat, s: Str)
    requires StrAt(f, p, s)
    ensures p + |s| < |f| && f[p..p + |s|] == s
  {
  }

  lemma LongerPacked(strs: seq<Str>, n: nat, m: nat)
    requires n <= m <= |strs|
    ensures |Packed(strs[..n])| <= |Packed(strs[..m])|
  {
    PackedGrows(strs[..m], n);
    assert strs[..m][..n] == strs[..n];
  }

  lemma WordsPrepend(m: seq<byte>, m2: seq<byte>, at: nat, ws: seq<nat>, t: seq<nat>)
    requires WordsAt(m, at + 4 * |ws|, t) && |m2| == |m| && m2[at + 4 * |ws|..] == m[at + 4 * |ws|..] && WordsAt(m2, at, ws)
    ensures WordsAt(m2, at, ws + t)
  {
    hide Word;
    var b := at + 4 * |ws|;
    forall i | |ws| <= i < |ws + t| ensures Word(m2, at + 4 * i) == (ws + t)[i] {
      var a := at + 4 * i;
      forall k | a <= k < a + 4 ensures m2[k] == m[k] { assert m2[k] == m2[b..][k - b] && m[k] == m[b..][k - b]; }
      SameWord(m, m2, a);
      assert Word(m, b + 4 * (i - |ws|)) == t[i - |ws|];
    }
  }

  /** Words stored under the ones that are there already. */
  method PushWords(stack: array<byte>, sp0: nat, ws: seq<nat>, ghost t: seq<nat>) returns (sp: nat)
    requires 4 * |ws| <= sp0 && WordsAt(stack[..], sp0, t) && forall i :: 0 <= i < |ws| ==> ws[i] < WORD
    modifies stack
    ensures sp == sp0 - 4 * |ws| && WordsAt(stack[..], sp, ws + t) && stack[sp0..] == old(stack[sp0..])
  {
    hide Word, PutWords;
    sp := sp0 - 4 * |ws|;
    ghost var was := stack[..];
    StoreWords(stack, sp, ws);
    PutWordsRead(was, sp, ws);
    assert stack[..][sp0..] == was[sp0..];
    WordsPrepend(was, stack[..], sp, ws, t);
  }

  /** build_stack: 0 is failure. */
  method BuildStack(flat: array<byte>, stack: array<byte>, ghost args: seq<Str>, ghost env: seq<Str>) returns (esp: nat, ghost ptrs: seq<nat>)
    requires flat != stack && Flat(flat[..], args, env) && |args| <= MAX_ARGS && |env| <= MAX_ENV && stack.Length == STACK_BYTES
    modifies stack
    ensures esp == 0 <==> |Packed(args + env)| + 4 * (|args| + |env| + 3) + 16 > STACK_BYTES
    ensures esp != 0 ==> STACK_BASE < esp && Image(stack[..], esp - STACK_BASE, args, env, ptrs)
  {
    hide Packed, Placed, Flat, WordsAt;
    ghost var all := args + env;
    var argc := CountArgs(flat, args, env);
    EnvCount(flat[..], args, env);
    var envc := Word(flat[..], 4);
    NothingPlaced(stack[..], all);
    var ok, p, s, ps := PushStrs(flat, stack, 8, STACK_BYTES, [], argc, args, env);
    LongerPacked(all, |args|, |all|);
    assert all[..|all|] == all;
    if !ok { return 0, []; }
    ok, p, s, ps := PushStrs(flat, stack, p, s, ps, envc, args, env);
    if !ok { return 0, []; }
    var sp := s;
    if sp < 4 * (argc + envc + 3) + 16 { return 0, []; }
    PointersFit(stack[..], s, ps, all);
    ghost var m := stack[..];
    sp := PushTable(stack, s, argc, ps);
    PlacedKept(m, stack[..], s, ps, all);
    return STACK_BASE + sp, ps;
  }

  /** The last part of build_stack: null, envp, null, argv, argc, downwards. */
  method PushTable(stack: array<byte>, s: nat, argc: nat, ps: seq<nat>) returns (sp: nat)
    requires argc <= |ps| && 4 * (|ps| + 3) <= s <= stack.Length && argc < WORD && forall i :: 0 <= i < |ps| ==> STACK_BASE + ps[i] < WORD
    modifies stack
    ensures sp == s - 4 * (|ps| + 3) && WordsAt(stack[..], sp, Table(argc, ps)) && stack[s..] == old(stack[s..])
  {
    hide WordsAt;
    NoWords(stack[..], s);
    var av, ev := Addresses(ps[..argc]), Addresses(ps[argc..]);
    sp := PushWords(stack, s, [0], []);
    assert [0] + [] == [0];
    ghost var m1 := stack[..];
    sp := PushWords(stack, sp, ev, [0]);
    assert stack[..][s..] == m1[s..] by { Higher(m1, stack[..], s - 4, s); }
    ghost var m2 := stack[..];
    sp := PushWords(stack, sp, [0], ev + [0]);
    assert stack[..][s..] == m2[s..] by { Higher(m2, stack[..], s - 4 - 4 * |ev|, s); }
    ghost var m3 := stack[..];
    sp := PushWords(stack, sp, av, [0] + (ev + [0]));
    assert stack[..][s..] == m3[s..] by { Higher(m3, stack[..], s - 8 - 4 * |ev|, s); }
    ghost var m4 := stack[..];
    sp := PushWords(stack, sp, [argc], av + ([0] + (ev + [0])));
    assert stack[..][s..] == m4[s..] by { Higher(m4, stack[..], s - 8 - 4 * |ps|, s); }
    assert [argc] + (av + ([0] + (ev + [0]))) == Table(argc, ps);
  }

  lemma Higher(m: seq<byte>, m2: seq<byte>, a: nat, s: nat)
    requires a <= s <= |m| == |m2| && m2[a..] == m[a..]
    ensures m2[s..] == m[s..]
  {
    assert m2[s..] == m2[a..][s - a..] && m[s..] == m[a..][s - a..];
  }

  lemma EnvCount(f: seq<byte>, args: seq<Str>, env: seq<Str>)
    requires Flat(f, args, env)
    ensures |f| >= 8 && Word(f, 4) == |env|
  {
  }

  lemma NothingPlaced(m: seq<byte>, all: seq<Str>)
    requires |m| == STACK_BYTES
    ensures all[..0] == [] && Packed([]) == [] && Placed(m, STACK_BYTES, [], all[..0])
  {
  }

  lemma PointersFit(m: seq<byte>, s: nat, ptrs: seq<nat>, strs: seq<Str>)
    requires Placed(m, s, ptrs, strs)
    ensures forall i :: 0 <= i < |ptrs| ==> STACK_BASE + ptrs[i] < WORD
  {
    forall i | 0 <= i < |ptrs| ensures ptrs[i] < STACK_BYTES { assert StrAt(m, ptrs[i], strs[i]); }
  }

  lemma NoWords(m: seq<byte>, at: nat)
    requires at <= |m|
    ensures WordsAt(m, at, [])
  {
  }

  /** From the strings kept of a call to what the new program reads: it fails for a string too long and for nothing else. */
  method PassArguments(args: seq<Str>, env: seq<Str>, flat: array<byte>, stack: array<byte>) returns (esp: nat)
    requires |args| <= MAX_ARGS && |env| <= MAX_ENV && flat != stack
    requires flat.Length == 8 + (MAX_ARGS + MAX_ENV) * MAX_STR && stack.Length == STACK_BYTES
    modifies flat, stack
    ensures esp != 0 <==> AllShort(args + env)
    ensures esp != 0 ==>
              var m, sp := stack[..], esp - STACK_BASE;
              && 0 <= sp && Inside(m, sp, |args|, |env|) && Word(m, sp) == |args|
              && ReadStrs(m, ArgvAt(sp), |args|) == args && ReadStrs(m, EnvpAt(sp, |args|), |env|) == env
  {
    hide Flat, Image, Packed, ReadStrs;
    var ok := CopyArgs(args, env, flat);
    if !ok { return 0; }
    PackedBound(args + env);
    ghost var ptrs;
    esp, ptrs := BuildStack(flat, stack, args, env);
    ProgramSees(stack[..], esp - STACK_BASE, args, env, ptrs);
  }

  // ---------------------------------------------------------------- the system call

  /** As many strings of a vector as the system call has room for. */
  function Cut(strs: seq<Str>, limit: nat): seq<Str> { if |strs| <= limit then strs else strs[..limit] }

  /** The strings before the null of a vector, as far as there is room. */
  method Gather(strs: seq<Str>, limit: nat) returns (buf: seq<Str>)
    ensures buf == Cut(strs, limit) && (buf == strs <==> |strs| <= limit)
  {
    var n := 0;
    buf := [];
    while n < limit && n < |strs|
      invariant n <= |strs| && n <= limit && buf == strs[..n]
    {
      buf := buf + [strs[n]];
      n := n + 1;
    }
  }

  /** From execve to crt0, however many strings there are: the program reads those passed exactly when there was room for them. */
  method Execve(av: seq<Str>, ev: seq<Str>, flat: array<byte>, stack: array<byte>) returns (esp: nat)
    requires flat != stack && flat.Length == 8 + (MAX_ARGS + MAX_ENV) * MAX_STR && stack.Length == STACK_BYTES
    modifies flat, stack
    ensures esp != 0 <==> AllShort(Cut(av, MAX_ARGS) + Cut(ev, MAX_ENV))
    ensures esp != 0 ==>
              var m, sp, argc, envc := stack[..], esp - STACK_BASE, |Cut(av, MAX_ARGS)|, |Cut(ev, MAX_ENV)|;
              && 0 <= sp && Inside(m, sp, argc, envc) && Word(m, sp) == argc
              && ReadStrs(m, ArgvAt(sp), argc) == Cut(av, MAX_ARGS) && ReadStrs(m, EnvpAt(sp, argc), envc) == Cut(ev, MAX_ENV)
              && (ReadStrs(m, ArgvAt(sp), argc) == av <==> |av| <= MAX_ARGS)
              && (ReadStrs(m, EnvpAt(sp, argc), envc) == ev <==> |ev| <= MAX_ENV)
  {
    hide ReadStrs, AllShort, Word;
    var args := Gather(av, MAX_ARGS);
    var env := Gather(ev, MAX_ENV);
    esp := PassArguments(args, env, flat, stack);
  }
}
