/** Shell patterns: what a pattern means, and a backtracking matcher that decides it. */
module Glob {
  import opened Basics

  datatype Item = Single(c: char) | Range(lo: char, hi: char)

  datatype Token = Any | One | Lit(c: char) | Class(neg: bool, items: seq<Item>)

  // ---------------------------------------------------------------- what a pattern says

  /** The first place of a class: behind the bracket and the negation sign. */
  function First(p: string, i: nat): nat {
    if i + 1 < |p| && (p[i + 1] == '!' || p[i + 1] == '^') then i + 2 else i + 1
  }

  /** The bracket that closes a class is the first one behind its first place. */
  ghost predicate Closes(p: string, i: nat, e: nat) {
    First(p, i) < e < |p| && p[e] == ']' && forall j :: First(p, i) < j < e ==> p[j] != ']'
  }

  function NextBracket(p: string, j: nat): (r: Option<nat>)
    ensures r.Some? ==> j <= r.value < |p| && p[r.value] == ']' && forall k :: j <= k < r.value ==> p[k] != ']'
    ensures r.None? ==> forall k :: j <= k < |p| ==> p[k] != ']'
    decreases |p| - j
  {
    if j >= |p| then None else if p[j] == ']' then Some(j) else NextBracket(p, j + 1)
  }

  /** Where the class that opens at i ends, if it does. */
  function Closing(p: string, i: nat): (r: Option<nat>)
    ensures r.Some? ==> Closes(p, i, r.value)
    ensures r.None? ==> forall e: nat :: !Closes(p, i, e)
  {
    NextBracket(p, First(p, i) + 1)
  }

  function Items(s: string): seq<Item> {
    if s == "" then []
    else if |s| >= 3 && s[1] == '-' then [Range(s[0], s[2])] + Items(s[3..])
    else [Single(s[0])] + Items(s[1..])
  }

  function Parse(p: string): seq<Token> {
    if p == "" then []
    else if p[0] == '*' then [Any] + Parse(p[1..])
    else if p[0] == '?' then [One] + Parse(p[1..])
    else if p[0] == '[' && Closing(p, 0).Some? then
      var e := Closing(p, 0).value;
      [Class(First(p, 0) == 2, Items(p[First(p, 0)..e]))] + Parse(p[e + 1..])
    else [Lit(p[0])] + Parse(p[1..])
  }

  predicate Covers(it: Item, c: char) {
    match it
    case Single(d) => d == c
    case Range(lo, hi) => lo <= c <= hi
  }

  predicate InItems(items: seq<Item>, c: char) { exists k :: 0 <= k < |items| && Covers(items[k], c) }

  /** The tokens that stand for one character. */
  predicate Takes(t: Token, c: char) {
    match t
    case Any => false
    case One => true
    case Lit(d) => d == c
    case Class(neg, items) => InItems(items, c) != neg
  }

  function Concat(segs: seq<string>): string {
    if segs == [] then "" else segs[0] + Concat(segs[1..])
  }

  /** A piece of the name that a token may stand for. */
  predicate StandsFor(t: Token, seg: string) { t == Any || (|seg| == 1 && Takes(t, seg[0])) }

  /** The name can be cut into pieces, one for every token. */
  ghost predicate Cut(toks: seq<Token>, s: string, segs: seq<string>) {
    |segs| == |toks| && Concat(segs) == s && forall i :: 0 <= i < |toks| ==> StandsFor(toks[i], segs[i])
  }

  ghost predicate Matches(toks: seq<Token>, s: string) { exists segs :: Cut(toks, s, segs) }

  // ---------------------------------------------------------------- one token at a time

  lemma MatchesNothing(s: string)
    ensures Matches([], s) <==> s == ""
  {
    if s == "" { assert Cut([], s, []); }
  }

  lemma CutFront(toks: seq<Token>, s: string, segs: seq<string>)
    requires toks != [] && Cut(toks, s, segs)
    ensures segs != [] && |segs[0]| <= |s| && s[..|segs[0]|] == segs[0] && Cut(toks[1..], s[|segs[0]|..], segs[1..])
  {
  }

  lemma CutMore(t: Token, toks: seq<Token>, seg: string, s: string, segs: seq<string>)
    requires StandsFor(t, seg) && Cut(toks, s, segs)
    ensures Cut([t] + toks, seg + s, [seg] + segs)
  {
    assert ([seg] + segs)[1..] == segs;
  }

  /** One character, one token. */
  lemma MatchesOne(t: Token, toks: seq<Token>, s: string)
    requires t != Any
    ensures Matches([t] + toks, s) <==> s != "" && Takes(t, s[0]) && Matches(toks, s[1..])
  {
    assert ([t] + toks)[1..] == toks;
    if Matches([t] + toks, s) {
      var segs :| Cut([t] + toks, s, segs);
      CutFront([t] + toks, s, segs);
      assert StandsFor(([t] + toks)[0], segs[0]);
    }
    if s != "" && Takes(t, s[0]) && Matches(toks, s[1..]) {
      var segs :| Cut(toks, s[1..], segs);
      CutMore(t, toks, [s[0]], s[1..], segs);
      assert [s[0]] + s[1..] == s;
    }
  }

  lemma StarFree()
    ensures forall seg :: StandsFor(Any, seg)
  {
  }

  /** A star takes any number of characters. */
  lemma MatchesAny(toks: seq<Token>, s: string)
    ensures Matches([Any] + toks, s) <==> exists k :: 0 <= k <= |s| && Matches(toks, s[k..])
  {
    hide Concat, StandsFor;
    assert ([Any] + toks)[1..] == toks;
    assert forall seg :: StandsFor(Any, seg) by { StarFree(); }
    if Matches([Any] + toks, s) {
      var segs :| Cut([Any] + toks, s, segs);
      CutFront([Any] + toks, s, segs);
    }
    if k :| 0 <= k <= |s| && Matches(toks, s[k..]) {
      var segs :| Cut(toks, s[k..], segs);
      CutMore(Any, toks, s[..k], s[k..], segs);
      assert s[..k] + s[k..] == s;
    }
  }

  // ---------------------------------------------------------------- classes

  /** class_end */
  method ClassEnd(p: string, i: nat) returns (e: Option<nat>)
    requires i < |p|
    ensures e == Closing(p, i)
    ensures e.Some? ==> Closes(p, i, e.value)
    ensures e.None? ==> forall x: nat :: !Closes(p, i, x)
  {
    var j := i + 1;
    if j < |p| && (p[j] == '!' || p[j] == '^') { j := j + 1; }
    ghost var f := j;
    if j < |p| && p[j] == ']' { j := j + 1; }
    assert j == f ==> NextBracket(p, f) == NextBracket(p, f + 1);
    while j < |p|
      invariant f <= j && NextBracket(p, j) == NextBracket(p, f + 1)
    {
      if p[j] == ']' { return Some(j); }
      j := j + 1;
    }
    return None;
  }

  lemma ItemsStep(s: string, c: char)
    requires s != ""
    ensures InItems(Items(s), c) <==>
            if |s| >= 3 && s[1] == '-' then s[0] <= c <= s[2] || InItems(Items(s[3..]), c)
            else s[0] == c || InItems(Items(s[1..]), c)
  {
    var items := Items(s);
    var rest := items[1..];
    assert items == [items[0]] + rest;
    if InItems(items, c) {
      var k :| 0 <= k < |items| && Covers(items[k], c);
      if k > 0 { assert Covers(rest[k - 1], c); }
    }
    if InItems(rest, c) {
      var k :| 0 <= k < |rest| && Covers(rest[k], c);
      assert Covers(items[k + 1], c);
    }
  }

  /** class_match, on a class that is closed at `end`: it says whether c is in it, and steps behind it. */
  method ClassMatch(p: string, i: nat, c: char) returns (yes: bool, next: nat)
    requires i < |p|
    ensures Closing(p, i).None? ==> !yes && next == i
    ensures Closing(p, i).Some? ==>
              && next == Closing(p, i).value + 1 <= |p|
              && (yes <==> Takes(Class(First(p, i) == i + 2, Items(p[First(p, i)..next - 1])), c))
  {
    hide Closing, Items, InItems;
    var end := ClassEnd(p, i);
    if end.None? { return false, i; }
    var e := end.value;
    var j, neg := i + 1, false;
    if p[j] == '!' || p[j] == '^' { neg, j := true, j + 1; }
    ghost var all := p[j..e];
    var hit := false;
    while j < e
      invariant First(p, i) <= j <= e
      invariant hit || InItems(Items(p[j..e]), c) <==> InItems(Items(all), c)
    {
      ItemsStep(p[j..e], c);
      if p[j + 1] == '-' && j + 2 < e {
        assert p[j..e][3..] == p[j + 3..e];
        if p[j] <= c && c <= p[j + 2] { hit := true; }
        j := j + 3;
      } else {
        assert p[j..e][1..] == p[j + 1..e];
        if p[j] == c { hit := true; }
        j := j + 1;
      }
    }
    NoItems(p[j..e], c);
    return hit != neg, e + 1;
  }

  lemma NoItems(s: string, c: char)
    requires s == ""
    ensures !InItems(Items(s), c)
  {
  }

  // ---------------------------------------------------------------- the matcher

  lemma {:induction false} StarAtEnd(s: string)
    ensures Matches([Any], s)
  {
    MatchesAny([], s);
    MatchesNothing("");
    assert s[|s|..] == "" && [Any] + [] == [Any];
  }

  lemma ParseStep(p: string, i: nat)
    requires i < |p|
    ensures p[i] == '*' ==> Parse(p[i..]) == [Any] + Parse(p[i + 1..])
    ensures p[i] == '?' ==> Parse(p[i..]) == [One] + Parse(p[i + 1..])
    ensures p[i] == '[' && Closing(p, i).Some? ==>
              Closes(p, i, Closing(p, i).value) &&
              Parse(p[i..]) == [Class(First(p, i) == i + 2, Items(p[First(p, i)..Closing(p, i).value]))] + Parse(p[Closing(p, i).value + 1..])
    ensures p[i] != '*' && p[i] != '?' && !(p[i] == '[' && Closing(p, i).Some?) ==> Parse(p[i..]) == [Lit(p[i])] + Parse(p[i + 1..])
  {
    hide Items, Closing;
    var q := p[i..];
    assert q[1..] == p[i + 1..];
    Shifted(p, i);
    if p[i] == '[' && Closing(p, i).Some? {
      var e := Closing(p, i).value;
      assert q[e - i + 1..] == p[e + 1..] && q[First(q, 0)..e - i] == p[First(p, i)..e];
    }
  }

  lemma {:induction false} BracketShifted(p: string, i: nat, j: nat)
    requires i <= |p|
    ensures NextBracket(p, i + j).Some? <==> NextBracket(p[i..], j).Some?
    ensures NextBracket(p, i + j).Some? ==> NextBracket(p, i + j).value == i + NextBracket(p[i..], j).value
    decreases |p| - j
  {
    if i + j < |p| { BracketShifted(p, i, j + 1); }
  }

  lemma Shifted(p: string, i: nat)
    requires i < |p|
    ensures First(p, i) == i + First(p[i..], 0)
    ensures Closing(p, i).Some? <==> Closing(p[i..], 0).Some?
    ensures Closing(p, i).Some? ==> Closing(p, i).value == i + Closing(p[i..], 0).value
  {
    BracketShifted(p, i, First(p[i..], 0) + 1);
  }

  /** glob_match */
  method GlobMatch(pat: string, s: string) returns (yes: bool)
    ensures yes <==> Matches(Parse(pat), s)
    decreases |pat|, 0
  {
    hide Matches, Parse, Items, Closing, InItems;
    var p, i := 0, 0;
    assert pat[0..] == pat && s[0..] == s;
    while p < |pat|
      invariant p <= |pat| && i <= |s| && (Matches(Parse(pat), s) <==> Matches(Parse(pat[p..]), s[i..]))
      decreases |pat| - p
    {
      ParseStep(pat, p);
      if pat[p] == '*' {
        p := p + 1;
        if p == |pat| {
          ParseEnd(pat[p..]);
          StarAtEnd(s[i..]);
          assert [Any] + [] == [Any];
          return true;
        }
        yes := StarMatch(pat[p..], s[i..]);
        return;
      }
      if i < |s| { assert s[i..][1..] == s[i + 1..]; }
      if pat[p] == '[' {
        var e := ClassEnd(pat, p);
        if e.Some? {
          MatchesOne(Class(First(pat, p) == p + 2, Items(pat[First(pat, p)..e.value])), Parse(pat[e.value + 1..]), s[i..]);
          if i == |s| { return false; }
          var hit, q := ClassMatch(pat, p, s[i]);
          if !hit { return false; }
          p, i := q, i + 1;
          continue;
        }
      }
      MatchesOne(if pat[p] == '?' then One else Lit(pat[p]), Parse(pat[p + 1..]), s[i..]);
      if i == |s| { return false; }
      if pat[p] != '?' && pat[p] != s[i] { return false; }
      p, i := p + 1, i + 1;
    }
    ParseEnd(pat[p..]);
    MatchesNothing(s[i..]);
    return i == |s|;
  }

  lemma ParseEnd(p: string)
    requires p == ""
    ensures Parse(p) == []
  {
  }

  /** The loop behind a star: try the rest of the pattern at every place that is left. */
  method StarMatch(pat: string, s: string) returns (yes: bool)
    ensures yes <==> Matches([Any] + Parse(pat), s)
    decreases |pat|, 1
  {
    hide Matches, Parse;
    MatchesAny(Parse(pat), s);
    for t := 0 to |s| + 1
      invariant forall k :: 0 <= k < t ==> !Matches(Parse(pat), s[k..])
    {
      var here := GlobMatch(pat, s[t..]);
      if here { return true; }
    }
    return false;
  }

  // ---------------------------------------------------------------- words without a pattern

  /** Something in the word that is not just itself. */
  ghost predicate Special(w: string, i: nat) {
    i < |w| && (w[i] == '*' || w[i] == '?' || (w[i] == '[' && exists e: nat :: Closes(w, i, e)))
  }

  /** has_glob */
  method HasGlob(w: string) returns (yes: bool)
    ensures yes <==> exists i: nat :: Special(w, i)
  {
    for i := 0 to |w|
      invariant forall k: nat :: k < i ==> !Special(w, k)
    {
      if w[i] == '*' || w[i] == '?' {
        assert Special(w, i);
        return true;
      } else if w[i] == '[' {
        var e := ClassEnd(w, i);
        if e.Some? {
          assert Special(w, i);
          return true;
        }
      }
    }
    return false;
  }

  /** A word with nothing special in it matches itself only. */
  lemma {:induction false} PlainMatches(w: string, i: nat, s: string)
    requires i <= |w| && forall k: nat :: !Special(w, k)
    ensures Matches(Parse(w[i..]), s) <==> s == w[i..]
    decreases |w| - i
  {
    hide Matches, Parse;
    if i == |w| {
      ParseEnd(w[i..]);
      MatchesNothing(s);
    } else {
      ParseStep(w, i);
      assert !Special(w, i);
      MatchesOne(Lit(w[i]), Parse(w[i + 1..]), s);
      assert w[i..] == [w[i]] + w[i + 1..];
      if s != "" {
        PlainMatches(w, i + 1, s[1..]);
        assert s == [s[0]] + s[1..];
      }
    }
  }
}
