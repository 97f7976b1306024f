/** Path folding: split on '/', drop empty names and '.', pop on '..', join. */
module Paths {
  const LIMIT := 256

  // ---------------------------------------------------------------- the fold

  /** The pieces between the slashes, the empty ones too. */
  function Split(s: string): (ps: seq<string>)
    ensures |ps| > 0
  {
    if s == "" then [""]
    else if s[0] == '/' then [""] + Split(s[1..])
    else [[s[0]] + Split(s[1..])[0]] + Split(s[1..])[1..]
  }

  function Step(st: seq<string>, p: string): seq<string> {
    if p == "" || p == "." then st
    else if p == ".." then (if st == [] then [] else st[..|st| - 1])
    else st + [p]
  }

  function Fold(st: seq<string>, ps: seq<string>): seq<string>
    decreases |ps|
  {
    if ps == [] then st else Fold(Step(st, ps[0]), ps[1..])
  }

  /** Every name with a slash in front. */
  function Join(st: seq<string>): string {
    if st == [] then "" else Join(st[..|st| - 1]) + "/" + st[|st| - 1]
  }

  function Render(st: seq<string>): string { if st == [] then "/" else Join(st) }

  predicate Name(p: string) { p != "" && p != "." && p != ".." && '/' !in p }

  predicate Names(st: seq<string>) { forall i :: 0 <= i < |st| ==> Name(st[i]) }

  /** Absolute, and nothing left to fold. */
  predicate Canonical(s: string) { s == "/" || (s != "" && s[0] == '/' && Names(Split(s)[1..])) }

  function StackOf(s: string): seq<string> { if s == "/" then [] else Split(s)[1..] }

  /** No name on the way makes the path longer than the buffer. */
  predicate Fits(st: seq<string>, ps: seq<string>)
    decreases |ps|
  {
    if ps == [] then true
    else (|Step(st, ps[0])| > |st| ==> |Join(Step(st, ps[0]))| < LIMIT) && Fits(Step(st, ps[0]), ps[1..])
  }

  // ---------------------------------------------------------------- splitting

  /** A piece in front of a slash, or of the end. */
  lemma {:induction false} SplitPiece(w: string, rest: string)
    requires '/' !in w && (rest == "" || rest[0] == '/')
    ensures Split(w + rest) == [w] + Split(rest)[1..]
  {
    if w == "" {
      assert w + rest == rest;
      assert Split(rest)[0] == "" && Split(rest) == [""] + Split(rest)[1..];
      assert [w] == [""];
    } else {
      assert (w + rest)[1..] == w[1..] + rest;
      SplitPiece(w[1..], rest);
      assert w[0] in w && [w[0]] + w[1..] == w;
      var t := Split(rest)[1..];
      assert ([w[1..]] + t)[1..] == t;
    }
  }

  lemma {:induction false} SplitNoSlash(s: string)
    ensures forall i :: 0 <= i < |Split(s)| ==> '/' !in Split(s)[i]
  {
    if s != "" { SplitNoSlash(s[1..]); }
  }

  lemma StepNames(st: seq<string>, p: string)
    requires Names(st) && '/' !in p
    ensures Names(Step(st, p))
  {
  }

  lemma {:induction false} FoldNames(st: seq<string>, ps: seq<string>)
    requires Names(st) && forall i :: 0 <= i < |ps| ==> '/' !in ps[i]
    ensures Names(Fold(st, ps))
    decreases |ps|
  {
    if ps != [] {
      StepNames(st, ps[0]);
      FoldNames(Step(st, ps[0]), ps[1..]);
    }
  }

  // ---------------------------------------------------------------- joining undoes splitting, and the other way round

  lemma {:induction false} SplitBoth(s: string, t: string)
    ensures Split(s + "/" + t) == Split(s) + Split(t)
  {
    if s == "" {
      assert s + "/" + t == "/" + t && ("/" + t)[1..] == t;
    } else {
      assert (s + "/" + t)[1..] == s[1..] + "/" + t;
      SplitBoth(s[1..], t);
    }
  }

  lemma SplitLast(s: string, w: string)
    requires '/' !in w
    ensures Split(s + "/" + w) == Split(s) + [w]
  {
    SplitBoth(s, w);
    SplitPiece(w, "");
    assert w + "" == w;
  }

  lemma {:induction false} SplitJoin(st: seq<string>)
    requires Names(st)
    ensures Split(Join(st)) == [""] + st
  {
    if st != [] {
      SplitJoin(st[..|st| - 1]);
      SplitLast(Join(st[..|st| - 1]), st[|st| - 1]);
      assert st[..|st| - 1] + [st[|st| - 1]] == st;
    }
  }

  lemma {:induction false} JoinFront(p: string, st: seq<string>)
    ensures Join([p] + st) == "/" + p + Join(st)
  {
    if st == [] {
      assert [p] + st == [p] && Join([]) == "";
      assert [p][..0] == [];
    } else {
      JoinFront(p, st[..|st| - 1]);
      assert ([p] + st)[..|st|] == [p] + st[..|st| - 1];
    }
  }

  lemma SlashOff(x: string, y: string)
    requires "/" + x == "/" + y
    ensures x == y
  {
    assert x == ("/" + x)[1..] && y == ("/" + y)[1..];
  }

  /** A letter in front of the first piece. */
  lemma JoinLonger(c: char, qs: seq<string>, t: string)
    requires qs != [] && Join(qs) == "/" + t
    ensures Join([[c] + qs[0]] + qs[1..]) == "/" + ([c] + t)
  {
    hide Join;
    assert [qs[0]] + qs[1..] == qs;
    JoinFront(qs[0], qs[1..]);
    JoinFront([c] + qs[0], qs[1..]);
    var j := Join(qs[1..]);
    assert "/" + qs[0] + j == "/" + (qs[0] + j);
    SlashOff(qs[0] + j, t);
    assert "/" + ([c] + qs[0]) + j == "/" + ([c] + (qs[0] + j));
  }

  lemma {:induction false} JoinSplit(s: string)
    ensures Join(Split(s)) == "/" + s
  {
    if s == "" {
      assert Split(s)[..0] == [];
    } else {
      var qs := Split(s[1..]);
      JoinSplit(s[1..]);
      assert s == [s[0]] + s[1..];
      if s[0] == '/' { JoinFront("", qs); } else { JoinLonger(s[0], qs, s[1..]); }
    }
  }

  /** Names joined are canonical, and split into themselves again. */
  lemma RenderCanonical(st: seq<string>)
    requires Names(st)
    ensures Canonical(Render(st)) && StackOf(Render(st)) == st
  {
    SplitJoin(st);
    assert Split("/") == ["", ""];
    assert ([""] + st)[1..] == st;
    if st != [] {
      assert Split(Render(st))[0] == "" && Split(Render(st))[1] == st[0];
      assert Name(st[0]);
    }
  }

  /** A canonical path is its names joined. */
  lemma CanonicalRender(s: string)
    requires Canonical(s)
    ensures Names(StackOf(s)) && Render(StackOf(s)) == s
  {
    hide Join;
    if s != "/" {
      JoinSplit(s[1..]);
      assert Split(s)[1..] == Split(s[1..]);
      assert "/" + s[1..] == s;
    }
  }

  lemma {:induction false} FoldKeepsNames(st: seq<string>, ps: seq<string>)
    requires Names(ps)
    ensures Fold(st, ps) == st + ps
    decreases |ps|
  {
    if ps == [] {
      assert st + ps == st;
    } else {
      FoldKeepsNames(st + [ps[0]], ps[1..]);
      assert st + [ps[0]] + ps[1..] == st + ps;
    }
  }

  // ---------------------------------------------------------------- what resolve means

  function Start(path: string, base: string): seq<string> {
    if path != "" && path[0] == '/' then [] else StackOf(base)
  }

  /** The path resolve should return. */
  function Resolved(path: string, base: string): string { Render(Fold(Start(path, base), Split(path))) }

  lemma ResolvedCanonical(path: string, base: string)
    requires Canonical(base)
    ensures Canonical(Resolved(path, base))
  {
    CanonicalRender(base);
    SplitNoSlash(path);
    FoldNames(Start(path, base), Split(path));
    RenderCanonical(Fold(Start(path, base), Split(path)));
  }

  /** Folding a canonical path changes nothing, wherever it is done. */
  lemma ResolvedFixed(path: string, base: string)
    requires Canonical(path)
    ensures Resolved(path, base) == path
  {
    CanonicalRender(path);
    if path != "/" {
      FoldKeepsNames([], Split(path)[1..]);
      assert [] + Split(path)[1..] == Split(path)[1..];
    } else {
      assert Split(path) == ["", ""] && Split(path)[1..] == [""];
      assert Fold([], [""]) == [];
    }
  }

  lemma ResolvedTwice(path: string, base: string, base2: string)
    requires Canonical(base)
    ensures Resolved(Resolved(path, base), base2) == Resolved(path, base)
  {
    ResolvedCanonical(path, base);
    ResolvedFixed(Resolved(path, base), base2);
  }

  lemma {:induction false} FoldBoth(st: seq<string>, ps: seq<string>, qs: seq<string>)
    ensures Fold(st, ps + qs) == Fold(Fold(st, ps), qs)
    decreases |ps|
  {
    if ps == [] {
      assert ps + qs == qs;
    } else {
      assert (ps + qs)[1..] == ps[1..] + qs;
      FoldBoth(Step(st, ps[0]), ps[1..], qs);
    }
  }

  /** Resolving step by step is resolving at once. */
  lemma ResolvedInTurn(a: string, b: string, base: string)
    requires Canonical(base) && a != "" && (b == "" || b[0] != '/')
    ensures Resolved(b, Resolved(a, base)) == Resolved(a + "/" + b, base)
  {
    var st := Start(a, base);
    CanonicalRender(base);
    SplitNoSlash(a);
    FoldNames(st, Split(a));
    RenderCanonical(Fold(st, Split(a)));
    SplitBoth(a, b);
    FoldBoth(st, Split(a), Split(b));
    assert (a + "/" + b)[0] == a[0];
  }

  /** The directory a name leads to from another: itself, the one above it, or the one of that name in it. */
  ghost predicate Leads(from: string, w: string, to: string) {
    if w == "" || w == "." then to == from
    else if w == ".." then (if from == "/" then to == "/" else exists n :: Name(n) && from == (if to == "/" then "" else to) + "/" + n)
    else to == (if from == "/" then "" else from) + "/" + w
  }

  lemma StepLeads(st: seq<string>, w: string)
    requires Names(st) && '/' !in w
    ensures Leads(Render(st), w, Render(Step(st, w)))
  {
    if w == ".." && st != [] {
      UpLeads(st);
    } else if w != "" && w != "." && w != ".." {
      assert (st + [w])[..|st|] == st;
      assert Join(st + [w]) == Join(st) + "/" + w;
      if st != [] { NotRoot(st); }
    }
  }

  lemma UpLeads(st: seq<string>)
    requires Names(st) && st != []
    ensures Leads(Render(st), "..", Render(st[..|st| - 1]))
  {
    var f, n := st[..|st| - 1], st[|st| - 1];
    JoinEnds(st);
    NotRoot(st);
    assert Name(n) && Names(f);
    if f != [] { NotRoot(f); }
    assert Render(st) == (if Render(f) == "/" then "" else Render(f)) + "/" + n;
  }

  lemma NotRoot(st: seq<string>)
    requires Names(st) && st != []
    ensures Render(st) == Join(st) && |Join(st)| > 1
  {
    JoinEnds(st);
    assert Name(st[|st| - 1]);
  }

  /** The last piece of a path leads from where the rest of it led. */
  lemma ResolvedLast(p: string, w: string, base: string)
    requires Canonical(base) && '/' !in w && p != ""
    ensures Leads(Resolved(p, base), w, Resolved(p + "/" + w, base))
  {
    hide Join, Leads, Step, Canonical;
    var st := Start(p, base);
    CanonicalRender(base);
    SplitNoSlash(p);
    FoldNames(st, Split(p));
    SplitLast(p, w);
    FoldBoth(st, Split(p), [w]);
    assert (p + "/" + w)[0] == p[0];
    OneStep(Fold(st, Split(p)), w);
    StepLeads(Fold(st, Split(p)), w);
  }

  /** The first piece leads from the root, or from the base. */
  lemma ResolvedFirst(w: string, base: string)
    requires Canonical(base) && '/' !in w
    ensures Leads("/", w, Resolved("/" + w, base)) && Leads(base, w, Resolved(w, base))
  {
    hide Join, Leads, Step, Canonical;
    CanonicalRender(base);
    SplitPiece(w, "");
    assert w + "" == w && Split("")[1..] == [] && [w] + [] == [w];
    SplitBoth("", w);
    assert "" + "/" + w == "/" + w && Split("") == [""];
    FoldBoth([], [""], [w]);
    assert [""] + [w] == ["", w];
    OneStep([], "");
    StepEmpty();
    OneStep([], w);
    StepLeads([], w);
    OneStep(StackOf(base), w);
    StepLeads(StackOf(base), w);
    if w != "" { assert w[0] in w; }
  }

  lemma StepEmpty()
    ensures Step([], "") == [] && Render([]) == "/"
  {
  }

  lemma OneStep(st: seq<string>, w: string)
    ensures Fold(st, [w]) == Step(st, w)
  {
    assert [w][1..] == [];
  }

  // ---------------------------------------------------------------- the buffer

  /** What the buffer holds: the names joined; the root may be there or not. */
  predicate Shows(t: string, st: seq<string>) { t == Join(st) || (st == [] && t == "/") }

  lemma JoinEnds(st: seq<string>)
    requires st != []
    ensures Join(st) == Join(st[..|st| - 1]) + "/" + st[|st| - 1]
    ensures |Join(st)| == |Join(st[..|st| - 1])| + 1 + |st[|st| - 1]|
  {
  }

  lemma JoinPush(st: seq<string>, p: string)
    ensures Join(st + [p]) == Join(st) + "/" + p
  {
    assert (st + [p])[..|st|] == st;
  }

  /** A shown path never ends in a slash, the root aside. */
  lemma ShowsLast(t: string, st: seq<string>)
    requires Shows(t, st) && Names(st) && t != ""
    ensures t[|t| - 1] == '/' <==> t == "/"
    ensures t == "/" <==> st == []
  {
    if st != [] {
      JoinEnds(st);
      var p := st[|st| - 1];
      assert Name(p);
      assert t[|t| - 1] == p[|p| - 1];
      assert p[|p| - 1] in p;
    }
  }

  /** The last slash of a shown path is in front of its last name. */
  lemma ShowsSlash(t: string, st: seq<string>, n: nat)
    requires Shows(t, st) && Names(st) && st != []
    requires n <= |t| && (n > 0 ==> t[n - 1] == '/') && forall i :: n <= i < |t| ==> t[i] != '/'
    ensures n == |Join(st[..|st| - 1])| + 1 && t[..n - 1] == Join(st[..|st| - 1])
  {
    hide Join;
    JoinEnds(st);
    var f, p := Join(st[..|st| - 1]), st[|st| - 1];
    assert Name(p);
    assert t[|f|] == '/';
    forall i | |f| < i < |t| ensures t[i] != '/' { assert t[i] == p[i - |f| - 1] && p[i - |f| - 1] in p; }
  }

  // ---------------------------------------------------------------- the fold on the text itself, for any base at all

  /** The first loop of '..'. */
  function Stripped(t: string): (u: string)
    ensures u <= t && (|u| > 1 ==> u[|u| - 1] != '/')
  {
    if |t| > 1 && t[|t| - 1] == '/' then Stripped(t[..|t| - 1]) else t
  }

  /** The second one. */
  function NameOff(t: string): (u: string)
    ensures u <= t && (u != "" ==> u[|u| - 1] == '/') && forall i :: |u| <= i < |t| ==> t[i] != '/'
  {
    if t != "" && t[|t| - 1] != '/' then NameOff(t[..|t| - 1]) else t
  }

  function Popped(t: string): (u: string)
    ensures |u| <= |t|
  {
    var u := NameOff(Stripped(t));
    if |u| > 1 then u[..|u| - 1] else u
  }

  function Pushed(t: string, w: string): string {
    (if t == "" || t[|t| - 1] != '/' then t + "/" else t) + w
  }

  function TextStep(t: string, p: string): string {
    if p == "" || p == "." then t else if p == ".." then Popped(t) else Pushed(t, p)
  }

  function TextFold(t: string, ps: seq<string>): string
    decreases |ps|
  {
    if ps == [] then t else TextFold(TextStep(t, ps[0]), ps[1..])
  }

  predicate TextGrows(p: string) { p != "" && p != "." && p != ".." }

  predicate TextFits(t: string, ps: seq<string>)
    decreases |ps|
  {
    if ps == [] then true
    else (TextGrows(ps[0]) ==> |TextStep(t, ps[0])| < LIMIT) && TextFits(TextStep(t, ps[0]), ps[1..])
  }

  /** What the buffer starts with: nothing for an absolute path, else as much of the base as it holds. */
  function StartText(path: string, base: string): string {
    if path != "" && path[0] == '/' then "" else if |base| < LIMIT then base else base[..LIMIT - 1]
  }

  /** The path resolve returns, whatever the base looks like. */
  function TextResolved(path: string, base: string): string {
    var t := TextFold(StartText(path, base), Split(path));
    if t == "" then "/" else t
  }

  predicate Succeeds(path: string, base: string, size: nat) {
    size >= 2 && TextFits(StartText(path, base), Split(path)) && |TextResolved(path, base)| + 1 <= size
  }

  lemma PopShows(t: string, st: seq<string>)
    requires Shows(t, st) && Names(st)
    ensures Shows(Popped(t), Step(st, ".."))
  {
    hide Join;
    EmptyJoin();
    if t != "" { ShowsLast(t, st); }
    assert Stripped(t) == t;
    if st != [] {
      ShowsSlash(t, st, |NameOff(t)|);
      if |st| > 1 { JoinEnds(st[..|st| - 1]); }
    }
  }

  lemma PushShows(t: string, st: seq<string>, w: string)
    requires Shows(t, st) && Names(st) && Name(w)
    ensures Shows(Pushed(t, w), st + [w]) && |Pushed(t, w)| == |Join(st + [w])|
  {
    hide Join;
    EmptyJoin();
    if t != "" { ShowsLast(t, st); }
    JoinPush(st, w);
  }

  /** On names joined, the text does what the names do. */
  lemma {:induction false} TextFollows(t: string, st: seq<string>, ps: seq<string>)
    requires Shows(t, st) && Names(st) && forall i :: 0 <= i < |ps| ==> '/' !in ps[i]
    ensures Shows(TextFold(t, ps), Fold(st, ps)) && (TextFits(t, ps) <==> Fits(st, ps))
    decreases |ps|
  {
    hide Join, Shows, Popped, Pushed;
    if ps != [] {
      var p := ps[0];
      StepNames(st, p);
      if p == ".." { PopShows(t, st); } else if TextGrows(p) { PushShows(t, st, p); }
      TextFollows(TextStep(t, p), Step(st, p), ps[1..]);
    }
  }

  /** With a canonical base that fits, the text is the fold of the names. */
  lemma TextIsResolved(path: string, base: string)
    requires Canonical(base) && |base| < LIMIT
    ensures TextResolved(path, base) == Resolved(path, base)
    ensures TextFits(StartText(path, base), Split(path)) <==> Fits(Start(path, base), Split(path))
  {
    hide Join;
    StartShows(path, base);
    SplitNoSlash(path);
    FoldNames(Start(path, base), Split(path));
    TextFollows(StartText(path, base), Start(path, base), Split(path));
    ShowsRender(TextFold(StartText(path, base), Split(path)), Fold(Start(path, base), Split(path)));
  }

  lemma TextSlash(t: string, rest: string)
    requires rest != "" && rest[0] == '/'
    ensures TextFold(t, Split(rest)) == TextFold(t, Split(rest[1..])) && (TextFits(t, Split(rest)) <==> TextFits(t, Split(rest[1..])))
  {
    assert Split(rest)[1..] == Split(rest[1..]);
  }

  lemma TextPiece(t: string, w: string, rest: string)
    requires '/' !in w && (rest == "" || rest[0] == '/')
    ensures TextFold(t, Split(w + rest)) == TextFold(TextStep(t, w), Split(rest))
    ensures TextFits(t, Split(w + rest)) <==> (TextGrows(w) ==> |TextStep(t, w)| < LIMIT) && TextFits(TextStep(t, w), Split(rest))
  {
    SplitPiece(w, rest);
    SplitPiece("", rest);
    assert "" + rest == rest;
    assert Split(rest)[0] == "";
    assert TextFold(TextStep(t, w), Split(rest)) == TextFold(TextStep(t, w), Split(rest)[1..]);
  }

  /** With t in the buffer, the rest of the path decides as the whole of it did. */
  ghost predicate Pending(path: string, base: string, t: string, rest: string) {
    && TextFold(StartText(path, base), Split(path)) == TextFold(t, Split(rest))
    && (TextFits(StartText(path, base), Split(path)) <==> TextFits(t, Split(rest)))
  }

  lemma PendingSlash(path: string, base: string, t: string, rest: string)
    requires Pending(path, base, t, rest) && rest != "" && rest[0] == '/'
    ensures Pending(path, base, t, rest[1..])
  {
    TextSlash(t, rest);
  }

  lemma PendingPiece(path: string, base: string, t: string, w: string, rest: string)
    requires Pending(path, base, t, w + rest) && '/' !in w && (rest == "" || rest[0] == '/')
    ensures TextGrows(w) && |TextStep(t, w)| >= LIMIT ==> !TextFits(StartText(path, base), Split(path))
    ensures (TextGrows(w) ==> |TextStep(t, w)| < LIMIT) ==> Pending(path, base, TextStep(t, w), rest)
  {
    TextPiece(t, w, rest);
  }

  lemma PendingDone(path: string, base: string, t: string)
    requires Pending(path, base, t, "")
    ensures TextFits(StartText(path, base), Split(path)) && TextResolved(path, base) == if t == "" then "/" else t
  {
    assert Split("") == [""] && [""][1..] == [];
    assert TextFold(t, [""]) == TextFold(t, []) && TextFits(t, [""]);
  }

  lemma PendingStart(path: string, base: string)
    ensures Pending(path, base, StartText(path, base), path)
  {
  }

  /** resolve, for every base; with a canonical one that fits it is the fold of the names. */
  method Resolve(path: string, base: string, buf: array<char>) returns (ok: bool, n: nat)
    modifies buf
    ensures ok <==> Succeeds(path, base, buf.Length)
    ensures ok ==> n == |TextResolved(path, base)| < buf.Length && buf[..n] == TextResolved(path, base) && buf[n] == '\0'
    ensures !ok ==> buf[..] == old(buf[..])
    ensures Canonical(base) && |base| < LIMIT ==>
              && (ok <==> buf.Length >= 2 && Fits(Start(path, base), Split(path)) && |Resolved(path, base)| + 1 <= buf.Length)
              && (ok ==> buf[..n] == Resolved(path, base))
  {
    hide Split, Canonical, Resolved, Fits, TextFits, TextResolved, Start, StartText;
    if Canonical(base) && |base| < LIMIT { TextIsResolved(path, base); }
    ok, n := ResolveText(path, base, buf);
  }

  /** The loop of resolve. */
  method ResolveText(path: string, base: string, buf: array<char>) returns (ok: bool, n: nat)
    modifies buf
    ensures ok <==> Succeeds(path, base, buf.Length)
    ensures ok ==> n == |TextResolved(path, base)| < buf.Length && buf[..n] == TextResolved(path, base) && buf[n] == '\0'
    ensures !ok ==> buf[..] == old(buf[..])
  {
    hide Split, Pending, TextStep, TextFits, TextFold, TextResolved;
    PendingStart(path, base);
    if buf.Length < 2 { return false, 0; }
    var tmp := new char[LIMIT];
    var out: nat := 0;
    if path == "" || path[0] != '/' {
      out := if |base| < LIMIT then |base| else LIMIT - 1;
      Fill(tmp, 0, base[..out]);
      assert tmp[..out] == base[..out];
    }
    assert tmp[..out] == StartText(path, base);
    var s: nat := 0;
    assert path[0..] == path;
    while s < |path|
      invariant s <= |path| && out < LIMIT && buf[..] == old(buf[..]) && Pending(path, base, tmp[..out], path[s..])
    {
      while s < |path| && path[s] == '/'
        invariant s <= |path| && buf[..] == old(buf[..]) && Pending(path, base, tmp[..out], path[s..])
      {
        PendingSlash(path, base, tmp[..out], path[s..]);
        s := s + 1;
      }
      if s == |path| { break; }
      var e := s;
      while e < |path| && path[e] != '/'
        invariant s <= e <= |path| && '/' !in path[s..e] && (s < e || path[s] != '/')
      {
        e := e + 1;
      }
      assert path[s..] == path[s..e] + path[e..];
      PendingPiece(path, base, tmp[..out], path[s..e], path[e..]);
      var fits;
      fits, out := Apply(tmp, out, path, s, e);
      if !fits { return false, 0; }
      s := e;
    }
    assert path[s..] == "";
    PendingDone(path, base, tmp[..out]);
    ok, n := Emit(tmp, out, buf);
  }

  /** One piece of the path. */
  method Apply(tmp: array<char>, o: nat, path: string, s: nat, e: nat) returns (fits: bool, out: nat)
    requires tmp.Length == LIMIT && o < LIMIT && s < e <= |path|
    modifies tmp
    ensures var w, t := path[s..e], old(tmp[..o]);
            && (fits <==> (TextGrows(w) ==> |TextStep(t, w)| < LIMIT))
            && (fits ==> out < LIMIT && tmp[..out] == TextStep(t, w))
  {
    hide Popped, Pushed;
    var w := path[s..e];
    assert w[0] == path[s] && (|w| > 1 ==> w[1] == path[s + 1]);
    if e - s == 1 && path[s] == '.' {
      assert w == ".";
      return true, o;
    }
    if e - s == 2 && path[s] == '.' && path[s + 1] == '.' {
      assert w == "..";
      out := Pop(tmp, o);
      return true, out;
    }
    assert TextGrows(w);
    fits, out := Push(tmp, o, w);
  }

  /** The last part of resolve: an empty result is the root. */
  method Emit(tmp: array<char>, out: nat, buf: array<char>) returns (ok: bool, n: nat)
    requires buf != tmp && out <= tmp.Length && buf.Length >= 2
    modifies buf
    ensures var text := if out == 0 then "/" else tmp[..out];
            (ok <==> |text| + 1 <= buf.Length) && (ok ==> n == |text| && buf[..n] == text && buf[n] == '\0')
    ensures !ok ==> buf[..] == old(buf[..])
  {
    n := if out == 0 then 1 else out;
    if n + 1 > buf.Length { return false, n; }
    var text := if out == 0 then "/" else tmp[..n];
    Fill(buf, 0, text);
    assert buf[..n] == text;
    buf[n] := '\0';
    return true, n;
  }

  /** memcpy */
  method Fill(a: array<char>, at: nat, d: string)
    requires at + |d| <= a.Length
    modifies a
    ensures a[..at] == old(a[..at]) && a[at..at + |d|] == d
  {
    for i := 0 to |d|
      invariant a[..at] == old(a[..at]) && a[at..at + i] == d[..i]
    {
      a[at + i] := d[i];
    }
  }

  /** '..': back over slashes, over the last name, and over its slash unless it is the root's. */
  method Pop(tmp: array<char>, o: nat) returns (out: nat)
    requires o <= tmp.Length
    ensures out <= o && tmp[..out] == Popped(tmp[..o])
  {
    hide Stripped, NameOff;
    out := BackOverSlashes(tmp, o);
    out := BackOverName(tmp, out);
    if out > 1 {
      assert tmp[..out][..out - 1] == tmp[..out - 1];
      out := out - 1;
    }
  }

  method BackOverSlashes(tmp: array<char>, o: nat) returns (out: nat)
    requires o <= tmp.Length
    ensures out <= o && tmp[..out] == Stripped(tmp[..o])
  {
    out := o;
    while out > 1 && tmp[out - 1] == '/'
      invariant out <= o && Stripped(tmp[..out]) == Stripped(tmp[..o])
    {
      assert tmp[..out][..out - 1] == tmp[..out - 1];
      out := out - 1;
    }
  }

  method BackOverName(tmp: array<char>, o: nat) returns (out: nat)
    requires o <= tmp.Length
    ensures out <= o && tmp[..out] == NameOff(tmp[..o])
  {
    out := o;
    while out > 0 && tmp[out - 1] != '/'
      invariant out <= o && NameOff(tmp[..out]) == NameOff(tmp[..o])
    {
      assert tmp[..out][..out - 1] == tmp[..out - 1];
      out := out - 1;
    }
  }

  /** A name: a slash in front of it unless there is one, then the name, if the buffer has room. */
  method Push(tmp: array<char>, o: nat, w: string) returns (fits: bool, out: nat)
    requires tmp.Length == LIMIT && o < LIMIT
    modifies tmp
    ensures fits <==> |Pushed(old(tmp[..o]), w)| < LIMIT
    ensures fits ==> out < LIMIT && tmp[..out] == Pushed(old(tmp[..o]), w)
  {
    out := o;
    if out == 0 || tmp[out - 1] != '/' {
      tmp[out] := '/';
      out := out + 1;
    }
    if out + |w| >= LIMIT { return false, out; }
    ghost var t := tmp[..out];
    Fill(tmp, out, w);
    assert tmp[..out + |w|] == tmp[..out] + tmp[out..out + |w|];
    return true, out + |w|;
  }

  lemma EmptyJoin()
    ensures Join([]) == ""
  {
  }

  lemma StartShows(path: string, base: string)
    requires Canonical(base)
    ensures Names(Start(path, base)) && Shows(if path != "" && path[0] == '/' then "" else base, Start(path, base))
  {
    CanonicalRender(base);
  }

  lemma ShowsRender(t: string, st: seq<string>)
    requires Shows(t, st) && Names(st)
    ensures Render(st) == if t == "" then "/" else t
  {
    if st != [] { JoinEnds(st); }
  }

  // ---------------------------------------------------------------- chdir keeps 127 characters

  const CWD := 128

  /** What strncpy leaves of a path in a working directory. */
  function Kept(r: string): (c: string)
    ensures |c| < CWD && (c == r <==> |r| < CWD)
  {
    if |r| < CWD then r else r[..CWD - 1]
  }

  /** chdir, with what the lookup says: `found` when the path leads to a directory. */
  method Chdir(cwd: string, path: string, found: bool) returns (ok: bool, cwd2: string)
    ensures ok <==> found && Succeeds(path, cwd, LIMIT)
    ensures cwd2 == if ok then Kept(TextResolved(path, cwd)) else cwd
  {
    hide Succeeds, TextResolved;
    var abs := new char[LIMIT];
    var n;
    ok, n := Resolve(path, cwd, abs);
    if !ok || !found { return false, cwd; }
    var m := if n < CWD then n else CWD - 1;
    assert n >= CWD ==> abs[..m] == abs[..n][..m];
    return true, abs[..m];
  }

  function LastPiece(s: string): string { Split(s)[|Split(s)| - 1] }

  /** The front of a text has the pieces of the text, the last of them cut. */
  lemma {:induction false} SplitFront(s: string, n: nat) returns (k: nat)
    requires n <= |s|
    ensures k < |Split(s)| && |Split(s[..n])| == k + 1 && Split(s[..n])[..k] == Split(s)[..k] && Split(s[..n])[k] <= Split(s)[k]
    ensures 0 < n && s[0] == '/' ==> 0 < k
  {
    if n == 0 {
      k := 0;
      assert s[..n] == "";
    } else {
      var t := s[..n];
      assert t[1..] == s[1..][..n - 1] && t[0] == s[0];
      var j := SplitFront(s[1..], n - 1);
      if s[0] == '/' {
        k := j + 1;
        FrontSlash(Split(s[1..]), Split(t[1..]), j);
      } else {
        k := j;
        FrontLetter(s, t, j);
      }
    }
  }

  lemma FrontSlash(x: seq<string>, y: seq<string>, j: nat)
    requires j < |x| && |y| == j + 1 && y[..j] == x[..j] && y[j] <= x[j]
    ensures ([""] + y)[..j + 1] == ([""] + x)[..j + 1] && ([""] + y)[j + 1] <= ([""] + x)[j + 1]
  {
    assert ([""] + y)[..j + 1] == [""] + y[..j] && ([""] + x)[..j + 1] == [""] + x[..j];
  }

  lemma FrontLetter(s: string, t: string, j: nat)
    requires s != "" && t != "" && s[0] == t[0] != '/'
    requires j < |Split(s[1..])| && |Split(t[1..])| == j + 1 && Split(t[1..])[..j] == Split(s[1..])[..j] && Split(t[1..])[j] <= Split(s[1..])[j]
    ensures j < |Split(s)| && |Split(t)| == j + 1 && Split(t)[..j] == Split(s)[..j] && Split(t)[j] <= Split(s)[j]
  {
    hide Split;
    var x, y := Split(s[1..]), Split(t[1..]);
    LetterPieces(s);
    LetterPieces(t);
    forall i | 0 <= i < j ensures y[i] == x[i] { assert y[i] == y[..j][i] && x[i] == x[..j][i]; }
    forall i | 0 <= i < j ensures Split(t)[i] == Split(s)[i] {}
    assert Split(t)[..j] == Split(s)[..j];
    if j == 0 {
      assert [s[0]] + y[0] <= [s[0]] + x[0];
    } else {
      assert Split(t)[j] == y[j] && Split(s)[j] == x[j];
    }
  }

  lemma LetterPieces(s: string)
    requires s != "" && s[0] != '/'
    ensures |Split(s)| == |Split(s[1..])|
    ensures forall i :: 0 <= i < |Split(s)| ==> Split(s)[i] == if i == 0 then [s[0]] + Split(s[1..])[0] else Split(s[1..])[i]
  {
  }

  /** A canonical path that is cut stays canonical exactly when the cut does not end in a slash, in '.' or in '..'. */
  lemma KeptCanonicalIff(r: string)
    requires Canonical(r) && |r| >= CWD
    ensures Canonical(Kept(r)) <==> LastPiece(Kept(r)) !in {"", ".", ".."}
  {
    hide Split, Name;
    var c := Kept(r);
    var k := SplitFront(r, CWD - 1);
    SplitNoSlash(c);
    RootIsShort(r);
    var names, full := Split(c)[1..], Split(r)[1..];
    forall i | 0 <= i < k - 1 ensures Name(names[i]) {
      assert names[i] == Split(c)[..k][i + 1] == Split(r)[..k][i + 1] == full[i];
    }
    assert names[k - 1] == LastPiece(c);
    LastName(names[k - 1]);
  }

  lemma LastName(p: string)
    requires '/' !in p
    ensures Name(p) <==> p !in {"", ".", ".."}
  {
  }

  lemma RootIsShort(r: string)
    requires Canonical(r) && |r| >= CWD
    ensures r[0] == '/' && Kept(r) != "/" && Kept(r)[0] == '/' && Names(Split(r)[1..])
  {
  }

  /** Between two calls the name of the directory is kept: then going there step by step is going there at once. */
  lemma ChdirInTurn(a: string, b: string, base: string)
    requires Canonical(base) && a != "" && (b == "" || b[0] != '/') && |Resolved(a, base)| < CWD
    ensures Resolved(b, Kept(Resolved(a, base))) == Resolved(a + "/" + b, base)
  {
    ResolvedInTurn(a, b, base);
  }

  /** For staying where one is, exactly then. */
  lemma ChdirStaysIff(a: string, base: string)
    requires Canonical(base) && a != "" && Canonical(Kept(Resolved(a, base)))
    ensures Resolved(".", Kept(Resolved(a, base))) == Resolved(a + "/.", base) <==> |Resolved(a, base)| < CWD
  {
    var r := Resolved(a, base);
    ResolvedCanonical(a, base);
    ResolvedInTurn(a, ".", base);
    assert a + "/" + "." == a + "/.";
    DotStays(r);
    DotStays(Kept(r));
  }

  lemma DotStays(c: string)
    requires Canonical(c)
    ensures Resolved(".", c) == c
  {
    CanonicalRender(c);
    SplitPiece(".", "");
    assert "." + "" == "." && [""][1..] == [] && Split("") == [""];
    var st, ps := StackOf(c), ["."];
    assert Split(".") == ps && ps[0] == "." && ps[1..] == [];
    assert Step(st, ".") == st;
    assert Fold(st, ps) == Fold(Step(st, ps[0]), ps[1..]);
  }

  /** As long as no result is longer, working directories stay canonical. */
  lemma {:induction false} ChdirsCanonical(cwd: string, paths: seq<string>)
    requires Canonical(cwd) && |cwd| < CWD && NeverCut(cwd, paths)
    ensures Canonical(After(cwd, paths)) && |After(cwd, paths)| < CWD
    decreases |paths|
  {
    if paths != [] {
      ResolvedCanonical(paths[0], cwd);
      ChdirsCanonical(Resolved(paths[0], cwd), paths[1..]);
    }
  }

  predicate NeverCut(cwd: string, paths: seq<string>)
    decreases |paths|
  {
    paths == [] || (|Resolved(paths[0], cwd)| < CWD && NeverCut(Resolved(paths[0], cwd), paths[1..]))
  }

  /** The working directory after a series of calls that all succeed. */
  function After(cwd: string, paths: seq<string>): string
    decreases |paths|
  {
    if paths == [] then cwd else After(Kept(Resolved(paths[0], cwd)), paths[1..])
  }

  /** A long name and one that starts with a dot: the working directory that is left ends in '/.'. */
  lemma CutExample()
    ensures var r := "/" + seq(124, _ => 'a') + "/.b";
            Canonical(r) && |r| == CWD && !Canonical(Kept(r))
  {
    var a: string := seq(124, _ => 'a');
    var r := "/" + a + "/.b";
    assert '/' !in a;
    assert Name(a) && Name(".b");
    var st := [a, ".b"];
    assert st[..1] == [a] && [a][..0] == [];
    assert Join(st) == Join([a]) + "/" + ".b" && Join([a]) == Join([]) + "/" + a;
    assert "" + "/" + a == "/" + a;
    assert r == Render(st);
    RenderCanonical(st);
    assert Kept(r) == "/" + a + "/" + ".";
    SplitLast("/" + a, ".");
    KeptCanonicalIff(r);
  }
}
