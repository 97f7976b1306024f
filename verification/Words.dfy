/** 32-bit little-endian words in a run of bytes. */
module Words {
  import opened Basics

  const WORD := 0x1_0000_0000

  /** The little-endian word at an address. */
  function Word(s: seq<byte>, a: nat): (w: nat)
    requires a + 4 <= |s|
    ensures w < WORD
  {
    (s[a] as int) + 256 * (s[a + 1] as int) + 65536 * (s[a + 2] as int) + 16777216 * (s[a + 3] as int)
  }

  /** The four bytes of a word. */
  function Digits(w: nat): (d: seq<byte>)
    requires w < WORD
    ensures |d| == 4
    ensures (d[0] as int) + 256 * (d[1] as int) + 65536 * (d[2] as int) + 16777216 * (d[3] as int) == w
  {
    var h1 := w / 256;
    var h2 := h1 / 256;
    [w % 256, h1 % 256, h2 % 256, h2 / 256]
  }

  function Put(s: seq<byte>, a: nat, w: nat): (r: seq<byte>)
    requires a + 4 <= |s| && w < WORD
    ensures |r| == |s| && Word(r, a) == w
    ensures forall k :: 0 <= k < |s| && !(a <= k < a + 4) ==> r[k] == s[k]
    ensures forall c: nat {:trigger Word(r, c)} :: c + 4 <= |s| && (c + 4 <= a || a + 4 <= c) ==> Word(r, c) == Word(s, c)
  {
    hide Digits;
    var d := Digits(w);
    s[..a] + d + s[a + 4..]
  }

  lemma SameWord(s: seq<byte>, s2: seq<byte>, a: nat)
    requires a + 4 <= |s| && |s2| == |s|
    requires forall k :: a <= k < a + 4 ==> s2[k] == s[k]
    ensures Word(s2, a) == Word(s, a)
  {
  }

  // ---------------------------------------------------------------- several words

  ghost predicate WordsAt(m: seq<byte>, at: nat, ws: seq<nat>) {
    at + 4 * |ws| <= |m| && forall i :: 0 <= i < |ws| ==> Word(m, at + 4 * i) == ws[i]
  }

  function PutWords(m: seq<byte>, at: nat, ws: seq<nat>): (r: seq<byte>)
    requires at + 4 * |ws| <= |m| && forall i :: 0 <= i < |ws| ==> ws[i] < WORD
    ensures |r| == |m|
  {
    if ws == [] then m else Put(PutWords(m, at, ws[..|ws| - 1]), at + 4 * (|ws| - 1), ws[|ws| - 1])
  }

  /** Stored words read back, and no other byte changes. */
  lemma {:induction false} PutWordsRead(m: seq<byte>, at: nat, ws: seq<nat>)
    requires at + 4 * |ws| <= |m| && forall i :: 0 <= i < |ws| ==> ws[i] < WORD
    ensures WordsAt(PutWords(m, at, ws), at, ws)
    ensures forall k :: 0 <= k < |m| && !(at <= k < at + 4 * |ws|) ==> PutWords(m, at, ws)[k] == m[k]
  {
    hide Word, Put;
    if ws != [] {
      var n := |ws| - 1;
      PutWordsRead(m, at, ws[..n]);
      var m1 := PutWords(m, at, ws[..n]);
      forall i | 0 <= i < n ensures Word(m1, at + 4 * i) == ws[i] { assert ws[..n][i] == ws[i]; }
    }
  }

  /** A 32-bit store. */
  method StoreWord(a: array<byte>, at: nat, w: nat)
    requires at + 4 <= a.Length && w < WORD
    modifies a
    ensures a[..] == Put(old(a[..]), at, w)
  {
    hide Digits;
    var d := Digits(w);
    a[at], a[at + 1], a[at + 2], a[at + 3] := d[0], d[1], d[2], d[3];
    PutIs(old(a[..]), a[..], at, w);
  }

  lemma PutIs(s: seq<byte>, r: seq<byte>, a: nat, w: nat)
    requires a + 4 <= |s| && w < WORD && |r| == |s|
    requires forall k :: 0 <= k < |s| ==> r[k] == if a <= k < a + 4 then Digits(w)[k - a] else s[k]
    ensures r == Put(s, a, w)
  {
  }

  method StoreWords(a: array<byte>, at: nat, ws: seq<nat>)
    requires at + 4 * |ws| <= a.Length && forall i :: 0 <= i < |ws| ==> ws[i] < WORD
    modifies a
    ensures a[..] == PutWords(old(a[..]), at, ws)
  {
    hide Put;
    for i := 0 to |ws|
      invariant a[..] == PutWords(old(a[..]), at, ws[..i])
    {
      assert ws[..i + 1][..i] == ws[..i];
      StoreWord(a, at + 4 * i, ws[i]);
    }
    assert ws[..|ws|] == ws;
  }
}
