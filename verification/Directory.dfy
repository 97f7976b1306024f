/** Directory blocks: a chain of records that tiles the block, edited in place. */
module Directories {
  import opened Basics
  import opened Words
  import opened Files

  /** A listed name: `kind` is 1 for files and 2 for directories. */
  datatype Entry = Entry(ino: nat, kind: byte, name: Content)

  // ---------------------------------------------------------------- bytes

  function U16(b: Content, o: nat): (n: nat)
    requires o + 2 <= |b|
    ensures n < 0x1_0000
  {
    b[o] as nat + 0x100 * b[o + 1] as nat
  }

  function Le16(n: nat): (d: Content)
    ensures |d| == 2
  {
    [n % 0x100, n / 0x100 % 0x100]
  }

  lemma ReadBack16(b: Content, o: nat, n: nat)
    requires o + 2 <= |b| && n < 0x1_0000 && b[o..o + 2] == Le16(n)
    ensures U16(b, o) == n
  {
    assert b[o] == b[o..o + 2][0] && b[o + 1] == b[o..o + 2][1];
  }

  lemma ReadBack32(b: Content, o: nat, n: nat)
    requires o + 4 <= |b| && n < WORD && b[o..o + 4] == Digits(n)
    ensures Word(b, o) == n
  {
    hide Digits;
    var d := b[o..o + 4];
    assert d[0] == b[o] && d[1] == b[o + 1] && d[2] == b[o + 2] && d[3] == b[o + 3];
  }

  // ---------------------------------------------------------------- records

  /** dirent_used */
  function Used(n: nat): nat { 8 + (n + 3) / 4 * 4 }

  function RecLen(b: Content, o: nat): nat
    requires o + 8 <= |b|
  {
    U16(b, o + 4)
  }

  /** A record the loops refuse to step over. */
  predicate Bad(b: Content, o: nat)
    requires o + 8 <= |b|
  {
    RecLen(b, o) < 8 || o + RecLen(b, o) > |b|
  }

  /** A record that holds its own name. */
  predicate Holds(b: Content, o: nat) {
    o + 8 <= |b| && !Bad(b, o) && Used(b[o + 6]) <= RecLen(b, o)
  }

  ghost predicate Broken(b: Content, o: nat)
    decreases |b| - o
  {
    o + 8 <= |b| && (Bad(b, o) || Broken(b, o + RecLen(b, o)))
  }

  /** Every record the walk gets to holds its name. */
  ghost predicate Sane(b: Content, o: nat)
    decreases |b| - o
  {
    o + 8 <= |b| && !Bad(b, o) ==> Holds(b, o) && Sane(b, o + RecLen(b, o))
  }

  /** The records cover the block exactly. */
  ghost predicate Tiled(b: Content, o: nat)
    decreases |b| - o
  {
    o == |b| || (Holds(b, o) && Tiled(b, o + RecLen(b, o)))
  }

  function Here(b: Content, o: nat): seq<Entry>
    requires Holds(b, o)
  {
    Listed(Word(b, o), b[o + 7], b[o + 8..o + 8 + b[o + 6]])
  }

  /** Inode 0 and the empty name are not listed. */
  function Listed(ino: nat, kind: byte, name: Content): seq<Entry> {
    if ino != 0 && name != [] then [Entry(ino, kind, name)] else []
  }

  /** What list_dir yields from one block. */
  ghost function Entries(b: Content, o: nat): seq<Entry>
    requires Sane(b, o)
    decreases |b| - o
  {
    if o + 8 <= |b| && !Bad(b, o) then Here(b, o) + Entries(b, o + RecLen(b, o)) else []
  }

  lemma {:induction false} TiledIsSane(b: Content, o: nat)
    requires Tiled(b, o)
    ensures Sane(b, o) && !Broken(b, o)
    decreases |b| - o
  {
    if o != |b| { TiledIsSane(b, o + RecLen(b, o)); }
  }

  // ---------------------------------------------------------------- walking the chain

  /** Walking from o, a record starts at t. */
  ghost predicate Starts(b: Content, o: nat, t: nat)
    decreases |b| - o
  {
    o == t || (o < t && Holds(b, o) && Starts(b, o + RecLen(b, o), t))
  }

  ghost function EntriesTo(b: Content, o: nat, t: nat): seq<Entry>
    requires Starts(b, o, t)
    decreases |b| - o
  {
    if o == t then [] else Here(b, o) + EntriesTo(b, o + RecLen(b, o), t)
  }

  lemma {:induction false} StartsBefore(b: Content, o: nat, t: nat)
    requires Starts(b, o, t)
    ensures o <= t
    decreases |b| - o
  {
    if o != t { StartsBefore(b, o + RecLen(b, o), t); }
  }

  lemma {:induction false} SplitAt(b: Content, o: nat, t: nat)
    requires Starts(b, o, t) && Sane(b, t)
    ensures Sane(b, o) && Entries(b, o) == EntriesTo(b, o, t) + Entries(b, t)
    decreases |b| - o
  {
    hide Here, Used, RecLen;
    if o != t {
      SplitAt(b, o + RecLen(b, o), t);
      var n := o + RecLen(b, o);
      assert Here(b, o) + (EntriesTo(b, n, t) + Entries(b, t)) == Here(b, o) + EntriesTo(b, n, t) + Entries(b, t);
    }
  }

  lemma {:induction false} SplitTiling(b: Content, o: nat, t: nat)
    requires Starts(b, o, t) && t <= |b|
    ensures Broken(b, o) <==> Broken(b, t)
    ensures Tiled(b, o) <==> Tiled(b, t)
    decreases |b| - o
  {
    if o != t { SplitTiling(b, o + RecLen(b, o), t); }
  }

  lemma {:induction false} SaneAt(b: Content, o: nat, t: nat)
    requires Starts(b, o, t) && Sane(b, o)
    ensures Sane(b, t)
    decreases |b| - o
  {
    if o != t { SaneAt(b, o + RecLen(b, o), t); }
  }

  lemma {:induction false} OneMore(b: Content, o: nat, t: nat)
    requires Starts(b, o, t) && Holds(b, t)
    ensures Starts(b, o, t + RecLen(b, t)) && EntriesTo(b, o, t + RecLen(b, t)) == EntriesTo(b, o, t) + Here(b, t)
    decreases |b| - o
  {
    hide Here, Used, RecLen;
    if o != t {
      OneMore(b, o + RecLen(b, o), t);
      StartsBefore(b, o + RecLen(b, o), t);
    }
  }

  lemma SameHere(b: Content, b2: Content, o: nat, e: nat)
    requires |b2| == |b| && Holds(b, o) && o + RecLen(b, o) <= e <= |b| && b2[o..e] == b[o..e]
    ensures Holds(b2, o) && RecLen(b2, o) == RecLen(b, o) && Here(b2, o) == Here(b, o)
  {
    forall i | o <= i < e ensures b2[i] == b[i] { assert b2[i] == b2[o..e][i - o] && b[i] == b[o..e][i - o]; }
    SameRecord(b, b2, o);
  }

  /** The length aside, a record is its other header bytes and its name. */
  lemma SameRecord(b: Content, b2: Content, o: nat)
    requires |b2| == |b| && Holds(b, o) && Holds(b2, o)
    requires forall i :: (o <= i < o + 4 || o + 6 <= i < o + Used(b[o + 6])) ==> i < |b| && b2[i] == b[i]
    ensures Here(b2, o) == Here(b, o)
  {
    var n := b[o + 6];
    assert b2[o + 8..o + 8 + n] == b[o + 8..o + 8 + n];
  }

  lemma {:induction false} PrefixSame(b: Content, b2: Content, o: nat, t: nat)
    requires |b2| == |b| && Starts(b, o, t) && t <= |b| && b2[..t] == b[..t]
    ensures Starts(b2, o, t) && EntriesTo(b2, o, t) == EntriesTo(b, o, t)
    decreases |b| - o
  {
    if o != t {
      StartsBefore(b, o + RecLen(b, o), t);
      assert b2[o..t] == b2[..t][o..] && b[o..t] == b[..t][o..];
      SameHere(b, b2, o, t);
      PrefixSame(b, b2, o + RecLen(b, o), t);
    }
  }

  lemma {:induction false} SuffixSame(b: Content, b2: Content, o: nat)
    requires |b2| == |b| && o <= |b| && b2[o..] == b[o..] && Sane(b, o)
    ensures Sane(b2, o) && Entries(b2, o) == Entries(b, o)
    ensures Broken(b2, o) <==> Broken(b, o)
    ensures Tiled(b2, o) <==> Tiled(b, o)
    decreases |b| - o
  {
    hide Here, Used;
    if o + 8 <= |b| {
      forall i | o <= i < |b| ensures b2[i] == b[i] { assert b2[i] == b2[o..][i - o] && b[i] == b[o..][i - o]; }
      if !Bad(b, o) {
        assert b2[o..|b|] == b2[o..] && b[o..|b|] == b[o..];
        SameHere(b, b2, o, |b|);
        var n := o + RecLen(b, o);
        assert b2[n..] == b2[o..][n - o..] && b[n..] == b[o..][n - o..];
        SuffixSame(b, b2, n);
      }
    }
  }

  // ---------------------------------------------------------------- adding into the slack of the last record

  /** The record the walk of dir_add_entry ends on. */
  ghost predicate IsTail(b: Content, last: nat) {
    Starts(b, 0, last) && Holds(b, last) && last + RecLen(b, last) + 8 > |b|
  }

  /** A record written at o: a header and a name. */
  ghost predicate RecordAt(b: Content, o: nat, ino: nat, len: nat, kind: byte, name: Content) {
    && o + 8 + |name| <= |b| && len < 0x1_0000 && ino < WORD
    && b[o..o + 4] == Digits(ino) && b[o + 4..o + 6] == Le16(len)
    && b[o + 6] == |name| % 0x100 && b[o + 7] == kind && b[o + 8..o + 8 + |name|] == name
  }

  lemma RecordReads(b: Content, o: nat, ino: nat, len: nat, kind: byte, name: Content)
    requires RecordAt(b, o, ino, len, kind, name) && Used(|name|) <= len && o + len <= |b|
    ensures Holds(b, o) && RecLen(b, o) == len && Here(b, o) == Listed(ino, kind, name[..|name| % 0x100])
  {
    ReadBack32(b, o, ino);
    ReadBack16(b, o + 4, len);
    var n := |name| % 0x100;
    assert b[o + 8..o + 8 + n] == b[o + 8..o + 8 + |name|][..n];
  }

  lemma LastRecord(b: Content, o: nat)
    requires Holds(b, o) && o + RecLen(b, o) + 8 > |b|
    ensures Sane(b, o) && Entries(b, o) == Here(b, o) && (o + RecLen(b, o) == |b| ==> Tiled(b, o))
  {
  }

  /** Added to slack, the new entry comes last and the others stay as they were. */
  lemma AddKeeps(b: Content, b2: Content, last: nat, ino: nat, kind: byte, name: Content)
    requires Sane(b, 0) && IsTail(b, last) && |b| <= BLOCK && |b2| == |b|
    requires Extends(b, b2, last, ino, kind, name)
    ensures Tiled(b2, 0) && Sane(b2, 0) && Entries(b2, 0) == Entries(b, 0) + Listed(ino, kind, name[..|name| % 0x100])
  {
    hide Used, Sane, Tiled, Entries, EntriesTo, Here, Starts, RecordAt, RecLen, Le16, Listed;
    var u := Used(b[last + 6]);
    UsedBounds(b[last + 6]);
    UsedBounds(|name|);
    assert b2[..last] == b2[..last + 4][..last] && b[..last] == b[..last + 4][..last];
    PrefixSame(b, b2, 0, last);
    TailCut(b, b2, last, u);
    RecordReads(b2, last + u, ino, |b| - last - u, kind, name);
    LastRecord(b2, last + u);
    OneMore(b2, 0, last);
    SplitAt(b2, 0, last + u);
    SplitTiling(b2, 0, last + u);
    SaneAt(b, 0, last);
    SplitAt(b, 0, last);
    LastRecord(b, last);
  }

  /** What dir_add_entry writes: the last record cut to size, and a new one behind it up to the end. */
  ghost predicate Extends(b: Content, b2: Content, last: nat, ino: nat, kind: byte, name: Content)
    requires |b2| == |b| && last + 8 <= |b|
  {
    var u := Used(b[last + 6]);
    && last + u + Used(|name|) <= |b|
    && b2[..last + 4] == b[..last + 4] && b2[last + 4..last + 6] == Le16(u) && b2[last + 6..last + u] == b[last + 6..last + u]
    && RecordAt(b2, last + u, ino, |b| - last - u, kind, name)
  }

  lemma UsedBounds(n: nat)
    ensures 8 + n <= Used(n)
  {
  }

  /** A record takes a header, its name, and padding up to the next multiple of four. */
  lemma UsedLeast(n: nat)
    ensures 8 + n <= Used(n) < 8 + n + 4 && Used(n) % 4 == 0
  {
  }

  /** The last record cut down to what it uses reads the same. */
  lemma TailCut(b: Content, b2: Content, last: nat, u: nat)
    requires Holds(b, last) && |b2| == |b| <= BLOCK && u == Used(b[last + 6]) && last + u + 8 <= |b|
    requires b2[..last + 4] == b[..last + 4] && b2[last + 4..last + 6] == Le16(u) && b2[last + 6..last + u] == b[last + 6..last + u]
    ensures Holds(b2, last) && RecLen(b2, last) == u && Here(b2, last) == Here(b, last)
  {
    ReadBack16(b2, last + 4, u);
    forall i | last <= i < last + 4 ensures b2[i] == b[i] { assert b2[i] == b2[..last + 4][i] && b[i] == b[..last + 4][i]; }
    forall i | last + 6 <= i < last + u ensures b2[i] == b[i] {
      assert b2[i] == b2[last + 6..last + u][i - last - 6] && b[i] == b[last + 6..last + u][i - last - 6];
    }
    SameRecord(b, b2, last);
  }

  // ---------------------------------------------------------------- removing by widening the record before

  ghost predicate Precedes(b: Content, prev: nat, off: nat) {
    if off == 0 then prev == 0
    else prev < off && Starts(b, 0, prev) && Holds(b, prev) && prev + RecLen(b, prev) == off
  }

  function Removed(b: Content, prev: nat, off: nat): (r: Content)
    requires prev + 8 <= |b| && off + 8 <= |b|
    ensures |r| == |b|
  {
    Patch(b, prev + 4, Le16(RecLen(b, prev) + RecLen(b, off)))
  }

  /** What should be left: everything before the record, everything after it. */
  ghost function Without(b: Content, off: nat): seq<Entry>
    requires Sane(b, 0) && Starts(b, 0, off) && Holds(b, off)
  {
    SaneAt(b, 0, off);
    EntriesTo(b, 0, off) + Entries(b, off + RecLen(b, off))
  }

  lemma WithoutOne(b: Content, off: nat)
    requires Sane(b, 0) && Starts(b, 0, off) && Holds(b, off)
    ensures Sane(b, off + RecLen(b, off))
    ensures Entries(b, 0) == EntriesTo(b, 0, off) + Here(b, off) + Entries(b, off + RecLen(b, off))
  {
    SaneAt(b, 0, off);
    SplitAt(b, 0, off);
  }

  /** A record with another in front of it goes, alone. */
  lemma RemoveExact(b: Content, prev: nat, off: nat)
    requires Sane(b, 0) && |b| <= BLOCK && Starts(b, 0, off) && Holds(b, off) && 0 < off && Precedes(b, prev, off)
    ensures Sane(Removed(b, prev, off), 0) && Entries(Removed(b, prev, off), 0) == Without(b, off)
    ensures Tiled(Removed(b, prev, off), 0) <==> Tiled(b, 0)
    ensures Broken(Removed(b, prev, off), 0) <==> Broken(b, 0)
  {
    hide Starts, Sane, Tiled, Broken, Entries, EntriesTo, Here;
    var b2, n := Removed(b, prev, off), off + RecLen(b, off);
    WithoutOne(b, off);
    Widened(b, b2, prev, off);
    PrefixSame(b, b2, 0, prev);
    SuffixSame(b, b2, n);
    OneMore(b2, 0, prev);
    OneMore(b, 0, prev);
    OneMore(b, 0, off);
    SplitAt(b2, 0, n);
    SplitTiling(b2, 0, n);
    SplitTiling(b, 0, n);
  }

  lemma Widened(b: Content, b2: Content, prev: nat, off: nat)
    requires |b| <= BLOCK && Holds(b, prev) && prev + RecLen(b, prev) == off && Holds(b, off) && b2 == Removed(b, prev, off)
    ensures Holds(b2, prev) && prev + RecLen(b2, prev) == off + RecLen(b, off) && Here(b2, prev) == Here(b, prev)
    ensures b2[..prev] == b[..prev] && b2[off + RecLen(b, off)..] == b[off + RecLen(b, off)..]
  {
    var len := RecLen(b, prev) + RecLen(b, off);
    assert b2[prev + 4..prev + 6] == Le16(len);
    ReadBack16(b2, prev + 4, len);
    SameRecord(b, b2, prev);
  }

  ghost predicate Names(s: seq<Entry>, ino: nat) { exists i :: 0 <= i < |s| && s[i].ino == ino }

  /** The entry an inode has in a block is removed, and it alone, exactly when it is not the block's first record. */
  lemma RemoveIff(b: Content, prev: nat, off: nat, ino: nat)
    requires Sane(b, 0) && Tiled(b, 0) && |b| == BLOCK && Starts(b, 0, off) && Holds(b, off) && Precedes(b, prev, off)
    requires Here(b, off) != [] && Word(b, off) == ino && !Names(Without(b, off), ino)
    ensures var b2 := Removed(b, prev, off);
            (Tiled(b2, 0) && Sane(b2, 0) && Entries(b2, 0) == Without(b, off)) <==> 0 < off
  {
    if 0 < off {
      RemoveExact(b, prev, off);
    } else {
      Doubled(b);
      FirstStays(b, ino);
    }
  }

  lemma Doubled(b: Content)
    requires |b| == BLOCK && Holds(b, 0)
    ensures U16(Removed(b, 0, 0), 4) == 2 * RecLen(b, 0)
    ensures forall i :: 0 <= i < BLOCK && (i < 4 || 6 <= i) ==> Removed(b, 0, 0)[i] == b[i]
  {
    var b2, len := Removed(b, 0, 0), RecLen(b, 0) + RecLen(b, 0);
    assert b2[4..6] == Le16(len);
    ReadBack16(b2, 4, len);
  }

  /** The first record of a block swallows its neighbour instead of going away. */
  lemma FirstStays(b: Content, ino: nat)
    requires Sane(b, 0) && |b| == BLOCK && Holds(b, 0) && Here(b, 0) != [] && Word(b, 0) == ino && !Names(Without(b, 0), ino)
    requires U16(Removed(b, 0, 0), 4) == 2 * RecLen(b, 0)
    requires forall i :: 0 <= i < BLOCK && (i < 4 || 6 <= i) ==> Removed(b, 0, 0)[i] == b[i]
    ensures var b2 := Removed(b, 0, 0);
            if 2 * RecLen(b, 0) > BLOCK then Broken(b2, 0) && !Tiled(b2, 0)
            else Sane(b2, 0) ==> Names(Entries(b2, 0), ino) && Entries(b2, 0) != Without(b, 0)
  {
    var b2 := Removed(b, 0, 0);
    hide Used, Word, U16;
    if 2 * RecLen(b, 0) <= BLOCK && Sane(b2, 0) {
      SameRecord(b, b2, 0);
      assert Entries(b2, 0)[0].ino == ino;
    }
  }

  // ---------------------------------------------------------------- a block a directory grows by

  /** One entry, alone in its block. */
  function Grown(ino: nat, kind: byte, name: Content): (b: Content)
    requires 8 + |name| <= BLOCK && ino < WORD
    ensures |b| == BLOCK
  {
    Digits(ino) + Le16(BLOCK) + [|name| % 0x100, kind] + name + seq(BLOCK - 8 - |name|, _ => 0)
  }

  lemma GrownLists(ino: nat, kind: byte, name: Content)
    requires Used(|name|) <= BLOCK && ino < WORD
    ensures var b := Grown(ino, kind, name);
            && Tiled(b, 0) && Sane(b, 0) && Entries(b, 0) == Listed(ino, kind, name[..|name| % 0x100])
            && Holds(b, 0) && RecLen(b, 0) == BLOCK && Word(b, 0) == ino
  {
    var b := Grown(ino, kind, name);
    assert RecordAt(b, 0, ino, BLOCK, kind, name);
    RecordReads(b, 0, ino, BLOCK, kind, name);
    ReadBack32(b, 0, ino);
    assert Tiled(b, BLOCK) && Entries(b, BLOCK) == [];
  }

  /** Growing a directory by an entry and removing that entry leaves a block no walk gets over. */
  lemma GrownThenRemoved(ino: nat, kind: byte, name: Content)
    requires Used(|name|) <= BLOCK && ino < WORD
    ensures var b := Grown(ino, kind, name);
            Holds(b, 0) && Precedes(b, 0, 0) && Broken(Removed(b, 0, 0), 0)
  {
    GrownLists(ino, kind, name);
    Doubled(Grown(ino, kind, name));
  }
}
