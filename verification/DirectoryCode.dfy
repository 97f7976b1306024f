/** dir_add_entry, list_dir and the entry part of rm, on the scratch block they edit. */
module DirectoryCode {
  import opened Basics
  import opened Words
  import opened Files
  import opened Directories

  // ---------------------------------------------------------------- all blocks of a directory

  ghost predicate AllSane(bs: seq<Content>) {
    forall k :: 0 <= k < |bs| ==> |bs[k]| == BLOCK && Sane(bs[k], 0)
  }

  ghost function AllEntries(bs: seq<Content>): seq<Entry>
    requires AllSane(bs)
  {
    if bs == [] then [] else AllEntries(bs[..|bs| - 1]) + Entries(bs[|bs| - 1], 0)
  }

  lemma {:induction false} AllOfBoth(a: seq<Content>, b: seq<Content>)
    requires AllSane(a) && AllSane(b)
    ensures AllSane(a + b) && AllEntries(a + b) == AllEntries(a) + AllEntries(b)
  {
    hide Sane, Entries;
    if b == [] {
      assert a + b == a;
    } else {
      var front, e := b[..|b| - 1], Entries(b[|b| - 1], 0);
      AllOfBoth(a, front);
      assert (a + b)[..|a + b| - 1] == a + front;
      assert AllEntries(a) + AllEntries(front) + e == AllEntries(a) + (AllEntries(front) + e);
    }
  }

  /** What a directory lists, seen from one of its blocks. */
  lemma AllAround(bs: seq<Content>, k: nat, blk: Content)
    requires AllSane(bs) && k < |bs| && |blk| == BLOCK && Sane(blk, 0)
    ensures AllSane(bs[k := blk]) && AllSane(bs[..k]) && AllSane(bs[k + 1..])
    ensures AllEntries(bs) == AllEntries(bs[..k]) + Entries(bs[k], 0) + AllEntries(bs[k + 1..])
    ensures AllEntries(bs[k := blk]) == AllEntries(bs[..k]) + Entries(blk, 0) + AllEntries(bs[k + 1..])
  {
    hide Sane, Entries;
    AllOfBoth(bs[..k] + [bs[k]], bs[k + 1..]);
    AllOfBoth(bs[..k], [bs[k]]);
    AllOfBoth(bs[..k] + [blk], bs[k + 1..]);
    AllOfBoth(bs[..k], [blk]);
    assert bs == bs[..k] + [bs[k]] + bs[k + 1..];
    assert bs[k := blk] == bs[..k] + [blk] + bs[k + 1..];
    assert AllEntries([]) == [];
    AllOfOne(bs[k]);
    AllOfOne(blk);
  }

  /** `b` is `a` with `mid` put in somewhere. */
  ghost predicate Inserted(a: seq<Entry>, b: seq<Entry>, mid: seq<Entry>) {
    exists i :: 0 <= i <= |a| && b == a[..i] + mid + a[i..]
  }

  lemma InsertedAt(a: seq<Entry>, b: seq<Entry>, pre: seq<Entry>, mid: seq<Entry>, post: seq<Entry>)
    requires a == pre + post && b == pre + mid + post
    ensures Inserted(a, b, mid)
  {
    assert a[..|pre|] == pre && a[|pre|..] == post;
  }

  // ---------------------------------------------------------------- where there is room

  ghost predicate RoomIn(b: Content, need: nat) {
    exists last: nat :: IsTail(b, last) && last + Used(b[last + 6]) + need <= |b|
  }

  lemma {:induction false} TailOnce(b: Content, o: nat, t: nat, t2: nat)
    requires Starts(b, o, t) && Holds(b, t) && t + RecLen(b, t) + 8 > |b|
    requires Starts(b, o, t2) && Holds(b, t2) && t2 + RecLen(b, t2) + 8 > |b|
    ensures t == t2
    decreases |b| - o
  {
    if o == t {
      if o != t2 { StartsBefore(b, o + RecLen(b, o), t2); }
    } else {
      StartsBefore(b, o + RecLen(b, o), t);
      if o != t2 { TailOnce(b, o + RecLen(b, o), t, t2); }
    }
  }

  lemma NoRoom(b: Content, last: nat, need: nat)
    requires IsTail(b, last) && last + Used(b[last + 6]) + need > |b|
    ensures !RoomIn(b, need)
  {
    forall t: nat | IsTail(b, t) ensures t == last { TailOnce(b, 0, t, last); }
  }

  /** Why an entry was not added. */
  ghost predicate Refused(bs: seq<Content>, need: nat) {
    || need > BLOCK
    || (exists k :: 0 <= k < |bs| && Broken(bs[k], 0) && forall j :: 0 <= j < k ==> !RoomIn(bs[j], need))
    || (forall j :: 0 <= j < |bs| ==> !RoomIn(bs[j], need))
  }

  lemma SaneBlock(bs: seq<Content>, k: nat)
    requires AllSane(bs) && k < |bs|
    ensures |bs[k]| == BLOCK && Sane(bs[k], 0)
  {
  }

  /** Into the slack of block k: the directory lists what it did, and the new entry. */
  lemma EntryAdded(bs: seq<Content>, k: nat, b2: Content, last: nat, ino: nat, kind: byte, name: Content)
    requires AllSane(bs) && k < |bs| && |b2| == BLOCK && IsTail(bs[k], last)
    requires |bs[k]| == BLOCK && last + 8 <= BLOCK && Extends(bs[k], b2, last, ino, kind, name)
    ensures AllSane(bs[k := b2])
    ensures Inserted(AllEntries(bs), AllEntries(bs[k := b2]), Listed(ino, kind, name[..|name| % 0x100]))
  {
    hide Sane, Entries, AllEntries, AllSane, Extends, IsTail, Listed, Inserted, Tiled;
    var e, b := Listed(ino, kind, name[..|name| % 0x100]), bs[k];
    SaneBlock(bs, k);
    AddKeeps(b, b2, last, ino, kind, name);
    AllAround(bs, k, b2);
    var pre, post := AllEntries(bs[..k]), AllEntries(bs[k + 1..]);
    assert pre + (Entries(b, 0) + e) + post == pre + Entries(b, 0) + e + post;
    InsertedAt(AllEntries(bs), AllEntries(bs[k := b2]), pre + Entries(b, 0), e, post);
  }

  /** Into a block of its own. */
  lemma EntryGrown(bs: seq<Content>, ino: nat, kind: byte, name: Content)
    requires AllSane(bs) && Used(|name|) <= BLOCK && ino < WORD
    ensures AllSane(bs + [Grown(ino, kind, name)])
    ensures Inserted(AllEntries(bs), AllEntries(bs + [Grown(ino, kind, name)]), Listed(ino, kind, name[..|name| % 0x100]))
  {
    hide Sane, Entries, AllEntries, Listed;
    var b := Grown(ino, kind, name);
    GrownLists(ino, kind, name);
    AllOfOne(b);
    AllOfBoth(bs, [b]);
    assert AllEntries(bs) + [] == AllEntries(bs);
    InsertedAt(AllEntries(bs), AllEntries(bs + [b]), AllEntries(bs), Entries(b, 0), []);
  }

  // ---------------------------------------------------------------- looking for an inode

  /** No record before t names the inode. */
  ghost predicate Misses(b: Content, o: nat, t: nat, ino: nat) {
    forall x: nat :: o <= x < t && x + 4 <= |b| && Starts(b, o, x) ==> Word(b, x) != ino
  }

  /** No record of the first n blocks names the inode. */
  ghost predicate NoneNames(bs: seq<Content>, n: nat, ino: nat)
    requires n <= |bs|
  {
    forall j :: 0 <= j < n ==> Misses(bs[j], 0, BLOCK - 7, ino)
  }

  /** A walk of the block comes to a record that names the inode. */
  ghost predicate Named(b: Content, ino: nat) { exists off: nat :: off + 8 <= |b| && Starts(b, 0, off) && Holds(b, off) && Word(b, off) == ino }

  /** A walk of the directory does, before it comes to a broken block. */
  ghost predicate Reached(bs: seq<Content>, ino: nat) {
    exists k: nat :: k < |bs| && Named(bs[k], ino) && forall j :: 0 <= j < k ==> !Broken(bs[j], 0)
  }

  lemma NamedAt(b: Content, off: nat, ino: nat)
    requires off + 8 <= |b| && Starts(b, 0, off) && Holds(b, off) && Word(b, off) == ino
    ensures Named(b, ino)
  {
  }

  lemma {:induction false} NoneBeyond(b: Content, o: nat, t: nat, x: nat)
    requires Starts(b, o, t) && !Holds(b, t) && Starts(b, o, x)
    ensures x <= t
    decreases |b| - o
  {
    if o == t {
    } else {
      StartsBefore(b, o, t);
      if x != o { NoneBeyond(b, o + RecLen(b, o), t, x); }
    }
  }

  /** The walk has come to its end, and has seen no record that names the inode. */
  lemma NotNamed(b: Content, t: nat, ino: nat)
    requires Starts(b, 0, t) && !Holds(b, t) && Misses(b, 0, t, ino)
    ensures !Named(b, ino)
  {
    forall off: nat | off + 8 <= |b| && Starts(b, 0, off) && Holds(b, off) ensures Word(b, off) != ino { NoneBeyond(b, 0, t, off); }
  }

  // ---- where an entry goes

  /** Some block has room, and the walk gets there. */
  ghost predicate Placed(bs: seq<Content>, need: nat) {
    exists k: nat :: k < |bs| && RoomIn(bs[k], need) && forall j :: 0 <= j <= k ==> !Broken(bs[j], 0)
  }

  /** The walk gets through, and no block has room. */
  ghost predicate Full(bs: seq<Content>, need: nat) { forall k :: 0 <= k < |bs| ==> !RoomIn(bs[k], need) && !Broken(bs[k], 0) }

  ghost predicate AnyBroken(bs: seq<Content>) {
    exists j :: 0 <= j < |bs| && Broken(bs[j], 0)
  }

  lemma FewerMissed(b: Content, t: nat, ino: nat)
    requires Misses(b, 0, t, ino) && t + 8 > BLOCK
    ensures Misses(b, 0, BLOCK - 7, ino)
  {
  }

  /** The record rm picks in a block. */
  ghost predicate Picked(b: Content, prev: nat, off: nat, ino: nat) {
    Starts(b, 0, off) && Holds(b, off) && Word(b, off) == ino && Misses(b, 0, off, ino) && Precedes(b, prev, off)
  }

  lemma StartsAfter(b: Content, o: nat, x: nat)
    requires Starts(b, o, x) && Holds(b, o)
    ensures x == o || o + RecLen(b, o) <= x
  {
    if x != o { StartsBefore(b, o + RecLen(b, o), x); }
  }

  lemma {:induction false} NextStart(b: Content, o: nat, t: nat, x: nat)
    requires Starts(b, o, t) && Holds(b, t) && Starts(b, o, x) && x < t + RecLen(b, t)
    ensures x <= t
    decreases |b| - o
  {
    StartsAfter(b, o, x);
    StartsBefore(b, o, t);
    if o != t && o != x { NextStart(b, o + RecLen(b, o), t, x); }
  }

  lemma MissesMore(b: Content, t: nat, ino: nat)
    requires Starts(b, 0, t) && Holds(b, t) && Misses(b, 0, t, ino) && Word(b, t) != ino
    ensures Misses(b, 0, t + RecLen(b, t), ino)
  {
    forall x: nat | 0 <= x < t + RecLen(b, t) && x + 4 <= |b| && Starts(b, 0, x) ensures Word(b, x) != ino { NextStart(b, 0, t, x); }
  }

  /** What a callback sees that ends the listing at its `stop`-th entry, with `before` of them gone by. */
  function Upto(all: seq<Entry>, before: nat, stop: Option<nat>): (r: seq<Entry>)
    requires stop.Some? ==> before <= stop.value
    ensures |r| <= |all|
  {
    if stop.Some? && stop.value - before < |all| then all[..stop.value - before] else all
  }

  /** The scratch block g_b2. */
  class Scratch {
    const buf: array<byte>

    constructor ()
      ensures fresh(buf) && buf.Length == BLOCK
    {
      buf := new byte[BLOCK](_ => 0);
    }

    /** memcpy, and the little-endian stores, into the scratch block. */
    method Poke(o: nat, d: Content)
      requires o + |d| <= buf.Length
      modifies buf
      ensures buf[..] == Patch(old(buf[..]), o, d)
    {
      hide Patch;
      PatchNothing(buf[..], o);
      for i := 0 to |d|
        invariant buf[..] == Patch(old(buf[..]), o, d[..i])
      {
        PatchGrows(old(buf[..]), o, d, i);
        ghost var was := buf[..];
        buf[o + i] := d[i];
        assert buf[..] == was[o + i := d[i]];
      }
      assert d[..|d|] == d;
    }

    /** read_block */
    method Load(blk: Content)
      requires |blk| == buf.Length
      modifies buf
      ensures buf[..] == blk
    {
      for i := 0 to buf.Length
        invariant buf[..i] == blk[..i]
      {
        buf[i] := blk[i];
      }
    }

    /** The walk of dir_add_entry to the last record. */
    method FindTail() returns (bad: bool, last: nat, used: nat)
      requires buf.Length == BLOCK && Sane(buf[..], 0)
      ensures bad <==> Broken(buf[..], 0)
      ensures !bad ==> IsTail(buf[..], last) && used == Used(buf[last + 6])
    {
      hide Here, Starts, Broken, Sane, Used, U16, EntriesTo;
      ghost var b := buf[..];
      var off := 0;
      last, used := 0, 0;
      assert Starts(b, 0, 0) by { StartsHere(b, 0); }
      while off + 8 <= BLOCK
        invariant Starts(b, 0, off) && (Broken(b, 0) <==> Broken(b, off)) && Sane(b, off)
        invariant off > 0 ==> Starts(b, 0, last) && Holds(b, last) && last + RecLen(b, last) == off && used == Used(b[last + 6])
        decreases BLOCK - off
      {
        var rc := RecLen(buf[..], off);
        WalkStep(b, off);
        if rc < 8 || off + rc > BLOCK { return true, 0, 0; }
        OneMore(b, 0, off);
        used := Used(buf[off + 6]);
        last := off;
        off := off + rc;
      }
      WalkEnd(b, off);
      return false, last, used;
    }

    /** The stores that close the last record and open the new one. */
    method WriteRecord(last: nat, used: nat, ino: nat, kind: byte, name: Content)
      requires buf.Length == BLOCK && last + 8 <= BLOCK && used == Used(buf[last + 6]) && ino < WORD
      requires last + used + Used(|name|) <= BLOCK
      modifies buf
      ensures Extends(old(buf[..]), buf[..], last, ino, kind, name)
    {
      hide Used, Le16, Digits, Patch, RecordAt;
      UsedBounds(buf[last + 6]);
      UsedBounds(|name|);
      var at := last + used;
      ghost var b0 := buf[..];
      Poke(last + 4, Le16(used));
      ghost var b1 := buf[..];
      Poke(at, Digits(ino));
      Poke(at + 4, Le16(BLOCK - at));
      PatchAdjoins(b1, at, Digits(ino), Le16(BLOCK - at));
      Poke(at + 6, [|name| % 0x100]);
      PatchAdjoins(b1, at, Digits(ino) + Le16(BLOCK - at), [|name| % 0x100]);
      Poke(at + 7, [kind]);
      PatchAdjoins(b1, at, Digits(ino) + Le16(BLOCK - at) + [|name| % 0x100], [kind]);
      Poke(at + 8, name);
      PatchAdjoins(b1, at, Digits(ino) + Le16(BLOCK - at) + [|name| % 0x100] + [kind], name);
      RecordWritten(b1, buf[..], at, ino, BLOCK - at, kind, name);
      TailClosed(b0, b1, buf[..], last, used);
    }

    /** The walk of list_dir over one block, with `before` entries called back so far. */
    method ListBlock(before: nat, stop: Option<nat>) returns (out: seq<Entry>, stopped: bool)
      requires buf.Length == BLOCK && Sane(buf[..], 0) && (stop.Some? ==> before < stop.value)
      ensures out == Upto(Entries(buf[..], 0), before, stop)
      ensures stopped <==> stop.Some? && before + |out| == stop.value
    {
      hide Sane, Entries, Here, Used, U16, Word;
      ghost var b := buf[..];
      ghost var all := Entries(b, 0);
      out := [];
      var off := 0;
      while off + 8 <= BLOCK
        invariant Sane(b, off) && out + Entries(b, off) == all && (stop.Some? ==> before + |out| < stop.value)
        decreases BLOCK - off
      {
        var rc := RecLen(buf[..], off);
        ListStep(b, off);
        if rc < 8 || off + rc > BLOCK { break; }
        var ino, nlen := Word(buf[..], off), buf[off + 6];
        UsedBounds(nlen);
        if ino != 0 && nlen > 0 {
          out := out + [Entry(ino, buf[off + 7], buf[off + 8..off + 8 + nlen])];
          if stop.Some? && before + |out| == stop.value {
            assert all[..|out|] == out;
            return out, true;
          }
        }
        off := off + rc;
      }
      ListEnd(b, off);
      return out, false;
    }

    /** The walk of rm over one block, with the record before the current one at hand. */
    method FindIno(ino: nat) returns (bad: bool, found: bool, at: nat, before: nat)
      requires buf.Length == BLOCK && Sane(buf[..], 0)
      ensures bad ==> Broken(buf[..], 0)
      ensures !bad && found ==> Picked(buf[..], before, at, ino)
      ensures !bad && !found ==> Misses(buf[..], 0, BLOCK - 7, ino) && !Broken(buf[..], 0)
      ensures !bad && found <==> Named(buf[..], ino)
    {
      hide Named, Sane, Starts, Broken, Misses, U16, Word, Used, Here, EntriesTo;
      ghost var b := buf[..];
      at, before := 0, 0;
      StartsHere(b, ino);
      while at + 8 <= BLOCK
        invariant Starts(b, 0, at) && Sane(b, at) && (Broken(b, 0) <==> Broken(b, at))
        invariant Misses(b, 0, at, ino) && Precedes(b, before, at)
        decreases BLOCK - at
      {
        var rc := RecLen(buf[..], at);
        WalkStep(b, at);
        if rc < 8 || at + rc > BLOCK {
          NotNamed(b, at, ino);
          return true, false, at, before;
        }
        if Word(buf[..], at) == ino {
          NamedAt(b, at, ino);
          return false, true, at, before;
        }
        OneMore(b, 0, at);
        MissesMore(b, at, ino);
        before := at;
        at := at + rc;
      }
      FewerMissed(b, at, ino);
      WalkEnd(b, at);
      NotNamed(b, at, ino);
      return false, false, at, before;
    }
  }

  // ---------------------------------------------------------------- the stores

  lemma PatchNothing(b: Content, o: nat)
    requires o <= |b|
    ensures Patch(b, o, []) == b
  {
  }

  lemma PatchGrows(b: Content, o: nat, d: Content, i: nat)
    requires o + |d| <= |b| && i < |d|
    ensures Patch(b, o, d[..i])[o + i := d[i]] == Patch(b, o, d[..i + 1])
  {
  }

  lemma PatchAdjoins(b: Content, o: nat, d: Content, e: Content)
    requires o + |d| + |e| <= |b|
    ensures Patch(Patch(b, o, d), o + |d|, e) == Patch(b, o, d + e)
  {
  }

  lemma RecordWritten(b: Content, b2: Content, at: nat, ino: nat, len: nat, kind: byte, name: Content)
    requires at + 8 + |name| <= |b| && len < 0x1_0000 && ino < WORD
    requires b2 == Patch(b, at, Digits(ino) + Le16(len) + [|name| % 0x100] + [kind] + name)
    ensures RecordAt(b2, at, ino, len, kind, name) && b2[..at] == b[..at]
  {
    hide Le16, Digits;
  }

  lemma TailClosed(b: Content, b1: Content, b2: Content, last: nat, used: nat)
    requires last + 8 <= last + used <= |b| && |b2| == |b| && b1 == Patch(b, last + 4, Le16(used)) && b2[..last + used] == b1[..last + used]
    ensures b2[..last + 4] == b[..last + 4] && b2[last + 4..last + 6] == Le16(used)
    ensures b2[last + 6..last + used] == b[last + 6..last + used]
  {
    hide Le16;
    forall i | 0 <= i < last + used ensures b2[i] == b1[i] { assert b2[i] == b2[..last + used][i] && b1[i] == b1[..last + used][i]; }
  }

  // ---------------------------------------------------------------- steps of the walks

  lemma StartsHere(b: Content, ino: nat)
    ensures Starts(b, 0, 0) && Misses(b, 0, 0, ino)
  {
  }

  lemma WalkStep(b: Content, o: nat)
    requires Sane(b, o) && o + 8 <= |b|
    ensures Bad(b, o) ==> Broken(b, o)
    ensures !Bad(b, o) ==> Holds(b, o) && Sane(b, o + RecLen(b, o)) && (Broken(b, o) <==> Broken(b, o + RecLen(b, o)))
  {
  }

  lemma WalkEnd(b: Content, o: nat)
    requires o + 8 > |b|
    ensures !Broken(b, o)
  {
  }

  lemma TailFacts(b: Content, last: nat)
    requires IsTail(b, last)
    ensures Holds(b, last)
  {
  }

  lemma ListStep(b: Content, o: nat)
    requires Sane(b, o) && o + 8 <= |b|
    ensures Bad(b, o) ==> Entries(b, o) == []
    ensures !Bad(b, o) ==> Holds(b, o) && Sane(b, o + RecLen(b, o)) && Entries(b, o) == Here(b, o) + Entries(b, o + RecLen(b, o))
    ensures !Bad(b, o) ==> Here(b, o) == Listed(Word(b, o), b[o + 7], b[o + 8..o + 8 + b[o + 6]])
  {
  }

  lemma ListEnd(b: Content, o: nat)
    requires Sane(b, o)
    ensures o + 8 > |b| ==> Entries(b, o) == []
  {
  }

  lemma AllOfOne(blk: Content)
    requires |blk| == BLOCK && Sane(blk, 0)
    ensures AllSane([blk]) && AllEntries([blk]) == Entries(blk, 0)
  {
    var one := [blk];
    assert one[..0] == [];
  }

  /** rm took the first record that names the inode; with another in front of it, it took nothing else. */
  ghost predicate TakenOut(bs: seq<Content>, bs2: seq<Content>, k: nat, prev: nat, off: nat, ino: nat)
    requires AllSane(bs)
  {
    && k < |bs| && NoneNames(bs, k, ino) && Picked(bs[k], prev, off, ino) && bs2 == bs[k := Removed(bs[k], prev, off)]
    && (0 < off ==> AllSane(bs2) && Inserted(AllEntries(bs2), AllEntries(bs), Here(bs[k], off)))
  }

  lemma RemoveSpares(bs: seq<Content>, k: nat, prev: nat, off: nat, ino: nat)
    requires AllSane(bs) && k < |bs| && NoneNames(bs, k, ino) && Picked(bs[k], prev, off, ino)
    ensures TakenOut(bs, bs[k := Removed(bs[k], prev, off)], k, prev, off, ino)
  {
    if 0 < off { RemovesOne(bs, k, prev, off); }
  }

  /** Of all the directory lists, removing takes the one entry out. */
  lemma RemovesOne(bs: seq<Content>, k: nat, prev: nat, off: nat)
    requires AllSane(bs) && k < |bs| && 0 < off && Starts(bs[k], 0, off) && Holds(bs[k], off) && Precedes(bs[k], prev, off)
    ensures var bs2 := bs[k := Removed(bs[k], prev, off)];
            AllSane(bs2) && Inserted(AllEntries(bs2), AllEntries(bs), Here(bs[k], off))
  {
    hide Sane, Entries, EntriesTo, Here, Starts, Broken, Tiled, AllEntries;
    var b := bs[k];
    var b2 := Removed(b, prev, off);
    RemoveExact(b, prev, off);
    WithoutOne(b, off);
    AllAround(bs, k, b2);
    var pre, post := AllEntries(bs[..k]), AllEntries(bs[k + 1..]);
    var l, e, r := EntriesTo(b, 0, off), Here(b, off), Entries(b, off + RecLen(b, off));
    assert pre + (l + r) + post == (pre + l) + (r + post);
    assert pre + (l + e + r) + post == (pre + l) + e + (r + post);
    InsertedAt(AllEntries(bs[k := b2]), AllEntries(bs), pre + l, e, r + post);
  }
}
