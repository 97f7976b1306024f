/** Directories on the volume: entries come and go, and every other file stays as it is. */
module Namespace {
  import opened Basics
  import opened Words
  import opened Bitmap
  import opened Files
  import opened Volumes
  import opened Directories
  import opened DirectoryCode

  // ---------------------------------------------------------------- a directory's bytes, block by block

  function Chunks(c: Content): (bs: seq<Content>)
    requires |c| % BLOCK == 0
    ensures |bs| == |c| / BLOCK && forall k :: 0 <= k < |bs| ==> |bs[k]| == BLOCK && bs[k] == c[k * BLOCK..k * BLOCK + BLOCK]
  {
    seq(|c| / BLOCK, k requires 0 <= k < |c| / BLOCK => c[k * BLOCK..k * BLOCK + BLOCK])
  }

  lemma ChunksAppend(c: Content, blk: Content)
    requires |c| % BLOCK == 0 && |blk| == BLOCK
    ensures |c + blk| % BLOCK == 0 && Chunks(c + blk) == Chunks(c) + [blk]
  {
    var a, b := Chunks(c + blk), Chunks(c) + [blk];
    forall k | 0 <= k < |b| ensures a[k] == b[k] {
      assert a[k] == (c + blk)[k * BLOCK..k * BLOCK + BLOCK];
      if k == |c| / BLOCK { assert k * BLOCK == |c|; }
    }
  }

  lemma ChunksSplice(c: Content, l: nat, blk: Content)
    requires |c| % BLOCK == 0 && l < |c| / BLOCK && |blk| == BLOCK
    ensures var d := Splice(c, l * BLOCK, blk); |d| == |c| && Chunks(d) == Chunks(c)[l := blk]
  {
    var d := Splice(c, l * BLOCK, blk);
    var a, b := Chunks(d), Chunks(c)[l := blk];
    forall k | 0 <= k < |b| ensures a[k] == b[k] { ChunkOfSplice(c, l, blk, k); }
  }

  lemma ChunkOfSplice(c: Content, l: nat, blk: Content, k: nat)
    requires |c| % BLOCK == 0 && l < |c| / BLOCK && k < |c| / BLOCK && |blk| == BLOCK
    ensures var d := Splice(c, l * BLOCK, blk);
            |d| == |c| && d[k * BLOCK..k * BLOCK + BLOCK] == if k == l then blk else c[k * BLOCK..k * BLOCK + BLOCK]
  {
    var d := Splice(c, l * BLOCK, blk);
    assert d == c[..l * BLOCK] + blk + c[l * BLOCK + BLOCK..] by {
      if l * BLOCK + BLOCK == |c| { assert c[l * BLOCK + BLOCK..] == []; }
    }
  }

  ghost predicate IsDir(v: Vol, d: nat) { Inv(v) && d in v.inodes && !v.inodes[d].file }

  lemma WholeBlocks(v: Vol, d: nat)
    requires IsDir(v, d)
    ensures |ContentOf(v, d)| % BLOCK == 0
  {
    InodeIsOk(v, d);
  }

  ghost function BlocksAt(v: Vol, d: nat): (bs: seq<Content>)
    requires IsDir(v, d)
    ensures |bs| == v.inodes[d].size / BLOCK && forall k :: 0 <= k < |bs| ==> |bs[k]| == BLOCK
  {
    WholeBlocks(v, d);
    Chunks(ContentOf(v, d))
  }

  /** A directory every walk can read. */
  ghost predicate Listable(v: Vol, d: nat) { IsDir(v, d) && AllSane(BlocksAt(v, d)) }

  ghost function Listing(v: Vol, d: nat): seq<Entry>
    requires Listable(v, d)
  {
    AllEntries(BlocksAt(v, d))
  }

  /** A block of a directory is where the extents say. */
  lemma BlockOnDisk(v: Vol, d: nat, k: nat)
    requires IsDir(v, d) && k < v.inodes[d].size / BLOCK
    ensures var p := Map(v.inodes[d].ext, k);
            p.Some? && p.value < |v.disk| && v.disk[p.value] == BlocksAt(v, d)[k]
  {
    hide Inv, Map;
    var x := k * BLOCK;
    ReadStep(v, d, x, BLOCK);
    assert x / BLOCK == k && x % BLOCK == 0;
    var p := Map(v.inodes[d].ext, k);
    assert v.disk[p.value][0..0 + BLOCK] == v.disk[p.value];
  }

  lemma SameDirectory(v: Vol, v2: Vol, d: nat)
    requires IsDir(v, d) && Inv(v2) && OthersKept(v, v2, -1)
    ensures IsDir(v2, d) && BlocksAt(v2, d) == BlocksAt(v, d)
  {
    KeptOne(v, v2, d);
  }

  /** Everybody but two has the bytes it had. */
  ghost predicate KeptBesides(v: Vol, v2: Vol, a: nat, b: nat)
    requires Inv(v) && Inv(v2)
  {
    forall i :: i in v.inodes && i != a && i != b ==> i in v2.inodes && v2.inodes[i] == v.inodes[i] && ContentOf(v2, i) == ContentOf(v, i)
  }

  /** One entry more in one directory; every other file and directory as it was. */
  ghost predicate EntryIn(v: Vol, v2: Vol, d: nat, e: seq<Entry>) {
    Listable(v, d) && Listable(v2, d) && OthersKept(v, v2, d) && v2.inodes.Keys == v.inodes.Keys && Inserted(Listing(v, d), Listing(v2, d), e)
  }

  /** Nothing anybody could read has changed. */
  ghost predicate Unseen(v: Vol, v2: Vol) { Inv(v) && Inv(v2) && v2.inodes == v.inodes && OthersKept(v, v2, -1) }

  ghost predicate NoPlace(v: Vol, d: nat, need: nat) { IsDir(v, d) && Refused(BlocksAt(v, d), need) }

  /** An entry finds a place in these blocks, or in a block more, with that allocator. */
  ghost predicate TakesEntry(bs: seq<Content>, extents: nat, a: Allocator, need: nat)
    requires Sound(a)
  {
    need <= BLOCK && (Placed(bs, need) || (Full(bs, need) && extents < MAX_EXTENTS && HasRun(a, 1)))
  }

  lemma PlacedAt(bs: seq<Content>, need: nat, k: nat)
    requires k < |bs| && RoomIn(bs[k], need) && forall j :: 0 <= j <= k ==> !Broken(bs[j], 0)
    ensures Placed(bs, need)
  {
  }

  lemma NotPlaced(bs: seq<Content>, need: nat, k: nat)
    requires k < |bs| && Broken(bs[k], 0) && forall j :: 0 <= j < k ==> !RoomIn(bs[j], need)
    ensures !Placed(bs, need) && !Full(bs, need)
  {
  }

  lemma NoPlaceInside(bs: seq<Content>, need: nat)
    requires forall j :: 0 <= j < |bs| ==> !RoomIn(bs[j], need) && !Broken(bs[j], 0)
    ensures !Placed(bs, need) && Full(bs, need)
  {
  }

  lemma HasRoom(b: Content, last: nat, need: nat)
    requires IsTail(b, last) && last + Used(b[last + 6]) + need <= |b|
    ensures RoomIn(b, need)
  {
  }

  lemma KeptByBoth(v: Vol, v1: Vol, v2: Vol, a: nat, b: nat)
    requires Inv(v) && Inv(v1) && Inv(v2) && OthersKept(v, v1, a) && OthersKept(v1, v2, b)
    ensures KeptBesides(v, v2, a, b)
  {
  }

  /** What a directory edit does to the whole volume. */
  lemma EditedDirectory(v: Vol, v2: Vol, d: nat, k: nat, blk: Content)
    requires IsDir(v, d) && Inv(v2) && v2.inodes == v.inodes && k < v.inodes[d].size / BLOCK && |blk| == BLOCK
    requires ContentOf(v2, d) == Splice(ContentOf(v, d), k * BLOCK, blk)
    ensures IsDir(v2, d) && BlocksAt(v2, d) == BlocksAt(v, d)[k := blk]
  {
    hide Inv, ContentOf;
    WholeBlocks(v, d);
    ChunksSplice(ContentOf(v, d), k, blk);
  }

  lemma GrownDirectory(v: Vol, v2: Vol, d: nat, blk: Content)
    requires IsDir(v, d) && IsDir(v2, d) && |blk| == BLOCK && ContentOf(v2, d) == ContentOf(v, d) + blk
    ensures BlocksAt(v2, d) == BlocksAt(v, d) + [blk]
  {
    hide Inv, ContentOf;
    WholeBlocks(v, d);
    ChunksAppend(ContentOf(v, d), blk);
  }

  lemma SameBut(v: Vol, v1: Vol, d: nat, ino: nat)
    requires Listable(v, d) && Inv(v1) && OthersKept(v, v1, ino) && d != ino
    ensures Listable(v1, d) && BlocksAt(v1, d) == BlocksAt(v, d) && Listing(v1, d) == Listing(v, d)
    ensures d in v.inodes && d in v1.inodes && v1.inodes[d] == v.inodes[d]
  {
    hide Inv, ContentOf, AllSane, AllEntries, Chunks;
  }

  /** A file or directory `ino`, new, and entered in directory d under its name; nothing else has changed. */
  ghost predicate Entered(v: Vol, v2: Vol, d: nat, ino: nat, kind: byte, name: Content) {
    && Listable(v, d) && Listable(v2, d) && KeptBesides(v, v2, d, ino) && v2.inodes.Keys == v.inodes.Keys + {ino}
    && Inserted(Listing(v, d), Listing(v2, d), [Entry(ino, kind, name)])
  }

  lemma EnteredBy(v: Vol, v1: Vol, v2: Vol, d: nat, ino: nat, kind: byte, name: Content)
    requires Listable(v, d) && Inv(v1) && OthersKept(v, v1, ino) && v1.inodes.Keys == v.inodes.Keys + {ino} && d != ino && 0 < ino
    requires 0 < |name| < 0x100 && EntryIn(v1, v2, d, Listed(ino, kind, name[..|name| % 0x100]))
    ensures Entered(v, v2, d, ino, kind, name)
    ensures ino in v2.inodes && v2.inodes[ino] == v1.inodes[ino] && ContentOf(v2, ino) == ContentOf(v1, ino)
  {
    hide Inv, ContentOf, AllSane, AllEntries, Chunks, BlocksAt, Inserted;
    SameBut(v, v1, d, ino);
    KeptByBoth(v, v1, v2, ino, d);
    assert name[..|name| % 0x100] == name;
  }

  lemma KeptSoFar(v: Vol, v1: Vol, v2: Vol, ino: nat)
    requires Inv(v) && Inv(v1) && OthersKept(v, v1, ino) && Unseen(v1, v2) && ino !in v.inodes
    ensures Inv(v2) && OthersKept(v, v2, -1)
  {
    KeptTwice(v, v1, v2, ino);
  }

  /** A directory of one block. */
  lemma SeededDirectory(v: Vol, ino: nat, parent: nat)
    requires IsDir(v, ino) && 0 < ino < WORD && 0 < parent < WORD && ContentOf(v, ino) == Seeded(ino, parent)
    ensures Listable(v, ino) && Listing(v, ino) == [Entry(ino, 2, DOT), Entry(parent, 2, DOTDOT)]
  {
    hide Inv, ContentOf, Sane, Entries, Seeded;
    var b := Seeded(ino, parent);
    SeededLists(ino, parent);
    var none: Content := [];
    ChunksAppend(none, b);
    assert none + b == b && Chunks(none) == [];
    WholeBlocks(v, ino);
    assert BlocksAt(v, ino) == [b];
    AllOfOne(b);
  }

  // ---------------------------------------------------------------- the first block of a directory

  const DOT: Content := [46]
  const DOTDOT: Content := [46, 46]

  /** What mkdir seeds a directory with. */
  function Seeded(ino: nat, parent: nat): (b: Content)
    requires ino < WORD && parent < WORD
    ensures |b| == BLOCK
  {
    Digits(ino) + Le16(12) + [1, 2] + DOT + [0, 0, 0]
    + Digits(parent) + Le16(BLOCK - 12) + [2, 2] + DOTDOT + seq(BLOCK - 22, _ => 0)
  }

  lemma SeededLists(ino: nat, parent: nat)
    requires 0 < ino < WORD && 0 < parent < WORD
    ensures var b := Seeded(ino, parent);
            Tiled(b, 0) && Sane(b, 0) && Entries(b, 0) == [Entry(ino, 2, DOT), Entry(parent, 2, DOTDOT)]
  {
    hide Digits, Le16;
    var b := Seeded(ino, parent);
    assert RecordAt(b, 0, ino, 12, 2, DOT);
    assert RecordAt(b, 12, parent, BLOCK - 12, 2, DOTDOT);
    SeededReads(b, ino, parent);
  }

  lemma SeededReads(b: Content, ino: nat, parent: nat)
    requires |b| == BLOCK && 0 < ino && 0 < parent && RecordAt(b, 0, ino, 12, 2, DOT) && RecordAt(b, 12, parent, BLOCK - 12, 2, DOTDOT)
    ensures Tiled(b, 0) && Sane(b, 0) && Entries(b, 0) == [Entry(ino, 2, DOT), Entry(parent, 2, DOTDOT)]
  {
    hide RecordAt, Starts, EntriesTo;
    RecordReads(b, 0, ino, 12, 2, DOT);
    RecordReads(b, 12, parent, BLOCK - 12, 2, DOTDOT);
    assert DOT[..1] == DOT && DOTDOT[..2] == DOTDOT;
    LastRecord(b, 12);
    assert Entries(b, 0) == Here(b, 0) + Entries(b, 12);
  }

  // ---------------------------------------------------------------- the calls

  lemma ReachedAt(bs: seq<Content>, ino: nat, k: nat)
    requires k < |bs| && Named(bs[k], ino) && forall j :: 0 <= j < k ==> !Broken(bs[j], 0)
    ensures Reached(bs, ino)
  {
  }

  lemma NotReached(bs: seq<Content>, ino: nat, n: nat)
    requires n <= |bs| && (forall j :: 0 <= j < n ==> !Named(bs[j], ino)) && (n < |bs| ==> Broken(bs[n], 0) && !Named(bs[n], ino))
    ensures !Reached(bs, ino)
  {
  }

  lemma SoundVolume(v: Vol)
    requires Inv(v)
    ensures Geometry(v) && Sound(Allocator(v.bits, v.blocks, v.hint))
  {
    GeometryOf(v);
  }

  class Fs {
    const vol: Volume
    const b2: Scratch

    constructor (v: Volume, s: Scratch)
      ensures vol == v && b2 == s
    {
      vol, b2 := v, s;
    }

    /** map_lblock and read_block for a block of a directory. */
    method Fetch(d: nat, k: nat)
      requires IsDir(vol.V(), d) && k < vol.inodes[d].size / BLOCK && b2.buf.Length == BLOCK
      modifies b2.buf
      ensures b2.buf[..] == BlocksAt(vol.V(), d)[k]
    {
      hide Inv, Map, BlocksAt;
      BlockOnDisk(vol.V(), d, k);
      var phys := Map(vol.inodes[d].ext, k);
      b2.Load(vol.disk[phys.value]);
    }

    /** dir_add_entry */
    method AddEntry(d: nat, ino: nat, kind: byte, name: Content) returns (ok: bool)
      requires Listable(vol.V(), d) && b2.buf.Length == BLOCK && ino < WORD
      modifies vol, b2.buf
      ensures Listable(vol.V(), d)
      ensures ok ==> EntryIn(old(vol.V()), vol.V(), d, Listed(ino, kind, name[..|name| % 0x100]))
      ensures !ok ==> Unseen(old(vol.V()), vol.V()) && NoPlace(old(vol.V()), d, Used(|name|))
      ensures Sound(old(vol.A())) && (ok <==> TakesEntry(old(BlocksAt(vol.V(), d)), |old(vol.inodes)[d].ext|, old(vol.A()), Used(|name|)))
    {
      hide Inv, OthersKept, ContentOf, Sane, RoomIn, AllEntries, IsTail, Listed, Broken, Inserted, Used, Extends, BlocksAt, Placed, Full, HasRun, Settled;
      ghost var v0 := vol.V();
      ghost var bs := BlocksAt(v0, d);
      SoundVolume(v0);
      NothingMoved(v0);
      var need := Used(|name|);
      if need > BLOCK { return false; }
      var nblk := vol.inodes[d].size / BLOCK;
      for k := 0 to nblk
        invariant vol.V() == v0 && forall j :: 0 <= j < k ==> !RoomIn(bs[j], need) && !Broken(bs[j], 0)
      {
        Fetch(d, k);
        var bad, last, used := b2.FindTail();
        if bad {
          NotPlaced(bs, need, k);
          return false;
        }
        TailFacts(bs[k], last);
        if BLOCK - last - used >= need {
          HasRoom(bs[k], last, need);
          PlacedAt(bs, need, k);
          b2.WriteRecord(last, used, ino, kind, name);
          EntryAdded(bs, k, b2.buf[..], last, ino, kind, name);
          var stored := vol.EditDirectory(d, k, b2.buf[..]);
          EditedDirectory(v0, vol.V(), d, k, b2.buf[..]);
          return true;
        }
        NoRoom(bs[k], last, need);
      }
      NoPlaceInside(bs, need);
      UsedBounds(|name|);
      var blk := Grown(ino, kind, name);
      ok := vol.GrowDirectory(d, blk);
      if ok {
        GrownDirectory(v0, vol.V(), d, blk);
        EntryGrown(bs, ino, kind, name);
      } else {
        SameDirectory(v0, vol.V(), d);
      }
    }

    /** list_dir: all entries in order, or as many as the callback lets by. */
    method ListDir(d: nat, stop: Option<nat>) returns (out: seq<Entry>)
      requires Listable(vol.V(), d) && b2.buf.Length == BLOCK && stop != Some(0)
      modifies b2.buf
      ensures out == Upto(Listing(vol.V(), d), 0, stop)
    {
      hide Inv, Sane, Entries, BlocksAt;
      ghost var bs := BlocksAt(vol.V(), d);
      out := [];
      for k := 0 to vol.inodes[d].size / BLOCK
        invariant vol.V() == old(vol.V()) && AllSane(bs[..k]) && out == AllEntries(bs[..k]) && (stop.Some? ==> |out| < stop.value)
      {
        Fetch(d, k);
        var here, stopped := b2.ListBlock(|out|, stop);
        assert bs[..k + 1][..k] == bs[..k];
        ghost var was := out;
        out := out + here;
        if stopped {
          StoppedAt(bs, k, was, here, stop.value);
          return;
        }
      }
      assert bs[..|bs|] == bs;
    }

    /** The part of rm that edits the parent: the first record naming the inode is merged into the one before. */
    method RemoveEntry(d: nat, ino: nat) returns (ok: bool, ghost k: nat, ghost prev: nat, ghost off: nat)
      requires Listable(vol.V(), d) && b2.buf.Length == BLOCK
      modifies vol`disk, b2.buf
      ensures IsDir(vol.V(), d) && OthersKept(old(vol.V()), vol.V(), if ok then d else -1)
      ensures !ok ==> vol.V() == old(vol.V()) && (AnyBroken(BlocksAt(vol.V(), d)) || NoneNames(BlocksAt(vol.V(), d), |BlocksAt(vol.V(), d)|, ino))
      ensures ok ==> TakenOut(old(BlocksAt(vol.V(), d)), BlocksAt(vol.V(), d), k, prev, off, ino)
      ensures ok <==> Reached(old(BlocksAt(vol.V(), d)), ino)
    {
      hide Named, Reached, Inv, OthersKept, ContentOf, Sane, Starts, Broken, Misses, U16, Word, Used, TakenOut, Patch, BlocksAt;
      k, prev, off := 0, 0, 0;
      ghost var v0 := vol.V();
      ghost var bs := BlocksAt(v0, d);
      NothingMoved(v0);
      for n := 0 to vol.inodes[d].size / BLOCK
        invariant vol.V() == v0 && NoneNames(bs, n, ino) && forall j :: 0 <= j < n ==> !Named(bs[j], ino) && !Broken(bs[j], 0)
      {
        Fetch(d, n);
        var bad, found, at, before := b2.FindIno(ino);
        if bad {
          NotReached(bs, ino, n);
          return false, 0, 0, 0;
        }
        if found {
          ReachedAt(bs, ino, n);
          var rc := RecLen(b2.buf[..], before) + RecLen(b2.buf[..], at);
          b2.Poke(before + 4, Le16(rc));
          RemoveSpares(bs, n, before, at, ino);
          var stored := vol.EditDirectory(d, n, b2.buf[..]);
          EditedDirectory(v0, vol.V(), d, n, b2.buf[..]);
          return true, n, before, at;
        }
      }
      NotReached(bs, ino, |bs|);
      return false, 0, 0, 0;
    }

    /** mkdir, after the path lookup: d is the parent, ino a free inode. */
    method Mkdir(d: nat, ino: nat, name: Content) returns (ok: bool)
      requires Listable(vol.V(), d) && ino !in vol.inodes && 0 < ino < WORD && 0 < d < WORD && 0 < |name| < 0x100 && b2.buf.Length == BLOCK
      modifies vol, b2.buf
      ensures ok ==> Entered(old(vol.V()), vol.V(), d, ino, 2, name)
      ensures ok ==> Listable(vol.V(), ino) && Listing(vol.V(), ino) == [Entry(ino, 2, DOT), Entry(d, 2, DOTDOT)]
      ensures !ok ==> Inv(vol.V()) && OthersKept(old(vol.V()), vol.V(), -1)
      ensures Called(old(vol.V()), if ok then Makes(d, ino, name) else Fails, vol.V())
      ensures Sound(old(vol.A()))
      ensures ok <==> HasRun(old(vol.A()), 1) && TakesEntry(old(BlocksAt(vol.V(), d)), |old(vol.inodes)[d].ext|, Next(old(vol.A()), 1), Used(|name|))
    {
      hide Inv, OthersKept, ContentOf, BlocksAt, AllSane, AllEntries, Listable, Listing, EntryIn, Unseen, Entered, NoPlace, Listed, Seeded, TakesEntry, HasRun, Next, Settled, AddsBehind, Used;
      ghost var v0 := vol.V();
      ListableFacts(v0, d);
      SoundVolume(v0);
      ok := vol.GrowDirectory(ino, Seeded(ino, d));
      if !ok { return; }
      ghost var v1 := vol.V();
      assert [] + Seeded(ino, d) == Seeded(ino, d);
      SeededDirectory(v1, ino, d);
      SameBut(v0, v1, d, ino);
      ok := AddEntry(d, ino, 2, name);
      if ok {
        EnteredBy(v0, v1, vol.V(), d, ino, 2, name);
        StillListed(v1, vol.V(), d, ino, Listed(ino, 2, name[..|name| % 0x100]));
      } else {
        KeptSoFar(v0, v1, vol.V(), ino);
      }
    }

    /** write_file on a path that does not exist: the file, and its name in directory d. */
    method CreateIn(d: nat, ino: nat, name: Content, data: Content) returns (ok: bool)
      requires Listable(vol.V(), d) && ino !in vol.inodes && 0 < ino < WORD && 0 < |name| < 0x100 && b2.buf.Length == BLOCK
      modifies vol, b2.buf
      ensures ok ==> Entered(old(vol.V()), vol.V(), d, ino, 1, name)
      ensures ok ==> Inv(vol.V()) && ino in vol.inodes && vol.inodes[ino].file && ContentOf(vol.V(), ino) == data
      ensures !ok ==> Inv(vol.V()) && OthersKept(old(vol.V()), vol.V(), -1)
      ensures Called(old(vol.V()), if ok then Creates(d, ino, name) else Fails, vol.V())
      ensures Sound(old(vol.A()))
      ensures ok <==>
                && Allocates(old(vol.A()), MAX_EXTENTS, Blocks(|data|))
                && TakesEntry(old(BlocksAt(vol.V(), d)), |old(vol.inodes)[d].ext|, AfterAll(old(vol.A()), MAX_EXTENTS, Blocks(|data|)), Used(|name|))
    {
      hide Inv, OthersKept, ContentOf, BlocksAt, AllSane, AllEntries, Listable, Listing, EntryIn, Unseen, Entered, NoPlace, Listed, TakesEntry, Allocates, AfterAll, AddsBehind, Used;
      ghost var v0 := vol.V();
      ListableFacts(v0, d);
      SoundVolume(v0);
      ok := vol.CreateFile(ino, data);
      if !ok { return; }
      ghost var v1 := vol.V();
      SameBut(v0, v1, d, ino);
      ok := AddEntry(d, ino, 1, name);
      if ok {
        EnteredBy(v0, v1, vol.V(), d, ino, 1, name);
        EnteredInv(v0, vol.V(), d, ino, 1, name);
      } else {
        KeptSoFar(v0, v1, vol.V(), ino);
      }
    }

    /** rm, after the path lookup: only empty directories go; the entry, the blocks, the inode. */
    method Rm(d: nat, ino: nat) returns (ok: bool, ghost k: nat, ghost prev: nat, ghost off: nat)
      requires Listable(vol.V(), d) && ino in vol.inodes && ino != d && b2.buf.Length == BLOCK
      requires !vol.inodes[ino].file ==> Listable(vol.V(), ino)
      modifies vol, b2.buf
      ensures ok ==> Gone(old(vol.V()), vol.V(), d, ino, k, prev, off)
      ensures ok && !old(vol.inodes)[ino].file ==> |old(Listing(vol.V(), ino))| <= 2
      ensures !ok ==> vol.V() == old(vol.V())
      ensures ok <==> (old(vol.inodes)[ino].file || |old(Listing(vol.V(), ino))| <= 2) && Reached(old(BlocksAt(vol.V(), d)), ino)
      ensures ok ==> Clears(old(vol.bits), vol.bits, old(BlocksIn(vol.V(), ino)))
    {
      hide Inv, OthersKept, ContentOf, BlocksAt, AllSane, AllEntries, TakenOut, Gone, Reached, Clears;
      k, prev, off := 0, 0, 0;
      ghost var v0 := vol.V();
      if !vol.inodes[ino].file {
        var entries := ListDir(ino, None);
        if |entries| > 2 { return false, 0, 0, 0; }
      }
      ok, k, prev, off := RemoveEntry(d, ino);
      if !ok { return; }
      ghost var v1 := vol.V();
      var _ := vol.RemoveFile(ino);
      GoneBy(v0, v1, vol.V(), d, ino, k, prev, off);
    }
  }

  lemma StoppedAt(bs: seq<Content>, k: nat, was: seq<Entry>, here: seq<Entry>, stop: nat)
    requires AllSane(bs) && k < |bs| && was == AllEntries(bs[..k]) && Sane(bs[k], 0) && |was| < stop
    requires here == Upto(Entries(bs[k], 0), |was|, Some(stop)) && |was| + |here| == stop
    ensures was + here == Upto(AllEntries(bs), 0, Some(stop))
  {
    hide Sane, Entries, AllEntries;
    AllAround(bs, k, bs[k]);
    var all, rest := AllEntries(bs), AllEntries(bs[k + 1..]);
    assert all == was + Entries(bs[k], 0) + rest;
    assert all[..stop] == was + here;
  }

  lemma ListableFacts(v: Vol, d: nat)
    requires Listable(v, d)
    ensures Inv(v) && d in v.inodes
  {
  }

  lemma EnteredInv(v: Vol, v2: Vol, d: nat, ino: nat, kind: byte, name: Content)
    requires Entered(v, v2, d, ino, kind, name)
    ensures Inv(v2)
  {
  }

  /** A directory that another one's new entry does not touch. */
  lemma StillListed(v1: Vol, v2: Vol, d: nat, ino: nat, e: seq<Entry>)
    requires Listable(v1, ino) && EntryIn(v1, v2, d, e) && ino != d
    ensures Listable(v2, ino) && Listing(v2, ino) == Listing(v1, ino)
  {
    hide Inv, ContentOf, AllSane, AllEntries, Chunks, Inserted;
    SameBut(v1, v2, ino, d);
  }

  /** Inode and entry are gone; with a record in front of it, the entry is the only one; nobody else has changed. */
  ghost predicate Gone(v: Vol, v2: Vol, d: nat, ino: nat, k: nat, prev: nat, off: nat) {
    && Listable(v, d) && IsDir(v2, d) && v2.inodes == v.inodes - {ino} && KeptBesides(v, v2, d, ino)
    && TakenOut(BlocksAt(v, d), BlocksAt(v2, d), k, prev, off, ino)
  }

  lemma GoneBy(v: Vol, v1: Vol, v2: Vol, d: nat, ino: nat, k: nat, prev: nat, off: nat)
    requires Listable(v, d) && IsDir(v1, d) && OthersKept(v, v1, d) && v1.inodes == v.inodes && d != ino
    requires TakenOut(BlocksAt(v, d), BlocksAt(v1, d), k, prev, off, ino)
    requires Inv(v2) && OthersKept(v1, v2, ino) && v2.inodes == v1.inodes - {ino}
    ensures Gone(v, v2, d, ino, k, prev, off)
  {
    hide Inv, ContentOf, AllSane, TakenOut, Chunks;
    KeptByBoth(v, v1, v2, d, ino);
    assert v2.inodes[d] == v1.inodes[d] && ContentOf(v2, d) == ContentOf(v1, d);
    assert BlocksAt(v2, d) == BlocksAt(v1, d);
  }

  // ---------------------------------------------------------------- there and back

  lemma InsertedParts(l: seq<Entry>, b: seq<Entry>, i: nat, e: Entry)
    requires i <= |l| && b == l[..i] + [e] + l[i..]
    ensures |b| == |l| + 1 && b[i] == e && l == b[..i] + b[i + 1..]
  {
    assert b[..i] == l[..i] && b[i + 1..] == l[i..];
  }

  lemma InsertedElsewhere(l: seq<Entry>, b: seq<Entry>, i: nat, e: Entry, j: nat)
    requires i <= |l| && b == l[..i] + [e] + l[i..] && j < |b| && j != i && b[j].ino == e.ino
    ensures Names(l, e.ino)
  {
    var k := if j < i then j else j - 1;
    assert b[j] == l[k];
  }

  lemma InsertRemove(l0: seq<Entry>, l1: seq<Entry>, l2: seq<Entry>, e: Entry, f: Entry)
    requires Inserted(l0, l1, [e]) && Inserted(l2, l1, [f]) && f.ino == e.ino && !Names(l0, e.ino)
    ensures l2 == l0
  {
    hide Names;
    var i :| 0 <= i <= |l0| && l1 == l0[..i] + [e] + l0[i..];
    var j :| 0 <= j <= |l2| && l1 == l2[..j] + [f] + l2[j..];
    InsertedParts(l0, l1, i, e);
    InsertedParts(l2, l1, j, f);
    if i != j { InsertedElsewhere(l0, l1, i, e, j); }
  }

  /** What was made and removed again leaves the directory listing what it listed, unless the entry was first in its block. */
  lemma MadeThenRemoved(v: Vol, v1: Vol, v2: Vol, d: nat, ino: nat, kind: byte, name: Content, k: nat, prev: nat, off: nat)
    requires Entered(v, v1, d, ino, kind, name) && Gone(v1, v2, d, ino, k, prev, off)
    requires 0 < off && !Names(Listing(v, d), ino) && Here(BlocksAt(v1, d)[k], off) != []
    ensures Listable(v2, d) && Listing(v2, d) == Listing(v, d) && v2.inodes.Keys == v.inodes.Keys - {ino}
  {
    hide Inv, ContentOf, AllSane, AllEntries, BlocksAt, Inserted, Starts, Misses, Sane;
    var f := Here(BlocksAt(v1, d)[k], off);
    InsertRemove(Listing(v, d), Listing(v1, d), Listing(v2, d), Entry(ino, kind, name), f[0]);
  }

  // ---------------------------------------------------------------- whole runs

  /** The directories one keeps an eye on, by inode, with what each lists. */
  type Dirs = map<nat, multiset<Entry>>

  /** A call on the volume and how it went: a failed one may leave behind what nobody can see. */
  datatype Call =
    | Makes(d: nat, ino: nat, name: Content)
    | Creates(d: nat, ino: nat, name: Content)
    | Removes(d: nat, ino: nat, k: nat, prev: nat, off: nat, gone: seq<Entry>)
    | Edits(ino: nat)
    | Fails

  /** What the calls promise. An entry removed is not the first of its block; a file is edited that is no directory. */
  ghost predicate Called(v: Vol, c: Call, v2: Vol) {
    match c
    case Makes(d, ino, name) =>
      Entered(v, v2, d, ino, 2, name) && d != ino && ino !in v.inodes
      && Listable(v2, ino) && Listing(v2, ino) == [Entry(ino, 2, DOT), Entry(d, 2, DOTDOT)]
    case Creates(d, ino, name) => Entered(v, v2, d, ino, 1, name) && d != ino && ino !in v.inodes
    case Removes(d, ino, k, prev, off, gone) =>
      Gone(v, v2, d, ino, k, prev, off) && d != ino && 0 < off && gone == Here(BlocksAt(v, d)[k], off)
    case Edits(ino) => Inv(v) && Inv(v2) && ino in v.inodes && v.inodes[ino].file && OthersKept(v, v2, ino)
    case Fails => Inv(v) && Inv(v2) && OthersKept(v, v2, -1)
  }

  /** Every directory of the map is listable and lists just that. */
  ghost predicate Shown(v: Vol, t: Dirs) {
    Inv(v) && forall d :: d in t ==> Listable(v, d) && multiset(Listing(v, d)) == t[d]
  }

  /** The same on plain collections of entries. */
  function Tracked(t: Dirs, c: Call): Dirs {
    match c
    case Makes(d, ino, name) =>
      if d in t then t[d := t[d] + multiset{Entry(ino, 2, name)}][ino := multiset{Entry(ino, 2, DOT), Entry(d, 2, DOTDOT)}] else t
    case Creates(d, ino, name) => if d in t then t[d := t[d] + multiset{Entry(ino, 1, name)}] else t
    case Removes(d, ino, _, _, _, gone) => if d in t then (t - {ino})[d := t[d] - multiset(gone)] else t - {ino}
    case _ => t
  }

  lemma InsertedBag(a: seq<Entry>, b: seq<Entry>, mid: seq<Entry>)
    requires Inserted(a, b, mid)
    ensures multiset(b) == multiset(a) + multiset(mid)
  {
    var i :| 0 <= i <= |a| && b == a[..i] + mid + a[i..];
    assert a == a[..i] + a[i..];
  }

  lemma KeptListed(v: Vol, v2: Vol, d: nat, a: nat, b: nat)
    requires Listable(v, d) && Inv(v2) && KeptBesides(v, v2, a, b) && d != a && d != b
    ensures Listable(v2, d) && Listing(v2, d) == Listing(v, d)
  {
    hide Inv, ContentOf, AllSane, AllEntries, Chunks;
  }

  lemma KeptByOne(v: Vol, v2: Vol, a: int)
    requires Inv(v) && Inv(v2) && OthersKept(v, v2, a)
    ensures 0 <= a ==> KeptBesides(v, v2, a, a)
    ensures a < 0 ==> forall x: nat :: KeptBesides(v, v2, x, x)
  {
  }

  lemma EntersShown(v: Vol, v2: Vol, d: nat, ino: nat, kind: byte, name: Content, t: Dirs)
    requires Shown(v, t) && Entered(v, v2, d, ino, kind, name) && d != ino && ino !in v.inodes
    ensures Shown(v2, if d in t then t[d := t[d] + multiset{Entry(ino, kind, name)}] else t)
  {
    hide Inv, ContentOf, AllSane, AllEntries, BlocksAt, Inserted, KeptBesides;
    InsertedBag(Listing(v, d), Listing(v2, d), [Entry(ino, kind, name)]);
    forall x | x in t && x != d ensures Listable(v2, x) && Listing(v2, x) == Listing(v, x) { KeptListed(v, v2, x, d, ino); }
  }

  lemma GoneListed(v: Vol, v2: Vol, d: nat, ino: nat, k: nat, prev: nat, off: nat, gone: seq<Entry>)
    requires Called(v, Removes(d, ino, k, prev, off, gone), v2)
    ensures Listable(v, d) && Listable(v2, d) && Inv(v2) && KeptBesides(v, v2, d, ino)
    ensures multiset(Listing(v, d)) == multiset(Listing(v2, d)) + multiset(gone)
  {
    hide Inv, ContentOf, AllSane, AllEntries, BlocksAt, Inserted, KeptBesides, Starts, Misses, NoneNames;
    InsertedBag(Listing(v2, d), Listing(v, d), gone);
  }

  lemma GoneShown(v: Vol, v2: Vol, d: nat, ino: nat, k: nat, prev: nat, off: nat, gone: seq<Entry>, t: Dirs)
    requires Shown(v, t) && Called(v, Removes(d, ino, k, prev, off, gone), v2)
    ensures Shown(v2, Tracked(t, Removes(d, ino, k, prev, off, gone)))
  {
    hide Inv, Called, Listable, Listing, KeptBesides;
    GoneListed(v, v2, d, ino, k, prev, off, gone);
    forall x | x in t && x != d && x != ino ensures Listable(v2, x) && Listing(v2, x) == Listing(v, x) { KeptListed(v, v2, x, d, ino); }
  }

  lemma CallShown(v: Vol, c: Call, v2: Vol, t: Dirs)
    requires Shown(v, t) && Called(v, c, v2)
    ensures Shown(v2, Tracked(t, c))
  {
    hide Inv, ContentOf, AllSane, AllEntries, BlocksAt, Inserted, KeptBesides, OthersKept, Entered, Gone;
    match c
    case Makes(d, ino, name) =>
      EntersShown(v, v2, d, ino, 2, name, t);
      assert multiset([Entry(ino, 2, DOT), Entry(d, 2, DOTDOT)]) == multiset{Entry(ino, 2, DOT), Entry(d, 2, DOTDOT)};
    case Creates(d, ino, name) => EntersShown(v, v2, d, ino, 1, name, t);
    case Removes(d, ino, k, prev, off, gone) => GoneShown(v, v2, d, ino, k, prev, off, gone, t);
    case Edits(ino) =>
      KeptByOne(v, v2, ino);
      forall x | x in t ensures Listable(v2, x) && Listing(v2, x) == Listing(v, x) { KeptListed(v, v2, x, ino, ino); }
    case Fails =>
      KeptByOne(v, v2, -1);
      forall x | x in t ensures Listable(v2, x) && Listing(v2, x) == Listing(v, x) { KeptListed(v, v2, x, x + 1, x + 1); }
  }

  function TrackedAll(t: Dirs, cs: seq<Call>): Dirs {
    if cs == [] then t else Tracked(TrackedAll(t, cs[..|cs| - 1]), cs[|cs| - 1])
  }

  ghost predicate CalledAll(vs: seq<Vol>, cs: seq<Call>) {
    |vs| == |cs| + 1 && forall k :: 0 <= k < |cs| ==> Called(vs[k], cs[k], vs[k + 1])
  }

  /** Over every run of these calls, all directories stay listable, and list what the calls add up to. */
  lemma {:induction false} RunShown(vs: seq<Vol>, cs: seq<Call>, t: Dirs, n: nat)
    requires CalledAll(vs, cs) && Shown(vs[0], t) && n <= |cs|
    ensures Shown(vs[n], TrackedAll(t, cs[..n]))
  {
    hide Shown, Called, Tracked;
    if n > 0 {
      RunShown(vs, cs, t, n - 1);
      assert cs[..n][..n - 1] == cs[..n - 1];
      assert Called(vs[n - 1], cs[n - 1], vs[n - 1 + 1]);
      CallShown(vs[n - 1], cs[n - 1], vs[n], TrackedAll(t, cs[..n - 1]));
    }
  }

  /** Removing took at most the one entry, and it was the inode's. */
  lemma RemovedIsNamed(v: Vol, v2: Vol, d: nat, ino: nat, k: nat, prev: nat, off: nat)
    requires Gone(v, v2, d, ino, k, prev, off) && 0 < off && d != ino
    ensures k < |BlocksAt(v, d)| && Holds(BlocksAt(v, d)[k], off)
    ensures var gone := Here(BlocksAt(v, d)[k], off);
            Called(v, Removes(d, ino, k, prev, off, gone), v2) && |gone| <= 1 && forall i :: 0 <= i < |gone| ==> gone[i].ino == ino
  {
    hide Inv, ContentOf, AllSane, AllEntries, BlocksAt, KeptBesides, Starts, Misses, NoneNames;
  }
}
