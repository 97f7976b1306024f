/** Files on the volume: extents, and the bytes behind them. */
module Files {
  import opened Basics

  const BLOCK := 4096
  const MAX_EXTENTS := 4
  const MAX_LEN := 32767

  type Content = seq<byte>

  /** `len` blocks of a file from logical block `lblk` on lie at `start` and after. */
  datatype Extent = Extent(lblk: nat, len: nat, start: nat)

  datatype Inode = Inode(file: bool, size: nat, ext: seq<Extent>)

  // ---------------------------------------------------------------- from extents to blocks

  /** extent_walk on an inline root: the first extent that covers the block. */
  function Map(ext: seq<Extent>, l: nat): Option<nat> {
    if ext == [] then None
    else if ext[0].lblk <= l < ext[0].lblk + ext[0].len then Some(ext[0].start + (l - ext[0].lblk))
    else Map(ext[1..], l)
  }

  function Range(start: nat, n: nat): (r: seq<nat>)
    ensures |r| == n && forall i :: 0 <= i < n ==> r[i] == start + i
  {
    seq(n, i requires 0 <= i < n => start + i)
  }

  /** The file's blocks in logical order. */
  function BlocksOf(ext: seq<Extent>): seq<nat> {
    if ext == [] then [] else Range(ext[0].start, ext[0].len) + BlocksOf(ext[1..])
  }

  /** The extents follow one another without gap or overlap, from logical block `from` on. */
  ghost predicate Dense(ext: seq<Extent>, from: nat) {
    ext == [] || (ext[0].lblk == from && 0 < ext[0].len <= MAX_LEN && Dense(ext[1..], from + ext[0].len))
  }

  lemma {:induction false} DenseMap(ext: seq<Extent>, from: nat, l: nat)
    requires Dense(ext, from)
    ensures Map(ext, l) == if from <= l < from + |BlocksOf(ext)| then Some(BlocksOf(ext)[l - from]) else None
  {
    if ext != [] { DenseMap(ext[1..], from + ext[0].len, l); }
  }

  lemma {:induction false} AppendExtent(ext: seq<Extent>, from: nat, e: Extent)
    requires Dense(ext, from) && e.lblk == from + |BlocksOf(ext)| && 0 < e.len <= MAX_LEN
    ensures Dense(ext + [e], from) && BlocksOf(ext + [e]) == BlocksOf(ext) + Range(e.start, e.len)
  {
    if ext == [] {
      assert ext + [e] == [e];
    } else {
      assert (ext + [e])[1..] == ext[1..] + [e];
      AppendExtent(ext[1..], from + ext[0].len, e);
    }
  }

  // ---------------------------------------------------------------- from blocks to bytes

  predicate Whole(disk: seq<Content>) { forall b :: 0 <= b < |disk| ==> |disk[b]| == BLOCK }

  predicate OnDisk(disk: seq<Content>, bl: seq<nat>) { forall i :: 0 <= i < |bl| ==> bl[i] < |disk| }

  function ByteAt(disk: seq<Content>, bl: seq<nat>, x: nat): byte
    requires Whole(disk) && OnDisk(disk, bl) && x < |bl| * BLOCK
  {
    disk[bl[x / BLOCK]][x % BLOCK]
  }

  /** The first n bytes behind a list of blocks. */
  function Bytes(disk: seq<Content>, bl: seq<nat>, n: nat): (s: Content)
    requires Whole(disk) && OnDisk(disk, bl) && n <= |bl| * BLOCK
    ensures |s| == n && forall x :: 0 <= x < n ==> s[x] == ByteAt(disk, bl, x)
  {
    seq(n, x requires 0 <= x < n => ByteAt(disk, bl, x))
  }

  function Blocks(size: nat): nat { (size + BLOCK - 1) / BLOCK }

  /** As many blocks as a size takes: it fits in them, and not in one less. */
  lemma BlocksLeast(size: nat)
    ensures size <= Blocks(size) * BLOCK && (0 < Blocks(size) ==> (Blocks(size) - 1) * BLOCK < size)
  {
  }

  /** `d` over the bytes of `c` from `off` on; c grows if d reaches past its end. */
  function Splice(c: Content, off: nat, d: Content): Content
    requires off <= |c|
  {
    c[..off] + d + (if off + |d| < |c| then c[off + |d|..] else [])
  }

  function Patch(blk: Content, at: nat, d: Content): (r: Content)
    requires at + |d| <= |blk|
    ensures |r| == |blk|
  {
    blk[..at] + d + blk[at + |d|..]
  }

  ghost predicate Distinct(bl: seq<nat>) {
    forall i, j :: 0 <= i < j < |bl| ==> bl[i] != bl[j]
  }

  lemma Place(l: nat, at: nat, x: nat)
    requires at < BLOCK
    ensures (l * BLOCK + at) / BLOCK == l && (l * BLOCK + at) % BLOCK == at
    ensures x / BLOCK == l <==> l * BLOCK <= x < l * BLOCK + BLOCK
    ensures x / BLOCK == l ==> x % BLOCK == x - l * BLOCK
  {
  }

  /** Patching one block of a file changes exactly those bytes of it. */
  lemma PatchByte(disk: seq<Content>, bl: seq<nat>, l: nat, at: nat, d: Content, x: nat)
    requires Whole(disk) && OnDisk(disk, bl) && Distinct(bl) && l < |bl| && at + |d| <= BLOCK && x < |bl| * BLOCK
    ensures var disk2 := disk[bl[l] := Patch(disk[bl[l]], at, d)];
            && Whole(disk2) && OnDisk(disk2, bl)
            && ByteAt(disk2, bl, x) == if l * BLOCK + at <= x < l * BLOCK + at + |d| then d[x - l * BLOCK - at] else ByteAt(disk, bl, x)
  {
    if at < BLOCK { Place(l, at, x); } else { Place(l, 0, x); }
    if x / BLOCK != l { assert bl[x / BLOCK] != bl[l]; }
  }

  /** Blocks of somebody else keep their bytes. */
  lemma OtherBytes(disk: seq<Content>, bl: seq<nat>, n: nat, b: nat, blk: Content)
    requires Whole(disk) && OnDisk(disk, bl) && n <= |bl| * BLOCK && b < |disk| && |blk| == BLOCK && b !in bl
    ensures Whole(disk[b := blk]) && OnDisk(disk[b := blk], bl) && Bytes(disk[b := blk], bl, n) == Bytes(disk, bl, n)
  {
    forall x | 0 <= x < n ensures ByteAt(disk[b := blk], bl, x) == ByteAt(disk, bl, x) {
      assert bl[x / BLOCK] in bl;
    }
  }

  /** One more chunk of a write, at the place where the last one stopped. */
  lemma ChunkSplices(disk: seq<Content>, bl: seq<nat>, old0: Content, off: nat, data: Content, done: nat, chunk: nat)
    requires Whole(disk) && OnDisk(disk, bl) && Distinct(bl) && off <= |old0| && done + chunk <= |data| && 0 < chunk
    requires Max(|old0|, off + done) <= |bl| * BLOCK && (off + done) / BLOCK < |bl|
    requires (off + done) % BLOCK + chunk <= BLOCK
    requires Bytes(disk, bl, Max(|old0|, off + done)) == Splice(old0, off, data[..done])
    ensures var disk2 := disk[bl[(off + done) / BLOCK] := Patch(disk[bl[(off + done) / BLOCK]], (off + done) % BLOCK, data[done..done + chunk])];
            && Whole(disk2) && OnDisk(disk2, bl) && Max(|old0|, off + done + chunk) <= |bl| * BLOCK
            && Bytes(disk2, bl, Max(|old0|, off + done + chunk)) == Splice(old0, off, data[..done + chunk])
  {
    var l, at := (off + done) / BLOCK, (off + done) % BLOCK;
    var d := data[done..done + chunk];
    var disk2 := disk[bl[l] := Patch(disk[bl[l]], at, d)];
    var s1, s2 := Splice(old0, off, data[..done]), Splice(old0, off, data[..done + chunk]);
    var n := Max(|old0|, off + done + chunk);
    PatchByte(disk, bl, l, at, d, 0);
    forall x | 0 <= x < n ensures ByteAt(disk2, bl, x) == s2[x] {
      PatchByte(disk, bl, l, at, d, x);
      if x < Max(|old0|, off + done) { assert ByteAt(disk, bl, x) == s1[x]; }
    }
  }

  function Max(a: nat, b: nat): nat { if a < b then b else a }
}
