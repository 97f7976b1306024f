/** The volume: who owns which block, and what every file holds, through every call. */
module Volumes {
  import opened Basics
  import opened Bitmap
  import opened Files

  /** `meta` are the blocks of the superblock, the descriptors, the bitmaps and the inode table. */
  datatype Vol = Vol(blocks: nat, bits: seq<bool>, hint: nat, disk: seq<Content>, inodes: map<nat, Inode>, meta: set<nat>)

  // ---------------------------------------------------------------- what every call keeps

  ghost predicate Geometry(v: Vol) {
    Bitmap.Fits(v.bits, v.blocks, v.hint) && |v.disk| == v.blocks && Whole(v.disk) && v.bits[0] && 0 in v.meta
  }

  ghost predicate MetaOk(v: Vol) {
    forall m :: m in v.meta ==> m < v.blocks <= |v.bits| && v.bits[m]
  }

  ghost predicate InodeOk(n: Inode) {
    |n.ext| <= MAX_EXTENTS && Dense(n.ext, 0) && |BlocksOf(n.ext)| == Blocks(n.size) && (n.file || n.size % BLOCK == 0)
  }

  /** A list of blocks that are allocated, in the volume, and no metadata. */
  ghost predicate Data(v: Vol, bl: seq<nat>) {
    forall b :: b in bl ==> b < v.blocks <= |v.bits| && v.bits[b] && b !in v.meta
  }

  ghost predicate Disjoint(a: seq<nat>, b: seq<nat>) {
    forall x :: x in a ==> x !in b
  }

  function BlocksIn(v: Vol, ino: nat): seq<nat>
    requires ino in v.inodes
  {
    BlocksOf(v.inodes[ino].ext)
  }

  ghost predicate InodesOk(v: Vol) {
    forall i :: i in v.inodes ==> InodeOk(v.inodes[i]) && Distinct(BlocksIn(v, i)) && Data(v, BlocksIn(v, i))
  }

  /** No block lies in two files. */
  ghost predicate NoSharing(v: Vol) {
    forall i, j :: i in v.inodes && j in v.inodes && i != j ==> Disjoint(BlocksIn(v, i), BlocksIn(v, j))
  }

  ghost predicate Inv(v: Vol) {
    Geometry(v) && MetaOk(v) && InodesOk(v) && NoSharing(v)
  }

  /** The bytes of a file, or of a directory. */
  ghost function ContentOf(v: Vol, ino: nat): (c: Content)
    requires Inv(v) && ino in v.inodes
    ensures |c| == v.inodes[ino].size
  {
    ContentFits(v, ino);
    Bytes(v.disk, BlocksIn(v, ino), v.inodes[ino].size)
  }

  lemma ContentFits(v: Vol, ino: nat)
    requires Inv(v) && ino in v.inodes
    ensures Whole(v.disk) && OnDisk(v.disk, BlocksIn(v, ino)) && v.inodes[ino].size <= |BlocksIn(v, ino)| * BLOCK
  {
    var bl := BlocksIn(v, ino);
    forall i | 0 <= i < |bl| ensures bl[i] < |v.disk| { assert bl[i] in bl; }
  }

  // ---------------------------------------------------------------- claims: blocks an unfinished call works on

  /** Blocks allocated for `ino`: nobody else's, and metadata least of all. */
  ghost predicate Claim(v: Vol, ino: int, bl: seq<nat>) {
    Distinct(bl) && Data(v, bl) && forall i :: i in v.inodes && i != ino ==> Disjoint(bl, BlocksIn(v, i))
  }

  /** A volume with nothing on it but its metadata, block 0 among it, is in order. */
  lemma FreshVolume(v: Vol)
    requires 0 < v.blocks <= |v.bits| && v.hint < v.blocks && |v.disk| == v.blocks && Whole(v.disk) && v.inodes == map[] && 0 in v.meta
    requires forall b: nat :: b < |v.bits| ==> v.bits[b] == (b in v.meta)
    requires forall m :: m in v.meta ==> m < v.blocks
    ensures Inv(v) && View(v) == map[]
  {
  }

  lemma OwnClaim(v: Vol, ino: nat)
    requires Inv(v) && ino in v.inodes
    ensures Claim(v, ino, BlocksIn(v, ino))
  {
  }

  /** A free run belongs to nobody; once marked, the caller can add it to its claim. */
  lemma AllocClaims(v: Vol, ino: int, bl: seq<nat>, first: nat, n: nat, hint: nat)
    requires Inv(v) && Claim(v, ino, bl) && FreeRange(v.bits, v.blocks, first, n) && hint < v.blocks
    ensures var v2 := v.(bits := Marked(v.bits, first, n, true), hint := hint);
            && Inv(v2) && Claim(v2, ino, bl + Range(first, n)) && Claim(v2, -1, Range(first, n))
            && forall i :: i in v.inodes ==> ContentOf(v2, i) == ContentOf(v, i)
  {
    var v2 := v.(bits := Marked(v.bits, first, n, true), hint := hint);
    var r := Range(first, n);
    forall i | i in v.inodes ensures Disjoint(r, BlocksIn(v, i)) && Disjoint(BlocksIn(v, i), r) {
      assert Data(v, BlocksIn(v, i));
    }
    assert InodesOk(v2) by {
      forall i | i in v2.inodes ensures InodeOk(v2.inodes[i]) && Distinct(BlocksIn(v2, i)) && Data(v2, BlocksIn(v2, i)) {
        assert Data(v, BlocksIn(v, i));
      }
    }
    JoinClaims(v2, ino, bl, r);
  }

  lemma JoinClaims(v: Vol, ino: int, a: seq<nat>, b: seq<nat>)
    requires Claim(v, ino, a) && Claim(v, ino, b) && Disjoint(a, b)
    ensures Claim(v, ino, a + b)
  {
    forall i, j | 0 <= i < j < |a + b| ensures (a + b)[i] != (a + b)[j] {
      if i < |a| <= j { assert a[i] in a && b[j - |a|] in b; }
    }
  }

  /** Everybody but `ino` has the bytes it had. */
  ghost predicate OthersKept(v: Vol, v2: Vol, ino: int)
    requires Inv(v) && Inv(v2)
  {
    forall i :: i in v.inodes && i != ino ==> i in v2.inodes && v2.inodes[i] == v.inodes[i] && ContentOf(v2, i) == ContentOf(v, i)
  }

  /** A store into a claimed block is invisible to everybody else. */
  lemma StoreKeeps(v: Vol, ino: int, bl: seq<nat>, l: nat, blk: Content)
    requires Inv(v) && Claim(v, ino, bl) && l < |bl| && |blk| == BLOCK
    ensures bl[l] < |v.disk|
    ensures var v2 := v.(disk := v.disk[bl[l] := blk]);
            Inv(v2) && Claim(v2, ino, bl) && OthersKept(v, v2, ino)
  {
    assert bl[l] in bl;
    var v2 := v.(disk := v.disk[bl[l] := blk]);
    forall i | i in v.inodes && i != ino ensures ContentOf(v2, i) == ContentOf(v, i) {
      ContentFits(v, i);
      assert bl[l] !in BlocksIn(v, i);
      OtherBytes(v.disk, BlocksIn(v, i), v.inodes[i].size, bl[l], blk);
    }
  }

  /** Storing the inode of a finished call. */
  lemma CommitKeeps(v: Vol, ino: nat, n: Inode)
    requires Inv(v) && Claim(v, ino, BlocksOf(n.ext)) && InodeOk(n)
    ensures var v2 := v.(inodes := v.inodes[ino := n]);
            && Inv(v2) && OthersKept(v, v2, ino)
            && (Whole(v.disk) && OnDisk(v.disk, BlocksOf(n.ext)) && n.size <= |BlocksOf(n.ext)| * BLOCK ==>
                  ContentOf(v2, ino) == Bytes(v.disk, BlocksOf(n.ext), n.size))
  {
    var v2 := v.(inodes := v.inodes[ino := n]);
    assert InodesOk(v2) by {
      forall i | i in v2.inodes ensures InodeOk(v2.inodes[i]) && Distinct(BlocksIn(v2, i)) && Data(v2, BlocksIn(v2, i)) {
        if i != ino { assert Data(v, BlocksIn(v, i)); }
      }
    }
    assert NoSharing(v2) by {
      forall i, j | i in v2.inodes && j in v2.inodes && i != j ensures Disjoint(BlocksIn(v2, i), BlocksIn(v2, j)) {
        if i != ino && j != ino { assert Disjoint(BlocksIn(v, i), BlocksIn(v, j)); }
      }
    }
  }

  lemma InRange(first: nat, n: nat, b: nat)
    ensures b in Range(first, n) <==> first <= b < first + n
  {
    if first <= b < first + n { assert Range(first, n)[b - first] == b; }
  }

  /** Blocks that belong to no file and are no metadata can be given back. */
  lemma FreeKeeps(v: Vol, first: nat, n: nat)
    requires Inv(v) && first + n <= v.blocks
    requires forall b :: first <= b < first + n ==> b !in v.meta
    requires forall i :: i in v.inodes ==> Disjoint(Range(first, n), BlocksIn(v, i))
    ensures var v2 := v.(bits := Marked(v.bits, first, n, false));
            Inv(v2) && OthersKept(v, v2, -1)
  {
    var v2 := v.(bits := Marked(v.bits, first, n, false));
    forall i | i in v2.inodes ensures Data(v2, BlocksIn(v2, i)) {
      assert Data(v, BlocksIn(v, i));
      forall b | b in BlocksIn(v, i) ensures !(first <= b < first + n) { InRange(first, n, b); }
    }
  }

  lemma KeptTwice(v: Vol, v1: Vol, v2: Vol, ino: int)
    requires Inv(v) && Inv(v1) && Inv(v2) && OthersKept(v, v1, ino) && OthersKept(v1, v2, ino)
    ensures OthersKept(v, v2, ino)
  {
  }

  /** How a write within reach ends: the blocks are as many as the new size needs. */
  lemma SameBlocks(size: nat, reach: nat)
    requires size < reach <= Blocks(size) * BLOCK
    ensures Blocks(reach) == Blocks(size)
  {
  }

  /** A splice that never got to store the new size. */
  function Torn(c: Content, off: nat, d: Content): Content
    requires off <= |c|
  {
    Splice(c, off, d)[..|c|]
  }

  // ---------------------------------------------------------------- what a volume shows

  datatype Node = Node(file: bool, bytes: Content)

  type Tree = map<nat, Node>

  ghost function View(v: Vol): Tree
    requires Inv(v)
  {
    map i | i in v.inodes :: Node(v.inodes[i].file, ContentOf(v, i))
  }

  datatype Op =
    | Write(ino: nat, data: Content, trunc: bool, append: bool)
    | Splicing(ino: nat, data: Content, off: nat)
    | Remove(ino: nat)
    | NewBlock(ino: nat, blk: Content)
    | EditBlock(ino: nat, l: nat, blk: Content)

  predicate BlockSized(op: Op) { (op.NewBlock? || op.EditBlock?) ==> |op.blk| == BLOCK }

  /** `reach` matters only for a write that failed: the bytes that had got to the disk. */
  datatype Outcome = Outcome(ok: bool, reach: nat)

  function BytesIn(t: Tree, ino: nat): Content { if ino in t then t[ino].bytes else [] }

  /** The same call on plain byte sequences. */
  function After(t: Tree, op: Op, r: Outcome): Tree {
    match op
    case Write(ino, data, trunc, append) =>
      if r.ok then t[ino := Node(true, (if append then BytesIn(t, ino) else []) + data)] else t
    case Splicing(ino, data, off) =>
      if ino !in t || off > |t[ino].bytes| then t
      else if r.ok then t[ino := Node(true, Splice(t[ino].bytes, off, data))]
      else t[ino := Node(t[ino].file, Torn(t[ino].bytes, off, data[..if r.reach < |data| then r.reach else |data|]))]
    case Remove(ino) => t - {ino}
    case NewBlock(ino, blk) => if r.ok then t[ino := Node(false, BytesIn(t, ino) + blk)] else t
    case EditBlock(ino, l, blk) =>
      if r.ok && ino in t && l * BLOCK <= |t[ino].bytes| then t[ino := Node(false, Splice(t[ino].bytes, l * BLOCK, blk))] else t
  }

  function Replay(t: Tree, ops: seq<Op>, rs: seq<Outcome>): Tree
    requires |rs| == |ops|
  {
    if ops == [] then t else After(Replay(t, ops[..|ops| - 1], rs[..|ops| - 1]), ops[|ops| - 1], rs[|ops| - 1])
  }

  lemma ViewSame(v: Vol, v2: Vol)
    requires Inv(v) && Inv(v2) && OthersKept(v, v2, -1) && v2.inodes.Keys == v.inodes.Keys
    ensures View(v2) == View(v)
  {
  }

  lemma ViewOne(v: Vol, v2: Vol, ino: nat)
    requires Inv(v) && Inv(v2) && OthersKept(v, v2, ino) && v2.inodes.Keys == v.inodes.Keys + {ino}
    ensures View(v2) == View(v)[ino := Node(v2.inodes[ino].file, ContentOf(v2, ino))]
  {
  }

  lemma ViewLess(v: Vol, v2: Vol, ino: nat)
    requires Inv(v) && Inv(v2) && OthersKept(v, v2, ino) && v2.inodes.Keys == v.inodes.Keys - {ino}
    ensures View(v2) == View(v) - {ino}
  {
  }

  // ---------------------------------------------------------------- who has which block

  ghost predicate InFile(v: Vol, b: nat) { exists i :: i in v.inodes && b in BlocksIn(v, i) }

  /** The blocks of the list, all free, are handed out, no other bit changes, and the hint is behind the last of them. */
  ghost predicate Adds(a: Allocator, a2: Allocator, bl: seq<nat>) {
    && |a2.bits| == |a.bits| && a2.blocks == a.blocks && (forall b: nat :: b < |a.bits| ==> (a2.bits[b] <==> a.bits[b] || b in bl))
    && (forall b :: b in bl ==> b < |a.bits| && !a.bits[b])
    && (if bl == [] then a2.hint == a.hint else a.blocks > 0 && a2.hint == (bl[|bl| - 1] + 1) % a.blocks)
  }

  /** A file that has blocks has these as well now, behind its own. */
  ghost predicate AddsBehind(v: Vol, a2: Allocator, ino: nat, bl: seq<nat>) {
    var own := if ino in v.inodes then BlocksIn(v, ino) else [];
    own <= bl && Adds(Allocator(v.bits, v.blocks, v.hint), a2, bl[|own|..])
  }

  /** The hint is not between two blocks of a file that follow one another. */
  ghost predicate Seamless(v: Vol) {
    forall i, l: nat :: i in v.inodes && l + 1 < |BlocksIn(v, i)| && BlocksIn(v, i)[l] + 1 == v.hint ==> BlocksIn(v, i)[l + 1] != v.hint
  }

  /** The blocks of the list are given back, and no other bit changes. */
  ghost predicate Clears(bits: seq<bool>, bits2: seq<bool>, bl: seq<nat>) {
    |bits2| == |bits| && forall b: nat :: b < |bits| ==> (bits2[b] <==> bits[b] && b !in bl)
  }

  // ---------------------------------------------------------------- when a call succeeds

  /** Room for that many blocks, in that many extents of the greatest length. */
  ghost predicate Allocates(a: Allocator, slots: int, total: nat)
    requires Sound(a)
    decreases total
  {
    total == 0 || (slots > 0 &&
      var n := if total > MAX_LEN then MAX_LEN else total;
      HasRun(a, n) && Allocates(Next(a, n), slots - 1, total - n))
  }

  /** The allocator once it has handed out as many of these blocks as it can, in runs of the greatest length. */
  ghost function AfterAll(a: Allocator, slots: int, total: nat): (r: Allocator)
    requires Sound(a)
    ensures Sound(r) && Onward(a, r)
    decreases total
  {
    var n := if total > MAX_LEN then MAX_LEN else total;
    if total == 0 || slots <= 0 || !HasRun(a, n) then a else AfterAll(Next(a, n), slots - 1, total - n)
  }

  /** The allocator once a call has asked it for what it needs. */
  ghost function Asked(v: Vol, op: Op): (r: Allocator)
    requires Geometry(v)
    ensures Sound(r) && Onward(AllocatorOf(v), r)
  {
    var a := AllocatorOf(v);
    match op
    case Write(ino, data, trunc, append) => AskedByWrite(v, ino, |data|, trunc, append)
    case Splicing(ino, data, off) =>
      if ino in v.inodes && off <= v.inodes[ino].size then AskedBySplice(v, ino, off + |data|) else a
    case Remove(_) => a
    case NewBlock(ino, _) => if ino in v.inodes && v.inodes[ino].file then a else if HasRun(a, 1) then Next(a, 1) else a
    case EditBlock(_, _, _) => a
  }

  ghost function AskedByWrite(v: Vol, ino: nat, len: nat, trunc: bool, append: bool): (r: Allocator)
    requires Geometry(v)
    ensures Sound(r) && Onward(AllocatorOf(v), r)
  {
    var a := AllocatorOf(v);
    if trunc && append then a
    else if ino !in v.inodes then AfterAll(a, MAX_EXTENTS, Blocks(len))
    else if !(trunc || append) || !v.inodes[ino].file then a
    else if trunc then AfterAll(a, MAX_EXTENTS, Blocks(len))
    else AskedByAppend(v, v.inodes[ino], len)
  }

  ghost function AskedByAppend(v: Vol, n: Inode, len: nat): (r: Allocator)
    requires Geometry(v)
    ensures Sound(r) && Onward(AllocatorOf(v), r)
  {
    var tail := Blocks(n.size) * BLOCK - n.size;
    if len <= tail then AllocatorOf(v) else AfterAll(AllocatorOf(v), MAX_EXTENTS - |n.ext|, Blocks(len - tail))
  }

  ghost function AskedBySplice(v: Vol, ino: nat, end: nat): (r: Allocator)
    requires Geometry(v) && ino in v.inodes
    ensures Sound(r) && Onward(AllocatorOf(v), r)
  {
    var a, n := AllocatorOf(v), Blocks(end) - Blocks(v.inodes[ino].size);
    if n > 0 && AcceptsSplice(v, ino, end) then Next(a, n) else a
  }

  ghost function AllocatorOf(v: Vol): (a: Allocator)
    requires Geometry(v)
    ensures Sound(a)
  {
    Allocator(v.bits, v.blocks, v.hint)
  }

  /** The flags, the kind of the file, and the room it takes: exactly what decides a call. */
  ghost predicate Accepts(v: Vol, op: Op)
    requires Geometry(v)
  {
    match op
    case Write(ino, data, trunc, append) => AcceptsWrite(v, ino, |data|, trunc, append)
    case Splicing(ino, data, off) => ino in v.inodes && off <= v.inodes[ino].size && AcceptsSplice(v, ino, off + |data|)
    case Remove(ino) => ino in v.inodes
    case NewBlock(ino, _) =>
      (ino in v.inodes ==> !v.inodes[ino].file && |v.inodes[ino].ext| < MAX_EXTENTS) && HasRun(AllocatorOf(v), 1)
    case EditBlock(ino, l, _) => ino in v.inodes && !v.inodes[ino].file && l < v.inodes[ino].size / BLOCK
  }

  ghost predicate AcceptsWrite(v: Vol, ino: nat, len: nat, trunc: bool, append: bool)
    requires Geometry(v)
  {
    if trunc && append then false
    else if ino !in v.inodes || trunc then
      (ino in v.inodes ==> v.inodes[ino].file) && Allocates(AllocatorOf(v), MAX_EXTENTS, Blocks(len))
    else append && v.inodes[ino].file && AcceptsAppend(v, v.inodes[ino], len)
  }

  ghost predicate AcceptsAppend(v: Vol, n: Inode, len: nat)
    requires Geometry(v)
  {
    var tail := Blocks(n.size) * BLOCK - n.size;
    len <= tail || Allocates(AllocatorOf(v), MAX_EXTENTS - |n.ext|, Blocks(len - tail))
  }

  /** Within the last block, or in one more extent. */
  ghost predicate AcceptsSplice(v: Vol, ino: nat, end: nat)
    requires Geometry(v) && ino in v.inodes
  {
    var n := v.inodes[ino];
    n.file && (Blocks(end) <= Blocks(n.size) ||
      (|n.ext| < MAX_EXTENTS && Blocks(end) - Blocks(n.size) <= MAX_LEN && HasRun(AllocatorOf(v), Blocks(end) - Blocks(n.size))))
  }

  class Volume {
    const blocks: nat
    const meta: set<nat>
    var bits: seq<bool>
    var hint: nat
    var disk: seq<Content>
    var inodes: map<nat, Inode>

    ghost function V(): Vol
      reads this
    {
      Vol(blocks, bits, hint, disk, inodes, meta)
    }

    ghost function A(): Allocator
      reads this
    {
      Allocator(bits, blocks, hint)
    }

    /** The volume without some of its inodes. */
    ghost function Besides(but: set<nat>): Vol
      reads this
    {
      V().(inodes := inodes - but)
    }

    /** A volume as mount finds it. */
    constructor (v: Vol)
      requires Inv(v)
      ensures V() == v
    {
      blocks, meta := v.blocks, v.meta;
      bits, hint, disk, inodes := v.bits, v.hint, v.disk, v.inodes;
    }

    /** alloc_blocks: with block 0 taken, what it hands out was free and lies in the volume. */
    method AllocBlocks(n: nat) returns (ok: bool, first: nat)
      requires Geometry(V())
      modifies this`bits, this`hint
      ensures ok ==> 0 < n && FreeRange(old(bits), blocks, first, n) && bits == Marked(old(bits), first, n, true) && hint < blocks
      ensures !ok ==> V() == old(V())
      ensures ok <==> old(HasRun(A(), n))
      ensures ok ==> A() == old(Next(A(), n)) && hint == (first + n) % blocks
    {
      hide Next, Seen, FirstRun;
      if n == 0 || n > blocks { return false, 0; }
      ghost var j;
      ok, first, j := Scan(bits, blocks, hint, n);
      if !ok { return; }
      NextIs(A(), n, j);
      ghost var was := bits;
      for k := 0 to n
        invariant bits == Marked(was, first, k, true) && hint == old(hint)
      {
        bits := bits[first + k := true];
      }
      hint := (first + n) % blocks;
    }

    /** free_blocks */
    method FreeBlocks(first: nat, n: nat) returns (ok: bool)
      requires Geometry(V())
      modifies this`bits
      ensures ok == (0 < n && first + n <= blocks)
      ensures bits == if ok then Marked(old(bits), first, n, false) else old(bits)
    {
      if n == 0 || first + n > blocks { return false; }
      for k := 0 to n
        invariant bits == Marked(old(bits), first, k, false)
      {
        bits := bits[first + k := false];
      }
      return true;
    }

    /** read: exactly the bytes asked for, as far as the file goes. */
    method ReadAt(ino: nat, len: nat, off: nat) returns (out: Content)
      requires Inv(V())
      ensures if ino in inodes && inodes[ino].file && off < inodes[ino].size
              then out == ContentOf(V(), ino)[off..if off + len < inodes[ino].size then off + len else inodes[ino].size]
              else out == []
    {
      hide Inv, ContentOf;
      out := [];
      if ino !in inodes || !inodes[ino].file { return; }
      var size, ext := inodes[ino].size, inodes[ino].ext;
      if off >= size { return; }
      var n := if len > size - off then size - off else len;
      ghost var c := ContentOf(V(), ino);
      while |out| < n
        invariant |out| <= n && out == c[off..off + |out|]
      {
        var done := |out|;
        var l, at := (off + done) / BLOCK, (off + done) % BLOCK;
        var take := if BLOCK - at > n - done then n - done else BLOCK - at;
        ReadStep(V(), ino, off + done, take);
        var phys := Map(ext, l);
        if phys == None || phys.value >= |disk| { return; }
        out := out + disk[phys.value][at..at + take];
        assert c[off..off + done] + c[off + done..off + done + take] == c[off..off + done + take];
      }
    }

    /** write_at, up to the end of the file or past it: the data is spliced in, and nothing else changes. */
    method WriteAt(ino: nat, data: Content, off: nat) returns (ok: bool, ghost reach: nat)
      requires Inv(V()) && (ino in inodes ==> off <= inodes[ino].size)
      modifies this`bits, this`hint, this`disk, this`inodes
      ensures Inv(V()) && OthersKept(old(V()), V(), ino) && inodes.Keys == old(inodes).Keys && reach <= |data|
      ensures ok ==> ino in old(inodes) && old(inodes)[ino].file && inodes[ino].file
      ensures ok ==> ContentOf(V(), ino) == Splice(old(ContentOf(V(), ino)), off, data)
      ensures !ok ==> inodes == old(inodes)
      ensures !ok && ino in inodes ==> ContentOf(V(), ino) == Torn(old(ContentOf(V(), ino)), off, data[..reach])
      ensures old(Geometry(V())) && (ok <==> ino in old(inodes) && old(AcceptsSplice(V(), ino, off + |data|)))
      ensures A() == if ino in old(inodes) then old(AskedBySplice(V(), ino, off + |data|)) else old(A())
      ensures ino in old(inodes) ==> AddsBehind(old(V()), A(), ino, BlocksIn(V(), ino))
    {
      hide Inv, InFlight, Claim, Splice, Dense, OthersKept, Torn, ContentOf, HasRun, Next, Blocks, BlocksOf, AddsBehind, Onward, Map, FreeRange, AskedBySplice, AcceptsSplice;
      GeometryOf(V());
      NothingYet(V(), ino, off, data);
      if ino !in inodes { return false, 0; }
      ghost var v0 := V();
      Aborted(v0, v0, ino, inodes[ino].ext, off, data, 0);
      OwnBehind(v0, ino);
      NotAsked(v0, ino, off + |data|);
      if !inodes[ino].file { return false, 0; }
      var ext, size := inodes[ino].ext, inodes[ino].size;
      InodeIsOk(v0, ino);
      var done: nat := 0;
      ghost var ext0, grew := ext, false;
      while done < |data|
        invariant done <= |data| && inodes == old(inodes) && InFlight(v0, V(), ino, ext, off, data, done)
        invariant if grew then AcceptsSplice(v0, ino, off + |data|) && |BlocksOf(ext)| == Blocks(off + |data|) else AllocatorOf(v0) == A() && ext == ext0
        invariant AddsBehind(v0, A(), ino, BlocksOf(ext)) && (grew ==> A() == AskedBySplice(v0, ino, off + |data|))
        decreases |data| - done, if (off + done) / BLOCK < |BlocksOf(ext)| then 0 else 1
      {
        FlightFacts(v0, V(), ino, ext, off, data, done);
        Aborted(v0, V(), ino, ext, off, data, done);
        DenseMap(ext, 0, (off + done) / BLOCK);
        var phys := Map(ext, (off + done) / BLOCK);
        if phys == None {
          NeedIs(|BlocksOf(ext)|, off, done, |data|);
          if off + done < size { return false, done; }
          var got;
          got, ext := GrowExtents(v0, ino, ext, off, data, done);
          if !got { return false, done; }
          grew := true;
        } else {
          done := PutChunk(v0, ino, ext, off, data, done, phys.value);
        }
      }
      FlightFacts(v0, V(), ino, ext, off, data, done);
      Within(|BlocksOf(ext)|, off + |data|);
      var grown := if off + |data| > size then off + |data| else size;
      Landing(v0, V(), ino, ext, off, data, grown);
      inodes := inodes[ino := Inode(true, grown, ext)];
      return true, done;
    }

    /** The part of the data that goes to one block. */
    method PutChunk(ghost v0: Vol, ghost ino: nat, ghost ext: seq<Extent>, off: nat, data: Content, done: nat, phys: nat) returns (done2: nat)
      requires InFlight(v0, V(), ino, ext, off, data, done) && done < |data|
      requires (off + done) / BLOCK < |BlocksOf(ext)| && phys == BlocksOf(ext)[(off + done) / BLOCK]
      modifies this`disk
      ensures done < done2 <= |data| && V() == old(V()).(disk := disk) && InFlight(v0, V(), ino, ext, off, data, done2)
    {
      hide InFlight, BlocksOf;
      var inblk := (off + done) % BLOCK;
      var chunk := if BLOCK - inblk > |data| - done then |data| - done else BLOCK - inblk;
      ChunkStep(v0, V(), ino, ext, off, data, done, chunk);
      disk := disk[phys := Patch(disk[phys], inblk, data[done..done + chunk])];
      return done + chunk;
    }

    /** One more extent, for all blocks a write still needs behind the file's own. */
    method GrowExtents(ghost v0: Vol, ino: nat, ext0: seq<Extent>, off: nat, data: Content, done: nat) returns (ok: bool, ext: seq<Extent>)
      requires InFlight(v0, V(), ino, ext0, off, data, done) && done < |data|
      requires |BlocksOf(ext0)| <= (off + done) / BLOCK && v0.inodes[ino].size <= off + done
      requires v0.inodes[ino].file && ext0 == v0.inodes[ino].ext && AllocatorOf(v0) == A() && AddsBehind(v0, A(), ino, BlocksOf(ext0))
      modifies this`bits, this`hint
      ensures Geometry(v0) && (ok <==> AcceptsSplice(v0, ino, off + |data|))
      ensures ok ==> InFlight(v0, V(), ino, ext, off, data, done) && |BlocksOf(ext)| == Blocks(off + |data|)
      ensures ok ==> (off + done) / BLOCK < |BlocksOf(ext)|
      ensures ok ==> A() == AskedBySplice(v0, ino, off + |data|) && AddsBehind(v0, A(), ino, BlocksOf(ext))
      ensures !ok ==> ext == ext0 && V() == old(V())
    {
      hide Inv, InFlight, Claim, Dense, OthersKept, HasRun, Next, Blocks, BlocksOf, AddsBehind;
      FlightFacts(v0, V(), ino, ext0, off, data, done);
      OwnSize(v0, V(), ino, off, data, done);
      var l := (off + done) / BLOCK;
      NeedIs(|BlocksOf(ext0)|, off, done, |data|);
      ext := ext0;
      if |ext| >= MAX_EXTENTS { return false, ext; }
      var start := l * BLOCK;
      var need := (off + |data| - start + BLOCK - 1) / BLOCK;
      if need == 0 || need > MAX_LEN { return false, ext; }
      ghost var v1 := V();
      var got, first := AllocBlocks(need);
      if !got { return false, ext; }
      GrowStep(v0, v1, V(), ino, ext, off, data, done, first, need);
      AppendExtent(ext, 0, Extent(l, need, first));
      BehindRange(v0, AllocatorOf(v1), ino, BlocksOf(ext), first, need);
      return true, ext + [Extent(l, need, first)];
    }

    /** write_blocks: `data` into fresh blocks behind those of `ext0`, the last one padded with zeros. */
    method WriteBlocks(ext0: seq<Extent>, data: Content) returns (ok: bool, ext: seq<Extent>, ghost anew: seq<nat>)
      requires Inv(V()) && Dense(ext0, 0) && |ext0| <= MAX_EXTENTS
      modifies this`bits, this`hint, this`disk
      ensures Inv(V()) && OthersKept(old(V()), V(), -1)
      ensures ok ==> Dense(ext, 0) && |ext| <= MAX_EXTENTS && BlocksOf(ext) == BlocksOf(ext0) + anew && |anew| == Blocks(|data|)
      ensures ok ==> Filling(old(V()), V(), anew, data, |data|)
      ensures old(Sound(A())) && (ok <==> old(Allocates(A(), MAX_EXTENTS - |ext0|, Blocks(|data|))))
      ensures A() == old(AfterAll(A(), MAX_EXTENTS - |ext0|, Blocks(|data|))) && (ok ==> Adds(old(A()), A(), anew))
    {
      hide Inv, Filling, Claim, OthersKept, Dense, BlocksOf, Allocates, AfterAll, Next, Adds, Onward;
      ghost var v0, a0 := V(), A();
      GeometryOf(v0);
      StartFilling(v0, data);
      AddsNothing(A());
      ext, anew := ext0, [];
      var total, done := Blocks(|data|), 0;
      while done < total
        invariant done <= total && inodes == old(inodes) && Dense(ext, 0) && |ext| <= MAX_EXTENTS
        invariant BlocksOf(ext) == BlocksOf(ext0) + anew && |anew| == done
        invariant Filling(v0, V(), anew, data, Reach(data, done))
        invariant Sound(A()) && (Allocates(a0, MAX_EXTENTS - |ext0|, total) <==> Allocates(A(), MAX_EXTENTS - |ext|, total - done))
        invariant AfterAll(a0, MAX_EXTENTS - |ext0|, total) == AfterAll(A(), MAX_EXTENTS - |ext|, total - done) && Adds(a0, A(), anew)
      {
        FillingFacts(v0, V(), anew, data, Reach(data, done));
        AllocatesStep(A(), MAX_EXTENTS - |ext|, total - done);
        var want := total - done;
        var chunk := if want > MAX_LEN then MAX_LEN else want;
        if |ext| >= MAX_EXTENTS { return false, ext, []; }
        ghost var v1 := V();
        var got, first := AllocBlocks(chunk);
        if !got { return false, ext, []; }
        ghost var bl := anew + Range(first, chunk);
        FillAlloc(v0, v1, V(), anew, data, Reach(data, done), first, chunk);
        AddsRange(a0, AllocatorOf(v1), anew, first, chunk);
        FillChunk(v0, anew, data, done, first, chunk);
        AppendExtent(ext, 0, Extent(|BlocksOf(ext)|, chunk, first));
        assert BlocksOf(ext0) + anew + Range(first, chunk) == BlocksOf(ext0) + bl;
        ext, anew := ext + [Extent(|BlocksOf(ext)|, chunk, first)], bl;
        done := done + chunk;
      }
      FillingFacts(v0, V(), anew, data, Reach(data, done));
      AllocatesNothing(A(), MAX_EXTENTS - |ext|);
      return true, ext, anew;
    }

    /** The inner loop: a chunk of blocks, one block of the data in each. */
    method FillChunk(ghost v0: Vol, ghost anew: seq<nat>, data: Content, done: nat, first: nat, chunk: nat)
      requires Filling(v0, V(), anew + Range(first, chunk), data, Reach(data, done)) && |anew| == done && done + chunk <= Blocks(|data|)
      modifies this`disk
      ensures Filling(v0, V(), anew + Range(first, chunk), data, Reach(data, done + chunk))
    {
      hide Filling;
      ghost var bl := anew + Range(first, chunk);
      for i := 0 to chunk
        invariant V() == old(V()).(disk := disk) && Filling(v0, V(), bl, data, Reach(data, done + i))
      {
        var d := (done + i) * BLOCK;
        var n := if |data| - d > BLOCK then BLOCK else |data| - d;
        var blk := data[d..d + n] + seq(BLOCK - n, _ => 0);
        FillBlock(v0, V(), bl, data, done + i, blk);
        disk := disk[first + i := blk];
      }
    }

    /** write_file on a path that does not exist: a fresh inode holds exactly the data. */
    method CreateFile(ino: nat, data: Content) returns (ok: bool)
      requires Inv(V()) && ino !in inodes
      modifies this`bits, this`hint, this`disk, this`inodes
      ensures Inv(V()) && OthersKept(old(V()), V(), if ok then ino else -1)
      ensures ok ==> inodes.Keys == old(inodes).Keys + {ino} && inodes[ino].file && ContentOf(V(), ino) == data
      ensures !ok ==> inodes == old(inodes)
      ensures old(Geometry(V())) && (ok <==> old(Allocates(A(), MAX_EXTENTS, Blocks(|data|))))
      ensures A() == old(AfterAll(A(), MAX_EXTENTS, Blocks(|data|))) && (ok ==> AddsBehind(old(V()), A(), ino, BlocksIn(V(), ino)))
    {
      hide Inv, Filling, Claim, OthersKept, Dense, ContentOf, Allocates, AfterAll, Adds;
      ghost var v0 := V();
      StartFilling(v0, data);
      AllocatesNothing(A(), MAX_EXTENTS);
      AddsNothing(A());
      NoBlocks(v0, ino);
      var ext: seq<Extent> := [];
      ghost var anew: seq<nat> := [];
      if |data| > 0 {
        ok, ext, anew := WriteBlocks([], data);
        if !ok { return false; }
      }
      SealGrown(v0, V(), ino, [], Inode(true, |data|, ext), anew, [], data);
      assert BlocksOf(ext) == anew by { assert [] + anew == anew; }
      inodes := inodes[ino := Inode(true, |data|, ext)];
      return true;
    }

    /** write_file with O_TRUNC: new blocks first, then the inode, and only then do the old blocks go. */
    method TruncateFile(ino: nat, data: Content) returns (ok: bool)
      requires Inv(V()) && ino in inodes && inodes[ino].file
      modifies this`bits, this`hint, this`disk, this`inodes
      ensures Inv(V()) && OthersKept(old(V()), V(), if ok then ino else -1)
      ensures ok ==> inodes.Keys == old(inodes).Keys && inodes[ino].file && ContentOf(V(), ino) == data
      ensures !ok ==> inodes == old(inodes)
      ensures old(Geometry(V())) && (ok <==> old(Allocates(A(), MAX_EXTENTS, Blocks(|data|))))
      ensures hint == old(AfterAll(A(), MAX_EXTENTS, Blocks(|data|))).hint
      ensures if ok then Clears(old(AfterAll(A(), MAX_EXTENTS, Blocks(|data|))).bits, bits, old(BlocksIn(V(), ino)))
              else bits == old(AfterAll(A(), MAX_EXTENTS, Blocks(|data|))).bits
      ensures ok ==> Adds(old(A()), old(AfterAll(A(), MAX_EXTENTS, Blocks(|data|))), BlocksIn(V(), ino))
    {
      hide Inv, Filling, Claim, OthersKept, Dense, ContentOf, Allocates, AfterAll, Adds, Clears;
      ghost var v0 := V();
      StartFilling(v0, data);
      AllocatesNothing(A(), MAX_EXTENTS);
      AddsNothing(A());
      NoBlocks(v0, ino);
      var was := inodes[ino].ext;
      var ext: seq<Extent> := [];
      ghost var anew: seq<nat> := [];
      if |data| > 0 {
        ok, ext, anew := WriteBlocks([], data);
        if !ok { return false; }
      }
      ghost var v1 := V();
      SealGrown(v0, v1, ino, [], Inode(true, |data|, ext), anew, [], data);
      assert BlocksOf(ext) == anew by { assert [] + anew == anew; }
      OldBlocksFree(v0, v1, ino, Inode(true, |data|, ext), anew, data);
      inodes := inodes[ino := Inode(true, |data|, ext)];
      ghost var v2 := V();
      assert inodes - {} == inodes;
      ReleaseExtents(was, {});
      assert inodes - {} == inodes;
      KeptBut(v0, v2, V(), ino);
      KeptOne(v2, V(), ino);
      return true;
    }

    /** write_file with O_APPEND: the tail block is filled up first, the rest goes to fresh blocks. */
    method AppendFile(ino: nat, data: Content) returns (ok: bool)
      requires Inv(V()) && ino in inodes && inodes[ino].file
      modifies this`bits, this`hint, this`disk, this`inodes
      ensures Inv(V()) && OthersKept(old(V()), V(), if ok then ino else -1)
      ensures ok ==> inodes.Keys == old(inodes).Keys && inodes[ino].file && ContentOf(V(), ino) == old(ContentOf(V(), ino)) + data
      ensures !ok ==> inodes == old(inodes)
      ensures old(Geometry(V())) && (ok <==> old(AcceptsAppend(V(), inodes[ino], |data|)))
      ensures A() == old(AskedByAppend(V(), inodes[ino], |data|))
      ensures ok ==> AddsBehind(old(V()), A(), ino, BlocksIn(V(), ino))
    {
      hide Inv, Filling, Claim, OthersKept, Dense, ContentOf, BlocksOf, Map, Bytes, Allocates, AfterAll, Adds, AddsBehind;
      ghost var v0 := V();
      GeometryOf(v0);
      OwnBehind(v0, ino);
      var size, ext := inodes[ino].size, inodes[ino].ext;
      TailRoom(size);
      var inblk := size % BLOCK;
      var n := if inblk == 0 then 0 else if BLOCK - inblk > |data| then |data| else BLOCK - inblk;
      TailStep(v0, ino, data, n);
      if inblk != 0 {
        var phys := Map(ext, size / BLOCK);
        if phys == None || phys.value >= |disk| { return false; }
        disk := disk[phys.value := Patch(disk[phys.value], inblk, data[..n])];
      }
      ghost var v1 := V();
      ghost var anew: seq<nat> := [];
      if n < |data| {
        ok, ext, anew := WriteBlocks(ext, data[n..]);
        KeptTwice(v0, v1, V(), -1);
        if !ok { return false; }
        SealAppend(v0, v1, V(), ino, ext, anew, data, n);
        BehindOwn(v0, A(), ino, anew);
      } else {
        SealTail(v0, v1, ino, data);
      }
      inodes := inodes[ino := Inode(true, size + |data|, ext)];
      return true;
    }

    /** write_file, after the path lookup: `ino` is the file found, or the free inode for a new one. */
    method WriteFile(ino: nat, data: Content, trunc: bool, append: bool) returns (ok: bool)
      requires Inv(V())
      modifies this`bits, this`hint, this`disk, this`inodes
      ensures Inv(V()) && OthersKept(old(V()), V(), if ok then ino else -1)
      ensures ok ==> inodes.Keys == old(inodes).Keys + {ino} && inodes[ino].file
      ensures ok ==> ContentOf(V(), ino) == (if append && ino in old(inodes) then old(ContentOf(V(), ino)) else []) + data
      ensures ok && ino in old(inodes) ==> trunc != append && old(inodes)[ino].file
      ensures !ok ==> inodes == old(inodes)
      ensures old(Geometry(V())) && (ok <==> old(Accepts(V(), Write(ino, data, trunc, append))))
      ensures Settled(old(V()), V(), old(AskedByWrite(V(), ino, |data|, trunc, append)), ok)
    {
      hide Inv, OthersKept, ContentOf, Allocates, AcceptsAppend, AfterAll, AskedByAppend, Adds, Clears, Settled;
      ghost var v0 := V();
      NothingMoved(V());
      GeometryOf(V());
      SettledSame(v0);
      if trunc && append { return false; }
      if ino in inodes {
        if !(trunc || append) || !inodes[ino].file { return false; }
        if trunc {
          ok := TruncateFile(ino, data);
          SettledAnew(v0, V(), AfterAll(AllocatorOf(v0), MAX_EXTENTS, Blocks(|data|)), ino, ok);
        } else {
          ok := AppendFile(ino, data);
          SettledMore(v0, V(), ino, ok);
        }
      } else {
        ok := CreateFile(ino, data);
        SettledMore(v0, V(), ino, ok);
      }
    }

    /** The loop that gives an extent list back; no file has it, but for inodes that are on their way out. */
    method ReleaseExtents(was: seq<Extent>, ghost but: set<nat>)
      requires Inv(Besides(but)) && Orphans(Besides(but), was)
      modifies this`bits
      ensures Inv(Besides(but)) && OthersKept(old(Besides(but)), Besides(but), -1)
      ensures Clears(old(bits), bits, BlocksOf(was))
    {
      hide Inv, OthersKept, Orphans, Clears, BlocksOf;
      ghost var v0 := Besides(but);
      NothingMoved(v0);
      NoneCleared(bits);
      for i := 0 to |was|
        invariant Inv(Besides(but)) && Besides(but) == v0.(bits := bits) && OthersKept(v0, Besides(but), -1) && Orphans(Besides(but), was[i..])
        invariant Clears(old(bits), bits, BlocksOf(was[..i]))
      {
        ghost var v1 := Besides(but);
        OrphanStep(v1, was[i..]);
        assert was[i..][0] == was[i] && was[i..][1..] == was[i + 1..];
        GeometryOf(v1);
        var ok := FreeBlocks(was[i].start, was[i].len);
        KeptTwice(v0, v1, Besides(but), -1);
        ClearsMore(v0.bits, v1.bits, was, i);
      }
      assert was[..|was|] == was;
    }

    /** rm, once the directory entry is gone: the blocks go back, the inode goes, nothing else changes. */
    method RemoveFile(ino: nat) returns (ok: bool)
      requires Inv(V())
      modifies this`bits, this`inodes
      ensures Inv(V()) && OthersKept(old(V()), V(), ino) && ok == (ino in old(inodes)) && inodes == old(inodes) - {ino}
      ensures if ok then Clears(old(bits), bits, old(BlocksIn(V(), ino))) else bits == old(bits)
    {
      hide Inv, OthersKept;
      ghost var v0 := V();
      NothingMoved(v0);
      KeptFewer(v0, v0, ino);
      if ino !in inodes {
        assert inodes - {ino} == inodes;
        return false;
      }
      Unlinked(v0, ino);
      ghost var v1 := Besides({ino});
      ReleaseExtents(inodes[ino].ext, {ino});
      inodes := inodes - {ino};
      KeptBut(v0, v1, V(), ino);
      return true;
    }

    /** A block just allocated, written. */
    method PutFirst(ghost v0: Vol, first: nat, blk: Content) returns (ghost anew: seq<nat>)
      requires Filling(v0, v0, [], blk, 0) && |blk| == BLOCK && FreeRange(v0.bits, v0.blocks, first, 1) && hint < blocks
      requires V() == v0.(bits := Marked(v0.bits, first, 1, true), hint := hint)
      modifies this`disk
      ensures V() == old(V()).(disk := disk) && anew == Range(first, 1) && Filling(v0, V(), anew, blk, BLOCK)
      ensures Inv(V()) && OthersKept(v0, V(), -1)
    {
      hide Inv, Filling, OthersKept;
      ghost var v1 := V();
      FillAlloc(v0, v0, v1, [], blk, 0, first, 1);
      anew := Range(first, 1);
      assert [] + anew == anew;
      FillBlock(v0, v1, anew, blk, 0, blk);
      disk := disk[first := blk];
      FillingFacts(v0, V(), anew, blk, BLOCK);
    }

    /** The block of a new directory, or one more block of one that has no room left. */
    method GrowDirectory(ino: nat, blk: Content) returns (ok: bool)
      requires Inv(V()) && |blk| == BLOCK
      modifies this`bits, this`hint, this`disk, this`inodes
      ensures Inv(V()) && OthersKept(old(V()), V(), if ok then ino else -1)
      ensures ok ==> inodes.Keys == old(inodes).Keys + {ino} && !inodes[ino].file && (ino in old(inodes) ==> !old(inodes)[ino].file)
      ensures ok ==> ContentOf(V(), ino) == (if ino in old(inodes) then old(ContentOf(V(), ino)) else []) + blk
      ensures !ok ==> inodes == old(inodes)
      ensures old(Geometry(V())) && (ok <==> old(Accepts(V(), NewBlock(ino, blk))))
      ensures A() == old(Asked(V(), NewBlock(ino, blk))) && (ok ==> AddsBehind(old(V()), A(), ino, BlocksIn(V(), ino)))
    {
      hide Inv, Filling, Claim, OthersKept, Dense, ContentOf, BlocksOf, HasRun, Next, AddsBehind;
      ghost var v0 := V();
      DirectoryFacts(v0, ino, blk);
      OwnBehind(v0, ino);
      if ino in inodes && inodes[ino].file { return false; }
      var got, first := AllocBlocks(1);
      if !got { return false; }
      ghost var anew := PutFirst(v0, first, blk);
      ghost var v2 := V();
      var ext := if ino in inodes then inodes[ino].ext else [];
      var size := if ino in inodes then inodes[ino].size else 0;
      if |ext| >= MAX_EXTENTS { return false; }
      var lblk := size / BLOCK;
      AppendExtent(ext, 0, Extent(lblk, 1, first));
      BehindRange(v0, AllocatorOf(v0), ino, BlocksOf(ext), first, 1);
      var n := Inode(false, size + BLOCK, ext + [Extent(lblk, 1, first)]);
      SealGrown(v0, v2, ino, ext, n, anew, if ino in v0.inodes then ContentOf(v0, ino) else [], blk);
      inodes := inodes[ino := n];
      return true;
    }

    /** One block of a directory rewritten in place. */
    method EditDirectory(ino: nat, l: nat, blk: Content) returns (ok: bool)
      requires Inv(V()) && |blk| == BLOCK
      modifies this`disk
      ensures Inv(V()) && OthersKept(old(V()), V(), if ok then ino else -1)
      ensures ok == (ino in inodes && !inodes[ino].file && l < inodes[ino].size / BLOCK)
      ensures ok ==> l * BLOCK + BLOCK <= inodes[ino].size && ContentOf(V(), ino) == Splice(old(ContentOf(V(), ino)), l * BLOCK, blk)
    {
      hide Inv, OthersKept, ContentOf, Map, Splice;
      ghost var v0 := V();
      NothingMoved(v0);
      if ino !in inodes || inodes[ino].file || l >= inodes[ino].size / BLOCK { return false; }
      EditStep(v0, ino, l, blk);
      var phys := Map(inodes[ino].ext, l);
      if phys.None? { return false; }
      disk := disk[phys.value := blk];
      return true;
    }

    /** Any one call shows what it would show on byte sequences. */
    method Perform(op: Op) returns (ghost r: Outcome)
      requires Inv(V()) && BlockSized(op)
      modifies this`bits, this`hint, this`disk, this`inodes
      ensures Inv(V()) && View(V()) == After(old(View(V())), op, r)
      ensures old(Geometry(V())) && (r.ok <==> old(Accepts(V(), op)))
      ensures Settled(old(V()), V(), old(Asked(V(), op)), r.ok) && OthersKept(old(V()), V(), op.ino)
    {
      hide Inv, OthersKept, ContentOf, Splice, Torn, AcceptsWrite, AcceptsSplice, HasRun, AskedByWrite, AskedBySplice, Adds, Clears, Settled;
      ghost var v0 := V();
      GeometryOf(v0);
      NothingMoved(v0);
      SettledSame(v0);
      KeptFewer(v0, v0, op.ino);
      ViewSame(v0, v0);
      var ok := false;
      r := Outcome(false, 0);
      match op {
        case Write(ino, data, trunc, append) =>
          ok := WriteFile(ino, data, trunc, append);
          if ok { ViewOne(v0, V(), ino); } else { ViewSame(v0, V()); KeptFewer(v0, V(), ino); }
          r := Outcome(ok, 0);
        case Splicing(ino, data, off) =>
          if ino in inodes && off <= inodes[ino].size {
            ghost var reach;
            ok, reach := WriteAt(ino, data, off);
            r := Outcome(ok, reach);
            SettledMore(v0, V(), ino, ok);
            ViewOne(v0, V(), ino);
          }
        case Remove(ino) =>
          ok := RemoveFile(ino);
          SettledLess(v0, V(), ino, ok);
          ViewLess(v0, V(), ino);
          r := Outcome(ok, 0);
        case NewBlock(ino, blk) =>
          ok := GrowDirectory(ino, blk);
          SettledMore(v0, V(), ino, ok);
          if ok { ViewOne(v0, V(), ino); } else { ViewSame(v0, V()); KeptFewer(v0, V(), ino); }
          r := Outcome(ok, 0);
        case EditBlock(ino, l, blk) =>
          ok := EditDirectory(ino, l, blk);
          SettledSpace(v0, V(), ok);
          if ok { ViewOne(v0, V(), ino); } else { ViewSame(v0, V()); KeptFewer(v0, V(), ino); }
          r := Outcome(ok, 0);
      }
    }

    /** Any number of calls, in any order, with the volumes in between: the ownership rules hold and every file reads as on byte sequences. */
    method PerformAll(ops: seq<Op>) returns (ghost rs: seq<Outcome>, ghost vs: seq<Vol>)
      requires Inv(V()) && forall k :: 0 <= k < |ops| ==> BlockSized(ops[k])
      modifies this`bits, this`hint, this`disk, this`inodes
      ensures Inv(V()) && |rs| == |ops| && View(V()) == Replay(old(View(V())), ops, rs)
      ensures |vs| == |ops| + 1 && vs[0] == old(V()) && vs[|ops|] == V()
      ensures forall k :: 0 <= k < |ops| ==> Lawful(vs[k], ops[k], rs[k], vs[k + 1])
    {
      hide Inv, View, After, Lawful, Settled, Asked, OthersKept;
      rs, vs := [], [V()];
      for k := 0 to |ops|
        invariant Inv(V()) && |rs| == k && View(V()) == Replay(old(View(V())), ops[..k], rs)
        invariant |vs| == k + 1 && vs[0] == old(V()) && vs[k] == V()
        invariant forall j :: 0 <= j < k ==> Lawful(vs[j], ops[j], rs[j], vs[j + 1])
      {
        ghost var v := V();
        ghost var r := Perform(ops[k]);
        assert ops[..k + 1][..k] == ops[..k] && (rs + [r])[..k] == rs;
        LawfulIs(v, ops[k], r, V());
        rs, vs := rs + [r], vs + [V()];
      }
      assert ops[..|ops|] == ops;
    }
  }

  /** A call succeeded exactly when its volume had what it takes, shows what it should, and left free what it should. */
  ghost predicate Lawful(v: Vol, op: Op, r: Outcome, v2: Vol) {
    && Inv(v) && Inv(v2) && Geometry(v) && (r.ok <==> Accepts(v, op)) && Settled(v, v2, Asked(v, op), r.ok)
    && OthersKept(v, v2, op.ino) && View(v2) == After(View(v), op, r)
  }

  lemma LawfulIs(v: Vol, op: Op, r: Outcome, v2: Vol)
    requires Inv(v) && Inv(v2) && Geometry(v) && (r.ok <==> Accepts(v, op)) && Settled(v, v2, Asked(v, op), r.ok)
    requires OthersKept(v, v2, op.ino) && View(v2) == After(View(v), op, r)
    ensures Lawful(v, op, r, v2)
  {
  }

  /**
    * The bits are those of the allocator asked, less the blocks that are in no file any more; and with a call that
    * succeeds, that allocator has marked nothing but blocks of files.
    */
  ghost predicate Settled(v: Vol, v2: Vol, a: Allocator, ok: bool) {
    && |v2.bits| == |a.bits| == |v.bits| && v2.hint == a.hint && v2.meta == v.meta && v2.blocks == v.blocks
    && (forall b: nat :: b < |v.bits| ==> (v2.bits[b] <==> a.bits[b] && (InFile(v, b) ==> InFile(v2, b))))
    && (forall b: nat :: b < |v.bits| && v.bits[b] ==> a.bits[b] && (InFile(v2, b) ==> InFile(v, b)))
    && (ok ==> forall b: nat :: b < |v.bits| && a.bits[b] ==> v.bits[b] || InFile(v2, b))
    && (v2.hint == v.hint || v2.hint == 0 || (v2.hint <= |v.bits| && !v.bits[v2.hint - 1])) && (Seamless(v) ==> Seamless(v2))
  }

  lemma SettledSame(v: Vol)
    requires Geometry(v)
    ensures Settled(v, v, AllocatorOf(v), true) && Settled(v, v, AllocatorOf(v), false)
  {
  }

  /** Only what is on the disk has changed. */
  lemma SettledSpace(v: Vol, v2: Vol, ok: bool)
    requires Geometry(v) && v2 == v.(disk := v2.disk)
    ensures Settled(v, v2, AllocatorOf(v), ok)
  {
    assert forall b: nat :: InFile(v, b) ==> InFile(v2, b) by {
      forall b: nat | InFile(v, b) ensures InFile(v2, b) {
        var i :| i in v.inodes && b in BlocksIn(v, i);
        assert b in BlocksIn(v2, i);
      }
    }
  }

  lemma StillInFile(v: Vol, v2: Vol, ino: nat, b: nat)
    requires Inv(v) && Inv(v2) && OthersKept(v, v2, ino) && v2.inodes.Keys == v.inodes.Keys + {ino} && InFile(v, b)
    ensures InFile(v2, b) || (ino in v.inodes && b in BlocksIn(v, ino))
  {
    var i :| i in v.inodes && b in BlocksIn(v, i);
    if i != ino { assert b in BlocksIn(v2, i); }
  }

  lemma WasInFile(v: Vol, v2: Vol, ino: nat, b: nat)
    requires Inv(v) && Inv(v2) && OthersKept(v, v2, ino) && v2.inodes.Keys == v.inodes.Keys + {ino} && InFile(v2, b)
    ensures InFile(v, b) || b in BlocksIn(v2, ino)
  {
    var i :| i in v2.inodes && b in BlocksIn(v2, i);
    if i != ino { assert i in v.inodes && b in BlocksIn(v, i); }
  }

  /** A file has more blocks, or none have come to it. */
  lemma SettledMore(v: Vol, v2: Vol, ino: nat, ok: bool)
    requires Inv(v) && Inv(v2) && v2.blocks == v.blocks && v2.meta == v.meta && (!ok ==> v2.inodes == v.inodes)
    requires ok ==> OthersKept(v, v2, ino) && v2.inodes.Keys == v.inodes.Keys + {ino} && AddsBehind(v, Allocator(v2.bits, v2.blocks, v2.hint), ino, BlocksIn(v2, ino))
    requires Onward(Allocator(v.bits, v.blocks, v.hint), Allocator(v2.bits, v2.blocks, v2.hint))
    ensures Settled(v, v2, Allocator(v2.bits, v2.blocks, v2.hint), ok)
  {
    hide OthersKept, Inv, InFile, Onward, Adds, Seamless;
    OnwardHint(Allocator(v.bits, v.blocks, v.hint), Allocator(v2.bits, v2.blocks, v2.hint));
    if ok {
      var own, bl := if ino in v.inodes then BlocksIn(v, ino) else [], BlocksIn(v2, ino);
      var anew := bl[|own|..];
      assert bl == own + anew;
      AddsMeans(Allocator(v.bits, v.blocks, v.hint), Allocator(v2.bits, v2.blocks, v2.hint), anew);
      MoreBehind(v, v2, ino);
      forall b: nat | InFile(v, b) ensures InFile(v2, b) {
        StillInFile(v, v2, ino, b);
        if b in own { HasBlock(v2, ino, b); }
      }
      forall b: nat | b in anew ensures InFile(v2, b) { HasBlock(v2, ino, b); }
      forall b: nat | b in own ensures InFile(v, b) { HasBlock(v, ino, b); }
      forall b: nat | InFile(v2, b) ensures InFile(v, b) || b in anew { WasInFile(v, v2, ino, b); }
    } else {
      OnwardMeans(v, v2);
      forall b: nat ensures InFile(v, b) <==> InFile(v2, b) {
        if InFile(v, b) { SameFiles(v, v2, b); }
        if InFile(v2, b) { SameFiles(v2, v, b); }
      }
    }
  }

  lemma OnwardHint(a: Allocator, a2: Allocator)
    requires Onward(a, a2)
    ensures a2.hint == a.hint || a2.hint == 0 || (a2.hint <= |a.bits| && !a.bits[a2.hint - 1])
  {
  }

  lemma AddsMeans(a: Allocator, a2: Allocator, bl: seq<nat>)
    requires Adds(a, a2, bl)
    ensures |a2.bits| == |a.bits| && (forall b: nat :: b < |a.bits| ==> (a2.bits[b] <==> a.bits[b] || b in bl))
    ensures forall b: nat :: b in bl ==> b < |a.bits| && !a.bits[b]
  {
  }

  /** A call that failed and lost blocks has put the hint behind one of them. */
  lemma OnwardMeans(v: Vol, v2: Vol)
    requires Onward(Allocator(v.bits, v.blocks, v.hint), Allocator(v2.bits, v2.blocks, v2.hint)) && v2.inodes == v.inodes && Inv(v)
    ensures |v2.bits| == |v.bits| && forall b: nat :: b < |v.bits| && v.bits[b] ==> v2.bits[b]
    ensures Seamless(v) ==> Seamless(v2)
  {
    hide Geometry, MetaOk, NoSharing;
    if Seamless(v) {
      forall i, l: nat | i in v2.inodes && l + 1 < |BlocksIn(v2, i)| && BlocksIn(v2, i)[l] + 1 == v2.hint ensures BlocksIn(v2, i)[l + 1] != v2.hint {
        assert BlocksIn(v2, i) == BlocksIn(v, i) && Data(v, BlocksIn(v, i)) && BlocksIn(v, i)[l] in BlocksIn(v, i);
      }
    }
  }

  /** The last block a file has come to has the hint behind it. */
  lemma HintBehind(v: Vol, v2: Vol, ino: nat, own: seq<nat>, anew: seq<nat>)
    requires Inv(v2) && ino in v2.inodes && BlocksIn(v2, ino) == own + anew && v2.blocks == v.blocks
    requires forall i :: i in v2.inodes && i != ino ==> i in v.inodes && v2.inodes[i] == v.inodes[i]
    requires anew == [] ==> v2.hint == v.hint && (own == [] || (ino in v.inodes && BlocksIn(v, ino) == own))
    requires anew != [] ==> v.blocks > 0 && v2.hint == (anew[|anew| - 1] + 1) % v.blocks
    ensures Seamless(v) ==> Seamless(v2)
  {
    hide Geometry, MetaOk;
    if Seamless(v) {
      forall i, l: nat | i in v2.inodes && l + 1 < |BlocksIn(v2, i)| && BlocksIn(v2, i)[l] + 1 == v2.hint ensures BlocksIn(v2, i)[l + 1] != v2.hint {
        if anew == [] {
          if i == ino { assert BlocksIn(v, i) == BlocksIn(v2, i); } else { assert BlocksIn(v, i) == BlocksIn(v2, i); }
        } else {
          LastBehind(v2, ino, i, l, own + anew);
        }
      }
    }
  }

  lemma LastBehind(v: Vol, ino: nat, i: nat, l: nat, bl: seq<nat>)
    requires Inv(v) && ino in v.inodes && bl == BlocksIn(v, ino) && bl != [] && v.hint == (bl[|bl| - 1] + 1) % v.blocks
    requires i in v.inodes && l + 1 < |BlocksIn(v, i)|
    ensures BlocksIn(v, i)[l] + 1 != v.hint
  {
    hide Geometry, MetaOk, InodesOk, NoSharing;
    var last, bi := bl[|bl| - 1], BlocksIn(v, i);
    assert last in bl && bi[l] in bi;
    assert last < v.blocks by { HasBlock(v, ino, last); FileBlock(v, last); }
    WrapsTo(last + 1, v.blocks);
    assert bi[l] != last by { if i == ino { OwnClaim(v, ino); } else { ApartFiles(v, i, ino); } }
  }

  lemma ApartFiles(v: Vol, i: nat, j: nat)
    requires Inv(v) && i in v.inodes && j in v.inodes && i != j
    ensures Disjoint(BlocksIn(v, i), BlocksIn(v, j))
  {
  }

  lemma MoreBehind(v: Vol, v2: Vol, ino: nat)
    requires Inv(v) && Inv(v2) && OthersKept(v, v2, ino) && v2.inodes.Keys == v.inodes.Keys + {ino} && v2.blocks == v.blocks
    requires AddsBehind(v, Allocator(v2.bits, v2.blocks, v2.hint), ino, BlocksIn(v2, ino))
    ensures Seamless(v) ==> Seamless(v2)
  {
    hide Inv, Seamless;
    forall i | i in v2.inodes && i != ino ensures i in v.inodes && v2.inodes[i] == v.inodes[i] {}
    var own := if ino in v.inodes then BlocksIn(v, ino) else [];
    assert BlocksIn(v2, ino) == own + BlocksIn(v2, ino)[|own|..];
    HintBehind(v, v2, ino, own, BlocksIn(v2, ino)[|own|..]);
  }

  /** A file is written anew: its old blocks go, and it has those that have come. */
  lemma SettledAnew(v: Vol, v2: Vol, a: Allocator, ino: nat, ok: bool)
    requires Inv(v) && Inv(v2) && v2.blocks == v.blocks && v2.meta == v.meta && v2.hint == a.hint && a.blocks == v.blocks && ino in v.inodes
    requires ok ==> OthersKept(v, v2, ino) && v2.inodes.Keys == v.inodes.Keys && Adds(Allocator(v.bits, v.blocks, v.hint), a, BlocksIn(v2, ino))
    requires ok ==> Clears(a.bits, v2.bits, BlocksIn(v, ino))
    requires !ok ==> v2.inodes == v.inodes && v2.bits == a.bits
    requires Onward(Allocator(v.bits, v.blocks, v.hint), a)
    ensures Settled(v, v2, a, ok)
  {
    hide OthersKept, Inv, InFile, Adds, Onward, Seamless;
    OnwardHint(Allocator(v.bits, v.blocks, v.hint), a);
    if ok {
      AddsMeans(Allocator(v.bits, v.blocks, v.hint), a, BlocksIn(v2, ino));
      AnewBehind(v, v2, a, ino);
      assert v.inodes.Keys == v.inodes.Keys + {ino};
      forall b: nat ensures InFile(v, b) && !(b in BlocksIn(v, ino)) ==> InFile(v2, b) { if InFile(v, b) { StillInFile(v, v2, ino, b); } }
      forall b: nat | b in BlocksIn(v2, ino) ensures InFile(v2, b) { HasBlock(v2, ino, b); }
      forall b: nat | b < |v2.bits| && InFile(v2, b) ensures v2.bits[b] { FileBlock(v2, b); }
      forall b: nat | b in BlocksIn(v, ino) ensures InFile(v, b) { HasBlock(v, ino, b); }
      forall b: nat | InFile(v2, b) ensures InFile(v, b) || b in BlocksIn(v2, ino) { WasInFile(v, v2, ino, b); }
    } else {
      OnwardMeans(v, v2);
      forall b: nat ensures InFile(v, b) <==> InFile(v2, b) {
        if InFile(v, b) { SameFiles(v, v2, b); }
        if InFile(v2, b) { SameFiles(v2, v, b); }
      }
    }
  }

  lemma AnewBehind(v: Vol, v2: Vol, a: Allocator, ino: nat)
    requires Inv(v) && Inv(v2) && OthersKept(v, v2, ino) && v2.inodes.Keys == v.inodes.Keys && ino in v.inodes && v2.blocks == v.blocks
    requires Adds(Allocator(v.bits, v.blocks, v.hint), a, BlocksIn(v2, ino)) && v2.hint == a.hint
    ensures Seamless(v) ==> Seamless(v2)
  {
    hide Inv, Seamless;
    forall i | i in v2.inodes && i != ino ensures i in v.inodes && v2.inodes[i] == v.inodes[i] {}
    HintBehind(v, v2, ino, [], BlocksIn(v2, ino));
  }

  lemma HasBlock(v: Vol, ino: nat, b: nat)
    requires ino in v.inodes && b in BlocksIn(v, ino)
    ensures InFile(v, b)
  {
  }

  lemma SameFiles(v: Vol, v2: Vol, b: nat)
    requires v2.inodes == v.inodes && InFile(v, b)
    ensures InFile(v2, b)
  {
    var i :| i in v.inodes && b in BlocksIn(v, i);
    assert b in BlocksIn(v2, i);
  }

  /** The blocks of files are marked. */
  lemma FileBlock(v: Vol, b: nat)
    requires Inv(v) && InFile(v, b)
    ensures b < v.blocks <= |v.bits| && v.bits[b] && b !in v.meta
  {
    var i :| i in v.inodes && b in BlocksIn(v, i);
    assert Data(v, BlocksIn(v, i));
  }

  /** A file has gone, and its blocks. */
  lemma SettledLess(v: Vol, v2: Vol, ino: nat, ok: bool)
    requires Inv(v) && Inv(v2) && v2.blocks == v.blocks && v2.meta == v.meta && v2.hint == v.hint && ok == (ino in v.inodes)
    requires v2.inodes == v.inodes - {ino} && if ok then Clears(v.bits, v2.bits, BlocksIn(v, ino)) else v2.bits == v.bits
    ensures Settled(v, v2, AllocatorOf(v), ok)
  {
    hide Inv, InFile, Seamless;
    GeometryOf(v);
    FewerSeams(v, v2, ino);
    forall b: nat | InFile(v2, b) ensures InFile(v, b) { FewerFiles(v, v2, ino, b); }
    forall b: nat ensures InFile(v, b) && !(ok && b in BlocksIn(v, ino)) ==> InFile(v2, b) { if InFile(v, b) { LeftInFile(v, v2, ino, b); } }
    forall b: nat | b < |v2.bits| && InFile(v2, b) ensures v2.bits[b] { FileBlock(v2, b); }
    if ok {
      forall b: nat | b in BlocksIn(v, ino) ensures InFile(v, b) { HasBlock(v, ino, b); }
    }
  }

  lemma FewerSeams(v: Vol, v2: Vol, ino: nat)
    requires v2.inodes == v.inodes - {ino} && v2.hint == v.hint
    ensures Seamless(v) ==> Seamless(v2)
  {
    forall i | i in v2.inodes ensures BlocksIn(v2, i) == BlocksIn(v, i) {}
  }

  lemma FewerFiles(v: Vol, v2: Vol, ino: nat, b: nat)
    requires v2.inodes == v.inodes - {ino} && InFile(v2, b)
    ensures InFile(v, b)
  {
    var i :| i in v2.inodes && b in BlocksIn(v2, i);
    assert b in BlocksIn(v, i);
  }

  lemma LeftInFile(v: Vol, v2: Vol, ino: nat, b: nat)
    requires v2.inodes == v.inodes - {ino} && InFile(v, b)
    ensures InFile(v2, b) || (ino in v.inodes && b in BlocksIn(v, ino))
  {
    var i :| i in v.inodes && b in BlocksIn(v, i);
    if i != ino { assert b in BlocksIn(v2, i); }
  }

  lemma OwnBehind(v: Vol, ino: nat)
    ensures AddsBehind(v, Allocator(v.bits, v.blocks, v.hint), ino, if ino in v.inodes then BlocksIn(v, ino) else [])
  {
  }

  lemma AddsNothing(a: Allocator)
    ensures Adds(a, a, [])
  {
  }

  lemma NoneCleared(bits: seq<bool>)
    ensures Clears(bits, bits, BlocksOf([]))
  {
  }

  lemma ClearsMore(bits: seq<bool>, bits2: seq<bool>, was: seq<Extent>, i: nat)
    requires i < |was| && Clears(bits, bits2, BlocksOf(was[..i])) && was[i].start + was[i].len <= |bits2|
    ensures Clears(bits, Marked(bits2, was[i].start, was[i].len, false), BlocksOf(was[..i + 1]))
  {
    BlocksUpto(was, i);
    forall b: nat ensures b in BlocksOf(was[..i + 1]) <==> b in BlocksOf(was[..i]) || was[i].start <= b < was[i].start + was[i].len {
      InRange(was[i].start, was[i].len, b);
    }
  }

  lemma {:induction false} BlocksUpto(was: seq<Extent>, i: nat)
    requires i < |was|
    ensures BlocksOf(was[..i + 1]) == BlocksOf(was[..i]) + Range(was[i].start, was[i].len)
  {
    if i > 0 {
      BlocksUpto(was[1..], i - 1);
      assert was[..i + 1][1..] == was[1..][..i] && was[..i][1..] == was[1..][..i - 1];
    } else {
      assert was[..1] == [was[0]] && was[..0] == [];
    }
  }

  lemma BehindOwn(v: Vol, a2: Allocator, ino: nat, anew: seq<nat>)
    requires ino in v.inodes && Adds(Allocator(v.bits, v.blocks, v.hint), a2, anew)
    ensures AddsBehind(v, a2, ino, BlocksIn(v, ino) + anew)
  {
    assert (BlocksIn(v, ino) + anew)[|BlocksIn(v, ino)|..] == anew;
  }

  /** The allocator with a run marked, and its hint behind it. */
  function WithRun(a: Allocator, first: nat, n: nat): Allocator
    requires first + n <= |a.bits| && 0 < a.blocks
  {
    Allocator(Marked(a.bits, first, n, true), a.blocks, (first + n) % a.blocks)
  }

  lemma AddsRange(a: Allocator, a2: Allocator, bl: seq<nat>, first: nat, n: nat)
    requires Adds(a, a2, bl) && FreeRange(a2.bits, a2.blocks, first, n) && 0 < n
    ensures Adds(a, WithRun(a2, first, n), bl + Range(first, n))
  {
    forall b: nat ensures b in bl + Range(first, n) <==> b in bl || first <= b < first + n { InRange(first, n, b); }
  }

  lemma BehindRange(v: Vol, a2: Allocator, ino: nat, bl: seq<nat>, first: nat, n: nat)
    requires AddsBehind(v, a2, ino, bl) && FreeRange(a2.bits, a2.blocks, first, n) && 0 < n
    ensures 0 < a2.blocks && AddsBehind(v, WithRun(a2, first, n), ino, bl + Range(first, n))
  {
    hide Adds;
    var own := if ino in v.inodes then BlocksIn(v, ino) else [];
    AddsRange(Allocator(v.bits, v.blocks, v.hint), a2, bl[|own|..], first, n);
    assert (bl + Range(first, n))[|own|..] == bl[|own|..] + Range(first, n);
  }

  lemma NotAsked(v: Vol, ino: nat, end: nat)
    requires Geometry(v) && ino in v.inodes
    ensures AcceptsSplice(v, ino, end) ==> v.inodes[ino].file
    ensures v.inodes[ino].file && Blocks(end) <= Blocks(v.inodes[ino].size) ==> AcceptsSplice(v, ino, end)
    ensures !AcceptsSplice(v, ino, end) || Blocks(end) <= Blocks(v.inodes[ino].size) ==> AskedBySplice(v, ino, end) == AllocatorOf(v)
    ensures Blocks(end) > Blocks(v.inodes[ino].size) && AcceptsSplice(v, ino, end) ==>
              HasRun(AllocatorOf(v), Blocks(end) - Blocks(v.inodes[ino].size))
              && AskedBySplice(v, ino, end) == Next(AllocatorOf(v), Blocks(end) - Blocks(v.inodes[ino].size))
  {
  }

  // ---------------------------------------------------------------- filling new blocks

  /** How many blocks a write that has run out of them asks for. */
  lemma OwnSize(v0: Vol, v: Vol, ino: nat, off: nat, data: Content, done: nat)
    requires ino in v0.inodes && InFlight(v0, v, ino, v0.inodes[ino].ext, off, data, done)
    ensures Geometry(v0) && |BlocksOf(v0.inodes[ino].ext)| == Blocks(v0.inodes[ino].size)
  {
    hide Claim, OthersKept, Dense, Written;
    InodeIsOk(v0, ino);
    GeometryOf(v0);
  }

  lemma NeedIs(n: nat, off: nat, done: nat, len: nat)
    requires done < len && off + done <= n * BLOCK
    ensures (off + done) / BLOCK >= n ==> (off + done) / BLOCK == n && Blocks(off + len) > n
    ensures (off + done) / BLOCK >= n ==> (off + len - (off + done) / BLOCK * BLOCK + BLOCK - 1) / BLOCK == Blocks(off + len) - n
  {
  }

  lemma Within(n: nat, end: nat)
    requires end <= n * BLOCK
    ensures Blocks(end) <= n
  {
  }

  lemma TailRoom(size: nat)
    ensures Blocks(size) * BLOCK - size == if size % BLOCK == 0 then 0 else BLOCK - size % BLOCK
  {
  }

  lemma AllocatesStep(a: Allocator, slots: int, total: nat)
    requires Sound(a) && 0 < total
    ensures var n := if total > MAX_LEN then MAX_LEN else total;
            && (Allocates(a, slots, total) <==> slots > 0 && HasRun(a, n) && Allocates(Next(a, n), slots - 1, total - n))
            && AfterAll(a, slots, total) == if slots <= 0 || !HasRun(a, n) then a else AfterAll(Next(a, n), slots - 1, total - n)
  {
  }

  lemma AllocatesNothing(a: Allocator, slots: int)
    requires Sound(a)
    ensures Allocates(a, slots, 0) && AfterAll(a, slots, 0) == a
  {
  }

  function Reach(data: Content, done: nat): nat { if done * BLOCK < |data| then done * BLOCK else |data| }

  /** What was allocated stays so and keeps its bytes. */
  ghost predicate TakenKept(v0: Vol, v: Vol) {
    && |v.bits| == |v0.bits| && |v.disk| == |v0.disk| <= |v0.bits|
    && forall b :: 0 <= b < |v0.disk| && v0.bits[b] ==> v.bits[b] && v.disk[b] == v0.disk[b]
  }

  ghost predicate Fresh(v0: Vol, bl: seq<nat>) {
    forall b :: b in bl ==> b < |v0.bits| && !v0.bits[b]
  }

  /** Blocks nobody had at v0, with the first d bytes of `data` on them. */
  ghost predicate Filling(v0: Vol, v: Vol, bl: seq<nat>, data: Content, d: nat) {
    && Inv(v0) && Inv(v) && v.inodes == v0.inodes && v.blocks == v0.blocks && v.meta == v0.meta
    && Claim(v, -1, bl) && TakenKept(v0, v) && Fresh(v0, bl) && d <= |data|
    && Whole(v.disk) && OnDisk(v.disk, bl) && d <= |bl| * BLOCK && Bytes(v.disk, bl, d) == data[..d]
  }

  lemma FillingFacts(v0: Vol, v: Vol, bl: seq<nat>, data: Content, d: nat)
    requires Filling(v0, v, bl, data, d)
    ensures Geometry(v) && Inv(v) && OthersKept(v0, v, -1)
  {
    hide Claim;
    forall i | i in v0.inodes ensures ContentOf(v, i) == ContentOf(v0, i) { TakenContent(v0, v, i); }
  }

  lemma TakenContent(v0: Vol, v: Vol, ino: nat)
    requires Inv(v0) && Inv(v) && v.inodes == v0.inodes && TakenKept(v0, v) && ino in v0.inodes
    ensures ContentOf(v, ino) == ContentOf(v0, ino)
  {
    hide NoSharing, MetaOk;
    ContentFits(v0, ino);
    ContentFits(v, ino);
    assert Data(v0, BlocksIn(v0, ino));
    TakenBytes(v0, v, BlocksIn(v0, ino), v0.inodes[ino].size);
  }

  lemma TakenBytes(v0: Vol, v: Vol, bl: seq<nat>, n: nat)
    requires TakenKept(v0, v) && Data(v0, bl) && Whole(v0.disk) && Whole(v.disk) && OnDisk(v0.disk, bl) && n <= |bl| * BLOCK
    ensures OnDisk(v.disk, bl) && Bytes(v.disk, bl, n) == Bytes(v0.disk, bl, n)
  {
    forall x | 0 <= x < n ensures ByteAt(v.disk, bl, x) == ByteAt(v0.disk, bl, x) { assert bl[x / BLOCK] in bl; }
  }

  lemma StartFilling(v: Vol, data: Content)
    requires Inv(v)
    ensures Filling(v, v, [], data, 0) && Geometry(v) && OthersKept(v, v, -1)
  {
    assert data[..0] == [];
  }

  lemma NoBlocks(v: Vol, ino: nat)
    requires Inv(v)
    ensures Claim(v, ino, BlocksOf([])) && Dense([], 0) && BlocksOf([]) == [] && Whole(v.disk)
  {
  }

  lemma FillAlloc(v0: Vol, v: Vol, v2: Vol, bl: seq<nat>, data: Content, d: nat, first: nat, n: nat)
    requires Filling(v0, v, bl, data, d) && FreeRange(v.bits, v.blocks, first, n) && v2.hint < v.blocks
    requires v2 == v.(bits := Marked(v.bits, first, n, true), hint := v2.hint)
    ensures Filling(v0, v2, bl + Range(first, n), data, d) && first + n <= |v2.disk|
  {
    hide Geometry, MetaOk, InodesOk, NoSharing, Bytes, Claim;
    AllocClaims(v, -1, bl, first, n, v2.hint);
    GeometryOf(v);
    var bl2 := bl + Range(first, n);
    ClaimOnDisk(v2, -1, bl2);
    MoreBlocks(v.disk, bl, Range(first, n), d);
  }

  lemma MoreBlocks(disk: seq<Content>, bl: seq<nat>, more: seq<nat>, n: nat)
    requires Whole(disk) && OnDisk(disk, bl) && OnDisk(disk, bl + more) && n <= |bl| * BLOCK
    ensures Bytes(disk, bl + more, n) == Bytes(disk, bl, n)
  {
    forall x | 0 <= x < n ensures ByteAt(disk, bl + more, x) == ByteAt(disk, bl, x) {}
  }

  /** A whole block behind what is there already. */
  lemma PutBlock(disk: seq<Content>, bl: seq<nat>, l: nat, blk: Content, m: nat)
    requires Whole(disk) && OnDisk(disk, bl) && Distinct(bl) && l < |bl| && |blk| == BLOCK && m <= BLOCK
    ensures var disk2 := disk[bl[l] := blk];
            && Whole(disk2) && OnDisk(disk2, bl) && l * BLOCK + m <= |bl| * BLOCK
            && Bytes(disk2, bl, l * BLOCK + m) == Bytes(disk, bl, l * BLOCK) + blk[..m]
  {
    var disk2 := disk[bl[l] := blk];
    var a, b := Bytes(disk2, bl, l * BLOCK + m), Bytes(disk, bl, l * BLOCK) + blk[..m];
    forall x | 0 <= x < l * BLOCK + m ensures a[x] == b[x] {
      Place(l, 0, x);
      if x < l * BLOCK { assert bl[x / BLOCK] != bl[l]; }
    }
  }

  lemma FillBlock(v0: Vol, v: Vol, bl: seq<nat>, data: Content, k: nat, blk: Content)
    requires Filling(v0, v, bl, data, Reach(data, k)) && k * BLOCK < |data| && |blk| == BLOCK && k < |bl|
    requires var n := Reach(data, k + 1) - k * BLOCK; blk[..n] == data[k * BLOCK..k * BLOCK + n]
    ensures bl[k] < |v.disk| && Filling(v0, v.(disk := v.disk[bl[k] := blk]), bl, data, Reach(data, k + 1))
  {
    hide Geometry, MetaOk, InodesOk, NoSharing, Bytes, Claim;
    var n := Reach(data, k + 1) - k * BLOCK;
    StoreKeeps(v, -1, bl, k, blk);
    ClaimOnDisk(v, -1, bl);
    PutBlock(v.disk, bl, k, blk, n);
    assert bl[k] in bl;
    assert data[..k * BLOCK] + data[k * BLOCK..k * BLOCK + n] == data[..k * BLOCK + n];
  }

  lemma KeptOne(v: Vol, v2: Vol, ino: nat)
    requires Inv(v) && Inv(v2) && OthersKept(v, v2, -1) && ino in v.inodes
    ensures ino in v2.inodes && v2.inodes[ino] == v.inodes[ino] && ContentOf(v2, ino) == ContentOf(v, ino)
  {
  }

  lemma NothingMoved(v: Vol)
    requires Inv(v)
    ensures OthersKept(v, v, -1)
  {
  }

  /** Fresh blocks behind the old ones, and the inode that says so. */
  lemma SealGrown(v0: Vol, v: Vol, ino: nat, ext0: seq<Extent>, n: Inode, anew: seq<nat>, c: Content, data: Content)
    requires Filling(v0, v, anew, data, |data|) && InodeOk(n) && n.size == |c| + |data|
    requires Claim(v0, ino, BlocksOf(ext0)) && Whole(v0.disk) && OnDisk(v0.disk, BlocksOf(ext0))
    requires |c| == |BlocksOf(ext0)| * BLOCK && Bytes(v0.disk, BlocksOf(ext0), |c|) == c
    requires BlocksOf(n.ext) == BlocksOf(ext0) + anew
    ensures var v2 := v.(inodes := v.inodes[ino := n]);
            Inv(v2) && OthersKept(v0, v2, ino) && ContentOf(v2, ino) == c + data
  {
    hide Geometry, MetaOk, InodesOk, NoSharing, Bytes, OthersKept, Dense;
    var v2, bl := v.(inodes := v.inodes[ino := n]), BlocksOf(ext0);
    GrownClaim(v0, v, ino, bl, anew, data);
    CommitKeeps(v, ino, n);
    FillingFacts(v0, v, anew, data, |data|);
    KeptFewer(v0, v, ino);
    KeptTwice(v0, v, v2, ino);
    TakenBytes(v0, v, bl, |c|);
    BytesJoin(v.disk, bl, anew, |data|);
    assert data[..|data|] == data;
  }

  lemma GrownClaim(v0: Vol, v: Vol, ino: nat, bl: seq<nat>, anew: seq<nat>, data: Content)
    requires Filling(v0, v, anew, data, |data|) && Claim(v0, ino, bl) && OnDisk(v0.disk, bl)
    ensures Claim(v, ino, bl + anew)
  {
    hide Geometry, MetaOk, InodesOk, NoSharing, Bytes;
    WiderClaim(v, ino, anew);
    assert Data(v, bl) by {
      forall b | b in bl ensures b < |v0.disk| { var i :| 0 <= i < |bl| && bl[i] == b; }
    }
    JoinClaims(v, ino, bl, anew);
  }

  lemma BytesJoin(disk: seq<Content>, a: seq<nat>, b: seq<nat>, m: nat)
    requires Whole(disk) && OnDisk(disk, a) && OnDisk(disk, b) && m <= |b| * BLOCK
    ensures OnDisk(disk, a + b) && Bytes(disk, a + b, |a| * BLOCK + m) == Bytes(disk, a, |a| * BLOCK) + Bytes(disk, b, m)
  {
    var l, r := Bytes(disk, a + b, |a| * BLOCK + m), Bytes(disk, a, |a| * BLOCK) + Bytes(disk, b, m);
    forall x | 0 <= x < |a| * BLOCK + m ensures l[x] == r[x] {
      if x >= |a| * BLOCK { Place(x / BLOCK - |a|, x % BLOCK, x - |a| * BLOCK); }
    }
  }

  // ---------------------------------------------------------------- appending

  /** The tail block holds n bytes more than the inode owns up to. */
  ghost predicate TailFilled(v0: Vol, v1: Vol, ino: nat, data: Content, n: nat) {
    && Inv(v0) && Inv(v1) && v1 == v0.(disk := v1.disk) && OthersKept(v0, v1, -1) && ino in v0.inodes && n <= |data|
    && (n < |data| ==> (v0.inodes[ino].size + n) % BLOCK == 0)
    && (var bl, m := BlocksIn(v0, ino), v0.inodes[ino].size + n;
        Whole(v1.disk) && OnDisk(v1.disk, bl) && m <= |bl| * BLOCK && Bytes(v1.disk, bl, m) == ContentOf(v0, ino) + data[..n])
  }

  /** Bytes behind the end of a file do not show. */
  lemma TailStep(v: Vol, ino: nat, data: Content, n: nat)
    requires Inv(v) && ino in v.inodes && n <= |data|
    requires var inblk := v.inodes[ino].size % BLOCK;
             n == if inblk == 0 then 0 else if BLOCK - inblk > |data| then |data| else BLOCK - inblk
    ensures OthersKept(v, v, -1) && Dense(v.inodes[ino].ext, 0) && |v.inodes[ino].ext| <= MAX_EXTENTS
    ensures var size, bl := v.inodes[ino].size, BlocksIn(v, ino);
            if size % BLOCK == 0 then TailFilled(v, v, ino, data, n)
            else
              && size / BLOCK < |bl| && Map(v.inodes[ino].ext, size / BLOCK) == Some(bl[size / BLOCK]) && bl[size / BLOCK] < |v.disk|
              && |v.disk[bl[size / BLOCK]]| == BLOCK && size % BLOCK + n <= BLOCK
              && TailFilled(v, v.(disk := v.disk[bl[size / BLOCK] := Patch(v.disk[bl[size / BLOCK]], size % BLOCK, data[..n])]), ino, data, n)
  {
    hide Geometry, MetaOk, InodesOk, NoSharing, Bytes, Claim, OthersKept;
    NothingMoved(v);
    InodeIsOk(v, ino);
    ContentFits(v, ino);
    var size := v.inodes[ino].size;
    if size % BLOCK == 0 {
      assert ContentOf(v, ino) + data[..0] == ContentOf(v, ino);
    } else {
      TailPatch(v, ino, data, n);
    }
  }

  lemma TailPatch(v: Vol, ino: nat, data: Content, n: nat)
    requires Inv(v) && ino in v.inodes && n <= |data| && v.inodes[ino].size % BLOCK != 0
    requires n == if BLOCK - v.inodes[ino].size % BLOCK > |data| then |data| else BLOCK - v.inodes[ino].size % BLOCK
    ensures var size, bl := v.inodes[ino].size, BlocksIn(v, ino);
            && size / BLOCK < |bl| && Map(v.inodes[ino].ext, size / BLOCK) == Some(bl[size / BLOCK]) && bl[size / BLOCK] < |v.disk|
            && |v.disk[bl[size / BLOCK]]| == BLOCK && size % BLOCK + n <= BLOCK
            && TailFilled(v, v.(disk := v.disk[bl[size / BLOCK] := Patch(v.disk[bl[size / BLOCK]], size % BLOCK, data[..n])]), ino, data, n)
  {
    hide Geometry, MetaOk, InodesOk, NoSharing, Bytes, Claim, OthersKept, Dense;
    var size, bl := v.inodes[ino].size, BlocksIn(v, ino);
    InodeIsOk(v, ino);
    ContentFits(v, ino);
    DenseMap(v.inodes[ino].ext, 0, size / BLOCK);
    OwnClaim(v, ino);
    ClaimOnDisk(v, ino, bl);
    var l := size / BLOCK;
    var blk := Patch(v.disk[bl[l]], size % BLOCK, data[..n]);
    StoreKeeps(v, ino, bl, l, blk);
    var v1 := v.(disk := v.disk[bl[l] := blk]);
    TailBytes(v.disk, bl, size, data[..n]);
    ContentFits(v1, ino);
    KeptAll(v, v1, ino);
  }

  lemma TailBytes(disk: seq<Content>, bl: seq<nat>, size: nat, d: Content)
    requires Whole(disk) && OnDisk(disk, bl) && Distinct(bl) && size % BLOCK != 0 && size / BLOCK < |bl| && size % BLOCK + |d| <= BLOCK
    ensures var l := size / BLOCK; var disk1 := disk[bl[l] := Patch(disk[bl[l]], size % BLOCK, d)];
            && Whole(disk1) && OnDisk(disk1, bl) && size + |d| <= |bl| * BLOCK
            && Bytes(disk1, bl, size + |d|) == Bytes(disk, bl, size) + d && Bytes(disk1, bl, size) == Bytes(disk, bl, size)
  {
    var l, at := size / BLOCK, size % BLOCK;
    var disk1 := disk[bl[l] := Patch(disk[bl[l]], at, d)];
    PatchByte(disk, bl, l, at, d, 0);
    var a, b := Bytes(disk1, bl, size + |d|), Bytes(disk, bl, size) + d;
    forall x | 0 <= x < size + |d| ensures a[x] == b[x] { PatchByte(disk, bl, l, at, d, x); }
    var a2, b2 := Bytes(disk1, bl, size), Bytes(disk, bl, size);
    forall x | 0 <= x < size ensures a2[x] == b2[x] { assert a[x] == b[x]; }
  }

  lemma KeptAll(v: Vol, v2: Vol, ino: nat)
    requires Inv(v) && Inv(v2) && OthersKept(v, v2, ino) && v2.inodes == v.inodes && ino in v.inodes
    requires ContentOf(v2, ino) == ContentOf(v, ino)
    ensures OthersKept(v, v2, -1)
  {
  }

  /** The data ended inside the tail block. */
  lemma SealTail(v0: Vol, v1: Vol, ino: nat, data: Content)
    requires TailFilled(v0, v1, ino, data, |data|)
    ensures var v2 := v1.(inodes := v1.inodes[ino := Inode(true, v0.inodes[ino].size + |data|, v0.inodes[ino].ext)]);
            Inv(v2) && OthersKept(v0, v2, ino) && ContentOf(v2, ino) == ContentOf(v0, ino) + data
  {
    hide Geometry, MetaOk, InodesOk, NoSharing, Bytes, Claim, OthersKept;
    var size := v0.inodes[ino].size;
    InodeIsOk(v0, ino);
    OwnClaim(v1, ino);
    if |data| > 0 { SameBlocks(size, size + |data|); }
    var n := Inode(true, size + |data|, v0.inodes[ino].ext);
    CommitKeeps(v1, ino, n);
    KeptFewer(v0, v1, ino);
    KeptTwice(v0, v1, v1.(inodes := v1.inodes[ino := n]), ino);
    assert data[..|data|] == data;
  }

  /** The tail block is full and the rest is on fresh blocks. */
  lemma SealAppend(v0: Vol, v1: Vol, v: Vol, ino: nat, ext: seq<Extent>, anew: seq<nat>, data: Content, n: nat)
    requires TailFilled(v0, v1, ino, data, n) && n < |data| && Filling(v1, v, anew, data[n..], |data| - n)
    requires Dense(ext, 0) && |ext| <= MAX_EXTENTS && BlocksOf(ext) == BlocksIn(v0, ino) + anew && |anew| == Blocks(|data| - n)
    ensures var v2 := v.(inodes := v.inodes[ino := Inode(true, v0.inodes[ino].size + |data|, ext)]);
            Inv(v2) && OthersKept(v0, v2, ino) && ContentOf(v2, ino) == ContentOf(v0, ino) + data
  {
    hide Geometry, MetaOk, InodesOk, NoSharing, Bytes, Claim, OthersKept, Dense, Filling, ContentOf, BlocksOf, Blocks;
    var size, c := v0.inodes[ino].size, ContentOf(v0, ino) + data[..n];
    InodeIsOk(v0, ino);
    OwnClaim(v1, ino);
    FullTail(size, n);
    MoreSize(size + n, |data| - n);
    SealGrown(v1, v, ino, v0.inodes[ino].ext, Inode(true, size + |data|, ext), anew, c, data[n..]);
    var v2 := v.(inodes := v.inodes[ino := Inode(true, size + |data|, ext)]);
    KeptFewer(v0, v1, ino);
    KeptTwice(v0, v1, v2, ino);
    assert data[..n] + data[n..] == data;
    assert c + data[n..] == ContentOf(v0, ino) + data;
  }

  lemma FullTail(size: nat, n: nat)
    requires (size + n) % BLOCK == 0 && size + n <= Blocks(size) * BLOCK
    ensures size + n == Blocks(size) * BLOCK
  {
  }

  lemma MoreSize(full: nat, more: nat)
    requires full % BLOCK == 0
    ensures Blocks(full + more) == full / BLOCK + Blocks(more)
  {
  }

  lemma WiderClaim(v: Vol, ino: nat, bl: seq<nat>)
    requires Claim(v, -1, bl)
    ensures Claim(v, ino, bl)
  {
  }

  lemma KeptFewer(v: Vol, v2: Vol, ino: int)
    requires Inv(v) && Inv(v2) && OthersKept(v, v2, -1)
    ensures OthersKept(v, v2, ino)
  {
  }

  // ---------------------------------------------------------------- giving blocks back

  /** Extents no file has any more. */
  ghost predicate Orphans(v: Vol, was: seq<Extent>) {
    forall k :: 0 <= k < |was| ==> Orphan(v, was[k])
  }

  ghost predicate Orphan(v: Vol, e: Extent) {
    && 0 < e.len && e.start + e.len <= v.blocks
    && (forall b :: e.start <= b < e.start + e.len ==> b !in v.meta)
    && (forall i :: i in v.inodes ==> Disjoint(Range(e.start, e.len), BlocksIn(v, i)))
  }

  lemma OrphanStep(v: Vol, was: seq<Extent>)
    requires Inv(v) && was != [] && Orphans(v, was)
    ensures was[0].start + was[0].len <= |v.bits|
    ensures var v2 := v.(bits := Marked(v.bits, was[0].start, was[0].len, false));
            Inv(v2) && OthersKept(v, v2, -1) && Orphans(v2, was[1..])
    ensures 0 < was[0].len && was[0].start + was[0].len <= v.blocks
  {
    assert Orphan(v, was[0]);
    FreeKeeps(v, was[0].start, was[0].len);
    var v2 := v.(bits := Marked(v.bits, was[0].start, was[0].len, false));
    forall k | 0 <= k < |was[1..]| ensures Orphan(v2, was[1..][k]) { assert Orphan(v, was[k + 1]); }
  }

  /** The blocks of one extent, among the blocks of all of them. */
  lemma {:induction false} ExtentBlocks(ext: seq<Extent>, from: nat, k: nat, b: nat)
    requires Dense(ext, from) && k < |ext| && ext[k].start <= b < ext[k].start + ext[k].len
    ensures b in BlocksOf(ext) && 0 < ext[k].len
  {
    InRange(ext[0].start, ext[0].len, b);
    if k > 0 { ExtentBlocks(ext[1..], from + ext[0].len, k - 1, b); }
  }

  lemma {:induction false} ExtentLength(ext: seq<Extent>, from: nat, k: nat)
    requires Dense(ext, from) && k < |ext|
    ensures 0 < ext[k].len
  {
    if k > 0 { ExtentLength(ext[1..], from + ext[0].len, k - 1); }
  }

  /** Blocks that were data and are in no file now are orphans. */
  lemma MakeOrphans(v: Vol, was: seq<Extent>)
    requires Inv(v) && Dense(was, 0) && Data(v, BlocksOf(was))
    requires forall i :: i in v.inodes ==> Disjoint(BlocksOf(was), BlocksIn(v, i))
    ensures Orphans(v, was)
  {
    forall k | 0 <= k < |was| ensures Orphan(v, was[k]) {
      var e := was[k];
      ExtentLength(was, 0, k);
      forall b: nat | e.start <= b < e.start + e.len ensures b in BlocksOf(was) { ExtentBlocks(was, 0, k, b); }
      assert e.start + e.len - 1 in BlocksOf(was);
      forall b | b in Range(e.start, e.len) ensures b in BlocksOf(was) { InRange(e.start, e.len, b); }
    }
  }

  lemma OldBlocksFree(v0: Vol, v: Vol, ino: nat, n: Inode, anew: seq<nat>, data: Content)
    requires Filling(v0, v, anew, data, |data|) && ino in v0.inodes && BlocksOf(n.ext) == anew
    requires Inv(v.(inodes := v.inodes[ino := n]))
    ensures Orphans(v.(inodes := v.inodes[ino := n]), v0.inodes[ino].ext)
  {
    hide Geometry, MetaOk, Bytes;
    var v2, was := v.(inodes := v.inodes[ino := n]), v0.inodes[ino].ext;
    assert InodeOk(v.inodes[ino]) && Data(v, BlocksIn(v, ino));
    forall i | i in v2.inodes ensures Disjoint(BlocksOf(was), BlocksIn(v2, i)) {
      if i == ino { assert Disjoint(anew, BlocksIn(v, ino)); } else { assert Disjoint(BlocksIn(v, ino), BlocksIn(v, i)); }
    }
    MakeOrphans(v2, was);
  }

  lemma UnlinkedInv(v: Vol, ino: nat)
    requires Inv(v) && ino in v.inodes
    ensures var v2 := v.(inodes := v.inodes - {ino});
            && Inv(v2) && OthersKept(v, v2, ino) && Data(v2, BlocksIn(v, ino))
            && forall i :: i in v2.inodes ==> Disjoint(BlocksIn(v, ino), BlocksIn(v2, i))
  {
    var v2 := v.(inodes := v.inodes - {ino});
    forall i | i in v2.inodes ensures v2.inodes[i] == v.inodes[i] && BlocksIn(v2, i) == BlocksIn(v, i) && Disjoint(BlocksIn(v, ino), BlocksIn(v2, i)) {}
  }

  lemma Unlinked(v: Vol, ino: nat)
    requires Inv(v) && ino in v.inodes
    ensures var v2 := v.(inodes := v.inodes - {ino});
            Inv(v2) && OthersKept(v, v2, ino) && Orphans(v2, v.inodes[ino].ext)
  {
    hide Geometry, MetaOk;
    var v2 := v.(inodes := v.inodes - {ino});
    assert InodeOk(v.inodes[ino]) && Data(v, BlocksIn(v, ino));
    UnlinkedInv(v, ino);
    MakeOrphans(v2, v.inodes[ino].ext);
  }

  lemma KeptBut(v: Vol, v1: Vol, v2: Vol, ino: nat)
    requires Inv(v) && Inv(v1) && Inv(v2) && OthersKept(v, v1, ino) && OthersKept(v1, v2, -1)
    ensures OthersKept(v, v2, ino)
  {
  }

  // ---------------------------------------------------------------- directories as files

  lemma DirectoryFacts(v: Vol, ino: nat, blk: Content)
    requires Inv(v)
    ensures Filling(v, v, [], blk, 0) && OthersKept(v, v, -1) && Geometry(v)
    ensures var ext := if ino in v.inodes then v.inodes[ino].ext else [];
            && Dense(ext, 0) && |ext| <= MAX_EXTENTS && Claim(v, ino, BlocksOf(ext)) && OnDisk(v.disk, BlocksOf(ext))
            && (ino !in v.inodes ==> BlocksOf(ext) == [])
    ensures ino in v.inodes && !v.inodes[ino].file ==>
              var size, bl := v.inodes[ino].size, BlocksIn(v, ino);
              size == |bl| * BLOCK && Bytes(v.disk, bl, |bl| * BLOCK) == ContentOf(v, ino)
  {
    hide MetaOk, NoSharing, Bytes;
    StartFilling(v, blk);
    if ino in v.inodes {
      OwnClaim(v, ino);
      ContentFits(v, ino);
    }
  }

  lemma EditStep(v: Vol, ino: nat, l: nat, blk: Content)
    requires Inv(v) && ino in v.inodes && !v.inodes[ino].file && l < v.inodes[ino].size / BLOCK && |blk| == BLOCK
    ensures var p := Map(v.inodes[ino].ext, l);
            && p.Some? && p.value < |v.disk| && l * BLOCK + BLOCK <= v.inodes[ino].size
            && (var v2 := v.(disk := v.disk[p.value := blk]);
                && Inv(v2) && OthersKept(v, v2, ino)
                && ContentOf(v2, ino) == Splice(ContentOf(v, ino), l * BLOCK, blk))
  {
    hide Geometry, MetaOk, InodesOk, NoSharing, Bytes, Claim, OthersKept, Dense, Splice;
    var bl, size := BlocksIn(v, ino), v.inodes[ino].size;
    InodeIsOk(v, ino);
    ContentFits(v, ino);
    OwnClaim(v, ino);
    ClaimOnDisk(v, ino, bl);
    DenseMap(v.inodes[ino].ext, 0, l);
    StoreKeeps(v, ino, bl, l, blk);
    ContentFits(v.(disk := v.disk[bl[l] := blk]), ino);
    RewrittenBlock(v.disk, bl, l, blk);
  }

  lemma RewrittenBlock(disk: seq<Content>, bl: seq<nat>, l: nat, blk: Content)
    requires Whole(disk) && OnDisk(disk, bl) && Distinct(bl) && l < |bl| && |blk| == BLOCK
    ensures var disk2 := disk[bl[l] := blk];
            && Whole(disk2) && OnDisk(disk2, bl)
            && Bytes(disk2, bl, |bl| * BLOCK) == Splice(Bytes(disk, bl, |bl| * BLOCK), l * BLOCK, blk)
  {
    var disk2, n := disk[bl[l] := blk], |bl| * BLOCK;
    var a, b := Bytes(disk2, bl, n), Splice(Bytes(disk, bl, n), l * BLOCK, blk);
    forall x | 0 <= x < n ensures a[x] == b[x] {
      Place(l, 0, x);
      if x / BLOCK != l { assert bl[x / BLOCK] != bl[l]; }
    }
  }

  /** A write under way: `ext` is the inode image in memory, `done` bytes are on the disk. */
  ghost predicate InFlight(v0: Vol, v: Vol, ino: nat, ext: seq<Extent>, off: nat, data: Content, done: nat) {
    && Inv(v0) && Inv(v) && v.inodes == v0.inodes && ino in v0.inodes && v.blocks == v0.blocks && v.meta == v0.meta
    && |ext| <= MAX_EXTENTS && Dense(ext, 0) && Claim(v, ino, BlocksOf(ext)) && OthersKept(v0, v, ino) && BlocksIn(v0, ino) <= BlocksOf(ext)
    && (var size := v0.inodes[ino].size;
        |BlocksOf(ext)| == Blocks(size) || (size < off + |data| && |BlocksOf(ext)| == Blocks(off + |data|)))
    && Written(v.disk, BlocksOf(ext), ContentOf(v0, ino), off, data, done)
  }

  lemma NothingYet(v: Vol, ino: nat, off: nat, data: Content)
    requires Inv(v) && (ino in v.inodes ==> off <= v.inodes[ino].size)
    ensures OthersKept(v, v, ino)
    ensures ino in v.inodes ==> InFlight(v, v, ino, v.inodes[ino].ext, off, data, 0)
  {
    hide Geometry, MetaOk, NoSharing, Splice, Bytes;
    if ino in v.inodes {
      OwnClaim(v, ino);
      ContentFits(v, ino);
      SpliceNothing(ContentOf(v, ino), off, data);
      assert data[..0] == [];
    }
  }

  /** Given up half way: what reached the disk shows, up to the old end of the file. */
  lemma Aborted(v0: Vol, v: Vol, ino: nat, ext: seq<Extent>, off: nat, data: Content, done: nat)
    requires InFlight(v0, v, ino, ext, off, data, done)
    ensures done <= |data| && off <= |ContentOf(v0, ino)|
    ensures ContentOf(v, ino) == Torn(ContentOf(v0, ino), off, data[..done])
  {
    hide Geometry, MetaOk, InodesOk, NoSharing, Bytes, Splice, Claim, OthersKept, Dense;
    var size, bl, all := v0.inodes[ino].size, BlocksIn(v0, ino), BlocksOf(ext);
    ContentFits(v, ino);
    assert all == bl + all[|bl|..];
    MoreBlocks(v.disk, bl, all[|bl|..], size);
    ShorterBytes(v.disk, all, Max(size, off + done), size);
  }

  lemma ShorterBytes(disk: seq<Content>, bl: seq<nat>, n: nat, m: nat)
    requires Whole(disk) && OnDisk(disk, bl) && m <= n <= |bl| * BLOCK
    ensures Bytes(disk, bl, m) == Bytes(disk, bl, n)[..m]
  {
  }

  lemma FlightFacts(v0: Vol, v: Vol, ino: nat, ext: seq<Extent>, off: nat, data: Content, done: nat)
    requires InFlight(v0, v, ino, ext, off, data, done)
    ensures Geometry(v) && Inv(v) && OthersKept(v0, v, ino) && v.inodes == v0.inodes && ino in v0.inodes
    ensures Dense(ext, 0) && |ext| <= MAX_EXTENTS && v0.inodes[ino].size <= |BlocksOf(ext)| * BLOCK
    ensures forall l: nat :: l < |BlocksOf(ext)| ==> BlocksOf(ext)[l] < |v.disk| && |v.disk[BlocksOf(ext)[l]]| == BLOCK
    ensures off + done <= |BlocksOf(ext)| * BLOCK && BlocksIn(v0, ino) <= BlocksOf(ext)
  {
    hide MetaOk, InodesOk, NoSharing, Bytes, Splice;
  }

  lemma ChunkStep(v0: Vol, v: Vol, ino: nat, ext: seq<Extent>, off: nat, data: Content, done: nat, chunk: nat)
    requires InFlight(v0, v, ino, ext, off, data, done) && (off + done) / BLOCK < |BlocksOf(ext)|
    requires 0 < chunk && done + chunk <= |data| && (off + done) % BLOCK + chunk <= BLOCK
    ensures var b := BlocksOf(ext)[(off + done) / BLOCK];
            && b < |v.disk| && |v.disk[b]| == BLOCK
            && InFlight(v0, v.(disk := v.disk[b := Patch(v.disk[b], (off + done) % BLOCK, data[done..done + chunk])]), ino, ext, off, data, done + chunk)
  {
    hide Geometry, MetaOk, InodesOk, NoSharing, Splice, Bytes, Dense, Claim, OthersKept;
    var bl, l := BlocksOf(ext), (off + done) / BLOCK;
    var blk := Patch(v.disk[bl[l]], (off + done) % BLOCK, data[done..done + chunk]);
    StoreKeeps(v, ino, bl, l, blk);
    ClaimOnDisk(v, ino, bl);
    ChunkSplices(v.disk, bl, ContentOf(v0, ino), off, data, done, chunk);
    KeptTwice(v0, v, v.(disk := v.disk[bl[l] := blk]), ino);
  }

  lemma GrowStep(v0: Vol, v: Vol, v2: Vol, ino: nat, ext: seq<Extent>, off: nat, data: Content, done: nat, first: nat, need: nat)
    requires InFlight(v0, v, ino, ext, off, data, done) && |ext| < MAX_EXTENTS && 0 < need <= MAX_LEN && done < |data|
    requires |BlocksOf(ext)| <= (off + done) / BLOCK && v0.inodes[ino].size <= off + done
    requires need == (off + |data| - (off + done) / BLOCK * BLOCK + BLOCK - 1) / BLOCK
    requires FreeRange(v.bits, v.blocks, first, need) && v2.hint < v.blocks
    requires v2 == v.(bits := Marked(v.bits, first, need, true), hint := v2.hint)
    ensures InFlight(v0, v2, ino, ext + [Extent((off + done) / BLOCK, need, first)], off, data, done)
    ensures (off + done) / BLOCK < |BlocksOf(ext + [Extent((off + done) / BLOCK, need, first)])|
  {
    hide Geometry, MetaOk, InodesOk, NoSharing, Splice, Bytes, Claim, OthersKept;
    var bl := BlocksOf(ext);
    assert (off + done) / BLOCK == |bl|;
    AllocClaims(v, ino, bl, first, need, v2.hint);
    AppendExtent(ext, 0, Extent(|bl|, need, first));
    assert first + need <= |v.disk| by { GeometryOf(v); }
    GrowWritten(v.disk, ext, ContentOf(v0, ino), off, data, done, first, need);
    assert OthersKept(v, v2, ino) by { AllocKeeps(v, v2, ino); }
    KeptTwice(v0, v, v2, ino);
  }

  lemma AllocKeeps(v: Vol, v2: Vol, ino: int)
    requires Inv(v) && Inv(v2) && v2.inodes == v.inodes && v2.disk == v.disk
    ensures OthersKept(v, v2, ino)
  {
  }

  lemma Landing(v0: Vol, v: Vol, ino: nat, ext: seq<Extent>, off: nat, data: Content, grown: nat)
    requires InFlight(v0, v, ino, ext, off, data, |data|) && grown == Max(v0.inodes[ino].size, off + |data|)
    ensures var v2 := v.(inodes := v.inodes[ino := Inode(true, grown, ext)]);
            && Inv(v2) && OthersKept(v0, v2, ino) && off <= v0.inodes[ino].size && v2.inodes.Keys == v0.inodes.Keys
            && ContentOf(v2, ino) == Splice(ContentOf(v0, ino), off, data)
  {
    hide Geometry, MetaOk, InodesOk, NoSharing, Splice, Bytes, Claim, OthersKept;
    assert data[..|data|] == data;
    var size := v0.inodes[ino].size;
    if grown != size && |BlocksOf(ext)| == Blocks(size) { SameBlocks(size, grown); }
    CommitKeeps(v, ino, Inode(true, grown, ext));
    KeptTwice(v0, v, v.(inodes := v.inodes[ino := Inode(true, grown, ext)]), ino);
  }

  /** The write so far: as many bytes as it has reached, spliced into the old ones. */
  ghost predicate Written(disk: seq<Content>, bl: seq<nat>, c: Content, off: nat, data: Content, done: nat) {
    && Whole(disk) && OnDisk(disk, bl) && off <= |c| && done <= |data| && Max(|c|, off + done) <= |bl| * BLOCK
    && Bytes(disk, bl, Max(|c|, off + done)) == Splice(c, off, data[..done])
  }

  lemma SpliceNothing(c: Content, off: nat, data: Content)
    requires off <= |c|
    ensures Splice(c, off, data[..0]) == c
  {
  }

  lemma InodeIsOk(v: Vol, ino: nat)
    requires Inv(v) && ino in v.inodes
    ensures InodeOk(v.inodes[ino])
  {
  }

  lemma GeometryOf(v: Vol)
    requires Inv(v)
    ensures Geometry(v)
  {
  }

  lemma ClaimOnDisk(v: Vol, ino: int, bl: seq<nat>)
    requires Inv(v) && Claim(v, ino, bl)
    ensures Whole(v.disk) && OnDisk(v.disk, bl) && Distinct(bl)
  {
    forall i | 0 <= i < |bl| ensures bl[i] < |v.disk| { assert bl[i] in bl; }
  }

  lemma SliceOfBlock(disk: seq<Content>, bl: seq<nat>, n: nat, l: nat, at: nat, take: nat)
    requires Whole(disk) && OnDisk(disk, bl) && n <= |bl| * BLOCK && l < |bl| && at + take <= BLOCK && l * BLOCK + at + take <= n
    ensures Bytes(disk, bl, n)[l * BLOCK + at..l * BLOCK + at + take] == disk[bl[l]][at..at + take]
  {
    var a, b := Bytes(disk, bl, n)[l * BLOCK + at..l * BLOCK + at + take], disk[bl[l]][at..at + take];
    forall k | 0 <= k < take ensures a[k] == b[k] {
      Place(l, at + k, l * BLOCK + at + k);
    }
  }

  /** A stretch of a file inside one block, read through the extents. */
  lemma ReadStep(v: Vol, ino: nat, x: nat, take: nat)
    requires Inv(v) && ino in v.inodes && 0 < take && x + take <= v.inodes[ino].size && x % BLOCK + take <= BLOCK
    ensures var p := Map(v.inodes[ino].ext, x / BLOCK);
            && p.Some? && p.value < |v.disk| && |v.disk[p.value]| == BLOCK
            && ContentOf(v, ino)[x..x + take] == v.disk[p.value][x % BLOCK..x % BLOCK + take]
  {
    hide Geometry, MetaOk, NoSharing, Bytes;
    InodeIsOk(v, ino);
    ContentFits(v, ino);
    DenseMap(v.inodes[ino].ext, 0, x / BLOCK);
    SliceOfBlock(v.disk, BlocksIn(v, ino), v.inodes[ino].size, x / BLOCK, x % BLOCK, take);
  }

  /** New blocks behind the old ones do not show yet. */
  lemma GrowWritten(disk: seq<Content>, ext: seq<Extent>, c: Content, off: nat, data: Content, done: nat, first: nat, need: nat)
    requires Written(disk, BlocksOf(ext), c, off, data, done) && first + need <= |disk|
    ensures Written(disk, BlocksOf(ext) + Range(first, need), c, off, data, done)
  {
    var bl, bl2, n := BlocksOf(ext), BlocksOf(ext) + Range(first, need), Max(|c|, off + done);
    assert Bytes(disk, bl2, n) == Bytes(disk, bl, n) by {
      forall x | 0 <= x < n ensures ByteAt(disk, bl2, x) == ByteAt(disk, bl, x) {}
    }
  }
}
