/** The kernel heap as its list of blocks: first fit, splitting, coalescing, page-aligned carving. */
module HeapList {
  import opened Basics

  /** A block in address order; the size includes the 16-byte header. */
  datatype Block = Block(addr: nat, size: nat, used: bool)

  const HEADER := 16
  const MIN_BLOCK := 32
  const PAGE := 4096
  const SIZE_MAX := 0x3FFF_FFFF

  function End(b: Block): nat { b.addr + b.size }

  function AlignUp(v: nat, a: nat): nat
    requires a > 0
  {
    (v + a - 1) / a * a
  }

  ghost predicate BlockOk(b: Block) {
    b.addr % 16 == 0 && b.size % 16 == 0 && b.size >= MIN_BLOCK
  }

  /** The blocks tile [lo, hi) in address order and no two neighbours are both free. */
  ghost predicate Tiles(bs: seq<Block>, lo: nat, hi: nat) {
    && bs != [] && bs[0].addr == lo && End(bs[|bs| - 1]) == hi
    && (forall i :: 0 <= i < |bs| ==> BlockOk(bs[i]))
    && (forall i :: 0 < i < |bs| ==> End(bs[i - 1]) == bs[i].addr)
  }

  ghost predicate Coalesced(bs: seq<Block>) {
    forall i :: 0 < i < |bs| ==> bs[i - 1].used || bs[i].used
  }

  ghost predicate Heap(bs: seq<Block>, lo: nat, hi: nat) {
    Tiles(bs, lo, hi) && Coalesced(bs)
  }

  /** Earlier blocks end where, or before, later ones start. */
  lemma {:induction false} Ordered(bs: seq<Block>, lo: nat, hi: nat, i: nat, j: nat)
    requires Tiles(bs, lo, hi) && i < j < |bs|
    ensures End(bs[i]) <= bs[j].addr
    decreases j
  {
    if i + 1 < j { Ordered(bs, lo, hi, i, j - 1); }
  }

  // ---------------------------------------------------------------- allocation

  /** The first free block of at least `bytes`, or the length of the list. */
  function FindFit(bs: seq<Block>, bytes: nat): (i: nat)
    ensures i <= |bs|
    ensures i < |bs| ==> !bs[i].used && bs[i].size >= bytes
    ensures forall k :: 0 <= k < i ==> bs[k].used || bs[k].size < bytes
  {
    if bs == [] then 0
    else if !bs[0].used && bs[0].size >= bytes then 0
    else 1 + FindFit(bs[1..], bytes)
  }

  /** Block i becomes a used block of `bytes`; what is left over stays free if it can hold a block. */
  function TakeAt(bs: seq<Block>, i: nat, bytes: nat): seq<Block>
    requires i < |bs| && bytes <= bs[i].size
  {
    if bs[i].size - bytes < MIN_BLOCK then bs[i := bs[i].(used := true)]
    else bs[..i] + [Block(bs[i].addr, bytes, true), Block(bs[i].addr + bytes, bs[i].size - bytes, false)] + bs[i + 1..]
  }

  function Bytes(size: nat): nat { AlignUp((if size == 0 then 1 else size) + HEADER, 16) }

  function Malloc(bs: seq<Block>, size: nat): (seq<Block>, Option<nat>) {
    if size > SIZE_MAX - HEADER then (bs, None)
    else
      var i := FindFit(bs, Bytes(size));
      if i == |bs| then (bs, None) else (TakeAt(bs, i, Bytes(size)), Some(bs[i].addr + HEADER))
  }

  // ---------------------------------------------------------------- page frames

  /** How far into a free block its page-aligned part starts. */
  function Cut(b: Block): nat {
    if (b.addr + HEADER) % PAGE == 0 then 0 else AlignUp(b.addr + HEADER, PAGE) - HEADER - b.addr
  }

  predicate FrameFits(b: Block, want: nat) {
    !b.used && Cut(b) <= b.size && b.size - Cut(b) >= want && (Cut(b) == 0 || Cut(b) >= MIN_BLOCK)
  }

  function FindFrame(bs: seq<Block>, want: nat): (i: nat)
    ensures i <= |bs|
    ensures i < |bs| ==> FrameFits(bs[i], want)
    ensures forall k :: 0 <= k < i ==> !FrameFits(bs[k], want)
  {
    if bs == [] then 0 else if FrameFits(bs[0], want) then 0 else 1 + FindFrame(bs[1..], want)
  }

  /** The block list once block i has been cut in two. */
  function CutAt(bs: seq<Block>, i: nat): seq<Block>
    requires i < |bs| && Cut(bs[i]) <= bs[i].size
  {
    var b := bs[i];
    if Cut(b) == 0 then bs
    else bs[..i] + [Block(b.addr, Cut(b), false), Block(b.addr + Cut(b), b.size - Cut(b), false)] + bs[i + 1..]
  }

  function CutIndex(b: Block, i: nat): nat { if Cut(b) == 0 then i else i + 1 }

  function FrameAlloc(bs: seq<Block>, pages: nat): (seq<Block>, Option<nat>) {
    var want := pages * PAGE + HEADER;
    var i := FindFrame(bs, want);
    if pages == 0 || i == |bs| then (bs, None)
    else (TakeAt(CutAt(bs, i), CutIndex(bs[i], i), want), Some(bs[i].addr + Cut(bs[i]) + HEADER))
  }

  // ---------------------------------------------------------------- freeing

  /** Block i, free, absorbs the block after it if that is free. */
  function MergeNext(bs: seq<Block>, i: nat): seq<Block>
    requires i < |bs|
  {
    if i + 1 < |bs| && !bs[i + 1].used
    then bs[..i] + [bs[i].(size := bs[i].size + bs[i + 1].size)] + bs[i + 2..]
    else bs
  }

  function MergePrev(bs: seq<Block>, i: nat): seq<Block>
    requires i < |bs|
  {
    if i > 0 && !bs[i - 1].used then MergeNext(bs, i - 1) else bs
  }

  function FreeAt(bs: seq<Block>, i: nat): seq<Block>
    requires i < |bs|
  {
    MergePrev(MergeNext(bs[i := bs[i].(used := false)], i), i)
  }

  // ---------------------------------------------------------------- what every call keeps

  function Splice(bs: seq<Block>, i: nat, x: Block, y: Block): seq<Block>
    requires i < |bs|
  {
    bs[..i] + [x, y] + bs[i + 1..]
  }

  lemma SpliceAt(bs: seq<Block>, i: nat, x: Block, y: Block, k: nat)
    requires i < |bs| && k <= |bs|
    ensures Splice(bs, i, x, y)[k] == if k < i then bs[k] else if k == i then x else if k == i + 1 then y else bs[k - 1]
  {
  }

  /** Two blocks over the same bytes in place of one keep the tiling. */
  lemma SpliceTiles(bs: seq<Block>, lo: nat, hi: nat, i: nat, x: Block, y: Block)
    requires Tiles(bs, lo, hi) && i < |bs| && BlockOk(x) && BlockOk(y)
    requires x.addr == bs[i].addr && End(x) == y.addr && End(y) == End(bs[i])
    ensures Tiles(Splice(bs, i, x, y), lo, hi)
  {
    hide Splice;
    var r := Splice(bs, i, x, y);
    assert |r| == |bs| + 1 by { SpliceLength(bs, i, x, y); }
    forall k | 0 <= k < |r| ensures BlockOk(r[k]) && (k > 0 ==> End(r[k - 1]) == r[k].addr) {
      SpliceAt(bs, i, x, y, k);
      if k > 0 { SpliceAt(bs, i, x, y, k - 1); }
    }
    SpliceAt(bs, i, x, y, 0);
    SpliceAt(bs, i, x, y, |bs|);
  }

  lemma SpliceLength(bs: seq<Block>, i: nat, x: Block, y: Block)
    requires i < |bs|
    ensures |Splice(bs, i, x, y)| == |bs| + 1
  {
  }

  lemma TakeTiles(bs: seq<Block>, lo: nat, hi: nat, i: nat, bytes: nat)
    requires Tiles(bs, lo, hi) && i < |bs| && MIN_BLOCK <= bytes <= bs[i].size && bytes % 16 == 0
    ensures Tiles(TakeAt(bs, i, bytes), lo, hi)
  {
    if bs[i].size - bytes >= MIN_BLOCK {
      SpliceTiles(bs, lo, hi, i, Block(bs[i].addr, bytes, true), Block(bs[i].addr + bytes, bs[i].size - bytes, false));
    }
  }

  /** Taking block i puts a used block between whatever was free around it. */
  lemma TakeCoalesces(bs: seq<Block>, i: nat, bytes: nat)
    requires i < |bs| && bytes <= bs[i].size && CoalescedBut(bs, i) && (i + 1 < |bs| ==> bs[i + 1].used)
    ensures Coalesced(TakeAt(bs, i, bytes))
  {
    hide Splice;
    if bs[i].size - bytes >= MIN_BLOCK {
      var x, y := Block(bs[i].addr, bytes, true), Block(bs[i].addr + bytes, bs[i].size - bytes, false);
      var r := Splice(bs, i, x, y);
      SpliceLength(bs, i, x, y);
      assert r == TakeAt(bs, i, bytes) by { TakeIsSplice(bs, i, bytes); }
      forall k | 0 < k < |r| ensures r[k - 1].used || r[k].used {
        SpliceAt(bs, i, x, y, k);
        SpliceAt(bs, i, x, y, k - 1);
      }
    }
  }

  lemma TakeIsSplice(bs: seq<Block>, i: nat, bytes: nat)
    requires i < |bs| && bytes + MIN_BLOCK <= bs[i].size
    ensures TakeAt(bs, i, bytes)
         == Splice(bs, i, Block(bs[i].addr, bytes, true), Block(bs[i].addr + bytes, bs[i].size - bytes, false))
  {
  }

  lemma FreeNeighbours(bs: seq<Block>, i: nat)
    requires Coalesced(bs) && i < |bs| && !bs[i].used
    ensures CoalescedBut(bs, i) && (i + 1 < |bs| ==> bs[i + 1].used) && (i > 0 ==> bs[i - 1].used)
  {
  }

  lemma TakeKeeps(bs: seq<Block>, lo: nat, hi: nat, i: nat, bytes: nat)
    requires Heap(bs, lo, hi) && i < |bs| && !bs[i].used
    requires MIN_BLOCK <= bytes <= bs[i].size && bytes % 16 == 0
    ensures Heap(TakeAt(bs, i, bytes), lo, hi)
  {
    hide TakeAt, Tiles, Coalesced;
    FreeNeighbours(bs, i);
    TakeTiles(bs, lo, hi, i, bytes);
    TakeCoalesces(bs, i, bytes);
  }

  /** Block i may touch free neighbours; no other two free blocks touch. */
  ghost predicate CoalescedBut(bs: seq<Block>, i: nat) {
    forall k :: 0 < k < |bs| && k != i && k != i + 1 ==> bs[k - 1].used || bs[k].used
  }

  lemma MergeNextCoalesces(bs: seq<Block>, i: nat)
    requires i < |bs| && CoalescedBut(bs, i)
    ensures var r := MergeNext(bs, i);
            && CoalescedBut(r, i) && i < |r| && r[i].used == bs[i].used
            && (!bs[i].used && i + 1 < |r| ==> r[i + 1].used)
            && (i > 0 ==> r[i - 1] == bs[i - 1])
  {
    var r := MergeNext(bs, i);
    if |r| != |bs| {
      forall k | i < k < |r| ensures r[k] == bs[k + 1] {}
    }
  }

  lemma MergePrevCoalesces(bs: seq<Block>, i: nat)
    requires i < |bs| && CoalescedBut(bs, i) && !bs[i].used && (i + 1 < |bs| ==> bs[i + 1].used)
    ensures Coalesced(MergePrev(bs, i))
  {
    var r := MergePrev(bs, i);
    if |r| != |bs| {
      forall k | i <= k < |r| ensures r[k] == bs[k + 1] {}
      assert r[i - 1].addr == bs[i - 1].addr && !r[i - 1].used;
    }
  }

  lemma FreeKeeps(bs: seq<Block>, lo: nat, hi: nat, i: nat)
    requires Heap(bs, lo, hi) && i < |bs| && bs[i].used
    ensures Heap(FreeAt(bs, i), lo, hi)
  {
    hide MergeNext;
    var b1 := bs[i := bs[i].(used := false)];
    var b2 := MergeNext(b1, i);
    MergeNextCoalesces(b1, i);
    MergePrevCoalesces(b2, i);
    MergeTiles(b1, lo, hi, i);
    if i > 0 { MergeTiles(b2, lo, hi, i - 1); }
  }

  lemma MergeAt(bs: seq<Block>, i: nat, k: nat)
    requires i + 1 < |bs| && !bs[i + 1].used && k < |bs| - 1
    ensures |MergeNext(bs, i)| == |bs| - 1
    ensures MergeNext(bs, i)[k] == if k < i then bs[k]
                                   else if k == i then bs[i].(size := bs[i].size + bs[i + 1].size) else bs[k + 1]
  {
  }

  lemma MergedOk(b: Block, n: Block)
    requires BlockOk(b) && BlockOk(n)
    ensures BlockOk(b.(size := b.size + n.size))
  {
  }

  lemma MergeTiles(bs: seq<Block>, lo: nat, hi: nat, i: nat)
    requires Tiles(bs, lo, hi) && i < |bs|
    ensures Tiles(MergeNext(bs, i), lo, hi)
    ensures forall k :: 0 <= k < i ==> MergeNext(bs, i)[k] == bs[k]
    ensures MergeNext(bs, i)[i].used == bs[i].used && MergeNext(bs, i)[i].addr == bs[i].addr
  {
    if i + 1 < |bs| && !bs[i + 1].used {
      hide MergeNext, BlockOk;
      var r := MergeNext(bs, i);
      MergeAt(bs, i, i);
      assert BlockOk(bs[i].(size := bs[i].size + bs[i + 1].size)) by { MergedOk(bs[i], bs[i + 1]); }
      forall k | 0 <= k < |r| ensures BlockOk(r[k]) && (k < i ==> r[k] == bs[k]) { MergeAt(bs, i, k); }
      forall k | 0 < k < |r| ensures End(r[k - 1]) == r[k].addr {
        MergeAt(bs, i, k);
        MergeAt(bs, i, k - 1);
      }
      MergeAt(bs, i, 0);
      MergeAt(bs, i, |r| - 1);
    }
  }

  lemma CutKeeps(bs: seq<Block>, lo: nat, hi: nat, i: nat, want: nat)
    requires Heap(bs, lo, hi) && i < |bs| && FrameFits(bs[i], want) && want >= MIN_BLOCK
    ensures Tiles(CutAt(bs, i), lo, hi)
    ensures var c, j := CutAt(bs, i), CutIndex(bs[i], i);
            && j < |c| && c[j] == Block(bs[i].addr + Cut(bs[i]), bs[i].size - Cut(bs[i]), false)
            && CoalescedBut(c, j) && (j + 1 < |c| ==> c[j + 1].used)
  {
    hide Cut, Splice, Tiles, CoalescedBut;
    var b := bs[i];
    assert BlockOk(b) by { BlocksOk(bs, lo, hi, i); }
    CutAligned(b);
    FreeNeighbours(bs, i);
    if Cut(b) != 0 {
      var x, y := Block(b.addr, Cut(b), false), Block(b.addr + Cut(b), b.size - Cut(b), false);
      SpliceTiles(bs, lo, hi, i, x, y);
      SpliceFree(bs, i, x, y);
      CutIsSplice(bs, i);
    }
  }

  lemma BlocksOk(bs: seq<Block>, lo: nat, hi: nat, i: nat)
    requires Tiles(bs, lo, hi) && i < |bs|
    ensures BlockOk(bs[i])
  {
  }

  lemma CutIsSplice(bs: seq<Block>, i: nat)
    requires i < |bs| && 0 < Cut(bs[i]) <= bs[i].size
    ensures CutAt(bs, i) == Splice(bs, i, Block(bs[i].addr, Cut(bs[i]), false),
                                   Block(bs[i].addr + Cut(bs[i]), bs[i].size - Cut(bs[i]), false))
  {
  }

  /** Cutting a free block in two free ones: only the second may now touch free blocks. */
  lemma SpliceFree(bs: seq<Block>, i: nat, x: Block, y: Block)
    requires Coalesced(bs) && i < |bs| && !bs[i].used && !x.used && !y.used
    ensures var r := Splice(bs, i, x, y);
            |r| == |bs| + 1 && r[i + 1] == y && CoalescedBut(r, i + 1) && (i + 2 < |r| ==> r[i + 2].used)
  {
    hide Splice;
    FreeNeighbours(bs, i);
    SpliceLength(bs, i, x, y);
    var r := Splice(bs, i, x, y);
    SpliceAt(bs, i, x, y, i + 1);
    if i + 2 < |r| { SpliceAt(bs, i, x, y, i + 2); }
    forall k | 0 < k < |r| && k != i + 1 && k != i + 2 ensures r[k - 1].used || r[k].used {
      SpliceAt(bs, i, x, y, k);
      SpliceAt(bs, i, x, y, k - 1);
    }
  }

  lemma CutAligned(b: Block)
    requires b.addr % 16 == 0
    ensures Cut(b) % 16 == 0 && (b.addr + Cut(b) + HEADER) % PAGE == 0
  {
  }

  lemma FrameKeeps(bs: seq<Block>, lo: nat, hi: nat, i: nat, want: nat)
    requires Heap(bs, lo, hi) && i < |bs| && FrameFits(bs[i], want) && want >= MIN_BLOCK && want % 16 == 0
    ensures Heap(TakeAt(CutAt(bs, i), CutIndex(bs[i], i), want), lo, hi)
  {
    hide TakeAt, Tiles, Coalesced, CutAt, CoalescedBut, Cut;
    CutKeeps(bs, lo, hi, i, want);
    TakeTiles(CutAt(bs, i), lo, hi, CutIndex(bs[i], i), want);
    TakeCoalesces(CutAt(bs, i), CutIndex(bs[i], i), want);
  }

  // ---------------------------------------------------------------- freeing what was just allocated

  /** kfree of a fresh kmalloc block gives back exactly the list before it. */
  lemma FreeUndoesTake(bs: seq<Block>, lo: nat, hi: nat, i: nat, bytes: nat)
    requires Heap(bs, lo, hi) && i < |bs| && !bs[i].used && bytes <= bs[i].size
    ensures i < |TakeAt(bs, i, bytes)| && FreeAt(TakeAt(bs, i, bytes), i) == bs
  {
    var t := TakeAt(bs, i, bytes);
    var b1 := t[i := t[i].(used := false)];
    if |t| == |bs| {
      assert b1 == bs;
    } else {
      assert MergeNext(b1, i) == bs;
    }
  }

  /** And so does freeing a fresh run of page frames, which may have cut its block in three. */
  lemma FreeUndoesFrame(bs: seq<Block>, lo: nat, hi: nat, i: nat, want: nat)
    requires Heap(bs, lo, hi) && i < |bs| && FrameFits(bs[i], want)
    ensures var j, t := CutIndex(bs[i], i), TakeAt(CutAt(bs, i), CutIndex(bs[i], i), want);
            j < |t| && FreeAt(t, j) == bs
  {
    hide Cut, TakeAt, Tiles, Coalesced;
    if Cut(bs[i]) == 0 {
      FreeUndoesTake(bs, lo, hi, i, want);
    } else {
      var t := TakeAt(CutAt(bs, i), i + 1, want);
      TakeCut(bs, i, want);
      assert MergeNext(t[i + 1 := t[i + 1].(used := false)], i + 1) == CutAt(bs, i) by { TakenTail(bs, lo, hi, i, want); }
      MergeCut(bs, i);
    }
  }

  lemma TakeCut(bs: seq<Block>, i: nat, want: nat)
    requires i < |bs| && FrameFits(bs[i], want) && Cut(bs[i]) != 0
    ensures i + 1 < |CutAt(bs, i)| && want <= CutAt(bs, i)[i + 1].size && i + 1 < |TakeAt(CutAt(bs, i), i + 1, want)|
  {
    hide Cut;
  }

  lemma TakenTail(bs: seq<Block>, lo: nat, hi: nat, i: nat, want: nat)
    requires Heap(bs, lo, hi) && i < |bs| && FrameFits(bs[i], want) && Cut(bs[i]) != 0
    requires i + 1 < |CutAt(bs, i)| && want <= CutAt(bs, i)[i + 1].size && i + 1 < |TakeAt(CutAt(bs, i), i + 1, want)|
    ensures var t := TakeAt(CutAt(bs, i), i + 1, want);
            MergeNext(t[i + 1 := t[i + 1].(used := false)], i + 1) == CutAt(bs, i)
  {
    hide Cut;
  }

  lemma MergeCut(bs: seq<Block>, i: nat)
    requires i < |bs| && !bs[i].used && 0 < Cut(bs[i]) <= bs[i].size
    ensures i + 1 < |CutAt(bs, i)| && !CutAt(bs, i)[i].used && MergeNext(CutAt(bs, i), i) == bs
  {
    hide Cut;
  }

  // ---------------------------------------------------------------- what an allocation gives

  function Used(bs: seq<Block>): (s: set<nat>)
    ensures forall i :: 0 <= i < |bs| && bs[i].used ==> bs[i].addr in s
    ensures forall a :: a in s ==> exists i :: 0 <= i < |bs| && bs[i].used && bs[i].addr == a
  {
    set b | b in bs && b.used :: b.addr
  }

  lemma Distinct(bs: seq<Block>, lo: nat, hi: nat, i: nat, j: nat)
    requires Tiles(bs, lo, hi) && i < |bs| && j < |bs| && bs[i].addr == bs[j].addr
    ensures i == j
  {
    if i < j { Ordered(bs, lo, hi, i, j); } else if j < i { Ordered(bs, lo, hi, j, i); }
  }

  /** The live blocks are the old ones, untouched, and the one handed out. */
  lemma TakeUses(bs: seq<Block>, lo: nat, hi: nat, i: nat, bytes: nat)
    requires Tiles(bs, lo, hi) && i < |bs| && !bs[i].used && bytes <= bs[i].size
    ensures Used(TakeAt(bs, i, bytes)) == Used(bs) + {bs[i].addr} && bs[i].addr !in Used(bs)
    ensures forall b :: b in bs && b.used ==> b in TakeAt(bs, i, bytes)
  {
    var t := TakeAt(bs, i, bytes);
    forall b | b in bs && b.used ensures b in t {
      var k :| 0 <= k < |bs| && bs[k] == b;
      assert t[if k < i then k else k + |t| - |bs|] == b;
    }
    forall b | b in t && b.used ensures b in bs || b.addr == bs[i].addr {
      var k :| 0 <= k < |t| && t[k] == b;
      if k < i { assert bs[k] == b; } else if k > i { assert k > i + |t| - |bs|; assert bs[k - (|t| - |bs|)] == b; }
    }
    assert t[i].used && t[i].addr == bs[i].addr;
    if bs[i].addr in Used(bs) {
      var k :| 0 <= k < |bs| && bs[k].used && bs[k].addr == bs[i].addr;
      Distinct(bs, lo, hi, i, k);
    }
  }

  lemma BytesFit(size: nat)
    ensures Bytes(size) % 16 == 0 && Bytes(size) >= MIN_BLOCK && size + HEADER <= Bytes(size) <= size + 47
  {
  }

  /** A live block of the heap: where a pointer handed out by the allocator points. */
  ghost predicate Live(bs: seq<Block>, ptr: nat, b: Block) {
    b in bs && b.used && ptr == b.addr + HEADER
  }

  /** kmalloc hands out aligned memory of the size asked for, out of one free block, and touches no live block. */
  lemma MallocGives(bs: seq<Block>, lo: nat, hi: nat, size: nat)
    requires Heap(bs, lo, hi)
    ensures var (r, p) := Malloc(bs, size);
            && Heap(r, lo, hi)
            && (forall b :: b in bs && b.used ==> b in r)
            && (p == None ==> r == bs)
            && (p.Some? ==>
                  && p.value % 16 == 0 && Used(r) == Used(bs) + {p.value - HEADER} && p.value - HEADER !in Used(bs)
                  && exists b, f :: Live(r, p.value, b) && f in bs && !f.used
                                    && p.value + size <= End(b) <= End(f) && f.addr == b.addr)
  {
    BytesFit(size);
    var i := FindFit(bs, Bytes(size));
    if size <= SIZE_MAX - HEADER && i < |bs| {
      TakeKeeps(bs, lo, hi, i, Bytes(size));
      TakeUses(bs, lo, hi, i, Bytes(size));
      var t := TakeAt(bs, i, Bytes(size));
      assert t[i] in t && bs[i] in bs;
      assert Live(t, bs[i].addr + HEADER, t[i]);
    }
  }

  /** Blocks i to j, all free: the bytes that lie free in one piece. */
  ghost predicate FreeRun(bs: seq<Block>, i: nat, j: nat) {
    i <= j < |bs| && forall k :: i <= k <= j ==> !bs[k].used
  }

  lemma OneUsed(bs: seq<Block>, j: nat)
    requires Coalesced(bs) && 0 < j < |bs|
    ensures bs[j - 1].used || bs[j].used
  {
  }

  /** As many bytes as a block of that size needs behind its header. */
  function Wanted(size: nat): nat { if size == 0 then 1 else size }

  /** Between a and e there is room for a header and that many bytes. */
  predicate Holds(a: nat, e: nat, size: nat) { a + HEADER + Wanted(size) <= e }

  lemma BytesHold(size: nat, n: nat)
    requires n % 16 == 0
    ensures Bytes(size) <= n <==> HEADER + Wanted(size) <= n
  {
  }

  /** kmalloc fails exactly when no contiguous free run holds that many bytes, or the size is over the cap. */
  lemma MallocFails(bs: seq<Block>, lo: nat, hi: nat, size: nat)
    requires Heap(bs, lo, hi)
    ensures Malloc(bs, size).1 == None <==>
              size > SIZE_MAX - HEADER || forall i: nat, j: nat :: FreeRun(bs, i, j) ==> !Holds(bs[i].addr, End(bs[j]), size)
  {
    hide Bytes;
    var f := FindFit(bs, Bytes(size));
    forall i: nat, j: nat | FreeRun(bs, i, j) ensures i == j && (Bytes(size) <= bs[i].size <==> Holds(bs[i].addr, End(bs[j]), size)) {
      if 0 < j { OneUsed(bs, j); }
      assert BlockOk(bs[i]);
      BytesHold(size, bs[i].size);
    }
    if f < |bs| { assert FreeRun(bs, f, f); }
  }

  /** Page frames are page aligned, and all their pages lie inside the one block handed out. */
  lemma FrameGives(bs: seq<Block>, lo: nat, hi: nat, pages: nat)
    requires Heap(bs, lo, hi)
    ensures var (r, p) := FrameAlloc(bs, pages);
            && Heap(r, lo, hi)
            && (forall b :: b in bs && b.used ==> b in r)
            && (p == None ==> r == bs)
            && (p.Some? ==>
                  && p.value % PAGE == 0 && Used(r) == Used(bs) + {p.value - HEADER} && p.value - HEADER !in Used(bs)
                  && exists b, f :: Live(r, p.value, b) && f in bs && !f.used
                                    && p.value + pages * PAGE <= End(b) <= End(f) && f.addr <= b.addr)
  {
    hide TakeAt, CutAt, Heap, Used, Coalesced, Cut, CutIndex, Tiles;
    var want := pages * PAGE + HEADER;
    var i := FindFrame(bs, want);
    if pages > 0 && i < |bs| {
      var c, j := CutAt(bs, i), CutIndex(bs[i], i);
      CutPlaces(bs, lo, hi, i, want);
      var t := TakeAt(c, j, want);
      FrameKeeps(bs, lo, hi, i, want);
      CutUses(bs, i);
      TakeUses(c, lo, hi, j, want);
      TakePlaces(c, j, want);
      assert t[j] in t && bs[i] in bs;
      assert Live(t, c[j].addr + HEADER, t[j]);
    }
  }

  lemma CutPlaces(bs: seq<Block>, lo: nat, hi: nat, i: nat, want: nat)
    requires Heap(bs, lo, hi) && i < |bs| && FrameFits(bs[i], want) && want >= MIN_BLOCK
    ensures var c, j := CutAt(bs, i), CutIndex(bs[i], i);
            && Tiles(c, lo, hi) && j < |c| && !c[j].used && want <= c[j].size && End(c[j]) == End(bs[i])
            && c[j].addr == bs[i].addr + Cut(bs[i]) && (c[j].addr + HEADER) % PAGE == 0
  {
    hide Cut;
    CutAligned(bs[i]);
    CutKeeps(bs, lo, hi, i, want);
  }

  lemma TakePlaces(bs: seq<Block>, i: nat, bytes: nat)
    requires i < |bs| && bytes <= bs[i].size
    ensures var t := TakeAt(bs, i, bytes);
            i < |t| && t[i].used && t[i].addr == bs[i].addr && bytes <= t[i].size <= bs[i].size
  {
  }

  lemma CutUses(bs: seq<Block>, i: nat)
    requires i < |bs| && !bs[i].used && Cut(bs[i]) <= bs[i].size
    ensures forall b: Block :: b.used ==> (b in bs <==> b in CutAt(bs, i))
    ensures Used(CutAt(bs, i)) == Used(bs)
  {
    var c := CutAt(bs, i);
    if c != bs {
      forall b: Block | b.used && b in bs ensures b in c {
        var k :| 0 <= k < |bs| && bs[k] == b;
        assert c[if k < i then k else k + 1] == b;
      }
      forall b: Block | b.used && b in c ensures b in bs {
        var k :| 0 <= k < |c| && c[k] == b;
        if k < i { assert bs[k] == b; } else { assert k > i + 1; assert bs[k - 1] == b; }
      }
    }
  }

  /** The least page boundary a payload in the block can start at. */
  ghost predicate FirstPage(b: Block, p: nat) {
    p % PAGE == 0 && b.addr + HEADER <= p && forall q: nat :: q % PAGE == 0 && b.addr + HEADER <= q ==> p <= q
  }

  /** From that boundary on the pages lie in the free block, and what comes before is nothing or a whole block. */
  ghost predicate PagesFit(b: Block, pages: nat) {
    !b.used && exists p: nat :: FirstPage(b, p) && p + pages * PAGE <= End(b) && (p == b.addr + HEADER || p - HEADER - b.addr >= MIN_BLOCK)
  }

  lemma AlignUpIs(v: nat, q: nat)
    ensures var p := AlignUp(v, PAGE);
            v <= p < v + PAGE && p % PAGE == 0 && (q % PAGE == 0 && v <= q ==> p <= q)
  {
    if q % PAGE == 0 && v <= q { assert q == q / PAGE * PAGE; }
  }

  lemma CutIs(b: Block)
    ensures FirstPage(b, b.addr + Cut(b) + HEADER)
  {
    var v := b.addr + HEADER;
    forall q: nat | q % PAGE == 0 && v <= q ensures b.addr + Cut(b) + HEADER <= q { AlignUpIs(v, q); }
    AlignUpIs(v, 0);
  }

  lemma FitsIff(b: Block, pages: nat)
    ensures FrameFits(b, pages * PAGE + HEADER) <==> PagesFit(b, pages)
  {
    hide Cut, FirstPage;
    var p := b.addr + Cut(b) + HEADER;
    CutIs(b);
    forall q: nat | FirstPage(b, q) ensures q == p { OneFirstPage(b, p, q); }
  }

  lemma OneFirstPage(b: Block, p: nat, q: nat)
    requires FirstPage(b, p) && FirstPage(b, q)
    ensures p == q
  {
  }

  /** kframe_alloc_n fails exactly when in no free block the pages fit behind the first page boundary. */
  lemma FrameFails(bs: seq<Block>, pages: nat)
    ensures FrameAlloc(bs, pages).1 == None <==> pages == 0 || forall b :: b in bs ==> !PagesFit(b, pages)
  {
    hide FrameFits, PagesFit;
    var i := FindFrame(bs, pages * PAGE + HEADER);
    forall b | b in bs ensures FrameFits(b, pages * PAGE + HEADER) <==> PagesFit(b, pages) { FitsIff(b, pages); }
    if i < |bs| { assert bs[i] in bs; }
  }

  // ---------------------------------------------------------------- freeing everything

  function IndexOf(bs: seq<Block>, a: nat): (i: nat)
    requires a in Used(bs)
    ensures i < |bs| && bs[i].used && bs[i].addr == a
  {
    if bs[0].used && bs[0].addr == a then 0
    else
      assert forall b :: b in bs ==> b == bs[0] || b in bs[1..];
      1 + IndexOf(bs[1..], a)
  }

  /** kfree, given the address of a block's header. */
  function Free(bs: seq<Block>, a: nat): seq<Block> {
    if a in Used(bs) then FreeAt(bs, IndexOf(bs, a)) else bs
  }

  lemma MergeUses(bs: seq<Block>, i: nat)
    requires i < |bs| && !bs[i].used
    ensures i < |MergeNext(bs, i)| && forall b: Block :: b.used ==> (b in MergeNext(bs, i) <==> b in bs)
  {
    var r := MergeNext(bs, i);
    if r != bs {
      forall b: Block | b.used && b in bs ensures b in r {
        var k :| 0 <= k < |bs| && bs[k] == b;
        assert r[if k < i then k else k - 1] == b;
      }
      forall b: Block | b.used && b in r ensures b in bs {
        var k :| 0 <= k < |r| && r[k] == b;
        assert bs[if k < i then k else k + 1] == b;
      }
    }
  }

  /** Marking block i free takes it, and only it, out of use. */
  lemma MarkUses(bs: seq<Block>, lo: nat, hi: nat, i: nat)
    requires Tiles(bs, lo, hi) && i < |bs|
    ensures forall b: Block :: b.used ==> (b in bs[i := bs[i].(used := false)] <==> b in bs && b.addr != bs[i].addr)
  {
    hide Tiles;
    var b1 := bs[i := bs[i].(used := false)];
    forall b: Block | b.used ensures b in b1 <==> b in bs && b.addr != bs[i].addr {
      if b in bs {
        var k :| 0 <= k < |bs| && bs[k] == b;
        if b.addr == bs[i].addr { Distinct(bs, lo, hi, i, k); } else { assert b1[k] == b; }
      }
      if b in b1 {
        var k :| 0 <= k < |b1| && b1[k] == b;
        assert k != i && bs[k] == b;
        if b.addr == bs[i].addr { Distinct(bs, lo, hi, i, k); }
      }
    }
  }

  /** kfree takes exactly the one block out of use, and leaves every other live block as it is. */
  lemma FreeUses(bs: seq<Block>, lo: nat, hi: nat, a: nat)
    requires Heap(bs, lo, hi) && a in Used(bs)
    ensures Heap(Free(bs, a), lo, hi)
    ensures Used(Free(bs, a)) == Used(bs) - {a}
    ensures forall b :: b in bs && b.used && b.addr != a ==> b in Free(bs, a)
  {
    hide MergeNext, Tiles, Coalesced, IndexOf;
    var i := IndexOf(bs, a);
    FreeKeeps(bs, lo, hi, i);
    var b1 := bs[i := bs[i].(used := false)];
    MarkUses(bs, lo, hi, i);
    MergeUses(b1, i);
    var b2 := MergeNext(b1, i);
    if i > 0 && !b2[i - 1].used { MergeUses(b2, i - 1); }
    UsedBy(bs, Free(bs, a), a);
  }

  lemma UsedBy(bs: seq<Block>, r: seq<Block>, a: nat)
    requires forall b: Block :: b.used ==> (b in r <==> b in bs && b.addr != a)
    ensures Used(r) == Used(bs) - {a}
  {
  }

  function FreeAll(bs: seq<Block>, order: seq<nat>): seq<Block>
    decreases |order|
  {
    if order == [] then bs else FreeAll(Free(bs, order[0]), order[1..])
  }

  /** One free block over the whole heap, as heap_init leaves it. */
  ghost predicate Empty(bs: seq<Block>, lo: nat, hi: nat) {
    |bs| == 1 && bs[0].addr == lo && End(bs[0]) == hi && !bs[0].used
  }

  lemma SomeUsed(bs: seq<Block>)
    requires Coalesced(bs)
    ensures |bs| > 1 ==> Used(bs) != {}
  {
    if |bs| > 1 {
      OneUsed(bs, 1);
      assert (if bs[0].used then bs[0].addr else bs[1].addr) in Used(bs);
    }
  }

  lemma NoneUsed(bs: seq<Block>, lo: nat, hi: nat)
    requires Heap(bs, lo, hi) && Used(bs) == {}
    ensures Empty(bs, lo, hi)
  {
    SomeUsed(bs);
  }

  /** Freeing all live blocks, in any order, leaves one free block. */
  lemma {:induction false} FreeAllInAnyOrder(bs: seq<Block>, lo: nat, hi: nat, order: seq<nat>)
    requires Heap(bs, lo, hi)
    requires forall a :: a in Used(bs) <==> a in order
    requires forall i, j :: 0 <= i < j < |order| ==> order[i] != order[j]
    ensures Empty(FreeAll(bs, order), lo, hi)
    decreases |order|
  {
    hide Heap, Free, Used;
    if order == [] {
      assert Used(bs) == {};
      NoneUsed(bs, lo, hi);
    } else {
      assert order[0] in Used(bs);
      FreeUses(bs, lo, hi, order[0]);
      forall a ensures a in Used(Free(bs, order[0])) <==> a in order[1..] {
        assert order == [order[0]] + order[1..];
      }
      FreeAllInAnyOrder(Free(bs, order[0]), lo, hi, order[1..]);
    }
  }

  // ---------------------------------------------------------------- resizing

  /** krealloc: the list and the pointer it returns; `ptr` is 0 for null. */
  function Realloc(bs: seq<Block>, hi: nat, ptr: nat, size: nat): (seq<Block>, Option<nat>)
  {
    if ptr == 0 then Malloc(bs, size)
    else if size == 0 then (if ptr >= HEADER then Free(bs, ptr - HEADER) else bs, None)
    else if size > SIZE_MAX - HEADER || ptr < HEADER || ptr - HEADER !in Used(bs) then (bs, None)
    else
      var i := IndexOf(bs, ptr - HEADER);
      if i == |bs| - 1 && Bytes(size) <= hi - bs[i].addr then (bs, Some(ptr))
      else
        var (r, p) := Malloc(bs, size);
        if p == None then (bs, None) else (Free(r, ptr - HEADER), p)
  }

  /** Whatever krealloc returns can hold the new size; the old block survives exactly when it returns null. */
  lemma ReallocGives(bs: seq<Block>, lo: nat, hi: nat, ptr: nat, size: nat)
    requires Heap(bs, lo, hi) && ptr >= HEADER && ptr - HEADER in Used(bs) && size > 0
    ensures var (r, p) := Realloc(bs, hi, ptr, size);
            && Heap(r, lo, hi)
            && (p == None ==> r == bs)
            && (p.Some? ==>
                  && p.value >= HEADER
                  && Used(r) == Used(bs) - {ptr - HEADER} + {p.value - HEADER}
                  && (if p.value == ptr then r == bs else p.value - HEADER !in Used(bs))
                  && exists b :: Live(r, p.value, b) && p.value + size <= End(b))
  {
    hide Heap, FreeAt, Free, Used, Coalesced;
    var i := IndexOf(bs, ptr - HEADER);
    BytesFit(size);
    if size <= SIZE_MAX - HEADER {
      if i == |bs| - 1 && Bytes(size) <= hi - bs[i].addr {
        LastBlock(bs, lo, hi, i);
        assert bs[i] in bs && Live(bs, ptr, bs[i]);
      } else {
        ReallocMoves(bs, lo, hi, ptr, size);
      }
    }
  }

  lemma LastBlock(bs: seq<Block>, lo: nat, hi: nat, i: nat)
    requires Heap(bs, lo, hi) && i == |bs| - 1
    ensures End(bs[i]) == hi
  {
  }

  lemma ReallocMoves(bs: seq<Block>, lo: nat, hi: nat, ptr: nat, size: nat)
    requires Heap(bs, lo, hi) && ptr >= HEADER && ptr - HEADER in Used(bs)
    ensures var (r, p) := Malloc(bs, size);
            p.Some? ==>
              && p.value >= HEADER && p.value != ptr && p.value - HEADER !in Used(bs)
              && Heap(Free(r, ptr - HEADER), lo, hi)
              && Used(Free(r, ptr - HEADER)) == Used(bs) - {ptr - HEADER} + {p.value - HEADER}
              && exists b :: Live(Free(r, ptr - HEADER), p.value, b) && p.value + size <= End(b)
  {
    hide Heap, FreeAt, Free, Used, Malloc;
    var (r, p) := Malloc(bs, size);
    MallocGives(bs, lo, hi, size);
    if p.Some? {
      FreeUses(r, lo, hi, ptr - HEADER);
      var b, f :| Live(r, p.value, b) && f in bs && !f.used && p.value + size <= End(b) <= End(f) && f.addr == b.addr;
      assert Live(Free(r, ptr - HEADER), p.value, b);
    }
  }

  // ---------------------------------------------------------------- whole runs

  datatype Op = OpMalloc(size: nat) | OpFree(ptr: nat) | OpRealloc(ptr: nat, size: nat) | OpFrames(pages: nat)

  /** Blocks in the list, and how many were handed out and taken back. */
  datatype State = State(bs: seq<Block>, allocs: nat, frees: nat)

  function Step(st: State, hi: nat, op: Op): State {
    match op
    case OpMalloc(size) =>
      var (r, p) := Malloc(st.bs, size);
      State(r, st.allocs + (if p.Some? then 1 else 0), st.frees)
    case OpFrames(pages) =>
      var (r, p) := FrameAlloc(st.bs, pages);
      State(r, st.allocs + (if p.Some? then 1 else 0), st.frees)
    case OpFree(ptr) =>
      if ptr >= HEADER && ptr - HEADER in Used(st.bs) then State(Free(st.bs, ptr - HEADER), st.allocs, st.frees + 1) else st
    case OpRealloc(ptr, size) =>
      var (r, p) := Realloc(st.bs, hi, ptr, size);
      if ptr == 0 then State(r, st.allocs + (if p.Some? then 1 else 0), st.frees)
      else if size == 0 then State(r, st.allocs, st.frees + (if ptr >= HEADER && ptr - HEADER in Used(st.bs) then 1 else 0))
      else if p.Some? && p.value != ptr then State(r, st.allocs + 1, st.frees + 1)
      else State(r, st.allocs, st.frees)
  }

  ghost predicate Accounted(st: State, lo: nat, hi: nat) {
    Heap(st.bs, lo, hi) && lo >= HEADER && st.allocs - st.frees == |Used(st.bs)|
  }

  lemma StepKeeps(st: State, lo: nat, hi: nat, op: Op)
    requires Accounted(st, lo, hi)
    ensures Accounted(Step(st, hi, op), lo, hi)
  {
    hide Heap, Malloc, FrameAlloc, Realloc, Free, Used, Live;
    match op
    case OpMalloc(size) => MallocCounts(st.bs, lo, hi, size);
    case OpFrames(pages) => FrameCounts(st.bs, lo, hi, pages);
    case OpFree(ptr) => if ptr >= HEADER && ptr - HEADER in Used(st.bs) { FreeCounts(st.bs, lo, hi, ptr - HEADER); }
    case OpRealloc(ptr, size) => ReallocKeeps(st, lo, hi, ptr, size);
  }

  lemma MallocCounts(bs: seq<Block>, lo: nat, hi: nat, size: nat)
    requires Heap(bs, lo, hi)
    ensures Heap(Malloc(bs, size).0, lo, hi)
    ensures |Used(Malloc(bs, size).0)| == |Used(bs)| + (if Malloc(bs, size).1.Some? then 1 else 0)
  {
    hide Heap, Malloc, Used, Live;
    MallocGives(bs, lo, hi, size);
  }

  lemma FrameCounts(bs: seq<Block>, lo: nat, hi: nat, pages: nat)
    requires Heap(bs, lo, hi)
    ensures Heap(FrameAlloc(bs, pages).0, lo, hi)
    ensures |Used(FrameAlloc(bs, pages).0)| == |Used(bs)| + (if FrameAlloc(bs, pages).1.Some? then 1 else 0)
  {
    hide Heap, FrameAlloc, Used, Live;
    FrameGives(bs, lo, hi, pages);
  }

  lemma ReallocKeeps(st: State, lo: nat, hi: nat, ptr: nat, size: nat)
    requires Accounted(st, lo, hi)
    ensures Accounted(Step(st, hi, OpRealloc(ptr, size)), lo, hi)
  {
    hide Heap, Malloc, Used, Realloc, Free, Live;
    ReallocCases(st.bs, hi, ptr, size);
    if ptr == 0 {
      MallocCounts(st.bs, lo, hi, size);
    } else if ptr >= HEADER && ptr - HEADER in Used(st.bs) {
      if size == 0 {
        FreeCounts(st.bs, lo, hi, ptr - HEADER);
      } else {
        ReallocCounts(st.bs, lo, hi, ptr, size);
      }
    }
  }

  /** The easy ways through krealloc. */
  lemma ReallocCases(bs: seq<Block>, hi: nat, ptr: nat, size: nat)
    ensures ptr == 0 ==> Realloc(bs, hi, ptr, size) == Malloc(bs, size)
    ensures ptr != 0 && size == 0 ==> Realloc(bs, hi, ptr, size) == (if ptr >= HEADER then Free(bs, ptr - HEADER) else bs, None)
    ensures ptr != 0 && size > 0 && (ptr < HEADER || ptr - HEADER !in Used(bs)) ==> Realloc(bs, hi, ptr, size) == (bs, None)
    ensures ptr >= HEADER && ptr - HEADER !in Used(bs) ==> Free(bs, ptr - HEADER) == bs
  {
  }

  lemma FreeCounts(bs: seq<Block>, lo: nat, hi: nat, a: nat)
    requires Heap(bs, lo, hi) && a in Used(bs)
    ensures Heap(Free(bs, a), lo, hi) && |Used(Free(bs, a))| == |Used(bs)| - 1
  {
    hide Heap, Used, Free;
    FreeUses(bs, lo, hi, a);
  }

  lemma ReallocCounts(bs: seq<Block>, lo: nat, hi: nat, ptr: nat, size: nat)
    requires Heap(bs, lo, hi) && ptr >= HEADER && ptr - HEADER in Used(bs) && size > 0
    ensures Heap(Realloc(bs, hi, ptr, size).0, lo, hi) && |Used(Realloc(bs, hi, ptr, size).0)| == |Used(bs)|
    ensures Realloc(bs, hi, ptr, size).1.Some? || Realloc(bs, hi, ptr, size).0 == bs
  {
    hide Heap, Used, Realloc, Live;
    ReallocGives(bs, lo, hi, ptr, size);
    var (r, p) := Realloc(bs, hi, ptr, size);
    if p.Some? {
      assert Used(r) == Used(bs) - {ptr - HEADER} + {p.value - HEADER};
      assert |Used(bs) - {ptr - HEADER}| == |Used(bs)| - 1;
    }
  }

  function Run(st: State, hi: nat, ops: seq<Op>): State
    decreases |ops|
  {
    if ops == [] then st else Run(Step(st, hi, ops[0]), hi, ops[1..])
  }

  /** Over every sequence of heap calls the blocks tile the heap, no two neighbours are free, and the counters balance. */
  lemma {:induction false} RunKeeps(st: State, lo: nat, hi: nat, ops: seq<Op>)
    requires Accounted(st, lo, hi)
    ensures Accounted(Run(st, hi, ops), lo, hi)
    decreases |ops|
  {
    if ops != [] {
      StepKeeps(st, lo, hi, ops[0]);
      RunKeeps(Step(st, hi, ops[0]), lo, hi, ops[1..]);
    }
  }
}
