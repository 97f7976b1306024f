/** What every heap call does, by addresses: the blocks in use determine the block list, so they say it all. */
module HeapExact {
  import opened Basics
  import opened HeapList

  function InUse(bs: seq<Block>): set<Block> { set b | b in bs && b.used }

  lemma TailHeap(bs: seq<Block>, lo: nat, hi: nat)
    requires Heap(bs, lo, hi) && |bs| > 1
    ensures Heap(bs[1..], End(bs[0]), hi) && InUse(bs[1..]) == InUse(bs) - {bs[0]}
  {
    var t := bs[1..];
    forall i | 0 <= i < |t| ensures t[i] == bs[i + 1] && BlockOk(t[i]) && t[i] != bs[0] && (i > 0 ==> t[i - 1] == bs[i]) { Ordered(bs, lo, hi, 0, i + 1); }
    forall b | b in bs && b != bs[0] ensures b in t {
      var i :| 0 <= i < |bs| && bs[i] == b;
      assert t[i - 1] == b;
    }
  }

  /** A block in use at the start of the heap is the first one of the list. */
  lemma UsedFirst(bs: seq<Block>, lo: nat, hi: nat, b: Block)
    requires Heap(bs, lo, hi) && b in InUse(bs) && b.addr == lo
    ensures bs[0] == b
  {
    var i :| 0 <= i < |bs| && bs[i] == b;
    Distinct(bs, lo, hi, 0, i);
  }

  /** Behind a free block comes the first block in use, or nothing. */
  lemma FreeFirst(bs: seq<Block>, lo: nat, hi: nat, b: Block)
    requires Heap(bs, lo, hi) && !bs[0].used && b in InUse(bs)
    ensures |bs| > 1 && bs[1] in InUse(bs) && End(bs[0]) == bs[1].addr <= b.addr
  {
    var i :| 0 <= i < |bs| && bs[i] == b;
    if i > 1 { Ordered(bs, lo, hi, 1, i); }
    assert bs[1] in bs;
  }

  lemma SameFirst(bs: seq<Block>, bs2: seq<Block>, lo: nat, hi: nat)
    requires Heap(bs, lo, hi) && Heap(bs2, lo, hi) && InUse(bs) == InUse(bs2)
    ensures bs[0] == bs2[0]
  {
    hide Tiles, Coalesced, BlockOk;
    Starts(bs, lo, hi);
    Starts(bs2, lo, hi);
    if bs[0].used {
      UsedFirst(bs2, lo, hi, bs[0]);
    } else if bs2[0].used {
      UsedFirst(bs, lo, hi, bs2[0]);
    } else if b :| b in InUse(bs) {
      FreeFirst(bs, lo, hi, b);
      FreeFirst(bs2, lo, hi, b);
      FreeFirst(bs, lo, hi, bs2[1]);
      FreeFirst(bs2, lo, hi, bs[1]);
    } else {
      NoneIn(bs, lo, hi);
      NoneIn(bs2, lo, hi);
    }
  }

  lemma Starts(bs: seq<Block>, lo: nat, hi: nat)
    requires Heap(bs, lo, hi)
    ensures bs != [] && bs[0].addr == lo && (bs[0].used ==> bs[0] in InUse(bs))
  {
  }

  lemma NoneIn(bs: seq<Block>, lo: nat, hi: nat)
    requires Heap(bs, lo, hi) && InUse(bs) == {}
    ensures |bs| == 1 && bs[0] == Block(lo, hi - lo, false)
  {
    forall b | b in bs ensures !b.used { assert b !in InUse(bs); }
    assert Used(bs) == {};
    NoneUsed(bs, lo, hi);
  }

  lemma LastIs(bs: seq<Block>, lo: nat, hi: nat)
    requires Heap(bs, lo, hi)
    ensures |bs| == 1 <==> End(bs[0]) == hi
  {
    if |bs| > 1 { Ordered(bs, lo, hi, 0, |bs| - 1); }
  }

  /** Two heaps over the same range with the same blocks in use are the same list. */
  lemma {:induction false} Determined(bs: seq<Block>, bs2: seq<Block>, lo: nat, hi: nat)
    requires Heap(bs, lo, hi) && Heap(bs2, lo, hi) && InUse(bs) == InUse(bs2)
    ensures bs == bs2
    decreases |bs|
  {
    hide Heap, InUse;
    SameFirst(bs, bs2, lo, hi);
    LastIs(bs, lo, hi);
    LastIs(bs2, lo, hi);
    Starts(bs, lo, hi);
    Starts(bs2, lo, hi);
    if |bs| > 1 {
      TailHeap(bs, lo, hi);
      TailHeap(bs2, lo, hi);
      Determined(bs[1..], bs2[1..], End(bs[0]), hi);
      assert bs == [bs[0]] + bs[1..] && bs2 == [bs2[0]] + bs2[1..];
    } else {
      assert bs == [bs[0]] && bs2 == [bs2[0]];
    }
  }

  // ---------------------------------------------------------------- what the calls hand out

  /** A block from a on, cut out of the free block f so that it reaches e: to the next boundary, or to the end of f if the rest were too small. */
  ghost predicate CutOut(f: Block, a: nat, e: nat, nb: Block) {
    && nb.addr == a && nb.used
    && exists c: nat :: c % 16 == 0 && e <= c < e + 16 && c <= End(f) && End(nb) == if End(f) - c < MIN_BLOCK then End(f) else c
  }

  /** The first free block, by address, that holds a payload of that size. */
  ghost predicate FirstHolding(bs: seq<Block>, size: nat, f: Block) {
    && f in bs && !f.used && Holds(f.addr, End(f), size)
    && forall b :: b in bs && !b.used && Holds(b.addr, End(b), size) ==> f.addr <= b.addr
  }

  ghost predicate FirstPaged(bs: seq<Block>, pages: nat, f: Block) {
    f in bs && PagesFit(f, pages) && forall b :: b in bs && PagesFit(b, pages) ==> f.addr <= b.addr
  }

  lemma Earlier(bs: seq<Block>, lo: nat, hi: nat, i: nat, j: nat)
    requires Heap(bs, lo, hi) && i < |bs| && j < |bs| && bs[i].addr <= bs[j].addr
    ensures i <= j
  {
    if j < i { Ordered(bs, lo, hi, j, i); }
  }

  lemma TakeInUse(bs: seq<Block>, i: nat, bytes: nat, nb: Block)
    requires i < |bs| && !bs[i].used && bytes <= bs[i].size
    requires nb == (if bs[i].size - bytes < MIN_BLOCK then bs[i].(used := true) else Block(bs[i].addr, bytes, true))
    ensures InUse(TakeAt(bs, i, bytes)) == InUse(bs) + {nb}
  {
    var t := TakeAt(bs, i, bytes);
    forall b | b in InUse(bs) + {nb} ensures b in InUse(t) {
      if b == nb { assert t[i] == nb; }
      else {
        var k :| 0 <= k < |bs| && bs[k] == b;
        assert t[if k < i then k else k + |t| - |bs|] == b;
      }
    }
    forall b | b in InUse(t) ensures b in InUse(bs) + {nb} {
      var k :| 0 <= k < |t| && t[k] == b;
      if k < i { assert bs[k] == b; } else if k > i { assert k > i + |t| - |bs|; assert bs[k - (|t| - |bs|)] == b; }
    }
  }

  /** kmalloc: the first free block that holds the size, cut behind it; nothing else comes into use or goes out of it. */
  lemma MallocExact(bs: seq<Block>, lo: nat, hi: nat, size: nat, f: Block)
    requires Heap(bs, lo, hi) && size <= SIZE_MAX - HEADER && FirstHolding(bs, size, f)
    ensures var (r, p) := Malloc(bs, size);
            p == Some(f.addr + HEADER) && exists nb :: CutOut(f, f.addr, f.addr + HEADER + Wanted(size), nb) && InUse(r) == InUse(bs) + {nb}
  {
    hide TakeAt, InUse, Heap, Bytes, CutOut, FirstHolding;
    var n := Bytes(size);
    var j: nat := AtIndex(bs, size, f);
    FirstIs(bs, lo, hi, size, f, j);
    HoldingIs(bs, lo, hi, size, f);
    var nb := if f.size - n < MIN_BLOCK then f.(used := true) else Block(f.addr, n, true);
    TakeInUse(bs, j, n, nb);
    CutBehind(f, size, nb);
  }

  lemma AtIndex(bs: seq<Block>, size: nat, f: Block) returns (j: nat)
    requires FirstHolding(bs, size, f)
    ensures j < |bs| && bs[j] == f && !f.used
  {
    j :| 0 <= j < |bs| && bs[j] == f;
  }

  lemma HoldingIs(bs: seq<Block>, lo: nat, hi: nat, size: nat, f: Block)
    requires Heap(bs, lo, hi) && FirstHolding(bs, size, f)
    ensures BlockOk(f) && Bytes(size) <= f.size
  {
    hide Bytes, Coalesced;
    BytesHold(size, f.size);
  }

  lemma CutBehind(f: Block, size: nat, nb: Block)
    requires BlockOk(f) && Bytes(size) <= f.size
    requires nb == if f.size - Bytes(size) < MIN_BLOCK then f.(used := true) else Block(f.addr, Bytes(size), true)
    ensures CutOut(f, f.addr, f.addr + HEADER + Wanted(size), nb)
  {
    var c := f.addr + Bytes(size);
    assert c % 16 == 0 && f.addr + HEADER + Wanted(size) <= c < f.addr + HEADER + Wanted(size) + 16 by { BytesFit(size); }
  }

  lemma FirstIs(bs: seq<Block>, lo: nat, hi: nat, size: nat, f: Block, j: nat)
    requires Heap(bs, lo, hi) && FirstHolding(bs, size, f) && j < |bs| && bs[j] == f
    ensures FindFit(bs, Bytes(size)) == j
  {
    hide Bytes, Coalesced;
    var i := FindFit(bs, Bytes(size));
    assert BlockOk(f);
    BytesHold(size, f.size);
    if i < |bs| {
      assert BlockOk(bs[i]) && bs[i] in bs;
      BytesHold(size, bs[i].size);
      Earlier(bs, lo, hi, j, i);
    }
  }

  /** kframe_alloc_n: the first free block in which the pages fit behind its first page boundary. */
  lemma FrameExact(bs: seq<Block>, lo: nat, hi: nat, pages: nat, f: Block, p: nat)
    requires Heap(bs, lo, hi) && pages > 0 && FirstPaged(bs, pages, f) && FirstPage(f, p)
    ensures var (r, q) := FrameAlloc(bs, pages);
            q == Some(p) && exists nb :: CutOut(f, p - HEADER, p + pages * PAGE, nb) && InUse(r) == InUse(bs) + {nb}
  {
    hide TakeAt, InUse, Heap, Cut, CutAt, CutIndex, FirstPaged, FirstPage, CutOut;
    var want := pages * PAGE + HEADER;
    var j: nat := PagedIndex(bs, pages, f);
    FirstPagedIs(bs, lo, hi, pages, f, j);
    CutIs(f);
    OneFirstPage(f, p, f.addr + Cut(f) + HEADER);
    CutPlaces(bs, lo, hi, j, want);
    var c, k := CutAt(bs, j), CutIndex(bs[j], j);
    var nb := if c[k].size - want < MIN_BLOCK then c[k].(used := true) else Block(c[k].addr, want, true);
    CutInUse(bs, j);
    TakeInUse(c, k, want, nb);
    PagesBehind(f, c[k], p, pages, nb);
  }

  lemma PagedIndex(bs: seq<Block>, pages: nat, f: Block) returns (j: nat)
    requires FirstPaged(bs, pages, f)
    ensures j < |bs| && bs[j] == f && FrameFits(f, pages * PAGE + HEADER)
  {
    FitsIff(f, pages);
    j :| 0 <= j < |bs| && bs[j] == f;
  }

  lemma CutInUse(bs: seq<Block>, j: nat)
    requires j < |bs| && !bs[j].used && Cut(bs[j]) <= bs[j].size
    ensures InUse(CutAt(bs, j)) == InUse(bs)
  {
    hide Cut, CutAt;
    CutUses(bs, j);
    SameInUse(bs, CutAt(bs, j));
  }

  lemma PagesBehind(f: Block, r: Block, p: nat, pages: nat, nb: Block)
    requires FirstPage(f, p) && End(r) == End(f) && r.addr + HEADER == p && pages * PAGE + HEADER <= r.size
    requires nb == if r.size - (pages * PAGE + HEADER) < MIN_BLOCK then r.(used := true) else Block(r.addr, pages * PAGE + HEADER, true)
    ensures CutOut(f, p - HEADER, p + pages * PAGE, nb)
  {
    PageBoundary(f, p, pages);
  }

  lemma PageBoundary(f: Block, p: nat, pages: nat)
    requires FirstPage(f, p)
    ensures (p + pages * PAGE) % 16 == 0
  {
    Times16((p / PAGE + pages) * 256);
    assert p + pages * PAGE == (p / PAGE + pages) * 256 * 16;
  }

  lemma Times16(k: nat)
    ensures k * 16 % 16 == 0
  {
  }

  lemma SameInUse(bs: seq<Block>, c: seq<Block>)
    requires forall b: Block :: b.used ==> (b in bs <==> b in c)
    ensures InUse(c) == InUse(bs)
  {
  }

  lemma FirstPagedIs(bs: seq<Block>, lo: nat, hi: nat, pages: nat, f: Block, j: nat)
    requires Heap(bs, lo, hi) && FirstPaged(bs, pages, f) && j < |bs| && bs[j] == f
    ensures FindFrame(bs, pages * PAGE + HEADER) == j
  {
    hide FrameFits, PagesFit, Heap;
    var i := FindFrame(bs, pages * PAGE + HEADER);
    FitsIff(f, pages);
    if i < |bs| {
      assert bs[i] in bs;
      FitsIff(bs[i], pages);
      Earlier(bs, lo, hi, j, i);
    }
  }

  /** kfree: the one block goes out of use. */
  lemma FreeExact(bs: seq<Block>, lo: nat, hi: nat, b: Block)
    requires Heap(bs, lo, hi) && b in InUse(bs)
    ensures Heap(Free(bs, b.addr), lo, hi) && InUse(Free(bs, b.addr)) == InUse(bs) - {b}
  {
    hide MergeNext, Tiles, Coalesced, IndexOf;
    assert b.addr in Used(bs);
    FreeUses(bs, lo, hi, b.addr);
    var i := IndexOf(bs, b.addr);
    var k :| 0 <= k < |bs| && bs[k] == b;
    Distinct(bs, lo, hi, i, k);
    var b1 := bs[i := bs[i].(used := false)];
    MarkUses(bs, lo, hi, i);
    MergeUses(b1, i);
    var b2 := MergeNext(b1, i);
    if i > 0 && !b2[i - 1].used { MergeUses(b2, i - 1); }
    forall x | x in bs && x.used && x.addr == b.addr ensures x == b {
      var m :| 0 <= m < |bs| && bs[m] == x;
      Distinct(bs, lo, hi, i, m);
    }
  }

  /** krealloc: in place when the block is the last one and reaches far enough; else as kmalloc, and the old block goes. */
  lemma ReallocExact(bs: seq<Block>, lo: nat, hi: nat, b: Block, size: nat)
    requires Heap(bs, lo, hi) && b in InUse(bs) && 0 < size <= SIZE_MAX - HEADER
    ensures var (r, p) := Realloc(bs, hi, b.addr + HEADER, size);
            && (End(b) == hi && Holds(b.addr, hi, size) ==> r == bs && p == Some(b.addr + HEADER))
            && (!(End(b) == hi && Holds(b.addr, hi, size)) ==>
                 forall f :: FirstHolding(bs, size, f) ==>
                   p == Some(f.addr + HEADER) && exists nb :: CutOut(f, f.addr, f.addr + HEADER + Wanted(size), nb) && InUse(r) == InUse(bs) - {b} + {nb})
  {
    hide Malloc, Free, CutOut, FirstHolding, Bytes, Coalesced;
    var i := IndexOf(bs, b.addr);
    var k :| 0 <= k < |bs| && bs[k] == b;
    Distinct(bs, lo, hi, i, k);
    assert BlockOk(b) && BlockOk(bs[|bs| - 1]);
    assert End(b) == hi <==> i == |bs| - 1 by { if i < |bs| - 1 { Ordered(bs, lo, hi, i, |bs| - 1); } }
    BytesHold(size, hi - bs[|bs| - 1].addr);
    if !(End(b) == hi && Holds(b.addr, hi, size)) {
      forall f | FirstHolding(bs, size, f)
        ensures var (r, p) := Realloc(bs, hi, b.addr + HEADER, size);
                p == Some(f.addr + HEADER) && exists nb :: CutOut(f, f.addr, f.addr + HEADER + Wanted(size), nb) && InUse(r) == InUse(bs) - {b} + {nb}
      {
        MovedExact(bs, lo, hi, b, size, f);
      }
    }
  }

  lemma MovedExact(bs: seq<Block>, lo: nat, hi: nat, b: Block, size: nat, f: Block)
    requires Heap(bs, lo, hi) && b in InUse(bs) && 0 < size <= SIZE_MAX - HEADER && FirstHolding(bs, size, f)
    ensures var (r, p) := Malloc(bs, size);
            && p == Some(f.addr + HEADER)
            && exists nb :: CutOut(f, f.addr, f.addr + HEADER + Wanted(size), nb) && InUse(Free(r, b.addr)) == InUse(bs) - {b} + {nb}
  {
    hide Heap, Malloc, Free, Holds;
    var r := Malloc(bs, size).0;
    MallocExact(bs, lo, hi, size, f);
    MallocGives(bs, lo, hi, size);
    var nb :| CutOut(f, f.addr, f.addr + HEADER + Wanted(size), nb) && InUse(r) == InUse(bs) + {nb};
    FreeExact(r, lo, hi, b);
    assert nb != b by { ApartBlocks(bs, lo, hi, b, f); }
  }

  lemma ApartBlocks(bs: seq<Block>, lo: nat, hi: nat, b: Block, f: Block)
    requires Heap(bs, lo, hi) && b in bs && f in bs && b.used && !f.used
    ensures b.addr != f.addr
  {
    var i :| 0 <= i < |bs| && bs[i] == b;
    var j :| 0 <= j < |bs| && bs[j] == f;
    if b.addr == f.addr { Distinct(bs, lo, hi, i, j); }
  }
}
