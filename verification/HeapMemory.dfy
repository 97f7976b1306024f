/** The kernel heap in flat memory: packed headers, linked both ways, edited in place. */
module HeapMemory {
  import opened Basics
  import opened Words
  import opened HeapList

  const MAGIC := 0x8000_0000

  /** Bit 31 says the header is ours, bit 0 that the block is in use, the rest is the size. */
  function Pack(b: Block): nat { MAGIC + b.size + (if b.used then 1 else 0) }

  predicate Ours(w: nat) { w >= MAGIC }

  predicate InUse(w: nat) { w % 2 == 1 }

  function SizeOf(w: nat): nat { (if w >= MAGIC then w - MAGIC else w) - w % 2 }

  lemma Unpack(b: Block)
    requires b.size % 16 == 0 && b.size < MAGIC
    ensures Pack(b) < WORD && Ours(Pack(b)) && InUse(Pack(b)) == b.used && SizeOf(Pack(b)) == b.size
  {
    var q := b.size / 16;
    Parity(0x4000_0000 + 8 * q, if b.used then 1 else 0);
  }

  lemma Parity(h: nat, u: nat)
    requires u < 2
    ensures (2 * h + u) % 2 == u
  {
  }

  // ---------------------------------------------------------------- the linked list in memory

  function NextOf(bs: seq<Block>, i: nat): nat { if i + 1 < |bs| then bs[i + 1].addr else 0 }

  function PrevOf(bs: seq<Block>, i: nat): nat { if 0 < i <= |bs| then bs[i - 1].addr else 0 }

  ghost predicate HeaderAt(s: seq<byte>, a: nat, b: Block, next: nat, prev: nat) {
    a + HEADER <= |s| && Word(s, a) == Pack(b) && Word(s, a + 8) == next && Word(s, a + 12) == prev
  }

  /** Every block's header holds its packed size and its neighbours' addresses. */
  ghost predicate Linked(s: seq<byte>, bs: seq<Block>) {
    forall i :: 0 <= i < |bs| ==> HeaderAt(s, bs[i].addr, bs[i], NextOf(bs, i), PrevOf(bs, i))
  }

  lemma SameHeader(s: seq<byte>, s2: seq<byte>, a: nat, b: Block, next: nat, prev: nat)
    requires HeaderAt(s, a, b, next, prev) && |s2| == |s|
    requires forall k :: a <= k < a + HEADER ==> s2[k] == s[k]
    ensures HeaderAt(s2, a, b, next, prev)
  {
  }

  /** Two blocks lie apart, and inside the heap. */
  lemma Apart(bs: seq<Block>, lo: nat, hi: nat, i: nat, j: nat)
    requires Tiles(bs, lo, hi) && i < |bs| && j < |bs|
    ensures lo <= bs[j].addr && bs[j].addr + MIN_BLOCK <= End(bs[j]) <= hi
    ensures lo <= bs[i].addr && bs[i].addr + MIN_BLOCK <= End(bs[i]) <= hi
    ensures i != j ==> End(bs[i]) <= bs[j].addr || End(bs[j]) <= bs[i].addr
  {
    if i < j { Ordered(bs, lo, hi, i, j); } else if j < i { Ordered(bs, lo, hi, j, i); }
    Inside(bs, lo, hi, i);
    Inside(bs, lo, hi, j);
  }

  lemma Inside(bs: seq<Block>, lo: nat, hi: nat, j: nat)
    requires Tiles(bs, lo, hi) && j < |bs|
    ensures lo <= bs[j].addr && bs[j].addr + MIN_BLOCK <= End(bs[j]) <= hi
  {
    if 0 < j { Ordered(bs, lo, hi, 0, j); }
    if j < |bs| - 1 { Ordered(bs, lo, hi, j, |bs| - 1); }
  }

  /** No byte of a live payload changed. */
  ghost predicate PayloadsKept(s: seq<byte>, s2: seq<byte>, bs: seq<Block>) {
    |s2| == |s| && forall b, k :: b in bs && b.used && b.addr + HEADER <= k < End(b) && k < |s| ==> s2[k] == s[k]
  }

  // ---------------------------------------------------------------- the edits

  /** Block i, with other contents but at the same place. */
  lemma Remarked(s: seq<byte>, s2: seq<byte>, bs: seq<Block>, i: nat, lo: nat, hi: nat, b: Block)
    requires Tiles(bs, lo, hi) && hi <= |s| && Linked(s, bs) && i < |bs|
    requires b.addr == bs[i].addr && b.addr + 4 <= |s| && Pack(b) < WORD && s2 == Put(s, b.addr, Pack(b))
    ensures Linked(s2, bs[i := b])
  {
    hide Tiles, Put, Word, Pack, HeaderAt;
    var r := bs[i := b];
    forall j | 0 <= j < |r| ensures HeaderAt(s2, r[j].addr, r[j], NextOf(r, j), PrevOf(r, j)) {
      assert HeaderAt(s, bs[j].addr, bs[j], NextOf(bs, j), PrevOf(bs, j));
      Apart(bs, lo, hi, i, j);
      if j != i {
        SameHeader(s, s2, bs[j].addr, bs[j], NextOf(bs, j), PrevOf(bs, j));
      } else {
        NewSize(s, s2, bs[i], NextOf(bs, i), PrevOf(bs, i), b);
      }
    }
  }

  lemma NewSize(s: seq<byte>, s2: seq<byte>, was: Block, next: nat, prev: nat, b: Block)
    requires HeaderAt(s, b.addr, was, next, prev) && Pack(b) < WORD && s2 == Put(s, b.addr, Pack(b))
    ensures HeaderAt(s2, b.addr, b, next, prev)
  {
    hide Put, Word, Pack;
    SameWord(s, s2, b.addr + 8);
    SameWord(s, s2, b.addr + 12);
  }

  /** Byte k belongs to the header at a. */
  predicate Within(k: int, a: nat) { a <= k < a + HEADER }

  /** The stores of a split: a header for the tail, and the links around it. */
  function SplitStores(s: seq<byte>, b: nat, bytes: nat, total: nat, after: nat): seq<byte>
    requires bytes <= total && total < MAGIC && b + bytes + HEADER <= |s| && HEADER <= bytes && after + HEADER <= |s| && |s| <= WORD
  {
    var tail := b + bytes;
    var s1 := Put(s, tail, total - bytes + MAGIC);
    var s2 := Put(s1, tail + 4, bytes);
    var s3 := Put(s2, tail, total - bytes + MAGIC);
    var s4 := Put(s3, b, bytes + MAGIC);
    var s5 := Put(s4, b + 8, tail);
    var s6 := Put(s5, tail + 12, b);
    var s7 := Put(s6, tail + 8, after);
    if after == 0 then s7 else Put(s7, after + 12, tail)
  }

  /** What those stores leave where. */
  lemma SplitWords(s: seq<byte>, b: nat, bytes: nat, total: nat, after: nat, s2: seq<byte>)
    requires SplitStores.requires(s, b, bytes, total, after) && s2 == SplitStores(s, b, bytes, total, after)
    requires after == 0 || b + bytes + HEADER <= after
    ensures |s2| == |s|
    ensures Word(s2, b) == bytes + MAGIC && Word(s2, b + 8) == b + bytes && Word(s2, b + 12) == Word(s, b + 12)
    ensures Word(s2, b + bytes) == total - bytes + MAGIC && Word(s2, b + bytes + 8) == after && Word(s2, b + bytes + 12) == b
    ensures after != 0 ==> Word(s2, after) == Word(s, after) && Word(s2, after + 8) == Word(s, after + 8) && Word(s2, after + 12) == b + bytes
    ensures forall k :: 0 <= k < |s| && !Within(k, b) && !Within(k, b + bytes) && !(after != 0 && Within(k, after)) ==> s2[k] == s[k]
  {
    hide Put, Word;
  }

  /** The stores of a merge: block b takes over block n, which follows it. */
  function AbsorbStores(s: seq<byte>, b: nat, size: nat, after: nat): seq<byte>
    requires size < MAGIC && b + HEADER <= |s| && after + HEADER <= |s| && |s| <= WORD
  {
    var s1 := Put(s, b, size + MAGIC);
    var s2 := Put(s1, b + 8, after);
    if after == 0 then s2 else Put(s2, after + 12, b)
  }

  lemma AbsorbWords(s: seq<byte>, b: nat, size: nat, after: nat, s2: seq<byte>)
    requires AbsorbStores.requires(s, b, size, after) && s2 == AbsorbStores(s, b, size, after)
    requires after == 0 || b + HEADER <= after
    ensures |s2| == |s|
    ensures Word(s2, b) == size + MAGIC && Word(s2, b + 8) == after && Word(s2, b + 12) == Word(s, b + 12)
    ensures after != 0 ==> Word(s2, after) == Word(s, after) && Word(s2, after + 8) == Word(s, after + 8) && Word(s2, after + 12) == b
    ensures forall k :: 0 <= k < |s| && !Within(k, b) && !(after != 0 && Within(k, after)) ==> s2[k] == s[k]
  {
    hide Put, Word;
  }

  ghost predicate Represents(s: seq<byte>, bs: seq<Block>, lo: nat, hi: nat) {
    HEADER <= lo && hi <= |s| <= MAGIC && Tiles(bs, lo, hi) && Linked(s, bs)
  }

  /** Block i in two halves, both free. */
  function Halves(bs: seq<Block>, i: nat, bytes: nat): seq<Block>
    requires i < |bs| && bytes <= bs[i].size
  {
    Splice(bs, i, Block(bs[i].addr, bytes, false), Block(bs[i].addr + bytes, bs[i].size - bytes, false))
  }

  lemma SplitLinks(s: seq<byte>, bs: seq<Block>, lo: nat, hi: nat, i: nat, bytes: nat, s2: seq<byte>)
    requires Represents(s, bs, lo, hi) && i < |bs| && bytes % 16 == 0 && MIN_BLOCK <= bytes && bytes + MIN_BLOCK <= bs[i].size
    requires SplitStores.requires(s, bs[i].addr, bytes, bs[i].size, NextOf(bs, i))
    requires s2 == SplitStores(s, bs[i].addr, bytes, bs[i].size, NextOf(bs, i))
    ensures Represents(s2, Halves(bs, i, bytes), lo, hi)
  {
    hide SplitStores, Splice, Word, Linked, Tiles;
    var b, x := bs[i], Block(bs[i].addr, bytes, false);
    var y, after := Block(b.addr + bytes, b.size - bytes, false), NextOf(bs, i);
    var r := Splice(bs, i, x, y);
    BlocksOk(bs, lo, hi, i);
    SpliceTiles(bs, lo, hi, i, x, y);
    SpliceLength(bs, i, x, y);
    assert after == 0 || b.addr + bytes + HEADER <= after by { if i + 1 < |bs| { Ordered(bs, lo, hi, i, i + 1); } }
    SplitWords(s, b.addr, bytes, b.size, after, s2);
    forall j | 0 <= j < |r| ensures HeaderAt(s2, r[j].addr, r[j], NextOf(r, j), PrevOf(r, j)) {
      SpliceAt(bs, i, x, y, j);
      SpliceLinks(bs, i, x, y, j);
      var k := if j <= i then j else j - 1;
      LinkedAt(s, bs, k);
      Apart(bs, lo, hi, i, k);
      if i + 1 < |bs| { Apart(bs, lo, hi, i + 1, k); Apart(bs, lo, hi, i, i + 1); }
      if j < i || j > i + 2 { SameHeader(s, s2, bs[k].addr, bs[k], NextOf(bs, k), PrevOf(bs, k)); }
    }
    LinkedAll(s2, r);
  }

  lemma LinkedAt(s: seq<byte>, bs: seq<Block>, k: nat)
    requires Linked(s, bs) && k < |bs|
    ensures HeaderAt(s, bs[k].addr, bs[k], NextOf(bs, k), PrevOf(bs, k))
  {
  }

  lemma LinkedAll(s: seq<byte>, bs: seq<Block>)
    requires forall j :: 0 <= j < |bs| ==> HeaderAt(s, bs[j].addr, bs[j], NextOf(bs, j), PrevOf(bs, j))
    ensures Linked(s, bs)
  {
  }

  lemma SpliceLinks(bs: seq<Block>, i: nat, x: Block, y: Block, j: nat)
    requires i < |bs| && j <= |bs| && x.addr == bs[i].addr
    ensures var r := Splice(bs, i, x, y);
            && |r| == |bs| + 1
            && NextOf(r, j) == (if j == i then y.addr else if j < i then NextOf(bs, j) else NextOf(bs, j - 1))
            && PrevOf(r, j) == (if j <= i then PrevOf(bs, j) else if j == i + 1 then x.addr else if j == i + 2 then y.addr else PrevOf(bs, j - 1))
  {
  }

  lemma AbsorbLinks(s: seq<byte>, bs: seq<Block>, lo: nat, hi: nat, i: nat, s2: seq<byte>)
    requires Represents(s, bs, lo, hi) && i + 1 < |bs| && !bs[i].used && !bs[i + 1].used
    requires AbsorbStores.requires(s, bs[i].addr, bs[i].size + bs[i + 1].size, NextOf(bs, i + 1))
    requires s2 == AbsorbStores(s, bs[i].addr, bs[i].size + bs[i + 1].size, NextOf(bs, i + 1))
    ensures Represents(s2, MergeNext(bs, i), lo, hi)
  {
    hide AbsorbStores, Word, Linked, Tiles, MergeNext;
    var b, after := bs[i], NextOf(bs, i + 1);
    var r := MergeNext(bs, i);
    MergeTiles(bs, lo, hi, i);
    MergeAt(bs, i, i);
    Ordered(bs, lo, hi, i, i + 1);
    if i + 2 < |bs| { Ordered(bs, lo, hi, i, i + 2); }
    Apart(bs, lo, hi, i, i + 1);
    AbsorbWords(s, b.addr, b.size + bs[i + 1].size, after, s2);
    forall j | 0 <= j < |r| ensures HeaderAt(s2, r[j].addr, r[j], NextOf(r, j), PrevOf(r, j)) {
      MergeAt(bs, i, j);
      MergeLinks(bs, i, j);
      var k := if j <= i then j else j + 1;
      LinkedAt(s, bs, k);
      Apart(bs, lo, hi, i, k);
      if i + 2 < |bs| { Apart(bs, lo, hi, i + 2, k); Apart(bs, lo, hi, i, i + 2); }
      if j < i || j > i + 1 { SameHeader(s, s2, bs[k].addr, bs[k], NextOf(bs, k), PrevOf(bs, k)); }
    }
    LinkedAll(s2, r);
  }

  lemma MergeLinks(bs: seq<Block>, i: nat, j: nat)
    requires i + 1 < |bs| && !bs[i + 1].used && j < |bs| - 1
    ensures var r := MergeNext(bs, i);
            && |r| == |bs| - 1
            && NextOf(r, j) == (if j < i then NextOf(bs, j) else NextOf(bs, j + 1))
            && PrevOf(r, j) == (if j <= i then PrevOf(bs, j) else if j == i + 1 then bs[i].addr else PrevOf(bs, j + 1))
  {
  }

  /** A live payload avoids every header, and every byte of a free block. */
  lemma PayloadClear(bs: seq<Block>, lo: nat, hi: nat, c: Block, k: nat, j: nat)
    requires Tiles(bs, lo, hi) && c in bs && c.used && c.addr + HEADER <= k < End(c) && j < |bs|
    ensures !Within(k, bs[j].addr) && (!bs[j].used ==> !(bs[j].addr <= k < End(bs[j])))
  {
    var i :| 0 <= i < |bs| && bs[i] == c;
    Apart(bs, lo, hi, i, j);
  }

  /** Stores into the headers of two neighbours, and inside the free one of them, leave live payloads alone. */
  lemma EditKeeps(s: seq<byte>, s2: seq<byte>, bs: seq<Block>, lo: nat, hi: nat, i: nat, n: nat, inner: nat)
    requires Tiles(bs, lo, hi) && i < |bs| && |s2| == |s|
    requires n < |bs| && (inner == bs[i].addr || (!bs[i].used && bs[i].addr <= inner && inner + HEADER <= End(bs[i])))
    requires forall k :: 0 <= k < |s| && !Within(k, bs[i].addr) && !Within(k, inner) && !Within(k, bs[n].addr) ==> s2[k] == s[k]
    ensures PayloadsKept(s, s2, bs)
  {
    hide Tiles;
    forall c, k | c in bs && c.used && c.addr + HEADER <= k < End(c) && k < |s| ensures s2[k] == s[k] {
      PayloadClear(bs, lo, hi, c, k, i);
      PayloadClear(bs, lo, hi, c, k, n);
    }
  }

  lemma HalvesTaken(bs: seq<Block>, i: nat, bytes: nat)
    requires i < |bs| && bytes + MIN_BLOCK <= bs[i].size
    ensures i < |Halves(bs, i, bytes)| && Halves(bs, i, bytes)[i] == Block(bs[i].addr, bytes, false)
    ensures Halves(bs, i, bytes)[i := Block(bs[i].addr, bytes, true)] == TakeAt(bs, i, bytes)
    ensures forall b: Block :: b.used ==> (b in Halves(bs, i, bytes) ==> b in bs)
  {
    var r := Halves(bs, i, bytes);
    forall b: Block | b.used && b in r ensures b in bs {
      var k :| 0 <= k < |r| && r[k] == b;
      SpliceAt(bs, i, Block(bs[i].addr, bytes, false), Block(bs[i].addr + bytes, bs[i].size - bytes, false), k);
    }
  }

  class Arena {
    const mem: array<byte>
    const start: nat
    const end: nat
    var head: nat
    var allocs: nat
    var frees: nat
    var rejected: nat
    ghost var bs: seq<Block>

    ghost predicate Shape()
      reads this, mem
    {
      Represents(mem[..], bs, start, end) && head == start
    }

    ghost predicate Valid()
      reads this, mem
    {
      Shape() && Coalesced(bs)
    }

    function Load(a: nat): (w: nat)
      requires a + 4 <= mem.Length
      reads mem
      ensures w == Word(mem[..], a)
    {
      Word(mem[..], a)
    }

    method Store(a: nat, w: nat)
      requires a + 4 <= mem.Length && w < WORD
      modifies mem
      ensures mem[..] == Put(old(mem[..]), a, w)
    {
      StoreWord(mem, a, w);
    }

    /** heap_init: one free block over the whole range. */
    constructor (memory: array<byte>, lo: nat, hi: nat)
      requires HEADER <= lo && lo % 16 == 0 && hi % 16 == 0 && lo + MIN_BLOCK <= hi <= memory.Length <= MAGIC
      modifies memory
      ensures Valid() && mem == memory && start == lo && end == hi && bs == [Block(lo, hi - lo, false)]
      ensures allocs == 0 && frees == 0
    {
      mem, start, end, head := memory, lo, hi, lo;
      allocs, frees, rejected := 0, 0, 0;
      bs := [Block(lo, hi - lo, false)];
      new;
      InitHeader(lo, hi - lo);
      InitShape(mem[..], lo, hi);
    }

    /** The first header, over memory that holds anything at all. */
    method InitHeader(b: nat, size: nat)
      requires b + HEADER <= mem.Length && size < MAGIC
      modifies mem
      ensures HeaderAt(mem[..], b, Block(b, size, false), 0, 0)
    {
      hide Put, Word, Load;
      Store(b + 4, 0);
      Store(b + 8, 0);
      Store(b + 12, 0);
      Store(b, SizeOf(Load(b)) + MAGIC);
      Store(b, size + MAGIC);
    }

    /** What a header read back says. */
    lemma ReadHeader(i: nat)
      requires Shape() && i < |bs|
      ensures bs[i].addr + HEADER <= mem.Length && bs[i].addr >= HEADER
      ensures InUse(Load(bs[i].addr)) == bs[i].used && SizeOf(Load(bs[i].addr)) == bs[i].size && Ours(Load(bs[i].addr))
      ensures Load(bs[i].addr + 8) == NextOf(bs, i) && Load(bs[i].addr + 12) == PrevOf(bs, i)
      ensures bs[i].addr + bs[i].size <= end && bs[i].size % 16 == 0 && bs[i].size >= MIN_BLOCK
    {
      hide Tiles, Linked, Load;
      LinkedAt(mem[..], bs, i);
      Inside(bs, start, end, i);
      BlocksOk(bs, start, end, i);
      Unpack(bs[i]);
    }

    method Mark(b: nat, used: bool, ghost i: nat)
      requires Shape() && i < |bs| && b == bs[i].addr
      modifies mem, this`bs
      ensures Shape() && bs == old(bs)[i := old(bs)[i].(used := used)]
      ensures PayloadsKept(old(mem[..]), mem[..], old(bs))
    {
      hide Tiles, Linked, Load, Put, Word, Coalesced;
      ReadHeader(i);
      ghost var s, x := mem[..], bs[i].(used := used);
      Unpack(x);
      Store(b, SizeOf(Load(b)) + MAGIC + (if used then 1 else 0));
      Remarked(s, mem[..], bs, i, start, end, x);
      EditKeeps(s, mem[..], bs, start, end, i, i, b);
      MarkTiles(bs, start, end, i, used);
      bs := bs[i := x];
    }

    /** Carve block i down to `bytes`; 0 when the rest could not hold a block. */
    method Split(b: nat, bytes: nat, ghost i: nat) returns (tail: nat)
      requires Shape() && i < |bs| && b == bs[i].addr && bytes % 16 == 0 && MIN_BLOCK <= bytes
      requires !bs[i].used || bs[i].size < bytes + MIN_BLOCK
      modifies mem, this`bs
      ensures Shape() && PayloadsKept(old(mem[..]), mem[..], old(bs))
      ensures if bytes + MIN_BLOCK <= old(bs)[i].size
              then tail == b + bytes && bs == Halves(old(bs), i, bytes)
              else tail == 0 && bs == old(bs)
    {
      hide Tiles, Linked, Load, Put, Word, Coalesced, Halves;
      ReadHeader(i);
      var total := SizeOf(Load(b));
      if total < bytes || total - bytes < MIN_BLOCK {
        SamePayloads(mem[..], bs);
        return 0;
      }
      ghost var s := mem[..];
      tail := b + bytes;
      var after := Load(b + 8);
      if i + 1 < |bs| { Apart(bs, start, end, i, i + 1); Ordered(bs, start, end, i, i + 1); }
      assert after + HEADER <= mem.Length;
      WriteSplit(b, bytes, total, after);
      SplitWords(s, b, bytes, total, after, mem[..]);
      SplitLinks(s, bs, start, end, i, bytes, mem[..]);
      EditKeeps(s, mem[..], bs, start, end, i, if i + 1 < |bs| then i + 1 else i, tail);
      bs := Halves(bs, i, bytes);
    }

    /** The stores of a split, in the order the code makes them. */
    method WriteSplit(b: nat, bytes: nat, total: nat, after: nat)
      requires SplitStores.requires(mem[..], b, bytes, total, after) && (total - bytes) % 16 == 0
      modifies mem
      ensures mem[..] == SplitStores(old(mem[..]), b, bytes, total, after)
    {
      hide Load, Put, Word;
      var tail := b + bytes;
      Store(tail, total - bytes + MAGIC);
      Store(tail + 4, bytes);
      MarkFree(tail, total - bytes);
      Store(b, bytes + MAGIC);
      Store(b + 8, tail);
      Store(tail + 12, b);
      Store(tail + 8, after);
      if after != 0 { Store(after + 12, tail); }
    }

    /** mark(tail, false): repack the size that is there. */
    method MarkFree(a: nat, size: nat)
      requires a + 4 <= mem.Length && size < MAGIC && size % 16 == 0 && Word(mem[..], a) == size + MAGIC
      modifies mem
      ensures mem[..] == Put(old(mem[..]), a, size + MAGIC)
    {
      hide Load, Put, Word;
      Unpack(Block(a, size, false));
      Store(a, SizeOf(Load(a)) + MAGIC);
    }

    method FindFitIn(bytes: nat) returns (b: nat, ghost i: nat)
      requires Shape()
      ensures i == FindFit(bs, bytes) && b == if i < |bs| then bs[i].addr else 0
    {
      hide Tiles, Linked, Load, Coalesced;
      b, i := head, 0;
      HeadFirst();
      while b != 0
        invariant i <= |bs| && b == if i < |bs| then bs[i].addr else 0
        invariant forall k :: 0 <= k < i ==> bs[k].used || bs[k].size < bytes
        decreases |bs| - i
      {
        assert i < |bs|;
        ReadHeader(i);
        if !InUse(Load(b)) && SizeOf(Load(b)) >= bytes {
          FitIs(bs, bytes, i);
          return;
        }
        b, i := Load(b + 8), i + 1;
      }
      if i < |bs| { ReadHeader(i); }
      FitIs(bs, bytes, i);
    }

    /** kmalloc; null is 0. */
    method Kmalloc(size: nat) returns (p: nat)
      requires Valid()
      modifies this, mem
      ensures Valid() && frees == old(frees) && allocs == old(allocs) + (if p != 0 then 1 else 0)
      ensures bs == Malloc(old(bs), size).0 && p == OrNull(Malloc(old(bs), size).1)
      ensures PayloadsKept(old(mem[..]), mem[..], old(bs))
    {
      hide Tiles, Linked, Load, Coalesced, TakeAt, Halves;
      var n := if size == 0 then 1 else size;
      if n > SIZE_MAX - HEADER {
        SamePayloads(mem[..], bs);
        return 0;
      }
      var bytes := AlignUp(n + HEADER, 16);
      BytesFit(size);
      var b, i := FindFitIn(bytes);
      if b == 0 {
        if i < |bs| { ReadHeader(i); }
        SamePayloads(mem[..], bs);
        return 0;
      }
      TakeKeeps(bs, start, end, i, bytes);
      Take(b, bytes, i);
      allocs := allocs + 1;
      return b + HEADER;
    }

    /** split, then mark in use. */
    method Take(b: nat, bytes: nat, ghost i: nat)
      requires Shape() && i < |bs| && b == bs[i].addr && !bs[i].used && bytes % 16 == 0 && MIN_BLOCK <= bytes <= bs[i].size
      modifies mem, this`bs
      ensures Shape() && bs == TakeAt(old(bs), i, bytes) && b >= HEADER
      ensures PayloadsKept(old(mem[..]), mem[..], old(bs))
    {
      hide Tiles, Linked, Load, Coalesced, Halves, Put, Word, PayloadsKept;
      ReadHeader(i);
      ghost var s, bs0 := mem[..], bs;
      var _ := Split(b, bytes, i);
      ghost var s1, bs1 := mem[..], bs;
      if bytes + MIN_BLOCK <= bs0[i].size {
        HalvesTaken(bs0, i, bytes);
        HalvesKeep(bs0, i, bytes);
      }
      Mark(b, true, i);
      KeptTwice(s, s1, mem[..], bs0, bs1);
    }

    /** Block i takes over the free block after it. */
    method Absorb(b: nat, n: nat, ghost i: nat)
      requires Shape() && i + 1 < |bs| && b == bs[i].addr && n == bs[i + 1].addr && !bs[i].used && !bs[i + 1].used
      modifies mem, this`bs
      ensures Shape() && bs == MergeNext(old(bs), i)
      ensures PayloadsKept(old(mem[..]), mem[..], old(bs))
    {
      hide Tiles, Linked, Load, Coalesced, MergeNext, Put, Word;
      ReadHeader(i);
      ReadHeader(i + 1);
      Ordered(bs, start, end, i, i + 1);
      ghost var s := mem[..];
      var size, after := SizeOf(Load(b)) + SizeOf(Load(n)), Load(n + 8);
      if i + 2 < |bs| { Apart(bs, start, end, i + 1, i + 2); Ordered(bs, start, end, i, i + 2); }
      WriteAbsorb(b, size, after);
      AbsorbWords(s, b, size, after, mem[..]);
      AbsorbLinks(s, bs, start, end, i, mem[..]);
      EditKeeps(s, mem[..], bs, start, end, i, if i + 2 < |bs| then i + 2 else i, b);
      bs := MergeNext(bs, i);
    }

    method WriteAbsorb(b: nat, size: nat, after: nat)
      requires AbsorbStores.requires(mem[..], b, size, after)
      modifies mem
      ensures mem[..] == AbsorbStores(old(mem[..]), b, size, after)
    {
      hide Put, Word;
      Store(b, size + MAGIC);
      Store(b + 8, after);
      if after != 0 { Store(after + 12, b); }
    }

    /** A pointer that may be given back: null, or one whose header either is a live block's or does not look like one. */
    ghost predicate Freeable(ptr: nat)
      reads this, mem
    {
      ptr != 0 ==>
        && HEADER <= ptr <= mem.Length
        && (Ours(Load(ptr - HEADER)) && InUse(Load(ptr - HEADER)) ==> ptr - HEADER in Used(bs))
    }

    method Kfree(ptr: nat)
      requires Valid() && Freeable(ptr)
      modifies this, mem
      ensures Valid() && allocs == old(allocs)
      ensures if ptr != 0 && old(Ours(Load(ptr - HEADER)) && InUse(Load(ptr - HEADER)))
              then ptr - HEADER in Used(old(bs)) && bs == Free(old(bs), ptr - HEADER)
                   && frees == old(frees) + 1 && rejected == old(rejected)
              else bs == old(bs) && frees == old(frees) && mem[..] == old(mem[..])
                   && rejected == old(rejected) + (if ptr == 0 then 0 else 1)
      ensures PayloadsKept(old(mem[..]), mem[..], bs)
    {
      hide Tiles, Linked, Load, Coalesced, MergeNext, Put, Word, Used, IndexOf;
      if ptr == 0 {
        SamePayloads(mem[..], bs);
        return;
      }
      var b := ptr - HEADER;
      if !Ours(Load(b)) || !InUse(Load(b)) {
        rejected := rejected + 1;
        SamePayloads(mem[..], bs);
        return;
      }
      ghost var i := IndexOf(bs, b);
      FreeKeeps(bs, start, end, i);
      Release(b, i);
      frees := frees + 1;
    }

    /** mark free, then merge with the next and the previous block. */
    method Release(b: nat, ghost i: nat)
      requires Shape() && i < |bs| && b == bs[i].addr && bs[i].used
      modifies mem, this`bs
      ensures Shape() && bs == FreeAt(old(bs), i)
      ensures PayloadsKept(old(mem[..]), mem[..], bs)
    {
      hide Tiles, Linked, Load, Coalesced, Put, Word, PayloadsKept;
      ghost var s, bs0 := mem[..], bs;
      Mark(b, false, i);
      ghost var bs1 := bs;
      ReadHeader(i);
      var n := Load(b + 8);
      var merge := n != 0;
      if i + 1 < |bs| { ReadHeader(i + 1); }
      if merge { merge := !InUse(Load(n)); }
      ghost var s1 := mem[..];
      if merge { Absorb(b, n, i); } else { SamePayloads(mem[..], bs); }
      ghost var s2, bs2 := mem[..], bs;
      MergeUses(bs1, i);
      assert bs2 == MergeNext(bs1, i);
      ReadHeader(i);
      var p := Load(b + 12);
      merge := p != 0;
      if i > 0 { ReadHeader(i - 1); }
      if merge { merge := !InUse(Load(p)); }
      if merge { Absorb(p, b, i - 1); } else { SamePayloads(mem[..], bs); }
      if i > 0 && !bs2[i - 1].used { MergeUses(bs2, i - 1); }
      MarkKeeps(bs0, i);
      KeptTwice(s, s1, s2, bs1, bs1) by { KeptFewer(s, s1, bs0, bs1); }
      KeptTwice(s, s2, mem[..], bs2, bs2) by { KeptFewer(s, s2, bs1, bs2); }
      KeptFewer(s, mem[..], bs2, bs);
    }

    /** kframe_alloc_n: the first block that can be cut so that its payload is page aligned. */
    method KframeAllocN(pages: nat) returns (p: nat)
      requires Valid() && pages * PAGE + HEADER < WORD
      modifies this, mem
      ensures Valid() && frees == old(frees) && allocs == old(allocs) + (if p != 0 then 1 else 0)
      ensures bs == FrameAlloc(old(bs), pages).0 && p == OrNull(FrameAlloc(old(bs), pages).1)
      ensures PayloadsKept(old(mem[..]), mem[..], old(bs))
    {
      hide Tiles, Linked, Load, Coalesced, TakeAt, CutAt, AlignUp, Word, PayloadsKept, FrameFits, Cut;
      SamePayloads(mem[..], bs);
      if pages == 0 { return 0; }
      var want := pages * PAGE + HEADER;
      WantAligned(pages);
      var b: nat := head;
      ghost var i := 0;
      HeadFirst();
      while b != 0
        invariant i <= |bs| && b == if i < |bs| then bs[i].addr else 0
        invariant forall k :: 0 <= k < i ==> !FrameFits(bs[k], want)
        invariant bs == old(bs) && mem[..] == old(mem[..]) && Valid() && allocs == old(allocs) && frees == old(frees)
        decreases |bs| - i
      {
        assert i < |bs|;
        ReadHeader(i);
        var fits := !InUse(Load(b));
        var payload, room := b + HEADER, SizeOf(Load(b));
        var cut := if payload % PAGE != 0 then AlignUp(payload, PAGE) - HEADER - b else 0;
        if payload % PAGE != 0 && (cut > room || room - cut < want || cut < MIN_BLOCK) { fits := false; }
        if room < want { fits := false; }
        FitsTest(bs[i], want);
        if fits {
          FrameIs(bs, want, i);
          FrameKeeps(bs, start, end, i, want);
          Carve(b, cut, want, i);
          allocs := allocs + 1;
          return b + cut + HEADER;
        }
        b, i := Load(b + 8), i + 1;
      }
      if i < |bs| { ReadHeader(i); }
      FrameIs(bs, want, i);
      return 0;
    }

    /** Cut off what lies before the page boundary, split off what lies after the run, and mark the rest in use. */
    method Carve(b: nat, cut: nat, want: nat, ghost i: nat)
      requires Valid() && i < |bs| && b == bs[i].addr && FrameFits(bs[i], want) && cut == Cut(bs[i])
      requires want % 16 == 0 && want >= MIN_BLOCK
      modifies mem, this`bs
      ensures Shape() && bs == TakeAt(CutAt(old(bs), i), CutIndex(old(bs)[i], i), want) && b >= HEADER
      ensures PayloadsKept(old(mem[..]), mem[..], old(bs))
    {
      hide Tiles, Linked, Load, Coalesced, TakeAt, Word, PayloadsKept, Halves, Cut;
      ghost var s, bs0, j := mem[..], bs, CutIndex(bs[i], i);
      ReadHeader(i);
      CutAlignedHere(i);
      CutPlaces(bs, start, end, i, want);
      if cut != 0 {
        var _ := Split(b, cut, i);
        CutHalves(bs0, i);
      } else {
        SamePayloads(mem[..], bs);
      }
      assert bs == CutAt(bs0, i);
      ghost var s1 := mem[..];
      CutUses(bs0, i);
      Take(b + cut, want, j);
      KeptTwice(s, s1, mem[..], bs0, CutAt(bs0, i));
    }

    lemma CutAlignedHere(i: nat)
      requires Shape() && i < |bs|
      ensures Cut(bs[i]) % 16 == 0
    {
      hide Cut;
      BlocksOk(bs, start, end, i);
      CutAligned(bs[i]);
    }

    /** A byte of a live payload, written in place. */
    method Poke(a: nat, x: byte, ghost i: nat)
      requires Shape() && i < |bs| && bs[i].used && bs[i].addr + HEADER <= a < End(bs[i])
      modifies mem
      ensures Shape() && mem[..] == old(mem[..])[a := x] && mem[..][a] == x
    {
      hide Tiles, Linked, Word, Load;
      Inside(bs, start, end, i);
      mem[a] := x;
      PokeLinks(old(mem[..]), bs, start, end, i, a, x);
    }

    /** The in-place branch of krealloc: the last block already reaches the end of the heap, so nothing moves. */
    method GrowInPlace(b: nat, want: nat, ghost i: nat)
      requires Valid() && i == |bs| - 1 && b == bs[i].addr && bs[i].used && want <= bs[i].size
      modifies mem, this`bs
      ensures Shape() && bs == old(bs) && PayloadsKept(old(mem[..]), mem[..], bs)
    {
      hide Tiles, Linked, Load, Coalesced, Put, Word, PayloadsKept;
      ReadHeader(i);
      ghost var s := mem[..];
      var grown := if want > SizeOf(Load(b)) then want else SizeOf(Load(b));
      Unpack(bs[i]);
      Store(b, grown + MAGIC + 1);
      assert bs[i := bs[i]] == bs;
      Remarked(s, mem[..], bs, i, start, end, bs[i]);
      EditKeeps(s, mem[..], bs, start, end, i, i, b);
      ghost var s1 := mem[..];
      var _ := Split(b, grown, i);
      KeptTwice(s, s1, mem[..], bs, bs);
      ghost var s2 := mem[..];
      Mark(b, true, i);
      KeptTwice(s, s2, mem[..], bs, bs);
    }

    /** memcpy between two live payloads. */
    method Copy(to: nat, from: nat, n: nat, ghost i: nat, ghost j: nat)
      requires Shape() && i < |bs| && j < |bs| && i != j && bs[i].used && bs[j].used
      requires to == bs[i].addr + HEADER && to + n <= End(bs[i]) && from == bs[j].addr + HEADER && from + n <= End(bs[j])
      modifies mem
      ensures Shape() && to + n <= mem.Length && from + n <= mem.Length
      ensures Copied(old(mem[..]), mem[..], from, to, n)
      ensures forall k :: 0 <= k < mem.Length && !(to <= k < to + n) ==> mem[k] == old(mem[k])
    {
      hide Tiles, Linked, Load, Word;
      Apart(bs, start, end, i, j);
      for k := 0 to n
        invariant Shape()
        invariant mem[to..to + k] == old(mem[from..from + k])
        invariant forall m :: 0 <= m < mem.Length && !(to <= m < to + k) ==> mem[m] == old(mem[m])
      {
        ghost var s := mem[..];
        Poke(to + k, mem[from + k], i);
        forall m | 0 <= m < mem.Length && m != to + k ensures mem[m] == s[m] { assert mem[..][m] == s[m]; }
        assert mem[to + k] == mem[..][to + k] == old(mem[from + k]);
        assert mem[to..to + k + 1] == mem[to..to + k] + [mem[to + k]];
        assert old(mem[from..from + k + 1]) == old(mem[from..from + k]) + [old(mem[from + k])];
        assert mem[to..to + k] == s[to..to + k];
      }
      assert mem[..][to..to + n] == mem[to..to + n];
      assert old(mem[..])[from..from + n] == old(mem[from..from + n]);
    }

    /** krealloc. What survives of the old contents is at the new place; every other live payload is as it was. */
    method Krealloc(ptr: nat, size: nat) returns (p: nat)
      requires Valid() && Freeable(ptr)
      modifies this, mem
      ensures Valid()
      ensures bs == Realloc(old(bs), end, ptr, size).0 && p == OrNull(Realloc(old(bs), end, ptr, size).1)
      ensures allocs == old(allocs) + (if p != 0 && p != ptr then 1 else 0)
      ensures frees == old(frees) + (if ptr - HEADER in Used(old(bs)) && (size == 0 || (p != 0 && p != ptr)) then 1 else 0)
      ensures ptr != 0 && p != 0 ==> Copied(old(mem[..]), mem[..], ptr, p, if size < Room(old(bs), ptr) then size else Room(old(bs), ptr))
      ensures PayloadsKeptBut(old(mem[..]), mem[..], bs, p)
    {
      hide Tiles, Linked, Load, Coalesced, AlignUp, Word, IndexOf, FreeAt, Malloc, Used, PayloadsKept, PayloadsKeptBut, Bytes, Copied;
      if ptr == 0 {
        p := Kmalloc(size);
        MallocKept(old(mem[..]), mem[..], old(bs), size);
        return;
      }
      var b := ptr - HEADER;
      LooksLive(b);
      if size == 0 {
        Kfree(ptr);
        KeptBut(old(mem[..]), mem[..], bs, 0);
        return 0;
      }
      SamePayloads(mem[..], bs);
      KeptBut(mem[..], mem[..], bs, 0);
      if size > SIZE_MAX - HEADER { return 0; }
      if !Ours(Load(b)) || !InUse(Load(b)) { return 0; }
      ReadHeader(IndexOf(bs, b));
      p := Resize(b, size, IndexOf(bs, b));
    }

    /** krealloc of a live block: in place if it is the last one and reaches far enough, else elsewhere. */
    method Resize(b: nat, size: nat, ghost i: nat) returns (p: nat)
      requires Valid() && i < |bs| && bs[i].used && b == bs[i].addr && b in Used(bs) && 0 < size
      modifies this, mem
      ensures Valid()
      ensures var (r, q) := if i == |old(bs)| - 1 && Bytes(size) <= end - b then (old(bs), Some(b + HEADER))
                            else var (m, f) := Malloc(old(bs), size); if f == None then (old(bs), None) else (Free(m, b), f);
              bs == r && p == OrNull(q)
      ensures p != 0 ==> Copied(old(mem[..]), mem[..], b + HEADER, p, if size < old(bs)[i].size - HEADER then size else old(bs)[i].size - HEADER)
      ensures PayloadsKeptBut(old(mem[..]), mem[..], bs, p)
      ensures allocs - old(allocs) == frees - old(frees) == if p != 0 && p != b + HEADER then 1 else 0
    {
      hide Tiles, Linked, Load, Coalesced, AlignUp, Word, IndexOf, Free, Malloc, Used, PayloadsKept, PayloadsKeptBut, Copied;
      ReadHeader(i);
      var want := AlignUp(size + HEADER, 16);
      if i + 1 < |bs| { ReadHeader(i + 1); } else { LastBlock(bs, start, end, i); }
      if Load(b + 8) == 0 {
        var room := end - b;
        if want <= room {
          GrowInPlace(b, want, i);
          KeptBut(old(mem[..]), mem[..], bs, b + HEADER);
          CopiedInPlace(old(mem[..]), mem[..], bs, i, start, end, if size < bs[i].size - HEADER then size else bs[i].size - HEADER);
          return b + HEADER;
        }
      }
      p := Relocate(b, size, i);
    }

    method Relocate(b: nat, size: nat, ghost i: nat) returns (p: nat)
      requires Valid() && i < |bs| && bs[i].used && b == bs[i].addr && b in Used(bs) && 0 < size
      modifies this, mem
      ensures Valid()
      ensures var (r, q) := Malloc(old(bs), size);
              p == OrNull(q) && bs == (if q == None then old(bs) else Free(r, b))
      ensures p != 0 ==> Copied(old(mem[..]), mem[..], b + HEADER, p, if size < old(bs)[i].size - HEADER then size else old(bs)[i].size - HEADER)
      ensures PayloadsKeptBut(old(mem[..]), mem[..], bs, p)
      ensures allocs - old(allocs) == frees - old(frees) == (if p != 0 then 1 else 0) && p != b + HEADER
    {
      hide Tiles, Linked, Load, Coalesced, Word, IndexOf, FreeAt, Malloc, Used, PayloadsKept;
      ghost var s, bs0 := mem[..], bs;
      ReadHeader(i);
      var live := SizeOf(Load(b)) - HEADER;
      p := Kmalloc(size);
      if p == 0 {
        MallocNull(bs0, start, end, size);
        KeptBut(s, mem[..], bs, 0);
        return;
      }
      ghost var s1, bs1 := mem[..], bs;
      ghost var j, f := MallocPlace(bs0, start, end, size, i);
      var n := if size < live then size else live;
      Copy(p, b + HEADER, n, f, j);
      ghost var s2 := mem[..];
      ReadHeader(j);
      UsedAt(bs, j);
      assert Freeable(b + HEADER);
      Kfree(b + HEADER);
      Moved(s, s1, s2, mem[..], bs0, bs1, bs, start, end, i, j, f, n);
    }

    /** In a linked heap, the pointers whose headers look live are exactly the live blocks. */
    lemma LooksLive(a: nat)
      requires Shape() && a + 4 <= mem.Length
      requires Ours(Load(a)) && InUse(Load(a)) ==> a in Used(bs)
      ensures Ours(Load(a)) && InUse(Load(a)) <==> a in Used(bs)
    {
      hide Tiles, Linked, Load;
      if a in Used(bs) {
        var i := IndexOf(bs, a);
        ReadHeader(i);
      }
    }

    lemma HeadFirst()
      requires Shape()
      ensures |bs| > 0 && head == bs[0].addr
    {
    }
  }

  lemma InitShape(s: seq<byte>, lo: nat, hi: nat)
    requires HEADER <= lo && lo % 16 == 0 && hi % 16 == 0 && lo + MIN_BLOCK <= hi <= |s| <= MAGIC
    requires HeaderAt(s, lo, Block(lo, hi - lo, false), 0, 0)
    ensures Represents(s, [Block(lo, hi - lo, false)], lo, hi)
  {
    hide Word;
    assert (hi - lo) % 16 == 0;
  }

  lemma WantAligned(pages: nat)
    requires pages > 0
    ensures (pages * PAGE + HEADER) % 16 == 0 && pages * PAGE + HEADER >= MIN_BLOCK
  {
    assert pages * PAGE + HEADER == (pages * 256 + 1) * 16;
  }

  /** What the loop of kframe_alloc_n tests. */
  lemma FitsTest(b: Block, want: nat)
    ensures var off := (b.addr + HEADER) % PAGE != 0; var cut := if off then AlignUp(b.addr + HEADER, PAGE) - HEADER - b.addr else 0;
            && Cut(b) == cut
            && (FrameFits(b, want) <==> !b.used && !(off && (cut > b.size || b.size - cut < want || cut < MIN_BLOCK)) && b.size >= want)
  {
    hide AlignUp;
    CutPositive(b);
  }

  lemma CutPositive(b: Block)
    ensures (b.addr + HEADER) % PAGE != 0 ==> Cut(b) > 0
    ensures Cut(b) == if (b.addr + HEADER) % PAGE != 0 then AlignUp(b.addr + HEADER, PAGE) - HEADER - b.addr else 0
  {
    hide AlignUp;
    AlignedAbove(b.addr + HEADER);
  }

  lemma AlignedAbove(v: nat)
    ensures v <= AlignUp(v, PAGE) && (v % PAGE != 0 ==> v < AlignUp(v, PAGE))
  {
    var q := (v + PAGE - 1) / PAGE;
    assert v + PAGE - 1 == q * PAGE + (v + PAGE - 1) % PAGE;
    assert q * PAGE % PAGE == 0;
  }

  lemma FrameIs(bs: seq<Block>, want: nat, i: nat)
    requires i <= |bs| && forall k :: 0 <= k < i ==> !FrameFits(bs[k], want)
    requires i == |bs| || FrameFits(bs[i], want)
    ensures FindFrame(bs, want) == i
  {
    hide FrameFits;
  }

  lemma CutHalves(bs: seq<Block>, i: nat)
    requires i < |bs| && 0 < Cut(bs[i]) <= bs[i].size
    ensures CutAt(bs, i) == Halves(bs, i, Cut(bs[i]))
  {
    CutIsSplice(bs, i);
  }

  /** A store inside a live payload touches no header. */
  lemma PokeLinks(s: seq<byte>, bs: seq<Block>, lo: nat, hi: nat, i: nat, a: nat, x: byte)
    requires Represents(s, bs, lo, hi) && i < |bs| && bs[i].used && bs[i].addr + HEADER <= a < End(bs[i]) && a < |s|
    ensures Represents(s[a := x], bs, lo, hi)
  {
    hide Tiles, Linked, Word;
    var s2 := s[a := x];
    forall j | 0 <= j < |bs| ensures HeaderAt(s2, bs[j].addr, bs[j], NextOf(bs, j), PrevOf(bs, j)) {
      LinkedAt(s, bs, j);
      PayloadClear(bs, lo, hi, bs[i], a, j);
      SameHeader(s, s2, bs[j].addr, bs[j], NextOf(bs, j), PrevOf(bs, j));
    }
    LinkedAll(s2, bs);
  }

  /** n bytes at `p` are the n bytes that were at `from`. */
  ghost predicate Copied(s: seq<byte>, s2: seq<byte>, from: nat, p: nat, n: nat) {
    from + n <= |s| && p + n <= |s2| && s2[p..p + n] == s[from..from + n]
  }

  /** How much a live block holds. */
  function Room(bs: seq<Block>, ptr: nat): nat {
    if ptr >= HEADER && ptr - HEADER in Used(bs) && bs[IndexOf(bs, ptr - HEADER)].size >= HEADER
    then bs[IndexOf(bs, ptr - HEADER)].size - HEADER else 0
  }

  /** No byte of a live payload changed, but for the block at p. */
  ghost predicate PayloadsKeptBut(s: seq<byte>, s2: seq<byte>, bs: seq<Block>, p: nat) {
    |s2| == |s| && forall b, k :: b in bs && b.used && b.addr + HEADER != p && b.addr + HEADER <= k < End(b) && k < |s| ==> s2[k] == s[k]
  }

  lemma KeptBut(s: seq<byte>, s2: seq<byte>, bs: seq<Block>, p: nat)
    requires PayloadsKept(s, s2, bs)
    ensures PayloadsKeptBut(s, s2, bs, p)
  {
  }

  lemma MallocOnly(bs: seq<Block>, size: nat)
    ensures forall b: Block :: b.used && b in Malloc(bs, size).0 && b.addr + HEADER != OrNull(Malloc(bs, size).1) ==> b in bs
  {
    hide TakeAt, Bytes;
    if Malloc(bs, size).1.Some? { TakenOnly(bs, FindFit(bs, Bytes(size)), Bytes(size)); }
  }

  lemma MallocKept(s: seq<byte>, s2: seq<byte>, bs: seq<Block>, size: nat)
    requires PayloadsKept(s, s2, bs)
    ensures PayloadsKeptBut(s, s2, Malloc(bs, size).0, OrNull(Malloc(bs, size).1))
  {
    hide Malloc;
    MallocOnly(bs, size);
  }

  /** Taking block i adds one live block, at its address. */
  lemma TakenOnly(bs: seq<Block>, i: nat, bytes: nat)
    requires i < |bs| && bytes <= bs[i].size
    ensures forall b: Block :: b.used && b in TakeAt(bs, i, bytes) && b.addr != bs[i].addr ==> b in bs
  {
    var t := TakeAt(bs, i, bytes);
    forall b: Block | b.used && b in t && b.addr != bs[i].addr ensures b in bs {
      var k :| 0 <= k < |t| && t[k] == b;
      if |t| != |bs| {
        SpliceAt(bs, i, Block(bs[i].addr, bytes, true), Block(bs[i].addr + bytes, bs[i].size - bytes, false), k);
        TakeIsSplice(bs, i, bytes);
      }
    }
  }

  lemma MallocNull(bs: seq<Block>, lo: nat, hi: nat, size: nat)
    requires Heap(bs, lo, hi) && OrNull(Malloc(bs, size).1) == 0
    ensures Malloc(bs, size) == (bs, None)
  {
  }

  lemma UsedAt(bs: seq<Block>, i: nat)
    requires i < |bs| && bs[i].used
    ensures bs[i].addr in Used(bs)
  {
  }

  /** After kmalloc: where the old block sits now, and where the new one does. */
  lemma MallocPlace(bs: seq<Block>, lo: nat, hi: nat, size: nat, i: nat) returns (j: nat, f: nat)
    requires Heap(bs, lo, hi) && i < |bs| && bs[i].used && OrNull(Malloc(bs, size).1) != 0
    ensures var r := Malloc(bs, size).0;
            && Heap(r, lo, hi) && j < |r| && f < |r| && j != f && r[j] == bs[i] && r[f].used
            && OrNull(Malloc(bs, size).1) == r[f].addr + HEADER && r[f].addr + HEADER + size <= End(r[f])
            && r[f].addr !in Used(bs)
            && forall b: Block :: b.used && b in r && b.addr != r[f].addr ==> b in bs
  {
    hide Heap, Used, Malloc, Bytes;
    MallocOnly(bs, size);
    var (r, p) := Malloc(bs, size);
    MallocGives(bs, lo, hi, size);
    assert bs[i] in bs;
    j :| 0 <= j < |r| && r[j] == bs[i];
    var b, g :| Live(r, p.value, b) && g in bs && !g.used && p.value + size <= End(b) <= End(g) && g.addr == b.addr;
    f :| 0 <= f < |r| && r[f] == b;
    UsedAt(bs, i);
  }

  lemma CopiedInPlace(s: seq<byte>, s2: seq<byte>, bs: seq<Block>, i: nat, lo: nat, hi: nat, n: nat)
    requires Tiles(bs, lo, hi) && i < |bs| && bs[i].used && hi <= |s| && PayloadsKept(s, s2, bs)
    requires n <= bs[i].size - HEADER
    ensures Copied(s, s2, bs[i].addr + HEADER, bs[i].addr + HEADER, n)
  {
    Inside(bs, lo, hi, i);
    assert bs[i] in bs;
  }

  /** The contents of a moved block, and everybody else's, from end to end. */
  lemma Moved(s: seq<byte>, s1: seq<byte>, s2: seq<byte>, s3: seq<byte>, bs: seq<Block>, bs1: seq<Block>, bs2: seq<Block>,
              lo: nat, hi: nat, i: nat, j: nat, f: nat, n: nat)
    requires Tiles(bs, lo, hi) && Heap(bs1, lo, hi) && hi <= |s| && i < |bs| && bs[i].used
    requires j < |bs1| && f < |bs1| && j != f && bs1[j] == bs[i] && bs1[f].used && n <= bs[i].size - HEADER
    requires bs1[f].addr + HEADER + n <= End(bs1[f]) && bs1[f].addr !in Used(bs)
    requires PayloadsKept(s, s1, bs) && |s2| == |s1| && PayloadsKept(s2, s3, bs2)
    requires bs1[j].addr in Used(bs1) && bs2 == Free(bs1, bs1[j].addr)
    requires forall b: Block :: b.used && b in bs1 && b.addr != bs1[f].addr ==> b in bs
    requires Copied(s1, s2, bs1[j].addr + HEADER, bs1[f].addr + HEADER, n)
    requires forall k :: 0 <= k < |s1| && !(bs1[f].addr + HEADER <= k < bs1[f].addr + HEADER + n) ==> s2[k] == s1[k]
    ensures Copied(s, s3, bs[i].addr + HEADER, bs1[f].addr + HEADER, n)
    ensures PayloadsKeptBut(s, s3, bs2, bs1[f].addr + HEADER)
  {
    hide Heap, Used, Free, Tiles;
    FreeUses(bs1, lo, hi, bs1[j].addr);
    FreeLive(bs1, lo, hi, bs1[j].addr);
    Inside(bs, lo, hi, i);
    TilesOf(bs1, lo, hi);
    Apart(bs1, lo, hi, j, f);
    assert bs[i] in bs && bs1[f] in bs2;
    assert s3[bs1[f].addr + HEADER..bs1[f].addr + HEADER + n] == s2[bs1[f].addr + HEADER..bs1[f].addr + HEADER + n];
    assert s1[bs[i].addr + HEADER..bs[i].addr + HEADER + n] == s[bs[i].addr + HEADER..bs[i].addr + HEADER + n];
    forall b, k | b in bs2 && b.used && b.addr + HEADER != bs1[f].addr + HEADER && b.addr + HEADER <= k < End(b) && k < |s|
      ensures s3[k] == s[k]
    {
      PayloadOutside(bs1, lo, hi, b, k, f);
    }
  }

  lemma TilesOf(bs: seq<Block>, lo: nat, hi: nat)
    requires Heap(bs, lo, hi)
    ensures Tiles(bs, lo, hi)
  {
  }

  lemma PayloadOutside(bs: seq<Block>, lo: nat, hi: nat, c: Block, k: nat, j: nat)
    requires Tiles(bs, lo, hi) && c in bs && c.used && c.addr + HEADER <= k < End(c) && j < |bs| && c.addr != bs[j].addr
    ensures !(bs[j].addr <= k < End(bs[j]))
  {
    var i :| 0 <= i < |bs| && bs[i] == c;
    Apart(bs, lo, hi, i, j);
  }

  /** What is live after kfree was live before. */
  lemma FreeLive(bs: seq<Block>, lo: nat, hi: nat, a: nat)
    requires Heap(bs, lo, hi) && a in Used(bs)
    ensures forall b: Block :: b.used && b in Free(bs, a) ==> b in bs
  {
    hide Used, IndexOf, MergeNext, Tiles, Coalesced;
    var i := IndexOf(bs, a);
    var b1 := bs[i := bs[i].(used := false)];
    MarkKeeps(bs, i);
    MergeUses(b1, i);
    var b2 := MergeNext(b1, i);
    if i > 0 && !b2[i - 1].used { MergeUses(b2, i - 1); }
  }

  function OrNull(p: Option<nat>): nat { if p.Some? then p.value else 0 }

  lemma HalvesKeep(bs: seq<Block>, i: nat, bytes: nat)
    requires i < |bs| && !bs[i].used && bytes <= bs[i].size
    ensures forall b: Block :: b.used && b in bs ==> b in Halves(bs, i, bytes)
  {
    var x, y := Block(bs[i].addr, bytes, false), Block(bs[i].addr + bytes, bs[i].size - bytes, false);
    forall b: Block | b.used && b in bs ensures b in Halves(bs, i, bytes) {
      var k :| 0 <= k < |bs| && bs[k] == b;
      SpliceLength(bs, i, x, y);
      SpliceAt(bs, i, x, y, if k < i then k else k + 1);
    }
  }

  lemma KeptTwice(s: seq<byte>, s1: seq<byte>, s2: seq<byte>, bs: seq<Block>, bs1: seq<Block>)
    requires PayloadsKept(s, s1, bs) && PayloadsKept(s1, s2, bs1)
    requires forall b: Block :: b.used && b in bs ==> b in bs1
    ensures PayloadsKept(s, s2, bs)
  {
  }

  lemma KeptFewer(s: seq<byte>, s1: seq<byte>, bs: seq<Block>, bs1: seq<Block>)
    requires PayloadsKept(s, s1, bs) && forall b: Block :: b.used && b in bs1 ==> b in bs
    ensures PayloadsKept(s, s1, bs1)
  {
  }

  lemma MarkKeeps(bs: seq<Block>, i: nat)
    requires i < |bs|
    ensures forall b: Block :: b.used && b in bs[i := bs[i].(used := false)] ==> b in bs
  {
    var r := bs[i := bs[i].(used := false)];
    forall b: Block | b.used && b in r ensures b in bs {
      var k :| 0 <= k < |r| && r[k] == b;
      assert bs[k] == b;
    }
  }

  lemma SamePayloads(s: seq<byte>, bs: seq<Block>)
    ensures PayloadsKept(s, s, bs)
  {
  }

  lemma MarkTiles(bs: seq<Block>, lo: nat, hi: nat, i: nat, used: bool)
    requires Tiles(bs, lo, hi) && i < |bs|
    ensures Tiles(bs[i := bs[i].(used := used)], lo, hi)
  {
  }

  lemma FitIs(bs: seq<Block>, bytes: nat, i: nat)
    requires i <= |bs| && forall k :: 0 <= k < i ==> bs[k].used || bs[k].size < bytes
    requires i == |bs| || (!bs[i].used && bs[i].size >= bytes)
    ensures FindFit(bs, bytes) == i
  {
  }
}
