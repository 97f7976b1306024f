/** A program on the heap: what it stores in a block is there until it gives the block back. */
module HeapClient {
  import opened Basics
  import opened HeapList
  import opened HeapMemory

  /** The block at p is live, and its first bytes are c. */
  ghost predicate Keeps(s: seq<byte>, bs: seq<Block>, p: nat, c: seq<byte>) {
    exists b :: Live(bs, p, b) && p + |c| <= End(b) && p + |c| <= |s| && s[p..p + |c|] == c
  }

  /** Every pointer that is not null is a block of its own with the contents it should have. */
  ghost predicate Holding(s: seq<byte>, bs: seq<Block>, vars: seq<nat>, vals: seq<Option<seq<byte>>>) {
    && |vars| == |vals|
    && (forall v :: 0 <= v < |vars| ==> if vals[v].None? then vars[v] == 0 else vars[v] != 0 && Keeps(s, bs, vars[v], vals[v].value))
    && (forall v, w :: 0 <= v < w < |vars| && vars[v] != 0 ==> vars[v] != vars[w])
  }

  /** The block behind p stays, and so do its bytes. */
  ghost predicate Spared(s: seq<byte>, bs: seq<Block>, s2: seq<byte>, bs2: seq<Block>, p: nat) {
    |s2| == |s| && forall b :: Live(bs, p, b) ==> b in bs2 && forall k :: p <= k < End(b) && k < |s| ==> s2[k] == s[k]
  }

  lemma SparedKeeps(s: seq<byte>, bs: seq<Block>, s2: seq<byte>, bs2: seq<Block>, p: nat, c: seq<byte>)
    requires Keeps(s, bs, p, c) && Spared(s, bs, s2, bs2, p)
    ensures Keeps(s2, bs2, p, c)
  {
    var b :| Live(bs, p, b) && p + |c| <= End(b) && p + |c| <= |s| && s[p..p + |c|] == c;
    assert Live(bs2, p, b);
    assert s2[p..p + |c|] == s[p..p + |c|];
  }

  /** One variable changes, all the others keep their blocks. */
  lemma OneChanges(s: seq<byte>, bs: seq<Block>, s2: seq<byte>, bs2: seq<Block>, vars: seq<nat>, vals: seq<Option<seq<byte>>>, v: nat, p: nat, x: Option<seq<byte>>)
    requires Holding(s, bs, vars, vals) && v < |vars|
    requires forall w :: 0 <= w < |vars| && w != v && vars[w] != 0 ==> Spared(s, bs, s2, bs2, vars[w]) && vars[w] != p
    requires if x.None? then p == 0 else p != 0 && Keeps(s2, bs2, p, x.value)
    ensures Holding(s2, bs2, vars[v := p], vals[v := x])
  {
    hide Keeps, Spared;
    forall w | 0 <= w < |vars| && w != v && vars[w] != 0 ensures Keeps(s2, bs2, vars[w], vals[w].value) {
      SparedKeeps(s, bs, s2, bs2, vars[w], vals[w].value);
    }
  }

  lemma KeepsUsed(s: seq<byte>, bs: seq<Block>, p: nat, c: seq<byte>)
    requires Keeps(s, bs, p, c)
    ensures p >= HEADER && p - HEADER in Used(bs) && p <= |s|
  {
    var b :| Live(bs, p, b) && p + |c| <= |s|;
    var i :| 0 <= i < |bs| && bs[i] == b;
  }

  // ---------------------------------------------------------------- the calls, for the others

  lemma MallocSpares(s: seq<byte>, bs: seq<Block>, s2: seq<byte>, bs2: seq<Block>, p: nat)
    requires PayloadsKept(s, s2, bs) && forall b :: b in bs && b.used ==> b in bs2
    ensures Spared(s, bs, s2, bs2, p)
  {
  }

  lemma FreeSpares(s: seq<byte>, bs: seq<Block>, s2: seq<byte>, bs2: seq<Block>, p: nat, freed: nat)
    requires PayloadsKept(s, s2, bs2) && p != freed && forall b :: b in bs && b.used && b.addr + HEADER != freed ==> b in bs2
    ensures Spared(s, bs, s2, bs2, p)
  {
  }

  lemma ReallocSpares(s: seq<byte>, bs: seq<Block>, s2: seq<byte>, lo: nat, hi: nat, ptr: nat, size: nat, p: nat)
    requires Heap(bs, lo, hi) && ptr >= HEADER && ptr - HEADER in Used(bs) && size > 0
    requires PayloadsKeptBut(s, s2, Realloc(bs, hi, ptr, size).0, OrNull(Realloc(bs, hi, ptr, size).1))
    requires p != ptr && p != OrNull(Realloc(bs, hi, ptr, size).1)
    ensures Spared(s, bs, s2, Realloc(bs, hi, ptr, size).0, p)
  {
    hide Heap, Malloc, Free, IndexOf, Bytes;
    MallocGives(bs, lo, hi, size);
    var r := Malloc(bs, size).0;
    if ptr - HEADER in Used(r) { FreeUses(r, lo, hi, ptr - HEADER); }
    assert ptr - HEADER in Used(r) by { UsedMore(bs, size, lo, hi, ptr - HEADER); }
  }

  lemma UsedMore(bs: seq<Block>, size: nat, lo: nat, hi: nat, a: nat)
    requires Heap(bs, lo, hi) && a in Used(bs)
    ensures a in Used(Malloc(bs, size).0)
  {
    hide Heap, Malloc, Bytes;
    MallocGives(bs, lo, hi, size);
  }

  lemma NewKeeps(s: seq<byte>, bs: seq<Block>, p: nat, b: Block, n: nat)
    requires Live(bs, p, b) && p + n <= End(b) && p + n <= |s|
    ensures Keeps(s, bs, p, s[p..p + n])
  {
  }

  // ---------------------------------------------------------------- the program

  /** What the program does to one of its variables. */
  datatype Op =
    | Alloc(v: nat, size: nat)
    | Frames(v: nat, pages: nat)
    | Resize(v: nat, size: nat)
    | Release(v: nat)
    | Set(v: nat, off: nat, x: byte)

  /** How it went: whether memory was there, and the bytes nobody has chosen. */
  datatype Outcome = Outcome(ok: bool, noise: seq<byte>)

  /** The contents a variable should have after a call. */
  function After(vals: seq<Option<seq<byte>>>, op: Op, r: Outcome): seq<Option<seq<byte>>> {
    if op.v >= |vals| then vals
    else match op
      case Alloc(v, _) => if vals[v].None? && r.ok then vals[v := Some(r.noise)] else vals
      case Frames(v, _) => if vals[v].None? && r.ok then vals[v := Some(r.noise)] else vals
      case Resize(v, size) =>
        if vals[v].None? then vals
        else if size == 0 then vals[v := None]
        else if !r.ok then vals
        else
          var c := vals[v].value;
          vals[v := Some(if size <= |c| then c[..size] else c + r.noise)]
      case Release(v) => vals[v := None]
      case Set(v, off, x) =>
        if vals[v].Some? && off < |vals[v].value| then vals[v := Some(vals[v].value[off := x])] else vals
  }

  function Replay(vals: seq<Option<seq<byte>>>, ops: seq<Op>, rs: seq<Outcome>): seq<Option<seq<byte>>>
    requires |ops| == |rs|
  {
    if ops == [] then vals else After(Replay(vals, ops[..|ops| - 1], rs[..|ops| - 1]), ops[|ops| - 1], rs[|ops| - 1])
  }

  /** The bytes a call adds are as many as it was asked for. */
  ghost predicate Sized(vals: seq<Option<seq<byte>>>, op: Op, r: Outcome) {
    r.ok && op.v < |vals| ==>
      match op
      case Alloc(v, size) => |r.noise| == size
      case Frames(v, pages) => |r.noise| == pages * PAGE
      case Resize(v, size) => vals[v].Some? && size > |vals[v].value| ==> |r.noise| == size - |vals[v].value|
      case _ => true
  }

  // ---------------------------------------------------------------- when memory is there

  /** The heap's blocks and the program's pointers, which determine all calls to come. */
  datatype Moment = Moment(bs: seq<Block>, vars: seq<nat>)

  /** The blocks and pointers after a call. */
  function Called(m: Moment, hi: nat, op: Op): Moment {
    if op.v >= |m.vars| then m
    else
      var p := m.vars[op.v];
      match op
      case Alloc(v, size) => if p == 0 then Pointed(Malloc(m.bs, size), m.vars, v) else m
      case Frames(v, pages) => if p == 0 then Pointed(FrameAlloc(m.bs, pages), m.vars, v) else m
      case Resize(v, size) =>
        if p < HEADER then m
        else if size == 0 then Moment(Free(m.bs, p - HEADER), m.vars[v := 0])
        else Pointed(Realloc(m.bs, hi, p, size), m.vars, v)
      case Release(v) => if p < HEADER then m else Moment(Free(m.bs, p - HEADER), m.vars[v := 0])
      case Set(_, _, _) => m
  }

  /** The variable takes a pointer that is not null. */
  function Pointed(r: (seq<Block>, Option<nat>), vars: seq<nat>, v: nat): Moment
    requires v < |vars|
  {
    Moment(r.0, if r.1.Some? then vars[v := r.1.value] else vars)
  }

  function CalledAll(m: Moment, hi: nat, ops: seq<Op>): Moment {
    if ops == [] then m else Called(CalledAll(m, hi, ops[..|ops| - 1]), hi, ops[|ops| - 1])
  }

  /** Enough bytes lie free in one piece. */
  ghost predicate HasPiece(bs: seq<Block>, size: nat) {
    size <= SIZE_MAX - HEADER && exists i: nat, j: nat :: FreeRun(bs, i, j) && Holds(bs[i].addr, End(bs[j]), size)
  }

  ghost predicate HasFrames(bs: seq<Block>, pages: nat) {
    pages > 0 && exists b :: b in bs && PagesFit(b, pages)
  }

  /** The block behind p is the last one, and large enough up to the end of the heap. */
  ghost predicate CanGrow(bs: seq<Block>, hi: nat, p: nat, size: nat) {
    size <= SIZE_MAX - HEADER && bs != [] && Live(bs, p, bs[|bs| - 1]) && Holds(bs[|bs| - 1].addr, hi, size)
  }

  /** When a call that asks for memory gets it. */
  ghost predicate Accepts(m: Moment, hi: nat, op: Op)
    requires op.v < |m.vars|
  {
    match op
    case Alloc(v, size) => m.vars[v] == 0 && HasPiece(m.bs, size)
    case Frames(v, pages) => m.vars[v] == 0 && HasFrames(m.bs, pages)
    case Resize(v, size) => m.vars[v] != 0 && size > 0 && (CanGrow(m.bs, hi, m.vars[v], size) || HasPiece(m.bs, size))
    case _ => false
  }

  lemma PieceIff(bs: seq<Block>, lo: nat, hi: nat, size: nat)
    requires Heap(bs, lo, hi)
    ensures HasPiece(bs, size) <==> Malloc(bs, size).1.Some?
  {
    hide Heap, Malloc, Bytes;
    MallocFails(bs, lo, hi, size);
  }

  lemma FramesIff(bs: seq<Block>, pages: nat)
    ensures HasFrames(bs, pages) <==> FrameAlloc(bs, pages).1.Some?
  {
    hide FrameAlloc, PagesFit;
    FrameFails(bs, pages);
  }

  /** krealloc gives memory exactly when the last block can grow where it is, or there is a piece elsewhere. */
  lemma ResizeIff(bs: seq<Block>, lo: nat, hi: nat, p: nat, size: nat)
    requires Heap(bs, lo, hi) && p >= HEADER && p - HEADER in Used(bs) && size > 0
    ensures CanGrow(bs, hi, p, size) || HasPiece(bs, size) <==> Realloc(bs, hi, p, size).1.Some?
  {
    hide Malloc, Bytes, HasPiece, Coalesced, Free;
    PieceIff(bs, lo, hi, size);
    var i, last := IndexOf(bs, p - HEADER), |bs| - 1;
    assert BlockOk(bs[last]) && End(bs[last]) == hi;
    BytesHold(size, bs[last].size);
    if Live(bs, p, bs[last]) { Distinct(bs, lo, hi, i, last); }
    if size > SIZE_MAX - HEADER { assert !HasPiece(bs, size) by { TooLarge(bs, size); } }
  }

  lemma TooLarge(bs: seq<Block>, size: nat)
    requires size > SIZE_MAX - HEADER
    ensures !HasPiece(bs, size)
  {
  }

  class Program {
    const heap: Arena
    var vars: seq<nat>
    var lens: seq<nat>
    ghost var vals: seq<Option<seq<byte>>>

    ghost predicate Valid()
      reads this, heap, heap.mem
    {
      && heap.Valid() && Holding(heap.mem[..], heap.bs, vars, vals) && |lens| == |vars|
      && forall v :: 0 <= v < |vars| && vals[v].Some? ==> lens[v] == |vals[v].value|
    }

    ghost function Now(): Moment
      reads this, heap
    {
      Moment(heap.bs, vars)
    }

    constructor (h: Arena, n: nat)
      requires h.Valid()
      ensures Valid() && heap == h && vals == seq(n, _ => None)
    {
      hide Tiles, Linked, Coalesced;
      heap, vars, lens, vals := h, seq(n, _ => 0), seq(n, _ => 0), seq(n, _ => None);
    }

    method DoAlloc(v: nat, size: nat) returns (ghost r: Outcome)
      requires Valid() && v < |vars| && vars[v] == 0
      modifies this, heap, heap.mem
      ensures Valid() && vals == After(old(vals), Alloc(v, size), r) && Sized(old(vals), Alloc(v, size), r)
      ensures Now() == Called(old(Now()), heap.end, Alloc(v, size)) && (r.ok <==> old(HasPiece(heap.bs, size)))
    {
      hide Holding, PayloadsKept, Keeps, Spared, Malloc, Tiles, Linked, Coalesced, Used, Bytes, HasPiece;
      ghost var s, bs := heap.mem[..], heap.bs;
      MallocGives(bs, heap.start, heap.end, size);
      PieceIff(bs, heap.start, heap.end, size);
      var p := heap.Kmalloc(size);
      r := GotNew(s, bs, v, p, size);
    }

    method DoFrames(v: nat, pages: nat) returns (ghost r: Outcome)
      requires Valid() && v < |vars| && vars[v] == 0 && pages * PAGE + HEADER < 0x1_0000_0000
      modifies this, heap, heap.mem
      ensures Valid() && vals == After(old(vals), Frames(v, pages), r) && Sized(old(vals), Frames(v, pages), r)
      ensures Now() == Called(old(Now()), heap.end, Frames(v, pages)) && (r.ok <==> old(HasFrames(heap.bs, pages)))
    {
      hide Holding, PayloadsKept, Keeps, Spared, FrameAlloc, Tiles, Linked, Coalesced, Used, HasFrames;
      ghost var s, bs := heap.mem[..], heap.bs;
      FrameGives(bs, heap.start, heap.end, pages);
      FramesIff(bs, pages);
      var p := heap.KframeAllocN(pages);
      r := GotNew(s, bs, v, p, pages * PAGE);
    }

    /** A pointer just handed out, or null. */
    method GotNew(ghost s: seq<byte>, ghost bs: seq<Block>, v: nat, p: nat, n: nat) returns (ghost r: Outcome)
      requires heap.Valid() && Holding(s, bs, vars, vals) && |lens| == |vars| && v < |vars| && vars[v] == 0
      requires forall w :: 0 <= w < |vars| && vals[w].Some? ==> lens[w] == |vals[w].value|
      requires PayloadsKept(s, heap.mem[..], bs) && forall b :: b in bs && b.used ==> b in heap.bs
      requires p == 0 || (p >= HEADER && p - HEADER !in Used(bs) && exists b :: Live(heap.bs, p, b) && p + n <= End(b))
      modifies this
      ensures Valid() && vals == After(old(vals), Alloc(v, n), r) && Sized(old(vals), Alloc(v, n), r)
      ensures vars == old(vars)[v := p] && (r.ok <==> p != 0)
    {
      hide Holding, PayloadsKept, Keeps, Spared, Tiles, Linked, Coalesced, Used;
      ghost var s2 := heap.mem[..];
      NullIsNone(s, bs, vars, vals, v);
      forall w | 0 <= w < |vars| && w != v && vars[w] != 0 ensures Spared(s, bs, s2, heap.bs, vars[w]) && vars[w] != p {
        MallocSpares(s, bs, s2, heap.bs, vars[w]);
        HeldKeeps(s, bs, vars, vals, w);
        KeepsUsed(s, bs, vars[w], vals[w].value);
      }
      if p == 0 {
        OneChanges(s, bs, s2, heap.bs, vars, vals, v, 0, None);
        assert vars[v := 0] == vars && vals[v := None] == vals;
        return Outcome(false, []);
      }
      ghost var b :| Live(heap.bs, p, b) && p + n <= End(b);
      EndInside(heap.mem[..], heap.bs, heap.start, heap.end, b);
      r := Outcome(true, s2[p..p + n]);
      NewKeeps(s2, heap.bs, p, b, n);
      OneChanges(s, bs, s2, heap.bs, vars, vals, v, p, Some(r.noise));
      vars, lens, vals := vars[v := p], lens[v := n], vals[v := Some(r.noise)];
    }

    method DoRelease(v: nat)
      requires Valid() && v < |vars|
      modifies this, heap, heap.mem
      ensures Valid() && vals == old(vals)[v := None] && Now() == Called(old(Now()), heap.end, Release(v))
    {
      hide Holding, PayloadsKept, Keeps, Spared, Free, Tiles, Linked, Coalesced, Used;
      var p := vars[v];
      ghost var s, bs := heap.mem[..], heap.bs;
      if p == 0 {
        NullIsNone(s, bs, vars, vals, v);
        assert vals[v := None] == vals;
        return;
      }
      HeldKeeps(s, bs, vars, vals, v);
      KeepsUsed(s, bs, p, vals[v].value);
      UsedHeader(s, bs, heap.start, heap.end, p - HEADER);
      heap.LooksLive(p - HEADER);
      FreeUses(bs, heap.start, heap.end, p - HEADER);
      heap.Kfree(p);
      forall w | 0 <= w < |vars| && w != v && vars[w] != 0 ensures Spared(s, bs, heap.mem[..], heap.bs, vars[w]) && vars[w] != 0 {
        Different(s, bs, vars, vals, v, w);
        FreeSpares(s, bs, heap.mem[..], heap.bs, vars[w], p);
      }
      OneChanges(s, bs, heap.mem[..], heap.bs, vars, vals, v, 0, None);
      vars, vals := vars[v := 0], vals[v := None];
    }

    /** A byte stored inside a block. */
    method DoSet(v: nat, off: nat, x: byte)
      requires Valid() && v < |vars|
      modifies this, heap.mem
      ensures Valid() && vals == After(old(vals), Set(v, off, x), Outcome(true, [])) && Now() == old(Now())
    {
      hide Holding, PayloadsKept, Keeps, Spared, Tiles, Linked, Coalesced, Used;
      var p := vars[v];
      ghost var s, bs := heap.mem[..], heap.bs;
      if p == 0 {
        NullIsNone(s, bs, vars, vals, v);
        return;
      }
      HeldKeeps(s, bs, vars, vals, v);
      if off >= lens[v] { return; }
      ghost var i := BlockOf(s, bs, p, vals[v].value);
      heap.Poke(p + off, x, i);
      forall w | 0 <= w < |vars| && w != v && vars[w] != 0 ensures Spared(s, bs, heap.mem[..], bs, vars[w]) {
        Different(s, bs, vars, vals, v, w);
        PokeSpares(s, bs, heap.start, heap.end, i, p + off, x, vars[w]);
      }
      PokeKeeps(s, bs, p, vals[v].value, off, x);
      Distincts(s, bs, vars, vals, v);
      OneChanges(s, bs, heap.mem[..], bs, vars, vals, v, p, Some(vals[v].value[off := x]));
      assert vars[v := p] == vars;
      vals := vals[v := Some(vals[v].value[off := x])];
    }

    method DoResize(v: nat, size: nat) returns (ghost r: Outcome)
      requires Valid() && v < |vars|
      modifies this, heap, heap.mem
      ensures Valid() && vals == After(old(vals), Resize(v, size), r) && Sized(old(vals), Resize(v, size), r)
      ensures Now() == Called(old(Now()), heap.end, Resize(v, size)) && (r.ok <==> old(Accepts(Now(), heap.end, Resize(v, size))))
    {
      hide Holding, Keeps, Tiles, Linked, Coalesced, Used, Realloc, CanGrow, HasPiece;
      r := Outcome(false, []);
      if vars[v] == 0 {
        NullIsNone(heap.mem[..], heap.bs, vars, vals, v);
        return;
      }
      HeldKeeps(heap.mem[..], heap.bs, vars, vals, v);
      if size == 0 {
        DoRelease(v);
        return;
      }
      r := ResizeHeld(v, size);
    }

    /** krealloc on a block the program holds. */
    method ResizeHeld(v: nat, size: nat) returns (ghost r: Outcome)
      requires Valid() && v < |vars| && vars[v] != 0 && size > 0
      modifies this, heap, heap.mem
      ensures Valid() && vals == After(old(vals), Resize(v, size), r) && Sized(old(vals), Resize(v, size), r)
      ensures Now() == Called(old(Now()), heap.end, Resize(v, size)) && (r.ok <==> old(Accepts(Now(), heap.end, Resize(v, size))))
    {
      hide CanGrow, HasPiece, Holding, PayloadsKept, PayloadsKeptBut, Keeps, Spared, Tiles, Linked, Coalesced, Used, Realloc, Copied, Room, Live;
      var p := vars[v];
      ghost var s, bs := heap.mem[..], heap.bs;
      HeldKeeps(s, bs, vars, vals, v);
      ghost var c := vals[v].value;
      KeepsUsed(s, bs, p, c);
      UsedHeader(s, bs, heap.start, heap.end, p - HEADER);
      ReallocGives(bs, heap.start, heap.end, p, size);
      ResizeIff(bs, heap.start, heap.end, p, size);
      RoomCovers(s, bs, heap.start, heap.end, p, c);
      var q := heap.Krealloc(p, size);
      ghost var s2 := heap.mem[..];
      ResizeSpares(s, bs, s2, heap.start, heap.end, vars, vals, v, size);
      if q == 0 {
        SparedAll(s, bs, s2, p);
        SparedKeeps(s, bs, s2, heap.bs, p, c);
        OneChanges(s, bs, s2, heap.bs, vars, vals, v, p, Some(c));
        assert vars[v := p] == vars && vals[v := Some(c)] == vals;
        return Outcome(false, []);
      }
      ghost var b :| Live(heap.bs, q, b) && q + size <= End(b);
      LiveInside(s2, heap.bs, heap.start, heap.end, q, b);
      ghost var x := if size <= |c| then c[..size] else c + s2[q + |c|..q + size];
      ResizedKeeps(s, s2, heap.bs, p, q, c, size, Room(bs, p), b);
      OneChanges(s, bs, s2, heap.bs, vars, vals, v, q, Some(x));
      r := Outcome(true, if size <= |c| then [] else s2[q + |c|..q + size]);
      vars, lens, vals := vars[v := q], lens[v := size], vals[v := Some(x)];
    }

    /** Any one call, on any variable. */
    method Perform(op: Op) returns (ghost r: Outcome)
      requires Valid() && op.v < |vars| && (op.Frames? ==> op.pages * PAGE + HEADER < 0x1_0000_0000)
      modifies this, heap, heap.mem
      ensures Valid() && vals == After(old(vals), op, r) && Sized(old(vals), op, r)
      ensures Now() == Called(old(Now()), heap.end, op) && |vars| == |old(vars)| && (r.ok <==> old(Accepts(Now(), heap.end, op)))
    {
      hide Holding, Sized, Tiles, Linked, Coalesced;
      r := Outcome(false, []);
      NothingSized(vals, op);
      match op {
        case Alloc(v, size) => if vars[v] == 0 { r := DoAlloc(v, size); } else { TakenIsSome(heap.mem[..], heap.bs, vars, vals, v); }
        case Frames(v, pages) => if vars[v] == 0 { r := DoFrames(v, pages); } else { TakenIsSome(heap.mem[..], heap.bs, vars, vals, v); }
        case Resize(v, size) => r := DoResize(v, size);
        case Release(v) => SameSize(heap.mem[..], heap.bs, vars, vals); DoRelease(v);
        case Set(v, off, x) => DoSet(v, off, x);
      }
    }

    /**
      * Over every sequence of calls, on the bytes: what was stored in a block is in it until it is released, wherever
      * it moves; and a call gets memory exactly when there is a piece of the heap for it at that moment.
      */
    method PerformAll(ops: seq<Op>) returns (ghost rs: seq<Outcome>)
      requires Valid() && forall k :: 0 <= k < |ops| ==> ops[k].v < |vars| && (ops[k].Frames? ==> ops[k].pages * PAGE + HEADER < 0x1_0000_0000)
      modifies this, heap, heap.mem
      ensures Valid() && |rs| == |ops| && vals == Replay(old(vals), ops, rs) && Now() == CalledAll(old(Now()), heap.end, ops)
      ensures forall k :: 0 <= k < |ops| ==>
                Lawful(Replay(old(vals), ops[..k], rs[..k]), CalledAll(old(Now()), heap.end, ops[..k]), heap.end, ops[k], rs[k])
    {
      hide Valid, After, Called, Lawful;
      rs := [];
      ghost var m := Now();
      for k := 0 to |ops|
        invariant Valid() && |rs| == k && vals == Replay(old(vals), ops[..k], rs) && |vars| == |old(vars)|
        invariant Now() == CalledAll(m, heap.end, ops[..k])
        invariant forall j :: 0 <= j < k ==> Lawful(Replay(old(vals), ops[..j], rs[..j]), CalledAll(m, heap.end, ops[..j]), heap.end, ops[j], rs[j])
      {
        ghost var was, now := vals, Now();
        ghost var r := Perform(ops[k]);
        LawfulIs(was, now, heap.end, ops[k], r);
        assert ops[..k + 1][..k] == ops[..k] && (rs + [r])[..k] == rs;
        assert forall j :: 0 <= j < k ==> (rs + [r])[..j] == rs[..j];
        rs := rs + [r];
      }
      assert ops[..|ops|] == ops;
    }
  }

  /** How a call went is what the heap had room for, and it added as many bytes as it was asked for. */
  ghost predicate Lawful(vals: seq<Option<seq<byte>>>, m: Moment, hi: nat, op: Op, r: Outcome) {
    Sized(vals, op, r) && op.v < |m.vars| && (r.ok <==> Accepts(m, hi, op))
  }

  lemma LawfulIs(vals: seq<Option<seq<byte>>>, m: Moment, hi: nat, op: Op, r: Outcome)
    requires Sized(vals, op, r) && op.v < |m.vars| && (r.ok <==> Accepts(m, hi, op))
    ensures Lawful(vals, m, hi, op, r)
  {
  }

  /** What krealloc does to the other variables: nothing. */
  lemma ResizeSpares(s: seq<byte>, bs: seq<Block>, s2: seq<byte>, lo: nat, hi: nat, vars: seq<nat>, vals: seq<Option<seq<byte>>>, v: nat, size: nat)
    requires Heap(bs, lo, hi) && Holding(s, bs, vars, vals) && v < |vars| && vars[v] >= HEADER && vars[v] - HEADER in Used(bs) && size > 0
    requires PayloadsKeptBut(s, s2, Realloc(bs, hi, vars[v], size).0, OrNull(Realloc(bs, hi, vars[v], size).1))
    ensures var (bs2, q) := Realloc(bs, hi, vars[v], size);
            forall w :: 0 <= w < |vars| && w != v && vars[w] != 0 ==> Spared(s, bs, s2, bs2, vars[w]) && vars[w] != vars[v] && vars[w] != OrNull(q)
  {
    hide Holding, PayloadsKeptBut, Keeps, Spared, Heap, Used, Realloc;
    ReallocGives(bs, lo, hi, vars[v], size);
    forall w | 0 <= w < |vars| && w != v && vars[w] != 0
      ensures Spared(s, bs, s2, Realloc(bs, hi, vars[v], size).0, vars[w]) && vars[w] != vars[v] && vars[w] != OrNull(Realloc(bs, hi, vars[v], size).1)
    {
      Different(s, bs, vars, vals, v, w);
      HeldKeeps(s, bs, vars, vals, w);
      KeepsUsed(s, bs, vars[w], vals[w].value);
      ReallocSpares(s, bs, s2, lo, hi, vars[v], size, vars[w]);
    }
  }

  lemma NothingSized(vals: seq<Option<seq<byte>>>, op: Op)
    ensures Sized(vals, op, Outcome(false, []))
  {
  }

  lemma SameSize(s: seq<byte>, bs: seq<Block>, vars: seq<nat>, vals: seq<Option<seq<byte>>>)
    requires Holding(s, bs, vars, vals)
    ensures |vals| == |vars|
  {
  }

  lemma TakenIsSome(s: seq<byte>, bs: seq<Block>, vars: seq<nat>, vals: seq<Option<seq<byte>>>, v: nat)
    requires Holding(s, bs, vars, vals) && v < |vars| && vars[v] != 0
    ensures |vals| == |vars| && vals[v].Some?
  {
  }

  lemma Distincts(s: seq<byte>, bs: seq<Block>, vars: seq<nat>, vals: seq<Option<seq<byte>>>, v: nat)
    requires Holding(s, bs, vars, vals) && v < |vars| && vars[v] != 0
    ensures forall w :: 0 <= w < |vars| && w != v ==> vars[w] != vars[v]
  {
  }

  lemma BlockOf(s: seq<byte>, bs: seq<Block>, p: nat, c: seq<byte>) returns (i: nat)
    requires Keeps(s, bs, p, c)
    ensures i < |bs| && bs[i].used && p == bs[i].addr + HEADER && p + |c| <= End(bs[i]) && p + |c| <= |s|
  {
    var b :| Live(bs, p, b) && p + |c| <= End(b) && p + |c| <= |s|;
    i :| 0 <= i < |bs| && bs[i] == b;
  }

  lemma PokeSpares(s: seq<byte>, bs: seq<Block>, lo: nat, hi: nat, i: nat, a: nat, x: byte, p: nat)
    requires Tiles(bs, lo, hi) && i < |bs| && bs[i].addr <= a < End(bs[i]) && a < |s| && p != bs[i].addr + HEADER
    ensures Spared(s, bs, s[a := x], bs, p)
  {
    hide Tiles;
    forall b, k | Live(bs, p, b) && p <= k < End(b) && k < |s| ensures s[a := x][k] == s[k] {
      PayloadOutside(bs, lo, hi, b, k, i);
    }
  }

  lemma PokeKeeps(s: seq<byte>, bs: seq<Block>, p: nat, c: seq<byte>, off: nat, x: byte)
    requires Keeps(s, bs, p, c) && off < |c|
    ensures p + off < |s| && Keeps(s[p + off := x], bs, p, c[off := x])
  {
    var b :| Live(bs, p, b) && p + |c| <= End(b) && p + |c| <= |s| && s[p..p + |c|] == c;
    assert s[p + off := x][p..p + |c|] == c[off := x];
  }

  /** A krealloc that fails spares everything. */
  lemma SparedAll(s: seq<byte>, bs: seq<Block>, s2: seq<byte>, p: nat)
    requires PayloadsKeptBut(s, s2, bs, 0)
    ensures Spared(s, bs, s2, bs, p)
  {
  }

  lemma RoomCovers(s: seq<byte>, bs: seq<Block>, lo: nat, hi: nat, p: nat, c: seq<byte>)
    requires Tiles(bs, lo, hi) && Keeps(s, bs, p, c)
    ensures |c| <= Room(bs, p)
  {
    var i := BlockOf(s, bs, p, c);
    var j := IndexOf(bs, p - HEADER);
    Distinct(bs, lo, hi, i, j);
  }

  lemma ResizedKeeps(s: seq<byte>, s2: seq<byte>, bs2: seq<Block>, p: nat, q: nat, c: seq<byte>, size: nat, room: nat, b: Block)
    requires Copied(s, s2, p, q, if size < room then size else room) && |c| <= room && p + |c| <= |s| && s[p..p + |c|] == c
    requires Live(bs2, q, b) && q + size <= End(b) && q + size <= |s2|
    ensures Keeps(s2, bs2, q, if size <= |c| then c[..size] else c + s2[q + |c|..q + size])
  {
    var n := if size < room then size else room;
    var x := if size <= |c| then c[..size] else c + s2[q + |c|..q + size];
    var to, from, old0 := s2[q..q + n], s[p..p + n], s[p..p + |c|];
    forall k | 0 <= k < size && k < |c| ensures s2[q + k] == c[k] {
      assert to[k] == from[k] && old0[k] == c[k];
      assert s2[q + k] == to[k] && s[p + k] == from[k] && s[p + k] == old0[k];
    }
    var y := s2[q..q + size];
    forall k | 0 <= k < size ensures y[k] == x[k] {}
    assert y == x;
  }

  lemma NullIsNone(s: seq<byte>, bs: seq<Block>, vars: seq<nat>, vals: seq<Option<seq<byte>>>, v: nat)
    requires Holding(s, bs, vars, vals) && v < |vars| && vars[v] == 0
    ensures |vals| == |vars| && vals[v] == None
  {
  }

  lemma HeldKeeps(s: seq<byte>, bs: seq<Block>, vars: seq<nat>, vals: seq<Option<seq<byte>>>, v: nat)
    requires Holding(s, bs, vars, vals) && v < |vars| && vars[v] != 0
    ensures |vals| == |vars| && vals[v].Some? && Keeps(s, bs, vars[v], vals[v].value)
    ensures vars[v] + |vals[v].value| <= |s| && s[vars[v]..vars[v] + |vals[v].value|] == vals[v].value
  {
  }

  lemma Different(s: seq<byte>, bs: seq<Block>, vars: seq<nat>, vals: seq<Option<seq<byte>>>, v: nat, w: nat)
    requires Holding(s, bs, vars, vals) && v < |vars| && w < |vars| && v != w && vars[v] != 0
    ensures vars[v] != vars[w]
  {
  }

  lemma EndInside(s: seq<byte>, bs: seq<Block>, lo: nat, hi: nat, b: Block)
    requires Represents(s, bs, lo, hi) && b in bs
    ensures End(b) <= |s|
  {
    hide Linked;
    var i :| 0 <= i < |bs| && bs[i] == b;
    Inside(bs, lo, hi, i);
  }

  lemma LiveInside(s: seq<byte>, bs: seq<Block>, lo: nat, hi: nat, p: nat, b: Block)
    requires Represents(s, bs, lo, hi) && Live(bs, p, b)
    ensures End(b) <= |s|
  {
    hide Represents;
    EndInside(s, bs, lo, hi, b);
  }

  lemma UsedHeader(s: seq<byte>, bs: seq<Block>, lo: nat, hi: nat, a: nat)
    requires Represents(s, bs, lo, hi) && a in Used(bs)
    ensures a + HEADER <= |s|
  {
    hide Linked;
    var i :| 0 <= i < |bs| && bs[i].used && bs[i].addr == a;
    Inside(bs, lo, hi, i);
  }
}
