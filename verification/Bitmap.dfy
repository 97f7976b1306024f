/** The block bitmap: a circular first-fit scan that does not notice where the volume ends. */
module Bitmap {
  import opened Basics

  /** Block 0 .. blocks-1 of the volume; `bits` is the whole bitmap block, true for taken. */
  ghost predicate Fits(bits: seq<bool>, blocks: nat, hint: nat) {
    0 < blocks <= |bits| && hint < blocks
  }

  /** The i-th block the scan looks at. */
  function Seen(blocks: nat, hint: nat, i: nat): (b: nat)
    requires hint < blocks
    ensures i <= blocks ==> b < blocks
  {
    if hint + i < blocks then hint + i else hint + i - blocks
  }

  /** n free bits in a row, in the order of the scan, starting at the j-th. */
  ghost predicate RunAt(bits: seq<bool>, blocks: nat, hint: nat, n: nat, j: nat)
    requires Fits(bits, blocks, hint)
  {
    j + n <= blocks && forall k :: j <= k < j + n ==> !bits[Seen(blocks, hint, k)]
  }

  /** The scan stops at the first such run. */
  ghost predicate FirstRun(bits: seq<bool>, blocks: nat, hint: nat, n: nat, j: nat)
    requires Fits(bits, blocks, hint)
  {
    RunAt(bits, blocks, hint, n, j) && forall i: nat :: i < j ==> !RunAt(bits, blocks, hint, n, i)
  }

  /** All n blocks from s on lie in the volume and are free. */
  ghost predicate FreeRange(bits: seq<bool>, blocks: nat, s: nat, n: nat) {
    s + n <= blocks <= |bits| && forall k :: s <= k < s + n ==> !bits[k]
  }

  function Marked(bits: seq<bool>, s: nat, n: nat, v: bool): (r: seq<bool>)
    requires s + n <= |bits|
    ensures |r| == |bits|
    ensures forall k :: 0 <= k < |bits| ==> r[k] == if s <= k < s + n then v else bits[k]
  {
    seq(|bits|, k requires 0 <= k < |bits| => if s <= k < s + n then v else bits[k])
  }

  /** With block 0 taken, a run in scan order is a run on the volume. */
  lemma RunIsRange(bits: seq<bool>, blocks: nat, hint: nat, n: nat, j: nat)
    requires Fits(bits, blocks, hint) && 0 < n && RunAt(bits, blocks, hint, n, j) && bits[0]
    ensures FreeRange(bits, blocks, Seen(blocks, hint, j), n)
  {
    assert Seen(blocks, hint, blocks - hint) == 0;
    var s := Seen(blocks, hint, j);
    forall k | s <= k < s + n ensures !bits[k] {
      assert k == Seen(blocks, hint, j + (k - s));
    }
  }

  /** The free blocks at the end of the volume and at its start, taken for neighbours. */
  ghost predicate Straddles(bits: seq<bool>, blocks: nat, hint: nat, n: nat, t: nat)
    requires Fits(bits, blocks, hint)
  {
    && 0 < t < n && hint + t <= blocks && n - t <= hint
    && (forall k :: blocks - t <= k < blocks ==> !bits[k])
    && (forall k :: 0 <= k < n - t ==> !bits[k])
    && (hint + t < blocks ==> bits[blocks - t - 1])
    && (forall s: nat :: hint <= s && s + n <= blocks ==> !FreeRange(bits, blocks, s, n))
  }

  /** What the scan finds leaves the volume exactly when nothing fits before its end and the two ends add up. */
  lemma LeavesVolumeIff(bits: seq<bool>, blocks: nat, hint: nat, n: nat, j: nat)
    requires Fits(bits, blocks, hint) && 0 < n && FirstRun(bits, blocks, hint, n, j)
    ensures Seen(blocks, hint, j) + n > blocks <==> exists t: nat :: Straddles(bits, blocks, hint, n, t)
    ensures Seen(blocks, hint, j) + n <= blocks ==> FreeRange(bits, blocks, Seen(blocks, hint, j), n)
  {
    var s := Seen(blocks, hint, j);
    if s + n > blocks {
      Straddling(bits, blocks, hint, n, j);
    } else {
      forall k | s <= k < s + n ensures !bits[k] { assert k == Seen(blocks, hint, j + (k - s)); }
      forall t: nat ensures !Straddles(bits, blocks, hint, n, t) {
        if Straddles(bits, blocks, hint, n, t) { StraddleComesFirst(bits, blocks, hint, n, j, t); }
      }
    }
  }

  lemma RangeIsRun(bits: seq<bool>, blocks: nat, hint: nat, n: nat, s: nat)
    requires Fits(bits, blocks, hint) && hint <= s && s + n <= blocks
    ensures FreeRange(bits, blocks, s, n) <==> RunAt(bits, blocks, hint, n, s - hint)
  {
    if RunAt(bits, blocks, hint, n, s - hint) {
      forall k | s <= k < s + n ensures !bits[k] { assert !bits[Seen(blocks, hint, k - hint)]; }
    }
  }

  lemma ExtendLeft(bits: seq<bool>, blocks: nat, hint: nat, n: nat, j: nat)
    requires Fits(bits, blocks, hint) && 0 < j && RunAt(bits, blocks, hint, n, j)
    ensures !bits[Seen(blocks, hint, j - 1)] ==> RunAt(bits, blocks, hint, n, j - 1)
  {
  }

  lemma Straddling(bits: seq<bool>, blocks: nat, hint: nat, n: nat, j: nat)
    requires Fits(bits, blocks, hint) && 0 < n && FirstRun(bits, blocks, hint, n, j) && Seen(blocks, hint, j) + n > blocks
    ensures exists t: nat :: Straddles(bits, blocks, hint, n, t)
  {
    var t := blocks - Seen(blocks, hint, j);
    forall k | blocks - t <= k < blocks ensures !bits[k] { assert k == Seen(blocks, hint, k - hint); }
    forall k | 0 <= k < n - t ensures !bits[k] { assert k == Seen(blocks, hint, blocks - hint + k); }
    if 0 < j { ExtendLeft(bits, blocks, hint, n, j); }
    forall s: nat | hint <= s && s + n <= blocks ensures !FreeRange(bits, blocks, s, n) {
      RangeIsRun(bits, blocks, hint, n, s);
    }
    assert Straddles(bits, blocks, hint, n, t);
  }

  lemma BeforeStraddle(bits: seq<bool>, blocks: nat, hint: nat, n: nat, t: nat, m: nat)
    requires Fits(bits, blocks, hint) && Straddles(bits, blocks, hint, n, t) && m < blocks - t - hint
    ensures !RunAt(bits, blocks, hint, n, m)
  {
    assert Seen(blocks, hint, blocks - t - hint - 1) == blocks - t - 1;
    if hint + m + n <= blocks { RangeIsRun(bits, blocks, hint, n, hint + m); }
  }

  lemma StraddleComesFirst(bits: seq<bool>, blocks: nat, hint: nat, n: nat, j: nat, t: nat)
    requires Fits(bits, blocks, hint) && 0 < n && FirstRun(bits, blocks, hint, n, j) && Straddles(bits, blocks, hint, n, t)
    ensures j == blocks - t - hint
  {
    var i := blocks - t - hint;
    assert RunAt(bits, blocks, hint, n, i);
    forall m: nat | m < i ensures !RunAt(bits, blocks, hint, n, m) { BeforeStraddle(bits, blocks, hint, n, t, m); }
  }

  /** A volume where the scan hands out blocks past its end. */
  lemma LeavesVolumeExample()
    ensures var bits := [false, true, true, false];
            Fits(bits, 4, 3) && FirstRun(bits, 4, 3, 2, 0) && Seen(4, 3, 0) + 2 > 4
  {
    var bits := [false, true, true, false];
    assert Seen(4, 3, 0) == 3 && Seen(4, 3, 1) == 0;
  }

  lemma SeenIsModulo(blocks: nat, hint: nat, i: nat)
    requires hint < blocks && i < blocks
    ensures (hint + i) % blocks == Seen(blocks, hint, i)
  {
    var r := Seen(blocks, hint, i);
    if hint + i >= blocks { assert hint + i == blocks + r; }
  }

  /** A run cannot hold a taken bit. */
  lemma TakenInside(bits: seq<bool>, blocks: nat, hint: nat, n: nat, m: nat, i: nat)
    requires Fits(bits, blocks, hint) && m <= i < m + n && i < blocks && bits[Seen(blocks, hint, i)]
    ensures !RunAt(bits, blocks, hint, n, m)
  {
  }

  /** The scan of alloc_blocks. */
  method Scan(bits: seq<bool>, blocks: nat, hint: nat, n: nat) returns (ok: bool, start: nat, ghost j: nat)
    requires Fits(bits, blocks, hint) && 0 < n <= blocks
    ensures ok ==> FirstRun(bits, blocks, hint, n, j) && start == Seen(blocks, hint, j)
    ensures !ok ==> forall i: nat :: !RunAt(bits, blocks, hint, n, i)
  {
    hide Seen;
    var run, i := 0, 0;
    start, j := 0, 0;
    while i < blocks
      invariant i <= blocks && run <= i && run < n
      invariant forall k :: i - run <= k < i ==> !bits[Seen(blocks, hint, k)]
      invariant run < i ==> bits[Seen(blocks, hint, i - run - 1)]
      invariant run > 0 ==> start == Seen(blocks, hint, i - run)
      invariant NoRun(bits, blocks, hint, n, i)
    {
      var bit := (hint + i) % blocks;
      SeenIsModulo(blocks, hint, i);
      if bits[bit] {
        NoRunTaken(bits, blocks, hint, n, i, i);
        run, i := 0, i + 1;
      } else {
        if run == 0 { start := bit; }
        run := run + 1;
        if run == n {
          j := i + 1 - n;
          return true, start, j;
        }
        NoRunTaken(bits, blocks, hint, n, i, i - run);
        i := i + 1;
      }
    }
    return false, start, 0;
  }

  /** No run of n ends within the first i bits of the scan. */
  ghost predicate NoRun(bits: seq<bool>, blocks: nat, hint: nat, n: nat, i: nat)
    requires Fits(bits, blocks, hint)
  {
    forall m: nat :: m + n <= i ==> !RunAt(bits, blocks, hint, n, m)
  }

  /** ... nor within the first i+1, if the bit at s is taken and close enough. */
  lemma NoRunTaken(bits: seq<bool>, blocks: nat, hint: nat, n: nat, i: nat, s: int)
    requires Fits(bits, blocks, hint) && i < blocks && NoRun(bits, blocks, hint, n, i) && 0 < n
    requires i - n < s <= i && (0 <= s ==> bits[Seen(blocks, hint, s)])
    ensures NoRun(bits, blocks, hint, n, i + 1)
  {
    hide Seen;
    forall m: nat | m + n <= i + 1 ensures !RunAt(bits, blocks, hint, n, m) {
      if m + n == i + 1 { TakenInside(bits, blocks, hint, n, m, s); }
    }
  }

  // ---------------------------------------------------------------- the allocator

  datatype Allocator = Allocator(bits: seq<bool>, blocks: nat, hint: nat)

  ghost predicate Sound(a: Allocator) { Fits(a.bits, a.blocks, a.hint) && a.bits[0] }

  /** A request the allocator can meet. */
  ghost predicate HasRun(a: Allocator, n: nat)
    requires Sound(a)
  {
    0 < n <= a.blocks && exists j: nat :: RunAt(a.bits, a.blocks, a.hint, n, j)
  }

  lemma {:induction false} FirstAmong(a: Allocator, n: nat, j: nat)
    requires Sound(a) && RunAt(a.bits, a.blocks, a.hint, n, j)
    ensures exists i: nat :: FirstRun(a.bits, a.blocks, a.hint, n, i)
  {
    if i: nat :| i < j && RunAt(a.bits, a.blocks, a.hint, n, i) {
      FirstAmong(a, n, i);
    } else {
      assert FirstRun(a.bits, a.blocks, a.hint, n, j);
    }
  }

  lemma FirstOnce(a: Allocator, n: nat, i: nat, j: nat)
    requires Sound(a) && FirstRun(a.bits, a.blocks, a.hint, n, i) && FirstRun(a.bits, a.blocks, a.hint, n, j)
    ensures i == j
  {
  }

  /** What was taken still is, and the hint is where it was, or behind a block taken since. */
  ghost predicate Onward(a: Allocator, a2: Allocator) {
    && |a2.bits| == |a.bits| && a2.blocks == a.blocks && (forall b :: 0 <= b < |a.bits| && a.bits[b] ==> a2.bits[b])
    && (a2.hint == a.hint || a2.hint == 0 || (a2.hint <= |a.bits| && !a.bits[a2.hint - 1]))
  }

  lemma WrapsTo(x: nat, blocks: nat)
    requires 0 < x <= blocks
    ensures x % blocks == if x == blocks then 0 else x
  {
  }

  lemma RunOnward(a: Allocator, s: nat, n: nat)
    requires Sound(a) && 0 < n && FreeRange(a.bits, a.blocks, s, n)
    ensures var r := Allocator(Marked(a.bits, s, n, true), a.blocks, (s + n) % a.blocks); Sound(r) && Onward(a, r)
  {
    WrapsTo(s + n, a.blocks);
  }

  /** The allocator after it has met one. */
  ghost function Next(a: Allocator, n: nat): (r: Allocator)
    requires Sound(a) && HasRun(a, n)
    ensures Sound(r) && Onward(a, r)
  {
    var k: nat :| RunAt(a.bits, a.blocks, a.hint, n, k);
    FirstAmong(a, n, k);
    var j: nat :| FirstRun(a.bits, a.blocks, a.hint, n, j);
    RunIsRange(a.bits, a.blocks, a.hint, n, j);
    var s := Seen(a.blocks, a.hint, j);
    RunOnward(a, s, n);
    Allocator(Marked(a.bits, s, n, true), a.blocks, (s + n) % a.blocks)
  }

  lemma NextIs(a: Allocator, n: nat, j: nat)
    requires Sound(a) && 0 < n <= a.blocks && FirstRun(a.bits, a.blocks, a.hint, n, j)
    ensures HasRun(a, n) && FreeRange(a.bits, a.blocks, Seen(a.blocks, a.hint, j), n)
    ensures Next(a, n) == Allocator(Marked(a.bits, Seen(a.blocks, a.hint, j), n, true), a.blocks, (Seen(a.blocks, a.hint, j) + n) % a.blocks)
  {
    RunIsRange(a.bits, a.blocks, a.hint, n, j);
    forall i: nat | FirstRun(a.bits, a.blocks, a.hint, n, i) ensures i == j { FirstOnce(a, n, i, j); }
  }

  /** n free blocks in a row that the scan, which starts at the hint, does not cut in two. */
  ghost predicate Uncut(a: Allocator, n: nat, s: nat) { FreeRange(a.bits, a.blocks, s, n) && !(s < a.hint < s + n) }

  /** The allocator finds a run exactly when there is one, in the volume, that does not lie across the hint. */
  lemma HasRunIff(a: Allocator, n: nat)
    requires Sound(a)
    ensures HasRun(a, n) <==> 0 < n && exists s: nat :: Uncut(a, n, s)
  {
    hide Seen;
    if HasRun(a, n) {
      var j: nat :| RunAt(a.bits, a.blocks, a.hint, n, j);
      RunIsRange(a.bits, a.blocks, a.hint, n, j);
      RunUncut(a, n, j);
    }
    forall s: nat | 0 < n && Uncut(a, n, s) ensures HasRun(a, n) { UncutRun(a, n, s); }
  }

  lemma RunUncut(a: Allocator, n: nat, j: nat)
    requires Sound(a) && 0 < n && RunAt(a.bits, a.blocks, a.hint, n, j)
    ensures Uncut(a, n, Seen(a.blocks, a.hint, j))
  {
    RunIsRange(a.bits, a.blocks, a.hint, n, j);
  }

  /** Where such a run comes up in the scan. */
  function Turn(a: Allocator, s: nat): int { if a.hint <= s then s - a.hint else a.blocks - a.hint + s }

  lemma UncutRun(a: Allocator, n: nat, s: nat)
    requires Sound(a) && 0 < n && Uncut(a, n, s)
    ensures 0 <= Turn(a, s) && RunAt(a.bits, a.blocks, a.hint, n, Turn(a, s)) && Seen(a.blocks, a.hint, Turn(a, s)) == s
  {
    forall k | Turn(a, s) <= k < Turn(a, s) + n ensures !a.bits[Seen(a.blocks, a.hint, k)] {
      assert Seen(a.blocks, a.hint, k) == s + (k - Turn(a, s));
    }
  }

  /** It takes the first one from the hint on, or else the first one from the start of the volume; the hint moves behind it. */
  lemma NextExact(a: Allocator, n: nat)
    requires Sound(a) && HasRun(a, n)
    ensures exists s: nat ::
              && Uncut(a, n, s) && Next(a, n) == Allocator(Marked(a.bits, s, n, true), a.blocks, (s + n) % a.blocks)
              && forall t: nat :: Uncut(a, n, t) ==> if a.hint <= s then t < a.hint || s <= t else t < a.hint && s <= t
  {
    hide Seen, RunAt;
    var k: nat :| RunAt(a.bits, a.blocks, a.hint, n, k);
    FirstAmong(a, n, k);
    var j: nat :| FirstRun(a.bits, a.blocks, a.hint, n, j);
    NextIs(a, n, j);
    RunUncut(a, n, j);
    var s := Seen(a.blocks, a.hint, j);
    forall t: nat | Uncut(a, n, t) ensures j <= Turn(a, t) { UncutRun(a, n, t); }
    UncutRun(a, n, s);
    assert j == Turn(a, s) by { TurnIs(a, n, j); }
  }

  lemma TurnIs(a: Allocator, n: nat, j: nat)
    requires Sound(a) && 0 < n && RunAt(a.bits, a.blocks, a.hint, n, j)
    ensures Turn(a, Seen(a.blocks, a.hint, j)) == j
  {
  }
}
