/** Where all blocks of the volume are, over every run, and that blocks given back can be had again. */
module VolumeAccounts {
  import opened Basics
  import opened Bitmap
  import opened Files
  import opened Volumes

  /** A marked block is metadata, in a file, or among those lost; and what is lost is marked and in no file. */
  ghost predicate Accounted(v: Vol, lost: set<nat>) {
    && (forall b: nat :: b < |v.bits| && v.bits[b] ==> b in v.meta || InFile(v, b) || b in lost)
    && (forall b :: b in lost ==> b < |v.bits| && v.bits[b] && !InFile(v, b))
  }

  /** What a call has marked and put in no file. */
  ghost function LostBy(v: Vol, v2: Vol): set<nat> {
    set b: nat | b < |v2.bits| && b < |v.bits| && v2.bits[b] && !v.bits[b] && !InFile(v2, b)
  }

  /** A call that succeeds loses nothing; one that fails loses what it had been handed out and no more. */
  lemma CallAccounts(v: Vol, op: Op, r: Outcome, v2: Vol, lost: set<nat>)
    requires Lawful(v, op, r, v2) && Accounted(v, lost)
    ensures Accounted(v2, lost + LostBy(v, v2)) && (r.ok ==> LostBy(v, v2) == {})
    ensures forall b :: b in LostBy(v, v2) ==> b < |Asked(v, op).bits| && Asked(v, op).bits[b] && !v.bits[b]
  {
    hide Inv, InFile, Accepts, Asked, Seamless, Geometry;
    var a := Asked(v, op);
    forall b: nat | b < |v2.bits| && v2.bits[b] && !v.bits[b] ensures b in v2.meta || InFile(v2, b) || b in lost + LostBy(v, v2) {}
    forall b: nat | b in lost ensures b < |v2.bits| && v2.bits[b] && !InFile(v2, b) {}
    forall b: nat | b < |v.bits| && v.bits[b] && v2.bits[b] && InFile(v, b) ensures InFile(v2, b) {}
  }

  ghost function LostByAll(vs: seq<Vol>, n: nat): set<nat>
    requires n < |vs|
  {
    if n == 0 then {} else LostByAll(vs, n - 1) + LostBy(vs[n - 1], vs[n])
  }

  ghost predicate LawfulRun(vs: seq<Vol>, ops: seq<Op>, rs: seq<Outcome>) {
    |vs| == |ops| + 1 && |rs| == |ops| && forall k :: 0 <= k < |ops| ==> Lawful(vs[k], ops[k], rs[k], vs[k + 1])
  }

  /** Over every run of calls on the volume: every marked block is metadata, in a file, or was lost by a call that failed. */
  lemma {:induction false} RunAccounts(vs: seq<Vol>, ops: seq<Op>, rs: seq<Outcome>, lost: set<nat>, n: nat)
    requires LawfulRun(vs, ops, rs) && Accounted(vs[0], lost) && n < |vs|
    ensures Accounted(vs[n], lost + LostByAll(vs, n))
    ensures (forall k :: 0 <= k < n ==> rs[k].ok) ==> LostByAll(vs, n) == {}
  {
    hide Lawful, Accounted, LostBy;
    if n == 0 {
      assert lost + {} == lost;
    } else {
      RunAccounts(vs, ops, rs, lost, n - 1);
      assert Lawful(vs[n - 1], ops[n - 1], rs[n - 1], vs[n - 1 + 1]);
      CallAccounts(vs[n - 1], ops[n - 1], rs[n - 1], vs[n], lost + LostByAll(vs, n - 1));
      assert lost + LostByAll(vs, n - 1) + LostBy(vs[n - 1], vs[n]) == lost + LostByAll(vs, n);
    }
  }

  // ---------------------------------------------------------------- blocks given back

  lemma {:induction false} BlockIndex(ext: seq<Extent>, from: nat, k: nat, i: nat) returns (l: nat)
    requires Dense(ext, from) && k < |ext| && i < ext[k].len
    ensures l < |BlocksOf(ext)| && BlocksOf(ext)[l] == ext[k].start + i
    ensures i + 1 < ext[k].len ==> l + 1 < |BlocksOf(ext)| && BlocksOf(ext)[l + 1] == ext[k].start + i + 1
    decreases k
  {
    if k == 0 {
      l := i;
    } else {
      var m := BlockIndex(ext[1..], from + ext[0].len, k - 1, i);
      l := ext[0].len + m;
    }
  }

  /** The hint, before the call or after it, is not inside an extent there was. */
  lemma HintOutside(v: Vol, v2: Vol, a: Allocator, ok: bool, ino: nat, k: nat)
    requires Inv(v) && Settled(v, v2, a, ok) && Seamless(v) && ino in v.inodes && k < |v.inodes[ino].ext|
    ensures !(v.inodes[ino].ext[k].start < v2.hint < v.inodes[ino].ext[k].start + v.inodes[ino].ext[k].len)
  {
    hide Inv, Seamless, InFile;
    var e := v.inodes[ino].ext[k];
    InodeIsOk(v, ino);
    if e.start < v2.hint < e.start + e.len {
      var l := BlockIndex(v.inodes[ino].ext, 0, k, v2.hint - 1 - e.start);
      SeamAt(v, ino, l);
      BlockTaken(v, ino, k, v2.hint - 1);
    }
  }

  lemma BlockTaken(v: Vol, ino: nat, k: nat, b: nat)
    requires Inv(v) && ino in v.inodes && k < |v.inodes[ino].ext| && v.inodes[ino].ext[k].start <= b < v.inodes[ino].ext[k].start + v.inodes[ino].ext[k].len
    ensures b < |v.bits| && v.bits[b]
  {
    hide Inv, InFile;
    InodeIsOk(v, ino);
    ExtentBlocks(v.inodes[ino].ext, 0, k, b);
    HasBlock(v, ino, b);
    FileBlock(v, b);
  }

  lemma SeamAt(v: Vol, ino: nat, l: nat)
    requires Seamless(v) && ino in v.inodes && l + 1 < |BlocksIn(v, ino)|
    ensures BlocksIn(v, ino)[l] + 1 == v.hint ==> BlocksIn(v, ino)[l + 1] != v.hint
  {
  }

  lemma ExtentFreed(v: Vol, v2: Vol, a: Allocator, ok: bool, ino: nat, k: nat)
    requires Inv(v) && Inv(v2) && Settled(v, v2, a, ok) && ino in v.inodes && k < |v.inodes[ino].ext|
    requires forall b :: b in BlocksIn(v, ino) ==> !InFile(v2, b)
    ensures FreeRange(v2.bits, v2.blocks, v.inodes[ino].ext[k].start, v.inodes[ino].ext[k].len) && 0 < v.inodes[ino].ext[k].len
  {
    hide Inv, InFile, Settled;
    var e := v.inodes[ino].ext[k];
    InodeIsOk(v, ino);
    ExtentLength(v.inodes[ino].ext, 0, k);
    forall b: nat | e.start <= b < e.start + e.len ensures b < |v2.bits| && !v2.bits[b] { BlockFreed(v, v2, a, ok, ino, k, b); }
    BlockFreed(v, v2, a, ok, ino, k, e.start + e.len - 1);
  }

  ghost predicate BlockFree(v: Vol, b: nat) { b < v.blocks <= |v.bits| && !v.bits[b] }

  lemma BlockFreed(v: Vol, v2: Vol, a: Allocator, ok: bool, ino: nat, k: nat, b: nat)
    requires Inv(v) && Inv(v2) && Settled(v, v2, a, ok) && ino in v.inodes && k < |v.inodes[ino].ext|
    requires forall x :: x in BlocksIn(v, ino) ==> !InFile(v2, x)
    requires v.inodes[ino].ext[k].start <= b < v.inodes[ino].ext[k].start + v.inodes[ino].ext[k].len
    ensures BlockFree(v2, b)
  {
    hide Inv, InFile, Seamless;
    InodeIsOk(v, ino);
    ExtentBlocks(v.inodes[ino].ext, 0, k, b);
    HasBlock(v, ino, b);
    FileBlock(v, b);
  }

  /** An extent of a file that is in no file any more can be handed out again in one piece. */
  lemma FreedAgain(v: Vol, v2: Vol, a: Allocator, ok: bool, ino: nat, k: nat)
    requires Inv(v) && Inv(v2) && Settled(v, v2, a, ok) && Seamless(v) && ino in v.inodes && k < |v.inodes[ino].ext|
    requires forall b :: b in BlocksIn(v, ino) ==> !InFile(v2, b)
    ensures Geometry(v2) && HasRun(AllocatorOf(v2), v.inodes[ino].ext[k].len)
  {
    hide Inv, InFile, HasRun, Settled, Seamless, FreeRange;
    var e := v.inodes[ino].ext[k];
    GeometryOf(v2);
    HintOutside(v, v2, a, ok, ino, k);
    ExtentFreed(v, v2, a, ok, ino, k);
    assert Uncut(AllocatorOf(v2), e.len, e.start);
    HasRunIff(AllocatorOf(v2), e.len);
  }

  /** After a removal, every run of blocks the file had can be allocated again. */
  lemma RemovedAgain(v: Vol, ino: nat, r: Outcome, v2: Vol, k: nat)
    requires Lawful(v, Remove(ino), r, v2) && r.ok && Seamless(v)
    requires ino in v.inodes && k < |v.inodes[ino].ext|
    ensures Geometry(v2) && HasRun(AllocatorOf(v2), v.inodes[ino].ext[k].len)
  {
    hide Inv, HasRun, Seamless, Settled, ContentOf;
    forall b | b in BlocksIn(v, ino) ensures !InFile(v2, b) {
      forall i | i in v2.inodes ensures b !in BlocksIn(v2, i) {
        assert i in View(v2);
        ApartFiles(v, ino, i);
      }
    }
    FreedAgain(v, v2, AllocatorOf(v), r.ok, ino, k);
  }

  /** A volume just formatted has lost nothing, and its hint lies on no seam. */
  lemma FreshAccounts(v: Vol)
    requires forall b: nat :: b < |v.bits| ==> v.bits[b] == (b in v.meta)
    ensures Accounted(v, {}) && (v.inodes == map[] ==> Seamless(v))
  {
  }
}
