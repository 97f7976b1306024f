/** What goes through a pipe, from its making on, and what a reap leaves. */
module PipeRuns {
  import opened Basics
  import opened Pipes

  // ---------------------------------------------------------------- a new pipe

  /** pipe(): the first buffer nobody has, empty, with one descriptor of each kind in the first two free entries; all else as it was. */
  lemma MadeExact(k: Kernel)
    requires Inv(k)
    ensures var (k2, ok) := MakePipe(k); var fds := k.tasks[k.cur].fds;
            ok ==> exists p: nat, r: nat, w: nat ::
              && p < |k.pipes| == |k2.pipes| && !k.pipes[p].open && (forall q :: 0 <= q < p ==> k.pipes[q].open)
              && r < w < |fds| && fds[r] == fds[w] == Closed && (forall i :: 0 <= i < w && i != r ==> fds[i] != Closed)
              && k2.tasks == k.tasks[k.cur := k.tasks[k.cur].(fds := fds[r := End(p, false)][w := End(p, true)])]
              && k2.pipes[p].buf == [] && k2.pipes[p].accepted == [] && k2.pipes[p].delivered == [] && k2.pipes[p].open
              && k2.pipes[p].readers == 1 && k2.pipes[p].writers == 1 && k2.pipes[p].rdWait == None && k2.pipes[p].wrWait == None
              && forall q :: 0 <= q < |k.pipes| && q != p ==> k2.pipes[q] == k.pipes[q]
  {
    hide Counts, NoLostWake, OneEach, DeadClosed, Fifo;
    var p, fds := NextShut(k.pipes, 0), k.tasks[k.cur].fds;
    if MakePipe(k).1 {
      var r, w := ReadSlot(fds), WriteSlot(fds);
      assert p < |k.pipes| && r < w < |fds|;
      assert forall i :: 0 <= i < w && i != r ==> fds[i] != Closed;
    }
  }

  // ---------------------------------------------------------------- bytes in, bytes out

  /** What a step puts into a pipe: of what is to be written, as much as there is room for. */
  function PutBy(k: Kernel, op: Op, p: nat): seq<byte>
    requires k.cur < |k.tasks| && p < |k.pipes|
  {
    var me := k.tasks[k.cur];
    var data := if op.OpWrite? && op.fd < |me.fds| && me.fds[op.fd].End? && me.fds[op.fd].p == p then op.data
                else if op.OpResume? && me.pc.Writing? && me.pc.p == p then me.pc.rest
                else [];
    var room := if |k.pipes[p].buf| < PIPE_BYTES then PIPE_BYTES - |k.pipes[p].buf| else 0;
    if |data| <= room then data else data[..room]
  }

  /** What a step takes out of a pipe for its reader: as much as is asked for and there. */
  function GotBy(k: Kernel, op: Op, p: nat): seq<byte>
    requires k.cur < |k.tasks| && p < |k.pipes|
  {
    var me := k.tasks[k.cur];
    var len := if op.OpRead? && op.fd < |me.fds| && me.fds[op.fd].End? && me.fds[op.fd].p == p then op.len
               else if op.OpResume? && me.pc.Reading? && me.pc.p == p then me.pc.len
               else 0;
    if |k.pipes[p].buf| <= len then k.pipes[p].buf else k.pipes[p].buf[..len]
  }

  /** pipe() takes the buffer, cleared, whether it then finds descriptors or not. */
  predicate Takes(k: Kernel, op: Op, p: nat) { op.OpPipe? && NextShut(k.pipes, 0) == p }

  predicate SameRing(k: Kernel, k2: Kernel, p: nat)
    requires p < |k.pipes|
  {
    |k2.pipes| == |k.pipes| && k2.pipes[p].buf == k.pipes[p].buf
  }

  lemma ReadRing(k: Kernel, p: nat, len: nat, q: nat)
    requires k.cur < |k.tasks| && p < |k.pipes| && q < |k.pipes|
    ensures var k2 := Read(k, p, len).0;
            && |k2.pipes| == |k.pipes|
            && k2.pipes[q].buf == if q == p then k.pipes[p].buf[if len < |k.pipes[p].buf| then len else |k.pipes[p].buf|..] else k.pipes[q].buf
  {
  }

  lemma WriteRing(k: Kernel, p: nat, data: seq<byte>, put: nat, q: nat)
    requires k.cur < |k.tasks| && p < |k.pipes| && q < |k.pipes|
    ensures var k2 := Write(k, p, data, put).0;
            var room := if |k.pipes[p].buf| < PIPE_BYTES then PIPE_BYTES - |k.pipes[p].buf| else 0;
            && |k2.pipes| == |k.pipes|
            && k2.pipes[q].buf == if q == p then k.pipes[p].buf + (if |data| <= room then data else data[..room]) else k.pipes[q].buf
  {
    assert data[..|data|] == data;
  }

  lemma {:induction false} CloseRing(k: Kernel, t: nat, i: nat, p: nat)
    requires t < |k.tasks| && i <= |k.tasks[t].fds| && p < |k.pipes|
    ensures SameRing(k, CloseFrom(k, t, i), p)
    decreases |k.tasks[t].fds| - i
  {
    hide Assign;
    if i < |k.tasks[t].fds| {
      AssignTables(k, t, i, Closed);
      CloseRing(Assign(k, t, i, Closed), t, i + 1, p);
    }
  }

  lemma ResumeRing(k: Kernel, p: nat)
    requires k.cur < |k.tasks| && p < |k.pipes|
    ensures |Resume(k).pipes| == |k.pipes|
    ensures GotBy(k, OpResume, p) + Resume(k).pipes[p].buf == k.pipes[p].buf + PutBy(k, OpResume, p)
  {
    hide Read, Write;
    var k1 := Woken(k);
    assert |k1.pipes| == |k.pipes| && k1.cur == k.cur && |k1.tasks| == |k.tasks| && forall q :: 0 <= q < |k.pipes| ==> k1.pipes[q].buf == k.pipes[q].buf;
    match k.tasks[k.cur].pc
    case Reading(q, len) => if q < |k.pipes| { ReadRing(k1, q, len, p); }
    case Writing(q, data, put) => if q < |k.pipes| { WriteRing(k1, q, data, put, p); }
    case _ =>
  }

  /** A step that neither reads nor writes. */
  lemma PlainRing(k: Kernel, op: Op, k2: Kernel, p: nat)
    requires k.cur < |k.tasks| && p < |k.pipes| && SameRing(k, k2, p) && !op.OpRead? && !op.OpWrite? && !op.OpResume?
    ensures GotBy(k, op, p) == [] && PutBy(k, op, p) == []
    ensures GotBy(k, op, p) + k2.pipes[p].buf == k.pipes[p].buf + PutBy(k, op, p)
  {
  }

  lemma TableRing(k: Kernel, op: Op, p: nat)
    requires Inv(k) && Enabled(k, op) && p < |k.pipes|
    requires !op.OpRead? && !op.OpWrite? && !op.OpResume? && !op.OpPipe?
    ensures SameRing(k, Step(k, op), p)
  {
    hide NoLostWake, OneEach, DeadClosed, Fifo, PipeCounts, Assign, CloseFrom, Fork, Unblock, Alone, Held;
    assert k.cur < |k.tasks| && Counts(k) by { InvParts(k); }
    match op
    case OpClose(fd) => AssignTables(k, k.cur, fd, Closed);
    case OpDup2(o, n) => if o != n { AssignTables(k, k.cur, n, k.tasks[k.cur].fds[o]); }
    case OpInstall(t, c, f) => AssignTables(k, t, c, k.tasks[k.cur].fds[f]);
    case OpFork(s) => ForkShape(k, s);
    case OpExit => CloseRing(SetState(k, k.cur, Zombie), k.cur, 0, p);
    case OpReap(t) => if k.tasks[t].st == Killed { CloseRing(SetState(k, t, Zombie), t, 0, p); }
    case _ =>
  }

  /** One step: the ring is what it was, less what was read, and with what was written; or empty, if pipe() has just taken it. */
  lemma StepRing(k: Kernel, op: Op, p: nat)
    requires Inv(k) && Enabled(k, op) && p < |k.pipes|
    ensures |Step(k, op).pipes| == |k.pipes| && k.cur < |k.tasks|
    ensures if Takes(k, op, p) then Step(k, op).pipes[p].buf == []
            else GotBy(k, op, p) + Step(k, op).pipes[p].buf == k.pipes[p].buf + PutBy(k, op, p)
  {
    hide InvBut, Read, Write, Resume, Alone, Reap, Assign, Fork, CloseFrom, Unblock, Switch, Park, GotBy, PutBy;
    assert k.cur < |k.tasks| by { InvParts(k); }
    match op
    case OpRead(fd, len) => ReadRing(k, k.tasks[k.cur].fds[fd].p, len, p); GotOnly(k, op, p);
    case OpWrite(fd, data) => WriteRing(k, k.tasks[k.cur].fds[fd].p, data, 0, p); PutOnly(k, op, p);
    case OpResume => ResumeRing(k, p);
    case OpPipe => if !Takes(k, op, p) { PlainRing(k, op, MakePipe(k).0, p); }
    case _ => TableRing(k, op, p); PlainRing(k, op, Step(k, op), p);
  }

  lemma GotOnly(k: Kernel, op: Op, p: nat)
    requires k.cur < |k.tasks| && p < |k.pipes| && op.OpRead? && IsEnd(k, op.fd)
    ensures PutBy(k, op, p) == []
    ensures var q := k.tasks[k.cur].fds[op.fd].p;
            GotBy(k, op, p) == if p != q then [] else k.pipes[p].buf[..if op.len < |k.pipes[p].buf| then op.len else |k.pipes[p].buf|]
  {
    assert k.pipes[p].buf[..|k.pipes[p].buf|] == k.pipes[p].buf;
  }

  lemma PutOnly(k: Kernel, op: Op, p: nat)
    requires k.cur < |k.tasks| && p < |k.pipes| && op.OpWrite? && IsEnd(k, op.fd)
    ensures GotBy(k, op, p) == []
    ensures var q := k.tasks[k.cur].fds[op.fd].p;
            var room := if |k.pipes[p].buf| < PIPE_BYTES then PIPE_BYTES - |k.pipes[p].buf| else 0;
            PutBy(k, op, p) == if p != q then [] else if |op.data| <= room then op.data else op.data[..room]
  {
  }

  /** All that was put into the pipe over a run, since it was last made; `sofar` at the start. */
  ghost function PutSince(k: Kernel, ops: seq<Op>, p: nat, sofar: seq<byte>): seq<byte>
    requires Inv(k) && Runs(k, ops) && p < |k.pipes|
    decreases |ops|
  {
    if ops == [] then sofar
    else
      StepKeeps(k, ops[0]);
      StepRing(k, ops[0], p);
      PutSince(Step(k, ops[0]), ops[1..], p, if Takes(k, ops[0], p) then [] else sofar + PutBy(k, ops[0], p))
  }

  ghost function GotSince(k: Kernel, ops: seq<Op>, p: nat, sofar: seq<byte>): seq<byte>
    requires Inv(k) && Runs(k, ops) && p < |k.pipes|
    decreases |ops|
  {
    if ops == [] then sofar
    else
      StepKeeps(k, ops[0]);
      StepRing(k, ops[0], p);
      GotSince(Step(k, ops[0]), ops[1..], p, if Takes(k, ops[0], p) then [] else sofar + GotBy(k, ops[0], p))
  }

  /** Over every run: what a pipe has handed over since it was made, followed by what is in it, is what has been put into it since. */
  lemma {:induction false} RunBytes(k: Kernel, ops: seq<Op>, p: nat, put: seq<byte>, got: seq<byte>)
    requires Inv(k) && Runs(k, ops) && p < |k.pipes| && got + k.pipes[p].buf == put
    ensures p < |Run(k, ops).pipes| && GotSince(k, ops, p, got) + Run(k, ops).pipes[p].buf == PutSince(k, ops, p, put)
    decreases |ops|
  {
    hide InvBut, Enabled, Step, GotBy, PutBy, Takes;
    if ops != [] {
      var k1 := Step(k, ops[0]);
      StepKeeps(k, ops[0]);
      StepRing(k, ops[0], p);
      if Takes(k, ops[0], p) {
        RunBytes(k1, ops[1..], p, [], []);
      } else {
        var got1, put1 := GotBy(k, ops[0], p), PutBy(k, ops[0], p);
        assert got + got1 + k1.pipes[p].buf == got + (got1 + k1.pipes[p].buf) == got + (k.pipes[p].buf + put1) == put + put1;
        RunBytes(k1, ops[1..], p, put + put1, got + got1);
      }
    }
  }

  // ---------------------------------------------------------------- reaping

  /** reap, on one slot: nobody killed is left there, a dead task has closed its descriptors, and nobody waits for them in vain. */
  lemma ReapExact(k: Kernel, t: nat)
    requires Inv(k) && t < |k.tasks|
    ensures var k2 := Reap(k, t);
            && |k2.tasks| == |k.tasks| && k2.cur == k.cur
            && k2.tasks[t].st == (if k.tasks[t].st in {Killed, Zombie} then (if t == k.cur then Zombie else Free) else k.tasks[t].st)
            && k2.tasks[t].st != Killed && (k.tasks[t].st in {Killed, Zombie, Free} ==> AllClosed(k2.tasks[t].fds))
            && (forall u :: 0 <= u < |k.tasks| && u != t ==> k2.tasks[u].fds == k.tasks[u].fds && k2.tasks[u].pc == k.tasks[u].pc)
            && (forall u :: 0 <= u < |k.tasks| && u != t && k2.tasks[u].st != k.tasks[u].st ==> k.tasks[u].st == Blocked && k2.tasks[u].st == Ready)
  {
    hide Counts, NoLostWake, OneEach, CloseFrom;
    if k.tasks[t].st == Killed {
      DieKeeps(k, t);
      CloseOthers(SetState(k, t, Zombie), t, 0);
    }
  }

  lemma {:induction false} CloseOthers(k: Kernel, t: nat, i: nat)
    requires t < |k.tasks| && i <= |k.tasks[t].fds|
    ensures var k2 := CloseFrom(k, t, i);
            && |k2.tasks| == |k.tasks| && |k2.pipes| == |k.pipes|
            && (forall u :: 0 <= u < |k.tasks| ==> k2.tasks[u].pc == k.tasks[u].pc && (u != t ==> k2.tasks[u].fds == k.tasks[u].fds))
            && (forall u :: 0 <= u < |k.tasks| && k2.tasks[u].st != k.tasks[u].st ==> k.tasks[u].st == Blocked && k2.tasks[u].st == Ready)
    decreases |k.tasks[t].fds| - i
  {
    hide Assign;
    if i < |k.tasks[t].fds| {
      AssignTables(k, t, i, Closed);
      CloseOthers(Assign(k, t, i, Closed), t, i + 1);
    }
  }

  /** Whoever waited at a pipe whose other end went with the dead task runs on. */
  lemma ReapWakes(k: Kernel, t: nat, u: nat)
    requires Inv(k) && t < |k.tasks| && u < |k.tasks| && u != t && k.tasks[u].st == Blocked && AtAnyPipe(k.tasks[u].pc)
    ensures var k2 := Reap(k, t); var pc := k.tasks[u].pc;
            && |k2.tasks| == |k.tasks|
            && (pc.p !in k2.leaked && CountEnds(k2.tasks, End(pc.p, pc.Reading?)) == 0 ==> k2.tasks[u].st == Ready)
  {
    hide OneEach, DeadClosed, CountEnds, Reap;
    ReapExact(k, t);
    ReapKeeps(k, t);
    var k2 := Reap(k, t);
    if k2.tasks[u].st == Blocked {
      assert Justified(k2, u) && PipeCounts(k2, k2.tasks[u].pc.p);
    }
  }

  predicate AtAnyPipe(pc: Pc) { pc.Reading? || pc.Writing? }

  /** The loop of reap, over the slots from i on. */
  function ReapFrom(k: Kernel, i: nat): Kernel
    decreases |k.tasks| - i
  {
    if i >= |k.tasks| then k else if |Reap(k, i).tasks| == |k.tasks| then ReapFrom(Reap(k, i), i + 1) else k
  }

  /** After a whole reap no killed task is left but slot 0, and everybody dead has closed what it had. */
  lemma {:induction false} ReapAll(k: Kernel, i: nat)
    requires Inv(k)
    ensures var k2 := ReapFrom(k, i);
            && Inv(k2) && |k2.tasks| == |k.tasks| && k2.cur == k.cur
            && (forall t :: 0 <= t < |k.tasks| && t < i && k.tasks[t].st != Killed ==> k2.tasks[t].st != Killed)
            && (forall t :: i <= t < |k.tasks| ==> k2.tasks[t].st != Killed && (k2.tasks[t].st == Zombie ==> t == k.cur))
            && (forall t :: i <= t < |k.tasks| && k2.tasks[t].st in {Zombie, Free} ==> AllClosed(k2.tasks[t].fds))
    decreases |k.tasks| - i
  {
    hide Counts, NoLostWake, OneEach, Fifo, Reap;
    if i < |k.tasks| {
      ReapKeeps(k, i);
      ReapExact(k, i);
      ReapAll(Reap(k, i), i + 1);
      ReapStays(Reap(k, i), i + 1, i);
    }
  }

  /** The rest of the loop leaves a slot behind it dead, if it was, or as alive as it was. */
  lemma {:induction false} ReapStays(k: Kernel, i: nat, t: nat)
    requires Inv(k) && t < i && t < |k.tasks|
    ensures var k2 := ReapFrom(k, i);
            |k2.tasks| == |k.tasks| && k2.tasks[t].fds == k.tasks[t].fds && (k2.tasks[t].st == k.tasks[t].st || (k.tasks[t].st == Blocked && k2.tasks[t].st == Ready))
    decreases |k.tasks| - i
  {
    hide InvBut, Reap;
    if i < |k.tasks| {
      ReapKeeps(k, i);
      ReapExact(k, i);
      ReapStays(Reap(k, i), i + 1, t);
    }
  }

  /** exit: the current task is a zombie with its table closed, and nobody else is touched but by a wake-up. */
  lemma ExitExact(k: Kernel)
    requires Inv(k)
    ensures var k2 := Exit(k);
            && |k2.tasks| == |k.tasks| && k2.cur == k.cur && k2.tasks[k.cur].st == Zombie && AllClosed(k2.tasks[k.cur].fds)
            && (forall u :: 0 <= u < |k.tasks| && u != k.cur ==> k2.tasks[u].fds == k.tasks[u].fds && k2.tasks[u].pc == k.tasks[u].pc)
            && (forall u :: 0 <= u < |k.tasks| && u != k.cur && k2.tasks[u].st != k.tasks[u].st ==> k.tasks[u].st == Blocked && k2.tasks[u].st == Ready)
  {
    hide Counts, NoLostWake, OneEach, CloseFrom, Fifo;
    DieKeeps(k, k.cur);
    CloseOthers(SetState(k, k.cur, Zombie), k.cur, 0);
  }

  /** Dropping a descriptor counts one fewer, shuts the pipe with the last of both kinds, and wakes nobody but who waits for the last of its kind. */
  lemma UnshareExact(k: Kernel, fd: Fd)
    requires Inv(k) && fd.End? && fd.p < |k.pipes| && fd.p !in k.leaked && CountEnds(k.tasks, fd) > 0
    ensures var k2 := Unshare(k, fd); var q, q2 := k.pipes[fd.p], k2.pipes[fd.p];
            && |k2.tasks| == |k.tasks| && |k2.pipes| == |k.pipes|
            && q2.writers == CountEnds(k.tasks, End(fd.p, true)) - (if fd.write then 1 else 0)
            && q2.readers == CountEnds(k.tasks, End(fd.p, false)) - (if fd.write then 0 else 1)
            && (q2.open <==> q2.writers + q2.readers > 0) && SameBytes(q, q2)
            && (forall p :: 0 <= p < |k.pipes| && p != fd.p ==> k2.pipes[p] == k.pipes[p])
            && (forall u :: 0 <= u < |k.tasks| && k2.tasks[u] != k.tasks[u] ==>
                 CountEnds(k.tasks, fd) == 1 && (if fd.write then q.rdWait else q.wrWait) == Some(u))
            && (CountEnds(k.tasks, fd) == 1 ==>
                 var w := if fd.write then q.rdWait else q.wrWait;
                 w.Some? && w.value < |k.tasks| ==> k2.tasks[w.value].st != Blocked)
  {
    hide NoLostWake, OneEach, DeadClosed, Fifo, CountEnds;
    assert PipeCounts(k, fd.p);
  }
}
