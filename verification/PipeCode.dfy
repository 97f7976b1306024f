/** The pipe and descriptor calls as they run: the ring buffer, and the loops over tables and bytes. */
module PipeCode {
  import opened Basics
  import opened Pipes

  // ---------------------------------------------------------------- the ring

  function Wrap(i: nat): nat { if i < PIPE_BYTES then i else i - PIPE_BYTES }

  lemma WrapIsModulo(i: nat)
    requires i < 2 * PIPE_BYTES
    ensures i % PIPE_BYTES == Wrap(i)
  {
  }

  /** The n bytes of a ring from its tail on, oldest first. */
  function View(b: seq<byte>, tail: nat, n: nat): (s: seq<byte>)
    requires |b| == PIPE_BYTES && tail < PIPE_BYTES && n <= PIPE_BYTES
    ensures |s| == n
  {
    seq(n, i requires 0 <= i < n => b[Wrap(tail + i)])
  }

  lemma ViewAt(b: seq<byte>, tail: nat, n: nat, i: nat)
    requires |b| == PIPE_BYTES && tail < PIPE_BYTES && i < n <= PIPE_BYTES
    ensures View(b, tail, n)[i] == b[Wrap(tail + i)]
  {
  }

  lemma ViewPush(b: seq<byte>, tail: nat, n: nat, x: byte)
    requires |b| == PIPE_BYTES && tail < PIPE_BYTES && n < PIPE_BYTES
    ensures View(b[Wrap(tail + n) := x], tail, n + 1) == View(b, tail, n) + [x]
  {
    var v, w := View(b[Wrap(tail + n) := x], tail, n + 1), View(b, tail, n) + [x];
    forall i | 0 <= i <= n ensures v[i] == w[i] {
      if i < n { assert Wrap(tail + i) != Wrap(tail + n); }
    }
  }

  lemma ViewTail(b: seq<byte>, tail: nat, n: nat)
    requires |b| == PIPE_BYTES && tail < PIPE_BYTES && 0 < n <= PIPE_BYTES
    ensures View(b, tail, n) == [b[tail]] + View(b, Wrap(tail + 1), n - 1)
  {
    var u := View(b, Wrap(tail + 1), n - 1);
    var v, w := View(b, tail, n), [b[tail]] + u;
    forall i | 0 <= i < n ensures v[i] == w[i] {
      ViewAt(b, tail, n, i);
      if i > 0 {
        assert w[i] == u[i - 1];
        ViewAt(b, Wrap(tail + 1), n - 1, i - 1);
        assert Wrap(Wrap(tail + 1) + (i - 1)) == Wrap(tail + i);
      }
    }
  }

  class Ring {
    const buf: array<byte>
    var head: nat
    var tail: nat
    var n: nat

    ghost predicate Valid()
      reads this
    {
      buf.Length == PIPE_BYTES && tail < PIPE_BYTES && n <= PIPE_BYTES && head == Wrap(tail + n)
    }

    ghost function Contents(): (s: seq<byte>)
      requires Valid()
      reads this, buf
      ensures |s| == n
    {
      View(buf[..], tail, n)
    }

    constructor ()
      ensures Valid() && Contents() == [] && fresh(buf)
    {
      buf := new byte[PIPE_BYTES](_ => 0);
      head, tail, n := 0, 0, 0;
    }

    /** memset to zero. */
    method Clear()
      requires Valid()
      modifies this, buf
      ensures Valid() && Contents() == []
    {
      for i := 0 to PIPE_BYTES
        invariant buf.Length == PIPE_BYTES
      {
        buf[i] := 0;
      }
      head, tail, n := 0, 0, 0;
    }

    /** One byte in at the head. */
    method Push(x: byte)
      requires Valid() && n < PIPE_BYTES
      modifies this, buf
      ensures Valid() && Contents() == old(Contents()) + [x]
    {
      hide View;
      WrapIsModulo(head + 1);
      ViewPush(buf[..], tail, n, x);
      buf[head] := x;
      assert buf[..] == old(buf[..])[head := x];
      head := (head + 1) % PIPE_BYTES;
      n := n + 1;
    }

    /** The copying loop of a read: bytes out at the tail, until enough or empty. */
    method Take(len: nat) returns (out: seq<byte>)
      requires Valid()
      modifies this
      ensures Valid() && out == old(Contents())[..Min(len, old(n))]
      ensures Contents() == old(Contents())[Min(len, old(n))..]
    {
      hide View;
      out := [];
      var got := 0;
      while got < len && n != 0
        invariant Valid() && got == |out| <= len && got + n == old(n)
        invariant out + Contents() == old(Contents())
        decreases n
      {
        ViewTail(buf[..], tail, n);
        WrapIsModulo(tail + 1);
        out, got := out + [buf[tail]], got + 1;
        tail := (tail + 1) % PIPE_BYTES;
        n := n - 1;
      }
    }
  }

  // ---------------------------------------------------------------- the calls

  /** A pipebuf but for its ring: the flag, the counts, the two wait slots, and the histories. */
  datatype Slot = Slot(open: bool, readers: int, writers: int, rdWait: Option<nat>, wrWait: Option<nat>, accepted: seq<byte>, delivered: seq<byte>)

  function Whole(s: Slot, b: seq<byte>): Pipe { Pipe(s.open, b, s.readers, s.writers, s.rdWait, s.wrWait, s.accepted, s.delivered) }

  function WholeAll(ss: seq<Slot>, bs: seq<seq<byte>>): (r: seq<Pipe>)
    requires |ss| == |bs|
    ensures |r| == |ss| && forall i :: 0 <= i < |ss| ==> r[i] == Whole(ss[i], bs[i])
  {
    seq(|ss|, i requires 0 <= i < |ss| => Whole(ss[i], bs[i]))
  }

  lemma WholeUpdate(ss: seq<Slot>, bs: seq<seq<byte>>, p: nat, s: Slot, b: seq<byte>)
    requires |ss| == |bs| && p < |ss|
    ensures WholeAll(ss[p := s], bs[p := b]) == WholeAll(ss, bs)[p := Whole(s, b)]
    ensures ss[p := s][p] == s && bs[p := bs[p]] == bs && ss[p := ss[p]] == ss
  {
  }

  class Vfs {
    var tasks: seq<Task>
    var slots: seq<Slot>
    const rings: seq<Ring>
    var cur: nat
    var leaked: set<nat>

    ghost function Arrays(): set<array<byte>>
    {
      set r | r in rings :: r.buf
    }

    /** One ring for every slot, and no two share their bytes. */
    ghost predicate Valid()
      reads this, rings
    {
      && |slots| == |rings| && (forall i :: 0 <= i < |rings| ==> rings[i].Valid())
      && (forall i, j :: 0 <= i < j < |rings| ==> rings[i] != rings[j] && rings[i].buf != rings[j].buf)
    }

    ghost function Bytes(): (bs: seq<seq<byte>>)
      requires forall i :: 0 <= i < |rings| ==> rings[i].Valid()
      reads rings, Arrays()
      ensures |bs| == |rings| && forall i :: 0 <= i < |rings| ==> bs[i] == rings[i].Contents()
    {
      seq(|rings|, i requires 0 <= i < |rings| reads rings, Arrays() requires rings[i].Valid() => rings[i].Contents())
    }

    ghost function St(): Kernel
      requires Valid()
      reads this, rings, Arrays()
    {
      Kernel(tasks, WholeAll(slots, Bytes()), cur, leaked)
    }

    /** Boot: as many pipes as there is room for, all of them shut. */
    constructor (ts: seq<Task>, count: nat, running: nat)
      ensures Valid() && fresh(rings) && St() == Kernel(ts, seq(count, _ => Pipe(false, [], 0, 0, None, None, [], [])), running, {})
    {
      var rs: seq<Ring> := [];
      for i := 0 to count
        invariant |rs| == i && fresh(rs) && forall j :: 0 <= j < i ==> rs[j].Valid() && rs[j].Contents() == [] && fresh(rs[j].buf)
        invariant forall j, k :: 0 <= j < k < i ==> rs[j] != rs[k] && rs[j].buf != rs[k].buf
      {
        var r := new Ring();
        rs := rs + [r];
      }
      tasks, slots, rings, cur, leaked := ts, seq(count, _ => Slot(false, 0, 0, None, None, [], [])), rs, running, {};
    }

    /** What a state says about the fields behind it. */
    lemma Facts(p: nat)
      requires Valid()
      ensures St().tasks == tasks && St().cur == cur && St().leaked == leaked && |St().pipes| == |slots| == |rings| == |Bytes()|
      ensures p < |slots| ==> rings[p].Valid() && |Bytes()[p]| == rings[p].n && St().pipes[p] == Whole(slots[p], Bytes()[p])
    {
    }

    /** A pipebuf's counts and slots are stored; its ring stays. */
    method SetSlot(p: nat, s: Slot)
      requires Valid() && p < |slots|
      modifies this`slots
      ensures Valid() && slots == old(slots)[p := s] && Bytes() == old(Bytes())
      ensures St() == SetPipe(old(St()), p, Whole(s, old(Bytes())[p]))
    {
      WholeUpdate(slots, Bytes(), p, s, Bytes()[p]);
      slots := slots[p := s];
    }

    /** A task is stored. */
    method SetOne(t: nat, x: Task)
      requires Valid() && t < |tasks|
      modifies this`tasks
      ensures Valid() && tasks == old(tasks)[t := x] && Bytes() == old(Bytes()) && St() == SetTask(old(St()), t, x)
    {
      tasks := tasks[t := x];
    }

    method WakeSlot(slot: Option<nat>)
      requires Valid()
      modifies this`tasks
      ensures Valid() && tasks == Wake(old(tasks), slot) && Bytes() == old(Bytes()) && St() == old(St()).(tasks := tasks)
    {
      if slot.Some? && slot.value < |tasks| {
        var t := slot.value;
        if tasks[t].st == Blocked {
          SetOne(t, tasks[t].(st := Ready));
        } else {
          SetOne(t, tasks[t].(wake := true));
        }
      }
    }

    method FdUnshare(fd: Fd)
      requires Valid()
      modifies this`tasks, this`slots
      ensures Valid() && St() == Unshare(old(St()), fd)
    {
      hide Wake;
      if !fd.End? || fd.p >= |slots| { return; }
      var q, slot := OneEndFewer(slots[fd.p], fd.write);
      WakeSlot(slot);
      SetSlot(fd.p, q);
    }

    /** The counts and slots of a pipe with one descriptor fewer, and whoever waits for the last of its kind. */
    method OneEndFewer(q0: Slot, write: bool) returns (q: Slot, slot: Option<nat>)
      ensures q.writers == (if write then Clamp(q0.writers - 1) else q0.writers) && q.readers == (if write then q0.readers else Clamp(q0.readers - 1))
      ensures slot == if write && q.writers == 0 then q0.rdWait else if !write && q.readers == 0 then q0.wrWait else None
      ensures q.rdWait == (if write && q.writers == 0 then None else q0.rdWait) && q.wrWait == (if !write && q.readers == 0 then None else q0.wrWait)
      ensures q == q0.(readers := q.readers, writers := q.writers, rdWait := q.rdWait, wrWait := q.wrWait,
                       open := q0.open && !(q.writers == 0 && q.readers == 0))
    {
      q, slot := q0, None;
      if write { q := q.(writers := q.writers - 1); } else { q := q.(readers := q.readers - 1); }
      if write && q.writers < 0 { q := q.(writers := 0); }
      if !write && q.readers < 0 { q := q.(readers := 0); }
      if write && q.writers == 0 && q.rdWait.Some? {
        slot := q.rdWait;
        q := q.(rdWait := None);
      }
      if !write && q.readers == 0 && q.wrWait.Some? {
        slot := q.wrWait;
        q := q.(wrWait := None);
      }
      if q.writers == 0 && q.readers == 0 { q := q.(open := false); }
    }

    method FdShare(fd: Fd)
      requires Valid()
      modifies this`slots
      ensures Valid() && St() == Share(old(St()), fd)
    {
      if !fd.End? || fd.p >= |slots| { return; }
      var q := slots[fd.p];
      if fd.write {
        SetSlot(fd.p, q.(writers := q.writers + 1));
      } else {
        SetSlot(fd.p, q.(readers := q.readers + 1));
      }
    }

    method PutFd(t: nat, i: nat, fd: Fd)
      requires Valid() && t < |tasks| && i < |tasks[t].fds|
      modifies this`tasks
      ensures Valid() && St() == SetFd(old(St()), t, i, fd)
    {
      SetOne(t, tasks[t].(fds := tasks[t].fds[i := fd]));
    }

    method CloseIn(t: nat, i: nat)
      requires Valid() && t < |tasks| && i < |tasks[t].fds|
      modifies this`tasks, this`slots
      ensures Valid() && St() == Assign(old(St()), t, i, Closed)
    {
      hide Unshare;
      UnshareTables(St(), tasks[t].fds[i]);
      FdUnshare(tasks[t].fds[i]);
      PutFd(t, i, Closed);
    }

    /** Only what is open is closed, one entry after the other. */
    method FdCloseAll(t: nat)
      requires Valid() && t < |tasks|
      modifies this`tasks, this`slots
      ensures Valid() && St() == CloseFrom(old(St()), t, 0)
    {
      ghost var goal := CloseFrom(St(), t, 0);
      var i := 0;
      while i < |tasks[t].fds|
        invariant Valid() && t < |tasks| && i <= |tasks[t].fds| && CloseFrom(St(), t, i) == goal
        decreases |tasks[t].fds| - i
      {
        AssignTables(St(), t, i, Closed);
        ghost var k := St();
        if tasks[t].fds[i] != Closed {
          CloseIn(t, i);
        } else {
          assert k.tasks[t].fds[i := Closed] == k.tasks[t].fds;
          assert Assign(k, t, i, Closed) == k;
        }
        i := i + 1;
      }
    }

    method Dup2(from: nat, onto: nat)
      requires Valid() && cur < |tasks| && from < |tasks[cur].fds| && onto < |tasks[cur].fds|
      modifies this`tasks, this`slots
      ensures Valid() && St() == if from == onto then old(St()) else Assign(old(St()), old(cur), onto, old(tasks[cur].fds[from]))
    {
      hide Assign, Share, SetFd;
      if from == onto { return; }
      var fd := tasks[cur].fds[from];
      CloseThenCopy(St(), cur, onto, fd);
      if tasks[cur].fds[onto] != Closed { CloseIn(cur, onto); }
      PutFd(cur, onto, fd);
      FdShare(fd);
    }

    method FdInstall(into: nat, child: nat, from: nat) returns (ok: bool)
      requires Valid() && cur < |tasks| && from < |tasks[cur].fds| && into < |tasks| && child < |tasks[into].fds|
      modifies this`tasks, this`slots
      ensures Valid() && ok == (old(tasks[cur].fds[from]) != Closed)
      ensures St() == if ok then Assign(old(St()), into, child, old(tasks[cur].fds[from])) else old(St())
    {
      hide Unshare, Share;
      var fd := tasks[cur].fds[from];
      if fd == Closed { return false; }
      UnshareTables(St(), tasks[into].fds[child]);
      FdUnshare(tasks[into].fds[child]);
      PutFd(into, child, fd);
      FdShare(fd);
      return true;
    }

    /** The child's table: a copy, every pipe end in it counted again. */
    method ForkInto(s: nat)
      requires Valid() && cur < |tasks| && s < |tasks|
      modifies this`tasks, this`slots
      ensures Valid() && St() == Fork(old(St()), s)
    {
      hide Share;
      var fds := tasks[cur].fds;
      SetOne(s, Task(Ready, false, User, fds));
      ghost var goal := ShareAll(St(), fds);
      ShareNothing(St());
      for i := 0 to |fds|
        invariant Valid() && ShareAll(St(), fds[i..]) == goal
      {
        assert fds[i..][1..] == fds[i + 1..];
        ShareClosed(St());
        if fds[i] != Closed { FdShare(fds[i]); }
      }
    }

    method ExitCurrent()
      requires Valid() && cur < |tasks|
      modifies this`tasks, this`slots
      ensures Valid() && St() == Exit(old(St()))
    {
      SetOne(cur, tasks[cur].(st := Zombie));
      FdCloseAll(cur);
    }

    /** memset of a pipebuf, and the first stores into it. */
    method Fresh(p: nat)
      requires Valid() && p < |slots|
      modifies this`slots, rings[p], rings[p].buf
      ensures Valid() && St() == SetPipe(old(St()), p, FreshPipe())
    {
      ghost var bs := Bytes();
      rings[p].Clear();
      assert Bytes() == bs[p := []];
      WholeUpdate(slots, bs, p, Slot(true, 1, 1, None, None, [], []), []);
      slots := slots[p := Slot(true, 1, 1, None, None, [], [])];
    }

    /** pipe(): scan for a buffer, take it, scan for two descriptors, fill them in. */
    method PipeCall() returns (ok: bool, r: nat, w: nat)
      requires Valid() && cur < |tasks|
      modifies this, rings, Arrays()
      ensures Valid() && (St(), ok) == MakePipe(old(St()))
      ensures ok ==> r == ReadSlot(old(tasks[cur].fds)) && w == WriteSlot(old(tasks[cur].fds))
    {
      hide Valid, St, Bytes, FreshPipe;
      r, w := 0, 0;
      var p := 0;
      ghost var k := St();
      Facts(0);
      FactsAll();
      while p < |slots| && slots[p].open
        invariant p <= |slots| && NextShut(k.pipes, p) == NextShut(k.pipes, 0)
      {
        p := p + 1;
      }
      if p == |slots| { return false, 0, 0; }
      Fresh(p);
      Facts(p);
      r, w := FindTwo(tasks[cur].fds);
      if r == |tasks[cur].fds| || w == |tasks[cur].fds| {
        Leak(p);
        return false, 0, 0;
      }
      PipeParts(k, p);
      PutFd(cur, r, End(p, false));
      Facts(p);
      PutFd(cur, w, End(p, true));
      return true, r, w;
    }

    /** A pipe that nobody will ever name keeps the counts it was born with. */
    method Leak(p: nat)
      requires Valid()
      modifies this`leaked
      ensures Valid() && St() == old(St()).(leaked := old(leaked) + {p})
    {
      leaked := leaked + {p};
    }

    lemma FactsAll()
      requires Valid()
      ensures |St().pipes| == |slots| && forall p :: 0 <= p < |slots| ==> St().pipes[p].open == slots[p].open
    {
    }

    /** The scan for two free entries. */
    method FindTwo(fds: seq<Fd>) returns (r: nat, w: nat)
      ensures r == ReadSlot(fds) && w == WriteSlot(fds)
    {
      r := 0;
      while r < |fds| && fds[r] != Closed
        invariant r <= |fds| && NextClosed(fds, r) == NextClosed(fds, 0)
      {
        r := r + 1;
      }
      w := r;
      if r < |fds| {
        w := r + 1;
        while w < |fds| && fds[w] != Closed
          invariant r < w <= |fds| && NextClosed(fds, w) == NextClosed(fds, r + 1)
        {
          w := w + 1;
        }
      }
    }

    /** The body of a read's waiting loop: a remembered wake-up costs one more turn, then the task parks. */
    method BlockOnRead(p: nat, len: nat)
      requires Valid() && cur < |tasks| && p < |slots|
      modifies this`tasks, this`slots
      ensures Valid() && Bytes() == old(Bytes())
      ensures St() == SetPipe(SetTask(old(St()), old(cur), old(tasks[cur]).(st := Blocked, wake := false, pc := Reading(p, len))), p,
                              old(St()).pipes[p].(rdWait := Some(old(cur))))
    {
      while tasks[cur].wake
        invariant Valid() && |tasks| == |old(tasks)| && |slots| == |old(slots)| && Bytes() == old(Bytes())
        invariant tasks == old(tasks)[cur := old(tasks[cur]).(wake := tasks[cur].wake)]
        invariant slots == old(slots)[p := old(slots[p]).(rdWait := slots[p].rdWait)]
        decreases tasks[cur].wake
      {
        slots := slots[p := slots[p].(rdWait := Some(cur))];
        tasks := tasks[cur := tasks[cur].(wake := false)];
        slots := slots[p := slots[p].(rdWait := None)];
      }
      WholeUpdate(old(slots), Bytes(), p, slots[p].(rdWait := Some(cur)), Bytes()[p]);
      slots := slots[p := slots[p].(rdWait := Some(cur))];
      tasks := tasks[cur := tasks[cur].(st := Blocked, pc := Reading(p, len))];
    }

    method BlockOnWrite(p: nat, rest: seq<byte>, put: nat)
      requires Valid() && cur < |tasks| && p < |slots|
      modifies this`tasks, this`slots
      ensures Valid() && Bytes() == old(Bytes())
      ensures St() == SetPipe(SetTask(old(St()), old(cur), old(tasks[cur]).(st := Blocked, wake := false, pc := Writing(p, rest, put))), p,
                              old(St()).pipes[p].(wrWait := Some(old(cur))))
    {
      while tasks[cur].wake
        invariant Valid() && |tasks| == |old(tasks)| && |slots| == |old(slots)| && Bytes() == old(Bytes())
        invariant tasks == old(tasks)[cur := old(tasks[cur]).(wake := tasks[cur].wake)]
        invariant slots == old(slots)[p := old(slots[p]).(wrWait := slots[p].wrWait)]
        decreases tasks[cur].wake
      {
        slots := slots[p := slots[p].(wrWait := Some(cur))];
        tasks := tasks[cur := tasks[cur].(wake := false)];
        slots := slots[p := slots[p].(wrWait := None)];
      }
      WholeUpdate(old(slots), Bytes(), p, slots[p].(wrWait := Some(cur)), Bytes()[p]);
      slots := slots[p := slots[p].(wrWait := Some(cur))];
      tasks := tasks[cur := tasks[cur].(st := Blocked, pc := Writing(p, rest, put))];
    }

    /** The ring of pipe p gives bytes out; `delivered` remembers them. */
    method TakeBytes(p: nat, len: nat) returns (out: seq<byte>)
      requires Valid() && p < |slots|
      modifies this`slots, rings[p]
      ensures Valid() && slots == old(slots)[p := old(slots)[p].(delivered := old(slots)[p].delivered + out)]
      ensures var b := old(Bytes())[p];
              && out == b[..Min(len, |b|)]
              && St() == SetPipe(old(St()), p, old(St()).pipes[p].(buf := b[Min(len, |b|)..], delivered := old(St()).pipes[p].delivered + out))
    {
      ghost var bs := Bytes();
      out := rings[p].Take(len);
      assert Bytes() == bs[p := bs[p][Min(len, |bs[p]|)..]];
      WholeUpdate(slots, bs, p, slots[p].(delivered := slots[p].delivered + out), bs[p][Min(len, |bs[p]|)..]);
      slots := slots[p := slots[p].(delivered := slots[p].delivered + out)];
    }

    /** One byte goes into the ring of pipe p; `accepted` remembers it. */
    method PutByte(p: nat, x: byte)
      requires Valid() && p < |slots| && rings[p].n < PIPE_BYTES
      modifies this`slots, rings[p], rings[p].buf
      ensures Valid() && slots == old(slots)[p := old(slots)[p].(accepted := old(slots)[p].accepted + [x])]
      ensures St() == SetPipe(old(St()), p, old(St()).pipes[p].(buf := old(St()).pipes[p].buf + [x], accepted := old(St()).pipes[p].accepted + [x]))
    {
      ghost var bs := Bytes();
      rings[p].Push(x);
      assert Bytes() == bs[p := bs[p] + [x]];
      WholeUpdate(slots, bs, p, slots[p].(accepted := slots[p].accepted + [x]), bs[p] + [x]);
      slots := slots[p := slots[p].(accepted := slots[p].accepted + [x])];
    }

    /** pipe_rd, from the test of its waiting loop to the next park or the return, and the bytes it hands over. */
    method PipeRd(p: nat, len: nat) returns (r: Outcome, out: seq<byte>)
      requires Valid() && cur < |tasks| && p < |slots|
      modifies this`tasks, this`slots, rings[p]
      ensures Valid() && (St(), r) == Read(old(St()), p, len)
      ensures if r.Parked? then out == [] else 0 <= r.value <= |old(St()).pipes[p].buf| && out == old(St()).pipes[p].buf[..r.value]
    {
      hide Valid, St, Bytes, Wake;
      ghost var k := St();
      Facts(p);
      if rings[p].n == 0 && slots[p].writers != 0 {
        BlockOnRead(p, len);
        return Parked, [];
      }
      SetOne(cur, tasks[cur].(pc := User));
      Facts(p);
      if rings[p].n == 0 { return Returned(0), []; }
      ReadParts(k, p, len);
      out := TakeBytes(p, len);
      Facts(p);
      WakeWriter(p);
      return Returned(|out|), out;
    }

    /** There is room again: whoever waits for it is told. */
    method WakeWriter(p: nat)
      requires Valid() && p < |slots|
      modifies this`tasks, this`slots
      ensures Valid() && Bytes() == old(Bytes())
      ensures St() == SetPipe(old(St()).(tasks := Wake(old(tasks), old(slots)[p].wrWait)), p, old(St()).pipes[p].(wrWait := None))
    {
      hide Wake;
      var q := slots[p];
      if q.wrWait.Some? {
        WakeSlot(q.wrWait);
        SetSlot(p, q.(wrWait := None));
      } else {
        WakeNobody(tasks);
        assert q.(wrWait := None) == q;
        assert St().pipes[p := St().pipes[p]] == St().pipes;
      }
    }

    /** pipe_wr likewise: byte by byte, waking the reader after each. */
    method PipeWr(p: nat, data: seq<byte>, before: nat) returns (r: Outcome)
      requires Valid() && cur < |tasks| && p < |slots|
      modifies this`tasks, this`slots, rings[p], rings[p].buf
      ensures Valid() && (St(), r) == Write(old(St()), p, data, before)
    {
      hide Valid, St, Bytes, Filled, Wake;
      ghost var k := St();
      Facts(p);
      FilledLooks(k, p, data, 0);
      var put := 0;
      while put < |data|
        invariant Valid() && put <= Fits(k, p, data) && St() == Filled(k, p, data, put)
        invariant |slots| == |k.pipes| && |tasks| == |k.tasks| && cur == k.cur && rings[p].n == |k.pipes[p].buf| + put <= PIPE_BYTES
        decreases |data| - put
      {
        Facts(p);
        if rings[p].n == PIPE_BYTES {
          if slots[p].readers != 0 {
            BlockOnWrite(p, data[put..], before + put);
            return Parked;
          }
          SetOne(cur, tasks[cur].(pc := User));
          return Returned(-1);
        }
        FilledNext(k, p, data, put);
        FilledLooks(k, p, data, put + 1);
        PutByte(p, data[put]);
        put := put + 1;
        Facts(p);
        WakeReader(p);
        Facts(p);
      }
      Facts(p);
      SetOne(cur, tasks[cur].(pc := User));
      return Returned(before + put);
    }

    /** Whoever waits for a byte is told that there is one. */
    method WakeReader(p: nat)
      requires Valid() && p < |slots|
      modifies this`tasks, this`slots
      ensures Valid() && Bytes() == old(Bytes())
      ensures St() == SetPipe(old(St()).(tasks := Wake(old(tasks), old(slots)[p].rdWait)), p, old(St()).pipes[p].(rdWait := None))
    {
      hide Wake;
      var q := slots[p];
      if q.rdWait.Some? {
        WakeSlot(q.rdWait);
        SetSlot(p, q.(rdWait := None));
      } else {
        WakeNobody(tasks);
        assert q.(rdWait := None) == q;
        assert St().pipes[p := St().pipes[p]] == St().pipes;
      }
    }
  }

  lemma UnshareTables(k: Kernel, fd: Fd)
    ensures |Unshare(k, fd).tasks| == |k.tasks| && Unshare(k, fd).cur == k.cur
    ensures forall t :: 0 <= t < |k.tasks| ==> Unshare(k, fd).tasks[t].fds == k.tasks[t].fds
  {
  }

  /** A read with something in the ring, store by store. */
  lemma ReadParts(k: Kernel, p: nat, len: nat)
    requires k.cur < |k.tasks| && p < |k.pipes| && k.pipes[p].buf != []
    ensures var b := k.pipes[p].buf;
            var m := Min(len, |b|);
            var k1 := SetTask(k, k.cur, k.tasks[k.cur].(pc := User));
            var k2 := SetPipe(k1, p, k1.pipes[p].(buf := b[m..], delivered := k1.pipes[p].delivered + b[..m]));
            |b[..m]| == m && Read(k, p, len) == (SetPipe(k2.(tasks := Wake(k2.tasks, k2.pipes[p].wrWait)), p, k2.pipes[p].(wrWait := None)), Returned(m))
  {
    hide Wake;
    var q, b := k.pipes[p], k.pipes[p].buf;
    var m := Min(len, |b|);
    var q2 := q.(buf := b[m..], delivered := q.delivered + b[..m]);
    assert k.pipes[p := q2][p := q2.(wrWait := None)] == k.pipes[p := q2.(wrWait := None)];
  }

  /** pipe() that finds everything, store by store. */
  lemma PipeParts(k: Kernel, p: nat)
    requires k.cur < |k.tasks| && p == NextShut(k.pipes, 0) < |k.pipes| && WriteSlot(k.tasks[k.cur].fds) < |k.tasks[k.cur].fds|
    ensures var r, w := ReadSlot(k.tasks[k.cur].fds), WriteSlot(k.tasks[k.cur].fds);
            var k1 := SetFd(SetPipe(k, p, FreshPipe()), k.cur, r, End(p, false));
            MakePipe(k) == (SetFd(k1, k.cur, w, End(p, true)), true)
  {
    hide NextClosed, NextShut, FreshPipe;
    var me, r, w := k.tasks[k.cur], ReadSlot(k.tasks[k.cur].fds), WriteSlot(k.tasks[k.cur].fds);
    var m1, m2 := me.(fds := me.fds[r := End(p, false)]), me.(fds := me.fds[r := End(p, false)][w := End(p, true)]);
    assert k.tasks[k.cur := m1][k.cur := m2] == k.tasks[k.cur := m2];
  }

  lemma ShareNothing(k: Kernel)
    ensures ShareAll(k, []) == k
  {
  }

  /** Closing an entry and then copying over it is the same as copying over it. */
  lemma CloseThenCopy(k: Kernel, t: nat, i: nat, fd: Fd)
    requires t < |k.tasks| && i < |k.tasks[t].fds|
    ensures var k1 := if k.tasks[t].fds[i] == Closed then k else Assign(k, t, i, Closed);
            && t < |k1.tasks| && i < |k1.tasks[t].fds| && k1.cur == k.cur
            && Share(SetFd(k1, t, i, fd), fd) == Assign(k, t, i, fd)
  {
    hide Share, Wake;
    var k0 := Unshare(k, k.tasks[t].fds[i]);
    var f := k0.tasks[t].fds;
    assert f[i := Closed][i := fd] == f[i := fd];
    assert SetFd(SetFd(k0, t, i, Closed), t, i, fd).tasks == SetFd(k0, t, i, fd).tasks;
    assert Share(SetFd(k0, t, i, Closed), Closed) == SetFd(k0, t, i, Closed) by { ShareClosed(SetFd(k0, t, i, Closed)); }
  }

  lemma ShareClosed(k: Kernel)
    ensures Share(k, Closed) == k
  {
  }

  lemma WakeNobody(tasks: seq<Task>)
    ensures Wake(tasks, None) == tasks
  {
  }

  /** What filling leaves alone. */
  lemma FilledLooks(k: Kernel, p: nat, data: seq<byte>, n: nat)
    requires p < |k.pipes| && n <= |data|
    ensures var f := Filled(k, p, data, n);
            && |f.pipes| == |k.pipes| && |f.tasks| == |k.tasks| && f.cur == k.cur
            && |f.pipes[p].buf| == |k.pipes[p].buf| + n
            && (n == 0 ==> f == k)
  {
  }

  /** One byte more. */
  lemma FilledNext(k: Kernel, p: nat, data: seq<byte>, n: nat)
    requires p < |k.pipes| && n < |data|
    ensures var f := Filled(k, p, data, n);
            && p < |f.pipes|
            && Filled(k, p, data, n + 1)
               == f.(tasks := Wake(f.tasks, f.pipes[p].rdWait),
                     pipes := f.pipes[p := f.pipes[p].(buf := f.pipes[p].buf + [data[n]],
                                                       accepted := f.pipes[p].accepted + [data[n]], rdWait := None)])
  {
    var q, f := k.pipes[p], Filled(k, p, data, n);
    assert data[..n + 1] == data[..n] + [data[n]];
    assert q.buf + data[..n + 1] == (q.buf + data[..n]) + [data[n]];
    assert q.accepted + data[..n + 1] == (q.accepted + data[..n]) + [data[n]];
    assert q.buf + data[..0] == q.buf && q.accepted + data[..0] == q.accepted;
  }
}
