/** Pipes and descriptors over blocking tasks: the protocol as a state machine. */
module Pipes {
  import opened Basics

  const PIPE_BYTES := 4096

  /** A descriptor: free, a pipe end, or anything else that is open. */
  datatype Fd = Closed | Other | End(p: nat, write: bool)

  datatype TaskState = Free | Ready | Running | Zombie | Killed | Blocked

  /** Where a task is: in user code, in a pipe call with what is left to do and what is done, or in some other wait. */
  datatype Pc = User | Reading(p: nat, len: nat) | Writing(p: nat, rest: seq<byte>, put: nat) | Elsewhere

  datatype Task = Task(st: TaskState, wake: bool, pc: Pc, fds: seq<Fd>)

  /** `buf` is what the ring holds, oldest first; `accepted` and `delivered` are histories of the pipe's life. */
  datatype Pipe = Pipe(open: bool, buf: seq<byte>, readers: int, writers: int, rdWait: Option<nat>, wrWait: Option<nat>,
                       accepted: seq<byte>, delivered: seq<byte>)

  /** `leaked` marks pipes whose creation ran out of descriptors: they keep the counts they were born with. */
  datatype Kernel = Kernel(tasks: seq<Task>, pipes: seq<Pipe>, cur: nat, leaked: set<nat>)

  // ---------------------------------------------------------------- waking and counting

  /** unblock: a blocked task becomes ready, any other remembers the wake-up. */
  function Unblock(tasks: seq<Task>, t: nat): (r: seq<Task>)
    ensures |r| == |tasks|
    ensures forall u :: 0 <= u < |tasks| ==> r[u].fds == tasks[u].fds && r[u].pc == tasks[u].pc
    ensures forall u :: 0 <= u < |tasks| && u != t ==> r[u] == tasks[u]
    ensures forall u :: 0 <= u < |tasks| && r[u].st == Blocked ==> tasks[u].st == Blocked && u != t && r[u] == tasks[u]
    ensures forall u :: 0 <= u < |tasks| && r[u].st != tasks[u].st ==> tasks[u].st == Blocked && r[u].st == Ready
  {
    if t >= |tasks| then tasks
    else if tasks[t].st == Blocked then tasks[t := tasks[t].(st := Ready)]
    else tasks[t := tasks[t].(wake := true)]
  }

  function Wake(tasks: seq<Task>, slot: Option<nat>): (r: seq<Task>)
    ensures |r| == |tasks|
    ensures forall u :: 0 <= u < |tasks| ==> r[u].fds == tasks[u].fds && r[u].pc == tasks[u].pc
    ensures forall u :: 0 <= u < |tasks| && r[u].st == Blocked ==> tasks[u].st == Blocked && slot != Some(u) && r[u] == tasks[u]
    ensures forall u :: 0 <= u < |tasks| && r[u].st != tasks[u].st ==> tasks[u].st == Blocked && r[u].st == Ready
  {
    if slot.Some? then Unblock(tasks, slot.value) else tasks
  }

  function Clamp(x: int): int { if x < 0 then 0 else x }

  /** fd_unshare: one descriptor fewer; whoever waits for the last of its kind hears of it. */
  function Unshare(k: Kernel, fd: Fd): Kernel {
    if !fd.End? || fd.p >= |k.pipes| then k
    else
      var q0 := k.pipes[fd.p];
      var q1 := if fd.write then q0.(writers := Clamp(q0.writers - 1)) else q0.(readers := Clamp(q0.readers - 1));
      var slot := if fd.write && q1.writers == 0 then q1.rdWait else if !fd.write && q1.readers == 0 then q1.wrWait else None;
      var q2 := if fd.write && q1.writers == 0 then q1.(rdWait := None)
                else if !fd.write && q1.readers == 0 then q1.(wrWait := None) else q1;
      var q3 := if q2.writers == 0 && q2.readers == 0 then q2.(open := false) else q2;
      k.(tasks := Wake(k.tasks, slot), pipes := k.pipes[fd.p := q3])
  }

  /** fd_share: one descriptor more. */
  function Share(k: Kernel, fd: Fd): Kernel {
    if !fd.End? || fd.p >= |k.pipes| then k
    else
      var q := k.pipes[fd.p];
      k.(pipes := k.pipes[fd.p := if fd.write then q.(writers := q.writers + 1) else q.(readers := q.readers + 1)])
  }

  function SetFd(k: Kernel, t: nat, i: nat, fd: Fd): Kernel
    requires t < |k.tasks| && i < |k.tasks[t].fds|
  {
    k.(tasks := k.tasks[t := k.tasks[t].(fds := k.tasks[t].fds[i := fd])])
  }

  /** Put a copy of a descriptor over entry i of task t: drop what was there, copy, count the copy. */
  function Assign(k: Kernel, t: nat, i: nat, fd: Fd): Kernel
    requires t < |k.tasks| && i < |k.tasks[t].fds|
  {
    Share(SetFd(Unshare(k, k.tasks[t].fds[i]), t, i, fd), fd)
  }

  function CountFds(fds: seq<Fd>, fd: Fd): nat {
    if fds == [] then 0 else (if fds[0] == fd then 1 else 0) + CountFds(fds[1..], fd)
  }

  /** How many entries, over all tables, name this pipe end. */
  function CountEnds(tasks: seq<Task>, fd: Fd): nat {
    if tasks == [] then 0 else CountFds(tasks[0].fds, fd) + CountEnds(tasks[1..], fd)
  }

  lemma CountFdsUpdate(fds: seq<Fd>, i: nat, x: Fd, fd: Fd)
    requires i < |fds|
    ensures CountFds(fds[i := x], fd) == CountFds(fds, fd) - (if fds[i] == fd then 1 else 0) + (if x == fd then 1 else 0)
  {
    if i > 0 {
      assert fds[i := x][1..] == fds[1..][i - 1 := x];
      CountFdsUpdate(fds[1..], i - 1, x, fd);
    } else {
      assert fds[i := x][1..] == fds[1..];
    }
  }

  lemma CountEndsUpdate(tasks: seq<Task>, t: nat, x: Task, fd: Fd)
    requires t < |tasks|
    ensures CountEnds(tasks[t := x], fd) == CountEnds(tasks, fd) - CountFds(tasks[t].fds, fd) + CountFds(x.fds, fd)
  {
    if t > 0 {
      assert tasks[t := x][1..] == tasks[1..][t - 1 := x];
      CountEndsUpdate(tasks[1..], t - 1, x, fd);
    } else {
      assert tasks[t := x][1..] == tasks[1..];
    }
  }

  lemma CountEndsSame(tasks: seq<Task>, tasks2: seq<Task>, fd: Fd)
    requires |tasks2| == |tasks| && forall u :: 0 <= u < |tasks| ==> tasks2[u].fds == tasks[u].fds
    ensures CountEnds(tasks2, fd) == CountEnds(tasks, fd)
  {
    if tasks != [] {
      CountEndsSame(tasks[1..], tasks2[1..], fd);
    }
  }

  lemma CountFdsPositive(fds: seq<Fd>, i: nat)
    requires i < |fds|
    ensures CountFds(fds, fds[i]) > 0
  {
    if i > 0 { CountFdsPositive(fds[1..], i - 1); }
  }

  lemma CountEndsAtLeast(tasks: seq<Task>, t: nat, fd: Fd)
    requires t < |tasks|
    ensures CountEnds(tasks, fd) >= CountFds(tasks[t].fds, fd)
  {
    if t > 0 { CountEndsAtLeast(tasks[1..], t - 1, fd); }
  }

  // ---------------------------------------------------------------- what every step keeps

  /** Counts are the number of descriptors, and a pipe is open exactly while somebody counts. */
  ghost predicate PipeCounts(k: Kernel, p: nat)
    requires p < |k.pipes|
  {
    var extra := if p in k.leaked then 1 else 0;
    && k.pipes[p].readers == CountEnds(k.tasks, End(p, false)) + extra
    && k.pipes[p].writers == CountEnds(k.tasks, End(p, true)) + extra
    && (k.pipes[p].open <==> k.pipes[p].readers > 0 || k.pipes[p].writers > 0)
  }

  ghost predicate Counts(k: Kernel) {
    && (forall p: nat :: p < |k.pipes| ==> PipeCounts(k, p))
    && (forall t, i :: 0 <= t < |k.tasks| && 0 <= i < |k.tasks[t].fds| && k.tasks[t].fds[i].End? ==> k.tasks[t].fds[i].p < |k.pipes| && k.tasks[t].fds[i].p !in k.leaked)
  }

  ghost predicate AllClosed(fds: seq<Fd>) {
    forall i :: 0 <= i < |fds| ==> fds[i] == Closed
  }

  /** A slot nobody uses, or whose task is over, holds no descriptor; `but` is excepted while it closes its own. */
  ghost predicate DeadClosed(tasks: seq<Task>, but: int) {
    forall t :: 0 <= t < |tasks| && t != but && tasks[t].st in {Free, Zombie} ==> AllClosed(tasks[t].fds)
  }

  predicate Alive(x: Task) { x.st in {Ready, Running, Blocked} }

  /** At most one live task is inside a read of a pipe, and at most one inside a write. */
  ghost predicate OneEach(tasks: seq<Task>) {
    forall t, u :: 0 <= t < |tasks| && 0 <= u < |tasks| && t != u && Alive(tasks[t]) && Alive(tasks[u]) ==> !Clash(tasks[t].pc, tasks[u].pc)
  }

  predicate Clash(a: Pc, b: Pc) {
    (a.Reading? && b.Reading? && a.p == b.p) || (a.Writing? && b.Writing? && a.p == b.p)
  }

  /** A blocked pipe task has a reason to be, and the one who can end it knows where to find it. */
  ghost predicate Justified(k: Kernel, t: nat)
    requires t < |k.tasks|
  {
    match k.tasks[t].pc
    case Reading(p, _) =>
      p < |k.pipes| && k.pipes[p].rdWait == Some(t) && k.pipes[p].buf == [] && k.pipes[p].writers > 0
    case Writing(p, _, _) =>
      p < |k.pipes| && k.pipes[p].wrWait == Some(t) && |k.pipes[p].buf| == PIPE_BYTES && k.pipes[p].readers > 0
    case _ => true
  }

  ghost predicate NoLostWake(k: Kernel) {
    forall t :: 0 <= t < |k.tasks| && k.tasks[t].st == Blocked ==> Justified(k, t)
  }

  ghost predicate Fifo(q: Pipe) {
    q.accepted == q.delivered + q.buf && |q.buf| <= PIPE_BYTES
  }

  ghost predicate OneRunning(k: Kernel) {
    k.cur < |k.tasks| && forall t :: 0 <= t < |k.tasks| && k.tasks[t].st == Running ==> t == k.cur
  }

  ghost predicate InvBut(k: Kernel, but: int) {
    && Counts(k) && DeadClosed(k.tasks, but) && OneEach(k.tasks) && NoLostWake(k) && OneRunning(k)
    && (forall p :: 0 <= p < |k.pipes| ==> Fifo(k.pipes[p]))
  }

  ghost predicate Inv(k: Kernel) { InvBut(k, -1) }

  // ---------------------------------------------------------------- moving descriptors about

  /** Dropping a descriptor loses no wake-up: the last writer out wakes the reader, the last reader the writer. */
  lemma UnshareWakes(k: Kernel, fd: Fd)
    requires NoLostWake(k)
    ensures NoLostWake(Unshare(k, fd))
  {
    var k2 := Unshare(k, fd);
    if fd.End? && fd.p < |k.pipes| {
      forall t | 0 <= t < |k2.tasks| && k2.tasks[t].st == Blocked ensures Justified(k2, t) {
        assert Justified(k, t);
      }
    }
  }

  lemma ShareWakes(k: Kernel, fd: Fd)
    requires NoLostWake(k)
    ensures NoLostWake(Share(k, fd))
  {
    var k2 := Share(k, fd);
    forall t | 0 <= t < |k2.tasks| && k2.tasks[t].st == Blocked ensures Justified(k2, t) {
      assert Justified(k, t);
    }
  }

  lemma SetFdWakes(k: Kernel, t: nat, i: nat, fd: Fd)
    requires NoLostWake(k) && t < |k.tasks| && i < |k.tasks[t].fds|
    ensures NoLostWake(SetFd(k, t, i, fd))
  {
    var k2 := SetFd(k, t, i, fd);
    forall u | 0 <= u < |k2.tasks| && k2.tasks[u].st == Blocked ensures Justified(k2, u) {
      assert Justified(k, u);
    }
  }

  lemma AssignWakes(k: Kernel, t: nat, i: nat, fd: Fd)
    requires NoLostWake(k) && t < |k.tasks| && i < |k.tasks[t].fds|
    ensures NoLostWake(Assign(k, t, i, fd))
  {
    hide NoLostWake;
    var k1 := Unshare(k, k.tasks[t].fds[i]);
    UnshareWakes(k, k.tasks[t].fds[i]);
    SetFdWakes(k1, t, i, fd);
    ShareWakes(SetFd(k1, t, i, fd), fd);
  }

  /** Where the copied descriptor is counted besides entry (t, i): it survives the overwriting of that entry. */
  ghost predicate Held(k: Kernel, t: nat, i: nat, fd: Fd)
    requires t < |k.tasks| && i < |k.tasks[t].fds|
  {
    fd.End? ==>
      && fd.p < |k.pipes| && fd.p !in k.leaked
      && CountEnds(k.tasks, fd) > (if k.tasks[t].fds[i] == fd then 1 else 0)
  }

  lemma AssignEnds(k: Kernel, t: nat, i: nat, fd: Fd, e: Fd)
    requires t < |k.tasks| && i < |k.tasks[t].fds|
    ensures CountEnds(Assign(k, t, i, fd).tasks, e) ==
            CountEnds(k.tasks, e) - (if k.tasks[t].fds[i] == e then 1 else 0) + (if fd == e then 1 else 0)
  {
    var old1 := Unshare(k, k.tasks[t].fds[i]).tasks;
    CountEndsSame(k.tasks, old1, e);
    CountEndsUpdate(old1, t, old1[t].(fds := old1[t].fds[i := fd]), e);
    CountFdsUpdate(old1[t].fds, i, fd, e);
  }

  lemma AssignCounts(k: Kernel, t: nat, i: nat, fd: Fd)
    requires Counts(k) && t < |k.tasks| && i < |k.tasks[t].fds| && Held(k, t, i, fd)
    ensures Counts(Assign(k, t, i, fd))
  {
    hide CountEnds, CountFds;
    var k2, old1 := Assign(k, t, i, fd), k.tasks[t].fds[i];
    AssignTables(k, t, i, fd);
    EntryCounted(k, t, i);
    forall p: nat | p < |k2.pipes| ensures PipeCounts(k2, p) {
      assert PipeCounts(k, p);
      AssignEnds(k, t, i, fd, End(p, false));
      AssignEnds(k, t, i, fd, End(p, true));
    }
  }

  lemma EntryCounted(k: Kernel, t: nat, i: nat)
    requires t < |k.tasks| && i < |k.tasks[t].fds|
    ensures CountEnds(k.tasks, k.tasks[t].fds[i]) > 0
  {
    CountFdsPositive(k.tasks[t].fds, i);
    CountEndsAtLeast(k.tasks, t, k.tasks[t].fds[i]);
  }

  predicate SameBytes(q: Pipe, q2: Pipe) {
    q2.buf == q.buf && q2.accepted == q.accepted && q2.delivered == q.delivered
  }

  lemma AssignTables(k: Kernel, t: nat, i: nat, fd: Fd)
    requires t < |k.tasks| && i < |k.tasks[t].fds|
    ensures var k2 := Assign(k, t, i, fd);
            && |k2.tasks| == |k.tasks| && |k2.pipes| == |k.pipes| && k2.leaked == k.leaked && k2.cur == k.cur
            && (forall u :: 0 <= u < |k.tasks| ==> k2.tasks[u].pc == k.tasks[u].pc)
            && (forall u :: 0 <= u < |k.tasks| ==> k2.tasks[u].fds == if u == t then k.tasks[t].fds[i := fd] else k.tasks[u].fds)
            && (forall u :: 0 <= u < |k.tasks| && k2.tasks[u].st != k.tasks[u].st ==> k.tasks[u].st == Blocked && k2.tasks[u].st == Ready)
            && (forall p :: 0 <= p < |k.pipes| ==> SameBytes(k.pipes[p], k2.pipes[p]))
  {
  }

  /** Every step built on Assign keeps everything: close, dup2 and install. */
  lemma AssignKeeps(k: Kernel, t: nat, i: nat, fd: Fd, but: int)
    requires InvBut(k, but) && t < |k.tasks| && i < |k.tasks[t].fds| && Held(k, t, i, fd)
    requires k.tasks[t].st in {Free, Zombie} && t != but ==> fd == Closed
    ensures InvBut(Assign(k, t, i, fd), but)
  {
    hide Assign, Counts, NoLostWake, CountEnds;
    AssignTables(k, t, i, fd);
    AssignCounts(k, t, i, fd);
    AssignWakes(k, t, i, fd);
  }

  /** fd_close_all, from entry i on. */
  function CloseFrom(k: Kernel, t: nat, i: nat): (k2: Kernel)
    requires t < |k.tasks| && i <= |k.tasks[t].fds|
    decreases |k.tasks[t].fds| - i
  {
    if i == |k.tasks[t].fds| then k
    else AssignTables(k, t, i, Closed); CloseFrom(Assign(k, t, i, Closed), t, i + 1)
  }

  lemma {:induction false} CloseKeeps(k: Kernel, t: nat, i: nat)
    requires InvBut(k, t) && t < |k.tasks| && i <= |k.tasks[t].fds|
    requires forall j :: 0 <= j < i ==> k.tasks[t].fds[j] == Closed
    ensures var k2 := CloseFrom(k, t, i);
            && InvBut(k2, t) && |k2.tasks| == |k.tasks| && AllClosed(k2.tasks[t].fds) && k2.cur == k.cur
            && (k.tasks[t].st != Blocked ==> k2.tasks[t].st == k.tasks[t].st)
    decreases |k.tasks[t].fds| - i
  {
    hide InvBut, Assign;
    if i < |k.tasks[t].fds| {
      AssignTables(k, t, i, Closed);
      AssignKeeps(k, t, i, Closed, t);
      CloseKeeps(Assign(k, t, i, Closed), t, i + 1);
    }
  }

  // ---------------------------------------------------------------- life and death

  function SetState(k: Kernel, t: nat, st: TaskState): Kernel
    requires t < |k.tasks|
  {
    k.(tasks := k.tasks[t := k.tasks[t].(st := st)])
  }

  /** exit: a zombie first, then every descriptor closed. */
  function Exit(k: Kernel): Kernel
    requires k.cur < |k.tasks|
  {
    CloseFrom(SetState(k, k.cur, Zombie), k.cur, 0)
  }

  /** reap, for one slot: a killed task dies its death, and a zombie that is not running gives up its slot. */
  function Reap(k: Kernel, t: nat): Kernel
    requires t < |k.tasks|
  {
    var k1 := if k.tasks[t].st == Killed then CloseFrom(SetState(k, t, Zombie), t, 0) else k;
    if t < |k1.tasks| && k1.tasks[t].st == Zombie && t != k1.cur then SetState(k1, t, Free) else k1
  }

  /** Changing a task's state keeps everything, if the new state is not Blocked, Running, or a revival. */
  lemma StateKeeps(k: Kernel, t: nat, st: TaskState, but: int)
    requires InvBut(k, but) && t < |k.tasks| && st in {Zombie, Killed, Free}
    requires st in {Zombie, Free} ==> t == but || AllClosed(k.tasks[t].fds)
    ensures InvBut(SetState(k, t, st), but)
  {
    var k2 := SetState(k, t, st);
    forall e ensures CountEnds(k2.tasks, e) == CountEnds(k.tasks, e) { CountEndsSame(k.tasks, k2.tasks, e); }
    assert Counts(k2) by {
      forall p: nat | p < |k2.pipes| ensures PipeCounts(k2, p) { assert PipeCounts(k, p); }
    }
    assert NoLostWake(k2) by {
      forall u | 0 <= u < |k2.tasks| && k2.tasks[u].st == Blocked ensures Justified(k2, u) { assert Justified(k, u); }
    }
  }

  lemma InvFromBut(k: Kernel, t: nat)
    requires InvBut(k, t) && (t < |k.tasks| ==> AllClosed(k.tasks[t].fds))
    ensures Inv(k)
  {
  }

  lemma InvToBut(k: Kernel, t: nat)
    requires Inv(k)
    ensures InvBut(k, t)
  {
  }

  lemma DieKeeps(k: Kernel, t: nat)
    requires Inv(k) && t < |k.tasks|
    ensures var k2 := CloseFrom(SetState(k, t, Zombie), t, 0);
            Inv(k2) && |k2.tasks| == |k.tasks| && k2.cur == k.cur && k2.tasks[t].st == Zombie && AllClosed(k2.tasks[t].fds)
  {
    hide InvBut, CloseFrom;
    InvToBut(k, t);
    StateKeeps(k, t, Zombie, t);
    CloseKeeps(SetState(k, t, Zombie), t, 0);
    InvFromBut(CloseFrom(SetState(k, t, Zombie), t, 0), t);
  }

  lemma ReapKeeps(k: Kernel, t: nat)
    requires Inv(k) && t < |k.tasks|
    ensures Inv(Reap(k, t))
  {
    hide CloseFrom, Counts, NoLostWake, OneEach;
    if k.tasks[t].st == Killed { DieKeeps(k, t); }
    var k1 := if k.tasks[t].st == Killed then CloseFrom(SetState(k, t, Zombie), t, 0) else k;
    if k1.tasks[t].st == Zombie { StateKeeps(k1, t, Free, -1); }
  }

  function ShareAll(k: Kernel, fds: seq<Fd>): Kernel
    decreases |fds|
  {
    if fds == [] then k else ShareAll(Share(k, fds[0]), fds[1..])
  }

  predicate SameButCounts(q: Pipe, q2: Pipe) {
    q2 == q.(readers := q2.readers, writers := q2.writers)
  }

  lemma {:induction false} ShareAllCounts(k: Kernel, fds: seq<Fd>, p: nat)
    requires p < |k.pipes| && forall i :: 0 <= i < |fds| && fds[i].End? ==> fds[i].p < |k.pipes|
    ensures var k2 := ShareAll(k, fds);
            && k2 == k.(pipes := k2.pipes) && |k2.pipes| == |k.pipes| && SameButCounts(k.pipes[p], k2.pipes[p])
            && k2.pipes[p].readers == k.pipes[p].readers + CountFds(fds, End(p, false))
            && k2.pipes[p].writers == k.pipes[p].writers + CountFds(fds, End(p, true))
    decreases |fds|
  {
    if fds != [] { ShareAllCounts(Share(k, fds[0]), fds[1..], p); }
  }

  /** fork_user into a free slot: the child holds a copy of every descriptor. */
  function Fork(k: Kernel, s: nat): Kernel
    requires s < |k.tasks| && k.cur < |k.tasks|
  {
    var fds := k.tasks[k.cur].fds;
    ShareAll(k.(tasks := k.tasks[s := Task(Ready, false, User, fds)]), fds)
  }

  lemma {:induction false} CountNone(fds: seq<Fd>, p: nat, w: bool)
    requires AllClosed(fds)
    ensures CountFds(fds, End(p, w)) == 0
  {
    if fds != [] {
      assert fds[0] == Closed;
      CountNone(fds[1..], p, w);
    }
  }

  lemma ForkShape(k: Kernel, s: nat)
    requires Counts(k) && s < |k.tasks| && k.cur < |k.tasks|
    ensures var k2 := Fork(k, s);
            && k2.tasks == k.tasks[s := Task(Ready, false, User, k.tasks[k.cur].fds)]
            && k2.leaked == k.leaked && k2.cur == k.cur && |k2.pipes| == |k.pipes|
            && (forall p :: 0 <= p < |k.pipes| ==> SameButCounts(k.pipes[p], k2.pipes[p]))
            && (forall p :: 0 <= p < |k.pipes| ==>
                  && k2.pipes[p].readers == k.pipes[p].readers + CountFds(k.tasks[k.cur].fds, End(p, false))
                  && k2.pipes[p].writers == k.pipes[p].writers + CountFds(k.tasks[k.cur].fds, End(p, true)))
  {
    hide CountFds, PipeCounts;
    var fds := k.tasks[k.cur].fds;
    var k1 := k.(tasks := k.tasks[s := Task(Ready, false, User, fds)]);
    forall p | 0 <= p < |k.pipes|
      ensures var k2 := ShareAll(k1, fds);
              && |k2.pipes| == |k.pipes| && SameButCounts(k.pipes[p], k2.pipes[p])
              && k2.pipes[p].readers == k.pipes[p].readers + CountFds(fds, End(p, false))
              && k2.pipes[p].writers == k.pipes[p].writers + CountFds(fds, End(p, true))
    {
      ShareAllCounts(k1, fds, p);
    }
    ShareAllRest(k1, fds);
  }

  lemma {:induction false} ShareAllRest(k: Kernel, fds: seq<Fd>)
    ensures var k2 := ShareAll(k, fds);
            k2 == k.(pipes := k2.pipes) && |k2.pipes| == |k.pipes|
    decreases |fds|
  {
    if fds != [] { ShareAllRest(Share(k, fds[0]), fds[1..]); }
  }

  lemma ForkCounts(k: Kernel, s: nat)
    requires Counts(k) && s < |k.tasks| && k.cur < |k.tasks| && AllClosed(k.tasks[s].fds)
    ensures Counts(Fork(k, s))
  {
    hide Fork, CountFds, CountEnds;
    var k2, x := Fork(k, s), Task(Ready, false, User, k.tasks[k.cur].fds);
    ForkShape(k, s);
    forall p: nat | p < |k2.pipes| ensures PipeCounts(k2, p) {
      assert PipeCounts(k, p);
      forall w: bool ensures CountEnds(k2.tasks, End(p, w)) == CountEnds(k.tasks, End(p, w)) + CountFds(x.fds, End(p, w)) {
        CountEndsUpdate(k.tasks, s, x, End(p, w));
        CountNone(k.tasks[s].fds, p, w);
      }
      CountEndsAtLeast(k.tasks, k.cur, End(p, false));
      CountEndsAtLeast(k.tasks, k.cur, End(p, true));
    }
  }

  lemma ForkKeeps(k: Kernel, s: nat)
    requires Inv(k) && s < |k.tasks| && k.tasks[s].st == Free && k.tasks[k.cur].st == Running
    ensures Inv(Fork(k, s))
  {
    hide Fork, Counts;
    var k2 := Fork(k, s);
    ForkShape(k, s);
    ForkCounts(k, s);
    forall u | 0 <= u < |k2.tasks| && k2.tasks[u].st == Blocked ensures Justified(k2, u) { assert Justified(k, u); }
  }

  // ---------------------------------------------------------------- making a pipe

  /** The first entry from i on that is free, or the length of the table. */
  function NextClosed(fds: seq<Fd>, i: nat): (r: nat)
    requires i <= |fds|
    ensures i <= r <= |fds| && (r < |fds| ==> fds[r] == Closed)
    ensures forall j :: i <= j < r ==> fds[j] != Closed
    decreases |fds| - i
  {
    if i == |fds| || fds[i] == Closed then i else NextClosed(fds, i + 1)
  }

  function NextShut(pipes: seq<Pipe>, i: nat): (r: nat)
    requires i <= |pipes|
    ensures i <= r <= |pipes| && (r < |pipes| ==> !pipes[r].open)
    ensures forall j :: i <= j < r ==> pipes[j].open
    decreases |pipes| - i
  {
    if i == |pipes| || !pipes[i].open then i else NextShut(pipes, i + 1)
  }

  function FreshPipe(): Pipe { Pipe(true, [], 1, 1, None, None, [], []) }

  function ReadSlot(fds: seq<Fd>): nat { NextClosed(fds, 0) }

  function WriteSlot(fds: seq<Fd>): nat { if ReadSlot(fds) < |fds| then NextClosed(fds, ReadSlot(fds) + 1) else |fds| }

  /** pipe(): the buffer is taken and counted before the descriptors are looked for. */
  function MakePipe(k: Kernel): (Kernel, bool)
    requires k.cur < |k.tasks|
  {
    var p, me := NextShut(k.pipes, 0), k.tasks[k.cur];
    if p == |k.pipes| then (k, false)
    else
      var pipes, r, w := k.pipes[p := FreshPipe()], ReadSlot(me.fds), WriteSlot(me.fds);
      if w == |me.fds| then (k.(pipes := pipes, leaked := k.leaked + {p}), false)
      else (k.(pipes := pipes, tasks := k.tasks[k.cur := me.(fds := me.fds[r := End(p, false)][w := End(p, true)])]), true)
  }

  /** A pipe that is not open has no descriptor, no leak, and nobody parked on it. */
  lemma ShutPipe(k: Kernel, p: nat)
    requires Inv(k) && p < |k.pipes| && !k.pipes[p].open
    ensures p !in k.leaked && CountEnds(k.tasks, End(p, false)) == 0 && CountEnds(k.tasks, End(p, true)) == 0
    ensures forall t :: 0 <= t < |k.tasks| && k.tasks[t].st == Blocked ==> !AtPipe(k.tasks[t].pc, p)
  {
    assert PipeCounts(k, p);
    forall t | 0 <= t < |k.tasks| && k.tasks[t].st == Blocked ensures !AtPipe(k.tasks[t].pc, p) { assert Justified(k, t); }
  }

  predicate AtPipe(pc: Pc, p: nat) { (pc.Reading? || pc.Writing?) && pc.p == p }

  lemma MakeCounts(k: Kernel)
    requires Inv(k)
    ensures Counts(MakePipe(k).0)
  {
    hide CountEnds, CountFds, NoLostWake, OneEach, DeadClosed;
    var p, me, k2 := NextShut(k.pipes, 0), k.tasks[k.cur], MakePipe(k).0;
    if p < |k.pipes| {
      ShutPipe(k, p);
      var r, w := ReadSlot(me.fds), WriteSlot(me.fds);
      forall q: nat | q < |k2.pipes| ensures PipeCounts(k2, q) {
        assert PipeCounts(k, q);
        if w < |me.fds| {
          var x := me.(fds := me.fds[r := End(p, false)][w := End(p, true)]);
          forall e: Fd | e.End?
            ensures CountEnds(k2.tasks, e) == CountEnds(k.tasks, e) + (if e == End(p, false) then 1 else 0) + (if e == End(p, true) then 1 else 0)
          {
            CountEndsUpdate(k.tasks, k.cur, x, e);
            CountFdsUpdate(me.fds, r, End(p, false), e);
            CountFdsUpdate(me.fds[r := End(p, false)], w, End(p, true), e);
          }
        }
      }
      NotNamed(k, p);
    }
  }

  /** A pipe no count knows is named by no descriptor. */
  lemma NotNamed(k: Kernel, p: nat)
    requires CountEnds(k.tasks, End(p, false)) == 0 && CountEnds(k.tasks, End(p, true)) == 0
    ensures forall t, i :: 0 <= t < |k.tasks| && 0 <= i < |k.tasks[t].fds| && k.tasks[t].fds[i].End? ==> k.tasks[t].fds[i].p != p
  {
    forall t, i | 0 <= t < |k.tasks| && 0 <= i < |k.tasks[t].fds| && k.tasks[t].fds[i].End? ensures k.tasks[t].fds[i].p != p {
      EntryCounted(k, t, i);
    }
  }

  lemma MakeKeeps(k: Kernel)
    requires Inv(k) && k.tasks[k.cur].st == Running
    ensures Inv(MakePipe(k).0)
  {
    hide CountEnds, Counts;
    var p, k2 := NextShut(k.pipes, 0), MakePipe(k).0;
    MakeCounts(k);
    if p < |k.pipes| {
      ShutPipe(k, p);
      forall u | 0 <= u < |k2.tasks| && k2.tasks[u].st == Blocked ensures Justified(k2, u) { assert Justified(k, u); }
    }
  }

  // ---------------------------------------------------------------- reading and writing

  function Min(a: nat, b: nat): nat { if a < b then a else b }

  /** Where a call stands: parked, or back with its result. */
  datatype Outcome = Parked | Returned(value: int)

  function SetTask(k: Kernel, t: nat, x: Task): Kernel
    requires t < |k.tasks|
  {
    k.(tasks := k.tasks[t := x])
  }

  function SetPipe(k: Kernel, p: nat, q: Pipe): Kernel
    requires p < |k.pipes|
  {
    k.(pipes := k.pipes[p := q])
  }

  /** pipe_rd of the current task, from the test of its loop to the next park or to the return. */
  function Read(k: Kernel, p: nat, len: nat): (Kernel, Outcome)
    requires k.cur < |k.tasks| && p < |k.pipes|
  {
    var q, me := k.pipes[p], k.tasks[k.cur];
    if q.buf == [] && q.writers != 0 then
      (SetPipe(SetTask(k, k.cur, me.(st := Blocked, wake := false, pc := Reading(p, len))), p, q.(rdWait := Some(k.cur))), Parked)
    else if q.buf == [] then (SetTask(k, k.cur, me.(pc := User)), Returned(0))
    else
      var n := Min(len, |q.buf|);
      var k1 := SetTask(k, k.cur, me.(pc := User));
      (SetPipe(k1.(tasks := Wake(k1.tasks, q.wrWait)), p,
               q.(buf := q.buf[n..], delivered := q.delivered + q.buf[..n], wrWait := None)), Returned(n))
  }

  /** The first n bytes of `data` are in the ring, and a parked reader has been told. */
  function Filled(k: Kernel, p: nat, data: seq<byte>, n: nat): Kernel
    requires p < |k.pipes| && n <= |data|
  {
    var q := k.pipes[p];
    if n == 0 then k
    else k.(tasks := Wake(k.tasks, q.rdWait),
            pipes := k.pipes[p := q.(buf := q.buf + data[..n], accepted := q.accepted + data[..n], rdWait := None)])
  }

  function Fits(k: Kernel, p: nat, data: seq<byte>): (n: nat)
    requires p < |k.pipes|
    ensures n <= |data|
  {
    Min(|data|, if |k.pipes[p].buf| < PIPE_BYTES then PIPE_BYTES - |k.pipes[p].buf| else 0)
  }

  /** pipe_wr likewise, with `put` bytes in before a park: bytes go in while there is room, then it parks, fails or returns. */
  function Write(k: Kernel, p: nat, data: seq<byte>, put: nat): (Kernel, Outcome)
    requires k.cur < |k.tasks| && p < |k.pipes|
  {
    var n := Fits(k, p, data);
    var k1 := Filled(k, p, data, n);
    var q, me := k1.pipes[p], k1.tasks[k1.cur];
    if n == |data| then (SetTask(k1, k1.cur, me.(pc := User)), Returned(put + n))
    else if q.readers != 0 then
      (SetPipe(SetTask(k1, k1.cur, me.(st := Blocked, wake := false, pc := Writing(p, data[n..], put + n))), p, q.(wrWait := Some(k1.cur))), Parked)
    else (SetTask(k1, k1.cur, me.(pc := User)), Returned(-1))
  }

  /** What a task does first when it runs again after a park: its wake-up is spent and the slot is given up. */
  function Woken(k: Kernel): Kernel
    requires k.cur < |k.tasks|
  {
    var me := k.tasks[k.cur];
    var k1 := SetTask(k, k.cur, me.(wake := false));
    match me.pc
    case Reading(p, _) => if p < |k.pipes| then SetPipe(k1, p, k.pipes[p].(rdWait := None)) else k1
    case Writing(p, _, _) => if p < |k.pipes| then SetPipe(k1, p, k.pipes[p].(wrWait := None)) else k1
    case _ => k1
  }

  /** Nobody else who is alive is inside the same call on the same pipe. */
  ghost predicate Alone(k: Kernel, pc: Pc)
    requires k.cur < |k.tasks|
  {
    forall t :: 0 <= t < |k.tasks| && t != k.cur && Alive(k.tasks[t]) ==> !Clash(k.tasks[t].pc, pc)
  }

  lemma SameCounts(k: Kernel, k2: Kernel)
    requires Counts(k) && |k2.tasks| == |k.tasks| && |k2.pipes| == |k.pipes| && k2.leaked == k.leaked
    requires forall u :: 0 <= u < |k.tasks| ==> k2.tasks[u].fds == k.tasks[u].fds
    requires forall p :: 0 <= p < |k.pipes| ==> k2.pipes[p].open == k.pipes[p].open && k2.pipes[p].readers == k.pipes[p].readers && k2.pipes[p].writers == k.pipes[p].writers
    ensures Counts(k2)
  {
    hide CountEnds;
    forall p: nat | p < |k2.pipes| ensures PipeCounts(k2, p) {
      assert PipeCounts(k, p);
      CountEndsSame(k.tasks, k2.tasks, End(p, false));
      CountEndsSame(k.tasks, k2.tasks, End(p, true));
    }
  }

  /** Everything but the counts and the wake-ups: the current task moved, the bytes of one pipe moved. */
  ghost predicate Moved(k: Kernel, k2: Kernel, pc: Pc) {
    && |k2.tasks| == |k.tasks| && |k2.pipes| == |k.pipes| && k2.leaked == k.leaked && k2.cur == k.cur < |k.tasks|
    && (forall u :: 0 <= u < |k.tasks| ==> k2.tasks[u].fds == k.tasks[u].fds)
    && (forall u :: 0 <= u < |k.tasks| && u != k.cur ==> k2.tasks[u].pc == k.tasks[u].pc)
    && (forall u :: 0 <= u < |k.tasks| && u != k.cur && k2.tasks[u].st != k.tasks[u].st ==> k.tasks[u].st == Blocked && k2.tasks[u].st == Ready)
    && k2.tasks[k.cur].st in {Running, Blocked, Ready}
    && (k2.tasks[k.cur].pc == User || Similar(k2.tasks[k.cur].pc, pc))
    && (forall p :: 0 <= p < |k.pipes| ==> k2.pipes[p].open == k.pipes[p].open && k2.pipes[p].readers == k.pipes[p].readers && k2.pipes[p].writers == k.pipes[p].writers)
  }

  predicate Similar(a: Pc, b: Pc) {
    (a.Reading? && b.Reading? && a.p == b.p) || (a.Writing? && b.Writing? && a.p == b.p) || a == b
  }

  lemma MovedKeeps(k: Kernel, k2: Kernel, pc: Pc)
    requires Inv(k) && k.tasks[k.cur].st == Running && Alone(k, pc) && Moved(k, k2, pc)
    requires NoLostWake(k2) && forall p :: 0 <= p < |k2.pipes| ==> Fifo(k2.pipes[p])
    ensures Inv(k2)
  {
    hide Counts, CountEnds, NoLostWake, Fifo;
    SameCounts(k, k2);
    assert OneEach(k2.tasks) by { MovedOneEach(k, k2, pc); }
  }

  lemma MovedOneEach(k: Kernel, k2: Kernel, pc: Pc)
    requires OneEach(k.tasks) && k.cur < |k.tasks| && k.tasks[k.cur].st == Running && Alone(k, pc) && Moved(k, k2, pc)
    ensures OneEach(k2.tasks)
  {
    forall t, u | 0 <= t < |k2.tasks| && 0 <= u < |k2.tasks| && t != u && Alive(k2.tasks[t]) && Alive(k2.tasks[u])
      ensures !Clash(k2.tasks[t].pc, k2.tasks[u].pc)
    {
      if t == k.cur { assert Alive(k.tasks[u]); } else if u == k.cur { assert Alive(k.tasks[t]); } else { assert Alive(k.tasks[t]) && Alive(k.tasks[u]); }
    }
  }

  lemma ReadWakes(k: Kernel, p: nat, len: nat)
    requires Inv(k) && p < |k.pipes| && k.tasks[k.cur].st == Running && Alone(k, Reading(p, len))
    ensures NoLostWake(Read(k, p, len).0)
  {
    hide Counts, CountEnds, OneEach, DeadClosed;
    var k2 := Read(k, p, len).0;
    WritersCount(k, p);
    forall u | 0 <= u < |k2.tasks| && k2.tasks[u].st == Blocked ensures Justified(k2, u) {
      if u != k.cur { assert Justified(k, u); }
    }
  }

  lemma ReadKeeps(k: Kernel, p: nat, len: nat)
    requires Inv(k) && p < |k.pipes| && k.tasks[k.cur].st == Running && Alone(k, Reading(p, len))
    ensures Inv(Read(k, p, len).0)
  {
    hide Counts, NoLostWake, OneEach, DeadClosed, Alone;
    ReadWakes(k, p, len);
    var k2 := Read(k, p, len).0;
    assert Moved(k, k2, Reading(p, len));
    forall q | 0 <= q < |k2.pipes| ensures Fifo(k2.pipes[q]) { assert Fifo(k.pipes[q]); }
    MovedKeeps(k, k2, Reading(p, len));
  }

  lemma WritersCount(k: Kernel, p: nat)
    requires Counts(k) && p < |k.pipes|
    ensures k.pipes[p].writers >= 0 && k.pipes[p].readers >= 0
  {
    assert PipeCounts(k, p);
  }

  lemma WriteWakes(k: Kernel, p: nat, data: seq<byte>, put: nat)
    requires Inv(k) && p < |k.pipes| && k.tasks[k.cur].st == Running && Alone(k, Writing(p, data, put))
    ensures NoLostWake(Write(k, p, data, put).0)
  {
    hide Counts, CountEnds, OneEach, DeadClosed;
    var k2 := Write(k, p, data, put).0;
    WritersCount(k, p);
    forall u | 0 <= u < |k2.tasks| && k2.tasks[u].st == Blocked ensures Justified(k2, u) {
      if u != k.cur { assert Justified(k, u); }
    }
  }

  lemma WriteMoves(k: Kernel, p: nat, data: seq<byte>, put: nat)
    requires k.cur < |k.tasks| && p < |k.pipes| && k.tasks[k.cur].st == Running
    ensures Moved(k, Write(k, p, data, put).0, Writing(p, data, put))
  {
  }

  /** What a write puts in, it puts behind what was accepted before. */
  lemma WriteFifo(k: Kernel, p: nat, data: seq<byte>, put: nat, q: nat)
    requires k.cur < |k.tasks| && p < |k.pipes| && q < |k.pipes| && Fifo(k.pipes[q])
    ensures |Write(k, p, data, put).0.pipes| == |k.pipes| && Fifo(Write(k, p, data, put).0.pipes[q])
  {
  }

  lemma WriteKeeps(k: Kernel, p: nat, data: seq<byte>, put: nat)
    requires Inv(k) && p < |k.pipes| && k.tasks[k.cur].st == Running && Alone(k, Writing(p, data, put))
    ensures Inv(Write(k, p, data, put).0)
  {
    hide Counts, NoLostWake, OneEach, DeadClosed, Alone, Moved, Write, Fifo;
    WriteWakes(k, p, data, put);
    var k2 := Write(k, p, data, put).0;
    WriteMoves(k, p, data, put);
    WriteFifo(k, p, data, put, p);
    forall q | 0 <= q < |k2.pipes| ensures Fifo(k2.pipes[q]) { WriteFifo(k, p, data, put, q); }
    MovedKeeps(k, k2, Writing(p, data, put));
  }

  lemma WokenKeeps(k: Kernel)
    requires Inv(k) && k.tasks[k.cur].st == Running
    ensures Inv(Woken(k)) && Woken(k).tasks[k.cur].st == Running && Woken(k).cur == k.cur && |Woken(k).pipes| == |k.pipes|
    ensures Woken(k).tasks[k.cur].pc == k.tasks[k.cur].pc && Alone(Woken(k), k.tasks[k.cur].pc)
  {
    hide Counts, CountEnds, DeadClosed;
    var k2 := Woken(k);
    assert NoLostWake(k2) by { WokenWakes(k); }
    assert Alone(k, k.tasks[k.cur].pc);
    MovedKeeps(k, k2, k.tasks[k.cur].pc);
  }

  lemma WokenWakes(k: Kernel)
    requires Inv(k) && k.tasks[k.cur].st == Running
    ensures NoLostWake(Woken(k))
  {
    hide Counts, CountEnds, DeadClosed;
    var k2 := Woken(k);
    forall u | 0 <= u < |k2.tasks| && k2.tasks[u].st == Blocked ensures Justified(k2, u) {
      assert Justified(k, u);
      assert !Clash(k.tasks[u].pc, k.tasks[k.cur].pc);
    }
  }

  // ---------------------------------------------------------------- the steps

  datatype Op =
    | OpRead(fd: nat, len: nat)
    | OpWrite(fd: nat, data: seq<byte>)
    | OpResume
    | OpPipe
    | OpOpen(fd: nat)
    | OpClose(fd: nat)
    | OpDup2(from: nat, onto: nat)
    | OpInstall(into: nat, child: nat, from: nat)
    | OpFork(slot: nat)
    | OpExit
    | OpKill(t: nat)
    | OpReap(t: nat)
    | OpSwitch(t: nat)
    | OpNudge(t: nat)
    | OpWait

  /** The current task is running user code, so it may make a call. */
  predicate Calls(k: Kernel) {
    k.cur < |k.tasks| && k.tasks[k.cur].st == Running && k.tasks[k.cur].pc == User
  }

  predicate HasFd(k: Kernel, t: nat, i: nat) { t < |k.tasks| && i < |k.tasks[t].fds| }

  predicate IsEnd(k: Kernel, i: nat) { HasFd(k, k.cur, i) && k.tasks[k.cur].fds[i].End? && k.tasks[k.cur].fds[i].p < |k.pipes| }

  ghost predicate Enabled(k: Kernel, op: Op) {
    match op
    case OpRead(fd, len) => Calls(k) && IsEnd(k, fd) && Alone(k, Reading(k.tasks[k.cur].fds[fd].p, len))
    case OpWrite(fd, data) => Calls(k) && IsEnd(k, fd) && Alone(k, Writing(k.tasks[k.cur].fds[fd].p, data, 0))
    case OpResume => k.cur < |k.tasks| && k.tasks[k.cur].st == Running && k.tasks[k.cur].pc != User
    case OpPipe => Calls(k)
    case OpOpen(fd) => Calls(k) && HasFd(k, k.cur, fd) && k.tasks[k.cur].fds[fd] == Closed
    case OpClose(fd) => Calls(k) && HasFd(k, k.cur, fd)
    case OpDup2(o, n) => Calls(k) && HasFd(k, k.cur, o) && HasFd(k, k.cur, n)
    case OpInstall(t, c, f) =>
      Calls(k) && HasFd(k, k.cur, f) && HasFd(k, t, c) && k.tasks[k.cur].fds[f] != Closed
      && k.tasks[t].st !in {Free, Zombie} && !(t == k.cur && c == f)
    case OpFork(s) => Calls(k) && s < |k.tasks| && k.tasks[s].st == Free
    case OpExit => Calls(k)
    case OpKill(t) => t < |k.tasks| && Alive(k.tasks[t])
    case OpReap(t) => t < |k.tasks|
    case OpSwitch(t) => t < |k.tasks| && k.cur < |k.tasks| && k.tasks[t].st == Ready
    case OpNudge(t) => t < |k.tasks|
    case OpWait => Calls(k)
  }

  function Switch(k: Kernel, t: nat): Kernel
    requires t < |k.tasks| && k.cur < |k.tasks|
  {
    var k1 := if k.tasks[k.cur].st == Running then SetState(k, k.cur, Ready) else k;
    SetState(k1, t, Running).(cur := t)
  }

  /** Some other wait of the kernel: sleep, wait, keyboard. */
  function Park(k: Kernel): Kernel
    requires k.cur < |k.tasks|
  {
    SetTask(k, k.cur, k.tasks[k.cur].(st := Blocked, wake := false, pc := Elsewhere))
  }

  function Resume(k: Kernel): Kernel
    requires k.cur < |k.tasks|
  {
    var k1 := Woken(k);
    match k.tasks[k.cur].pc
    case Reading(p, len) => if p < |k1.pipes| then Read(k1, p, len).0 else k1
    case Writing(p, data, put) => if p < |k1.pipes| then Write(k1, p, data, put).0 else k1
    case _ => SetTask(k1, k.cur, k1.tasks[k.cur].(pc := User))
  }

  ghost function Step(k: Kernel, op: Op): Kernel
    requires Enabled(k, op)
  {
    match op
    case OpRead(fd, len) => Read(k, k.tasks[k.cur].fds[fd].p, len).0
    case OpWrite(fd, data) => Write(k, k.tasks[k.cur].fds[fd].p, data, 0).0
    case OpResume => Resume(k)
    case OpPipe => MakePipe(k).0
    case OpOpen(fd) => SetFd(k, k.cur, fd, Other)
    case OpClose(fd) => Assign(k, k.cur, fd, Closed)
    case OpDup2(o, n) => if o == n then k else Assign(k, k.cur, n, k.tasks[k.cur].fds[o])
    case OpInstall(t, c, f) => Assign(k, t, c, k.tasks[k.cur].fds[f])
    case OpFork(s) => Fork(k, s)
    case OpExit => Exit(k)
    case OpKill(t) => SetState(k, t, Killed)
    case OpReap(t) => Reap(k, t)
    case OpSwitch(t) => Switch(k, t)
    case OpNudge(t) => k.(tasks := Unblock(k.tasks, t))
    case OpWait => Park(k)
  }

  lemma SwitchKeeps(k: Kernel, t: nat)
    requires Inv(k) && t < |k.tasks| && k.tasks[t].st == Ready
    ensures Inv(Switch(k, t))
  {
    hide Counts, CountEnds;
    var k2 := Switch(k, t);
    SameCounts(k, k2);
    forall u | 0 <= u < |k2.tasks| && k2.tasks[u].st == Blocked ensures Justified(k2, u) { assert Justified(k, u); }
    forall u | 0 <= u < |k2.tasks| && Alive(k2.tasks[u]) ensures Alive(k.tasks[u]) && k2.tasks[u].pc == k.tasks[u].pc {}
  }

  lemma NudgeKeeps(k: Kernel, t: nat)
    requires Inv(k) && t < |k.tasks|
    ensures Inv(k.(tasks := Unblock(k.tasks, t)))
  {
    hide Counts, CountEnds;
    var k2 := k.(tasks := Unblock(k.tasks, t));
    SameCounts(k, k2);
    forall u | 0 <= u < |k2.tasks| && k2.tasks[u].st == Blocked ensures Justified(k2, u) { assert Justified(k, u); }
    forall u | 0 <= u < |k2.tasks| && Alive(k2.tasks[u]) ensures Alive(k.tasks[u]) && k2.tasks[u].pc == k.tasks[u].pc {}
  }

  /** A step of the current task alone, to a place that clashes with nobody. */
  lemma AlonePc(k: Kernel, k2: Kernel, pc: Pc)
    requires Inv(k) && k.tasks[k.cur].st == Running && pc in {User, Elsewhere}
    requires |k2.tasks| == |k.tasks| && k2.tasks == k.tasks[k.cur := k2.tasks[k.cur]]
    requires k2 == k.(tasks := k2.tasks) && k2.tasks[k.cur].fds == k.tasks[k.cur].fds && k2.tasks[k.cur].pc == pc
    requires k2.tasks[k.cur].st in {Running, Blocked}
    ensures Inv(k2)
  {
    hide Counts, CountEnds;
    forall u | 0 <= u < |k2.tasks| && k2.tasks[u].st == Blocked ensures Justified(k2, u) {
      if u != k.cur { assert Justified(k, u); }
    }
    MovedKeeps(k, k2, pc);
  }

  lemma ResumeKeeps(k: Kernel)
    requires Inv(k) && k.tasks[k.cur].st == Running
    ensures Inv(Resume(k))
  {
    hide InvBut, Read, Write, Woken, OneRunning;
    InvParts(k);
    WokenKeeps(k);
    InvParts(Woken(k));
    var k1 := Woken(k);
    match k.tasks[k.cur].pc
    case Reading(p, len) => if p < |k1.pipes| { ReadKeeps(k1, p, len); }
    case Writing(p, data, put) => if p < |k1.pipes| { WriteKeeps(k1, p, data, put); }
    case _ => AlonePc(k1, SetTask(k1, k.cur, k1.tasks[k.cur].(pc := User)), User);
  }

  lemma OpenKeeps(k: Kernel, fd: nat)
    requires Inv(k) && Enabled(k, OpOpen(fd))
    ensures Inv(SetFd(k, k.cur, fd, Other))
  {
    hide CountEnds, CountFds;
    assert SetFd(k, k.cur, fd, Other) == Assign(k, k.cur, fd, Other);
    AssignKeeps(k, k.cur, fd, Other, -1);
  }

  /** A descriptor of the current task survives a copy over any other entry. */
  lemma CopyHeld(k: Kernel, f: nat, t: nat, i: nat)
    requires Counts(k) && HasFd(k, k.cur, f) && HasFd(k, t, i) && !(t == k.cur && i == f)
    ensures Held(k, t, i, k.tasks[k.cur].fds[f])
  {
    var fd := k.tasks[k.cur].fds[f];
    EntryCounted(k, k.cur, f);
    if fd.End? && k.tasks[t].fds[i] == fd { TwoEntries(k.tasks, k.cur, f, t, i); }
  }

  lemma TwoEntries(tasks: seq<Task>, t: nat, f: nat, u: nat, i: nat)
    requires t < |tasks| && u < |tasks| && f < |tasks[t].fds| && i < |tasks[u].fds| && !(t == u && f == i)
    requires tasks[t].fds[f] == tasks[u].fds[i] && tasks[u].fds[i] != Closed
    ensures CountEnds(tasks, tasks[t].fds[f]) >= 2
  {
    var fd := tasks[t].fds[f];
    var x := tasks[u].(fds := tasks[u].fds[i := Closed]);
    CountEndsUpdate(tasks, u, x, fd);
    CountFdsUpdate(tasks[u].fds, i, Closed, fd);
    var less := tasks[u := x];
    assert less[t].fds[f] == fd;
    CountFdsPositive(less[t].fds, f);
    CountEndsAtLeast(less, t, fd);
  }

  lemma StepKeeps(k: Kernel, op: Op)
    requires Inv(k) && Enabled(k, op)
    ensures Inv(Step(k, op))
  {
    hide InvBut, Read, Write, Assign, Fork, CloseFrom, Switch, Unblock, MakePipe, Alone, Resume, Reap, Counts, Held;
    assert k.cur < |k.tasks| && Counts(k) by { InvParts(k); }
    match op
    case OpRead(fd, len) => ReadKeeps(k, k.tasks[k.cur].fds[fd].p, len);
    case OpWrite(fd, data) => WriteKeeps(k, k.tasks[k.cur].fds[fd].p, data, 0);
    case OpResume => ResumeKeeps(k);
    case OpPipe => MakeKeeps(k);
    case OpOpen(fd) => OpenKeeps(k, fd);
    case OpClose(fd) => ClosedHeld(k, k.cur, fd); AssignKeeps(k, k.cur, fd, Closed, -1);
    case OpDup2(o, n) => if o != n { CopyHeld(k, o, k.cur, n); AssignKeeps(k, k.cur, n, k.tasks[k.cur].fds[o], -1); }
    case OpInstall(t, c, f) => CopyHeld(k, f, t, c); AssignKeeps(k, t, c, k.tasks[k.cur].fds[f], -1);
    case OpFork(s) => ForkKeeps(k, s);
    case OpExit => DieKeeps(k, k.cur);
    case OpKill(t) => StateKeeps(k, t, Killed, -1);
    case OpReap(t) => ReapKeeps(k, t);
    case OpSwitch(t) => SwitchKeeps(k, t);
    case OpNudge(t) => NudgeKeeps(k, t);
    case OpWait => AlonePc(k, Park(k), Elsewhere);
  }

  lemma InvParts(k: Kernel)
    requires Inv(k)
    ensures k.cur < |k.tasks| && Counts(k)
  {
  }

  lemma ClosedHeld(k: Kernel, t: nat, i: nat)
    requires HasFd(k, t, i)
    ensures Held(k, t, i, Closed)
  {
  }

  ghost predicate Runs(k: Kernel, ops: seq<Op>)
    decreases |ops|
  {
    ops == [] || (Enabled(k, ops[0]) && Runs(Step(k, ops[0]), ops[1..]))
  }

  ghost function Run(k: Kernel, ops: seq<Op>): Kernel
    requires Runs(k, ops)
    decreases |ops|
  {
    if ops == [] then k else Run(Step(k, ops[0]), ops[1..])
  }

  /** What holds in every reachable state, whatever the interleaving. */
  lemma {:induction false} RunKeeps(k: Kernel, ops: seq<Op>)
    requires Inv(k) && Runs(k, ops)
    ensures Inv(Run(k, ops))
    decreases |ops|
  {
    hide InvBut, Enabled, Step;
    if ops != [] {
      StepKeeps(k, ops[0]);
      RunKeeps(Step(k, ops[0]), ops[1..]);
    }
  }

  // ---------------------------------------------------------------- what follows in every reachable state

  /** At boot: one running task, no pipe open and none named. */
  lemma Boot(k: Kernel)
    requires k.cur < |k.tasks| && k.leaked == {} && k.tasks[k.cur].st == Running && k.tasks[k.cur].pc == User
    requires forall t, i :: 0 <= t < |k.tasks| && 0 <= i < |k.tasks[t].fds| ==> !k.tasks[t].fds[i].End?
    requires forall t :: 0 <= t < |k.tasks| && t != k.cur ==> k.tasks[t].st == Free && AllClosed(k.tasks[t].fds)
    requires forall p :: 0 <= p < |k.pipes| ==> k.pipes[p] == Pipe(false, [], 0, 0, None, None, [], [])
    ensures Inv(k)
  {
    forall e: Fd | e.End? ensures CountEnds(k.tasks, e) == 0 { NoEnds(k.tasks, e); }
    forall p: nat | p < |k.pipes| ensures PipeCounts(k, p) {}
  }

  lemma {:induction false} NoEnds(tasks: seq<Task>, e: Fd)
    requires e.End? && forall t, i :: 0 <= t < |tasks| && 0 <= i < |tasks[t].fds| ==> tasks[t].fds[i] != e
    ensures CountEnds(tasks, e) == 0
  {
    if tasks != [] {
      NoneIn(tasks[0].fds, e);
      NoEnds(tasks[1..], e);
    }
  }

  lemma {:induction false} NoneIn(fds: seq<Fd>, e: Fd)
    requires forall i :: 0 <= i < |fds| ==> fds[i] != e
    ensures CountFds(fds, e) == 0
  {
    if fds != [] { NoneIn(fds[1..], e); }
  }

  /** A reader and a writer are never both parked on one pipe. */
  lemma NotBothParked(k: Kernel, t: nat, u: nat, p: nat)
    requires Inv(k) && t < |k.tasks| && u < |k.tasks| && k.tasks[t].st == Blocked && k.tasks[u].st == Blocked
    requires k.tasks[t].pc.Reading? && k.tasks[t].pc.p == p
    ensures !(k.tasks[u].pc.Writing? && k.tasks[u].pc.p == p)
  {
    assert Justified(k, t) && Justified(k, u);
  }

  /** A buffer is never handed out again while a descriptor names it, and the clamps at zero never matter. */
  lemma NeverReissued(k: Kernel)
    requires Inv(k)
    ensures forall t, i :: 0 <= t < |k.tasks| && 0 <= i < |k.tasks[t].fds| && k.tasks[t].fds[i].End? ==>
              var e := k.tasks[t].fds[i];
              && e.p != NextShut(k.pipes, 0) && k.pipes[e.p].open
              && (if e.write then k.pipes[e.p].writers > 0 else k.pipes[e.p].readers > 0)
  {
    forall t, i | 0 <= t < |k.tasks| && 0 <= i < |k.tasks[t].fds| && k.tasks[t].fds[i].End?
      ensures var e := k.tasks[t].fds[i];
              && e.p != NextShut(k.pipes, 0) && k.pipes[e.p].open
              && (if e.write then k.pipes[e.p].writers > 0 else k.pipes[e.p].readers > 0)
    {
      EntryCounted(k, t, i);
      assert PipeCounts(k, k.tasks[t].fds[i].p);
    }
  }

  /** A read that returns bytes returns the oldest ones not read yet, in order. */
  lemma ReadDelivers(k: Kernel, p: nat, len: nat)
    requires Inv(k) && p < |k.pipes| && Read(k, p, len).1.Returned?
    ensures var (k2, r) := Read(k, p, len);
            && r.value == (if |k.pipes[p].buf| < len then |k.pipes[p].buf| else len) && k2.pipes[p].accepted == k.pipes[p].accepted
            && |k.pipes[p].delivered| + r.value <= |k.pipes[p].accepted|
            && k2.pipes[p].delivered == k.pipes[p].accepted[..|k.pipes[p].delivered| + r.value]
            && r.value <= |k.pipes[p].buf|
            && k.pipes[p].buf[..r.value] == k.pipes[p].accepted[|k.pipes[p].delivered|..|k.pipes[p].delivered| + r.value]
  {
    var q := k.pipes[p];
    assert Fifo(q);
    var n := Min(len, |q.buf|);
    assert (q.delivered + q.buf)[..|q.delivered| + n] == q.delivered + q.buf[..n];
    assert (q.delivered + q.buf)[..|q.delivered|] == q.delivered;
  }

  /** End of file: a read of something returns nothing exactly when all was read and no write end is left; with one left it parks. */
  lemma EndOfFile(k: Kernel, p: nat, len: nat)
    requires Inv(k) && p < |k.pipes| && len > 0 && p !in k.leaked
    ensures Read(k, p, len).1 == Returned(0) <==>
              k.pipes[p].delivered == k.pipes[p].accepted && CountEnds(k.tasks, End(p, true)) == 0
    ensures Read(k, p, len).1 == Parked <==>
              k.pipes[p].delivered == k.pipes[p].accepted && CountEnds(k.tasks, End(p, true)) > 0
  {
    assert Fifo(k.pipes[p]) && PipeCounts(k, p);
  }

  /** A write puts the next bytes behind those accepted, and reports all of them, also those from before a park. */
  lemma WriteAccepts(k: Kernel, p: nat, data: seq<byte>, put: nat)
    requires k.cur < |k.tasks| && p < |k.pipes|
    ensures var (k2, r) := Write(k, p, data, put);
            var n := |k2.pipes[p].accepted| - |k.pipes[p].accepted|;
            && n == (if |data| <= PIPE_BYTES - |k.pipes[p].buf| then |data| else if |k.pipes[p].buf| < PIPE_BYTES then PIPE_BYTES - |k.pipes[p].buf| else 0)
            && k2.pipes[p].accepted == k.pipes[p].accepted + data[..n]
            && k2.pipes[p].delivered == k.pipes[p].delivered
            && (r.Parked? ==> k2.tasks[k.cur].pc == Writing(p, data[n..], put + n) && n < |data|)
            && (r.Parked? <==> n < |data| && k.pipes[p].readers != 0)
            && (r.Returned? ==> r.value == if n == |data| then put + |data| else -1)
  {
    assert k.pipes[p].accepted + data[..0] == k.pipes[p].accepted;
  }

  // ---------------------------------------------------------------- a second task at the same end

  /** Some run from here, in which no call joins another at its pipe end, ends with a parked task nobody can find. */
  ghost predicate Loses(k: Kernel) { exists ops :: Runs(k, ops) && !NoLostWake(Run(k, ops)) }

  lemma InvNeverLoses(k: Kernel)
    requires Inv(k)
    ensures !Loses(k)
  {
    hide InvBut, NoLostWake, Runs, Run;
    forall ops | Runs(k, ops) ensures NoLostWake(Run(k, ops)) {
      RunKeeps(k, ops);
      InvWakes(Run(k, ops));
    }
  }

  lemma InvWakes(k: Kernel)
    requires Inv(k)
    ensures NoLostWake(k)
  {
  }

  lemma LosesNow(k: Kernel)
    requires !NoLostWake(k)
    ensures Loses(k)
  {
    assert Runs(k, []) && Run(k, []) == k;
  }

  /** Task t runs next, gives up the slot and tests again. */
  lemma LosesNext(k: Kernel, t: nat)
    requires k.cur < |k.tasks| && t < |k.tasks| && k.tasks[t].st == Ready && k.tasks[t].pc != User
    requires !NoLostWake(Resume(Switch(k, t)))
    ensures Loses(k)
  {
    hide NoLostWake, Resume;
    var k1 := Switch(k, t);
    var k2 := Resume(k1);
    assert Step(k, OpSwitch(t)) == k1 && Step(k1, OpResume) == k2;
    assert Enabled(k1, OpResume);
    var none: seq<Op> := [];
    var one := [OpResume];
    var both := [OpSwitch(t), OpResume];
    assert Runs(k2, none) && Run(k2, none) == k2;
    assert one[1..] == none && both[1..] == one;
    assert Runs(k1, one) && Run(k1, one) == k2;
    assert Runs(k, both) && Run(k, both) == k2;
  }

  /** A read that does not park clashes with nobody. */
  lemma ReadReturns(k: Kernel, p: nat, len: nat)
    requires Inv(k) && p < |k.pipes| && k.tasks[k.cur].st == Running && Read(k, p, len).1.Returned?
    ensures Inv(Read(k, p, len).0)
  {
    hide Counts, OneEach, DeadClosed;
    var k2 := Read(k, p, len).0;
    WritersCount(k, p);
    forall u | 0 <= u < |k2.tasks| && k2.tasks[u].st == Blocked ensures Justified(k2, u) { assert Justified(k, u); }
    forall q | 0 <= q < |k2.pipes| ensures Fifo(k2.pipes[q]) { assert Fifo(k.pipes[q]); }
    MovedKeeps(k, k2, User);
  }

  lemma SecondReaderLoses(k: Kernel, p: nat, len: nat, t: nat)
    requires Inv(k) && p < |k.pipes| && k.tasks[k.cur].st == Running && Read(k, p, len).1.Parked?
    requires t < |k.tasks| && t != k.cur && Alive(k.tasks[t]) && k.tasks[t].pc.Reading? && k.tasks[t].pc.p == p
    ensures Loses(Read(k, p, len).0)
  {
    hide Counts, OneEach, DeadClosed, Loses;
    var k2 := Read(k, p, len).0;
    if k.tasks[t].st == Blocked {
      assert !Justified(k2, t);
      LosesNow(k2);
    } else {
      var k3 := Resume(Switch(k2, t));
      assert k3.tasks[k.cur].st == Blocked && k3.tasks[k.cur].pc == Reading(p, len);
      assert !Justified(k3, k.cur);
      LosesNext(k2, t);
    }
  }

  /** A read can cost a wake-up exactly when it parks while another live task is inside a read of the pipe, parked or woken. */
  lemma ReadLosesIff(k: Kernel, p: nat, len: nat)
    requires Inv(k) && p < |k.pipes| && k.tasks[k.cur].st == Running
    ensures Loses(Read(k, p, len).0) <==>
              && k.pipes[p].buf == [] && k.pipes[p].writers != 0
              && exists t :: 0 <= t < |k.tasks| && t != k.cur && Alive(k.tasks[t]) && k.tasks[t].pc.Reading? && k.tasks[t].pc.p == p
  {
    hide InvBut, Loses;
    InvParts(k);
    if !(k.pipes[p].buf == [] && k.pipes[p].writers != 0) {
      ReadReturns(k, p, len);
      InvNeverLoses(Read(k, p, len).0);
    } else if t :| 0 <= t < |k.tasks| && t != k.cur && Alive(k.tasks[t]) && k.tasks[t].pc.Reading? && k.tasks[t].pc.p == p {
      SecondReaderLoses(k, p, len, t);
    } else {
      ReadKeeps(k, p, len);
      InvNeverLoses(Read(k, p, len).0);
    }
  }

  lemma WriteReturns(k: Kernel, p: nat, data: seq<byte>, put: nat)
    requires Inv(k) && p < |k.pipes| && k.tasks[k.cur].st == Running && Write(k, p, data, put).1.Returned?
    ensures Inv(Write(k, p, data, put).0)
  {
    hide Counts, OneEach, DeadClosed, Fifo;
    var k2 := Write(k, p, data, put).0;
    WritersCount(k, p);
    WriteReturnMoves(k, p, data, put);
    forall u | 0 <= u < |k2.tasks| && k2.tasks[u].st == Blocked ensures Justified(k2, u) { assert Justified(k, u); }
    forall q | 0 <= q < |k2.pipes| ensures Fifo(k2.pipes[q]) { WriteFifo(k, p, data, put, q); }
    MovedKeeps(k, k2, User);
  }

  lemma WriteReturnMoves(k: Kernel, p: nat, data: seq<byte>, put: nat)
    requires k.cur < |k.tasks| && p < |k.pipes| && k.tasks[k.cur].st == Running && Write(k, p, data, put).1.Returned?
    ensures Moved(k, Write(k, p, data, put).0, User)
  {
  }

  /** What a write that parks leaves: a full ring with its own name in the slot. */
  lemma WriteParks(k: Kernel, p: nat, data: seq<byte>, put: nat)
    requires Inv(k) && p < |k.pipes| && k.tasks[k.cur].st == Running && Write(k, p, data, put).1.Parked?
    ensures var k2 := Write(k, p, data, put).0;
            && |k2.tasks| == |k.tasks| && |k2.pipes| == |k.pipes| && k2.cur == k.cur
            && |k2.pipes[p].buf| == PIPE_BYTES && k2.pipes[p].wrWait == Some(k.cur)
            && k2.tasks[k.cur].st == Blocked && k2.tasks[k.cur].pc.Writing? && k2.tasks[k.cur].pc.p == p
            && (forall t :: 0 <= t < |k.tasks| && t != k.cur ==> k2.tasks[t].pc == k.tasks[t].pc)
            && (forall t :: 0 <= t < |k.tasks| && t != k.cur && k.tasks[t].pc.Writing? && k.tasks[t].pc.p == p ==> k2.tasks[t].st == k.tasks[t].st)
  {
    hide Counts, OneEach, DeadClosed;
    assert Fifo(k.pipes[p]);
    var q := k.pipes[p];
    if q.rdWait.Some? && q.rdWait.value < |k.tasks| && k.tasks[q.rdWait.value].st == Blocked { assert Justified(k, q.rdWait.value); }
    forall t | 0 <= t < |k.tasks| && k.tasks[t].st == Blocked ensures Justified(k, t) {}
  }

  lemma SecondWriterLoses(k: Kernel, p: nat, data: seq<byte>, put: nat, t: nat)
    requires Inv(k) && p < |k.pipes| && k.tasks[k.cur].st == Running && Write(k, p, data, put).1.Parked?
    requires t < |k.tasks| && t != k.cur && Alive(k.tasks[t]) && k.tasks[t].pc.Writing? && k.tasks[t].pc.p == p
    ensures Loses(Write(k, p, data, put).0)
  {
    hide Counts, OneEach, DeadClosed, Loses, NoLostWake, Fifo;
    var k2 := Write(k, p, data, put).0;
    WriteParks(k, p, data, put);
    if k.tasks[t].st == Blocked {
      NotFound(k2, t);
      LosesNow(k2);
    } else {
      var k3 := Resume(Switch(k2, t));
      ResumedWriter(k2, p, t);
      NotFound(k3, k.cur);
      LosesNext(k2, t);
    }
  }

  lemma NotFound(k: Kernel, t: nat)
    requires t < |k.tasks| && k.tasks[t].st == Blocked && k.tasks[t].pc.Writing?
    requires k.tasks[t].pc.p < |k.pipes| ==> k.pipes[k.tasks[t].pc.p].wrWait != Some(t)
    ensures !NoLostWake(k)
  {
    assert !Justified(k, t);
  }

  /** A woken writer that finds the ring full again takes the slot over, or leaves it empty. */
  lemma ResumedWriter(k: Kernel, p: nat, t: nat)
    requires k.cur < |k.tasks| && p < |k.pipes| && t < |k.tasks| && t != k.cur && |k.pipes[p].buf| == PIPE_BYTES
    requires k.tasks[t].st == Ready && k.tasks[t].pc.Writing? && k.tasks[t].pc.p == p && k.tasks[k.cur].st == Blocked
    ensures var k3 := Resume(Switch(k, t));
            && |k3.tasks| == |k.tasks| && |k3.pipes| == |k.pipes| && k3.tasks[k.cur] == k.tasks[k.cur]
            && k3.pipes[p].wrWait != Some(k.cur)
  {
  }

  /** A write likewise: when the data does not fit, a reader is left, and another live task is inside a write of the pipe. */
  lemma WriteLosesIff(k: Kernel, p: nat, data: seq<byte>, put: nat)
    requires Inv(k) && p < |k.pipes| && k.tasks[k.cur].st == Running
    ensures Loses(Write(k, p, data, put).0) <==>
              && |k.pipes[p].buf| + |data| > PIPE_BYTES && k.pipes[p].readers != 0
              && exists t :: 0 <= t < |k.tasks| && t != k.cur && Alive(k.tasks[t]) && k.tasks[t].pc.Writing? && k.tasks[t].pc.p == p
  {
    hide InvBut, Loses, Write;
    InvParts(k);
    WriteParksWhen(k, p, data, put);
    if !(|k.pipes[p].buf| + |data| > PIPE_BYTES && k.pipes[p].readers != 0) {
      WriteReturns(k, p, data, put);
      InvNeverLoses(Write(k, p, data, put).0);
    } else if t :| 0 <= t < |k.tasks| && t != k.cur && Alive(k.tasks[t]) && k.tasks[t].pc.Writing? && k.tasks[t].pc.p == p {
      SecondWriterLoses(k, p, data, put, t);
    } else {
      WriteKeeps(k, p, data, put);
      InvNeverLoses(Write(k, p, data, put).0);
    }
  }

  lemma WriteParksWhen(k: Kernel, p: nat, data: seq<byte>, put: nat)
    requires Inv(k) && p < |k.pipes|
    ensures k.cur < |k.tasks| && (Write(k, p, data, put).1.Parked? <==> |k.pipes[p].buf| + |data| > PIPE_BYTES && k.pipes[p].readers != 0)
  {
    hide Counts, OneEach, DeadClosed, NoLostWake;
    assert Fifo(k.pipes[p]);
  }

  /** fd_install of a descriptor onto itself is safe exactly when the pipe has another descriptor. */
  lemma SelfInstallIff(k: Kernel, i: nat)
    requires Inv(k) && IsEnd(k, i)
    ensures var e := k.tasks[k.cur].fds[i];
            Counts(Assign(k, k.cur, i, e)) <==>
              CountEnds(k.tasks, End(e.p, false)) + CountEnds(k.tasks, End(e.p, true)) > 1
  {
    hide CountEnds, CountFds, NoLostWake, OneEach, DeadClosed;
    var e := k.tasks[k.cur].fds[i];
    var k2 := Assign(k, k.cur, i, e);
    AssignTables(k, k.cur, i, e);
    EntryCounted(k, k.cur, i);
    assert k.tasks[k.cur].fds[i := e] == k.tasks[k.cur].fds;
    forall q: nat | q < |k2.pipes|
      ensures PipeCounts(k2, q) <==> q != e.p || CountEnds(k.tasks, End(e.p, false)) + CountEnds(k.tasks, End(e.p, true)) > 1
    {
      assert PipeCounts(k, q);
      AssignEnds(k, k.cur, i, e, End(q, false));
      AssignEnds(k, k.cur, i, e, End(q, true));
    }
    assert Counts(k2) ==> PipeCounts(k2, e.p);
  }

  /** When pipe() leaks: exactly when it finds a buffer but not two free descriptors. */
  lemma LeaksIff(k: Kernel)
    requires Inv(k)
    ensures MakePipe(k).0.leaked != k.leaked <==>
              NextShut(k.pipes, 0) < |k.pipes| && WriteSlot(k.tasks[k.cur].fds) == |k.tasks[k.cur].fds|
    ensures MakePipe(k).1 <==> NextShut(k.pipes, 0) < |k.pipes| && WriteSlot(k.tasks[k.cur].fds) < |k.tasks[k.cur].fds|
  {
    hide CountEnds;
    var p := NextShut(k.pipes, 0);
    if p < |k.pipes| {
      ShutPipe(k, p);
      assert p in k.leaked + {p};
    }
  }

  lemma {:induction false} CloseLeaks(k: Kernel, t: nat, i: nat)
    requires t < |k.tasks| && i <= |k.tasks[t].fds|
    ensures CloseFrom(k, t, i).leaked == k.leaked && |CloseFrom(k, t, i).pipes| == |k.pipes|
    decreases |k.tasks[t].fds| - i
  {
    hide Assign;
    if i < |k.tasks[t].fds| {
      AssignTables(k, t, i, Closed);
      CloseLeaks(Assign(k, t, i, Closed), t, i + 1);
    }
  }

  lemma StepLeaks(k: Kernel, op: Op)
    requires Enabled(k, op)
    ensures k.leaked <= Step(k, op).leaked && |Step(k, op).pipes| == |k.pipes|
  {
    hide Alone, CloseFrom, ShareAll, Held, Wake, Unblock;
    match op
    case OpExit => CloseLeaks(SetState(k, k.cur, Zombie), k.cur, 0);
    case OpReap(t) => if k.tasks[t].st == Killed { CloseLeaks(SetState(k, t, Zombie), t, 0); }
    case OpFork(s) => ShareAllRest(k.(tasks := k.tasks[s := Task(Ready, false, User, k.tasks[k.cur].fds)]), k.tasks[k.cur].fds);
    case _ =>
  }

  /** A leaked buffer stays open, so it is lost for good, whatever happens next. */
  lemma {:induction false} LeakIsForever(k: Kernel, ops: seq<Op>, p: nat)
    requires Inv(k) && Runs(k, ops) && p in k.leaked && p < |k.pipes|
    ensures p in Run(k, ops).leaked && (p < |Run(k, ops).pipes| ==> Run(k, ops).pipes[p].open)
    decreases |ops|
  {
    hide InvBut, Enabled, Step, PipeCounts;
    if ops == [] {
      assert PipeCounts(k, p) by { PipeCountsOf(k, p); }
      LeakedOpen(k, p);
    } else {
      StepKeeps(k, ops[0]);
      StepLeaks(k, ops[0]);
      LeakIsForever(Step(k, ops[0]), ops[1..], p);
    }
  }

  lemma PipeCountsOf(k: Kernel, p: nat)
    requires Inv(k) && p < |k.pipes|
    ensures PipeCounts(k, p)
  {
  }

  lemma LeakedOpen(k: Kernel, p: nat)
    requires p < |k.pipes| && PipeCounts(k, p) && p in k.leaked
    ensures k.pipes[p].open
  {
  }

  // ---------------------------------------------------------------- small tables where things go wrong

  /** The only descriptor of a pipe, installed onto itself: the descriptor stays, the buffer is given up. */
  lemma SelfInstallExample()
    ensures var e := End(0, false);
            var k := Kernel([Task(Running, false, User, [e])], [Pipe(true, [], 1, 0, None, None, [], [])], 0, {});
            Counts(k) && Assign(k, 0, 0, e).tasks[0].fds[0] == e && !Assign(k, 0, 0, e).pipes[0].open
  {
    var e := End(0, false);
    var t := Task(Running, false, User, [e]);
    assert CountFds([e], e) == 1 + CountFds([], e) && CountFds([e], End(0, true)) == 0 + CountFds([], End(0, true));
    assert CountEnds([t], e) == CountFds([e], e) + CountEnds([], e);
    assert CountEnds([t], End(0, true)) == CountFds([e], End(0, true)) + CountEnds([], End(0, true));
  }

  /** Two readers and a writer of pipe 0: task 1 is about to read, task 0 is inside a read already, in state `st`. */
  function TwoReaders(st: TaskState, slot: Option<nat>): Kernel {
    Kernel([Task(st, false, Reading(0, 1), [End(0, false)]), Task(Running, false, User, [End(0, false), End(0, true)])],
           [Pipe(true, [], 2, 1, slot, None, [7], [7])], 1, {})
  }

  lemma TwoReadersInv(st: TaskState, slot: Option<nat>)
    requires (st == Blocked && slot == Some(0)) || (st == Ready && slot == None)
    ensures Inv(TwoReaders(st, slot))
  {
    var k := TwoReaders(st, slot);
    var e, f := End(0, false), End(0, true);
    assert CountFds([e], e) == 1 + CountFds([], e) && CountFds([e], f) == 0 + CountFds([], f);
    assert CountFds([e, f], e) == 1 + CountFds([f], e) && [e, f][1..] == [f] && CountFds([f], e) == 0 + CountFds([], e);
    assert CountFds([e, f], f) == 0 + CountFds([f], f) && CountFds([f], f) == 1 + CountFds([], f);
    var rest := [k.tasks[1]];
    assert k.tasks[1..] == rest;
    assert forall x :: CountEnds(rest, x) == CountFds([e, f], x) + CountEnds([], x);
    assert forall x :: CountEnds(k.tasks, x) == CountFds([e], x) + CountEnds(rest, x);
    assert PipeCounts(k, 0);
    assert Fifo(k.pipes[0]);
    assert st == Blocked ==> Justified(k, 0);
  }

  /** With the first reader parked, the second takes its slot; with it woken but not run yet, it takes the slot back. */
  lemma SecondReaderExample()
    ensures var k := TwoReaders(Blocked, Some(0));
            Inv(k) && !NoLostWake(Read(k, 0, 1).0)
    ensures var k := TwoReaders(Ready, None);
            Inv(k) && NoLostWake(Read(k, 0, 1).0) && !NoLostWake(Resume(Switch(Read(k, 0, 1).0, 0)))
  {
    TwoReadersInv(Blocked, Some(0));
    TwoReadersInv(Ready, None);
    var k, k2 := TwoReaders(Blocked, Some(0)), TwoReaders(Ready, None);
    assert !Justified(Read(k, 0, 1).0, 0);
    assert Justified(Read(k2, 0, 1).0, 1) && !Justified(Resume(Switch(Read(k2, 0, 1).0, 0)), 1);
  }

  /** A table with no free entry: pipe() fails, and its buffer is in use for nobody. */
  lemma LeakExample()
    ensures var k := Kernel([Task(Running, false, User, [Other])], [Pipe(false, [], 0, 0, None, None, [], [])], 0, {});
            !MakePipe(k).1 && MakePipe(k).0.leaked == {0} && MakePipe(k).0.pipes[0].open
  {
    var fds := [Other];
    assert NextClosed(fds, 0) == NextClosed(fds, 1) == 1;
  }
}
