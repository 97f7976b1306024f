/** The task table as task.cpp keeps it: notes packed, moved and appended in place. */
module NoteCode {
  import opened Basics
  import opened Notes
  import opened NoteFate

  /** What a turn of wait_for comes to: a child's note, an error, nothing yet for a caller that does not wait, or a park. */
  datatype Answer = Child(n: Note) | NoProcess | NotChild | NothingYet | Parks

  /** The answer that fits the table as the turn found it. */
  ghost predicate Answers(s: Sys, pid: int, nowait: bool, a: Answer)
    requires s.cur < |s.ts|
  {
    var l := s.ts[s.cur].done;
    var known := exists i :: 0 <= i < |s.ts| && s.ts[i].state != Free && s.ts[i].pid == pid;
    match a
    case Child(n) => n in l && (pid == 0 || n.pid == pid)
    case NoProcess => !HasAsked(s, pid) && pid != 0 && !known
    case NotChild => !HasAsked(s, pid) && pid != 0 && exists i :: 0 <= i < |s.ts| && s.ts[i].state != Free && s.ts[i].pid == pid && s.ts[i].ppid != s.ts[s.cur].pid
    case NothingYet => !HasAsked(s, pid) && nowait && (pid == 0 || known)
    case Parks => !HasAsked(s, pid) && !nowait && (pid == 0 || known)
  }

  class Table {
    var tasks: seq<Task>
    var cur: nat
    ghost var gen: seq<nat>
    ghost var ends: map<Life, nat>
    ghost var log: seq<Collected>

    ghost function S(): Sys
      reads this
    {
      Sys(tasks, cur, gen, ends, log)
    }

    ghost predicate Sized()
      reads this
    {
      |tasks| == |gen| == SLOTS && cur < SLOTS
    }

    /** purge_notes: every list is packed over the notes of the pid. */
    method PurgeNotes(pid: nat)
      requires Sized()
      modifies this`tasks
      ensures tasks == Purged(old(tasks), pid)
    {
      ghost var was := tasks;
      for i := 0 to |tasks|
        invariant |tasks| == |was|
        invariant forall j :: 0 <= j < |was| ==> tasks[j] == if j < i then was[j].(done := Without(was[j].done, pid)) else was[j]
      {
        var kept := Packed(tasks[i].done, pid);
        tasks := tasks[i := tasks[i].(done := kept)];
      }
    }

    /** find */
    method FindTask(pid: nat) returns (r: Option<nat>)
      ensures r == Find(tasks, pid)
    {
      for i := 0 to |tasks|
        invariant FindFrom(tasks, pid, 0) == FindFrom(tasks, pid, i)
      {
        if tasks[i].state != Free && tasks[i].pid == pid { return Some(i); }
      }
      return None;
    }

    /** unblock */
    method Unblock(i: nat)
      requires i < |tasks|
      modifies this`tasks
      ensures tasks == old(tasks)[i := Unblocked(old(tasks)[i])]
    {
      var t := tasks[i];
      if t.state == Blocked {
        tasks := tasks[i := t.(state := Ready)];
        return;
      }
      tasks := tasks[i := t.(wake := true)];
    }

    /** announce */
    method Announce(i: nat)
      requires i < |tasks|
      modifies this`tasks
      ensures tasks == Announced(old(tasks), i)
    {
      var t := tasks[i];
      var parent := FindTask(t.ppid);
      if parent.None? || parent.value == i { return; }
      var p := parent.value;
      if |tasks[p].done| >= SLOTS { return; }
      var code := if t.signal != 0 then 128 + t.signal else t.exitCode;
      tasks := tasks[p := tasks[p].(done := tasks[p].done + [Note(t.pid, code)])];
      if tasks[p].waiting { Unblock(p); }
    }

    /** reap, once init is known to be alive. */
    method ReapAll()
      requires Sized()
      modifies this`tasks, this`ends
      ensures S() == Reap(old(S())) && Sized()
    {
      hide Finish;
      for i := 1 to SLOTS
        invariant Sized() && cur == old(cur) && ReapFrom(S(), i) == Reap(old(S()))
      {
        ghost var s0 := S();
        if tasks[i].state == Killed {
          End(i, 128 + tasks[i].signal, tasks[i].signal);
        }
        if tasks[i].state == Zombie && i != cur {
          tasks := tasks[i := tasks[i].(state := Free)];
        }
        assert S() == ReapOne(s0, i);
      }
    }

    /** The lines exit and reap share: a zombie now, and announced. */
    method End(i: nat, exitCode: nat, signal: nat)
      requires Sized() && i < SLOTS
      modifies this`tasks, this`ends
      ensures S() == Finish(old(S()), i, exitCode, signal)
    {
      tasks := tasks[i := tasks[i].(state := Zombie, exitCode := exitCode, signal := signal)];
      ends := ends[Life(i + 1, gen[i]) := EndCode(tasks[i])];
      Announce(i);
    }

    /** take_done: the first note asked for is handed out and the last one moves into its place. */
    method TakeDone(pid: int) returns (r: Option<Note>)
      requires Sized()
      modifies this`tasks
      ensures var l := old(tasks)[cur].done;
              var k := FirstAsked(l, pid, 0);
              if k.None? then r.None? && tasks == old(tasks)
              else r == Some(l[k.value]) && tasks == old(tasks)[cur := old(tasks)[cur].(done := Dropped(l, k.value))]
    {
      var l := tasks[cur].done;
      for i := 0 to |l|
        invariant tasks == old(tasks) && FirstAsked(l, pid, 0) == FirstAsked(l, pid, i)
      {
        if pid != 0 && l[i].pid != pid { continue; }
        var got, n := l[i], |l| - 1;
        tasks := tasks[cur := tasks[cur].(done := l[i := l[n]][..n])];
        assert l[i := l[n]][..n] == Dropped(l, i);
        return Some(got);
      }
      return None;
    }

    /** wait_for, up to the point where it returns or parks. */
    method WaitFor(pid: int, nowait: bool) returns (a: Answer)
      requires Sized()
      modifies this`tasks, this`ends, this`log
      ensures S() == WaitTurn(old(S()), pid, nowait)
      ensures var s1 := Looking(old(S())); s1.cur < |s1.ts| && Answers(s1, pid, nowait, a)
      ensures a.Child? ==> |log| > 0 && log[|log| - 1].code == a.n.code && log[|log| - 1].life.pid == a.n.pid
      ensures !a.Child? ==> log == old(log)
    {
      hide Reap, Answers, Looking, HasAsked, Asked;
      ghost var s0 := S();
      tasks := tasks[cur := tasks[cur].(wake := false)];
      ReapAll();
      ghost var s1 := S();
      ReapSpares(old(S()).(ts := old(tasks)[cur := old(tasks)[cur].(wake := false)]));
      assert s1 == Looking(s0) by { LookingIs(s0); }
      var had := TakeDone(pid);
      AnswersNow(s1, pid, nowait);
      if had.Some? {
        ghost var n := had.value;
        log := log + [Collected(Life(n.pid, if 0 < n.pid <= |gen| then gen[n.pid - 1] else 0), n.code)];
        return Child(had.value);
      }
      if pid != 0 {
        if pid < 0 { return NoProcess; }
        var want := FindTask(pid);
        if want.None? { return NoProcess; }
        if tasks[want.value].ppid != tasks[cur].pid { return NotChild; }
      }
      tasks := tasks[cur := tasks[cur].(waiting := true, waitPid := pid)];
      if nowait {
        tasks := tasks[cur := tasks[cur].(waiting := false)];
        return NothingYet;
      }
      Block();
      return Parks;
    }

    /** block, up to the switch. */
    method Block()
      requires Sized()
      modifies this`tasks
      ensures tasks == old(tasks)[cur := Parked(old(tasks)[cur])]
    {
      var t := tasks[cur];
      tasks := tasks[cur := if t.wake then t.(wake := false) else t.(state := Blocked)];
    }

    /** fork_user, as far as the table goes. */
    method ForkUser(ok: bool) returns (pid: nat)
      requires Sized()
      modifies this`tasks, this`gen
      ensures S() == Forked(old(S()), ok)
      ensures pid != 0 <==> ok && FreeSlot(old(tasks), 1).Some?
      ensures pid != 0 ==> pid == FreeSlot(old(tasks), 1).value + 1
    {
      var slot := 1;
      while slot < SLOTS && tasks[slot].state != Free
        invariant 0 < slot <= SLOTS && FreeSlot(tasks, 1) == FreeSlot(tasks, slot)
      {
        slot := slot + 1;
      }
      if slot == SLOTS { return 0; }
      var ppid := tasks[cur].pid;
      PurgeNotes(slot + 1);
      tasks := tasks[slot := EMPTY];
      if !ok { return 0; }
      tasks := tasks[slot := tasks[slot].(state := Ready, pid := slot + 1, ppid := ppid)];
      gen := gen[slot := gen[slot] + 1];
      return slot + 1;
    }
  }

  lemma LookingIs(s: Sys)
    requires s.cur < |s.ts| == |s.gen|
    ensures Looking(s) == Reap(s.(ts := s.ts[s.cur := s.ts[s.cur].(wake := false)]))
  {
  }

  /** Which answer fits, by what the scans of the turn find. */
  lemma AnswersNow(s: Sys, pid: int, nowait: bool)
    requires s.cur < |s.ts|
    ensures var k := FirstAsked(s.ts[s.cur].done, pid, 0);
            if k.Some? then Answers(s, pid, nowait, Child(s.ts[s.cur].done[k.value]))
            else if pid < 0 then Answers(s, pid, nowait, NoProcess)
            else if pid == 0 then Answers(s, pid, nowait, if nowait then NothingYet else Parks)
            else match Find(s.ts, pid)
                 case None => Answers(s, pid, nowait, NoProcess)
                 case Some(i) => Answers(s, pid, nowait, if s.ts[i].ppid != s.ts[s.cur].pid then NotChild else if nowait then NothingYet else Parks)
  {
    var l := s.ts[s.cur].done;
    var k := FirstAsked(l, pid, 0);
    if k.Some? { assert l[k.value] in l; }
  }

  lemma {:induction false} ReapFromSpares(s: Sys, i: nat)
    requires |s.ts| == |s.gen|
    ensures var s2 := ReapFrom(s, i);
            s2.cur == s.cur && s2.gen == s.gen && s2.log == s.log
    decreases |s.ts| - i
  {
    if i < |s.ts| { ReapFromSpares(ReapOne(s, i), i + 1); }
  }

  lemma ReapSpares(s: Sys)
    requires |s.ts| == |s.gen|
    ensures Reap(s).cur == s.cur && Reap(s).gen == s.gen && Reap(s).log == s.log
  {
    ReapFromSpares(s, 1);
  }

  /** The inner loop of purge_notes, on one list. */
  method Packed(l0: seq<Note>, pid: nat) returns (kept: seq<Note>)
    ensures kept == Without(l0, pid)
  {
    var l, n := l0, 0;
    for k := 0 to |l0|
      invariant n <= k && |l| == |l0| && l[..n] == Without(l0[..k], pid) && l[k..] == l0[k..]
    {
      assert l[k] == l[k..][0] == l0[k];
      assert l0[..k + 1][..k] == l0[..k];
      ghost var was := l;
      if l[k].pid != pid {
        l := l[n := l[k]];
        n := n + 1;
        assert l[..n] == was[..n - 1] + [l0[k]];
      }
      assert l[k + 1..] == was[k + 1..] == was[k..][1..] == l0[k..][1..] == l0[k + 1..];
    }
    assert l0[..|l0|] == l0;
    return l[..n];
  }
}
