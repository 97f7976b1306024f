/** What becomes of an exit note: it stays with the parent until it is collected, or a fork forgets it. */
module NoteFate {
  import opened Basics
  import opened Notes

  /** The end of a life is in the list of slot p. */
  ghost predicate Noted(s: Sys, p: nat, l: Life) {
    && 0 < l.pid <= |s.gen| && l.gen == s.gen[l.pid - 1] && l in s.ends
    && p < |s.ts| && Note(l.pid, s.ends[l]) in s.ts[p].done
  }

  /** wait has returned it, with its code. */
  ghost predicate Logged(s: Sys, l: Life) { l in s.ends && Collected(l, s.ends[l]) in s.log }

  /** fork purges the pid of the slot it finds from all lists, and empties the slot's own. */
  predicate Forgets(s: Sys, e: Event, p: nat, l: Life) {
    e.Fork? && FreeSlot(s.ts, 1).Some? && (FreeSlot(s.ts, 1).value == p || FreeSlot(s.ts, 1).value + 1 == l.pid)
  }

  predicate Alive(t: Task) { Live(t) && t.state != Killed }

  /** The process in slot i ends, and the one in slot p is its parent and alive. */
  ghost predicate EndsUnder(s: Sys, s2: Sys, i: nat, p: nat) {
    && |s2.ts| == |s.ts| == |s.gen| && i < |s.ts| && p < |s.ts| && i != p && s.ts[i].ppid == p + 1 && Alive(s.ts[p])
    && Life(i + 1, s.gen[i]) !in s.ends && Life(i + 1, s.gen[i]) in s2.ends
  }

  /** Who is no longer alive has its end on record. */
  ghost predicate Recorded(s: Sys, s2: Sys) {
    |s2.ts| == |s.ts| == |s.gen| && forall j :: 0 <= j < |s.ts| && Live(s.ts[j]) && !Live(s2.ts[j]) ==> Life(j + 1, s.gen[j]) in s2.ends
  }

  ghost predicate Kept(ends: map<Life, nat>, ends2: map<Life, nat>) {
    forall l :: l in ends ==> l in ends2 && ends2[l] == ends[l]
  }

  // ---------------------------------------------------------------- steps that collect nothing and forget nothing

  /** Every end there was is noted where it was, and not anywhere else. */
  ghost predicate Same(s: Sys, s2: Sys) {
    && |s2.ts| == |s.ts| && s2.gen == s.gen && s2.log == s.log && Kept(s.ends, s2.ends) && Recorded(s, s2)
    && forall p: nat, l :: l in s.ends ==> (Noted(s2, p, l) <==> Noted(s, p, l))
  }

  /** Every new end is noted with the parent. */
  ghost predicate Tells(s: Sys, s2: Sys) {
    forall i: nat, p: nat :: EndsUnder(s, s2, i, p) ==> Noted(s2, p, Life(i + 1, s.gen[i]))
  }

  /** Parents stay parents, and who is alive stays so. */
  ghost predicate Lasting(s: Sys, s2: Sys) {
    |s2.ts| == |s.ts| && forall j :: 0 <= j < |s.ts| ==> s2.ts[j].ppid == s.ts[j].ppid && (Alive(s.ts[j]) ==> Alive(s2.ts[j]))
  }

  ghost predicate Flow(s: Sys, s2: Sys) { Same(s, s2) && Tells(s, s2) && Lasting(s, s2) }

  lemma FlowTwice(s: Sys, s1: Sys, s2: Sys)
    requires Flow(s, s1) && Flow(s1, s2)
    ensures Flow(s, s2)
  {
    hide Noted, Alive;
    forall i: nat, p: nat | EndsUnder(s, s2, i, p) ensures Noted(s2, p, Life(i + 1, s.gen[i])) {
      if Life(i + 1, s.gen[i]) in s1.ends {
        assert EndsUnder(s, s1, i, p);
      } else {
        assert EndsUnder(s1, s2, i, p);
      }
    }
  }

  /** Only things change that have nothing to do with notes. */
  ghost predicate Quiet(s: Sys, s2: Sys) {
    && |s2.ts| == |s.ts| && s2.gen == s.gen && s2.log == s.log && s2.cur == s.cur && s2.ends == s.ends
    && |s.ts| == |s.gen| && forall j :: 0 <= j < |s.ts| ==> s2.ts[j].done == s.ts[j].done && (Live(s.ts[j]) ==> Live(s2.ts[j]))
  }

  lemma QuietSame(s: Sys, s2: Sys)
    requires Quiet(s, s2)
    ensures Same(s, s2) && Tells(s, s2)
  {
  }

  lemma FinishFlow(s: Sys, i: nat, exitCode: nat, signal: nat)
    requires Inv(s) && i < SLOTS && Live(s.ts[i])
    ensures var s2 := Finish(s, i, exitCode, signal);
            Same(s, s2) && Tells(s, s2) && (s.ts[i].state == Killed ==> Lasting(s, s2))
  {
    hide NotesTrue, NotesApart, WaitsOk, LogOk, ListsOk, Finish, Noted;
    var s2 := Finish(s, i, exitCode, signal);
    FinishTells(s, i, exitCode, signal);
    FinishRest(s, i, exitCode, signal);
    forall p: nat, l | l in s.ends ensures Noted(s2, p, l) <==> Noted(s, p, l) { ToldSame(s, s2, i, p, l); }
    forall j: nat, p: nat | EndsUnder(s, s2, j, p) ensures j < |s.gen| && Noted(s2, p, Life(j + 1, s.gen[j])) { ToldNoted(s, s2, i, p); }
  }

  lemma ToldSame(s: Sys, s2: Sys, i: nat, p: nat, l: Life)
    requires Shape(s) && i < SLOTS && l in s.ends && Life(i + 1, s.gen[i]) !in s.ends
    requires i < |s2.ts| && Told(s.ts, s2.ts, i, s2.ts[i]) && s2 == s.(ts := s2.ts, ends := s.ends[Life(i + 1, s.gen[i]) := EndCode(s2.ts[i])])
    ensures Noted(s2, p, l) <==> Noted(s, p, l)
  {
  }

  lemma ToldNoted(s: Sys, s2: Sys, i: nat, p: nat)
    requires Shape(s) && i < SLOTS && EndsUnder(s, s2, i, p)
    requires i < |s2.ts| && Told(s.ts, s2.ts, i, s2.ts[i]) && s2 == s.(ts := s2.ts, ends := s.ends[Life(i + 1, s.gen[i]) := EndCode(s2.ts[i])])
    ensures Noted(s2, p, Life(i + 1, s.gen[i]))
  {
  }

  lemma ReapOneFlow(s: Sys, i: nat)
    requires Inv(s) && i < SLOTS && s.ts[s.cur].state != Killed
    ensures Flow(s, ReapOne(s, i))
  {
    hide NotesTrue, NotesApart, WaitsOk, HistoryOk, Finish, Same, Tells;
    QuietSame(s, s);
    if s.ts[i].state == Killed {
      var s1 := Finish(s, i, 128 + s.ts[i].signal, s.ts[i].signal);
      FinishFlow(s, i, 128 + s.ts[i].signal, s.ts[i].signal);
      FinishRest(s, i, 128 + s.ts[i].signal, s.ts[i].signal);
      EndedZombie(s, i);
      Retired(s1, i);
      FlowTwice(s, s1, ReapOne(s, i));
    } else if s.ts[i].state == Zombie && i != s.cur {
      Retired(s, i);
    }
  }

  lemma EndedZombie(s: Sys, i: nat)
    requires Inv(s) && i < SLOTS && s.ts[i].state == Killed
    ensures Finish(s, i, 128 + s.ts[i].signal, s.ts[i].signal).ts[i].state == Zombie
  {
    hide NotesTrue, NotesApart, WaitsOk, HistoryOk, Finish;
    FinishTells(s, i, 128 + s.ts[i].signal, s.ts[i].signal);
  }

  lemma Retired(s: Sys, i: nat)
    requires i < |s.ts| == |s.gen| && s.ts[i].state == Zombie
    ensures Flow(s, s.(ts := s.ts[i := s.ts[i].(state := Free)]))
  {
    hide Same, Tells;
    QuietSame(s, s.(ts := s.ts[i := s.ts[i].(state := Free)]));
  }

  lemma {:induction false} ReapFromFlow(s: Sys, i: nat)
    requires Inv(s) && s.ts[s.cur].state != Killed
    ensures Flow(s, ReapFrom(s, i))
    decreases SLOTS - i
  {
    hide NotesTrue, NotesApart, WaitsOk, HistoryOk, ReapOne, Flow;
    if i < SLOTS {
      ReapOneKeeps(s, i);
      ReapOneFlow(s, i);
      ReapFromFlow(ReapOne(s, i), i + 1);
      FlowTwice(s, ReapOne(s, i), ReapFrom(ReapOne(s, i), i + 1));
    } else {
      Nothing(s);
    }
  }

  lemma Nothing(s: Sys)
    requires |s.ts| == |s.gen|
    ensures Flow(s, s)
  {
    QuietSame(s, s);
  }

  // ---------------------------------------------------------------- every step

  /** What may become of the ends there were, and of those there are now. */
  ghost predicate Handled(s: Sys, e: Event, s2: Sys) {
    && Kept(s.ends, s2.ends) && Recorded(s, s2)
    && (forall p: nat, l :: l in s.ends && Noted(s2, p, l) ==> Noted(s, p, l))
    && (forall p: nat, l :: Noted(s, p, l) ==> (Noted(s2, p, l) || Logged(s2, l) <==> !Forgets(s, e, p, l)))
    && (forall l :: Logged(s, l) ==> Logged(s2, l))
    && (forall l :: l in s.ends && Logged(s2, l) ==> Logged(s, l) || Noted(s, s.cur, l))
    && (forall i: nat, p: nat :: EndsUnder(s, s2, i, p) ==> Noted(s2, p, Life(i + 1, s.gen[i])) || Logged(s2, Life(i + 1, s.gen[i])))
  }

  lemma SameHandled(s: Sys, e: Event, s2: Sys)
    requires Same(s, s2) && Tells(s, s2) && !e.Fork?
    ensures Handled(s, e, s2)
  {
    hide EndsUnder;
  }

  lemma CollectHandled(s: Sys, e: Event, s1: Sys, k: nat)
    requires Flow(s, s1) && s1.cur == s.cur && Inv(s1) && k < |s1.ts[s1.cur].done| && !e.Fork?
    ensures Handled(s, e, Collecting(s1, k))
  {
    hide NotesTrue, NotesApart, WaitsOk, HistoryOk, Noted, Logged, Collecting;
    var s2 := Collecting(s1, k);
    CollectMoves(s1, k);
    OnlyEnds(s);
    SameLogged(s, s1);
    forall i: nat, p: nat | EndsUnder(s, s2, i, p) ensures Noted(s2, p, Life(i + 1, s.gen[i])) || Logged(s2, Life(i + 1, s.gen[i])) {
      assert EndsUnder(s, s1, i, p);
    }
  }

  /** A note goes out of its list and into the log; the others stay. */
  lemma CollectMoves(s: Sys, k: nat)
    requires Inv(s) && k < |s.ts[s.cur].done|
    ensures var s2 := Collecting(s, k);
            && s2.ends == s.ends && Recorded(s, s2)
            && (forall p: nat, l :: Noted(s2, p, l) ==> Noted(s, p, l))
            && (forall p: nat, l :: Noted(s, p, l) ==> Noted(s2, p, l) || Logged(s2, l))
            && (forall l :: Logged(s, l) ==> Logged(s2, l))
            && (forall l :: Logged(s2, l) ==> Logged(s, l) || Noted(s, s.cur, l))
  {
    hide NotesTrue, NotesApart, WaitsOk, HistoryOk, Noted, Logged, Dropped;
    var s2 := Collecting(s, k);
    forall l ensures Logged(s2, l) <==> Logged(s, l) || IsNote(s, s.ts[s.cur].done[k], l) { LogGrows(s, k, l); }
    forall p: nat, l ensures Noted(s2, p, l) ==> Noted(s, p, l) { NoteLeaves(s, k, p, l); }
    forall p: nat, l ensures Noted(s, p, l) ==> Noted(s2, p, l) || IsNote(s, s.ts[s.cur].done[k], l) { NoteLeaves(s, k, p, l); }
    forall l | IsNote(s, s.ts[s.cur].done[k], l) ensures Noted(s, s.cur, l) { IsNoted(s, k, l); }
  }

  /** The life a note is about. */
  predicate IsNote(s: Sys, n: Note, l: Life) { 0 < n.pid <= |s.gen| && l == Life(n.pid, s.gen[n.pid - 1]) }

  lemma IsNoted(s: Sys, k: nat, l: Life)
    requires Inv(s) && k < |s.ts[s.cur].done| && IsNote(s, s.ts[s.cur].done[k], l)
    ensures Noted(s, s.cur, l)
  {
    hide NotesTrue, NotesApart, WaitsOk, LogOk, LivesOk;
    assert ListOk(s.gen, s.ends, s.log, Lists(s.ts)[s.cur]);
    assert Uncollected(s.gen, s.ends, s.log, s.ts[s.cur].done[k]);
  }

  lemma LogGrows(s: Sys, k: nat, l: Life)
    requires Inv(s) && k < |s.ts[s.cur].done|
    ensures Logged(Collecting(s, k), l) <==> Logged(s, l) || IsNote(s, s.ts[s.cur].done[k], l)
  {
    hide NotesTrue, NotesApart, WaitsOk, LogOk, LivesOk, Dropped;
    assert ListOk(s.gen, s.ends, s.log, Lists(s.ts)[s.cur]);
    assert Uncollected(s.gen, s.ends, s.log, s.ts[s.cur].done[k]);
  }

  lemma DroppedHas(l: seq<Note>, i: nat, n: Note)
    requires i < |l| && n in l && n != l[i]
    ensures n in Dropped(l, i)
  {
    var k :| 0 <= k < |l| && l[k] == n;
    assert Dropped(l, i)[if k == |l| - 1 then i else k] == n;
  }

  lemma NoteLeaves(s: Sys, k: nat, p: nat, l: Life)
    requires Inv(s) && k < |s.ts[s.cur].done|
    ensures Noted(Collecting(s, k), p, l) ==> Noted(s, p, l)
    ensures Noted(s, p, l) ==> Noted(Collecting(s, k), p, l) || IsNote(s, s.ts[s.cur].done[k], l)
  {
    hide NotesTrue, NotesApart, WaitsOk, HistoryOk, Dropped;
    if p < SLOTS { OthersLeft(s, k, p); }
    if Noted(s, p, l) && p == s.cur && !IsNote(s, s.ts[s.cur].done[k], l) {
      DroppedHas(s.ts[p].done, k, Note(l.pid, s.ends[l]));
    }
  }

  lemma OnlyEnds(s: Sys)
    ensures (forall p: nat, l :: Noted(s, p, l) ==> l in s.ends) && forall l :: Logged(s, l) ==> l in s.ends
  {
  }

  lemma SameLogged(s: Sys, s2: Sys)
    requires Same(s, s2)
    ensures forall l :: l in s.ends ==> (Logged(s2, l) <==> Logged(s, l))
  {
  }

  /** The first half of a turn of wait_for. */
  lemma TurnReaps(s: Sys, s2: Sys)
    requires Inv(s) && s.ts[s.cur].state == Running && !Gone(s.ts[0]) && s2 == Reap(s.(ts := s.ts[s.cur := s.ts[s.cur].(wake := false)]))
    ensures Flow(s, s2) && Inv(s2) && s2.cur == s.cur && s2.ts[s.cur].state == Running
  {
    hide NotesTrue, NotesApart, WaitsOk, HistoryOk, Flow;
    var t := s.ts[s.cur].(wake := false);
    var s1 := s.(ts := s.ts[s.cur := t]);
    AlikeKeeps(s, s.cur, t);
    Slept(s, t);
    ReapKeeps(s1);
    ReapFromFlow(s1, 1);
    FlowTwice(s, s1, s2);
  }

  /** The second half, with nothing to collect. */
  lemma TurnStays(s: Sys, s2: Sys, pid: int, nowait: bool)
    requires Inv(s2) && s2.cur == s.cur && s2.ts[s.cur].state == Running && |s.ts| == |s.gen| == SLOTS
    requires s2 == Reap(s.(ts := s.ts[s.cur := s.ts[s.cur].(wake := false)])) && FirstAsked(s2.ts[s.cur].done, pid, 0).None?
    ensures Flow(s2, WaitTurn(s, pid, nowait))
  {
    hide NotesTrue, NotesApart, WaitsOk, HistoryOk, Flow, Reap;
    var t := s2.ts[s.cur];
    Nothing(s2);
    Slept(s2, t.(waiting := false, waitPid := pid));
    Slept(s2, Parked(t.(waiting := true, waitPid := pid)));
  }

  lemma WaitHandled(s: Sys, s0: Sys, pid: int, nowait: bool, e: Event)
    requires Inv(s) && Flow(s, s0) && s0.cur == s.cur && Inv(s0) && s0.ts[s0.cur].state == Running && !Gone(s0.ts[0]) && !e.Fork?
    ensures Handled(s, e, WaitTurn(s0, pid, nowait))
  {
    hide NotesTrue, NotesApart, WaitsOk, HistoryOk, Reap, Handled, Flow;
    var s2 := Reap(s0.(ts := s0.ts[s0.cur := s0.ts[s0.cur].(wake := false)]));
    TurnReaps(s0, s2);
    FlowTwice(s, s0, s2);
    var k := FirstAsked(s2.ts[s2.cur].done, pid, 0);
    if k.Some? {
      CollectHandled(s, e, s2, k.value);
    } else {
      TurnStays(s0, s2, pid, nowait);
      FlowTwice(s, s2, WaitTurn(s0, pid, nowait));
      FlowHandled(s, e, WaitTurn(s0, pid, nowait));
    }
  }

  lemma Slept(s: Sys, u: Task)
    requires s.cur < |s.ts| == |s.gen| && u.done == s.ts[s.cur].done && u.ppid == s.ts[s.cur].ppid
    requires (Live(s.ts[s.cur]) ==> Live(u)) && (Alive(s.ts[s.cur]) ==> Alive(u))
    ensures Flow(s, s.(ts := s.ts[s.cur := u]))
  {
    hide Same, Tells;
    QuietSame(s, s.(ts := s.ts[s.cur := u]));
  }

  lemma FlowHandled(s: Sys, e: Event, s2: Sys)
    requires Flow(s, s2) && !e.Fork?
    ensures Handled(s, e, s2)
  {
    hide Same, Tells, Handled, Lasting;
    SameHandled(s, e, s2);
  }

  /** A fork forgets what its slot has to do with, and nothing else. */
  lemma ForkHandled(s: Sys, ok: bool)
    requires Inv(s)
    ensures Handled(s, Fork(ok), Forked(s, ok))
  {
    hide NotesTrue, NotesApart, WaitsOk, HistoryOk, Noted, Logged, Forked;
    var s2 := Forked(s, ok);
    ForkRest(s, ok);
    OnlyEnds(s);
    forall p: nat, l | l in s.ends ensures Noted(s2, p, l) <==> Noted(s, p, l) && !Forgets(s, Fork(ok), p, l) { ForkNotes(s, ok, p, l); }
    forall p: nat, l | Noted(s, p, l) ensures !Logged(s, l) { NotedOnce(s, p, l); }
  }

  lemma ForkRest(s: Sys, ok: bool)
    requires Inv(s)
    ensures Forked(s, ok).ends == s.ends && Recorded(s, Forked(s, ok)) && forall l :: Logged(Forked(s, ok), l) <==> Logged(s, l)
  {
    hide NotesTrue, NotesApart, WaitsOk, HistoryOk, Without;
  }

  lemma ForkNotes(s: Sys, ok: bool, p: nat, l: Life)
    requires Inv(s) && l in s.ends
    ensures Noted(Forked(s, ok), p, l) <==> Noted(s, p, l) && !Forgets(s, Fork(ok), p, l)
  {
    hide NotesTrue, NotesApart, WaitsOk, LivesOk, ListsOk, Without;
    var f := FreeSlot(s.ts, 1);
    if f.Some? {
      NewLife(s, f.value);
      if p < SLOTS { WithoutNotes(s.ts[p].done, f.value + 1); }
      var u := if ok then EMPTY.(state := Ready, pid := f.value + 1, ppid := s.ts[s.cur].pid) else EMPTY;
      PurgeClears(s.ts, f.value, u);
    }
  }

  lemma ResumeHandled(s: Sys)
    requires Inv(s) && s.ts[s.cur].state == Running && !Gone(s.ts[0])
    ensures Handled(s, Resume, Resumed(s))
  {
    hide NotesTrue, NotesApart, WaitsOk, HistoryOk, WaitTurn, Handled, Flow;
    var t := s.ts[s.cur].(wake := false, waiting := false);
    var s1 := s.(ts := s.ts[s.cur := t]);
    AlikeKeeps(s, s.cur, t);
    Slept(s, t);
    if t.pending { FlowHandled(s, Resume, s1); } else { WaitHandled(s, s1, t.waitPid, false, Resume); }
  }

  lemma SwitchHandled(s: Sys, to: nat)
    requires Inv(s) && Enabled(s, Switch(to))
    ensures Handled(s, Switch(to), Switched(s, to))
  {
    hide NotesTrue, NotesApart, WaitsOk, HistoryOk, ReapFrom, Handled, Same, Tells, Lasting;
    ReapKeeps(s);
    ReapFromFlow(s, 1);
    var s1 := Reap(s);
    SwitchedSame(s, s1, Switched(s, to));
    SameHandled(s, Switch(to), Switched(s, to));
  }

  lemma SwitchedSame(s: Sys, s1: Sys, s2: Sys)
    requires Same(s, s1) && Tells(s, s1) && s2 == s1.(ts := s2.ts, cur := s2.cur) && |s2.ts| == |s1.ts|
    requires forall j :: 0 <= j < |s1.ts| ==> s2.ts[j].done == s1.ts[j].done && (Live(s1.ts[j]) ==> Live(s2.ts[j]))
    ensures Same(s, s2) && Tells(s, s2)
  {
    forall i: nat, p: nat | EndsUnder(s, s2, i, p) ensures Noted(s2, p, Life(i + 1, s.gen[i])) { assert EndsUnder(s, s1, i, p); }
  }

  /** Every step. */
  lemma StepHandles(s: Sys, e: Event)
    requires Inv(s) && Enabled(s, e)
    ensures Handled(s, e, Step(s, e))
  {
    hide NotesTrue, NotesApart, WaitsOk, HistoryOk, Finish, Forked, WaitTurn, Resumed, Switched, Handled, Same, Tells;
    var t := s.ts[s.cur];
    match e
    case Fork(ok) => ForkHandled(s, ok);
    case Exit(code) => FinishFlow(s, s.cur, code, 0); SameHandled(s, e, Step(s, e));
    case KillSelf(sig, caught) => KilledHandled(s, sig, caught);
    case Fault(sig) => FinishFlow(s, s.cur, 128, sig); SameHandled(s, e, Step(s, e));
    case Wait(pid, nowait) => Nothing(s); WaitHandled(s, s, pid, nowait, e);
    case Resume => ResumeHandled(s);
    case Switch(to) => SwitchHandled(s, to);
    case Signal(target, sig, caught) => PlainHandled(s, e);
    case Delivered => PlainHandled(s, e);
    case Park => PlainHandled(s, e);
    case Wake(target) => PlainHandled(s, e);
  }

  lemma PlainHandled(s: Sys, e: Event)
    requires Inv(s) && (e.Signal? || e.Delivered? || e.Park? || e.Wake?)
    ensures Handled(s, e, Step(s, e))
  {
    hide NotesTrue, NotesApart, WaitsOk, HistoryOk, Handled, Same, Tells;
    var s2 := Step(s, e);
    assert Quiet(s, s2);
    QuietSame(s, s2);
    SameHandled(s, e, s2);
  }

  lemma KilledHandled(s: Sys, sig: nat, caught: bool)
    requires Inv(s) && s.ts[s.cur].state == Running
    ensures Handled(s, KillSelf(sig, caught), KilledSelf(s, sig, caught))
  {
    hide NotesTrue, NotesApart, WaitsOk, HistoryOk, Finish, Handled;
    var u := s.ts[s.cur].(pending := caught || s.ts[s.cur].pending);
    var s1 := s.(ts := s.ts[s.cur := u]);
    AlikeKeeps(s, s.cur, u);
    FinishFlow(s1, s.cur, 128 + sig, if caught then 0 else sig);
    SameAfter(s, s1, KilledSelf(s, sig, caught));
    SameHandled(s, KillSelf(sig, caught), KilledSelf(s, sig, caught));
  }

  lemma SameAfter(s: Sys, s1: Sys, s2: Sys)
    requires s1.cur < |s.ts| == |s1.ts| && s1 == s.(ts := s1.ts) && Same(s1, s2) && Tells(s1, s2)
    requires forall j :: 0 <= j < |s.ts| ==> s1.ts[j].done == s.ts[j].done && s1.ts[j].ppid == s.ts[j].ppid
    requires forall j :: 0 <= j < |s.ts| ==> Live(s1.ts[j]) == Live(s.ts[j]) && Alive(s1.ts[j]) == Alive(s.ts[j])
    ensures Same(s, s2) && Tells(s, s2)
  {
    forall i: nat, p: nat | EndsUnder(s, s2, i, p) ensures Noted(s2, p, Life(i + 1, s.gen[i])) { assert EndsUnder(s1, s2, i, p); }
  }

  /** No end is noted in two lists, and none that has been collected is noted. */
  lemma NotedOnce(s: Sys, p: nat, l: Life)
    requires Inv(s) && Noted(s, p, l)
    ensures !Logged(s, l) && forall q: nat :: q != p ==> !Noted(s, q, l)
  {
    hide NotesTrue, WaitsOk, LogOk, LivesOk;
    var ls := Lists(s.ts);
    assert ListOk(s.gen, s.ends, s.log, ls[p]);
    forall q: nat | q < SLOTS && q != p ensures !Noted(s, q, l) {
      assert ApartFrom(ls[p], ls[q]);
    }
  }

  // ---------------------------------------------------------------- runs

  /** In a step, the process in slot i ends, whose parent is the one in slot p, alive. */
  ghost predicate Dies(s: Sys, s2: Sys, i: nat, p: nat) {
    && i < |s.ts| == |s2.ts| && p < |s.ts| && i != p && Live(s.ts[i]) && !Live(s2.ts[i])
    && s.ts[i].ppid == p + 1 && Alive(s.ts[p])
  }

  /** Nobody has collected the end, and nobody has a note of it. */
  ghost predicate Lost(s: Sys, l: Life) { l in s.ends && !Logged(s, l) && forall p: nat :: !Noted(s, p, l) }

  lemma Handles(ss: seq<Sys>, es: seq<Event>, k: nat)
    requires IsRun(ss, es) && k < |es| && Inv(ss[0])
    ensures Inv(ss[k]) && Handled(ss[k], es[k], ss[k + 1])
  {
    hide Inv, Handled, Step;
    RunKeeps(ss, es, k);
    assert Moves(ss[k], es[k], ss[k + 1]);
    StepHandles(ss[k], es[k]);
  }

  /** The end of a process whose parent is alive is noted with the parent, or collected in the same step. */
  lemma EndIsTold(s: Sys, e: Event, s2: Sys, i: nat, p: nat)
    requires Inv(s) && Handled(s, e, s2) && Dies(s, s2, i, p)
    ensures Noted(s2, p, Life(i + 1, s.gen[i])) || Logged(s2, Life(i + 1, s.gen[i]))
  {
    hide NotesTrue, NotesApart, WaitsOk, Noted, Logged, LogOk, ListsOk;
    assert Life(i + 1, s.gen[i]) !in s.ends;
    assert EndsUnder(s, s2, i, p);
  }

  /** One step in the fate of an end: noted, it stays noted or is collected, unless a fork forgets it, which loses it for good. */
  lemma OneStep(s: Sys, e: Event, s2: Sys, p: nat, l: Life)
    requires Inv(s) && Handled(s, e, s2)
    ensures Noted(s, p, l) && !Forgets(s, e, p, l) ==> Noted(s2, p, l) || Logged(s2, l)
    ensures (Noted(s, p, l) && Forgets(s, e, p, l)) || Lost(s, l) ==> Lost(s2, l)
    ensures Logged(s, l) ==> Logged(s2, l)
    ensures Noted(s, p, l) && Logged(s2, l) ==> s.cur == p
  {
    hide Inv, Noted, Logged, Recorded, EndsUnder, Forgets;
    OnlyEnds(s);
    if Noted(s, p, l) { NotedOnce(s, p, l); }
  }

  /** Noted in slot p, or collected. */
  ghost predicate Accounted(s: Sys, p: nat, l: Life) { Noted(s, p, l) || Logged(s, l) }

  lemma FateStep(s: Sys, e: Event, s2: Sys, p: nat, l: Life)
    requires Inv(s) && Handled(s, e, s2)
    ensures Accounted(s, p, l) ==> (Accounted(s2, p, l) <==> !(Noted(s, p, l) && Forgets(s, e, p, l)))
    ensures Accounted(s, p, l) || Lost(s, l) ==> Accounted(s2, p, l) || Lost(s2, l)
    ensures Lost(s, l) ==> !Accounted(s, p, l) && !Accounted(s2, p, l)
  {
    hide Inv, Noted, Logged, Handled, Forgets;
    OneStep(s, e, s2, p, l);
    if Noted(s, p, l) { NotedOnce(s, p, l); }
  }

  /** From moment k to moment m no fork forgets the end while it is noted in slot p. */
  ghost predicate Remembered(ss: seq<Sys>, es: seq<Event>, k: nat, m: nat, p: nat, l: Life)
    requires m <= |es| <= |ss|
  {
    forall j :: k <= j < m ==> !(Noted(ss[j], p, l) && Forgets(ss[j], es[j], p, l))
  }

  lemma RunSize(ss: seq<Sys>, es: seq<Event>)
    requires IsRun(ss, es)
    ensures |ss| == |es| + 1
  {
    hide Moves;
  }

  lemma RememberedNone(ss: seq<Sys>, es: seq<Event>, k: nat, p: nat, l: Life)
    requires k <= |es| <= |ss|
    ensures Remembered(ss, es, k, k, p, l)
  {
  }

  lemma RememberedMore(ss: seq<Sys>, es: seq<Event>, k: nat, m: nat, p: nat, l: Life)
    requires k <= m < |es| <= |ss|
    ensures Remembered(ss, es, k, m + 1, p, l) <==> Remembered(ss, es, k, m, p, l) && !(Noted(ss[m], p, l) && Forgets(ss[m], es[m], p, l))
  {
    hide Noted, Forgets;
  }

  /** Over every run, an end noted stays noted or collected exactly unless a fork takes the slot of its pid, or of its list, before it is collected. */
  lemma {:induction false} NoteStays(ss: seq<Sys>, es: seq<Event>, k: nat, m: nat, p: nat, l: Life)
    requires IsRun(ss, es) && Inv(ss[0]) && k <= m < |ss| && Accounted(ss[k], p, l)
    ensures Accounted(ss[m], p, l) <==> Remembered(ss, es, k, m, p, l)
    ensures Accounted(ss[m], p, l) || Lost(ss[m], l)
    decreases m
  {
    hide IsRun, Inv, Handled, Noted, Logged, Forgets, Lost, Accounted, Remembered;
    RunSize(ss, es);
    if k == m {
      RememberedNone(ss, es, k, p, l);
    } else {
      NoteStays(ss, es, k, m - 1, p, l);
      RememberedMore(ss, es, k, m - 1, p, l);
      Handles(ss, es, m - 1);
      FateStep(ss[m - 1], es[m - 1], ss[m - 1 + 1], p, l);
    }
  }

  /**
    * No note is lost: over every run from boot, when a process ends under a parent that is alive, its end is in the
    * parent's list or collected at every later moment, exactly unless a fork has forgotten it meanwhile.
    */
  lemma NoNoteLost(ss: seq<Sys>, es: seq<Event>, k: nat, m: nat, i: nat, p: nat)
    requires IsRun(ss, es) && ss[0] == Boot() && k < m < |ss| && Dies(ss[k], ss[k + 1], i, p)
    ensures i < |ss[k].gen|
    ensures Accounted(ss[m], p, Life(i + 1, ss[k].gen[i])) <==> Remembered(ss, es, k + 1, m, p, Life(i + 1, ss[k].gen[i]))
  {
    hide IsRun, Inv, Handled, Noted, Logged, Forgets, Dies, Remembered;
    RunSize(ss, es);
    BootOk();
    Handles(ss, es, k);
    HasLife(ss[k], ss[k + 1], i, p);
    EndIsTold(ss[k], es[k], ss[k + 1], i, p);
    NoteStays(ss, es, k + 1, m, p, Life(i + 1, ss[k].gen[i]));
  }

  lemma HasLife(s: Sys, s2: Sys, i: nat, p: nat)
    requires Inv(s) && Dies(s, s2, i, p)
    ensures i < |s.gen|
  {
  }

  /** Only the process in that slot collects it. */
  lemma OnlyParentCollects(ss: seq<Sys>, es: seq<Event>, k: nat, p: nat, l: Life)
    requires IsRun(ss, es) && ss[0] == Boot() && k < |es| && Noted(ss[k], p, l) && Logged(ss[k + 1], l)
    ensures ss[k].cur == p
  {
    hide IsRun, Inv, Handled, Noted, Logged, Forgets;
    RunSize(ss, es);
    BootOk();
    Handles(ss, es, k);
    OneStep(ss[k], es[k], ss[k + 1], p, l);
  }

  // ---------------------------------------------------------------- what wait_for hands out

  /** The table when a turn of wait_for looks at its list. */
  function Looking(s: Sys): (s1: Sys)
    requires s.cur < |s.ts| == |s.gen|
    ensures |s1.ts| == |s1.gen| == |s.ts|
  {
    Reap(s.(ts := s.ts[s.cur := s.ts[s.cur].(wake := false)]))
  }

  ghost predicate HasAsked(s: Sys, pid: int)
    requires s.cur < |s.ts|
  {
    exists n :: n in s.ts[s.cur].done && (pid == 0 || n.pid == pid)
  }

  /** The first note of that pid, or of any for 0, is collected with its code, and leaves the list; nothing else changes. */
  ghost predicate HandsOut(s: Sys, s2: Sys, pid: int) {
    && s.cur < |s.ts| == |s2.ts|
    && (forall j :: 0 <= j < |s.ts| && j != s.cur ==> s2.ts[j] == s.ts[j])
    && s2.ts[s.cur] == s.ts[s.cur].(done := s2.ts[s.cur].done)
    && var l := s.ts[s.cur].done;
       exists k: nat ::
         && k < |l| && (pid == 0 || l[k].pid == pid) && (forall j :: 0 <= j < k ==> pid != 0 && l[j].pid != pid)
         && 0 < l[k].pid <= |s.gen| && s2.log == s.log + [Collected(Life(l[k].pid, s.gen[l[k].pid - 1]), l[k].code)]
         && multiset(s2.ts[s.cur].done) == multiset(l) - multiset{l[k]}
  }

  lemma DroppedBag(l: seq<Note>, i: nat)
    requires i < |l|
    ensures multiset(Dropped(l, i)) == multiset(l) - multiset{l[i]}
  {
    var n := |l| - 1;
    assert l == l[..n] + [l[n]];
    if i < n { assert multiset(l[..n][i := l[n]]) == multiset(l[..n]) - multiset{l[i]} + multiset{l[n]}; }
  }

  /** A turn of wait_for collects exactly when its list has a note asked for, and then the first such one. */
  lemma TurnHands(s: Sys, pid: int, nowait: bool)
    requires Inv(s) && s.ts[s.cur].state == Running && !Gone(s.ts[0])
    ensures var s1, s2 := Looking(s), WaitTurn(s, pid, nowait);
            && s1.cur == s.cur && s1.log == s.log
            && (HasAsked(s1, pid) ==> HandsOut(s1, s2, pid))
            && (!HasAsked(s1, pid) ==> s2.log == s.log && |s2.ts| == |s1.ts| && s2.ts[s.cur].done == s1.ts[s.cur].done)
  {
    hide NotesTrue, NotesApart, WaitsOk, HistoryOk, Reap, Flow, Dropped, HandsOut;
    var s1 := Looking(s);
    TurnReaps(s, s1);
    assert s1.log == s.log by { TurnLog(s); }
    var l := s1.ts[s.cur].done;
    var k := FirstAsked(l, pid, 0);
    if k.Some? {
      assert l[k.value] in l;
      PidInRange(s1, k.value);
      DroppedBag(l, k.value);
      HandsFirst(s1, WaitTurn(s, pid, nowait), pid, k.value);
    }
  }

  /** There is such a process, and the caller is its parent. */
  ghost predicate IsChild(s: Sys, pid: int)
    requires s.cur < |s.ts|
  {
    0 < pid <= |s.ts| && s.ts[pid - 1].state != Free && s.ts[pid - 1].ppid == s.cur + 1
  }

  /** With nothing to collect, the caller parks exactly when it waits for any child, or for one it has; else the call returns. */
  lemma TurnParks(s: Sys, pid: int, nowait: bool)
    requires Inv(s) && s.ts[s.cur].state == Running && !s.ts[s.cur].waiting && !Gone(s.ts[0])
    requires Looking(s).cur == s.cur && !HasAsked(Looking(s), pid)
    ensures var s1, s2 := Looking(s), WaitTurn(s, pid, nowait);
            var parks := !nowait && (pid == 0 || IsChild(s1, pid));
            && s1.cur == s.cur && |s2.ts| == |s1.ts| == SLOTS
            && (forall j :: 0 <= j < SLOTS && j != s.cur ==> s2.ts[j] == s1.ts[j])
            && s2.ts[s.cur].state == (if parks then Blocked else Running) && s2.ts[s.cur].waiting == parks
            && (parks ==> s2.ts[s.cur].waitPid == pid)
  {
    hide NotesTrue, NotesApart, WaitsOk, HistoryOk, Reap, Flow;
    var t0 := s.ts[s.cur].(wake := false);
    var s0 := s.(ts := s.ts[s.cur := t0]);
    var s1 := Looking(s);
    AlikeKeeps(s, s.cur, t0);
    ReapKeeps(s0);
    TurnReaps(s, s1);
    var l := s1.ts[s.cur].done;
    AskedIn(l, pid);
    if 0 < pid { FindsParent(s1.ts, pid, 0); }
    if 0 < pid <= SLOTS { FindsParent(s1.ts, pid, pid - 1); }
  }

  lemma AskedIn(l: seq<Note>, pid: int)
    ensures FirstAsked(l, pid, 0).Some? ==> exists n :: n in l && (pid == 0 || n.pid == pid)
  {
    var k := FirstAsked(l, pid, 0);
    if k.Some? { assert l[k.value] in l; }
  }

  /** Back from a park with a signal pending, wait_for returns at once, and collects nothing. */
  lemma Interrupted(s: Sys)
    requires Inv(s) && s.ts[s.cur].state == Running && s.ts[s.cur].pending
    ensures Resumed(s) == s.(ts := s.ts[s.cur := s.ts[s.cur].(wake := false, waiting := false)])
  {
  }

  lemma TurnLog(s: Sys)
    requires Inv(s) && s.ts[s.cur].state == Running && !Gone(s.ts[0])
    ensures Looking(s).log == s.log
  {
    hide NotesTrue, NotesApart, WaitsOk, HistoryOk, Reap;
    var t := s.ts[s.cur].(wake := false);
    AlikeKeeps(s, s.cur, t);
    ReapKeeps(s.(ts := s.ts[s.cur := t]));
  }

  lemma PidInRange(s: Sys, k: nat)
    requires Inv(s) && k < |s.ts[s.cur].done|
    ensures 0 < s.ts[s.cur].done[k].pid <= |s.gen|
  {
    hide NotesApart, WaitsOk, HistoryOk;
    assert ListTrue(s.ts, s.ts[s.cur].done) && s.ts[s.cur].done[k] in s.ts[s.cur].done;
  }

  lemma HandsFirst(s: Sys, s2: Sys, pid: int, k: nat)
    requires s.cur < |s.ts| == |s.gen| && k < |s.ts[s.cur].done| && s2 == Collecting(s, k) && FirstAsked(s.ts[s.cur].done, pid, 0) == Some(k)
    requires 0 < s.ts[s.cur].done[k].pid <= |s.gen|
    requires multiset(Dropped(s.ts[s.cur].done, k)) == multiset(s.ts[s.cur].done) - multiset{s.ts[s.cur].done[k]}
    ensures HandsOut(s, s2, pid)
  {
    hide Dropped;
    var l := s.ts[s.cur].done;
    FirstBefore(l, pid, 0);
    assert s2.ts[s.cur].done == Dropped(l, k);
  }

  lemma {:induction false} FirstBefore(l: seq<Note>, pid: int, i: nat)
    ensures FirstAsked(l, pid, i).Some? ==> forall j :: i <= j < FirstAsked(l, pid, i).value ==> pid != 0 && l[j].pid != pid
    decreases |l| - i
  {
    if i < |l| && !Asked(pid, l[i]) { FirstBefore(l, pid, i + 1); }
  }

  /** The pid a step waits for, if it is a turn of wait_for. */
  function WaitsFor(s: Sys, e: Event): Option<int>
    requires s.cur < |s.ts|
  {
    if e.Wait? then Some(e.pid) else if e.Resume? && !s.ts[s.cur].pending then Some(s.ts[s.cur].waitPid) else None
  }

  /** Over every run: nothing is collected but by a turn of wait_for, and then a note of the pid it waits for, with its code. */
  lemma CollectsAsked(ss: seq<Sys>, es: seq<Event>, k: nat)
    requires IsRun(ss, es) && ss[0] == Boot() && k < |es|
    ensures k + 1 < |ss| && ss[k].cur < |ss[k].ts|
    ensures ss[k + 1].log != ss[k].log ==>
              var pid := WaitsFor(ss[k], es[k]);
              pid.Some? && exists l: Life, code: nat :: (pid.value == 0 || l.pid == pid.value) && ss[k + 1].log == ss[k].log + [Collected(l, code)]
  {
    hide IsRun, Inv, Step;
    RunSize(ss, es);
    BootOk();
    RunKeeps(ss, es, k);
    MoveAt(ss, es, k);
    StepCollects(ss[k], es[k]);
  }

  lemma MoveAt(ss: seq<Sys>, es: seq<Event>, k: nat)
    requires IsRun(ss, es) && k < |es|
    ensures k + 1 < |ss| && Moves(ss[k], es[k], ss[k + 1])
  {
  }

  lemma StepCollects(s: Sys, e: Event)
    requires Inv(s) && Enabled(s, e)
    ensures var s2 := Step(s, e); var pid := WaitsFor(s, e);
            s2.log != s.log ==> pid.Some? && exists l: Life, code: nat :: (pid.value == 0 || l.pid == pid.value) && s2.log == s.log + [Collected(l, code)]
  {
    hide NotesTrue, NotesApart, WaitsOk, HistoryOk, Reap, WaitTurn, Finish, Forked, Looking, HasAsked, HandsOut;
    match e
    case Wait(pid, nowait) =>
      TurnHands(s, pid, nowait);
      if HasAsked(Looking(s), pid) { HandsLog(Looking(s), WaitTurn(s, pid, nowait), pid); }
    case Resume =>
      var t := s.ts[s.cur].(wake := false, waiting := false);
      var s1 := s.(ts := s.ts[s.cur := t]);
      AlikeKeeps(s, s.cur, t);
      if !t.pending {
        TurnHands(s1, t.waitPid, false);
        if HasAsked(Looking(s1), t.waitPid) { HandsLog(Looking(s1), WaitTurn(s1, t.waitPid, false), t.waitPid); }
      }
    case Fork(ok) => ForkLog(s, ok);
    case Exit(code) => FinishRest(s, s.cur, code, 0);
    case KillSelf(sig, caught) =>
      FinishRest(s.(ts := s.ts[s.cur := s.ts[s.cur].(pending := caught || s.ts[s.cur].pending)]), s.cur, 128 + sig, if caught then 0 else sig);
    case Fault(sig) => FinishRest(s, s.cur, 128, sig);
    case Switch(to) => ReapKeeps(s);
    case Signal(_, _, _) =>
    case Delivered =>
    case Park =>
    case Wake(_) =>
  }

  lemma ForkLog(s: Sys, ok: bool)
    requires s.cur < |s.ts| == |s.gen|
    ensures Forked(s, ok).log == s.log
  {
  }

  lemma HandsLog(s: Sys, s2: Sys, pid: int)
    requires HandsOut(s, s2, pid)
    ensures exists l: Life, code: nat :: (pid == 0 || l.pid == pid) && s2.log == s.log + [Collected(l, code)]
  {
    var l := s.ts[s.cur].done;
    var k: nat :| k < |l| && (pid == 0 || l[k].pid == pid) && 0 < l[k].pid <= |s.gen| && s2.log == s.log + [Collected(Life(l[k].pid, s.gen[l[k].pid - 1]), l[k].code)];
    assert pid == 0 || Life(l[k].pid, s.gen[l[k].pid - 1]).pid == pid;
  }

  // ---------------------------------------------------------------- how it ended, who is whose child

  /** The code on record: what exit was called with, and 128 and the signal for everything else. */
  lemma EndCodes(s: Sys, e: Event)
    requires Inv(s) && Enabled(s, e) && (e.Exit? || e.KillSelf? || e.Fault?)
    ensures var s2 := Step(s, e); var l := Life(s.cur + 1, s.gen[s.cur]);
            && l !in s.ends && l in s2.ends && s2.ts[s.cur].state == Zombie
            && s2.ends[l] == if e.Exit? then e.code else 128 + e.sig
  {
    hide NotesTrue, NotesApart, WaitsOk, HistoryOk, Finish;
    var t := s.ts[s.cur];
    match e
    case Exit(code) => FinishKeeps(s, s.cur, code, 0);
    case KillSelf(sig, caught) =>
      var u := t.(pending := caught || t.pending);
      AlikeKeeps(s, s.cur, u);
      FinishKeeps(s.(ts := s.ts[s.cur := u]), s.cur, 128 + sig, if caught then 0 else sig);
    case Fault(sig) => FinishKeeps(s, s.cur, 128, sig);
  }

  /** A process somebody killed ends at the next reap, with 128 and the signal. */
  lemma KilledEnds(s: Sys, i: nat)
    requires Inv(s) && 0 < i < SLOTS && i != s.cur && s.ts[i].state == Killed && s.ts[s.cur].state != Killed
    ensures var s2 := Reap(s); var l := Life(i + 1, s.gen[i]);
            && |s2.ts| == SLOTS && s2.ts[i].state == Free && l in s2.ends && s2.ends[l] == 128 + s.ts[i].signal
  {
    hide NotesTrue, NotesApart, WaitsOk, HistoryOk;
    KilledEndsFrom(s, 1, i);
  }

  lemma {:induction false} KilledEndsFrom(s: Sys, k: nat, i: nat)
    requires Inv(s) && k <= i < SLOTS && i != s.cur && s.ts[i].state == Killed && s.ts[s.cur].state != Killed
    ensures var s2 := ReapFrom(s, k); var l := Life(i + 1, s.gen[i]);
            && |s2.ts| == SLOTS && s2.ts[i].state == Free && l in s2.ends && s2.ends[l] == 128 + s.ts[i].signal
    decreases SLOTS - k
  {
    hide NotesTrue, NotesApart, WaitsOk, HistoryOk, ReapOne, Flow;
    var s1 := ReapOne(s, k);
    ReapOneKeeps(s, k);
    if k == i {
      KilledHere(s, i);
      FreeStays(s1, k + 1, i);
    } else {
      OtherSlot(s, k, i);
      KilledEndsFrom(s1, k + 1, i);
    }
  }

  lemma KilledHere(s: Sys, i: nat)
    requires Inv(s) && i < SLOTS && i != s.cur && s.ts[i].state == Killed
    ensures var s1 := ReapOne(s, i); var l := Life(i + 1, s.gen[i]);
            && |s1.ts| == SLOTS && s1.ts[i].state == Free && l in s1.ends && s1.ends[l] == 128 + s.ts[i].signal
  {
    hide NotesTrue, NotesApart, WaitsOk, HistoryOk, Finish;
    FinishKeeps(s, i, 128 + s.ts[i].signal, s.ts[i].signal);
    FinishRest(s, i, 128 + s.ts[i].signal, s.ts[i].signal);
  }

  /** What reaping one slot does to another: a note, or a wake-up. */
  lemma OtherSlot(s: Sys, k: nat, i: nat)
    requires Inv(s) && k < SLOTS && i < SLOTS && i != k && s.ts[s.cur].state != Killed
    ensures var s1 := ReapOne(s, k);
            && |s1.ts| == SLOTS && s1.gen == s.gen && s1.cur == s.cur && Kept(s.ends, s1.ends)
            && s1.ts[i].signal == s.ts[i].signal
            && (s1.ts[i].state == s.ts[i].state || (s.ts[i].state == Blocked && s1.ts[i].state == Ready))
  {
    hide NotesTrue, NotesApart, WaitsOk, Finish;
    if s.ts[k].state == Killed {
      FinishTells(s, k, 128 + s.ts[k].signal, s.ts[k].signal);
      FinishRest(s, k, 128 + s.ts[k].signal, s.ts[k].signal);
      FinishKeeps(s, k, 128 + s.ts[k].signal, s.ts[k].signal);
    }
  }

  lemma {:induction false} FreeStays(s: Sys, k: nat, i: nat)
    requires Inv(s) && i < k && i < SLOTS && s.ts[i].state == Free && s.ts[s.cur].state != Killed
    ensures var s2 := ReapFrom(s, k);
            |s2.ts| == SLOTS && s2.ts[i].state == Free && Kept(s.ends, s2.ends)
    decreases SLOTS - k
  {
    hide NotesTrue, NotesApart, WaitsOk, HistoryOk, ReapOne;
    if k < SLOTS {
      ReapOneKeeps(s, k);
      OtherSlot(s, k, i);
      FreeStays(ReapOne(s, k), k + 1, i);
    }
  }

  /** A fork makes a child of the caller in the first free slot behind init's: a new life, with no notes; all others lose the old pid's notes at most. */
  lemma ForkMakes(s: Sys)
    requires Inv(s) && s.ts[s.cur].state == Running && exists f :: 0 < f < SLOTS && s.ts[f].state == Free
    ensures var s2 := Forked(s, true);
            && |s2.ts| == |s2.gen| == SLOTS && s2.cur == s.cur && s2.ends == s.ends && s2.log == s.log
            && exists f: nat ::
              && 0 < f < SLOTS && s.ts[f].state == Free && (forall j :: 0 < j < f ==> s.ts[j].state != Free)
              && s2.ts[f].state == Ready && s2.ts[f].pid == f + 1 && s2.ts[f].ppid == s.cur + 1 && s2.ts[f].done == []
              && !s2.ts[f].waiting && !s2.ts[f].wake && !s2.ts[f].pending && s2.gen == s.gen[f := s.gen[f] + 1]
              && forall j :: 0 <= j < SLOTS && j != f ==>
                   s2.ts[j] == s.ts[j].(done := s2.ts[j].done) && forall n :: n in s2.ts[j].done <==> n in s.ts[j].done && n.pid != f + 1
  {
    hide NotesTrue, NotesApart, WaitsOk, HistoryOk, Without;
    var f := FreeSlot(s.ts, 1);
    FirstFree(s.ts, 1);
    PurgeClears(s.ts, f.value, EMPTY.(state := Ready, pid := f.value + 1, ppid := s.ts[s.cur].pid));
    forall j | 0 <= j < SLOTS && j != f.value ensures forall n :: n in Without(s.ts[j].done, f.value + 1) <==> n in s.ts[j].done && n.pid != f.value + 1 {
      WithoutNotes(s.ts[j].done, f.value + 1);
    }
  }

  lemma {:induction false} FirstFree(ts: seq<Task>, i: nat)
    ensures FreeSlot(ts, i).Some? ==> forall j :: i <= j < FreeSlot(ts, i).value ==> ts[j].state != Free
    decreases |ts| - i
  {
    if i < |ts| && ts[i].state != Free { FirstFree(ts, i + 1); }
  }

  /** A signal nobody catches: by the next reap the process is gone, with 128 and the signal on record. */
  lemma SignalEnds(s: Sys, i: nat, sig: nat)
    requires Inv(s) && 0 < i < SLOTS && i != s.cur && Alive(s.ts[i]) && s.ts[s.cur].state != Killed
    ensures var s2 := Reap(Step(s, Signal(i, sig, false))); var l := Life(i + 1, s.gen[i]);
            |s2.ts| == SLOTS && s2.ts[i].state == Free && l in s2.ends && s2.ends[l] == 128 + sig
  {
    hide NotesTrue, NotesApart, WaitsOk, HistoryOk, Reap;
    AlikeKeeps(s, i, Signalled(s.ts[i], sig, false));
    KilledEnds(Step(s, Signal(i, sig, false)), i);
  }

  /** A wake-up that comes before the park is spent by it, one that comes after ends it, and none counts twice. */
  lemma WakeNotLost(t: Task)
    requires t.state == Running
    ensures Parked(Unblocked(t)) == t.(wake := false)
    ensures !t.wake ==> Unblocked(Parked(t)).state == Ready && !Unblocked(Parked(t)).wake
    ensures Parked(Parked(Unblocked(t))).state == Blocked
  {
  }
}
