/** Exit notes: how the end of a process gets to its parent, whoever waits for it, once. */
module Notes {
  import opened Basics

  const SLOTS := 8

  datatype State = Free | Ready | Running | Zombie | Killed | Blocked

  /** One entry of done_pid and done_code. */
  datatype Note = Note(pid: nat, code: nat)

  datatype Task = Task(state: State, pid: nat, ppid: nat, exitCode: nat, signal: nat, done: seq<Note>,
                       waiting: bool, waitPid: int, wake: bool, pending: bool)

  /** One holder of a pid: every successful fork into a slot starts a new one. */
  datatype Life = Life(pid: nat, gen: nat)

  datatype Collected = Collected(life: Life, code: nat)

  /** The table and g_current; `gen`, `ends` and `log` are history: who had which pid, how it ended, what wait returned. */
  datatype Sys = Sys(ts: seq<Task>, cur: nat, gen: seq<nat>, ends: map<Life, nat>, log: seq<Collected>)

  const EMPTY: Task := Task(Free, 0, 0, 0, 0, [], false, 0, false, false)

  // ---------------------------------------------------------------- operations

  /** find */
  function Find(ts: seq<Task>, pid: nat): Option<nat> { FindFrom(ts, pid, 0) }

  function FindFrom(ts: seq<Task>, pid: nat, i: nat): (r: Option<nat>)
    ensures r.Some? ==> i <= r.value < |ts| && ts[r.value].state != Free && ts[r.value].pid == pid
    ensures r.None? ==> forall k :: i <= k < |ts| ==> ts[k].state == Free || ts[k].pid != pid
    decreases |ts| - i
  {
    if i >= |ts| then None else if ts[i].state != Free && ts[i].pid == pid then Some(i) else FindFrom(ts, pid, i + 1)
  }

  function Unblocked(t: Task): Task { if t.state == Blocked then t.(state := Ready) else t.(wake := true) }

  /** The code a parent gets to see. */
  function EndCode(t: Task): nat { if t.signal != 0 then 128 + t.signal else t.exitCode }

  /** announce */
  function Announced(ts: seq<Task>, i: nat): (r: seq<Task>)
    requires i < |ts|
    ensures |r| == |ts|
  {
    var p := Find(ts, ts[i].ppid);
    if p.None? || p.value == i || |ts[p.value].done| >= SLOTS then ts
    else
      var t := ts[p.value].(done := ts[p.value].done + [Note(ts[i].pid, EndCode(ts[i]))]);
      ts[p.value := if t.waiting then Unblocked(t) else t]
  }

  /** A process ends: it turns into a zombie, and its parent hears of it. */
  function Finish(s: Sys, i: nat, exitCode: nat, signal: nat): (s2: Sys)
    requires i < |s.ts| == |s.gen|
    ensures |s2.ts| == |s2.gen| == |s.ts|
  {
    var ts := s.ts[i := s.ts[i].(state := Zombie, exitCode := exitCode, signal := signal)];
    s.(ts := Announced(ts, i), ends := s.ends[Life(i + 1, s.gen[i]) := EndCode(ts[i])])
  }

  /** reap, one slot: a killed process ends, a zombie that is not running leaves the table. */
  function ReapOne(s: Sys, i: nat): (s2: Sys)
    requires i < |s.ts| == |s.gen|
    ensures |s2.ts| == |s2.gen| == |s.ts|
  {
    var s1 := if s.ts[i].state == Killed then Finish(s, i, 128 + s.ts[i].signal, s.ts[i].signal) else s;
    if s1.ts[i].state == Zombie && i != s1.cur then s1.(ts := s1.ts[i := s1.ts[i].(state := Free)]) else s1
  }

  function ReapFrom(s: Sys, i: nat): (s2: Sys)
    requires |s.ts| == |s.gen|
    ensures |s2.ts| == |s2.gen| == |s.ts|
    decreases |s.ts| - i
  {
    if i >= |s.ts| then s else ReapFrom(ReapOne(s, i), i + 1)
  }

  function Reap(s: Sys): (s2: Sys)
    requires |s.ts| == |s.gen|
    ensures |s2.ts| == |s2.gen| == |s.ts|
  {
    ReapFrom(s, 1)
  }

  function Without(l: seq<Note>, pid: nat): seq<Note> {
    if l == [] then [] else Without(l[..|l| - 1], pid) + (if l[|l| - 1].pid == pid then [] else [l[|l| - 1]])
  }

  /** purge_notes */
  function Purged(ts: seq<Task>, pid: nat): (r: seq<Task>)
    ensures |r| == |ts| && forall i :: 0 <= i < |ts| ==> r[i] == ts[i].(done := Without(ts[i].done, pid))
  {
    seq(|ts|, i requires 0 <= i < |ts| => ts[i].(done := Without(ts[i].done, pid)))
  }

  /** free_slot */
  function FreeSlot(ts: seq<Task>, i: nat): (r: Option<nat>)
    ensures r.Some? ==> i <= r.value < |ts| && ts[r.value].state == Free
    ensures r.None? ==> forall k :: i <= k < |ts| ==> ts[k].state != Free
    decreases |ts| - i
  {
    if i >= |ts| then None else if ts[i].state == Free then Some(i) else FreeSlot(ts, i + 1)
  }

  /** fork_user: `ok` says whether there was memory for it. The notes are gone either way. */
  function Forked(s: Sys, ok: bool): Sys
    requires s.cur < |s.ts| == |s.gen|
  {
    var f := FreeSlot(s.ts, 1);
    if f.None? then s
    else
      var ts := Purged(s.ts, f.value + 1);
      if ok then s.(ts := ts[f.value := EMPTY.(state := Ready, pid := f.value + 1, ppid := s.ts[s.cur].pid)], gen := s.gen[f.value := s.gen[f.value] + 1])
      else s.(ts := ts[f.value := EMPTY])
  }

  predicate Asked(pid: int, n: Note) { pid == 0 || n.pid == pid }

  /** The first note take_done accepts. */
  function FirstAsked(l: seq<Note>, pid: int, i: nat): (r: Option<nat>)
    ensures r.Some? ==> i <= r.value < |l| && Asked(pid, l[r.value])
    ensures r.None? ==> forall k :: i <= k < |l| ==> !Asked(pid, l[k])
    decreases |l| - i
  {
    if i >= |l| then None else if Asked(pid, l[i]) then Some(i) else FirstAsked(l, pid, i + 1)
  }

  /** The last one moves into the hole. */
  function Dropped(l: seq<Note>, i: nat): (r: seq<Note>)
    requires i < |l|
    ensures |r| == |l| - 1
  {
    if i == |l| - 1 then l[..|l| - 1] else l[..|l| - 1][i := l[|l| - 1]]
  }

  /** block */
  function Parked(t: Task): Task { if t.wake then t.(wake := false) else t.(state := Blocked) }

  /** One turn of the loop in wait_for. */
  function WaitTurn(s: Sys, pid: int, nowait: bool): Sys
    requires s.cur < |s.ts| == |s.gen|
  {
    var s1 := Reap(s.(ts := s.ts[s.cur := s.ts[s.cur].(wake := false)]));
    var t := s1.ts[s.cur];
    var k := FirstAsked(t.done, pid, 0);
    if k.Some? then
      var n := t.done[k.value];
      s1.(ts := s1.ts[s.cur := t.(done := Dropped(t.done, k.value))],
          log := s1.log + [Collected(Life(n.pid, if 0 < n.pid <= |s1.gen| then s1.gen[n.pid - 1] else 0), n.code)])
    else if pid != 0 && (pid < 0 || Find(s1.ts, pid).None? || s1.ts[Find(s1.ts, pid).value].ppid != t.pid) then s1
    else if nowait then s1.(ts := s1.ts[s.cur := t.(waiting := false, waitPid := pid)])
    else s1.(ts := s1.ts[s.cur := Parked(t.(waiting := true, waitPid := pid))])
  }

  /** Back from block in wait_for: a signal ends the call, anything else is another turn. */
  function Resumed(s: Sys): Sys
    requires s.cur < |s.ts| == |s.gen|
  {
    var t := s.ts[s.cur].(wake := false, waiting := false);
    var s1 := s.(ts := s.ts[s.cur := t]);
    if t.pending then s1 else WaitTurn(s1, t.waitPid, false)
  }

  /** signal_task: `caught` says whether there is a handler for it. */
  function Signalled(t: Task, sig: nat, caught: bool): Task {
    if t.state == Zombie || t.state == Killed || t.state == Free then t
    else if caught then (if t.state == Blocked then Unblocked(t.(pending := true)) else t.(pending := true))
    else t.(signal := sig, state := Killed)
  }

  /** task_switch_now, or preempt: reap, then the processor goes to `to`. */
  function Switched(s: Sys, to: nat): Sys
    requires s.cur < |s.ts| == |s.gen| && to < |s.ts|
  {
    var s1 := Reap(s);
    var ts := if s1.ts[s.cur].state == Running then s1.ts[s.cur := s1.ts[s.cur].(state := Ready)] else s1.ts;
    s1.(ts := ts[to := ts[to].(state := Running)], cur := to)
  }

  // ---------------------------------------------------------------- what every step keeps

  /** Not ended yet, or not found out yet. */
  predicate Live(t: Task) { t.state == Ready || t.state == Running || t.state == Blocked || t.state == Killed }

  ghost predicate Shape(s: Sys) {
    && |s.ts| == |s.gen| == SLOTS && s.cur < SLOTS
    && forall i :: 0 <= i < SLOTS && s.ts[i].state != Free ==> s.ts[i].pid == i + 1
  }

  /** A note is about a process that has ended, with the code of the last one that had the pid. */
  ghost predicate NotesTrue(ts: seq<Task>) {
    |ts| == SLOTS && forall i :: 0 <= i < SLOTS ==> ListTrue(ts, ts[i].done)
  }

  ghost predicate ListTrue(ts: seq<Task>, l: seq<Note>) {
    forall n :: n in l ==> 0 < n.pid <= |ts| && !Live(ts[n.pid - 1]) && n.code == EndCode(ts[n.pid - 1])
  }

  ghost predicate OncePerList(l: seq<Note>) { forall k, m :: 0 <= k < m < |l| ==> l[k].pid != l[m].pid }

  function Lists(ts: seq<Task>): (ls: seq<seq<Note>>)
    ensures |ls| == |ts| && forall i :: 0 <= i < |ts| ==> ls[i] == ts[i].done
  {
    seq(|ts|, i requires 0 <= i < |ts| => ts[i].done)
  }

  ghost predicate ApartFrom(l: seq<Note>, r: seq<Note>) { forall m, n :: m in l && n in r ==> m.pid != n.pid }

  /** No pid is noted twice, wherever. */
  ghost predicate NotesApart(ls: seq<seq<Note>>) {
    && (forall i :: 0 <= i < |ls| ==> OncePerList(ls[i]))
    && (forall i, j :: 0 <= i < |ls| && 0 <= j < |ls| && i != j ==> ApartFrom(ls[i], ls[j]))
  }

  predicate InWait(t: Task) { t.state == Blocked && t.waiting }

  /** Nobody is parked in wait_for with a note it asked for; who waits for one child has one that is still to end. */
  ghost predicate WaitsInVain(ts: seq<Task>, i: nat)
    requires i < |ts|
  {
    InWait(ts[i]) && (
      || (exists n :: n in ts[i].done && Asked(ts[i].waitPid, n))
      || (ts[i].waitPid != 0 && !(0 < ts[i].waitPid <= |ts| && Live(ts[ts[i].waitPid - 1]) && ts[ts[i].waitPid - 1].ppid == i + 1)))
  }

  ghost predicate WaitsOk(ts: seq<Task>) { forall i :: 0 <= i < |ts| ==> !WaitsInVain(ts, i) }

  ghost predicate Before(gen: seq<nat>, l: Life) { 0 < l.pid <= |gen| && l.gen <= gen[l.pid - 1] }

  /** Every end belongs to a life there was; what was collected is an end, and at most once. */
  ghost predicate LogOk(gen: seq<nat>, ends: map<Life, nat>, log: seq<Collected>) {
    && (forall l :: l in ends ==> Before(gen, l))
    && (forall k :: 0 <= k < |log| ==> log[k].life in ends && ends[log[k].life] == log[k].code)
    && (forall k, m :: 0 <= k < m < |log| ==> log[k].life != log[m].life)
  }

  /** Who is alive has not ended. */
  ghost predicate LivesOk(ts: seq<Task>, gen: seq<nat>, ends: map<Life, nat>) {
    |ts| == |gen| && forall i :: 0 <= i < |ts| && Live(ts[i]) ==> Life(i + 1, gen[i]) !in ends
  }

  /** What is noted is an end nobody has collected. */
  ghost predicate Uncollected(gen: seq<nat>, ends: map<Life, nat>, log: seq<Collected>, n: Note) {
    && 0 < n.pid <= |gen| && Life(n.pid, gen[n.pid - 1]) in ends && ends[Life(n.pid, gen[n.pid - 1])] == n.code
    && forall k :: 0 <= k < |log| ==> log[k].life != Life(n.pid, gen[n.pid - 1])
  }

  ghost predicate ListOk(gen: seq<nat>, ends: map<Life, nat>, log: seq<Collected>, l: seq<Note>) {
    forall n :: n in l ==> Uncollected(gen, ends, log, n)
  }

  ghost predicate ListsOk(gen: seq<nat>, ends: map<Life, nat>, log: seq<Collected>, ls: seq<seq<Note>>) {
    forall i :: 0 <= i < |ls| ==> ListOk(gen, ends, log, ls[i])
  }

  ghost predicate HistoryOk(s: Sys) {
    LogOk(s.gen, s.ends, s.log) && LivesOk(s.ts, s.gen, s.ends) && ListsOk(s.gen, s.ends, s.log, Lists(s.ts))
  }

  ghost predicate Inv(s: Sys) { Shape(s) && NotesTrue(s.ts) && NotesApart(Lists(s.ts)) && WaitsOk(s.ts) && HistoryOk(s) }

  // ---------------------------------------------------------------- a list cannot overflow

  lemma {:induction false} Pigeonhole(l: seq<Note>, pids: set<nat>)
    requires OncePerList(l) && forall k :: 0 <= k < |l| ==> l[k].pid in pids
    ensures |l| <= |pids|
  {
    if l != [] {
      var n := l[|l| - 1];
      Pigeonhole(l[..|l| - 1], pids - {n.pid});
    }
  }

  lemma SevenOthers(l: seq<Note>, pid: nat)
    requires OncePerList(l) && 0 < pid <= SLOTS && forall n :: n in l ==> 0 < n.pid <= SLOTS && n.pid != pid
    ensures |l| < SLOTS
  {
    var pids: set<nat> := {1, 2, 3, 4, 5, 6, 7, 8};
    assert |pids| == 8 && |pids - {pid}| == |pids| - 1;
    forall k | 0 <= k < |l| ensures l[k].pid in pids - {pid} { assert l[k] in l; }
    Pigeonhole(l, pids - {pid});
  }

  /** When a process ends there is room for its note: the pids in a list differ, and none is its own. */
  lemma RoomForNote(s: Sys, i: nat, p: nat)
    requires Shape(s) && NotesTrue(s.ts) && NotesApart(Lists(s.ts)) && i < SLOTS && p < SLOTS && Live(s.ts[i])
    ensures |s.ts[p].done| < SLOTS && forall n :: n in s.ts[p].done ==> n.pid != i + 1
  {
    assert ListTrue(s.ts, s.ts[p].done) && OncePerList(Lists(s.ts)[p]);
    SevenOthers(s.ts[p].done, i + 1);
  }

  lemma FindsParent(ts: seq<Task>, pid: nat, i: nat)
    requires |ts| == SLOTS && forall k :: 0 <= k < SLOTS && ts[k].state != Free ==> ts[k].pid == k + 1
    ensures Find(ts, pid).Some? ==> Find(ts, pid).value == pid - 1
    ensures i < SLOTS && ts[i].state != Free ==> Find(ts, i + 1) == Some(i)
  {
  }

  // ---------------------------------------------------------------- a process ends

  function Heard(t: Task, n: Note): Task {
    var u := t.(done := t.done + [n]);
    if u.waiting then Unblocked(u) else u
  }

  /** Slot i has ended as `dead`; its parent, if there is one, has a note of it, and nobody else has changed. */
  ghost predicate Told(ts: seq<Task>, ts2: seq<Task>, i: nat, dead: Task) {
    && |ts| == |ts2| == SLOTS && i < SLOTS && ts2[i] == dead && dead.state == Zombie && dead.done == ts[i].done
    && (forall j :: 0 <= j < SLOTS && j != i ==>
      ts2[j] == if j + 1 == ts[i].ppid && ts[j].state != Free then Heard(ts[j], Note(i + 1, EndCode(dead))) else ts[j])
  }

  lemma FinishTells(s: Sys, i: nat, exitCode: nat, signal: nat)
    requires Inv(s) && i < SLOTS && Live(s.ts[i])
    ensures Told(s.ts, Finish(s, i, exitCode, signal).ts, i, s.ts[i].(state := Zombie, exitCode := exitCode, signal := signal))
  {
    hide WaitsOk, HistoryOk;
    var dead := s.ts[i].(state := Zombie, exitCode := exitCode, signal := signal);
    var ts := s.ts[i := dead];
    var pid := dead.ppid;
    FindsParent(ts, pid, 0);
    if 0 < pid <= SLOTS {
      RoomForNote(s, i, pid - 1);
      FindsParent(ts, pid, pid - 1);
    }
  }

  lemma ToldNotes(s: Sys, ts2: seq<Task>, i: nat, dead: Task)
    requires Inv(s) && i < SLOTS && Live(s.ts[i]) && Told(s.ts, ts2, i, dead)
    ensures NotesTrue(ts2)
  {
    hide WaitsOk, HistoryOk, NotesApart, Told, ListTrue;
    ToldDead(s.ts, ts2, i, dead);
    forall j | 0 <= j < SLOTS ensures ListTrue(ts2, ts2[j].done) {
      assert ListTrue(s.ts, s.ts[j].done);
      RoomForNote(s, i, j);
      ToldListTrue(s.ts, ts2, i, dead, j);
    }
  }

  lemma ToldListTrue(ts: seq<Task>, ts2: seq<Task>, i: nat, dead: Task, j: nat)
    requires Told(ts, ts2, i, dead) && j < SLOTS && ListTrue(ts, ts[j].done) && forall n :: n in ts[j].done ==> n.pid != i + 1
    ensures |ts2| == SLOTS && ListTrue(ts2, ts2[j].done)
  {
    hide Told;
    ToldDead(ts, ts2, i, dead);
    ToldList(ts, ts2, i, dead, j);
    forall n | n in ts[j].done ensures 0 < n.pid <= SLOTS && !Live(ts2[n.pid - 1]) && n.code == EndCode(ts2[n.pid - 1]) {
      ToldSlot(ts, ts2, i, dead, n.pid - 1);
    }
  }

  /** Every list is what it was, but for the one new note. */
  lemma ToldList(ts: seq<Task>, ts2: seq<Task>, i: nat, dead: Task, j: nat)
    requires Told(ts, ts2, i, dead) && j < SLOTS
    ensures |ts2| == SLOTS
    ensures ts2[j].done == ts[j].done || (j != i && j + 1 == ts[i].ppid && ts2[j].done == ts[j].done + [Note(i + 1, EndCode(dead))])
  {
  }

  lemma ToldSlot(ts: seq<Task>, ts2: seq<Task>, i: nat, dead: Task, j: nat)
    requires Told(ts, ts2, i, dead) && j < SLOTS && j != i
    ensures |ts2| == SLOTS && Live(ts2[j]) == Live(ts[j]) && EndCode(ts2[j]) == EndCode(ts[j]) && ts2[j].ppid == ts[j].ppid && ts2[j].pid == ts[j].pid
    ensures (ts2[j].state == Free <==> ts[j].state == Free) && ts2[j].waitPid == ts[j].waitPid
    ensures InWait(ts2[j]) ==> InWait(ts[j]) && ts2[j].done == ts[j].done && !(j + 1 == ts[i].ppid)
  {
  }

  lemma ToldApart(s: Sys, ts2: seq<Task>, i: nat, dead: Task)
    requires Inv(s) && i < SLOTS && Live(s.ts[i]) && Told(s.ts, ts2, i, dead)
    ensures NotesApart(Lists(ts2))
  {
    hide WaitsOk, HistoryOk, NotesTrue, Told;
    var ls, ls2 := Lists(s.ts), Lists(ts2);
    ToldList(s.ts, ts2, i, dead, 0);
    forall j | 0 <= j < SLOTS ensures OncePerList(ls2[j]) {
      assert OncePerList(ls[j]);
      RoomForNote(s, i, j);
      ToldList(s.ts, ts2, i, dead, j);
      forall k | 0 <= k < |ls[j]| ensures ls[j][k].pid != i + 1 { assert ls[j][k] in ls[j]; }
    }
    forall j, m | 0 <= j < SLOTS && 0 <= m < SLOTS && j != m ensures ApartFrom(ls2[j], ls2[m]) {
      assert ApartFrom(ls[j], ls[m]);
      RoomForNote(s, i, j);
      RoomForNote(s, i, m);
      ToldList(s.ts, ts2, i, dead, j);
      ToldList(s.ts, ts2, i, dead, m);
    }
  }

  lemma ToldWaits(s: Sys, ts2: seq<Task>, i: nat, dead: Task)
    requires Inv(s) && i < SLOTS && Live(s.ts[i]) && Told(s.ts, ts2, i, dead)
    ensures WaitsOk(ts2)
  {
    hide HistoryOk, NotesTrue, NotesApart;
    forall j | 0 <= j < SLOTS ensures !WaitsInVain(ts2, j) {
      if j != i {
        ToldSlot(s.ts, ts2, i, dead, j);
        assert !WaitsInVain(s.ts, j);
        if InWait(ts2[j]) && ts2[j].waitPid != 0 {
          var w := ts2[j].waitPid - 1;
          assert w != i;
          ToldSlot(s.ts, ts2, i, dead, w);
        }
      }
    }
  }

  lemma ToldHistory(s: Sys, s2: Sys, i: nat, dead: Task)
    requires Inv(s) && i < SLOTS && Live(s.ts[i]) && Told(s.ts, s2.ts, i, dead)
    requires s2 == s.(ts := s2.ts, ends := s.ends[Life(i + 1, s.gen[i]) := EndCode(dead)])
    ensures HistoryOk(s2)
  {
    hide WaitsOk, NotesApart, NotesTrue, Told, ListOk;
    ToldDead(s.ts, s2.ts, i, dead);
    forall j | 0 <= j < SLOTS && Live(s2.ts[j]) ensures Life(j + 1, s.gen[j]) !in s2.ends {
      if j != i { ToldSlot(s.ts, s2.ts, i, dead, j); }
    }
    forall j | 0 <= j < SLOTS ensures ListOk(s2.gen, s2.ends, s2.log, Lists(s2.ts)[j]) {
      assert ListOk(s.gen, s.ends, s.log, Lists(s.ts)[j]);
      RoomForNote(s, i, j);
      ToldList(s.ts, s2.ts, i, dead, j);
      EndedList(s, i, s.ts[j].done, EndCode(dead));
    }
  }

  /** One more end: the notes that were there stay good, and one about the end is good too. */
  lemma EndedList(s: Sys, i: nat, l: seq<Note>, code: nat)
    requires LogOk(s.gen, s.ends, s.log) && i < |s.gen| && Life(i + 1, s.gen[i]) !in s.ends
    requires ListOk(s.gen, s.ends, s.log, l) && forall n :: n in l ==> n.pid != i + 1
    ensures var ends2 := s.ends[Life(i + 1, s.gen[i]) := code];
            && LogOk(s.gen, ends2, s.log) && ListOk(s.gen, ends2, s.log, l)
            && ListOk(s.gen, ends2, s.log, l + [Note(i + 1, code)])
  {
  }

  lemma ToldDead(ts: seq<Task>, ts2: seq<Task>, i: nat, dead: Task)
    requires Told(ts, ts2, i, dead)
    ensures |ts| == |ts2| == SLOTS && i < SLOTS && ts2[i] == dead && !Live(ts2[i])
  {
  }

  lemma FinishKeeps(s: Sys, i: nat, exitCode: nat, signal: nat)
    requires Inv(s) && i < SLOTS && Live(s.ts[i])
    ensures var s2 := Finish(s, i, exitCode, signal);
            && Inv(s2) && s2.ts[i] == s.ts[i].(state := Zombie, exitCode := exitCode, signal := signal)
            && (forall j :: 0 <= j < SLOTS && j != i ==> (Live(s2.ts[j]) == Live(s.ts[j])))
            && Life(i + 1, s.gen[i]) !in s.ends && s2.ends == s.ends[Life(i + 1, s.gen[i]) := EndCode(s2.ts[i])]
  {
    hide NotesTrue, NotesApart, WaitsOk, WaitsInVain, Finish;
    var dead := s.ts[i].(state := Zombie, exitCode := exitCode, signal := signal);
    var s2 := Finish(s, i, exitCode, signal);
    FinishTells(s, i, exitCode, signal);
    FinishRest(s, i, exitCode, signal);
    ToldNotes(s, s2.ts, i, dead);
    ToldApart(s, s2.ts, i, dead);
    ToldWaits(s, s2.ts, i, dead);
    ToldHistory(s, s2, i, dead);
    forall j | 0 <= j < SLOTS && j != i ensures Live(s2.ts[j]) == Live(s.ts[j]) && (s2.ts[j].state != Free ==> s2.ts[j].pid == j + 1) {
      ToldSlot(s.ts, s2.ts, i, dead, j);
    }
  }

  lemma FinishRest(s: Sys, i: nat, exitCode: nat, signal: nat)
    requires |s.ts| == |s.gen| == SLOTS && i < SLOTS
    ensures var s2 := Finish(s, i, exitCode, signal);
            var dead := s.ts[i].(state := Zombie, exitCode := exitCode, signal := signal);
            s2 == s.(ts := s2.ts, ends := s.ends[Life(i + 1, s.gen[i]) := EndCode(dead)])
  {
  }

  // ---------------------------------------------------------------- changes that no note depends on

  /** The slot stays what it is to others: its notes, its pids, its being alive, how it ended. */
  predicate Alike(t: Task, u: Task) {
    && u.done == t.done && u.pid == t.pid && u.ppid == t.ppid && Live(u) == Live(t) && (u.state == Free ==> !Live(t))
    && (t.state == Free ==> u.state == Free) && (!Live(t) ==> EndCode(u) == EndCode(t))
    && (InWait(u) ==> InWait(t) && u.waitPid == t.waitPid)
  }

  lemma AlikeKeeps(s: Sys, i: nat, u: Task)
    requires Inv(s) && i < SLOTS && Alike(s.ts[i], u)
    ensures Inv(s.(ts := s.ts[i := u]))
  {
    hide NotesApart, HistoryOk, WaitsOk, NotesTrue, Alike;
    AlikeLists(s, i, u);
    AlikeWaits(s, i, u);
  }

  lemma AlikeLists(s: Sys, i: nat, u: Task)
    requires Inv(s) && i < SLOTS && Alike(s.ts[i], u)
    ensures var s2 := s.(ts := s.ts[i := u]);
            Lists(s2.ts) == Lists(s.ts) && HistoryOk(s2) && NotesTrue(s2.ts) && Shape(s2)
  {
    hide WaitsOk, NotesApart, ListsOk, LogOk;
    var s2 := s.(ts := s.ts[i := u]);
    assert Lists(s2.ts) == Lists(s.ts);
    forall j | 0 <= j < SLOTS ensures ListTrue(s2.ts, s2.ts[j].done) { assert ListTrue(s.ts, s.ts[j].done); }
  }

  lemma AlikeWaits(s: Sys, i: nat, u: Task)
    requires Inv(s) && i < SLOTS && Alike(s.ts[i], u)
    ensures WaitsOk(s.ts[i := u])
  {
    hide HistoryOk, NotesApart, NotesTrue;
    var ts2 := s.ts[i := u];
    forall j | 0 <= j < SLOTS ensures !WaitsInVain(ts2, j) { assert !WaitsInVain(s.ts, j); }
  }

  // ---------------------------------------------------------------- reap

  ghost predicate Gone(t: Task) { t.state == Zombie || t.state == Killed }

  /** What reap leaves alone. */
  ghost predicate Reaped(s: Sys, s2: Sys) {
    && |s.ts| == |s2.ts| == SLOTS && s2.cur == s.cur < SLOTS && s2.gen == s.gen && s2.log == s.log
    && s2.ts[s.cur].waiting == s.ts[s.cur].waiting && s2.ts[s.cur].waitPid == s.ts[s.cur].waitPid
    && (s.ts[s.cur].state == Running ==> s2.ts[s.cur].state == Running)
    && (s.ts[s.cur].state != Killed ==> s2.ts[s.cur].state != Killed)
    && (!s.ts[s.cur].waiting ==> s2.ts[s.cur].wake == s.ts[s.cur].wake)
    && (forall j :: 0 <= j < SLOTS && !Gone(s.ts[j]) ==> !Gone(s2.ts[j]))
  }

  lemma FinishReaped(s: Sys, i: nat, exitCode: nat, signal: nat)
    requires Inv(s) && i < SLOTS && Live(s.ts[i]) && i != s.cur
    ensures var s2 := Finish(s, i, exitCode, signal);
            && s2.cur == s.cur && s2.gen == s.gen && s2.log == s.log
            && s2.ts[s.cur].waiting == s.ts[s.cur].waiting && s2.ts[s.cur].waitPid == s.ts[s.cur].waitPid
            && (s.ts[s.cur].state == Running ==> s2.ts[s.cur].state == Running)
            && (s.ts[s.cur].state != Killed ==> s2.ts[s.cur].state != Killed)
            && (!s.ts[s.cur].waiting ==> s2.ts[s.cur].wake == s.ts[s.cur].wake)
            && (forall j :: 0 <= j < SLOTS && j != i && !Gone(s.ts[j]) ==> !Gone(s2.ts[j]))
  {
    hide NotesTrue, NotesApart, WaitsOk, HistoryOk, Finish;
    FinishTells(s, i, exitCode, signal);
    FinishRest(s, i, exitCode, signal);
  }

  lemma ReapOneKeeps(s: Sys, i: nat)
    requires Inv(s) && i < SLOTS && s.ts[s.cur].state != Killed
    ensures var s2 := ReapOne(s, i);
            Inv(s2) && Reaped(s, s2) && (i != s.cur ==> !Gone(s2.ts[i]))
  {
    hide NotesTrue, NotesApart, WaitsOk, HistoryOk, Finish, Reaped;
    SameReaped(s);
    if s.ts[i].state == Killed {
      ReapKilled(s, i);
    } else if s.ts[i].state == Zombie && i != s.cur {
      RetireKeeps(s, i);
    }
  }

  lemma SameReaped(s: Sys)
    requires Shape(s)
    ensures Reaped(s, s)
  {
  }

  /** A zombie leaves the table. */
  lemma RetireKeeps(s: Sys, i: nat)
    requires Inv(s) && i < SLOTS && i != s.cur && s.ts[i].state == Zombie
    ensures var s2 := s.(ts := s.ts[i := s.ts[i].(state := Free)]);
            Inv(s2) && Reaped(s, s2) && !Gone(s2.ts[i])
  {
    hide NotesTrue, NotesApart, WaitsOk, HistoryOk;
    AlikeKeeps(s, i, s.ts[i].(state := Free));
  }

  lemma ReapKilled(s: Sys, i: nat)
    requires Inv(s) && i < SLOTS && i != s.cur && s.ts[i].state == Killed
    ensures var s2 := ReapOne(s, i);
            Inv(s2) && Reaped(s, s2) && !Gone(s2.ts[i])
  {
    hide NotesTrue, NotesApart, WaitsOk, HistoryOk, Finish;
    var sig := s.ts[i].signal;
    FinishKeeps(s, i, 128 + sig, sig);
    FinishReaped(s, i, 128 + sig, sig);
    var s1 := Finish(s, i, 128 + sig, sig);
    RetireKeeps(s1, i);
  }

  lemma ReapedTwice(s: Sys, s1: Sys, s2: Sys)
    requires Reaped(s, s1) && Reaped(s1, s2)
    ensures Reaped(s, s2)
  {
  }

  lemma {:induction false} ReapFromKeeps(s: Sys, i: nat)
    requires Inv(s) && s.ts[s.cur].state != Killed
    ensures var s2 := ReapFrom(s, i);
            Inv(s2) && Reaped(s, s2) && forall j :: i <= j < SLOTS && j != s.cur ==> !Gone(s2.ts[j])
    decreases SLOTS - i
  {
    hide NotesTrue, NotesApart, WaitsOk, HistoryOk, ReapOne;
    if i < SLOTS {
      ReapOneKeeps(s, i);
      var s1 := ReapOne(s, i);
      ReapFromKeeps(s1, i + 1);
      ReapedTwice(s, s1, ReapFrom(s1, i + 1));
    }
  }

  /** reap keeps everything, and with init alive leaves no dead process but possibly the current one. */
  lemma ReapKeeps(s: Sys)
    requires Inv(s) && s.ts[s.cur].state != Killed && !Gone(s.ts[0])
    ensures var s2 := Reap(s);
            Inv(s2) && Reaped(s, s2) && forall j :: 0 <= j < SLOTS && j != s.cur ==> !Gone(s2.ts[j])
  {
    hide NotesTrue, NotesApart, WaitsOk, HistoryOk;
    ReapFromKeeps(s, 1);
  }

  // ---------------------------------------------------------------- collecting

  lemma DroppedNotes(l: seq<Note>, i: nat)
    requires i < |l| && OncePerList(l)
    ensures OncePerList(Dropped(l, i)) && forall n :: n in Dropped(l, i) ==> n in l && n.pid != l[i].pid
  {
    var r := Dropped(l, i);
    forall k | 0 <= k < |r| ensures r[k] in l && r[k].pid != l[i].pid { assert r[k] == if k == i then l[|l| - 1] else l[k]; }
  }

  function Collecting(s: Sys, k: nat): Sys
    requires s.cur < |s.ts| && k < |s.ts[s.cur].done|
  {
    var t := s.ts[s.cur];
    var n := t.done[k];
    s.(ts := s.ts[s.cur := t.(done := Dropped(t.done, k))],
       log := s.log + [Collected(Life(n.pid, if 0 < n.pid <= |s.gen| then s.gen[n.pid - 1] else 0), n.code)])
  }

  lemma CollectHistory(s: Sys, k: nat)
    requires Inv(s) && k < |s.ts[s.cur].done|
    ensures HistoryOk(Collecting(s, k))
  {
    hide WaitsOk, NotesTrue;
    var s2, c := Collecting(s, k), s.ts[s.cur].done[k];
    var ls, ls2 := Lists(s.ts), Lists(s2.ts);
    assert c in ls[s.cur] && ListOk(s.gen, s.ends, s.log, ls[s.cur]) && Uncollected(s.gen, s.ends, s.log, c);
    forall j | 0 <= j < SLOTS ensures ListOk(s2.gen, s2.ends, s2.log, ls2[j]) {
      assert ListOk(s.gen, s.ends, s.log, ls[j]);
      OthersLeft(s, k, j);
      forall n | n in ls2[j] ensures Uncollected(s2.gen, s2.ends, s2.log, n) { StillUncollected(s, s2, n, c); }
    }
    LogMore(s, c);
  }

  lemma StillUncollected(s: Sys, s2: Sys, n: Note, c: Note)
    requires Uncollected(s.gen, s.ends, s.log, n) && n.pid != c.pid && s2.gen == s.gen && s2.ends == s.ends && 0 < c.pid <= |s.gen|
    requires s2.log == s.log + [Collected(Life(c.pid, s.gen[c.pid - 1]), c.code)]
    ensures Uncollected(s2.gen, s2.ends, s2.log, n)
  {
  }

  lemma LogMore(s: Sys, c: Note)
    requires LogOk(s.gen, s.ends, s.log) && Uncollected(s.gen, s.ends, s.log, c)
    ensures LogOk(s.gen, s.ends, s.log + [Collected(Life(c.pid, s.gen[c.pid - 1]), c.code)])
  {
  }

  /** After collecting, the lists hold what they held, but no longer that pid. */
  lemma OthersLeft(s: Sys, k: nat, j: nat)
    requires Shape(s) && NotesApart(Lists(s.ts)) && k < |s.ts[s.cur].done| && j < SLOTS
    ensures var l := Collecting(s, k).ts[j].done;
            OncePerList(l) && forall n :: n in l ==> n in s.ts[j].done && n.pid != s.ts[s.cur].done[k].pid
  {
    hide Dropped;
    var ls := Lists(s.ts);
    assert OncePerList(ls[j]) && OncePerList(ls[s.cur]);
    DroppedNotes(s.ts[s.cur].done, k);
    if j != s.cur {
      assert ApartFrom(ls[s.cur], ls[j]);
      assert s.ts[s.cur].done[k] in ls[s.cur];
    }
  }

  lemma CollectKeeps(s: Sys, k: nat)
    requires Inv(s) && k < |s.ts[s.cur].done| && s.ts[s.cur].state == Running
    ensures Inv(Collecting(s, k))
  {
    hide HistoryOk, WaitsOk, NotesApart, Dropped;
    var ts2, ls, ls2 := Collecting(s, k).ts, Lists(s.ts), Lists(Collecting(s, k).ts);
    CollectHistory(s, k);
    CollectWaits(s, k);
    forall j | 0 <= j < SLOTS ensures ListTrue(ts2, ts2[j].done) {
      assert ListTrue(s.ts, s.ts[j].done);
      OthersLeft(s, k, j);
    }
    CollectApart(s, k);
  }

  lemma CollectApart(s: Sys, k: nat)
    requires Shape(s) && NotesApart(Lists(s.ts)) && k < |s.ts[s.cur].done|
    ensures NotesApart(Lists(Collecting(s, k).ts))
  {
    hide Collecting;
    var ls, ls2 := Lists(s.ts), Lists(Collecting(s, k).ts);
    CollectSize(s, k);
    forall j | 0 <= j < SLOTS ensures OncePerList(ls2[j]) { OthersLeft(s, k, j); }
    forall j, m | 0 <= j < SLOTS && 0 <= m < SLOTS && j != m ensures ApartFrom(ls2[j], ls2[m]) {
      assert ApartFrom(ls[j], ls[m]);
      OthersLeft(s, k, j);
      OthersLeft(s, k, m);
    }
  }

  lemma CollectSize(s: Sys, k: nat)
    requires s.cur < |s.ts| && k < |s.ts[s.cur].done|
    ensures |Collecting(s, k).ts| == |s.ts|
  {
  }

  lemma CollectWaits(s: Sys, k: nat)
    requires Inv(s) && k < |s.ts[s.cur].done| && s.ts[s.cur].state == Running
    ensures WaitsOk(Collecting(s, k).ts)
  {
    hide HistoryOk, NotesApart, NotesTrue, Dropped;
    var ts2 := Collecting(s, k).ts;
    forall j | 0 <= j < SLOTS ensures !WaitsInVain(ts2, j) { assert !WaitsInVain(s.ts, j); }
  }

  // ---------------------------------------------------------------- waiting

  lemma ParkKeeps(s: Sys, pid: int)
    requires Inv(s) && s.ts[s.cur].state == Running && FirstAsked(s.ts[s.cur].done, pid, 0).None?
    requires pid == 0 || (0 < pid <= SLOTS && Live(s.ts[pid - 1]) && s.ts[pid - 1].ppid == s.cur + 1)
    ensures Inv(s.(ts := s.ts[s.cur := Parked(s.ts[s.cur].(waiting := true, waitPid := pid))]))
  {
    hide HistoryOk, NotesApart, NotesTrue;
    var u := Parked(s.ts[s.cur].(waiting := true, waitPid := pid));
    var s2 := s.(ts := s.ts[s.cur := u]);
    SleepLists(s, u);
    forall j | 0 <= j < SLOTS ensures !WaitsInVain(s2.ts, j) { assert !WaitsInVain(s.ts, j); }
  }

  /** Going to sleep changes nothing but who waits. */
  lemma SleepLists(s: Sys, u: Task)
    requires Inv(s) && Alike(s.ts[s.cur], u.(state := Running)) && s.ts[s.cur].state == Running && Live(u)
    ensures var s2 := s.(ts := s.ts[s.cur := u]);
            Lists(s2.ts) == Lists(s.ts) && HistoryOk(s2) && NotesTrue(s2.ts) && Shape(s2)
  {
    hide WaitsOk, NotesApart, ListsOk, LogOk;
    var s2 := s.(ts := s.ts[s.cur := u]);
    assert Lists(s2.ts) == Lists(s.ts);
    forall j | 0 <= j < SLOTS ensures ListTrue(s2.ts, s2.ts[j].done) { assert ListTrue(s.ts, s.ts[j].done); }
  }

  lemma WaitTurnKeeps(s: Sys, pid: int, nowait: bool)
    requires Inv(s) && s.ts[s.cur].state == Running && !s.ts[s.cur].waiting && !Gone(s.ts[0])
    ensures Inv(WaitTurn(s, pid, nowait))
  {
    hide NotesTrue, NotesApart, WaitsOk, HistoryOk, Reap;
    var t0 := s.ts[s.cur].(wake := false);
    AlikeKeeps(s, s.cur, t0);
    var s0 := s.(ts := s.ts[s.cur := t0]);
    ReapKeeps(s0);
    var s1 := Reap(s0);
    var t := s1.ts[s.cur];
    var k := FirstAsked(t.done, pid, 0);
    if k.Some? {
      CollectKeeps(s1, k.value);
    } else if pid == 0 || (pid > 0 && Find(s1.ts, pid).Some?) {
      if pid > 0 { FindsParent(s1.ts, pid, 0); }
      if nowait { AlikeKeeps(s1, s.cur, t.(waiting := false, waitPid := pid)); }
      else if pid == 0 || s1.ts[pid - 1].ppid == t.pid { ParkKeeps(s1, pid); }
    }
  }

  lemma ResumeKeeps(s: Sys)
    requires Inv(s) && s.ts[s.cur].state == Running && !Gone(s.ts[0])
    ensures Inv(Resumed(s))
  {
    hide NotesTrue, NotesApart, WaitsOk, HistoryOk, WaitTurn;
    var t := s.ts[s.cur].(wake := false, waiting := false);
    AlikeKeeps(s, s.cur, t);
    var s1 := s.(ts := s.ts[s.cur := t]);
    if !t.pending { WaitTurnKeeps(s1, t.waitPid, false); }
  }

  // ---------------------------------------------------------------- fork

  lemma {:induction false} WithoutNotes(l: seq<Note>, pid: nat)
    ensures forall n :: n in Without(l, pid) <==> n in l && n.pid != pid
    ensures OncePerList(l) ==> OncePerList(Without(l, pid))
  {
    if l != [] {
      var f := l[..|l| - 1];
      WithoutNotes(f, pid);
      assert l == f + [l[|l| - 1]];
      if OncePerList(l) {
        var w := Without(f, pid);
        forall k | 0 <= k < |w| ensures w[k].pid != l[|l| - 1].pid {
          assert w[k] in f;
          var m :| 0 <= m < |f| && f[m] == w[k];
        }
      }
    }
  }

  /** What a fork does to the lists: the pid is in none of them, the slot's own is empty, the others lose nothing else. */
  ghost predicate Cleared(ts: seq<Task>, ts2: seq<Task>, f: nat, u: Task) {
    && |ts| == |ts2| == SLOTS && f < SLOTS && ts2[f] == u && u.done == []
    && (forall j :: 0 <= j < SLOTS && j != f ==> ts2[j] == ts[j].(done := Without(ts[j].done, f + 1)))
  }

  lemma PurgeClears(ts: seq<Task>, f: nat, u: Task)
    requires |ts| == SLOTS && f < SLOTS && u.done == []
    ensures Cleared(ts, Purged(ts, f + 1)[f := u], f, u)
  {
  }

  lemma ClearedList(ts: seq<Task>, ts2: seq<Task>, f: nat, u: Task, j: nat)
    requires Cleared(ts, ts2, f, u) && j < SLOTS
    ensures |ts2| == SLOTS && (OncePerList(ts[j].done) ==> OncePerList(ts2[j].done))
    ensures forall n :: n in ts2[j].done ==> n in ts[j].done && n.pid != f + 1
  {
    WithoutNotes(ts[j].done, f + 1);
  }

  lemma ClearedNotes(s: Sys, ts2: seq<Task>, f: nat, u: Task)
    requires Inv(s) && f < SLOTS && s.ts[f].state == Free && Cleared(s.ts, ts2, f, u) && (u.state == Free || u.state == Ready)
    ensures NotesTrue(ts2)
  {
    hide WaitsOk, HistoryOk, NotesApart, Without;
    forall j | 0 <= j < SLOTS ensures ListTrue(ts2, ts2[j].done) {
      assert ListTrue(s.ts, s.ts[j].done);
      ClearedList(s.ts, ts2, f, u, j);
    }
  }

  lemma ClearedApart(s: Sys, ts2: seq<Task>, f: nat, u: Task)
    requires Inv(s) && Cleared(s.ts, ts2, f, u)
    ensures NotesApart(Lists(ts2))
  {
    hide WaitsOk, HistoryOk, NotesTrue, Cleared;
    var ls, ls2 := Lists(s.ts), Lists(ts2);
    ClearedList(s.ts, ts2, f, u, 0);
    forall j | 0 <= j < SLOTS ensures OncePerList(ls2[j]) {
      assert OncePerList(ls[j]);
      ClearedList(s.ts, ts2, f, u, j);
    }
    forall j, m | 0 <= j < SLOTS && 0 <= m < SLOTS && j != m ensures ApartFrom(ls2[j], ls2[m]) {
      assert ApartFrom(ls[j], ls[m]);
      ClearedList(s.ts, ts2, f, u, j);
      ClearedList(s.ts, ts2, f, u, m);
    }
  }

  lemma ClearedWaits(s: Sys, ts2: seq<Task>, f: nat, u: Task)
    requires Inv(s) && f < SLOTS && s.ts[f].state == Free && Cleared(s.ts, ts2, f, u) && (u.state == Free || u.state == Ready)
    ensures WaitsOk(ts2)
  {
    hide HistoryOk, NotesTrue, NotesApart, Without;
    forall j | 0 <= j < SLOTS ensures !WaitsInVain(ts2, j) {
      assert !WaitsInVain(s.ts, j);
      ClearedList(s.ts, ts2, f, u, j);
    }
  }

  lemma ClearedHistory(s: Sys, s2: Sys, f: nat, u: Task)
    requires Inv(s) && f < SLOTS && s.ts[f].state == Free && Cleared(s.ts, s2.ts, f, u)
    requires (u.state == Free && s2 == s.(ts := s2.ts)) || (u.state == Ready && s2 == s.(ts := s2.ts, gen := s.gen[f := s.gen[f] + 1]))
    ensures HistoryOk(s2)
  {
    hide WaitsOk, NotesTrue, NotesApart, Without;
    forall j | 0 <= j < SLOTS ensures ListOk(s2.gen, s2.ends, s2.log, s2.ts[j].done) {
      assert ListOk(s.gen, s.ends, s.log, Lists(s.ts)[j]);
      ClearedList(s.ts, s2.ts, f, u, j);
      forall n | n in s2.ts[j].done ensures Uncollected(s2.gen, s2.ends, s2.log, n) { assert Uncollected(s.gen, s.ends, s.log, n); }
    }
    NewLife(s, f);
    assert LogOk(s2.gen, s2.ends, s2.log);
  }

  lemma NewLife(s: Sys, f: nat)
    requires LogOk(s.gen, s.ends, s.log) && f < |s.gen|
    ensures Life(f + 1, s.gen[f] + 1) !in s.ends
  {
    assert !Before(s.gen, Life(f + 1, s.gen[f] + 1));
  }

  lemma ForkKeeps(s: Sys, ok: bool)
    requires Inv(s)
    ensures Inv(Forked(s, ok))
  {
    hide NotesTrue, NotesApart, WaitsOk, HistoryOk;
    var f := FreeSlot(s.ts, 1);
    if f.Some? {
      var u := if ok then EMPTY.(state := Ready, pid := f.value + 1, ppid := s.ts[s.cur].pid) else EMPTY;
      var s2 := Forked(s, ok);
      PurgeClears(s.ts, f.value, u);
      ClearedNotes(s, s2.ts, f.value, u);
      ClearedApart(s, s2.ts, f.value, u);
      ClearedWaits(s, s2.ts, f.value, u);
      ClearedHistory(s, s2, f.value, u);
    }
  }

  ghost predicate Mentions(l: seq<Note>, pid: nat) { exists k :: 0 <= k < |l| && l[k].pid == pid }

  lemma {:induction false} WithoutLength(l: seq<Note>, pid: nat)
    ensures |Without(l, pid)| <= |l| && (Mentions(l, pid) ==> |Without(l, pid)| < |l|) && (!Mentions(l, pid) ==> Without(l, pid) == l)
  {
    if l != [] {
      var f := l[..|l| - 1];
      WithoutLength(f, pid);
      assert l == f + [l[|l| - 1]];
      if Mentions(l, pid) && l[|l| - 1].pid != pid {
        var k :| 0 <= k < |l| && l[k].pid == pid;
        assert f[k].pid == pid;
      }
      if !Mentions(l, pid) {
        assert forall k :: 0 <= k < |f| ==> f[k] == l[k];
      }
    }
  }

  /** A fork that fails for want of memory has purged already: it leaves the notes alone exactly when there were none to lose. */
  lemma FailedForkForgetsIff(s: Sys)
    requires Shape(s) && FreeSlot(s.ts, 1).Some?
    ensures var f := FreeSlot(s.ts, 1).value;
            Lists(Forked(s, false).ts) == Lists(s.ts) <==>
            s.ts[f].done == [] && forall j :: 0 <= j < SLOTS ==> !Mentions(s.ts[j].done, f + 1)
  {
    hide Without, Mentions;
    var f, ls, ls2 := FreeSlot(s.ts, 1).value, Lists(s.ts), Lists(Forked(s, false).ts);
    forall j | 0 <= j < SLOTS ensures Without(s.ts[j].done, f + 1) == s.ts[j].done <==> !Mentions(s.ts[j].done, f + 1) {
      WithoutLength(s.ts[j].done, f + 1);
    }
    forall j | 0 <= j < SLOTS && j != f ensures ls2[j] == Without(ls[j], f + 1) {}
    assert ls2[f] == [];
    if ls2 == ls {
      forall j | 0 <= j < SLOTS ensures !Mentions(s.ts[j].done, f + 1) {
        assert ls[j] == ls2[j];
        NoneMentioned(f + 1);
      }
    }
  }

  lemma NoneMentioned(pid: nat)
    ensures !Mentions([], pid)
  {
  }

  // ---------------------------------------------------------------- runs

  datatype Event =
    | Fork(ok: bool)
    | Exit(code: nat)
    | KillSelf(sig: nat, caught: bool)
    | Fault(sig: nat)
    | Signal(target: nat, sig: nat, caught: bool)
    | Wait(pid: int, nowait: bool)
    | Resume
    | Delivered
    | Park
    | Wake(target: nat)
    | Switch(to: nat)

  /** Only a running process makes calls; a switch picks a ready one; reap panics when init is dead. */
  ghost predicate Enabled(s: Sys, e: Event)
    requires Shape(s)
  {
    var t := s.ts[s.cur];
    match e
    case Fork(_) | Exit(_) | KillSelf(_, _) | Fault(_) | Delivered => t.state == Running && !t.waiting
    case Park => t.state == Running && !t.waiting
    case Signal(target, _, _) => target < SLOTS && target != s.cur
    case Wake(target) => target < SLOTS
    case Wait(_, _) => t.state == Running && !t.waiting && !Gone(s.ts[0])
    case Resume => t.state == Running && t.waiting && !Gone(s.ts[0])
    case Switch(to) => to < SLOTS && !Gone(s.ts[0]) && t.state != Killed && Reap(s).ts[to].state == Ready
  }

  /** kill on oneself: signal_task, then exit. A fault in user code marks the process killed and exits with 128. */
  function KilledSelf(s: Sys, sig: nat, caught: bool): Sys
    requires s.cur < |s.ts| == |s.gen|
  {
    Finish(s.(ts := s.ts[s.cur := s.ts[s.cur].(pending := caught || s.ts[s.cur].pending)]), s.cur, 128 + sig, if caught then 0 else sig)
  }

  function Step(s: Sys, e: Event): Sys
    requires s.cur < |s.ts| == |s.gen| == SLOTS
  {
    match e
    case Fork(ok) => Forked(s, ok)
    case Exit(code) => Finish(s, s.cur, code, 0)
    case KillSelf(sig, caught) => KilledSelf(s, sig, caught)
    case Fault(sig) => Finish(s, s.cur, 128, sig)
    case Signal(target, sig, caught) => if target < SLOTS then s.(ts := s.ts[target := Signalled(s.ts[target], sig, caught)]) else s
    case Wait(pid, nowait) => WaitTurn(s, pid, nowait)
    case Resume => Resumed(s)
    case Delivered => s.(ts := s.ts[s.cur := s.ts[s.cur].(pending := false)])
    case Park => s.(ts := s.ts[s.cur := Parked(s.ts[s.cur])])
    case Wake(target) => if target < SLOTS then s.(ts := s.ts[target := Unblocked(s.ts[target])]) else s
    case Switch(to) => if to < SLOTS then Switched(s, to) else s
  }

  lemma SwitchKeeps(s: Sys, to: nat)
    requires Inv(s) && Enabled(s, Switch(to))
    ensures Inv(Switched(s, to))
  {
    hide NotesTrue, NotesApart, WaitsOk, LogOk, LivesOk, ListsOk, Reap;
    ReapKeeps(s);
    var s1 := Reap(s);
    var t := s1.ts[s.cur];
    var s2 := if t.state == Running then s1.(ts := s1.ts[s.cur := t.(state := Ready)]) else s1;
    if t.state == Running { AlikeKeeps(s1, s.cur, t.(state := Ready)); }
    AlikeKeeps(s2, to, s2.ts[to].(state := Running));
  }

  lemma StepKeeps(s: Sys, e: Event)
    requires Inv(s) && Enabled(s, e)
    ensures Inv(Step(s, e))
  {
    hide NotesTrue, NotesApart, WaitsOk, HistoryOk, Finish, Forked, WaitTurn, Resumed, Switched;
    var t := s.ts[s.cur];
    match e
    case Fork(ok) => ForkKeeps(s, ok);
    case Exit(code) => FinishKeeps(s, s.cur, code, 0);
    case KillSelf(sig, caught) =>
      var u := t.(pending := caught || t.pending);
      AlikeKeeps(s, s.cur, u);
      FinishKeeps(s.(ts := s.ts[s.cur := u]), s.cur, 128 + sig, if caught then 0 else sig);
    case Fault(sig) => FinishKeeps(s, s.cur, 128, sig);
    case Signal(target, sig, caught) => AlikeKeeps(s, target, Signalled(s.ts[target], sig, caught));
    case Wait(pid, nowait) => WaitTurnKeeps(s, pid, nowait);
    case Resume => ResumeKeeps(s);
    case Delivered => AlikeKeeps(s, s.cur, t.(pending := false));
    case Park => AlikeKeeps(s, s.cur, Parked(t));
    case Wake(target) => AlikeKeeps(s, target, Unblocked(s.ts[target]));
    case Switch(to) => SwitchKeeps(s, to);
  }

  ghost predicate Moves(s: Sys, e: Event, s2: Sys) { Shape(s) && Enabled(s, e) && s2 == Step(s, e) }

  ghost predicate IsRun(ss: seq<Sys>, es: seq<Event>) {
    |ss| == |es| + 1 && forall k :: 0 <= k < |es| ==> Moves(ss[k], es[k], ss[k + 1])
  }

  lemma MoveKeeps(s: Sys, e: Event, s2: Sys)
    requires Inv(s) && Moves(s, e, s2)
    ensures Inv(s2)
  {
    hide Inv, Step;
    StepKeeps(s, e);
  }

  lemma {:induction false} RunKeeps(ss: seq<Sys>, es: seq<Event>, k: nat)
    requires IsRun(ss, es) && k < |ss| && Inv(ss[0])
    ensures Inv(ss[k])
  {
    hide Inv, Moves;
    if k > 0 {
      RunKeeps(ss, es, k - 1);
      assert Moves(ss[k - 1], es[k - 1], ss[k - 1 + 1]);
      MoveKeeps(ss[k - 1], es[k - 1], ss[k]);
    }
  }

  /** The table at boot: init alone. */
  function Boot(): Sys {
    Sys([EMPTY.(state := Running, pid := 1), EMPTY, EMPTY, EMPTY, EMPTY, EMPTY, EMPTY, EMPTY], 0, [0, 0, 0, 0, 0, 0, 0, 0], map[], [])
  }

  lemma BootOk()
    ensures Inv(Boot())
  {
    assert forall i :: 0 <= i < SLOTS ==> Boot().ts[i].done == [];
    assert forall i :: 0 <= i < SLOTS ==> !InWait(Boot().ts[i]);
  }

  /** With nobody to reap, or only the current one, reap changes nothing. */
  lemma {:induction false} ReapNothing(s: Sys, i: nat)
    requires |s.ts| == |s.gen| && forall j :: i <= j < |s.ts| ==> s.ts[j].state != Killed && (s.ts[j].state == Zombie ==> j == s.cur)
    ensures ReapFrom(s, i) == s
    decreases |s.ts| - i
  {
    if i < |s.ts| { ReapNothing(s, i + 1); }
  }

  /** Init, and the child of its first fork in slot 1. */
  function WithChild(init: Task, child: Task, gen: nat, ends: map<Life, nat>, cur: nat): Sys {
    Sys([init, child, EMPTY, EMPTY, EMPTY, EMPTY, EMPTY, EMPTY], cur, [0, gen, 0, 0, 0, 0, 0, 0], ends, [])
  }

  lemma Purging()
    ensures Without([], 2) == [] && Without([Note(2, 7)], 2) == []
  {
    assert [Note(2, 7)][..0] == [];
  }

  const INIT_TASK := EMPTY.(state := Running, pid := 1)
  const CHILD := EMPTY.(state := Ready, pid := 2, ppid := 1)

  function Made(): Sys { WithChild(INIT_TASK, CHILD, 1, map[], 0) }

  function ChildRuns(): Sys { WithChild(INIT_TASK.(state := Ready), CHILD.(state := Running), 1, map[], 1) }

  function ChildEnded(): Sys {
    WithChild(INIT_TASK.(state := Ready, done := [Note(2, 7)]), CHILD.(state := Zombie, exitCode := 7), 1, map[Life(2, 1) := 7], 1)
  }

  function InitRuns(): Sys {
    WithChild(INIT_TASK.(done := [Note(2, 7)]), CHILD.(state := Zombie, exitCode := 7), 1, map[Life(2, 1) := 7], 0)
  }

  function ChildGone(): Sys {
    WithChild(INIT_TASK.(done := [Note(2, 7)]), CHILD.(state := Free, exitCode := 7), 1, map[Life(2, 1) := 7], 0)
  }

  lemma ForkMoves()
    ensures Moves(Boot(), Fork(true), Made())
  {
    Purging();
    assert FreeSlot(Boot().ts, 1) == Some(1);
    assert Forked(Boot(), true).ts == Made().ts && Forked(Boot(), true).gen == Made().gen;
  }

  lemma FirstSwitchMoves()
    ensures Moves(Made(), Switch(1), ChildRuns())
  {
    ReapNothing(Made(), 1);
    assert Switched(Made(), 1).ts == ChildRuns().ts;
  }

  lemma ExitMoves()
    ensures Moves(ChildRuns(), Exit(7), ChildEnded())
  {
    ExitStep(ChildRuns(), ChildEnded());
  }

  lemma SecondSwitchMoves()
    ensures Moves(ChildEnded(), Switch(0), InitRuns())
  {
    ReapNothing(ChildEnded(), 1);
    assert Switched(ChildEnded(), 0).ts == InitRuns().ts;
  }

  lemma WaitMoves()
    ensures Moves(InitRuns(), Wait(5, true), ChildGone())
  {
    WaitStep(InitRuns(), ChildGone());
  }

  lemma FailedForkMoves()
    ensures Moves(ChildGone(), Fork(false), Forked(ChildGone(), false))
    ensures |Forked(ChildGone(), false).ts| == SLOTS && Forked(ChildGone(), false).ts[0].done == []
  {
    Purging();
    assert FreeSlot(ChildGone().ts, 1) == Some(1);
  }

  /** A run from boot: the child exits with 7, init fails to fork again for want of memory, and the note is gone. */
  lemma FailedForkExample() returns (ss: seq<Sys>, es: seq<Event>)
    ensures IsRun(ss, es) && ss[0] == Boot() && |es| == 6 && es[5] == Fork(false)
    ensures |ss[5].ts| == |ss[6].ts| == SLOTS && ss[5].ts[0].done == [Note(2, 7)] && ss[6].ts[0].done == []
  {
    hide Moves, Forked, Boot, Made, ChildRuns, ChildEnded, InitRuns;
    es := [Fork(true), Switch(1), Exit(7), Switch(0), Wait(5, true), Fork(false)];
    ss := [Boot(), Made(), ChildRuns(), ChildEnded(), InitRuns(), ChildGone(), Forked(ChildGone(), false)];
    ForkMoves();
    FirstSwitchMoves();
    ExitMoves();
    SecondSwitchMoves();
    WaitMoves();
    FailedForkMoves();
  }

  lemma ExitStep(s2: Sys, s3: Sys)
    requires var child := EMPTY.(state := Running, pid := 2, ppid := 1);
             var ready := EMPTY.(state := Ready, pid := 1);
             && s2 == WithChild(ready, child, 1, map[], 1)
             && s3 == WithChild(ready.(done := [Note(2, 7)]), child.(state := Zombie, exitCode := 7), 1, map[Life(2, 1) := 7], 1)
    ensures Finish(s2, 1, 7, 0) == s3
  {
    var ts := s2.ts[1 := s2.ts[1].(state := Zombie, exitCode := 7, signal := 0)];
    assert Find(ts, 1) == Some(0);
    assert ts[0].done + [Note(2, 7)] == [Note(2, 7)];
    assert Announced(ts, 1) == s3.ts;
  }

  lemma WaitStep(s4: Sys, s5: Sys)
    requires var dead := EMPTY.(state := Zombie, pid := 2, ppid := 1, exitCode := 7);
             var init := EMPTY.(state := Running, pid := 1, done := [Note(2, 7)]);
             && s4 == WithChild(init, dead, 1, map[Life(2, 1) := 7], 0)
             && s5 == WithChild(init, dead.(state := Free), 1, map[Life(2, 1) := 7], 0)
    ensures WaitTurn(s4, 5, true) == s5
  {
    assert s4.(ts := s4.ts[0 := s4.ts[0].(wake := false)]) == s4;
    assert ReapOne(s4, 1) == s5 by { assert ReapOne(s4, 1).ts == s5.ts; }
    ReapNothing(s5, 2);
    assert ReapFrom(s4, 1) == ReapFrom(ReapOne(s4, 1), 2);
    assert FirstAsked(s5.ts[0].done, 5, 0) == None;
    assert Find(s5.ts, 5) == None;
  }

  /** In every run no end is collected twice, and what wait returned is how that process ended. */
  lemma CollectedOnce(ss: seq<Sys>, es: seq<Event>, k: nat, a: nat, b: nat)
    requires IsRun(ss, es) && ss[0] == Boot() && k < |ss| && a < |ss[k].log| && b < |ss[k].log| && a != b
    ensures ss[k].log[a].life != ss[k].log[b].life
    ensures ss[k].log[a].life in ss[k].ends && ss[k].ends[ss[k].log[a].life] == ss[k].log[a].code
  {
    hide Inv, Moves;
    BootOk();
    RunKeeps(ss, es, k);
    HistoryFacts(ss[k], a, b);
  }

  lemma HistoryFacts(s: Sys, a: nat, b: nat)
    requires Inv(s) && a < |s.log| && b < |s.log| && a != b
    ensures s.log[a].life != s.log[b].life && s.log[a].life in s.ends && s.ends[s.log[a].life] == s.log[a].code
  {
  }

  /** In every run the full-list branch of announce is dead: whoever ends, its parent's list has room. */
  lemma NoOverflow(ss: seq<Sys>, es: seq<Event>, k: nat, i: nat, p: nat)
    requires IsRun(ss, es) && ss[0] == Boot() && k < |ss| && i < SLOTS && p < SLOTS
    ensures |ss[k].ts| == SLOTS && (Live(ss[k].ts[i]) ==> |ss[k].ts[p].done| < SLOTS)
  {
    BootOk();
    assert Inv(ss[k]) by {
      hide Inv, Moves;
      RunKeeps(ss, es, k);
    }
    if Live(ss[k].ts[i]) { RoomForNote(ss[k], i, p); }
  }

  /** In every run, whoever is parked in wait_for has no note it asked for, and a named child of its own still to end. */
  lemma NoMissedNote(ss: seq<Sys>, es: seq<Event>, k: nat, i: nat)
    requires IsRun(ss, es) && ss[0] == Boot() && k < |ss| && i < SLOTS
    ensures |ss[k].ts| == SLOTS && !WaitsInVain(ss[k].ts, i)
  {
    BootOk();
    assert Inv(ss[k]) by {
      hide Inv, Moves;
      RunKeeps(ss, es, k);
    }
  }
}
