/** Round robin: who is picked, and how long a process that wants to run can be passed over. */
module Scheduler {
  import opened Basics

  const QUANTUM := 2

  /** Steps round a table of n slots from `from` to j, at least one. */
  function Distance(n: nat, from: nat, j: nat): (d: nat)
    requires from < n && j < n
    ensures 1 <= d <= n
  {
    if from < j then j - from else j + n - from
  }

  lemma DistanceInverse(n: nat, from: nat, i: nat)
    requires from < n && 1 <= i <= n
    ensures (from + i) % n < n && Distance(n, from, (from + i) % n) == i
  {
    if from + i < n {
      assert (from + i) % n == from + i;
    } else {
      var r := from + i - n;
      assert from + i == n + r;
      assert (from + i) % n == r;
    }
  }

  /** Going on from a slot that is nearer shortens the way. */
  lemma Nearer(n: nat, from: nat, s: nat, j: nat)
    requires from < n && s < n && j < n && Distance(n, from, s) < Distance(n, from, j)
    ensures Distance(n, s, j) == Distance(n, from, j) - Distance(n, from, s)
  {
  }

  /** The nearest slot of those that are ready and armed. */
  ghost predicate IsPick(ready: seq<bool>, from: nat, s: nat)
    requires from < |ready|
  {
    s < |ready| && ready[s] && forall k :: 0 <= k < |ready| && ready[k] ==> Distance(|ready|, from, s) <= Distance(|ready|, from, k)
  }

  /** pick */
  method Pick(ready: seq<bool>, from: nat) returns (r: Option<nat>)
    requires from < |ready|
    ensures r.Some? ==> IsPick(ready, from, r.value)
    ensures r.None? <==> forall k :: 0 <= k < |ready| ==> !ready[k]
  {
    var n := |ready|;
    for i := 1 to n + 1
      invariant forall k :: 0 <= k < n && Distance(n, from, k) < i ==> !ready[k]
    {
      var s := (from + i) % n;
      DistanceInverse(n, from, i);
      if ready[s] { return Some(s); }
      forall k | 0 <= k < n && Distance(n, from, k) == i ensures k == s { SameSlot(n, from, k, s); }
    }
    return None;
  }

  lemma SameSlot(n: nat, from: nat, k: nat, s: nat)
    requires from < n && k < n && s < n && Distance(n, from, k) == Distance(n, from, s)
    ensures k == s
  {
  }

  // ---------------------------------------------------------------- waiting for a turn

  /** Who runs, and the ticks it has left. */
  datatype Cpu = Cpu(cur: nat, quantum: nat)

  /** A timer tick in user mode or in the kernel, or the running process giving up (schedule, or dead at a tick). */
  datatype Event = UserTick | KernelTick | GivesUp

  /** preempt and schedule, with somebody ready who is not running. */
  ghost predicate Moves(ready: seq<bool>, c: Cpu, e: Event, c2: Cpu)
    requires c.cur < |ready|
  {
    match e
    case KernelTick => c2 == c
    case UserTick => if c.quantum > 1 then c2 == c.(quantum := c.quantum - 1) else Switches(ready, c, c2)
    case GivesUp => Switches(ready, c, c2)
  }

  ghost predicate Switches(ready: seq<bool>, c: Cpu, c2: Cpu)
    requires c.cur < |ready|
  {
    IsPick(ready, c.cur, c2.cur) && c2.quantum == QUANTUM
  }

  /** preempt: `dead` says that the running process is a zombie or killed. */
  method Preempt(ready: seq<bool>, c: Cpu, user: bool, dead: bool) returns (c2: Cpu)
    requires c.cur < |ready|
    ensures !dead && !user ==> c2 == c
    ensures !dead && user && c.quantum > 1 ==> c2 == c.(quantum := c.quantum - 1)
    ensures (dead || (user && c.quantum <= 1)) && (exists k :: 0 <= k < |ready| && ready[k]) && !ready[c.cur] ==> Switches(ready, c, c2)
    ensures (dead || (user && c.quantum <= 1)) && (forall k :: 0 <= k < |ready| && ready[k] ==> k == c.cur) ==>
              c2 == if dead then c else c.(quantum := 0)
  {
    c2 := c;
    if !dead {
      if !user { return; }
      if c2.quantum != 0 {
        c2 := c2.(quantum := c2.quantum - 1);
        if c2.quantum != 0 { return; }
      }
    }
    var to := Pick(ready, c2.cur);
    if to.None? || to.value == c2.cur { return; }
    c2 := Cpu(to.value, QUANTUM);
  }

  /** How far slot j is from its turn: whole quanta round the table, and what is left of this one. */
  function Remaining(n: nat, c: Cpu, j: nat): nat
    requires c.cur < n && j < n
  {
    QUANTUM * Distance(n, c.cur, j) + (if c.quantum == 0 then 1 else c.quantum)
  }

  /** Every tick the process sees, and every switch, brings the turn nearer. */
  lemma StepNearer(ready: seq<bool>, c: Cpu, e: Event, c2: Cpu, j: nat)
    requires c.cur < |ready| && j < |ready| && ready[j] && Moves(ready, c, e, c2) && c2.cur != j
    ensures c2.cur < |ready|
    ensures e != KernelTick ==> Remaining(|ready|, c2, j) < Remaining(|ready|, c, j)
    ensures e == KernelTick ==> c2 == c
  {
    if c2.cur != c.cur || c2.quantum == QUANTUM {
      if IsPick(ready, c.cur, c2.cur) {
        var n := |ready|;
        if Distance(n, c.cur, c2.cur) == Distance(n, c.cur, j) { SameSlot(n, c.cur, c2.cur, j); }
        Nearer(n, c.cur, c2.cur, j);
      }
    }
  }

  /** A run in which slot j is ready at every step; the others come and go as they like. */
  ghost predicate IsRun(n: nat, j: nat, tables: seq<seq<bool>>, cs: seq<Cpu>, es: seq<Event>) {
    && |cs| == |es| + 1 == |tables| + 1 && j < n && cs[0].cur < n && cs[0].quantum <= QUANTUM
    && forall k :: 0 <= k < |es| ==> Turn(n, j, tables[k], cs[k], es[k], cs[k + 1])
  }

  ghost predicate Turn(n: nat, j: nat, ready: seq<bool>, c: Cpu, e: Event, c2: Cpu) {
    |ready| == n && j < n && ready[j] && c.cur < n && Moves(ready, c, e, c2)
  }

  function Counted(es: seq<Event>): nat {
    if es == [] then 0 else Counted(es[..|es| - 1]) + (if es[|es| - 1] == KernelTick then 0 else 1)
  }

  lemma {:induction false} WaitShrinks(n: nat, j: nat, tables: seq<seq<bool>>, cs: seq<Cpu>, es: seq<Event>, k: nat)
    requires IsRun(n, j, tables, cs, es) && k <= |es| && forall i :: 0 <= i <= k ==> cs[i].cur != j
    ensures cs[k].cur < n && Counted(es[..k]) + Remaining(n, cs[k], j) <= Remaining(n, cs[0], j)
  {
    hide Moves, Remaining;
    if k > 0 {
      WaitShrinks(n, j, tables, cs, es, k - 1);
      assert Turn(n, j, tables[k - 1], cs[k - 1], es[k - 1], cs[k - 1 + 1]);
      StepNearer(tables[k - 1], cs[k - 1], es[k - 1], cs[k], j);
      assert es[..k][..k - 1] == es[..k - 1];
    }
  }

  /** Bounded waiting for any table size: who stays ready runs before 2n more user ticks and switches have gone by. */
  lemma BoundedWaiting(n: nat, j: nat, tables: seq<seq<bool>>, cs: seq<Cpu>, es: seq<Event>)
    requires IsRun(n, j, tables, cs, es) && Counted(es) >= QUANTUM * n
    ensures exists k :: 0 <= k < |cs| && cs[k].cur == j
  {
    assert es[..|es|] == es;
    if forall k :: 0 <= k < |cs| ==> cs[k].cur != j {
      WaitShrinks(n, j, tables, cs, es, |es|);
      assert false;
    }
  }

  // ---------------------------------------------------------------- counting picks alone

  ghost predicate Picks(n: nat, j: nat, tables: seq<seq<bool>>, cs: seq<nat>) {
    && |cs| == |tables| + 1 && j < n && cs[0] < n
    && forall k :: 0 <= k < |tables| ==> |tables[k]| == n && cs[k] < n && tables[k][j] && IsPick(tables[k], cs[k], cs[k + 1])
  }

  lemma {:induction false} PicksNearer(n: nat, j: nat, tables: seq<seq<bool>>, cs: seq<nat>, k: nat)
    requires Picks(n, j, tables, cs) && k <= |tables| && forall i :: 1 <= i <= k ==> cs[i] != j
    ensures cs[k] < n && k + Distance(n, cs[k], j) <= Distance(n, cs[0], j)
  {
    if k > 0 {
      PicksNearer(n, j, tables, cs, k - 1);
      var t := tables[k - 1];
      assert IsPick(t, cs[k - 1], cs[k - 1 + 1]);
      if Distance(n, cs[k - 1], cs[k]) == Distance(n, cs[k - 1], j) { SameSlot(n, cs[k - 1], cs[k], j); }
      Nearer(n, cs[k - 1], cs[k], j);
    }
  }

  /** Among n successful picks in a row, one is the process that was ready all along. */
  lemma PickedWithinTable(n: nat, j: nat, tables: seq<seq<bool>>, cs: seq<nat>)
    requires Picks(n, j, tables, cs) && |tables| == n
    ensures exists k :: 1 <= k <= n && cs[k] == j
  {
    if forall k :: 1 <= k <= n ==> cs[k] != j {
      PicksNearer(n, j, tables, cs, n);
      assert false;
    }
  }
}
