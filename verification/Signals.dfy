/** Signals: a frame on the user stack, a handler, and the way back. */
module Signals {
  import opened Basics
  import opened Words

  const MAX_SIG := 32
  const FRAME := 92
  const TRAMP := 80
  const SYS_SIGRETURN := 29

  type u32 = x: int | 0 <= x < 0x1_0000_0000

  datatype Regs = Regs(edi: u32, esi: u32, ebp: u32, espDummy: u32, ebx: u32, edx: u32, ecx: u32, eax: u32,
                       intNo: u32, errCode: u32, eip: u32, cs: u32, eflags: u32, userEsp: u32, userSs: u32)

  /** A mask is the set of the signals whose bits are set. */
  datatype Sig = Sig(handlers: seq<u32>, masks: seq<set<nat>>, mask: set<nat>, pending: nat, active: nat, saved: set<nat>)

  /** A process: its signal state, the registers it will go on with, its memory. */
  datatype Proc = Proc(sig: Sig, r: Regs, m: seq<byte>)

  ghost predicate Valid(p: Proc) { |p.sig.handlers| == |p.sig.masks| == MAX_SIG && |p.m| == WORD }

  // ---------------------------------------------------------------- the frame

  function Aligned(esp: u32): u32 { esp - esp % 4 }

  /** sigframe, word by word: return address, arguments, the saved registers, the signal, itself, the trampoline. */
  function FrameWords(r: Regs, sig: nat, fp: nat): seq<nat> {
    [fp + TRAMP, sig, fp,
     r.edi, r.esi, r.ebp, r.espDummy, r.ebx, r.edx, r.ecx, r.eax,
     0x80 + sig, 0,
     r.eip, r.cs, r.eflags, r.userEsp, r.userSs,
     sig, fp,
     0xB8 + 0x100 * SYS_SIGRETURN, 0x0F80_CD00, 0x0B]
  }

  /** The thirteen fields that sigreturn puts back. */
  function Context(r: Regs): seq<nat> {
    [r.edi, r.esi, r.ebp, r.espDummy, r.ebx, r.edx, r.ecx, r.eax, r.eip, r.cs, r.eflags, r.userEsp, r.userSs]
  }

  /** ... and where they are in the frame. */
  function ContextAt(m: seq<byte>, fp: nat): seq<nat>
    requires fp + FRAME <= |m|
  {
    [Word(m, fp + 12), Word(m, fp + 16), Word(m, fp + 20), Word(m, fp + 24), Word(m, fp + 28), Word(m, fp + 32),
     Word(m, fp + 36), Word(m, fp + 40), Word(m, fp + 52), Word(m, fp + 56), Word(m, fp + 60), Word(m, fp + 64), Word(m, fp + 68)]
  }

  lemma FrameReads(m: seq<byte>, fp: nat, r: Regs, sig: nat)
    requires fp + FRAME <= |m| && WordsAt(m, fp, FrameWords(r, sig, fp))
    ensures ContextAt(m, fp) == Context(r) && Word(m, fp) == fp + TRAMP && Word(m, fp + 4) == sig && Word(m, fp + 8) == fp
  {
    hide Word;
    var w := FrameWords(r, sig, fp);
    assert Word(m, fp + 4 * 0) == w[0] && Word(m, fp + 4 * 1) == w[1] && Word(m, fp + 4 * 2) == w[2];
    assert Word(m, fp + 4 * 3) == w[3] && Word(m, fp + 4 * 4) == w[4] && Word(m, fp + 4 * 5) == w[5] && Word(m, fp + 4 * 6) == w[6];
    assert Word(m, fp + 4 * 7) == w[7] && Word(m, fp + 4 * 8) == w[8] && Word(m, fp + 4 * 9) == w[9] && Word(m, fp + 4 * 10) == w[10];
    assert Word(m, fp + 4 * 13) == w[13] && Word(m, fp + 4 * 14) == w[14] && Word(m, fp + 4 * 15) == w[15];
    assert Word(m, fp + 4 * 16) == w[16] && Word(m, fp + 4 * 17) == w[17];
  }

  /** The machine code at a: mov eax, SYS_sigreturn; int 0x80; ud2. */
  ghost predicate CallsSigreturn(m: seq<byte>, a: nat) {
    && a + 9 <= |m| && m[a] == 0xB8 && Word(m, a + 1) == SYS_SIGRETURN
    && m[a + 5] == 0xCD && m[a + 6] == 0x80 && m[a + 7] == 0x0F && m[a + 8] == 0x0B
  }

  lemma TrampolineReads(m: seq<byte>, fp: nat, r: Regs, sig: nat)
    requires fp + FRAME <= |m| && WordsAt(m, fp, FrameWords(r, sig, fp))
    ensures CallsSigreturn(m, fp + TRAMP)
  {
    var w := FrameWords(r, sig, fp);
    assert Word(m, fp + 4 * 20) == w[20] && Word(m, fp + 4 * 21) == w[21] && Word(m, fp + 4 * 22) == w[22];
  }

  // ---------------------------------------------------------------- operations

  /** Everything deliver checks. */
  predicate Delivers(p: Proc, sig: nat)
    requires |p.sig.handlers| == MAX_SIG
  {
    0 < sig < MAX_SIG && p.sig.handlers[sig] != 0 && sig !in p.sig.mask && Aligned(p.r.userEsp) >= FRAME + 16
  }

  /** deliver, when it does: the frame below the stack, the handler next, the signals it asked for held off. */
  function Delivered(p: Proc, sig: nat): Proc
    requires |p.sig.handlers| == |p.sig.masks| == MAX_SIG && |p.m| == WORD && Delivers(p, sig)
  {
    var fp := Aligned(p.r.userEsp) - FRAME;
    Proc(p.sig.(saved := p.sig.mask, mask := p.sig.mask + {sig} + p.sig.masks[sig], active := sig),
         p.r.(eip := p.sig.handlers[sig], userEsp := fp, espDummy := fp),
         PutWords(p.m, fp, FrameWords(p.r, sig, fp)))
  }

  function TryDeliver(p: Proc, sig: nat): Proc
    requires |p.sig.handlers| == |p.sig.masks| == MAX_SIG && |p.m| == WORD
  {
    if Delivers(p, sig) then Delivered(p, sig) else p
  }

  /** deliver_pending */
  function PendingDelivered(p: Proc): Proc
    requires |p.sig.handlers| == |p.sig.masks| == MAX_SIG && |p.m| == WORD
  {
    if p.sig.pending == 0 || p.sig.active != 0 then p
    else TryDeliver(p.(sig := p.sig.(pending := 0)), p.sig.pending)
  }

  datatype Outcome = Alive(p: Proc) | Dead

  /** The registers out of the frame at f. */
  function Restored(r: Regs, m: seq<byte>, f: nat): Regs
    requires f + FRAME <= |m|
  {
    r.(edi := Word(m, f + 12), esi := Word(m, f + 16), ebp := Word(m, f + 20), espDummy := Word(m, f + 24),
       ebx := Word(m, f + 28), edx := Word(m, f + 32), ecx := Word(m, f + 36), eax := Word(m, f + 40),
       eip := Word(m, f + 52), cs := Word(m, f + 56), eflags := Word(m, f + 60), userEsp := Word(m, f + 64), userSs := Word(m, f + 68))
  }

  /** sigreturn up to the mask: the registers come out of the frame one word below the stack pointer. */
  function Unwound(p: Proc): Proc
    requires 4 <= p.r.userEsp && p.r.userEsp - 4 + FRAME <= |p.m|
  {
    p.(r := Restored(p.r, p.m, p.r.userEsp - 4), sig := p.sig.(mask := p.sig.saved, active := 0, pending := 0))
  }

  /** sigreturn: a stack pointer with no frame behind it is the end of the process. */
  function Returned(p: Proc): Outcome
    requires |p.sig.handlers| == |p.sig.masks| == MAX_SIG && |p.m| == WORD
  {
    if p.sig.active == 0 || p.sig.active >= MAX_SIG then Alive(p)
    else if p.r.userEsp < 4 || p.r.userEsp - 4 + FRAME > |p.m| then Dead
    else Alive(TryDeliver(Unwound(p), p.sig.pending))
  }

  // ---------------------------------------------------------------- masks and nesting

  /** No handler running, nothing held off; and a running one will put that back. */
  predicate Clean(s: Sig) { (s.active == 0 ==> s.mask == {}) && (s.active != 0 ==> s.saved == {}) }

  datatype Event =
    | DeliverPending
    | SigReturn
    | Raise(sig: nat)
    | Action(sig: nat, handler: u32, mask: set<nat>)
    | Exec(r: Regs, m: seq<byte>)
    | Forked(r: Regs, m: seq<byte>)
    | UserCode(r: Regs, m: seq<byte>)

  /** What memset leaves of the signal state of a new process. */
  function Zeroed(): Sig { Sig(seq(MAX_SIG, _ => 0), seq(MAX_SIG, _ => {}), {}, 0, 0, {}) }

  /** `Forked` goes on with the child: its signal state starts from nothing, its registers return 0. */
  function Step(p: Proc, e: Event): Outcome
    requires |p.sig.handlers| == |p.sig.masks| == MAX_SIG && |p.m| == WORD
  {
    match e
    case DeliverPending => Alive(PendingDelivered(p))
    case SigReturn => Returned(p)
    case Raise(sig) => Alive(p.(sig := p.sig.(pending := sig)))
    case Action(sig, handler, mask) =>
      if 0 < sig < MAX_SIG && sig != 9
      then Alive(p.(sig := p.sig.(handlers := p.sig.handlers[sig := handler], masks := p.sig.masks[sig := mask])))
      else Alive(p)
    case Exec(r, m) => Alive(Proc(p.sig.(handlers := seq(MAX_SIG, _ => 0), mask := {}, pending := 0, active := 0), r, m))
    case Forked(r, m) => Alive(Proc(Zeroed(), r.(eax := 0), m))
    case UserCode(r, m) => Alive(p.(r := r, m := m))
  }

  ghost predicate SameSize(e: Event) { (e.Exec? || e.Forked? || e.UserCode?) ==> |e.m| == WORD }

  lemma StepClean(p: Proc, e: Event)
    requires Valid(p) && Clean(p.sig) && SameSize(e) && Step(p, e).Alive?
    ensures Valid(Step(p, e).p) && Clean(Step(p, e).p.sig)
  {
  }

  ghost predicate IsRun(ps: seq<Proc>, es: seq<Event>) {
    |ps| == |es| + 1 && forall k :: 0 <= k < |es| ==> Moves(ps[k], es[k], ps[k + 1])
  }

  ghost predicate Moves(p: Proc, e: Event, q: Proc) { Valid(p) && SameSize(e) && Step(p, e) == Alive(q) }

  /** Over every run, `sig_active == 0` means an empty mask. */
  lemma {:induction false} RunClean(ps: seq<Proc>, es: seq<Event>, k: nat)
    requires IsRun(ps, es) && k < |ps| && Valid(ps[0]) && Clean(ps[0].sig)
    ensures Valid(ps[k]) && Clean(ps[k].sig)
  {
    hide Step;
    if k > 0 {
      RunClean(ps, es, k - 1);
      assert Moves(ps[k - 1], es[k - 1], ps[k - 1 + 1]);
      StepClean(ps[k - 1], es[k - 1]);
    }
  }

  /** In a clean state, deliver refuses for want of a handler or of stack, and for nothing else. */
  lemma DeliversIff(p: Proc, sig: nat)
    requires Valid(p) && Clean(p.sig) && p.sig.active == 0
    ensures Delivers(p, sig) <==> 0 < sig < MAX_SIG && p.sig.handlers[sig] != 0 && Aligned(p.r.userEsp) >= FRAME + 16
  {
  }

  /** Handlers do not nest: one starts when none is running, or when the one that was has just returned. */
  lemma NoNesting(p: Proc, e: Event)
    requires Valid(p) && Clean(p.sig) && SameSize(e) && Step(p, e).Alive?
    ensures var q := Step(p, e).p;
            && (q.sig.active != 0 && q.sig.active != p.sig.active ==> p.sig.active == 0 || e == SigReturn)
            && (e == SigReturn && p.sig.active != 0 && p.sig.active < MAX_SIG ==> Unwound(p).sig.active == 0 && Unwound(p).sig.mask == {})
  {
  }

  // ---------------------------------------------------------------- there and back

  function FrameOf(r: Regs): int { Aligned(r.userEsp) - FRAME }

  /** In a handler, with r0 in the frame under r0's own stack. */
  ghost predicate InHandler(r0: Regs, p: Proc) {
    && Valid(p) && 0 < p.sig.active < MAX_SIG && p.sig.saved == {}
    && 16 <= FrameOf(r0) && p.r.userEsp == FrameOf(r0) && FrameOf(r0) + FRAME <= |p.m| && ContextAt(p.m, FrameOf(r0)) == Context(r0)
    && Word(p.m, FrameOf(r0)) == FrameOf(r0) + TRAMP && CallsSigreturn(p.m, FrameOf(r0) + TRAMP)
  }

  /** Signals may arrive and handlers may change, but this one returns normally and leaves its frame alone. */
  ghost predicate HandlerRan(p: Proc, q: Proc) {
    && Valid(p) && Valid(q) && q.sig.active == p.sig.active && q.sig.saved == p.sig.saved && q.sig.mask == p.sig.mask
    && q.r.userEsp == p.r.userEsp + 4 && p.r.userEsp + FRAME <= WORD
    && q.m[p.r.userEsp..p.r.userEsp + FRAME] == p.m[p.r.userEsp..p.r.userEsp + FRAME]
  }

  /** deliver enters a handler, and writes nothing but the frame, which lies below the stack in use. */
  lemma DeliverEnters(p: Proc, sig: nat)
    requires Valid(p) && p.sig.mask == {} && Delivers(p, sig)
    ensures var q := Delivered(p, sig);
            && InHandler(p.r, q) && q.r.eip == p.sig.handlers[sig] && q.sig.active == sig && q.sig.mask == {sig} + p.sig.masks[sig]
            && Word(q.m, q.r.userEsp + 4) == sig && Word(q.m, q.r.userEsp + 8) == q.r.userEsp
            && FrameOf(p.r) + FRAME <= p.r.userEsp
            && forall k :: 0 <= k < WORD && !(FrameOf(p.r) <= k < FrameOf(p.r) + FRAME) ==> q.m[k] == p.m[k]
  {
    hide Word, PutWords, ContextAt, Context, CallsSigreturn;
    var fp := FrameOf(p.r);
    PutWordsRead(p.m, fp, FrameWords(p.r, sig, fp));
    TrampolineReads(PutWords(p.m, fp, FrameWords(p.r, sig, fp)), fp, p.r, sig);
    FrameReads(PutWords(p.m, fp, FrameWords(p.r, sig, fp)), fp, p.r, sig);
  }

  /** On the way back to user code, a pending signal with a handler and room for its frame enters that handler; any other is dropped, and nothing else changes. */
  lemma PendingEnters(p: Proc)
    requires Valid(p) && Clean(p.sig) && p.sig.active == 0 && p.sig.pending != 0
    ensures var q, sig := PendingDelivered(p), p.sig.pending;
            if sig < MAX_SIG && p.sig.handlers[sig] != 0 && Aligned(p.r.userEsp) >= FRAME + 16
            then InHandler(p.r, q) && q.r.eip == p.sig.handlers[sig] && q.sig.active == sig && q.sig.pending == 0 && q.sig.handlers == p.sig.handlers
            else q == p.(sig := p.sig.(pending := 0))
  {
    hide InHandler, Word, PutWords, FrameWords;
    var p1 := p.(sig := p.sig.(pending := 0));
    if Delivers(p1, p.sig.pending) { DeliverEnters(p1, p.sig.pending); }
  }

  /** Nothing happens while a handler runs, or without a signal. */
  lemma PendingWaits(p: Proc)
    requires Valid(p) && (p.sig.active != 0 || p.sig.pending == 0)
    ensures PendingDelivered(p) == p
  {
  }

  lemma SameFrame(m: seq<byte>, m2: seq<byte>, fp: nat)
    requires fp + FRAME <= |m| == |m2| && m2[fp..fp + FRAME] == m[fp..fp + FRAME]
    ensures ContextAt(m2, fp) == ContextAt(m, fp)
  {
    hide Word;
    forall k | 0 <= k < 23 ensures Word(m2, fp + 4 * k) == Word(m, fp + 4 * k) {
      forall x | fp + 4 * k <= x < fp + 4 * k + 4 ensures m2[x] == m[x] {
        assert m2[x] == m2[fp..fp + FRAME][x - fp] && m[x] == m[fp..fp + FRAME][x - fp];
      }
      SameWord(m, m2, fp + 4 * k);
    }
    SameContext(m, m2, fp);
  }

  lemma SameContext(m: seq<byte>, m2: seq<byte>, fp: nat)
    requires fp + FRAME <= |m| == |m2| && forall k :: 0 <= k < 23 ==> Word(m2, fp + 4 * k) == Word(m, fp + 4 * k)
    ensures ContextAt(m2, fp) == ContextAt(m, fp)
  {
    hide Word;
    assert Word(m2, fp + 4 * 3) == Word(m, fp + 4 * 3) && Word(m2, fp + 4 * 4) == Word(m, fp + 4 * 4) && Word(m2, fp + 4 * 5) == Word(m, fp + 4 * 5);
    assert Word(m2, fp + 4 * 6) == Word(m, fp + 4 * 6) && Word(m2, fp + 4 * 7) == Word(m, fp + 4 * 7) && Word(m2, fp + 4 * 8) == Word(m, fp + 4 * 8);
    assert Word(m2, fp + 4 * 9) == Word(m, fp + 4 * 9) && Word(m2, fp + 4 * 10) == Word(m, fp + 4 * 10) && Word(m2, fp + 4 * 13) == Word(m, fp + 4 * 13);
    assert Word(m2, fp + 4 * 14) == Word(m, fp + 4 * 14) && Word(m2, fp + 4 * 15) == Word(m, fp + 4 * 15);
    assert Word(m2, fp + 4 * 16) == Word(m, fp + 4 * 16) && Word(m2, fp + 4 * 17) == Word(m, fp + 4 * 17);
  }

  lemma RestoredContext(r: Regs, m: seq<byte>, f: nat)
    requires f + FRAME <= |m|
    ensures Context(Restored(r, m, f)) == ContextAt(m, f)
  {
    hide Word;
  }

  lemma SameEsp(r: Regs, r0: Regs)
    requires Context(r) == Context(r0)
    ensures r.userEsp == r0.userEsp
  {
    assert Context(r)[11] == Context(r0)[11];
  }

  /** The way back from a handler: home, or straight into the next handler on the same frame. */
  lemma ReturnSteps(r0: Regs, p: Proc, q: Proc)
    requires InHandler(r0, p) && HandlerRan(p, q)
    ensures Returned(q).Alive?
    ensures var q2 := Returned(q).p;
            && q2.sig.pending == 0 && q2.sig.handlers == q.sig.handlers
            && if 0 < q.sig.pending < MAX_SIG && q.sig.handlers[q.sig.pending] != 0
               then InHandler(r0, q2) && q2.sig.active == q.sig.pending && q2.r.eip == q.sig.handlers[q.sig.pending]
               else q2.sig.active == 0 && Context(q2.r) == Context(r0) && q2.sig.mask == {} && q2.m == q.m
  {
    hide Word, ContextAt, Context, Restored, PutWords;
    SameFrame(p.m, q.m, p.r.userEsp);
    var u := Unwound(q);
    RestoredContext(q.r, q.m, q.r.userEsp - 4);
    SameEsp(u.r, r0);
    if Delivers(u, q.sig.pending) {
      DeliverEnters(u, q.sig.pending);
    }
  }

  /** A chain of handlers: `ins` as each one starts, `outs` as it returns. */
  ghost predicate Chain(p0: Proc, sig: nat, ins: seq<Proc>, outs: seq<Proc>) {
    && |ins| == |outs| > 0 && Valid(p0) && Delivers(p0, sig) && ins[0] == Delivered(p0, sig)
    && (forall k :: 0 <= k < |ins| ==> HandlerRan(ins[k], outs[k]))
    && (forall k :: 0 <= k < |ins| - 1 ==> Continues(outs[k], ins[k + 1]))
  }

  ghost predicate Continues(q: Proc, next: Proc) { Valid(q) && Returned(q) == Alive(next) && next.sig.active != 0 }

  lemma {:induction false} ChainInside(p0: Proc, sig: nat, ins: seq<Proc>, outs: seq<Proc>, k: nat)
    requires Chain(p0, sig, ins, outs) && Clean(p0.sig) && p0.sig.active == 0 && k < |ins|
    ensures InHandler(p0.r, ins[k])
  {
    hide InHandler, HandlerRan, Returned;
    if k == 0 {
      DeliverEnters(p0, sig);
    } else {
      ChainInside(p0, sig, ins, outs, k - 1);
      assert Continues(outs[k - 1], ins[k - 1 + 1]);
      ReturnSteps(p0.r, ins[k - 1], outs[k - 1]);
    }
  }

  /** However many signals come back to back: when the last handler has returned, registers and mask are as before the first. */
  lemma ChainRestores(p0: Proc, sig: nat, ins: seq<Proc>, outs: seq<Proc>)
    requires Chain(p0, sig, ins, outs) && Clean(p0.sig) && p0.sig.active == 0
    ensures Valid(outs[|outs| - 1]) && Returned(outs[|outs| - 1]).Alive?
    ensures var q := Returned(outs[|outs| - 1]).p;
            q.sig.active == 0 ==> Context(q.r) == Context(p0.r) && q.sig.mask == p0.sig.mask
  {
    var n := |outs| - 1;
    assert HandlerRan(ins[n], outs[n]) && Valid(outs[n]);
    hide InHandler, HandlerRan, Returned, Context;
    ChainInside(p0, sig, ins, outs, n);
    ReturnSteps(p0.r, ins[n], outs[n]);
  }

  /** A process's signal state, its saved registers and its memory, as task.cpp changes them. */
  class Process {
    var sig: Sig
    var r: Regs
    const mem: array<byte>

    ghost function P(): Proc
      reads this, mem
    {
      Proc(sig, r, mem[..])
    }

    constructor (regs: Regs, memory: array<byte>)
      ensures r == regs && mem == memory && sig == Zeroed() && Clean(sig) && |sig.handlers| == |sig.masks| == MAX_SIG
    {
      sig := Zeroed();
      r, mem := regs, memory;
    }

    /** deliver */
    method Deliver(s: nat) returns (ok: bool)
      requires Valid(P())
      modifies this, mem
      ensures ok == old(Delivers(P(), s)) && P() == TryDeliver(old(P()), s) && Valid(P())
    {
      hide PutWords;
      if s == 0 || s >= MAX_SIG { return false; }
      var handler := sig.handlers[s];
      if handler == 0 { return false; }
      if s in sig.mask { return false; }
      var sp := r.userEsp;
      sp := sp - sp % 4;
      if sp < FRAME + 16 { return false; }
      var fp := sp - FRAME;
      StoreWords(mem, fp, FrameWords(r, s, fp));
      r := r.(eip := handler, userEsp := fp, espDummy := fp);
      sig := sig.(saved := sig.mask, mask := sig.mask + {s} + sig.masks[s], active := s);
      return true;
    }

    /** deliver_pending */
    method DeliverNext()
      requires Valid(P())
      modifies this, mem
      ensures P() == PendingDelivered(old(P())) && Valid(P())
    {
      if sig.pending == 0 || sig.active != 0 { return; }
      var s := sig.pending;
      sig := sig.(pending := 0);
      if s < MAX_SIG && sig.handlers[s] != 0 { var _ := Deliver(s); }
    }

    /** sigreturn; `alive` is false when it ends the process. */
    method Sigreturn() returns (alive: bool)
      requires Valid(P())
      modifies this, mem
      ensures alive <==> old(Returned(P())).Alive?
      ensures alive ==> Valid(P()) && P() == old(Returned(P())).p
    {
      hide Word;
      if sig.active == 0 || sig.active >= MAX_SIG { return true; }
      if r.userEsp < 4 || r.userEsp - 4 + FRAME > mem.Length { return false; }
      r := Restored(r, mem[..], r.userEsp - 4);
      sig := sig.(mask := sig.saved, active := 0);
      var next := sig.pending;
      sig := sig.(pending := 0);
      if next != 0 && next < MAX_SIG { var _ := Deliver(next); }
      return true;
    }
  }
}
