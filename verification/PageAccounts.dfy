/** Where all memory of the address spaces is: nothing is lost but what a failed creation never gives back. */
module PageAccounts {
  import opened Basics
  import opened Paging

  /** Every table is some space's, or some group's. */
  ghost predicate AllOwned(sps: Spaces, grs: Groups, tabs: set<Addr>) {
    forall t :: t in tabs ==> exists o :: Owns(sps, grs, o, t)
  }

  /** What is allocated is a space, a group, a table, a frame, or among what is lost. */
  ghost predicate Balanced(st: State, lost: set<Addr>) {
    && lost !! st.spaces.Keys + st.groups.Keys + st.tables.Keys + st.frames.Keys
    && st.live == st.spaces.Keys + st.groups.Keys + st.tables.Keys + st.frames.Keys + lost
  }

  ghost predicate Accounted(st: State, lost: set<Addr>) {
    AllOwned(st.spaces, st.groups, st.tables.Keys) && Balanced(st, lost)
  }

  // ---------------------------------------------------------------- the parts of a step

  /** Owners stay owners, but for tables that have gone. */
  lemma OwnersStay(sps: Spaces, grs: Groups, tabs: set<Addr>, sps2: Spaces, grs2: Groups, tabs2: set<Addr>)
    requires AllOwned(sps, grs, tabs) && tabs2 <= tabs
    requires forall o, t :: t in tabs2 && Owns(sps, grs, o, t) ==> exists o2 :: Owns(sps2, grs2, o2, t)
    ensures AllOwned(sps2, grs2, tabs2)
  {
    hide Owns;
    forall t | t in tabs2 ensures exists o :: Owns(sps2, grs2, o, t) {
      var o :| Owns(sps, grs, o, t);
    }
  }

  lemma DetachedOwned(sps: Spaces, grs: Groups, tabs: set<Addr>, s: Addr)
    requires s in sps && !Shares(sps, grs, s) && AllOwned(sps, grs, tabs)
    ensures AllOwned(sps[s := sps[s].(cow := None)], grs, tabs)
  {
    hide AllOwned;
    var sps2 := sps[s := sps[s].(cow := None)];
    forall o, t | Owns(sps, grs, o, t) ensures Owns(sps2, grs, o, t) {}
    OwnersStay(sps, grs, tabs, sps2, grs, tabs);
  }

  lemma LastOut(st: State, s: Addr, sps2: Spaces, g: Addr)
    requires RefsOk(st.spaces, st.groups) && s in st.spaces && st.spaces[s].cow == Some(g) && g in st.groups
    requires sps2 == st.spaces - {s} || sps2 == st.spaces[s := st.spaces[s].(cow := None)]
    ensures 0 < st.groups[g].refs && (st.groups[g].refs == 1 ==> forall u :: u in sps2 ==> sps2[u].cow != Some(g))
  {
    assert st.groups[g].refs > 0;
    ReleaseRefs(st.spaces, sps2, st.groups, s, g);
  }

  lemma ReleasedOwned(sps: Spaces, grs: Groups, tabs: set<Addr>, g: Addr)
    requires AllOwned(sps, grs, tabs) && g in grs && 0 < grs[g].refs
    requires grs[g].refs == 1 ==> forall u :: u in sps ==> sps[u].cow != Some(g)
    ensures AllOwned(sps, ReleasedGroups(grs, g), if grs[g].refs == 1 then tabs - {grs[g].code, grs[g].heap} else tabs)
  {
    hide AllOwned;
    var grs2, tabs2 := ReleasedGroups(grs, g), if grs[g].refs == 1 then tabs - {grs[g].code, grs[g].heap} else tabs;
    forall o, t | t in tabs2 && Owns(sps, grs, o, t) ensures Owns(sps, grs2, o, t) {}
    OwnersStay(sps, grs, tabs, sps, grs2, tabs2);
  }

  lemma ReleaseAccounts(st: State, g: Addr, lost: set<Addr>)
    requires Accounted(st, lost) && Domains(st) && g in st.groups && GroupOk(st.groups, st.tables, g) && 0 < st.groups[g].refs
    requires st.groups[g].refs == 1 ==> forall u :: u in st.spaces ==> st.spaces[u].cow != Some(g)
    ensures Accounted(Release(st, g), lost) && Release(st, g).frames == st.frames
  {
    hide AllOwned, NoneWritable, Release;
    ReleaseDomains(st, g);
    ReleasedOwned(st.spaces, st.groups, st.tables.Keys, g);
    ReleaseBalances(st, g, lost);
  }

  lemma ReleaseBalances(st: State, g: Addr, lost: set<Addr>)
    requires Balanced(st, lost) && Domains(st) && g in st.groups && GroupOk(st.groups, st.tables, g) && 0 < st.groups[g].refs
    ensures Balanced(Release(st, g), lost) && Release(st, g).frames == st.frames && Release(st, g).spaces == st.spaces
  {
    hide NoneWritable;
    ReleaseDomains(st, g);
    assert Release(st, g).groups.Keys == if st.groups[g].refs == 1 then st.groups.Keys - {g} else st.groups.Keys;
  }

  lemma LeaveAccounts(st: State, s: Addr, lost: set<Addr>)
    requires Valid(st) && s in st.spaces && st.spaces[s].cow.Some? && !Shares(st.spaces, st.groups, s) && Accounted(st, lost)
    ensures Leave.requires(st, s) && Accounted(Leave(st, s), lost) && Leave(st, s).frames == st.frames
  {
    hide OneOwner, FramesOk, AllOwned, SpacesOk, GroupsOk, RefsOk, Release, Shares, SpaceOk, GroupOk;
    var g := st.spaces[s].cow.value;
    var st1 := st.(spaces := st.spaces[s := st.spaces[s].(cow := None)]);
    GroupOfMember(st, s);
    DetachedOwned(st.spaces, st.groups, st.tables.Keys, s);
    assert st1.spaces.Keys == st.spaces.Keys;
    LastOut(st, s, st1.spaces, g);
    ReleaseAccounts(st1, g, lost);
  }

  lemma GroupOfMember(st: State, s: Addr)
    requires Valid(st) && s in st.spaces && st.spaces[s].cow.Some?
    ensures st.spaces[s].cow.value in st.groups && GroupOk(st.groups, st.tables, st.spaces[s].cow.value)
  {
    SpaceIsOk(st, s);
    assert GroupOk(st.groups, st.tables, st.spaces[s].cow.value);
  }

  lemma FoundOwned(sps: Spaces, grs: Groups, tabs: set<Addr>, s: Addr, g: Addr)
    requires AllOwned(sps, grs, tabs) && SpacesOk(sps, grs, tabs) && s in sps && sps[s].cow == None && g !in grs
    ensures AllOwned(sps[s := sps[s].(cow := Some(g))], grs[g := Group(sps[s].code, sps[s].heap, 1)], tabs)
  {
    hide AllOwned;
    var sps2, grs2 := sps[s := sps[s].(cow := Some(g))], grs[g := Group(sps[s].code, sps[s].heap, 1)];
    FoundSpaces(sps, grs, tabs, s, g);
    hide SpacesOk;
    forall o, t | Owns(sps, grs, o, t) ensures Owns(sps2, grs2, if o == OfSpace(s) then OfGroup(g) else o, t) {}
    OwnersStay(sps, grs, tabs, sps2, grs2, tabs);
  }

  lemma FoundAccounts(st: State, s: Addr, g: Addr, lost: set<Addr>)
    requires Valid(st) && s in st.spaces && st.spaces[s].cow == None && g !in st.live && Accounted(st, lost)
    ensures Found.requires(st, s, g) && Accounted(Found(st, s, g), lost) && Found(st, s, g).frames == st.frames
  {
    hide OneOwner, FramesOk, ReadOnly, SpacesOk, RefsOk, GroupsOk, AllOwned;
    SpaceIsOk(st, s);
    var st2 := Found(st, s, g);
    assert st2.tables.Keys == st.tables.Keys && st2.groups.Keys == st.groups.Keys + {g} && st2.spaces.Keys == st.spaces.Keys;
    FoundOwned(st.spaces, st.groups, st.tables.Keys, s, g);
  }

  lemma JoinedOwned(sps: Spaces, grs: Groups, tabs: set<Addr>, child: Addr, g: Addr)
    requires AllOwned(sps, grs, tabs) && child in sps && sps[child].cow == None && g in grs
    requires forall u :: u in sps && sps[u].cow.Some? ==> sps[u].cow.value in grs
    ensures AllOwned(sps[child := Space(grs[g].code, grs[g].heap, grs[g].code, grs[g].heap, Some(g))],
                     grs[g := grs[g].(refs := grs[g].refs + 1)], tabs - {sps[child].code, sps[child].heap})
  {
    hide AllOwned;
    var sps2 := sps[child := Space(grs[g].code, grs[g].heap, grs[g].code, grs[g].heap, Some(g))];
    var grs2, tabs2 := grs[g := grs[g].(refs := grs[g].refs + 1)], tabs - {sps[child].code, sps[child].heap};
    forall o, t | t in tabs2 && Owns(sps, grs, o, t) ensures Owns(sps2, grs2, o, t) {}
    OwnersStay(sps, grs, tabs, sps2, grs2, tabs2);
  }

  lemma CowsIn(st: State)
    requires Valid(st)
    ensures forall u :: u in st.spaces && st.spaces[u].cow.Some? ==> st.spaces[u].cow.value in st.groups
  {
    forall u | u in st.spaces ensures SpaceOk(st.spaces, st.groups, st.tables.Keys, u) { SpaceIsOk(st, u); }
  }

  lemma JoinAccounts(st: State, child: Addr, g: Addr, lost: set<Addr>)
    requires Valid(st) && child in st.spaces && st.spaces[child].cow == None && g in st.groups && Accounted(st, lost)
    ensures Accounted(Join(st, child, g), lost) && Join(st, child, g).frames == st.frames
  {
    hide OneOwner, FramesOk, RefsOk, GroupsOk, AllOwned, SpacesOk;
    SpaceIsOk(st, child);
    CowsIn(st);
    var st2, sp := Join(st, child, g), st.spaces[child];
    assert st2.tables.Keys == st.tables.Keys - {sp.code, sp.heap} && st2.groups.Keys == st.groups.Keys && st2.spaces.Keys == st.spaces.Keys;
    JoinedOwned(st.spaces, st.groups, st.tables.Keys, child, g);
  }

  lemma UnsharedOwned(sps: Spaces, grs: Groups, tabs: set<Addr>, s: Addr, code: Addr, heap: Addr)
    requires AllOwned(sps, grs, tabs) && s in sps && Shares(sps, grs, s) && code != grs[sps[s].cow.value].code
    ensures AllOwned(sps[s := Space(code, heap, code, heap, sps[s].cow)], grs, tabs + {code, heap})
  {
    var sps2 := sps[s := Space(code, heap, code, heap, sps[s].cow)];
    assert Owns(sps2, grs, OfSpace(s), code) && Owns(sps2, grs, OfSpace(s), heap);
    forall t | t in tabs ensures exists o :: Owns(sps2, grs, o, t) {
      var o :| Owns(sps, grs, o, t);
      assert Owns(sps2, grs, o, t);
    }
  }

  lemma UnshareAccounts(st: State, s: Addr, code: Addr, heap: Addr, lost: set<Addr>)
    requires Valid(st) && s in st.spaces && Shares(st.spaces, st.groups, s) && code !in st.live && heap !in st.live && code != heap
    requires Accounted(st, lost)
    ensures Unshare.requires(st, s, code, heap) && Accounted(Unshare(st, s, code, heap), lost)
    ensures Unshare(st, s, code, heap).frames == st.frames
  {
    hide OneOwner, FramesOk, NoneWritable, RefsOk, AllOwned, SpacesOk, GroupsOk;
    SpaceGroupOk(st, s, st.spaces[s].cow.value);
    var st2 := Unshare(st, s, code, heap);
    assert st2.tables.Keys == st.tables.Keys + {code, heap} && st2.spaces.Keys == st.spaces.Keys;
    UnsharedOwned(st.spaces, st.groups, st.tables.Keys, s, code, heap);
  }

  lemma DroppedOwned(sps: Spaces, grs: Groups, tabs: set<Addr>, s: Addr)
    requires AllOwned(sps, grs, tabs) && s in sps
    ensures AllOwned(sps - {s}, grs, if Shares(sps, grs, s) then tabs else tabs - {sps[s].code, sps[s].heap})
  {
    hide AllOwned;
    var sps2, tabs2 := sps - {s}, if Shares(sps, grs, s) then tabs else tabs - {sps[s].code, sps[s].heap};
    forall o, t | t in tabs2 && Owns(sps, grs, o, t) ensures Owns(sps2, grs, o, t) {}
    OwnersStay(sps, grs, tabs, sps2, grs, tabs2);
  }

  lemma DropAccounts(st: State, s: Addr, lost: set<Addr>)
    requires Valid(st) && s in st.spaces && Accounted(st, lost)
    ensures Accounted(Drop(st, s), lost) && Drop(st, s).frames == st.frames
  {
    hide OneOwner, FramesOk, RefsOk, GroupsOk, AllOwned, SpacesOk, Shares;
    SpaceIsOk(st, s);
    var st2, sp := Drop(st, s), st.spaces[s];
    assert st2.tables.Keys == if Shares(st.spaces, st.groups, s) then st.tables.Keys else st.tables.Keys - {sp.code, sp.heap};
    assert st2.spaces.Keys == st.spaces.Keys - {s};
    DroppedOwned(st.spaces, st.groups, st.tables.Keys, s);
  }

  // ---------------------------------------------------------------- the steps

  lemma DestroyAccounts(st: State, s: Addr, lost: set<Addr>)
    requires Valid(st) && s in st.spaces && Accounted(st, lost)
    ensures Destroy.requires(st, s) && Accounted(Destroy(st, s), lost) && Destroy(st, s).frames == st.frames
  {
    hide OneOwner, FramesOk, AllOwned, Balanced, Shares, Domains;
    SpaceIsOk(st, s);
    DestroyValid(st, s);
    DropAccounts(st, s, lost);
    if st.spaces[s].cow.Some? {
      var g, st1 := st.spaces[s].cow.value, Drop(st, s);
      DropShape(st, s, st1);
      assert GroupOk(st1.groups, st1.tables, g);
      LastOut(st, s, st1.spaces, g);
      ReleaseAccounts(st1, g, lost);
    }
  }

  lemma LeftAccounts(st: State, s: Addr, lost: set<Addr>)
    requires Valid(st) && s in st.spaces && Accounted(st, lost)
    ensures Accounted(Left(st, s), lost) && Left(st, s).frames == st.frames
  {
    hide Valid, Accounted, Leave;
    if st.spaces[s].cow.Some? && !Shares(st.spaces, st.groups, s) { LeaveAccounts(st, s, lost); }
  }

  lemma ShareAccounts(st: State, child: Addr, parent: Addr, g: Option<Addr>, lost: set<Addr>)
    requires Valid(st) && child in st.spaces && parent in st.spaces && st.spaces[child].cow == None && Fresh(Left(st, parent), g)
    requires Accounted(st, lost)
    ensures Accounted(Share(st, child, parent, g).0, lost) && Share(st, child, parent, g).0.frames == st.frames
  {
    hide Valid, Accounted, Join, Found, Left;
    if child != parent {
      LeftValid(st, parent);
      LeftAccounts(st, parent, lost);
      var st1 := Left(st, parent);
      if st1.spaces[parent].cow.Some? {
        JoinAccounts(st1, child, st1.spaces[parent].cow.value, lost);
      } else if g.Some? {
        FoundValid(st1, parent, g.value);
        FoundAccounts(st1, parent, g.value, lost);
        FoundSpace(st1, parent, child, g.value);
        JoinAccounts(Found(st1, parent, g.value), child, g.value, lost);
      }
    }
  }

  lemma CreateAccounts(st: State, sp: Option<Addr>, code: Option<Addr>, heap: Option<Addr>, lost: set<Addr>)
    requires Valid(st) && FreshThree(st, sp, code, heap) && Accounted(st, lost)
    ensures Accounted(Create(st, sp, code, heap).0, lost + LostBy(OpCreate(sp, code, heap)))
    ensures Create(st, sp, code, heap).0.frames == st.frames
  {
    hide OneOwner, FramesOk, RefsOk, GroupsOk, SpacesOk, AllOwned, EmptyTable;
    var st2, ok := Create(st, sp, code, heap).0, Create(st, sp, code, heap).1;
    if ok {
      assert st2.tables.Keys == st.tables.Keys + {code.value, heap.value} && st2.spaces.Keys == st.spaces.Keys + {sp.value};
      CreatedOwned(st, sp.value, code.value, heap.value);
    }
  }

  lemma CreatedOwned(st: State, s: Addr, code: Addr, heap: Addr)
    requires Valid(st) && s !in st.spaces && AllOwned(st.spaces, st.groups, st.tables.Keys)
    ensures AllOwned(st.spaces[s := Space(code, heap, code, heap, None)], st.groups, st.tables.Keys + {code, heap})
  {
    hide Valid;
    var sps2 := st.spaces[s := Space(code, heap, code, heap, None)];
    assert Owns(sps2, st.groups, OfSpace(s), code) && Owns(sps2, st.groups, OfSpace(s), heap);
    forall t | t in st.tables ensures exists o :: Owns(sps2, st.groups, o, t) {
      var o :| Owns(st.spaces, st.groups, o, t);
      assert Owns(sps2, st.groups, o, t);
    }
  }

  /** Nothing changes but what lies in tables and frames, and which frames there are. */
  lemma FrameAccounts(st: State, st2: State, more: set<Addr>, lost: set<Addr>)
    requires Accounted(st, lost) && st2.spaces == st.spaces && st2.groups == st.groups && st2.tables.Keys == st.tables.Keys
    requires st2.frames.Keys == st.frames.Keys + more && st2.live == st.live + more && more !! st.live
    ensures Accounted(st2, lost)
  {
    hide AllOwned;
  }

  lemma MapAccounts(st: State, s: Addr, p: nat, f: Addr, user: bool, lost: set<Addr>)
    requires Accounted(st, lost) && s in st.spaces && p < 1024 && TableOf(st.spaces[s], p) in st.tables
    ensures Accounted(MapPage(st, s, p, f, user), lost) && MapPage(st, s, p, f, user).frames == st.frames
  {
    hide Accounted;
    assert MapPage(st, s, p, f, user).tables.Keys == st.tables.Keys;
    FrameAccounts(st, MapPage(st, s, p, f, user), {}, lost);
  }

  lemma NewFrameAccounts(st: State, f: Addr, data: Page, lost: set<Addr>)
    requires Accounted(st, lost) && f !in st.live
    ensures Accounted(NewFrame(st, f, data), lost) && NewFrame(st, f, data).frames.Keys == st.frames.Keys + {f}
  {
    hide Accounted;
    FrameAccounts(st, NewFrame(st, f, data), {f}, lost);
  }

  lemma FaultAccounts(st: State, s: Addr, p: nat, a: Answers, lost: set<Addr>)
    requires Valid(st) && s in st.spaces && p < 1024 && FreshAnswers(st, a) && Accounted(st, lost)
    ensures Accounted(Fault(st, s, p, a).0, lost)
    ensures Fault(st, s, p, a).0.frames.Keys == st.frames.Keys + (if Fault(st, s, p, a).1 then Given(a.frame) else {})
  {
    hide Valid, Accounted, Copyable, Copied, Shares;
    SpaceIsOk(st, s);
    if Copyable(st, s, p) && Enough(st, s, a) { PreparedAccounts(st, s, p, a, lost); }
  }

  lemma PreparedAccounts(st: State, s: Addr, p: nat, a: Answers, lost: set<Addr>)
    requires Valid(st) && s in st.spaces && p < 1024 && FreshAnswers(st, a) && Accounted(st, lost)
    requires TableOf(st.spaces[s], p) in st.tables && Copyable(st, s, p) && Enough(st, s, a)
    ensures Accounted(Copied(st, s, p, a), lost) && Copied(st, s, p, a).frames.Keys == st.frames.Keys + {a.frame.value}
  {
    hide Valid, Accounted, MapPage, NewFrame, Unshare;
    SpaceIsOk(st, s);
    var e := st.tables[TableOf(st.spaces[s], p)][p % 512];
    SourceExists(st, TableOf(st.spaces[s], p), p % 512);
    var st1 := NewFrame(st, a.frame.value, st.frames[e.frame]);
    NewFrameValid(st, a.frame.value, st.frames[e.frame]);
    NewFrameAccounts(st, a.frame.value, st.frames[e.frame], lost);
    FramedSame(st, a.frame.value, st.frames[e.frame]);
    if Shares(st.spaces, st.groups, s) { UnshareAccounts(st1, s, a.code.value, a.heap.value, lost); }
    PreparedValid(st, s, p, a, Prepared(st, s, p, a));
    SpaceIsOk(Prepared(st, s, p, a), s);
    MapAccounts(Prepared(st, s, p, a), s, p, a.frame.value, true, lost);
  }

  lemma FramedSame(st: State, f: Addr, data: Page)
    ensures var st1 := NewFrame(st, f, data);
            st1.spaces == st.spaces && st1.groups == st.groups && st1.tables == st.tables && st1.live == st.live + {f}
  {
  }

  lemma StoreAccounts(st: State, s: Addr, p: nat, off: nat, b: byte, lost: set<Addr>)
    requires Valid(st) && Accounted(st, lost) && Store.requires(st, s, p, off, b)
    ensures Accounted(Store(st, s, p, off, b), lost) && Store(st, s, p, off, b).frames.Keys == st.frames.Keys
  {
    hide Accounted;
    FrameAccounts(st, Store(st, s, p, off, b), {}, lost);
  }

  lemma WriteAccounts(st: State, s: Addr, va: nat, b: byte, a: Answers, lost: set<Addr>)
    requires Valid(st) && s in st.spaces && FreshAnswers(st, a) && Accounted(st, lost)
    ensures Accounted(Write(st, s, va, b, a).0, lost)
    ensures Write(st, s, va, b, a).0.frames.Keys == st.frames.Keys + Taken(st, OpWrite(s, va, b, a), Write(st, s, va, b, a).1)
  {
    hide Valid, Accounted, Fault, Writable, Store;
    if UserVa(va) {
      var p := PageNo(va);
      if Writable(st, s, p) {
        StoreValid(st, s, p, va % 4096, b);
        StoreAccounts(st, s, p, va % 4096, b, lost);
      } else {
        FaultKeeps(st, s, p, a);
        FaultAccounts(st, s, p, a, lost);
        var (st1, ok) := Fault(st, s, p, a);
        if ok {
          StoreValid(st1, s, p, va % 4096, b);
          StoreAccounts(st1, s, p, va % 4096, b, lost);
        }
      }
    }
  }

  // ---------------------------------------------------------------- every step, every run

  /** What a creation that fails half way has asked for and does not give back. */
  function LostBy(op: Op): set<Addr> {
    if op.OpCreate? && op.space.Some? && (op.code == None || op.heap == None) then Given(op.space) + Given(op.code) + Given(op.heap) else {}
  }

  /** The page frame a step takes for good: one mapped at set-up, or the copy a fault makes. */
  predicate TakesCopy(st: State, s: Addr, va: nat) { UserVa(va) && !Writable(st, s, PageNo(va)) }

  function Taken(st: State, op: Op, ok: bool): set<Addr> {
    match op
    case OpMap(_, _, f, _, _) => {f}
    case OpWrite(s, va, _, a) => if ok && TakesCopy(st, s, va) then Given(a.frame) else {}
    case _ => {}
  }

  /** Every step gives back what it no longer uses, and only a creation that fails half way loses anything. */
  lemma StepAccounts(st: State, op: Op, lost: set<Addr>)
    requires Valid(st) && Allowed(st, op) && Accounted(st, lost)
    ensures Accounted(Step(st, op).0, lost + LostBy(op))
    ensures Step(st, op).0.frames.Keys == st.frames.Keys + Taken(st, op, Step(st, op).1)
  {
    hide Valid, Accounted, Create, Share, Write, Destroy, MapPage, NewFrame;
    assert !op.OpCreate? ==> lost + LostBy(op) == lost;
    match op
    case OpCreate(sp, code, heap) => CreateAccounts(st, sp, code, heap, lost);
    case OpMap(s, va, f, user, data) =>
      NewFrameValid(st, f, data);
      NewFrameAccounts(st, f, data, lost);
      FramedSame(st, f, data);
      MapValid(NewFrame(st, f, data), s, PageNo(va), f, user);
      MapAccounts(NewFrame(st, f, data), s, PageNo(va), f, user, lost);
    case OpFork(child, parent, g) => ShareAccounts(st, child, parent, g, lost);
    case OpWrite(s, va, b, a) => WriteAccounts(st, s, va, b, a, lost);
    case OpDestroy(s) => DestroyAccounts(st, s, lost);
  }

  function LostByAll(ops: seq<Op>): set<Addr>
    decreases |ops|
  {
    if ops == [] then {} else LostBy(ops[0]) + LostByAll(ops[1..])
  }

  ghost function TakenByAll(st: State, ops: seq<Op>): set<Addr>
    requires Valid(st) && AllowedRun(st, ops)
    decreases |ops|
  {
    if ops == [] then {}
    else
      StepRefines(st, ops[0]);
      Taken(st, ops[0], Step(st, ops[0]).1) + TakenByAll(Step(st, ops[0]).0, ops[1..])
  }

  /** Over every run, what is allocated is in use: every table has an owner, and all else is a space, a group, a frame taken, or lost. */
  lemma {:induction false} RunAccounts(st: State, ops: seq<Op>, lost: set<Addr>)
    requires Valid(st) && AllowedRun(st, ops) && Accounted(st, lost)
    ensures Accounted(Run(st, ops).0, lost + LostByAll(ops))
    ensures Run(st, ops).0.frames.Keys == st.frames.Keys + TakenByAll(st, ops)
    decreases |ops|
  {
    hide Valid, Accounted, Step, Allowed, LostBy, Taken;
    if ops == [] {
      assert lost + LostByAll(ops) == lost;
    } else {
      StepRefines(st, ops[0]);
      StepAccounts(st, ops[0], lost);
      RunAccounts(Step(st, ops[0]).0, ops[1..], lost + LostBy(ops[0]));
      assert lost + LostBy(ops[0]) + LostByAll(ops[1..]) == lost + LostByAll(ops);
    }
  }

  lemma InitAccounts()
    ensures Accounted(INIT, {})
  {
  }

  /** When the last space has gone, so have all groups and tables: only page frames are left, and what was lost. */
  lemma NothingLeft(ops: seq<Op>)
    requires Valid(INIT) && AllowedRun(INIT, ops) && Run(INIT, ops).0.spaces == map[]
    ensures var st := Run(INIT, ops).0;
            st.groups == map[] && st.tables == map[] && st.live == TakenByAll(INIT, ops) + LostByAll(ops)
  {
    hide OneOwner, FramesOk, GroupsOk, SpacesOk, Run, AllowedRun, TakenByAll, LostByAll;
    InitAccounts();
    RunAccounts(INIT, ops, {});
    RunRefinesEager(INIT, ops);
    var st := Run(INIT, ops).0;
    assert {} + LostByAll(ops) == LostByAll(ops) && INIT.frames.Keys + TakenByAll(INIT, ops) == TakenByAll(INIT, ops);
    forall g ensures g !in st.groups { assert Members(st.spaces, g) == {}; }
    assert forall o, t :: !Owns(st.spaces, st.groups, o, t);
  }

  /** And the spaces of a whole fork, failed or not. */
  lemma ForkAccounts(st: State, parent: Addr, m: ForkMemory, lost: set<Addr>)
    requires Valid(st) && parent in st.spaces && FreshFork(st, parent, m) && Accounted(st, lost)
    ensures Accounted(ForkSpaces(st, parent, m).0, lost + LostBy(OpCreate(m.space, m.code, m.heap)))
    ensures ForkSpaces(st, parent, m).0.frames == st.frames
  {
    hide Valid, Accounted, Create, Share, Destroy;
    CreateValid(st, m.space, m.code, m.heap);
    CreateAccounts(st, m.space, m.code, m.heap, lost);
    if HasSpace(m) {
      CreatedFacts(st, m);
      var s1 := Create(st, m.space, m.code, m.heap).0;
      assert lost + LostBy(OpCreate(m.space, m.code, m.heap)) == lost;
      ShareRefines(s1, m.space.value, parent, m.group);
      ShareAccounts(s1, m.space.value, parent, m.group, lost);
      var (s2, shared) := Share(s1, m.space.value, parent, m.group);
      if !shared {
        DestroyValid(s2, m.space.value);
        DestroyAccounts(s2, m.space.value, lost);
      }
    } else {
      NotMade(st, m);
    }
  }

  lemma NotMade(st: State, m: ForkMemory)
    requires !HasSpace(m)
    ensures !Create(st, m.space, m.code, m.heap).1
  {
  }
}
