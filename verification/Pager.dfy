/** The operations of the pager as they run, step by step, each proved against its value in Paging. */
module Pager {
  import opened Basics
  import opened Paging

  /** Whatever lay at the address is gone. */
  function Freed(st: State, a: Addr): State {
    State(st.spaces - {a}, st.groups - {a}, st.tables - {a}, st.frames - {a}, st.live - {a})
  }

  lemma FreedTable(st: State, a: Addr)
    requires Domains(st) && a in st.tables
    ensures Freed(st, a) == st.(tables := st.tables - {a}, live := st.live - {a})
  {
    assert st.spaces - {a} == st.spaces && st.groups - {a} == st.groups && st.frames - {a} == st.frames;
  }

  lemma FreedGroup(st: State, a: Addr)
    requires Domains(st) && a in st.groups
    ensures Freed(st, a) == st.(groups := st.groups - {a}, live := st.live - {a})
  {
    assert st.spaces - {a} == st.spaces && st.tables - {a} == st.tables && st.frames - {a} == st.frames;
  }

  lemma FreedFrame(st: State, a: Addr, data: Page)
    requires Domains(st) && a !in st.live
    ensures Freed(NewFrame(st, a, data), a) == st
  {
    var r := Freed(NewFrame(st, a, data), a);
    assert r.spaces == st.spaces && r.groups == st.groups && r.tables == st.tables;
    assert r.frames == st.frames && r.live == st.live;
  }

  function WithoutTables(st: State, sp: Space): State {
    st.(tables := st.tables - {sp.code, sp.heap}, live := st.live - {sp.code, sp.heap})
  }

  /** Giving back a space's own tables disturbs neither the domains nor its group. */
  lemma OwnTablesGone(st: State, s: Addr)
    requires Valid(st) && s in st.spaces
    ensures Domains(WithoutTables(st, st.spaces[s]))
    ensures st.spaces[s].cow.Some? ==>
              && GroupOk(st.groups, st.tables, st.spaces[s].cow.value)
              && (!Shares(st.spaces, st.groups, s) ==>
                    GroupOk(st.groups, WithoutTables(st, st.spaces[s]).tables, st.spaces[s].cow.value))
  {
    hide OneOwner, FramesOk, RefsOk, NoneWritable;
    SpaceIsOk(st, s);
    if !Shares(st.spaces, st.groups, s) { OwnTablesUnused(st, s); }
  }

  /** The order in which a dying space gives things back does not matter. */
  lemma DestroyOrder(st: State, s: Addr)
    requires Domains(st) && s in st.spaces && Destroy.requires(st, s)
    requires SpaceOk(st.spaces, st.groups, st.tables.Keys, s)
    requires st.spaces[s].cow.Some? ==> GroupOk(st.groups, st.tables, st.spaces[s].cow.value)
    ensures var st1 := if Shares(st.spaces, st.groups, s) then st else WithoutTables(st, st.spaces[s]);
            var st2 := if st.spaces[s].cow.Some? then Release(st1, st.spaces[s].cow.value) else st1;
            s in st2.live && Freed(st2, s) == Destroy(st, s)
  {
    hide NoneWritable;
    var st1 := if Shares(st.spaces, st.groups, s) then st else WithoutTables(st, st.spaces[s]);
    var st2 := if st.spaces[s].cow.Some? then Release(st1, st.spaces[s].cow.value) else st1;
    var a, b := Freed(st2, s), Destroy(st, s);
    assert a.tables == b.tables && a.groups == b.groups && a.frames == b.frames;
    assert a.live == b.live && a.spaces == b.spaces;
  }

  lemma RefsPositive(st: State, g: Addr)
    requires Valid(st) && g in st.groups
    ensures 0 < st.groups[g].refs
  {
  }

  lemma DomainsOf(st: State)
    requires Valid(st)
    ensures Domains(st)
  {
  }

  /** Protecting the tables of a group again changes nothing. */
  lemma ProtectedAlready(st: State, g: Addr)
    requires Valid(st) && g in st.groups
    ensures GroupOk(st.groups, st.tables, g)
    ensures ReadOnly(st.tables[st.groups[g].code]) == st.tables[st.groups[g].code]
    ensures ReadOnly(st.tables[st.groups[g].heap]) == st.tables[st.groups[g].heap]
  {
    assert GroupOk(st.groups, st.tables, g);
  }

  lemma PreparedMapped(st: State, s: Addr, p: nat, a: Answers)
    requires Valid(st) && s in st.spaces && p < 1024 && FreshAnswers(st, a)
    requires TableOf(st.spaces[s], p) in st.tables && Copyable(st, s, p) && Enough(st, s, a)
    ensures Prepared(st, s, p, a).spaces.Keys == st.spaces.Keys
    ensures Prepared(st, s, p, a).spaces[s].code in Prepared(st, s, p, a).tables
    ensures Prepared(st, s, p, a).spaces[s].heap in Prepared(st, s, p, a).tables
  {
    hide Valid, Prepared;
    PreparedValid(st, s, p, a, Prepared(st, s, p, a));
    SpaceIsOk(Prepared(st, s, p, a), s);
  }

  /** The first n entries have lost their writable bit. */
  function Cleared(t: Table, n: nat): Table {
    seq(512, i requires 0 <= i < 512 => if i < n && t[i].present then t[i].(writable := false) else t[i])
  }

  lemma ClearedAll(t: Table)
    ensures Cleared(t, 0) == t && Cleared(t, 512) == ReadOnly(t)
  {
  }

  lemma ClearedNext(t: Table, n: nat)
    requires n < 512
    ensures Cleared(t, n)[n] == t[n]
    ensures Cleared(t, n + 1) == Cleared(t, n)[n := if t[n].present then t[n].(writable := false) else t[n]]
  {
  }

  class Mmu {
    var spaces: Spaces
    var groups: Groups
    var tables: Tables
    var frames: map<Addr, Page>
    var live: set<Addr>

    ghost function St(): State
      reads this
    {
      State(spaces, groups, tables, frames, live)
    }

    constructor ()
      ensures St() == INIT
    {
      spaces, groups, tables, frames, live := map[], map[], map[], map[], {};
    }

    /** The allocator takes back only what it handed out. */
    method KFree(a: Addr)
      requires a in live
      modifies this
      ensures St() == Freed(old(St()), a)
    {
      spaces, groups, tables, frames := spaces - {a}, groups - {a}, tables - {a}, frames - {a};
      live := live - {a};
    }

    method LinkTables(s: Addr)
      requires s in spaces
      modifies this`spaces
      ensures spaces == old(spaces)[s := old(spaces)[s].(linkedCode := old(spaces)[s].code, linkedHeap := old(spaces)[s].heap)]
    {
      spaces := spaces[s := spaces[s].(linkedCode := spaces[s].code, linkedHeap := spaces[s].heap)];
    }

    /** One member fewer; the last one out frees the group. */
    method DropReference(g: Addr)
      requires Domains(St()) && g in groups && 0 < groups[g].refs && GroupOk(groups, tables, g)
      modifies this
      ensures St() == Release(old(St()), g)
    {
      var gr := groups[g];
      groups := groups[g := gr.(refs := gr.refs - 1)];
      if groups[g].refs == 0 {
        FreedTable(St(), gr.code);
        KFree(gr.code);
        FreedTable(St(), gr.heap);
        KFree(gr.heap);
        FreedGroup(St(), g);
        KFree(g);
        assert tables == old(tables) - {gr.code, gr.heap};
        assert live == old(live) - {gr.code, gr.heap, g};
      }
    }

    method SpaceCreate(sp: Option<Addr>, code: Option<Addr>, heap: Option<Addr>) returns (r: Option<Addr>)
      requires Valid(St()) && FreshThree(St(), sp, code, heap)
      modifies this
      ensures (St(), r.Some?) == Create(old(St()), sp, code, heap) && (r.Some? ==> r == sp)
    {
      if sp == None { return None; }
      live := live + {sp.value};
      if code.Some? { live := live + {code.value}; }
      if heap.Some? { live := live + {heap.value}; }
      assert live == old(live) + Given(sp) + Given(code) + Given(heap);
      if code == None || heap == None { return None; }
      tables := tables[code.value := EmptyTable()][heap.value := EmptyTable()];
      spaces := spaces[sp.value := Space(code.value, heap.value, code.value, heap.value, None)];
      LinkTables(sp.value);
      assert spaces == old(spaces)[sp.value := Space(code.value, heap.value, code.value, heap.value, None)];
      assert live == old(live) + {sp.value, code.value, heap.value};
      return sp;
    }

    /** The part of fork_user that is about memory. */
    method ForkAddressSpace(parent: Addr, m: ForkMemory) returns (ok: bool)
      requires Valid(St()) && parent in spaces && FreshFork(St(), parent, m)
      modifies this
      ensures (St(), ok) == ForkSpaces(old(St()), parent, m)
    {
      hide Valid, Share, Destroy;
      CreateValid(St(), m.space, m.code, m.heap);
      if HasSpace(m) { CreatedFacts(St(), m); }
      var child := SpaceCreate(m.space, m.code, m.heap);
      if child == None { return false; }
      ShareRefines(St(), child.value, parent, m.group);
      var shared := SpaceShareUser(child.value, parent, m.group);
      if !shared {
        SpaceDestroy(child.value);
        return false;
      }
      return m.stack;
    }

    method SpaceDestroy(s: Addr)
      requires Valid(St()) && s in spaces
      modifies this
      ensures Destroy.requires(old(St()), s) && St() == Destroy(old(St()), s)
    {
      hide OneOwner, FramesOk, RefsOk, NoneWritable, SpacesOk, GroupsOk;
      DestroyValid(St(), s);
      SpaceIsOk(St(), s);
      OwnTablesGone(St(), s);
      DestroyOrder(St(), s);
      var sp := spaces[s];
      if sp.cow.Some? {
        var g := sp.cow.value;
        if sp.code != groups[g].code { FreeOwnTables(s); }
        DropReference(g);
      } else {
        FreeOwnTables(s);
      }
      KFree(s);
    }

    method FreeOwnTables(s: Addr)
      requires Domains(St()) && s in spaces
      requires spaces[s].code in tables && spaces[s].heap in tables && spaces[s].code != spaces[s].heap
      modifies this
      ensures St() == WithoutTables(old(St()), old(spaces)[s])
    {
      var sp := spaces[s];
      FreedTable(St(), sp.code);
      KFree(sp.code);
      FreedTable(St(), sp.heap);
      KFree(sp.heap);
      assert tables == old(tables) - {sp.code, sp.heap};
      assert live == old(live) - {sp.code, sp.heap};
    }

    /** The parent's old group is left behind if the parent has tables of its own again. */
    method LeaveStaleGroup(s: Addr)
      requires Valid(St()) && s in spaces
      modifies this
      ensures St() == Left(old(St()), s)
    {
      hide OneOwner, FramesOk, NoneWritable, RefsOk;
      SpaceIsOk(St(), s);
      var g := spaces[s].cow;
      if g.Some? && spaces[s].code != groups[g.value].code {
        OwnTablesGone(St(), s);
        assert 0 < groups[g.value].refs by { RefsPositive(St(), g.value); }
        DropReference(g.value);
        spaces := spaces[s := spaces[s].(cow := None)];
      }
    }

    /** Every present entry of the group loses its writable bit. */
    method ProtectTables(g: Addr)
      requires g in groups && groups[g].code in tables && groups[g].heap in tables && groups[g].code != groups[g].heap
      modifies this`tables
      ensures tables == old(tables)[groups[g].code := ReadOnly(old(tables)[groups[g].code])]
                                   [groups[g].heap := ReadOnly(old(tables)[groups[g].heap])]
    {
      var code, heap := groups[g].code, groups[g].heap;
      ghost var c0, h0 := tables[code], tables[heap];
      ClearedAll(c0);
      ClearedAll(h0);
      for i := 0 to 512
        invariant tables == old(tables)[code := Cleared(c0, i)][heap := Cleared(h0, i)]
      {
        hide Cleared;
        ClearedNext(c0, i);
        ClearedNext(h0, i);
        if tables[code][i].present {
          tables := tables[code := tables[code][i := tables[code][i].(writable := false)]];
        }
        if tables[heap][i].present {
          tables := tables[heap := tables[heap][i := tables[heap][i].(writable := false)]];
        }
        assert tables[code] == Cleared(c0, i + 1);
        assert tables[heap] == Cleared(h0, i + 1);
      }
    }

    /** fork: the child shares the parent's tables, which nobody may write through any more. */
    method SpaceShareUser(child: Addr, parent: Addr, answer: Option<Addr>) returns (ok: bool)
      requires Valid(St()) && child in spaces && parent in spaces
      requires spaces[child].cow == None && Fresh(Left(St(), parent), answer)
      modifies this
      ensures (St(), ok) == Share(old(St()), child, parent, answer)
    {
      hide Valid, Left;
      if child == parent { return false; }
      LeftValid(St(), parent);
      LeaveStaleGroup(parent);
      ghost var st1 := St();
      SpaceIsOk(st1, parent);
      var g := spaces[parent].cow;
      if g == None {
        if answer == None { return false; }
        FoundValid(st1, parent, answer.value);
        FoundViews(st1, parent, answer.value);
        g := answer;
        live := live + {g.value};
        groups := groups[g.value := Group(spaces[parent].code, spaces[parent].heap, 1)];
        spaces := spaces[parent := spaces[parent].(cow := g)];
        ProtectTables(g.value);
        assert St() == Found(st1, parent, g.value);
      } else {
        ProtectedAlready(st1, g.value);
        ProtectTables(g.value);
        assert St() == st1;
      }
      JoinGroup(child, parent, g.value);
      return true;
    }

    /** The end of a fork: relink the parent, free the child's tables, point it at the group's. */
    method JoinGroup(child: Addr, parent: Addr, g: Addr)
      requires Valid(St()) && child in spaces && parent in spaces && child != parent && g in groups
      requires spaces[child].cow == None
      modifies this
      ensures St() == Join(old(St()), child, g)
    {
      hide OneOwner, FramesOk, RefsOk, GroupsOk, SpacesOk;
      SpaceIsOk(St(), parent);
      SpaceIsOk(St(), child);
      LinkTables(parent);
      assert spaces == old(spaces);
      FreeOwnTables(child);
      spaces := spaces[child := spaces[child].(code := groups[g].code, heap := groups[g].heap)];
      spaces := spaces[child := spaces[child].(cow := Some(g))];
      LinkTables(child);
      groups := groups[g := groups[g].(refs := groups[g].refs + 1)];
      assert spaces == Join(old(St()), child, g).spaces;
    }

    method UnshareTables(s: Addr, code: Option<Addr>, heap: Option<Addr>) returns (ok: bool)
      requires Valid(St()) && s in spaces && FreshThree(St(), None, code, heap)
      modifies this
      ensures Unshare.requires(old(St()), s, 0, 0)
      ensures !Shares(old(spaces), groups, s) ==> ok && St() == old(St())
      ensures Shares(old(spaces), groups, s) ==>
                && ok == (code.Some? && heap.Some?)
                && St() == if ok then Unshare(old(St()), s, code.value, heap.value) else old(St())
    {
      hide OneOwner, FramesOk, NoneWritable, RefsOk, Members;
      SpaceIsOk(St(), s);
      var g := spaces[s].cow;
      if g == None { return true; }
      if spaces[s].code != groups[g.value].code { return true; }
      if code == None || heap == None { return false; }
      live := live + {code.value, heap.value};
      tables := tables[code.value := tables[groups[g.value].code]][heap.value := tables[groups[g.value].heap]];
      spaces := spaces[s := spaces[s].(code := code.value, heap := heap.value)];
      LinkTables(s);
      assert spaces == Unshare(old(St()), s, code.value, heap.value).spaces;
      assert tables == Unshare(old(St()), s, code.value, heap.value).tables;
      return true;
    }

    /** The page-fault handler: copy the page, take tables of its own, map the copy writable. */
    method SpaceCowFault(s: Addr, addr: nat, a: Answers) returns (ok: bool)
      requires Valid(St()) && s in spaces && FreshAnswers(St(), a)
      modifies this
      ensures (St(), ok) == if UserVa(addr) then Fault(old(St()), s, PageNo(addr), a) else (old(St()), false)
    {
      hide OneOwner, FramesOk, NoneWritable, RefsOk, Members, GroupsOk, SpacesOk, Domains;
      if spaces[s].cow == None || !UserVa(addr) { return false; }
      SpaceIsOk(St(), s);
      ghost var st0 := St();
      var p := PageNo(addr);
      var t, i := if addr < USER_SPLIT then spaces[s].code else spaces[s].heap, (addr / 4096) % 512;
      var ent := tables[t][i];
      if !ent.present || !ent.user || ent.writable { return false; }
      if a.frame == None { return false; }
      SourceExists(st0, t, i);
      NewFrameValid(st0, a.frame.value, frames[ent.frame]);
      FreedFrame(st0, a.frame.value, frames[ent.frame]) by { DomainsOf(st0); }
      frames, live := frames[a.frame.value := frames[ent.frame]], live + {a.frame.value};
      var own := UnshareTables(s, a.code, a.heap);
      if !own {
        KFree(a.frame.value);
        return false;
      }
      assert Copyable(st0, s, p) && Enough(st0, s, a);
      assert St() == Prepared(st0, s, p, a);
      PreparedMapped(st0, s, p, a);
      var _ := MapUserPage(s, addr, a.frame.value, true);
      return true;
    }

    method MapUserPage(s: Addr, va: nat, f: Addr, user: bool) returns (ok: bool)
      requires s in spaces && spaces[s].code in tables && spaces[s].heap in tables
      modifies this`tables
      ensures ok == UserVa(va)
      ensures St() == if ok then MapPage(old(St()), s, PageNo(va), f, user) else old(St())
    {
      if !UserVa(va) { return false; }
      var t, i := if va < USER_SPLIT then spaces[s].code else spaces[s].heap, (va / 4096) % 512;
      if tables[t][i].present && tables[t][i].frame == f { return true; }
      tables := tables[t := tables[t][i := Entry(true, true, user, f)]];
      return true;
    }

    /** A user store as the machine does it: walk the linked tables, fault once, retry. */
    method UserStore(s: Addr, va: nat, b: byte, a: Answers) returns (ok: bool)
      requires Valid(St()) && s in spaces && FreshAnswers(St(), a)
      modifies this
      ensures (St(), ok) == Write(old(St()), s, va, b, a)
    {
      hide Valid, Fault, Abs, Poked;
      SpaceIsOk(St(), s);
      if !UserVa(va) { return false; }
      var p := PageNo(va);
      FaultKeeps(St(), s, p, a);
      if !Writable(State(spaces, groups, tables, frames, live), s, p) {
        ok := SpaceCowFault(s, va, a);
        if !ok { return; }
      }
      StoreValid(St(), s, p, va % 4096, b);
      var f := (if p < 512 then tables[spaces[s].linkedCode][p] else tables[spaces[s].linkedHeap][p - 512]).frame;
      frames := frames[f := frames[f][va % 4096 := b]];
      return true;
    }
  }
}
