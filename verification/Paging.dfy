/** Copy-on-write address spaces: the user half of a page map, forked by sharing tables. */
module Paging {
  import opened Basics

  type Addr = nat
  type Page = p: seq<byte> | |p| == 4096 witness seq(4096, _ => 0)

  /** A page-table entry: the present, writable and user bits, and the frame. */
  datatype Entry = Entry(present: bool, writable: bool, user: bool, frame: Addr)

  type Table = t: seq<Entry> | |t| == 512 witness seq(512, _ => EMPTY)

  const EMPTY := Entry(false, false, false, 0)
  function EmptyTable(): Table { seq(512, _ => EMPTY) }

  /** `linkedCode` and `linkedHeap` are what the page directory holds, so what the processor walks. */
  datatype Space = Space(code: Addr, heap: Addr, linkedCode: Addr, linkedHeap: Addr, cow: Option<Addr>)

  datatype Group = Group(code: Addr, heap: Addr, refs: nat)

  /** Everything the frame allocator handed out is in `live`; the maps say what lies there. */
  datatype State = State(spaces: Spaces, groups: Groups, tables: Tables, frames: map<Addr, Page>, live: set<Addr>)

  type Spaces = map<Addr, Space>
  type Groups = map<Addr, Group>
  type Tables = map<Addr, Table>

  // ---------------------------------------------------------------- the user half

  const USER_BASE := 0x40000000
  const USER_SPLIT := 0x40200000
  const USER_END := 0x40400000

  predicate UserVa(va: nat) { USER_BASE <= va < USER_END }

  /** Pages of the user half, the 512 of the code slot before the 512 of the heap slot. */
  function PageNo(va: nat): (p: nat)
    requires UserVa(va)
    ensures p < 1024
    ensures p < 512 <==> va < USER_SPLIT
    ensures p % 512 == (va / 4096) % 512
  {
    va / 4096 - 0x40000
  }

  // ---------------------------------------------------------------- what every step keeps

  predicate Shares(sps: Spaces, grs: Groups, s: Addr)
    requires s in sps
  {
    sps[s].cow.Some? && sps[s].cow.value in grs && sps[s].code == grs[sps[s].cow.value].code
  }

  function Members(sps: Spaces, g: Addr): set<Addr> {
    set s | s in sps && sps[s].cow == Some(g)
  }

  datatype Owner = OfSpace(s: Addr) | OfGroup(g: Addr)

  /** A space owns the tables it does not share; the rest belong to its group. */
  ghost predicate Owns(sps: Spaces, grs: Groups, o: Owner, t: Addr) {
    match o
    case OfSpace(s) => s in sps && !Shares(sps, grs, s) && (t == sps[s].code || t == sps[s].heap)
    case OfGroup(g) => g in grs && (t == grs[g].code || t == grs[g].heap)
  }

  ghost predicate OneOwner(sps: Spaces, grs: Groups) {
    forall o1, o2, t :: Owns(sps, grs, o1, t) && Owns(sps, grs, o2, t) ==> o1 == o2
  }

  predicate NoneWritable(t: Table) {
    forall i :: 0 <= i < 512 && t[i].present ==> !t[i].writable
  }

  ghost predicate Domains(st: State) {
    && st.spaces.Keys <= st.live && st.groups.Keys <= st.live
    && st.tables.Keys <= st.live && st.frames.Keys <= st.live
    && st.spaces.Keys !! st.groups.Keys !! st.tables.Keys !! st.frames.Keys
  }

  ghost predicate SpaceOk(sps: Spaces, grs: Groups, tabs: set<Addr>, s: Addr)
    requires s in sps
  {
    var sp := sps[s];
    && sp.code in tabs && sp.heap in tabs && sp.code != sp.heap
    && sp.linkedCode == sp.code && sp.linkedHeap == sp.heap
    && (sp.cow.Some? ==> sp.cow.value in grs)
    && (sp.cow.Some? ==> (sp.code == grs[sp.cow.value].code <==> sp.heap == grs[sp.cow.value].heap))
  }

  ghost predicate SpacesOk(sps: Spaces, grs: Groups, tabs: set<Addr>) {
    forall s :: s in sps ==> SpaceOk(sps, grs, tabs, s)
  }

  ghost predicate GroupOk(grs: Groups, tables: Tables, g: Addr)
    requires g in grs
  {
    && grs[g].code in tables && grs[g].heap in tables && grs[g].code != grs[g].heap
    && NoneWritable(tables[grs[g].code]) && NoneWritable(tables[grs[g].heap])
  }

  ghost predicate GroupsOk(grs: Groups, tables: Tables) {
    forall g :: g in grs ==> GroupOk(grs, tables, g)
  }

  /** The count in a group is the number of spaces that point at it. */
  ghost predicate RefsOk(sps: Spaces, grs: Groups) {
    forall g :: g in grs ==> grs[g].refs == |Members(sps, g)| > 0
  }

  ghost predicate Maps(tables: Tables, t: Addr, i: nat, f: Addr) {
    t in tables && i < 512 && tables[t][i].present && tables[t][i].frame == f
  }

  ghost predicate Writes(tables: Tables, t: Addr, i: nat, f: Addr) {
    Maps(tables, t, i, f) && tables[t][i].writable
  }

  /** Mapped frames exist, and a frame that is writable somewhere is mapped nowhere else. */
  ghost predicate FramesOk(tables: Tables, frames: set<Addr>) {
    && (forall t, i, f :: Maps(tables, t, i, f) ==> f in frames)
    && (forall t1, i1, t2, i2, f :: Writes(tables, t1, i1, f) && Maps(tables, t2, i2, f) ==> t1 == t2 && i1 == i2)
  }

  ghost predicate Valid(st: State) {
    && Domains(st)
    && SpacesOk(st.spaces, st.groups, st.tables.Keys)
    && GroupsOk(st.groups, st.tables)
    && RefsOk(st.spaces, st.groups)
    && OneOwner(st.spaces, st.groups)
    && FramesOk(st.tables, st.frames.Keys)
  }

  // ---------------------------------------------------------------- the eager reference

  /** A mapped page as a process sees it. */
  datatype PageView = PageView(user: bool, data: Page)

  type View = v: seq<Option<PageView>> | |v| == 1024 witness seq(1024, _ => None)

  function EmptyView(): View { seq(1024, _ => None) }

  /** The processor's walk: through the linked tables. */
  function EntryAt(st: State, s: Addr, p: nat): Entry
    requires s in st.spaces && p < 1024
    requires st.spaces[s].linkedCode in st.tables && st.spaces[s].linkedHeap in st.tables
  {
    if p < 512 then st.tables[st.spaces[s].linkedCode][p] else st.tables[st.spaces[s].linkedHeap][p - 512]
  }

  ghost function PageAt(st: State, s: Addr, p: nat): Option<PageView>
    requires Valid(st) && s in st.spaces && p < 1024
  {
    assert SpaceOk(st.spaces, st.groups, st.tables.Keys, s);
    var e := EntryAt(st, s, p);
    assert e.present ==> Maps(st.tables, if p < 512 then st.spaces[s].linkedCode else st.spaces[s].linkedHeap, p % 512, e.frame);
    if e.present then Some(PageView(e.user, st.frames[e.frame])) else None
  }

  ghost function ViewOf(st: State, s: Addr): (v: View)
    requires Valid(st) && s in st.spaces
    ensures forall p :: 0 <= p < 1024 ==> v[p] == PageAt(st, s, p)
  {
    seq(1024, p requires 0 <= p < 1024 => PageAt(st, s, p))
  }

  /** The machine in which a fork copies every page: one private view per space. */
  type Eager = map<Addr, View>

  ghost function Abs(st: State): (e: Eager)
    requires Valid(st)
    ensures e.Keys == st.spaces.Keys
  {
    map s | s in st.spaces :: ViewOf(st, s)
  }

  // ---------------------------------------------------------------- the parts of a step, on values

  /** One member fewer; the last one out takes the tables and the group with it. */
  function Release(st: State, g: Addr): State
    requires g in st.groups && 0 < st.groups[g].refs
  {
    var gr := st.groups[g];
    if gr.refs == 1 then
      State(st.spaces, st.groups - {g}, st.tables - {gr.code, gr.heap}, st.frames, st.live - {gr.code, gr.heap, g})
    else st.(groups := st.groups[g := gr.(refs := gr.refs - 1)])
  }

  /** A space that already has its own tables leaves the group it came from. */
  function Leave(st: State, s: Addr): State
    requires s in st.spaces && st.spaces[s].cow.Some?
    requires st.spaces[s].cow.value in st.groups && 0 < st.groups[st.spaces[s].cow.value].refs
  {
    Release(st.(spaces := st.spaces[s := st.spaces[s].(cow := None)]), st.spaces[s].cow.value)
  }

  function ReadOnly(t: Table): (r: Table) {
    seq(512, i requires 0 <= i < 512 => if t[i].present then t[i].(writable := false) else t[i])
  }

  /** A group is founded on a space's own tables, none of which stays writable. */
  function Found(st: State, s: Addr, g: Addr): State
    requires s in st.spaces && st.spaces[s].code in st.tables && st.spaces[s].heap in st.tables
  {
    var sp := st.spaces[s];
    State(st.spaces[s := sp.(cow := Some(g))],
          st.groups[g := Group(sp.code, sp.heap, 1)],
          st.tables[sp.code := ReadOnly(st.tables[sp.code])][sp.heap := ReadOnly(st.tables[sp.heap])],
          st.frames, st.live + {g})
  }

  /** The child drops its own tables and takes the group's. */
  function Join(st: State, child: Addr, g: Addr): State
    requires child in st.spaces && g in st.groups
  {
    var sp, gr := st.spaces[child], st.groups[g];
    State(st.spaces[child := Space(gr.code, gr.heap, gr.code, gr.heap, Some(g))],
          st.groups[g := gr.(refs := gr.refs + 1)],
          st.tables - {sp.code, sp.heap}, st.frames, st.live - {sp.code, sp.heap})
  }

  /** A member of a group takes private copies of its tables. */
  function Unshare(st: State, s: Addr, code: Addr, heap: Addr): State
    requires s in st.spaces && st.spaces[s].code in st.tables && st.spaces[s].heap in st.tables
  {
    var sp := st.spaces[s];
    State(st.spaces[s := Space(code, heap, code, heap, sp.cow)], st.groups,
          st.tables[code := st.tables[sp.code]][heap := st.tables[sp.heap]], st.frames, st.live + {code, heap})
  }

  function NewFrame(st: State, f: Addr, data: Page): State {
    st.(frames := st.frames[f := data], live := st.live + {f})
  }

  function TableOf(sp: Space, p: nat): Addr { if p < 512 then sp.code else sp.heap }

  /** map_page: an entry that already holds the frame is left as it is. */
  function MapPage(st: State, s: Addr, p: nat, f: Addr, user: bool): State
    requires s in st.spaces && p < 1024 && TableOf(st.spaces[s], p) in st.tables
  {
    var t := TableOf(st.spaces[s], p);
    var e := st.tables[t][p % 512];
    if e.present && e.frame == f then st
    else st.(tables := st.tables[t := st.tables[t][p % 512 := Entry(true, true, user, f)]])
  }

  // ---------------------------------------------------------------- lemmas

  /** Who owns the tables a space uses. */
  ghost function OwnerOf(sps: Spaces, grs: Groups, s: Addr): Owner
    requires s in sps
  {
    if Shares(sps, grs, s) then OfGroup(sps[s].cow.value) else OfSpace(s)
  }

  lemma NotTouched(sps: Spaces, grs: Groups, tabs: set<Addr>, o: Owner, u: Addr)
    requires OneOwner(sps, grs) && u in sps && SpaceOk(sps, grs, tabs, u) && OwnerOf(sps, grs, u) != o
    ensures !Owns(sps, grs, o, sps[u].code) && !Owns(sps, grs, o, sps[u].heap)
  {
    assert Owns(sps, grs, OwnerOf(sps, grs, u), sps[u].code) && Owns(sps, grs, OwnerOf(sps, grs, u), sps[u].heap);
  }

  lemma MembersPut(sps: Spaces, s: Addr, x: Space, h: Addr)
    ensures x.cow == Some(h) ==> Members(sps[s := x], h) == Members(sps, h) + {s}
    ensures x.cow != Some(h) ==> Members(sps[s := x], h) == Members(sps, h) - {s}
  {
  }

  lemma MembersCut(sps: Spaces, s: Addr, h: Addr)
    ensures Members(sps - {s}, h) == Members(sps, h) - {s}
  {
  }

  /** Dropping tables, or making them read-only, keeps frames exclusive. */
  lemma FramesShrink(tables: Tables, tables2: Tables, frames: set<Addr>)
    requires FramesOk(tables, frames)
    requires forall t :: t in tables2 ==> t in tables && (tables2[t] == tables[t] || tables2[t] == ReadOnly(tables[t]))
    ensures FramesOk(tables2, frames)
  {
    assert forall t, i, f :: Maps(tables2, t, i, f) ==> Maps(tables, t, i, f);
    assert forall t, i, f :: Writes(tables2, t, i, f) ==> Writes(tables, t, i, f);
  }

  // ---- leaving a group

  function ReleasedGroups(grs: Groups, g: Addr): Groups
    requires g in grs && 0 < grs[g].refs
  {
    if grs[g].refs == 1 then grs - {g} else grs[g := grs[g].(refs := grs[g].refs - 1)]
  }

  /** `sps2` has one member of g fewer than `sps`: the counts fit the released groups. */
  lemma ReleaseRefs(sps: Spaces, sps2: Spaces, grs: Groups, s: Addr, g: Addr)
    requires RefsOk(sps, grs) && s in sps && sps[s].cow == Some(g) && g in grs && 0 < grs[g].refs
    requires sps2 == sps - {s} || sps2 == sps[s := sps[s].(cow := None)]
    ensures RefsOk(sps2, ReleasedGroups(grs, g))
    ensures grs[g].refs == 1 ==> forall u :: u in sps2 ==> sps2[u].cow != Some(g)
  {
    forall h ensures |Members(sps2, h)| == |Members(sps, h)| - (if h == g then 1 else 0) {
      if sps2 == sps - {s} { MembersCut(sps, s, h); } else { MembersPut(sps, s, sps[s].(cow := None), h); }
      assert s in Members(sps, h) <==> h == g;
    }
    assert grs[g].refs == 1 ==> Members(sps2, g) == {};
    assert forall u :: u in sps2 && sps2[u].cow == Some(g) ==> u in Members(sps2, g);
  }

  lemma ReleaseSpaces(sps: Spaces, grs: Groups, tabs: set<Addr>, g: Addr)
    requires SpacesOk(sps, grs, tabs) && OneOwner(sps, grs) && g in grs && 0 < grs[g].refs
    requires grs[g].refs == 1 ==> forall u :: u in sps ==> sps[u].cow != Some(g)
    ensures var tabs2 := if grs[g].refs == 1 then tabs - {grs[g].code, grs[g].heap} else tabs;
            SpacesOk(sps, ReleasedGroups(grs, g), tabs2)
    ensures forall u :: u in sps ==> Shares(sps, ReleasedGroups(grs, g), u) == Shares(sps, grs, u)
  {
    hide OneOwner;
    var grs2, tabs2 := ReleasedGroups(grs, g), if grs[g].refs == 1 then tabs - {grs[g].code, grs[g].heap} else tabs;
    forall u | u in sps
      ensures SpaceOk(sps, grs2, tabs2, u) && Shares(sps, grs2, u) == Shares(sps, grs, u)
    {
      assert SpaceOk(sps, grs, tabs, u);
      if grs[g].refs == 1 { NotTouched(sps, grs, tabs, OfGroup(g), u); }
    }
  }

  lemma ReleaseGroups(sps: Spaces, grs: Groups, tables: Tables, g: Addr)
    requires GroupsOk(grs, tables) && OneOwner(sps, grs) && g in grs && 0 < grs[g].refs
    ensures var tables2 := if grs[g].refs == 1 then tables - {grs[g].code, grs[g].heap} else tables;
            GroupsOk(ReleasedGroups(grs, g), tables2)
  {
    hide NoneWritable;
    forall h | h in grs ensures Owns(sps, grs, OfGroup(h), grs[h].code) && Owns(sps, grs, OfGroup(h), grs[h].heap) {}
    forall h | h in grs ensures GroupOk(grs, tables, h) {}
  }

  lemma ReleaseOwners(sps: Spaces, grs: Groups, g: Addr)
    requires OneOwner(sps, grs) && g in grs && 0 < grs[g].refs
    requires forall u :: u in sps ==> Shares(sps, ReleasedGroups(grs, g), u) == Shares(sps, grs, u)
    ensures OneOwner(sps, ReleasedGroups(grs, g))
  {
    assert forall o, t :: Owns(sps, ReleasedGroups(grs, g), o, t) ==> Owns(sps, grs, o, t);
  }

  lemma ReleaseDomains(st: State, g: Addr)
    requires Domains(st) && g in st.groups && 0 < st.groups[g].refs && GroupOk(st.groups, st.tables, g)
    ensures Domains(Release(st, g))
    ensures Release(st, g).groups == ReleasedGroups(st.groups, g)
    ensures Release(st, g).tables.Keys ==
              if st.groups[g].refs == 1 then st.tables.Keys - {st.groups[g].code, st.groups[g].heap} else st.tables.Keys
  {
  }

  /** Valid, but for a group whose count is still one too high. */
  ghost predicate Owed(st: State, g: Addr) {
    && Domains(st)
    && SpacesOk(st.spaces, st.groups, st.tables.Keys)
    && GroupsOk(st.groups, st.tables)
    && OneOwner(st.spaces, st.groups)
    && FramesOk(st.tables, st.frames.Keys)
    && g in st.groups && 0 < st.groups[g].refs && RefsOk(st.spaces, ReleasedGroups(st.groups, g))
    && (st.groups[g].refs == 1 ==> forall u :: u in st.spaces ==> st.spaces[u].cow != Some(g))
  }

  lemma ReleaseValid(st: State, g: Addr)
    requires Owed(st, g)
    ensures Valid(Release(st, g))
  {
    hide OneOwner, FramesOk, ReadOnly, NoneWritable, Shares;
    assert GroupOk(st.groups, st.tables, g);
    ReleaseDomains(st, g);
    ReleaseSpaces(st.spaces, st.groups, st.tables.Keys, g);
    ReleaseGroups(st.spaces, st.groups, st.tables, g);
    ReleaseOwners(st.spaces, st.groups, g);
    FramesShrink(st.tables, Release(st, g).tables, st.frames.Keys);
  }

  lemma DetachShape(sps: Spaces, grs: Groups, tabs: set<Addr>, s: Addr, sps2: Spaces)
    requires SpacesOk(sps, grs, tabs) && OneOwner(sps, grs) && s in sps && !Shares(sps, grs, s)
    requires sps2 == sps[s := sps[s].(cow := None)]
    ensures SpacesOk(sps2, grs, tabs) && OneOwner(sps2, grs)
  {
    forall u | u in sps2 ensures SpaceOk(sps2, grs, tabs, u) { assert SpaceOk(sps, grs, tabs, u); }
    assert forall o, t :: Owns(sps2, grs, o, t) ==> Owns(sps, grs, o, t);
  }

  lemma LeaveValid(st: State, s: Addr)
    requires Valid(st) && s in st.spaces && st.spaces[s].cow.Some? && !Shares(st.spaces, st.groups, s)
    ensures Leave.requires(st, s) && Valid(Leave(st, s))
  {
    hide OneOwner, FramesOk, GroupsOk, Shares;
    var g := st.spaces[s].cow.value;
    assert SpaceOk(st.spaces, st.groups, st.tables.Keys, s);
    var st1 := st.(spaces := st.spaces[s := st.spaces[s].(cow := None)]);
    ReleaseRefs(st.spaces, st1.spaces, st.groups, s, g);
    DetachShape(st.spaces, st.groups, st.tables.Keys, s, st1.spaces);
    ReleaseValid(st1, g);
  }

  // ---- founding a group

  lemma FoundRefs(sps: Spaces, grs: Groups, tabs: set<Addr>, s: Addr, g: Addr)
    requires RefsOk(sps, grs) && SpacesOk(sps, grs, tabs) && s in sps && sps[s].cow == None && g !in grs
    ensures RefsOk(sps[s := sps[s].(cow := Some(g))], grs[g := Group(sps[s].code, sps[s].heap, 1)])
  {
    var x := sps[s].(cow := Some(g));
    forall h ensures Members(sps[s := x], h) == if h == g then {s} else Members(sps, h) {
      MembersPut(sps, s, x, h);
      forall u | u in Members(sps, h) ensures h != g && u != s { assert SpaceOk(sps, grs, tabs, u); }
      if h == g { assert Members(sps, h) == {}; }
    }
    assert Members(sps[s := x], g) == {s};
  }

  lemma FoundSpaces(sps: Spaces, grs: Groups, tabs: set<Addr>, s: Addr, g: Addr)
    requires SpacesOk(sps, grs, tabs) && s in sps && sps[s].cow == None && g !in grs
    ensures var sps2, grs2 := sps[s := sps[s].(cow := Some(g))], grs[g := Group(sps[s].code, sps[s].heap, 1)];
            && SpacesOk(sps2, grs2, tabs)
            && forall u :: u in sps && u != s ==> Shares(sps2, grs2, u) == Shares(sps, grs, u)
  {
    var sps2, grs2 := sps[s := sps[s].(cow := Some(g))], grs[g := Group(sps[s].code, sps[s].heap, 1)];
    forall u | u in sps2 ensures SpaceOk(sps2, grs2, tabs, u) && (u != s ==> Shares(sps2, grs2, u) == Shares(sps, grs, u)) {
      assert SpaceOk(sps, grs, tabs, u);
    }
  }

  lemma FoundOwners(sps: Spaces, grs: Groups, s: Addr, g: Addr, sps2: Spaces, grs2: Groups)
    requires OneOwner(sps, grs) && s in sps && sps[s].cow == None && g !in grs
    requires sps2 == sps[s := sps[s].(cow := Some(g))] && grs2 == grs[g := Group(sps[s].code, sps[s].heap, 1)]
    requires forall u :: u in sps && u != s ==> Shares(sps2, grs2, u) == Shares(sps, grs, u)
    ensures OneOwner(sps2, grs2)
  {
    forall o, t | Owns(sps2, grs2, o, t)
      ensures Owns(sps, grs, if o == OfGroup(g) then OfSpace(s) else o, t) && o != OfSpace(s)
    {
      assert Shares(sps2, grs2, s);
    }
  }

  lemma FoundGroups(sps: Spaces, grs: Groups, tables: Tables, s: Addr, g: Addr)
    requires GroupsOk(grs, tables) && OneOwner(sps, grs) && s in sps && SpaceOk(sps, grs, tables.Keys, s)
    requires sps[s].cow == None && g !in grs
    ensures GroupsOk(grs[g := Group(sps[s].code, sps[s].heap, 1)],
                     tables[sps[s].code := ReadOnly(tables[sps[s].code])][sps[s].heap := ReadOnly(tables[sps[s].heap])])
  {
    assert Owns(sps, grs, OfSpace(s), sps[s].code) && Owns(sps, grs, OfSpace(s), sps[s].heap);
    var grs2, tables2 := grs[g := Group(sps[s].code, sps[s].heap, 1)],
      tables[sps[s].code := ReadOnly(tables[sps[s].code])][sps[s].heap := ReadOnly(tables[sps[s].heap])];
    forall h | h in grs2 ensures GroupOk(grs2, tables2, h) {
      if h != g {
        assert GroupOk(grs, tables, h);
        assert Owns(sps, grs, OfGroup(h), grs[h].code) && Owns(sps, grs, OfGroup(h), grs[h].heap);
      }
    }
  }

  lemma FoundValid(st: State, s: Addr, g: Addr)
    requires Valid(st) && s in st.spaces && st.spaces[s].cow == None && g !in st.live
    ensures Found.requires(st, s, g) && Valid(Found(st, s, g))
    ensures Shares(Found(st, s, g).spaces, Found(st, s, g).groups, s)
  {
    hide OneOwner, FramesOk, ReadOnly, NoneWritable, GroupsOk, RefsOk, SpacesOk, Domains;
    SpaceIsOk(st, s);
    var st2 := Found(st, s, g);
    FoundDomains(st, s, g);
    FoundRefs(st.spaces, st.groups, st.tables.Keys, s, g);
    FoundSpaces(st.spaces, st.groups, st.tables.Keys, s, g);
    FoundOwners(st.spaces, st.groups, s, g, st2.spaces, st2.groups);
    FoundGroups(st.spaces, st.groups, st.tables, s, g);
    FoundFrames(st, s, g);
  }

  lemma FoundFrames(st: State, s: Addr, g: Addr)
    requires FramesOk(st.tables, st.frames.Keys) && Found.requires(st, s, g)
    ensures FramesOk(Found(st, s, g).tables, st.frames.Keys)
  {
    hide FramesOk;
    FramesShrink(st.tables, Found(st, s, g).tables, st.frames.Keys);
  }

  lemma FoundDomains(st: State, s: Addr, g: Addr)
    requires Domains(st) && g !in st.live && Found.requires(st, s, g)
    ensures Domains(Found(st, s, g)) && Found(st, s, g).tables.Keys == st.tables.Keys && g !in st.groups
  {
    hide ReadOnly;
  }

  // ---- joining a group

  lemma JoinRefs(sps: Spaces, grs: Groups, child: Addr, g: Addr, x: Space)
    requires RefsOk(sps, grs) && child in sps && sps[child].cow == None && g in grs && x.cow == Some(g)
    ensures RefsOk(sps[child := x], grs[g := grs[g].(refs := grs[g].refs + 1)])
  {
    forall h ensures Members(sps[child := x], h) == if h == g then Members(sps, h) + {child} else Members(sps, h) {
      MembersPut(sps, child, x, h);
    }
    assert child !in Members(sps, g);
  }

  lemma JoinSpaces(sps: Spaces, grs: Groups, tables: Tables, child: Addr, g: Addr, sps2: Spaces, grs2: Groups)
    requires SpacesOk(sps, grs, tables.Keys) && OneOwner(sps, grs) && child in sps && sps[child].cow == None
    requires g in grs && GroupOk(grs, tables, g)
    requires sps2 == sps[child := Space(grs[g].code, grs[g].heap, grs[g].code, grs[g].heap, Some(g))]
    requires grs2 == grs[g := grs[g].(refs := grs[g].refs + 1)]
    ensures SpacesOk(sps2, grs2, tables.Keys - {sps[child].code, sps[child].heap})
    ensures forall u :: u in sps && u != child ==> Shares(sps2, grs2, u) == Shares(sps, grs, u)
  {
    hide OneOwner, NoneWritable;
    var tabs2 := tables.Keys - {sps[child].code, sps[child].heap};
    forall u | u in sps2 ensures SpaceOk(sps2, grs2, tabs2, u) && (u != child ==> Shares(sps2, grs2, u) == Shares(sps, grs, u)) {
      assert SpaceOk(sps, grs, tables.Keys, u);
      if u != child {
        NotTouched(sps, grs, tables.Keys, OfSpace(child), u);
      } else {
        GroupNotTouched(sps, grs, OfSpace(child), g);
      }
    }
  }

  lemma GroupNotTouched(sps: Spaces, grs: Groups, o: Owner, h: Addr)
    requires OneOwner(sps, grs) && h in grs && o != OfGroup(h)
    ensures !Owns(sps, grs, o, grs[h].code) && !Owns(sps, grs, o, grs[h].heap)
  {
    assert Owns(sps, grs, OfGroup(h), grs[h].code) && Owns(sps, grs, OfGroup(h), grs[h].heap);
  }

  /** Groups whose tables stay as they are stay well formed, whatever their counts. */
  lemma GroupsStay(sps: Spaces, grs: Groups, tables: Tables, o: Owner, grs2: Groups, tables2: Tables)
    requires GroupsOk(grs, tables) && OneOwner(sps, grs)
    requires forall h :: h in grs2 ==> h in grs && o != OfGroup(h) && grs2[h].code == grs[h].code && grs2[h].heap == grs[h].heap
    requires forall t :: t in tables && !Owns(sps, grs, o, t) ==> t in tables2 && tables2[t] == tables[t]
    ensures GroupsOk(grs2, tables2)
  {
    hide NoneWritable, OneOwner, Owns;
    forall h | h in grs2 ensures GroupOk(grs2, tables2, h) {
      assert GroupOk(grs, tables, h);
      GroupNotTouched(sps, grs, o, h);
    }
  }

  lemma JoinOwners(sps: Spaces, grs: Groups, child: Addr, g: Addr, sps2: Spaces, grs2: Groups)
    requires OneOwner(sps, grs) && child in sps && g in grs
    requires sps2 == sps[child := Space(grs[g].code, grs[g].heap, grs[g].code, grs[g].heap, Some(g))]
    requires grs2 == grs[g := grs[g].(refs := grs[g].refs + 1)]
    requires forall u :: u in sps && u != child ==> Shares(sps2, grs2, u) == Shares(sps, grs, u)
    ensures OneOwner(sps2, grs2)
  {
    assert Shares(sps2, grs2, child);
    assert forall o, t :: Owns(sps2, grs2, o, t) ==> Owns(sps, grs, o, t);
  }

  lemma JoinValid(st: State, child: Addr, g: Addr)
    requires Valid(st) && child in st.spaces && st.spaces[child].cow == None && g in st.groups
    ensures Valid(Join(st, child, g))
  {
    hide OneOwner, FramesOk, NoneWritable, ReadOnly, RefsOk, GroupsOk, SpacesOk;
    var st2, sp := Join(st, child, g), st.spaces[child];
    assert SpaceOk(st.spaces, st.groups, st.tables.Keys, child) && GroupOk(st.groups, st.tables, g) by { SpaceGroupOk(st, child, g); }
    JoinRefs(st.spaces, st.groups, child, g, st2.spaces[child]);
    JoinSpaces(st.spaces, st.groups, st.tables, child, g, st2.spaces, st2.groups);
    JoinOwners(st.spaces, st.groups, child, g, st2.spaces, st2.groups);
    GroupsStay(st.spaces, st.groups, st.tables, OfSpace(child), st2.groups, st2.tables);
    FramesShrink(st.tables, st2.tables, st.frames.Keys);
    assert st2.tables.Keys == st.tables.Keys - {sp.code, sp.heap};
  }

  lemma SpaceGroupOk(st: State, s: Addr, g: Addr)
    requires Valid(st) && s in st.spaces && g in st.groups
    ensures SpaceOk(st.spaces, st.groups, st.tables.Keys, s) && GroupOk(st.groups, st.tables, g)
  {
  }

  // ---- private copies

  lemma UnshareSpaces(sps: Spaces, grs: Groups, tabs: set<Addr>, s: Addr, code: Addr, heap: Addr, sps2: Spaces)
    requires SpacesOk(sps, grs, tabs) && s in sps && code !in tabs && heap !in tabs && code != heap
    requires forall h :: h in grs ==> grs[h].code in tabs && grs[h].heap in tabs
    requires sps2 == sps[s := Space(code, heap, code, heap, sps[s].cow)]
    ensures SpacesOk(sps2, grs, tabs + {code, heap}) && !Shares(sps2, grs, s)
    ensures forall u :: u in sps && u != s ==> Shares(sps2, grs, u) == Shares(sps, grs, u)
  {
    forall u | u in sps2 ensures SpaceOk(sps2, grs, tabs + {code, heap}, u) { assert SpaceOk(sps, grs, tabs, u); }
  }

  lemma UnshareRefs(sps: Spaces, grs: Groups, s: Addr, x: Space)
    requires RefsOk(sps, grs) && s in sps && x.cow == sps[s].cow
    ensures RefsOk(sps[s := x], grs)
  {
    forall h ensures Members(sps[s := x], h) == Members(sps, h) { MembersPut(sps, s, x, h); }
  }

  lemma UnshareOwners(sps: Spaces, grs: Groups, tabs: set<Addr>, s: Addr, code: Addr, heap: Addr, sps2: Spaces)
    requires SpacesOk(sps, grs, tabs) && OneOwner(sps, grs) && s in sps && code !in tabs && heap !in tabs
    requires forall h :: h in grs ==> grs[h].code in tabs && grs[h].heap in tabs
    requires sps2 == sps[s := Space(code, heap, code, heap, sps[s].cow)]
    requires forall u :: u in sps && u != s ==> Shares(sps2, grs, u) == Shares(sps, grs, u)
    ensures OneOwner(sps2, grs)
  {
    forall o, t | Owns(sps2, grs, o, t)
      ensures if t in {code, heap} then o == OfSpace(s) else o != OfSpace(s) && Owns(sps, grs, o, t)
    {
      if o.OfSpace? { assert SpaceOk(sps, grs, tabs, o.s); }
    }
  }

  lemma UnshareFrames(tables: Tables, frames: set<Addr>, code: Addr, tc: Addr, heap: Addr, th: Addr)
    requires FramesOk(tables, frames) && tc in tables && th in tables && code !in tables && heap !in tables && code != heap
    requires NoneWritable(tables[tc]) && NoneWritable(tables[th])
    ensures FramesOk(tables[code := tables[tc]][heap := tables[th]], frames)
  {
    var tables2 := tables[code := tables[tc]][heap := tables[th]];
    forall t, i, f | Maps(tables2, t, i, f)
      ensures Maps(tables, if t == code then tc else if t == heap then th else t, i, f) {}
    forall t, i, f | Writes(tables2, t, i, f) ensures Writes(tables, t, i, f) {}
    forall t1, i1, t2, i2, f | Writes(tables2, t1, i1, f) && Maps(tables2, t2, i2, f) ensures t1 == t2 && i1 == i2 {
      var u := if t2 == code then tc else if t2 == heap then th else t2;
      assert Maps(tables, u, i2, f) && Writes(tables, t1, i1, f);
    }
  }

  lemma UnshareValid(st: State, s: Addr, code: Addr, heap: Addr)
    requires Valid(st) && s in st.spaces && Shares(st.spaces, st.groups, s)
    requires code !in st.live && heap !in st.live && code != heap
    ensures Unshare.requires(st, s, code, heap) && Valid(Unshare(st, s, code, heap))
    ensures !Shares(Unshare(st, s, code, heap).spaces, st.groups, s)
  {
    hide OneOwner, FramesOk, NoneWritable, RefsOk, SpacesOk;
    SpaceGroupOk(st, s, st.spaces[s].cow.value);
    var st2, sp := Unshare(st, s, code, heap), st.spaces[s];
    assert forall h :: h in st.groups ==> GroupOk(st.groups, st.tables, h);
    UnshareSpaces(st.spaces, st.groups, st.tables.Keys, s, code, heap, st2.spaces);
    UnshareRefs(st.spaces, st.groups, s, st2.spaces[s]);
    UnshareOwners(st.spaces, st.groups, st.tables.Keys, s, code, heap, st2.spaces);
    UnshareFrames(st.tables, st.frames.Keys, code, sp.code, heap, sp.heap);
    GroupsStay(st.spaces, st.groups, st.tables, OfSpace(s), st.groups, st2.tables);
    assert st2.tables.Keys == st.tables.Keys + {code, heap};
  }

  // ---- mapping a private frame

  ghost predicate Unmapped(tables: Tables, f: Addr) {
    forall t, i :: !Maps(tables, t, i, f)
  }

  lemma MapFrames(tables: Tables, frames: set<Addr>, t: Addr, i: nat, e: Entry)
    requires FramesOk(tables, frames) && t in tables && i < 512 && e.frame in frames && Unmapped(tables, e.frame)
    ensures FramesOk(tables[t := tables[t][i := e]], frames)
  {
    var tables2 := tables[t := tables[t][i := e]];
    forall t2, i2, f | Maps(tables2, t2, i2, f)
      ensures if t2 == t && i2 == i then f == e.frame else Maps(tables, t2, i2, f) && f != e.frame {
      assert !Maps(tables, t2, i2, e.frame);
    }
    forall t2, i2, f | Writes(tables2, t2, i2, f)
      ensures (t2 == t && i2 == i) || Writes(tables, t2, i2, f) {}
  }

  lemma MapValid(st: State, s: Addr, p: nat, f: Addr, user: bool)
    requires Valid(st) && s in st.spaces && p < 1024 && !Shares(st.spaces, st.groups, s)
    requires f in st.frames && Unmapped(st.tables, f)
    ensures MapPage.requires(st, s, p, f, user) && Valid(MapPage(st, s, p, f, user))
  {
    hide OneOwner, FramesOk, NoneWritable, RefsOk, SpacesOk, GroupsOk;
    assert SpaceOk(st.spaces, st.groups, st.tables.Keys, s) by { SpaceIsOk(st, s); }
    var st2, t := MapPage(st, s, p, f, user), TableOf(st.spaces[s], p);
    if st2 != st {
      MapFrames(st.tables, st.frames.Keys, t, p % 512, Entry(true, true, user, f));
      GroupsStay(st.spaces, st.groups, st.tables, OfSpace(s), st.groups, st2.tables);
      assert st2.tables.Keys == st.tables.Keys;
    }
  }

  lemma SpaceIsOk(st: State, s: Addr)
    requires Valid(st) && s in st.spaces
    ensures SpaceOk(st.spaces, st.groups, st.tables.Keys, s)
  {
  }

  lemma NewFrameValid(st: State, f: Addr, data: Page)
    requires Valid(st) && f !in st.live
    ensures Valid(NewFrame(st, f, data)) && Unmapped(st.tables, f)
  {
    hide OneOwner, NoneWritable, RefsOk, SpacesOk, GroupsOk;
    assert NewFrame(st, f, data).frames.Keys == st.frames.Keys + {f};
  }

  // ---- what the steps do to the views

  /** The space maps the same frames at the same pages in both states, writable or not. */
  ghost predicate SameFrames(st: State, t: Addr, st2: State, t2: Addr) {
    && t in st.tables && t2 in st2.tables
    && forall i :: 0 <= i < 512 ==> st.tables[t][i].(writable := false) == st2.tables[t2][i].(writable := false)
  }

  lemma SameView(st: State, s: Addr, st2: State, s2: Addr)
    requires Valid(st) && Valid(st2) && s in st.spaces && s2 in st2.spaces
    requires SameFrames(st, st.spaces[s].code, st2, st2.spaces[s2].code)
    requires SameFrames(st, st.spaces[s].heap, st2, st2.spaces[s2].heap)
    requires forall f :: f in st.frames ==> f in st2.frames && st2.frames[f] == st.frames[f]
    ensures ViewOf(st, s) == ViewOf(st2, s2)
  {
    hide GroupsOk, OneOwner, Domains, RefsOk;
    assert SpaceOk(st.spaces, st.groups, st.tables.Keys, s) && SpaceOk(st2.spaces, st2.groups, st2.tables.Keys, s2);
    forall p | 0 <= p < 1024 ensures PageAt(st, s, p) == PageAt(st2, s2, p) {
      var t, t2, i := TableOf(st.spaces[s], p), TableOf(st2.spaces[s2], p), p % 512;
      assert st.tables[t][i].(writable := false) == st2.tables[t2][i].(writable := false);
      assert st.tables[t][i].present ==> Maps(st.tables, t, i, st.tables[t][i].frame);
    }
  }

  lemma LeaveViews(st: State, s: Addr)
    requires Valid(st) && s in st.spaces && st.spaces[s].cow.Some? && !Shares(st.spaces, st.groups, s)
    requires Leave.requires(st, s) && Valid(Leave(st, s))
    ensures Abs(Leave(st, s)) == Abs(st)
  {
    hide Valid, ViewOf, Shares;
    forall u | u in st.spaces ensures ViewOf(st, u) == ViewOf(Leave(st, s), u) {
      SpaceIsOk(Leave(st, s), u);
      SameView(st, u, Leave(st, s), u);
    }
  }

  lemma FoundViews(st: State, s: Addr, g: Addr)
    requires Valid(st) && s in st.spaces && Found.requires(st, s, g) && Valid(Found(st, s, g))
    ensures Abs(Found(st, s, g)) == Abs(st)
  {
    hide Valid, ViewOf, Shares;
    forall u | u in st.spaces ensures ViewOf(st, u) == ViewOf(Found(st, s, g), u) {
      SpaceIsOk(st, u);
      SameView(st, u, Found(st, s, g), u);
    }
  }

  lemma JoinViews(st: State, child: Addr, parent: Addr)
    requires Valid(st) && child in st.spaces && parent in st.spaces && child != parent
    requires Shares(st.spaces, st.groups, parent) && Valid(Join(st, child, st.spaces[parent].cow.value))
    ensures Abs(Join(st, child, st.spaces[parent].cow.value)) == Abs(st)[child := Abs(st)[parent]]
  {
    hide Valid, ViewOf;
    var st2 := Join(st, child, st.spaces[parent].cow.value);
    SpaceIsOk(st, parent);
    SpaceIsOk(st2, parent);
    SpaceIsOk(st2, child);
    forall u | u in st.spaces && u != child ensures ViewOf(st, u) == ViewOf(st2, u) {
      SpaceIsOk(st2, u);
      SameView(st, u, st2, u);
    }
    SameView(st, parent, st2, child);
  }

  lemma UnshareViews(st: State, s: Addr, code: Addr, heap: Addr)
    requires Valid(st) && s in st.spaces && code !in st.live && heap !in st.live && code != heap
    requires Unshare.requires(st, s, code, heap) && Valid(Unshare(st, s, code, heap))
    ensures Abs(Unshare(st, s, code, heap)) == Abs(st)
  {
    hide ViewOf, Shares, OneOwner, FramesOk, GroupsOk, RefsOk, SpacesOk;
    forall u | u in st.spaces ensures ViewOf(st, u) == ViewOf(Unshare(st, s, code, heap), u) {
      SpaceIsOk(st, u);
      SameView(st, u, Unshare(st, s, code, heap), u);
    }
  }

  lemma NewFrameViews(st: State, f: Addr, data: Page)
    requires Valid(st) && f !in st.live && Valid(NewFrame(st, f, data))
    ensures Abs(NewFrame(st, f, data)) == Abs(st)
  {
    hide ViewOf, OneOwner, FramesOk, GroupsOk, RefsOk, SpacesOk;
    forall u | u in st.spaces ensures ViewOf(st, u) == ViewOf(NewFrame(st, f, data), u) {
      SpaceIsOk(st, u);
      SameView(st, u, NewFrame(st, f, data), u);
    }
  }

  /** Mapping shows up at one page of one space, unless the frame was there already. */
  lemma MapViews(st: State, s: Addr, p: nat, f: Addr, user: bool)
    requires Valid(st) && s in st.spaces && p < 1024 && !Shares(st.spaces, st.groups, s)
    requires f in st.frames && Unmapped(st.tables, f)
    requires MapPage.requires(st, s, p, f, user) && Valid(MapPage(st, s, p, f, user))
    ensures Abs(MapPage(st, s, p, f, user)) == Abs(st)[s := Abs(st)[s][p := Some(PageView(user, st.frames[f]))]]
  {
    var st2, t := MapPage(st, s, p, f, user), TableOf(st.spaces[s], p);
    assert !Maps(st.tables, t, p % 512, f);
    MapOtherViews(st, s, p, f, user, st2);
    MapOwnView(st, s, p, f, user, st2);
  }

  lemma MapOtherViews(st: State, s: Addr, p: nat, f: Addr, user: bool, st2: State)
    requires Valid(st) && Valid(st2) && s in st.spaces && p < 1024 && !Shares(st.spaces, st.groups, s)
    requires MapPage.requires(st, s, p, f, user) && st2 == MapPage(st, s, p, f, user)
    ensures forall u :: u in st.spaces && u != s ==> ViewOf(st, u) == ViewOf(st2, u)
  {
    hide ViewOf, OneOwner, FramesOk, GroupsOk, RefsOk, SpacesOk;
    forall u | u in st.spaces && u != s ensures ViewOf(st, u) == ViewOf(st2, u) {
      SpaceIsOk(st, u);
      NotTouched(st.spaces, st.groups, st.tables.Keys, OfSpace(s), u);
      SameView(st, u, st2, u);
    }
  }

  lemma MapOwnView(st: State, s: Addr, p: nat, f: Addr, user: bool, st2: State)
    requires Valid(st) && Valid(st2) && s in st.spaces && p < 1024
    requires f in st.frames && !Maps(st.tables, TableOf(st.spaces[s], p), p % 512, f)
    requires MapPage.requires(st, s, p, f, user) && st2 == MapPage(st, s, p, f, user)
    ensures ViewOf(st2, s) == ViewOf(st, s)[p := Some(PageView(user, st.frames[f]))]
  {
    hide OneOwner, FramesOk, GroupsOk, RefsOk, SpacesOk, Domains;
    SpaceIsOk(st, s);
    SpaceIsOk(st2, s);
    forall q | 0 <= q < 1024 && q != p ensures PageAt(st2, s, q) == PageAt(st, s, q) {}
    assert PageAt(st2, s, p) == Some(PageView(user, st.frames[f]));
    assert ViewOf(st2, s) == ViewOf(st, s)[p := Some(PageView(user, st.frames[f]))];
  }

  // ---------------------------------------------------------------- the operations

  /** What a space of its own leaves behind when it goes; a shared pair of tables stays with the group. */
  function Drop(st: State, s: Addr): State
    requires s in st.spaces
  {
    var own := if Shares(st.spaces, st.groups, s) then {} else {st.spaces[s].code, st.spaces[s].heap};
    State(st.spaces - {s}, st.groups, st.tables - own, st.frames, st.live - own - {s})
  }

  function Destroy(st: State, s: Addr): State
    requires s in st.spaces
    requires st.spaces[s].cow.Some? ==> st.spaces[s].cow.value in st.groups && 0 < st.groups[st.spaces[s].cow.value].refs
  {
    if st.spaces[s].cow.Some? then Release(Drop(st, s), st.spaces[s].cow.value) else Drop(st, s)
  }

  function Given(a: Option<Addr>): set<Addr> { if a.Some? then {a.value} else {} }

  /** A failed creation returns nothing and gives nothing back. */
  function Create(st: State, space: Option<Addr>, code: Option<Addr>, heap: Option<Addr>): (State, bool) {
    if space == None then (st, false)
    else if code == None || heap == None then
      (st.(live := st.live + Given(space) + Given(code) + Given(heap)), false)
    else
      (State(st.spaces[space.value := Space(code.value, heap.value, code.value, heap.value, None)], st.groups,
             st.tables[code.value := EmptyTable()][heap.value := EmptyTable()], st.frames,
             st.live + {space.value, code.value, heap.value}), true)
  }

  ghost function Share(st: State, child: Addr, parent: Addr, g: Option<Addr>): (State, bool)
    requires Valid(st) && child in st.spaces && parent in st.spaces
    requires st.spaces[child].cow == None && Fresh(Left(st, parent), g)
  {
    var stale := st.spaces[parent].cow.Some? && !Shares(st.spaces, st.groups, parent);
    if child == parent then (st, false)
    else
      LeftValid(st, parent);
      var st1 := Left(st, parent);
      if st1.spaces[parent].cow.Some? then (Join(st1, child, st1.spaces[parent].cow.value), true)
      else if g == None then (st1, false)
      else
        FoundValid(st1, parent, g.value);
        (Join(Found(st1, parent, g.value), child, g.value), true)
  }

  predicate Fresh(st: State, a: Option<Addr>) {
    a.Some? ==> a.value !in st.live
  }

  predicate FreshThree(st: State, a: Option<Addr>, b: Option<Addr>, c: Option<Addr>) {
    Fresh(st, a) && Fresh(st, b) && Fresh(st, c) && Given(a) !! Given(b) !! Given(c)
  }

  ghost function Left(st: State, s: Addr): State
    requires Valid(st) && s in st.spaces
  {
    SpaceIsOk(st, s);
    if st.spaces[s].cow.Some? && !Shares(st.spaces, st.groups, s) then Leave(st, s) else st
  }

  lemma LeftValid(st: State, s: Addr)
    requires Valid(st) && s in st.spaces
    ensures Valid(Left(st, s)) && Abs(Left(st, s)) == Abs(st)
    ensures Left(st, s).spaces.Keys == st.spaces.Keys && Left(st, s).live <= st.live
    ensures Left(st, s).spaces[s].cow.Some? ==> Shares(Left(st, s).spaces, Left(st, s).groups, s)
    ensures forall u :: u in st.spaces && u != s ==> Left(st, s).spaces[u] == st.spaces[u]
  {
    hide OneOwner, FramesOk, GroupsOk, RefsOk, Domains;
    SpaceIsOk(st, s);
    if st.spaces[s].cow.Some? && !Shares(st.spaces, st.groups, s) {
      LeaveValid(st, s);
      LeaveViews(st, s);
    }
  }

  datatype Answers = Answers(frame: Option<Addr>, code: Option<Addr>, heap: Option<Addr>)

  predicate FreshAnswers(st: State, a: Answers) {
    FreshThree(st, a.frame, a.code, a.heap)
  }

  /** What the fault handler asks of the entry before it copies anything. */
  predicate Copyable(st: State, s: Addr, p: nat)
    requires s in st.spaces && p < 1024 && TableOf(st.spaces[s], p) in st.tables
  {
    var e := st.tables[TableOf(st.spaces[s], p)][p % 512];
    st.spaces[s].cow.Some? && e.present && e.user && !e.writable
  }

  /** Memory for the copy: the frame, and both tables when they are still shared. */
  predicate Enough(st: State, s: Addr, a: Answers)
    requires s in st.spaces
  {
    a.frame.Some? && (Shares(st.spaces, st.groups, s) ==> a.code.Some? && a.heap.Some?)
  }

  ghost function Fault(st: State, s: Addr, p: nat, a: Answers): (State, bool)
    requires Valid(st) && s in st.spaces && p < 1024 && FreshAnswers(st, a)
  {
    SpaceIsOk(st, s);
    if !Copyable(st, s, p) || !Enough(st, s, a) then (st, false)
    else
      CopiedValid(st, s, p, a);
      (Copied(st, s, p, a), true)
  }

  /** The state in which the space has a frame with a copy of the page, and tables of its own. */
  ghost function Prepared(st: State, s: Addr, p: nat, a: Answers): State
    requires Valid(st) && s in st.spaces && p < 1024
    requires TableOf(st.spaces[s], p) in st.tables && Copyable(st, s, p) && Enough(st, s, a)
  {
    SpaceIsOk(st, s);
    var e := st.tables[TableOf(st.spaces[s], p)][p % 512];
    SourceExists(st, TableOf(st.spaces[s], p), p % 512);
    var st1 := NewFrame(st, a.frame.value, st.frames[e.frame]);
    if Shares(st.spaces, st.groups, s) then Unshare(st1, s, a.code.value, a.heap.value) else st1
  }

  lemma PreparedValid(st: State, s: Addr, p: nat, a: Answers, st2: State)
    requires Valid(st) && s in st.spaces && p < 1024 && FreshAnswers(st, a)
    requires TableOf(st.spaces[s], p) in st.tables && Copyable(st, s, p) && Enough(st, s, a)
    requires st2 == Prepared(st, s, p, a)
    ensures Valid(st2) && Abs(st2) == Abs(st) && st2.spaces.Keys == st.spaces.Keys
    ensures !Shares(st2.spaces, st2.groups, s) && Unmapped(st2.tables, a.frame.value)
  {
    hide OneOwner, FramesOk, GroupsOk, RefsOk, SpacesOk, Domains, ViewOf, Unmapped;
    var f, data := a.frame.value, st2.frames[a.frame.value];
    SpaceIsOk(st, s);
    var st1 := NewFrame(st, f, data);
    NewFrameValid(st, f, data);
    NewFrameViews(st, f, data);
    if Shares(st.spaces, st.groups, s) {
      UnshareValid(st1, s, a.code.value, a.heap.value);
      UnshareViews(st1, s, a.code.value, a.heap.value);
      StillUnmapped(st1, st2, f);
    }
  }

  ghost function Copied(st: State, s: Addr, p: nat, a: Answers): State
    requires Valid(st) && s in st.spaces && p < 1024
    requires TableOf(st.spaces[s], p) in st.tables && Copyable(st, s, p) && Enough(st, s, a)
  {
    SpaceIsOk(st, s);
    MapPage(Prepared(st, s, p, a), s, p, a.frame.value, true)
  }

  /** Resolving a fault keeps everything valid, leaves every view as it was, and the page can be written. */
  lemma CopiedValid(st: State, s: Addr, p: nat, a: Answers)
    requires Valid(st) && s in st.spaces && p < 1024 && FreshAnswers(st, a)
    requires TableOf(st.spaces[s], p) in st.tables && Copyable(st, s, p) && Enough(st, s, a)
    ensures Valid(Copied(st, s, p, a)) && Abs(Copied(st, s, p, a)) == Abs(st)
    ensures Copied(st, s, p, a).spaces.Keys == st.spaces.Keys && Writable(Copied(st, s, p, a), s, p)
  {
    hide OneOwner, FramesOk, GroupsOk, RefsOk, SpacesOk, Domains, Prepared, Shares;
    var st2, f := Prepared(st, s, p, a), a.frame.value;
    PreparedFrame(st, s, p, a, st2);
    PreparedValid(st, s, p, a, st2);
    SpaceIsOk(st2, s);
    MapValid(st2, s, p, f, true);
    MapViews(st2, s, p, f, true);
    SpaceIsOk(MapPage(st2, s, p, f, true), s);
    assert !Maps(st2.tables, TableOf(st2.spaces[s], p), p % 512, f);
    CopyKeepsViews(st, s, p, st2, f);
  }

  lemma PreparedFrame(st: State, s: Addr, p: nat, a: Answers, st2: State)
    requires Valid(st) && s in st.spaces && p < 1024
    requires TableOf(st.spaces[s], p) in st.tables && Copyable(st, s, p) && Enough(st, s, a)
    requires st2 == Prepared(st, s, p, a)
    ensures a.frame.value in st2.frames
    ensures PageAt(st, s, p) == Some(PageView(true, st2.frames[a.frame.value]))
  {
    hide OneOwner, FramesOk, GroupsOk, RefsOk, SpacesOk, Domains;
    SpaceIsOk(st, s);
  }

  lemma CopyKeepsViews(st: State, s: Addr, p: nat, st2: State, f: Addr)
    requires Valid(st) && Valid(st2) && s in st.spaces && p < 1024 && f in st2.frames && Abs(st2) == Abs(st)
    requires PageAt(st, s, p) == Some(PageView(true, st2.frames[f]))
    ensures Abs(st2)[s := Abs(st2)[s][p := Some(PageView(true, st2.frames[f]))]] == Abs(st)
  {
    hide Valid, PageAt;
    assert Abs(st)[s][p] == PageAt(st, s, p);
    assert Abs(st)[s][p := Abs(st)[s][p]] == Abs(st)[s];
  }

  lemma SourceExists(st: State, t: Addr, i: nat)
    requires Valid(st) && t in st.tables && i < 512 && st.tables[t][i].present
    ensures st.tables[t][i].frame in st.frames
  {
    assert Maps(st.tables, t, i, st.tables[t][i].frame);
  }

  lemma StillUnmapped(st1: State, st2: State, f: Addr)
    requires Unmapped(st1.tables, f)
    requires forall t :: t in st2.tables ==> exists u :: u in st1.tables && st1.tables[u] == st2.tables[t]
    ensures Unmapped(st2.tables, f)
  {
    forall t, i | Maps(st2.tables, t, i, f) ensures false {
      var u :| u in st1.tables && st1.tables[u] == st2.tables[t];
      assert Maps(st1.tables, u, i, f);
    }
  }

  /** What the processor lets user code write. */
  predicate Writable(st: State, s: Addr, p: nat) {
    && s in st.spaces && p < 1024
    && st.spaces[s].linkedCode in st.tables && st.spaces[s].linkedHeap in st.tables
    && EntryAt(st, s, p).present && EntryAt(st, s, p).user && EntryAt(st, s, p).writable
  }

  /** One byte of the frame behind a page. */
  function Store(st: State, s: Addr, p: nat, off: nat, b: byte): State
    requires s in st.spaces && p < 1024 && off < 4096
    requires st.spaces[s].linkedCode in st.tables && st.spaces[s].linkedHeap in st.tables
    requires EntryAt(st, s, p).frame in st.frames
  {
    var f := EntryAt(st, s, p).frame;
    st.(frames := st.frames[f := st.frames[f][off := b]])
  }

  function Poked(v: Option<PageView>, off: nat, b: byte): Option<PageView>
    requires off < 4096
  {
    if v.Some? then Some(PageView(v.value.user, v.value.data[off := b])) else None
  }

  /** A frame written through one space shows up at that page of that space and nowhere else. */
  lemma StoreValid(st: State, s: Addr, p: nat, off: nat, b: byte)
    requires Valid(st) && Writable(st, s, p) && off < 4096
    ensures Store.requires(st, s, p, off, b) && Valid(Store(st, s, p, off, b))
    ensures Abs(Store(st, s, p, off, b)) == Abs(st)[s := Abs(st)[s][p := Poked(Abs(st)[s][p], off, b)]]
  {
    hide GroupsOk, RefsOk, OneOwner, SpacesOk, Domains, FramesOk, ViewOf;
    SpaceIsOk(st, s);
    SourceExists(st, TableOf(st.spaces[s], p), p % 512);
    var st2 := Store(st, s, p, off, b);
    StoreKeeps(st, st2);
    forall u | u in st.spaces
      ensures ViewOf(st2, u) == if u == s then ViewOf(st, s)[p := Poked(ViewOf(st, s)[p], off, b)] else ViewOf(st, u)
    {
      StoreView(st, s, p, off, b, st2, u);
    }
  }

  lemma StoreKeeps(st: State, st2: State)
    requires Valid(st) && st2 == st.(frames := st2.frames) && st2.frames.Keys == st.frames.Keys
    ensures Valid(st2)
  {
  }

  lemma StoreView(st: State, s: Addr, p: nat, off: nat, b: byte, st2: State, u: Addr)
    requires Valid(st) && Writable(st, s, p) && off < 4096 && u in st.spaces
    requires Store.requires(st, s, p, off, b) && st2 == Store(st, s, p, off, b) && Valid(st2)
    ensures ViewOf(st2, u) == if u == s then ViewOf(st, s)[p := Poked(ViewOf(st, s)[p], off, b)] else ViewOf(st, u)
  {
    hide GroupsOk, RefsOk, SpacesOk, Domains, FramesOk;
    SpaceIsOk(st, s);
    SpaceIsOk(st, u);
    forall q | 0 <= q < 1024
      ensures PageAt(st2, u, q) == if u == s && q == p then Poked(PageAt(st, s, p), off, b) else PageAt(st, u, q)
    {
      if EntryAt(st, u, q).present && (u != s || q != p) { ExclusiveWriter(st, s, p, u, q); }
    }
  }

  /** A frame that one space may write is mapped by no other space, and by no other page of that one. */
  lemma ExclusiveWriter(st: State, s: Addr, p: nat, u: Addr, q: nat)
    requires Valid(st) && Writable(st, s, p) && u in st.spaces && q < 1024
    requires (u != s || q != p) && EntryAt.requires(st, u, q) && EntryAt(st, u, q).present
    ensures EntryAt(st, u, q).frame != EntryAt(st, s, p).frame
  {
    hide Domains, RefsOk;
    SpaceIsOk(st, s);
    SpaceIsOk(st, u);
    var t, t2 := TableOf(st.spaces[s], p), TableOf(st.spaces[u], q);
    assert Writes(st.tables, t, p % 512, EntryAt(st, s, p).frame);
    assert Maps(st.tables, t2, q % 512, EntryAt(st, u, q).frame);
    OwnTable(st, s, t);
  }

  lemma OwnTable(st: State, s: Addr, t: Addr)
    requires Valid(st) && s in st.spaces && (t == st.spaces[s].code || t == st.spaces[s].heap) && t in st.tables
    requires !NoneWritable(st.tables[t])
    ensures Owns(st.spaces, st.groups, OfSpace(s), t)
    ensures forall u :: u in st.spaces && u != s ==> t != st.spaces[u].code && t != st.spaces[u].heap
  {
    hide Domains, RefsOk, FramesOk, NoneWritable, OneOwner;
    SpaceIsOk(st, s);
    assert Shares(st.spaces, st.groups, s) ==> GroupOk(st.groups, st.tables, st.spaces[s].cow.value);
    forall u | u in st.spaces && u != s ensures t != st.spaces[u].code && t != st.spaces[u].heap {
      SpaceIsOk(st, u);
      NotTouched(st.spaces, st.groups, st.tables.Keys, OfSpace(s), u);
    }
  }

  /** A user-mode store of one byte: the processor stores, or faults and retries once. */
  ghost function Write(st: State, s: Addr, va: nat, b: byte, a: Answers): (State, bool)
    requires Valid(st) && s in st.spaces && FreshAnswers(st, a)
  {
    if !UserVa(va) then (st, false)
    else
      var p := PageNo(va);
      if Writable(st, s, p) then
        StoreValid(st, s, p, va % 4096, b);
        (Store(st, s, p, va % 4096, b), true)
      else
        FaultKeeps(st, s, p, a);
        var (st1, ok) := Fault(st, s, p, a);
        if !ok then (st1, false)
        else
          StoreValid(st1, s, p, va % 4096, b);
          (Store(st1, s, p, va % 4096, b), true)
  }

  /** The fault handler changes no view, and a page it answers true for can be written. */
  lemma FaultKeeps(st: State, s: Addr, p: nat, a: Answers)
    requires Valid(st) && s in st.spaces && p < 1024 && FreshAnswers(st, a)
    ensures Valid(Fault(st, s, p, a).0) && Abs(Fault(st, s, p, a).0) == Abs(st)
    ensures Fault(st, s, p, a).1 ==> Writable(Fault(st, s, p, a).0, s, p)
  {
    hide Valid, Copyable, Enough, Copied;
    SpaceIsOk(st, s);
    if Copyable(st, s, p) && Enough(st, s, a) { CopiedValid(st, s, p, a); }
  }

  lemma WriteRefines(st: State, s: Addr, va: nat, b: byte, a: Answers)
    requires Valid(st) && s in st.spaces && FreshAnswers(st, a)
    ensures Valid(Write(st, s, va, b, a).0)
    ensures Abs(Write(st, s, va, b, a).0) ==
            if !Write(st, s, va, b, a).1 then Abs(st)
            else Abs(st)[s := Abs(st)[s][PageNo(va) := Poked(Abs(st)[s][PageNo(va)], va % 4096, b)]]
  {
    hide Valid, Fault, Writable, Store, Poked;
    if UserVa(va) {
      var p := PageNo(va);
      if Writable(st, s, p) { StoreValid(st, s, p, va % 4096, b); }
      else {
        FaultKeeps(st, s, p, a);
        var (st1, ok) := Fault(st, s, p, a);
        if ok { StoreValid(st1, s, p, va % 4096, b); }
      }
    }
  }

  // ---- the end of a space

  lemma OwnTablesUnused(st: State, s: Addr)
    requires Valid(st) && s in st.spaces && !Shares(st.spaces, st.groups, s)
    ensures forall u :: u in st.spaces && u != s ==>
              {st.spaces[u].code, st.spaces[u].heap} !! {st.spaces[s].code, st.spaces[s].heap}
    ensures forall h :: h in st.groups ==>
              {st.groups[h].code, st.groups[h].heap} !! {st.spaces[s].code, st.spaces[s].heap}
  {
    hide Domains, RefsOk, FramesOk, GroupsOk, OneOwner;
    forall u | u in st.spaces && u != s
      ensures {st.spaces[u].code, st.spaces[u].heap} !! {st.spaces[s].code, st.spaces[s].heap}
    {
      SpaceIsOk(st, u);
      NotTouched(st.spaces, st.groups, st.tables.Keys, OfSpace(s), u);
    }
    forall h | h in st.groups
      ensures {st.groups[h].code, st.groups[h].heap} !! {st.spaces[s].code, st.spaces[s].heap}
    {
      GroupNotTouched(st.spaces, st.groups, OfSpace(s), h);
    }
  }

  /** Everything but the counts, when a space has gone but its group does not know yet. */
  lemma DropShape(st: State, s: Addr, st1: State)
    requires Valid(st) && s in st.spaces && st1 == Drop(st, s)
    ensures SpacesOk(st1.spaces, st1.groups, st1.tables.Keys) && OneOwner(st1.spaces, st1.groups)
    ensures GroupsOk(st1.groups, st1.tables) && FramesOk(st1.tables, st1.frames.Keys) && Domains(st1)
    ensures forall u :: u in st1.spaces ==> Shares(st1.spaces, st1.groups, u) == Shares(st.spaces, st.groups, u)
  {
    hide RefsOk;
    SpaceIsOk(st, s);
    if !Shares(st.spaces, st.groups, s) { OwnTablesUnused(st, s); }
    DropSpaces(st, s, st1);
    FramesShrink(st.tables, st1.tables, st.frames.Keys);
    DropGroups(st, s, st1);
  }

  lemma DropGroups(st: State, s: Addr, st1: State)
    requires Valid(st) && s in st.spaces && st1 == Drop(st, s)
    ensures GroupsOk(st1.groups, st1.tables)
  {
    hide RefsOk, FramesOk, Domains, SpacesOk, NoneWritable;
    if !Shares(st.spaces, st.groups, s) { OwnTablesUnused(st, s); }
    forall h | h in st1.groups ensures GroupOk(st1.groups, st1.tables, h) {
      assert GroupOk(st.groups, st.tables, h);
    }
  }

  lemma DropSpaces(st: State, s: Addr, st1: State)
    requires Valid(st) && s in st.spaces && st1 == Drop(st, s)
    requires !Shares(st.spaces, st.groups, s) ==> forall u :: u in st.spaces && u != s ==>
              {st.spaces[u].code, st.spaces[u].heap} !! {st.spaces[s].code, st.spaces[s].heap}
    ensures SpacesOk(st1.spaces, st1.groups, st1.tables.Keys) && OneOwner(st1.spaces, st1.groups)
    ensures forall u :: u in st1.spaces ==> Shares(st1.spaces, st1.groups, u) == Shares(st.spaces, st.groups, u)
  {
    hide RefsOk, FramesOk, GroupsOk, Domains;
    forall u | u in st1.spaces ensures SpaceOk(st1.spaces, st1.groups, st1.tables.Keys, u) { SpaceIsOk(st, u); }
    assert forall o, t :: Owns(st1.spaces, st1.groups, o, t) ==> Owns(st.spaces, st.groups, o, t);
  }

  lemma DestroyValid(st: State, s: Addr)
    requires Valid(st) && s in st.spaces
    ensures Destroy.requires(st, s) && Valid(Destroy(st, s))
  {
    hide OneOwner, FramesOk, GroupsOk, SpacesOk, Shares;
    SpaceIsOk(st, s);
    var st1 := Drop(st, s);
    DropShape(st, s, st1);
    if st.spaces[s].cow.Some? {
      ReleaseRefs(st.spaces, st1.spaces, st.groups, s, st.spaces[s].cow.value);
      ReleaseValid(st1, st.spaces[s].cow.value);
    } else {
      forall h ensures Members(st1.spaces, h) == Members(st.spaces, h) { MembersCut(st.spaces, s, h); }
    }
  }

  lemma DestroyViews(st: State, s: Addr)
    requires Valid(st) && s in st.spaces && Destroy.requires(st, s) && Valid(Destroy(st, s))
    ensures Abs(Destroy(st, s)) == Abs(st) - {s}
  {
    hide Valid, ViewOf, Shares;
    forall u | u in st.spaces && u != s ensures ViewOf(st, u) == ViewOf(Destroy(st, s), u) {
      SpaceIsOk(Destroy(st, s), u);
      SameView(st, u, Destroy(st, s), u);
    }
  }

  // ---- a new space

  lemma CreateValid(st: State, sp: Option<Addr>, code: Option<Addr>, heap: Option<Addr>)
    requires Valid(st) && FreshThree(st, sp, code, heap)
    ensures Valid(Create(st, sp, code, heap).0)
  {
    hide OneOwner, FramesOk, GroupsOk, SpacesOk, RefsOk, EmptyTable;
    var (st2, ok) := Create(st, sp, code, heap);
    if ok {
      assert forall i :: 0 <= i < 512 ==> !EmptyTable()[i].present by { EmptyEntries(); }
      CreateShape(st, sp.value, code.value, heap.value, st2.spaces);
      CreateGroups(st, st2.tables);
      CreateFrames(st.tables, st.frames.Keys, code.value, heap.value);
      assert st2.tables.Keys == st.tables.Keys + {code.value, heap.value};
    }
  }

  lemma EmptyEntries()
    ensures forall i :: 0 <= i < 512 ==> !EmptyTable()[i].present
  {
  }

  lemma CreateShape(st: State, s: Addr, code: Addr, heap: Addr, sps2: Spaces)
    requires Valid(st) && s !in st.live && code !in st.live && heap !in st.live && code != heap
    requires sps2 == st.spaces[s := Space(code, heap, code, heap, None)]
    ensures SpacesOk(sps2, st.groups, st.tables.Keys + {code, heap})
    ensures OneOwner(sps2, st.groups) && RefsOk(sps2, st.groups)
  {
    hide FramesOk;
    var tabs := st.tables.Keys + {code, heap};
    forall u | u in sps2 ensures SpaceOk(sps2, st.groups, tabs, u) { if u != s { SpaceIsOk(st, u); } }
    forall h ensures Members(sps2, h) == Members(st.spaces, h) { MembersPut(st.spaces, s, sps2[s], h); }
    CreateOwners(st, s, code, heap, sps2);
  }

  lemma CreateOwners(st: State, s: Addr, code: Addr, heap: Addr, sps2: Spaces)
    requires Valid(st) && s !in st.live && code !in st.live && heap !in st.live
    requires sps2 == st.spaces[s := Space(code, heap, code, heap, None)]
    ensures OneOwner(sps2, st.groups)
  {
    hide FramesOk, RefsOk;
    forall o, t | Owns(sps2, st.groups, o, t)
      ensures if o == OfSpace(s) then t in {code, heap} else t !in {code, heap} && Owns(st.spaces, st.groups, o, t)
    {
      if o.OfSpace? && o.s != s { SpaceIsOk(st, o.s); }
      if o.OfGroup? { assert GroupOk(st.groups, st.tables, o.g); }
    }
  }

  lemma CreateGroups(st: State, tables2: Tables)
    requires Valid(st) && forall t :: t in st.tables ==> t in tables2 && tables2[t] == st.tables[t]
    ensures GroupsOk(st.groups, tables2)
  {
    hide FramesOk, SpacesOk, RefsOk, Domains, OneOwner, NoneWritable;
    forall h | h in st.groups ensures GroupOk(st.groups, tables2, h) { assert GroupOk(st.groups, st.tables, h); }
  }

  lemma CreateFrames(tables: Tables, frames: set<Addr>, code: Addr, heap: Addr)
    requires FramesOk(tables, frames) && forall i :: 0 <= i < 512 ==> !EmptyTable()[i].present
    ensures FramesOk(tables[code := EmptyTable()][heap := EmptyTable()], frames)
  {
    hide EmptyTable;
    var tables2 := tables[code := EmptyTable()][heap := EmptyTable()];
    assert forall t, i, f :: Maps(tables2, t, i, f) ==> Maps(tables, t, i, f);
    assert forall t, i, f :: Writes(tables2, t, i, f) ==> Writes(tables, t, i, f);
  }

  lemma CreateViews(st: State, sp: Option<Addr>, code: Option<Addr>, heap: Option<Addr>)
    requires Valid(st) && FreshThree(st, sp, code, heap) && Valid(Create(st, sp, code, heap).0)
    ensures Abs(Create(st, sp, code, heap).0) ==
            if Create(st, sp, code, heap).1 then Abs(st)[sp.value := EmptyView()] else Abs(st)
  {
    hide GroupsOk, RefsOk, OneOwner, FramesOk, ViewOf, SpacesOk;
    var (st2, ok) := Create(st, sp, code, heap);
    forall u | u in st.spaces ensures ViewOf(st, u) == ViewOf(st2, u) {
      SpaceIsOk(st, u);
      SameView(st, u, st2, u);
    }
    if ok { NewView(st2, sp.value); }
  }

  lemma NewView(st: State, s: Addr)
    requires Valid(st) && s in st.spaces && st.spaces[s].code in st.tables && st.spaces[s].heap in st.tables
    requires st.tables[st.spaces[s].code] == EmptyTable() && st.tables[st.spaces[s].heap] == EmptyTable()
    ensures ViewOf(st, s) == EmptyView()
  {
    SpaceIsOk(st, s);
    forall p | 0 <= p < 1024 ensures PageAt(st, s, p) == None {}
  }

  /** A frame of the parent's old group can serve as the new one exactly when the parent was the old one's last member. */
  lemma FreedGroupServes(st: State, child: Addr, parent: Addr, f: Addr)
    requires Valid(st) && child in st.spaces && parent in st.spaces && st.spaces[child].cow == None
    requires st.spaces[parent].cow.Some? && !Shares(st.spaces, st.groups, parent)
    requires var g := st.spaces[parent].cow.value; g in st.groups ==> f in {g, st.groups[g].code, st.groups[g].heap}
    ensures f in st.live
    ensures Allowed(st, OpFork(child, parent, Some(f))) <==> Members(st.spaces, st.spaces[parent].cow.value) == {parent}
    ensures Allowed(st, OpFork(child, parent, Some(f))) ==>
              var st2 := Share(st, child, parent, Some(f)).0;
              parent in st2.spaces && child in st2.spaces && st2.spaces[parent].cow == st2.spaces[child].cow == Some(f)
  {
    hide OneOwner, FramesOk, SpacesOk;
    SpaceIsOk(st, parent);
    var g := st.spaces[parent].cow.value;
    assert GroupOk(st.groups, st.tables, g);
    LastMember(st, parent, g);
  }

  lemma LastMember(st: State, s: Addr, g: Addr)
    requires RefsOk(st.spaces, st.groups) && g in st.groups && s in Members(st.spaces, g)
    ensures st.groups[g].refs == 1 <==> Members(st.spaces, g) == {s}
  {
    var rest := Members(st.spaces, g) - {s};
    assert Members(st.spaces, g) == rest + {s};
    assert |rest| == 0 <==> rest == {};
  }

  lemma ShareRefines(st: State, child: Addr, parent: Addr, g: Option<Addr>)
    requires Valid(st) && child in st.spaces && parent in st.spaces
    requires st.spaces[child].cow == None && Fresh(Left(st, parent), g)
    ensures Valid(Share(st, child, parent, g).0)
    ensures Abs(Share(st, child, parent, g).0) ==
            if Share(st, child, parent, g).1 then Abs(st)[child := Abs(st)[parent]] else Abs(st)
    ensures Share(st, child, parent, g).1 <==>
              child != parent && (Shares(st.spaces, st.groups, parent) || g.Some?)
  {
    hide Valid, ViewOf, Join, Found;
    if child != parent {
      LeftValid(st, parent);
      LeftShares(st, parent);
      var st1 := Left(st, parent);
      if st1.spaces[parent].cow.Some? {
        JoinRefines(st1, child, parent);
      } else if g.Some? {
        FoundValid(st1, parent, g.value);
        FoundViews(st1, parent, g.value);
        FoundSpace(st1, parent, child, g.value);
        JoinRefines(Found(st1, parent, g.value), child, parent);
      }
    }
  }

  lemma LeftShares(st: State, s: Addr)
    requires Valid(st) && s in st.spaces
    ensures Left(st, s).spaces[s].cow.Some? <==> Shares(st.spaces, st.groups, s)
  {
    SpaceIsOk(st, s);
  }

  lemma FoundSpace(st: State, s: Addr, u: Addr, g: Addr)
    requires s in st.spaces && u in st.spaces && u != s && Found.requires(st, s, g)
    ensures Found(st, s, g).spaces.Keys == st.spaces.Keys && Found(st, s, g).spaces[u] == st.spaces[u]
    ensures Found(st, s, g).spaces[s].cow == Some(g)
  {
  }

  lemma JoinRefines(st: State, child: Addr, parent: Addr)
    requires Valid(st) && child in st.spaces && parent in st.spaces && child != parent
    requires st.spaces[child].cow == None && Shares(st.spaces, st.groups, parent)
    ensures Valid(Join(st, child, st.spaces[parent].cow.value))
    ensures Abs(Join(st, child, st.spaces[parent].cow.value)) == Abs(st)[child := Abs(st)[parent]]
  {
    hide Valid, ViewOf, Join;
    JoinValid(st, child, st.spaces[parent].cow.value);
    JoinViews(st, child, parent);
  }

  // ---------------------------------------------------------------- whole runs

  /** A step, with the frame allocator's answers (None where it had nothing). */
  datatype Op =
    | OpCreate(space: Option<Addr>, code: Option<Addr>, heap: Option<Addr>)
    | OpMap(s: Addr, va: nat, f: Addr, user: bool, data: Page)
    | OpFork(child: Addr, parent: Addr, g: Option<Addr>)
    | OpWrite(s: Addr, va: nat, b: byte, answers: Answers)
    | OpDestroy(s: Addr)

  /** What callers owe: known spaces, fresh memory, and set-up mappings only into a space's own tables. */
  ghost predicate Allowed(st: State, op: Op)
    requires Valid(st)
  {
    match op
    case OpCreate(sp, code, heap) => FreshThree(st, sp, code, heap)
    case OpMap(s, va, f, _, _) =>
      s in st.spaces && UserVa(va) && f !in st.live && !Shares(st.spaces, st.groups, s)
    case OpFork(child, parent, g) =>
      child in st.spaces && parent in st.spaces && st.spaces[child].cow == None && Fresh(Left(st, parent), g)
    case OpWrite(s, va, _, a) => s in st.spaces && FreshAnswers(st, a)
    case OpDestroy(s) => s in st.spaces
  }

  ghost function Step(st: State, op: Op): (State, bool)
    requires Valid(st) && Allowed(st, op)
  {
    match op
    case OpCreate(sp, code, heap) => Create(st, sp, code, heap)
    case OpMap(s, va, f, user, data) =>
      NewFrameValid(st, f, data);
      MapValid(NewFrame(st, f, data), s, PageNo(va), f, user);
      (MapPage(NewFrame(st, f, data), s, PageNo(va), f, user), true)
    case OpFork(child, parent, g) => Share(st, child, parent, g)
    case OpWrite(s, va, b, a) => Write(st, s, va, b, a)
    case OpDestroy(s) => DestroyValid(st, s); (Destroy(st, s), true)
  }

  /** The same step where a fork copies everything and a write touches one space. */
  function EagerStep(e: Eager, op: Op, ok: bool): Eager {
    if !ok then e
    else match op
      case OpCreate(sp, _, _) => if sp.Some? then e[sp.value := EmptyView()] else e
      case OpMap(s, va, _, user, data) =>
        if s in e && UserVa(va) then e[s := e[s][PageNo(va) := Some(PageView(user, data))]] else e
      case OpFork(child, parent, _) => if parent in e then e[child := e[parent]] else e
      case OpWrite(s, va, b, _) =>
        if s in e && UserVa(va) then e[s := e[s][PageNo(va) := Poked(e[s][PageNo(va)], va % 4096, b)]] else e
      case OpDestroy(s) => e - {s}
  }

  lemma StepRefines(st: State, op: Op)
    requires Valid(st) && Allowed(st, op)
    ensures Valid(Step(st, op).0)
    ensures Abs(Step(st, op).0) == EagerStep(Abs(st), op, Step(st, op).1)
  {
    hide Valid, ViewOf, Share, Drop, Found, Copied, MapPage;
    match op
    case OpCreate(sp, code, heap) =>
      CreateValid(st, sp, code, heap);
      CreateViews(st, sp, code, heap);
    case OpMap(s, va, f, user, data) =>
      MapRefines(st, s, PageNo(va), f, user, data);
    case OpFork(child, parent, g) => ShareRefines(st, child, parent, g);
    case OpWrite(s, va, b, a) => WriteRefines(st, s, va, b, a);
    case OpDestroy(s) =>
      DestroyValid(st, s);
      DestroyViews(st, s);
  }

  lemma MapRefines(st: State, s: Addr, p: nat, f: Addr, user: bool, data: Page)
    requires Valid(st) && s in st.spaces && p < 1024 && f !in st.live && !Shares(st.spaces, st.groups, s)
    ensures MapPage.requires(NewFrame(st, f, data), s, p, f, user) && Valid(MapPage(NewFrame(st, f, data), s, p, f, user))
    ensures Abs(MapPage(NewFrame(st, f, data), s, p, f, user)) == Abs(st)[s := Abs(st)[s][p := Some(PageView(user, data))]]
  {
    hide Valid, ViewOf, MapPage, Unmapped;
    NewFrameValid(st, f, data);
    NewFrameViews(st, f, data);
    MapValid(NewFrame(st, f, data), s, p, f, user);
    MapViews(NewFrame(st, f, data), s, p, f, user);
  }

  ghost predicate AllowedRun(st: State, ops: seq<Op>)
    requires Valid(st)
    decreases |ops|
  {
    ops == [] || (Allowed(st, ops[0]) && (StepRefines(st, ops[0]); AllowedRun(Step(st, ops[0]).0, ops[1..])))
  }

  ghost function Run(st: State, ops: seq<Op>): (State, seq<bool>)
    requires Valid(st) && AllowedRun(st, ops)
    decreases |ops|
  {
    if ops == [] then (st, [])
    else
      StepRefines(st, ops[0]);
      var (st1, ok) := Step(st, ops[0]);
      var (st2, oks) := Run(st1, ops[1..]);
      (st2, [ok] + oks)
  }

  function EagerRun(e: Eager, ops: seq<Op>, oks: seq<bool>): Eager
    requires |ops| == |oks|
    decreases |ops|
  {
    if ops == [] then e else EagerRun(EagerStep(e, ops[0], oks[0]), ops[1..], oks[1..])
  }

  /** Copy-on-write refines eager copying: over every run, every space sees what the eager machine holds. */
  lemma {:induction false} RunRefinesEager(st: State, ops: seq<Op>)
    requires Valid(st) && AllowedRun(st, ops)
    ensures Valid(Run(st, ops).0) && |Run(st, ops).1| == |ops|
    ensures Abs(Run(st, ops).0) == EagerRun(Abs(st), ops, Run(st, ops).1)
    decreases |ops|
  {
    hide Valid, Step, EagerStep, Abs, Allowed;
    if ops != [] {
      StepRefines(st, ops[0]);
      var (st1, ok) := Step(st, ops[0]);
      RunRefinesEager(st1, ops[1..]);
      var (st2, oks) := Run(st1, ops[1..]);
      assert ([ok] + oks)[1..] == oks;
    }
  }

  const INIT := State(map[], map[], map[], map[], {})

  lemma InitValid()
    ensures Valid(INIT) && Abs(INIT) == map[]
  {
  }

  // ---------------------------------------------------------------- when a write fault can be resolved

  predicate AllWritable(t: Table) {
    forall i :: 0 <= i < 512 && t[i].present ==> t[i].writable
  }

  /** A space in no group has nothing read-only: whatever a fork protected can be copied back. */
  ghost predicate Resolvable(st: State) {
    forall s :: s in st.spaces && st.spaces[s].cow == None ==> OwnWritable(st, s)
  }

  ghost predicate OwnWritable(st: State, s: Addr)
    requires s in st.spaces
  {
    && st.spaces[s].code in st.tables && AllWritable(st.tables[st.spaces[s].code])
    && st.spaces[s].heap in st.tables && AllWritable(st.tables[st.spaces[s].heap])
  }

  /** When a user store succeeds, exactly. */
  lemma WriteOutcome(st: State, s: Addr, va: nat, b: byte, a: Answers)
    requires Valid(st) && s in st.spaces && FreshAnswers(st, a) && EntryAt.requires(st, s, 0)
    ensures Write(st, s, va, b, a).1 <==>
              && UserVa(va) && EntryAt(st, s, PageNo(va)).present && EntryAt(st, s, PageNo(va)).user
              && (EntryAt(st, s, PageNo(va)).writable || (st.spaces[s].cow.Some? && Enough(st, s, a)))
  {
    hide OneOwner, FramesOk, GroupsOk, RefsOk, SpacesOk, Domains, Copied, Store, Shares;
    SpaceIsOk(st, s);
    if UserVa(va) && !Writable(st, s, PageNo(va)) { FaultKeeps(st, s, PageNo(va), a); }
  }

  /** As long as no fork starved, a store works on every user page the process sees, given the memory to copy it. */
  lemma WriteResolves(st: State, s: Addr, va: nat, b: byte, a: Answers)
    requires Valid(st) && Resolvable(st) && s in st.spaces && FreshAnswers(st, a) && Enough(st, s, a)
    ensures Write(st, s, va, b, a).1 <==>
              UserVa(va) && Abs(st)[s][PageNo(va)].Some? && Abs(st)[s][PageNo(va)].value.user
  {
    hide OneOwner, FramesOk, GroupsOk, RefsOk, SpacesOk, Domains, Write, Shares;
    SpaceIsOk(st, s);
    WriteOutcome(st, s, va, b, a);
    if UserVa(va) {
      var p := PageNo(va);
      assert Abs(st)[s][p] == PageAt(st, s, p);
      if st.spaces[s].cow == None { assert OwnWritable(st, s); }
    }
  }

  /** The one step that can strand read-only pages: a fork that leaves its old group and gets no new one. */
  ghost predicate Starves(st: State, op: Op)
    requires Valid(st) && Allowed(st, op)
  {
    && op.OpFork? && op.child != op.parent && op.g == None
    && st.spaces[op.parent].cow.Some? && !Shares(st.spaces, st.groups, op.parent) && !OwnWritable(st, op.parent)
  }

  /** u is in no group, and neither its record nor its tables changed. */
  ghost predicate Alone(st: State, st2: State, u: Addr)
    requires u in st2.spaces
  {
    && u in st.spaces && st.spaces[u] == st2.spaces[u] && st2.spaces[u].cow == None
    && st2.spaces[u].code in st.tables && st2.spaces[u].code in st2.tables
    && st2.spaces[u].heap in st.tables && st2.spaces[u].heap in st2.tables
    && st2.tables[st2.spaces[u].code] == st.tables[st2.spaces[u].code]
    && st2.tables[st2.spaces[u].heap] == st.tables[st2.spaces[u].heap]
  }

  lemma AloneKeeps(st: State, st2: State)
    requires Resolvable(st)
    requires forall u :: u in st2.spaces && st2.spaces[u].cow == None ==> Alone(st, st2, u) || OwnWritable(st2, u)
    ensures Resolvable(st2)
  {
    hide AllWritable;
    forall u | u in st2.spaces && st2.spaces[u].cow == None ensures OwnWritable(st2, u) {
      if Alone(st, st2, u) { assert OwnWritable(st, u); }
    }
  }

  /** Steps that only remove, or only touch tables of `s`, leave every other lone space alone. */
  lemma LoneSpaces(st: State, st2: State, s: Addr)
    requires Valid(st) && Valid(st2) && s in st.spaces
    requires forall u :: u in st2.spaces && u != s && st2.spaces[u].cow == None ==> u in st.spaces && st2.spaces[u] == st.spaces[u]
    requires forall t :: t in st.tables && t in st2.tables && !Owns(st.spaces, st.groups, OfSpace(s), t) ==> st2.tables[t] == st.tables[t]
    ensures forall u :: u in st2.spaces && u != s && st2.spaces[u].cow == None ==> Alone(st, st2, u)
  {
    hide OneOwner, FramesOk, GroupsOk, RefsOk, SpacesOk, Domains, Owns;
    forall u | u in st2.spaces && u != s && st2.spaces[u].cow == None ensures Alone(st, st2, u) {
      SpaceIsOk(st, u);
      SpaceIsOk(st2, u);
      NotTouched(st.spaces, st.groups, st.tables.Keys, OfSpace(s), u);
    }
  }

  lemma ShareResolvable(st: State, child: Addr, parent: Addr, g: Option<Addr>)
    requires Valid(st) && Resolvable(st) && Allowed(st, OpFork(child, parent, g)) && child != parent
    requires g.Some? || Shares(st.spaces, st.groups, parent)
    ensures Resolvable(Share(st, child, parent, g).0)
  {
    hide OneOwner, FramesOk, GroupsOk, RefsOk, SpacesOk, Domains, Owns, Members;
    var st2 := Share(st, child, parent, g).0;
    ShareRefines(st, child, parent, g);
    LeftValid(st, parent);
    SpaceIsOk(st, parent);
    SpaceIsOk(st2, parent);
    SharedSpaces(st, child, parent, g, st2);
    SharedTables(st, child, parent, g, st2);
    LoneSpaces(st, st2, parent);
    AloneKeeps(st, st2);
  }

  lemma SharedSpaces(st: State, child: Addr, parent: Addr, g: Option<Addr>, st2: State)
    requires Valid(st) && Allowed(st, OpFork(child, parent, g)) && child != parent
    requires g.Some? || Shares(st.spaces, st.groups, parent)
    requires st2 == Share(st, child, parent, g).0
    ensures st2.spaces.Keys == st.spaces.Keys && st2.spaces[parent].cow.Some? && st2.spaces[child].cow.Some?
    ensures forall u :: u in st.spaces && u != parent && u != child ==> st2.spaces[u] == st.spaces[u]
  {
    hide OneOwner, FramesOk, GroupsOk, RefsOk, SpacesOk, Domains, ReadOnly, Owns, Members;
    SpaceIsOk(st, parent);
    LeftValid(st, parent);
    LeftShares(st, parent);
  }

  lemma SharedTables(st: State, child: Addr, parent: Addr, g: Option<Addr>, st2: State)
    requires Valid(st) && Allowed(st, OpFork(child, parent, g)) && child != parent
    requires g.Some? || Shares(st.spaces, st.groups, parent)
    requires st2 == Share(st, child, parent, g).0
    ensures forall t :: t in st.tables && t in st2.tables && !Owns(st.spaces, st.groups, OfSpace(parent), t) ==> st2.tables[t] == st.tables[t]
  {
    hide OneOwner, FramesOk, GroupsOk, RefsOk, SpacesOk, Domains, ReadOnly, Members;
    SpaceIsOk(st, parent);
    LeftValid(st, parent);
    LeftShares(st, parent);
  }

  lemma FaultResolvable(st: State, s: Addr, p: nat, a: Answers)
    requires Valid(st) && Resolvable(st) && s in st.spaces && p < 1024 && FreshAnswers(st, a)
    ensures Resolvable(Fault(st, s, p, a).0)
  {
    hide OneOwner, FramesOk, GroupsOk, RefsOk, SpacesOk, Domains, Owns, AllWritable;
    SpaceIsOk(st, s);
    FaultKeeps(st, s, p, a);
    var (st2, ok) := Fault(st, s, p, a);
    if ok {
      FaultTables(st, s, p, a, st2);
      LoneSpaces(st, st2, s);
      AloneKeeps(st, st2);
    }
  }

  lemma FaultTables(st: State, s: Addr, p: nat, a: Answers, st2: State)
    requires Valid(st) && s in st.spaces && p < 1024 && FreshAnswers(st, a)
    requires Fault(st, s, p, a) == (st2, true)
    ensures st2.spaces.Keys == st.spaces.Keys && st2.spaces[s].cow.Some?
    ensures forall u :: u in st.spaces && u != s ==> st2.spaces[u] == st.spaces[u]
    ensures forall t :: t in st.tables && !Owns(st.spaces, st.groups, OfSpace(s), t) ==> t in st2.tables && st2.tables[t] == st.tables[t]
  {
    hide OneOwner, FramesOk, GroupsOk, RefsOk, SpacesOk;
    SpaceIsOk(st, s);
  }

  lemma DestroyResolvable(st: State, s: Addr)
    requires Valid(st) && Resolvable(st) && s in st.spaces && Destroy.requires(st, s) && Valid(Destroy(st, s))
    ensures Resolvable(Destroy(st, s))
  {
    hide OneOwner, FramesOk, GroupsOk, RefsOk, SpacesOk, Domains, Owns, Shares;
    LoneSpaces(st, Destroy(st, s), s);
    AloneKeeps(st, Destroy(st, s));
  }

  lemma MapResolvable(st: State, s: Addr, p: nat, f: Addr, user: bool, data: Page)
    requires Valid(st) && Resolvable(st) && s in st.spaces && p < 1024 && f !in st.live && !Shares(st.spaces, st.groups, s)
    requires MapPage.requires(NewFrame(st, f, data), s, p, f, user) && Valid(MapPage(NewFrame(st, f, data), s, p, f, user))
    ensures Resolvable(MapPage(NewFrame(st, f, data), s, p, f, user))
  {
    hide OneOwner, FramesOk, GroupsOk, RefsOk, SpacesOk;
    var st2 := MapPage(NewFrame(st, f, data), s, p, f, user);
    SpaceIsOk(st, s);
    LoneSpaces(st, st2, s);
    if st.spaces[s].cow == None { assert OwnWritable(st, s) && OwnWritable(st2, s); }
    AloneKeeps(st, st2);
  }

  lemma CreateResolvable(st: State, sp: Option<Addr>, code: Option<Addr>, heap: Option<Addr>)
    requires Valid(st) && Resolvable(st) && FreshThree(st, sp, code, heap) && Valid(Create(st, sp, code, heap).0)
    ensures Resolvable(Create(st, sp, code, heap).0)
  {
    hide OneOwner, FramesOk, GroupsOk, RefsOk, SpacesOk, EmptyTable;
    var (st2, ok) := Create(st, sp, code, heap);
    EmptyEntries();
    forall u | u in st2.spaces && st2.spaces[u].cow == None ensures Alone(st, st2, u) || OwnWritable(st2, u) {
      SpaceIsOk(st2, u);
      if u in st.spaces { SpaceIsOk(st, u); }
    }
    AloneKeeps(st, st2);
  }

  /** A failed fork changes at most one thing: a parent that had its own tables is in no group any more. */
  lemma StarvedShare(st: State, child: Addr, parent: Addr)
    requires Valid(st) && Resolvable(st) && Allowed(st, OpFork(child, parent, None)) && child != parent
    requires !Shares(st.spaces, st.groups, parent)
    ensures Resolvable(Share(st, child, parent, None).0) <==> !Starves(st, OpFork(child, parent, None))
  {
    hide OneOwner, FramesOk, GroupsOk, RefsOk, SpacesOk, Domains, Owns, AllWritable;
    var st2 := Share(st, child, parent, None).0;
    ShareRefines(st, child, parent, None);
    SpaceIsOk(st, parent);
    if st.spaces[parent].cow.Some? {
      SpaceIsOk(st2, parent);
      LoneSpaces(st, st2, parent);
      assert OwnWritable(st2, parent) <==> OwnWritable(st, parent);
      if OwnWritable(st, parent) { AloneKeeps(st, st2); }
    }
  }

  /** Exactly the starved fork loses the power to resolve faults. */
  lemma StepResolvable(st: State, op: Op)
    requires Valid(st) && Resolvable(st) && Allowed(st, op)
    ensures Resolvable(Step(st, op).0) <==> !Starves(st, op)
  {
    hide Valid, Resolvable, OwnWritable, Copied, Drop, Shares, Store, MapPage;
    match op
    case OpCreate(sp, code, heap) =>
      CreateValid(st, sp, code, heap);
      CreateResolvable(st, sp, code, heap);
    case OpMap(s, va, f, user, data) =>
      MapRefines(st, s, PageNo(va), f, user, data);
      MapResolvable(st, s, PageNo(va), f, user, data);
    case OpFork(child, parent, g) =>
      if child != parent {
        if g.Some? || Shares(st.spaces, st.groups, parent) { ShareResolvable(st, child, parent, g); }
        else { StarvedShare(st, child, parent); }
      }
    case OpWrite(s, va, b, a) => WriteResolvable(st, s, va, b, a);
    case OpDestroy(s) =>
      DestroyValid(st, s);
      DestroyResolvable(st, s);
  }

  lemma WriteResolvable(st: State, s: Addr, va: nat, b: byte, a: Answers)
    requires Valid(st) && Resolvable(st) && s in st.spaces && FreshAnswers(st, a)
    ensures Resolvable(Write(st, s, va, b, a).0)
  {
    hide Valid, Fault, AllWritable;
    if UserVa(va) {
      FaultKeeps(st, s, PageNo(va), a);
      FaultResolvable(st, s, PageNo(va), a);
    }
  }

  ghost predicate NoForkStarves(st: State, ops: seq<Op>)
    requires Valid(st) && AllowedRun(st, ops)
    decreases |ops|
  {
    ops == [] || (!Starves(st, ops[0]) && (StepRefines(st, ops[0]); NoForkStarves(Step(st, ops[0]).0, ops[1..])))
  }

  lemma {:induction false} RunResolvable(st: State, ops: seq<Op>)
    requires Valid(st) && AllowedRun(st, ops) && Resolvable(st) && NoForkStarves(st, ops)
    ensures Valid(Run(st, ops).0) && Resolvable(Run(st, ops).0)
    decreases |ops|
  {
    hide Valid, Step, Resolvable, Allowed, Starves;
    if ops != [] {
      StepRefines(st, ops[0]);
      StepResolvable(st, ops[0]);
      RunResolvable(Step(st, ops[0]).0, ops[1..]);
    }
  }

  /** A member of a group copies one page, then a fork of it starves: the next store into another page fails, whatever memory there is. */
  lemma StrandedPage(st: State, s: Addr, p: nat, a: Answers, child: Addr, va: nat, b: byte, a2: Answers)
    requires Valid(st) && s in st.spaces && p < 1024 && Shares(st.spaces, st.groups, s) && FreshAnswers(st, a)
    requires Fault(st, s, p, a).1 && UserVa(va) && PageNo(va) != p
    requires EntryAt.requires(st, s, 0) && EntryAt(st, s, PageNo(va)).present
    requires child in st.spaces && child != s && st.spaces[child].cow == None
    ensures var st1 := Fault(st, s, p, a).0;
            && Valid(st1) && Allowed(st1, OpFork(child, s, None)) && Starves(st1, OpFork(child, s, None))
            && (var st2 := Share(st1, child, s, None).0;
                Valid(st2) && s in st2.spaces && (FreshAnswers(st2, a2) ==> !Write(st2, s, va, b, a2).1))
  {
    hide OneOwner, FramesOk, GroupsOk, RefsOk, SpacesOk, Domains, NoneWritable;
    SpaceIsOk(st, s);
    FaultKeeps(st, s, p, a);
    var st1 := Fault(st, s, p, a).0;
    CopiedTables(st, s, p, a, st1, PageNo(va));
    var st2 := Share(st1, child, s, None).0;
    ShareRefines(st1, child, s, None);
    LeftTables(st1, s);
    SpaceIsOk(st2, s);
    if FreshAnswers(st2, a2) { WriteOutcome(st2, s, va, b, a2); }
  }

  lemma LeftTables(st: State, s: Addr)
    requires Valid(st) && s in st.spaces && st.spaces[s].cow.Some? && !Shares(st.spaces, st.groups, s)
    ensures var st2 := Left(st, s);
            && s in st2.spaces && st2.spaces[s] == st.spaces[s].(cow := None)
            && forall t :: t in st.tables && t in st2.tables ==> st2.tables[t] == st.tables[t]
  {
    hide OneOwner, FramesOk, GroupsOk, RefsOk, SpacesOk, Domains;
    SpaceIsOk(st, s);
  }

  lemma CopiedTables(st: State, s: Addr, p: nat, a: Answers, st1: State, q: nat)
    requires Valid(st) && s in st.spaces && p < 1024 && Shares(st.spaces, st.groups, s) && FreshAnswers(st, a)
    requires Fault(st, s, p, a) == (st1, true) && Valid(st1) && s in st1.spaces
    requires q < 1024 && q != p && EntryAt.requires(st, s, 0) && EntryAt(st, s, q).present
    ensures EntryAt.requires(st1, s, 0) && EntryAt(st1, s, q) == EntryAt(st, s, q) && !EntryAt(st1, s, q).writable
    ensures st1.spaces[s].cow.Some? && !Shares(st1.spaces, st1.groups, s) && !OwnWritable(st1, s)
    ensures st1.spaces.Keys == st.spaces.Keys && forall u :: u in st.spaces && u != s ==> st1.spaces[u] == st.spaces[u]
  {
    hide OneOwner, FramesOk, GroupsOk, RefsOk, SpacesOk, Domains;
    SpaceIsOk(st, s);
    SpaceIsOk(st1, s);
    SharedReadOnly(st, s);
    PreparedValid(st, s, p, a, Prepared(st, s, p, a));
    assert EntryAt(st1, s, q) == EntryAt(st, s, q);
    assert st1.tables[TableOf(st1.spaces[s], q)][q % 512] == EntryAt(st, s, q);
  }

  lemma SharedReadOnly(st: State, s: Addr)
    requires Valid(st) && s in st.spaces && Shares(st.spaces, st.groups, s) && EntryAt.requires(st, s, 0)
    ensures forall q :: 0 <= q < 1024 && EntryAt(st, s, q).present ==> !EntryAt(st, s, q).writable
  {
    hide OneOwner, FramesOk, RefsOk, Domains;
    SpaceIsOk(st, s);
    assert GroupOk(st.groups, st.tables, st.spaces[s].cow.value);
  }

  // ---------------------------------------------------------------- pages nobody can write any more, exactly

  /** A user page that is read-only in a space that is in no group: the fault handler refuses it. */
  ghost predicate Stuck(st: State, s: Addr, p: nat) {
    && s in st.spaces && p < 1024 && EntryAt.requires(st, s, p) && st.spaces[s].cow == None
    && EntryAt(st, s, p).present && EntryAt(st, s, p).user && !EntryAt(st, s, p).writable
  }

  /** Any store into the page works, given the memory to copy it. */
  ghost predicate Storable(st: State, s: Addr, va: nat)
    requires Valid(st) && s in st.spaces
  {
    forall b: byte, a :: FreshAnswers(st, a) && Enough(st, s, a) ==> Write(st, s, va, b, a).1
  }

  lemma {:induction false} SomeFresh(live: set<Addr>) returns (f: Addr)
    ensures f !in live
  {
    f := UpperBound(live);
  }

  lemma {:induction false} UpperBound(live: set<Addr>) returns (f: Addr)
    ensures forall x :: x in live ==> x < f
  {
    if live == {} { return 0; }
    var x :| x in live;
    f := UpperBound(live - {x});
    if f <= x { f := x + 1; }
    forall y | y in live ensures y < f {
      if y != x { assert y in live - {x}; }
    }
  }

  /** In any state, a user page the process sees takes stores exactly when it is not stuck. */
  lemma StorableIff(st: State, s: Addr, va: nat)
    requires Valid(st) && s in st.spaces && UserVa(va)
    requires Abs(st)[s][PageNo(va)].Some? && Abs(st)[s][PageNo(va)].value.user
    ensures Storable(st, s, va) <==> !Stuck(st, s, PageNo(va))
  {
    hide OneOwner, FramesOk, GroupsOk, RefsOk, SpacesOk, Domains, Write, Shares;
    SpaceIsOk(st, s);
    assert Abs(st)[s][PageNo(va)] == PageAt(st, s, PageNo(va));
    forall b: byte, a | FreshAnswers(st, a) ensures Write(st, s, va, b, a).1 <==> (EntryAt(st, s, PageNo(va)).writable || (st.spaces[s].cow.Some? && Enough(st, s, a))) {
      WriteOutcome(st, s, va, b, a);
    }
    if Stuck(st, s, PageNo(va)) {
      var f := SomeFresh(st.live);
      var a := Answers(Some(f), None, None);
      assert FreshAnswers(st, a) && Enough(st, s, a) by { NotShared(st, s); }
      var b: byte := 0;
      assert !Write(st, s, va, b, a).1;
    }
  }

  lemma NotShared(st: State, s: Addr)
    requires s in st.spaces && st.spaces[s].cow == None
    ensures !Shares(st.spaces, st.groups, s)
  {
  }

  /** Every user page of a space takes stores exactly when it is in a group or none of them is read-only. */
  lemma SpaceStorableIff(st: State, s: Addr)
    requires Valid(st) && s in st.spaces
    ensures (forall va :: UserVa(va) && Abs(st)[s][PageNo(va)].Some? && Abs(st)[s][PageNo(va)].value.user ==> Storable(st, s, va)) <==>
            st.spaces[s].cow.Some? || forall p :: 0 <= p < 1024 ==> !Stuck(st, s, p)
  {
    hide Valid, Storable, ViewOf;
    assert forall va :: UserVa(va) && Abs(st)[s][PageNo(va)].Some? && Abs(st)[s][PageNo(va)].value.user ==>
      (Storable(st, s, va) <==> !Stuck(st, s, PageNo(va))) by {
      forall va | UserVa(va) && Abs(st)[s][PageNo(va)].Some? && Abs(st)[s][PageNo(va)].value.user
        ensures Storable(st, s, va) <==> !Stuck(st, s, PageNo(va)) { StorableIff(st, s, va); }
    }
    if p :| 0 <= p < 1024 && Stuck(st, s, p) {
      StuckSeen(st, s, p);
      var va := USER_BASE + p * 4096;
      assert UserVa(va) && PageNo(va) == p;
      assert !Storable(st, s, va);
    }
  }

  lemma StuckSeen(st: State, s: Addr, p: nat)
    requires Valid(st) && Stuck(st, s, p)
    ensures Abs(st)[s][p].Some? && Abs(st)[s][p].value.user
  {
    hide OneOwner, FramesOk, GroupsOk, RefsOk, SpacesOk, Domains;
    assert Abs(st)[s][p] == PageAt(st, s, p);
  }

  /** The step strands the page: a fork of a space that had its own tables, with the page still read-only, gets no group. */
  ghost predicate Strands(st: State, op: Op, s: Addr, p: nat)
    requires Valid(st) && Allowed(st, op)
  {
    op.OpFork? && op.child != op.parent && op.parent == s && op.g == None && Strandable(st, s, p)
  }

  /** A read-only user page of a space that is in a group but has tables of its own. */
  ghost predicate Strandable(st: State, s: Addr, p: nat) {
    && s in st.spaces && p < 1024 && st.spaces[s].cow.Some? && !Shares(st.spaces, st.groups, s) && EntryAt.requires(st, s, p)
    && EntryAt(st, s, p).present && EntryAt(st, s, p).user && !EntryAt(st, s, p).writable
  }

  /** The step ends it: the space goes, it comes into a group by a fork that has one, or the page is mapped anew. */
  ghost predicate Frees(st: State, op: Op, s: Addr, p: nat)
    requires Valid(st) && Allowed(st, op)
  {
    match op
    case OpDestroy(u) => u == s
    case OpMap(u, va, _, _, _) => u == s && PageNo(va) == p
    case OpFork(child, parent, g) =>
      child != parent && (parent == s || child == s) && (g.Some? || Shares(st.spaces, st.groups, parent))
    case _ => false
  }

  /** The entry behind a page, for a space that may have gone. */
  ghost predicate SameEntry(st: State, st2: State, s: Addr, p: nat)
    requires p < 1024
  {
    && s in st.spaces && s in st2.spaces && EntryAt.requires(st, s, p) && EntryAt.requires(st2, s, p)
    && EntryAt(st2, s, p) == EntryAt(st, s, p) && st2.spaces[s].cow == st.spaces[s].cow
  }

  lemma SameStuck(st: State, st2: State, s: Addr, p: nat)
    requires p < 1024 && SameEntry(st, st2, s, p)
    ensures Stuck(st2, s, p) <==> Stuck(st, s, p)
  {
  }

  /** A step on space x that leaves the record and the tables of s alone. */
  lemma OtherStuck(st: State, st2: State, x: Addr, s: Addr, p: nat)
    requires Valid(st) && Valid(st2) && x in st.spaces && s in st.spaces && s in st2.spaces && s != x && p < 1024
    requires st2.spaces[s] == st.spaces[s]
    requires forall t :: t in st.tables && t in st2.tables && !Owns(st.spaces, st.groups, OfSpace(x), t) ==> st2.tables[t] == st.tables[t]
    ensures Stuck(st2, s, p) <==> Stuck(st, s, p)
  {
    hide OneOwner, FramesOk, GroupsOk, RefsOk, SpacesOk, Domains, Owns;
    SpaceIsOk(st, s);
    SpaceIsOk(st2, s);
    NotTouched(st.spaces, st.groups, st.tables.Keys, OfSpace(x), s);
    var t := TableOf(st.spaces[s], p);
    assert st.spaces[s].cow == None ==> SameEntry(st, st2, s, p);
    if st.spaces[s].cow == None { SameStuck(st, st2, s, p); }
  }

  lemma CreateStuck(st: State, sp: Option<Addr>, code: Option<Addr>, heap: Option<Addr>, s: Addr, p: nat)
    requires Valid(st) && FreshThree(st, sp, code, heap) && Valid(Create(st, sp, code, heap).0) && p < 1024
    ensures Stuck(Create(st, sp, code, heap).0, s, p) <==> Stuck(st, s, p)
  {
    hide OneOwner, FramesOk, GroupsOk, RefsOk, SpacesOk, EmptyTable;
    var (st2, ok) := Create(st, sp, code, heap);
    EmptyEntries();
    if s in st.spaces {
      SpaceIsOk(st, s);
      SpaceIsOk(st2, s);
      SameStuck(st, st2, s, p);
    }
  }

  lemma MapStuck(st: State, x: Addr, q: nat, f: Addr, user: bool, data: Page, s: Addr, p: nat)
    requires Valid(st) && x in st.spaces && q < 1024 && p < 1024 && f !in st.live && !Shares(st.spaces, st.groups, x)
    requires MapPage.requires(NewFrame(st, f, data), x, q, f, user) && Valid(MapPage(NewFrame(st, f, data), x, q, f, user))
    ensures Stuck(MapPage(NewFrame(st, f, data), x, q, f, user), s, p) <==> Stuck(st, s, p) && !(s == x && p == q)
  {
    hide OneOwner, GroupsOk, RefsOk, SpacesOk;
    var st2 := MapPage(NewFrame(st, f, data), x, q, f, user);
    SpaceIsOk(st, x);
    var t := TableOf(st.spaces[x], q);
    assert Maps(st.tables, t, q % 512, st.tables[t][q % 512].frame) || !st.tables[t][q % 512].present;
    if s in st.spaces && s != x {
      OtherStuck(st, st2, x, s, p);
    } else if s == x && p != q {
      SameStuck(st, st2, s, p);
    }
  }

  lemma DestroyStuck(st: State, x: Addr, s: Addr, p: nat)
    requires Valid(st) && x in st.spaces && p < 1024 && Destroy.requires(st, x) && Valid(Destroy(st, x))
    ensures Stuck(Destroy(st, x), s, p) <==> Stuck(st, s, p) && s != x
  {
    hide OneOwner, FramesOk, GroupsOk, RefsOk, SpacesOk, Domains, Owns, Shares;
    if s in st.spaces && s != x { OtherStuck(st, Destroy(st, x), x, s, p); }
  }

  lemma WriteStuck(st: State, x: Addr, va: nat, b: byte, a: Answers, s: Addr, p: nat)
    requires Valid(st) && x in st.spaces && p < 1024 && FreshAnswers(st, a)
    ensures Stuck(Write(st, x, va, b, a).0, s, p) <==> Stuck(st, s, p)
  {
    hide Valid, Fault;
    if UserVa(va) {
      FaultKeeps(st, x, PageNo(va), a);
      FaultStuck(st, x, PageNo(va), a, s, p);
    }
  }

  lemma FaultStuck(st: State, x: Addr, q: nat, a: Answers, s: Addr, p: nat)
    requires Valid(st) && x in st.spaces && p < 1024 && q < 1024 && FreshAnswers(st, a)
    ensures Stuck(Fault(st, x, q, a).0, s, p) <==> Stuck(st, s, p)
  {
    hide OneOwner, FramesOk, GroupsOk, RefsOk, SpacesOk, Domains, Owns;
    SpaceIsOk(st, x);
    FaultKeeps(st, x, q, a);
    var (st2, ok) := Fault(st, x, q, a);
    if ok {
      FaultTables(st, x, q, a, st2);
      if s in st.spaces && s != x { OtherStuck(st, st2, x, s, p); }
    }
  }

  /** A fork that finds or gets a group: neither party is stuck afterwards, everybody else as before. */
  lemma SharedStuck(st: State, child: Addr, parent: Addr, g: Option<Addr>, s: Addr, p: nat)
    requires Valid(st) && Allowed(st, OpFork(child, parent, g)) && child != parent && p < 1024
    requires g.Some? || Shares(st.spaces, st.groups, parent)
    ensures Stuck(Share(st, child, parent, g).0, s, p) <==> Stuck(st, s, p) && s != child && s != parent
  {
    hide OneOwner, FramesOk, GroupsOk, RefsOk, SpacesOk, Domains, Owns, Members, Share;
    var st2 := Share(st, child, parent, g).0;
    ShareRefines(st, child, parent, g);
    SharedSpaces(st, child, parent, g, st2);
    SharedTables(st, child, parent, g, st2);
    if s in st.spaces && s != parent && s != child { OtherStuck(st, st2, parent, s, p); }
  }

  /** A fork that finds no group and gets none. */
  lemma StarvedStuck(st: State, child: Addr, parent: Addr, s: Addr, p: nat)
    requires Valid(st) && Allowed(st, OpFork(child, parent, None)) && child != parent && p < 1024
    requires !Shares(st.spaces, st.groups, parent)
    ensures Stuck(Share(st, child, parent, None).0, s, p) <==> Stuck(st, s, p) || Strands(st, OpFork(child, parent, None), s, p)
  {
    hide OneOwner, FramesOk, GroupsOk, RefsOk, SpacesOk, Domains, Owns;
    var st2 := Share(st, child, parent, None).0;
    ShareRefines(st, child, parent, None);
    SpaceIsOk(st, parent);
    if st.spaces[parent].cow.Some? {
      LeftTables(st, parent);
      LeftValid(st, parent);
      SpaceIsOk(st2, parent);
      if s in st.spaces && s != parent { OtherStuck(st, st2, parent, s, p); }
    }
  }

  /** What a step does to a page, exactly: stuck stays stuck unless freed, and nothing but a starved fork strands. */
  lemma StepStuck(st: State, op: Op, s: Addr, p: nat)
    requires Valid(st) && Allowed(st, op) && p < 1024
    ensures Stuck(Step(st, op).0, s, p) <==> if Stuck(st, s, p) then !Frees(st, op, s, p) else Strands(st, op, s, p)
  {
    hide Valid, Copied, Drop, Shares, Store, MapPage, Fault, Write, Join, Found;
    match op
    case OpCreate(sp, code, heap) =>
      CreateValid(st, sp, code, heap);
      CreateStuck(st, sp, code, heap, s, p);
    case OpMap(x, va, f, user, data) =>
      MapRefines(st, x, PageNo(va), f, user, data);
      MapStuck(st, x, PageNo(va), f, user, data, s, p);
    case OpFork(child, parent, g) =>
      if child != parent {
        if g.Some? || Shares(st.spaces, st.groups, parent) { SharedStuck(st, child, parent, g, s, p); }
        else { StarvedStuck(st, child, parent, s, p); }
      }
    case OpWrite(x, va, b, a) => WriteStuck(st, x, va, b, a, s, p);
    case OpDestroy(x) =>
      DestroyValid(st, x);
      DestroyStuck(st, x, s, p);
  }

  /** No step of the run frees the page. */
  ghost predicate NeverFreed(st: State, ops: seq<Op>, s: Addr, p: nat)
    requires Valid(st) && AllowedRun(st, ops)
    decreases |ops|
  {
    ops == [] || (!Frees(st, ops[0], s, p) && (StepRefines(st, ops[0]); NeverFreed(Step(st, ops[0]).0, ops[1..], s, p)))
  }

  /** Some step of the run strands the page, and none after it frees it. */
  ghost predicate StrandedSince(st: State, ops: seq<Op>, s: Addr, p: nat)
    requires Valid(st) && AllowedRun(st, ops)
    decreases |ops|
  {
    ops != [] && (StepRefines(st, ops[0]);
      (Strands(st, ops[0], s, p) && NeverFreed(Step(st, ops[0]).0, ops[1..], s, p)) || StrandedSince(Step(st, ops[0]).0, ops[1..], s, p))
  }

  /** Over every run: a page is stuck at the end exactly when it was, or some fork stranded it, and nothing has freed it since. */
  lemma {:induction false} RunStuck(st: State, ops: seq<Op>, s: Addr, p: nat)
    requires Valid(st) && AllowedRun(st, ops) && p < 1024
    ensures Stuck(Run(st, ops).0, s, p) <==> (Stuck(st, s, p) && NeverFreed(st, ops, s, p)) || StrandedSince(st, ops, s, p)
    decreases |ops|
  {
    hide Valid, Step, Allowed, Frees, Strands, Stuck;
    if ops != [] {
      StepRefines(st, ops[0]);
      StepStuck(st, ops[0], s, p);
      StuckNotStrands(st, ops[0], s, p);
      RunStuck(Step(st, ops[0]).0, ops[1..], s, p);
    }
  }

  lemma StuckNotStrands(st: State, op: Op, s: Addr, p: nat)
    requires Valid(st) && Allowed(st, op)
    ensures !(Stuck(st, s, p) && Strands(st, op, s, p))
  {
  }

  /** From the empty machine: every user page seen takes stores, given memory, but for those a fork has stranded since. */
  lemma StorableAfter(ops: seq<Op>, s: Addr, va: nat)
    requires Valid(INIT) && AllowedRun(INIT, ops) && Valid(Run(INIT, ops).0) && s in Run(INIT, ops).0.spaces && UserVa(va)
    requires var v := Abs(Run(INIT, ops).0)[s][PageNo(va)]; v.Some? && v.value.user
    ensures Storable(Run(INIT, ops).0, s, va) <==> !StrandedSince(INIT, ops, s, PageNo(va))
  {
    hide Valid, Run, Abs, StrandedSince, NeverFreed, AllowedRun, Storable;
    RunStuck(INIT, ops, s, PageNo(va));
    StorableIff(Run(INIT, ops).0, s, va);
  }

  // ---- a run that strands a page

  function Zeros(): Page { seq(4096, _ => 0) }

  /** Space 1 has its tables at 2 and 3 and no group; its first two pages are mapped, for user code. */
  ghost predicate TwoPages(st: State) {
    && Valid(st) && 1 in st.spaces && st.spaces[1] == Space(2, 3, 2, 3, None) && 2 in st.tables && 3 in st.tables
    && st.tables[2][0].present && st.tables[2][0].user && st.tables[2][1].present && st.tables[2][1].user
  }

  function MapTwo(): seq<Op> {
    [OpCreate(Some(1), Some(2), Some(3)), OpMap(1, USER_BASE, 4, true, Zeros()), OpMap(1, USER_BASE + 4096, 5, true, Zeros())]
  }

  /** Space 1 on its own, with the tables at 2 and 3. */
  ghost predicate Single(st: State) {
    Valid(st) && 1 in st.spaces && st.spaces[1] == Space(2, 3, 2, 3, None) && 2 in st.tables && 3 in st.tables
  }

  lemma MappedAt(st: State, i: nat, f: Addr)
    requires Single(st) && i < 512 && f !in st.live
    ensures var op := OpMap(1, USER_BASE + 4096 * i, f, true, Zeros());
            Allowed(st, op)
            && (var st2 := Step(st, op).0;
                && Single(st2) && st2.live == st.live + {f} && st2.tables[2][i].present && st2.tables[2][i].user
                && forall j :: 0 <= j < 512 && j != i ==> st2.tables[2][j] == st.tables[2][j])
  {
    hide ViewOf, OneOwner, GroupsOk, RefsOk, SpacesOk;
    assert st.tables[2][i].present ==> Maps(st.tables, 2, i, st.tables[2][i].frame);
    NotShared(st, 1);
    var op := OpMap(1, USER_BASE + 4096 * i, f, true, Zeros());
    StepRefines(st, op);
    assert PageNo(USER_BASE + 4096 * i) == i;
  }

  lemma TwoMapped() returns (st: State)
    ensures Valid(INIT) && AllowedRun(INIT, MapTwo()) && st == Run(INIT, MapTwo()).0
    ensures TwoPages(st) && st.live == {1, 2, 3, 4, 5}
  {
    hide Valid, Step, Allowed;
    var a, b, c := OpCreate(Some(1), Some(2), Some(3)), OpMap(1, USER_BASE, 4, true, Zeros()), OpMap(1, USER_BASE + 4096, 5, true, Zeros());
    FirstMade();
    var s1 := Step(INIT, a).0;
    assert b == OpMap(1, USER_BASE + 4096 * 0, 4, true, Zeros()) && c == OpMap(1, USER_BASE + 4096 * 1, 5, true, Zeros());
    MappedAt(s1, 0, 4);
    var s2 := Step(s1, b).0;
    MappedAt(s2, 1, 5);
    st := Step(s2, c).0;
    AfterSteps(st, []);
    AfterSteps(s2, [c]);
    AfterSteps(s1, [b, c]);
    AfterSteps(INIT, [a, b, c]);
  }

  lemma FirstMade()
    ensures Valid(INIT) && Allowed(INIT, OpCreate(Some(1), Some(2), Some(3)))
    ensures var st := Step(INIT, OpCreate(Some(1), Some(2), Some(3))).0; Single(st) && st.live == {1, 2, 3}
  {
    hide ViewOf, EmptyTable;
    InitValid();
    StepRefines(INIT, OpCreate(Some(1), Some(2), Some(3)));
  }

  /** Two children to be, spaces 6 and 13. */
  function MakeTwo(): seq<Op> { [OpCreate(Some(6), Some(7), Some(8)), OpCreate(Some(13), Some(14), Some(15))] }

  lemma OneMade(st: State, x: Addr)
    requires TwoPages(st) && x !in st.live && x + 1 !in st.live && x + 2 !in st.live
    ensures var op := OpCreate(Some(x), Some(x + 1), Some(x + 2));
            Allowed(st, op)
            && (var st2 := Step(st, op).0;
                && TwoPages(st2) && st2.live == st.live + {x, x + 1, x + 2} && x in st2.spaces && st2.spaces[x].cow == None
                && forall u :: u in st.spaces ==> u in st2.spaces && st2.spaces[u] == st.spaces[u])
  {
    hide ViewOf, EmptyTable, OneOwner, FramesOk, GroupsOk, RefsOk, SpacesOk;
    StepRefines(st, OpCreate(Some(x), Some(x + 1), Some(x + 2)));
  }

  lemma TwoMade(st: State) returns (st2: State)
    requires TwoPages(st) && st.live == {1, 2, 3, 4, 5}
    ensures AllowedRun(st, MakeTwo()) && st2 == Run(st, MakeTwo()).0
    ensures TwoPages(st2) && st2.live == {1, 2, 3, 4, 5, 6, 7, 8, 13, 14, 15}
    ensures 6 in st2.spaces && st2.spaces[6].cow == None && 13 in st2.spaces && st2.spaces[13].cow == None
  {
    hide Valid, Step, Allowed;
    var a, b := OpCreate(Some(6), Some(7), Some(8)), OpCreate(Some(13), Some(14), Some(15));
    OneMade(st, 6);
    var s1 := Step(st, a).0;
    OneMade(s1, 13);
    st2 := Step(s1, b).0;
    AfterSteps(st2, []);
    AfterSteps(s1, [b]);
    AfterSteps(st, [a, b]);
  }

  /** The parent forks into a group, copies its first page, and forks again without memory for another group. */
  function ForkTwice(): seq<Op> {
    [OpFork(6, 1, Some(9)), OpWrite(1, USER_BASE, 0, Answers(Some(10), Some(11), Some(12))), OpFork(13, 1, None)]
  }

  lemma ForkedOnce(st: State, st1: State)
    requires TwoPages(st) && 6 in st.spaces && st.spaces[6].cow == None && 9 !in st.live && st1 == Share(st, 6, 1, Some(9)).0
    ensures Valid(st1) && 1 in st1.spaces && Shares(st1.spaces, st1.groups, 1) && EntryAt.requires(st1, 1, 0)
    ensures EntryAt(st1, 1, 0).present && EntryAt(st1, 1, 0).user && !EntryAt(st1, 1, 0).writable
    ensures EntryAt(st1, 1, 1).present && EntryAt(st1, 1, 1).user
    ensures st1.live <= st.live + {9}
    ensures 13 in st.spaces ==> 13 in st1.spaces && st1.spaces[13] == st.spaces[13]
  {
    hide OneOwner, FramesOk, GroupsOk, RefsOk, SpacesOk, Domains;
    ShareRefines(st, 6, 1, Some(9));
    SpaceIsOk(st, 6);
    SixApart(st);
  }

  lemma SixApart(st: State)
    requires TwoPages(st) && 6 in st.spaces && st.spaces[6].cow == None
    ensures st.spaces[6].code !in {2, 3} && st.spaces[6].heap !in {2, 3}
  {
    OwnTablesUnused(st, 1);
  }

  lemma CopiedOnce(st: State, st1: State)
    requires Valid(st) && 1 in st.spaces && Shares(st.spaces, st.groups, 1) && EntryAt.requires(st, 1, 0)
    requires EntryAt(st, 1, 0).present && EntryAt(st, 1, 0).user && !EntryAt(st, 1, 0).writable
    requires EntryAt(st, 1, 1).present && EntryAt(st, 1, 1).user && 10 !in st.live && 11 !in st.live && 12 !in st.live
    requires st1 == Write(st, 1, USER_BASE, 0, Answers(Some(10), Some(11), Some(12))).0
    ensures Valid(st1) && 1 in st1.spaces && EntryAt.requires(st1, 1, 1) && st1.spaces[1].cow.Some? && !Shares(st1.spaces, st1.groups, 1)
    ensures EntryAt(st1, 1, 1).present && EntryAt(st1, 1, 1).user && !EntryAt(st1, 1, 1).writable
    ensures 13 in st.spaces ==> 13 in st1.spaces && st1.spaces[13] == st.spaces[13]
  {
    hide OneOwner, FramesOk, GroupsOk, RefsOk, SpacesOk, Domains, Copied;
    var a := Answers(Some(10), Some(11), Some(12));
    SpaceIsOk(st, 1);
    assert PageNo(USER_BASE) == 0;
    WriteRefines(st, 1, USER_BASE, 0, a);
    FaultKeeps(st, 1, 0, a);
    CopiedTables(st, 1, 0, a, Fault(st, 1, 0, a).0, 1);
  }

  lemma TwiceForked(st: State)
    requires TwoPages(st) && st.live == {1, 2, 3, 4, 5, 6, 7, 8, 13, 14, 15}
    requires 6 in st.spaces && st.spaces[6].cow == None && 13 in st.spaces && st.spaces[13].cow == None
    ensures AllowedRun(st, ForkTwice()) && Stuck(Run(st, ForkTwice()).0, 1, 1)
  {
    hide Valid, Step, Share, Write, Stuck, Shares, Left, Run, AllowedRun, EntryAt;
    var a, b, c := OpFork(6, 1, Some(9)), OpWrite(1, USER_BASE, 0, Answers(Some(10), Some(11), Some(12))), OpFork(13, 1, None);
    LeftValid(st, 1);
    StepsAre(st, a);
    var s1 := Step(st, a).0;
    ForkedOnce(st, s1);
    WroteOnce(s1, b);
    var s2 := Step(s1, b).0;
    StrandedOnce(s2, c);
    ThreeSteps(st, ForkTwice(), a, b, c);
  }

  lemma WroteOnce(st: State, op: Op)
    requires Valid(st) && 1 in st.spaces && Shares(st.spaces, st.groups, 1) && EntryAt.requires(st, 1, 0)
    requires EntryAt(st, 1, 0).present && EntryAt(st, 1, 0).user && !EntryAt(st, 1, 0).writable
    requires EntryAt(st, 1, 1).present && EntryAt(st, 1, 1).user && 10 !in st.live && 11 !in st.live && 12 !in st.live
    requires op == OpWrite(1, USER_BASE, 0, Answers(Some(10), Some(11), Some(12))) && 13 in st.spaces && st.spaces[13].cow == None
    ensures Allowed(st, op)
    ensures var st1 := Step(st, op).0;
            && Valid(st1) && 1 in st1.spaces && EntryAt.requires(st1, 1, 1) && st1.spaces[1].cow.Some? && !Shares(st1.spaces, st1.groups, 1)
            && EntryAt(st1, 1, 1).present && EntryAt(st1, 1, 1).user && !EntryAt(st1, 1, 1).writable
            && 13 in st1.spaces && st1.spaces[13].cow == None
  {
    hide Valid, Step, Write, Shares, EntryAt;
    StepsAre(st, op);
    CopiedOnce(st, Step(st, op).0);
  }

  lemma StrandedOnce(st: State, op: Op)
    requires Valid(st) && 1 in st.spaces && EntryAt.requires(st, 1, 1) && st.spaces[1].cow.Some? && !Shares(st.spaces, st.groups, 1)
    requires EntryAt(st, 1, 1).present && EntryAt(st, 1, 1).user && !EntryAt(st, 1, 1).writable
    requires op == OpFork(13, 1, None) && 13 in st.spaces && st.spaces[13].cow == None
    ensures Allowed(st, op) && Stuck(Step(st, op).0, 1, 1)
  {
    hide Valid, Step, Stuck, Shares, Left;
    assert Strands(st, op, 1, 1);
    StepRefines(st, op);
    StepStuck(st, op, 1, 1);
    StuckNotStrands(st, op, 1, 1);
  }

  lemma ThreeSteps(st: State, ops: seq<Op>, a: Op, b: Op, c: Op)
    requires ops == [a, b, c]
    requires Valid(st) && Allowed(st, a)
    requires var s1 := Step(st, a).0; Valid(s1) && Allowed(s1, b) && (var s2 := Step(s1, b).0; Valid(s2) && Allowed(s2, c))
    ensures AllowedRun(st, ops) && Run(st, ops).0 == Step(Step(Step(st, a).0, b).0, c).0
  {
    hide Valid, Step, Allowed, Run, AllowedRun;
    var s1 := Step(st, a).0;
    var s2 := Step(s1, b).0;
    StepRefines(s2, c);
    AfterSteps(Step(s2, c).0, []);
    AfterSteps(s2, [c]);
    AfterSteps(s1, [b, c]);
    AfterSteps(st, [a, b, c]);
  }

  lemma StepsAre(st: State, op: Op)
    requires Valid(st) && Allowed(st, op)
    ensures op.OpFork? ==> Step(st, op) == Share(st, op.child, op.parent, op.g)
    ensures op.OpWrite? ==> Step(st, op) == Write(st, op.s, op.va, op.b, op.answers)
  {
  }

  lemma {:induction false} RunBoth(st: State, ops: seq<Op>, more: seq<Op>)
    requires Valid(st) && AllowedRun(st, ops) && Valid(Run(st, ops).0) && AllowedRun(Run(st, ops).0, more)
    ensures AllowedRun(st, ops + more) && Run(st, ops + more).0 == Run(Run(st, ops).0, more).0
    decreases |ops|
  {
    hide Valid, Step, Allowed;
    if ops == [] {
      assert ops + more == more;
    } else {
      StepRefines(st, ops[0]);
      assert (ops + more)[1..] == ops[1..] + more;
      RunBoth(Step(st, ops[0]).0, ops[1..], more);
    }
  }

  /** From the empty machine, in eight steps: a page its process sees and can no longer write, whatever memory there is. */
  lemma StrandedExample()
    ensures var ops := MapTwo() + MakeTwo() + ForkTwice();
            Valid(INIT) && AllowedRun(INIT, ops) && Stuck(Run(INIT, ops).0, 1, 1)
  {
    hide Valid, Run, AllowedRun, Stuck, Shares, MapTwo, MakeTwo, ForkTwice;
    var s1 := TwoMapped();
    var s2 := TwoMade(s1);
    ValidTwo(s1);
    ValidTwo(s2);
    RunBoth(INIT, MapTwo(), MakeTwo());
    TwiceForked(s2);
    RunBoth(INIT, MapTwo() + MakeTwo(), ForkTwice());
  }

  lemma ValidTwo(st: State)
    requires TwoPages(st)
    ensures Valid(st)
  {
  }

  lemma AfterSteps(st: State, ops: seq<Op>)
    requires Valid(st) && (ops != [] ==> Allowed(st, ops[0]))
    ensures ops == [] ==> AllowedRun(st, ops) && Run(st, ops).0 == st
    ensures ops != [] ==> Valid(Step(st, ops[0]).0)
    ensures ops != [] && AllowedRun(Step(st, ops[0]).0, ops[1..]) ==> AllowedRun(st, ops) && Run(st, ops).0 == Run(Step(st, ops[0]).0, ops[1..]).0
  {
    hide Valid, Step, Allowed;
    if ops != [] { StepRefines(st, ops[0]); }
  }

  // ---------------------------------------------------------------- the address spaces of a whole fork

  /** What fork_user gets from the allocator: a space with its tables, a group if it needs one, the kernel stack. */
  datatype ForkMemory = ForkMemory(space: Option<Addr>, code: Option<Addr>, heap: Option<Addr>, group: Option<Addr>, stack: bool)

  predicate HasSpace(m: ForkMemory) { m.space.Some? && m.code.Some? && m.heap.Some? }

  /** The allocator's answers to a fork; the group may get a frame of the group its parent has just given back. */
  ghost predicate FreshFork(st: State, parent: Addr, m: ForkMemory)
    requires Valid(st) && parent in st.spaces
  {
    FreshThree(st, m.space, m.code, m.heap) &&
    if !HasSpace(m) then true
    else
      CreatedFacts(st, m);
      Fresh(Left(Create(st, m.space, m.code, m.heap).0, parent), m.group)
  }

  /** fork_user: a new space, shared with the parent's; given back if that fails, but not if the stack does. */
  ghost function ForkSpaces(st: State, parent: Addr, m: ForkMemory): (State, bool)
    requires Valid(st) && parent in st.spaces && FreshFork(st, parent, m)
  {
    CreateValid(st, m.space, m.code, m.heap);
    var (s1, made) := Create(st, m.space, m.code, m.heap);
    if !made then (s1, false)
    else
      ShareRefines(s1, m.space.value, parent, m.group);
      var (s2, shared) := Share(s1, m.space.value, parent, m.group);
      if shared then (s2, m.stack)
      else
        DestroyValid(s2, m.space.value);
        (Destroy(s2, m.space.value), false)
  }

  lemma CreatedFacts(st: State, m: ForkMemory)
    requires Valid(st) && FreshThree(st, m.space, m.code, m.heap) && HasSpace(m)
    ensures var (s1, made) := Create(st, m.space, m.code, m.heap);
            && made && Valid(s1) && m.space.value !in st.spaces
            && s1.spaces == st.spaces[m.space.value := Space(m.code.value, m.heap.value, m.code.value, m.heap.value, None)]
            && s1.groups == st.groups
            && (forall u :: u in st.spaces ==> u != m.space.value && Shares(s1.spaces, s1.groups, u) == Shares(st.spaces, st.groups, u))
  {
    hide OneOwner, FramesOk, GroupsOk, RefsOk, SpacesOk, EmptyTable;
    CreateValid(st, m.space, m.code, m.heap);
  }

  /** Whatever memory it gets, a fork shows every other process what it saw, and its child what the parent sees. */
  lemma ForkSpacesShow(st: State, parent: Addr, m: ForkMemory)
    requires Valid(st) && parent in st.spaces && FreshFork(st, parent, m)
    ensures var (st2, ok) := ForkSpaces(st, parent, m);
            && Valid(st2) && (ok <==> HasSpace(m) && (m.group.Some? || Shares(st.spaces, st.groups, parent)) && m.stack)
            && (forall u :: u in st.spaces ==> u in st2.spaces && Abs(st2)[u] == Abs(st)[u])
            && (ok ==> m.space.value in st2.spaces && Abs(st2)[m.space.value] == Abs(st)[parent])
  {
    hide Valid, ViewOf, Share, Destroy, Shares;
    CreateValid(st, m.space, m.code, m.heap);
    CreateViews(st, m.space, m.code, m.heap);
    if HasSpace(m) {
      CreatedFacts(st, m);
      var s1 := Create(st, m.space, m.code, m.heap).0;
      ShareRefines(s1, m.space.value, parent, m.group);
      var (s2, shared) := Share(s1, m.space.value, parent, m.group);
      if !shared {
        DestroyValid(s2, m.space.value);
        DestroyViews(s2, m.space.value);
      }
    }
  }

  /** A fork that fails changes nothing exactly when it got no space at all, or a whole one and no group for a parent in none. */
  lemma FailedForkIff(st: State, parent: Addr, m: ForkMemory)
    requires Valid(st) && parent in st.spaces && FreshFork(st, parent, m) && !ForkSpaces(st, parent, m).1
    ensures ForkSpaces(st, parent, m).0 == st <==>
            m.space == None || (HasSpace(m) && m.group == None && st.spaces[parent].cow == None)
  {
    hide OneOwner, FramesOk, GroupsOk, RefsOk, SpacesOk;
    CreateValid(st, m.space, m.code, m.heap);
    if HasSpace(m) {
      CreatedFacts(st, m);
      FailedShare(st, parent, m);
    } else if m.space.Some? {
      assert m.space.value in Create(st, m.space, m.code, m.heap).0.live;
    }
  }

  lemma FailedShare(st: State, parent: Addr, m: ForkMemory)
    requires Valid(st) && parent in st.spaces && FreshFork(st, parent, m) && HasSpace(m)
    ensures ForkSpaces(st, parent, m).0 == st <==> m.group == None && st.spaces[parent].cow == None
  {
    hide OneOwner, FramesOk, GroupsOk, RefsOk, SpacesOk, EmptyTable;
    var c := m.space.value;
    CreatedFacts(st, m);
    var s1 := Create(st, m.space, m.code, m.heap).0;
    ShareRefines(s1, c, parent, m.group);
    var (s2, shared) := Share(s1, c, parent, m.group);
    if shared {
      assert c in s2.spaces && c !in st.spaces;
    } else {
      DestroyValid(s2, c);
      LeftValid(s1, parent);
      if st.spaces[parent].cow == None {
        assert s2 == s1;
        GivenBack(st, m, s1);
      } else {
        LeftTables(s1, parent);
        assert s2.spaces[parent].cow == None && Destroy(s2, c).spaces[parent] == s2.spaces[parent];
      }
    }
  }

  /** A space made and destroyed at once. */
  lemma GivenBack(st: State, m: ForkMemory, s1: State)
    requires Valid(st) && FreshThree(st, m.space, m.code, m.heap) && HasSpace(m) && s1 == Create(st, m.space, m.code, m.heap).0
    ensures Destroy.requires(s1, m.space.value) && Destroy(s1, m.space.value) == st
  {
    hide OneOwner, FramesOk, GroupsOk, RefsOk, SpacesOk, EmptyTable;
    var c, s2 := m.space.value, Destroy(s1, m.space.value);
    NotShared(s1, c);
    assert s2.spaces == st.spaces && s2.tables == st.tables && s2.live == st.live;
  }

  lemma CreatedStrandable(st: State, m: ForkMemory, s: Addr, p: nat)
    requires Valid(st) && FreshThree(st, m.space, m.code, m.heap) && HasSpace(m) && s in st.spaces
    ensures Strandable(Create(st, m.space, m.code, m.heap).0, s, p) <==> Strandable(st, s, p)
  {
    hide OneOwner, FramesOk, GroupsOk, RefsOk, SpacesOk, EmptyTable;
    CreatedFacts(st, m);
    SpaceIsOk(st, s);
  }

  /** And what a fork, failed or not, does to the pages its parent can write. */
  lemma ForkSpacesStuck(st: State, parent: Addr, m: ForkMemory, s: Addr, p: nat)
    requires Valid(st) && parent in st.spaces && FreshFork(st, parent, m) && s in st.spaces && p < 1024
    ensures Stuck(ForkSpaces(st, parent, m).0, s, p) <==>
            if !HasSpace(m) then Stuck(st, s, p)
            else if m.group.Some? || Shares(st.spaces, st.groups, parent) then Stuck(st, s, p) && s != parent
            else Stuck(st, s, p) || (s == parent && Strandable(st, s, p))
  {
    hide OneOwner, FramesOk, GroupsOk, RefsOk, SpacesOk, Domains, Share, Destroy, Stuck, Strandable, Shares, EmptyTable;
    CreateValid(st, m.space, m.code, m.heap);
    CreateStuck(st, m.space, m.code, m.heap, s, p);
    if HasSpace(m) {
      CreatedFacts(st, m);
      var c, s1 := m.space.value, Create(st, m.space, m.code, m.heap).0;
      ShareRefines(s1, c, parent, m.group);
      var (s2, shared) := Share(s1, c, parent, m.group);
      if shared {
        SharedStuck(s1, c, parent, m.group, s, p);
      } else {
        StarvedStuck(s1, c, parent, s, p);
        CreatedStrandable(st, m, s, p);
        DestroyValid(s2, c);
        DestroyStuck(s2, c, s, p);
      }
    }
  }

  /** A fork of a process with two pages that gets everything but the kernel stack: the space it made stays, in a group with the parent. */
  lemma FailedSpacesExample() returns (st: State)
    ensures Valid(INIT) && AllowedRun(INIT, MapTwo()) && st == Run(INIT, MapTwo()).0 && Valid(st) && 1 in st.spaces
    ensures var m := ForkMemory(Some(6), Some(7), Some(8), Some(9), false);
            FreshFork(st, 1, m) && !ForkSpaces(st, 1, m).1 && ForkSpaces(st, 1, m).0 != st
  {
    hide ForkSpaces, Run, AllowedRun, MapTwo;
    st := TwoMapped();
    ValidTwo(st);
    var m := ForkMemory(Some(6), Some(7), Some(8), Some(9), false);
    ForkSpacesShow(st, 1, m);
    FailedForkIff(st, 1, m);
  }
}
