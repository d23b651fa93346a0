/**
 Single pages in and out of an address space (src/kernel/pgtable.rs, src/kernel/page.rs): taking and giving back,
 mapping one page, unmapping the end of the heap. The lemmas of module Spaces about values.
 */
module Placement {
  import opened Wrappers
  import opened Words
  import opened Pages
  import opened PageTables
  import opened Mmu
  import opened Ownership
  import opened Memories

  const RAM_BASE: nat := 0x8000_0000
  const USER_RW: nat := PTE_R + PTE_W + PTE_U

  /** All pages of the allocator. */
  ghost function Managed(pages: PageAllocator): set<nat> {
    set i | 0 <= i < pages.totalPages :: pages.PageAddr(i)
  }

  lemma ManagedIs(pages: PageAllocator, pa: nat)
    ensures pa in Managed(pages) <==> pages.IsPage(pa)
  {
    if pages.IsPage(pa) {
      var i := pages.PageIndex(pa);
      assert pages.PageAddr(i) in Managed(pages);
    }
  }

  lemma ManagedAligned(pages: PageAllocator, pa: nat)
    requires pages.startAddr % PAGE_SIZE == 0 && pages.startAddr / PAGE_SIZE + pages.totalPages <= PPN_LIMIT
    requires pa in Managed(pages)
    ensures PageAligned(pa) && pages.startAddr <= pa
  {
    var i :| 0 <= i < pages.totalPages && pa == pages.PageAddr(i);
    assert pa / PAGE_SIZE == pages.startAddr / PAGE_SIZE + i;
  }

  lemma FreeManaged(pages: PageAllocator)
    requires pages.Valid()
    ensures pages.FreeAddrs() <= Managed(pages)
  {
  }

  // ---- Free pages ----

  lemma FreeParts(w: World)
    requires WorldOk(w)
    ensures w.free !! w.uses.Keys && w.free <= w.managed && w.uses.Keys <= w.managed && w.trees.Keys == w.spaces.Keys
  {
  }

  lemma TakeKeeps(w: World, pa: nat, b: Bytes)
    requires WorldOk(w) && BytesOk(w, b) && pa in w.free
    ensures WorldOk(w.(free := w.free - {pa})) && BytesOk(w.(free := w.free - {pa}), b)
    ensures InHand(w.(free := w.free - {pa})) == InHand(w) + {pa}
  {
    SameButFree(w, w.(free := w.free - {pa}));
    forall p | DataPage(w.(free := w.free - {pa}), p)
      ensures p in b && |b[p]| == PAGE_SIZE
    {
      assert DataPage(w, p);
    }
  }

  lemma GiveKeeps(w: World, pa: nat, b: Bytes)
    requires WorldOk(w) && BytesOk(w, b) && pa in InHand(w)
    ensures WorldOk(w.(free := w.free + {pa})) && BytesOk(w.(free := w.free + {pa}), b)
    ensures InHand(w.(free := w.free + {pa})) == InHand(w) - {pa}
  {
    SameButFree(w, w.(free := w.free + {pa}));
    forall p | DataPage(w.(free := w.free + {pa}), p)
      ensures p in b && |b[p]| == PAGE_SIZE
    {
      assert DataPage(w, p);
    }
  }

  /** Which pages are free says nothing about the tasks. */
  lemma SameButFree(w: World, w': World)
    requires WorldOk(w) && w' == w.(free := w'.free) && w'.free !! w.uses.Keys && w'.free <= w.managed
    ensures WorldOk(w')
  {
    hide TreeOk, LeafAt, AddrOf, PteToPa, IsValid, AlignUp, AlignDown, PaToPte;
    forall pa | pa in w'.uses
      ensures UseOk(w', pa)
    {
      UseAt(w, pa);
    }
    forall id | id in w'.spaces
      ensures SpaceOk(w', id)
    {
      SpaceAt(w, id);
      SpaceSame(w, w', id);
    }
  }

  lemma SpaceSame(w: World, w': World, id: nat)
    requires id in w.spaces && SpaceOk(w, id) && w' == w.(free := w'.free)
    ensures SpaceOk(w', id)
  {
    hide TreeOk, LeafAt, AddrOf, PteToPa, IsValid, AlignUp, AlignDown, PaToPte;
    forall n | n in w'.trees[id].node
      ensures UsedAs(w', n, id, Table)
    {
      assert UsedAs(w, n, id, Table);
    }
    forall v: Vpn | v.v0 < ENTRIES
      ensures EntryOk(w', id, v)
    {
      assert EntryOk(w, id, v);
    }
  }

  // ---- Mapping a page ----

  /**
   A page p may be mapped at v: behind the image or the heap, in a hole of the image, or as the stack. s' is the
   record after it.
   */
  ghost predicate Placeable(w: World, id: nat, v: Vpn, s': Space, role: Role, p: nat, flags: nat)
    requires id in w.spaces
  {
    var s := w.spaces[id];
    || (OneFurther(s, s', v) && role == Data(v))
    || (InUser(s, v) && !InHeap(s, v) && s' == s && role == Data(v))
    || (v == VpnOf(STACK_PAGE) && s.userStack == 0 && s' == s.(userStack := p) && role == UserStack && flags == USER_RW)
  }

  /**
   From w to w' task id got tables, and the pages `placed` for the role; its record became s'. Nothing else changed.
   */
  ghost predicate Grown(w: World, w': World, id: nat, s': Space, placed: set<nat>, role: Role) {
    && OnlyTask(w, w', id) && id in w.spaces && w'.spaces == w.spaces[id := s'] && w'.free <= w.free
    && (forall pa {:trigger pa in w.uses} :: pa in w.uses ==> pa in w'.uses && w'.uses[pa] == w.uses[pa])
    && (forall pa {:trigger pa in w'.uses} :: pa in w'.uses && pa !in w.uses ==>
        w'.uses[pa] == if pa in placed then Use(id, role) else Use(id, Table))
    && placed <= w'.uses.Keys && InHand(w') == InHand(w) - placed
  }

  /** The map of task id differs at most at v, where it is pte. */
  ghost predicate MapsAt(w: World, w': World, id: nat, v: Vpn, pte: nat) {
    HasTree(w, id) && HasTree(w', id)
    && forall u: Vpn {:trigger Leaf(w', id, u)} :: u.v0 < ENTRIES ==> Leaf(w', id, u) == if u == v then pte
        else Leaf(w, id, u)
  }

  ghost predicate MapsSame(w: World, w': World, id: nat) {
    HasTree(w, id) && HasTree(w', id)
    && forall u: Vpn {:trigger Leaf(w', id, u)} :: u.v0 < ENTRIES ==> Leaf(w', id, u) == Leaf(w, id, u)
  }

  lemma GrownBytes(w: World, w': World, id: nat, s': Space, placed: set<nat>, role: Role, b: Bytes)
    requires Grown(w, w', id, s', placed, role) && BytesOk(w, b)
    requires forall pa :: pa in placed ==> pa in b && |b[pa]| == PAGE_SIZE
    ensures BytesOk(w', b)
  {
    hide OnlyTask;
    forall pa | DataPage(w', pa)
      ensures pa in b && |b[pa]| == PAGE_SIZE
    {
      assert pa in w.uses ==> DataPage(w, pa);
    }
  }

  lemma PlacedGrown(w: World, id: nat, tables': Tables, t': Tree, s': Space, p: nat, role: Role)
    requires WorldOk(w) && id in w.spaces && p in InHand(w) && s'.root == t'.root
    requires Touched(w.tables, w.trees[id], w.free, tables', t', w.free - (t'.node.Keys - w.trees[id].node.Keys))
    ensures var w1 := Regrown(w, id, tables', t', s'); Grown(w, w1.(uses := w1.uses[p := Use(id, role)]), id, s', {p},
              role)
  {
    hide WorldOk, TreeOk, OnlyTask, Touched, Regrown;
    FreeParts(w);
    TouchedFrom(w, id, tables', t');
    RegrownOnly(w, id, tables', t', s');
    var w1 := Regrown(w, id, tables', t', s');
    NotFresh(w, id, tables', t', s', p);
    OneUseOnly(w, w1, w1.(uses := w1.uses[p := Use(id, role)]), id, p, role);
    RegrownHand(w, id, tables', t', s');
    assert InHand(w1.(uses := w1.uses[p := Use(id, role)])) == InHand(w1) - {p};
  }

  lemma RegrownGrown(w: World, id: nat, tables': Tables, t': Tree)
    requires WorldOk(w) && id in w.spaces && w.spaces[id].root == t'.root
    requires Touched(w.tables, w.trees[id], w.free, tables', t', w.free - (t'.node.Keys - w.trees[id].node.Keys))
    ensures Grown(w, Regrown(w, id, tables', t', w.spaces[id]), id, w.spaces[id], {}, Table)
  {
    hide WorldOk, TreeOk, OnlyTask, Touched;
    FreeParts(w);
    TouchedFrom(w, id, tables', t');
    RegrownOnly(w, id, tables', t', w.spaces[id]);
    RegrownHand(w, id, tables', t', w.spaces[id]);
  }

  lemma RegrownHand(w: World, id: nat, tables': Tables, t': Tree, s': Space)
    requires id in w.trees && t'.node.Keys - w.trees[id].node.Keys <= w.free && w.free !! w.uses.Keys
    ensures var w1 := Regrown(w, id, tables', t', s');
            && InHand(w1) == InHand(w) && w1.spaces == w.spaces[id := s'] && w1.free <= w.free
            && w1.managed == w.managed
  {
  }

  lemma PlacedKeeps(w: World, id: nat, tables': Tables, t': Tree, s': Space, v: Vpn, p: nat, flags: nat, role: Role)
    requires WorldOk(w) && id in w.spaces && flags < FLAGS && Placeable(w, id, v, s', role, p, flags)
    requires Touched(w.tables, w.trees[id], w.free, tables', t', w.free - (t'.node.Keys - w.trees[id].node.Keys))
    requires p in InHand(w) && PageAligned(p) && TreeOk(w.tables, w.trees[id]) && TreeOk(tables', t') && v.v0 < ENTRIES
    requires !IsValid(LeafAt(w.tables, w.trees[id], v))
    requires forall u: Vpn {:trigger LeafAt(tables', t', u)} :: u.v0 < ENTRIES ==>
               LeafAt(tables', t', u) == if u == v then PaToPte(p, SetValid(flags))
                   else LeafAt(w.tables, w.trees[id], u)
    ensures var w1 := Regrown(w, id, tables', t', s'); WorldOk(w1.(uses := w1.uses[p := Use(id, role)]))
  {
    hide WorldOk, TreeOk, LeafAt, Touched, Regrown, PaToPte, VpnOf, IsValid, OneFurther, InUser, InHeap;
    if role == UserStack {
      assert SetValid(flags) == PTE_R + PTE_W + PTE_U + PTE_V by { StackFlagsValid(); }
      StackKeeps(w, id, tables', t', p);
    } else if OneFurther(w.spaces[id], s', v) {
      MapKeeps(w, id, tables', t', s', v, p, SetValid(flags));
    } else {
      MapInsideKeeps(w, id, tables', t', v, p, SetValid(flags));
    }
  }

  lemma StackFlagsValid()
    ensures SetValid(USER_RW) == PTE_R + PTE_W + PTE_U + PTE_V
  {
  }

  lemma MappedOne(tables: Tables, t: Tree, tables': Tables, t': Tree, va: nat, pa: nat, flags: nat)
    requires TreeOk(tables, t) && TreeOk(tables', t') && flags < FLAGS
    requires MappedTo(tables, t, tables', t', va, pa, flags, 1)
    ensures !IsValid(LeafAt(tables, t, VpnOf(va)))
    ensures forall u: Vpn {:trigger LeafAt(tables', t', u)} :: u.v0 < ENTRIES ==>
              LeafAt(tables', t', u) == if u == VpnOf(va) then PaToPte(pa, SetValid(flags)) else LeafAt(tables, t, u)
  {
    hide TreeOk, LeafAt, PaToPte, SetValid, VpnOf, IsValid;
    assert Page(va, 0) == VpnOf(va);
    assert PageRange(va, 1) == {Page(va, 0)} by { assert PageRange(va, 0) == {}; }
  }

  lemma MappedNothing(tables: Tables, t: Tree, tables': Tables, t': Tree, va: nat, pa: nat, flags: nat)
    requires TreeOk(tables, t) && TreeOk(tables', t') && flags < FLAGS
    requires MappedTo(tables, t, tables', t', va, pa, flags, 0)
    ensures SameMap(tables, t, tables', t') && Page(va, 0) == VpnOf(va)
  {
    hide TreeOk, LeafAt, PaToPte, SetValid, VpnOf, IsValid;
  }

  lemma GrownFree(tables: Tables, t: Tree, free: set<nat>, tables': Tables, t': Tree, free': set<nat>)
    requires Touched(tables, t, free, tables', t', free')
    ensures free' == free - (t'.node.Keys - t.node.Keys) && TreeOk(tables, t) && TreeOk(tables', t')
    ensures t'.root == t.root
  {
  }

  lemma RegrownParts(w: World, id: nat, tables': Tables, t': Tree, s': Space)
    requires id in w.trees && id in w.spaces && TreeOk(tables', t') && t'.root == s'.root
    ensures var w' := Regrown(w, id, tables', t', s');
            && w'.tables == tables' && w'.free == w.free - (t'.node.Keys - w.trees[id].node.Keys)
                && w'.managed == w.managed && HasTree(w', id)
            && w'.trees == w.trees[id := t']
  {
  }

  lemma GrownNothing(w: World, w': World, id: nat, s': Space, role: Role, role': Role)
    requires Grown(w, w', id, s', {}, role)
    ensures Grown(w, w', id, s', {}, role')
  {
  }

  /** A page mapped where nothing was mapped is not the kernel's. */
  lemma KernelMapsAt(w: World, w': World, id: nat, v: Vpn, pte: nat)
    requires KernelThere(w, id) && MapsAt(w, w', id, v, pte) && v.v0 < ENTRIES && !IsValid(Leaf(w, id, v))
    ensures KernelThere(w', id)
  {
    hide TreeOk, LeafAt, PteToPa, IsValid, AddrOf, KernelAddr;
    forall u: Vpn | u.v0 < ENTRIES && VpnOk(u) && KernelAddr(AddrOf(u))
      ensures IsValid(Leaf(w', id, u)) && PteToPa(Leaf(w', id, u)) == AddrOf(u)
    {
      assert u != v ==> Leaf(w', id, u) == Leaf(w, id, u);
      assert IsValid(Leaf(w, id, u));
    }
  }

  lemma KernelMapsSame(w: World, w': World, id: nat)
    requires KernelThere(w, id) && MapsSame(w, w', id)
    ensures KernelThere(w', id)
  {
    hide TreeOk, LeafAt, PteToPa, IsValid, AddrOf, KernelAddr;
    forall u: Vpn | u.v0 < ENTRIES && VpnOk(u) && KernelAddr(AddrOf(u))
      ensures IsValid(Leaf(w', id, u)) && PteToPa(Leaf(w', id, u)) == AddrOf(u)
    {
      assert Leaf(w', id, u) == Leaf(w, id, u);
    }
  }

  // ---- Unmapping the end of the heap ----

  /** The record with a lower end of the heap. */
  ghost predicate Shorter(s: Space, s': Space) {
    Layout(s') && s' == s.(heapEnd := s'.heapEnd) && MappedEnd(s') <= MappedEnd(s)
  }

  lemma ShorterShrunk(s: Space, s': Space)
    requires Shorter(s, s')
    ensures Shrunk(s, s')
  {
  }

  /** The map of task id is as before but for the pages that the record s' drops, which are not mapped. */
  ghost predicate DropsMap(w: World, w': World, id: nat, s': Space) {
    HasTree(w, id) && HasTree(w', id)
    && forall u: Vpn {:trigger Leaf(w', id, u)} :: u.v0 < ENTRIES ==>
         if Dropped(w.spaces[id], s', u) then !IsValid(Leaf(w', id, u)) else Leaf(w', id, u) == Leaf(w, id, u)
  }

  lemma DroppedIs(s: Space, s': Space, from: nat, n: nat, v: Vpn)
    requires Layout(s) && Shorter(s, s') && from == MappedEnd(s') && from + n * PAGE_SIZE == MappedEnd(s)
    ensures v in PageRange(from, n) <==> Dropped(s, s', v)
    ensures v in PageRange(from, n) ==> InHeap(s, v)
  {
    hide Page, VpnOf;
    EndBound(s);
    assert AlignDown(s.imageBase) <= s.imageBase <= s.heapBase <= from;
    if v in PageRange(from, n) { var i := InRange(from, n, v); }
    hide AlignUp, AlignDown, AddrOf;
    if VpnOk(v) { RangeIs(from, n, v); }
  }

  lemma ShorterRange(s: Space, s': Space)
    requires Layout(s) && Shorter(s, s')
    ensures MappedEnd(s') + (MappedEnd(s) - MappedEnd(s')) / PAGE_SIZE * PAGE_SIZE == MappedEnd(s)
    ensures MappedEnd(s') % PAGE_SIZE == 0
    ensures MappedEnd(s') < MappedEnd(s) ==> MappedEnd(s) - MappedEnd(s') != 0
  {
  }

  /** The heap's pages are mapped, and are no tables. */
  lemma HeapPage(w: World, id: nat, v: Vpn)
    requires WorldOk(w) && id in w.spaces && InHeap(w.spaces[id], v)
    ensures HasTree(w, id) && IsValid(Leaf(w, id, v)) && PteToPa(Leaf(w, id, v)) in w.managed
    ensures UsedAs(w, PteToPa(Leaf(w, id, v)), id, Data(v)) && PteToPa(Leaf(w, id, v)) !in w.trees[id].node
  {
    hide TreeOk, LeafAt, PteToPa, PaToPte, AddrOf, AlignUp, AlignDown;
    SpaceAt(w, id);
    EntryAt(w, id, v);
    HeapInUser(w.spaces[id], v);
    assert PteToPa(Leaf(w, id, v)) in w.trees[id].node ==> UsedAs(w, PteToPa(Leaf(w, id, v)), id, Table);
  }

  lemma HeapInUser(s: Space, v: Vpn)
    requires Layout(s) && InHeap(s, v)
    ensures InUser(s, v)
  {
  }

  lemma HeapRange(w: World, id: nat, s': Space, from: nat, n: nat)
    requires WorldOk(w) && id in w.spaces && Shorter(w.spaces[id], s')
    requires from == MappedEnd(s') <= MappedEnd(w.spaces[id])
    requires n == (MappedEnd(w.spaces[id]) - from) / PAGE_SIZE
    ensures HasTree(w, id) && from % PAGE_SIZE == 0 && from + n * PAGE_SIZE == MappedEnd(w.spaces[id])
    ensures forall v {:trigger v in PageRange(from, n)} :: v in PageRange(from, n) ==>
              IsValid(LeafAt(w.tables, w.trees[id], v))
                  && PteToPa(LeafAt(w.tables, w.trees[id], v)) !in w.trees[id].node
  {
    hide TreeOk, LeafAt, PteToPa, InHeap, Dropped;
    SpaceAt(w, id);
    SpaceParts(w, id);
    ShorterRange(w.spaces[id], s');
    hide WorldOk, SpaceOk, Shorter;
    forall v | v in PageRange(from, n)
      ensures IsValid(LeafAt(w.tables, w.trees[id], v))
      ensures PteToPa(LeafAt(w.tables, w.trees[id], v)) !in w.trees[id].node
    {
      DroppedIs(w.spaces[id], s', from, n, v);
      HeapPage(w, id, v);
      assert Leaf(w, id, v) == LeafAt(w.tables, w.trees[id], v);
    }
  }

  lemma HeapUnmapped(w: World, id: nat, s': Space, from: nat, n: nat, tables': Tables)
    requires WorldOk(w) && id in w.spaces && Shorter(w.spaces[id], s') && from == MappedEnd(s')
    requires from + n * PAGE_SIZE == MappedEnd(w.spaces[id])
    requires HasTree(w, id) && TreeOk(tables', w.trees[id])
    requires Changed(w.tables, tables', w.trees[id], PageRange(from, n), Unmapped)
    ensures forall u: Vpn {:trigger LeafAt(tables', w.trees[id], u)} :: u.v0 < ENTRIES ==>
              if Dropped(w.spaces[id], s', u) then !IsValid(LeafAt(tables', w.trees[id], u))
              else LeafAt(tables', w.trees[id], u) == LeafAt(w.tables, w.trees[id], u)
  {
    hide TreeOk, LeafAt, Dropped, Shorter, MappedEnd;
    SpaceAt(w, id);
    SpaceParts(w, id);
    hide WorldOk, SpaceOk;
    forall u: Vpn | u.v0 < ENTRIES
      ensures if Dropped(w.spaces[id], s', u) then !IsValid(LeafAt(tables', w.trees[id], u))
              else LeafAt(tables', w.trees[id], u) == LeafAt(w.tables, w.trees[id], u)
    {
      DroppedIs(w.spaces[id], s', from, n, u);
      EmptiedTwice(LeafAt(w.tables, w.trees[id], u));
      assert Apply(Unmapped, LeafAt(w.tables, w.trees[id], u)) == Emptied(LeafAt(w.tables, w.trees[id], u));
    }
  }

  /** A page belongs to the dropped part when a dropped entry maps it. */
  lemma GoneIs(w: World, id: nat, s': Space, pa: nat)
    requires WorldOk(w) && id in w.spaces
    ensures HasTree(w, id)
    ensures pa in Gone(w, id, s') ==>
              var v := w.uses[pa].role.v;
              Dropped(w.spaces[id], s', v) && v.v0 < ENTRIES && Own(w, id, v) && PteToPa(Leaf(w, id, v)) == pa
    ensures forall v {:trigger Dropped(w.spaces[id], s', v)} ::
              Dropped(w.spaces[id], s', v) && Own(w, id, v) && PteToPa(Leaf(w, id, v)) == pa ==> pa in Gone(w, id, s')
  {
    hide TreeOk, LeafAt, PteToPa, AddrOf, AlignUp, AlignDown;
    SpaceAt(w, id);
    if pa in w.uses { UseAt(w, pa); }
    forall v | Dropped(w.spaces[id], s', v) && Own(w, id, v) && PteToPa(Leaf(w, id, v)) == pa
      ensures pa in Gone(w, id, s')
    {
      EntryAt(w, id, v);
    }
  }

  lemma HeapGone(w: World, id: nat, s': Space, from: nat, n: nat, pages: PageAllocator)
    requires WorldOk(w) && id in w.spaces && Shorter(w.spaces[id], s') && from == MappedEnd(s')
    requires from + n * PAGE_SIZE == MappedEnd(w.spaces[id])
    requires HasTree(w, id) && w.managed == Managed(pages)
    ensures MappedPages(w.tables, w.trees[id], PageRange(from, n), pages) == Gone(w, id, s')
  {
    hide TreeOk, LeafAt, Dropped, Shorter, MappedEnd, PteToPa, Managed, PageAllocator.IsPage;
    SpaceAt(w, id);
    SpaceParts(w, id);
    hide SpaceOk, WorldOk;
    forall pa
      ensures pa in MappedPages(w.tables, w.trees[id], PageRange(from, n), pages) <==> pa in Gone(w, id, s')
    {
      GoneIs(w, id, s', pa);
      ManagedIs(pages, pa);
      if pa in Gone(w, id, s') {
        DroppedIs(w.spaces[id], s', from, n, w.uses[pa].role.v);
      }
      if pa in MappedPages(w.tables, w.trees[id], PageRange(from, n), pages) {
        var v :| v in PageRange(from, n) && IsValid(LeafAt(w.tables, w.trees[id], v))
            && pages.IsPage(PteToPa(LeafAt(w.tables, w.trees[id], v)))
                 && pa == PteToPa(LeafAt(w.tables, w.trees[id], v));
        DroppedIs(w.spaces[id], s', from, n, v);
        assert Leaf(w, id, v) == LeafAt(w.tables, w.trees[id], v);
        assert Own(w, id, v);
      }
    }
  }

  lemma ShrunkFacts(w: World, id: nat, tables': Tables, s': Space, b: Bytes)
    requires WorldOk(w) && id in w.spaces && BytesOk(w, b) && HasTree(w, id) && TreeOk(tables', w.trees[id])
    requires s'.root == w.spaces[id].root
    requires forall u: Vpn {:trigger LeafAt(tables', w.trees[id], u)} :: u.v0 < ENTRIES ==>
               if Dropped(w.spaces[id], s', u) then !IsValid(LeafAt(tables', w.trees[id], u))
               else LeafAt(tables', w.trees[id], u) == LeafAt(w.tables, w.trees[id], u)
    ensures var w' := ShrunkWorld(w, id, tables', s');
            && w'.tables == tables' && w'.free == w.free + Gone(w, id, s') && w'.managed == w.managed
            && InHand(w') == InHand(w) && w'.spaces == w.spaces[id := s'] && DropsMap(w, w', id, s') && BytesOk(w', b)
  {
    hide TreeOk, LeafAt, UseOk, SpaceOk, IsValid;
    FreeParts(w);
    var w' := ShrunkWorld(w, id, tables', s');
    forall pa | DataPage(w', pa)
      ensures pa in b && |b[pa]| == PAGE_SIZE
    {
      assert DataPage(w, pa);
    }
    forall u: Vpn | u.v0 < ENTRIES
      ensures if Dropped(w.spaces[id], s', u) then !IsValid(Leaf(w', id, u)) else Leaf(w', id, u) == Leaf(w, id, u)
    {
      assert Leaf(w', id, u) == LeafAt(tables', w.trees[id], u);
    }
  }

  // ---- The serial port ----

  /** In the tables of task id the entry of the serial port's page has the flags the user needs. */
  ghost predicate PortMapped(w: World, w': World, id: nat) {
    && HasTree(w, id) && HasTree(w', id)
    && IsValid(Leaf(w, id, VpnOf(UART)))
    && MapsAt(w, w', id, VpnOf(UART), PaToPte(PteToPa(Leaf(w, id, VpnOf(UART))), USER_RW + PTE_V))
  }

  lemma PortKernel(w: World, w': World, id: nat)
    requires PortMapped(w, w', id) && KernelThere(w, id)
    ensures KernelThere(w', id)
  {
    hide TreeOk, LeafAt, PteToPa, PaToPte, IsValid, AddrOf, KernelAddr, VpnOf;
    var pa := PteToPa(Leaf(w, id, VpnOf(UART)));
    PteAligned(Leaf(w, id, VpnOf(UART)));
    EntryRoundTrip(pa, USER_RW + PTE_V);
    assert IsValid(USER_RW + PTE_V) by { StackFlagsValid(); }
    forall u: Vpn | u.v0 < ENTRIES && VpnOk(u) && KernelAddr(AddrOf(u))
      ensures IsValid(Leaf(w', id, u)) && PteToPa(Leaf(w', id, u)) == AddrOf(u)
    {
      assert IsValid(Leaf(w, id, u)) && PteToPa(Leaf(w, id, u)) == AddrOf(u);
      assert Leaf(w', id, u) == Leaf(w', id, u);
    }
  }

  lemma PortChanged(tables: Tables, t: Tree, tables': Tables)
    requires TreeOk(tables, t) && TreeOk(tables', t)
    requires Changed(tables, tables', t, PageRange(UART, 1), Reflagged(USER_RW))
    requires forall v :: v in PageRange(UART, 1) ==> IsValid(LeafAt(tables, t, v))
    ensures IsValid(LeafAt(tables, t, VpnOf(UART)))
    ensures forall u: Vpn {:trigger LeafAt(tables', t, u)} :: u.v0 < ENTRIES ==>
              LeafAt(tables', t, u) == if u == VpnOf(UART) then
                PaToPte(PteToPa(LeafAt(tables, t, VpnOf(UART))), USER_RW + PTE_V) else LeafAt(tables, t, u)
  {
    hide TreeOk, LeafAt, PaToPte, PteToPa, VpnOf, IsValid;
    assert PageRange(UART, 0) == {} && Page(UART, 0) == VpnOf(UART);
    assert VpnOf(UART) in PageRange(UART, 1);
    StackFlagsValid();
  }

  /** Giving the serial port to a task changes one entry of its table, and nothing for anybody else. */
  lemma PortGiven(w: World, b: Bytes, id: nat, tables': Tables)
    requires WorldOk(w) && BytesOk(w, b) && id in w.spaces
    requires TreeOk(w.tables, w.trees[id]) && TreeOk(tables', w.trees[id])
    requires forall n {:trigger n in w.tables} :: n in w.tables && n !in w.trees[id].node ==>
               n in tables' && tables'[n] == w.tables[n]
    requires Changed(w.tables, tables', w.trees[id], PageRange(UART, 1), Reflagged(USER_RW))
    requires forall v :: v in PageRange(UART, 1) ==> IsValid(LeafAt(w.tables, w.trees[id], v))
    ensures var w' := Chosen(w, id).(tables := tables');
            WorldOk(w') && BytesOk(w', b) && OthersKept(w, b, w', b, id) && InHand(w') == InHand(w)
                && PortMapped(w, w', id)
  {
    hide TreeOk, NodeOk, LeafAt, WorldOk, Changed, VpnOf, PteToPa, PaToPte, IsValid;
    TreeThere(w, id);
    ChosenKeeps(w, id);
    PortChanged(w.tables, w.trees[id], tables');
    var w1 := Chosen(w, id);
    assert IsValid(USER_RW + PTE_V) by { StackFlagsValid(); }
    PortKeeps(w1, id, tables', USER_RW + PTE_V);
    var w' := w1.(tables := tables');
    ChosenKept(w, b, id);
    BytesFree(w, w1, b);
    UsedAll(w1, b);
    OnlyTaskOthers(w1, b, w', b, id);
    OthersThrough(w, b, w1, b, w', b, id);
    BytesFree(w, w', b);
  }

  lemma ChosenKept(w: World, b: Bytes, id: nat)
    requires WorldOk(w) && id in w.spaces
    ensures OthersKept(w, b, Chosen(w, id), b, id)
  {
    hide TreeOk, LeafAt, SpaceOk, UseOk;
    forall o | o in w.spaces && o != id
      ensures Kept(w, b, Chosen(w, id), b, o)
    {
      assert o in w.trees.Keys;
    }
  }

  lemma BytesFree(w: World, w': World, b: Bytes)
    requires BytesOk(w, b) && w'.uses == w.uses
    ensures BytesOk(w', b)
  {
    forall pa | DataPage(w', pa)
      ensures pa in b && |b[pa]| == PAGE_SIZE
    {
      assert DataPage(w, pa);
    }
  }

  lemma UsedAll(w: World, b: Bytes)
    ensures UsedSame(w, b, b)
  {
  }

  lemma OthersThrough(wa: World, ba: Bytes, wb: World, bb: Bytes, wc: World, bc: Bytes, id: nat)
    requires OthersKept(wa, ba, wb, bb, id) && OthersKept(wb, bb, wc, bc, id) && wb.spaces == wa.spaces
    ensures OthersKept(wa, ba, wc, bc, id)
  {
    hide Kept;
    forall o | o in wa.spaces && o != id
      ensures Kept(wa, ba, wc, bc, o)
    {
      assert Kept(wa, ba, wb, bb, o) && Kept(wb, bb, wc, bc, o);
      KeptBoth(wa, ba, wb, bb, wc, bc, o);
    }
  }
}
