/**
 What `free_user_space` does (src/kernel/task.rs): a task's pages go back one by one, from the first page of its image
 on.
 */
module Teardown {
  import opened Wrappers
  import opened Words
  import opened Pages
  import opened PageTables
  import opened Mmu
  import opened Ownership
  import opened Memories
  import opened Placement
  import opened HeapMoves

  // ---- Freeing a task's memory from its first page on ----

  /** The record with the image, and then the heap, beginning at va. */
  function Cut(s: Space, va: nat): Space {
    if va <= s.heapBase then s.(imageBase := va, imageSize := s.heapBase - va)
    else s.(imageBase := va, imageSize := 0, heapBase := va, heapEnd := if s.heapEnd < va then va else s.heapEnd)
  }

  predicate Cuttable(s: Space, va: nat) {
    Layout(s) && AlignDown(s.imageBase) <= va <= MappedEnd(s) && va % PAGE_SIZE == 0
  }

  lemma CutAligned(s: Space, va: nat)
    requires Cuttable(s, va)
    ensures va % PAGE_SIZE == 0
  {
  }

  lemma CutFacts(s: Space, va: nat)
    requires Cuttable(s, va)
    ensures var c := Cut(s, va);
            && Layout(c) && MappedEnd(c) == MappedEnd(s) && AlignDown(c.imageBase) == va
            && c.root == s.root && c.userStack == s.userStack && c.kernelStack == s.kernelStack
    ensures s.heapBase <= Cut(s, va).heapBase
  {
    EndBound(s);
    assert MappedEnd(s) % PAGE_SIZE == 0;
  }

  lemma CutStep(s: Space, va: nat)
    requires Cuttable(s, va) && va + PAGE_SIZE <= MappedEnd(s)
    ensures Cuttable(s, va + PAGE_SIZE) && Shrunk(Cut(s, va), Cut(s, va + PAGE_SIZE))
    ensures Cut(s, va).root == s.root == Cut(s, va + PAGE_SIZE).root
    ensures va + PAGE_SIZE <= HEAP_LIMIT && AddrOf(VpnOf(va)) == va
    ensures forall v {:trigger Dropped(Cut(s, va), Cut(s, va + PAGE_SIZE), v)} :: Dropped(Cut(s, va),
              Cut(s, va + PAGE_SIZE), v) <==> v == VpnOf(va)
  {
    hide AddrOf, VpnOf, AlignUp, AlignDown;
    CutFacts(s, va);
    assert Cuttable(s, va + PAGE_SIZE) by { OneMore(va, va + PAGE_SIZE); }
    CutFacts(s, va + PAGE_SIZE);
    EndBound(s);
    AddrIndices(va);
    var c, d := Cut(s, va), Cut(s, va + PAGE_SIZE);
    assert c.heapBase <= d.heapBase;
    hide Cut;
    forall v: Vpn
      ensures Dropped(c, d, v) <==> v == VpnOf(va)
    {
      if VpnOk(v) {
        IndicesAddr(v);
        NextPage(AddrOf(v), va);
        if AddrOf(v) == va { SameAddr(v, VpnOf(va)); }
      }
    }
  }

  lemma NextPage(a: nat, va: nat)
    requires a % PAGE_SIZE == 0 && va % PAGE_SIZE == 0
    ensures va <= a < va + PAGE_SIZE <==> a == va
  {
  }

  lemma CutStart(w: World, id: nat)
    requires WorldOk(w) && id in w.spaces
    ensures var s := w.spaces[id];
            && Layout(s) && Cuttable(s, AlignDown(s.imageBase)) && AlignUp(s.imageBase + s.imageSize) == s.heapBase
                && AlignDown(s.imageBase) <= s.heapBase <= MappedEnd(s)
  {
    hide TreeOk, EntryOk, LeafAt, UseOk;
    SpaceAt(w, id);
  }

  lemma CutSpan(s: Space)
    requires Layout(s)
    ensures AlignUp(s.heapEnd) == MappedEnd(s) && s.heapBase <= MappedEnd(s) && Cuttable(s, s.heapBase)
    ensures AlignUp(s.imageBase + s.imageSize) == s.heapBase
    ensures MappedEnd(s) % PAGE_SIZE == 0
  {
  }

  lemma RecutKeeps(w: World, id: nat, b: Bytes)
    requires WorldOk(w) && BytesOk(w, b) && id in w.spaces
    ensures var s := w.spaces[id];
            var w' := w.(spaces := w.spaces[id := Cut(s, AlignDown(s.imageBase))]);
            WorldOk(w') && BytesOk(w', b) && OnlyTask(w, w', id) && InHand(w') == InHand(w)
                && w'.free + Owned(w', id) == w.free + Owned(w, id)
  {
    hide TreeOk, LeafAt, AddrOf, WorldOk, UseOk, SpaceOk;
    TreeThere(w, id);
    FreeParts(w);
    CutStart(w, id);
    var s := w.spaces[id];
    var s' := Cut(s, AlignDown(s.imageBase));
    CutFacts(s, AlignDown(s.imageBase));
    var w' := w.(spaces := w.spaces[id := s']);
    hide Cut, AlignUp, AlignDown;
    assert Gone(w, id, s') == {};
    assert ShrunkWorld(w, id, w.tables, s') == w' by {
      assert w.uses - {} == w.uses && w.free + {} == w.free;
    }
    ShrinkKeeps(w, id, w.tables, s');
    ShrinkOnly(w, id, w.tables, s');
    LessBytes(w, w', b);
    assert Owned(w', id) == Owned(w, id);
  }

  lemma LessBytes(w: World, w': World, b: Bytes)
    requires BytesOk(w, b) && forall pa {:trigger pa in w'.uses} :: pa in w'.uses ==>
               pa in w.uses && w'.uses[pa] == w.uses[pa]
    ensures BytesOk(w', b)
  {
    forall pa | DataPage(w', pa)
      ensures pa in b && |b[pa]| == PAGE_SIZE
    {
      assert DataPage(w, pa);
    }
  }

  /** What the lowest page of a task maps is no table. */
  lemma LowestEntry(w: World, id: nat, s: Space, va: nat)
    requires WorldOk(w) && id in w.spaces && w.spaces[id] == Cut(s, va) && Cuttable(s, va)
    requires va + PAGE_SIZE <= MappedEnd(s)
    ensures HasTree(w, id)
    ensures (IsValid(LeafAt(w.tables, w.trees[id], VpnOf(va))) ==>
              PteToPa(LeafAt(w.tables, w.trees[id], VpnOf(va))) !in w.trees[id].node)
  {
    hide TreeOk, LeafAt, PteToPa, IsValid, VpnOf, AddrOf;
    SpaceAt(w, id);
    CutStep(s, va);
    assert Dropped(Cut(s, va), Cut(s, va + PAGE_SIZE), VpnOf(va));
    hide Cut, Cuttable, MappedEnd;
    UserNoTable(w, id, VpnOf(va));
    assert Leaf(w, id, VpnOf(va)) == LeafAt(w.tables, w.trees[id], VpnOf(va));
  }

  lemma UserNoTable(w: World, id: nat, v: Vpn)
    requires WorldOk(w) && id in w.spaces && InUser(w.spaces[id], v)
    ensures HasTree(w, id) && (IsValid(Leaf(w, id, v)) ==> PteToPa(Leaf(w, id, v)) !in w.trees[id].node)
    ensures IsValid(Leaf(w, id, v)) && PteToPa(Leaf(w, id, v)) in w.managed ==>
              UsedAs(w, PteToPa(Leaf(w, id, v)), id, Data(v))
  {
    hide TreeOk, LeafAt, PteToPa, PaToPte, IsValid, AddrOf, AlignUp, AlignDown;
    SpaceAt(w, id);
    EntryAt(w, id, v);
    FreeParts(w);
    assert PteToPa(Leaf(w, id, v)) in w.trees[id].node ==> UsedAs(w, PteToPa(Leaf(w, id, v)), id, Table);
  }

  lemma ClearedMap(tables: Tables, tables': Tables, t: Tree, v: Vpn, entry: nat)
    requires TreeOk(tables, t) && TreeOk(tables', t) && v.v0 < ENTRIES && entry == LeafAt(tables, t, v)
    requires Rewritten(tables, tables', t, v, Emptied(entry))
    ensures Rewritten(tables, tables', t, v, Emptied(LeafAt(tables, t, v)))
  {
  }

  lemma LowestDropped(w: World, id: nat, s: Space, va: nat, tables': Tables)
    requires WorldOk(w) && id in w.spaces && w.spaces[id] == Cut(s, va) && Cuttable(s, va)
    requires va + PAGE_SIZE <= MappedEnd(s)
    requires HasTree(w, id) && TreeOk(tables', w.trees[id])
    requires Rewritten(w.tables, tables', w.trees[id], VpnOf(va), Emptied(LeafAt(w.tables, w.trees[id], VpnOf(va))))
    ensures forall u: Vpn {:trigger LeafAt(tables', w.trees[id], u)} :: u.v0 < ENTRIES ==>
              if Dropped(w.spaces[id], Cut(s, va + PAGE_SIZE), u) then !IsValid(LeafAt(tables', w.trees[id], u))
              else LeafAt(tables', w.trees[id], u) == LeafAt(w.tables, w.trees[id], u)
  {
    hide TreeOk, LeafAt, Dropped, Cut, Cuttable, MappedEnd, VpnOf, WorldOk;
    CutStep(s, va);
    EmptiedTwice(LeafAt(w.tables, w.trees[id], VpnOf(va)));
    forall u: Vpn | u.v0 < ENTRIES
      ensures if Dropped(w.spaces[id], Cut(s, va + PAGE_SIZE), u) then !IsValid(LeafAt(tables', w.trees[id], u))
              else LeafAt(tables', w.trees[id], u) == LeafAt(w.tables, w.trees[id], u)
    {
      assert Dropped(Cut(s, va), Cut(s, va + PAGE_SIZE), u) <==> u == VpnOf(va);
    }
  }

  lemma LowestGone(w: World, id: nat, s: Space, va: nat, pages: PageAllocator)
    requires WorldOk(w) && id in w.spaces && w.spaces[id] == Cut(s, va) && Cuttable(s, va)
    requires va + PAGE_SIZE <= MappedEnd(s)
    requires HasTree(w, id) && w.managed == Managed(pages)
    ensures var pte := LeafAt(w.tables, w.trees[id], VpnOf(va));
            Gone(w, id, Cut(s, va + PAGE_SIZE)) == if IsValid(pte) && pages.IsPage(PteToPa(pte)) then {PteToPa(pte)}
                else {}
  {
    hide TreeOk, LeafAt, Dropped, Cut, Cuttable, MappedEnd, VpnOf, PteToPa, IsValid, Managed, PageAllocator.IsPage,
         WorldOk;
    CutStep(s, va);
    var d, pte := Cut(s, va + PAGE_SIZE), Leaf(w, id, VpnOf(va));
    ManagedIs(pages, PteToPa(pte));
    assert pte == LeafAt(w.tables, w.trees[id], VpnOf(va));
    assert Dropped(w.spaces[id], d, VpnOf(va));
    forall pa
      ensures pa in Gone(w, id, d) <==> IsValid(pte) && PteToPa(pte) in w.managed && pa == PteToPa(pte)
    {
      GoneIs(w, id, d, pa);
      assert pa in Gone(w, id, d) ==> w.uses[pa].role.v == VpnOf(va);
      assert Dropped(w.spaces[id], d, VpnOf(va));
    }
  }

  lemma ShrunkOwned(w: World, id: nat, tables': Tables, s': Space)
    requires id in w.spaces
    ensures var w' := ShrunkWorld(w, id, tables', s'); w'.free + Owned(w', id) == w.free + Owned(w, id)
  {
  }

  /** No image or heap page is left: what the task owns is its tables and its stack. */
  lemma CutEmpty(w: World, id: nat, s: Space)
    requires WorldOk(w) && id in w.spaces && Cuttable(s, MappedEnd(s)) && w.spaces[id] == Cut(s, MappedEnd(s))
    requires s.kernelStack == 0
    ensures id in w.trees && w.spaces[id].root == s.root
    ensures s.userStack != 0 ==> s.userStack in w.managed && s.userStack !in w.trees[id].node && s.userStack !in w.free
    ensures Owned(w, id) == w.trees[id].node.Keys + (if s.userStack != 0 then {s.userStack} else {})
  {
    hide TreeOk, LeafAt, EntryOk;
    CutFacts(s, MappedEnd(s));
    SpaceAt(w, id);
    hide Cut;
    EmptyOwned(w, id);
    assert s.userStack in w.trees[id].node ==> UsedAs(w, s.userStack, id, Table);
  }

  lemma RemovedFacts(w: World, id: nat, b: Bytes)
    requires WorldOk(w) && id in w.spaces && BytesOk(w, b)
    ensures var w' := Removed(w, id);
            && w'.tables == w.tables && w'.managed == w.managed && w'.spaces == w.spaces - {id}
                && w'.free == w.free + Owned(w, id)
            && InHand(w') == InHand(w) && OnlyTask(w, w', id) && BytesOk(w', b)
  {
    hide TreeOk, SpaceOk, UseOk;
    var w' := Removed(w, id);
    assert w'.spaces.Keys + {id} == w.spaces.Keys + {id};
    LessBytes(w, w', b);
  }
}
