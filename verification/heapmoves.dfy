/**
 What `sbrk` does to an address space (src/kernel/task.rs): the heap grows by zeroed pages or shrinks, or all is as
 before.
 */
module HeapMoves {
  import opened Wrappers
  import opened Words
  import opened Pages
  import opened PageTables
  import opened Mmu
  import opened Ownership
  import opened Memories
  import opened Placement

  // ---- Moving the end of the heap ----

  /** The task's record with its heap ending at lo, a page boundary. */
  ghost predicate GrowthStart(w: World, id: nat, lo: nat) {
    id in w.spaces && w.spaces[id].root == id && w.spaces[id].heapEnd == lo && lo % PAGE_SIZE == 0
  }

  ghost function NextSpace(w: World, id: nat, at: nat): Space
    requires id in w.spaces
  {
    w.spaces[id].(heapEnd := at + PAGE_SIZE)
  }

  /** The task's page at v is its own, readable and writable by the user, and all zero. */
  ghost predicate FreshZero(w: World, b: Bytes, id: nat, v: Vpn)
    requires HasTree(w, id) && v.v0 < ENTRIES
  {
    var pa := PteToPa(Leaf(w, id, v));
    Own(w, id, v) && Leaf(w, id, v) == PaToPte(pa, USER_RW + PTE_V) && pa in b && b[pa] == Zeros(PAGE_SIZE)
  }

  predicate Between(v: Vpn, lo: nat, hi: nat) {
    VpnOk(v) && lo <= AddrOf(v) < hi
  }

  ghost predicate GrewAt(w1: World, w: World, b: Bytes, id: nat, lo: nat, at: nat, v: Vpn)
    requires HasTree(w1, id) && HasTree(w, id) && v.v0 < ENTRIES
  {
    if Between(v, lo, at) then FreshZero(w, b, id, v) && !IsValid(Leaf(w1, id, v))
        else Leaf(w, id, v) == Leaf(w1, id, v)
  }

  /** The heap of task id has grown from lo to `at` by zeroed pages; nothing else is different but for new tables. */
  ghost predicate Growing(w1: World, b1: Bytes, w: World, b: Bytes, id: nat, lo: nat, at: nat) {
    && OnlyTask(w1, w, id) && id in w1.spaces && w.spaces == w1.spaces[id := w1.spaces[id].(heapEnd := at)]
        && InHand(w) == InHand(w1)
    && HasTree(w1, id) && HasTree(w, id)
    && (forall v: Vpn {:trigger GrewAt(w1, w, b, id, lo, at, v)} :: v.v0 < ENTRIES ==> GrewAt(w1, w, b, id, lo, at, v))
    && UsedSame(w1, b1, b)
    && (forall pa {:trigger pa in w1.uses} :: pa in w1.uses ==> pa in w.uses && w.uses[pa] == w1.uses[pa])
  }

  predicate SameEntry(p: nat, q: nat) {
    p == q || (!IsValid(p) && !IsValid(q))
  }

  /** The task maps what it mapped. */
  ghost predicate MapsAlike(w: World, w': World, id: nat) {
    HasTree(w, id) && HasTree(w', id)
    && forall v: Vpn {:trigger Leaf(w', id, v)} :: v.v0 < ENTRIES ==> SameEntry(Leaf(w, id, v), Leaf(w', id, v))
  }

  predicate InBounds(s: Space, increment: int) {
    s.heapBase <= s.heapEnd + increment <= HEAP_LIMIT
  }

  /**
   Nothing is mapped from lo to hi, and there are more than three free pages for each page of it: itself and its
   tables.
   */
  ghost predicate RoomFor(w: World, id: nat, lo: nat, hi: nat) {
    HasTree(w, id) && |w.free| > 3 * ((hi - lo) / PAGE_SIZE)
        && forall v {:trigger Between(v, lo, hi)} :: Between(v, lo, hi) ==> !IsValid(Leaf(w, id, v))
  }

  ghost predicate Roomy(w: World, id: nat, newEnd: nat)
    requires id in w.spaces
  {
    var lo, hi := AlignUp(w.spaces[id].heapEnd), AlignUp(newEnd);
    hi <= lo || RoomFor(w, id, lo, hi)
  }

  ghost predicate HeapMovedAt(w: World, w': World, b': Bytes, id: nat, v: Vpn)
    requires HasTree(w, id) && HasTree(w', id) && v.v0 < ENTRIES
  {
    if InHeap(w'.spaces[id], v) && !InHeap(w.spaces[id], v) then FreshZero(w', b', id, v) && !IsValid(Leaf(w, id, v))
    else if InHeap(w.spaces[id], v) && !InHeap(w'.spaces[id], v) then !IsValid(Leaf(w', id, v))
    else SameEntry(Leaf(w, id, v), Leaf(w', id, v))
  }

  /**
   New pages of the heap are zeroed, pages no longer in it are not mapped, and everything else is mapped as before
   and has its bytes.
   */
  ghost predicate HeapMoved(w: World, b: Bytes, w': World, b': Bytes, id: nat) {
    && HasTree(w, id) && HasTree(w', id) && UsedSame(w, b, b')
    && forall v: Vpn {:trigger HeapMovedAt(w, w', b', id, v)} :: v.v0 < ENTRIES ==> HeapMovedAt(w, w', b', id, v)
  }

  /** No page of the allocator has a device's address. */
  ghost predicate HighMemory(w: World) {
    forall pa {:trigger pa in w.managed} :: pa in w.managed ==> RAM_BASE <= pa
  }

  /** The heap never moves over the kernel's pages: what grows was not mapped, and what shrinks was the task's own. */
  lemma KernelMoved(w: World, b: Bytes, w': World, b': Bytes, id: nat)
    requires WorldOk(w) && HighMemory(w) && HeapMoved(w, b, w', b', id) && KernelThere(w, id) && id in w.spaces
    ensures KernelThere(w', id)
  {
    hide WorldOk, TreeOk, LeafAt, PteToPa, PaToPte, IsValid, AddrOf, KernelAddr, Zeros;
    SpaceAt(w, id);
    SpaceParts(w, id);
    EndBound(w.spaces[id]);
    forall u: Vpn | u.v0 < ENTRIES && VpnOk(u) && KernelAddr(AddrOf(u))
      ensures IsValid(Leaf(w', id, u)) && PteToPa(Leaf(w', id, u)) == AddrOf(u)
    {
      assert IsValid(Leaf(w, id, u)) && PteToPa(Leaf(w, id, u)) == AddrOf(u);
      assert HeapMovedAt(w, w', b', id, u);
      if InHeap(w.spaces[id], u) { HeapPage(w, id, u); }
    }
  }

  lemma UsedSameSelf(w: World, b: Bytes)
    ensures UsedSame(w, b, b)
  {
  }

  lemma GrowingNone(w1: World, b: Bytes, id: nat, lo: nat)
    requires WorldOk(w1) && GrowthStart(w1, id, lo)
    ensures Growing(w1, b, w1, b, id, lo, lo)
  {
    hide TreeOk, EntryOk, LeafAt, AddrOf;
    SpaceAt(w1, id);
    assert w1.spaces == w1.spaces[id := w1.spaces[id].(heapEnd := lo)];
  }

  lemma GrowingParts(w1: World, b1: Bytes, w: World, b: Bytes, id: nat, lo: nat, at: nat)
    requires Growing(w1, b1, w, b, id, lo, at)
    ensures OnlyTask(w1, w, id) && id in w1.spaces && w.spaces == w1.spaces[id := w1.spaces[id].(heapEnd := at)]
    ensures InHand(w) == InHand(w1)
    ensures UsedSame(w1, b1, b) && id in w.spaces && w.spaces[id].heapEnd == at
    ensures w.spaces[id].root == w1.spaces[id].root
    ensures HasTree(w1, id) && HasTree(w, id)
  {
    hide OnlyTask, TreeOk;
  }

  lemma NextHeapPage(w: World, taken: World, id: nat, at: nat, p: nat)
    requires WorldOk(w) && id in w.spaces && w.spaces[id].heapEnd == at && at % PAGE_SIZE == 0
    requires at + PAGE_SIZE <= HEAP_LIMIT
    requires taken.spaces == w.spaces
    ensures VpnOk(VpnOf(at)) && AddrOf(VpnOf(at)) == at && NextSpace(w, id, at).root == w.spaces[id].root
    ensures IsLeaf(USER_RW)
    ensures Placeable(taken, id, VpnOf(at), NextSpace(w, id, at), Data(VpnOf(at)), p, USER_RW)
  {
    hide TreeOk, EntryOk, LeafAt, UseOk, VpnOf, AddrOf;
    SpaceAt(w, id);
    AddrIndices(at);
  }

  lemma SpentThree(free: set<nat>, was: set<nat>, p: nat, now: set<nat>, k: nat)
    requires Spent(free, was, 3 * k) && p in was && Spent(was - {p}, now, 2)
    ensures Spent(free, now, 3 * (k + 1))
  {
  }

  lemma NoPageLeft(w1: World, id: nat, lo: nat, hi: nat, k: nat)
    requires Spent(w1.free, {}, 3 * k) && lo + k * PAGE_SIZE <= hi
    ensures !RoomFor(w1, id, lo, hi)
  {
    assert k <= (hi - lo) / PAGE_SIZE;
  }

  /** Why a page could not be mapped: no page is left for its tables, or something is mapped there already. */
  lemma NoPlace(w1: World, b1: Bytes, w: World, b: Bytes, taken: World, w': World, id: nat, lo: nat, at: nat, hi: nat,
          k: nat, p: nat)
    requires Growing(w1, b1, w, b, id, lo, at) && Spent(w1.free, w.free, 3 * k) && p in w.free
    requires taken == w.(free := w.free - {p})
    requires Spent(taken.free, w'.free, 2) && at == lo + k * PAGE_SIZE && at + PAGE_SIZE <= hi && VpnOk(VpnOf(at))
    requires AddrOf(VpnOf(at)) == at
    requires HasTree(taken, id) && (w'.free == {} || IsValid(Leaf(taken, id, VpnOf(at))))
    ensures !RoomFor(w1, id, lo, hi)
  {
    hide TreeOk, LeafAt, OnlyTask, VpnOf, AddrOf, IsValid;
    if IsValid(Leaf(taken, id, VpnOf(at))) {
      assert GrewAt(w1, w, b, id, lo, at, VpnOf(at));
      assert Leaf(w1, id, VpnOf(at)) == Leaf(taken, id, VpnOf(at));
      assert Between(VpnOf(at), lo, hi);
    } else {
      SpentThree(w1.free, w.free, p, w'.free, k);
      NoPageLeft(w1, id, lo, hi, k + 1);
    }
  }

  /** A page of the part that grew is in use. */
  lemma GrownPage(w1: World, b1: Bytes, w: World, b: Bytes, id: nat, lo: nat, at: nat, v: Vpn)
    requires WorldOk(w1) && WorldOk(w) && Growing(w1, b1, w, b, id, lo, at) && GrowthStart(w1, id, lo)
    requires Between(v, lo, at)
    ensures PteToPa(Leaf(w, id, v)) in w.uses
  {
    hide TreeOk, LeafAt, PteToPa, AddrOf, OnlyTask;
    SpaceAt(w1, id);
    SpaceParts(w1, id);
    hide WorldOk;
    HeapPage(w, id, v);
  }

  lemma GrowingMore(w1: World, b1: Bytes, w: World, b: Bytes, taken: World, w': World, b': Bytes, id: nat, lo: nat,
          at: nat, p: nat)
    requires WorldOk(w1) && WorldOk(w) && Growing(w1, b1, w, b, id, lo, at) && GrowthStart(w1, id, lo) && lo <= at
    requires p in w.free && taken == w.(free := w.free - {p}) && InHand(taken) == InHand(w) + {p}
    requires b' == b[p := Zeros(PAGE_SIZE)] && PageAligned(p)
    requires VpnOk(VpnOf(at)) && AddrOf(VpnOf(at)) == at
    requires Grown(taken, w', id, NextSpace(w, id, at), {p}, Data(VpnOf(at)))
    requires MapsAt(taken, w', id, VpnOf(at), PaToPte(p, SetValid(USER_RW))) && !IsValid(Leaf(taken, id, VpnOf(at)))
    ensures Growing(w1, b1, w', b', id, lo, at + PAGE_SIZE)
  {
    hide TreeOk, LeafAt, PteToPa, PaToPte, SetValid, AddrOf, OnlyTask, WorldOk, VpnOf, UsedSame, IsValid, Zeros;
    FreeParts(w);
    assert OnlyTask(w, taken, id) by { OnlyFree(w, taken, id); }
    OnlyBoth(w1, w, taken, id);
    OnlyBoth(w1, taken, w', id);
    MoreBytes(w1, b1, w, b, p, Zeros(PAGE_SIZE));
    StackFlagsValid();
    EntryRoundTrip(p, USER_RW + PTE_V);
    assert IsValid(USER_RW + PTE_V) by { RwValid(); }
    forall v: Vpn | v.v0 < ENTRIES
      ensures GrewAt(w1, w', b', id, lo, at + PAGE_SIZE, v)
    {
      assert GrewAt(w1, w, b, id, lo, at, v);
      assert Leaf(taken, id, v) == Leaf(w, id, v);
      if Between(v, lo, at) { GrownPage(w1, b1, w, b, id, lo, at, v); }
      BetweenMore(v, lo, at);
    }
    assert p in w'.managed;
    assert w'.spaces == w1.spaces[id := w1.spaces[id].(heapEnd := at + PAGE_SIZE)];
    assert InHand(w') == InHand(w);
  }

  lemma GrownHand(w: World, w': World, id: nat, s': Space, placed: set<nat>, role: Role)
    requires Grown(w, w', id, s', placed, role)
    ensures InHand(w') == InHand(w) - placed
  {
  }

  lemma OneMore(at: nat, hi: nat)
    requires at % PAGE_SIZE == 0 && hi % PAGE_SIZE == 0 && at < hi
    ensures at + PAGE_SIZE <= hi && (at + PAGE_SIZE) % PAGE_SIZE == 0
  {
  }

  lemma SameManaged(w: World, w': World, id: nat)
    requires OnlyTask(w, w', id)
    ensures w'.managed == w.managed && w'.granted <= w.granted
  {
  }

  lemma RwValid()
    ensures IsValid(USER_RW + PTE_V)
  {
  }

  lemma BetweenMore(v: Vpn, lo: nat, at: nat)
    requires lo <= at && VpnOk(VpnOf(at)) && AddrOf(VpnOf(at)) == at
    ensures Between(v, lo, at + PAGE_SIZE) <==> Between(v, lo, at) || v == VpnOf(at)
    ensures !Between(VpnOf(at), lo, at)
  {
    hide AddrOf, VpnOf;
    IndicesAddr(VpnOf(at));
    if VpnOk(v) {
      IndicesAddr(v);
      if AddrOf(v) == at { SameAddr(v, VpnOf(at)); }
    }
  }

  lemma OnlyFree(w: World, w': World, id: nat)
    requires w' == w.(free := w'.free) && w.trees.Keys == w.spaces.Keys
    ensures OnlyTask(w, w', id)
  {
  }

  lemma MoreBytes(w1: World, b1: Bytes, w: World, b: Bytes, p: nat, content: seq<byte>)
    requires UsedSame(w1, b1, b) && p !in w.uses && forall pa {:trigger pa in w1.uses} :: pa in w1.uses ==> pa in w.uses
    ensures UsedSame(w1, b1, b[p := content])
  {
    forall pa | pa in w1.uses
      ensures ContentSame(b1, b[p := content], pa)
    {
      assert ContentSame(b1, b, pa);
    }
  }

  /** A page that could not be mapped is back, and the heap is where it was. */
  lemma StillGrowing(w1: World, b1: Bytes, w: World, b: Bytes, taken: World, failed: World, w': World, b': Bytes,
          id: nat, lo: nat, at: nat, p: nat)
    requires WorldOk(w1) && WorldOk(w) && Growing(w1, b1, w, b, id, lo, at) && GrowthStart(w1, id, lo)
    requires p in w.free && taken == w.(free := w.free - {p}) && InHand(taken) == InHand(w) + {p}
    requires b' == b[p := Zeros(PAGE_SIZE)]
    requires Grown(taken, failed, id, taken.spaces[id], {}, Data(VpnOf(at))) && MapsSame(taken, failed, id)
    requires WorldOk(failed) && w' == failed.(free := failed.free + {p}) && InHand(w') == InHand(failed) - {p}
    ensures Growing(w1, b1, w', b', id, lo, at)
  {
    hide TreeOk, LeafAt, PteToPa, PaToPte, AddrOf, OnlyTask, WorldOk, VpnOf, UsedSame, IsValid, Zeros;
    FreeParts(w);
    FreeParts(failed);
    OnlyFree(w, taken, id);
    OnlyFree(failed, w', id);
    OnlyBoth(w1, w, taken, id);
    OnlyBoth(w1, taken, failed, id);
    OnlyBoth(w1, failed, w', id);
    MoreBytes(w1, b1, w, b, p, Zeros(PAGE_SIZE));
    assert w'.spaces == w.spaces;
    assert InHand(w') == InHand(w);
    forall v: Vpn | v.v0 < ENTRIES
      ensures GrewAt(w1, w', b', id, lo, at, v)
    {
      assert GrewAt(w1, w, b, id, lo, at, v);
      assert Leaf(taken, id, v) == Leaf(w, id, v) && Leaf(failed, id, v) == Leaf(taken, id, v)
          && Leaf(w', id, v) == Leaf(failed, id, v);
      if Between(v, lo, at) { GrownPage(w1, b1, w, b, id, lo, at, v); }
    }
  }

  lemma ShorterAgain(w1: World, id: nat, lo: nat, at: nat)
    requires WorldOk(w1) && GrowthStart(w1, id, lo) && lo <= at && at % PAGE_SIZE == 0
    ensures Shorter(w1.spaces[id].(heapEnd := at), w1.spaces[id]) && MappedEnd(w1.spaces[id]) == lo
    ensures MappedEnd(w1.spaces[id].(heapEnd := at)) == at
  {
    hide TreeOk, EntryOk, LeafAt, UseOk;
    SpaceAt(w1, id);
  }

  lemma RolledBack(w1: World, b1: Bytes, w: World, b: Bytes, w': World, id: nat, lo: nat, at: nat)
    requires WorldOk(w1) && Growing(w1, b1, w, b, id, lo, at) && GrowthStart(w1, id, lo) && lo <= at
    requires at % PAGE_SIZE == 0
    requires DropsMap(w, w', id, w1.spaces[id]) && id in w.spaces && w'.spaces == w.spaces[id := w1.spaces[id]]
    ensures MapsAlike(w1, w', id) && w'.spaces == w1.spaces
  {
    hide TreeOk, LeafAt, PteToPa, PaToPte, AddrOf, OnlyTask, IsValid, UseOk, EntryOk, AlignUp, AlignDown;
    SpaceAt(w1, id);
    ShorterAgain(w1, id, lo, at);
    forall v: Vpn | v.v0 < ENTRIES
      ensures SameEntry(Leaf(w1, id, v), Leaf(w', id, v))
    {
      assert GrewAt(w1, w, b, id, lo, at, v);
      assert Dropped(w.spaces[id], w1.spaces[id], v) ==> Between(v, lo, at);
      assert Leaf(w', id, v) == Leaf(w', id, v);
      BetweenDropped(w.spaces[id], w1.spaces[id], v, lo, at);
    }
  }

  lemma BetweenDropped(s: Space, s': Space, v: Vpn, lo: nat, hi: nat)
    requires Layout(s') && s' == s.(heapEnd := s'.heapEnd) && MappedEnd(s') == lo && MappedEnd(s) == hi && lo <= hi
    ensures Between(v, lo, hi) <==> Dropped(s, s', v)
    ensures Between(v, lo, hi) <==> InHeap(s, v) && !InHeap(s', v)
    ensures InHeap(s', v) ==> InHeap(s, v)
  {
    hide AddrOf;
    assert AlignDown(s.imageBase) <= s.heapBase;
  }

  lemma NotGrown(w1: World, b1: Bytes, w: World, b: Bytes, id: nat, lo: nat)
    requires Growing(w1, b1, w, b, id, lo, lo) && GrowthStart(w1, id, lo)
    ensures MapsAlike(w1, w, id) && w.spaces == w1.spaces
  {
    hide TreeOk, LeafAt, OnlyTask, AddrOf;
    assert w1.spaces == w1.spaces[id := w1.spaces[id].(heapEnd := lo)];
    forall v: Vpn | v.v0 < ENTRIES
      ensures SameEntry(Leaf(w1, id, v), Leaf(w, id, v))
    {
      assert GrewAt(w1, w, b, id, lo, lo, v);
    }
  }

  /** The same pages under a record with another end of the heap. */
  lemma Rerecorded(w: World, id: nat, s': Space, b: Bytes)
    requires WorldOk(w) && BytesOk(w, b) && id in w.spaces && Layout(s') && s' == w.spaces[id].(heapEnd := s'.heapEnd)
    requires MappedEnd(s') == MappedEnd(w.spaces[id])
    ensures var w' := w.(spaces := w.spaces[id := s']);
            WorldOk(w') && BytesOk(w', b) && OnlyTask(w, w', id) && InHand(w') == InHand(w) && MapsSame(w, w', id)
  {
    hide TreeOk, LeafAt, AddrOf, WorldOk, AlignUp, UseOk, SpaceOk;
    TreeThere(w, id);
    FreeParts(w);
    var w' := w.(spaces := w.spaces[id := s']);
    assert Gone(w, id, s') == {};
    assert ShrunkWorld(w, id, w.tables, s') == w' by {
      assert w.uses - {} == w.uses && w.free + {} == w.free;
    }
    ShrinkKeeps(w, id, w.tables, s');
    ShrinkOnly(w, id, w.tables, s');
    forall pa | DataPage(w', pa)
      ensures pa in b && |b[pa]| == PAGE_SIZE
    {
      assert DataPage(w, pa);
    }
  }

  lemma NothingMoved(w: World, b: Bytes, id: nat)
    requires WorldOk(w) && id in w.spaces
    ensures HeapMoved(w, b, w, b, id) && OnlyTask(w, w, id) && OthersKept(w, b, w, b, id)
  {
    hide TreeOk, LeafAt, WorldOk, AddrOf, OthersKept;
    TreeThere(w, id);
    UsedSameSelf(w, b);
    FreeParts(w);
    OnlyFree(w, w, id);
    OnlyTaskOthers(w, b, w, b, id);
  }

  lemma HeapBounds(w: World, id: nat, newEnd: nat)
    requires WorldOk(w) && id in w.spaces && w.spaces[id].heapBase <= newEnd <= HEAP_LIMIT
    ensures var s, lo, hi := w.spaces[id], AlignUp(w.spaces[id].heapEnd), AlignUp(newEnd);
            && lo <= HEAP_LIMIT && hi <= HEAP_LIMIT && s.heapBase <= lo && s.heapBase <= hi
            && Layout(s) && Layout(s.(heapEnd := lo)) && Layout(s.(heapEnd := hi)) && Layout(s.(heapEnd := newEnd))
            && MappedEnd(s.(heapEnd := lo)) == lo == MappedEnd(s)
                && MappedEnd(s.(heapEnd := hi)) == hi == MappedEnd(s.(heapEnd := newEnd))
  {
    hide TreeOk, EntryOk, LeafAt, UseOk;
    SpaceAt(w, id);
  }

  lemma RoomyFor(w: World, id: nat, newEnd: nat)
    requires WorldOk(w) && id in w.spaces && AlignUp(newEnd) > AlignUp(w.spaces[id].heapEnd)
    ensures var lo := AlignUp(w.spaces[id].heapEnd); Roomy(w, id, newEnd) ==>
              RoomFor(w.(spaces := w.spaces[id := w.spaces[id].(heapEnd := lo)]), id, lo, AlignUp(newEnd))
  {
    hide TreeOk, LeafAt, WorldOk, AddrOf, AlignUp, IsValid;
    var lo, hi := AlignUp(w.spaces[id].heapEnd), AlignUp(newEnd);
    var w1 := w.(spaces := w.spaces[id := w.spaces[id].(heapEnd := lo)]);
    TreeThere(w, id);
    forall v | Between(v, lo, hi) && RoomFor(w, id, lo, hi)
      ensures !IsValid(Leaf(w1, id, v))
    {
      assert Leaf(w1, id, v) == Leaf(w, id, v);
    }
  }

  lemma ShorterBy(w1: World, id: nat, hi: nat)
    requires id in w1.spaces && Layout(w1.spaces[id].(heapEnd := hi))
    requires MappedEnd(w1.spaces[id].(heapEnd := hi)) < MappedEnd(w1.spaces[id])
    ensures Shorter(w1.spaces[id], w1.spaces[id].(heapEnd := hi))
  {
  }

  /** Two records of the same pages have the same heap. */
  lemma SameHeap(s: Space, s': Space, v: Vpn)
    requires s' == s.(heapEnd := s'.heapEnd) && MappedEnd(s') == MappedEnd(s)
    ensures InHeap(s', v) == InHeap(s, v)
  {
  }

  lemma NotMoved(w0: World, b0: Bytes, w1: World, w: World, b: Bytes, id: nat, lo: nat)
    requires WorldOk(w0) && id in w0.spaces && lo == AlignUp(w0.spaces[id].heapEnd)
    requires w1 == w0.(spaces := w0.spaces[id := w0.spaces[id].(heapEnd := lo)])
    requires MapsAlike(w1, w, id) && w.spaces == w1.spaces && UsedSame(w1, b0, b)
    ensures HeapMoved(w0, b0, w.(spaces := w.spaces[id := w0.spaces[id]]), b, id)
    ensures w.spaces[id := w0.spaces[id]] == w0.spaces && UsedSame(w0, b0, b)
  {
    hide TreeOk, LeafAt, WorldOk, AddrOf, AlignUp, IsValid, InHeap;
    TreeThere(w0, id);
    var w' := w.(spaces := w.spaces[id := w0.spaces[id]]);
    assert w'.spaces == w0.spaces;
    forall v: Vpn | v.v0 < ENTRIES
      ensures HeapMovedAt(w0, w', b, id, v)
    {
      assert Leaf(w', id, v) == Leaf(w, id, v) && Leaf(w1, id, v) == Leaf(w0, id, v);
    }
  }

  lemma MovedUp(w0: World, b0: Bytes, w1: World, w: World, b: Bytes, id: nat, lo: nat, hi: nat, newEnd: nat)
    requires WorldOk(w0) && id in w0.spaces && lo == AlignUp(w0.spaces[id].heapEnd)
    requires w1 == w0.(spaces := w0.spaces[id := w0.spaces[id].(heapEnd := lo)])
    requires Growing(w1, b0, w, b, id, lo, hi) && lo < hi == AlignUp(newEnd)
    requires var s := w0.spaces[id];
             && Layout(s.(heapEnd := newEnd)) && Layout(s)
             && MappedEnd(s.(heapEnd := newEnd)) == hi && MappedEnd(s) == lo && MappedEnd(s.(heapEnd := hi)) == hi
    ensures HeapMoved(w0, b0, w.(spaces := w.spaces[id := w0.spaces[id].(heapEnd := newEnd)]), b, id)
    ensures UsedSame(w0, b0, b)
    ensures w.spaces[id := w0.spaces[id].(heapEnd := newEnd)] == w0.spaces[id := w0.spaces[id].(heapEnd := newEnd)]
    ensures id in w.spaces
    ensures w.spaces[id] == w0.spaces[id].(heapEnd := hi)
  {
    hide TreeOk, LeafAt, WorldOk, AddrOf, AlignUp, IsValid, InHeap, OnlyTask, PteToPa, PaToPte, Between, Zeros;
    TreeThere(w0, id);
    var s, s' := w0.spaces[id], w0.spaces[id].(heapEnd := newEnd);
    var w' := w.(spaces := w.spaces[id := s']);
    forall v: Vpn | v.v0 < ENTRIES
      ensures HeapMovedAt(w0, w', b, id, v)
    {
      assert GrewAt(w1, w, b, id, lo, hi, v);
      assert Leaf(w', id, v) == Leaf(w, id, v) && Leaf(w1, id, v) == Leaf(w0, id, v);
      BetweenDropped(s', s, v, lo, hi);
    }
  }

  lemma MovedDown(w0: World, b0: Bytes, w1: World, w: World, id: nat, lo: nat, hi: nat, newEnd: nat)
    requires WorldOk(w0) && id in w0.spaces && lo == AlignUp(w0.spaces[id].heapEnd)
    requires w1 == w0.(spaces := w0.spaces[id := w0.spaces[id].(heapEnd := lo)])
    requires hi < lo && DropsMap(w1, w, id, w0.spaces[id].(heapEnd := hi))
    requires w.spaces == w1.spaces[id := w0.spaces[id].(heapEnd := hi)]
    requires var s := w0.spaces[id];
             && Layout(s.(heapEnd := newEnd)) && Layout(s.(heapEnd := hi))
                 && MappedEnd(s.(heapEnd := newEnd)) == hi == MappedEnd(s.(heapEnd := hi))
             && MappedEnd(s) == lo == MappedEnd(s.(heapEnd := lo))
    ensures HeapMoved(w0, b0, w.(spaces := w.spaces[id := w0.spaces[id].(heapEnd := newEnd)]), b0, id)
    ensures UsedSame(w0, b0, b0)
    ensures w.spaces[id := w0.spaces[id].(heapEnd := newEnd)] == w0.spaces[id := w0.spaces[id].(heapEnd := newEnd)]
  {
    hide TreeOk, LeafAt, WorldOk, AddrOf, AlignUp, IsValid, InHeap, Dropped, Between;
    TreeThere(w0, id);
    UsedSameSelf(w0, b0);
    var s, s' := w0.spaces[id], w0.spaces[id].(heapEnd := newEnd);
    var w' := w.(spaces := w.spaces[id := s']);
    forall v: Vpn | v.v0 < ENTRIES
      ensures HeapMovedAt(w0, w', b0, id, v)
    {
      assert Leaf(w', id, v) == Leaf(w, id, v) && Leaf(w1, id, v) == Leaf(w0, id, v);
      BetweenDropped(s, s', v, hi, lo);
      BetweenDropped(s.(heapEnd := lo), s.(heapEnd := hi), v, hi, lo);
    }
  }

  lemma MovedInside(w0: World, b0: Bytes, w1: World, id: nat, newEnd: nat)
    requires WorldOk(w0) && id in w0.spaces && id in w1.spaces && w1 == w0.(spaces := w0.spaces[id := w1.spaces[id]])
    requires var s := w0.spaces[id]; MappedEnd(s.(heapEnd := newEnd)) == MappedEnd(s)
    ensures var s := w0.spaces[id];
            HeapMoved(w0, b0, w1.(spaces := w1.spaces[id := s.(heapEnd := newEnd)]), b0, id)
    ensures UsedSame(w0, b0, b0)
    ensures w1.spaces[id := w0.spaces[id].(heapEnd := newEnd)] == w0.spaces[id := w0.spaces[id].(heapEnd := newEnd)]
  {
    hide TreeOk, LeafAt, WorldOk, AddrOf, AlignUp, IsValid, InHeap;
    TreeThere(w0, id);
    UsedSameSelf(w0, b0);
    var s := w0.spaces[id];
    var w' := w1.(spaces := w1.spaces[id := s.(heapEnd := newEnd)]);
    assert w'.spaces == w0.spaces[id := s.(heapEnd := newEnd)];
    forall v: Vpn | v.v0 < ENTRIES
      ensures HeapMovedAt(w0, w', b0, id, v)
    {
      assert Leaf(w', id, v) == Leaf(w0, id, v);
      SameHeap(s, s.(heapEnd := newEnd), v);
    }
  }
}
