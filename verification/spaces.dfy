/**
 Address spaces in place (src/kernel/task.rs, src/kernel/vm.rs): growing and shrinking the heap, freeing, copying and
 building the memory of a task, over the page allocator and the page tables. An address space goes by the address of
 its root table, as a task's `pagetable` does.
 */
module Spaces {
  import opened Wrappers
  import opened Words
  import opened Pages
  import opened PageTables
  import opened Mmu
  import opened Ownership
  import opened Memories
  import opened Elf
  import opened Placement
  import opened HeapMoves
  import opened Teardown
  import opened Duplication
  import opened Programs
  import opened MemoryRuns

  /** The records go by their roots, and have both stacks. */
  ghost predicate Whole(spaces: map<nat, Space>) {
    forall id {:trigger spaces[id]} :: id in spaces ==>
        spaces[id].root == id && spaces[id].userStack != 0 && spaces[id].kernelStack != 0
  }

  lemma WholeAt(spaces: map<nat, Space>, id: nat)
    requires Whole(spaces) && id in spaces
    ensures spaces[id].root == id && spaces[id].userStack != 0 && spaces[id].kernelStack != 0
  {
  }

  lemma WholeWith(spaces: map<nat, Space>, id: nat, s: Space)
    requires Whole(spaces) && s.root == id && s.userStack != 0 && s.kernelStack != 0
    ensures Whole(spaces[id := s]) && Whole((spaces - {id})[id := s]) && Whole(spaces - {id})
  {
  }

  lemma WholeRooted(w: World)
    requires Whole(w.spaces)
    ensures Rooted(w)
  {
  }

  /** The serial port is given to one task at most, and then it is known that it has been given. */
  ghost predicate PortOnce(granted: set<nat>, given: bool) {
    && (granted != {} ==> given)
    && forall a, b :: a in granted && b in granted ==> a == b
  }

  lemma PortLess(granted: set<nat>, granted': set<nat>, given: bool)
    requires PortOnce(granted, given) && granted' <= granted
    ensures PortOnce(granted', given)
  {
  }

  class AddressSpaces {
    const machine: Machine
    var spaces: map<nat, Space>      // the tasks' records, by the roots of their tables
    var portGiven: bool              // `uart_owner` is set
    ghost var world: World

    /** The world w is what physical memory holds. */
    ghost predicate Shows(w: World)
      reads machine, machine.pages, machine.pages.bitmap
    {
      && machine.Valid() && WorldOk(w) && BytesOk(w, machine.bytes)
      && w.tables == machine.tables && w.free == machine.pages.FreeAddrs() && w.managed == Managed(machine.pages)
      && RAM_BASE <= machine.pages.startAddr
    }

    /** Every task has its own root table and both its stacks, and the kernel in its tables. */
    ghost predicate Valid()
      reads this, machine, machine.pages, machine.pages.bitmap
    {
      && Shows(world) && world.spaces == spaces && Whole(spaces) && PortOnce(world.granted, portGiven)
      && KernelEverywhere(world)
    }

    /** Memory as it is. */
    ghost function Now(): Moment
      reads this`world, machine`bytes
    {
      Moment(world, machine.bytes)
    }

    /** No tasks yet. What is allocated already, such as the kernel's own tables, is in the kernel's hands. */
    constructor (m: Machine)
      requires m.Valid() && RAM_BASE <= m.pages.startAddr
      ensures Valid() && machine == m && spaces == map[] && world.tables == m.tables
    {
      machine, spaces, portGiven := m, map[], false;
      world := World(m.tables, map[], map[], map[], m.pages.FreeAddrs(), Managed(m.pages), {});
      new;
      hide TreeOk;
      FreeManaged(m.pages);
      assert forall pa :: pa in Managed(m.pages) ==> pa != 0;
    }

    // ---- Pages in hand ----

    lemma Facts(w: World)
      requires Shows(w)
      ensures forall pa {:trigger pa in w.managed} :: pa in w.managed ==>
                machine.pages.IsPage(pa) && PageAligned(pa) && pa != 0 && RAM_BASE <= pa
    {
      forall pa | pa in w.managed
        ensures machine.pages.IsPage(pa) && PageAligned(pa) && RAM_BASE <= pa
      {
        ManagedIs(machine.pages, pa);
        ManagedAligned(machine.pages, pa);
      }
    }

    lemma Memory(w: World)
      requires Shows(w)
      ensures HighMemory(w)
    {
      hide WorldOk, PageAllocator.Valid, Managed;
      Facts(w);
    }

    lemma KernelAt(w: World, id: nat)
      requires KernelEverywhere(w) && id in w.spaces
      ensures KernelThere(w, id)
    {
    }

    /** `page::alloc`. */
    method Take(ghost w: World) returns (r: Option<nat>, ghost w': World)
      requires Shows(w)
      modifies machine.pages, machine.pages.bitmap
      ensures Shows(w')
      ensures r.None? ==> w' == w && w.free == {}
      ensures r.Some? ==> r.value in w.free && w' == w.(free := w.free - {r.value})
      ensures r.Some? ==> InHand(w') == InHand(w) + {r.value} && PageAligned(r.value) && r.value != 0
    {
      hide PageAllocator.FreeAddrs, PageAllocator.IsPage, PageAllocator.Valid, WorldOk, BytesOk, Managed;
      Facts(w);
      r := machine.pages.Alloc();
      w' := w;
      if r.Some? {
        w' := w.(free := w.free - {r.value});
        FreeParts(w);
        TakeKeeps(w, r.value, machine.bytes);
      }
    }

    /** `page::free` of a page in hand. */
    method GiveBack(pa: nat, ghost w: World) returns (ghost w': World)
      requires Shows(w) && pa in InHand(w)
      modifies machine.pages, machine.pages.bitmap
      ensures Shows(w') && w' == w.(free := w.free + {pa}) && InHand(w') == InHand(w) - {pa}
    {
      hide PageAllocator.FreeAddrs, PageAllocator.IsPage, PageAllocator.Valid, WorldOk, BytesOk, Managed;
      Facts(w);
      machine.Release(pa);
      w' := w.(free := w.free + {pa});
      GiveKeeps(w, pa, machine.bytes);
    }

    lemma TreeHeld(w: World, id: nat)
      requires Shows(w) && id in w.spaces
      ensures id in w.trees && machine.Holds(w.trees[id]) && w.trees[id].root == w.spaces[id].root && HasTree(w, id)
    {
      hide EntryOk, TreeOk, PageAllocator.FreeAddrs;
      SpaceAt(w, id);
      forall n | n in w.trees[id].node
        ensures machine.pages.IsPage(n) && n !in machine.pages.FreeAddrs()
      {
        assert UsedAs(w, n, id, Table);
        ManagedIs(machine.pages, n);
      }
    }

    /**
     `pgtable::map` of one page in hand into the tables of task id. When it fails the map is as before, and the page
     still in hand.
     */
    method MapPage(id: nat, va: nat, p: nat, flags: nat, ghost s': Space, ghost role: Role,
            ghost w: World) returns (ok: bool, ghost w': World)
      requires Shows(w) && id in w.spaces && w.spaces[id].root == id && s'.root == id && p in InHand(w)
      requires p in machine.bytes && |machine.bytes[p]| == PAGE_SIZE
      requires va % PAGE_SIZE == 0 && flags < FLAGS && IsLeaf(flags) && Placeable(w, id, VpnOf(va), s', role, p, flags)
      modifies machine`tables, machine.pages, machine.pages.bitmap
      ensures Shows(w') && Grown(w, w', id, if ok then s' else w.spaces[id], if ok then {p} else {}, role)
      ensures ok ==> MapsAt(w, w', id, VpnOf(va), PaToPte(p, SetValid(flags))) && !IsValid(Leaf(w, id, VpnOf(va)))
      ensures !ok ==> MapsSame(w, w', id) && (w'.free == {} || IsValid(Leaf(w, id, VpnOf(va))))
      ensures Spent(w.free, w'.free, 2)
    {
      hide PageAllocator.FreeAddrs, PageAllocator.IsPage, PageAllocator.Valid, WorldOk, TreeOk, BytesOk, Managed,
           LeafAt, Touched, PaToPte, SetValid, VpnOf, IsValid, IsLeaf, MappedTo, Placeable, Regrown, Spent, OnlyTask,
           Grown;
      Facts(w);
      TreeHeld(w, id);
      ghost var t, t', done;
      t := w.trees[id];
      ok, t', done := machine.Map(id, va, p, PAGE_SIZE, flags, t);
      GrownFree(w.tables, t, w.free, machine.tables, t', machine.pages.FreeAddrs());
      if ok {
        MappedOne(w.tables, t, machine.tables, t', va, p, flags);
        PlacedKeeps(w, id, machine.tables, t', s', VpnOf(va), p, flags, role);
        PlacedGrown(w, id, machine.tables, t', s', p, role);
        w' := Regrown(w, id, machine.tables, t', s');
        w' := w'.(uses := w'.uses[p := Use(id, role)]);
        GrownBytes(w, w', id, s', {p}, role, machine.bytes);
        RegrownParts(w, id, machine.tables, t', s');
      } else {
        MappedNothing(w.tables, t, machine.tables, t', va, p, flags);
        GrownKeeps(w, id, machine.tables, t');
        RegrownGrown(w, id, machine.tables, t');
        w' := Regrown(w, id, machine.tables, t', w.spaces[id]);
        GrownBytes(w, w', id, w.spaces[id], {}, Table, machine.bytes);
        GrownNothing(w, w', id, w.spaces[id], Table, role);
        RegrownParts(w, id, machine.tables, t', w.spaces[id]);
      }
    }

    /** `pgtable::unmap` of the heap pages behind the record s', with their pages given back. */
    method UnmapTo(id: nat, from: nat, to: nat, ghost s': Space, ghost w: World) returns (ok: bool, ghost w': World)
      requires Shows(w) && id in w.spaces && w.spaces[id].root == id && Shorter(w.spaces[id], s')
      requires from == MappedEnd(s') < to == MappedEnd(w.spaces[id])
      modifies machine`tables, machine.pages, machine.pages.bitmap
      ensures ok && Shows(w') && w' == ShrunkWorld(w, id, machine.tables, s')
      ensures OnlyTask(w, w', id) && InHand(w') == InHand(w) && w'.spaces == w.spaces[id := s']
      ensures DropsMap(w, w', id, s')
    {
      hide PageAllocator.FreeAddrs, PageAllocator.IsPage, PageAllocator.Valid, WorldOk, TreeOk, BytesOk, Managed,
           LeafAt, PteToPa, Changed, IsValid, ShrunkWorld, Shorter, OnlyTask, DropsMap, MappedPages, MappedEnd;
      TreeHeld(w, id);
      ghost var t := w.trees[id];
      ghost var n := (to - from) / PAGE_SIZE;
      HeapRange(w, id, s', from, n);
      ghost var done;
      ok, done := machine.Unmap(id, from, to - from, true, t);
      if !ok {
        RangeGrows(from, done, n);
        NoTable(w.tables, t, Page(from, done));
        assert false;
      }
      HeapUnmapped(w, id, s', from, n, machine.tables);
      HeapGone(w, id, s', from, n, machine.pages);
      ShorterShrunk(w.spaces[id], s');
      ShrinkKeeps(w, id, machine.tables, s');
      w' := ShrunkWorld(w, id, machine.tables, s');
      ShrunkFacts(w, id, machine.tables, s', machine.bytes);
      ShrinkOnly(w, id, machine.tables, s');
    }

    // ---- sbrk ----

    lemma ShowsParts(w: World)
      requires Shows(w)
      ensures WorldOk(w) && BytesOk(w, machine.bytes)
    {
    }

    lemma SoundNow(w: World)
      requires Shows(w)
      ensures Sound(Moment(w, machine.bytes))
    {
    }

    /** The same pages under a record with another end of the heap. */
    ghost method Settle(id: nat, s': Space, w: World) returns (w': World)
      requires Shows(w) && id in w.spaces && Layout(s') && s' == w.spaces[id].(heapEnd := s'.heapEnd)
      requires MappedEnd(s') == MappedEnd(w.spaces[id])
      ensures Shows(w') && w' == w.(spaces := w.spaces[id := s']) && OnlyTask(w, w', id) && InHand(w') == InHand(w)
      ensures MapsSame(w, w', id)
    {
      hide WorldOk, BytesOk, OnlyTask, MapsSame, PageAllocator.Valid, PageAllocator.FreeAddrs;
      Rerecorded(w, id, s', machine.bytes);
      w' := w.(spaces := w.spaces[id := s']);
    }

    /** The way back when the heap could not grow all the way: the pages mapped so far are unmapped and given back. */
    method RollBack(id: nat, lo: nat, at: nat, ghost w1: World, ghost b1: Bytes,
            ghost w: World) returns (ghost w': World)
      requires Shows(w) && WorldOk(w1) && Growing(w1, b1, w, machine.bytes, id, lo, at) && GrowthStart(w1, id, lo)
      requires lo <= at <= HEAP_LIMIT && at % PAGE_SIZE == 0
      modifies machine`tables, machine.pages, machine.pages.bitmap
      ensures Shows(w') && OnlyTask(w1, w', id) && InHand(w') == InHand(w1) && w'.spaces == w1.spaces
      ensures MapsAlike(w1, w', id)
    {
      hide WorldOk, BytesOk, OnlyTask, PageAllocator.Valid, PageAllocator.FreeAddrs, Managed, DropsMap, Growing,
           MapsAlike, ShrunkWorld, Shorter;
      w' := w;
      GrowingParts(w1, b1, w, machine.bytes, id, lo, at);
      if at > lo {
        var ok;
        ShorterAgain(w1, id, lo, at);
        ok, w' := UnmapTo(id, lo, at, w1.spaces[id], w);
        OnlyBoth(w1, w, w', id);
        RolledBack(w1, b1, w, machine.bytes, w', id, lo, at);
      } else {
        NotGrown(w1, b1, w, machine.bytes, id, lo);
      }
    }

    /** One step of growing: a zeroed page mapped at `at`, or nothing. */
    method GrowPage(id: nat, lo: nat, at: nat, ghost hi: nat, ghost k: nat, ghost w1: World, ghost b1: Bytes,
            ghost w: World) returns (ok: bool, ghost w': World)
      requires Shows(w) && WorldOk(w1) && Growing(w1, b1, w, machine.bytes, id, lo, at) && GrowthStart(w1, id, lo)
      requires at == lo + k * PAGE_SIZE && at % PAGE_SIZE == 0 && at + PAGE_SIZE <= hi <= HEAP_LIMIT
      requires Spent(w1.free, w.free, 3 * k)
      modifies machine, machine.pages, machine.pages.bitmap
      ensures Shows(w') && Growing(w1, b1, w', machine.bytes, id, lo, if ok then at + PAGE_SIZE else at)
      ensures ok ==> Spent(w1.free, w'.free, 3 * (k + 1))
      ensures !ok ==> !RoomFor(w1, id, lo, hi)
    {
      hide WorldOk, BytesOk, OnlyTask, PageAllocator.Valid, PageAllocator.FreeAddrs, Managed, Growing, RoomFor, Spent,
           MapsAt, MapsSame, Grown, Placeable, VpnOf, UsedSame, LeafAt, Zeros;
      GrowingParts(w1, b1, w, machine.bytes, id, lo, at);
      ghost var b := machine.bytes;
      var page, mapped;
      page, w' := Take(w);
      if page.None? {
        NoPageLeft(w1, id, lo, hi, k);
        return false, w';
      }
      Fill(page.value, Zeros(PAGE_SIZE), w');
      ghost var taken := w';
      NextHeapPage(w, taken, id, at, page.value);
      mapped, w' := MapPage(id, at, page.value, USER_RW, NextSpace(w, id, at), Data(VpnOf(at)), taken);
      if mapped {
        GrowingMore(w1, b1, w, b, taken, w', machine.bytes, id, lo, at, page.value);
        SpentThree(w1.free, w.free, page.value, w'.free, k);
        return true, w';
      }
      NoPlace(w1, b1, w, b, taken, w', id, lo, at, hi, k, page.value);
      ghost var failed := w';
      GrownHand(taken, failed, id, taken.spaces[id], {}, Data(VpnOf(at)));
      w' := GiveBack(page.value, w');
      StillGrowing(w1, b1, w, b, taken, failed, w', machine.bytes, id, lo, at, page.value);
      return false, w';
    }

    /** The growing half of `sbrk`: maps a zeroed page at each step from lo up to hi, or leaves the heap as it was. */
    method GrowHeap(id: nat, lo: nat, hi: nat, ghost w1: World) returns (ok: bool, ghost w': World)
      requires Shows(w1) && GrowthStart(w1, id, lo) && lo < hi <= HEAP_LIMIT && hi % PAGE_SIZE == 0
      modifies machine, machine.pages, machine.pages.bitmap
      ensures Shows(w') && OnlyTask(w1, w', id) && InHand(w') == InHand(w1)
      ensures UsedSame(w1, old(machine.bytes), machine.bytes)
      ensures ok ==> Growing(w1, old(machine.bytes), w', machine.bytes, id, lo, hi)
      ensures !ok ==> w'.spaces == w1.spaces && MapsAlike(w1, w', id)
      ensures RoomFor(w1, id, lo, hi) ==> ok
    {
      hide Shows, WorldOk, OnlyTask, Growing, MapsAlike, RoomFor, Spent, UsedSame;
      ShowsParts(w1);
      ghost var b1, k := machine.bytes, 0;
      var at := lo;
      w' := w1;
      GrowingNone(w1, b1, id, lo);
      SpentNone(w1.free, 0);
      while at < hi
        invariant lo <= at <= hi && 0 <= k && at == lo + k * PAGE_SIZE && at % PAGE_SIZE == 0
        invariant Shows(w') && Growing(w1, b1, w', machine.bytes, id, lo, at) && Spent(w1.free, w'.free, 3 * k)
      {
        OneMore(at, hi);
        ok, w' := GrowPage(id, lo, at, hi, k, w1, b1, w');
        if !ok {
          GrowingParts(w1, b1, w', machine.bytes, id, lo, at);
          w' := RollBack(id, lo, at, w1, b1, w');
          return false, w';
        }
        k := k + 1;
        at := at + PAGE_SIZE;
      }
      GrowingParts(w1, b1, w', machine.bytes, id, lo, at);
      return true, w';
    }

    /** The pages of `sbrk`: maps what is missing up to the new end, or unmaps what is behind it. */
    method MoveHeap(id: nat, s: Space, newEnd: nat, ghost w0: World) returns (ok: bool, ghost w': World)
      requires Shows(w0) && id in w0.spaces && w0.spaces[id] == s && s.root == id && s.heapBase <= newEnd <= HEAP_LIMIT
      modifies machine, machine.pages, machine.pages.bitmap
      ensures Shows(w') && OnlyTask(w0, w', id) && InHand(w') == InHand(w0)
      ensures UsedSame(w0, old(machine.bytes), machine.bytes)
      ensures HeapMoved(w0, old(machine.bytes), w', machine.bytes, id)
      ensures w'.spaces == if ok then w0.spaces[id := s.(heapEnd := newEnd)] else w0.spaces
      ensures Roomy(w0, id, newEnd) ==> ok
    {
      hide Shows, WorldOk, BytesOk, OnlyTask, DropsMap, Growing, MapsAlike, RoomFor, HeapMoved, Roomy, UsedSame,
           Shorter, ShrunkWorld, LeafAt;
      ghost var b0 := machine.bytes;
      ShowsParts(w0);
      var lo, hi := AlignUp(s.heapEnd), AlignUp(newEnd);
      HeapBounds(w0, id, newEnd);
      w' := Settle(id, s.(heapEnd := lo), w0);
      ghost var w1 := w';
      if hi > lo {
        RoomyFor(w0, id, newEnd);
        ok, w' := GrowHeap(id, lo, hi, w1);
        OnlyBoth(w0, w1, w', id);
        if !ok {
          ShowsParts(w');
          NotMoved(w0, b0, w1, w', machine.bytes, id, lo);
          ghost var w2 := Settle(id, s, w');
          OnlyBoth(w0, w', w2, id);
          return false, w2;
        }
        MovedUp(w0, b0, w1, w', machine.bytes, id, lo, hi, newEnd);
      } else if hi < lo {
        ShorterBy(w1, id, hi);
        ok, w' := UnmapTo(id, hi, lo, s.(heapEnd := hi), w1);
        OnlyBoth(w0, w1, w', id);
        MovedDown(w0, b0, w1, w', id, lo, hi, newEnd);
      } else {
        MovedInside(w0, b0, w1, id, newEnd);
      }
      ghost var w2 := Settle(id, s.(heapEnd := newEnd), w');
      OnlyBoth(w0, w', w2, id);
      return true, w2;
    }

    /**
     `sbrk` by task id. When it succeeds the heap ends where asked, its new pages are zero and its other pages are as
     before; when it fails the heap and its end are as before. It fails when the new end would be outside the heap's
     bounds; otherwise it succeeds when the heap needs no further page, and when it does, if nothing is mapped there and
     there are more than three free pages for each new one.
     */
    method Sbrk(id: nat, increment: int) returns (r: Result<nat>)
      requires Valid() && id in spaces
      modifies this, machine, machine.pages, machine.pages.bitmap
      ensures Valid() && InHand(world) == old(InHand(world)) && world.managed == old(world.managed)
      ensures portGiven == old(portGiven) && world.granted <= old(world.granted)
      ensures OthersKept(old(world), old(machine.bytes), world, machine.bytes, id)
      ensures HeapMoved(old(world), old(machine.bytes), world, machine.bytes, id)
      ensures r.Err? ==> spaces == old(spaces)
      ensures r.Ok? ==> InBounds(old(spaces)[id], increment) && r.value == old(spaces)[id].heapEnd
                        && spaces == old(spaces)[id := old(spaces)[id].(heapEnd := r.value + increment)]
      ensures InBounds(old(spaces)[id], increment) && Roomy(old(world), id, old(spaces)[id].heapEnd + increment) ==>
                r.Ok?
      ensures Step(old(Now()), Now(), Act.Sbrk(id))
    {
      hide Shows, WorldOk, BytesOk, OnlyTask, HeapMoved, Roomy, OthersKept, UsedSame, Whole, PortOnce,
           KernelEverywhere, KernelThere, Step, Sound;
      ghost var w0, b0 := world, machine.bytes;
      ShowsParts(w0);
      SoundNow(w0);
      WholeAt(spaces, id);
      Memory(w0);
      var s := spaces[id];
      var oldEnd, newEnd := s.heapEnd, s.heapEnd + increment;
      if newEnd < s.heapBase || newEnd > HEAP_LIMIT {
        NothingMoved(w0, b0, id);
        SbrkStep(old(Now()), Now(), id);
        return Err;
      }
      var ok;
      ghost var w;
      ok, w := MoveHeap(id, s, newEnd, w0);
      OnlyTaskOthers(w0, b0, w, machine.bytes, id);
      world := w;
      SoundNow(w);
      SameManaged(w0, w, id);
      PortLess(w0.granted, w.granted, portGiven);
      KernelAt(w0, id);
      KernelMoved(w0, b0, w, machine.bytes, id);
      KernelStays(w0, b0, w, machine.bytes, id, id);
      if !ok {
        SbrkStep(old(Now()), Now(), id);
        return Err;
      }
      WholeWith(spaces, id, s.(heapEnd := newEnd));
      spaces := spaces[id := s.(heapEnd := newEnd)];
      SbrkStep(old(Now()), Now(), id);
      return Ok(oldEnd);
    }

    // ---- Freeing ----

    /**
     One step of `free_user_space`: the page at va, the lowest left, is unmapped and given back if one is mapped
     there.
     */
    method FreePage(id: nat, va: nat, ghost s: Space, ghost w: World) returns (ghost w': World)
      requires Shows(w) && id in w.spaces && w.spaces[id] == Cut(s, va) && s.root == id && Cuttable(s, va)
      requires va + PAGE_SIZE <= MappedEnd(s)
      modifies machine`tables, machine.pages, machine.pages.bitmap
      ensures Shows(w') && w' == ShrunkWorld(w, id, machine.tables, Cut(s, va + PAGE_SIZE)) && OnlyTask(w, w', id)
      ensures InHand(w') == InHand(w)
      ensures w'.spaces == w.spaces[id := Cut(s, va + PAGE_SIZE)] && w'.free + Owned(w', id) == w.free + Owned(w, id)
    {
      hide PageAllocator.FreeAddrs, PageAllocator.IsPage, PageAllocator.Valid, WorldOk, TreeOk, BytesOk, Managed,
           LeafAt, PteToPa, IsValid, ShrunkWorld,
           OnlyTask, DropsMap, MappedEnd, Cut, Cuttable, VpnOf, EntryOf, Rewritten, Touched, Owned;
      TreeHeld(w, id);
      CutStep(s, va);
      ghost var t, v := w.trees[id], VpnOf(va);
      LowestEntry(w, id, s, va);
      var pte;
      ghost var t1;
      pte, t1 := machine.Walk(id, va, false, t);
      if pte.Some? {
        var entry := machine.ClearEntry(pte.value, true, t, v);
        ClearedMap(w.tables, machine.tables, t, v, entry);
      } else {
        NoTable(w.tables, t, v);
        EmptiedTwice(LeafAt(w.tables, t, v));
        SameRewritten(w.tables, t, v);
      }
      LowestDropped(w, id, s, va, machine.tables);
      LowestGone(w, id, s, va, machine.pages);
      ShrinkKeeps(w, id, machine.tables, Cut(s, va + PAGE_SIZE));
      w' := ShrunkWorld(w, id, machine.tables, Cut(s, va + PAGE_SIZE));
      ShrunkFacts(w, id, machine.tables, Cut(s, va + PAGE_SIZE), machine.bytes);
      ShrinkOnly(w, id, machine.tables, Cut(s, va + PAGE_SIZE));
      ShrunkOwned(w, id, machine.tables, Cut(s, va + PAGE_SIZE));
    }

    /** One of the loops of `free_user_space`, over the pages of the image or of the heap. */
    method FreeRange(id: nat, from: nat, to: nat, ghost s: Space, ghost w: World) returns (ghost w': World)
      requires Shows(w) && id in w.spaces && w.spaces[id] == Cut(s, from) && s.root == id && Cuttable(s, from)
      requires from <= to <= MappedEnd(s) && to % PAGE_SIZE == 0
      modifies machine`tables, machine.pages, machine.pages.bitmap
      ensures Shows(w') && OnlyTask(w, w', id) && InHand(w') == InHand(w) && w'.spaces == w.spaces[id := Cut(s, to)]
      ensures Cuttable(s, to)
      ensures w'.free + Owned(w', id) == w.free + Owned(w, id)
    {
      hide Shows, OnlyTask, MappedEnd, Cut, Cuttable, Owned, ShrunkWorld;
      ghost var total := w.free + Owned(w, id);
      var va := from;
      w' := w;
      ShowsParts(w);
      FreeParts(w);
      OnlyFree(w, w, id);
      assert va % PAGE_SIZE == 0 by { CutAligned(s, va); }
      while va < to
        invariant from <= va <= to && Cuttable(s, va) && va % PAGE_SIZE == 0
        invariant Shows(w') && OnlyTask(w, w', id) && InHand(w') == InHand(w) && w'.spaces == w.spaces[id := Cut(s, va)]
        invariant w'.free + Owned(w', id) == total
      {
        OneMore(va, to);
        ghost var was := w';
        w' := FreePage(id, va, s, was);
        OnlyBoth(w, was, w', id);
        CutStep(s, va);
        va := va + PAGE_SIZE;
      }
    }

    /**
     `free_user_space`: gives back the image, the heap, the user stack and the tables of a task whose kernel stack is
     not its own any more.
     */
    method FreeUserSpace(id: nat, s: Space, ghost w: World) returns (ghost w': World)
      requires Shows(w) && id in w.spaces && w.spaces[id] == s && s.root == id && s.kernelStack == 0
      modifies machine`tables, machine.pages, machine.pages.bitmap
      ensures Shows(w') && OnlyTask(w, w', id) && InHand(w') == InHand(w) && w'.spaces == w.spaces - {id}
      ensures w'.free == w.free + Owned(w, id)
    {
      hide PageAllocator.FreeAddrs, PageAllocator.IsPage, PageAllocator.Valid, Shows, WorldOk, TreeOk, BytesOk,
           Managed, LeafAt, PteToPa, IsValid, ShrunkWorld,
           OnlyTask, DropsMap, MappedEnd, Cut, Cuttable, VpnOf, Owned;
      ShowsParts(w);
      var start, end := AlignDown(s.imageBase), AlignUp(s.imageBase + s.imageSize);
      CutStart(w, id);
      w' := Recut(id, s, w);
      ghost var was := w';
      w' := FreeRange(id, start, end, s, was);
      OnlyBoth(w, was, w', id);
      var heapMappedEnd := AlignUp(s.heapEnd);
      CutSpan(s);
      was := w';
      w' := FreeRange(id, s.heapBase, heapMappedEnd, s, was);
      OnlyBoth(w, was, w', id);
      was := w';
      w' := FreeRest(id, s.userStack, s, w');
      OnlyBoth(w, was, w', id);
      assert w'.spaces == w.spaces - {id};
    }

    /** The record of a task about to be freed, from the first page of its image on. */
    ghost method Recut(id: nat, s: Space, w: World) returns (w': World)
      requires Shows(w) && id in w.spaces && w.spaces[id] == s
      ensures Shows(w') && OnlyTask(w, w', id) && InHand(w') == InHand(w)
      ensures w'.free + Owned(w', id) == w.free + Owned(w, id)
      ensures w'.spaces == w.spaces[id := Cut(s, AlignDown(s.imageBase))]
    {
      hide WorldOk, BytesOk, OnlyTask, PageAllocator.Valid, PageAllocator.FreeAddrs, Managed, Owned, Cut;
      RecutKeeps(w, id, machine.bytes);
      w' := w.(spaces := w.spaces[id := Cut(s, AlignDown(s.imageBase))]);
    }

    /** The end of `free_user_space`, when no image or heap page is left: the stack and the tables. */
    method FreeRest(id: nat, userStack: nat, ghost s: Space, ghost w: World) returns (ghost w': World)
      requires Shows(w) && id in w.spaces && w.spaces[id] == Cut(s, MappedEnd(s)) && Cuttable(s, MappedEnd(s))
      requires s.root == id && s.kernelStack == 0 && userStack == s.userStack
      modifies machine`tables, machine.pages, machine.pages.bitmap
      ensures Shows(w') && OnlyTask(w, w', id) && InHand(w') == InHand(w) && w'.spaces == w.spaces - {id}
      ensures w'.free == w.free + Owned(w, id)
    {
      hide PageAllocator.FreeAddrs, PageAllocator.IsPage, PageAllocator.Valid, WorldOk, TreeOk, BytesOk, Managed,
           LeafAt, Cut, Cuttable, MappedEnd, OnlyTask, Owned, Removed;
      TreeHeld(w, id);
      Facts(w);
      CutEmpty(w, id, s);
      ghost var t := w.trees[id];
      if userStack != 0 {
        machine.Release(userStack);
      }
      machine.Free(id, t);
      w' := Removed(w, id);
      RemoveKeeps(w, id);
      RemovedFacts(w, id, machine.bytes);
    }

    /** `free_task`: everything that is the task's goes back to the allocator, its kernel stack last. */
    method Reap(id: nat)
      requires Valid() && id in spaces
      modifies this, machine, machine.pages, machine.pages.bitmap
      ensures Valid() && spaces == old(spaces) - {id} && machine.bytes == old(machine.bytes)
      ensures world.free == old(world.free) + Owned(old(world), id)
      ensures InHand(world) == old(InHand(world)) && world.managed == old(world.managed)
      ensures portGiven == old(portGiven) && world.granted <= old(world.granted) - {id}
      ensures OthersKept(old(world), old(machine.bytes), world, machine.bytes, id)
      ensures Step(old(Now()), Now(), Act.Reap(id))
    {
      hide Shows, WorldOk, BytesOk, OnlyTask, OthersKept, UsedSame, Owned, Whole, PortOnce, KernelEverywhere,
           KernelThere, Step, Sound;
      ghost var w0, b0 := world, machine.bytes;
      ShowsParts(w0);
      SoundNow(w0);
      WholeAt(spaces, id);
      WholeWith(spaces, id, spaces[id]);
      var s := spaces[id];
      ghost var w1 := LetGo(id, w0);
      ghost var w2 := FreeUserSpace(id, s.(kernelStack := 0), w1);
      OnlyBoth(w0, w1, w2, id);
      ShowsParts(w2);
      FreeParts(w2);
      ghost var w3 := GiveBack(s.kernelStack, w2);
      OnlyFree(w2, w3, id);
      OnlyBoth(w0, w2, w3, id);
      UsedSameSelf(w0, b0);
      OnlyTaskOthers(w0, b0, w3, machine.bytes, id);
      SameManaged(w0, w3, id);
      ShowsParts(w3);
      SoundNow(w3);
      NotGranted(w3, id);
      PortLess(w0.granted, w3.granted, portGiven);
      KernelStays(w0, b0, w3, machine.bytes, id, id);
      world := w3;
      spaces := spaces - {id};
      ReapStep(old(Now()), Now(), id);
    }

    /** The kernel stack of a task passes into the hands of the caller. */
    ghost method LetGo(id: nat, w: World) returns (w': World)
      requires Shows(w) && id in w.spaces && w.spaces[id].kernelStack != 0
      ensures var p := w.spaces[id].kernelStack;
              && Shows(w') && w' == WithoutKernelStack(w, id) && OnlyTask(w, w', id) && InHand(w') == InHand(w) + {p}
                  && p !in InHand(w)
              && w'.free + Owned(w', id) + {p} == w.free + Owned(w, id) && p !in w'.free && p in Owned(w, id)
                  && PageAligned(p)
    {
      hide WorldOk, BytesOk, OnlyTask, PageAllocator.Valid, PageAllocator.FreeAddrs, PageAllocator.IsPage, Managed;
      Facts(w);
      NoKernelStackKeeps(w, id);
      FreeParts(w);
      w' := WithoutKernelStack(w, id);
      NoKernelStackOnly(w, id);
      LessBytes(w, w', machine.bytes);
    }

    // ---- The serial port ----

    /**
     `grant_uart`: the user may read and write the page of the serial port's registers; once for all tasks. The page is
     mapped, as everything of the kernel's is, so nothing else can fail. No other entry changes, and no memory changes
     hands.
     */
    method Grant(id: nat) returns (ok: bool)
      requires Valid()
      modifies this`world, this`portGiven, machine`tables, machine.pages, machine.pages.bitmap
      ensures Valid() && world.spaces == old(world.spaces)
      ensures world.uses == old(world.uses) && world.free == old(world.free) && world.managed == old(world.managed)
      ensures OthersKept(old(world), machine.bytes, world, machine.bytes, id)
      ensures ok <==> id in spaces && !old(portGiven)
      ensures ok ==> portGiven && world.granted == {id} && PortMapped(old(world), world, id)
      ensures !ok ==> portGiven == old(portGiven) && world == old(world)
      ensures Step(old(Now()), Now(), Act.Grant(id))
    {
      hide PageAllocator.FreeAddrs, PageAllocator.IsPage, PageAllocator.Valid, WorldOk, BytesOk, Whole, TreeOk,
           LeafAt, Managed, Changed, VpnOf, IsLeaf, Touched, PortMapped, MapsSame, OthersKept, KernelThere,
           KernelEverywhere;
      ghost var w := world;
      SelfKept(w, machine.bytes, id);
      if portGiven || id !in spaces {
        return false;
      }
      WholeAt(spaces, id);
      TreeHeld(w, id);
      ghost var t, done := w.trees[id], 0;
      RwLeaf();
      PortThere(w, id);
      ok, done := machine.SetFlags(id, UART, PAGE_SIZE, USER_RW, t);
      if !ok {
        assert false;
      }
      GrownFree(w.tables, t, w.free, machine.tables, t, machine.pages.FreeAddrs());
      assert machine.pages.FreeAddrs() == w.free;
      SetOutside(w.tables, machine.tables, t, w.free);
      PortGiven(w, machine.bytes, id, machine.tables);
      world := Chosen(w, id).(tables := machine.tables);
      portGiven := true;
      KernelAt(w, id);
      PortKernel(w, world, id);
      KernelStays(w, machine.bytes, world, machine.bytes, id, id);
      return true;
    }

    /** The kernel has mapped the port in every task's tables. */
    lemma PortThere(w: World, id: nat)
      requires KernelEverywhere(w) && id in w.spaces
      ensures HasTree(w, id) && IsValid(LeafAt(w.tables, w.trees[id], Page(UART, 0)))
    {
      hide TreeOk, LeafAt, IsValid, PteToPa, AddrOf, VpnOf;
      assert KernelThere(w, id);
      VpnIn(UART);
      AddrIndices(UART);
      assert Page(UART, 0) == VpnOf(UART);
      assert Leaf(w, id, VpnOf(UART)) == LeafAt(w.tables, w.trees[id], VpnOf(UART));
    }

    lemma SelfKept(w: World, b: Bytes, id: nat)
      requires WorldOk(w)
      ensures OthersKept(w, b, w, b, id)
    {
      hide Kept, SpaceOk, UseOk;
      forall o | o in w.spaces && o != id
        ensures Kept(w, b, w, b, o)
      {
        assert o in w.trees.Keys;
        KeptNone(w, b, o);
      }
    }

    lemma RwLeaf()
      ensures IsLeaf(USER_RW)
    {
    }

    // ---- New address spaces ----

    /** `pgtable::create` for a task whose image will be in the range given. */
    method Create(ghost imageBase: nat, ghost imageSize: nat, ghost w: World) returns (r: Option<nat>, ghost w': World)
      requires Shows(w) && Rooted(w) && (imageBase + imageSize) % PAGE_SIZE == 0 && imageBase + imageSize <= HEAP_LIMIT
      modifies machine`tables, machine.pages, machine.pages.bitmap
      ensures Shows(w') && InHand(w') == InHand(w) && w'.free <= w.free
      ensures r.None? ==> w' == w && w.free == {}
      ensures r.Some? ==> r.value !in w.spaces && OnlyTask(w, w', r.value)
      ensures r.Some? ==> w'.spaces == w.spaces[r.value := NewSpace(r.value, imageBase, imageSize)]
      ensures r.Some? ==> NoData(w', r.value) && w'.managed == w.managed && MapsKernel(w', r.value, {})
      ensures r.Some? ==> r.value !in w'.granted
    {
      hide PageAllocator.FreeAddrs, PageAllocator.IsPage, PageAllocator.Valid, WorldOk, TreeOk, BytesOk, Managed,
           LeafAt, Begun, NewSpace, OnlyTask, MapsKernel;
      Facts(w);
      w' := w;
      r := machine.Create();
      if r.Some? {
        FreeParts(w);
        FreshRoot(w, r.value);
        NotGranted(w, r.value);
        BeginKeeps(w, r.value, r.value, imageBase, imageSize);
        BegunFacts(w, r.value, imageBase, imageSize, machine.bytes);
        BegunEmpty(w, r.value, imageBase, imageSize);
        w' := Begun(w, r.value, r.value, imageBase, imageSize);
      }
    }

    /**
     `pgtable::map` of a range that only the kernel uses, at its own physical address; it fails for want of pages
     only.
     */
    method MapRange(id: nat, va: nat, size: nat, flags: nat, ghost mapped: set<Vpn>, ghost w: World) returns (ok: bool,
            ghost w': World)
      requires Shows(w) && Unborn(w, id) && KernelRange(w, va, size / PAGE_SIZE, flags) && IsLeaf(flags)
      requires size != 0 && size % PAGE_SIZE == 0 && flags < FLAGS && KernelFlagged(va, size / PAGE_SIZE, flags)
      requires va % PAGE_SIZE == 0 && va / PAGE_SIZE + size / PAGE_SIZE <= PPN_LIMIT && MapsKernel(w, id, mapped)
      requires mapped !! PageRange(va, size / PAGE_SIZE)
      modifies machine`tables, machine.pages, machine.pages.bitmap
      ensures Shows(w') && Grown(w, w', id, w.spaces[id], {}, Table)
      ensures if ok then MapsKernel(w', id, mapped + PageRange(va, size / PAGE_SIZE)) else w'.free == {}
    {
      hide PageAllocator.FreeAddrs, PageAllocator.IsPage, PageAllocator.Valid, WorldOk, TreeOk, BytesOk, Managed,
           LeafAt, Touched, MappedTo, Regrown, OnlyTask, Grown, IsLeaf, KernelRange, IsValid, MapsKernel,
           KernelFlagged;
      TreeHeld(w, id);
      ghost var t, t', done;
      t := w.trees[id];
      KernelFlags(w, va, size / PAGE_SIZE, flags);
      NotMapped(w, id, mapped, va, size / PAGE_SIZE);
      ok, t', done := machine.Map(id, va, va, size, flags, t);
      GrownFree(w.tables, t, w.free, machine.tables, t', machine.pages.FreeAddrs());
      RangeMapped(w.tables, t, machine.tables, t', va, size / PAGE_SIZE, done, flags, ok, machine.pages.FreeAddrs());
      KernelRangeLess(w, va, size / PAGE_SIZE, done, flags);
      KernelMapKeeps(w, id, machine.tables, t', va, flags, done);
      RegrownGrown(w, id, machine.tables, t');
      w' := Regrown(w, id, machine.tables, t', w.spaces[id]);
      GrownBytes(w, w', id, w.spaces[id], {}, Table, machine.bytes);
      RegrownParts(w, id, machine.tables, t', w.spaces[id]);
      if ok { KernelMore(w, w', id, mapped, va, size / PAGE_SIZE, flags); }
    }

    /**
     `map_kernel`: kernel memory, the serial port and the three pages of the interrupt controller are mapped, each at
     its own address and not for the user, and nothing else.
     */
    method MapKernel(id: nat, ghost w: World) returns (ok: bool, ghost w': World)
      requires Shows(w) && Unborn(w, id) && MapsKernel(w, id, {})
      modifies machine`tables, machine.pages, machine.pages.bitmap
      ensures Shows(w') && Grown(w, w', id, w.spaces[id], {}, Table)
      ensures if ok then MapsKernel(w', id, KernelPages()) else w'.free == {}
    {
      hide Shows, WorldOk, OnlyTask, Grown, KernelRange, MapsKernel, Plic, VpnOf, KernelFlagged;
      ShowsParts(w);
      GrownNone(w, id);
      KernelRangeOf(w);
      KernelCode();
      ghost var kernel := PageRange(KERNEL_START, KERNEL_SIZE / PAGE_SIZE);
      ok, w' := MapRange(id, KERNEL_START, KERNEL_SIZE, PTE_R + PTE_W + PTE_X, {}, w);
      StillUnborn(w, w', id);
      if !ok { return; }
      ghost var was := w';
      NotKernel(UART);
      assert {} + kernel == kernel;
      ok, w' := MapDevice(id, UART, kernel, was);
      GrownTables(w, was, w', id);
      StillUnborn(w, w', id);
      if !ok { return; }
      NoPlic();
      assert kernel + {VpnOf(UART)} == kernel + {VpnOf(UART)} + Plic(0);
      for i := 0 to |PLIC|
        invariant Shows(w') && Grown(w, w', id, w.spaces[id], {}, Table) && Unborn(w', id)
        invariant MapsKernel(w', id, kernel + {VpnOf(UART)} + Plic(i))
      {
        was := w';
        DevicesApart(i);
        NotKernel(PLIC[i]);
        ok, w' := MapDevice(id, PLIC[i], kernel + {VpnOf(UART)} + Plic(i), was);
        assert kernel + {VpnOf(UART)} + Plic(i) + {VpnOf(PLIC[i])} == kernel + {VpnOf(UART)} + Plic(i + 1);
        GrownTables(w, was, w', id);
        StillUnborn(w, w', id);
        if !ok { return; }
      }
      return true, w';
    }

    lemma NoPlic()
      ensures Plic(0) == {}
    {
    }

    lemma KernelRangeOf(w: World)
      ensures KernelRange(w, KERNEL_START, KERNEL_SIZE / PAGE_SIZE, PTE_R + PTE_W + PTE_X)
      ensures IsLeaf(PTE_R + PTE_W + PTE_X)
    {
    }

    method MapDevice(id: nat, at: nat, ghost mapped: set<Vpn>, ghost w: World) returns (ok: bool, ghost w': World)
      requires Shows(w) && Unborn(w, id) && at % PAGE_SIZE == 0 && at < USER_STACK_TOP && DeviceAddr(at)
      requires MapsKernel(w, id, mapped) && VpnOf(at) !in mapped
      modifies machine`tables, machine.pages, machine.pages.bitmap
      ensures Shows(w') && Grown(w, w', id, w.spaces[id], {}, Table)
      ensures if ok then MapsKernel(w', id, mapped + {VpnOf(at)}) else w'.free == {}
    {
      hide WorldOk, OnlyTask, Grown, Unborn, BytesOk, PageAllocator.Valid, PageAllocator.FreeAddrs,
           PageAllocator.IsPage, Managed, MapsKernel, VpnOf, KernelFlagged;
      Facts(w);
      OnePage(at);
      KernelDevice(at);
      ok, w' := MapRange(id, at, PAGE_SIZE, PTE_R + PTE_W, mapped, w);
    }

    /** The pages of a task that was never registered stay in the kernel's hands. */
    ghost method Abandon(id: nat, w: World) returns (w': World)
      requires Shows(w) && id in w.spaces
      ensures Shows(w') && OnlyTask(w, w', id) && w'.spaces == w.spaces - {id} && w'.free == w.free
      ensures w'.managed == w.managed && InHand(w) <= InHand(w')
    {
      hide PageAllocator.FreeAddrs, PageAllocator.IsPage, PageAllocator.Valid, WorldOk, BytesOk, Managed, OnlyTask;
      w' := Forgotten(w, id);
      AbandonKeeps(w, id, machine.bytes);
    }

    // ---- fork ----

    /** What the kernel reads in a page: of the pages that are not memory the model knows nothing. */
    function PageContent(pa: nat): (content: seq<byte>)
      reads machine`bytes
      ensures |content| == PAGE_SIZE
    {
      if pa in machine.bytes && |machine.bytes[pa]| == PAGE_SIZE then machine.bytes[pa] else Zeros(PAGE_SIZE)
    }

    /**
     The body of the copying loops of `fork`: the parent's page at va, if there is one, is copied into a fresh page
     of the child's.
     */
    method CopyPage(parent: nat, child: nat, va: nat, mustBe: bool, ghost c: Space, ghost w0: World, ghost b0: Bytes,
            ghost w: World)
      returns (ok: bool, ghost w': World)
      requires Shows(w) && WorldOk(w0) && Copying(w0, b0, w, machine.bytes, parent, child, c, va)
      requires va % PAGE_SIZE == 0 && va + PAGE_SIZE <= HEAP_LIMIT && (mustBe <==> c.heapBase <= va)
      requires va < MappedEnd(w.spaces[parent]) && w.spaces[parent].root == parent && c.root == child
      modifies machine, machine.pages, machine.pages.bitmap
      ensures Shows(w') && (ok ==> Copying(w0, b0, w', machine.bytes, parent, child, c, va + PAGE_SIZE))
      ensures !ok ==> Attempt(w0, b0, w', machine.bytes, child) && (w'.free == {} || Clash(w, parent))
    {
      hide Clash, PageAllocator.FreeAddrs, PageAllocator.IsPage, PageAllocator.Valid, WorldOk, TreeOk, BytesOk,
           Managed, LeafAt, PteToPa, VpnOf, EntryOf, Touched,
           OnlyTask, Copying, Grown, MapsAt, MapsSame, Placeable, Spent, UsedSame, SetValid, PaToPte, IsLeaf, FlagsOf;
      ghost var b, v := machine.bytes, VpnOf(va);
      CopyingParts(w0, b0, w, b, parent, child, c, va);
      w' := w;
      TreeHeld(w, parent);
      var source;
      ghost var t1;
      source, t1 := machine.Walk(parent, va, false, w.trees[parent]);
      var entry := 0;
      if source.Some? {
        entry := machine.ReadEntry(source.value, w.trees[parent], v);
      } else {
        NoTable(w.tables, w.trees[parent], v);
      }
      if source.None? || !IsValid(entry) {
        if mustBe {
          HeapThere(w, parent, va);
          assert false;
        }
        CopySkipped(w0, b0, w, b, parent, child, c, va);
        return true, w';
      }
      SourceFlags(w.tables, w.trees[parent], v);
      var page;
      page, w' := Take(w);
      if page.None? { return false, w'; }
      Fill(page.value, PageContent(PteToPa(entry)), w');
      ghost var taken := w';
      CopyPlace(w0, b0, w, b, taken, parent, child, c, va, page.value, FlagsOf(entry) / 2 * 2);
      ok, w' := MapPage(child, va, page.value, FlagsOf(entry) / 2 * 2, CopySpace(c, va + PAGE_SIZE), Data(v), taken);
      if ok {
        CopiedOwn(w0, b0, w, b, taken, parent, child, c, va);
        CopyMore(w0, b0, w, b, taken, w', machine.bytes, parent, child, c, va, page.value);
      } else {
        CopyFailed(w0, b0, w, b, taken, w', machine.bytes, parent, child, c, va, page.value);
        if w'.free != {} { CopyRefused(w0, b0, w, b, taken, parent, child, c, va); }
      }
    }

    /** A copying loop of `fork`, over the image or over the heap. */
    method CopyRange(parent: nat, child: nat, from: nat, to: nat, mustBe: bool, ghost c: Space, ghost w0: World,
            ghost b0: Bytes, ghost w: World)
      returns (ok: bool, ghost w': World)
      requires Shows(w) && WorldOk(w0) && Copying(w0, b0, w, machine.bytes, parent, child, c, from)
      requires from % PAGE_SIZE == 0 && to % PAGE_SIZE == 0 && from <= to <= MappedEnd(w.spaces[parent])
      requires to <= HEAP_LIMIT
      requires (if mustBe then c.heapBase <= from else to <= c.heapBase) && w.spaces[parent].root == parent
      requires c.root == child
      modifies machine, machine.pages, machine.pages.bitmap
      ensures Shows(w') && Attempt(w0, b0, w', machine.bytes, child)
      ensures (ok ==> Copying(w0, b0, w', machine.bytes, parent, child, c, to))
      ensures !ok ==> w'.free == {} || Clash(w0, parent)
    {
      hide Shows, WorldOk, OnlyTask, Copying, UsedSame, Attempt, Clash;
      var va := from;
      w' := w;
      CopyingParts(w0, b0, w, machine.bytes, parent, child, c, from);
      CopyAttempt(w0, b0, w, machine.bytes, parent, child, c, from);
      while va < to
        invariant from <= va <= to && va % PAGE_SIZE == 0
        invariant Shows(w') && Copying(w0, b0, w', machine.bytes, parent, child, c, va)
        invariant Attempt(w0, b0, w', machine.bytes, child)
        invariant parent in w0.spaces && parent in w'.spaces && w'.spaces[parent] == w0.spaces[parent]
      {
        OneMore(va, to);
        CopyingParts(w0, b0, w', machine.bytes, parent, child, c, va);
        ClashSame(w0, w', parent, child);
        ok, w' := CopyPage(parent, child, va, mustBe, c, w0, b0, w');
        if !ok { return false, w'; }
        CopyAttempt(w0, b0, w', machine.bytes, parent, child, c, va + PAGE_SIZE);
        CopyingParts(w0, b0, w', machine.bytes, parent, child, c, va + PAGE_SIZE);
        va := va + PAGE_SIZE;
      }
      return true, w';
    }

    /** The image and the heap of a child that has the kernel's mappings only. */
    method CopyMemory(parent: nat, child: nat, s: Space, ghost w: World) returns (ok: bool, ghost w': World)
      requires Shows(w) && parent != child && parent in w.spaces && w.spaces[parent] == s && s.root == parent
      requires NoData(w, child) && MapsKernel(w, child, KernelPages()) && child !in w.granted
      requires child in w.spaces && w.spaces[child] == NewSpace(child, s.imageBase, s.imageSize)
      modifies machine, machine.pages, machine.pages.bitmap
      ensures Shows(w') && Attempt(w, old(machine.bytes), w', machine.bytes, child)
      ensures if ok then Copied(w, old(machine.bytes), w', machine.bytes, parent, child, s)
                else w'.free == {} || Clash(w, parent)
    {
      hide Shows, WorldOk, OnlyTask, Copying, UsedSame, Attempt, Cuttable, Copied, NoData, Clash, MapsKernel,
           KernelPages;
      ShowsParts(w);
      ghost var b0, c := machine.bytes, NewSpace(child, s.imageBase, s.imageSize);
      CutStart(w, parent);
      CutSpan(s);
      EndBound(s);
      CopyingNone(w, b0, parent, child, s);
      var start, end := AlignDown(s.imageBase), AlignUp(s.imageBase + s.imageSize);
      ok, w' := CopyRange(parent, child, start, end, false, c, w, b0, w);
      if !ok { return false, w'; }
      var heapMappedEnd := AlignUp(s.heapEnd);
      CopyingParts(w, b0, w', machine.bytes, parent, child, c, end);
      ok, w' := CopyRange(parent, child, s.heapBase, heapMappedEnd, true, c, w, b0, w');
      if !ok { return false, w'; }
      CopyingParts(w, b0, w', machine.bytes, parent, child, c, heapMappedEnd);
      CopyEnd(s, c);
      ghost var was := w';
      w' := Settle(child, c.(heapEnd := s.heapEnd), was);
      CopyingDone(w, b0, was, w', machine.bytes, parent, child, c, s);
    }

    /** The child's stack: a copy of the parent's, in the page that was taken for it. */
    method CopyStack(parent: nat, child: nat, page: nat, userStack: nat, ghost s: Space, ghost w0: World,
            ghost b0: Bytes, ghost w: World) returns (ok: bool, ghost w': World)
      requires Shows(w) && WorldOk(w0) && parent in w.spaces && w.spaces[parent] == s
      requires Copied(w0, b0, w, machine.bytes, parent, child, s)
      requires child in w.spaces && w.spaces[child].root == child && s.userStack == userStack != 0 && page in InHand(w)
      modifies machine, machine.pages, machine.pages.bitmap
      ensures Shows(w') && Attempt(w0, b0, w', machine.bytes, child)
      ensures ok ==> Twins(w', machine.bytes, parent, child) && InHand(w') == InHand(w0) - {page}
                     && KernelThere(w', child) && child in w'.spaces
                         && w'.spaces[child] == Space(child, 0, page, s.imageBase, s.imageSize, s.heapBase, s.heapEnd)
      ensures !ok ==> w'.free == {}
    {
      hide PageAllocator.FreeAddrs, PageAllocator.IsPage, PageAllocator.Valid, WorldOk, BytesOk, Managed, OnlyTask,
           Copied, UsedSame, Attempt, Grown, MapsAt, MapsSame,
           Spent, Twins, Placeable, VpnOf, SetValid, PaToPte;
      CopiedParts(w0, b0, w, machine.bytes, parent, child, s);
      Facts(w);
      ghost var b := machine.bytes;
      Fill(page, PageContent(userStack), w);
      ghost var s' := w.spaces[child].(userStack := page);
      StackPlace(w, child, page);
      StackFree(w0, b0, w, b, parent, child, s);
      ok, w' := MapPage(child, STACK_PAGE, page, USER_RW, s', UserStack, w);
      if ok {
        StackCopied(w0, b0, w, b, w', machine.bytes, parent, child, s, page);
      } else {
        StackFailed(w0, b0, w, b, w', machine.bytes, parent, child, s, page);
      }
    }

    /** The child's image, heap and stack. */
    method ForkMemory(parent: nat, child: nat, page: nat, s: Space, ghost w: World) returns (ok: bool, ghost w': World)
      requires Shows(w) && parent != child && parent in w.spaces && w.spaces[parent] == s && s.root == parent
      requires s.userStack != 0 && NoData(w, child) && MapsKernel(w, child, KernelPages()) && child !in w.granted
      requires child in w.spaces && w.spaces[child] == NewSpace(child, s.imageBase, s.imageSize) && page in InHand(w)
      modifies machine, machine.pages, machine.pages.bitmap
      ensures Shows(w') && Attempt(w, old(machine.bytes), w', machine.bytes, child)
      ensures ok ==> Twins(w', machine.bytes, parent, child) && InHand(w') == InHand(w) - {page}
                     && KernelThere(w', child) && child in w'.spaces
                         && w'.spaces[child] == Space(child, 0, page, s.imageBase, s.imageSize, s.heapBase, s.heapEnd)
      ensures if ok then !Clash(w, parent) else w'.free == {} || Clash(w, parent)
    {
      hide Shows, WorldOk, OnlyTask, UsedSame, Attempt, Copied, Twins, NoData, Clash, MapsKernel, KernelPages;
      ghost var b0 := machine.bytes;
      ShowsParts(w);
      ok, w' := CopyMemory(parent, child, s, w);
      if ok {
        CopiedParts(w, b0, w', machine.bytes, parent, child, s);
        ClashSame(w, w', parent, child);
        ok, w' := CopyStack(parent, child, page, s.userStack, s, w, b0, w');
      }
    }

    /** A page in hand becomes the kernel stack of a task that has none. */
    ghost method GiveStack(id: nat, p: nat, w: World) returns (w': World)
      requires Shows(w) && id in w.spaces && w.spaces[id].kernelStack == 0 && p in InHand(w)
      ensures Shows(w') && w' == WithKernelStack(w, id, p) && OnlyTask(w, w', id) && InHand(w') == InHand(w) - {p}
      ensures p != 0
    {
      hide PageAllocator.FreeAddrs, PageAllocator.IsPage, PageAllocator.Valid, WorldOk, BytesOk, Managed, OnlyTask;
      Facts(w);
      FreeParts(w);
      KernelStackKeeps(w, id, p);
      KernelStackOnly(w, id, p);
      w' := WithKernelStack(w, id, p);
      KernelStackBytes(w, id, p, machine.bytes);
    }

    /** A new address space with the kernel's mappings. */
    method CreateMapped(ghost imageBase: nat, ghost imageSize: nat, ghost w: World) returns (r: Option<nat>, ok: bool,
            ghost w': World)
      requires Shows(w) && Rooted(w) && (imageBase + imageSize) % PAGE_SIZE == 0 && imageBase + imageSize <= HEAP_LIMIT
      modifies machine`tables, machine.pages, machine.pages.bitmap
      ensures Shows(w') && InHand(w') == InHand(w) && w'.managed == w.managed && w'.free <= w.free
      ensures r.None? ==> w' == w && !ok
      ensures r.Some? ==> r.value !in w.spaces && OnlyTask(w, w', r.value)
      ensures r.Some? ==> w'.spaces == w.spaces[r.value := NewSpace(r.value, imageBase, imageSize)]
                          && NoData(w', r.value) && r.value !in w'.granted
      ensures if ok then r.Some? && MapsKernel(w', r.value, KernelPages()) else w'.free == {}
    {
      hide Shows, OnlyTask, WorldOk, NoData, Grown, MapsKernel, KernelPages;
      r, w' := Create(imageBase, imageSize, w);
      ok := false;
      if r.Some? {
        ghost var was := w';
        ok, w' := MapKernel(r.value, was);
        StillUnborn(was, w', r.value);
        GrownParts(was, w', r.value);
        OnlyBoth(w, was, w', r.value);
        SameManaged(was, w', r.value);
      }
    }

    lemma NotGranted(w: World, id: nat)
      requires WorldOk(w) && id !in w.spaces
      ensures id !in w.granted
    {
    }

    /** A new task enters the table. */
    method Enlist(id: nat, space: Space, ghost w: World)
      requires Shows(w) && Whole(spaces) && w.spaces == spaces[id := space] && space.root == id && space.userStack != 0
      requires space.kernelStack != 0 && PortOnce(w.granted, portGiven) && KernelEverywhere(w)
      modifies this`world, this`spaces
      ensures Valid() && world == w && spaces == old(spaces)[id := space]
    {
      hide WorldOk, BytesOk, Whole, PortOnce, KernelEverywhere, KernelThere, PageAllocator.Valid,
           PageAllocator.FreeAddrs, Managed;
      WholeWith(spaces, id, space);
      world := w;
      spaces := spaces[id := space];
    }

    /** A child that could not be made is forgotten. */
    ghost method GiveUp(child: nat, w0: World, b0: Bytes, w: World)
      requires Shows(w) && Whole(spaces) && w0.spaces == spaces && PortOnce(w0.granted, portGiven)
      requires Sound(Moment(w0, b0)) && child !in w0.spaces && Attempt(w0, b0, w, machine.bytes, child)
      requires KernelEverywhere(w0)
      modifies this`world
      ensures Valid() && AllKept(w0, b0, world, machine.bytes) && world.managed == w0.managed
      ensures world.granted <= w0.granted && InHand(w0) <= InHand(world) && world.free == w.free
      ensures Step(Moment(w0, b0), Now(), Failed)
    {
      hide Shows, WorldOk, BytesOk, OnlyTask, Attempt, AllKept, Whole, PortOnce, KernelEverywhere, KernelThere, Step;
      AttemptParts(w0, b0, w, machine.bytes, child);
      var left := Abandon(child, w);
      ShowsParts(left);
      Abandoned(w0, b0, w, left, machine.bytes, child);
      PortLess(w0.granted, left.granted, portGiven);
      KernelAllKept(w0, b0, left, machine.bytes, child);
      world := left;
      SoundNow(left);
      FailedStep(Moment(w0, b0), Now());
    }

    /**
     `fork` of a task, by the roots of the two tables; slotFree is whether the task table has room for the child. On
     success the child has its parent's memory in pages of its own, and no other page has changed hands. On failure no
     task's memory has changed; what had been allocated for the child stays allocated. It fails only when there is no
     slot, when no page is left, or when the parent has a page where the kernel maps a device, and then it always fails.
     */
    method Fork(parent: nat, slotFree: bool) returns (r: Result<nat>)
      requires Valid() && parent in spaces
      modifies this, machine, machine.pages, machine.pages.bitmap
      ensures Valid() && AllKept(old(world), old(machine.bytes), world, machine.bytes)
      ensures world.managed == old(world.managed) && portGiven == old(portGiven) && world.granted <= old(world.granted)
      ensures r.Ok? ==> slotFree && !Clash(old(world), parent) && r.value !in old(spaces) && r.value in spaces
      ensures r.Ok? ==> spaces == old(spaces)[r.value := spaces[r.value]]
      ensures r.Ok? ==> Twins(world, machine.bytes, parent, r.value) && InHand(world) == old(InHand(world))
      ensures r.Err? ==> spaces == old(spaces) && old(InHand(world)) <= InHand(world)
      ensures r.Err? ==> !slotFree || world.free == {} || Clash(old(world), parent)
      ensures Step(old(Now()), Now(), if r.Ok? then Act.Fork(parent, r.value) else Failed)
    {
      hide Shows, WorldOk, OnlyTask, UsedSame, Attempt, Twins, AllKept, NoData, WithKernelStack, Whole, Rooted,
           PortOnce, KernelEverywhere, KernelThere, Clash,
           MapsKernel, KernelPages, Step, Sound;
      ghost var w0, b0 := world, machine.bytes;
      ShowsParts(w0);
      SoundNow(w0);
      WholeAt(spaces, parent);
      ForkFacts(w0, parent);
      var s := spaces[parent];
      var kernelStack, userStack, child, ok;
      ghost var w1, w2, w;
      kernelStack, w1 := Take(w0);
      TakenKept(w0, w1, b0);
      if kernelStack.None? {
        FailedStep(old(Now()), Now());
        return Err;
      }
      userStack, w2 := Take(w1);
      TakenKept(w0, w2, b0);
      KernelFailed(w0, b0, w2, b0);
      world := w2;
      SoundNow(w2);
      FailedStep(old(Now()), Now());
      if userStack.None? { return Err; }
      WholeRooted(w2);
      child, ok, w := CreateMapped(s.imageBase, s.imageSize, w2);
      if child.None? { return Err; }
      MadeAttempt(w0, w2, w, b0, child.value);
      if ok {
        ghost var mapped := w;
        AttemptParts(w0, b0, mapped, b0, child.value);
        ClashSame(w0, mapped, parent, child.value);
        ok, w := ForkMemory(parent, child.value, userStack.value, s, mapped);
        AttemptBoth(w0, b0, mapped, b0, w, machine.bytes, child.value);
      }
      if !ok || !slotFree {
        GiveUp(child.value, w0, b0, w);
        return Err;
      }
      ghost var born := GiveStack(child.value, kernelStack.value, w);
      Born(w0, b0, w, born, machine.bytes, parent, child.value, kernelStack.value);
      PortLess(w0.granted, born.granted, portGiven);
      KernelAllKept(w0, b0, born, machine.bytes, child.value);
      SoundNow(born);
      Enlist(child.value,
          Space(child.value, kernelStack.value, userStack.value, s.imageBase, s.imageSize, s.heapBase, s.heapEnd),
          born);
      ForkStep(old(Now()), Now(), parent, child.value);
      return Ok(child.value);
    }

    // ---- Loading programs ----

    /** One page of a segment: allocated, filled from the file and mapped. */
    method LoadPage(id: nat, file: seq<byte>, g: Segment, va: nat, ghost i: nat, ghost j: nat, ghost c: Space,
            ghost w0: World, ghost b0: Bytes, ghost w: World)
      returns (ok: bool, ghost w': World)
      requires Shows(w) && WorldOk(w0) && Verified(file) && Fits(file) && i < Phnum(file) && g == SegmentAt(file, i)
      requires Loadable(g) && Readable(file, g)
      requires Loading(w0, b0, w, machine.bytes, id, file, c, i, j) && LoadFrame(c, file) && c.root == id
      requires j < SegPages(g) && va == SegPageAt(g, j)
      modifies machine, machine.pages, machine.pages.bitmap
      ensures Shows(w') && Attempt(w0, b0, w', machine.bytes, id)
      ensures (ok ==> Loading(w0, b0, w', machine.bytes, id, file, c, i, j + 1))
      ensures !ok ==> w'.free == {} || !WellMade(file)
    {
      hide WellMade, PageAllocator.FreeAddrs, PageAllocator.IsPage, PageAllocator.Valid, WorldOk, BytesOk, Managed,
           OnlyTask, UsedSame, Attempt, Loading, Grown, MapsAt, MapsSame, Spent,
           Placeable, VpnOf, SetValid, PaToPte, IsSegmentPage, Verified, Fits, SegmentAt, SegFlags, IsLeaf, SegPages,
               SegPageAt, LoadFrame;
      LoadingParts(w0, b0, w, machine.bytes, id, file, c, i, j);
      ghost var b := machine.bytes;
      var page;
      page, w' := Take(w);
      LoadTaken(w0, b0, w, w', b, id, file, c, i, j);
      if page.None? { return false, w'; }
      var content := PageOf(file, g, va);
      PageSize(content, file, g, va);
      Fill(page.value, content, w');
      ghost var taken := w';
      LoadPlace(taken, file, c, i, j, id, page.value);
      ok, w' := MapPage(id, va, page.value, SegFlags(g), c, Data(VpnOf(va)), taken);
      if ok {
        LoadMore(w0, b0, w, b, taken, w', machine.bytes, id, file, c, i, j, page.value);
      } else {
        LoadFailed(w0, b0, w, b, taken, w', machine.bytes, id, file, c, i, j, page.value);
        if w'.free != {} { LoadRefused(w0, b0, w, b, taken, id, file, c, i, j); }
      }
    }

    /** The pages of one segment. */
    method LoadSegment(id: nat, file: seq<byte>, i: nat, ghost c: Space, ghost w0: World, ghost b0: Bytes,
            ghost w: World) returns (ok: bool, ghost w': World)
      requires Shows(w) && WorldOk(w0) && Verified(file) && Fits(file) && i < Phnum(file)
      requires Loadable(SegmentAt(file, i)) && Readable(file, SegmentAt(file, i))
      requires Loading(w0, b0, w, machine.bytes, id, file, c, i, 0) && LoadFrame(c, file) && c.root == id
      modifies machine, machine.pages, machine.pages.bitmap
      ensures Shows(w') && Attempt(w0, b0, w', machine.bytes, id)
      ensures (ok ==> Loading(w0, b0, w', machine.bytes, id, file, c, i + 1, 0))
      ensures !ok ==> w'.free == {} || !WellMade(file)
    {
      hide Shows, WorldOk, OnlyTask, UsedSame, Attempt, Loading, Verified, Fits, SegmentAt, LoadFrame, WellMade;
      var g := SegmentAt(file, i);
      var vaStart, vaEnd := SegStart(g), SegEnd(g);
      SegSpan(g);
      var numPages := (vaEnd - vaStart) / PAGE_SIZE;
      w' := w;
      LoadingParts(w0, b0, w, machine.bytes, id, file, c, i, 0);
      for j := 0 to numPages
        invariant Shows(w') && Attempt(w0, b0, w', machine.bytes, id)
        invariant Loading(w0, b0, w', machine.bytes, id, file, c, i, j)
      {
        ok, w' := LoadPage(id, file, g, vaStart + j * PAGE_SIZE, i, j, c, w0, b0, w');
        if !ok { return false, w'; }
      }
      SegmentDone(w0, b0, w', machine.bytes, id, file, c, i);
      return true, w';
    }

    /**
     `elf_load`: every loadable segment, in the order of the headers; where the program starts and what range it
     covers.
     */
    method ElfLoad(id: nat, file: seq<byte>, ghost c: Space, ghost w: World) returns (r: Option<(nat, nat, nat)>,
            ghost w': World)
      requires Shows(w) && Verified(file) && Fits(file) && id in w.spaces && w.spaces[id] == c && LoadFrame(c, file)
      requires c.root == id && MapsKernel(w, id, KernelPages())
      modifies machine, machine.pages, machine.pages.bitmap
      ensures Shows(w') && Attempt(w, old(machine.bytes), w', machine.bytes, id)
      ensures r.Some? ==> Loading(w, old(machine.bytes), w', machine.bytes, id, file, c, Phnum(file), 0)
      ensures r.Some? ==> ImageStart(file, Phnum(file)) != USIZE_MAX
      ensures r.Some? ==>
                r.value == (Number(file, 24, 8), ImageStart(file, Phnum(file)),
                ImageEnd(file, Phnum(file)) - ImageStart(file, Phnum(file)))
      ensures r.None? ==> w'.free == {} || !WellMade(file)
    {
      hide Shows, WorldOk, OnlyTask, UsedSame, Attempt, Loading, Fits, LoadFrame, Verified, SegmentAt, WellMade,
           MapsKernel, KernelPages;
      ghost var b0 := machine.bytes;
      ShowsParts(w);
      LoadingNone(w, b0, id, file, c);
      w' := w;
      LoadingParts(w, b0, w, b0, id, file, c, 0, 0);
      var entry, imageStart, imageEnd := Number(file, 24, 8), USIZE_MAX, 0;
      for i := 0 to Phnum(file)
        invariant Shows(w') && Attempt(w, b0, w', machine.bytes, id)
        invariant Loading(w, b0, w', machine.bytes, id, file, c, i, 0)
        invariant imageStart == ImageStart(file, i) && imageEnd == ImageEnd(file, i)
      {
        var g := SegmentAt(file, i);
        if Loadable(g) {
          if !Readable(file, g) {
            Unreadable(file, i);
            return None, w';
          }
          imageStart, imageEnd := Min(imageStart, SegStart(g)), Max(imageEnd, SegEnd(g));
          var ok;
          ok, w' := LoadSegment(id, file, i, c, w, b0, w');
          if !ok { return None, w'; }
        } else {
          SegmentSkipped(w, b0, w', machine.bytes, id, file, c, i);
        }
      }
      if imageStart == USIZE_MAX {
        NoImage(file);
        return None, w';
      }
      ImageRange(file, Phnum(file));
      return Some((entry, imageStart, imageEnd - imageStart)), w';
    }

    /** The program and a stack, in an address space that has the kernel's mappings only. */
    method LoadInto(id: nat, file: seq<byte>, ghost c: Space, ghost w: World) returns (r: Option<Image>,
            ghost w': World)
      requires Shows(w) && Verified(file) && Fits(file) && id in w.spaces && w.spaces[id] == c && LoadFrame(c, file)
      requires FrameOf(c, id, file) && MapsKernel(w, id, KernelPages())
      modifies machine, machine.pages, machine.pages.bitmap
      ensures Shows(w') && Attempt(w, old(machine.bytes), w', machine.bytes, id)
      ensures r.Some? ==> r.value.root == id && InHand(w') == InHand(w) && ImageLoaded(w', machine.bytes, r.value, file)
      ensures r.None? ==> w'.free == {} || !WellMade(file)
    {
      hide WellMade, MapsKernel, KernelPages, Shows, WorldOk, OnlyTask, UsedSame, Attempt, Loading, Fits, LoadFrame,
           Verified, ImageLoaded, Zeros, Grown, MapsAt, FrameOf;
      ghost var b0 := machine.bytes;
      FrameParts(c, id, file);
      var loaded, userStack, ok;
      loaded, w' := ElfLoad(id, file, c, w);
      if loaded.None? { return None, w'; }
      ghost var full, b := w', machine.bytes;
      ShowsParts(full);
      AllSegments(w, b0, full, b, id, file, c);
      LoadingParts(w, b0, full, b, id, file, c, Phnum(file), 0);
      userStack, w' := Take(full);
      TakenAttempt(w, b0, full, w', b, id);
      if userStack.None? { return None, w'; }
      Fill(userStack.value, Zeros(PAGE_SIZE), w');
      ghost var taken := w';
      StackLeft(w, b0, full, b, id, file, c);
      SameStack(full, taken, id);
      ok, w' := LoadStack(id, userStack.value, b, full, taken);
      if !ok {
        StackAttempt(w, b0, full, b, taken, w', machine.bytes, id, userStack.value, c, {});
        return None, w';
      }
      StackAttempt(w, b0, full, b, taken, w', machine.bytes, id, userStack.value, c.(userStack := userStack.value),
          {userStack.value});
      ImageDone(w, b0, full, b, taken, w', machine.bytes, id, file, c, userStack.value, loaded.value);
      return Some(Image(id, userStack.value, loaded.value.0, loaded.value.1, loaded.value.2)), w';
    }

    /** `load`: a whole address space for a program, not yet a task's. */
    method Load(found: Option<seq<byte>>, ghost w: World) returns (r: Option<Image>, ghost w': World)
      requires Shows(w) && Rooted(w) && (found.Some? ==> Fits(found.value))
      modifies machine, machine.pages, machine.pages.bitmap
      ensures Shows(w') && w'.managed == w.managed && w'.granted <= w.granted
      ensures r.None? ==> w'.spaces == w.spaces && AllKept(w, old(machine.bytes), w', machine.bytes)
      ensures r.None? ==> InHand(w) <= InHand(w')
      ensures r.Some? ==> found.Some? && r.value.root !in w.spaces
      ensures r.Some? ==> Attempt(w, old(machine.bytes), w', machine.bytes, r.value.root) && InHand(w') == InHand(w)
                          && ImageLoaded(w', machine.bytes, r.value, found.value)
      ensures r.None? ==> found.None? || !WellMade(found.value) || w'.free == {}
    {
      hide WellMade, MapsKernel, KernelPages, Shows, WorldOk, OnlyTask, UsedSame, Attempt, Fits, LoadFrame, AllKept,
           NoData, Verified, ImageLoaded, FrameOf;
      ghost var b0 := machine.bytes;
      ShowsParts(w);
      w' := w;
      TakenKept(w, w, b0);
      if found.None? { return None, w'; }
      var file := found.value;
      if |file| < HEADER_SIZE || !Verified(file) {
        NoImage(file);
        return None, w';
      }
      ghost var c0 := FrameFor(file);
      FrameRange(file);
      var root, ok;
      root, ok, w' := CreateMapped(c0.imageBase, c0.imageSize, w);
      if root.None? { return None, w'; }
      FrameIs(file, root.value);
      MadeAttempt(w, w, w', b0, root.value);
      if ok {
        ghost var made := w';
        r, w' := LoadInto(root.value, file, NewSpace(root.value, c0.imageBase, c0.imageSize), made);
        AttemptBoth(w, b0, made, b0, w', machine.bytes, root.value);
        AttemptManaged(w, b0, w', machine.bytes, root.value);
        AttemptGranted(w, b0, w', machine.bytes, root.value);
        if r.Some? { return r, w'; }
      }
      AttemptParts(w, b0, w', machine.bytes, root.value);
      ghost var left := Abandon(root.value, w');
      ShowsParts(left);
      Abandoned(w, b0, w', left, machine.bytes, root.value);
      return None, left;
    }

    /** The zeroed stack page of a new program. */
    method LoadStack(id: nat, page: nat, ghost b: Bytes, ghost full: World, ghost w: World) returns (ok: bool,
            ghost w': World)
      requires Shows(w) && id in w.spaces && w.spaces[id].root == id && w.spaces[id].userStack == 0 && page in InHand(w)
      requires page in machine.bytes && |machine.bytes[page]| == PAGE_SIZE
      modifies machine`tables, machine.pages, machine.pages.bitmap
      ensures Shows(w')
      ensures Grown(w, w', id, if ok then w.spaces[id].(userStack := page) else w.spaces[id], if ok then {page}
                else {}, UserStack)
      ensures ok ==> MapsAt(w, w', id, VpnOf(STACK_PAGE), PaToPte(page, SetValid(USER_RW)))
      ensures !ok ==> HasTree(w, id) && (w'.free == {} || IsValid(Leaf(w, id, VpnOf(STACK_PAGE))))
    {
      TreeHeld(w, id);
      hide WorldOk, BytesOk, PageAllocator.Valid, PageAllocator.FreeAddrs, PageAllocator.IsPage, Managed, Grown,
           MapsAt, MapsSame, Spent, Placeable, VpnOf, SetValid, PaToPte;
      StackPlace(w, id, page);
      ok, w' := MapPage(id, STACK_PAGE, page, USER_RW, w.spaces[id].(userStack := page), UserStack, w);
    }

    /**
     `create_user_image`: gives the program a kernel stack and a place in the task table. When there is none of either,
     everything that was loaded is given back.
     */
    method Register(image: Image, slotFree: bool, ghost w: World) returns (r: Option<Space>, ghost w': World)
      requires Shows(w) && image.root in w.spaces && w.spaces[image.root] == SpaceOf(image)
      modifies machine`tables, machine.pages, machine.pages.bitmap
      ensures Shows(w') && OnlyTask(w, w', image.root) && InHand(w') == InHand(w)
      ensures r.None? ==> w'.spaces == w.spaces - {image.root} && w'.free == w.free + Owned(w, image.root)
      ensures r.None? ==> (!slotFree || w.free == {})
      ensures r.Some? ==> slotFree && r.value.kernelStack != 0
      ensures r.Some? ==> r.value == SpaceOf(image).(kernelStack := r.value.kernelStack)
                          && w'.spaces == w.spaces[image.root := r.value] && MapsSame(w, w', image.root)
    {
      hide Shows, WorldOk, OnlyTask, Owned, MapsSame;
      var id, s := image.root, SpaceOf(image);
      if !slotFree {
        w' := FreeUserSpace(id, s, w);
        return None, w';
      }
      var stack;
      ShowsParts(w);
      FreeParts(w);
      stack, w' := Take(w);
      OnlyFree(w, w', id);
      if stack.None? {
        w' := FreeUserSpace(id, s, w);
        return None, w';
      }
      ghost var taken := w';
      ShowsParts(taken);
      w' := GiveStack(id, stack.value, taken);
      OnlyBoth(w, taken, w', id);
      StackMaps(w, taken, w', id, stack.value);
      return Some(s.(kernelStack := stack.value)), w';
    }

    /**
     `spawn`: a new task from a file of the initial ramdisk; the root of its tables and its entry point. It fails when
     there is no such file, when the file is not well made, or when pages run out; when the task cannot be registered
     all its pages are free again.
     */
    method Spawn(found: Option<seq<byte>>, slotFree: bool) returns (r: Result<(nat, nat)>)
      requires Valid() && (found.Some? ==> Fits(found.value))
      modifies this, machine, machine.pages, machine.pages.bitmap
      ensures Valid() && AllKept(old(world), old(machine.bytes), world, machine.bytes)
      ensures world.managed == old(world.managed) && portGiven == old(portGiven) && world.granted <= old(world.granted)
      ensures r.Ok? ==> found.Some? && slotFree && r.value.0 !in old(spaces) && r.value.0 in spaces
      ensures r.Ok? ==> spaces == old(spaces)[r.value.0 := spaces[r.value.0]]
      ensures r.Ok? ==> InHand(world) == old(InHand(world))
      ensures r.Ok? ==> Runs(world, machine.bytes, r.value.0, r.value.1, found.value)
      ensures r.Err? ==> spaces == old(spaces) && old(InHand(world)) <= InHand(world)
      ensures r.Err? ==> found.None? || !WellMade(found.value) || world.free == {} || world.free == old(world.free)
      ensures Step(old(Now()), Now(), if r.Ok? then Act.Spawn(r.value.0, r.value.1, found.value) else Failed)
    {
      hide WellMade, Sound, Step, Shows, WorldOk, OnlyTask, UsedSame, Attempt, Fits, AllKept, ImageLoaded, Owned,
           MapsSame,
           Runs, SpaceOf, Whole, Rooted, PortOnce, KernelEverywhere, KernelThere;
      ghost var w0, b0 := world, machine.bytes;
      ShowsParts(w0);
      SoundNow(w0);
      WholeRooted(w0);
      var image, space;
      ghost var w, done;
      image, w := Load(found, w0);
      PortLess(w0.granted, w.granted, portGiven);
      SoundNow(w);
      if image.None? {
        KernelFailed(w0, b0, w, machine.bytes);
        world := w;
        FailedStep(old(Now()), Now());
        return Err;
      }
      ghost var b := machine.bytes;
      LoadedRecord(w0, b0, w, b, image.value, found.value);
      space, done := Register(image.value, slotFree, w);
      AttemptThen(w0, b0, w, b, done, image.value.root);
      PortLess(w0.granted, done.granted, portGiven);
      SoundNow(done);
      if space.None? {
        ShowsParts(done);
        FreeAgain(w0, b0, done, b);
        KernelFailed(w0, b0, done, b);
        world := done;
        FailedStep(old(Now()), Now());
        return Err;
      }
      StillRuns(w, b, done, image.value, found.value, space.value);
      RunsKernel(done, b, image.value.root, image.value.entry, found.value);
      KernelAllKept(w0, b0, done, b, image.value.root);
      Enlist(image.value.root, space.value, done);
      SpawnStep(old(Now()), Now(), image.value.root, image.value.entry, found.value);
      return Ok((image.value.root, image.value.entry));
    }

    /**
     `exec` by task id: the task goes on with a new address space and the kernel stack it had; the old one is given
     back.
     */
    method Exec(id: nat, found: Option<seq<byte>>) returns (r: Result<(nat, nat)>)
      requires Valid() && id in spaces && (found.Some? ==> Fits(found.value))
      modifies this, machine, machine.pages, machine.pages.bitmap
      ensures Valid() && OthersKept(old(world), old(machine.bytes), world, machine.bytes, id)
      ensures world.managed == old(world.managed) && portGiven == old(portGiven) && world.granted <= old(world.granted)
      ensures r.Ok? ==> found.Some? && r.value.0 !in old(spaces) && r.value.0 in spaces
      ensures r.Ok? ==> spaces == (old(spaces) - {id})[r.value.0 := spaces[r.value.0]]
      ensures r.Ok? ==> spaces[r.value.0].kernelStack == old(spaces)[id].kernelStack
      ensures r.Ok? ==> InHand(world) == old(InHand(world))
      ensures r.Ok? ==> Runs(world, machine.bytes, r.value.0, r.value.1, found.value)
      ensures r.Err? ==> spaces == old(spaces) && AllKept(old(world), old(machine.bytes), world, machine.bytes)
      ensures r.Err? ==> old(InHand(world)) <= InHand(world)
      ensures r.Err? ==> found.None? || !WellMade(found.value) || world.free == {}
      ensures Step(old(Now()), Now(), if r.Ok? then Act.Exec(id, r.value.0, r.value.1, found.value) else Failed)
    {
      hide WellMade, Shows, WorldOk, OnlyTask, UsedSame, Attempt, Fits, AllKept, OthersKept, ImageLoaded, Owned,
           MapsSame, Runs, WithKernelStack, WithoutKernelStack, Whole, Rooted, PortOnce, KernelEverywhere,
           KernelThere, Step, Sound;
      ghost var w0, b0 := world, machine.bytes;
      ShowsParts(w0);
      SoundNow(w0);
      WholeRooted(w0);
      WholeAt(spaces, id);
      var s := spaces[id];
      var image;
      ghost var w;
      image, w := Load(found, w0);
      PortLess(w0.granted, w.granted, portGiven);
      SoundNow(w);
      if image.None? {
        KeptOthers(w0, b0, w, machine.bytes, id);
        KernelFailed(w0, b0, w, machine.bytes);
        world := w;
        FailedStep(old(Now()), Now());
        return Err;
      }
      ghost var b := machine.bytes;
      LoadedRecord(w0, b0, w, b, image.value, found.value);
      ghost var bare := LetGo(id, w);
      BareParts(w, bare, id, image.value.root);
      ghost var both := GiveStack(image.value.root, s.kernelStack, bare);
      ShowsParts(w);
      ShowsParts(bare);
      ShowsParts(both);
      BothParts(bare, both, id, image.value.root, s.kernelStack);
      ghost var done := FreeUserSpace(id, s.(kernelStack := 0), both);
      Replaced(w0, b0, w, bare, both, done, b, id, image.value, found.value, s.kernelStack);
      PortLess(w0.granted, done.granted, portGiven);
      SoundNow(done);
      RunsKernel(done, b, image.value.root, image.value.entry, found.value);
      KernelStays(w0, b0, done, b, id, image.value.root);
      world := done;
      var heapBase := image.value.imageBase + image.value.imageSize;
      var now := Space(image.value.root, s.kernelStack, image.value.userStack, image.value.imageBase,
          image.value.imageSize, heapBase, heapBase);
      WholeWith(spaces, id, s);
      WholeWith(spaces - {id}, image.value.root, now);
      spaces := (spaces - {id})[image.value.root := now];
      ExecStep(old(Now()), Now(), id, image.value.root, image.value.entry, found.value);
      return Ok((image.value.root, image.value.entry));
    }

    /** Fills a page in hand. */
    method Fill(pa: nat, content: seq<byte>, ghost w: World)
      requires Shows(w) && pa in InHand(w) && |content| == PAGE_SIZE
      modifies machine`bytes
      ensures Shows(w) && machine.bytes == old(machine.bytes)[pa := content]
    {
      hide WorldOk, PageAllocator.Valid;
      machine.bytes := machine.bytes[pa := content];
    }
  }
}
