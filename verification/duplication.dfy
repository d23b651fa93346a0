/**
 What `fork` does (src/kernel/task.rs, src/kernel/vm.rs): a new address space with the kernel's mappings, and copies of
 the parent's pages in it.
 */
module Duplication {
  import opened Wrappers
  import opened Words
  import opened Pages
  import opened PageTables
  import opened Mmu
  import opened Ownership
  import opened Memories
  import opened Placement
  import opened HeapMoves
  import opened Teardown

  // ---- Building an address space ----

  ghost predicate Rooted(w: World) {
    forall id {:trigger w.spaces[id]} :: id in w.spaces ==> w.spaces[id].root == id
  }

  /** The task has no image or heap page yet. */
  ghost predicate NoData(w: World, id: nat) {
    forall pa {:trigger w.uses[pa]} :: pa in w.uses && w.uses[pa].id == id ==> w.uses[pa].role == Table
  }

  /** A task that is being made. */
  ghost predicate Unborn(w: World, id: nat) {
    id in w.spaces && w.spaces[id].root == id && w.spaces[id].userStack == 0
        && w.spaces[id].heapEnd == w.spaces[id].heapBase
  }

  /** The kernel's entry for a page: at its own address, and executable where the kernel's code is. */
  function KernelLeaf(v: Vpn): nat {
    PaToPte(AddrOf(v), PTE_R + PTE_W + PTE_V + if AddrOf(v) < USER_STACK_TOP then 0 else PTE_X)
  }

  /** The task's tables map the pages of the set as the kernel does, and nothing else. */
  ghost predicate MapsKernel(w: World, id: nat, pages: set<Vpn>) {
    HasTree(w, id) && forall u: Vpn {:trigger Leaf(w, id, u)} :: u.v0 < ENTRIES ==>
        if u in pages then Leaf(w, id, u) == KernelLeaf(u) else !IsValid(Leaf(w, id, u))
  }

  /** The pages that the kernel maps into every address space. */
  ghost function KernelPages(): (s: set<Vpn>) {
    PageRange(KERNEL_START, KERNEL_SIZE / PAGE_SIZE) + {VpnOf(UART)} + Plic(3)
  }

  ghost function Plic(n: nat): (s: set<Vpn>)
    requires n <= 3
  {
    set i | 0 <= i < n :: VpnOf(PLIC[i])
  }

  /** The page does not lie in kernel memory. */
  lemma NotKernel(a: nat)
    requires a % PAGE_SIZE == 0 && a < USER_STACK_TOP
    ensures VpnOf(a) !in PageRange(KERNEL_START, KERNEL_SIZE / PAGE_SIZE)
  {
    hide AddrOf, VpnOf;
    AddrIndices(a);
    RangeIs(KERNEL_START, KERNEL_SIZE / PAGE_SIZE, VpnOf(a));
  }

  /** The device pages are different ones. */
  lemma DevicesApart(n: nat)
    requires n < 3
    ensures PLIC[n] % PAGE_SIZE == 0 && PLIC[n] < USER_STACK_TOP && VpnOf(PLIC[n]) != VpnOf(UART)
    ensures VpnOf(PLIC[n]) !in Plic(n) && Plic(n + 1) == Plic(n) + {VpnOf(PLIC[n])}
  {
    assert VpnOf(UART) == Vpn(0, 128, 0) && VpnOf(PLIC[0]) == Vpn(0, 96, 0) && VpnOf(PLIC[1]) == Vpn(0, 96, 2)
        && VpnOf(PLIC[2]) == Vpn(0, 97, 1);
  }

  predicate IsDevice(v: Vpn) {
    VpnOk(v) && DeviceAddr(AddrOf(v))
  }

  /** The kernel's pages are those at its addresses; in user memory they are the devices. */
  lemma KernelPage(v: Vpn)
    requires VpnOk(v)
    ensures v in KernelPages() <==> KernelAddr(AddrOf(v))
    ensures v in KernelPages() && AddrOf(v) < USER_STACK_TOP ==> IsDevice(v)
  {
    hide AddrOf, VpnOf, Page;
    RangeIs(KERNEL_START, KERNEL_SIZE / PAGE_SIZE, v);
    DeviceVpn(UART, v);
    forall i | 0 <= i < 3
      ensures v == VpnOf(PLIC[i]) <==> AddrOf(v) == PLIC[i]
    {
      DeviceVpn(PLIC[i], v);
    }
  }

  lemma DeviceVpn(at: nat, v: Vpn)
    requires VpnOk(v) && at % PAGE_SIZE == 0 && at < VA_LIMIT
    ensures v == VpnOf(at) <==> AddrOf(v) == at
  {
    hide AddrOf, VpnOf;
    AddrIndices(at);
    IndicesAddr(v);
  }

  /** Mapping a fresh range: why it fails, and what is mapped after it. */
  lemma RangeMapped(tables: Tables, t: Tree, tables': Tables, t': Tree, va: nat, n: nat, done: nat, flags: nat,
          ok: bool, free: set<nat>)
    requires TreeOk(tables, t) && TreeOk(tables', t') && flags < FLAGS
    requires MappedTo(tables, t, tables', t', va, va, flags, done) && done <= n
    requires va % PAGE_SIZE == 0 && va + n * PAGE_SIZE <= VA_LIMIT
               && forall u {:trigger u in PageRange(va, n)} :: u in PageRange(va, n) ==> !IsValid(LeafAt(tables, t, u))
    requires if ok then done == n
             else done < n && (free == {} || IsValid(LeafAt(tables', t', Page(va, done))))
    ensures ok || free == {}
    ensures ok ==> forall u: Vpn {:trigger LeafAt(tables', t', u)} :: u.v0 < ENTRIES ==>
              LeafAt(tables', t', u) == if u in PageRange(va, n) then PaToPte(AddrOf(u), SetValid(flags))
                  else LeafAt(tables, t, u)
  {
    hide TreeOk, LeafAt, IsValid, PaToPte, SetValid, Page, VpnOf, AddrOf;
    if !ok {
      PageLater(va, done, n);
      assert LeafAt(tables', t', Page(va, done)) == LeafAt(tables, t, Page(va, done));
    } else {
      forall u: Vpn | u.v0 < ENTRIES && u in PageRange(va, n)
        ensures LeafAt(tables', t', u) == PaToPte(AddrOf(u), SetValid(flags))
      {
        var i := InRange(va, n, u);
        PageAddrOf(va, i, n);
      }
    }
  }

  lemma PageLater(va: nat, done: nat, n: nat)
    requires va % PAGE_SIZE == 0 && va + n * PAGE_SIZE <= VA_LIMIT && done < n
    ensures Page(va, done) in PageRange(va, n) && Page(va, done) !in PageRange(va, done)
  {
    hide AddrOf, VpnOf;
    PageAddrOf(va, done, n);
    RangeIs(va, done, Page(va, done));
  }

  /** The flags are those of the kernel's entries for the range. */
  ghost predicate KernelFlagged(va: nat, n: nat, flags: nat)
    requires flags < FLAGS
  {
    forall u {:trigger u in PageRange(va, n)} :: u in PageRange(va, n) ==>
      KernelLeaf(u) == PaToPte(AddrOf(u), SetValid(flags))
  }

  lemma KernelMore(w: World, w': World, id: nat, pages: set<Vpn>, va: nat, n: nat, flags: nat)
    requires MapsKernel(w, id, pages) && HasTree(w', id) && flags < FLAGS && KernelFlagged(va, n, flags)
    requires forall u: Vpn {:trigger LeafAt(w'.tables, w'.trees[id], u)} :: u.v0 < ENTRIES ==>
               LeafAt(w'.tables, w'.trees[id], u) == if u in PageRange(va, n) then PaToPte(AddrOf(u), SetValid(flags))
                   else LeafAt(w.tables, w.trees[id], u)
    ensures MapsKernel(w', id, pages + PageRange(va, n))
  {
    hide TreeOk, LeafAt, IsValid, PaToPte, SetValid, AddrOf, KernelLeaf;
    forall u: Vpn | u.v0 < ENTRIES
      ensures if u in pages + PageRange(va, n) then Leaf(w', id, u) == KernelLeaf(u) else !IsValid(Leaf(w', id, u))
    {
      assert Leaf(w, id, u) == LeafAt(w.tables, w.trees[id], u);
      assert Leaf(w', id, u) == LeafAt(w'.tables, w'.trees[id], u);
    }
  }

  lemma NotMapped(w: World, id: nat, pages: set<Vpn>, va: nat, n: nat)
    requires MapsKernel(w, id, pages) && pages !! PageRange(va, n)
    ensures forall u {:trigger u in PageRange(va, n)} :: u in PageRange(va, n) ==>
              !IsValid(LeafAt(w.tables, w.trees[id], u))
  {
    hide TreeOk, LeafAt, IsValid, KernelLeaf;
    forall u | u in PageRange(va, n)
      ensures !IsValid(LeafAt(w.tables, w.trees[id], u))
    {
      assert Leaf(w, id, u) == LeafAt(w.tables, w.trees[id], u);
    }
  }

  /** The kernel's memory is executable, its devices are not. */
  lemma KernelCode()
    ensures KernelFlagged(KERNEL_START, KERNEL_SIZE / PAGE_SIZE, PTE_R + PTE_W + PTE_X)
  {
    hide AddrOf, VpnOf, Page;
    forall u | u in PageRange(KERNEL_START, KERNEL_SIZE / PAGE_SIZE)
      ensures KernelLeaf(u) == PaToPte(AddrOf(u), SetValid(PTE_R + PTE_W + PTE_X))
    {
      var i := InRange(KERNEL_START, KERNEL_SIZE / PAGE_SIZE, u);
      PageAddrOf(KERNEL_START, i, KERNEL_SIZE / PAGE_SIZE);
    }
  }

  lemma KernelDevice(at: nat)
    requires at % PAGE_SIZE == 0 && at < USER_STACK_TOP
    ensures KernelFlagged(at, 1, PTE_R + PTE_W)
  {
    hide AddrOf, VpnOf;
    OnePage(at);
    AddrIndices(at);
  }

  lemma OnePage(at: nat)
    ensures PageRange(at, 1) == {VpnOf(at)}
  {
    assert PageRange(at, 0) == {} && Page(at, 0) == VpnOf(at);
  }

  lemma FreshRoot(w: World, root: nat)
    requires WorldOk(w) && Rooted(w) && root in w.free
    ensures root !in w.spaces && root !in w.uses
  {
    hide TreeOk, EntryOk, LeafAt, UseOk;
    if root in w.spaces { RootUsed(w, root); }
  }

  lemma RootUsed(w: World, root: nat)
    requires WorldOk(w) && root in w.spaces && w.spaces[root].root == root
    ensures UsedAs(w, root, root, Table)
  {
    hide TreeOk, EntryOk, LeafAt, UseOk;
    SpaceAt(w, root);
    RootIn(w.tables, w.trees[root]);
  }

  lemma BegunFacts(w: World, root: nat, imageBase: nat, imageSize: nat, b: Bytes)
    requires WorldOk(w) && BytesOk(w, b) && root in w.free && root !in w.spaces && root !in w.uses
    ensures var w' := Begun(w, root, root, imageBase, imageSize);
            && w'.tables == w.tables[root := Blank()] && w'.free == w.free - {root} && w'.managed == w.managed
                && InHand(w') == InHand(w) && w'.granted == w.granted
            && w'.spaces == w.spaces[root := NewSpace(root, imageBase, imageSize)] && OnlyTask(w, w', root)
                && NoData(w', root) && BytesOk(w', b)
  {
    hide TreeOk, SpaceOk;
    var w' := Begun(w, root, root, imageBase, imageSize);
    forall pa | pa in w.uses
      ensures w.uses[pa].id != root
    {
      UseAt(w, pa);
      UserThere(w, pa);
    }
    assert w'.spaces.Keys + {root} == w.spaces.Keys + {root};
    forall pa | DataPage(w', pa)
      ensures pa in b && |b[pa]| == PAGE_SIZE
    {
      assert DataPage(w, pa);
    }
  }

  lemma BegunEmpty(w: World, root: nat, imageBase: nat, imageSize: nat)
    requires PageAligned(root)
    ensures MapsKernel(Begun(w, root, root, imageBase, imageSize), root, {})
  {
    var w' := Begun(w, root, root, imageBase, imageSize);
    NewTreeOk(w'.tables, root);
    hide TreeOk, LeafAt;
    ZeroInvalid();
  }

  lemma KernelFlags(w: World, va: nat, n: nat, flags: nat)
    requires KernelRange(w, va, n, flags)
    ensures flags < FLAGS && va % PAGE_SIZE == 0 && va + n * PAGE_SIZE <= VA_LIMIT
  {
  }

  lemma KernelRangeLess(w: World, va: nat, n: nat, k: nat, flags: nat)
    requires KernelRange(w, va, n, flags) && k <= n
    ensures KernelRange(w, va, k, flags)
  {
  }

  lemma GrownNone(w: World, id: nat)
    requires WorldOk(w) && id in w.spaces
    ensures Grown(w, w, id, w.spaces[id], {}, Table)
  {
    hide UseOk, SpaceOk;
    assert w.spaces == w.spaces[id := w.spaces[id]];
  }

  lemma GrownTables(a: World, b: World, c: World, id: nat)
    requires id in a.spaces && id in b.spaces && Grown(a, b, id, a.spaces[id], {}, Table)
    requires Grown(b, c, id, b.spaces[id], {}, Table)
    ensures Grown(a, c, id, a.spaces[id], {}, Table)
  {
    hide OnlyTask;
    OnlyBoth(a, b, c, id);
  }

  lemma StillUnborn(a: World, b: World, id: nat)
    requires Unborn(a, id) && Grown(a, b, id, a.spaces[id], {}, Table)
    ensures Unborn(b, id) && b.spaces == a.spaces && (NoData(a, id) ==> NoData(b, id))
  {
    hide OnlyTask;
    assert a.spaces == a.spaces[id := a.spaces[id]];
    forall pa | pa in b.uses && b.uses[pa].id == id && NoData(a, id)
      ensures b.uses[pa].role == Table
    {
      assert pa in a.uses || pa !in a.uses;
    }
  }

  /** A task is forgotten, and its pages are left in the kernel's hands. */
  ghost function Forgotten(w: World, id: nat): World {
    w.(trees := w.trees - {id}, spaces := w.spaces - {id}, uses := w.uses - Owned(w, id), granted := w.granted - {id})
  }

  lemma AbandonKeeps(w: World, id: nat, b: Bytes)
    requires WorldOk(w) && BytesOk(w, b) && id in w.spaces
    ensures var w' := Forgotten(w, id);
            WorldOk(w') && BytesOk(w', b) && OnlyTask(w, w', id) && InHand(w) <= InHand(w')
  {
    hide TreeOk, SpaceOk, UseOk;
    var w' := Forgotten(w, id);
    assert OnlyTask(w, w', id) by {
      assert w'.spaces.Keys + {id} == w.spaces.Keys + {id};
    }
    LessBytes(w, w', b);
    TaskKeeps(w, w', id);
  }

  // ---- Copying a parent's pages ----

  /** What the task maps is the kernel's, or lies below va. */
  ghost predicate KernelOrBelow(w: World, id: nat, va: nat) {
    HasTree(w, id)
    && forall u: Vpn {:trigger Leaf(w, id, u)} :: u.v0 < ENTRIES && VpnOk(u) && IsValid(Leaf(w, id, u)) ==>
        u in KernelPages() || AddrOf(u) < va
  }

  /** The task maps a page of its image or heap where the kernel maps a device into every address space. */
  ghost predicate ClashAt(w: World, id: nat, u: Vpn) {
    HasTree(w, id) && u.v0 < ENTRIES && InUser(w.spaces[id], u) && IsValid(Leaf(w, id, u)) && IsDevice(u)
  }

  ghost predicate Clash(w: World, id: nat) {
    exists u :: ClashAt(w, id, u)
  }

  /** So there is no such page below va. */
  ghost predicate NoClashBelow(w: World, id: nat, va: nat) {
    forall u {:trigger ClashAt(w, id, u)} :: ClashAt(w, id, u) ==> va <= AddrOf(u)
  }

  /** As every task maps the devices, that is so exactly when the image has a device's address in its range. */
  lemma ClashIs(w: World, id: nat)
    requires WorldOk(w) && id in w.spaces && KernelThere(w, id) && HighMemory(w)
    ensures var s := w.spaces[id];
            Clash(w, id) <==> exists a: nat :: DeviceAddr(a) && AlignDown(s.imageBase) <= a < s.heapBase
  {
    hide TreeOk, LeafAt, IsValid, PteToPa, AddrOf, VpnOf, AlignDown, AlignUp, WorldOk;
    var s := w.spaces[id];
    SpaceAt(w, id);
    SpaceParts(w, id);
    HeapStarts(s);
    if Clash(w, id) {
      var u :| ClashAt(w, id, u);
      if InHeap(s, u) { HeapPage(w, id, u); }
      assert DeviceAddr(AddrOf(u));
    }
    if a: nat :| DeviceAddr(a) && AlignDown(s.imageBase) <= a < s.heapBase {
      AddrIndices(a) by { DeviceBound(a); }
      VpnIn(a);
      assert ClashAt(w, id, VpnOf(a));
    }
  }

  lemma DeviceBound(a: nat)
    requires DeviceAddr(a)
    ensures a % PAGE_SIZE == 0 && a < VA_LIMIT
  {
  }

  lemma HeapStarts(s: Space)
    requires Layout(s)
    ensures s.heapBase <= MappedEnd(s)
  {
  }

  /** Such a page stays one while another task is changed. */
  lemma ClashSame(w0: World, w: World, parent: nat, child: nat)
    requires WorldOk(w0) && OnlyTask(w0, w, child) && parent in w0.spaces && parent != child
    ensures forall u {:trigger ClashAt(w, parent, u)} :: ClashAt(w, parent, u) <==> ClashAt(w0, parent, u)
    ensures Clash(w, parent) <==> Clash(w0, parent)
  {
    hide TreeOk, LeafAt, WorldOk, InUser, IsValid, IsDevice;
    OthersTree(w0, w, child, parent);
    forall u
      ensures ClashAt(w, parent, u) <==> ClashAt(w0, parent, u)
    {
      if u.v0 < ENTRIES { assert Leaf(w, parent, u) == Leaf(w0, parent, u); }
      SameRecord(w0, w, child, parent);
    }
  }

  lemma SameRecord(w0: World, w: World, id: nat, o: nat)
    requires OnlyTask(w0, w, id) && o in w0.spaces && o != id
    ensures o in w.spaces && w.spaces[o] == w0.spaces[o]
  {
    assert o in w0.spaces.Keys + {id};
  }

  /** Why a copy could not be mapped. */
  lemma CopyRefused(w0: World, b0: Bytes, w: World, b: Bytes, taken: World, parent: nat, child: nat, c: Space, va: nat)
    requires Copying(w0, b0, w, b, parent, child, c, va) && va % PAGE_SIZE == 0 && va + PAGE_SIZE <= HEAP_LIMIT
    requires va < MappedEnd(w.spaces[parent])
    requires taken == w.(free := taken.free) && IsValid(Leaf(w, parent, VpnOf(va)))
    requires IsValid(Leaf(taken, child, VpnOf(va)))
    ensures Clash(w, parent)
  {
    hide OnlyTask, TreeOk, LeafAt, UsedSame, AddrOf, VpnOf, InUser, IsValid, KernelPages, Twin, IsDevice;
    CopyVpn(c, w.spaces[parent], va);
    CopyBound(c, w.spaces[parent], va);
    assert Leaf(taken, child, VpnOf(va)) == Leaf(w, child, VpnOf(va));
    KernelPage(VpnOf(va));
    assert ClashAt(w, parent, VpnOf(va));
  }

  /** The heap has no holes. */
  lemma HeapThere(w: World, parent: nat, va: nat)
    requires WorldOk(w) && parent in w.spaces && w.spaces[parent].heapBase <= va < MappedEnd(w.spaces[parent])
    requires va % PAGE_SIZE == 0
    ensures HasTree(w, parent) && IsValid(Leaf(w, parent, VpnOf(va)))
  {
    hide AddrOf, VpnOf, WorldOk, HasTree;
    SpaceAt(w, parent);
    SpaceParts(w, parent);
    EndBound(w.spaces[parent]);
    AddrIndices(va);
    HeapPage(w, parent, VpnOf(va));
  }

  /** The child's record when the pages below va have been copied. */
  function CopySpace(c: Space, va: nat): Space {
    if va <= c.heapBase then c else c.(heapEnd := va)
  }

  /** The pages of image and heap below va are twins of the parent's, and the child has no others. */
  ghost predicate Copying(w0: World, b0: Bytes, w: World, b: Bytes, parent: nat, child: nat, c: Space, va: nat) {
    && OnlyTask(w0, w, child) && parent != child && parent in w.spaces && child in w.spaces
        && w.spaces[child] == CopySpace(c, va)
    && w.spaces == w0.spaces[child := CopySpace(c, va)] && InHand(w) == InHand(w0) && UsedSame(w0, b0, b)
    && HasTree(w, parent) && HasTree(w, child) && CopyFrame(w.spaces[parent], c)
        && AlignDown(c.imageBase) <= va <= MappedEnd(w.spaces[parent])
    && (forall v: Vpn {:trigger Twin(w, b, parent, child, v)} ::
          v.v0 < ENTRIES && InUser(w.spaces[child], v) && AddrOf(v) < va ==> Twin(w, b, parent, child, v))
    && (forall pa {:trigger w.uses[pa]} :: pa in w.uses && w.uses[pa].id == child && w.uses[pa].role.Data? ==>
        AddrOf(w.uses[pa].role.v) < va)
    && (forall pa {:trigger pa in w0.uses} :: pa in w0.uses ==> pa in w.uses) && w.free <= w0.free
        && KernelOrBelow(w, child, va) && KernelThere(w, child) && child !in w.granted && NoClashBelow(w, parent, va)
  }

  /** The child starts with the parent's image range and an empty heap. */
  ghost predicate CopyFrame(p: Space, c: Space) {
    && Layout(p) && Layout(c) && c.imageBase == p.imageBase && c.imageSize == p.imageSize && c.heapBase == p.heapBase
        && c.heapEnd == c.heapBase
    && c.userStack == 0 && c.kernelStack == 0
  }

  lemma CopyingParts(w0: World, b0: Bytes, w: World, b: Bytes, parent: nat, child: nat, c: Space, va: nat)
    requires Copying(w0, b0, w, b, parent, child, c, va)
    ensures OnlyTask(w0, w, child) && parent != child && parent in w.spaces && child in w.spaces
    ensures w.spaces[child] == CopySpace(c, va)
    ensures w.spaces == w0.spaces[child := w.spaces[child]] && InHand(w) == InHand(w0) && UsedSame(w0, b0, b)
    ensures w.free <= w0.free
    ensures parent in w0.spaces && w.spaces[parent] == w0.spaces[parent]
    ensures HasTree(w, parent) && HasTree(w, child) && CopyFrame(w.spaces[parent], c)
    ensures AlignDown(c.imageBase) <= va <= MappedEnd(w.spaces[parent])
    ensures CopySpace(c, va).root == c.root == CopySpace(c, va + PAGE_SIZE).root
  {
    hide OnlyTask, TreeOk, UsedSame;
  }

  /** The bits of an entry that are passed on: all but the valid bit, which mapping sets again. */
  lemma SourceFlags(tables: Tables, t: Tree, v: Vpn)
    requires TreeOk(tables, t) && v.v0 < ENTRIES && IsValid(LeafAt(tables, t, v))
    ensures var f := FlagsOf(LeafAt(tables, t, v)); f / 2 * 2 < FLAGS && IsLeaf(f / 2 * 2) && SetValid(f / 2 * 2) == f
  {
    var pte := LeafAt(tables, t, v);
    assert LowEntry(pte) by { LeafIsLow(tables, t, v); }
    hide TreeOk, LeafAt;
    LeafFlags(pte);
  }

  lemma LeafIsLow(tables: Tables, t: Tree, v: Vpn)
    requires TreeOk(tables, t) && v.v0 < ENTRIES
    ensures LowEntry(LeafAt(tables, t, v))
  {
    if (v.v2, v.v1) in t.lows { NodeAt(tables, t, t.lows[(v.v2, v.v1)]); }
  }

  lemma LeafFlags(pte: nat)
    requires IsValid(pte) && IsLeaf(pte)
    ensures var f := FlagsOf(pte); f / 2 * 2 < FLAGS && IsLeaf(f / 2 * 2) && SetValid(f / 2 * 2) == f
  {
    var f := FlagsOf(pte);
    assert pte % 2 == f % 2 by { EntryParity(pte / FLAGS, f); }
    assert pte / 2 % 8 == f / 2 % 8 by { EntryParity(pte / FLAGS, f); EntryKind(pte / FLAGS, f / 2); }
  }

  lemma CopyVpn(c: Space, p: Space, va: nat)
    requires CopyFrame(p, c) && AlignDown(c.imageBase) <= va <= MappedEnd(p) && va % PAGE_SIZE == 0
    requires va + PAGE_SIZE <= HEAP_LIMIT
    ensures var v := VpnOf(va); VpnOk(v) && AddrOf(v) == va
    ensures var v := VpnOf(va);
            if va < c.heapBase then InUser(c, v) && !InHeap(c, v) && CopySpace(c, va) == c ==
                CopySpace(c, va + PAGE_SIZE)
            else OneFurther(CopySpace(c, va), CopySpace(c, va + PAGE_SIZE), v)
    ensures Layout(CopySpace(c, va)) && Layout(CopySpace(c, va + PAGE_SIZE))
  {
    hide AddrOf, VpnOf;
    AddrIndices(va);
    if va < c.heapBase { OneMore(va, c.heapBase); }
  }

  lemma CopyPlace(w0: World, b0: Bytes, w: World, b: Bytes, taken: World, parent: nat, child: nat, c: Space, va: nat,
          p: nat, flags: nat)
    requires Copying(w0, b0, w, b, parent, child, c, va) && taken.spaces == w.spaces && va % PAGE_SIZE == 0
    requires va + PAGE_SIZE <= HEAP_LIMIT
    ensures Placeable(taken, child, VpnOf(va), CopySpace(c, va + PAGE_SIZE), Data(VpnOf(va)), p, flags)
  {
    hide OnlyTask, TreeOk, UsedSame, AddrOf, VpnOf, OneFurther, InUser, InHeap, MappedEnd;
    CopyVpn(c, w.spaces[parent], va);
  }

  /** The pages of the child's record when one more is copied. */
  lemma CopyUser(c: Space, p: Space, va: nat, v: Vpn)
    requires CopyFrame(p, c) && AlignDown(c.imageBase) <= va <= MappedEnd(p) && va % PAGE_SIZE == 0
    requires va + PAGE_SIZE <= HEAP_LIMIT && VpnOk(v)
    ensures InUser(CopySpace(c, va + PAGE_SIZE), v) && AddrOf(v) < va + PAGE_SIZE ==>
              (InUser(CopySpace(c, va), v) && AddrOf(v) < va) || v == VpnOf(va)
    ensures InUser(CopySpace(c, va), v) && AddrOf(v) < va ==> InUser(p, v)
  {
    hide AddrOf, VpnOf;
    AddrIndices(va);
    IndicesAddr(v);
    NextPage(AddrOf(v), va);
    EndBound(p);
    if AddrOf(v) == va { SameAddr(v, VpnOf(va)); }
  }

  /** The child has no page of its own at va yet. */
  lemma NotYet(w0: World, b0: Bytes, w: World, b: Bytes, parent: nat, child: nat, c: Space, va: nat)
    requires WorldOk(w) && Copying(w0, b0, w, b, parent, child, c, va) && va % PAGE_SIZE == 0
    requires va + PAGE_SIZE <= c.heapBase
    ensures !Own(w, child, VpnOf(va))
  {
    hide OnlyTask, TreeOk, LeafAt, UsedSame, PteToPa, VpnOf, AddrOf, IsValid, WorldOk;
    CopyVpn(c, w.spaces[parent], va);
    UserNoTable(w, child, VpnOf(va));
  }

  /** A page that could be mapped in the child is not the kernel's, so the parent's page there is memory of its own. */
  lemma CopiedOwn(w0: World, b0: Bytes, w: World, b: Bytes, taken: World, parent: nat, child: nat, c: Space, va: nat)
    requires WorldOk(w) && Copying(w0, b0, w, b, parent, child, c, va) && va % PAGE_SIZE == 0
    requires va + PAGE_SIZE <= HEAP_LIMIT && va < MappedEnd(w.spaces[parent])
    requires taken == w.(free := taken.free) && IsValid(Leaf(w, parent, VpnOf(va)))
    requires HasTree(taken, child) && !IsValid(Leaf(taken, child, VpnOf(va)))
    ensures PteToPa(Leaf(w, parent, VpnOf(va))) in w.managed
  {
    hide OnlyTask, TreeOk, LeafAt, UsedSame, PteToPa, AddrOf, VpnOf, IsValid, KernelPages, Twin, KernelAddr, WorldOk,
         EntryOk, ForUser;
    var v := VpnOf(va);
    CopyVpn(c, w.spaces[parent], va);
    CopyBound(c, w.spaces[parent], va);
    assert Leaf(taken, child, v) == Leaf(w, child, v);
    SpaceAt(w, parent);
    EntryAt(w, parent, v);
    UserEntry(w, parent, v);
  }

  lemma UserEntry(w: World, id: nat, v: Vpn)
    requires HasTree(w, id) && v.v0 < ENTRIES && EntryOk(w, id, v) && InUser(w.spaces[id], v)
    ensures IsValid(Leaf(w, id, v)) && PteToPa(Leaf(w, id, v)) !in w.managed ==> KernelAddr(AddrOf(v))
  {
    hide TreeOk, LeafAt;
  }

  lemma CopySkipped(w0: World, b0: Bytes, w: World, b: Bytes, parent: nat, child: nat, c: Space, va: nat)
    requires WorldOk(w) && Copying(w0, b0, w, b, parent, child, c, va) && va % PAGE_SIZE == 0 && va < c.heapBase
    requires c.heapBase % PAGE_SIZE == 0
    requires !IsValid(Leaf(w, parent, VpnOf(va)))
    ensures Copying(w0, b0, w, b, parent, child, c, va + PAGE_SIZE)
  {
    hide OnlyTask, TreeOk, LeafAt, UsedSame, PteToPa, VpnOf, AddrOf, IsValid, WorldOk, AlignUp, AlignDown, KernelPages;
    OneMore(va, c.heapBase);
    CopyEnds(c, w.spaces[parent], va);
    NotYet(w0, b0, w, b, parent, child, c, va);
    NoClashAt(w, parent, va);
    forall v: Vpn | v.v0 < ENTRIES && InUser(w.spaces[child], v) && AddrOf(v) < va + PAGE_SIZE
      ensures Twin(w, b, parent, child, v)
    {
      CopyUser(c, w.spaces[parent], va, v);
    }
  }

  /** One more page that is not a device's or not mapped. */
  lemma NoClashAt(w: World, id: nat, va: nat)
    requires NoClashBelow(w, id, va) && va % PAGE_SIZE == 0 && va + PAGE_SIZE <= VA_LIMIT
    requires !ClashAt(w, id, VpnOf(va))
    ensures NoClashBelow(w, id, va + PAGE_SIZE)
  {
    hide TreeOk, LeafAt, IsValid, AddrOf, VpnOf, IsDevice;
    AddrIndices(va);
    forall u | ClashAt(w, id, u)
      ensures va + PAGE_SIZE <= AddrOf(u)
    {
      IndicesAddr(u);
      NextPage(AddrOf(u), va);
      if AddrOf(u) == va { VpnIn(va); SameAddr(u, VpnOf(va)); }
    }
  }

  /** Where the child has nothing yet, the parent has no device. */
  lemma NoDevice(w: World, taken: World, parent: nat, child: nat, va: nat)
    requires KernelThere(w, child) && taken == w.(free := taken.free) && HasTree(taken, child)
    requires !IsValid(Leaf(taken, child, VpnOf(va)))
    ensures !ClashAt(w, parent, VpnOf(va))
  {
    hide TreeOk, LeafAt, IsValid, AddrOf, VpnOf, PteToPa;
    assert Leaf(taken, child, VpnOf(va)) == Leaf(w, child, VpnOf(va));
  }

  lemma CopyEnds(c: Space, p: Space, va: nat)
    requires CopyFrame(p, c) && va + PAGE_SIZE <= c.heapBase
    ensures va + PAGE_SIZE <= MappedEnd(p) && va + PAGE_SIZE <= HEAP_LIMIT
    ensures CopySpace(c, va) == c == CopySpace(c, va + PAGE_SIZE)
  {
  }

  /** A twin stays one while the child gets another page. */
  lemma TwinStays(w: World, b: Bytes, taken: World, w': World, b': Bytes, parent: nat, child: nat, u: Vpn, v: Vpn,
          p: nat, pte: nat)
    requires WorldOk(w) && HasTree(w, parent) && HasTree(w, child) && parent != child && u != v && v.v0 < ENTRIES
    requires InUser(w.spaces[parent], v) && InUser(w.spaces[child], v) && Twin(w, b, parent, child, v)
    requires taken == w.(free := taken.free) && p !in w.uses && p in b' && b' == b[p := b'[p]] && OnlyTask(w, w', child)
    requires MapsAt(taken, w', child, u, pte)
    ensures HasTree(w', parent) && HasTree(w', child) && Twin(w', b', parent, child, v)
  {
    hide OnlyTask, TreeOk, LeafAt, PteToPa, AddrOf, IsValid, WorldOk, InUser, FlagsOf;
    OthersTree(w, w', child, parent);
    SameManaged(w, w', child);
    assert Leaf(w', parent, v) == Leaf(w, parent, v);
    assert Leaf(taken, child, v) == Leaf(w, child, v);
    UserNoTable(w, parent, v);
    UserNoTable(w, child, v);
  }

  lemma CopyMore(w0: World, b0: Bytes, w: World, b: Bytes, taken: World, w': World, b': Bytes, parent: nat, child: nat,
          c: Space, va: nat, p: nat)
    requires WorldOk(w0) && WorldOk(w) && Copying(w0, b0, w, b, parent, child, c, va) && va % PAGE_SIZE == 0
    requires va + PAGE_SIZE <= HEAP_LIMIT
    requires p in w.free && PageAligned(p) && taken == w.(free := w.free - {p}) && InHand(taken) == InHand(w) + {p}
    requires p in b' && b' == b[p := b'[p]] && IsValid(Leaf(w, parent, VpnOf(va)))
    requires var pa := PteToPa(Leaf(w, parent, VpnOf(va)));
             pa in w.managed && (pa in b && |b[pa]| == PAGE_SIZE ==> b'[p] == b[pa])
    requires Grown(taken, w', child, CopySpace(c, va + PAGE_SIZE), {p}, Data(VpnOf(va)))
    requires MapsAt(taken, w', child, VpnOf(va), PaToPte(p, FlagsOf(Leaf(w, parent, VpnOf(va))))) && BytesOk(w, b)
    requires HasTree(taken, child) && !IsValid(Leaf(taken, child, VpnOf(va)))
    requires va < MappedEnd(w.spaces[parent])
    ensures Copying(w0, b0, w', b', parent, child, c, va + PAGE_SIZE)
  {
    hide OnlyTask, TreeOk, LeafAt, PteToPa, PaToPte, AddrOf, VpnOf, IsValid, WorldOk, UsedSame, FlagsOf, InUser,
         MapsAt, Twin, CopySpace, AlignUp, AlignDown, CopyFrame, KernelPages, KernelOrBelow, KernelThere, ClashAt;
    var v := VpnOf(va);
    FreeParts(w);
    ValidFlags(Leaf(w, parent, v));
    EntryRoundTrip(p, FlagsOf(Leaf(w, parent, v)));
    OnlyFree(w, taken, child);
    OnlyBoth(w, taken, w', child);
    OnlyBoth(w0, w, w', child);
    MoreBytes(w0, b0, w, b, p, b'[p]);
    CopyVpn(c, w.spaces[parent], va);
    CopyBound(c, w.spaces[parent], va);
    CopyMoreUses(w, taken, w', child, va, p);
    CopyMoreMaps(w, taken, w', child, va, PaToPte(p, FlagsOf(Leaf(w, parent, v))));
    SpacesThrough(w0, w, taken, w', child, p, CopySpace(c, va), CopySpace(c, va + PAGE_SIZE), Data(v));
    GrownBack(w, taken, w', child, CopySpace(c, va + PAGE_SIZE), p, Data(v));
    MapsTrees(taken, w', child, v, PaToPte(p, FlagsOf(Leaf(w, parent, v))));
    OthersTree(w, w', child, parent);
    assert NoClashBelow(w', parent, va + PAGE_SIZE) by {
      NoDevice(w, taken, parent, child, va);
      NoClashAt(w, parent, va);
      ClashSame(w, w', parent, child);
    }
    forall u: Vpn | u.v0 < ENTRIES && InUser(w'.spaces[child], u) && AddrOf(u) < va + PAGE_SIZE
      ensures Twin(w', b', parent, child, u)
    {
      InUserOk(w'.spaces[child], u);
      CopyUser(c, w.spaces[parent], va, u);
      if u == v {
        NewTwin(w, b, taken, w', b', parent, child, v, p);
      } else {
        assert Twin(w, b, parent, child, u);
        TwinStays(w, b, taken, w', b', parent, child, v, u, p, PaToPte(p, FlagsOf(Leaf(w, parent, v))));
      }
    }
  }

  lemma CopyMoreMaps(w: World, taken: World, w': World, child: nat, va: nat, pte: nat)
    requires KernelOrBelow(w, child, va) && taken == w.(free := taken.free) && MapsAt(taken, w', child, VpnOf(va), pte)
    requires AddrOf(VpnOf(va)) == va && KernelThere(w, child)
    requires HasTree(taken, child) && !IsValid(Leaf(taken, child, VpnOf(va)))
    ensures KernelOrBelow(w', child, va + PAGE_SIZE) && KernelThere(w', child)
  {
    hide TreeOk, LeafAt, AddrOf, VpnOf, IsValid, KernelPages, KernelAddr, PteToPa;
    assert KernelThere(taken, child) by {
      assert MapsSame(w, taken, child);
      KernelMapsSame(w, taken, child);
    }
    KernelMapsAt(taken, w', child, VpnOf(va), pte);
    forall u: Vpn | u.v0 < ENTRIES && VpnOk(u) && IsValid(Leaf(w', child, u))
      ensures u in KernelPages() || AddrOf(u) < va + PAGE_SIZE
    {
      assert u != VpnOf(va) ==> Leaf(w', child, u) == Leaf(taken, child, u) == Leaf(w, child, u);
    }
  }

  lemma SpacesThrough(w0: World, w: World, taken: World, w': World, id: nat, p: nat, s: Space, s': Space, role: Role)
    requires w.spaces == w0.spaces[id := s] && taken.spaces == w.spaces && Grown(taken, w', id, s', {p}, role)
    ensures w'.spaces == w0.spaces[id := s']
  {
    hide OnlyTask;
  }

  lemma GrownBack(w: World, taken: World, w': World, id: nat, s': Space, p: nat, role: Role)
    requires p in w.free && InHand(taken) == InHand(w) + {p} && Grown(taken, w', id, s', {p}, role)
    ensures InHand(w') == InHand(w)
  {
    hide OnlyTask;
  }

  lemma CopyBound(c: Space, p: Space, va: nat)
    requires CopyFrame(p, c) && va < MappedEnd(p) && va % PAGE_SIZE == 0 && AlignDown(c.imageBase) <= va
    requires VpnOk(VpnOf(va)) && AddrOf(VpnOf(va)) == va
    ensures va + PAGE_SIZE <= MappedEnd(p) && AlignDown(c.imageBase) <= va + PAGE_SIZE && InUser(p, VpnOf(va))
  {
    OneMore(va, MappedEnd(p));
  }

  lemma MapsTrees(w: World, w': World, id: nat, v: Vpn, pte: nat)
    requires MapsAt(w, w', id, v, pte)
    ensures HasTree(w, id) && HasTree(w', id)
  {
  }

  lemma CopyMoreUses(w: World, taken: World, w': World, child: nat, va: nat, p: nat)
    requires taken == w.(free := taken.free) && child in w.spaces && AddrOf(VpnOf(va)) == va
    requires exists s :: Grown(taken, w', child, s, {p}, Data(VpnOf(va)))
    requires forall pa {:trigger w.uses[pa]} :: pa in w.uses && w.uses[pa].id == child && w.uses[pa].role.Data? ==>
               AddrOf(w.uses[pa].role.v) < va
    ensures forall pa {:trigger w'.uses[pa]} :: pa in w'.uses && w'.uses[pa].id == child && w'.uses[pa].role.Data? ==>
              AddrOf(w'.uses[pa].role.v) < va + PAGE_SIZE
  {
    hide OnlyTask, AddrOf, VpnOf;
    var s :| Grown(taken, w', child, s, {p}, Data(VpnOf(va)));
    forall pa | pa in w'.uses && w'.uses[pa].id == child && w'.uses[pa].role.Data?
      ensures AddrOf(w'.uses[pa].role.v) < va + PAGE_SIZE
    {
      assert pa in w.uses || pa !in w.uses;
    }
  }

  /** The copy is a twin of what it was copied from. */
  lemma NewTwin(w: World, b: Bytes, taken: World, w': World, b': Bytes, parent: nat, child: nat, v: Vpn, p: nat)
    requires WorldOk(w) && BytesOk(w, b) && HasTree(w, parent) && HasTree(w', parent) && HasTree(w', child)
    requires parent != child && v.v0 < ENTRIES
    requires InUser(w.spaces[parent], v) && p in w.free && PageAligned(p) && taken == w.(free := taken.free)
    requires OnlyTask(w, w', child) && p in b' && b' == b[p := b'[p]]
    requires IsValid(Leaf(w, parent, v)) && MapsAt(taken, w', child, v, PaToPte(p, FlagsOf(Leaf(w, parent, v))))
    requires var pa := PteToPa(Leaf(w, parent, v));
             pa in w.managed && (pa in b && |b[pa]| == PAGE_SIZE ==> b'[p] == b[pa])
    ensures Twin(w', b', parent, child, v)
  {
    hide OnlyTask, TreeOk, LeafAt, PteToPa, PaToPte, AddrOf, WorldOk, InUser, BytesOk, PageAligned;
    var pte := Leaf(w, parent, v);
    FreeParts(w);
    SameManaged(w, w', child);
    OthersTree(w, w', child, parent);
    assert Leaf(w', parent, v) == pte && Leaf(w', child, v) == PaToPte(p, FlagsOf(pte));
    EntryRoundTrip(p, FlagsOf(pte));
    ValidFlags(pte);
    UserNoTable(w, parent, v);
    if Own(w, parent, v) { UsedBytes(w, b, PteToPa(pte), parent, v); }
  }

  lemma ValidFlags(pte: nat)
    ensures IsValid(FlagsOf(pte)) == IsValid(pte)
  {
    EntryParity(pte / FLAGS, FlagsOf(pte));
  }

  lemma UsedBytes(w: World, b: Bytes, pa: nat, id: nat, v: Vpn)
    requires BytesOk(w, b) && UsedAs(w, pa, id, Data(v))
    ensures pa in b && |b[pa]| == PAGE_SIZE
  {
    assert DataPage(w, pa);
  }

  lemma CopyFailed(w0: World, b0: Bytes, w: World, b: Bytes, taken: World, w': World, b': Bytes, parent: nat,
          child: nat, c: Space, va: nat, p: nat)
    requires WorldOk(w0) && WorldOk(w) && Copying(w0, b0, w, b, parent, child, c, va)
    requires p in w.free && taken == w.(free := w.free - {p}) && InHand(taken) == InHand(w) + {p} && p in b'
    requires b' == b[p := b'[p]]
    requires Grown(taken, w', child, taken.spaces[child], {}, Data(VpnOf(va)))
    ensures Attempt(w0, b0, w', b', child)
  {
    hide OnlyTask, TreeOk, LeafAt, WorldOk, UsedSame;
    FreeParts(w);
    OnlyFree(w, taken, child);
    OnlyBoth(w, taken, w', child);
    OnlyBoth(w0, w, w', child);
    MoreBytes(w0, b0, w, b, p, b'[p]);
  }

  // ---- Making a task, as far as it gets ----

  /** From w0 to w nothing has changed but task `child` and the pages that were taken for it. */
  ghost predicate Attempt(w0: World, b0: Bytes, w: World, b: Bytes, child: nat) {
    && OnlyTask(w0, w, child) && child in w.spaces && w.spaces == w0.spaces[child := w.spaces[child]]
        && UsedSame(w0, b0, b) && w.free <= w0.free
  }

  ghost predicate AllKept(w: World, b: Bytes, w': World, b': Bytes) {
    forall o {:trigger Kept(w, b, w', b', o)} :: o in w.spaces ==> Kept(w, b, w', b', o)
  }

  lemma CopyAttempt(w0: World, b0: Bytes, w: World, b: Bytes, parent: nat, child: nat, c: Space, va: nat)
    requires Copying(w0, b0, w, b, parent, child, c, va)
    ensures Attempt(w0, b0, w, b, child)
  {
    hide OnlyTask, TreeOk, UsedSame;
  }

  lemma AttemptBoth(w0: World, b0: Bytes, w1: World, b1: Bytes, w2: World, b2: Bytes, child: nat)
    requires WorldOk(w0) && child !in w0.spaces && Attempt(w0, b0, w1, b1, child) && Attempt(w1, b1, w2, b2, child)
    ensures Attempt(w0, b0, w2, b2, child)
  {
    OnlyBoth(w0, w1, w2, child);
    hide UseOk, SpaceOk;
    forall pa | pa in w0.uses
      ensures ContentSame(b0, b2, pa)
    {
      UseAt(w0, pa);
      UserThere(w0, pa);
      assert pa in w1.uses;
      assert ContentSame(b0, b1, pa) && ContentSame(b1, b2, pa);
    }
  }

  lemma AttemptParts(w0: World, b0: Bytes, w: World, b: Bytes, child: nat)
    requires Attempt(w0, b0, w, b, child)
    ensures child in w.spaces && OnlyTask(w0, w, child)
  {
  }

  /** Taking free pages changes nothing for anybody. */
  lemma TakenKept(w: World, w': World, b: Bytes)
    requires WorldOk(w) && w' == w.(free := w'.free)
    ensures AllKept(w, b, w', b)
  {
    hide UseOk, SpaceOk, TreeOk;
    forall o | o in w.spaces
      ensures Kept(w, b, w', b, o)
    {
      assert o in w.trees.Keys;
    }
  }

  lemma ForkFacts(w: World, parent: nat)
    requires WorldOk(w) && parent in w.spaces
    ensures var s := w.spaces[parent];
            && (s.imageBase + s.imageSize) % PAGE_SIZE == 0
            && s.imageBase + s.imageSize <= HEAP_LIMIT && s.heapBase == s.imageBase + s.imageSize
  {
    SpaceAt(w, parent);
    SpaceParts(w, parent);
  }

  lemma MadeAttempt(w0: World, w2: World, w: World, b: Bytes, child: nat)
    requires WorldOk(w0) && w2 == w0.(free := w2.free) && w2.free <= w0.free && OnlyTask(w2, w, child)
    requires w.free <= w2.free
    requires child in w.spaces && w.spaces == w2.spaces[child := w.spaces[child]]
    ensures Attempt(w0, b, w, b, child)
  {
    hide OnlyTask;
    FreeParts(w0);
    OnlyFree(w0, w2, child);
    OnlyBoth(w0, w2, w, child);
    UsedSameSelf(w0, b);
  }

  lemma AttemptKept(w0: World, b0: Bytes, w: World, b: Bytes, child: nat)
    requires WorldOk(w0) && child !in w0.spaces && OnlyTask(w0, w, child) && UsedSame(w0, b0, b)
    ensures AllKept(w0, b0, w, b)
  {
    hide OnlyTask, WorldOk, UsedSame, Kept;
    OnlyTaskOthers(w0, b0, w, b, child);
  }

  lemma Abandoned(w0: World, b0: Bytes, w: World, left: World, b: Bytes, child: nat)
    requires WorldOk(w0) && child !in w0.spaces && Attempt(w0, b0, w, b, child)
    requires OnlyTask(w, left, child) && left.spaces == w.spaces - {child} && left.free == w.free
    requires left.managed == w.managed && WorldOk(left)
    ensures AllKept(w0, b0, left, b) && left.spaces == w0.spaces && InHand(w0) <= InHand(left)
    ensures left.managed == w0.managed && left.granted <= w0.granted
  {
    hide UseOk, SpaceOk;
    OnlyBoth(w0, w, left, child);
    AttemptKept(w0, b0, left, b, child);
    forall pa | pa in left.uses
      ensures pa in w0.uses
    {
      UseAt(left, pa);
      UserThere(left, pa);
    }
  }

  /** The child's record before anything is copied. */
  lemma CopyingNone(w: World, b: Bytes, parent: nat, child: nat, s: Space)
    requires WorldOk(w) && parent != child && parent in w.spaces && w.spaces[parent] == s && NoData(w, child)
    requires MapsKernel(w, child, KernelPages()) && child !in w.granted
    requires child in w.spaces && w.spaces[child] == NewSpace(child, s.imageBase, s.imageSize)
    ensures Copying(w, b, w, b, parent, child, NewSpace(child, s.imageBase, s.imageSize), AlignDown(s.imageBase))
  {
    hide TreeOk, UseOk, EntryOk, LeafAt, AddrOf, KernelPages, IsValid;
    var c := NewSpace(child, s.imageBase, s.imageSize);
    SpaceAt(w, parent);
    SpaceAt(w, child);
    FreeParts(w);
    OnlyFree(w, w, child);
    UsedSameSelf(w, b);
    KernelIsThere(w, child);
    assert CopySpace(c, AlignDown(s.imageBase)) == c;
    assert w.spaces == w.spaces[child := c];
  }

  lemma KernelIsThere(w: World, id: nat)
    requires MapsKernel(w, id, KernelPages())
    ensures KernelThere(w, id)
    ensures forall u: Vpn {:trigger Leaf(w, id, u)} :: u.v0 < ENTRIES && IsValid(Leaf(w, id, u)) ==> u in KernelPages()
  {
    hide TreeOk, LeafAt, AddrOf, KernelPages, PteToPa, PaToPte, KernelAddr;
    forall u: Vpn | u.v0 < ENTRIES && VpnOk(u) && KernelAddr(AddrOf(u))
      ensures IsValid(Leaf(w, id, u)) && PteToPa(Leaf(w, id, u)) == AddrOf(u)
    {
      KernelPage(u);
      KernelLeafValid(u);
    }
  }

  lemma KernelLeafValid(u: Vpn)
    requires VpnOk(u)
    ensures IsValid(KernelLeaf(u)) && PteToPa(KernelLeaf(u)) == AddrOf(u)
  {
    hide AddrOf;
    IndicesAddr(u);
    EntryRoundTrip(AddrOf(u), PTE_R + PTE_W + PTE_V + if AddrOf(u) < USER_STACK_TOP then 0 else PTE_X);
  }

  /** The child has its image and its heap, and no stack yet. */
  ghost predicate Copied(w0: World, b0: Bytes, w: World, b: Bytes, parent: nat, child: nat, s: Space) {
    && OnlyTask(w0, w, child) && parent != child && parent in w.spaces && w.spaces[parent] == s && child in w.spaces
    && w.spaces[child] == Space(child, 0, 0, s.imageBase, s.imageSize, s.heapBase, s.heapEnd)
    && w.spaces == w0.spaces[child := w.spaces[child]] && InHand(w) == InHand(w0) && UsedSame(w0, b0, b)
        && w.free <= w0.free && child !in w.granted
    && HasTree(w, parent) && HasTree(w, child) && Layout(s)
    && (forall v: Vpn {:trigger Twin(w, b, parent, child, v)} :: v.v0 < ENTRIES && InUser(s, v) ==>
        Twin(w, b, parent, child, v))
    && (forall pa {:trigger pa in w0.uses} :: pa in w0.uses ==> pa in w.uses) && KernelOrBelow(w, child, MappedEnd(s))
    && KernelThere(w, child) && NoClashBelow(w, parent, MappedEnd(s))
  }

  lemma CopyEnd(s: Space, c: Space)
    requires Layout(s) && c == NewSpace(c.root, s.imageBase, s.imageSize)
    ensures var e := CopySpace(c, MappedEnd(s));
            c.(heapEnd := s.heapEnd) == e.(heapEnd := s.heapEnd) && Layout(c.(heapEnd := s.heapEnd))
                && MappedEnd(c.(heapEnd := s.heapEnd)) == MappedEnd(e)
  {
  }

  lemma CopyingDone(w0: World, b0: Bytes, w: World, w': World, b: Bytes, parent: nat, child: nat, c: Space, s: Space)
    requires Copying(w0, b0, w, b, parent, child, c, MappedEnd(s)) && w.spaces[parent] == s
    requires c == NewSpace(child, s.imageBase, s.imageSize)
    requires w' == w.(spaces := w.spaces[child := c.(heapEnd := s.heapEnd)]) && OnlyTask(w, w', child)
    requires InHand(w') == InHand(w)
    ensures Copied(w0, b0, w', b, parent, child, s) && Attempt(w0, b0, w', b, child)
  {
    hide OnlyTask, TreeOk, LeafAt, UsedSame, AddrOf, PteToPa, IsValid, FlagsOf, AlignDown, KernelPages, KernelAddr;
    OnlyBoth(w0, w, w', child);
    assert KernelThere(w', child) by {
      assert MapsSame(w, w', child);
      KernelMapsSame(w, w', child);
    }
    assert NoClashBelow(w', parent, MappedEnd(s)) by {
      forall u | ClashAt(w', parent, u)
        ensures ClashAt(w, parent, u)
      {
        assert Leaf(w', parent, u) == Leaf(w, parent, u);
      }
    }
    forall u: Vpn | u.v0 < ENTRIES && VpnOk(u) && IsValid(Leaf(w', child, u))
      ensures u in KernelPages() || AddrOf(u) < MappedEnd(s)
    {
      assert Leaf(w', child, u) == Leaf(w, child, u);
    }
    assert w'.spaces[child] == Space(child, 0, 0, s.imageBase, s.imageSize, s.heapBase, s.heapEnd);
    assert w'.spaces == w0.spaces[child := w'.spaces[child]];
    forall v: Vpn | v.v0 < ENTRIES && InUser(s, v)
      ensures Twin(w', b, parent, child, v)
    {
      CopiedUser(s, c, v);
      assert Twin(w, b, parent, child, v);
      assert Leaf(w', child, v) == Leaf(w, child, v) && Leaf(w', parent, v) == Leaf(w, parent, v);
    }
  }

  lemma CopiedUser(s: Space, c: Space, v: Vpn)
    requires Layout(s) && c == NewSpace(c.root, s.imageBase, s.imageSize) && InUser(s, v)
    ensures InUser(CopySpace(c, MappedEnd(s)), v) && AddrOf(v) < MappedEnd(s)
  {
    hide AddrOf;
  }

  lemma CopiedParts(w0: World, b0: Bytes, w: World, b: Bytes, parent: nat, child: nat, s: Space)
    requires Copied(w0, b0, w, b, parent, child, s)
    ensures parent in w.spaces && w.spaces[parent] == s && child in w.spaces
    ensures w.spaces[child] == Space(child, 0, 0, s.imageBase, s.imageSize, s.heapBase, s.heapEnd)
    ensures InHand(w) == InHand(w0) && OnlyTask(w0, w, child) && Attempt(w0, b0, w, b, child)
    ensures w.spaces == w0.spaces[child := w.spaces[child]] && !Clash(w, parent)
  {
    hide OnlyTask, TreeOk, UsedSame, KernelThere, KernelOrBelow, Twin, AlignDown, AlignUp, LeafAt, IsValid;
  }

  lemma StackPlace(w: World, child: nat, page: nat)
    requires child in w.spaces && w.spaces[child].userStack == 0
    ensures Placeable(w, child, VpnOf(STACK_PAGE), w.spaces[child].(userStack := page), UserStack, page, USER_RW)
  {
  }

  lemma StackNotUser(s: Space)
    requires Layout(s)
    ensures !InUser(s, VpnOf(STACK_PAGE))
  {
    hide AddrOf, VpnOf;
    EndBound(s);
    AddrIndices(STACK_PAGE);
  }

  lemma StackCopied(w0: World, b0: Bytes, w: World, b: Bytes, w': World, b': Bytes, parent: nat, child: nat, s: Space,
          page: nat)
    requires WorldOk(w0) && WorldOk(w) && BytesOk(w, b) && Copied(w0, b0, w, b, parent, child, s) && s.userStack != 0
    requires page in InHand(w) && page != 0
    requires page in b' && b' == b[page := b'[page]]
    requires (s.userStack in b && |b[s.userStack]| == PAGE_SIZE ==> b'[page] == b[s.userStack])
    requires Grown(w, w', child, w.spaces[child].(userStack := page), {page}, UserStack)
    requires MapsAt(w, w', child, VpnOf(STACK_PAGE), PaToPte(page, SetValid(USER_RW)))
    requires HasTree(w, child) && !IsValid(Leaf(w, child, VpnOf(STACK_PAGE)))
    ensures Twins(w', b', parent, child) && InHand(w') == InHand(w0) - {page} && Attempt(w0, b0, w', b', child)
    ensures KernelThere(w', child)
    ensures child in w'.spaces
    ensures w'.spaces[child] == Space(child, 0, page, s.imageBase, s.imageSize, s.heapBase, s.heapEnd)
  {
    hide OnlyTask, TreeOk, LeafAt, UsedSame, AddrOf, PteToPa, PaToPte, IsValid, FlagsOf, InUser, VpnOf, WorldOk,
         SetValid, BytesOk, Twin, MapsAt, KernelThere;
    OnlyBoth(w0, w, w', child);
    MoreBytes(w0, b0, w, b, page, b'[page]);
    MapsTrees(w, w', child, VpnOf(STACK_PAGE), PaToPte(page, SetValid(USER_RW)));
    KernelMapsAt(w, w', child, VpnOf(STACK_PAGE), PaToPte(page, SetValid(USER_RW)));
    SameManaged(w, w', child);
    OthersTree(w, w', child, parent);
    ParentStack(w, b, parent, s);
    assert w'.spaces == w0.spaces[child := w'.spaces[child]];
    StackNotUser(s);
    forall v: Vpn | v.v0 < ENTRIES && InUser(w'.spaces[parent], v)
      ensures Twin(w', b', parent, child, v)
    {
      SameUser(s, w.spaces[child], v);
      assert Twin(w, b, parent, child, v);
      TwinStays(w, b, w, w', b', parent, child, VpnOf(STACK_PAGE), v, page, PaToPte(page, SetValid(USER_RW)));
    }
  }

  /** There is room for the stack. */
  lemma StackFree(w0: World, b0: Bytes, w: World, b: Bytes, parent: nat, child: nat, s: Space)
    requires Copied(w0, b0, w, b, parent, child, s)
    ensures HasTree(w, child) && !IsValid(Leaf(w, child, VpnOf(STACK_PAGE)))
  {
    hide OnlyTask, TreeOk, LeafAt, UsedSame, AddrOf, PteToPa, IsValid, KernelPages, VpnOf, Twin;
    EndBound(s);
    AddrIndices(STACK_PAGE);
    NotKernel(STACK_PAGE);
    StackNoDevice();
    KernelPage(VpnOf(STACK_PAGE));
  }

  lemma StackNoDevice()
    ensures VpnOk(VpnOf(STACK_PAGE)) && !IsDevice(VpnOf(STACK_PAGE))
  {
    hide AddrOf, VpnOf;
    AddrIndices(STACK_PAGE);
    VpnIn(STACK_PAGE);
  }

  lemma SameUser(s: Space, t: Space, v: Vpn)
    requires t.imageBase == s.imageBase && t.heapEnd == s.heapEnd
    ensures InUser(t, v) == InUser(s, v)
  {
  }

  lemma ParentStack(w: World, b: Bytes, parent: nat, s: Space)
    requires WorldOk(w) && BytesOk(w, b) && parent in w.spaces && w.spaces[parent] == s && s.userStack != 0
    ensures s.userStack in w.uses && s.userStack in b && |b[s.userStack]| == PAGE_SIZE
  {
    hide TreeOk, EntryOk, UseOk;
    SpaceAt(w, parent);
    assert DataPage(w, s.userStack);
  }

  lemma StackFailed(w0: World, b0: Bytes, w: World, b: Bytes, w': World, b': Bytes, parent: nat, child: nat, s: Space,
          page: nat)
    requires WorldOk(w0) && Copied(w0, b0, w, b, parent, child, s) && page in InHand(w) && page in b'
    requires b' == b[page := b'[page]]
    requires Grown(w, w', child, w.spaces[child], {}, UserStack)
    ensures Attempt(w0, b0, w', b', child)
  {
    hide OnlyTask, TreeOk, LeafAt, UsedSame, WorldOk, Twin;
    OnlyBoth(w0, w, w', child);
    MoreBytes(w0, b0, w, b, page, b'[page]);
    assert w'.spaces == w0.spaces[child := w'.spaces[child]];
  }

  lemma KernelStackBytes(w: World, id: nat, p: nat, b: Bytes)
    requires BytesOk(w, b) && id in w.spaces && p in InHand(w)
    ensures BytesOk(WithKernelStack(w, id, p), b) && InHand(WithKernelStack(w, id, p)) == InHand(w) - {p}
  {
    forall pa | DataPage(WithKernelStack(w, id, p), pa)
      ensures pa in b && |b[pa]| == PAGE_SIZE
    {
      assert DataPage(w, pa);
    }
  }

  lemma GrownParts(w: World, w': World, id: nat)
    requires id in w.spaces && Grown(w, w', id, w.spaces[id], {}, Table)
    ensures OnlyTask(w, w', id) && w'.free <= w.free && InHand(w') == InHand(w) && w'.managed == w.managed
    ensures w'.spaces == w.spaces
  {
    assert w.spaces == w.spaces[id := w.spaces[id]];
  }

  /** The child with its kernel stack: everything is in order, and nothing that was in hand is lost or gained. */
  lemma Born(w0: World, b0: Bytes, w: World, born: World, b: Bytes, parent: nat, child: nat, p: nat)
    requires WorldOk(w0) && parent in w0.spaces && child !in w0.spaces && Attempt(w0, b0, w, b, child)
    requires Twins(w, b, parent, child) && KernelThere(w, child)
    requires born == WithKernelStack(w, child, p) && OnlyTask(w, born, child)
    ensures AllKept(w0, b0, born, b) && Twins(born, b, parent, child) && born.managed == w0.managed
    ensures born.granted <= w0.granted && KernelThere(born, child)
    ensures born.spaces == w0.spaces[child := w.spaces[child].(kernelStack := p)]
  {
    hide OnlyTask, TreeOk, LeafAt, UsedSame, AddrOf, PteToPa, PaToPte, IsValid, FlagsOf, WorldOk, AllKept;
    OnlyBoth(w0, w, born, child);
    SameManaged(w0, born, child);
    AttemptKept(w0, b0, born, b, child);
    assert KernelThere(born, child) by {
      assert MapsSame(w, born, child);
      KernelMapsSame(w, born, child);
    }
    forall v: Vpn | v.v0 < ENTRIES && InUser(born.spaces[parent], v)
      ensures Twin(born, b, parent, child, v)
    {
      assert Twin(w, b, parent, child, v);
      assert Leaf(born, child, v) == Leaf(w, child, v) && Leaf(born, parent, v) == Leaf(w, parent, v);
    }
  }
}
