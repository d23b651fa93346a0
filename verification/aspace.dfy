/**
 Who owns which page (src/kernel/task.rs, src/kernel/exec.rs): each page of the allocator is free, or belongs to one
 task for one purpose, or is in the hands of whoever has just allocated it. This module is about the values; module
 Spaces is the code that grows, copies and frees address spaces.
 */
module Ownership {
  import opened Wrappers
  import opened Words
  import opened Pages
  import opened PageTables

  const USER_STACK_TOP: nat := 0x4000_0000
  const STACK_PAGE: nat := USER_STACK_TOP - PAGE_SIZE
  const HEAP_LIMIT: nat := USER_STACK_TOP - 2 * PAGE_SIZE     // one page between heap and stack is never mapped
  const VA_LIMIT: nat := 0x80_0000_0000                       // 2^39: what three indices and an offset can name
  const KERNEL_START: nat := 0x8020_0000
  const KERNEL_SIZE: nat := 0x0100_0000
  const UART: nat := 0x1000_0000
  const PLIC: seq<nat> := [0x0c00_0000, 0x0c00_2000, 0x0c20_1000]

  // ---- Pages by address ----

  function AddrOf(v: Vpn): nat {
    v.v2 * 0x4000_0000 + v.v1 * 0x20_0000 + v.v0 * PAGE_SIZE
  }

  predicate VpnOk(v: Vpn) {
    v.v2 < ENTRIES && v.v1 < ENTRIES && v.v0 < ENTRIES
  }

  lemma AddrIndices(a: nat)
    requires a % PAGE_SIZE == 0 && a < VA_LIMIT
    ensures AddrOf(VpnOf(a)) == a
  {
    var n := a / PAGE_SIZE;
    assert a == n * PAGE_SIZE;
    assert a / 0x20_0000 == n / 512 && a / 0x4000_0000 == n / 0x4_0000;
    assert n / 512 / 512 == n / 0x4_0000;
    assert n / 0x4_0000 < 512;
    assert n == n / 512 * 512 + n % 512 && n / 512 == n / 512 / 512 * 512 + n / 512 % 512;
  }

  lemma IndicesAddr(v: Vpn)
    requires VpnOk(v)
    ensures AddrOf(v) % PAGE_SIZE == 0 && AddrOf(v) < VA_LIMIT && VpnOf(AddrOf(v)) == v
  {
    var n := v.v2 * 0x4_0000 + v.v1 * 512 + v.v0;
    assert AddrOf(v) == n * PAGE_SIZE;
    assert AddrOf(v) / 0x20_0000 == n / 512 && AddrOf(v) / 0x4000_0000 == n / 0x4_0000;
    assert n / 512 == v.v2 * 512 + v.v1 && n % 512 == v.v0;
  }

  function AlignUp(x: nat): (r: nat)
    ensures r % PAGE_SIZE == 0 && x <= r < x + PAGE_SIZE
  {
    (x + PAGE_SIZE - 1) / PAGE_SIZE * PAGE_SIZE
  }

  function AlignDown(x: nat): (r: nat)
    ensures r % PAGE_SIZE == 0 && r <= x < r + PAGE_SIZE
  {
    x / PAGE_SIZE * PAGE_SIZE
  }

  /** The pages of a range are those whose addresses lie in it. */
  lemma RangeIs(va: nat, k: nat, v: Vpn)
    requires va % PAGE_SIZE == 0 && va + k * PAGE_SIZE <= VA_LIMIT && VpnOk(v)
    ensures v in PageRange(va, k) <==> va <= AddrOf(v) < va + k * PAGE_SIZE
  {
    hide AddrOf, VpnOf, Page;
    IndicesAddr(v);
    if v in PageRange(va, k) {
      var i := InRange(va, k, v);
      PageAddrOf(va, i, k);
    } else if va <= AddrOf(v) < va + k * PAGE_SIZE {
      AtIndex(va, AddrOf(v));
    }
  }

  lemma AtIndex(va: nat, a: nat)
    requires va % PAGE_SIZE == 0 && a % PAGE_SIZE == 0 && va <= a
    ensures var i := (a - va) / PAGE_SIZE; va + i * PAGE_SIZE == a && Page(va, i) == VpnOf(a)
  {
  }

  lemma PageAddrOf(va: nat, i: nat, k: nat)
    requires va % PAGE_SIZE == 0 && i < k && va + k * PAGE_SIZE <= VA_LIMIT
    ensures AddrOf(Page(va, i)) == va + i * PAGE_SIZE
  {
    AddrIndices(va + i * PAGE_SIZE);
  }

  lemma SameAddr(u: Vpn, v: Vpn)
    requires VpnOk(u) && VpnOk(v) && AddrOf(u) == AddrOf(v)
    ensures u == v
  {
    IndicesAddr(u);
    IndicesAddr(v);
  }

  // ---- Address spaces ----

  /** What a task's record says of its address space. */
  datatype Space = Space(root: nat, kernelStack: nat, userStack: nat, imageBase: nat, imageSize: nat, heapBase: nat,
      heapEnd: nat)

  function MappedEnd(s: Space): nat {
    AlignUp(s.heapEnd)
  }

  /** The page holds part of the image or of the heap. */
  predicate InUser(s: Space, v: Vpn) {
    VpnOk(v) && AlignDown(s.imageBase) <= AddrOf(v) < MappedEnd(s)
  }

  predicate InHeap(s: Space, v: Vpn) {
    VpnOk(v) && s.heapBase <= AddrOf(v) < MappedEnd(s)
  }

  predicate InStack(v: Vpn) {
    VpnOk(v) && AddrOf(v) == STACK_PAGE
  }

  predicate Layout(s: Space) {
    && s.imageBase + s.imageSize == s.heapBase && s.heapBase % PAGE_SIZE == 0
    && s.heapBase <= s.heapEnd <= HEAP_LIMIT
  }

  /** User programs may use the mapping. */
  predicate ForUser(pte: nat) {
    IsValid(pte) && pte / PTE_U % 2 == 1
  }

  predicate DeviceAddr(a: nat) {
    a == UART || a in PLIC
  }

  /** The kernel maps the page at this address into every address space, at its own address. */
  predicate KernelAddr(a: nat) {
    KERNEL_START <= a < KERNEL_START + KERNEL_SIZE || DeviceAddr(a)
  }

  datatype Role = Table | Data(v: Vpn) | UserStack | KernelStack

  /** What a page is used for, and by whom. */
  datatype Use = Use(id: nat, role: Role)

  /**
   Physical memory and the tasks' address spaces; `managed` are all pages of the allocator, and `granted` the tasks
   that have been given the serial port.
   */
  datatype World = World(tables: Tables, trees: map<nat, Tree>, spaces: map<nat, Space>, uses: map<nat, Use>,
                         free: set<nat>, managed: set<nat>, granted: set<nat>)

  ghost function Leaf(w: World, id: nat, v: Vpn): nat
    requires id in w.trees && TreeOk(w.tables, w.trees[id]) && v.v0 < ENTRIES
  {
    LeafAt(w.tables, w.trees[id], v)
  }

  ghost predicate HasTree(w: World, id: nat) {
    id in w.spaces && id in w.trees && TreeOk(w.tables, w.trees[id]) && w.trees[id].root == w.spaces[id].root
  }

  /** A page in use is where its use says it is. */
  ghost predicate UseOk(w: World, pa: nat)
    requires pa in w.uses
  {
    var u := w.uses[pa];
    && HasTree(w, u.id)
    && match u.role
       case Table => pa in w.trees[u.id].node
       case Data(v) => InUser(w.spaces[u.id], v) && IsValid(Leaf(w, u.id, v)) && PteToPa(Leaf(w, u.id, v)) == pa
       case UserStack => pa == w.spaces[u.id].userStack
       case KernelStack => pa == w.spaces[u.id].kernelStack
  }

  ghost predicate UsedAs(w: World, pa: nat, id: nat, role: Role) {
    pa in w.uses && w.uses[pa] == Use(id, role)
  }

  /**
   The kernel's own mapping of a page, at the address it has; not for the user, but for the serial port in a task that
   has been given it.
   */
  ghost predicate KernelMapping(w: World, id: nat, v: Vpn, pte: nat) {
    && KernelAddr(AddrOf(v)) && PteToPa(pte) == AddrOf(v)
    && (ForUser(pte) ==> id in w.granted && AddrOf(v) == UART)
  }

  /**
   What one entry of a task's table may map: in the image and the heap the task's own pages, on the stack page its
   stack, and besides these only what the kernel maps everywhere; in user memory nothing else of the allocator's. Every
   heap page is mapped. While a task is being made it has no stack yet.
   */
  ghost predicate EntryOk(w: World, id: nat, v: Vpn)
    requires HasTree(w, id) && v.v0 < ENTRIES
  {
    var s, pte := w.spaces[id], Leaf(w, id, v);
    if InUser(s, v) then
      && (IsValid(pte) && PteToPa(pte) in w.managed ==> UsedAs(w, PteToPa(pte), id, Data(v)))
      && (InHeap(s, v) ==> IsValid(pte) && PteToPa(pte) in w.managed)
      && (IsValid(pte) && PteToPa(pte) !in w.managed ==> KernelMapping(w, id, v, pte))
    else if InStack(v) && s.userStack != 0 then pte == PaToPte(s.userStack, PTE_R + PTE_W + PTE_U + PTE_V)
    else
      VpnOk(v) && IsValid(pte) ==>
        KernelMapping(w, id, v, pte) && (AddrOf(v) < USER_STACK_TOP ==> PteToPa(pte) !in w.managed)
  }

  ghost predicate SpaceOk(w: World, id: nat)
    requires id in w.spaces
  {
    && HasTree(w, id) && Layout(w.spaces[id])
    && (forall n {:trigger n in w.trees[id].node} :: n in w.trees[id].node ==> UsedAs(w, n, id, Table))
    && (w.spaces[id].userStack != 0 ==>
        UsedAs(w, w.spaces[id].userStack, id, UserStack) && PageAligned(w.spaces[id].userStack))
    && (w.spaces[id].kernelStack != 0 ==> UsedAs(w, w.spaces[id].kernelStack, id, KernelStack))
    && (forall v: Vpn {:trigger EntryOk(w, id, v)} :: v.v0 < ENTRIES ==> EntryOk(w, id, v))
  }

  /**
   Every page is free or in use or in hand, never two of these; every use is what it says; every task has what is its
   own.
   */
  ghost predicate WorldOk(w: World) {
    && w.trees.Keys == w.spaces.Keys && w.free !! w.uses.Keys && w.free <= w.managed && w.uses.Keys <= w.managed
        && 0 !in w.managed && w.granted <= w.spaces.Keys
    && (forall pa {:trigger UseOk(w, pa)} :: pa in w.uses ==> UseOk(w, pa))
    && (forall id {:trigger SpaceOk(w, id)} :: id in w.spaces ==> SpaceOk(w, id))
  }

  /** The pages of one task. */
  ghost function Owned(w: World, id: nat): set<nat> {
    set pa | pa in w.uses && w.uses[pa].id == id
  }

  lemma UseAt(w: World, pa: nat)
    requires WorldOk(w) && pa in w.uses
    ensures UseOk(w, pa)
  {
  }

  lemma SpaceAt(w: World, id: nat)
    requires WorldOk(w) && id in w.spaces
    ensures SpaceOk(w, id)
  {
  }

  /** No page belongs to two tasks. */
  lemma OwnedApart(w: World, a: nat, b: nat)
    requires WorldOk(w) && a != b
    ensures Owned(w, a) !! Owned(w, b) && Owned(w, a) !! w.free
  {
  }

  // ---- Changing one task leaves the others ----

  /** From w to w', only task id and pages that are its own, or were free or in hand, have changed. */
  ghost predicate OnlyTask(w: World, w': World, id: nat) {
    && w'.managed == w.managed && w'.granted <= w.granted <= w'.granted + {id}
    && w'.spaces.Keys + {id} == w.spaces.Keys + {id} && w'.trees.Keys == w'.spaces.Keys
    && (forall o {:trigger w'.spaces[o]} {:trigger w.spaces[o]} :: o in w.spaces && o != id ==>
        w'.spaces[o] == w.spaces[o])
    && (forall o {:trigger w'.trees[o]} {:trigger w.trees[o]} :: o in w.trees && o != id && o in w.spaces ==>
        w'.trees[o] == w.trees[o])
    && (forall pa {:trigger pa in w'.uses} {:trigger pa in w.uses} ::
          (pa in w.uses && w.uses[pa].id != id ==> pa in w'.uses && w'.uses[pa] == w.uses[pa])
          && (pa in w'.uses && w'.uses[pa].id != id ==> pa in w.uses && w.uses[pa] == w'.uses[pa]))
    && (forall pa {:trigger pa in w.tables} :: pa in w.uses && w.uses[pa].id != id && pa in w.tables ==>
        pa in w'.tables && w'.tables[pa] == w.tables[pa])
  }

  lemma OthersTree(w: World, w': World, id: nat, o: nat)
    requires WorldOk(w) && OnlyTask(w, w', id) && o in w.spaces && o != id
    ensures HasTree(w, o) && HasTree(w', o)
    ensures forall v: Vpn {:trigger Leaf(w', o, v)} :: v.v0 < ENTRIES ==> Leaf(w', o, v) == Leaf(w, o, v)
  {
    hide NodeOk, LeafAt;
    SpaceAt(w, o);
    forall n | n in w.trees[o].node
      ensures n in w.tables && n in w'.tables && w'.tables[n] == w.tables[n]
    {
      assert UsedAs(w, n, o, Table);
      TableIn(w.tables, w.trees[o], n);
    }
    Elsewhere(w.tables, w.trees[o], w'.tables);
  }

  lemma TableIn(tables: Tables, t: Tree, n: nat)
    requires TreeOk(tables, t) && n in t.node
    ensures n in tables
  {
    NodeAt(tables, t, n);
  }

  lemma OthersSpace(w: World, w': World, id: nat, o: nat)
    requires WorldOk(w) && OnlyTask(w, w', id) && o in w.spaces && o != id
    ensures o in w'.spaces && SpaceOk(w', o)
  {
    OthersTree(w, w', id, o);
    SpaceAt(w, o);
    hide WorldOk, HasTree, EntryOk;
    forall v: Vpn | v.v0 < ENTRIES
      ensures EntryOk(w', o, v)
    {
      assert EntryOk(w, o, v);
      OthersEntry(w, w', id, o, v);
    }
  }

  lemma OthersEntry(w: World, w': World, id: nat, o: nat, v: Vpn)
    requires OnlyTask(w, w', id) && o in w.spaces && o != id && HasTree(w, o) && HasTree(w', o) && v.v0 < ENTRIES
    requires EntryOk(w, o, v) && Leaf(w', o, v) == Leaf(w, o, v)
    ensures EntryOk(w', o, v)
  {
    hide TreeOk, LeafAt, AddrOf, PteToPa, IsValid, AlignUp, AlignDown, PaToPte, KernelAddr;
    GrantSame(w, w', id, o);
  }

  lemma GrantSame(w: World, w': World, id: nat, o: nat)
    requires OnlyTask(w, w', id) && o != id
    ensures o in w'.granted <==> o in w.granted
  {
    assert o in w.granted ==> o in w'.granted + {id};
  }

  lemma OthersUse(w: World, w': World, id: nat, pa: nat)
    requires WorldOk(w) && OnlyTask(w, w', id) && pa in w'.uses && w'.uses[pa].id != id
    ensures UseOk(w', pa)
  {
    UseAt(w, pa);
    OthersTree(w, w', id, w.uses[pa].id);
  }

  /** A change to one task keeps everything when that task is in order after it. */
  lemma TaskKeeps(w: World, w': World, id: nat)
    requires WorldOk(w) && OnlyTask(w, w', id)
    requires w'.free !! w'.uses.Keys && w'.free <= w'.managed && w'.uses.Keys <= w'.managed
    requires id in w'.spaces ==> SpaceOk(w', id)
    requires id in w'.granted ==> id in w'.spaces
    requires forall pa {:trigger UseOk(w', pa)} :: pa in w'.uses && w'.uses[pa].id == id ==> UseOk(w', pa)
    ensures WorldOk(w')
  {
    hide SpaceOk, UseOk, OnlyTask;
    KeysKept(w, w', id);
    forall pa | pa in w'.uses
      ensures UseOk(w', pa)
    {
      if w'.uses[pa].id != id { OthersUse(w, w', id, pa); }
    }
    forall o | o in w'.spaces
      ensures SpaceOk(w', o)
    {
      if o != id { OthersSpace(w, w', id, o); }
    }
  }

  lemma KeysKept(w: World, w': World, id: nat)
    requires OnlyTask(w, w', id)
    requires w.granted <= w.spaces.Keys && (id in w'.granted ==> id in w'.spaces)
    ensures w'.trees.Keys == w'.spaces.Keys && w'.managed == w.managed && forall o :: o in w'.spaces && o != id ==>
              o in w.spaces
    ensures w'.granted <= w'.spaces.Keys
  {
    assert forall o :: o in w'.spaces ==> o in w'.spaces.Keys + {id};
    forall o | o in w'.granted && o != id
      ensures o in w'.spaces
    {
      assert o in w.granted && o in w.spaces.Keys + {id};
    }
  }

  // ---- Steps ----

  /** New tables of a task's tree. */
  ghost function NewTables(w: World, id: nat, t': Tree): map<nat, Use>
    requires id in w.trees
  {
    map n | n in t'.node.Keys - w.trees[id].node.Keys :: Use(id, Table)
  }

  /** The task's tree has grown to t', over the tables as they are now, and its record is s'. */
  ghost function Regrown(w: World, id: nat, tables': Tables, t': Tree, s': Space): World
    requires id in w.trees
  {
    w.(tables := tables', trees := w.trees[id := t'], spaces := w.spaces[id := s'],
        uses := w.uses + NewTables(w, id, t'),
       free := w.free - (t'.node.Keys - w.trees[id].node.Keys))
  }

  lemma RegrownOnly(w: World, id: nat, tables': Tables, t': Tree, s': Space)
    requires WorldOk(w) && id in w.spaces
    requires Touched(w.tables, w.trees[id], w.free, tables', t', w.free - (t'.node.Keys - w.trees[id].node.Keys))
    requires s'.root == t'.root
    ensures var w' := Regrown(w, id, tables', t', s');
            && OnlyTask(w, w', id) && HasTree(w', id) && w'.free !! w'.uses.Keys && w'.uses.Keys <= w.managed
                && w'.free <= w.managed
            && (forall pa {:trigger pa in w'.uses} :: pa in w'.uses && pa !in w.uses ==>
                pa in t'.node && w'.uses[pa] == Use(id, Table))
            && (forall pa {:trigger pa in w.uses} :: pa in w.uses ==> pa in w'.uses && w'.uses[pa] == w.uses[pa])
            && (forall n {:trigger n in t'.node} :: n in t'.node ==> UsedAs(w', n, id, Table))
  {
    hide TreeOk, UseOk, EntryOk;
    SpaceAt(w, id);
    var w' := Regrown(w, id, tables', t', s');
    assert w'.trees.Keys == w'.spaces.Keys;
    forall pa | pa in w.uses && w.uses[pa].id != id && pa in w.tables
      ensures pa in w'.tables && w'.tables[pa] == w.tables[pa]
    {
      assert pa !in w.free;
      assert pa in w.trees[id].node ==> UsedAs(w, pa, id, Table);
      assert pa !in t'.node.Keys;
    }
    forall n | n in t'.node
      ensures UsedAs(w', n, id, Table)
    {
      if n in w.trees[id].node { assert UsedAs(w, n, id, Table); }
          else { assert n in t'.node.Keys - w.trees[id].node.Keys; }
    }
  }

  /** The tree grew and the map is the same: tables were made for a mapping that then failed. */
  lemma GrownKeeps(w: World, id: nat, tables': Tables, t': Tree)
    requires WorldOk(w) && id in w.spaces
    requires Touched(w.tables, w.trees[id], w.free, tables', t', w.free - (t'.node.Keys - w.trees[id].node.Keys))
    requires SameMap(w.tables, w.trees[id], tables', t')
    ensures WorldOk(Regrown(w, id, tables', t', w.spaces[id]))
  {
    hide TreeOk, NodeOk, OnlyTask;
    var w' := Regrown(w, id, tables', t', w.spaces[id]);
    SpaceAt(w, id);
    RegrownOnly(w, id, tables', t', w.spaces[id]);
    hide Regrown;
    forall u: Vpn | u.v0 < ENTRIES
      ensures EntryOk(w', id, u)
    {
      assert EntryOk(w, id, u) && Leaf(w', id, u) == Leaf(w, id, u);
    }
    forall pa | pa in w'.uses && w'.uses[pa].id == id
      ensures UseOk(w', pa)
    {
      if pa in w.uses { UseAt(w, pa); }
    }
    TaskKeeps(w, w', id);
  }

  /** The record of a task whose image or heap reaches one page further. */
  ghost predicate OneFurther(s: Space, s': Space, v: Vpn) {
    && VpnOk(v) && AddrOf(v) == MappedEnd(s) && MappedEnd(s') == MappedEnd(s) + PAGE_SIZE && Layout(s')
    && s'.root == s.root && s'.kernelStack == s.kernelStack && s'.userStack == s.userStack
    && s'.imageBase == s.imageBase && MappedEnd(s) < HEAP_LIMIT
    && (s'.heapBase == s.heapBase || s'.heapBase == MappedEnd(s'))
  }

  /** A page in hand has been mapped right behind the image or the heap. */
  lemma MapKeeps(w: World, id: nat, tables': Tables, t': Tree, s': Space, v: Vpn, p: nat, flags: nat)
    requires WorldOk(w) && id in w.spaces && OneFurther(w.spaces[id], s', v)
    requires Touched(w.tables, w.trees[id], w.free, tables', t', w.free - (t'.node.Keys - w.trees[id].node.Keys))
    requires p in w.managed && p !in w.free && p !in w.uses && PageAligned(p) && flags < FLAGS && IsValid(flags)
    requires forall u: Vpn {:trigger LeafAt(tables', t', u)} :: u.v0 < ENTRIES ==>
               LeafAt(tables', t', u) == if u == v then PaToPte(p, flags) else LeafAt(w.tables, w.trees[id], u)
    ensures var w1 := Regrown(w, id, tables', t', s'); WorldOk(w1.(uses := w1.uses[p := Use(id, Data(v))]))
  {
    hide TreeOk, NodeOk, OnlyTask, SpaceOk, EntryOk, UseOk, InUser, Touched, LeafAt;
    SpaceAt(w, id);
    SpaceParts(w, id);
    TouchedFrom(w, id, tables', t');
    RegrownOnly(w, id, tables', t', s');
    var w1 := Regrown(w, id, tables', t', s');
    NotFresh(w, id, tables', t', s', p);
    EntryRoundTrip(p, flags);
    var w' := w1.(uses := w1.uses[p := Use(id, Data(v))]);
    MapOnly(w, w1, w', id, p, v);
    BehindNotUser(w.spaces[id], s', v);
    hide PaToPte, PteToPa, IsValid, Layout, AddrOf;
    forall u: Vpn | u.v0 < ENTRIES
      ensures EntryOk(w', id, u)
    {
      EntryAt(w, id, u);
      MapEntry(w, w', id, s', v, p, flags, u);
    }
    forall pa | pa in w'.uses && w'.uses[pa].id == id
      ensures UseOk(w', pa)
    {
      if pa in w.uses { UseAt(w, pa); }
      MapUse(w, w', id, s', v, p, flags, pa) by { NodesGrow(w, id, tables', t', pa); }
    }
    SpaceFrom(w, w', id);
    TaskKeeps(w, w', id);
  }

  lemma SpaceParts(w: World, id: nat)
    requires id in w.spaces && SpaceOk(w, id)
    ensures HasTree(w, id) && Layout(w.spaces[id])
  {
  }

  lemma EntryAt(w: World, id: nat, v: Vpn)
    requires id in w.spaces && SpaceOk(w, id) && v.v0 < ENTRIES
    ensures HasTree(w, id) && EntryOk(w, id, v)
  {
  }

  lemma TouchedFrom(w: World, id: nat, tables': Tables, t': Tree)
    requires id in w.trees
    requires Touched(w.tables, w.trees[id], w.free, tables', t', w.free - (t'.node.Keys - w.trees[id].node.Keys))
    ensures t'.node.Keys - w.trees[id].node.Keys <= w.free && t'.root == w.trees[id].root
  {
  }

  lemma NodesGrow(w: World, id: nat, tables': Tables, t': Tree, pa: nat)
    requires id in w.trees
    requires Touched(w.tables, w.trees[id], w.free, tables', t', w.free - (t'.node.Keys - w.trees[id].node.Keys))
    ensures pa in w.trees[id].node ==> pa in t'.node
  {
    assert w.trees[id].node.Keys <= t'.node.Keys;
  }

  /** A task is in order when its entries are and what it used it uses still. */
  lemma SpaceFrom(w: World, w': World, id: nat)
    requires id in w.spaces && id in w'.spaces && SpaceOk(w, id) && HasTree(w', id) && Layout(w'.spaces[id])
    requires w'.spaces[id].userStack == w.spaces[id].userStack && w'.spaces[id].kernelStack == w.spaces[id].kernelStack
    requires forall pa {:trigger pa in w.uses} :: pa in w.uses ==> pa in w'.uses && w'.uses[pa] == w.uses[pa]
    requires forall n {:trigger n in w'.trees[id].node} :: n in w'.trees[id].node ==> UsedAs(w', n, id, Table)
    requires forall v: Vpn {:trigger EntryOk(w', id, v)} :: v.v0 < ENTRIES ==> EntryOk(w', id, v)
    ensures SpaceOk(w', id)
  {
    hide TreeOk, EntryOk, Layout;
  }

  lemma NotFresh(w: World, id: nat, tables': Tables, t': Tree, s': Space, p: nat)
    requires id in w.trees && p !in w.free && p !in w.uses && t'.node.Keys - w.trees[id].node.Keys <= w.free
    ensures p !in Regrown(w, id, tables', t', s').uses && p !in Regrown(w, id, tables', t', s').free
  {
  }

  lemma MapOnly(w: World, w1: World, w': World, id: nat, p: nat, v: Vpn)
    requires OnlyTask(w, w1, id) && p !in w1.uses && p !in w.uses && w' == w1.(uses := w1.uses[p := Use(id, Data(v))])
    ensures OnlyTask(w, w', id)
  {
  }

  /** The user pages of the record that reaches one page further. */
  lemma FurtherUser(s: Space, s': Space, v: Vpn, u: Vpn)
    requires OneFurther(s, s', v) && Layout(s) && VpnOk(u)
    ensures InUser(s', u) <==> InUser(s, u) || u == v
    ensures InHeap(s', u) ==> InHeap(s, u) || u == v
    ensures !InStack(v)
  {
    IndicesAddr(u);
    if AddrOf(u) == AddrOf(v) { SameAddr(u, v); }
  }

  lemma MapEntry(w: World, w': World, id: nat, s': Space, v: Vpn, p: nat, flags: nat, u: Vpn)
    requires HasTree(w, id) && HasTree(w', id) && u.v0 < ENTRIES && EntryOk(w, id, u) && Layout(w.spaces[id])
    requires OneFurther(w.spaces[id], s', v) && w'.spaces[id] == s' && w'.managed == w.managed && p in w.managed
    requires w'.granted == w.granted
    requires flags < FLAGS && Leaf(w', id, u) == if u == v then PaToPte(p, flags) else Leaf(w, id, u)
    requires IsValid(PaToPte(p, flags)) && PteToPa(PaToPte(p, flags)) == p && UsedAs(w', p, id, Data(v))
    requires forall pa {:trigger pa in w.uses} :: pa in w.uses ==> pa in w'.uses && w'.uses[pa] == w.uses[pa]
    ensures EntryOk(w', id, u)
  {
    hide TreeOk, LeafAt, PteToPa, PaToPte, IsValid, AddrOf, AlignUp, AlignDown;
    if VpnOk(u) {
      FurtherUser(w.spaces[id], s', v, u);
    }
  }

  lemma MapUse(w: World, w': World, id: nat, s': Space, v: Vpn, p: nat, flags: nat, pa: nat)
    requires HasTree(w, id) && HasTree(w', id) && Layout(w.spaces[id]) && w.spaces[id].root == s'.root
    requires OneFurther(w.spaces[id], s', v) && w'.spaces[id] == s' && pa in w'.uses && w'.uses[pa].id == id
    requires flags < FLAGS
    requires forall u: Vpn {:trigger Leaf(w', id, u)} :: u.v0 < ENTRIES ==>
               Leaf(w', id, u) == if u == v then PaToPte(p, flags) else Leaf(w, id, u)
    requires IsValid(PaToPte(p, flags)) && PteToPa(PaToPte(p, flags)) == p && p !in w.uses
    requires pa in w.uses ==> UseOk(w, pa) && w'.uses[pa] == w.uses[pa]
    requires pa !in w.uses ==>
               w'.uses[pa] == (if pa == p then Use(id, Data(v)) else Use(id, Table))
               && (pa != p ==> pa in w'.trees[id].node)
    requires pa in w.uses && pa in w.trees[id].node ==> pa in w'.trees[id].node
    requires !(InUser(w.spaces[id], v))
    ensures UseOk(w', pa)
  {
    hide TreeOk, LeafAt, PteToPa, PaToPte, IsValid, AddrOf, AlignUp, AlignDown;
    var u := w'.uses[pa];
    if u.role.Data? && VpnOk(u.role.v) {
      FurtherUser(w.spaces[id], s', v, u.role.v);
    }
    FurtherUser(w.spaces[id], s', v, v);
  }

  lemma BehindNotUser(s: Space, s': Space, v: Vpn)
    requires OneFurther(s, s', v)
    ensures !InUser(s, v)
  {
  }

  /** A page in hand has been mapped where the image has a hole. */
  lemma MapInsideKeeps(w: World, id: nat, tables': Tables, t': Tree, v: Vpn, p: nat, flags: nat)
    requires WorldOk(w) && id in w.spaces && InUser(w.spaces[id], v) && !InHeap(w.spaces[id], v)
    requires Touched(w.tables, w.trees[id], w.free, tables', t', w.free - (t'.node.Keys - w.trees[id].node.Keys))
    requires p in w.managed && p !in w.free && p !in w.uses && PageAligned(p) && flags < FLAGS && IsValid(flags)
    requires TreeOk(w.tables, w.trees[id]) && !IsValid(LeafAt(w.tables, w.trees[id], v))
    requires forall u: Vpn {:trigger LeafAt(tables', t', u)} :: u.v0 < ENTRIES ==>
               LeafAt(tables', t', u) == if u == v then PaToPte(p, flags) else LeafAt(w.tables, w.trees[id], u)
    ensures var w1 := Regrown(w, id, tables', t', w.spaces[id]); WorldOk(w1.(uses := w1.uses[p := Use(id, Data(v))]))
  {
    hide TreeOk, NodeOk, OnlyTask, SpaceOk, EntryOk, UseOk, InUser, Touched, LeafAt;
    var s := w.spaces[id];
    SpaceAt(w, id);
    SpaceParts(w, id);
    TouchedFrom(w, id, tables', t');
    RegrownOnly(w, id, tables', t', s);
    var w1 := Regrown(w, id, tables', t', s);
    NotFresh(w, id, tables', t', s, p);
    EntryRoundTrip(p, flags);
    var w' := w1.(uses := w1.uses[p := Use(id, Data(v))]);
    MapOnly(w, w1, w', id, p, v);
    hide PaToPte, PteToPa, IsValid, Layout, AddrOf, InHeap;
    forall u: Vpn | u.v0 < ENTRIES
      ensures EntryOk(w', id, u)
    {
      EntryAt(w, id, u);
      InsideEntry(w, w', id, v, p, flags, u);
    }
    forall pa | pa in w'.uses && w'.uses[pa].id == id
      ensures UseOk(w', pa)
    {
      if pa in w.uses { UseAt(w, pa); }
      InsideUse(w, w', id, v, p, flags, pa) by { NodesGrow(w, id, tables', t', pa); }
    }
    SpaceFrom(w, w', id);
    TaskKeeps(w, w', id);
  }

  lemma InsideEntry(w: World, w': World, id: nat, v: Vpn, p: nat, flags: nat, u: Vpn)
    requires HasTree(w, id) && HasTree(w', id) && u.v0 < ENTRIES && EntryOk(w, id, u) && w'.spaces[id] == w.spaces[id]
    requires InUser(w.spaces[id], v) && w'.managed == w.managed && p in w.managed && w'.granted == w.granted
    requires flags < FLAGS && Leaf(w', id, u) == if u == v then PaToPte(p, flags) else Leaf(w, id, u)
    requires IsValid(PaToPte(p, flags)) && PteToPa(PaToPte(p, flags)) == p && UsedAs(w', p, id, Data(v))
    requires forall pa {:trigger pa in w.uses} :: pa in w.uses ==> pa in w'.uses && w'.uses[pa] == w.uses[pa]
    ensures EntryOk(w', id, u)
  {
    hide TreeOk, LeafAt, PteToPa, PaToPte, IsValid, AddrOf, AlignUp, AlignDown;
  }

  lemma InsideUse(w: World, w': World, id: nat, v: Vpn, p: nat, flags: nat, pa: nat)
    requires HasTree(w, id) && HasTree(w', id) && InUser(w.spaces[id], v) && w'.spaces[id] == w.spaces[id]
    requires pa in w'.uses && w'.uses[pa].id == id && flags < FLAGS && !IsValid(Leaf(w, id, v))
    requires forall u: Vpn {:trigger Leaf(w', id, u)} :: u.v0 < ENTRIES ==>
               Leaf(w', id, u) == if u == v then PaToPte(p, flags) else Leaf(w, id, u)
    requires IsValid(PaToPte(p, flags)) && PteToPa(PaToPte(p, flags)) == p && p !in w.uses
    requires pa in w.uses ==> UseOk(w, pa) && w'.uses[pa] == w.uses[pa]
    requires pa !in w.uses ==>
               w'.uses[pa] == (if pa == p then Use(id, Data(v)) else Use(id, Table))
               && (pa != p ==> pa in w'.trees[id].node)
    requires pa in w.uses && pa in w.trees[id].node ==> pa in w'.trees[id].node
    ensures UseOk(w', pa)
  {
    hide TreeOk, LeafAt, PteToPa, PaToPte, IsValid, AddrOf, AlignUp, AlignDown;
  }

  /** The pages the first record counts as image and heap and the second does not. */
  ghost predicate Dropped(s: Space, s': Space, v: Vpn) {
    InUser(s, v) && !InUser(s', v)
  }

  /** The second record is the first with fewer image and heap pages. */
  ghost predicate Shrunk(s: Space, s': Space) {
    && Layout(s') && s'.root == s.root && s'.userStack == s.userStack && s'.kernelStack == s.kernelStack
    && AlignDown(s.imageBase) <= AlignDown(s'.imageBase) && MappedEnd(s') <= MappedEnd(s) && s.heapBase <= s'.heapBase
  }

  /** The task's pages in the dropped part. */
  ghost function Gone(w: World, id: nat, s': Space): set<nat>
    requires id in w.spaces
  {
    set pa | pa in w.uses && w.uses[pa].id == id && w.uses[pa].role.Data?
        && Dropped(w.spaces[id], s', w.uses[pa].role.v)
  }

  /** The task with the dropped part unmapped and its pages free. */
  ghost function ShrunkWorld(w: World, id: nat, tables': Tables, s': Space): World
    requires id in w.spaces
  {
    w.(tables := tables', spaces := w.spaces[id := s'], uses := w.uses - Gone(w, id, s'),
        free := w.free + Gone(w, id, s'))
  }

  lemma ShrinkKeeps(w: World, id: nat, tables': Tables, s': Space)
    requires WorldOk(w) && id in w.spaces && Shrunk(w.spaces[id], s') && TreeOk(w.tables, w.trees[id])
    requires TreeOk(tables', w.trees[id])
    requires forall n {:trigger n in w.tables} :: n in w.tables && n !in w.trees[id].node ==>
               n in tables' && tables'[n] == w.tables[n]
    requires forall u: Vpn {:trigger LeafAt(tables', w.trees[id], u)} :: u.v0 < ENTRIES ==>
               if Dropped(w.spaces[id], s', u) then !IsValid(LeafAt(tables', w.trees[id], u))
               else LeafAt(tables', w.trees[id], u) == LeafAt(w.tables, w.trees[id], u)
    ensures WorldOk(ShrunkWorld(w, id, tables', s'))
  {
    hide TreeOk, NodeOk, SpaceOk, EntryOk, UseOk, InUser, LeafAt, OnlyTask, IsValid;
    var w' := ShrunkWorld(w, id, tables', s');
    SpaceAt(w, id);
    SpaceParts(w, id);
    ShrinkOnly(w, id, tables', s');
    forall u: Vpn | u.v0 < ENTRIES
      ensures EntryOk(w', id, u)
    {
      EntryAt(w, id, u);
      ShrinkEntry(w, w', id, s', u);
    }
    forall pa | pa in w'.uses && w'.uses[pa].id == id
      ensures UseOk(w', pa)
    {
      UseAt(w, pa);
      ShrinkUse(w, w', id, s', pa);
    }
    ShrinkSpace(w, w', id, s');
    TaskKeeps(w, w', id);
  }

  lemma ShrinkOnly(w: World, id: nat, tables': Tables, s': Space)
    requires WorldOk(w) && id in w.spaces
    requires forall n {:trigger n in w.tables} :: n in w.tables && n !in w.trees[id].node ==>
               n in tables' && tables'[n] == w.tables[n]
    ensures OnlyTask(w, ShrunkWorld(w, id, tables', s'), id)
  {
    hide TreeOk, UseOk, EntryOk;
    SpaceAt(w, id);
    var w' := ShrunkWorld(w, id, tables', s');
    assert w'.spaces.Keys == w.spaces.Keys;
    forall pa | pa in w.uses && w.uses[pa].id != id && pa in w.tables
      ensures pa in w'.tables && w'.tables[pa] == w.tables[pa]
    {
      assert pa in w.trees[id].node ==> UsedAs(w, pa, id, Table);
    }
  }

  lemma ShrinkEntry(w: World, w': World, id: nat, s': Space, u: Vpn)
    requires id in w.spaces && HasTree(w, id) && HasTree(w', id) && u.v0 < ENTRIES && EntryOk(w, id, u)
    requires w'.spaces[id] == s' && w'.managed == w.managed && w'.granted == w.granted
    requires Shrunk(w.spaces[id], s') && Layout(w.spaces[id]) && w'.uses == w.uses - Gone(w, id, s')
    requires if Dropped(w.spaces[id], s', u) then !IsValid(Leaf(w', id, u)) else Leaf(w', id, u) == Leaf(w, id, u)
    ensures EntryOk(w', id, u)
  {
    hide TreeOk, LeafAt, PteToPa, PaToPte, IsValid, AddrOf;
  }

  lemma ShrinkUse(w: World, w': World, id: nat, s': Space, pa: nat)
    requires id in w.spaces && HasTree(w, id) && HasTree(w', id) && w'.spaces[id] == s' && w'.trees == w.trees
    requires pa in w.uses && UseOk(w, pa)
    requires Shrunk(w.spaces[id], s') && w'.uses == w.uses - Gone(w, id, s') && pa in w'.uses && w'.uses[pa].id == id
    requires forall u: Vpn {:trigger Leaf(w', id, u)} :: u.v0 < ENTRIES ==>
               if Dropped(w.spaces[id], s', u) then !IsValid(Leaf(w', id, u)) else Leaf(w', id, u) == Leaf(w, id, u)
    ensures UseOk(w', pa)
  {
    hide TreeOk, LeafAt, PteToPa, PaToPte, IsValid, AddrOf;
  }

  lemma ShrinkSpace(w: World, w': World, id: nat, s': Space)
    requires id in w.spaces && SpaceOk(w, id) && HasTree(w', id) && w'.spaces[id] == s' && w'.trees == w.trees
    requires Shrunk(w.spaces[id], s')
    requires w'.uses == w.uses - Gone(w, id, s')
    requires forall v: Vpn {:trigger EntryOk(w', id, v)} :: v.v0 < ENTRIES ==> EntryOk(w', id, v)
    ensures SpaceOk(w', id)
  {
    hide TreeOk, EntryOk, Layout, Dropped;
    forall n | n in w'.trees[id].node
      ensures UsedAs(w', n, id, Table)
    {
      assert UsedAs(w, n, id, Table);
    }
  }

  /** Removing a task that has no image or heap pages left: all its tables and stacks are free. */
  ghost function Removed(w: World, id: nat): World {
    w.(trees := w.trees - {id}, spaces := w.spaces - {id}, uses := w.uses - Owned(w, id), free := w.free + Owned(w, id),
       granted := w.granted - {id})
  }

  lemma RemoveKeeps(w: World, id: nat)
    requires WorldOk(w) && id in w.spaces
    ensures WorldOk(Removed(w, id))
  {
    hide TreeOk, SpaceOk, UseOk;
    var w' := Removed(w, id);
    assert OnlyTask(w, w', id) by {
      assert w'.spaces.Keys + {id} == w.spaces.Keys + {id};
    }
    TaskKeeps(w, w', id);
  }

  /** What a task without image or heap pages owns. */
  lemma EmptyOwned(w: World, id: nat)
    requires WorldOk(w) && id in w.spaces && MappedEnd(w.spaces[id]) <= AlignDown(w.spaces[id].imageBase)
    ensures Owned(w, id) ==
              w.trees[id].node.Keys + (if w.spaces[id].userStack != 0 then {w.spaces[id].userStack} else {})
                                                  + (if w.spaces[id].kernelStack != 0 then {w.spaces[id].kernelStack}
                                                      else {})
  {
    hide TreeOk, EntryOk, LeafAt;
    SpaceAt(w, id);
    var s := w.spaces[id];
    forall pa | pa in w.uses && w.uses[pa].id == id
      ensures pa in w.trees[id].node.Keys || pa == s.userStack || pa == s.kernelStack
    {
      UseAt(w, pa);
    }
    forall n | n in w.trees[id].node
      ensures n in Owned(w, id)
    {
      assert UsedAs(w, n, id, Table);
    }
  }

  // ---- Making a task ----

  function NewTree(root: nat): Tree {
    Tree(root, map[], map[], map[root := Root])
  }

  lemma NewTreeOk(tables: Tables, root: nat)
    requires root in tables && tables[root] == Blank() && PageAligned(root)
    ensures TreeOk(tables, NewTree(root))
              && forall v: Vpn {:trigger LeafAt(tables, NewTree(root), v)} :: v.v0 < ENTRIES ==>
              LeafAt(tables, NewTree(root), v) == 0
  {
  }

  /** A record with the page range for an image and nothing else yet. */
  function NewSpace(root: nat, imageBase: nat, imageSize: nat): Space {
    Space(root, 0, 0, imageBase, imageSize, imageBase + imageSize, imageBase + imageSize)
  }

  /** A task with a blank table, in a page that was in hand or free. */
  ghost function Begun(w: World, id: nat, root: nat, imageBase: nat, imageSize: nat): World {
    w.(tables := w.tables[root := Blank()], trees := w.trees[id := NewTree(root)],
       spaces := w.spaces[id := NewSpace(root, imageBase, imageSize)], uses := w.uses[root := Use(id, Table)],
           free := w.free - {root})
  }

  lemma BeginKeeps(w: World, id: nat, root: nat, imageBase: nat, imageSize: nat)
    requires WorldOk(w) && id !in w.spaces && root in w.managed && root !in w.uses && PageAligned(root)
    requires (imageBase + imageSize) % PAGE_SIZE == 0 && imageBase + imageSize <= HEAP_LIMIT
    ensures WorldOk(Begun(w, id, root, imageBase, imageSize))
  {
    hide TreeOk, LeafAt, UseOk;
    var w' := Begun(w, id, root, imageBase, imageSize);
    forall pa | pa in w.uses
      ensures w.uses[pa].id != id
    {
      UseAt(w, pa);
      UserThere(w, pa);
    }
    assert OnlyTask(w, w', id) by {
      assert w'.spaces.Keys + {id} == w.spaces.Keys + {id};
    }
    NewTreeOk(w'.tables, root);
    NewSpaceLayout(root, imageBase, imageSize);
    forall u: Vpn | u.v0 < ENTRIES
      ensures EntryOk(w', id, u)
    {
      ZeroEntry(w', id, u);
    }
    assert SpaceOk(w', id) && UseOk(w', root) by { BegunParts(w, id, root, imageBase, imageSize); }
    TaskKeeps(w, w', id);
  }

  lemma UserThere(w: World, pa: nat)
    requires pa in w.uses && UseOk(w, pa)
    ensures w.uses[pa].id in w.spaces
  {
  }

  lemma NewSpaceLayout(root: nat, imageBase: nat, imageSize: nat)
    requires (imageBase + imageSize) % PAGE_SIZE == 0 && imageBase + imageSize <= HEAP_LIMIT
    ensures Layout(NewSpace(root, imageBase, imageSize)) && forall v :: !InHeap(NewSpace(root, imageBase, imageSize), v)
  {
  }

  lemma ZeroEntry(w: World, id: nat, u: Vpn)
    requires HasTree(w, id) && u.v0 < ENTRIES && Leaf(w, id, u) == 0 && w.spaces[id].userStack == 0
    requires !InHeap(w.spaces[id], u)
    ensures EntryOk(w, id, u)
  {
    hide TreeOk, LeafAt, AddrOf;
  }

  lemma BegunParts(w: World, id: nat, root: nat, imageBase: nat, imageSize: nat)
    requires var w' := Begun(w, id, root, imageBase, imageSize);
             && HasTree(w', id) && Layout(w'.spaces[id])
             && forall u: Vpn {:trigger EntryOk(w', id, u)} :: u.v0 < ENTRIES ==> EntryOk(w', id, u)
    ensures SpaceOk(Begun(w, id, root, imageBase, imageSize), id)
    ensures UseOk(Begun(w, id, root, imageBase, imageSize), root)
  {
    hide TreeOk, EntryOk, Layout;
  }

  /** A range that the kernel maps for itself: not for the user, and in user memory only devices. */
  ghost predicate KernelRange(w: World, va: nat, n: nat, flags: nat) {
    && flags < FLAGS && flags / PTE_U % 2 == 0 && va % PAGE_SIZE == 0 && va + n * PAGE_SIZE <= VA_LIMIT
    && forall i :: 0 <= i < n ==>
         && KernelAddr(va + i * PAGE_SIZE)
         && (va + i * PAGE_SIZE < USER_STACK_TOP ==> va + i * PAGE_SIZE !in w.managed)
  }

  /** Part of such a range has been mapped, each page at its own address. */
  lemma KernelMapKeeps(w: World, id: nat, tables': Tables, t': Tree, va: nat, flags: nat, n: nat)
    requires WorldOk(w) && id in w.spaces && w.spaces[id].userStack == 0 && KernelRange(w, va, n, flags)
    requires Touched(w.tables, w.trees[id], w.free, tables', t', w.free - (t'.node.Keys - w.trees[id].node.Keys))
    requires TreeOk(w.tables, w.trees[id]) && TreeOk(tables', t') && flags < FLAGS
    requires MappedTo(w.tables, w.trees[id], tables', t', va, va, flags, n)
    requires va / PAGE_SIZE + n <= PPN_LIMIT && IsLeaf(flags)
    requires w.spaces[id].heapEnd == w.spaces[id].heapBase
    ensures WorldOk(Regrown(w, id, tables', t', w.spaces[id]))
  {
    hide TreeOk, NodeOk, OnlyTask, SpaceOk, EntryOk, UseOk, InUser, Touched, LeafAt, MappedTo, KernelRange;
    var w' := Regrown(w, id, tables', t', w.spaces[id]);
    SpaceAt(w, id);
    SpaceParts(w, id);
    TouchedFrom(w, id, tables', t');
    RegrownOnly(w, id, tables', t', w.spaces[id]);
    forall u: Vpn | u.v0 < ENTRIES
      ensures EntryOk(w', id, u)
    {
      EntryAt(w, id, u);
      NoHeap(w.spaces[id], u);
      KernelEntry(w, w', id, va, flags, n, u);
    }
    forall p | p in w'.uses && w'.uses[p].id == id
      ensures UseOk(w', p)
    {
      if p in w.uses { UseAt(w, p); }
      KernelUse(w, w', id, va, flags, n, p) by { NodesGrow(w, id, tables', t', p); }
    }
    SpaceFrom(w, w', id);
    TaskKeeps(w, w', id);
  }

  lemma KernelEntry(w: World, w': World, id: nat, va: nat, flags: nat, n: nat, u: Vpn)
    requires HasTree(w, id) && HasTree(w', id) && u.v0 < ENTRIES && EntryOk(w, id, u) && w'.spaces[id] == w.spaces[id]
    requires w'.managed == w.managed && w'.granted == w.granted
    requires KernelRange(w, va, n, flags)
    requires MappedTo(w.tables, w.trees[id], w'.tables, w'.trees[id], va, va, flags, n)
    requires Layout(w.spaces[id]) && !InHeap(w.spaces[id], u) && w.spaces[id].userStack == 0
    requires va / PAGE_SIZE + n <= PPN_LIMIT
    requires forall p {:trigger p in w.uses} :: p in w.uses ==> p in w'.uses && w'.uses[p] == w.uses[p]
    ensures EntryOk(w', id, u)
  {
    hide TreeOk, LeafAt, PteToPa, IsValid, AddrOf, AlignUp, AlignDown, PaToPte, KernelAddr, ForUser;
    if u in PageRange(va, n) {
      var i := InRange(va, n, u);
      KernelPte(va, i, n, flags);
      PageAddrOf(va, i, n);
      EndBound(w.spaces[id]);
      assert Leaf(w', id, u) == PaToPte(va + i * PAGE_SIZE, SetValid(flags));
    } else {
      assert Leaf(w', id, u) == Leaf(w, id, u);
    }
  }

  lemma NoHeap(s: Space, u: Vpn)
    requires Layout(s) && s.heapEnd == s.heapBase
    ensures !InHeap(s, u)
  {
  }

  lemma EndBound(s: Space)
    requires Layout(s)
    ensures MappedEnd(s) <= HEAP_LIMIT
  {
  }

  lemma KernelPte(pa: nat, i: nat, n: nat, flags: nat)
    requires flags < FLAGS && flags / PTE_U % 2 == 0 && i < n && pa / PAGE_SIZE + n <= PPN_LIMIT && pa % PAGE_SIZE == 0
    ensures !ForUser(PaToPte(pa + i * PAGE_SIZE, SetValid(flags)))
    ensures PteToPa(PaToPte(pa + i * PAGE_SIZE, SetValid(flags))) == pa + i * PAGE_SIZE
  {
    var f := SetValid(flags);
    assert (pa + i * PAGE_SIZE) / PAGE_SIZE == pa / PAGE_SIZE + i;
    EntryRoundTrip(pa + i * PAGE_SIZE, f);
    UserBit((pa + i * PAGE_SIZE) / PAGE_SIZE, f);
    assert f / PTE_U == flags / PTE_U;
  }

  lemma UserBit(n: nat, f: nat)
    ensures (n * FLAGS + f) / PTE_U % 2 == f / PTE_U % 2
  {
    assert (n * FLAGS + f) / PTE_U == n * 64 + f / PTE_U;
  }

  lemma KernelUse(w: World, w': World, id: nat, va: nat, flags: nat, n: nat, p: nat)
    requires HasTree(w, id) && HasTree(w', id) && w'.spaces[id] == w.spaces[id] && p in w'.uses && w'.uses[p].id == id
    requires flags < FLAGS
    requires MappedTo(w.tables, w.trees[id], w'.tables, w'.trees[id], va, va, flags, n)
    requires p in w.uses ==> UseOk(w, p) && w'.uses[p] == w.uses[p]
    requires p !in w.uses ==> w'.uses[p] == Use(id, Table) && p in w'.trees[id].node
    requires p in w.uses && p in w.trees[id].node ==> p in w'.trees[id].node
    ensures UseOk(w', p)
  {
    hide TreeOk, LeafAt, PteToPa, IsValid, InUser, PaToPte;
    var u := w'.uses[p];
    if u.role.Data? {
      InUserOk(w.spaces[id], u.role.v);
      if p in w.uses && u.role.v in PageRange(va, n) {
        var i := InRange(va, n, u.role.v);
      }
    }
  }

  lemma InUserOk(s: Space, v: Vpn)
    ensures InUser(s, v) ==> VpnOk(v)
  {
  }

  /** The user stack has been mapped on its page. */
  lemma StackKeeps(w: World, id: nat, tables': Tables, t': Tree, p: nat)
    requires WorldOk(w) && id in w.spaces && w.spaces[id].userStack == 0
    requires Touched(w.tables, w.trees[id], w.free, tables', t', w.free - (t'.node.Keys - w.trees[id].node.Keys))
    requires p in w.managed && p !in w.free && p !in w.uses && PageAligned(p)
    requires TreeOk(w.tables, w.trees[id]) && TreeOk(tables', t')
    requires forall u: Vpn {:trigger LeafAt(tables', t', u)} :: u.v0 < ENTRIES ==>
               LeafAt(tables', t', u) == if u == VpnOf(STACK_PAGE) then PaToPte(p, PTE_R + PTE_W + PTE_U + PTE_V)
                   else LeafAt(w.tables, w.trees[id], u)
    ensures var w1 := Regrown(w, id, tables', t',
              w.spaces[id].(userStack := p)); WorldOk(w1.(uses := w1.uses[p := Use(id, UserStack)]))
  {
    hide TreeOk, NodeOk, OnlyTask, SpaceOk, EntryOk, UseOk, InUser, Touched, LeafAt;
    var s' := w.spaces[id].(userStack := p);
    SpaceAt(w, id);
    SpaceParts(w, id);
    TouchedFrom(w, id, tables', t');
    RegrownOnly(w, id, tables', t', s');
    var w1 := Regrown(w, id, tables', t', s');
    NotFresh(w, id, tables', t', s', p);
    var w' := w1.(uses := w1.uses[p := Use(id, UserStack)]);
    OneUseOnly(w, w1, w', id, p, UserStack);
    hide PaToPte, PteToPa, IsValid, AddrOf, VpnOf;
    forall u: Vpn | u.v0 < ENTRIES
      ensures EntryOk(w', id, u)
    {
      EntryAt(w, id, u);
      StackEntry(w, w', id, p, u);
    }
    forall pa | pa in w'.uses && w'.uses[pa].id == id
      ensures UseOk(w', pa)
    {
      if pa in w.uses { UseAt(w, pa); }
      StackUse(w, w', id, p, pa) by { NodesGrow(w, id, tables', t', pa); }
    }
    StackSpace(w, w1, w', id, p);
    TaskKeeps(w, w', id);
  }

  lemma OneUseOnly(w: World, w1: World, w': World, id: nat, p: nat, role: Role)
    requires OnlyTask(w, w1, id) && p !in w1.uses && p !in w.uses && w' == w1.(uses := w1.uses[p := Use(id, role)])
    ensures OnlyTask(w, w', id)
  {
  }

  lemma StackVpn(u: Vpn)
    requires VpnOk(u)
    ensures InStack(u) <==> u == VpnOf(STACK_PAGE)
    ensures VpnOk(VpnOf(STACK_PAGE)) && InStack(VpnOf(STACK_PAGE))
  {
    AddrIndices(STACK_PAGE);
    IndicesAddr(u);
  }

  lemma StackEntry(w: World, w': World, id: nat, p: nat, u: Vpn)
    requires HasTree(w, id) && HasTree(w', id) && u.v0 < ENTRIES && EntryOk(w, id, u) && Layout(w.spaces[id])
    requires w.spaces[id].userStack == 0
    requires w'.spaces[id] == w.spaces[id].(userStack := p) && w'.managed == w.managed && p != 0
    requires w'.granted == w.granted
    requires Leaf(w', id, u) == if u == VpnOf(STACK_PAGE) then PaToPte(p, PTE_R + PTE_W + PTE_U + PTE_V)
               else Leaf(w, id, u)
    requires forall pa {:trigger pa in w.uses} :: pa in w.uses ==> pa in w'.uses && w'.uses[pa] == w.uses[pa]
    ensures EntryOk(w', id, u)
  {
    hide TreeOk, LeafAt, PteToPa, PaToPte, IsValid, AddrOf, VpnOf, AlignDown;
    if VpnOk(u) { StackVpn(u); }
    StackVpn(VpnOf(STACK_PAGE));
  }

  lemma StackUse(w: World, w': World, id: nat, p: nat, pa: nat)
    requires HasTree(w, id) && HasTree(w', id) && Layout(w.spaces[id]) && w.spaces[id].userStack == 0 && 0 !in w.uses
    requires w'.spaces[id] == w.spaces[id].(userStack := p) && pa in w'.uses && w'.uses[pa].id == id && p != 0
    requires forall u: Vpn {:trigger Leaf(w', id, u)} :: u.v0 < ENTRIES ==>
               Leaf(w', id, u) == if u == VpnOf(STACK_PAGE) then PaToPte(p, PTE_R + PTE_W + PTE_U + PTE_V)
                   else Leaf(w, id, u)
    requires pa in w.uses ==> UseOk(w, pa) && w'.uses[pa] == w.uses[pa]
    requires pa !in w.uses ==>
               w'.uses[pa] == (if pa == p then Use(id, UserStack) else Use(id, Table))
               && (pa != p ==> pa in w'.trees[id].node)
    requires pa in w.uses && pa in w.trees[id].node ==> pa in w'.trees[id].node
    ensures UseOk(w', pa)
  {
    hide TreeOk, LeafAt, PteToPa, PaToPte, IsValid, AddrOf, VpnOf, AlignDown;
    var u := w'.uses[pa];
    if u.role.Data? && VpnOk(u.role.v) { StackVpn(u.role.v); }
  }

  lemma StackSpace(w: World, w1: World, w': World, id: nat, p: nat)
    requires id in w.spaces && SpaceOk(w, id) && HasTree(w', id) && Layout(w'.spaces[id]) && id in w1.trees
    requires w'.trees == w1.trees
    requires w'.spaces[id] == w.spaces[id].(userStack := p) && PageAligned(p) && UsedAs(w', p, id, UserStack)
    requires forall pa {:trigger pa in w.uses} :: pa in w.uses ==> pa in w'.uses && w'.uses[pa] == w.uses[pa]
    requires forall n {:trigger n in w1.trees[id].node} :: n in w1.trees[id].node ==> UsedAs(w', n, id, Table)
    requires forall v: Vpn {:trigger EntryOk(w', id, v)} :: v.v0 < ENTRIES ==> EntryOk(w', id, v)
    ensures SpaceOk(w', id)
  {
    hide TreeOk, EntryOk, Layout, PageAligned;
  }

  /** A page in hand becomes the task's kernel stack. */
  ghost function WithKernelStack(w: World, id: nat, p: nat): World
    requires id in w.spaces
  {
    w.(spaces := w.spaces[id := w.spaces[id].(kernelStack := p)], uses := w.uses[p := Use(id, KernelStack)])
  }

  lemma KernelStackKeeps(w: World, id: nat, p: nat)
    requires WorldOk(w) && id in w.spaces && w.spaces[id].kernelStack == 0 && p in w.managed && p !in w.free
    requires p !in w.uses
    ensures WorldOk(WithKernelStack(w, id, p))
  {
    hide TreeOk, NodeOk, LeafAt, OnlyTask, SpaceOk, EntryOk, UseOk;
    var w' := WithKernelStack(w, id, p);
    SpaceAt(w, id);
    SpaceParts(w, id);
    KernelStackOnly(w, id, p);
    forall u: Vpn | u.v0 < ENTRIES
      ensures EntryOk(w', id, u)
    {
      EntryAt(w, id, u);
      KernelStackEntry(w, id, p, u);
    }
    forall pa | pa in w'.uses && w'.uses[pa].id == id
      ensures UseOk(w', pa)
    {
      if pa in w.uses { UseAt(w, pa); }
      KernelStackUse(w, id, p, pa);
    }
    KernelStackSpace(w, id, p);
    TaskKeeps(w, w', id);
  }

  lemma KernelStackOnly(w: World, id: nat, p: nat)
    requires id in w.spaces && w.trees.Keys == w.spaces.Keys && p !in w.uses
    ensures OnlyTask(w, WithKernelStack(w, id, p), id) && HasTree(w, id) == HasTree(WithKernelStack(w, id, p), id)
  {
    hide TreeOk;
    assert WithKernelStack(w, id, p).spaces.Keys == w.spaces.Keys;
  }

  lemma KernelStackEntry(w: World, id: nat, p: nat, u: Vpn)
    requires id in w.spaces && HasTree(w, id) && HasTree(WithKernelStack(w, id, p), id) && u.v0 < ENTRIES
    requires EntryOk(w, id, u) && p !in w.uses
    ensures EntryOk(WithKernelStack(w, id, p), id, u)
  {
    hide TreeOk, LeafAt;
  }

  lemma KernelStackUse(w: World, id: nat, p: nat, pa: nat)
    requires id in w.spaces && HasTree(w, id) && HasTree(WithKernelStack(w, id, p), id)
    requires (pa in w.uses ==> UseOk(w, pa)) && p !in w.uses
    requires w.spaces[id].kernelStack == 0 && 0 !in w.uses && pa in WithKernelStack(w, id, p).uses
    requires (pa in w.uses ==> w.uses[pa].id == id)
    ensures UseOk(WithKernelStack(w, id, p), pa)
  {
    hide TreeOk, LeafAt;
  }

  lemma KernelStackSpace(w: World, id: nat, p: nat)
    requires id in w.spaces && SpaceOk(w, id) && p !in w.uses && HasTree(WithKernelStack(w, id, p), id)
    requires forall u: Vpn {:trigger EntryOk(WithKernelStack(w, id, p), id, u)} :: u.v0 < ENTRIES ==>
               EntryOk(WithKernelStack(w, id, p), id, u)
    ensures SpaceOk(WithKernelStack(w, id, p), id)
  {
    hide TreeOk, EntryOk;
    var w' := WithKernelStack(w, id, p);
    forall n | n in w'.trees[id].node
      ensures UsedAs(w', n, id, Table)
    {
      assert UsedAs(w, n, id, Table);
    }
  }

  /** A task gives its kernel stack away, into the hands of the caller. */
  ghost function WithoutKernelStack(w: World, id: nat): World
    requires id in w.spaces
  {
    w.(spaces := w.spaces[id := w.spaces[id].(kernelStack := 0)], uses := w.uses - {w.spaces[id].kernelStack})
  }

  lemma NoKernelStackKeeps(w: World, id: nat)
    requires WorldOk(w) && id in w.spaces && w.spaces[id].kernelStack != 0
    ensures WorldOk(WithoutKernelStack(w, id)) && w.spaces[id].kernelStack in w.uses
    ensures w.uses[w.spaces[id].kernelStack] == Use(id, KernelStack)
  {
    hide TreeOk, NodeOk, LeafAt, OnlyTask, EntryOk, UseOk;
    var w' := WithoutKernelStack(w, id);
    SpaceAt(w, id);
    NoKernelStackOnly(w, id);
    forall u: Vpn | u.v0 < ENTRIES
      ensures EntryOk(w', id, u)
    {
      EntryAt(w, id, u);
      NoKernelStackEntry(w, id, u);
    }
    forall pa | pa in w'.uses && w'.uses[pa].id == id
      ensures UseOk(w', pa)
    {
      UseAt(w, pa);
      NoKernelStackUse(w, id, pa);
    }
    forall n | n in w'.trees[id].node
      ensures UsedAs(w', n, id, Table)
    {
      assert UsedAs(w, n, id, Table);
    }
    TaskKeeps(w, w', id);
  }

  lemma NoKernelStackOnly(w: World, id: nat)
    requires id in w.spaces && w.trees.Keys == w.spaces.Keys && UsedAs(w, w.spaces[id].kernelStack, id, KernelStack)
    ensures OnlyTask(w, WithoutKernelStack(w, id), id) && HasTree(w, id) == HasTree(WithoutKernelStack(w, id), id)
  {
    hide TreeOk;
    assert WithoutKernelStack(w, id).spaces.Keys == w.spaces.Keys;
  }

  lemma NoKernelStackEntry(w: World, id: nat, u: Vpn)
    requires id in w.spaces && HasTree(w, id) && HasTree(WithoutKernelStack(w, id), id) && u.v0 < ENTRIES
    requires EntryOk(w, id, u)
    requires UsedAs(w, w.spaces[id].kernelStack, id, KernelStack)
    ensures EntryOk(WithoutKernelStack(w, id), id, u)
  {
    hide TreeOk, LeafAt;
  }

  lemma NoKernelStackUse(w: World, id: nat, pa: nat)
    requires id in w.spaces && HasTree(w, id) && HasTree(WithoutKernelStack(w, id), id) && pa in w.uses && UseOk(w, pa)
    requires w.uses[pa].id == id
    requires pa != w.spaces[id].kernelStack
    ensures pa in WithoutKernelStack(w, id).uses && UseOk(WithoutKernelStack(w, id), pa)
  {
    hide TreeOk, LeafAt;
  }

  // ---- The serial port ----

  /** Task id is to have the serial port. */
  ghost function Chosen(w: World, id: nat): World {
    w.(granted := w.granted + {id})
  }

  lemma ChosenKeeps(w: World, id: nat)
    requires WorldOk(w) && id in w.spaces
    ensures WorldOk(Chosen(w, id))
  {
    hide TreeOk, LeafAt, AddrOf, PteToPa, IsValid, AlignUp, AlignDown, PaToPte, KernelAddr;
    var w' := Chosen(w, id);
    forall pa | pa in w'.uses
      ensures UseOk(w', pa)
    {
      UseAt(w, pa);
    }
    forall o | o in w'.spaces
      ensures SpaceOk(w', o)
    {
      SpaceAt(w, o);
      ChosenSpace(w, id, o);
    }
  }

  lemma ChosenSpace(w: World, id: nat, o: nat)
    requires o in w.spaces && SpaceOk(w, o)
    ensures SpaceOk(Chosen(w, id), o)
  {
    hide TreeOk, LeafAt, AddrOf, PteToPa, IsValid, AlignUp, AlignDown, PaToPte, KernelAddr;
    var w' := Chosen(w, id);
    forall n | n in w'.trees[o].node
      ensures UsedAs(w', n, o, Table)
    {
      assert UsedAs(w, n, o, Table);
    }
    forall v: Vpn | v.v0 < ENTRIES
      ensures EntryOk(w', o, v)
    {
      assert EntryOk(w, o, v);
    }
  }

  /** The entry of the port's page gets new flags, and with them only what the user may do there. */
  lemma PortKeeps(w: World, id: nat, tables': Tables, flags: nat)
    requires WorldOk(w) && id in w.spaces && id in w.granted && flags < FLAGS && IsValid(flags)
    requires TreeOk(w.tables, w.trees[id]) && TreeOk(tables', w.trees[id])
    requires forall n {:trigger n in w.tables} :: n in w.tables && n !in w.trees[id].node ==>
               n in tables' && tables'[n] == w.tables[n]
    requires var v := VpnOf(UART);
             && IsValid(LeafAt(w.tables, w.trees[id], v))
             && forall u: Vpn {:trigger LeafAt(tables', w.trees[id], u)} :: u.v0 < ENTRIES ==>
                  LeafAt(tables', w.trees[id], u) ==
                    if u == v then PaToPte(PteToPa(LeafAt(w.tables, w.trees[id], v)), flags)
                    else LeafAt(w.tables, w.trees[id], u)
    ensures WorldOk(w.(tables := tables')) && OnlyTask(w, w.(tables := tables'), id)
  {
    hide TreeOk, NodeOk, SpaceOk, EntryOk, UseOk, InUser, LeafAt, OnlyTask, IsValid, PteToPa, PaToPte, VpnOf;
    var w' := w.(tables := tables');
    SpaceAt(w, id);
    SpaceParts(w, id);
    PortOnly(w, id, tables');
    var pte := Leaf(w, id, VpnOf(UART));
    PteAligned(pte);
    EntryRoundTrip(PteToPa(pte), flags);
    forall u: Vpn | u.v0 < ENTRIES
      ensures EntryOk(w', id, u)
    {
      EntryAt(w, id, u);
      PortEntry(w, w', id, PaToPte(PteToPa(pte), flags), u);
    }
    forall pa | pa in w'.uses && w'.uses[pa].id == id
      ensures UseOk(w', pa)
    {
      UseAt(w, pa);
      PortUse(w, w', id, PaToPte(PteToPa(pte), flags), pa);
    }
    SpaceFrom(w, w', id) by { SpaceTables(w, id); }
    TaskKeeps(w, w', id);
  }

  lemma PteAligned(pte: nat)
    ensures PageAligned(PteToPa(pte))
  {
  }

  lemma SpaceTables(w: World, id: nat)
    requires id in w.spaces && SpaceOk(w, id)
    ensures HasTree(w, id) && forall n {:trigger n in w.trees[id].node} :: n in w.trees[id].node ==>
              UsedAs(w, n, id, Table)
  {
    hide TreeOk, EntryOk;
  }

  lemma PortOnly(w: World, id: nat, tables': Tables)
    requires WorldOk(w) && id in w.spaces
    requires forall n {:trigger n in w.tables} :: n in w.tables && n !in w.trees[id].node ==>
               n in tables' && tables'[n] == w.tables[n]
    ensures OnlyTask(w, w.(tables := tables'), id)
  {
    hide TreeOk, UseOk, EntryOk;
    SpaceAt(w, id);
    var w' := w.(tables := tables');
    forall pa | pa in w.uses && w.uses[pa].id != id && pa in w.tables
      ensures pa in w'.tables && w'.tables[pa] == w.tables[pa]
    {
      assert pa in w.trees[id].node ==> UsedAs(w, pa, id, Table);
    }
  }

  lemma PortEntry(w: World, w': World, id: nat, pte: nat, u: Vpn)
    requires id in w.spaces && HasTree(w, id) && HasTree(w', id) && u.v0 < ENTRIES && EntryOk(w, id, u)
    requires Layout(w.spaces[id]) && w'.spaces == w.spaces && w'.managed == w.managed && w'.uses == w.uses
    requires id in w'.granted
    requires IsValid(Leaf(w, id, VpnOf(UART))) && IsValid(pte) && PteToPa(pte) == PteToPa(Leaf(w, id, VpnOf(UART)))
    requires Leaf(w', id, u) == if u == VpnOf(UART) then pte else Leaf(w, id, u)
    ensures EntryOk(w', id, u)
  {
    hide TreeOk, LeafAt, PteToPa, PaToPte, IsValid, AddrOf, VpnOf, AlignUp, AlignDown;
    AddrIndices(UART);
  }

  lemma PortUse(w: World, w': World, id: nat, pte: nat, pa: nat)
    requires id in w.spaces && HasTree(w, id) && HasTree(w', id) && pa in w.uses && w.uses[pa].id == id && UseOk(w, pa)
    requires w'.spaces == w.spaces && w'.uses == w.uses && w'.trees == w.trees
    requires IsValid(Leaf(w, id, VpnOf(UART))) && IsValid(pte) && PteToPa(pte) == PteToPa(Leaf(w, id, VpnOf(UART)))
    requires forall u: Vpn {:trigger Leaf(w', id, u)} :: u.v0 < ENTRIES ==>
               Leaf(w', id, u) == if u == VpnOf(UART) then pte else Leaf(w, id, u)
    ensures UseOk(w', pa)
  {
    hide TreeOk, LeafAt, PteToPa, PaToPte, IsValid, AddrOf, VpnOf, AlignUp, AlignDown;
  }
}
