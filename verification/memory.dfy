/**
 What user programs see of their memory (src/kernel/task.rs): which bytes a task can read and write, what steps of
 other tasks leave of them, and what a forked child has in common with its parent.
 */
module Memories {
  import opened Wrappers
  import opened Words
  import opened Pages
  import opened PageTables
  import opened Ownership

  type Bytes = map<nat, seq<byte>>     // what physical pages hold, read as bytes

  /** The page holds bytes of a user program. */
  ghost predicate DataPage(w: World, pa: nat) {
    pa in w.uses && (w.uses[pa].role.Data? || w.uses[pa].role.UserStack?)
  }

  ghost predicate BytesOk(w: World, b: Bytes) {
    forall pa {:trigger DataPage(w, pa)} :: DataPage(w, pa) ==> pa in b && |b[pa]| == PAGE_SIZE
  }

  /** The allocator's pages that are neither free nor any task's. */
  ghost function InHand(w: World): set<nat> {
    w.managed - w.free - w.uses.Keys
  }

  // ---- What a task can reach ----

  /** The task's own page: the one its image or heap has at v, or its stack. */
  ghost predicate Mine(w: World, id: nat, v: Vpn, pa: nat) {
    UsedAs(w, pa, id, Data(v)) || (InStack(v) && UsedAs(w, pa, id, UserStack))
  }

  /**
   What a user program can reach, as the processor checks it: a page of image, heap or stack that is the task's own; or
   the serial port's registers, which are no memory, if it has been given them.
   */
  lemma UserPage(w: World, id: nat, v: Vpn)
    requires WorldOk(w) && id in w.spaces && VpnOk(v)
    ensures HasTree(w, id)
    ensures var pa := PteToPa(Leaf(w, id, v));
            ForUser(Leaf(w, id, v)) ==>
              Mine(w, id, v, pa) || (id in w.granted && AddrOf(v) == UART == pa && pa !in w.managed)
  {
    hide TreeOk, LeafAt, PteToPa, PaToPte, AddrOf, KernelAddr;
    SpaceAt(w, id);
    EntryAt(w, id, v);
    if InStack(v)
        && w.spaces[id].userStack != 0 { EntryRoundTrip(w.spaces[id].userStack, PTE_R + PTE_W + PTE_U + PTE_V); }
  }

  /**
   What the kernel reaches when it goes by a task's table without asking whether the user might, as `translate_user`
   does: the task's own page exactly when the address is below the top of user memory and the page is the allocator's;
   otherwise the page that has this very address, whoever uses it.
   */
  lemma TranslatedPage(w: World, id: nat, v: Vpn)
    requires WorldOk(w) && id in w.spaces && VpnOk(v)
    ensures HasTree(w, id)
    ensures var pa := PteToPa(Leaf(w, id, v));
            IsValid(Leaf(w, id, v)) ==>
              && (Mine(w, id, v, pa) <==> pa in w.managed && AddrOf(v) < USER_STACK_TOP)
              && (!Mine(w, id, v, pa) ==> pa == AddrOf(v) && KernelAddr(pa))
  {
    hide TreeOk, LeafAt, PteToPa, PaToPte, AddrOf, KernelAddr;
    SpaceAt(w, id);
    EntryAt(w, id, v);
    SpaceParts(w, id);
    EndBound(w.spaces[id]);
    if InStack(v)
        && w.spaces[id].userStack != 0 { EntryRoundTrip(w.spaces[id].userStack, PTE_R + PTE_W + PTE_U + PTE_V); }
    if Mine(w, id, v, PteToPa(Leaf(w, id, v))) { MineBelow(w, id, v, PteToPa(Leaf(w, id, v))); }
  }

  lemma MineBelow(w: World, id: nat, v: Vpn, pa: nat)
    requires WorldOk(w) && id in w.spaces && Mine(w, id, v, pa)
    ensures pa in w.managed && AddrOf(v) < USER_STACK_TOP
  {
    hide TreeOk, LeafAt, PteToPa, AddrOf, EntryOk;
    SpaceAt(w, id);
    SpaceParts(w, id);
    EndBound(w.spaces[id]);
    UseAt(w, pa);
  }

  /** Every page of the kernel's is mapped at its own address, whatever else the task maps. */
  ghost predicate KernelThere(w: World, id: nat) {
    HasTree(w, id)
    && forall u: Vpn {:trigger Leaf(w, id, u)} :: u.v0 < ENTRIES && VpnOk(u) && KernelAddr(AddrOf(u)) ==>
         IsValid(Leaf(w, id, u)) && PteToPa(Leaf(w, id, u)) == AddrOf(u)
  }

  /** So traps find the kernel in the tables of every task. */
  ghost predicate KernelEverywhere(w: World) {
    forall id {:trigger KernelThere(w, id)} :: id in w.spaces ==> KernelThere(w, id)
  }

  /**
   And so the kernel can be led to any page of kernel memory, whoever uses it, by giving it the page's own address,
   where the user himself can reach nothing.
   */
  lemma TranslatedOther(w: World, id: nat, pa: nat)
    requires WorldOk(w) && id in w.spaces && KernelThere(w, id) && PageAligned(pa)
    requires KERNEL_START <= pa < KERNEL_START + KERNEL_SIZE
    ensures IsValid(Leaf(w, id, VpnOf(pa))) && PteToPa(Leaf(w, id, VpnOf(pa))) == pa
    ensures !ForUser(Leaf(w, id, VpnOf(pa)))
  {
    hide TreeOk, LeafAt, PteToPa, AddrOf, VpnOf, WorldOk;
    AddrIndices(pa);
    VpnIn(pa);
    UserPage(w, id, VpnOf(pa));
    if Mine(w, id, VpnOf(pa), PteToPa(Leaf(w, id, VpnOf(pa)))) {
      MineBelow(w, id, VpnOf(pa), PteToPa(Leaf(w, id, VpnOf(pa))));
    }
  }

  lemma VpnIn(a: nat)
    ensures VpnOk(VpnOf(a))
  {
  }

  /** The task has a page of its own at v. */
  ghost predicate Own(w: World, id: nat, v: Vpn)
    requires HasTree(w, id) && v.v0 < ENTRIES
  {
    IsValid(Leaf(w, id, v)) && PteToPa(Leaf(w, id, v)) in w.managed
  }

  /**
   Below the top of user memory a task's own pages from heapBase on are exactly the heap's, up to the rounded end of
   the heap, and the stack; the page below the stack is not mapped.
   */
  lemma HeapExactly(w: World, id: nat, v: Vpn)
    requires WorldOk(w) && id in w.spaces && VpnOk(v) && w.spaces[id].heapBase <= AddrOf(v) < USER_STACK_TOP
    ensures HasTree(w, id)
    ensures Own(w, id, v) <==>
              AddrOf(v) < MappedEnd(w.spaces[id]) || (AddrOf(v) == STACK_PAGE && w.spaces[id].userStack != 0)
    ensures AddrOf(v) == HEAP_LIMIT ==> !Own(w, id, v)
  {
    hide TreeOk, LeafAt, PteToPa, PaToPte;
    SpaceAt(w, id);
    EntryAt(w, id, v);
    EndBound(w.spaces[id]);
    var s := w.spaces[id];
    assert AlignDown(s.imageBase) <= s.heapBase;
    if InStack(v) && s.userStack != 0 { EntryRoundTrip(s.userStack, PTE_R + PTE_W + PTE_U + PTE_V); }
  }

  /** The byte of memory a user program reads at an address, if it may; a device's registers are no memory. */
  ghost function UserByte(w: World, b: Bytes, id: nat, a: nat): Option<byte>
    requires HasTree(w, id)
  {
    var pte := Leaf(w, id, VpnOf(a));
    if ForUser(pte) && PteToPa(pte) in w.managed && PteToPa(pte) in b && |b[PteToPa(pte)]| == PAGE_SIZE then
      Some(b[PteToPa(pte)][a % PAGE_SIZE])
    else None
  }

  // ---- What steps leave of a task ----

  ghost predicate UsesSame(w: World, w': World, o: nat, pa: nat) {
    && ((pa in w.uses && w.uses[pa].id == o) <==> (pa in w'.uses && w'.uses[pa].id == o))
    && (pa in w.uses && pa in w'.uses && w.uses[pa].id == o ==> w'.uses[pa] == w.uses[pa])
  }

  ghost predicate ContentSame<T>(m: map<nat, T>, m': map<nat, T>, pa: nat) {
    pa in m ==> pa in m' && m'[pa] == m[pa]
  }

  /** Task o has the same record, the same tables and the same pages, with the same contents. */
  ghost predicate Kept(w: World, b: Bytes, w': World, b': Bytes, o: nat) {
    && o in w.spaces && o in w'.spaces && o in w.trees && o in w'.trees && w'.spaces[o] == w.spaces[o]
        && w'.trees[o] == w.trees[o] && w'.managed == w.managed && (o in w'.granted <==> o in w.granted)
    && (forall pa {:trigger UsesSame(w, w', o, pa)} :: UsesSame(w, w', o, pa))
    && (forall pa {:trigger ContentSame(w.tables, w'.tables, pa)} {:trigger ContentSame(b, b', pa)} ::
          pa in w.uses && w.uses[pa].id == o ==> ContentSame(w.tables, w'.tables, pa) && ContentSame(b, b', pa))
  }

  /** A kept task owns the pages it owned. */
  lemma KeptOwns(w: World, b: Bytes, w': World, b': Bytes, o: nat)
    requires Kept(w, b, w', b', o)
    ensures Owned(w', o) == Owned(w, o)
  {
    forall pa
      ensures pa in Owned(w', o) <==> pa in Owned(w, o)
    {
      assert UsesSame(w, w', o, pa);
    }
  }

  lemma KeptNone(w: World, b: Bytes, o: nat)
    requires o in w.spaces && o in w.trees
    ensures Kept(w, b, w, b, o)
  {
  }

  lemma KeptBoth(wa: World, ba: Bytes, wb: World, bb: Bytes, wc: World, bc: Bytes, o: nat)
    requires Kept(wa, ba, wb, bb, o) && Kept(wb, bb, wc, bc, o)
    ensures Kept(wa, ba, wc, bc, o)
  {
    forall pa
      ensures UsesSame(wa, wc, o, pa)
    {
      assert UsesSame(wa, wb, o, pa) && UsesSame(wb, wc, o, pa);
    }
    forall pa | pa in wa.uses && wa.uses[pa].id == o
      ensures ContentSame(wa.tables, wc.tables, pa) && ContentSame(ba, bc, pa)
    {
      assert UsesSame(wa, wb, o, pa);
      assert ContentSame(wa.tables, wb.tables, pa) && ContentSame(wb.tables, wc.tables, pa);
      assert ContentSame(ba, bb, pa) && ContentSame(bb, bc, pa);
    }
  }

  /** A kept task maps what it mapped. */
  lemma KeptMap(w: World, b: Bytes, w': World, b': Bytes, o: nat)
    requires WorldOk(w) && Kept(w, b, w', b', o)
    ensures HasTree(w, o) && HasTree(w', o) && w'.managed == w.managed
    ensures forall v: Vpn {:trigger Leaf(w', o, v)} :: v.v0 < ENTRIES ==> Leaf(w', o, v) == Leaf(w, o, v)
  {
    hide NodeOk, LeafAt, UseOk, EntryOk;
    SpaceAt(w, o);
    forall n | n in w.trees[o].node
      ensures n in w.tables && n in w'.tables && w'.tables[n] == w.tables[n]
    {
      assert UsedAs(w, n, o, Table);
      TableIn(w.tables, w.trees[o], n);
      assert ContentSame(w.tables, w'.tables, n);
    }
    Elsewhere(w.tables, w.trees[o], w'.tables);
  }

  lemma KernelKept(w: World, b: Bytes, w': World, b': Bytes, o: nat)
    requires WorldOk(w) && Kept(w, b, w', b', o) && KernelThere(w, o)
    ensures KernelThere(w', o)
  {
    hide WorldOk, Kept, TreeOk, LeafAt, PteToPa, IsValid, AddrOf, KernelAddr;
    KeptMap(w, b, w', b', o);
    forall u: Vpn | u.v0 < ENTRIES && VpnOk(u) && KernelAddr(AddrOf(u))
      ensures IsValid(Leaf(w', o, u)) && PteToPa(Leaf(w', o, u)) == AddrOf(u)
    {
      assert Leaf(w', o, u) == Leaf(w, o, u);
    }
  }

  /** A step after which the task that acted and the one that was made map the kernel leaves it mapped everywhere. */
  lemma KernelStays(w: World, b: Bytes, w': World, b': Bytes, id: nat, made: nat)
    requires WorldOk(w) && KernelEverywhere(w) && OthersKept(w, b, w', b', id)
    requires forall o {:trigger o in w'.spaces} :: o in w'.spaces ==> o in w.spaces || o == made
    requires id in w'.spaces ==> KernelThere(w', id)
    requires made in w'.spaces && made !in w.spaces ==> KernelThere(w', made)
    ensures KernelEverywhere(w')
  {
    hide WorldOk, Kept, KernelThere;
    forall o | o in w'.spaces
      ensures KernelThere(w', o)
    {
      if o != id && o in w.spaces {
        assert KernelThere(w, o) && Kept(w, b, w', b', o);
        KernelKept(w, b, w', b', o);
      }
    }
  }

  /** A kept task reads at every address what it read before. */
  lemma KeptReads(w: World, b: Bytes, w': World, b': Bytes, o: nat, a: nat)
    requires WorldOk(w) && BytesOk(w, b) && Kept(w, b, w', b', o)
    ensures HasTree(w, o) && HasTree(w', o) && UserByte(w', b', o, a) == UserByte(w, b, o, a)
  {
    hide WorldOk, TreeOk, LeafAt, PteToPa, ForUser, VpnOf;
    KeptMap(w, b, w', b', o);
    var v := VpnOf(a);
    assert Leaf(w', o, v) == Leaf(w, o, v);
    UserPage(w, o, v);
    var pa := PteToPa(Leaf(w, o, v));
    if ForUser(Leaf(w, o, v)) && pa in w.managed {
      assert DataPage(w, pa);
      assert ContentSame(b, b', pa);
    }
  }

  /** A change to one task keeps every other, when the bytes of the other's pages stay. */
  lemma OnlyTaskKept(w: World, b: Bytes, w': World, b': Bytes, id: nat, o: nat)
    requires WorldOk(w) && OnlyTask(w, w', id) && o in w.spaces && o != id
    requires forall pa {:trigger ContentSame(b, b', pa)} :: pa in w.uses && w.uses[pa].id == o ==>
               ContentSame(b, b', pa)
    ensures Kept(w, b, w', b', o)
  {
    hide UseOk, SpaceOk;
    GrantSame(w, w', id, o);
    assert o in w.spaces.Keys + {id};
    assert o in w.trees.Keys;
    forall pa
      ensures UsesSame(w, w', o, pa)
    {
      assert pa in w.uses || pa !in w.uses;
      assert pa in w'.uses || pa !in w'.uses;
    }
    forall pa | pa in w.uses && w.uses[pa].id == o
      ensures ContentSame(w.tables, w'.tables, pa)
    {
      assert pa in w.tables || pa !in w.tables;
    }
  }

  ghost predicate OthersKept(w: World, b: Bytes, w': World, b': Bytes, id: nat) {
    forall o {:trigger Kept(w, b, w', b', o)} :: o in w.spaces && o != id ==> Kept(w, b, w', b', o)
  }

  /** The bytes of the pages that were in use are as before. */
  ghost predicate UsedSame(w: World, b: Bytes, b': Bytes) {
    forall pa {:trigger ContentSame(b, b', pa)} :: pa in w.uses ==> ContentSame(b, b', pa)
  }

  lemma OnlyTaskOthers(w: World, b: Bytes, w': World, b': Bytes, id: nat)
    requires WorldOk(w) && OnlyTask(w, w', id) && UsedSame(w, b, b')
    ensures OthersKept(w, b, w', b', id)
  {
    hide WorldOk, OnlyTask, Kept;
    forall o | o in w.spaces && o != id
      ensures Kept(w, b, w', b', o)
    {
      OnlyTaskKept(w, b, w', b', id, o);
    }
  }

  lemma OnlyBoth(a: World, b: World, c: World, id: nat)
    requires OnlyTask(a, b, id) && OnlyTask(b, c, id)
    ensures OnlyTask(a, c, id)
  {
    forall o | o in a.spaces && o != id
      ensures o in b.spaces && o in c.spaces
    {
      assert o in a.spaces.Keys + {id} && o in b.spaces.Keys + {id};
    }
    forall pa | pa in a.uses && a.uses[pa].id != id && pa in a.tables
      ensures pa in c.tables && c.tables[pa] == a.tables[pa]
    {
      assert pa in b.uses && pa in b.tables;
    }
  }

  // ---- Stores by user programs ----

  /** A store of one byte: to the page the address is mapped to, if the user may write there; W needs R. */
  ghost function Store(w: World, b: Bytes, id: nat, a: nat, x: byte): Bytes
    requires HasTree(w, id)
  {
    var pte := Leaf(w, id, VpnOf(a));
    var pa := PteToPa(pte);
    if ForUser(pte) && pte / PTE_W % 2 == 1 && pte / PTE_R % 2 == 1
       && pa in w.managed && pa in b && |b[pa]| == PAGE_SIZE then
      b[pa := b[pa][..a % PAGE_SIZE] + [x] + b[pa][a % PAGE_SIZE + 1..]]
    else b
  }

  ghost function Stores(w: World, b: Bytes, id: nat, stores: seq<(nat, byte)>): Bytes
    requires HasTree(w, id)
  {
    if stores == [] then b else
      var last := |stores| - 1;
      Store(w, Stores(w, b, id, stores[..last]), id, stores[last].0, stores[last].1)
  }

  lemma StoreKeeps(w: World, b: Bytes, id: nat, a: nat, x: byte, o: nat)
    requires WorldOk(w) && BytesOk(w, b) && id in w.spaces && o in w.spaces && o != id
    ensures HasTree(w, id) && BytesOk(w, Store(w, b, id, a, x)) && Kept(w, b, w, Store(w, b, id, a, x), o)
  {
    hide WorldOk, TreeOk, LeafAt, PteToPa, VpnOf;
    UserPage(w, id, VpnOf(a));
    TreeThere(w, o);
  }

  lemma TreeThere(w: World, o: nat)
    requires WorldOk(w) && o in w.spaces
    ensures HasTree(w, o)
  {
    SpaceAt(w, o);
  }

  /** However a task writes to its memory, no other task reads anything else than before. */
  lemma {:induction false} StoresInvisible(w: World, b: Bytes, id: nat, stores: seq<(nat, byte)>, o: nat, a: nat)
    requires WorldOk(w) && BytesOk(w, b) && id in w.spaces && o in w.spaces && o != id
    ensures HasTree(w, id) && HasTree(w, o)
    ensures BytesOk(w, Stores(w, b, id, stores)) && Kept(w, b, w, Stores(w, b, id, stores), o)
    ensures UserByte(w, Stores(w, b, id, stores), o, a) == UserByte(w, b, o, a)
  {
    hide WorldOk, HasTree, Kept, Store, UserByte, BytesOk;
    TreeThere(w, id);
    TreeThere(w, o);
    if stores == [] {
      KeptNone(w, b, o) by { TreeParts(w, o); }
    } else {
      var last := |stores| - 1;
      StoresInvisible(w, b, id, stores[..last], o, a);
      var mid := Stores(w, b, id, stores[..last]);
      StoreKeeps(w, mid, id, stores[last].0, stores[last].1, o);
      KeptBoth(w, b, w, mid, w, Stores(w, b, id, stores), o);
    }
    KeptReads(w, b, w, Stores(w, b, id, stores), o, a);
  }

  lemma TreeParts(w: World, o: nat)
    requires HasTree(w, o)
    ensures o in w.spaces && o in w.trees
  {
  }

  // ---- Runs ----

  /** Memory at one moment. */
  datatype Moment = Moment(w: World, b: Bytes)

  ghost predicate Sound(m: Moment) {
    WorldOk(m.w) && BytesOk(m.w, m.b)
  }

  /** No page has got into, or out of, the kernel's hands. */
  ghost predicate Conserves(m: Moment, n: Moment) {
    n.w.managed == m.w.managed && InHand(n.w) == InHand(m.w)
  }

  /** The same tasks live, each with the pages that it had. */
  ghost predicate SameOwners(m: Moment, n: Moment) {
    n.w.spaces.Keys == m.w.spaces.Keys && forall o {:trigger Owned(n.w, o)} :: o in m.w.spaces ==>
        Owned(n.w, o) == Owned(m.w, o)
  }

  /**
   When nothing has been left in hand, the allocator has its earlier free pages again exactly when the same pages are in
   use; as they are when the same tasks live, each with the pages it had.
   */
  lemma EarlierFreeSet(m: Moment, n: Moment)
    requires Sound(m) && Sound(n) && Conserves(m, n)
    ensures n.w.free == m.w.free <==> n.w.uses.Keys == m.w.uses.Keys
    ensures SameOwners(m, n) ==> n.w.free == m.w.free
  {
    hide SpaceOk, UseOk, BytesOk;
    forall pa
      ensures pa in m.w.managed <==> pa in m.w.free || pa in m.w.uses.Keys || pa in InHand(m.w)
      ensures pa in n.w.managed <==> pa in n.w.free || pa in n.w.uses.Keys || pa in InHand(n.w)
    {
    }
    if SameOwners(m, n) {
      forall pa
        ensures pa in m.w.uses <==> pa in n.w.uses
      {
        SameUse(m, n, pa);
      }
    }
  }

  lemma SameUse(m: Moment, n: Moment, pa: nat)
    requires Sound(m) && Sound(n) && SameOwners(m, n)
    ensures pa in m.w.uses <==> pa in n.w.uses
  {
    hide SpaceOk, BytesOk, HasTree;
    if pa in m.w.uses {
      UseAt(m.w, pa);
      UserThere(m.w, pa);
      assert pa in Owned(m.w, m.w.uses[pa].id);
      assert pa in Owned(n.w, m.w.uses[pa].id);
    }
    if pa in n.w.uses {
      UseAt(n.w, pa);
      UserThere(n.w, pa);
      assert n.w.uses[pa].id in n.w.spaces.Keys;
      assert pa in Owned(n.w, n.w.uses[pa].id);
      assert pa in Owned(m.w, n.w.uses[pa].id);
    }
  }

  // ---- Parent and child ----

  /** The child's page at v is a copy of the parent's: another page with the same flags and bytes. */
  ghost predicate Twin(w: World, b: Bytes, parent: nat, child: nat, v: Vpn)
    requires HasTree(w, parent) && HasTree(w, child) && v.v0 < ENTRIES
  {
    var p, c := Leaf(w, parent, v), Leaf(w, child, v);
    && (Own(w, parent, v) <==> Own(w, child, v))
    && (Own(w, parent, v) ==>
        && FlagsOf(c) == FlagsOf(p) && PteToPa(c) != PteToPa(p)
        && PteToPa(p) in b && PteToPa(c) in b && b[PteToPa(c)] == b[PteToPa(p)])
  }

  /** The child has its parent's image, heap and stack, in pages of its own, and not its serial port. */
  ghost predicate Twins(w: World, b: Bytes, parent: nat, child: nat) {
    && HasTree(w, parent) && HasTree(w, child) && parent != child && child !in w.granted
    && (var s, t := w.spaces[parent], w.spaces[child];
        && t == s.(root := t.root, kernelStack := t.kernelStack, userStack := t.userStack)
        && s.userStack != 0 && t.userStack != 0 && s.userStack in b && t.userStack in b
            && b[t.userStack] == b[s.userStack])
    && forall v: Vpn {:trigger Twin(w, b, parent, child, v)} :: v.v0 < ENTRIES && InUser(w.spaces[parent], v) ==>
        Twin(w, b, parent, child, v)
  }

  lemma SameUserFlag(p: nat, c: nat)
    requires FlagsOf(c) == FlagsOf(p) && ForUser(p)
    ensures ForUser(c)
  {
    assert p / PTE_U % 2 == FlagsOf(p) / PTE_U % 2 by { UserBit(p / FLAGS, FlagsOf(p)); }
    assert c / PTE_U % 2 == FlagsOf(c) / PTE_U % 2 by { UserBit(c / FLAGS, FlagsOf(c)); }
    assert p % 2 == FlagsOf(p) % 2 by { EntryParity(p / FLAGS, FlagsOf(p)); }
    assert c % 2 == FlagsOf(c) % 2 by { EntryParity(c / FLAGS, FlagsOf(c)); }
  }

  /** Parent and child read the same bytes at every address; all that the child can reach is memory of its own. */
  lemma TwinsRead(w: World, b: Bytes, parent: nat, child: nat, a: nat)
    requires WorldOk(w) && BytesOk(w, b) && parent in w.spaces && child in w.spaces && Twins(w, b, parent, child)
    ensures UserByte(w, b, child, a) == UserByte(w, b, parent, a)
    ensures ForUser(Leaf(w, child, VpnOf(a))) ==> UserByte(w, b, child, a).Some?
  {
    hide WorldOk, TreeOk, LeafAt, PteToPa, PaToPte, ForUser, VpnOf, IsValid, AddrOf, FlagsOf, AlignUp, AlignDown;
    var v := VpnOf(a);
    var p, c := Leaf(w, parent, v), Leaf(w, child, v);
    VpnIn(a);
    UserPage(w, parent, v);
    UserPage(w, child, v);
    TwinFlags(w, b, parent, child, v);
    if ForUser(p) && PteToPa(p) in w.managed { assert DataPage(w, PteToPa(p)); }
    if ForUser(c) { assert DataPage(w, PteToPa(c)); UsedManaged(w, PteToPa(c)); }
  }

  lemma UsedManaged(w: World, pa: nat)
    requires WorldOk(w) && pa in w.uses
    ensures pa in w.managed
  {
  }

  lemma TwinFlags(w: World, b: Bytes, parent: nat, child: nat, v: Vpn)
    requires WorldOk(w) && parent in w.spaces && child in w.spaces && Twins(w, b, parent, child) && VpnOk(v)
    ensures var p, c := Leaf(w, parent, v), Leaf(w, child, v);
            && (ForUser(p) && PteToPa(p) in w.managed <==> ForUser(c))
            && (ForUser(c) ==> PteToPa(p) in b && PteToPa(c) in b && b[PteToPa(c)] == b[PteToPa(p)])
  {
    hide TreeOk, LeafAt, PteToPa, PaToPte, ForUser, AddrOf, FlagsOf, AlignUp, AlignDown, IsValid, KernelAddr;
    var p, c := Leaf(w, parent, v), Leaf(w, child, v);
    SpaceAt(w, parent);
    SpaceAt(w, child);
    EntryAt(w, parent, v);
    EntryAt(w, child, v);
    UserValid(p);
    UserValid(c);
    var s, t := w.spaces[parent], w.spaces[child];
    EndBound(s);
    if InUser(s, v) {
      assert Twin(w, b, parent, child, v);
      if Own(w, parent, v) && ForUser(p) { SameUserFlag(p, c); }
      if Own(w, child, v) && ForUser(c) { SameUserFlag(c, p); }
    } else if InStack(v) {
      StackFlags(s.userStack);
      StackFlags(t.userStack);
    } else {
      DeviceLow(v);
    }
  }

  lemma DeviceLow(v: Vpn)
    ensures AddrOf(v) == UART ==> AddrOf(v) < USER_STACK_TOP
  {
  }

  lemma UserValid(pte: nat)
    ensures ForUser(pte) ==> IsValid(pte)
  {
  }

  lemma StackFlags(pa: nat)
    requires PageAligned(pa)
    ensures ForUser(PaToPte(pa, PTE_R + PTE_W + PTE_U + PTE_V))
    ensures PteToPa(PaToPte(pa, PTE_R + PTE_W + PTE_U + PTE_V)) == pa
  {
    EntryRoundTrip(pa, PTE_R + PTE_W + PTE_U + PTE_V);
    UserBit(pa / PAGE_SIZE, PTE_R + PTE_W + PTE_U + PTE_V);
  }
}
