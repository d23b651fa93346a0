/**
 What the processor makes of the page tables: the walk for a virtual address as sections 4.3.2 and 4.4 of the RISC-V
 Privileged Architecture describe it, bit by bit, and what user programs can reach by it. It finds the map that the
 kernel's code goes by (src/kernel/pgtable.rs, src/kernel/task.rs) and the program that was loaded (src/kernel/exec.rs).
 */
module Processor {
  import opened Wrappers
  import opened Words
  import opened Pages
  import opened PageTables
  import opened Ownership
  import opened Memories
  import opened Placement
  import opened HeapMoves
  import opened Duplication
  import opened Elf
  import opened Programs

  // ---- The walk ----

  /** The size of what an entry maps at a level: a page, 2 MiB or 1 GiB. */
  function Reach(level: nat): (size: nat)
    ensures size > 0
  {
    if level == 0 then 0x1000 else if level == 1 then 0x20_0000 else 0x4000_0000
  }

  /**
   The entry at which the walk for `va` ends, and its level, from the table in page `a` on: bit 0 says whether an entry
   is valid, bits 1 to 3 are R, W and X, and W without R is reserved; with R or X it is a leaf, and otherwise bits 10 to
   53 are the number of the next table's page.
   */
  function Walked(tables: Tables, a: nat, va: nat, level: nat): Option<(nat, nat)>
    decreases level
  {
    if a !in tables || |tables[a]| != 512 then None
    else
      var pte := tables[a][va / Reach(level) % 512];
      if pte % 2 == 0 || (pte / 2 % 2 == 0 && pte / 4 % 2 == 1) then None
      else if pte / 2 % 2 == 1 || pte / 8 % 2 == 1 then Some((pte, level))
      else if level == 0 then None
      else Walked(tables, pte / 0x400 % 0x1000_0000_0000 * 0x1000, va, level - 1)
  }

  lemma Halved(m: nat, f: nat)
    ensures (2 * m + f) / 2 == m + f / 2 && (2 * m + f) % 2 == f % 2
  {
  }

  lemma Bits(pte: nat)
    ensures pte / 2 % 8 == pte / 2 % 2 + 2 * (pte / 4 % 2) + 4 * (pte / 8 % 2)
  {
    var h := pte / 2;
    var m, b := h / 8, h % 8;
    assert h == 2 * (4 * m) + b && pte / 4 == h / 2 && pte / 8 == h / 4;
    Halved(4 * m, b);
    Halved(2 * m, b / 2);
    Halved(m, b / 2 / 2);
  }

  lemma LinkBits(pa: nat)
    requires PageAligned(pa)
    ensures var pte := Link(pa);
            && pte % 2 == 1 && pte / 2 % 2 == 0 && pte / 4 % 2 == 0 && pte / 8 % 2 == 0
            && pte / 0x400 % 0x1000_0000_0000 * 0x1000 == pa
  {
    LinkIs(pa);
    Bits(Link(pa));
  }

  /** The entry is neither unmapped nor of the reserved kind. */
  predicate Usable(pte: nat) {
    pte % 2 == 1 && (pte / 4 % 2 == 1 ==> pte / 2 % 2 == 1)
  }

  /** The processor finds the entry that the map has for the page, wherever it maps one that it can use. */
  lemma WalkIs(tables: Tables, t: Tree, va: nat)
    requires TreeOk(tables, t) && va < 0x80_0000_0000
    ensures var pte := LeafAt(tables, t, VpnOf(va));
            Walked(tables, t.root, va, 2) == if Usable(pte) then Some((pte, 0)) else None
  {
    hide Link;
    var v := VpnOf(va);
    NodeAt(tables, t, t.root);
    if v.v2 in t.mids {
      NodeAt(tables, t, t.mids[v.v2]);
      LinkBits(t.mids[v.v2]);
      assert Walked(tables, t.root, va, 2) == Walked(tables, t.mids[v.v2], va, 1);
      if (v.v2, v.v1) in t.lows {
        var low := t.lows[(v.v2, v.v1)];
        NodeAt(tables, t, low);
        LinkBits(low);
        assert Walked(tables, t.mids[v.v2], va, 1) == Walked(tables, low, va, 0);
        Bits(tables[low][v.v0]);
      }
    }
  }

  lemma Quarters(x: nat)
    ensures x / 4 == x / 2 / 2 && x / 8 == x / 4 / 2 && x / 16 == x / 8 / 2
  {
  }

  /** The page number of an entry does not touch its flags. */
  lemma FlagsApart(n: nat, f: nat)
    ensures var e := n * 1024 + f;
            && e % 2 == f % 2 && e / 2 % 2 == f / 2 % 2 && e / 4 % 2 == f / 4 % 2 && e / 8 % 2 == f / 8 % 2
            && e / 16 % 2 == f / 16 % 2
  {
    Quarters(n * 1024 + f);
    Quarters(f);
    Halved(n * 512, f);
    Halved(n * 256, f / 2);
    Halved(n * 128, f / 4);
    Halved(n * 64, f / 8);
    Halved(n * 32, f / 16);
  }

  // ---- What user programs reach ----

  /** The right to read, write or run a page: the bit of the entry that gives it. */
  datatype Right = Read | Write | Run

  predicate Allows(pte: nat, right: Right) {
    match right
    case Read => pte / 2 % 2 == 1
    case Write => pte / 4 % 2 == 1
    case Run => pte / 8 % 2 == 1
  }

  /** Where in what an entry maps the address is. */
  function Offset(va: nat, level: nat): nat {
    if level == 0 then va % 0x1000 else if level == 1 then va % 0x20_0000 else va % 0x4000_0000
  }

  /** The physical address that a user program's access reaches; none if it traps. Bit 4 says that users may. */
  function Access(tables: Tables, root: nat, va: nat, right: Right): Option<nat> {
    if va >= 0x40_0000_0000 then None      // the bits from 38 up have to be equal
    else
      match Walked(tables, root, va, 2)
      case None => None
      case Some((pte, level)) =>
        if pte / 16 % 2 == 1 && Allows(pte, right) then
          Some(pte / 0x400 % 0x1000_0000_0000 * 0x1000 + Offset(va, level))
        else None
  }

  /** A user access goes by the task's map: where it may go, and to which page. */
  lemma AccessIs(w: World, id: nat, va: nat, right: Right)
    requires HasTree(w, id)
    ensures var pte := Leaf(w, id, VpnOf(va));
            Access(w.tables, w.spaces[id].root, va, right) ==
              if va < 0x40_0000_0000 && ForUser(pte) && Usable(pte) && Allows(pte, right)
              then Some(PteToPa(pte) + va % PAGE_SIZE) else None
  {
    hide TreeOk, LeafAt, Walked;
    if va < 0x40_0000_0000 {
      WalkIs(w.tables, w.trees[id], va);
      PageOfEntry(Leaf(w, id, VpnOf(va)));
    }
  }

  lemma PageOfEntry(pte: nat)
    ensures PteToPa(pte) == pte / 0x400 % 0x1000_0000_0000 * 0x1000 && PteToPa(pte) % 0x1000 == 0
    ensures PageAligned(PteToPa(pte))
  {
  }

  /**
   What a user program reaches, the processor going through the tables in memory: a byte of a page that is the task's
   own and holds its image, its heap or its stack; or the serial port, if it has been given to the task.
   */
  lemma AccessOwn(w: World, id: nat, va: nat, right: Right)
    requires WorldOk(w) && id in w.spaces && Access(w.tables, w.spaces[id].root, va, right).Some?
    ensures var pa := Access(w.tables, w.spaces[id].root, va, right).value;
            var page := pa - pa % 0x1000;
            || (page in w.uses && w.uses[page].id == id && (w.uses[page].role.Data? || w.uses[page].role.UserStack?))
            || (id in w.granted && page == 0x1000_0000 == va - va % 0x1000 && page !in w.managed)
  {
    hide TreeOk, LeafAt, Walked, WorldOk, Access, PteToPa, VpnOf;
    SpaceHas(w, id);
    AccessIs(w, id, va, right);
    VpnIn(va);
    UserPage(w, id, VpnOf(va));
    PageOfEntry(Leaf(w, id, VpnOf(va)));
    AddrOfPage(va);
  }

  lemma SpaceHas(w: World, id: nat)
    requires WorldOk(w) && id in w.spaces
    ensures HasTree(w, id)
  {
    SpaceAt(w, id);
  }

  lemma AddrOfPage(va: nat)
    requires va < VA_LIMIT
    ensures AddrOf(VpnOf(va)) == va - va % 0x1000
  {
    var a := va - va % PAGE_SIZE;
    assert a % PAGE_SIZE == 0 && VpnOf(a) == VpnOf(va) by { SameVpn(va); }
    AddrIndices(a);
  }

  lemma SameVpn(va: nat)
    ensures VpnOf(va - va % PAGE_SIZE) == VpnOf(va) && (va - va % PAGE_SIZE) % PAGE_SIZE == 0
  {
    var n := va / PAGE_SIZE;
    var a := va - va % PAGE_SIZE;
    assert a == n * PAGE_SIZE && a / PAGE_SIZE == n;
    assert va / 0x20_0000 == n / 512 == a / 0x20_0000;
    assert va / 0x4000_0000 == n / 0x4_0000 == a / 0x4000_0000;
  }

  /** No address of memory can be reached by the programs of two tasks. */
  lemma AccessApart(w: World, a: nat, b: nat, va: nat, vb: nat, ra: Right, rb: Right)
    requires WorldOk(w) && a in w.spaces && b in w.spaces && a != b
    requires Access(w.tables, w.spaces[a].root, va, ra).Some? && Access(w.tables, w.spaces[b].root, vb, rb).Some?
    ensures var pa := Access(w.tables, w.spaces[a].root, va, ra).value;
            Access(w.tables, w.spaces[b].root, vb, rb).value == pa ==>
                a in w.granted && b in w.granted && pa - pa % 0x1000 == 0x1000_0000
  {
    hide WorldOk, Access;
    AccessOwn(w, a, va, ra);
    AccessOwn(w, b, vb, rb);
    UsesManaged(w);
  }

  lemma UsesManaged(w: World)
    requires WorldOk(w)
    ensures w.uses.Keys <= w.managed
  {
  }

  /** Where a program may read memory, the byte that it reads is `UserByte`. */
  lemma ReadIs(w: World, b: Bytes, id: nat, va: nat)
    requires WorldOk(w) && BytesOk(w, b) && id in w.spaces && Access(w.tables, w.spaces[id].root, va, Read).Some?
    ensures HasTree(w, id)
    ensures var pa := Access(w.tables, w.spaces[id].root, va, Read).value;
            var page := pa - pa % 0x1000;
            page in w.managed ==>
                page in b && |b[page]| == 0x1000 && UserByte(w, b, id, va) == Some(b[page][pa % 0x1000])
  {
    hide TreeOk, LeafAt, Walked, WorldOk, Access, PteToPa, VpnOf;
    SpaceHas(w, id);
    AccessIs(w, id, va, Read);
    VpnIn(va);
    UserPage(w, id, VpnOf(va));
    PageOfEntry(Leaf(w, id, VpnOf(va)));
    var page := PteToPa(Leaf(w, id, VpnOf(va)));
    if page in w.managed { assert DataPage(w, page); }
  }

  /** A task maps each page of its memory once. */
  lemma MappedOnce(w: World, id: nat, u: Vpn, v: Vpn)
    requires WorldOk(w) && id in w.spaces && VpnOk(u) && VpnOk(v) && u != v
    ensures HasTree(w, id)
    ensures ForUser(Leaf(w, id, u)) && ForUser(Leaf(w, id, v)) && PteToPa(Leaf(w, id, u)) in w.managed ==>
              PteToPa(Leaf(w, id, u)) != PteToPa(Leaf(w, id, v))
  {
    hide WorldOk, TreeOk, LeafAt, PteToPa, ForUser, AddrOf;
    UserPage(w, id, u);
    UserPage(w, id, v);
    if InStack(u) && InStack(v) { SameAddr(u, v); }
  }

  /**
   A program's memory is memory: where the processor lets it store, it reads afterwards what it has stored, and at every
   other address what it read before; a store that traps changes nothing.
   */
  lemma ReadAfterStore(w: World, b: Bytes, id: nat, a: nat, x: byte, at: nat)
    requires WorldOk(w) && BytesOk(w, b) && id in w.spaces && a < 0x40_0000_0000 && at < 0x40_0000_0000
    ensures HasTree(w, id)
    ensures UserByte(w, Store(w, b, id, a, x), id, at) ==
              if at == a && Access(w.tables, w.spaces[id].root, a, Write).Some? && UserByte(w, b, id, a).Some?
              then Some(x) else UserByte(w, b, id, at)
  {
    hide WorldOk, TreeOk, LeafAt, PteToPa, VpnOf, Access, ForUser;
    SpaceHas(w, id);
    AccessIs(w, id, a, Write);
    VpnIn(a);
    VpnIn(at);
    if VpnOf(a) != VpnOf(at) {
      MappedOnce(w, id, VpnOf(a), VpnOf(at));
    } else if at != a {
      OffsetsDiffer(a, at);
    }
    UserValid(Leaf(w, id, VpnOf(a)));
  }

  lemma OffsetsDiffer(a: nat, at: nat)
    requires a != at && VpnOf(a) == VpnOf(at) && a < VA_LIMIT && at < VA_LIMIT
    ensures a % PAGE_SIZE != at % PAGE_SIZE
  {
    AddrOfPage(a);
    AddrOfPage(at);
  }

  // ---- What sbrk, fork and a new stack look like ----

  /** The entry of a page that a program may read and write, but not run. */
  lemma DataBits(pa: nat)
    ensures var pte := PaToPte(pa, PTE_R + PTE_W + PTE_U + PTE_V);
            && pte % 2 == 1 && pte / 2 % 2 == 1 && pte / 4 % 2 == 1 && pte / 8 % 2 == 0 && pte / 16 % 2 == 1
  {
    FlagsApart(pa / PAGE_SIZE, PTE_R + PTE_W + PTE_U + PTE_V);
  }

  /**
   What a program finds after `sbrk`. In the pages that have come to its heap it may read and write, and reads zero;
   before it could reach nothing there. What has gone from the heap it reaches no more. Everywhere else it reads what it
   read.
   */
  lemma SbrkSeen(w: World, b: Bytes, w': World, b': Bytes, id: nat, a: nat, right: Right)
    requires WorldOk(w) && BytesOk(w, b) && id in w.spaces && id in w'.spaces && a < 0x40_0000_0000
    requires w'.managed == w.managed && w'.spaces[id].heapBase == w.spaces[id].heapBase
    requires HeapMoved(w, b, w', b', id)
    ensures var base, end, end' := w.spaces[id].heapBase, w.spaces[id].heapEnd, w'.spaces[id].heapEnd;
            var page := a - a % 0x1000;
            var before, after := Access(w.tables, w.spaces[id].root, a, right),
                Access(w'.tables, w'.spaces[id].root, a, right);
            if base <= page < end' && !(base <= page < end) then
              before.None? && (after.Some? <==> right != Run) && UserByte(w', b', id, a) == Some(0)
            else if base <= page < end && !(base <= page < end') then after.None?
            else after == before && UserByte(w', b', id, a) == UserByte(w, b, id, a)
  {
    hide TreeOk, LeafAt, WorldOk, Access, PteToPa, PaToPte, VpnOf, AddrOf;
    var v := VpnOf(a);
    VpnIn(a);
    AddrOfPage(a);
    assert HeapMovedAt(w, w', b', id, v);
    InHeapIs(w.spaces[id], v);
    InHeapIs(w'.spaces[id], v);
    AccessIs(w, id, a, right);
    AccessIs(w', id, a, right);
    var pte := Leaf(w', id, v);
    DataBits(PteToPa(pte));
    UserPage(w, id, v);
    var pa := PteToPa(Leaf(w, id, v));
    if ForUser(Leaf(w, id, v)) && pa in w.managed {
      assert DataPage(w, pa);
      assert ContentSame(b, b', pa);
    }
  }

  /** The pages of the heap are those that begin in it. */
  lemma InHeapIs(s: Space, v: Vpn)
    requires VpnOk(v)
    ensures InHeap(s, v) <==> s.heapBase <= AddrOf(v) < s.heapEnd
  {
    hide AddrOf;
    IndicesAddr(v);
    var n, e := AddrOf(v) / PAGE_SIZE, MappedEnd(s) / PAGE_SIZE;
    assert AddrOf(v) == n * PAGE_SIZE && MappedEnd(s) == e * PAGE_SIZE;
  }

  /**
   What parent and child find after a fork: they may do the same with the same bytes at every address, in different
   places of memory; but the child does not reach the serial port.
   */
  lemma ForkSeen(w: World, b: Bytes, parent: nat, child: nat, a: nat, right: Right)
    requires WorldOk(w) && BytesOk(w, b) && parent in w.spaces && child in w.spaces && Twins(w, b, parent, child)
    ensures var p := Access(w.tables, w.spaces[parent].root, a, right);
            var c := Access(w.tables, w.spaces[child].root, a, right);
            && (c.Some? <==> p.Some? && p.value - p.value % 0x1000 in w.managed)
            && (c.Some? ==> c != p && UserByte(w, b, child, a) == UserByte(w, b, parent, a))
  {
    hide WorldOk, TreeOk, LeafAt, PteToPa, VpnOf, Access, ForUser, Twins, FlagsOf, Usable, Allows, UserByte;
    TwinsRead(w, b, parent, child, a);
    VpnIn(a);
    TwinFlags(w, b, parent, child, VpnOf(a));
    TwinRights(w, b, parent, child, VpnOf(a));
    AccessIs(w, parent, a, right);
    AccessIs(w, child, a, right);
    PageOfEntry(Leaf(w, parent, VpnOf(a)));
    PageOfEntry(Leaf(w, child, VpnOf(a)));
    UserPage(w, parent, VpnOf(a));
    UserPage(w, child, VpnOf(a));
    ForkApart(w, b, parent, child, a, right);
  }

  lemma ForkApart(w: World, b: Bytes, parent: nat, child: nat, a: nat, right: Right)
    requires WorldOk(w) && parent in w.spaces && child in w.spaces && Twins(w, b, parent, child)
    ensures var p := Access(w.tables, w.spaces[parent].root, a, right);
            var c := Access(w.tables, w.spaces[child].root, a, right);
            p.Some? && c.Some? ==> p != c
  {
    hide WorldOk, TreeOk, Access;
    if Access(w.tables, w.spaces[child].root, a, right).Some?
       && Access(w.tables, w.spaces[parent].root, a, right).Some? {
      AccessApart(w, parent, child, a, a, right, right);
    }
  }

  lemma SameBits(p: nat, c: nat)
    requires FlagsOf(c) == FlagsOf(p)
    ensures p % 2 == c % 2 && p / 2 % 2 == c / 2 % 2 && p / 4 % 2 == c / 4 % 2 && p / 8 % 2 == c / 8 % 2
  {
    FlagsApart(p / FLAGS, FlagsOf(p));
    FlagsApart(c / FLAGS, FlagsOf(c));
    assert p == p / FLAGS * 1024 + FlagsOf(p) && c == c / FLAGS * 1024 + FlagsOf(c);
  }

  lemma TwinRights(w: World, b: Bytes, parent: nat, child: nat, v: Vpn)
    requires WorldOk(w) && parent in w.spaces && child in w.spaces && Twins(w, b, parent, child) && VpnOk(v)
    ensures HasTree(w, parent) && HasTree(w, child)
    ensures var p, c := Leaf(w, parent, v), Leaf(w, child, v);
            ForUser(c) ==> (Usable(c) <==> Usable(p)) && forall right :: Allows(c, right) <==> Allows(p, right)
  {
    hide TreeOk, LeafAt, PteToPa, PaToPte, ForUser, AddrOf, FlagsOf, AlignUp, AlignDown, IsValid, KernelAddr;
    var p, c := Leaf(w, parent, v), Leaf(w, child, v);
    SpaceAt(w, parent);
    SpaceAt(w, child);
    EntryAt(w, parent, v);
    EntryAt(w, child, v);
    UserValid(c);
    var s, t := w.spaces[parent], w.spaces[child];
    EndBound(s);
    if InUser(s, v) {
      assert Twin(w, b, parent, child, v);
      if Own(w, child, v) { SameBits(p, c); }
    } else if InStack(v) {
      DataBits(s.userStack);
      DataBits(t.userStack);
    } else {
      DeviceLow(v);
    }
  }

  /** The stack is the last page below the top of user memory, to be read and written but not run. */
  lemma StackThere(w: World, id: nat, a: nat, right: Right)
    requires WorldOk(w) && id in w.spaces && w.spaces[id].userStack != 0 && 0x3fff_f000 <= a < 0x4000_0000
    ensures Access(w.tables, w.spaces[id].root, a, right) ==
              if right == Run then None else Some(w.spaces[id].userStack + a % 0x1000)
  {
    hide TreeOk, LeafAt, PteToPa, PaToPte, VpnOf, Access, AddrOf;
    SpaceHas(w, id);
    SpaceAt(w, id);
    VpnIn(a);
    AddrOfPage(a);
    EntryAt(w, id, VpnOf(a));
    EndBound(w.spaces[id]);
    AccessIs(w, id, a, right);
    DataBits(w.spaces[id].userStack);
    StackFlags(w.spaces[id].userStack);
  }

  // ---- The kernel's own mappings ----

  lemma KernelBits(v: Vpn)
    requires VpnOk(v)
    ensures var pte := KernelLeaf(v);
            && pte % 2 == 1 && pte / 2 % 2 == 1 && pte / 4 % 2 == 1 && pte / 16 % 2 == 0
            && (pte / 8 % 2 == 1 <==> AddrOf(v) >= 0x4000_0000)
  {
    FlagsApart(AddrOf(v) / PAGE_SIZE, PTE_R + PTE_W + PTE_V + if AddrOf(v) < USER_STACK_TOP then 0 else PTE_X);
  }

  lemma KernelAddresses(a: nat)
    ensures KernelAddr(a) <==>
              || 0x8020_0000 <= a < 0x8120_0000
              || a == 0x1000_0000 || a == 0x0c00_0000 || a == 0x0c00_2000 || a == 0x0c20_1000
  {
    assert PLIC[0] == 0x0c00_0000 && PLIC[1] == 0x0c00_2000 && PLIC[2] == 0x0c20_1000 && |PLIC| == 3;
  }

  /**
   What the processor finds in tables that map the kernel and nothing else: each page of kernel memory at its own
   address, to be read, written and run; each page of the devices likewise, but not to be run; none of it for users; and
   no more.
   */
  lemma KernelMapped(w: World, id: nat, va: nat)
    requires MapsKernel(w, id, KernelPages()) && va < 0x80_0000_0000
    ensures var found, page := Walked(w.tables, w.spaces[id].root, va, 2), va - va % 0x1000;
            var memory := 0x8020_0000 <= page < 0x8120_0000;
            var device := page == 0x1000_0000 || page == 0x0c00_0000 || page == 0x0c00_2000 || page == 0x0c20_1000;
            && (found.Some? <==> memory || device)
            && (found.Some? ==>
                 var (pte, level) := found.value;
                 && level == 0 && pte / 0x400 % 0x1000_0000_0000 * 0x1000 == page
                 && pte / 2 % 2 == 1 && pte / 4 % 2 == 1 && (pte / 8 % 2 == 1 <==> memory) && pte / 16 % 2 == 0)
  {
    hide TreeOk, LeafAt, Walked, PteToPa, VpnOf, KernelLeaf, KernelPages, AddrOf, KernelAddr;
    var v := VpnOf(va);
    VpnIn(va);
    AddrOfPage(va);
    KernelPage(v);
    KernelAddresses(AddrOf(v));
    WalkIs(w.tables, w.trees[id], va);
    KernelLeafValid(v);
    KernelBits(v);
    PageOfEntry(KernelLeaf(v));
    assert v in KernelPages() ==> Leaf(w, id, v) == KernelLeaf(v);
    assert v !in KernelPages() ==> !IsValid(Leaf(w, id, v));
  }

  // ---- A program that has been loaded ----

  /** The file holds program header i, as a linker writes it. */
  ghost predicate HasHeader(file: seq<byte>, i: nat, h: ProgramHeader) {
    && Verified(file) && i < Phnum(file) && HeaderFits(h) && Phoff(file) + 56 * i + 56 <= |file|
    && file[Phoff(file) + 56 * i..Phoff(file) + 56 * i + 56] == HeaderBytes(h)
  }

  lemma SegmentBits(g: Segment)
    ensures var f := SegFlags(g) + PTE_V;
            && f < FLAGS && f % 2 == 1 && f / 16 % 2 == 1
            && (f / 2 % 2 == 1 <==> g.r) && (f / 4 % 2 == 1 <==> g.w) && (f / 8 % 2 == 1 <==> g.x)
  {
  }

  /** The flags of an entry, from the bits of the segment's flags. */
  lemma EntryFlags(pa: nat, g: Segment)
    ensures SegFlags(g) + PTE_V < FLAGS
    ensures var pte := PaToPte(pa, SegFlags(g) + PTE_V);
            && pte % 2 == 1 && pte / 16 % 2 == 1
            && (pte / 2 % 2 == 1 <==> g.r) && (pte / 4 % 2 == 1 <==> g.w) && (pte / 8 % 2 == 1 <==> g.x)
  {
    hide SegFlags;
    SegmentBits(g);
    FlagsApart(pa / PAGE_SIZE, SegFlags(g) + PTE_V);
  }

  /** Which page of the segment an address is in. */
  lemma PageIn(g: Segment, a: nat)
    requires g.vaddr <= a < g.vaddr + g.memsz
    ensures var j := (a - SegStart(g)) / PAGE_SIZE;
            a >= SegStart(g) && j < SegPages(g) && SegPageAt(g, j) == a - a % PAGE_SIZE
  {
    SegSpan(g);
    var j, m := (a - SegStart(g)) / PAGE_SIZE, SegStart(g) / PAGE_SIZE;
    assert SegStart(g) == m * PAGE_SIZE;
    assert a == m * PAGE_SIZE + j * PAGE_SIZE + (a - SegStart(g)) % PAGE_SIZE;
    assert a % PAGE_SIZE == (a - SegStart(g)) % PAGE_SIZE;
    assert j * PAGE_SIZE < SegPages(g) * PAGE_SIZE;
  }

  /** The page that a loaded segment has at an address: the entry's bits, and the byte. */
  lemma ByteThere(w: World, b: Bytes, id: nat, file: seq<byte>, i: nat, h: ProgramHeader, a: nat)
    requires AllLoaded(w, b, id, file) && HasHeader(file, i, h) && h.kind == 1 && h.vaddr <= a < h.vaddr + h.memsz
    ensures HasTree(w, id)
    ensures var pte := Leaf(w, id, VpnOf(a));
            && ForUser(pte) && (pte / 2 % 2 == 1 <==> h.flags / 4 % 2 == 1)
            && (pte / 4 % 2 == 1 <==> h.flags / 2 % 2 == 1) && (pte / 8 % 2 == 1 <==> h.flags % 2 == 1)
            && PteToPa(pte) in b && |b[PteToPa(pte)]| == 0x1000 && h.offset + h.filesz <= |file|
            && b[PteToPa(pte)][a % 0x1000] == if a - h.vaddr < h.filesz then file[h.offset + (a - h.vaddr)] else 0
  {
    hide TreeOk, LeafAt, Verified, Phoff, Phnum, HeaderBytes, PaToPte, PteToPa, SegStart, SegPages, SegFlags, VpnOf,
         SegmentAt;
    SegmentRead(file, i, h);
    var g := SegmentAt(file, i);
    var j := (a - SegStart(g)) / PAGE_SIZE;
    PageIn(g, a);
    assert Loaded(w, b, id, file, i, j);
    SameVpn(a);
    EntryFlags(PteToPa(Leaf(w, id, VpnOf(a))), g);
    var k := a % PAGE_SIZE;
    assert SegPageAt(g, j) + k == a;
  }

  /**
   A loaded program, as the processor finds it: at each address of each of its segments a user program may read if the
   segment's flags have bit 2, write if they have bit 1 and run if they have bit 0, where writing without reading is no
   right at all; and what is there is the file's byte, or zero behind the part that the file holds.
   */
  lemma ProgramThere(w: World, b: Bytes, id: nat, file: seq<byte>, i: nat, h: ProgramHeader, a: nat, right: Right)
    requires AllLoaded(w, b, id, file) && HasHeader(file, i, h) && h.kind == 1
    requires h.vaddr <= a < h.vaddr + h.memsz && a < 0x40_0000_0000
    ensures var r, w_, x := h.flags / 4 % 2 == 1, h.flags / 2 % 2 == 1, h.flags % 2 == 1;
            Access(w.tables, w.spaces[id].root, a, right).Some? <==>
              match right case Read => r case Write => w_ && r case Run => x && (w_ ==> r)
    ensures Access(w.tables, w.spaces[id].root, a, right).Some? ==>
              var pa := Access(w.tables, w.spaces[id].root, a, right).value;
              && pa - pa % 0x1000 in b && |b[pa - pa % 0x1000]| == 0x1000 && h.offset + h.filesz <= |file|
              && b[pa - pa % 0x1000][pa % 0x1000] ==
                  if a - h.vaddr < h.filesz then file[h.offset + (a - h.vaddr)] else 0
  {
    hide TreeOk, LeafAt, Walked, Access, VpnOf, PteToPa, HasHeader, AllLoaded;
    ByteThere(w, b, id, file, i, h, a);
    PageOfEntry(Leaf(w, id, VpnOf(a)));
    AccessIs(w, id, a, right);
  }

  /**
   Where a program that has just been loaded starts, and what else it has: the entry point of the file's header, an
   empty heap behind all of its segments, and a stack of zeros.
   */
  lemma ProgramStarts(w: World, b: Bytes, id: nat, entry: nat, file: seq<byte>, f: FileHeader, i: nat, h: ProgramHeader)
    requires WorldOk(w) && BytesOk(w, b) && Runs(w, b, id, entry, file) && w.spaces[id].userStack != 0
    requires |f.ident| == 12 && |file| >= 64 && file[..64] == FileHeaderBytes(f)
    requires f.kind < 0x1_0000 && f.machine < 0x1_0000 && f.phentsize < 0x1_0000 && f.phnum < 0x1_0000
    requires f.entry < 0x1_0000_0000_0000_0000 && f.phoff < 0x1_0000_0000_0000_0000
    requires HasHeader(file, i, h) && h.kind == 1 && h.memsz > 0
    ensures entry == f.entry && w.spaces[id].heapEnd == w.spaces[id].heapBase
    ensures w.spaces[id].imageBase <= h.vaddr && h.vaddr + h.memsz <= w.spaces[id].heapBase
    ensures HasTree(w, id) && forall a :: 0x3fff_f000 <= a < 0x4000_0000 ==> UserByte(w, b, id, a) == Some(0)
  {
    hide Number, Verified, FileHeaderBytes, HeaderBytes, SegmentAt, WorldOk, UserByte, AllLoaded;
    FileHeaderRead(file, f);
    SegmentRead(file, i, h);
    SegmentIn(file, Phnum(file), i);
    SpaceHas(w, id);
    forall a | 0x3fff_f000 <= a < 0x4000_0000
      ensures UserByte(w, b, id, a) == Some(0)
    {
      StackRead(w, b, id, a);
    }
  }

  lemma StackRead(w: World, b: Bytes, id: nat, a: nat)
    requires WorldOk(w) && BytesOk(w, b) && id in w.spaces && 0x3fff_f000 <= a < 0x4000_0000
    requires w.spaces[id].userStack != 0 && w.spaces[id].userStack in b && b[w.spaces[id].userStack] == Zeros(PAGE_SIZE)
    ensures HasTree(w, id) && UserByte(w, b, id, a) == Some(0)
  {
    hide TreeOk, LeafAt, Walked, Access, PteToPa, VpnOf;
    var page := w.spaces[id].userStack;
    StackThere(w, id, a, Read);
    SpaceAt(w, id);
    UsesManaged(w);
    assert page % 0x1000 == 0;
    assert (page + a % 0x1000) % 0x1000 == a % 0x1000;
    ReadIs(w, b, id, a);
  }
}
