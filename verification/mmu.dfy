/**
 The operations on page tables in place (src/kernel/pgtable.rs): walking, mapping, unmapping, changing flags,
 translating and freeing.
 */
module Mmu {
  import opened Wrappers
  import opened Words
  import opened Pages
  import opened PageTables

  /** Physical memory: the page allocator and what the pages hold, as tables or as bytes. */
  class Machine {
    const pages: PageAllocator
    var tables: Tables
    var bytes: map<nat, seq<byte>>

    ghost predicate Valid()
      reads this, pages, pages.bitmap
    {
      pages.Valid() && pages.startAddr / PAGE_SIZE + pages.totalPages <= PPN_LIMIT
    }

    /** The tree's tables are the allocator's pages, and allocated. */
    ghost predicate Holds(t: Tree): (holds: bool)
      reads this`tables, pages
      ensures holds ==> TreeOk(tables, t)
    {
      TreeOk(tables, t) && forall n {:trigger n in t.node} :: n in t.node ==> pages.IsPage(n) && n !in pages.FreeAddrs()
    }

    lemma PageFits(a: nat)
      requires Valid() && pages.IsPage(a)
      ensures PageAligned(a)
    {
    }

    /** `create`: a blank table in a fresh page. */
    method Create() returns (r: Option<nat>)
      requires Valid()
      modifies this`tables, pages, pages.bitmap
      ensures Valid()
      ensures r.None? ==> tables == old(tables) && pages.FreeAddrs() == old(pages.FreeAddrs()) == {}
      ensures r.Some? ==> pages.IsPage(r.value) && r.value in old(pages.FreeAddrs())
                          && pages.FreeAddrs() == old(pages.FreeAddrs()) - {r.value}
                              && tables == old(tables)[r.value := Blank()]
    {
      r := pages.Alloc();
      if r.Some? {
        tables := tables[r.value := Blank()];
      }
    }

    /** The machine with all of the allocator's pages free. */
    constructor (start: nat, count: nat)
      requires start % PAGE_SIZE == 0 && start / PAGE_SIZE + MAX_PAGES <= PPN_LIMIT
      ensures Valid() && fresh(pages) && fresh(pages.bitmap) && tables == map[] && bytes == map[]
    {
      pages := new PageAllocator(start, count);
      tables, bytes := map[], map[];
    }

    /** The step of a walk that makes the missing table for v below the one at `current`, and links to it. */
    method MakeTable(current: nat, level: nat, v: Vpn, ghost t: Tree) returns (r: Option<nat>, ghost t': Tree)
      requires Valid() && Holds(t) && 1 <= level <= 2 && Standing(t, v, level, current) && v.v2 < ENTRIES
      requires v.v1 < ENTRIES
      requires current in tables && |tables[current]| == ENTRIES
      requires if level == 2 then v.v2 !in t.mids else (v.v2, v.v1) !in t.lows
      modifies this`tables, pages, pages.bitmap
      ensures Valid() && Holds(t') && Touched(old(tables), t, old(pages.FreeAddrs()), tables, t', pages.FreeAddrs())
      ensures SameMap(old(tables), t, tables, t') && t'.root == t.root
      ensures Spent(old(pages.FreeAddrs()), pages.FreeAddrs(), 1)
      ensures if r.Some? then Standing(t', v, level - 1, r.value) else pages.FreeAddrs() == {} && t' == t
    {
      hide PageAllocator.FreeAddrs, PageAllocator.IsPage, PageAllocator.Valid, TreeOk, Touched, SameMap, PaToPte,
           SetEntry, Extended, Standing, Blank, LeafAt, Spent;
      t' := t;
      TouchedNone(tables, t, pages.FreeAddrs());
      ghost var free := pages.FreeAddrs();
      SpentNone(free, 1);
      r := Create();
      if r.Some? {
        PageFits(r.value);
        t' := Extended(t, v, level, r.value);
        Extending(old(tables), t, old(pages.FreeAddrs()), v, level, current, r.value);
        SpentOne(free, r.value);
        tables := SetEntry(tables, current, if level == 2 then v.v2 else v.v1, PaToPte(r.value, PTE_V));
        forall n | n in t'.node
          ensures pages.IsPage(n) && n !in pages.FreeAddrs()
        {
          assert n in t'.node.Keys && (n in t.node || n == r.value);
        }
      }
    }

    /**
     `walk`: where the entry for an address is, in which table and at which index; missing tables are made on
     request.
     */
    method Walk(pt: nat, va: nat, alloc: bool, ghost t: Tree) returns (r: Option<(nat, nat)>, ghost t': Tree)
      requires Valid() && Holds(t) && pt == t.root
      modifies this`tables, pages, pages.bitmap
      ensures Valid() && Holds(t') && Touched(old(tables), t, old(pages.FreeAddrs()), tables, t', pages.FreeAddrs())
      ensures SameMap(old(tables), t, tables, t') && t'.root == t.root
      ensures r.Some? ==> EntryOf(t', VpnOf(va), r.value)
      ensures r.None? ==> if alloc then pages.FreeAddrs() == {} else (VpnOf(va).v2, VpnOf(va).v1) !in t.lows
      ensures !alloc ==> t' == t && tables == old(tables) && pages.FreeAddrs() == old(pages.FreeAddrs())
      ensures Spent(old(pages.FreeAddrs()), pages.FreeAddrs(), 2)
    {
      hide PageAllocator.FreeAddrs, PageAllocator.IsPage, PageAllocator.Valid, TreeOk, Touched, SameMap, VpnOf,
           IsValid, IsLeaf, PteToPa, PaToPte, SetEntry, Extended, Standing, Blank, LeafAt, EntryOf, Spent;
      var v := VpnOf(va);
      var current, level := pt, 2;
      t' := t;
      ghost var tables0, free0 := tables, pages.FreeAddrs();
      TouchedNone(tables, t, pages.FreeAddrs());
      StandingEnds(t, v, current);
      SpentNone(pages.FreeAddrs(), 0);
      while level > 0
        invariant level <= 2 && Valid() && Holds(t') && t'.root == t.root && Standing(t', v, level, current)
        invariant Touched(tables0, t, free0, tables, t', pages.FreeAddrs()) && SameMap(tables0, t, tables, t')
        invariant !alloc ==> t' == t && tables == tables0 && pages.FreeAddrs() == free0
        invariant Spent(free0, pages.FreeAddrs(), 2 - level)
      {
        var idx := if level == 2 then v.v2 else v.v1;
        Descend(tables, t', v, level, current);
        var pte := tables[current][idx];
        SpentLess(free0, pages.FreeAddrs(), level);
        if !IsValid(pte) {
          if !alloc {
            return None, t';
          }
          ghost var tables1, t1, free1 := tables, t', pages.FreeAddrs();
          var made;
          made, t' := MakeTable(current, level, v, t');
          TouchedBoth(tables0, t, free0, tables1, t1, free1, tables, t', pages.FreeAddrs());
          SameBoth(tables0, t, tables1, t1, tables, t');
          SpentMore(free0, free1, pages.FreeAddrs(), level);
          if made.None? {
            return None, t';
          }
          current := made.value;
        } else if IsLeaf(pte) {
          return None, t';
        } else {
          current := PteToPa(pte);
        }
        level := level - 1;
      }
      StandingEnds(t', v, current);
      return Some((current, v.v0)), t';
    }

    method ReadEntry(at: (nat, nat), ghost t: Tree, ghost v: Vpn) returns (pte: nat)
      requires TreeOk(tables, t) && EntryOf(t, v, at) && v.v0 < ENTRIES
      ensures pte == LeafAt(tables, t, v)
    {
      NodeAt(tables, t, at.0);
      pte := tables[at.0][at.1];
    }

    method WriteEntry(at: (nat, nat), pte: nat, ghost t: Tree, ghost v: Vpn)
      requires TreeOk(tables, t) && EntryOf(t, v, at) && v.v0 < ENTRIES && LowEntry(pte)
      modifies this`tables
      ensures TreeOk(tables, t) && Touched(old(tables), t, pages.FreeAddrs(), tables, t, pages.FreeAddrs())
      ensures Rewritten(old(tables), tables, t, v, pte) && (old(Holds(t)) ==> Holds(t))
    {
      hide PageAllocator.FreeAddrs, PageAllocator.IsPage, PageAllocator.Valid, TreeOk, SetEntry, LeafAt;
      NodeAt(tables, t, at.0) by { LowIn(tables, t, v); }
      LowIn(tables, t, v);
      SetLeaf(tables, t, v, pte, SetEntry(tables, at.0, at.1, pte));
      SetFrame(tables, t, pages.FreeAddrs(), at, v, pte);
      tables := SetEntry(tables, at.0, at.1, pte);
    }

    /** `map`: `done` pages have been mapped; all of them when the result is true. */
    method Map(pt: nat, va: nat, pa: nat, size: nat, flags: nat, ghost t: Tree) returns (ok: bool, ghost t': Tree,
            ghost done: nat)
      requires Valid() && Holds(t) && pt == t.root
      requires flags < FLAGS && IsLeaf(flags) && pa / PAGE_SIZE + size / PAGE_SIZE <= PPN_LIMIT
      modifies this`tables, pages, pages.bitmap
      ensures Valid() && Holds(t') && Touched(old(tables), t, old(pages.FreeAddrs()), tables, t', pages.FreeAddrs())
      ensures MappedTo(old(tables), t, tables, t', va, pa, flags, done)
      ensures size == 0 || va % PAGE_SIZE != 0 || pa % PAGE_SIZE != 0 ==> !ok && done == 0
      ensures ok ==> done == size / PAGE_SIZE
      ensures !ok && size != 0 && va % PAGE_SIZE == 0 && pa % PAGE_SIZE == 0 ==>
                done < size / PAGE_SIZE && (pages.FreeAddrs() == {} || IsValid(LeafAt(tables, t', Page(va, done))))
      ensures Spent(old(pages.FreeAddrs()), pages.FreeAddrs(), 2 * (size / PAGE_SIZE))
    {
      hide PageAllocator.FreeAddrs, PageAllocator.IsPage, PageAllocator.Valid, TreeOk, Touched, SameMap, VpnOf,
           IsValid, IsLeaf, PaToPte, LeafAt, SetValid, MappedTo, Spent, EntryOf, Machine.Holds;
      ghost var tables0, free0 := tables, pages.FreeAddrs();
      t', done := t, 0;
      TouchedNone(tables, t, pages.FreeAddrs());
      MappedNone(tables, t, va, pa, flags);
      SpentNone(pages.FreeAddrs(), 2 * (size / PAGE_SIZE));
      if size == 0 || va % PAGE_SIZE != 0 || pa % PAGE_SIZE != 0 {
        return false, t', done;
      }
      var numPages := size / PAGE_SIZE;
      SpentNone(pages.FreeAddrs(), 0);
      for i := 0 to numPages
        invariant done == i && Valid() && Holds(t') && t'.root == pt
        invariant Touched(tables0, t, free0, tables, t', pages.FreeAddrs())
        invariant MappedTo(tables0, t, tables, t', va, pa, flags, i)
        invariant Spent(free0, pages.FreeAddrs(), 2 * i)
      {
        ghost var tables1, t1, free1 := tables, t', pages.FreeAddrs();
        var pte;
        pte, t' := Walk(pt, va + i * PAGE_SIZE, true, t');
        TouchedBoth(tables0, t, free0, tables1, t1, free1, tables, t', pages.FreeAddrs());
        MappedSame(tables0, t, tables1, t1, tables, t', va, pa, flags, i);
        SpentBoth(free0, free1, pages.FreeAddrs(), i, numPages);
        if pte.None? {
          return false, t', done;
        }
        var entry := ReadEntry(pte.value, t', Page(va, i));
        if IsValid(entry) {
          return false, t', done;
        }
        ghost var tables2, free2 := tables, pages.FreeAddrs();
        Aligned(pa, i, numPages);
        EntryRoundTrip(pa + i * PAGE_SIZE, SetValid(flags));
        WriteEntry(pte.value, PaToPte(pa + i * PAGE_SIZE, SetValid(flags)), t', Page(va, i));
        TouchedBoth(tables0, t, free0, tables2, t', free2, tables, t', pages.FreeAddrs());
        MappedMore(tables0, t, tables1, t1, tables2, t', tables, va, pa, flags, i);
        done := i + 1;
      }
      return true, t', done;
    }

    /** `virt_to_phys`: what the map says of the page, with the offset in it. */
    method VirtToPhys(pt: nat, va: nat, ghost t: Tree) returns (r: Option<nat>)
      requires Valid() && Holds(t) && pt == t.root
      modifies this`tables, pages, pages.bitmap
      ensures Valid() && Holds(t) && tables == old(tables) && pages.FreeAddrs() == old(pages.FreeAddrs())
      ensures r == Translate(tables, t, va)
    {
      hide PageAllocator.FreeAddrs, PageAllocator.IsPage, PageAllocator.Valid, TreeOk, Touched, SameMap, Spent,
           PteToPa, IsValid;
      var pte;
      ghost var t1;
      pte, t1 := Walk(pt, va, false, t);
      if pte.None? {
        NoTable(tables, t, VpnOf(va));
        return None;
      }
      var entry := ReadEntry(pte.value, t, VpnOf(va));
      if !IsValid(entry) {
        return None;
      }
      return Some(PteToPa(entry) + va % PAGE_SIZE);
    }

    /** `set_flags`: the first `done` pages have new flags, all of them when the result is true. */
    method SetFlags(pt: nat, va: nat, size: nat, flags: nat, ghost t: Tree) returns (ok: bool, ghost done: nat)
      requires Valid() && Holds(t) && pt == t.root && flags < FLAGS && IsLeaf(flags)
      modifies this`tables, pages, pages.bitmap
      ensures Valid() && Holds(t) && Touched(old(tables), t, old(pages.FreeAddrs()), tables, t, pages.FreeAddrs())
      ensures Changed(old(tables), tables, t, PageRange(va, done), Reflagged(flags))
      ensures forall v :: v in PageRange(va, done) ==> IsValid(LeafAt(old(tables), t, v))
      ensures size == 0 || va % PAGE_SIZE != 0 || size % PAGE_SIZE != 0 ==> !ok && done == 0
      ensures ok ==> done == size / PAGE_SIZE
      ensures !ok && size != 0 && va % PAGE_SIZE == 0 && size % PAGE_SIZE == 0 ==>
                done < size / PAGE_SIZE && !IsValid(LeafAt(old(tables), t, Page(va, done)))
    {
      hide PageAllocator.FreeAddrs, PageAllocator.IsPage, PageAllocator.Valid, TreeOk, Touched, VpnOf, IsValid, IsLeaf,
           PaToPte, LeafAt, SetValid, Changed, Page, Reflag, Spent, EntryOf,
           Machine.Holds;
      ghost var tables0, free0 := tables, pages.FreeAddrs();
      done := 0;
      TouchedNone(tables, t, pages.FreeAddrs());
      ghost var f := Reflagged(flags);
      ChangedNone(tables, t, va, f);
      if size == 0 || va % PAGE_SIZE != 0 || size % PAGE_SIZE != 0 {
        return false, done;
      }
      for i := 0 to size / PAGE_SIZE
        invariant done == i && Valid() && Holds(t)
        invariant Touched(tables0, t, free0, tables, t, pages.FreeAddrs())
        invariant Changed(tables0, tables, t, PageRange(va, i), f)
        invariant forall v :: v in PageRange(va, i) ==> IsValid(LeafAt(tables0, t, v))
      {
        var pte;
        ghost var t1;
        pte, t1 := Walk(pt, va + i * PAGE_SIZE, false, t);
        PageIs(va, i);
        ChangedAt(tables0, tables, t, PageRange(va, i), f, Page(va, i));
        ReflagTwice(LeafAt(tables0, t, Page(va, i)), flags);
        if pte.None? {
          NoTable(tables, t, Page(va, i));
          return false, done;
        }
        var entry := ReadEntry(pte.value, t, Page(va, i));
        if !IsValid(entry) {
          return false, done;
        }
        ghost var tables1, free1 := tables, pages.FreeAddrs();
        WriteEntry(pte.value, PaToPte(PteToPa(entry), SetValid(flags)), t, Page(va, i));
        TouchedBoth(tables0, t, free0, tables1, t, free1, tables, t, pages.FreeAddrs());
        ChangedMore(tables0, tables1, tables, t, va, i, f, PaToPte(PteToPa(entry), SetValid(flags)));
        done := i + 1;
      }
      return true, done;
    }

    /** Empties an entry, and gives its page back if asked to. */
    method ClearEntry(at: (nat, nat), freePage: bool, ghost t: Tree, ghost v: Vpn) returns (entry: nat)
      requires Valid() && Holds(t) && EntryOf(t, v, at) && v.v0 < ENTRIES
      requires freePage && IsValid(LeafAt(tables, t, v)) ==> PteToPa(LeafAt(tables, t, v)) !in t.node
      modifies this`tables, pages, pages.bitmap
      ensures Valid() && Holds(t) && entry == LeafAt(old(tables), t, v)
      ensures Rewritten(old(tables), tables, t, v, Emptied(entry))
      ensures forall n :: n in old(tables) && n !in t.node ==> n in tables && tables[n] == old(tables)[n]
      ensures pages.FreeAddrs() == old(pages.FreeAddrs()) +
                (if freePage && IsValid(entry) && pages.IsPage(PteToPa(entry)) then {PteToPa(entry)} else {})
    {
      hide PageAllocator.FreeAddrs, PageAllocator.IsPage, PageAllocator.Valid, TreeOk, LeafAt, IsValid, PteToPa,
           Rewritten, Touched;
      entry := ReadEntry(at, t, v);
      EmptiedTwice(entry);
      if IsValid(entry) {
        if freePage {
          PaOfEntry(entry);
          GivePage(PteToPa(entry), t);
        }
        WriteEntry(at, 0, t, v);
        SetOutside(old(tables), tables, t, pages.FreeAddrs());
      } else {
        SameRewritten(tables, t, v);
      }
    }

    /**
     `unmap`: the first `done` pages are unmapped, and with freePage given back; all of them when the result is true.
     */
    method Unmap(pt: nat, va: nat, size: nat, freePage: bool, ghost t: Tree) returns (ok: bool, ghost done: nat)
      requires Valid() && Holds(t) && pt == t.root
      requires freePage ==> forall v :: v in PageRange(va, size / PAGE_SIZE) && IsValid(LeafAt(tables, t, v)) ==>
                 PteToPa(LeafAt(tables, t, v)) !in t.node
      modifies this`tables, pages, pages.bitmap
      ensures Valid() && Holds(t)
      ensures forall n :: n in old(tables) && n !in t.node ==> n in tables && tables[n] == old(tables)[n]
      ensures Changed(old(tables), tables, t, PageRange(va, done), Unmapped)
      ensures pages.FreeAddrs() ==
                old(pages.FreeAddrs()) + (if freePage then MappedPages(old(tables), t, PageRange(va, done), pages)
                else {})
      ensures size == 0 || va % PAGE_SIZE != 0 ==> !ok && done == 0
      ensures ok ==> done == size / PAGE_SIZE
      ensures !ok && size != 0 && va % PAGE_SIZE == 0 ==> done < size / PAGE_SIZE
      ensures !ok && size != 0 && va % PAGE_SIZE == 0 ==> (Page(va, done).v2, Page(va, done).v1) !in t.lows
    {
      hide PageAllocator.FreeAddrs, PageAllocator.IsPage, PageAllocator.Valid, TreeOk, VpnOf, IsValid, PaToPte, LeafAt,
           Changed, Page, Emptied, MappedPages, Touched, Spent, EntryOf, Machine.Holds;
      ghost var tables0, free0 := tables, pages.FreeAddrs();
      done := 0;
      ChangedNone(tables, t, va, Unmapped);
      NoneMapped(tables, t, va, pages);
      if size == 0 || va % PAGE_SIZE != 0 {
        return false, done;
      }
      var numPages := size / PAGE_SIZE;
      for i := 0 to numPages
        invariant done == i && Valid() && Holds(t)
        invariant forall n :: n in tables0 && n !in t.node ==> n in tables && tables[n] == tables0[n]
        invariant Changed(tables0, tables, t, PageRange(va, i), Unmapped)
        invariant pages.FreeAddrs() ==
                    free0 + (if freePage then MappedPages(tables0, t, PageRange(va, i), pages) else {})
      {
        var pte;
        ghost var t1;
        pte, t1 := Walk(pt, va + i * PAGE_SIZE, false, t);
        PageIs(va, i);
        ChangedAt(tables0, tables, t, PageRange(va, i), Unmapped, Page(va, i));
        EmptiedTwice(LeafAt(tables0, t, Page(va, i)));
        if pte.None? {
          return false, done;
        }
        RangeGrows(va, i, numPages);
        ghost var tables1 := tables;
        var entry := ClearEntry(pte.value, freePage, t, Page(va, i));
        ChangedMore(tables0, tables1, tables, t, va, i, Unmapped, Emptied(entry));
        MappedPagesMore(tables0, t, va, i, pages, entry);
        done := i + 1;
      }
      return true, done;
    }

    /** A page that is no table of the tree is given back to the allocator, if it came from there. */
    method GivePage(pa: nat, ghost t: Tree)
      requires Valid() && Holds(t) && pa !in t.node && pa % PAGE_SIZE == 0
      modifies pages, pages.bitmap
      ensures Valid() && Holds(t)
      ensures pages.FreeAddrs() == old(pages.FreeAddrs()) + (if pages.IsPage(pa) then {pa} else {})
    {
      OwnedPage(pages, pa);
      pages.Free(pa);
    }

    /** Giving back a page that is in use: no page is given back twice. */
    method Release(pa: nat)
      requires Valid() && pages.IsPage(pa) && pa !in pages.FreeAddrs()
      modifies pages, pages.bitmap
      ensures Valid() && pages.FreeAddrs() == old(pages.FreeAddrs()) + {pa}
    {
      pages.Free(pa);
    }

    /** `free_walk`: gives back every table below a page, each once, and no page that is mapped. */
    method FreeWalk(pt: nat, ghost t: Tree)
      requires Valid() && TreeOk(tables, t) && pt in t.node && Below(t, pt) !! pages.FreeAddrs()
      requires forall n {:trigger n in t.node} :: n in t.node ==> pages.IsPage(n)
      modifies pages, pages.bitmap
      ensures Valid() && pages.FreeAddrs() == old(pages.FreeAddrs()) + Below(t, pt)
      decreases LevelOf(t.node[pt])
    {
      hide PageAllocator.FreeAddrs, PageAllocator.IsPage, PageAllocator.Valid, TreeOk, BelowUpTo, IsValid, IsLeaf,
           PteToPa;
      AllBelow(tables, t);
      for i := 0 to ENTRIES
        invariant Valid() && pages.FreeAddrs() == old(pages.FreeAddrs()) + BelowUpTo(t, pt, i)
      {
        EntryBelow(tables, t, pt, i);
        BelowMonotone(t, pt, i + 1);
        var pte := tables[pt][i];
        if IsValid(pte) {
          var pa := PteToPa(pte);
          if !IsLeaf(pte) {
            FreeWalk(pa, t);
            Release(pa);
          }
        }
      }
    }

    /** `free`: the tables below the root, and then the root. */
    method Free(pt: nat, ghost t: Tree)
      requires Valid() && Holds(t) && pt == t.root
      modifies pages, pages.bitmap
      ensures Valid() && pages.FreeAddrs() == old(pages.FreeAddrs()) + t.node.Keys
    {
      hide PageAllocator.FreeAddrs, PageAllocator.IsPage, PageAllocator.Valid, TreeOk, BelowUpTo;
      AllBelow(tables, t);
      RootIn(tables, t);
      FreeWalk(pt, t);
      Release(pt);
    }
  }

  // ---- How many pages an operation can use up ----

  /** No more than n of the pages have gone. */
  ghost predicate Spent(was: set<nat>, now: set<nat>, n: int) {
    |was| <= |now| + n
  }

  lemma SpentNone(free: set<nat>, n: nat)
    ensures Spent(free, free, n)
  {
  }

  lemma SpentOne(free: set<nat>, pa: nat)
    requires pa in free
    ensures Spent(free, free - {pa}, 1)
  {
  }

  /** A walk from one level down to the next. */
  lemma SpentMore(was: set<nat>, mid: set<nat>, now: set<nat>, level: int)
    requires Spent(was, mid, 2 - level) && Spent(mid, now, 1) && 1 <= level
    ensures Spent(was, now, 2 - (level - 1)) && Spent(was, now, 2)
  {
  }

  lemma SpentLess(was: set<nat>, now: set<nat>, level: int)
    requires Spent(was, now, 2 - level) && 1 <= level
    ensures Spent(was, now, 2 - (level - 1)) && Spent(was, now, 2)
  {
  }

  /** A page mapped after i others: it and its tables. */
  lemma SpentBoth(was: set<nat>, mid: set<nat>, now: set<nat>, i: nat, n: nat)
    requires Spent(was, mid, 2 * i) && Spent(mid, now, 2) && i < n
    ensures Spent(was, now, 2 * (i + 1)) && Spent(was, now, 2 * n)
  {
  }

  lemma RootIn(tables: Tables, t: Tree)
    requires TreeOk(tables, t)
    ensures t.root in t.node
  {
  }

  lemma OwnedPage(pages: PageAllocator, pa: nat)
    requires pages.Valid() && pa % PAGE_SIZE == 0
    ensures pages.IsPage(pa) <==> pages.Owns(pa)
  {
  }

  // ---- Changing the entries of a range ----

  /** What an operation does to an entry. */
  datatype Change = Reflagged(flags: nat) | Unmapped

  function Apply(f: Change, pte: nat): nat {
    match f case Reflagged(flags) => Reflag(pte, flags) case Unmapped => Emptied(pte)
  }

  /** The entries of the range are changed by f, and no others. */
  ghost predicate Changed(tables: Tables, tables': Tables, t: Tree, range: set<Vpn>, f: Change)
    requires TreeOk(tables, t) && TreeOk(tables', t)
  {
    forall v: Vpn {:trigger LeafAt(tables', t, v)} :: v.v0 < ENTRIES ==>
      LeafAt(tables', t, v) == if v in range then Apply(f, LeafAt(tables, t, v)) else LeafAt(tables, t, v)
  }

  lemma ChangedNone(tables: Tables, t: Tree, va: nat, f: Change)
    requires TreeOk(tables, t)
    ensures Changed(tables, tables, t, PageRange(va, 0), f)
  {
  }

  lemma ChangedAt(tables: Tables, tables': Tables, t: Tree, range: set<Vpn>, f: Change, v: Vpn)
    requires TreeOk(tables, t) && TreeOk(tables', t) && Changed(tables, tables', t, range, f) && v.v0 < ENTRIES
    ensures LeafAt(tables', t, v) == if v in range then Apply(f, LeafAt(tables, t, v)) else LeafAt(tables, t, v)
  {
  }

  lemma ChangedMore(ta: Tables, tb: Tables, tc: Tables, t: Tree, va: nat, k: nat, f: Change, pte: nat)
    requires TreeOk(ta, t) && TreeOk(tb, t) && TreeOk(tc, t)
    requires Changed(ta, tb, t, PageRange(va, k), f) && Rewritten(tb, tc, t, Page(va, k), pte)
    requires pte == Apply(f, LeafAt(ta, t, Page(va, k)))
    ensures Changed(ta, tc, t, PageRange(va, k + 1), f)
  {
    hide TreeOk, LeafAt, Page;
    forall v: Vpn | v.v0 < ENTRIES
      ensures LeafAt(tc, t, v) == if v in PageRange(va, k + 1) then Apply(f, LeafAt(ta, t, v)) else LeafAt(ta, t, v)
    {
      assert LeafAt(tb, t, v) == if v in PageRange(va, k) then Apply(f, LeafAt(ta, t, v)) else LeafAt(ta, t, v);
    }
  }

  lemma PageIs(va: nat, i: nat)
    ensures VpnOf(va + i * PAGE_SIZE) == Page(va, i)
  {
  }

  /** A valid entry with other flags; an entry that is not valid is left. */
  function Reflag(pte: nat, flags: nat): nat {
    if flags < FLAGS && IsValid(pte) then PaToPte(PteToPa(pte), SetValid(flags)) else pte
  }

  lemma PaOfEntry(pte: nat)
    ensures PageAligned(PteToPa(pte))
  {
    assert PteToPa(pte) / PAGE_SIZE == pte / FLAGS % PPN_LIMIT;
  }

  lemma ReflagTwice(pte: nat, flags: nat)
    requires flags < FLAGS && IsLeaf(flags)
    ensures Reflag(Reflag(pte, flags), flags) == Reflag(pte, flags) && IsValid(Reflag(pte, flags)) == IsValid(pte)
    ensures IsValid(pte) ==> Reflag(pte, flags) == PaToPte(PteToPa(pte), SetValid(flags)) && IsLeaf(Reflag(pte, flags))
    ensures Reflag(pte, flags) == PaToPte(PteToPa(Reflag(pte, flags)), SetValid(flags)) || !IsValid(pte)
  {
    PaOfEntry(pte);
    EntryRoundTrip(PteToPa(pte), SetValid(flags));
    hide PteToPa, PaToPte, SetValid, IsLeaf;
  }

  function Emptied(pte: nat): nat {
    if IsValid(pte) then 0 else pte
  }

  lemma EmptiedTwice(pte: nat)
    ensures Emptied(Emptied(pte)) == Emptied(pte) && !IsValid(Emptied(pte)) && !IsValid(0)
    ensures (IsValid(pte) ==> Emptied(pte) == 0)
    ensures !IsValid(pte) ==> Emptied(pte) == pte
  {
  }

  lemma NoTable(tables: Tables, t: Tree, v: Vpn)
    requires TreeOk(tables, t) && (v.v2, v.v1) !in t.lows && v.v0 < ENTRIES
    ensures !IsValid(LeafAt(tables, t, v))
  {
  }

  lemma SameRewritten(tables: Tables, t: Tree, v: Vpn)
    requires TreeOk(tables, t) && v.v0 < ENTRIES
    ensures Rewritten(tables, tables, t, v, LeafAt(tables, t, v))
  {
  }

  lemma SetOutside(tables: Tables, tables': Tables, t: Tree, free: set<nat>)
    requires Touched(tables, t, free, tables', t, free)
    ensures forall n :: n in tables && n !in t.node ==> n in tables' && tables'[n] == tables[n]
  {
  }

  /** The allocator's pages that the entries of the range map. */
  ghost function MappedPages(tables: Tables, t: Tree, range: set<Vpn>, pages: PageAllocator): set<nat>
    requires TreeOk(tables, t) && forall v :: v in range ==> v.v0 < ENTRIES
  {
    set v | v in range && IsValid(LeafAt(tables, t, v))
        && pages.IsPage(PteToPa(LeafAt(tables, t, v))) :: PteToPa(LeafAt(tables, t, v))
  }

  lemma NoneMapped(tables: Tables, t: Tree, va: nat, pages: PageAllocator)
    requires TreeOk(tables, t)
    ensures MappedPages(tables, t, PageRange(va, 0), pages) == {}
  {
  }

  lemma RangeGrows(va: nat, i: nat, n: nat)
    requires i < n
    ensures Page(va, i) in PageRange(va, n)
  {
  }

  /**
   What one more page of the range adds: its page if it is still mapped; if it was emptied before, it is counted
   already.
   */
  lemma MappedPagesMore(tables: Tables, t: Tree, va: nat, i: nat, pages: PageAllocator, entry: nat)
    requires TreeOk(tables, t)
    requires entry == if Page(va, i) in PageRange(va, i) then Emptied(LeafAt(tables, t, Page(va, i)))
               else LeafAt(tables, t, Page(va, i))
    ensures MappedPages(tables, t, PageRange(va, i + 1), pages) ==
              MappedPages(tables, t, PageRange(va, i), pages) + (if IsValid(entry)
                  && pages.IsPage(PteToPa(entry)) then {PteToPa(entry)} else {})
  {
    hide TreeOk, LeafAt, Page, PteToPa;
    EmptiedTwice(LeafAt(tables, t, Page(va, i)));
    assert PageRange(va, i + 1) == PageRange(va, i) + {Page(va, i)};
  }

  /** The physical address of a virtual one, by the map that the tree stands for. */
  ghost function Translate(tables: Tables, t: Tree, va: nat): Option<nat>
    requires TreeOk(tables, t)
  {
    if IsValid(LeafAt(tables, t, VpnOf(va))) then Some(PteToPa(LeafAt(tables, t, VpnOf(va))) + va % PAGE_SIZE) else None
  }

  ghost predicate Rewritten(tables: Tables, tables': Tables, t: Tree, v: Vpn, pte: nat)
    requires TreeOk(tables, t) && TreeOk(tables', t)
  {
    forall u: Vpn {:trigger LeafAt(tables', t, u)} :: u.v0 < ENTRIES ==> LeafAt(tables', t, u) == if u == v then pte
        else LeafAt(tables, t, u)
  }

  lemma LowIn(tables: Tables, t: Tree, v: Vpn)
    requires TreeOk(tables, t) && (v.v2, v.v1) in t.lows
    ensures t.lows[(v.v2, v.v1)] in t.node && TableOk(tables, t.lows[(v.v2, v.v1)])
  {
    NodeAt(tables, t, t.lows[(v.v2, v.v1)]);
  }

  lemma SetFrame(tables: Tables, t: Tree, free: set<nat>, at: (nat, nat), v: Vpn, pte: nat)
    requires TreeOk(tables, t) && EntryOf(t, v, at) && at.0 in t.node && TableOk(tables, at.0) && v.v0 < ENTRIES
    requires TreeOk(SetEntry(tables, at.0, at.1, pte), t)
    ensures Touched(tables, t, free, SetEntry(tables, at.0, at.1, pte), t, free)
  {
    hide TreeOk, SetEntry;
    assert t.node.Keys - t.node.Keys == {};
    forall n | n in tables && n !in t.node
      ensures n in SetEntry(tables, at.0, at.1, pte) && SetEntry(tables, at.0, at.1, pte)[n] == tables[n]
    {
      SetElsewhere(tables, at.0, at.1, pte, n);
    }
  }

  lemma MappedNone(tables: Tables, t: Tree, va: nat, pa: nat, flags: nat)
    requires TreeOk(tables, t) && flags < FLAGS
    ensures MappedTo(tables, t, tables, t, va, pa, flags, 0)
  {
  }

  lemma MappedSame(ta: Tables, a: Tree, tb: Tables, b: Tree, tc: Tables, c: Tree, va: nat, pa: nat, flags: nat, k: nat)
    requires TreeOk(ta, a) && TreeOk(tb, b) && TreeOk(tc, c) && flags < FLAGS
    requires MappedTo(ta, a, tb, b, va, pa, flags, k) && SameMap(tb, b, tc, c)
    ensures MappedTo(ta, a, tc, c, va, pa, flags, k)
  {
    hide TreeOk, LeafAt, IsValid, PaToPte, SetValid, VpnOf, Page;
    forall i | 0 <= i < k
      ensures LeafAt(tc, c, Page(va, i)) == PaToPte(pa + i * PAGE_SIZE, SetValid(flags))
    {
      assert LeafAt(tc, c, Page(va, i)) == LeafAt(tb, b, Page(va, i));
    }
    forall v: Vpn | v.v0 < ENTRIES && v !in PageRange(va, k)
      ensures LeafAt(tc, c, v) == LeafAt(ta, a, v)
    {
      assert LeafAt(tc, c, v) == LeafAt(tb, b, v);
    }
  }

  lemma Aligned(pa: nat, i: nat, n: nat)
    requires pa % PAGE_SIZE == 0 && i < n && pa / PAGE_SIZE + n <= PPN_LIMIT
    ensures PageAligned(pa + i * PAGE_SIZE)
  {
    assert (pa + i * PAGE_SIZE) / PAGE_SIZE == pa / PAGE_SIZE + i;
  }

  /** The entry for v is at index 0.. of the table that v's upper indices lead to. */
  predicate EntryOf(t: Tree, v: Vpn, at: (nat, nat)) {
    (v.v2, v.v1) in t.lows && at == (t.lows[(v.v2, v.v1)], v.v0)
  }

  /** The walk for v has come to page `current`, with `level` levels still below it. */
  predicate Standing(t: Tree, v: Vpn, level: nat, current: nat) {
    if level == 2 then current == t.root
    else if level == 1 then v.v2 in t.mids && current == t.mids[v.v2]
    else (v.v2, v.v1) in t.lows && current == t.lows[(v.v2, v.v1)]
  }

  lemma StandingEnds(t: Tree, v: Vpn, current: nat)
    ensures Standing(t, v, 2, t.root)
    ensures Standing(t, v, 0, current) ==> EntryOf(t, v, (current, v.v0))
  {
  }

  function Extended(t: Tree, v: Vpn, level: nat, pa: nat): Tree {
    if level == 2 then WithMid(t, v.v2, pa) else WithLow(t, v.v2, v.v1, pa)
  }

  /** What the walk reads at an upper level: a link to the next table, or nothing where there is none. */
  lemma Descend(tables: Tables, t: Tree, v: Vpn, level: nat, current: nat)
    requires TreeOk(tables, t) && 1 <= level <= 2 && Standing(t, v, level, current) && v.v2 < ENTRIES && v.v1 < ENTRIES
    ensures current in t.node && current in tables && |tables[current]| == ENTRIES
    ensures var pte := tables[current][if level == 2 then v.v2 else v.v1];
            && (IsValid(pte) ==> !IsLeaf(pte) && Standing(t, v, level - 1, PteToPa(pte)))
            && (!IsValid(pte) ==>
                (v.v2, v.v1) !in t.lows && (if level == 2 then v.v2 !in t.mids else (v.v2, v.v1) !in t.lows))
  {
    hide PteToPa, IsValid, IsLeaf, PaToPte;
    if level == 2 {
      NodeAt(tables, t, t.root);
      if v.v2 in t.mids {
        NodeAt(tables, t, t.mids[v.v2]);
        LinkIs(t.mids[v.v2]);
      } else {
        ZeroInvalid();
      }
    } else {
      NodeAt(tables, t, t.mids[v.v2]);
      if (v.v2, v.v1) in t.lows {
        NodeAt(tables, t, t.lows[(v.v2, v.v1)]);
        LinkIs(t.lows[(v.v2, v.v1)]);
      } else {
        ZeroInvalid();
      }
    }
  }

  lemma ZeroInvalid()
    ensures !IsValid(0)
  {
  }

  lemma Extending(tables: Tables, t: Tree, free: set<nat>, v: Vpn, level: nat, current: nat, pa: nat)
    requires TreeOk(tables, t) && 1 <= level <= 2 && Standing(t, v, level, current) && v.v2 < ENTRIES && v.v1 < ENTRIES
    requires current in tables && |tables[current]| == ENTRIES
    requires if level == 2 then v.v2 !in t.mids else (v.v2, v.v1) !in t.lows
    requires pa in free && PageAligned(pa) && forall n {:trigger n in t.node} :: n in t.node ==> n !in free
    ensures var idx := if level == 2 then v.v2 else v.v1;
            && current != pa
            && var tables', t' := SetEntry(tables[pa := Blank()], current, idx, PaToPte(pa, PTE_V)),
                Extended(t, v, level, pa);
            && TreeOk(tables', t') && t'.root == t.root && Touched(tables, t, free, tables', t', free - {pa})
                && SameMap(tables, t, tables', t') && Standing(t', v, level - 1, pa)
            && t'.node.Keys == t.node.Keys + {pa}
  {
    hide PaToPte, LeafAt, SetEntry;
    CurrentIn(tables, t, v, level, current);
    var idx := if level == 2 then v.v2 else v.v1;
    var tables', t' := SetEntry(tables[pa := Blank()], current, idx, PaToPte(pa, PTE_V)), Extended(t, v, level, pa);
    if level == 2 {
      AddMid(tables, t, v.v2, pa, tables');
    } else {
      AddLow(tables, t, v.v2, v.v1, pa, tables');
    }
    hide TreeOk;
    assert t'.node.Keys - t.node.Keys == {pa};
    forall n | n in tables && n !in t'.node
      ensures n in tables' && tables'[n] == tables[n]
    {
      SetElsewhere(tables[pa := Blank()], current, idx, PaToPte(pa, PTE_V), n);
    }
  }

  lemma CurrentIn(tables: Tables, t: Tree, v: Vpn, level: nat, current: nat)
    requires TreeOk(tables, t) && 1 <= level <= 2 && Standing(t, v, level, current)
    ensures current in t.node
  {
    if level == 1 { assert t.mids[v.v2] in t.node; }
  }

  lemma SameBoth(ta: Tables, a: Tree, tb: Tables, b: Tree, tc: Tables, c: Tree)
    requires TreeOk(ta, a) && TreeOk(tb, b) && TreeOk(tc, c) && SameMap(ta, a, tb, b) && SameMap(tb, b, tc, c)
    ensures SameMap(ta, a, tc, c)
  {
    hide TreeOk;
    forall v: Vpn | v.v0 < ENTRIES
      ensures LeafAt(tc, c, v) == LeafAt(ta, a, v)
    {
      assert LeafAt(tc, c, v) == LeafAt(tb, b, v);
    }
  }
}
