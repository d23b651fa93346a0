/**
 Sv39 page tables (src/kernel/pgtable.rs): a three-level tree of tables in physical pages, which is a partial map
 from virtual pages to page-table entries, as in sections 4.3.2 and 4.4 of the RISC-V Privileged Architecture.
 This module is about the tables' values; module Mmu changes them in place.
 */
module PageTables {
  import opened Wrappers
  import opened Words
  import opened Pages

  const ENTRIES: nat := 512
  const PTE_V: nat := 1
  const PTE_R: nat := 2
  const PTE_W: nat := 4
  const PTE_X: nat := 8
  const PTE_U: nat := 16
  const FLAGS: nat := 1024                   // flags are the low ten bits of an entry
  const PPN_LIMIT: nat := 0x1000_0000_0000   // physical page numbers have 44 bits

  /** `pte_to_pa`: bits 10 to 53 of the entry are the page number. */
  function PteToPa(pte: nat): nat {
    pte / FLAGS % PPN_LIMIT * PAGE_SIZE
  }

  /** `pa_to_pte`. */
  function PaToPte(pa: nat, flags: nat): nat
    requires flags < FLAGS
  {
    pa / PAGE_SIZE * FLAGS + flags
  }

  predicate IsValid(pte: nat) {
    pte % 2 == 1
  }

  /** Some of R, W and X is set: the entry maps a page, and does not name a table. */
  predicate IsLeaf(pte: nat) {
    pte / 2 % 8 != 0
  }

  function FlagsOf(pte: nat): (f: nat)
    ensures f < FLAGS
  {
    pte % FLAGS
  }

  /** A physical page address that fits an entry. */
  predicate PageAligned(pa: nat) {
    pa % PAGE_SIZE == 0 && pa / PAGE_SIZE < PPN_LIMIT
  }

  lemma EntryParts(n: nat, flags: nat)
    requires flags < FLAGS
    ensures (n * FLAGS + flags) / FLAGS == n && (n * FLAGS + flags) % FLAGS == flags
  {
  }

  lemma EntryParity(n: nat, flags: nat)
    ensures (n * FLAGS + flags) % 2 == flags % 2 && (n * FLAGS + flags) / 2 == n * 512 + flags / 2
  {
  }

  lemma EntryKind(n: nat, f: nat)
    ensures (n * 512 + f) % 8 == f % 8
  {
  }

  /** An entry gives back the page and the flags it was made of. */
  lemma EntryRoundTrip(pa: nat, flags: nat)
    requires PageAligned(pa) && flags < FLAGS
    ensures PteToPa(PaToPte(pa, flags)) == pa && FlagsOf(PaToPte(pa, flags)) == flags
    ensures IsValid(PaToPte(pa, flags)) == IsValid(flags) && IsLeaf(PaToPte(pa, flags)) == IsLeaf(flags)
  {
    var n := pa / PAGE_SIZE;
    EntryParts(n, flags);
    EntryParity(n, flags);
    EntryKind(n, flags / 2);
  }

  /** The entry that links a table to one of the level below. */
  function Link(pa: nat): nat {
    PaToPte(pa, PTE_V)
  }

  lemma LinkIs(pa: nat)
    requires PageAligned(pa)
    ensures IsValid(Link(pa)) && !IsLeaf(Link(pa)) && PteToPa(Link(pa)) == pa
  {
    EntryRoundTrip(pa, PTE_V);
  }

  /** The three indices of a virtual address. */
  datatype Vpn = Vpn(v2: nat, v1: nat, v0: nat)

  function VpnOf(va: nat): (v: Vpn)
    ensures v.v2 < ENTRIES && v.v1 < ENTRIES && v.v0 < ENTRIES
  {
    Vpn(va / 0x4000_0000 % ENTRIES, va / 0x20_0000 % ENTRIES, va / PAGE_SIZE % ENTRIES)
  }

  // ---- Trees of tables ----

  datatype Node = Root | Mid(v2: nat) | Low(v2: nat, v1: nat)

  type Tables = map<nat, seq<nat>>     // what physical pages hold, read as tables

  /** The tables of a tree, by the indices that lead to them, and what each page of it is. */
  datatype Tree = Tree(root: nat, mids: map<nat, nat>, lows: map<(nat, nat), nat>, node: map<nat, Node>)

  /** An entry of the lowest level: empty, or the mapping of a page. */
  predicate LowEntry(pte: nat) {
    IsValid(pte) ==> IsLeaf(pte)
  }

  ghost predicate TableOk(tables: Tables, pa: nat) {
    pa in tables && |tables[pa]| == ENTRIES && PageAligned(pa)
  }

  ghost predicate NodeOk(tables: Tables, t: Tree, pa: nat)
    requires pa in t.node
  {
    && TableOk(tables, pa)
    && match t.node[pa]
       case Root => pa == t.root && forall i :: 0 <= i < ENTRIES ==>
           tables[pa][i] == if i in t.mids then Link(t.mids[i]) else 0
       case Mid(v2) => v2 in t.mids && t.mids[v2] == pa
                       && forall j :: 0 <= j < ENTRIES ==>
                           tables[pa][j] == if (v2, j) in t.lows then Link(t.lows[(v2, j)]) else 0
       case Low(v2, v1) => (v2, v1) in t.lows && t.lows[(v2, v1)] == pa
                           && forall j :: 0 <= j < ENTRIES ==> LowEntry(tables[pa][j])
  }

  ghost predicate TreeOk(tables: Tables, t: Tree) {
    && t.root in t.node && t.node[t.root] == Root
    && (forall i {:trigger t.mids[i]} :: i in t.mids ==>
        i < ENTRIES && t.mids[i] in t.node && t.node[t.mids[i]] == Mid(i))
    && (forall k {:trigger t.lows[k]} :: k in t.lows ==>
         k.0 in t.mids && k.1 < ENTRIES && t.lows[k] in t.node && t.node[t.lows[k]] == Low(k.0, k.1))
    && (forall pa {:trigger NodeOk(tables, t, pa)} :: pa in t.node ==> NodeOk(tables, t, pa))
  }

  /**
   The entry for a virtual page: the value of the map that the tree stands for. An entry that is not valid maps
   nothing.
   */
  ghost function LeafAt(tables: Tables, t: Tree, v: Vpn): nat
    requires TreeOk(tables, t) && v.v0 < ENTRIES
  {
    if (v.v2, v.v1) in t.lows then
      (assert NodeOk(tables, t, t.lows[(v.v2, v.v1)]); tables[t.lows[(v.v2, v.v1)]][v.v0])
    else 0
  }

  /** No table is part of the tree twice. */
  lemma TreeNodes(tables: Tables, t: Tree)
    requires TreeOk(tables, t)
    ensures forall i, j :: i in t.mids && j in t.mids && t.mids[i] == t.mids[j] ==> i == j
    ensures forall k, l :: k in t.lows && l in t.lows && t.lows[k] == t.lows[l] ==> k == l
    ensures forall i, k :: i in t.mids && k in t.lows ==>
              t.mids[i] != t.lows[k] && t.mids[i] != t.root && t.lows[k] != t.root
  {
  }

  // ---- Changes ----

  /** Overwriting entry i of the table in page pa. */
  function SetEntry(tables: Tables, pa: nat, i: nat, pte: nat): Tables
    requires pa in tables && i < |tables[pa]|
  {
    var table: seq<nat> := tables[pa];
    tables[pa := table[..i] + [pte] + table[i + 1..]]
  }

  lemma EntrySet(tables: Tables, pa: nat, i: nat, pte: nat)
    requires pa in tables && i < |tables[pa]|
    ensures var t' := SetEntry(tables, pa, i, pte);
            && |t'[pa]| == |tables[pa]| && forall j :: 0 <= j < |tables[pa]| ==> t'[pa][j] == if j == i then pte
                else tables[pa][j]
  {
  }

  function Blank(): seq<nat> {
    seq(ENTRIES, _ => 0)
  }

  lemma NodeAt(tables: Tables, t: Tree, pa: nat)
    requires TreeOk(tables, t) && pa in t.node
    ensures NodeOk(tables, t, pa)
  {
  }

  function WithMid(t: Tree, v2: nat, pa: nat): Tree {
    t.(mids := t.mids[v2 := pa], node := t.node[pa := Mid(v2)])
  }

  function WithLow(t: Tree, v2: nat, v1: nat, pa: nat): Tree {
    t.(lows := t.lows[(v2, v1) := pa], node := t.node[pa := Low(v2, v1)])
  }

  /** A fresh blank page becomes a table of the middle level. */
  lemma AddMid(tables: Tables, t: Tree, v2: nat, pa: nat, tables': Tables)
    requires TreeOk(tables, t) && v2 < ENTRIES && v2 !in t.mids && pa !in t.node && PageAligned(pa)
    requires t.root in tables && |tables[t.root]| == ENTRIES
    requires tables' == SetEntry(tables[pa := Blank()], t.root, v2, Link(pa))
    ensures TreeOk(tables', WithMid(t, v2, pa))
    ensures forall v: Vpn {:trigger LeafAt(tables', WithMid(t, v2, pa), v)} :: v.v0 < ENTRIES ==>
              LeafAt(tables', WithMid(t, v2, pa), v) == LeafAt(tables, t, v)
  {
    var t' := WithMid(t, v2, pa);
    EntrySet(tables[pa := Blank()], t.root, v2, Link(pa));
    assert forall j :: (v2, j) !in t.lows;
    forall n | n in t'.node
      ensures NodeOk(tables', t', n)
    {
      if n != pa { NodeAt(tables, t, n); }
    }
  }

  /** A fresh blank page becomes a table of the lowest level. */
  lemma AddLow(tables: Tables, t: Tree, v2: nat, v1: nat, pa: nat, tables': Tables)
    requires TreeOk(tables, t) && v2 in t.mids && v1 < ENTRIES && (v2, v1) !in t.lows && pa !in t.node
    requires PageAligned(pa)
    requires t.mids[v2] in tables && |tables[t.mids[v2]]| == ENTRIES
    requires tables' == SetEntry(tables[pa := Blank()], t.mids[v2], v1, Link(pa))
    ensures TreeOk(tables', WithLow(t, v2, v1, pa))
    ensures forall v: Vpn {:trigger LeafAt(tables', WithLow(t, v2, v1, pa), v)} :: v.v0 < ENTRIES ==>
              LeafAt(tables', WithLow(t, v2, v1, pa), v) == LeafAt(tables, t, v)
  {
    var t' := WithLow(t, v2, v1, pa);
    hide NodeOk, SetEntry, LeafAt;
    forall n | n in t'.node
      ensures NodeOk(tables', t', n)
    {
      if n != pa { NodeAt(tables, t, n); }
      AddLowNode(tables, t, v2, v1, pa, tables', n);
    }
    forall v: Vpn | v.v0 < ENTRIES
      ensures LeafAt(tables', t', v) == LeafAt(tables, t, v)
    {
      AddLowLeaf(tables, t, v2, v1, pa, tables', v);
    }
  }

  lemma AddLowLeaf(tables: Tables, t: Tree, v2: nat, v1: nat, pa: nat, tables': Tables, v: Vpn)
    requires TreeOk(tables, t) && v2 in t.mids && v1 < ENTRIES && (v2, v1) !in t.lows && pa !in t.node
    requires t.mids[v2] in tables && |tables[t.mids[v2]]| == ENTRIES && v.v0 < ENTRIES
    requires tables' == SetEntry(tables[pa := Blank()], t.mids[v2], v1, Link(pa))
    requires TreeOk(tables', WithLow(t, v2, v1, pa))
    ensures LeafAt(tables', WithLow(t, v2, v1, pa), v) == LeafAt(tables, t, v)
  {
    if (v.v2, v.v1) in t.lows {
      NodeAt(tables, t, t.lows[(v.v2, v.v1)]);
      SetElsewhere(tables[pa := Blank()], t.mids[v2], v1, Link(pa), t.lows[(v.v2, v.v1)]);
    } else if (v.v2, v.v1) == (v2, v1) {
      SetElsewhere(tables[pa := Blank()], t.mids[v2], v1, Link(pa), pa);
    }
  }

  lemma SetElsewhere(tables: Tables, pa: nat, i: nat, pte: nat, n: nat)
    requires pa in tables && i < |tables[pa]| && n != pa
    ensures n in SetEntry(tables, pa, i, pte) <==> n in tables
    ensures n in tables ==> SetEntry(tables, pa, i, pte)[n] == tables[n]
  {
  }

  lemma AddLowNode(tables: Tables, t: Tree, v2: nat, v1: nat, pa: nat, tables': Tables, n: nat)
    requires v2 in t.mids && v1 < ENTRIES && (v2, v1) !in t.lows && pa !in t.node && PageAligned(pa)
    requires t.mids[v2] in t.node && t.node[t.mids[v2]] == Mid(v2) && t.mids[v2] in tables
    requires |tables[t.mids[v2]]| == ENTRIES
    requires tables' == SetEntry(tables[pa := Blank()], t.mids[v2], v1, Link(pa))
    requires n == pa || (n in t.node && NodeOk(tables, t, n))
    ensures NodeOk(tables', WithLow(t, v2, v1, pa), n)
  {
    EntrySet(tables[pa := Blank()], t.mids[v2], v1, Link(pa));
  }

  /** Overwriting one entry of the lowest level changes the map there and nowhere else. */
  lemma SetLeaf(tables: Tables, t: Tree, v: Vpn, pte: nat, tables': Tables)
    requires TreeOk(tables, t) && (v.v2, v.v1) in t.lows && v.v0 < ENTRIES && LowEntry(pte)
    requires t.lows[(v.v2, v.v1)] in tables && |tables[t.lows[(v.v2, v.v1)]]| == ENTRIES
    requires tables' == SetEntry(tables, t.lows[(v.v2, v.v1)], v.v0, pte)
    ensures TreeOk(tables', t)
    ensures forall u: Vpn {:trigger LeafAt(tables', t, u)} :: u.v0 < ENTRIES ==>
              LeafAt(tables', t, u) == if u == v then pte else LeafAt(tables, t, u)
  {
    EntrySet(tables, t.lows[(v.v2, v.v1)], v.v0, pte);
    forall n | n in t.node
      ensures NodeOk(tables', t, n)
    {
      NodeAt(tables, t, n);
    }
  }

  /** A tree depends on nothing but its own tables. */
  lemma Elsewhere(tables: Tables, t: Tree, tables': Tables)
    requires TreeOk(tables, t) && forall pa :: pa in t.node ==>
               pa in tables && pa in tables' && tables'[pa] == tables[pa]
    ensures TreeOk(tables', t)
    ensures forall v: Vpn {:trigger LeafAt(tables', t, v)} :: v.v0 < ENTRIES ==>
              LeafAt(tables', t, v) == LeafAt(tables, t, v)
  {
    forall n | n in t.node
      ensures NodeOk(tables', t, n)
    {
      NodeAt(tables, t, n);
    }
  }

  // ---- What the operations leave ----

  /** The map is the same. */
  ghost predicate SameMap(tables: Tables, t: Tree, tables': Tables, t': Tree)
    requires TreeOk(tables, t) && TreeOk(tables', t')
  {
    forall v: Vpn {:trigger LeafAt(tables', t', v)} :: v.v0 < ENTRIES ==> LeafAt(tables', t', v) == LeafAt(tables, t, v)
  }

  /** The tree has at most grown, by pages that were free; no page outside it has been written. */
  ghost predicate Touched(tables: Tables, t: Tree, free: set<nat>, tables': Tables, t': Tree, free': set<nat>) {
    && TreeOk(tables, t) && TreeOk(tables', t') && t'.root == t.root
    && t.node.Keys <= t'.node.Keys && t'.node.Keys - t.node.Keys <= free && free' == free - (t'.node.Keys - t.node.Keys)
    && (forall k {:trigger t.lows[k]} :: k in t.lows ==> k in t'.lows && t'.lows[k] == t.lows[k])
    && (forall n {:trigger n in tables} :: n in tables && n !in t'.node ==> n in tables' && tables'[n] == tables[n])
  }

  lemma TouchedNone(tables: Tables, t: Tree, free: set<nat>)
    requires TreeOk(tables, t)
    ensures Touched(tables, t, free, tables, t, free) && SameMap(tables, t, tables, t)
  {
  }

  lemma TouchedBoth(ta: Tables, a: Tree, fa: set<nat>, tb: Tables, b: Tree, fb: set<nat>, tc: Tables, c: Tree,
          fc: set<nat>)
    requires Touched(ta, a, fa, tb, b, fb) && Touched(tb, b, fb, tc, c, fc)
    ensures Touched(ta, a, fa, tc, c, fc)
  {
    hide TreeOk;
    forall k | k in a.lows
      ensures k in c.lows && c.lows[k] == a.lows[k]
    {
      assert b.lows[k] == a.lows[k];
    }
    forall n | n in ta && n !in c.node
      ensures n in tc && tc[n] == ta[n]
    {
      assert n !in b.node.Keys;
      assert tb[n] == ta[n];
    }
    assert c.node.Keys - a.node.Keys == (c.node.Keys - b.node.Keys) + (b.node.Keys - a.node.Keys);
  }

  /** The pages of the tree below page p, reached through its first n entries. */
  ghost function BelowUpTo(t: Tree, p: nat, n: nat): set<nat>
    requires p in t.node
  {
    set q | q in t.node && UnderEntry(t.node[q], t.node[p], n)
  }

  ghost predicate UnderEntry(q: Node, p: Node, n: nat) {
    match q
    case Root => false
    case Mid(v2) => p.Root? && v2 < n
    case Low(v2, v1) => (p.Root? && v2 < n) || (p == Mid(v2) && v1 < n)
  }

  ghost function Below(t: Tree, p: nat): set<nat>
    requires p in t.node
  {
    BelowUpTo(t, p, ENTRIES)
  }

  function LevelOf(n: Node): nat {
    match n case Root => 2 case Mid(_) => 1 case Low(_, _) => 0
  }

  /** What `free_walk` finds in entry i of page p: a table below p, or nothing to go down to. */
  lemma EntryBelow(tables: Tables, t: Tree, p: nat, i: nat)
    requires TreeOk(tables, t) && p in t.node && i < ENTRIES
    ensures p in tables && |tables[p]| == ENTRIES
    ensures var pte := tables[p][i];
            if IsValid(pte) && !IsLeaf(pte) then
              var c := PteToPa(pte);
              && c in t.node && LevelOf(t.node[c]) < LevelOf(t.node[p]) && c !in Below(t, c) && c !in BelowUpTo(t, p, i)
              && Below(t, c) !! BelowUpTo(t, p, i) && BelowUpTo(t, p, i + 1) == BelowUpTo(t, p, i) + Below(t, c) + {c}
            else BelowUpTo(t, p, i + 1) == BelowUpTo(t, p, i)
  {
    NodeAt(tables, t, p);
    match t.node[p]
    case Root =>
      if i in t.mids {
        NodeAt(tables, t, t.mids[i]);
        LinkIs(t.mids[i]);
        RootEntry(tables, t, i);
      } else {
        NoMid(tables, t, i);
      }
    case Mid(v2) =>
      if (v2, i) in t.lows {
        NodeAt(tables, t, t.lows[(v2, i)]);
        LinkIs(t.lows[(v2, i)]);
        MidEntry(tables, t, v2, i);
      } else {
        NoLow(tables, t, v2, i);
      }
    case Low(_, _) =>
      assert BelowUpTo(t, p, i + 1) == {} == BelowUpTo(t, p, i);
  }

  lemma RootEntry(tables: Tables, t: Tree, i: nat)
    requires TreeOk(tables, t) && i in t.mids
    ensures var c := t.mids[i];
            && c in t.node && t.node[c] == Mid(i) && c !in Below(t, c) && c !in BelowUpTo(t, t.root, i)
            && Below(t, c) !! BelowUpTo(t, t.root, i)
                && BelowUpTo(t, t.root, i + 1) == BelowUpTo(t, t.root, i) + Below(t, c) + {c}
  {
    var c := t.mids[i];
    forall q | q in t.node
      ensures q in BelowUpTo(t, t.root, i + 1) <==> q in BelowUpTo(t, t.root, i) + Below(t, c) + {c}
    {
      NodeAt(tables, t, q);
    }
  }

  lemma NoMid(tables: Tables, t: Tree, i: nat)
    requires TreeOk(tables, t) && i !in t.mids
    ensures BelowUpTo(t, t.root, i + 1) == BelowUpTo(t, t.root, i)
  {
    forall q | q in t.node
      ensures q in BelowUpTo(t, t.root, i + 1) <==> q in BelowUpTo(t, t.root, i)
    {
      NodeAt(tables, t, q);
    }
  }

  lemma MidEntry(tables: Tables, t: Tree, v2: nat, j: nat)
    requires TreeOk(tables, t) && (v2, j) in t.lows
    ensures var p, c := t.mids[v2], t.lows[(v2, j)];
            && p in t.node && t.node[p] == Mid(v2) && c in t.node && t.node[c] == Low(v2, j)
            && Below(t, c) == {} && c !in BelowUpTo(t, p, j) && BelowUpTo(t, p, j + 1) == BelowUpTo(t, p, j) + {c}
  {
    var p, c := t.mids[v2], t.lows[(v2, j)];
    assert p in t.node && c in t.node;
    forall q | q in t.node
      ensures q in BelowUpTo(t, p, j + 1) <==> q in BelowUpTo(t, p, j) + {c}
    {
      NodeAt(tables, t, q);
    }
  }

  lemma NoLow(tables: Tables, t: Tree, v2: nat, j: nat)
    requires TreeOk(tables, t) && v2 in t.mids && (v2, j) !in t.lows
    ensures t.mids[v2] in t.node && BelowUpTo(t, t.mids[v2], j + 1) == BelowUpTo(t, t.mids[v2], j)
  {
    var p := t.mids[v2];
    assert p in t.node;
    forall q | q in t.node
      ensures q in BelowUpTo(t, p, j + 1) <==> q in BelowUpTo(t, p, j)
    {
      NodeAt(tables, t, q);
    }
  }

  lemma BelowMonotone(t: Tree, p: nat, n: nat)
    requires p in t.node && n <= ENTRIES
    ensures BelowUpTo(t, p, n) <= Below(t, p)
  {
  }

  /** The whole tree is its root and what is below it. */
  lemma AllBelow(tables: Tables, t: Tree)
    requires TreeOk(tables, t)
    ensures t.root !in Below(t, t.root) && t.node.Keys == Below(t, t.root) + {t.root}
    ensures forall p :: p in t.node ==> BelowUpTo(t, p, 0) == {}
  {
    forall q | q in t.node
      ensures q in Below(t, t.root) + {t.root}
    {
      NodeAt(tables, t, q);
    }
  }

  // ---- Ranges of pages ----

  /** The i-th page from an address on. */
  function Page(va: nat, i: nat): (v: Vpn)
    ensures v.v2 < ENTRIES && v.v1 < ENTRIES && v.v0 < ENTRIES
  {
    VpnOf(va + i * PAGE_SIZE)
  }

  ghost function PageRange(va: nat, k: nat): (r: set<Vpn>)
    ensures forall i {:trigger Page(va, i)} :: 0 <= i < k ==> Page(va, i) in r
    ensures forall v {:trigger v in r} :: v in r ==> v.v0 < ENTRIES
  {
    if k == 0 then {} else PageRange(va, k - 1) + {Page(va, k - 1)}
  }

  lemma {:induction false} InRange(va: nat, k: nat, v: Vpn) returns (i: nat)
    requires v in PageRange(va, k)
    ensures i < k && v == Page(va, i)
  {
    if v in PageRange(va, k - 1) {
      i := InRange(va, k - 1, v);
    } else {
      i := k - 1;
    }
  }

  function SetValid(flags: nat): (f: nat)
    requires flags < FLAGS
    ensures f < FLAGS && IsValid(f) && (IsLeaf(flags) ==> IsLeaf(f))
  {
    if flags % 2 == 1 then flags else (assert (flags + 1) / 2 == flags / 2; flags + 1)
  }

  /**
   Of the pages asked for, the first k have been mapped, each where nothing was mapped; no other mapping has changed.
   */
  ghost predicate MappedTo(tables: Tables, t: Tree, tables': Tables, t': Tree, va: nat, pa: nat, flags: nat, k: nat)
    requires TreeOk(tables, t) && TreeOk(tables', t') && flags < FLAGS
  {
    && (forall i {:trigger Page(va, i)} :: 0 <= i < k ==>
         !IsValid(LeafAt(tables, t, Page(va, i)))
             && LeafAt(tables', t', Page(va, i)) == PaToPte(pa + i * PAGE_SIZE, SetValid(flags)))
    && (forall v: Vpn {:trigger LeafAt(tables', t', v)} :: v.v0 < ENTRIES && v !in PageRange(va, k) ==>
         LeafAt(tables', t', v) == LeafAt(tables, t, v))
  }

  lemma MappedMore(ta: Tables, a: Tree, tb: Tables, b: Tree, tc: Tables, c: Tree, td: Tables, va: nat, pa: nat,
          flags: nat, k: nat)
    requires TreeOk(ta, a) && TreeOk(tb, b) && TreeOk(tc, c) && TreeOk(td, c) && flags < FLAGS && IsLeaf(flags)
    requires MappedTo(ta, a, tb, b, va, pa, flags, k) && SameMap(tb, b, tc, c) && PageAligned(pa + k * PAGE_SIZE)
    requires !IsValid(LeafAt(tc, c, Page(va, k)))
    requires forall u: Vpn {:trigger LeafAt(td, c, u)} :: u.v0 < ENTRIES ==>
               LeafAt(td, c, u) == if u == Page(va, k) then PaToPte(pa + k * PAGE_SIZE, SetValid(flags))
                   else LeafAt(tc, c, u)
    ensures MappedTo(ta, a, td, c, va, pa, flags, k + 1)
  {
    hide TreeOk, LeafAt, IsValid, IsLeaf, PaToPte, SetValid, VpnOf, Page;
    forall i | 0 <= i < k
      ensures Page(va, i) != Page(va, k)
    {
      assert LeafAt(tb, b, Page(va, i)) == PaToPte(pa + i * PAGE_SIZE, SetValid(flags));
      MappedValid(pa, i, flags);
      assert LeafAt(tc, c, Page(va, k)) == LeafAt(tb, b, Page(va, k));
    }
    assert Page(va, k) !in PageRange(va, k) by {
      if Page(va, k) in PageRange(va, k) {
        var i := InRange(va, k, Page(va, k));
      }
    }
    assert LeafAt(tb, b, Page(va, k)) == LeafAt(ta, a, Page(va, k));
    assert LeafAt(tc, c, Page(va, k)) == LeafAt(tb, b, Page(va, k));
    forall i | 0 <= i < k
      ensures LeafAt(td, c, Page(va, i)) == PaToPte(pa + i * PAGE_SIZE, SetValid(flags))
    {
      assert LeafAt(tc, c, Page(va, i)) == LeafAt(tb, b, Page(va, i));
    }
    forall v: Vpn | v.v0 < ENTRIES && v !in PageRange(va, k + 1)
      ensures LeafAt(td, c, v) == LeafAt(ta, a, v)
    {
      assert LeafAt(tc, c, v) == LeafAt(tb, b, v) == LeafAt(ta, a, v);
    }
  }

  lemma MappedValid(pa: nat, i: nat, flags: nat)
    requires flags < FLAGS
    ensures IsValid(PaToPte(pa + i * PAGE_SIZE, SetValid(flags)))
  {
    EntryParity((pa + i * PAGE_SIZE) / PAGE_SIZE, SetValid(flags));
  }
}
