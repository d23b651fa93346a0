/**
 The user-space allocator (user/libc/malloc.c): a first-fit free list threaded through block headers that
 live in the same bytes as the payloads. Addresses are numbers, 0 is NULL; `blocks` and `chain` are ghosts.
 */
module Malloc {
  import opened Wrappers
  import opened Words

  const HEADER: nat := 16
  const MIN_BLOCK: nat := 32

  /** The block size for a request, in 64-bit arithmetic: ALIGN_UP wraps for requests near SIZE_MAX. */
  function Total(size: nat): nat {
    var t := (size + HEADER + 15) % U64 / 16 * 16;
    if t < MIN_BLOCK then MIN_BLOCK else t
  }

  /** A block is large enough for its request exactly when the request is at most SIZE_MAX - 31. */
  lemma TotalSuffices(size: nat)
    requires size < U64
    ensures Total(size) >= size + HEADER <==> size <= U64 - 32
    ensures Total(size) % 16 == 0 && Total(size) >= MIN_BLOCK
    ensures size <= U64 - 32 ==> Total(size) <= size + MIN_BLOCK + 15
  {
  }

  /** The largest request of all gets the smallest block. */
  lemma LargestRequestWraps()
    ensures Total(U64 - 1) == MIN_BLOCK
  {
  }

  // ---- The tiling ----

  /** Block b ends where the region ends or where another block starts. */
  ghost predicate Follows(blocks: map<nat, nat>, brk: nat, b: nat)
    requires b in blocks
  {
    b + blocks[b] == brk || b + blocks[b] in blocks
  }

  ghost predicate Aligned(blocks: map<nat, nat>) {
    forall b :: b in blocks ==> b % 16 == 0 && blocks[b] % 16 == 0
  }

  /** Blocks, by start address, tile [base, brk): in order, without gap or overlap. */
  ghost predicate Tiles(blocks: map<nat, nat>, base: nat, brk: nat) {
    && base <= brk
    && (base < brk ==> base in blocks)
    && (forall b :: b in blocks ==>
          base <= b && blocks[b] >= MIN_BLOCK && b + blocks[b] <= brk)
    && (forall b {:trigger Follows(blocks, brk, b)} :: b in blocks ==> Follows(blocks, brk, b))
    && (forall b, c :: b in blocks && c in blocks && b < c ==> b + blocks[b] <= c)
  }

  ghost predicate Inside(blocks: map<nat, nat>, b: nat, address: nat) {
    b in blocks && b <= address < b + blocks[b]
  }

  /** Every byte of the region lies in exactly one block. */
  lemma TilesCoverOnce(blocks: map<nat, nat>, base: nat, brk: nat, address: nat) returns (b: nat)
    requires Tiles(blocks, base, brk) && base <= address < brk
    ensures Inside(blocks, b, address)
    ensures forall c :: Inside(blocks, c, address) ==> c == b
  {
    b := CoverFrom(blocks, base, brk, base, address);
  }

  lemma {:induction false} CoverFrom(blocks: map<nat, nat>, base: nat, brk: nat, from: nat,
          address: nat) returns (b: nat)
    requires Tiles(blocks, base, brk) && from in blocks && from <= address < brk
    ensures Inside(blocks, b, address)
    decreases brk - from
  {
    if address < from + blocks[from] {
      b := from;
    } else {
      assert Follows(blocks, brk, from);
      b := CoverFrom(blocks, base, brk, from + blocks[from], address);
    }
  }

  /** Block b is cut after `total` bytes. */
  ghost predicate IsSplit(before: map<nat, nat>, after: map<nat, nat>, b: nat, total: nat) {
    && b in before && b in after && b + total in after && b + total !in before
    && total < before[b] && after[b] == total && after[b + total] == before[b] - total
    && (forall c :: c in after && c != b && c != b + total ==> c in before && after[c] == before[c])
    && (forall c :: c in before ==> c in after)
  }

  lemma SplitTiles(before: map<nat, nat>, after: map<nat, nat>, base: nat, brk: nat, b: nat, total: nat)
    requires Tiles(before, base, brk) && IsSplit(before, after, b, total)
    requires total >= MIN_BLOCK && total + MIN_BLOCK <= before[b]
    ensures Tiles(after, base, brk)
  {
    hide Tiles, Follows, IsSplit;
    forall c | c in after
      ensures base <= c && after[c] >= MIN_BLOCK && c + after[c] <= brk && Follows(after, brk, c)
    {
      SplitPlaced(before, after, base, brk, b, total, c);
    }
    forall c, d | c in after && d in after && c < d
      ensures c + after[c] <= d
    {
      SplitApart(before, after, base, brk, b, total, c, d);
    }
    SplitBase(before, after, base, brk, b, total);
    TilesFrom(after, base, brk);
  }

  lemma SplitBase(before: map<nat, nat>, after: map<nat, nat>, base: nat, brk: nat, b: nat, total: nat)
    requires Tiles(before, base, brk) && IsSplit(before, after, b, total)
    ensures base <= brk && (base < brk ==> base in after)
  {
  }

  lemma TilesFrom(blocks: map<nat, nat>, base: nat, brk: nat)
    requires base <= brk && (base < brk ==> base in blocks)
    requires forall c :: c in blocks ==>
               base <= c && blocks[c] >= MIN_BLOCK && c + blocks[c] <= brk && Follows(blocks, brk, c)
    requires forall c, d :: c in blocks && d in blocks && c < d ==> c + blocks[c] <= d
    ensures Tiles(blocks, base, brk)
  {
    hide Follows;
  }

  lemma SplitPlaced(before: map<nat, nat>, after: map<nat, nat>, base: nat, brk: nat, b: nat, total: nat, c: nat)
    requires Tiles(before, base, brk) && IsSplit(before, after, b, total) && c in after
    requires total >= MIN_BLOCK && total + MIN_BLOCK <= before[b]
    ensures base <= c && after[c] >= MIN_BLOCK && c + after[c] <= brk && Follows(after, brk, c)
  {
    var c0 := if c == b + total then b else c;
    assert c0 in before && Follows(before, brk, c0);
  }

  lemma SplitApart(before: map<nat, nat>, after: map<nat, nat>, base: nat, brk: nat, b: nat, total: nat, c: nat, d: nat)
    requires Tiles(before, base, brk) && IsSplit(before, after, b, total)
    requires c in after && d in after && c < d
    ensures c + after[c] <= d
  {
    var c0 := if c == b + total then b else c;
    var d0 := if d == b + total then b else d;
    assert c0 in before && d0 in before;
  }

  lemma GrowTiles(blocks: map<nat, nat>, base: nat, brk: nat, total: nat)
    requires Tiles(blocks, base, brk) && total >= MIN_BLOCK
    ensures brk !in blocks
    ensures Tiles(blocks[brk := total], base, brk + total)
  {
    var after := blocks[brk := total];
    forall c | c in after
      ensures Follows(after, brk + total, c)
    {
      if c != brk { assert Follows(blocks, brk, c); }
    }
  }

  lemma TilesEndAligned(blocks: map<nat, nat>, base: nat, brk: nat)
    requires Tiles(blocks, base, brk) && Aligned(blocks) && base % 16 == 0
    ensures brk % 16 == 0
  {
    if base < brk {
      var b := TilesCoverOnce(blocks, base, brk, brk - 1);
      assert Follows(blocks, brk, b);
      assert b + blocks[b] == brk;
      AddAligned(b, blocks[b]);
    }
  }

  lemma AddAligned(a: nat, b: nat)
    requires a % 16 == 0 && b % 16 == 0
    ensures (a + b) % 16 == 0
  {
  }

  /** A 16-byte header at h lies inside block c. */
  ghost predicate Holds(blocks: map<nat, nat>, c: nat, h: nat) {
    c in blocks && c <= h && h + HEADER <= c + blocks[c]
  }

  // ---- The free list ----

  datatype Header = Header(size: nat, next: nat)

  ghost predicate Distinct(s: seq<nat>) {
    forall i, j :: 0 <= i < j < |s| ==> s[i] != s[j]
  }

  ghost predicate LinkAt(chain: seq<nat>, hdr: map<nat, Header>, i: nat)
    requires i < |chain| && chain[i] in hdr
  {
    hdr[chain[i]].next == if i + 1 < |chain| then chain[i + 1] else 0
  }

  /** The list that starts at `head` runs through the headers in the order of `chain`. */
  ghost predicate Linked(chain: seq<nat>, head: nat, hdr: map<nat, Header>) {
    && Distinct(chain)
    && (forall i :: 0 <= i < |chain| ==> chain[i] in hdr && chain[i] > 0)
    && head == (if chain == [] then 0 else chain[0])
    && (forall i {:trigger LinkAt(chain, hdr, i)} :: 0 <= i < |chain| ==> LinkAt(chain, hdr, i))
  }

  /** Headers, list and tiling agree: a block is flagged free exactly when it is in the list. */
  ghost predicate Consistent(blocks: map<nat, nat>, chain: seq<nat>, head: nat, hdr: map<nat, Header>) {
    && hdr.Keys == blocks.Keys
    && Linked(chain, head, hdr)
    && (forall b :: b in blocks ==> hdr[b].size == blocks[b] + if b in chain then 1 else 0)
  }

  /** The whole ghost state: a tiling of aligned blocks, the free ones threaded into one list. */
  ghost predicate WellFormed(blocks: map<nat, nat>, chain: seq<nat>, head: nat, hdr: map<nat, Header>, base: nat,
          brk: nat) {
    && 0 < base && base % 16 == 0 && brk < U63
    && Tiles(blocks, base, brk) && Aligned(blocks)
    && Consistent(blocks, chain, head, hdr)
  }

  lemma ReplaceMembers(s: seq<nat>, k: nat, v: nat)
    requires Distinct(s) && k < |s| && v !in s
    ensures Distinct(s[k := v])
    ensures forall x :: x in s[k := v] <==> (x in s && x != s[k]) || x == v
  {
    var t := s[k := v];
    forall x
      ensures x in t <==> (x in s && x != s[k]) || x == v
    {
      if x in s && x != s[k] {
        var i :| 0 <= i < |s| && s[i] == x;
        assert t[i] == x;
      }
      if x == v { assert t[k] == v; }
    }
  }

  lemma RemoveMembers(s: seq<nat>, k: nat)
    requires Distinct(s) && k < |s|
    ensures Distinct(s[..k] + s[k + 1..])
    ensures forall x :: x in s[..k] + s[k + 1..] <==> x in s && x != s[k]
  {
    var t := s[..k] + s[k + 1..];
    forall x
      ensures x in t <==> x in s && x != s[k]
    {
      if x in s && x != s[k] {
        var i :| 0 <= i < |s| && s[i] == x;
        assert t[if i < k then i else i - 1] == x;
      }
    }
  }

  lemma LinkedFacts(chain: seq<nat>, head: nat, hdr: map<nat, Header>, k: nat)
    requires Linked(chain, head, hdr) && k < |chain|
    ensures Distinct(chain) && chain[k] in hdr && chain[k] > 0
    ensures hdr[chain[k]].next == if k + 1 < |chain| then chain[k + 1] else 0
    ensures k == 0 ==> head == chain[k] && Before(chain, k) == 0
    ensures k > 0 ==> Before(chain, k) in hdr && Before(chain, k) > 0 && Before(chain, k) != chain[k]
                      && hdr[Before(chain, k)].next == chain[k]
  {
    assert LinkAt(chain, hdr, k);
    if k > 0 { assert LinkAt(chain, hdr, k - 1); }
  }

  function Before(chain: seq<nat>, k: nat): nat
    requires k < |chain|
  {
    if k == 0 then 0 else chain[k - 1]
  }

  /** Replacing the k-th element: the new header takes over its `next`, the one before points to the new header. */
  lemma ReplaceLinked(chain: seq<nat>, head: nat, hdr: map<nat, Header>, k: nat, v: nat, head': nat, hdr': map<nat,
          Header>)
    requires Linked(chain, head, hdr) && k < |chain| && v > 0 && v !in chain
    requires v in hdr' && hdr'[v].next == hdr[chain[k]].next
    requires forall h :: h in chain && h != chain[k] ==>
               h in hdr' && hdr'[h].next == if h == Before(chain, k) then v else hdr[h].next
    requires head' == if k == 0 then v else head
    ensures Linked(chain[k := v], head', hdr')
  {
    ReplaceMembers(chain, k, v);
    var t := chain[k := v];
    forall i | 0 <= i < |t|
      ensures t[i] in hdr' && LinkAt(t, hdr', i)
    {
      assert LinkAt(chain, hdr, i) && chain[i] in chain;
    }
  }

  /** Dropping the k-th element: the one before takes over its `next`. */
  lemma RemoveLinked(chain: seq<nat>, head: nat, hdr: map<nat, Header>, k: nat, head': nat, hdr': map<nat, Header>)
    requires Linked(chain, head, hdr) && k < |chain|
    requires forall h :: h in chain && h != chain[k] ==>
               h in hdr' && hdr'[h].next == hdr[if h == Before(chain, k) then chain[k] else h].next
    requires head' == if k == 0 then hdr[chain[k]].next else head
    ensures Linked(chain[..k] + chain[k + 1..], head', hdr')
  {
    hide Linked;
    LinkedFacts(chain, head, hdr, 0);
    LinkedFacts(chain, head, hdr, k);
    RemoveMembers(chain, k);
    var t := chain[..k] + chain[k + 1..];
    forall i | 0 <= i < |t|
      ensures t[i] in hdr' && t[i] > 0 && LinkAt(t, hdr', i)
    {
      var from := if i < k then i else i + 1;
      LinkedFacts(chain, head, hdr, from);
      if from + 1 < |chain| { LinkedFacts(chain, head, hdr, from + 1); }
      assert chain[from] in chain && t[i] == chain[from];
    }
    LinkedFrom(t, head', hdr');
  }

  lemma LinkedFrom(chain: seq<nat>, head: nat, hdr: map<nat, Header>)
    requires Distinct(chain) && head == (if chain == [] then 0 else chain[0])
    requires forall i :: 0 <= i < |chain| ==> chain[i] in hdr && chain[i] > 0 && LinkAt(chain, hdr, i)
    ensures Linked(chain, head, hdr)
  {
  }

  lemma SplitFacts(blocks: map<nat, nat>, chain: seq<nat>, head: nat, hdr: map<nat, Header>, base: nat, brk: nat,
                   k: nat, total: nat)
    requires WellFormed(blocks, chain, head, hdr, base, brk) && k < |chain| && chain[k] in blocks
    requires total % 16 == 0 && total >= MIN_BLOCK && blocks[chain[k]] >= total + MIN_BLOCK
    ensures var blk := chain[k]; var prev := Before(chain, k);
            && blk in hdr && (prev != 0 ==> prev in hdr && prev != blk && prev in blocks && prev in chain)
            && hdr[blk].size == blocks[blk] + 1 && hdr[blk].size % 2 == 1 && total % 2 == 0
            && base <= blk && blk + total + HEADER <= brk
            && forall g :: g in hdr ==> g + HEADER <= blk + total || blk + total + HEADER <= g
  {
    LinkedFacts(chain, head, hdr, k);
    SplitFresh(blocks, base, brk, chain[k], total);
    assert chain[k] in chain && (k > 0 ==> chain[k - 1] in chain);
    EvenSizes(blocks[chain[k]]);
    EvenSizes(total);
  }

  /** What the list walk needs to know about the k-th free block. */
  lemma FreeFacts(blocks: map<nat, nat>, chain: seq<nat>, head: nat, hdr: map<nat, Header>, base: nat, brk: nat, k: nat)
    requires WellFormed(blocks, chain, head, hdr, base, brk) && k < |chain|
    ensures chain[k] in blocks && chain[k] in hdr && chain[k] > 0 && hdr[chain[k]].size == blocks[chain[k]] + 1
    ensures blocks[chain[k]] % 2 == 0 && base <= chain[k] < brk && chain[k] % 16 == 0
    ensures hdr[chain[k]].next == if k + 1 < |chain| then chain[k + 1] else 0
    ensures k > 0 ==> Before(chain, k) in blocks && Before(chain, k) in chain
    ensures k > 0 ==> Before(chain, k) !in LiveSet(blocks, chain)
    ensures chain[k] !in LiveSet(blocks, chain)
  {
    LinkedFacts(chain, head, hdr, k);
    assert chain[k] in chain && (k > 0 ==> chain[k - 1] in chain);
    EvenSizes(blocks[chain[k]]);
  }

  ghost function LiveSet(blocks: map<nat, nat>, chain: seq<nat>): set<nat> {
    set b | b in blocks && b !in chain
  }

  lemma SplitLive(blocks: map<nat, nat>, chain: seq<nat>, k: nat, total: nat)
    requires Distinct(chain) && k < |chain| && chain[k] in blocks && 0 < total < blocks[chain[k]]
    requires chain[k] + total !in blocks && forall c :: c in chain ==> c in blocks
    ensures var blk := chain[k]; var split := blk + total;
            LiveSet(blocks[blk := total][split := blocks[blk] - total], chain[k := split]) ==
                LiveSet(blocks, chain) + {blk}
  {
    ReplaceMembers(chain, k, chain[k] + total);
  }

  lemma SplitLiveWF(blocks: map<nat, nat>, chain: seq<nat>, head: nat, hdr: map<nat, Header>, base: nat, brk: nat,
          k: nat, total: nat)
    requires WellFormed(blocks, chain, head, hdr, base, brk) && k < |chain| && chain[k] in blocks
    requires 0 < total < blocks[chain[k]] && chain[k] + total !in blocks
    ensures var blk := chain[k]; var split := blk + total;
            LiveSet(blocks[blk := total][split := blocks[blk] - total], chain[k := split]) ==
                LiveSet(blocks, chain) + {blk}
    ensures base >= HEADER && forall b :: b in blocks ==> Holds(blocks, b, b)
  {
    assert forall c :: c in chain ==> c in hdr;
    SplitLive(blocks, chain, k, total);
  }

  lemma DetachLive(blocks: map<nat, nat>, chain: seq<nat>, k: nat)
    requires Distinct(chain) && k < |chain| && chain[k] in blocks
    ensures LiveSet(blocks, chain[..k] + chain[k + 1..]) == LiveSet(blocks, chain) + {chain[k]}
  {
    RemoveMembers(chain, k);
  }

  /** k is the position of the first block in the list that can hold `total` bytes. */
  ghost predicate FirstFit(blocks: map<nat, nat>, chain: seq<nat>, total: nat, k: nat) {
    && k < |chain| && chain[k] in blocks && blocks[chain[k]] >= total
    && forall j :: 0 <= j < k ==> chain[j] in blocks && blocks[chain[j]] < total
  }

  /** A fresh block at the end of the region, already in use. */
  lemma GrowKeeps(blocks: map<nat, nat>, chain: seq<nat>, head: nat, hdr: map<nat, Header>, base: nat, brk: nat,
                  total: nat, hdr': map<nat, Header>)
    requires WellFormed(blocks, chain, head, hdr, base, brk)
    requires total % 16 == 0 && total >= MIN_BLOCK && brk + total < U63
    requires hdr'.Keys == hdr.Keys + {brk} && hdr'[brk].size == total
    requires forall h :: h in hdr ==> hdr'[h] == hdr[h]
    ensures brk !in blocks && brk % 16 == 0
    ensures WellFormed(blocks[brk := total], chain, head, hdr', base, brk + total)
    ensures LiveSet(blocks[brk := total], chain) == LiveSet(blocks, chain) + {brk}
  {
    hide Tiles, Linked;
    TilesEndAligned(blocks, base, brk);
    GrowTiles(blocks, base, brk, total);
    GrowLinks(blocks, chain, head, hdr, brk, hdr');
  }

  lemma GrowLinks(blocks: map<nat, nat>, chain: seq<nat>, head: nat, hdr: map<nat, Header>, end: nat, hdr': map<nat,
          Header>)
    requires Consistent(blocks, chain, head, hdr) && end !in blocks
    requires end in hdr' && forall h :: h in hdr ==> h in hdr' && hdr'[h] == hdr[h]
    ensures Linked(chain, head, hdr') && end !in chain
  {
    assert forall h :: h in chain ==> h in hdr;
    SameLinks(chain, head, hdr, hdr');
  }

  /** A block in use goes to the head of the list. */
  lemma FreeKeeps(blocks: map<nat, nat>, chain: seq<nat>, head: nat, hdr: map<nat, Header>, base: nat, brk: nat,
                  blk: nat, hdr': map<nat, Header>)
    requires WellFormed(blocks, chain, head, hdr, base, brk)
    requires blk in LiveSet(blocks, chain) && hdr' == hdr[blk := Header(blocks[blk] + 1, head)]
    ensures WellFormed(blocks, [blk] + chain, blk, hdr', base, brk)
    ensures LiveSet(blocks, [blk] + chain) == LiveSet(blocks, chain) - {blk}
  {
    PushLinked(chain, head, hdr, blk, hdr');
  }

  /** A header inside one block shares no byte with another block. */
  lemma HeadersMiss(blocks: map<nat, nat>, chain: seq<nat>, head: nat, hdr: map<nat, Header>, base: nat, brk: nat,
                    c: nat, h: nat, b: nat, address: nat)
    requires WellFormed(blocks, chain, head, hdr, base, brk) && Holds(blocks, c, h)
    requires b in blocks && b != c && b <= address < b + blocks[b]
    ensures !(h <= address < h + HEADER)
  {
  }

  /** No header shares a byte with the payload of a block. */
  lemma HeaderMissesPayload(blocks: map<nat, nat>, chain: seq<nat>, head: nat, hdr: map<nat, Header>,
                            base: nat, brk: nat, h: nat, b: nat)
    requires WellFormed(blocks, chain, head, hdr, base, brk) && h in hdr && b in blocks
    ensures h + HEADER <= b + HEADER || b + blocks[b] <= h
  {
  }

  lemma EvenSizes(n: nat)
    requires n % 16 == 0
    ensures n % 2 == 0 && (n + 1) % 2 == 1
  {
    var m := n / 16 * 8;
    assert n == m + m;
    Doubles(m);
  }

  lemma {:induction false} Doubles(m: nat)
    ensures (m + m) % 2 == 0 && (m + m + 1) % 2 == 1
  {
    if m > 0 { Doubles(m - 1); }
  }

  lemma SameLinks(chain: seq<nat>, head: nat, hdr: map<nat, Header>, hdr': map<nat, Header>)
    requires Linked(chain, head, hdr)
    requires forall h :: h in chain ==> h in hdr && h in hdr' && hdr'[h].next == hdr[h].next
    ensures Linked(chain, head, hdr')
  {
    forall i | 0 <= i < |chain|
      ensures chain[i] in hdr' && LinkAt(chain, hdr', i)
    {
      assert LinkAt(chain, hdr, i) && chain[i] in chain;
    }
  }

  lemma UnlinkedAfter(chain: seq<nat>, head: nat, hdr: map<nat, Header>, j: nat, hdr': map<nat, Header>)
    requires Linked(chain, head, hdr) && j + 1 < |chain| && chain[j] in hdr && chain[j + 1] in hdr
    requires var prev := chain[j]; var blk := chain[j + 1];
             prev != blk && hdr' == hdr[prev := Header(hdr[prev].size, hdr[blk].next)][blk := Header(hdr[blk].size, 0)]
    ensures Linked(chain[..j + 1] + chain[j + 2..], head, hdr')
  {
    LinkedFacts(chain, head, hdr, j + 1);
    forall h | h in chain && h != chain[j + 1]
      ensures h in hdr' && hdr'[h].next == hdr[if h == Before(chain, j + 1) then chain[j + 1] else h].next
    {
      assert h in hdr;
    }
    RemoveLinked(chain, head, hdr, j + 1, head, hdr');
  }

  /** What header writes for a split do to the headers. */
  ghost predicate SplitHeaders(blk: nat, prev: nat, total: nat, head: nat, hdr: map<nat, Header>, head': nat,
          hdr': map<nat, Header>)
    requires blk in hdr && (prev != 0 ==> prev in hdr)
  {
    var split := blk + total;
    && total <= hdr[blk].size
    && hdr'.Keys == hdr.Keys + {split} && head' == (if prev == 0 then split else head)
    && hdr'[split] == Header(hdr[blk].size - total, hdr[blk].next) && hdr'[blk] == Header(total, 0)
    && (prev != 0 ==> hdr'[prev] == Header(hdr[prev].size, split))
    && (forall h :: h in hdr && h != blk && (h == prev ==> prev == 0) ==> hdr'[h] == hdr[h])
  }

  lemma SplitConsistent(blocks: map<nat, nat>, chain: seq<nat>, head: nat, hdr: map<nat, Header>,
                        k: nat, total: nat, head': nat, hdr': map<nat, Header>)
    requires Consistent(blocks, chain, head, hdr) && k < |chain|
    requires chain[k] in blocks && blocks[chain[k]] > total > 0 && chain[k] + total !in blocks
    requires Before(chain, k) != 0 ==> Before(chain, k) in hdr
    requires SplitHeaders(chain[k], Before(chain, k), total, head, hdr, head', hdr')
    ensures var blk := chain[k]; var split := blk + total;
            Consistent(blocks[blk := total][split := blocks[blk] - total], chain[k := split], head', hdr')
  {
    var blk, prev := chain[k], Before(chain, k);
    var split := blk + total;
    var after := blocks[blk := total][split := blocks[blk] - total];
    LinkedFacts(chain, head, hdr, k);
    assert forall h :: h in chain ==> h in hdr;
    ReplaceLinked(chain, head, hdr, k, split, head', hdr');
    ReplaceMembers(chain, k, split);
    assert blk in chain && (prev != 0 ==> prev in chain);
    forall b | b in after
      ensures hdr'[b].size == after[b] + if b in chain[k := split] then 1 else 0
    {
      if b != split { assert b in hdr; }
    }
  }

  /** Splitting a free block keeps the whole state well-formed. */
  lemma SplitKeeps(blocks: map<nat, nat>, chain: seq<nat>, head: nat, hdr: map<nat, Header>, base: nat, brk: nat,
                   k: nat, total: nat, head': nat, hdr': map<nat, Header>)
    requires WellFormed(blocks, chain, head, hdr, base, brk) && k < |chain|
    requires chain[k] in blocks && total % 16 == 0 && total >= MIN_BLOCK && blocks[chain[k]] >= total + MIN_BLOCK
    requires Before(chain, k) != 0 ==> Before(chain, k) in hdr
    requires SplitHeaders(chain[k], Before(chain, k), total, head, hdr, head', hdr')
    ensures var blk := chain[k]; var split := blk + total;
            WellFormed(blocks[blk := total][split := blocks[blk] - total], chain[k := split], head', hdr', base, brk)
  {
    hide Linked, SplitHeaders, Tiles, Aligned;
    SplitBlocks(blocks, base, brk, chain[k], total);
    SplitConsistent(blocks, chain, head, hdr, k, total, head', hdr');
  }

  lemma SplitBlocks(blocks: map<nat, nat>, base: nat, brk: nat, blk: nat, total: nat)
    requires Tiles(blocks, base, brk) && Aligned(blocks)
    requires blk in blocks && total % 16 == 0 && total >= MIN_BLOCK && blocks[blk] >= total + MIN_BLOCK
    ensures var after := blocks[blk := total][blk + total := blocks[blk] - total];
            blk + total !in blocks && Tiles(after, base, brk) && Aligned(after)
  {
    hide Tiles, Aligned;
    var after := blocks[blk := total][blk + total := blocks[blk] - total];
    SplitFresh(blocks, base, brk, blk, total);
    SplitTiles(blocks, after, base, brk, blk, total);
    SplitAligned(blocks, after, blk, total);
  }

  lemma SplitAligned(blocks: map<nat, nat>, after: map<nat, nat>, blk: nat, total: nat)
    requires Aligned(blocks) && IsSplit(blocks, after, blk, total) && total % 16 == 0
    ensures Aligned(after)
  {
    forall b | b in after
      ensures b % 16 == 0 && after[b] % 16 == 0
    {
      if b != blk + total { assert b in blocks; }
    }
  }

  lemma SplitFresh(blocks: map<nat, nat>, base: nat, brk: nat, blk: nat, total: nat)
    requires Tiles(blocks, base, brk) && blk in blocks && total >= MIN_BLOCK && blocks[blk] >= total + MIN_BLOCK
    ensures blk + total !in blocks
    ensures forall g :: g in blocks ==> g + HEADER <= blk + total || blk + total + HEADER <= g
  {
    forall g | g in blocks
      ensures g + HEADER <= blk + total || blk + total + HEADER <= g
    {
    }
  }

  /** Taking a whole block out of the list keeps the whole state well-formed. */
  lemma DetachKeeps(blocks: map<nat, nat>, chain: seq<nat>, head: nat, hdr: map<nat, Header>, base: nat, brk: nat,
                    k: nat, head': nat, hdr': map<nat, Header>)
    requires WellFormed(blocks, chain, head, hdr, base, brk) && k < |chain|
    requires chain[k] in hdr && hdr[chain[k]].size > 0 && (Before(chain, k) != 0 ==> Before(chain, k) in hdr)
    requires var blk := chain[k]; var prev := Before(chain, k);
             && hdr'.Keys == hdr.Keys && head' == (if prev == 0 then hdr[blk].next else head)
             && hdr'[blk] == Header(hdr[blk].size - 1, 0)
             && (prev != 0 ==> hdr'[prev] == Header(hdr[prev].size, hdr[blk].next))
             && (forall h :: h in hdr && h != blk && (h == prev ==> prev == 0) ==> hdr'[h] == hdr[h])
    ensures WellFormed(blocks, chain[..k] + chain[k + 1..], head', hdr', base, brk)
  {
    var blk, prev, t := chain[k], Before(chain, k), chain[..k] + chain[k + 1..];
    LinkedFacts(chain, head, hdr, k);
    assert forall h :: h in chain ==> h in hdr;
    RemoveLinked(chain, head, hdr, k, head', hdr');
    RemoveMembers(chain, k);
    assert blk in chain && (prev != 0 ==> prev in chain);
    forall b | b in blocks
      ensures hdr'[b].size == blocks[b] + if b in t then 1 else 0
    {
      assert b in hdr;
    }
  }

  lemma PushLinked(chain: seq<nat>, head: nat, hdr: map<nat, Header>, v: nat, hdr': map<nat, Header>)
    requires Linked(chain, head, hdr) && v > 0 && v !in chain
    requires v in hdr' && hdr'[v].next == head
    requires forall h :: h in chain ==> h in hdr' && hdr'[h].next == hdr[h].next
    ensures Linked([v] + chain, v, hdr')
  {
    var t := [v] + chain;
    forall i | 0 <= i < |t|
      ensures t[i] in hdr' && LinkAt(t, hdr', i)
    {
      if i > 0 { assert LinkAt(chain, hdr, i - 1) && chain[i - 1] in chain && t[i] == chain[i - 1]; }
    }
  }

  // ---- Words in the byte array ----

  function Join(low: nat, high: nat): nat {
    low + 0x100 * high
  }

  /** The little-endian 64-bit word at index i. */
  function Word(mem: array<byte>, i: nat): (w: nat)
    requires i + 8 <= mem.Length
    reads mem
    ensures w < U64
  {
    Join(mem[i], Join(mem[i + 1], Join(mem[i + 2], Join(mem[i + 3],
      Join(mem[i + 4], Join(mem[i + 5], Join(mem[i + 6], mem[i + 7])))))))
  }

  method WriteWord(mem: array<byte>, i: nat, v: nat)
    requires i + 8 <= mem.Length && v < U64
    modifies mem
    ensures Word(mem, i) == v
    ensures forall j :: 0 <= j < mem.Length && !(i <= j < i + 8) ==> mem[j] == old(mem[j])
    ensures forall j {:trigger Word(mem, j)} ::
              0 <= j && j + 8 <= mem.Length && (j + 8 <= i || i + 8 <= j) ==> Word(mem, j) == old(Word(mem, j))
  {
    var v1, v2, v3, v4, v5, v6, v7 := Digits(v);
    mem[i], mem[i + 1], mem[i + 2], mem[i + 3] := v % 0x100, v1 % 0x100, v2 % 0x100, v3 % 0x100;
    mem[i + 4], mem[i + 5], mem[i + 6], mem[i + 7] := v4 % 0x100, v5 % 0x100, v6 % 0x100, v7;
  }

  /** Writing one byte changes no word that it is not in. */
  method WriteByte(mem: array<byte>, i: nat, v: byte)
    requires i < mem.Length
    modifies mem
    ensures mem[i] == v && forall j :: 0 <= j < mem.Length && j != i ==> mem[j] == old(mem[j])
    ensures forall j {:trigger Word(mem, j)} ::
              0 <= j && j + 8 <= mem.Length && (j + 8 <= i || i < j) ==> Word(mem, j) == old(Word(mem, j))
  {
    mem[i] := v;
  }

  method Digits(v: nat) returns (v1: nat, v2: nat, v3: nat, v4: nat, v5: nat, v6: nat, v7: byte)
    requires v < U64
    ensures v == Join(v % 0x100, v1) && v1 == Join(v1 % 0x100, v2) && v2 == Join(v2 % 0x100, v3)
    ensures v3 == Join(v3 % 0x100, v4) && v4 == Join(v4 % 0x100, v5) && v5 == Join(v5 % 0x100, v6)
    ensures v6 == Join(v6 % 0x100, v7)
  {
    v1 := v / 0x100;
    v2 := v1 / 0x100;
    v3 := v2 / 0x100;
    v4 := v3 / 0x100;
    v5 := v4 / 0x100;
    v6 := v5 / 0x100;
    v7 := v6 / 0x100;
  }

  class Heap {
    const base: nat
    const limit: nat
    const mem: array<byte>              // the bytes of [base, limit)
    var brk: nat                        // what sbrk(0) returns
    var freeList: nat
    ghost var blocks: map<nat, nat>     // start -> size
    ghost var chain: seq<nat>           // the free list, in order
    ghost var hdr: map<nat, Header>     // what the header bytes of each block say

    predicate InRegion(h: nat) {
      base <= h && h + HEADER <= limit && limit - base == mem.Length
    }

    function SizeWord(h: nat): nat
      requires InRegion(h)
      reads mem
    {
      Word(mem, h - base)
    }

    function NextWord(h: nat): nat
      requires InRegion(h)
      reads mem
    {
      Word(mem, h - base + 8)
    }

    ghost predicate Mirrors()
      reads this`hdr, mem
    {
      && limit - base == mem.Length
      && (forall h :: h in hdr ==> InRegion(h) && SizeWord(h) == hdr[h].size && NextWord(h) == hdr[h].next)
      && (forall g, h :: g in hdr && h in hdr && g < h ==> g + HEADER <= h)
    }

    ghost predicate Valid()
      reads this, mem
    {
      && WellFormed(blocks, chain, freeList, hdr, base, brk) && brk <= limit < U63
      && limit - base == mem.Length && Mirrors()
    }

    /** The blocks in use. */
    ghost function Live(): set<nat>
      reads this
    {
      LiveSet(blocks, chain)
    }

    constructor (start: nat, end: nat)
      requires 0 < start <= end < U63 && start % 16 == 0
      ensures Valid() && base == brk == start && limit == end && Live() == {} && fresh(mem)
    {
      base, limit, brk, freeList := start, end, start, 0;
      mem := new byte[end - start];
      blocks, chain, hdr := map[], [], map[];
    }

    /**
     The kernel call: grows the region, or refuses for want of pages or address space. It refuses to shrink the region
     to less than nothing; that it should shrink it otherwise is not asked for.
     */
    method Sbrk(increment: int) returns (r: Option<nat>)
      requires brk <= limit && (increment >= 0 || brk + increment < base)
      modifies this`brk
      ensures r.None? ==> brk == old(brk)
      ensures r.Some? ==> increment >= 0 && r.value == old(brk) && brk == old(brk) + increment <= limit
    {
      var granted: bool := *;
      if granted && base <= brk + increment <= limit {
        r := Some(brk);
        brk := brk + increment;
      } else {
        r := None;
      }
    }

    /** Bytes outside the header at h are as before. */
    twostate predicate BytesKept(h: nat)
      reads mem
    {
      forall i :: 0 <= i < mem.Length && !In(h, i) ==> mem[i] == old(mem[i])
    }

    method SetSize(h: nat, v: nat)
      requires Mirrors() && h in hdr && v < U64
      modifies this`hdr, mem
      ensures Mirrors() && hdr == old(hdr)[h := Header(v, old(hdr)[h].next)] && BytesKept(h)
    {
      hide Word;
      WriteWord(mem, h - base, v);
      hdr := hdr[h := Header(v, hdr[h].next)];
    }

    method SetNext(h: nat, v: nat)
      requires Mirrors() && h in hdr && v < U64
      modifies this`hdr, mem
      ensures Mirrors() && hdr == old(hdr)[h := Header(old(hdr)[h].size, v)] && BytesKept(h)
    {
      hide Word;
      WriteWord(mem, h - base + 8, v);
      hdr := hdr[h := Header(hdr[h].size, v)];
    }

    /** GET_SIZE and the flag of a header. */
    method ReadSize(h: nat) returns (size: nat, free: bool)
      requires Mirrors() && h in hdr
      ensures hdr[h].size == size + (if free then 1 else 0) && size % 2 == 0 && size < U64
    {
      hide Word;
      var w := Word(mem, h - base);
      assert w == 2 * (w / 2) + w % 2;
      size, free := w - w % 2, w % 2 == 1;
    }

    method ReadNext(h: nat) returns (next: nat)
      requires Mirrors() && h in hdr
      ensures next == hdr[h].next && next < U64
    {
      next := Word(mem, h - base + 8);
    }

    /** The bytes at h become a header. */
    ghost method Carve(h: nat)
      requires Mirrors() && InRegion(h)
      requires forall g :: g in hdr ==> Apart(g, h)
      modifies this`hdr
      ensures Mirrors() && h in hdr && old(hdr).Keys + {h} == hdr.Keys
      ensures forall g :: g in old(hdr) ==> hdr[g] == old(hdr)[g]
    {
      hide Word;
      hdr := hdr[h := Header(SizeWord(h), NextWord(h))];
    }

    ghost predicate Apart(g: nat, h: nat) {
      g + HEADER <= h || h + HEADER <= g
    }

    /** No byte of a block that was in use has changed past its header. */
    twostate predicate PayloadsKept(live: set<nat>, sizes: map<nat, nat>)
      reads mem
    {
      forall b, i :: b in live && b in sizes && 0 <= i < mem.Length && b + HEADER <= base + i < b + sizes[b]
                     ==> mem[i] == old(mem[i])
    }

    predicate In(h: nat, i: int) {
      h <= base + i < h + HEADER
    }

    /** Bytes outside the headers at f, g and h are as before. */
    twostate predicate OnlyHeaders(f: nat, g: nat, h: nat)
      reads mem
    {
      forall i :: 0 <= i < mem.Length && !In(f, i) && !In(g, i) && !In(h, i) ==> mem[i] == old(mem[i])
    }

    /** The header of the rest of a split block. */
    method WriteRest(split: nat, size: nat, next: nat)
      requires Mirrors() && split in hdr && size + 1 < U64 && next < U64 && size % 2 == 0
      modifies this`hdr, mem
      ensures Mirrors() && BytesKept(split) && hdr == old(hdr)[split := Header(size + 1, next)]
    {
      hide Word, Mirrors;
      SetSize(split, size);
      var rest, _ := ReadSize(split);
      SetSize(split, rest + 1);
      SetNext(split, next);
    }

    /** `if (prev) prev->next = to; else free_list = to;` */
    method LinkFrom(prev: nat, to: nat)
      requires Mirrors() && (prev != 0 ==> prev in hdr) && to < U64
      modifies this`freeList, this`hdr, mem
      ensures Mirrors()
      ensures prev == 0 ==> freeList == to && hdr == old(hdr) && mem[..] == old(mem[..])
      ensures prev != 0 ==> freeList == old(freeList) && BytesKept(prev)
      ensures prev != 0 ==> hdr == old(hdr)[prev := Header(old(hdr)[prev].size, to)]
    {
      hide Word, Mirrors;
      if prev != 0 {
        SetNext(prev, to);
      } else {
        freeList := to;
      }
    }

    /** `SET_USED(blk); blk->next = NULL;` */
    method MarkUsed(blk: nat)
      requires Mirrors() && blk in hdr
      modifies this`hdr, mem
      ensures Mirrors() && BytesKept(blk)
      ensures hdr == old(hdr)[blk := Header(old(hdr)[blk].size - old(hdr)[blk].size % 2, 0)]
    {
      hide Word, Mirrors;
      var size, _ := ReadSize(blk);
      SetSize(blk, size);
      SetNext(blk, 0);
    }

    /** The header writes of a split, in the source's order. */
    method WriteSplit(blk: nat, prev: nat, total: nat)
      requires Mirrors() && blk in hdr && (prev != 0 ==> prev in hdr && prev != blk) && prev < U64 && blk + total < U64
      requires hdr[blk].size % 2 == 1 && total % 2 == 0 && 0 < total <= hdr[blk].size
      requires InRegion(blk + total) && forall g :: g in hdr ==> Apart(g, blk + total)
      modifies this`freeList, this`hdr, mem
      ensures Mirrors() && OnlyHeaders(blk, prev, blk + total)
      ensures freeList == if prev == 0 then blk + total else old(freeList)
      ensures hdr.Keys == old(hdr).Keys + {blk + total}
      ensures hdr[blk + total] == Header(old(hdr)[blk].size - total, old(hdr)[blk].next) && hdr[blk] == Header(total, 0)
      ensures prev != 0 ==> hdr[prev] == Header(old(hdr)[prev].size, blk + total)
      ensures forall h :: h in old(hdr) && h != blk && (h == prev ==> prev == 0) ==> hdr[h] == old(hdr)[h]
    {
      hide Word, Mirrors;
      var split := blk + total;
      var size, _ := ReadSize(blk);
      Carve(split);
      var next := ReadNext(blk);
      WriteRest(split, size - total, next);
      SetSize(blk, total);
      LinkFrom(prev, split);
      MarkUsed(blk);
    }

    /** Serves a request from the front of the free block `blk`; the rest takes its place in the list. */
    method SplitBlock(blk: nat, prev: nat, total: nat, ghost k: nat)
      requires Valid() && k < |chain| && chain[k] == blk && prev == Before(chain, k)
      requires blk in blocks && prev < U64 && total % 16 == 0 && total >= MIN_BLOCK && blocks[blk] >= total + MIN_BLOCK
      modifies this`freeList, this`blocks, this`chain, this`hdr, mem
      ensures Valid() && chain == old(chain)[k := blk + total]
      ensures blocks == old(blocks)[blk := total][blk + total := old(blocks)[blk] - total]
      ensures blk + total !in old(blocks)
      ensures Live() == old(Live()) + {blk} && PayloadsKept(old(Live()), old(blocks))
    {
      hide Word, Mirrors, WellFormed;
      SplitFacts(blocks, chain, freeList, hdr, base, brk, k, total);
      SplitLiveOf(blk, total, k);
      WriteSplit(blk, prev, total);
      forall b, i | b in old(Live()) && b in blocks && 0 <= i < mem.Length && b + HEADER <= base + i < b + blocks[b]
        ensures mem[i] == old(mem[i])
      {
        HeadersMiss(blocks, chain, old(freeList), old(hdr), base, brk, blk, blk, b, base + i);
        HeadersMiss(blocks, chain, old(freeList), old(hdr), base, brk, blk, blk + total, b, base + i);
        if prev != 0 { HeadersMiss(blocks, chain, old(freeList), old(hdr), base, brk, prev, prev, b, base + i); }
      }
      SplitKeeps(blocks, chain, old(freeList), old(hdr), base, brk, k, total, freeList, hdr);
      blocks := blocks[blk := total][blk + total := blocks[blk] - total];
      chain := chain[k := blk + total];
    }

    lemma SplitLiveOf(blk: nat, total: nat, k: nat)
      requires Valid() && k < |chain| && chain[k] == blk && blk in blocks
      requires total >= MIN_BLOCK && blocks[blk] >= total + MIN_BLOCK
      ensures blk + total !in blocks && base >= HEADER && Holds(blocks, blk, blk) && Holds(blocks, blk, blk + total)
      ensures Before(chain, k) != 0 ==> Holds(blocks, Before(chain, k), Before(chain, k))
      ensures blk !in Live() && (Before(chain, k) != 0 ==> Before(chain, k) !in Live())
      ensures LiveSet(blocks[blk := total][blk + total := blocks[blk] - total], chain[k := blk + total]) ==
                Live() + {blk}
    {
      hide Word, Mirrors, Tiles, Aligned, Consistent, Linked, LiveSet;
      SplitFresh(blocks, base, brk, blk, total);
      FreeFacts(blocks, chain, freeList, hdr, base, brk, k);
      SplitLiveWF(blocks, chain, freeList, hdr, base, brk, k, total);
    }

    /** Serves a request from the whole of the free block `blk`. */
    method DetachBlock(blk: nat, prev: nat, ghost k: nat)
      requires Valid() && k < |chain| && chain[k] == blk && prev == Before(chain, k) && prev < U64
      modifies this`freeList, this`chain, this`hdr, mem
      ensures Valid() && chain == old(chain)[..k] + old(chain)[k + 1..]
      ensures Live() == old(Live()) + {blk} && PayloadsKept(old(Live()), blocks)
    {
      hide Word, Mirrors, WellFormed;
      FreeFacts(blocks, chain, freeList, hdr, base, brk, k);
      DetachFactsOf(k);
      var next := ReadNext(blk);
      LinkFrom(prev, next);
      MarkUsed(blk);
      forall b, i | b in old(Live()) && b in blocks && 0 <= i < mem.Length && b + HEADER <= base + i < b + blocks[b]
        ensures mem[i] == old(mem[i])
      {
        HeadersMiss(blocks, chain, old(freeList), old(hdr), base, brk, blk, blk, b, base + i);
        if prev != 0 { HeadersMiss(blocks, chain, old(freeList), old(hdr), base, brk, prev, prev, b, base + i); }
      }
      DetachKeeps(blocks, chain, old(freeList), old(hdr), base, brk, k, freeList, hdr);
      chain := chain[..k] + chain[k + 1..];
    }

    lemma DetachFactsOf(k: nat)
      requires WellFormed(blocks, chain, freeList, hdr, base, brk) && k < |chain|
      ensures Before(chain, k) != 0 ==> Before(chain, k) in hdr && Before(chain, k) != chain[k]
      ensures Before(chain, k) != 0 ==> Holds(blocks, Before(chain, k), Before(chain, k))
      ensures Holds(blocks, chain[k], chain[k]) && base >= HEADER && Before(chain, k) !in Live()
      ensures LiveSet(blocks, chain[..k] + chain[k + 1..]) == Live() + {chain[k]}
    {
      LinkedFacts(chain, freeList, hdr, k);
      FreeFacts(blocks, chain, freeList, hdr, base, brk, k);
      DetachLive(blocks, chain, k);
    }

    /**
     The size of a block goes to `sbrk` as a signed number. From 2^63 on it is negative, and the kernel refuses it
     unless it is so close to zero that the region would only shrink.
     */
    predicate GrowsOrFails(total: nat)
      reads this`brk
    {
      total < U63 || brk - base < U64 - total
    }

    /** Requests that do not wrap, and for which the kernel does not take back part of the region. */
    predicate Serves(size: nat)
      reads this`brk
    {
      size <= U64 - 32 && GrowsOrFails(Total(size))
    }

    /** `request_more`: a free-standing block at the old end of the region. */
    method RequestMore(total: nat) returns (blk: nat)
      requires Valid() && total % 2 == 0 && HEADER <= total < U64 && GrowsOrFails(total)
      modifies this`brk, this`hdr, mem
      ensures blk == 0 ==> brk == old(brk) && hdr == old(hdr) && mem[..] == old(mem[..])
      ensures blk != 0 ==> blk == old(brk) && brk == old(brk) + total <= limit && total < U63
      ensures blk != 0 ==> hdr == old(hdr)[blk := Header(total + 1, 0)] && BytesKept(blk)
      ensures Mirrors()
    {
      hide Word, Mirrors, WellFormed;
      var r := Sbrk(if total < U63 then total else total - U64);
      if r.None? {
        return 0;
      }
      blk := r.value;
      FreshBlock(blk);
      Carve(blk);
      SetSize(blk, total);
      var size, _ := ReadSize(blk);
      SetSize(blk, size + 1);
      SetNext(blk, 0);
    }

    lemma FreshBlock(end: nat)
      requires WellFormed(blocks, chain, freeList, hdr, base, end)
      ensures end > 0 && base <= end && forall g :: g in hdr ==> Apart(g, end)
    {
      forall g | g in hdr
        ensures Apart(g, end)
      {
        assert g in blocks;
      }
    }

    /** `remove_from_free_list`: unlinks `blk` if it is in the list. */
    method RemoveFromFreeList(blk: nat)
      requires Mirrors() && Linked(chain, freeList, hdr) && blk in hdr && blk > 0
      modifies this`freeList, this`chain, this`hdr, mem
      ensures Mirrors() && Linked(chain, freeList, hdr)
      ensures blk !in old(chain) ==> chain == old(chain) && freeList == old(freeList) && BytesKept(blk)
      ensures blk !in old(chain) ==> hdr == old(hdr)[blk := Header(old(hdr)[blk].size, 0)]
      ensures forall k :: 0 <= k < |old(chain)| && old(chain)[k] == blk ==>
                chain == old(chain)[..k] + old(chain)[k + 1..]
    {
      hide Word, Mirrors, Linked;
      if freeList == blk {
        Head(blk);
        freeList := ReadNext(blk);
        RemoveLinked(chain, old(freeList), hdr, 0, freeList, hdr);
        assert chain[..0] + chain[1..] == chain[1..];
        chain := chain[1..];
        return;
      }
      var prev := freeList;
      ghost var j := 0;
      Start();
      while prev != 0
        modifies {}
        invariant j <= |chain| && prev == (if j < |chain| then chain[j] else 0)
        invariant forall i :: 0 <= i <= j && i < |chain| ==> chain[i] != blk
        invariant j < |chain| ==> prev > 0 && prev in hdr
        decreases |chain| - j
      {
        LinkedFacts(chain, freeList, hdr, j);
        var next := ReadNext(prev);
        if next == blk { break; }
        if j + 1 < |chain| { LinkedFacts(chain, freeList, hdr, j + 1); }
        prev := next;
        j := j + 1;
      }
      if prev != 0 {
        LinkedFacts(chain, freeList, hdr, j);
        LinkedFacts(chain, freeList, hdr, j + 1);
        var next := ReadNext(blk);
        SetNext(prev, next);
        SetNext(blk, 0);
        UnlinkedAfter(chain, freeList, old(hdr), j, hdr);
        chain := chain[..j + 1] + chain[j + 2..];
      } else {
        SetNext(blk, 0);
        SameLinks(chain, freeList, old(hdr), hdr);
      }
    }

    lemma Head(blk: nat)
      requires Linked(chain, freeList, hdr) && freeList == blk > 0
      ensures chain != [] && chain[0] == blk
      ensures forall k :: 0 <= k < |chain| && chain[k] == blk ==> k == 0
      ensures forall h :: h in chain ==> h in hdr && h > 0
    {
    }

    lemma Start()
      requires Linked(chain, freeList, hdr)
      ensures freeList == if chain == [] then 0 else chain[0]
      ensures chain != [] ==> freeList > 0 && freeList in hdr
      ensures forall i, j :: 0 <= i < j < |chain| ==> chain[i] != chain[j]
      ensures forall h :: h in chain ==> h in hdr
    {
    }

    method AddToFreeList(blk: nat)
      requires Valid() && blk in Live()
      modifies this`freeList, this`chain, this`hdr, mem
      ensures Valid() && chain == [blk] + old(chain) && BytesKept(blk) && Live() == old(Live()) - {blk}
    {
      hide Word, Mirrors, WellFormed;
      LiveFacts(blk);
      var size, free := ReadSize(blk);
      SetSize(blk, size + 1);
      SetNext(blk, freeList);
      freeList := blk;
      FreeKeeps(blocks, chain, old(freeList), old(hdr), base, brk, blk, hdr);
      chain := [blk] + chain;
    }

    lemma LiveFacts(blk: nat)
      requires Valid() && blk in Live()
      ensures blk in hdr && blk in blocks && hdr[blk].size == blocks[blk] && blocks[blk] % 2 == 0
      ensures blocks[blk] >= MIN_BLOCK
      ensures base <= blk && blk % 16 == 0 && blk + blocks[blk] <= brk && freeList < U64
    {
      EvenSizes(blocks[blk]);
      if chain != [] { FreeFacts(blocks, chain, freeList, hdr, base, brk, 0); }
    }

    /** The payload pointer of a block in use. */
    ghost predicate Allocated(ptr: nat)
      reads this
    {
      ptr >= HEADER && ptr - HEADER in Live()
    }

    /** The walk of `malloc` along the list: the first block that fits, and the one before it. */
    method FindFit(total: nat) returns (blk: nat, prev: nat, ghost k: nat)
      requires Valid() && total % 2 == 0
      ensures blk != 0 ==> FirstFit(blocks, chain, total, k) && blk == chain[k] && prev == Before(chain, k)
      ensures blk != 0 ==> prev < U64
      ensures blk == 0 ==> forall j: nat :: !FirstFit(blocks, chain, total, j)
    {
      hide Word, Mirrors, WellFormed;
      blk, prev, k := freeList, 0, 0;
      StartOf();
      while blk != 0
        invariant k <= |chain| && blk == (if k < |chain| then chain[k] else 0)
        invariant k < |chain| ==> prev == Before(chain, k)
        invariant prev < U64
        invariant forall j :: 0 <= j < k ==> chain[j] in blocks && blocks[chain[j]] < total
        decreases |chain| - k
      {
        FreeFacts(blocks, chain, freeList, hdr, base, brk, k);
        var size, _ := ReadSize(blk);
        if size >= total {
          return;
        }
        prev := blk;
        blk := ReadNext(blk);
        k := k + 1;
      }
      if k < |chain| { FreeFacts(blocks, chain, freeList, hdr, base, brk, k); }
    }

    /** Splits the block found if the rest can be a block, and takes it whole otherwise. */
    method ServeFrom(blk: nat, prev: nat, total: nat, ghost k: nat)
      requires Valid() && FirstFit(blocks, chain, total, k) && blk == chain[k] && prev == Before(chain, k) && prev < U64
      requires total % 16 == 0 && total >= MIN_BLOCK
      modifies this`freeList, this`blocks, this`chain, this`hdr, mem
      ensures Valid() && blk in blocks && blocks[blk] >= total && blk % 16 == 0 && blk > 0
      ensures blk !in old(Live()) && Live() == old(Live()) + {blk}
      ensures SizesKept(old(Live()), old(blocks)) && PayloadsKept(old(Live()), old(blocks))
    {
      hide Word, Mirrors, WellFormed;
      FreeFacts(blocks, chain, freeList, hdr, base, brk, k);
      EvenSizes(total);
      var size, _ := ReadSize(blk);
      if size >= total + MIN_BLOCK {
        SplitBlock(blk, prev, total, k);
      } else {
        DetachBlock(blk, prev, k);
      }
    }

    /**
     First fit. A pointer that is returned is 16-aligned and owns at least `size` bytes of a block that was not in use;
     the bytes of every block that was in use are as before. NULL changes nothing.
     */
    method Malloc(size: nat) returns (ptr: nat)
      requires Valid() && Serves(size)
      modifies this`brk, this`freeList, this`blocks, this`chain, this`hdr, mem
      ensures Valid()
      ensures ptr == 0 ==> blocks == old(blocks) && chain == old(chain) && brk == old(brk) && mem[..] == old(mem[..])
      ensures ptr == 0 ==> size == 0 || forall k: nat :: !FirstFit(blocks, chain, Total(size), k)
      ensures ptr != 0 ==> size > 0 && Fits(ptr, size) && Served(old(Live()), Live(), ptr)
      ensures forall k: nat :: FirstFit(old(blocks), old(chain), Total(size), k) && size > 0 ==>
                ptr == old(chain)[k] + HEADER
      ensures SizesKept(old(Live()), old(blocks)) && PayloadsKept(old(Live()), old(blocks))
    {
      hide Word, Mirrors, WellFormed;
      if size == 0 {
        return 0;
      }
      TotalSuffices(size);
      var total := (size + HEADER + 15) % U64 / 16 * 16;
      if total < MIN_BLOCK {
        total := MIN_BLOCK;
      }
      EvenSizes(total);
      var blk, prev, k := FindFit(total);
      if blk != 0 {
        ServeFrom(blk, prev, total, k);
        ptr := blk + HEADER;
      } else {
        ptr := Extend(total);
      }
    }

    /** The block behind a payload pointer; NULL has none. */
    static ghost function BlockOf(ptr: nat): set<nat> {
      if ptr >= HEADER then {ptr - HEADER} else {}
    }

    static ghost predicate Served(before: set<nat>, after: set<nat>, ptr: nat) {
      ptr >= HEADER && ptr - HEADER !in before && after == before + {ptr - HEADER}
    }

    /** ptr is the aligned payload of a block that has room for `size` bytes. */
    ghost predicate Fits(ptr: nat, size: nat)
      reads this`blocks
    {
      ptr % 16 == 0 && ptr >= HEADER && ptr - HEADER in blocks && blocks[ptr - HEADER] >= size + HEADER
    }

    ghost predicate SizesKept(live: set<nat>, sizes: map<nat, nat>)
      reads this`blocks
    {
      forall b :: b in live ==> b in sizes && b in blocks && blocks[b] == sizes[b]
    }

    lemma StartOf()
      requires Valid()
      ensures freeList == if chain == [] then 0 else chain[0]
    {
    }

    /** The end of `malloc`: a new block from the kernel. */
    method Extend(total: nat) returns (ptr: nat)
      requires Valid() && total % 16 == 0 && MIN_BLOCK <= total < U64 && GrowsOrFails(total)
      modifies this`brk, this`freeList, this`blocks, this`chain, this`hdr, mem
      ensures Valid() && chain == old(chain)
      ensures ptr == 0 ==> blocks == old(blocks) && brk == old(brk) && mem[..] == old(mem[..])
      ensures ptr != 0 ==> ptr == old(brk) + HEADER && ptr % 16 == 0 && old(brk) !in old(blocks)
      ensures ptr != 0 ==> blocks == old(blocks)[old(brk) := total] && brk == old(brk) + total
      ensures ptr != 0 ==> Live() == old(Live()) + {old(brk)}
      ensures PayloadsKept(old(Live()), old(blocks))
    {
      hide Word, Mirrors, WellFormed;
      EvenSizes(total);
      var blk := RequestMore(total);
      if blk == 0 {
        return 0;
      }
      EndFacts(old(brk), old(hdr));
      RemoveFromFreeList(blk);
      var size, _ := ReadSize(blk);
      SetSize(blk, size);
      GrowKeeps(blocks, chain, freeList, old(hdr), base, old(brk), total, hdr);
      blocks := blocks[blk := total];
      return blk + HEADER;
    }

    lemma EndFacts(end: nat, was: map<nat, Header>)
      requires WellFormed(blocks, chain, freeList, was, base, end)
      requires end in hdr && forall h :: h in was ==> h in hdr && (h != end ==> hdr[h] == was[h])
      ensures end !in blocks && end !in was && end !in chain && end > 0 && Linked(chain, freeList, hdr)
      ensures forall b :: b in blocks ==> b + blocks[b] <= end
    {
      assert end !in blocks;
      SameLinks(chain, freeList, was, hdr);
    }

    method Free(ptr: nat)
      requires Valid() && (ptr == 0 || Allocated(ptr))
      modifies this`freeList, this`chain, this`hdr, mem
      ensures Valid() && blocks == old(blocks)
      ensures Live() == if ptr == 0 then old(Live()) else old(Live()) - {ptr - HEADER}
      ensures PayloadsKept(Live(), blocks)
    {
      hide Word, Mirrors, WellFormed;
      if ptr == 0 { return; }
      var blk := ptr - HEADER;
      LiveFacts(blk);
      AddToFreeList(blk);
      forall b, i | b in Live() && b in blocks && 0 <= i < mem.Length && b + HEADER <= base + i < b + blocks[b]
        ensures mem[i] == old(mem[i])
      {
        HeadersMiss(blocks, chain, freeList, hdr, base, brk, blk, blk, b, base + i);
      }
    }

    /** The n bytes from address p are payload of the block in use at `blk`. */
    ghost predicate Owns(blk: nat, p: nat, n: nat)
      reads this
    {
      blk in Live() && blk + HEADER <= p && p + n <= blk + blocks[blk]
    }

    /** Writing a payload byte of a block in use disturbs no header. */
    method SetByte(p: nat, v: byte, ghost blk: nat)
      requires Valid() && Owns(blk, p, 1) && base <= p < base + mem.Length
      modifies mem
      ensures Valid() && mem[p - base] == v
      ensures forall i :: 0 <= i < mem.Length && base + i != p ==> mem[i] == old(mem[i])
    {
      hide WellFormed, Word;
      ByteMissesHeaders(blk, p);
      WriteByte(mem, p - base, v);
      assert forall h :: h in hdr ==> InRegion(h) && SizeWord(h) == hdr[h].size && NextWord(h) == hdr[h].next;
    }

    lemma ByteMissesHeaders(blk: nat, p: nat)
      requires Valid() && Owns(blk, p, 1)
      ensures forall h :: h in hdr ==> p < h || h + HEADER <= p
    {
      forall h | h in hdr
        ensures p < h || h + HEADER <= p
      {
        HeaderMissesPayload(blocks, chain, freeList, hdr, base, brk, h, blk);
      }
    }

    method MemSet(p: nat, c: byte, n: nat, ghost blk: nat)
      requires Valid() && Owns(blk, p, n)
      modifies mem
      ensures Valid()
      ensures forall i :: 0 <= i < mem.Length ==> mem[i] == if p <= base + i < p + n then c else old(mem[i])
    {
      hide Word, WellFormed, Mirrors, LiveSet;
      LiveFacts(blk);
      var d := 0;
      while d < n
        invariant d <= n && Valid()
        invariant forall i :: 0 <= i < mem.Length ==> mem[i] == if p <= base + i < p + d then c else old(mem[i])
      {
        SetByte(p + d, c, blk);
        d := d + 1;
      }
    }

    method MemCpy(dst: nat, src: nat, n: nat, ghost to: nat, ghost from: nat)
      requires Valid() && Owns(to, dst, n) && Owns(from, src, n) && to != from
      modifies mem
      ensures Valid()
      ensures forall i :: 0 <= i < mem.Length ==>
                mem[i] == if dst <= base + i < dst + n then Source(old(mem[..]), base + i - dst + src) else old(mem[i])
    {
      hide Word, WellFormed, Mirrors, LiveSet;
      LiveFacts(to);
      LiveFacts(from);
      LiveApart(to, from);
      var d := 0;
      while d < n
        invariant d <= n && Valid()
        invariant forall i :: 0 <= i < mem.Length ==>
                    mem[i] == if dst <= base + i < dst + d then Source(old(mem[..]), base + i - dst + src)
                        else old(mem[i])
      {
        SetByte(dst + d, mem[src + d - base], to);
        d := d + 1;
      }
    }

    /** The byte at an address of a snapshot of the region. */
    ghost function Source(snapshot: seq<byte>, p: int): byte {
      if base <= p < base + |snapshot| then snapshot[p - base] else 0
    }

    lemma LiveApart(b: nat, c: nat)
      requires Valid() && b in blocks && c in blocks && b != c
      ensures b + blocks[b] <= c || c + blocks[c] <= b
    {
    }

    method Calloc(nmemb: nat, size: nat) returns (ptr: nat)
      requires Valid() && nmemb < U64 && size < U64
      requires Overflows(nmemb, size) || Serves(Product(nmemb, size))
      modifies this`brk, this`freeList, this`blocks, this`chain, this`hdr, mem
      ensures Valid()
      ensures Overflows(nmemb, size) ==> ptr == 0
      ensures ptr == 0 ==> blocks == old(blocks) && chain == old(chain) && brk == old(brk) && mem[..] == old(mem[..])
      ensures ptr != 0 ==> Fits(ptr, Product(nmemb, size)) && Served(old(Live()), Live(), ptr)
      ensures ptr != 0 ==> forall i :: 0 <= i < mem.Length && ptr <= base + i < ptr + Product(nmemb, size) ==>
                mem[i] == 0
      ensures SizesKept(old(Live()), old(blocks)) && PayloadsKept(old(Live()), old(blocks))
    {
      hide Word, WellFormed, Mirrors, FirstFit;
      if nmemb != 0 && size > (U64 - 1) / nmemb {
        return 0;
      }
      var total := Product(nmemb, size);
      ptr := Malloc(total);
      if ptr != 0 {
        ghost var blk := ptr - HEADER;
        assert blk in Live();
        MemSet(ptr, 0, total, blk);
        OthersMiss(old(Live()), old(blocks), blk);
      }
    }

    static function Product(nmemb: nat, size: nat): nat {
      nmemb * size
    }

    static predicate Overflows(nmemb: nat, size: nat) {
      nmemb != 0 && size > (U64 - 1) / nmemb
    }

    /** A block in use ends before or starts after every other block. */
    lemma OthersMiss(live: set<nat>, sizes: map<nat, nat>, blk: nat)
      requires Valid() && SizesKept(live, sizes) && blk in blocks && blk !in live
      ensures forall b :: b in live ==> b + sizes[b] <= blk || blk + blocks[blk] <= b
    {
      forall b | b in live
        ensures b + sizes[b] <= blk || blk + blocks[blk] <= b
      {
        LiveApart(b, blk);
      }
    }

    /**
     `realloc`: a block that is too small is replaced by a new one that starts with the old payload's bytes.
     Every other block in use keeps its bytes, and a failed request keeps the old block.
     */
    method Realloc(ptr: nat, size: nat) returns (r: nat)
      requires Valid() && (ptr == 0 || Allocated(ptr)) && Serves(size)
      modifies this`brk, this`freeList, this`blocks, this`chain, this`hdr, mem
      ensures Valid()
      ensures ptr == 0 && r != 0 ==> Fits(r, size) && Served(old(Live()), Live(), r)
      ensures ptr != 0 && size == 0 ==> r == 0 && Live() == old(Live()) - BlockOf(ptr)
      ensures r == 0 && (ptr == 0 || size > 0) ==> Live() == old(Live())
      ensures ptr != 0 && size > 0 && Fits(ptr, size) && r == ptr ==> mem[..] == old(mem[..]) && Live() == old(Live())
      ensures ptr != 0 && r != 0 && r != ptr ==> Fits(r, size) && Served(old(Live()), Live() + BlockOf(ptr), r)
      ensures ptr != 0 && r != 0 && r != ptr ==> ptr - HEADER !in Live()
      ensures ptr != 0 && r != 0 && r != ptr ==> CopiedFrom(old(mem[..]), r, ptr, old(CapacityOf(ptr)))
      ensures ptr != 0 && r == ptr ==> Fits(ptr, size)
      ensures ptr != 0 && size > 0 && old(Fits(ptr, size)) ==> r == ptr
      ensures SizesKept(old(Live()), old(blocks))
      ensures PayloadsKept(old(Live()) - BlockOf(ptr), old(blocks))
    {
      hide Word, WellFormed, Mirrors, FirstFit;
      if ptr == 0 {
        r := Malloc(size);
        return;
      }
      if size == 0 {
        Free(ptr);
        return 0;
      }
      ghost var blk := ptr - HEADER;
      LiveFacts(blk);
      var blkSize, _ := ReadSize(ptr - HEADER);
      var oldPayload := blkSize - HEADER;
      if size <= oldPayload {
        return ptr;
      }
      r := Malloc(size);
      if r == 0 {
        return;
      }
      ghost var newBlk := r - HEADER;
      OthersMiss(old(Live()), old(blocks), newBlk);
      MemCpy(r, ptr, oldPayload, newBlk, blk);
      assert CopiedFrom(old(mem[..]), r, ptr, oldPayload);
      label Copied:
      Free(ptr);
      assert forall i {:trigger mem[i]} ::
          0 <= i < mem.Length && r <= base + i < r + oldPayload ==> mem[i] == old@Copied(mem[i]);
    }

    ghost function CapacityOf(ptr: nat): nat
      reads this`blocks
    {
      if ptr >= HEADER && ptr - HEADER in blocks && blocks[ptr - HEADER] >= HEADER then blocks[ptr - HEADER] - HEADER
          else 0
    }

    /** The n bytes at `to` are those a snapshot of the region had at `from`. */
    ghost predicate CopiedFrom(snapshot: seq<byte>, to: nat, from: nat, n: nat)
      reads mem
    {
      forall i :: 0 <= i < mem.Length && to <= base + i < to + n ==> mem[i] == Source(snapshot, base + i - to + from)
    }
  }
}
