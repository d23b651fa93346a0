/** The page allocator (src/kernel/page.rs): a bitmap of at most 4096 pages and a count of the free ones. */
module Pages {
  import opened Wrappers
  import opened Words

  const PAGE_SIZE: nat := 4096
  const BITMAP_SIZE: nat := 64
  const MAX_PAGES: nat := 4096

  // ---- Bits of the map ----

  /** 1 << b. */
  function Mask(b: nat): bv64 {
    if b == 0 then 1 else Mask(b - 1) << 1
  }

  function And(w: bv64, m: bv64): bv64 {
    w & m
  }

  function With(w: bv64, m: bv64): bv64 {
    w | m
  }

  function Without(w: bv64, m: bv64): bv64 {
    w & !m
  }

  predicate TestBit(w: bv64, b: nat) {
    And(w, Mask(b)) != 0
  }

  function SetBit(w: bv64, b: nat): bv64 {
    With(w, Mask(b))
  }

  function ClearBit(w: bv64, b: nat): bv64 {
    Without(w, Mask(b))
  }

  lemma ShiftApart(m: bv64, n: bv64)
    requires And(m, n) == 0
    ensures And(m << 1, n << 1) == 0
  {
  }

  lemma OddApart(m: bv64)
    ensures And(1, m << 1) == 0
  {
  }

  lemma {:induction false} MasksApart(b: nat, c: nat)
    requires b < c
    ensures And(Mask(b), Mask(c)) == 0
  {
    hide And;
    if b == 0 {
      OddApart(Mask(c - 1));
    } else {
      MasksApart(b - 1, c - 1);
      ShiftApart(Mask(b - 1), Mask(c - 1));
    }
  }

  function Doubled(m: bv64, k: nat): bv64 {
    if k == 0 then m else Doubled(m, k - 1) << 1
  }

  lemma {:induction false} MaskDoubled(b: nat, k: nat)
    ensures Doubled(Mask(b), k) == Mask(b + k)
  {
    if k > 0 { MaskDoubled(b, k - 1); }
  }

  lemma {:induction false} ZeroDoubled(k: nat)
    ensures Doubled(0, k) == 0
  {
    if k > 0 { ZeroDoubled(k - 1); }
  }

  lemma TopMask()
    ensures Mask(63) == 0x8000_0000_0000_0000
  {
    MaskDoubled(7, 7);
    MaskDoubled(14, 7);
    MaskDoubled(21, 7);
    MaskDoubled(28, 7);
    MaskDoubled(35, 7);
    MaskDoubled(42, 7);
    MaskDoubled(49, 7);
    MaskDoubled(56, 7);
    assert Mask(7) == 0x80;
    assert Mask(14) == 0x4000;
    assert Mask(21) == 0x20_0000;
    assert Mask(28) == 0x1000_0000;
    assert Mask(35) == 0x8_0000_0000;
    assert Mask(42) == 0x400_0000_0000;
    assert Mask(49) == 0x2_0000_0000_0000;
    assert Mask(56) == 0x100_0000_0000_0000;
  }

  /** The bit of a 64-bit word is not shifted out of it. */
  lemma MaskNotZero(b: nat)
    requires b < 64
    ensures Mask(b) != 0
  {
    hide Mask;
    TopMask();
    MaskDoubled(b, 63 - b);
    ZeroDoubled(63 - b);
  }

  lemma OtherSet(w: bv64, m: bv64, n: bv64)
    requires And(m, n) == 0
    ensures And(With(w, m), n) == And(w, n)
  {
  }

  lemma OtherCleared(w: bv64, m: bv64, n: bv64)
    requires And(m, n) == 0
    ensures And(Without(w, m), n) == And(w, n)
  {
  }

  lemma SameMasks(m: bv64, n: bv64)
    ensures And(m, n) == And(n, m)
  {
  }

  lemma OwnBit(w: bv64, m: bv64)
    ensures And(With(w, m), m) == m && And(Without(w, m), m) == 0
  {
  }

  /** Setting or clearing a bit changes that bit and no other. */
  lemma BitLaws(w: bv64, b: nat, c: nat)
    requires b < 64 && c < 64
    ensures TestBit(SetBit(w, b), c) == (b == c || TestBit(w, c))
    ensures TestBit(ClearBit(w, b), c) == (b != c && TestBit(w, c))
  {
    hide Mask, And, With, Without;
    if b == c {
      MaskNotZero(b);
      OwnBit(w, Mask(b));
    } else {
      if b < c { MasksApart(b, c); } else { MasksApart(c, b); }
      SameMasks(Mask(b), Mask(c));
      OtherSet(w, Mask(b), Mask(c));
      OtherCleared(w, Mask(b), Mask(c));
    }
  }

  /** Page i is free: its bit is clear. */
  predicate Clear(bitmap: seq<bv64>, i: nat)
    requires |bitmap| == BITMAP_SIZE && i < MAX_PAGES
  {
    !TestBit(bitmap[i / 64], i % 64)
  }

  /** Changing the bit of page i changes what the map says of page i, and of no other. */
  lemma BitChanged(bitmap: seq<bv64>, i: nat, j: nat)
    requires |bitmap| == BITMAP_SIZE && i < MAX_PAGES && j < MAX_PAGES
    ensures Clear(bitmap[i / 64 := SetBit(bitmap[i / 64], i % 64)], j) == (j != i && Clear(bitmap, j))
    ensures Clear(bitmap[i / 64 := ClearBit(bitmap[i / 64], i % 64)], j) == (j == i || Clear(bitmap, j))
  {
    hide TestBit, SetBit, ClearBit;
    BitLaws(bitmap[i / 64], i % 64, j % 64);
    assert i == j <==> i / 64 == j / 64 && i % 64 == j % 64;
  }

  class PageAllocator {
    const bitmap: array<bv64>
    const totalPages: nat
    const startAddr: nat
    var freePages: nat
    ghost var free: set<nat>       // the indices of the free pages

    ghost predicate Mirrors()
      reads bitmap, this`free
    {
      && bitmap.Length == BITMAP_SIZE && totalPages <= MAX_PAGES
      && (forall i {:trigger i in free} :: i in free ==> i < totalPages)
      && (forall i {:trigger Clear(bitmap[..], i)} :: 0 <= i < totalPages ==> (i in free <==> Clear(bitmap[..], i)))
    }

    /** The count is right. */
    ghost predicate Valid()
      reads this, bitmap
    {
      Mirrors() && freePages == |free| && startAddr % PAGE_SIZE == 0
    }

    function PageAddr(i: nat): nat {
      startAddr + i * PAGE_SIZE
    }

    /** The addresses of the free pages. */
    ghost function FreeAddrs(): set<nat>
      reads this`free
    {
      set i | i in free :: PageAddr(i)
    }

    constructor (start: nat, pages: nat)
      requires start % PAGE_SIZE == 0
      ensures Valid() && fresh(bitmap) && startAddr == start && totalPages == Capped(pages)
      ensures free == FirstPages(totalPages)
    {
      bitmap := new bv64[BITMAP_SIZE](_ => 0);
      totalPages := Capped(pages);
      freePages := Capped(pages);
      startAddr := start;
      free := FirstPages(Capped(pages));
      new;
      hide Mirrors, FirstPages;
      AllFree();
    }

    lemma AllFree()
      requires bitmap.Length == BITMAP_SIZE && totalPages <= MAX_PAGES && free == FirstPages(totalPages)
      requires forall k :: 0 <= k < BITMAP_SIZE ==> bitmap[k] == 0
      ensures Mirrors()
    {
      hide Clear, FirstPages;
      AllClear(bitmap[..]);
    }

    ghost predicate TookLowest(was: set<nat>, now: set<nat>, addr: nat) {
      Owns(addr) && addr == PageAddr(PageIndex(addr)) && PageIndex(addr) in was && now == was - {PageIndex(addr)}
      && forall j {:trigger j in was} :: j in was ==> PageIndex(addr) <= j
    }

    lemma AddrIndex(i: nat)
      requires i < totalPages
      ensures Owns(PageAddr(i)) && PageIndex(PageAddr(i)) == i
    {
    }

    /** The free page with the lowest address. */
    method Alloc() returns (r: Option<nat>)
      requires Valid()
      modifies this, bitmap
      ensures Valid() && (r.None? <==> old(free) == {})
      ensures r.None? ==> free == old(free) && FreeAddrs() == old(FreeAddrs()) == {}
      ensures r.Some? ==> IsPage(r.value) && r.value in old(FreeAddrs()) && FreeAddrs() == old(FreeAddrs()) - {r.value}
      ensures r.Some? ==> TookLowest(old(free), free, r.value)
    {
      hide Clear, TestBit, SetBit, ClearBit;
      if freePages == 0 {
        return None;
      }
      for i := 0 to totalPages
        invariant Valid() && free == old(free) && forall j :: 0 <= j < i ==> j !in free
      {
        var wordIdx, bitIdx := i / 64, i % 64;
        BitIs(bitmap[..], i);
        if !TestBit(bitmap[wordIdx], bitIdx) {
          BitsChanged(bitmap[..], i);
          bitmap[wordIdx] := SetBit(bitmap[wordIdx], bitIdx);
          freePages := freePages - 1;
          free := free - {i};
          AddrIndex(i);
          return Some(startAddr + i * PAGE_SIZE);
        }
      }
      NoneIn(free, totalPages);
      return None;
    }

    /** A page that is not the allocator's is ignored, and so is one that is free already. */
    method Free(addr: nat)
      requires Valid()
      modifies this, bitmap
      ensures Valid()
      ensures free == if Owns(addr) then old(free) + {PageIndex(addr)} else old(free)
      ensures IsPage(addr) ==> FreeAddrs() == old(FreeAddrs()) + {addr}
    {
      hide Clear, TestBit, SetBit, ClearBit;
      if addr < startAddr || addr >= startAddr + totalPages * PAGE_SIZE {
        return;
      }
      var pageIdx := (addr - startAddr) / PAGE_SIZE;
      IndexBound(addr);
      var wordIdx, bitIdx := pageIdx / 64, pageIdx % 64;
      BitIs(bitmap[..], pageIdx);
      if TestBit(bitmap[wordIdx], bitIdx) {
        BitsChanged(bitmap[..], pageIdx);
        bitmap[wordIdx] := ClearBit(bitmap[wordIdx], bitIdx);
        freePages := freePages + 1;
        free := free + {pageIdx};
      } else {
        assert free + {pageIdx} == free;
      }
    }

    /** The address of one of the allocator's pages. */
    predicate IsPage(addr: nat) {
      Owns(addr) && addr == PageAddr(PageIndex(addr))
    }

    predicate Owns(addr: nat) {
      startAddr <= addr < startAddr + totalPages * PAGE_SIZE
    }

    function PageIndex(addr: nat): nat
      requires Owns(addr)
    {
      (addr - startAddr) / PAGE_SIZE
    }

    lemma IndexBound(addr: nat)
      requires Owns(addr)
      ensures PageIndex(addr) < totalPages
    {
    }
  }

  /** The map covers no more than 4096 pages. */
  function Capped(pages: nat): nat {
    if pages <= MAX_PAGES then pages else MAX_PAGES
  }

  lemma AllClear(bitmap: seq<bv64>)
    requires |bitmap| == BITMAP_SIZE && forall k :: 0 <= k < BITMAP_SIZE ==> bitmap[k] == 0
    ensures forall i {:trigger Clear(bitmap, i)} :: 0 <= i < MAX_PAGES ==> Clear(bitmap, i)
  {
    hide Mask, And;
    forall i | 0 <= i < MAX_PAGES
      ensures Clear(bitmap, i)
    {
      AndZero(Mask(i % 64));
    }
  }

  lemma AndZero(m: bv64)
    ensures And(0, m) == 0
  {
  }

  ghost function FirstPages(n: nat): (s: set<nat>)
    ensures |s| == n && forall i :: i in s <==> 0 <= i < n
  {
    if n == 0 then {} else FirstPages(n - 1) + {n - 1}
  }

  lemma BitIs(bitmap: seq<bv64>, i: nat)
    requires |bitmap| == BITMAP_SIZE && i < MAX_PAGES
    ensures i / 64 < BITMAP_SIZE && Clear(bitmap, i) == !TestBit(bitmap[i / 64], i % 64)
  {
  }

  lemma BitsChanged(bitmap: seq<bv64>, i: nat)
    requires |bitmap| == BITMAP_SIZE && i < MAX_PAGES
    ensures var now := bitmap[i / 64 := SetBit(bitmap[i / 64], i % 64)];
            forall j {:trigger Clear(now, j)} :: 0 <= j < MAX_PAGES ==> Clear(now, j) == (j != i && Clear(bitmap, j))
    ensures var now := bitmap[i / 64 := ClearBit(bitmap[i / 64], i % 64)];
            forall j {:trigger Clear(now, j)} :: 0 <= j < MAX_PAGES ==> Clear(now, j) == (j == i || Clear(bitmap, j))
  {
    hide Clear, SetBit, ClearBit;
    var set_ := bitmap[i / 64 := SetBit(bitmap[i / 64], i % 64)];
    var cleared := bitmap[i / 64 := ClearBit(bitmap[i / 64], i % 64)];
    forall j {:trigger Clear(set_, j)} {:trigger Clear(cleared, j)} | 0 <= j < MAX_PAGES
      ensures Clear(set_, j) == (j != i && Clear(bitmap, j)) && Clear(cleared, j) == (j == i || Clear(bitmap, j))
    {
      BitChanged(bitmap, i, j);
    }
  }

  lemma NoneIn(s: set<nat>, n: nat)
    requires (forall i {:trigger i in s} :: i in s ==> i < n) && forall j :: 0 <= j < n ==> j !in s
    ensures s == {}
  {
  }
}
