/**
 What loading a program does (src/kernel/exec.rs): the pages of its segments, its stack, and the task it becomes.
 */
module Programs {
  import opened Wrappers
  import opened Words
  import opened Pages
  import opened PageTables
  import opened Mmu
  import opened Ownership
  import opened Memories
  import opened Elf
  import opened Placement
  import opened HeapMoves
  import opened Teardown
  import opened Duplication

  // ---- Loading a program ----

  /** The record being loaded has the range that the program's segments span, and nothing yet behind it. */
  ghost predicate LoadFrame(c: Space, file: seq<byte>)
    requires Verified(file)
  {
    && Layout(c) && c.heapEnd == c.heapBase && c.userStack == 0 && c.kernelStack == 0 && c.imageBase % PAGE_SIZE == 0
    && forall i {:trigger SegmentAt(file, i)} :: 0 <= i < Phnum(file) && Loadable(SegmentAt(file, i)) ==>
         c.imageBase <= SegStart(SegmentAt(file, i)) && SegEnd(SegmentAt(file, i)) <= c.heapBase
  }

  function SegPageAt(g: Segment, j: nat): nat {
    SegStart(g) + j * PAGE_SIZE
  }

  /** Page j of segment i is the task's own, with the segment's flags and the bytes the file gives it. */
  ghost predicate Loaded(w: World, b: Bytes, id: nat, file: seq<byte>, i: nat, j: nat)
    requires HasTree(w, id) && Verified(file) && i < Phnum(file)
  {
    var g := SegmentAt(file, i);
    var v := VpnOf(SegPageAt(g, j));
    var pa := PteToPa(Leaf(w, id, v));
    Readable(file, g) && Own(w, id, v) && Leaf(w, id, v) == PaToPte(pa, SegFlags(g) + PTE_V) && pa in b
        && IsSegmentPage(b[pa], file, g, SegPageAt(g, j))
  }

  /** Page jj of segment ii comes before page j of segment i. */
  predicate Before(file: seq<byte>, ii: nat, jj: nat, i: nat, j: nat)
    requires Verified(file)
  {
    ii < Phnum(file) && Loadable(SegmentAt(file, ii)) && jj < SegPages(SegmentAt(file, ii))
        && (ii < i || (ii == i && jj < j))
  }

  ghost function SegVpn(file: seq<byte>, i: nat, j: nat): (v: Vpn)
    requires Verified(file) && i < Phnum(file)
    ensures v.v0 < ENTRIES
  {
    VpnOf(SegPageAt(SegmentAt(file, i), j))
  }

  /** Page j of segment i is to be loaded. */
  predicate Wanted(file: seq<byte>, i: nat, j: nat)
    requires Verified(file)
  {
    i < Phnum(file) && Loadable(SegmentAt(file, i)) && j < SegPages(SegmentAt(file, i))
  }

  /** No page of a segment is a device's, and no two pages of segments are the same. */
  ghost predicate Untangled(file: seq<byte>)
    requires Verified(file)
  {
    forall i, j {:trigger SegVpn(file, i, j)} :: 0 <= i && 0 <= j && Wanted(file, i, j) ==>
      && !IsDevice(SegVpn(file, i, j))
      && forall ii, jj {:trigger Before(file, ii, jj, i, j)} ::
           0 <= ii && 0 <= jj && Before(file, ii, jj, i, j) ==> SegVpn(file, ii, jj) != SegVpn(file, i, j)
  }

  /** A program that can be loaded, as far as the file goes. */
  ghost predicate WellMade(file: seq<byte>) {
    && Verified(file) && ImageStart(file, Phnum(file)) != USIZE_MAX && Untangled(file)
    && forall i {:trigger SegmentAt(file, i)} :: 0 <= i < Phnum(file) && Loadable(SegmentAt(file, i)) ==>
        Readable(file, SegmentAt(file, i))
  }

  /** What is mapped is the kernel's, or a page that has been loaded. */
  ghost predicate KernelOrLoaded(w: World, id: nat, file: seq<byte>, i: nat, j: nat)
    requires Verified(file)
  {
    && HasTree(w, id)
    && forall u: Vpn {:trigger Leaf(w, id, u)} ::
         u.v0 < ENTRIES && VpnOk(u) && IsValid(Leaf(w, id, u)) ==> u in KernelPages() || LoadedAt(file, i, j, u)
  }

  ghost predicate LoadedAt(file: seq<byte>, i: nat, j: nat, u: Vpn)
    requires Verified(file)
  {
    exists ii, jj {:trigger Before(file, ii, jj, i, j)} :: 0 <= ii && 0 <= jj && Before(file, ii, jj, i, j)
        && u == SegVpn(file, ii, jj)
  }

  /** The segments before i, and of segment i the pages before j, have been loaded. */
  ghost predicate Loading(w0: World, b0: Bytes, w: World, b: Bytes, id: nat, file: seq<byte>, c: Space, i: nat, j: nat)
    requires Verified(file)
  {
    && OnlyTask(w0, w, id) && id in w.spaces && w.spaces[id] == c && w.spaces == w0.spaces[id := c]
        && InHand(w) == InHand(w0)
    && UsedSame(w0, b0, b) && w.free <= w0.free && HasTree(w, id)
        && (forall pa {:trigger pa in w0.uses} :: pa in w0.uses ==> pa in w.uses)
    && (forall ii, jj {:trigger Loaded(w, b, id, file, ii, jj)} :: 0 <= ii && 0 <= jj && Before(file, ii, jj, i, j) ==>
        Loaded(w, b, id, file, ii, jj))
    && (forall ii {:trigger SegmentAt(file, ii)} ::
          0 <= ii < i && ii < Phnum(file) && Loadable(SegmentAt(file, ii)) ==> Readable(file, SegmentAt(file, ii)))
    && KernelOrLoaded(w, id, file, i, j) && KernelThere(w, id)
  }

  /** All of the program is in memory. */
  ghost predicate AllLoaded(w: World, b: Bytes, id: nat, file: seq<byte>) {
    && HasTree(w, id) && Verified(file)
    && forall i, j {:trigger Loaded(w, b, id, file, i, j)} ::
         0 <= i < Phnum(file) && 0 <= j && Loadable(SegmentAt(file, i)) && j < SegPages(SegmentAt(file, i)) ==>
           Loaded(w, b, id, file, i, j)
  }

  datatype Image = Image(root: nat, userStack: nat, entry: nat, imageBase: nat, imageSize: nat)

  function SpaceOf(m: Image): Space {
    Space(m.root, 0, m.userStack, m.imageBase, m.imageSize, m.imageBase + m.imageSize, m.imageBase + m.imageSize)
  }

  /** The image has everything of the program, a zeroed stack and the entry point and range that the file says. */
  ghost predicate ImageLoaded(w: World, b: Bytes, m: Image, file: seq<byte>) {
    && m.root in w.spaces && w.spaces[m.root] == SpaceOf(m) && m.userStack != 0 && AllLoaded(w, b, m.root, file)
    && m.userStack in b && b[m.userStack] == Zeros(PAGE_SIZE) && ImageStart(file, Phnum(file)) != USIZE_MAX
    && KernelThere(w, m.root)
    && m.entry == Number(file, 24, 8) && m.imageBase == ImageStart(file, Phnum(file))
        && m.imageBase + m.imageSize == ImageEnd(file, Phnum(file))
  }

  /** A task that has just got the program: its memory is the file's, its heap is empty, its stack is zero. */
  ghost predicate Runs(w: World, b: Bytes, id: nat, entry: nat, file: seq<byte>) {
    && id in w.spaces && AllLoaded(w, b, id, file) && KernelThere(w, id) && entry == Number(file, 24, 8)
    && w.spaces[id].imageBase == ImageStart(file, Phnum(file))
        && w.spaces[id].heapBase == ImageEnd(file, Phnum(file)) == w.spaces[id].heapEnd
    && w.spaces[id].userStack in b && b[w.spaces[id].userStack] == Zeros(PAGE_SIZE)
  }

  lemma LoadingParts(w0: World, b0: Bytes, w: World, b: Bytes, id: nat, file: seq<byte>, c: Space, i: nat, j: nat)
    requires Verified(file) && Loading(w0, b0, w, b, id, file, c, i, j)
    ensures OnlyTask(w0, w, id) && id in w.spaces && w.spaces[id] == c && w.spaces == w0.spaces[id := c]
    ensures InHand(w) == InHand(w0) && UsedSame(w0, b0, b)
    ensures w.free <= w0.free && Attempt(w0, b0, w, b, id) && HasTree(w, id) && UsesGrow(w0, w) && KernelThere(w, id)
  {
    hide OnlyTask, TreeOk, UsedSame, Verified, SegmentAt, KernelThere;
  }

  lemma LoadingNone(w: World, b: Bytes, id: nat, file: seq<byte>, c: Space)
    requires WorldOk(w) && Verified(file) && id in w.spaces && w.spaces[id] == c && MapsKernel(w, id, KernelPages())
    ensures Loading(w, b, w, b, id, file, c, 0, 0)
  {
    hide TreeOk, WorldOk, Verified, SegmentAt, KernelPages, IsValid, LeafAt;
    FreeParts(w);
    OnlyFree(w, w, id);
    TreeThere(w, id);
    UsedSameSelf(w, b);
    KernelIsThere(w, id);
    assert w.spaces == w.spaces[id := c];
  }

  lemma PageSize(page: seq<byte>, file: seq<byte>, g: Segment, va: nat)
    requires Readable(file, g) && IsSegmentPage(page, file, g, va)
    ensures |page| == PAGE_SIZE
  {
  }

  lemma LoadTaken(w0: World, b0: Bytes, w: World, w': World, b: Bytes, id: nat, file: seq<byte>, c: Space, i: nat,
          j: nat)
    requires WorldOk(w) && Verified(file) && Loading(w0, b0, w, b, id, file, c, i, j) && w' == w.(free := w'.free)
    requires w'.free <= w.free
    ensures Attempt(w0, b0, w', b, id)
  {
    hide OnlyTask, TreeOk, UsedSame, Verified, SegmentAt, WorldOk;
    FreeParts(w);
    OnlyFree(w, w', id);
    OnlyBoth(w0, w, w', id);
  }

  /** Where a page of a segment goes. */
  lemma SegPagePlace(file: seq<byte>, c: Space, i: nat, j: nat)
    requires Verified(file) && Fits(file) && i < Phnum(file) && Loadable(SegmentAt(file, i)) && LoadFrame(c, file)
    requires j < SegPages(SegmentAt(file, i))
    ensures var va := SegPageAt(SegmentAt(file, i), j);
            && va % PAGE_SIZE == 0 && VpnOk(VpnOf(va)) && AddrOf(VpnOf(va)) == va && InUser(c, VpnOf(va))
                && !InHeap(c, VpnOf(va))
    ensures IsLeaf(SegFlags(SegmentAt(file, i)))
  {
    hide Verified, AddrOf, VpnOf, IsLeaf, SegFlags;
    var g := SegmentAt(file, i);
    assert MayLoad(g);
    SegInside(g, j, c);
    AddrIndices(SegPageAt(g, j));
  }

  lemma SegInside(g: Segment, j: nat, c: Space)
    requires j < SegPages(g) && c.imageBase <= SegStart(g) && SegEnd(g) <= c.heapBase && c.imageBase % PAGE_SIZE == 0
    requires Layout(c) && c.heapEnd == c.heapBase
    ensures var va := SegPageAt(g, j);
            && va % PAGE_SIZE == 0 && AlignDown(c.imageBase) <= va < MappedEnd(c)
            && va < c.heapBase && MappedEnd(c) == c.heapBase && va < VA_LIMIT
  {
    SegSpan(g);
    assert (j + 1) * PAGE_SIZE <= SegPages(g) * PAGE_SIZE;
  }

  lemma LoadPlace(w: World, file: seq<byte>, c: Space, i: nat, j: nat, id: nat, p: nat)
    requires Verified(file) && Fits(file) && i < Phnum(file) && Loadable(SegmentAt(file, i)) && LoadFrame(c, file)
    requires j < SegPages(SegmentAt(file, i))
    requires id in w.spaces && w.spaces[id] == c
    ensures var va := SegPageAt(SegmentAt(file, i), j);
            va % PAGE_SIZE == 0 && Placeable(w, id, VpnOf(va), c, Data(VpnOf(va)), p, SegFlags(SegmentAt(file, i)))
                && IsLeaf(SegFlags(SegmentAt(file, i)))
  {
    hide Verified, AddrOf, VpnOf, IsLeaf, SegFlags, InUser, InHeap, OneFurther, LoadFrame, Fits, SegmentAt;
    SegPagePlace(file, c, i, j);
  }

  lemma SegFlagsValid(g: Segment)
    ensures SetValid(SegFlags(g)) == SegFlags(g) + PTE_V && SegFlags(g) + PTE_V < FLAGS
  {
  }

  /** A page that is loaded stays so while another is mapped. */
  lemma LoadedStays(w: World, b: Bytes, taken: World, w': World, b': Bytes, id: nat, file: seq<byte>, i: nat, j: nat,
          u: Vpn, p: nat, pte: nat)
    requires WorldOk(w) && Verified(file) && i < Phnum(file) && HasTree(w, id) && Loaded(w, b, id, file, i, j)
    requires InUser(w.spaces[id], VpnOf(SegPageAt(SegmentAt(file, i), j)))
    requires taken == w.(free := taken.free) && p !in w.uses && p in b' && b' == b[p := b'[p]] && u.v0 < ENTRIES
    requires MapsAt(taken, w', id, u, pte) && !IsValid(Leaf(taken, id, u)) && w'.managed == w.managed
    ensures Loaded(w', b', id, file, i, j)
  {
    hide Verified, TreeOk, LeafAt, PteToPa, PaToPte, AddrOf, IsValid, WorldOk, InUser, VpnOf, SegPageAt, SegmentAt,
         IsSegmentPage, SegFlags, Readable;
    var v := VpnOf(SegPageAt(SegmentAt(file, i), j));
    assert Leaf(taken, id, v) == Leaf(w, id, v);
    UserNoTable(w, id, v);
  }

  lemma LoadMore(w0: World, b0: Bytes, w: World, b: Bytes, taken: World, w': World, b': Bytes, id: nat,
          file: seq<byte>, c: Space, i: nat, j: nat, p: nat)
    requires WorldOk(w) && Verified(file) && Fits(file) && i < Phnum(file) && Loadable(SegmentAt(file, i))
    requires Readable(file, SegmentAt(file, i))
    requires Loading(w0, b0, w, b, id, file, c, i, j) && LoadFrame(c, file) && j < SegPages(SegmentAt(file, i))
    requires p in w.free && PageAligned(p) && taken == w.(free := w.free - {p}) && InHand(taken) == InHand(w) + {p}
    requires p in b' && b' == b[p := b'[p]]
    requires var va := SegPageAt(SegmentAt(file, i), j);
             && IsSegmentPage(b'[p], file, SegmentAt(file, i), va) && Grown(taken, w', id, c, {p}, Data(VpnOf(va)))
             && MapsAt(taken, w', id, VpnOf(va), PaToPte(p, SetValid(SegFlags(SegmentAt(file, i)))))
                 && !IsValid(Leaf(taken, id, VpnOf(va)))
    ensures Loading(w0, b0, w', b', id, file, c, i, j + 1) && Attempt(w0, b0, w', b', id)
  {
    hide OnlyTask, Verified, TreeOk, LeafAt, PteToPa, PaToPte, AddrOf, IsValid, WorldOk, InUser, InHeap, VpnOf,
         SegPageAt, SegmentAt, IsSegmentPage, SegFlags, Readable,
         UsedSame, Loaded, LoadFrame, Fits, SetValid, SegPages, MapsAt, KernelOrLoaded, KernelThere;
    var va := SegPageAt(SegmentAt(file, i), j);
    FreeParts(w);
    OnlyFree(w, taken, id);
    OnlyBoth(w, taken, w', id);
    OnlyBoth(w0, w, w', id);
    SameManaged(w, w', id);
    MoreBytes(w0, b0, w, b, p, b'[p]);
    MapsTrees(taken, w', id, VpnOf(va), PaToPte(p, SetValid(SegFlags(SegmentAt(file, i)))));
    assert w'.spaces == w0.spaces[id := c];
    assert InHand(w') == InHand(w);
    assert p in w'.managed;
    NewLoaded(taken, w', b', id, file, i, j, p);
    KernelTaken(w, taken, w', id, VpnOf(va), PaToPte(p, SetValid(SegFlags(SegmentAt(file, i)))));
    MoreLoaded(w, taken, w', id, file, i, j, PaToPte(p, SetValid(SegFlags(SegmentAt(file, i)))));
    forall ii: nat, jj: nat | Before(file, ii, jj, i, j + 1)
      ensures Loaded(w', b', id, file, ii, jj)
    {
      if Before(file, ii, jj, i, j) {
        assert Loaded(w, b, id, file, ii, jj);
        SegPagePlace(file, c, ii, jj);
        LoadedStays(w, b, taken, w', b', id, file, ii, jj, VpnOf(va), p,
            PaToPte(p, SetValid(SegFlags(SegmentAt(file, i)))));
      } else {
        assert ii == i && jj == j;
      }
    }
  }

  lemma KernelTaken(w: World, taken: World, w': World, id: nat, v: Vpn, pte: nat)
    requires KernelThere(w, id) && taken == w.(free := taken.free) && MapsAt(taken, w', id, v, pte) && v.v0 < ENTRIES
    requires HasTree(taken, id) && !IsValid(Leaf(taken, id, v))
    ensures KernelThere(w', id)
  {
    hide TreeOk, LeafAt, IsValid, KernelThere;
    assert MapsSame(w, taken, id) by { KernelTree(w, id); }
    KernelMapsSame(w, taken, id);
    KernelMapsAt(taken, w', id, v, pte);
  }

  lemma KernelTree(w: World, id: nat)
    requires KernelThere(w, id)
    ensures HasTree(w, id)
  {
  }

  lemma MoreLoaded(w: World, taken: World, w': World, id: nat, file: seq<byte>, i: nat, j: nat, pte: nat)
    requires Verified(file) && Wanted(file, i, j) && KernelOrLoaded(w, id, file, i, j)
    requires taken == w.(free := taken.free) && MapsAt(taken, w', id, VpnOf(SegPageAt(SegmentAt(file, i), j)), pte)
    ensures KernelOrLoaded(w', id, file, i, j + 1)
  {
    hide Verified, TreeOk, LeafAt, IsValid, VpnOf, SegPageAt, SegmentAt, SegPages, KernelPages;
    forall u: Vpn | u.v0 < ENTRIES && VpnOk(u) && IsValid(Leaf(w', id, u))
      ensures u in KernelPages() || LoadedAt(file, i, j + 1, u)
    {
      if u == SegVpn(file, i, j) {
        assert Before(file, i, j, i, j + 1);
      } else {
        assert Leaf(w', id, u) == Leaf(taken, id, u) == Leaf(w, id, u);
        StillLoadedAt(file, i, j, i, j + 1, u);
      }
    }
  }

  lemma StillLoadedAt(file: seq<byte>, i: nat, j: nat, k: nat, l: nat, u: Vpn)
    requires Verified(file) && (i < k || (i == k && j <= l)) && (i < k ==> k == i + 1 && l == 0)
    ensures LoadedAt(file, i, j, u) ==> LoadedAt(file, k, l, u)
  {
    hide Verified, SegmentAt, SegPages, SegVpn;
    if LoadedAt(file, i, j, u) {
      var ii, jj :| 0 <= ii && 0 <= jj && Before(file, ii, jj, i, j) && u == SegVpn(file, ii, jj);
      assert Before(file, ii, jj, k, l);
    }
  }

  lemma NextSegment(w: World, id: nat, file: seq<byte>, i: nat, j: nat)
    requires Verified(file) && KernelOrLoaded(w, id, file, i, j)
    ensures KernelOrLoaded(w, id, file, i + 1, 0)
  {
    hide Verified, TreeOk, LeafAt, IsValid, SegmentAt, SegPages, KernelPages, LoadedAt;
    forall u: Vpn | u.v0 < ENTRIES && VpnOk(u) && IsValid(Leaf(w, id, u))
      ensures u in KernelPages() || LoadedAt(file, i + 1, 0, u)
    {
      StillLoadedAt(file, i, j, i + 1, 0, u);
    }
  }

  /** Why a page of a segment could not be mapped. */
  lemma LoadRefused(w0: World, b0: Bytes, w: World, b: Bytes, taken: World, id: nat, file: seq<byte>, c: Space, i: nat,
          j: nat)
    requires Verified(file) && Fits(file) && Wanted(file, i, j) && Loading(w0, b0, w, b, id, file, c, i, j)
    requires LoadFrame(c, file)
    requires taken == w.(free := taken.free) && IsValid(Leaf(taken, id, VpnOf(SegPageAt(SegmentAt(file, i), j))))
    ensures !WellMade(file)
  {
    hide OnlyTask, Verified, TreeOk, LeafAt, AddrOf, IsValid, VpnOf, SegPageAt, SegmentAt, UsedSame, Loaded, Fits,
         SegPages, KernelPages, IsDevice, Readable, InUser, InHeap, ImageStart, LoadFrame;
    var u := SegVpn(file, i, j);
    SegPagePlace(file, c, i, j);
    SegPageLow(file, c, i, j);
    assert Leaf(taken, id, u) == Leaf(w, id, u);
    KernelPage(u);
  }

  lemma SegPageLow(file: seq<byte>, c: Space, i: nat, j: nat)
    requires Verified(file) && Fits(file) && Wanted(file, i, j) && LoadFrame(c, file)
    ensures AddrOf(SegVpn(file, i, j)) < HEAP_LIMIT && VpnOk(SegVpn(file, i, j)) && InUser(c, SegVpn(file, i, j))
    ensures Layout(c)
  {
    hide Verified, AddrOf, VpnOf, IsLeaf, SegFlags, SegPageAt, SegmentAt, SegPages;
    SegPagePlace(file, c, i, j);
    EndBound(c);
  }

  /** The stack page is not a segment's. */
  lemma StackLeft(w0: World, b0: Bytes, w: World, b: Bytes, id: nat, file: seq<byte>, c: Space)
    requires Verified(file) && Fits(file) && Loading(w0, b0, w, b, id, file, c, Phnum(file), 0) && LoadFrame(c, file)
    ensures HasTree(w, id) && !IsValid(Leaf(w, id, VpnOf(STACK_PAGE)))
  {
    hide OnlyTask, Verified, TreeOk, LeafAt, AddrOf, IsValid, VpnOf, SegPageAt, SegmentAt, UsedSame, Loaded, Fits,
         SegPages, KernelPages, IsDevice, Readable, InUser, InHeap, LoadFrame, SegVpn;
    AddrIndices(STACK_PAGE);
    StackNoDevice();
    var u := VpnOf(STACK_PAGE);
    KernelPage(u);
    if LoadedAt(file, Phnum(file), 0, u) {
      var ii, jj :| 0 <= ii && 0 <= jj && Before(file, ii, jj, Phnum(file), 0) && u == SegVpn(file, ii, jj);
      SegPageLow(file, c, ii, jj);
      StackNotUser(c);
    }
  }

  lemma SameStack(w: World, taken: World, id: nat)
    requires HasTree(w, id) && taken == w.(free := taken.free)
    ensures HasTree(taken, id) && Leaf(taken, id, VpnOf(STACK_PAGE)) == Leaf(w, id, VpnOf(STACK_PAGE))
  {
  }

  lemma Unreadable(file: seq<byte>, i: nat)
    requires Verified(file) && i < Phnum(file) && Loadable(SegmentAt(file, i)) && !Readable(file, SegmentAt(file, i))
    ensures !WellMade(file)
  {
  }

  lemma NoImage(file: seq<byte>)
    requires Verified(file) ==> ImageStart(file, Phnum(file)) == USIZE_MAX
    ensures !WellMade(file)
  {
  }

  lemma NewLoaded(taken: World, w': World, b': Bytes, id: nat, file: seq<byte>, i: nat, j: nat, p: nat)
    requires Verified(file) && i < Phnum(file) && Readable(file, SegmentAt(file, i)) && PageAligned(p)
    requires p in w'.managed && p in b'
    requires var va := SegPageAt(SegmentAt(file, i), j);
             IsSegmentPage(b'[p], file, SegmentAt(file, i), va)
                 && MapsAt(taken, w', id, VpnOf(va), PaToPte(p, SetValid(SegFlags(SegmentAt(file, i)))))
    ensures HasTree(w', id) && Loaded(w', b', id, file, i, j)
  {
    hide Verified, TreeOk, LeafAt, PteToPa, PaToPte, VpnOf, SegPageAt, SegmentAt, IsSegmentPage, SegFlags, Readable,
         SetValid, PageAligned;
    var g := SegmentAt(file, i);
    SegFlagsValid(g);
    EntryRoundTrip(p, SetValid(SegFlags(g)));
    var v := VpnOf(SegPageAt(g, j));
    assert Leaf(w', id, v) == PaToPte(p, SetValid(SegFlags(g)));
  }

  lemma LoadFailed(w0: World, b0: Bytes, w: World, b: Bytes, taken: World, w': World, b': Bytes, id: nat,
          file: seq<byte>, c: Space, i: nat, j: nat, p: nat)
    requires WorldOk(w) && Verified(file) && i < Phnum(file) && Loading(w0, b0, w, b, id, file, c, i, j)
    requires p in w.free && taken == w.(free := w.free - {p}) && p in b' && b' == b[p := b'[p]]
    requires Grown(taken, w', id, c, {}, Data(VpnOf(SegPageAt(SegmentAt(file, i), j))))
    ensures Attempt(w0, b0, w', b', id)
  {
    hide OnlyTask, Verified, TreeOk, WorldOk, UsedSame, Loaded, SegmentAt;
    FreeParts(w);
    OnlyFree(w, taken, id);
    OnlyBoth(w, taken, w', id);
    OnlyBoth(w0, w, w', id);
    MoreBytes(w0, b0, w, b, p, b'[p]);
    assert w'.spaces == w0.spaces[id := c];
  }

  lemma SegmentDone(w0: World, b0: Bytes, w: World, b: Bytes, id: nat, file: seq<byte>, c: Space, i: nat)
    requires Verified(file) && i < Phnum(file) && Loadable(SegmentAt(file, i)) && Readable(file, SegmentAt(file, i))
    requires Loading(w0, b0, w, b, id, file, c, i, SegPages(SegmentAt(file, i)))
    ensures Loading(w0, b0, w, b, id, file, c, i + 1, 0)
  {
    hide OnlyTask, Verified, TreeOk, UsedSame, Loaded, SegmentAt, SegPages, KernelOrLoaded;
    NextSegment(w, id, file, i, SegPages(SegmentAt(file, i)));
    forall ii: nat, jj: nat | Before(file, ii, jj, i + 1, 0)
      ensures Loaded(w, b, id, file, ii, jj)
    {
      assert Before(file, ii, jj, i, SegPages(SegmentAt(file, i)));
    }
  }

  lemma SegmentSkipped(w0: World, b0: Bytes, w: World, b: Bytes, id: nat, file: seq<byte>, c: Space, i: nat)
    requires Verified(file) && i < Phnum(file) && !Loadable(SegmentAt(file, i))
    requires Loading(w0, b0, w, b, id, file, c, i, 0)
    ensures Loading(w0, b0, w, b, id, file, c, i + 1, 0)
  {
    hide OnlyTask, Verified, TreeOk, UsedSame, Loaded, SegmentAt, SegPages, KernelOrLoaded;
    NextSegment(w, id, file, i, 0);
    forall ii: nat, jj: nat | Before(file, ii, jj, i + 1, 0)
      ensures Loaded(w, b, id, file, ii, jj)
    {
      assert Before(file, ii, jj, i, 0);
    }
  }

  /** The range for a program: what its segments span, or nothing. */
  ghost function FrameFor(file: seq<byte>): Space
    requires Verified(file)
  {
    if ImageStart(file, Phnum(file)) == USIZE_MAX then Space(0, 0, 0, 0, 0, 0, 0)
    else var start, end := ImageStart(file, Phnum(file)), ImageEnd(file, Phnum(file));
      Space(0, 0, 0, start, if start <= end then end - start else 0, end, end)
  }

  lemma FrameRange(file: seq<byte>)
    requires Verified(file) && Fits(file)
    ensures var c := FrameFor(file);
            (c.imageBase + c.imageSize) % PAGE_SIZE == 0 && c.imageBase + c.imageSize <= HEAP_LIMIT
  {
    hide Verified, Fits, ImageStart, ImageEnd;
    ImageRange(file, Phnum(file));
  }

  /** The record has the program's range. */
  ghost predicate FrameOf(c: Space, id: nat, file: seq<byte>)
    requires Verified(file)
  {
    && c == NewSpace(id, c.imageBase, c.imageSize)
    && (ImageStart(file, Phnum(file)) != USIZE_MAX ==>
          c.imageBase == ImageStart(file, Phnum(file)) && c.imageBase + c.imageSize == ImageEnd(file, Phnum(file)))
  }

  lemma FrameParts(c: Space, id: nat, file: seq<byte>)
    requires Verified(file) && FrameOf(c, id, file)
    ensures c == NewSpace(id, c.imageBase, c.imageSize) && c.root == id && c.userStack == 0
    ensures ImageStart(file, Phnum(file)) != USIZE_MAX ==>
              c.imageBase == ImageStart(file, Phnum(file)) && c.imageBase + c.imageSize == ImageEnd(file, Phnum(file))
  {
  }

  lemma FrameIs(file: seq<byte>, id: nat)
    requires Verified(file) && Fits(file)
    ensures var c := FrameFor(file);
            && LoadFrame(NewSpace(id, c.imageBase, c.imageSize), file)
            && FrameOf(NewSpace(id, c.imageBase, c.imageSize), id, file)
  {
    hide Verified, ImageStart, ImageEnd, SegStart, SegEnd;
    ImageRange(file, Phnum(file));
    FrameRange(file);
    var c0 := FrameFor(file);
    var c := NewSpace(id, c0.imageBase, c0.imageSize);
    NewSpaceLayout(id, c0.imageBase, c0.imageSize);
    forall i | 0 <= i < Phnum(file) && Loadable(SegmentAt(file, i))
      ensures c.imageBase <= SegStart(SegmentAt(file, i)) && SegEnd(SegmentAt(file, i)) <= c.heapBase
    {
      SegmentIn(file, Phnum(file), i);
      StartBound(SegmentAt(file, i));
    }
  }

  lemma StartBound(g: Segment)
    ensures MayLoad(g) ==> SegStart(g) < USIZE_MAX
  {
  }

  lemma AllSegments(w0: World, b0: Bytes, w: World, b: Bytes, id: nat, file: seq<byte>, c: Space)
    requires Verified(file) && Loading(w0, b0, w, b, id, file, c, Phnum(file), 0)
    ensures AllLoaded(w, b, id, file)
  {
    hide OnlyTask, Verified, TreeOk, UsedSame, Loaded, SegmentAt, SegPages;
    forall i: nat, j: nat | i < Phnum(file) && Loadable(SegmentAt(file, i)) && j < SegPages(SegmentAt(file, i))
      ensures Loaded(w, b, id, file, i, j)
    {
      assert Before(file, i, j, Phnum(file), 0);
    }
  }

  /** The same map and the same bytes: what was loaded is. */
  lemma LoadedSame(w: World, b: Bytes, w': World, b': Bytes, id: nat, file: seq<byte>)
    requires AllLoaded(w, b, id, file) && MapsSame(w, w', id) && w'.managed == w.managed
               && forall pa {:trigger pa in b'} :: pa in b ==> pa in b' && b'[pa] == b[pa]
    ensures AllLoaded(w', b', id, file)
  {
    hide Verified, TreeOk, LeafAt, PteToPa, PaToPte, IsValid, VpnOf, SegPageAt, SegmentAt, IsSegmentPage, SegFlags,
         Readable, SegPages;
    forall i: nat, j: nat | i < Phnum(file) && Loadable(SegmentAt(file, i)) && j < SegPages(SegmentAt(file, i))
      ensures Loaded(w', b', id, file, i, j)
    {
      assert Loaded(w, b, id, file, i, j);
      var v := VpnOf(SegPageAt(SegmentAt(file, i), j));
      assert Leaf(w', id, v) == Leaf(w, id, v);
    }
  }

  lemma TakenAttempt(w0: World, b0: Bytes, w: World, w': World, b: Bytes, id: nat)
    requires WorldOk(w) && Attempt(w0, b0, w, b, id) && w' == w.(free := w'.free) && w'.free <= w.free
    ensures Attempt(w0, b0, w', b, id)
  {
    hide OnlyTask, UsedSame, WorldOk;
    FreeParts(w);
    OnlyFree(w, w', id);
    OnlyBoth(w0, w, w', id);
  }

  lemma StackAttempt(w0: World, b0: Bytes, full: World, b: Bytes, taken: World, w': World, b': Bytes, id: nat, p: nat,
          s: Space, placed: set<nat>)
    requires WorldOk(full) && UsesGrow(w0, full) && Attempt(w0, b0, full, b, id) && p in full.free
    requires taken == full.(free := full.free - {p})
    requires id in taken.spaces && p in b' && b' == b[p := b'[p]] && Grown(taken, w', id, s, placed, UserStack)
    ensures Attempt(w0, b0, w', b', id)
  {
    hide OnlyTask, WorldOk, UsedSame;
    FreeParts(full);
    OnlyFree(full, taken, id);
    OnlyBoth(w0, full, taken, id);
    OnlyBoth(w0, taken, w', id);
    assert w'.spaces == w0.spaces[id := s];
    MoreBytes(w0, b0, full, b, p, b'[p]);
  }

  ghost predicate UsesGrow(w0: World, w: World) {
    forall pa {:trigger pa in w0.uses} :: pa in w0.uses ==> pa in w.uses
  }

  lemma AttemptManaged(w0: World, b0: Bytes, w: World, b: Bytes, id: nat)
    requires Attempt(w0, b0, w, b, id)
    ensures w.managed == w0.managed
  {
  }

  lemma AttemptGranted(w0: World, b0: Bytes, w: World, b: Bytes, id: nat)
    requires Attempt(w0, b0, w, b, id)
    ensures w.granted <= w0.granted
  {
  }

  lemma ImageDone(made: World, b0: Bytes, full: World, b: Bytes, taken: World, w': World, b': Bytes, id: nat,
          file: seq<byte>, c: Space, p: nat, found: (nat, nat, nat))
    requires WorldOk(full) && BytesOk(full, b) && Verified(file) && AllLoaded(full, b, id, file) && id in full.spaces
    requires full.spaces[id] == c && LoadFrame(c, file)
    requires p in full.free && p != 0 && taken == full.(free := full.free - {p}) && InHand(taken) == InHand(full) + {p}
    requires b' == b[p := Zeros(PAGE_SIZE)] && Fits(file)
    requires Grown(taken, w', id, c.(userStack := p), {p}, UserStack)
    requires MapsAt(taken, w', id, VpnOf(STACK_PAGE), PaToPte(p, SetValid(USER_RW)))
    requires ImageStart(file, Phnum(file)) != USIZE_MAX && FrameOf(c, id, file)
    requires found.0 == Number(file, 24, 8) && found.1 == ImageStart(file, Phnum(file))
    requires found.1 + found.2 == ImageEnd(file, Phnum(file))
    requires KernelThere(full, id) && HasTree(taken, id) && !IsValid(Leaf(taken, id, VpnOf(STACK_PAGE)))
    ensures ImageLoaded(w', b', Image(id, p, found.0, found.1, found.2), file) && InHand(w') == InHand(full)
  {
    hide OnlyTask, Verified, TreeOk, LeafAt, PteToPa, PaToPte, AddrOf, IsValid, WorldOk, BytesOk, InUser, InHeap,
         VpnOf, SegPageAt, SegmentAt, IsSegmentPage, SegFlags, Readable,
         Loaded, LoadFrame, Fits, SetValid, SegPages, MapsAt, ImageStart, ImageEnd, Number, Zeros, KernelThere;
    KernelTaken(full, taken, w', id, VpnOf(STACK_PAGE), PaToPte(p, SetValid(USER_RW)));
    FreeParts(full);
    FrameParts(c, id, file);
    assert w'.spaces[id] == SpaceOf(Image(id, p, found.0, found.1, found.2));
    assert InHand(w') == InHand(full);
    MapsTrees(taken, w', id, VpnOf(STACK_PAGE), PaToPte(p, SetValid(USER_RW)));
    SameManaged(taken, w', id);
    forall i: nat, j: nat | i < Phnum(file) && Loadable(SegmentAt(file, i)) && j < SegPages(SegmentAt(file, i))
      ensures Loaded(w', b', id, file, i, j)
    {
      assert Loaded(full, b, id, file, i, j);
      SegPagePlace(file, c, i, j);
      FrameLayout(c, file);
      StackNotUser(c);
      LoadedBeside(full, b, taken, w', b', id, file, i, j, VpnOf(STACK_PAGE), p, PaToPte(p, SetValid(USER_RW)));
    }
  }

  lemma FrameLayout(c: Space, file: seq<byte>)
    requires Verified(file) && LoadFrame(c, file)
    ensures Layout(c)
  {
  }

  lemma LoadedBeside(w: World, b: Bytes, taken: World, w': World, b': Bytes, id: nat, file: seq<byte>, i: nat, j: nat,
          u: Vpn, p: nat, pte: nat)
    requires WorldOk(w) && Verified(file) && i < Phnum(file) && HasTree(w, id) && Loaded(w, b, id, file, i, j)
    requires InUser(w.spaces[id], VpnOf(SegPageAt(SegmentAt(file, i), j))) && !InUser(w.spaces[id], u)
    requires w'.managed == w.managed
    requires taken == w.(free := taken.free) && p !in w.uses && p in b' && b' == b[p := b'[p]]
    requires MapsAt(taken, w', id, u, pte)
    ensures Loaded(w', b', id, file, i, j)
  {
    hide Verified, TreeOk, LeafAt, PteToPa, PaToPte, AddrOf, IsValid, WorldOk, InUser, VpnOf, SegPageAt, SegmentAt,
         IsSegmentPage, SegFlags, Readable;
    var v := VpnOf(SegPageAt(SegmentAt(file, i), j));
    assert Leaf(taken, id, v) == Leaf(w, id, v);
    UserNoTable(w, id, v);
  }

  lemma StackMaps(w: World, taken: World, w': World, id: nat, p: nat)
    requires WorldOk(w) && id in w.spaces && taken == w.(free := w.free - {p}) && w' == WithKernelStack(taken, id, p)
    requires p in w.free && InHand(taken) == InHand(w) + {p}
    requires InHand(w') == InHand(taken) - {p}
    ensures MapsSame(w, w', id) && w'.spaces == w.spaces[id := w.spaces[id].(kernelStack := p)]
    ensures InHand(w') == InHand(w)
  {
    hide WorldOk, TreeOk, LeafAt;
    FreeParts(w);
    TreeThere(w, id);
    forall u: Vpn | u.v0 < ENTRIES
      ensures Leaf(w', id, u) == Leaf(w, id, u)
    {
    }
  }

  lemma LoadedRecord(w0: World, b0: Bytes, w: World, b: Bytes, m: Image, file: seq<byte>)
    requires Attempt(w0, b0, w, b, m.root) && ImageLoaded(w, b, m, file)
    ensures m.root in w.spaces && w.spaces[m.root] == SpaceOf(m) && w.spaces == w0.spaces[m.root := SpaceOf(m)]
    ensures m.userStack != 0 && OnlyTask(w0, w, m.root)
    ensures SpaceOf(m).root == m.root && SpaceOf(m).kernelStack == 0 && SpaceOf(m).userStack == m.userStack
  {
    hide OnlyTask, UsedSame;
  }

  lemma AttemptThen(w0: World, b0: Bytes, w: World, b: Bytes, w': World, id: nat)
    requires WorldOk(w0) && id !in w0.spaces && Attempt(w0, b0, w, b, id) && OnlyTask(w, w', id)
    ensures AllKept(w0, b0, w', b) && w'.managed == w0.managed && w'.granted <= w0.granted
    ensures (w'.spaces == w.spaces - {id} ==> w'.spaces == w0.spaces)
  {
    hide WorldOk, UsedSame, AllKept;
    OnlyBoth(w0, w, w', id);
    AttemptKept(w0, b0, w', b, id);
  }

  lemma StillRuns(w: World, b: Bytes, w': World, m: Image, file: seq<byte>, s: Space)
    requires ImageLoaded(w, b, m, file) && MapsSame(w, w', m.root) && w'.managed == w.managed && m.root in w'.spaces
    requires w'.spaces[m.root] == s
    requires s == SpaceOf(m).(kernelStack := s.kernelStack)
    ensures Runs(w', b, m.root, m.entry, file) && s.userStack != 0 && s.root == m.root
  {
    hide AllLoaded, MapsSame, KernelThere;
    KernelMapsSame(w, w', m.root);
    LoadedSame(w, b, w', b, m.root, file);
  }

  lemma FreeAgain(w: World, b: Bytes, w': World, b': Bytes)
    requires WorldOk(w) && WorldOk(w') && BytesOk(w, b) && BytesOk(w', b') && w'.managed == w.managed
    requires InHand(w') == InHand(w)
    requires w'.spaces == w.spaces && AllKept(w, b, w', b')
    ensures w'.free == w.free
  {
    hide WorldOk, BytesOk, Kept;
    var m, n := Moment(w, b), Moment(w', b');
    forall o | o in m.w.spaces
      ensures Owned(n.w, o) == Owned(m.w, o)
    {
      assert Kept(w, b, w', b', o);
      KeptOwns(w, b, w', b', o);
    }
    EarlierFreeSet(m, n);
  }

  lemma RunsKernel(w: World, b: Bytes, id: nat, entry: nat, file: seq<byte>)
    requires Runs(w, b, id, entry, file)
    ensures KernelThere(w, id)
  {
    hide KernelThere, AllLoaded;
  }

  /** Where every task is kept, and one made at most, the kernel stays mapped everywhere. */
  lemma KernelAllKept(w: World, b: Bytes, w': World, b': Bytes, made: nat)
    requires WorldOk(w) && KernelEverywhere(w) && AllKept(w, b, w', b') && made !in w.spaces
    requires w'.spaces == w.spaces || (made in w'.spaces && w'.spaces == w.spaces[made := w'.spaces[made]])
    requires made in w'.spaces ==> KernelThere(w', made)
    ensures KernelEverywhere(w')
  {
    hide WorldOk, KernelEverywhere, KernelThere, Kept, AllKept;
    KeptOthers(w, b, w', b', made);
    KernelStays(w, b, w', b', made, made);
  }

  lemma KernelFailed(w: World, b: Bytes, w': World, b': Bytes)
    requires WorldOk(w) && KernelEverywhere(w) && AllKept(w, b, w', b') && w'.spaces == w.spaces
    ensures KernelEverywhere(w')
  {
    hide WorldOk, KernelThere, Kept;
    forall o | o in w'.spaces
      ensures KernelThere(w', o)
    {
      assert KernelThere(w, o) && Kept(w, b, w', b', o);
      KernelKept(w, b, w', b', o);
    }
  }

  lemma KeptOthers(w: World, b: Bytes, w': World, b': Bytes, id: nat)
    requires AllKept(w, b, w', b')
    ensures OthersKept(w, b, w', b', id)
  {
  }

  lemma BareParts(w: World, bare: World, id: nat, root: nat)
    requires id in w.spaces && root in w.spaces && root != id && bare == WithoutKernelStack(w, id)
    ensures root in bare.spaces && bare.spaces[root] == w.spaces[root] && id in bare.spaces
    ensures bare.spaces[id] == w.spaces[id].(kernelStack := 0)
    ensures bare.spaces == w.spaces[id := w.spaces[id].(kernelStack := 0)] && bare.managed == w.managed
    ensures bare.granted == w.granted
  {
  }

  lemma BothParts(bare: World, both: World, id: nat, root: nat, p: nat)
    requires id in bare.spaces && root in bare.spaces && root != id && both == WithKernelStack(bare, root, p)
    ensures both.spaces == bare.spaces[root := bare.spaces[root].(kernelStack := p)] && id in both.spaces
    ensures both.spaces[id] == bare.spaces[id] && both.managed == bare.managed && both.granted == bare.granted
  {
  }

  /** The new address space is in place of the old one, and everybody else has what they had. */
  lemma Replaced(w0: World, b0: Bytes, w: World, bare: World, both: World, done: World, b: Bytes, id: nat, m: Image,
          file: seq<byte>, p: nat)
    requires WorldOk(w0) && WorldOk(w) && WorldOk(bare) && WorldOk(both) && id in w0.spaces && m.root !in w0.spaces
    requires Attempt(w0, b0, w, b, m.root) && ImageLoaded(w, b, m, file) && id in w.spaces
    requires bare == WithoutKernelStack(w, id) && OnlyTask(w, bare, id)
    requires m.root in bare.spaces && both == WithKernelStack(bare, m.root, p) && OnlyTask(bare, both, m.root)
    requires OnlyTask(both, done, id)
    requires done.spaces == both.spaces - {id} && w0.spaces[id].kernelStack == p != 0
    ensures OthersKept(w0, b0, done, b, id) && done.managed == w0.managed && done.granted <= w0.granted
    ensures done.spaces == (w0.spaces - {id})[m.root := SpaceOf(m).(kernelStack := p)]
    ensures Runs(done, b, m.root, m.entry, file) && m.userStack != 0
  {
    hide WorldOk, TreeOk, LeafAt, UsedSame, AllLoaded, OnlyTask, Kept, MapsSame;
    LoadedRecord(w0, b0, w, b, m, file);
    BareParts(w, bare, id, m.root);
    BothParts(bare, both, id, m.root, p);
    SameManaged(w0, w, m.root);
    SameManaged(both, done, id);
    assert done.spaces == (w0.spaces - {id})[m.root := SpaceOf(m).(kernelStack := p)];
    UsedSameSelf(w, b);
    UsedSameSelf(bare, b);
    UsedSameSelf(both, b);
    forall o | o in w0.spaces && o != id
      ensures Kept(w0, b0, done, b, o)
    {
      OnlyTaskOthers(w0, b0, w, b, m.root);
      OnlyTaskOthers(w, b, bare, b, id);
      OnlyTaskOthers(bare, b, both, b, m.root);
      OnlyTaskOthers(both, b, done, b, id);
      assert Kept(w0, b0, w, b, o) && Kept(w, b, bare, b, o) && Kept(bare, b, both, b, o) && Kept(both, b, done, b, o);
      KeptBoth(w0, b0, w, b, bare, b, o);
      KeptBoth(w0, b0, bare, b, both, b, o);
      KeptBoth(w0, b0, both, b, done, b, o);
    }
    assert MapsSame(w, done, m.root) by { MapsThrough(w, bare, both, done, id, m.root, p); }
    StillRuns(w, b, done, m, file, SpaceOf(m).(kernelStack := p));
  }

  lemma MapsThrough(w: World, bare: World, both: World, done: World, id: nat, root: nat, p: nat)
    requires WorldOk(w) && WorldOk(both) && id in w.spaces && root in w.spaces && root != id
    requires bare == WithoutKernelStack(w, id)
    requires both == WithKernelStack(bare, root, p) && OnlyTask(both, done, id)
    ensures MapsSame(w, done, root)
  {
    hide WorldOk, TreeOk, LeafAt, OnlyTask;
    TreeThere(w, root);
    OthersTree(both, done, id, root);
    forall u: Vpn | u.v0 < ENTRIES
      ensures Leaf(done, root, u) == Leaf(w, root, u)
    {
      assert Leaf(both, root, u) == Leaf(w, root, u);
    }
  }
}
