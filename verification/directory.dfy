/**
 Directories of the file server (user/programs/fs-server/src/main.rs): finding, creating and deleting entries in
 the slots of a directory's cluster chain.
 */
module Directory {
  import opened Wrappers
  import opened Words
  import opened FatTable
  import opened Fat32
  import opened DirSlots

  const PER_SECTOR: nat := 16

  // ---- The slots of a chain ----

  function SlotOf(sector: seq<byte>, i: nat): slot
    requires |sector| == BLOCK && i < PER_SECTOR
  {
    sector[i * SLOT..i * SLOT + SLOT]
  }

  ghost function SlotsOf(data: seq<seq<byte>>, chain: seq<nat>): (s: seq<slot>)
    requires Sectors(data, chain)
    ensures |s| == PER_SECTOR * |chain|
  {
    seq(PER_SECTOR * |chain|,
        k requires 0 <= k < PER_SECTOR * |chain| => SlotOf(data[chain[k / PER_SECTOR]], k % PER_SECTOR))
  }

  lemma SlotHere(data: seq<seq<byte>>, chain: seq<nat>, ci: nat, i: nat)
    requires Sectors(data, chain) && ci < |chain| && i < PER_SECTOR
    ensures PER_SECTOR * ci + i < |SlotsOf(data, chain)|
    ensures chain[ci] < |data| && |data[chain[ci]]| == BLOCK
    ensures SlotsOf(data, chain)[PER_SECTOR * ci + i] == SlotOf(data[chain[ci]], i)
  {
    var k := PER_SECTOR * ci + i;
    assert k / PER_SECTOR == ci && k % PER_SECTOR == i;
  }

  // ---- Walking ----

  /** Slot k is the first entry, in the order of the walk, that is listed under the name. */
  ghost predicate FirstMatch(slots: seq<slot>, k: nat, name: seq<byte>) {
    Matches(slots, k, name) && forall j :: 0 <= j < k ==> !Matches(slots, j, name)
  }

  ghost predicate NoMatch(slots: seq<slot>, name: seq<byte>) {
    forall k :: 0 <= k < |slots| ==> !Matches(slots, k, name)
  }

  /** The walk has come to slot k, carrying w, and met no entry listed under the name. */
  ghost predicate Passed(slots: seq<slot>, k: nat, w: Walk, name: seq<byte>) {
    && k <= |slots| && w == StateAt(slots, k)
    && (forall j :: 0 <= j < k ==> slots[j][0] != FREE_END)
    && (forall j {:trigger Matches(slots, j, name)} :: 0 <= j < k ==> !Matches(slots, j, name))
  }

  /** The name the walk reads at a short entry. */
  function Listed(w: Walk, s: slot): seq<byte>
    requires |w.units| == LFN_BUFFER
  {
    if w.len > 0 then LongName(w) else ShortName(s)
  }

  ghost predicate Found(slots: seq<slot>, s: slot, name: seq<byte>) {
    exists k: nat :: FirstMatch(slots, k, name) && k < |slots| && slots[k] == s
  }

  lemma PassOne(slots: seq<slot>, k: nat, w: Walk, name: seq<byte>)
    requires Passed(slots, k, w, name) && k < |slots|
    ensures |w.units| == LFN_BUFFER
    ensures slots[k][0] == FREE_END ==> NoMatch(slots, name)
    ensures slots[k][0] != FREE_END && Hit(w, slots[k], name) ==> FirstMatch(slots, k, name)
    ensures slots[k][0] != FREE_END && !Hit(w, slots[k], name) ==> Passed(slots, k + 1, Step(w, slots[k]), name)
  {
    hide LongName, ShortName, UpperName, Step, SameName;
    UpperSame(Listed(w, slots[k]), name);
    assert slots[k][0] != FREE_END ==> (Matches(slots, k, name) <==> Hit(w, slots[k], name));
  }

  /** The walk, carrying w, reads in slot s an entry listed under the name. */
  predicate Hit(w: Walk, s: slot, name: seq<byte>) {
    |w.units| == LFN_BUFFER && IsShort(s) && UpperName(Listed(w, s)) == UpperName(name)
  }

  lemma PassedAll(slots: seq<slot>, w: Walk, name: seq<byte>)
    requires Passed(slots, |slots|, w, name)
    ensures NoMatch(slots, name)
  {
  }

  lemma PassedNone(slots: seq<slot>, name: seq<byte>)
    ensures Passed(slots, 0, Start(), name)
  {
  }

  /** The entry that is listed first under a name, without regard to case; the walk goes on to the end all the same. */
  method FindEntry(fs: Fs, dir: nat, name: seq<byte>) returns (r: Option<slot>)
    requires fs.Valid() && dir in fs.files
    ensures Sectors(fs.data, fs.files[dir])
    ensures r.None? ==> NoMatch(SlotsOf(fs.data, fs.files[dir]), name)
    ensures r.Some? ==> Found(SlotsOf(fs.data, fs.files[dir]), r.value, name)
  {
    hide Fs.Valid, Passed, NoMatch, FirstMatch, Step, Hit, SlotOf, Found, SlotsOf, StateAt;
    fs.ChainKnown(dir);
    ghost var chain, ci := fs.files[dir], 0;
    ghost var slots := SlotsOf(fs.data, chain);
    var cluster, w := dir, Start();
    r := None;
    PassedNone(slots, name);
    while true
      invariant ci < |chain| && cluster == chain[ci] && |w.units| == LFN_BUFFER
      invariant if r.None? then Passed(slots, PER_SECTOR * ci, w, name) else Found(slots, r.value, name)
      decreases |chain| - ci
    {
      var sector := fs.ReadSector(cluster);
      for i := 0 to PER_SECTOR
        invariant |w.units| == LFN_BUFFER
        invariant if r.None? then Passed(slots, PER_SECTOR * ci + i, w, name) else Found(slots, r.value, name)
      {
        ghost var k := PER_SECTOR * ci + i;
        SlotHere(fs.data, chain, ci, i);
        if r.None? { PassOne(slots, k, w, name); }
        var s := SlotOf(sector.value, i);
        if s[0] == FREE_END {
          return;
        }
        if r.None? && Hit(w, s, name) {
          FoundAt(slots, k, name);
          r := Some(s);
        }
        w := Step(w, s);
      }
      var next := fs.Follow(cluster, dir, ci);
      if next.None? {
        if r.None? { PassedAll(slots, w, name); }
        return;
      }
      cluster := next.value;
      ci := ci + 1;
    }
  }

  lemma FoundAt(slots: seq<slot>, k: nat, name: seq<byte>)
    requires k < |slots| && FirstMatch(slots, k, name)
    ensures Found(slots, slots[k], name)
  {
  }

  // ---- Changing slots ----

  /** Overwriting slot i of sector ci changes that slot of the directory and no other. */
  lemma SlotsPatched(data: seq<seq<byte>>, chain: seq<nat>, ci: nat, i: nat, s: slot)
    requires Sectors(data, chain) && ci < |chain| && i < PER_SECTOR
    requires forall j :: 0 <= j < |chain| && j != ci ==> chain[j] != chain[ci]
    ensures chain[ci] < |data| && |data[chain[ci]]| == BLOCK
    ensures var data' := data[chain[ci] := Patched(data[chain[ci]], i * SLOT, s)];
            && Sectors(data', chain) && PER_SECTOR * ci + i < |SlotsOf(data, chain)|
            && SlotsOf(data', chain) == SlotsOf(data, chain)[PER_SECTOR * ci + i := s]
  {
    var data' := data[chain[ci] := Patched(data[chain[ci]], i * SLOT, s)];
    var old_, new_ := SlotsOf(data, chain), SlotsOf(data', chain);
    forall k | 0 <= k < |old_|
      ensures new_[k] == old_[PER_SECTOR * ci + i := s][k]
    {
      var cj, j := k / PER_SECTOR, k % PER_SECTOR;
      SlotHere(data, chain, cj, j);
      SlotHere(data', chain, cj, j);
      if cj == ci { SlotPatched(data[chain[ci]], i, s, j); }
    }
  }

  lemma SlotPatched(sector: seq<byte>, i: nat, s: slot, j: nat)
    requires |sector| == BLOCK && i < PER_SECTOR && j < PER_SECTOR
    ensures SlotOf(Patched(sector, i * SLOT, s), j) == if j == i then s else SlotOf(sector, j)
  {
  }

  lemma PatchedSlots(sector: seq<byte>, i: nat, s: slot)
    requires |sector| == BLOCK && i < PER_SECTOR
    ensures var now := Patched(sector, i * SLOT, s);
            forall j {:trigger SlotOf(now, j)} :: 0 <= j < PER_SECTOR ==> SlotOf(now, j) == if j == i then s
                else SlotOf(sector, j)
  {
    hide SlotOf, Patched;
    var now := Patched(sector, i * SLOT, s);
    forall j {:trigger SlotOf(now, j)} | 0 <= j < PER_SECTOR
      ensures SlotOf(now, j) == if j == i then s else SlotOf(sector, j)
    {
      SlotPatched(sector, i, s, j);
    }
  }

  function Dead(s: slot): slot {
    s[0 := DELETED]
  }

  /** The first byte 0xE5 marks a deleted slot, 0 an unused one; attribute 0x0F a slot of a long name. */
  lemma SlotKinds(s: slot)
    ensures IsFree(s) <==> s[0] == 0 || s[0] == 0xE5
    ensures IsShort(s) <==> s[0] != 0 && s[0] != 0xE5 && s[11] != 0x0F
    ensures Dead(s)[0] == 0xE5 && Dead(s)[1..] == s[1..]
  {
  }

  /** The first entry listed under the name has been marked deleted, and nothing else has changed. */
  ghost predicate Deleted(v0: View, v1: View, dir: nat, name: seq<byte>) {
    && dir in v0.files && v1 == v0.(data := v1.data) && |v1.data| == |v0.data|
    && (forall c :: 0 <= c < |v0.data| && c !in v0.files[dir] ==> v1.data[c] == v0.data[c])
    && Sectors(v0.data, v0.files[dir]) && Sectors(v1.data, v0.files[dir])
    && (exists k: nat {:trigger FirstMatch(SlotsOf(v0.data, v0.files[dir]), k, name)} ::
          var slots := SlotsOf(v0.data, v0.files[dir]);
          k < |slots| && FirstMatch(slots, k, name) && SlotsOf(v1.data, v0.files[dir]) == slots[k := Dead(slots[k])])
  }

  lemma DeletedAt(v0: View, dir: nat, name: seq<byte>, ci: nat, i: nat)
    requires dir in v0.files && Sectors(v0.data, v0.files[dir]) && ci < |v0.files[dir]| && i < PER_SECTOR
    requires forall j :: 0 <= j < |v0.files[dir]| && j != ci ==> v0.files[dir][j] != v0.files[dir][ci]
    requires FirstMatch(SlotsOf(v0.data, v0.files[dir]), PER_SECTOR * ci + i, name)
    ensures v0.files[dir][ci] < |v0.data| && |v0.data[v0.files[dir][ci]]| == BLOCK
    ensures var sector := v0.data[v0.files[dir][ci]];
            Deleted(v0, v0.(data := v0.data[v0.files[dir][ci] := Patched(sector, i * SLOT, Dead(SlotOf(sector, i)))]),
                dir, name)
  {
    hide FirstMatch, SlotsOf, SlotOf, Patched;
    var chain := v0.files[dir];
    SlotHere(v0.data, chain, ci, i);
    SlotsPatched(v0.data, chain, ci, i, Dead(SlotOf(v0.data[chain[ci]], i)));
  }

  /** Marks the entry deleted that `FindEntry` finds. The slots of a long name stay as they are. */
  method DeleteDirEntry(fs: Fs, dir: nat, name: seq<byte>) returns (ok: bool)
    requires fs.Valid() && dir in fs.files
    modifies fs, fs.disk
    ensures fs.Valid() && dir in fs.files && Sectors(fs.data, fs.files[dir])
    ensures ok ==> Deleted(old(fs.Now()), fs.Now(), dir, name)
    ensures !ok ==> fs.Now() == old(fs.Now()) && NoMatch(SlotsOf(fs.data, fs.files[dir]), name)
  {
    hide Fs.Valid, Passed, NoMatch, FirstMatch, Step, Hit, SlotOf, SlotsOf, StateAt, Deleted, Dead, Patched;
    fs.ChainKnown(dir);
    ghost var chain, ci, v0 := fs.files[dir], 0, fs.Now();
    ghost var slots := SlotsOf(fs.data, chain);
    var cluster, w := dir, Start();
    PassedNone(slots, name);
    while true
      invariant ci < |chain| && cluster == chain[ci] && fs.Now() == v0 && fs.Valid()
      invariant Passed(slots, PER_SECTOR * ci, w, name)
      decreases |chain| - ci
    {
      var read := fs.ReadSector(cluster);
      var sector := read.value;
      for i := 0 to PER_SECTOR
        invariant fs.Now() == v0 && fs.Valid()
        invariant Passed(slots, PER_SECTOR * ci + i, w, name)
      {
        SlotHere(fs.data, chain, ci, i);
        PassOne(slots, PER_SECTOR * ci + i, w, name);
        var s := SlotOf(sector, i);
        if s[0] == FREE_END {
          return false;
        }
        if Hit(w, s, name) {
          fs.Distinct(dir, ci);
          DeletedAt(v0, dir, name, ci, i);
          ok := fs.OverwriteSector(cluster, Patched(sector, i * SLOT, Dead(s)));
          fs.ChainKnown(dir);
          return true;
        }
        w := Step(w, s);
      }
      var next := fs.Follow(cluster, dir, ci);
      if next.None? {
        PassedAll(slots, w, name);
        return false;
      }
      cluster := next.value;
      ci := ci + 1;
    }
  }

  // ---- Creating entries ----

  /** `total` free slots side by side in sector ci, from slot i on. */
  ghost predicate Run(slots: seq<slot>, ci: nat, i: nat, total: nat) {
    i + total <= PER_SECTOR && PER_SECTOR * ci + i + total <= |slots|
    && forall k :: PER_SECTOR * ci + i <= k < PER_SECTOR * ci + i + total ==> IsFree(slots[k])
  }

  /** No such run starts in a sector before ci, nor ends in sector ci at slot i or before it. */
  ghost predicate NoRun(slots: seq<slot>, ci: nat, i: nat, total: nat) {
    && (forall cj: nat, j: nat {:trigger Run(slots, cj, j, total)} :: cj < ci ==> !Run(slots, cj, j, total))
    && (forall j: nat {:trigger Run(slots, ci, j, total)} :: j + total <= i ==> !Run(slots, ci, j, total))
  }

  /** The free slots that the scan has counted up to slot i of sector ci. */
  ghost predicate Counted(slots: seq<slot>, ci: nat, i: nat, count: nat, total: nat) {
    && count <= i && count < total && NoRun(slots, ci, i, total) && PER_SECTOR * ci + i <= |slots|
    && (forall k :: PER_SECTOR * ci + i - count <= k < PER_SECTOR * ci + i ==> IsFree(slots[k]))
    && (count < i ==> !IsFree(slots[PER_SECTOR * ci + i - count - 1]))
  }

  lemma CountFree(slots: seq<slot>, ci: nat, i: nat, count: nat, total: nat)
    requires Counted(slots, ci, i, count, total) && i < PER_SECTOR && PER_SECTOR * ci + i < |slots|
    requires IsFree(slots[PER_SECTOR * ci + i])
    ensures count + 1 < total ==> Counted(slots, ci, i + 1, count + 1, total)
    ensures count + 1 == total ==> Run(slots, ci, i - count, total) && NoRun(slots, ci, i, total)
  {
    if count + 1 < total {
      forall j: nat | j + total <= i + 1
        ensures !Run(slots, ci, j, total)
      {
        if j + total == i + 1 { assert !IsFree(slots[PER_SECTOR * ci + i - count - 1]); }
      }
    }
  }

  lemma CountLive(slots: seq<slot>, ci: nat, i: nat, count: nat, total: nat)
    requires Counted(slots, ci, i, count, total) && i < PER_SECTOR && PER_SECTOR * ci + i < |slots|
    requires !IsFree(slots[PER_SECTOR * ci + i])
    ensures Counted(slots, ci, i + 1, 0, total)
  {
    forall j: nat | j + total <= i + 1
      ensures !Run(slots, ci, j, total)
    {
      if j + total == i + 1 { assert !IsFree(slots[PER_SECTOR * ci + i]); }
    }
  }

  lemma CountSector(slots: seq<slot>, ci: nat, count: nat, total: nat)
    requires Counted(slots, ci, PER_SECTOR, count, total)
    ensures Counted(slots, ci + 1, 0, 0, total)
  {
  }

  function ZeroSlots(n: nat): (z: seq<slot>)
    ensures |z| == n && forall k :: 0 <= k < n ==> z[k] == Zeros(SLOT)
  {
    seq(n, _ => Zeros(SLOT))
  }

  lemma SlotsGrown(data: seq<seq<byte>>, chain: seq<nat>, c: nat)
    requires Sectors(data, chain) && c < |data| && c !in chain
    ensures Sectors(data[c := Zeros(BLOCK)], chain + [c])
    ensures SlotsOf(data[c := Zeros(BLOCK)], chain + [c]) == SlotsOf(data, chain) + ZeroSlots(PER_SECTOR)
  {
    var data', chain' := data[c := Zeros(BLOCK)], chain + [c];
    assert Sectors(data', chain') by {
      assert forall i :: 0 <= i < |chain| ==> chain'[i] == chain[i] && chain[i] in chain;
    }
    var old_, new_ := SlotsOf(data, chain), SlotsOf(data', chain');
    forall k | 0 <= k < |new_|
      ensures new_[k] == (old_ + ZeroSlots(PER_SECTOR))[k]
    {
      var ci, i := k / PER_SECTOR, k % PER_SECTOR;
      SlotHere(data', chain', ci, i);
      if k < |old_| {
        SlotHere(data, chain, ci, i);
        assert chain'[ci] == chain[ci] && chain[ci] in chain;
      } else {
        assert SlotOf(Zeros(BLOCK), i) == Zeros(SLOT);
      }
    }
  }

  /**
   The search for free slots in the directory v0 has come to sector ci; what it has added so far are zeroed sectors.
   */
  ghost predicate Searching(v0: View, v1: View, dir: nat, ci: nat, i: nat, count: nat, total: nat) {
    && Kept(v0, v1, dir) && Sectors(v0.data, v0.files[dir]) && Sectors(v1.data, v1.files[dir])
    && ci < |v1.files[dir]| && i <= PER_SECTOR && 0 < total
    && SlotsOf(v1.data, v1.files[dir]) == Enlarged(v0, v1, dir)
    && Counted(Enlarged(v0, v1, dir), ci, i, count, total)
    && (total <= PER_SECTOR && |v1.files[dir]| > |v0.files[dir]| ==> ci + 1 == |v1.files[dir]| == |v0.files[dir]| + 1)
  }

  /** The slots the directory had in v0, and free ones for the sectors it has got since. */
  ghost function Enlarged(v0: View, v1: View, dir: nat): seq<slot>
    requires Kept(v0, v1, dir) && Sectors(v0.data, v0.files[dir])
  {
    SlotsOf(v0.data, v0.files[dir]) + ZeroSlots(PER_SECTOR * (|v1.files[dir]| - |v0.files[dir]|))
  }

  lemma SearchStart(v: View, dir: nat, total: nat)
    requires dir in v.files && v.files[dir] != [] && Sectors(v.data, v.files[dir]) && |v.fat| == |v.data| && total > 0
    ensures Searching(v, v, dir, 0, 0, 0, total)
  {
    assert Enlarged(v, v, dir) == SlotsOf(v.data, v.files[dir]);
  }

  lemma SearchSlot(v0: View, v1: View, dir: nat, ci: nat, i: nat, count: nat, total: nat)
    requires Searching(v0, v1, dir, ci, i, count, total) && i < PER_SECTOR
    ensures dir in v1.files && ci < |v1.files[dir]| && v1.files[dir][ci] < |v1.data|
    ensures |v1.data[v1.files[dir][ci]]| == BLOCK
    ensures count <= i && count < total && (count + 1 == total ==> i - count + total <= PER_SECTOR)
    ensures var free := IsFree(SlotOf(v1.data[v1.files[dir][ci]], i));
            && (free && count + 1 < total ==> Searching(v0, v1, dir, ci, i + 1, count + 1, total))
            && (free && count + 1 == total ==> Chosen(v0, v1, dir, ci, i - count, total))
            && (!free ==> Searching(v0, v1, dir, ci, i + 1, 0, total))
  {
    hide Kept, Counted, SlotOf, IsFree, Run, NoRun, SlotsOf;
    KeptOf(v0, v1, dir);
    var slots := Enlarged(v0, v1, dir);
    SlotHere(v1.data, v1.files[dir], ci, i);
    CountedBounds(slots, ci, i, count, total);
    if IsFree(slots[PER_SECTOR * ci + i]) {
      CountFree(slots, ci, i, count, total);
    } else {
      CountLive(slots, ci, i, count, total);
    }
  }

  lemma CountedBounds(slots: seq<slot>, ci: nat, i: nat, count: nat, total: nat)
    requires Counted(slots, ci, i, count, total)
    ensures count <= i && count < total
  {
  }

  /** The first run of `total` free slots starts at slot i of sector ci. */
  ghost predicate Chosen(v0: View, v1: View, dir: nat, ci: nat, i: nat, total: nat) {
    && Kept(v0, v1, dir) && Sectors(v0.data, v0.files[dir]) && Sectors(v1.data, v1.files[dir])
    && SlotsOf(v1.data, v1.files[dir]) == Enlarged(v0, v1, dir)
    && ci < |v1.files[dir]| && total > 0 && Run(Enlarged(v0, v1, dir), ci, i, total)
    && NoRun(Enlarged(v0, v1, dir), ci, i + total - 1, total)
    && (total <= PER_SECTOR && |v1.files[dir]| > |v0.files[dir]| ==> ci + 1 == |v1.files[dir]| == |v0.files[dir]| + 1)
  }

  lemma SearchNext(v0: View, v1: View, dir: nat, ci: nat, count: nat, total: nat)
    requires Searching(v0, v1, dir, ci, PER_SECTOR, count, total) && ci + 1 < |v1.files[dir]|
    ensures Searching(v0, v1, dir, ci + 1, 0, 0, total)
  {
    hide Kept, Counted, SlotsOf;
    CountSector(Enlarged(v0, v1, dir), ci, count, total);
  }

  /** A fresh sector holds any run that fits in a sector, so the search adds at most one for it. */
  lemma NotGrown(v0: View, v1: View, dir: nat, ci: nat, count: nat, total: nat)
    requires Searching(v0, v1, dir, ci, PER_SECTOR, count, total) && ci + 1 == |v1.files[dir]| && total <= PER_SECTOR
    ensures |v1.files[dir]| == |v0.files[dir]|
  {
    NotAllFree(Enlarged(v0, v1, dir), ci, count, total);
  }

  lemma NotAllFree(slots: seq<slot>, ci: nat, count: nat, total: nat)
    requires Counted(slots, ci, PER_SECTOR, count, total) && total <= PER_SECTOR
    requires PER_SECTOR * ci + PER_SECTOR <= |slots|
    ensures exists k :: PER_SECTOR * ci <= k < PER_SECTOR * ci + PER_SECTOR && !IsFree(slots[k])
  {
    assert !Run(slots, ci, 0, total);
  }

  lemma SearchGrown(v0: View, v1: View, v2: View, dir: nat, ci: nat, count: nat, total: nat, last: nat, c: nat)
    requires Searching(v0, v1, dir, ci, PER_SECTOR, count, total) && ci + 1 == |v1.files[dir]|
    requires Grown(v1, v2, dir, last, c)
    ensures Searching(v0, v2, dir, ci + 1, 0, 0, total)
  {
    hide Counted, Run, Kept, SlotsOf;
    if total <= PER_SECTOR { NotGrown(v0, v1, dir, ci, count, total); }
    KeptOf(v0, v1, dir);
    KeptGrown(v0, v1, v2, dir, last, c);
    SlotsGrown(v1.data, v1.files[dir], c);
    var slots, slots' := Enlarged(v0, v1, dir), Enlarged(v0, v2, dir);
    assert slots' == slots + ZeroSlots(PER_SECTOR);
    CountSector(slots, ci, count, total);
    CountGrown(slots, ZeroSlots(PER_SECTOR), ci + 1, total);
  }

  lemma CountGrown(slots: seq<slot>, more: seq<slot>, n: nat, total: nat)
    requires |slots| == PER_SECTOR * n && Counted(slots, n, 0, 0, total)
    ensures Counted(slots + more, n, 0, 0, total)
  {
    forall cj: nat, j: nat | cj < n && Run(slots + more, cj, j, total)
      ensures Run(slots, cj, j, total)
    {
      assert PER_SECTOR * cj + PER_SECTOR <= PER_SECTOR * n;
      forall k | PER_SECTOR * cj + j <= k < PER_SECTOR * cj + j + total
        ensures IsFree(slots[k])
      {
        assert (slots + more)[k] == slots[k];
      }
    }
  }

  /**
   No run was found and no cluster is left; the directory was enlarged only in search of a run that no sector can
   hold.
   */
  ghost predicate NoRoom(v0: View, v1: View, dir: nat, total: nat) {
    && Full(v1) && Kept(v0, v1, dir) && Sectors(v0.data, v0.files[dir]) && Sectors(v1.data, v1.files[dir])
    && SlotsOf(v1.data, v1.files[dir]) == Enlarged(v0, v1, dir)
    && NoRun(Enlarged(v0, v1, dir), |v1.files[dir]|, 0, total)
    && (total <= PER_SECTOR ==> |v1.files[dir]| == |v0.files[dir]|)
  }

  lemma SearchFailed(v0: View, v1: View, dir: nat, ci: nat, count: nat, total: nat)
    requires Searching(v0, v1, dir, ci, PER_SECTOR, count, total) && ci + 1 == |v1.files[dir]| && Full(v1)
    ensures NoRoom(v0, v1, dir, total)
  {
    hide Kept, SlotsOf, Full, Run;
    if total <= PER_SECTOR { NotGrown(v0, v1, dir, ci, count, total); }
    CountSector(Enlarged(v0, v1, dir), ci, count, total);
  }

  // ---- Writing an entry ----

  /** A short entry with the fields that `create_dir_entry` writes; the other bytes of the slot stay as they were. */
  ghost predicate ShortEntry(s: slot, was: slot, short: seq<byte>, attr: byte, cluster: nat, size: nat) {
    && s[..11] == short && s[11] == attr && s[12..20] == was[12..20] && s[22..26] == was[22..26]
    && Le32(s[26], s[27], s[20], s[21]) == cluster && Le32(s[28], s[29], s[30], s[31]) == size
  }

  /** Where each byte of a short entry is: the first cluster's halves and the size, the low byte first. */
  lemma ShortEntryBytes(s: slot, was: slot, short: seq<byte>, attr: byte, cluster: nat, size: nat)
    requires ShortEntry(s, was, short, attr, cluster, size)
    ensures s[0..11] == short && s[11] == attr
    ensures s[26] as int + 0x100 * s[27] as int + 0x1_0000 * s[20] as int + 0x100_0000 * s[21] as int == cluster
    ensures s[28] as int + 0x100 * s[29] as int + 0x1_0000 * s[30] as int + 0x100_0000 * s[31] as int == size
  {
  }

  /** A long-name slot carries the checksum of the short name that it belongs to. */
  ghost predicate Sealed(s: slot, was: slot, short: seq<byte>) {
    s[12] == 0 && s[13] == Checksum(short) && s[26..28] == was[26..28]
  }

  method FillShort(was: slot, short: seq<byte>, attr: byte, cluster: nat, size: nat) returns (s: slot)
    requires |short| == 11 && cluster < U32 && size < U32
    ensures ShortEntry(s, was, short, attr, cluster, size)
  {
    hide Le32, Le32Bytes;
    var c := Le32Bytes(cluster);
    s := Patched(was, 0, short + [attr]);
    s := Patched(s, 20, [c[2], c[3]]);
    s := Patched(s, 26, [c[0], c[1]]);
    s := Patched(s, 28, Le32Bytes(size));
  }

  /** Writes `count` characters of a name, from position `at` on, as two bytes each. */
  method FillUnits(was: slot, off: nat, count: nat, name: seq<byte>, at: nat) returns (s: slot)
    requires off + 2 * count <= SLOT
    ensures forall b :: 0 <= b < SLOT && !(off <= b < off + 2 * count) ==> s[b] == was[b]
    ensures forall ci :: 0 <= ci < count ==> Unit(s, off + 2 * ci) == CharUnit(name, at + ci)
  {
    s := was;
    for ci := 0 to count
      invariant forall b :: 0 <= b < SLOT && !(off <= b < off + 2 * ci) ==> s[b] == was[b]
      invariant forall cj :: 0 <= cj < ci ==> Unit(s, off + 2 * cj) == CharUnit(name, at + cj)
    {
      var charOff := off + ci * 2;
      var ch := CharUnit(name, at + ci);
      s := s[charOff := ch % 0x100][charOff + 1 := ch / 0x100];
    }
  }

  /** Part p of a long name. */
  method FillPart(was: slot, name: seq<byte>, p: nat, short: seq<byte>, checksum: byte) returns (s: slot)
    requires p < SlotCount(name) <= 15 && checksum == Checksum(short)
    ensures Part(s, name, p) && Sealed(s, was, short)
  {
    hide Unit, CharUnit, SlotCount, Checksum;
    var order: byte := if p == SlotCount(name) - 1 then p + 1 + 0x40 else p + 1;
    s := was[0 := order][11 := ATTR_LFN][12 := 0][13 := checksum];
    s := FillUnits(s, 1, 5, name, p * UNITS);
    ghost var s1 := s;
    s := FillUnits(s, 14, 6, name, p * UNITS + 5);
    ghost var s2 := s;
    s := FillUnits(s, 28, 2, name, p * UNITS + 11);
    PartFilled(s1, s2, s, name, p);
  }

  lemma PartFilled(s1: slot, s2: slot, s: slot, name: seq<byte>, p: nat)
    requires forall ci :: 0 <= ci < 5 ==> Unit(s1, 1 + 2 * ci) == CharUnit(name, p * UNITS + ci)
    requires forall ci :: 0 <= ci < 6 ==> Unit(s2, 14 + 2 * ci) == CharUnit(name, p * UNITS + 5 + ci)
    requires forall ci :: 0 <= ci < 2 ==> Unit(s, 28 + 2 * ci) == CharUnit(name, p * UNITS + 11 + ci)
    requires s1[..14] == s2[..14] && s2[..28] == s[..28]
    ensures forall c {:trigger UnitOffset(c)} :: 0 <= c < UNITS ==>
              Unit(s, UnitOffset(c)) == CharUnit(name, UNITS * p + c)
  {
    hide CharUnit;
    forall c | 0 <= c < UNITS
      ensures Unit(s, UnitOffset(c)) == CharUnit(name, UNITS * p + c)
    {
      var off := UnitOffset(c);
      assert off + 1 < 28 ==> s[..28][off] == s2[..28][off] && s[..28][off + 1] == s2[..28][off + 1];
      assert off + 1 < 14 ==> s1[..14][off] == s2[..14][off] && s1[..14][off + 1] == s2[..14][off + 1];
      if c < 5 {
        assert Unit(s1, 1 + 2 * c) == CharUnit(name, p * UNITS + c);
      } else if c < 11 {
        assert Unit(s2, 14 + 2 * (c - 5)) == CharUnit(name, p * UNITS + 5 + (c - 5));
      } else {
        assert Unit(s, 28 + 2 * (c - 11)) == CharUnit(name, p * UNITS + 11 + (c - 11));
      }
    }
  }

  /**
   In the sector, the slots from i on hold the parts of the name and behind them the short entry; the others are
   kept.
   */
  ghost predicate EntryWritten(now: seq<byte>, was: seq<byte>, i: nat, name: seq<byte>,
                               short: seq<byte>, attr: byte, cluster: nat, size: nat)
    requires |was| == BLOCK && |now| == BLOCK && i + SlotCount(name) < PER_SECTOR
  {
    var n := SlotCount(name);
    && (forall j {:trigger SlotOf(now, j)} :: 0 <= j < PER_SECTOR && !(i <= j <= i + n) ==>
        SlotOf(now, j) == SlotOf(was, j))
    && (forall j {:trigger SlotOf(now, j)} :: i <= j < i + n ==>
        Part(SlotOf(now, j), name, i + n - 1 - j) && Sealed(SlotOf(now, j), SlotOf(was, j), short))
    && ShortEntry(SlotOf(now, i + n), SlotOf(was, i + n), short, attr, cluster, size)
  }

  method FillEntry(was: seq<byte>, i: nat, name: seq<byte>, short: seq<byte>, attr: byte, cluster: nat, size: nat,
                   checksum: byte) returns (now: seq<byte>)
    requires |was| == BLOCK && i + SlotCount(name) < PER_SECTOR && |short| == 11 && cluster < U32 && size < U32
    requires checksum == Checksum(short)
    ensures |now| == BLOCK && EntryWritten(now, was, i, name, short, attr, cluster, size)
  {
    hide SlotOf, Part, Sealed, ShortEntry, SlotCount, Patched, Checksum;
    now := was;
    var n := SlotCount(name);
    for m := 0 to n
      invariant |now| == BLOCK
      invariant forall j {:trigger SlotOf(now, j)} :: 0 <= j < PER_SECTOR && !(i <= j < i + m) ==>
                  SlotOf(now, j) == SlotOf(was, j)
      invariant forall j {:trigger SlotOf(now, j)} :: i <= j < i + m ==>
                  Part(SlotOf(now, j), name, i + n - 1 - j) && Sealed(SlotOf(now, j), SlotOf(was, j), short)
    {
      var s := FillPart(SlotOf(now, i + m), name, n - 1 - m, short, checksum);
      PatchedSlots(now, i + m, s);
      now := Patched(now, (i + m) * SLOT, s);
    }
    var s := FillShort(SlotOf(now, i + n), short, attr, cluster, size);
    PatchedSlots(now, i + n, s);
    now := Patched(now, (i + n) * SLOT, s);
  }

  /**
   What `create_dir_entry` leaves: in the first run of free slots, of the directory as it was or with one more
   sector, stand the parts of the name and the short entry. All other slots are as before.
   */
  ghost predicate Created(v0: View, v1: View, dir: nat, ci: nat, i: nat, name: seq<byte>,
                          short: seq<byte>, attr: byte, cluster: nat, size: nat)
  {
    && Kept(v0, v1, dir) && Sectors(v0.data, v0.files[dir]) && Sectors(v1.data, v1.files[dir])
    && ci < |v1.files[dir]| && i + SlotCount(name) < PER_SECTOR
    && (|v1.files[dir]| > |v0.files[dir]| ==> ci + 1 == |v1.files[dir]| == |v0.files[dir]| + 1)
    && var before, after, n, at := Enlarged(v0, v1, dir), SlotsOf(v1.data, v1.files[dir]), SlotCount(name),
        PER_SECTOR * ci + i;
    && |after| == |before| && Run(before, ci, i, n + 1) && NoRun(before, ci, i + n, n + 1)
    && (forall k {:trigger after[k]} :: 0 <= k < |after| && !(at <= k <= at + n) ==> after[k] == before[k])
    && (forall k {:trigger after[k]} :: at <= k < at + n ==> Sealed(after[k], before[k], short))
    && Parts(after, at, name) && ShortEntry(after[at + n], before[at + n], short, attr, cluster, size)
  }

  lemma CreatedAt(v0: View, v1: View, dir: nat, ci: nat, i: nat, name: seq<byte>,
                  short: seq<byte>, attr: byte, cluster: nat, size: nat, now: seq<byte>)
    requires Chosen(v0, v1, dir, ci, i, SlotCount(name) + 1) && i + SlotCount(name) < PER_SECTOR && |now| == BLOCK
    requires forall j :: 0 <= j < |v1.files[dir]| && j != ci ==> v1.files[dir][j] != v1.files[dir][ci]
    requires v1.files[dir][ci] < |v1.data| && |v1.data[v1.files[dir][ci]]| == BLOCK
    requires EntryWritten(now, v1.data[v1.files[dir][ci]], i, name, short, attr, cluster, size)
    ensures Created(v0, v1.(data := v1.data[v1.files[dir][ci] := now]), dir, ci, i, name, short, attr, cluster, size)
  {
    hide Run, NoRun, SlotOf, ShortEntry, Part, Sealed, SlotCount, SlotsOf;
    var chain, c := v1.files[dir], v1.files[dir][ci];
    var v2 := v1.(data := v1.data[c := now]);
    assert c in chain;
    assert Kept(v0, v2, dir);
    var n, at := SlotCount(name), PER_SECTOR * ci + i;
    assert Sectors(v2.data, chain) by { SectorsKept(v1.data, chain, ci, now); }
    var before, after := SlotsOf(v1.data, chain), SlotsOf(v2.data, chain);
    assert Enlarged(v0, v2, dir) == before;
    forall k | 0 <= k < |after|
      ensures !(at <= k <= at + n) ==> after[k] == before[k]
      ensures at <= k < at + n ==> Part(after[k], name, at + n - 1 - k) && Sealed(after[k], before[k], short)
      ensures k == at + n ==> ShortEntry(after[k], before[k], short, attr, cluster, size)
    {
      var cj, j := k / PER_SECTOR, k % PER_SECTOR;
      SlotHere(v1.data, chain, cj, j);
      SlotHere(v2.data, chain, cj, j);
    }
    forall p | 0 <= p < n
      ensures PartAt(after, at, name, p)
    {
      assert Part(after[at + n - 1 - p], name, p);
    }
  }

  lemma SectorsKept(data: seq<seq<byte>>, chain: seq<nat>, ci: nat, now: seq<byte>)
    requires Sectors(data, chain) && ci < |chain| && |now| == BLOCK
    ensures chain[ci] < |data| && Sectors(data[chain[ci] := now], chain)
  {
  }

  /** Scans one sector for the run, counting free slots side by side. */
  method FindRun(sector: seq<byte>, total: nat, ghost v0: View, ghost v1: View, ghost dir: nat, ghost ci: nat)
    returns (start: Option<nat>, ghost count: nat)
    requires Searching(v0, v1, dir, ci, 0, 0, total) && dir in v1.files && ci < |v1.files[dir]|
    requires v1.files[dir][ci] < |v1.data|
    requires |sector| == BLOCK && sector == v1.data[v1.files[dir][ci]]
    ensures start.Some? ==> Chosen(v0, v1, dir, ci, start.value, total) && start.value + total <= PER_SECTOR
    ensures start.None? ==> Searching(v0, v1, dir, ci, PER_SECTOR, count, total)
  {
    hide Searching, Chosen, SlotOf, IsFree;
    var freeStart: Option<nat>, freeCount: nat := None, 0;
    for i := 0 to PER_SECTOR
      invariant Searching(v0, v1, dir, ci, i, freeCount, total)
      invariant freeStart == if freeCount == 0 then None else Some(i - freeCount)
    {
      SearchSlot(v0, v1, dir, ci, i, freeCount, total);
      if IsFree(SlotOf(sector, i)) {
        if freeStart.None? {
          freeStart := Some(i);
        }
        freeCount := freeCount + 1;
        if freeCount >= total {
          return freeStart, freeCount;
        }
      } else {
        freeStart, freeCount := None, 0;
      }
    }
    return None, freeCount;
  }

  /**
   Puts an entry into the first run of free slots that holds the parts of its long name and its short entry.
   `short` is the short name that `make_short_name` gives.
   */
  method CreateDirEntry(fs: Fs, dir: nat, name: seq<byte>, short: seq<byte>, attr: byte, firstCluster: nat,
                        fileSize: nat) returns (r: Option<(nat, nat)>, ghost ci: nat, ghost i: nat)
    requires fs.Valid() && dir in fs.files && |short| == 11 && firstCluster < U32 && fileSize < U32
    modifies fs, fs.disk
    ensures fs.Valid() && dir in fs.files
    ensures r.None? ==> NoRoom(old(fs.Now()), fs.Now(), dir, SlotCount(name) + 1)
    ensures r.Some? ==> Created(old(fs.Now()), fs.Now(), dir, ci, i, name, short, attr, firstCluster, fileSize)
    ensures r.Some? ==> ci < |fs.files[dir]| && fs.files[dir][ci] >= 2
    ensures r.Some? ==> r.value == (fs.ClusterToSector(fs.files[dir][ci]), (i + SlotCount(name)) * SLOT)
  {
    hide Fs.Valid, Searching, Chosen, Grown, NoRoom, Created, EntryWritten, SlotCount, Full, FreeSet, Checksum;
    fs.ChainKnown(dir);
    var checksum := LfnChecksum(short);
    ghost var v0, count := fs.Now(), 0;
    var cluster, total := dir, SlotCount(name) + 1;
    ci, i := 0, 0;
    SearchStart(v0, dir, total);
    while true
      invariant fs.Valid() && dir in fs.files && ci < |fs.files[dir]| && cluster == fs.files[dir][ci]
      invariant Searching(v0, fs.Now(), dir, ci, 0, 0, total)
      decreases |FreeSet(fs.fat)|, |fs.files[dir]| - ci
    {
      ghost var v1 := fs.Now();
      fs.ChainKnown(dir);
      var read := fs.ReadSector(cluster);
      var sector, start := read.value, None;
      start, count := FindRun(sector, total, v0, v1, dir, ci);
      if start.Some? {
        i := start.value;
        var now := FillEntry(sector, start.value, name, short, attr, firstCluster, fileSize, checksum);
        fs.Distinct(dir, ci);
        CreatedAt(v0, v1, dir, ci, i, name, short, attr, firstCluster, fileSize, now);
        var ok := fs.OverwriteSector(cluster, now);
        return Some((fs.ClusterToSector(cluster), (start.value + SlotCount(name)) * SLOT)), ci, i;
      }
      var next := fs.Follow(cluster, dir, ci);
      if next.Some? {
        SearchNext(v0, v1, dir, ci, count, total);
        cluster := next.value;
      } else {
        next := fs.ExtendChain(dir, cluster);
        if next.None? {
          SearchFailed(v0, v1, dir, ci, count, total);
          return None, ci, i;
        }
        SearchGrown(v0, v1, fs.Now(), dir, ci, count, total, cluster, next.value);
        FewerFree(v1, fs.Now(), dir, cluster, next.value);
        cluster := next.value;
      }
      ci := ci + 1;
    }
  }

  lemma FewerFree(v1: View, v2: View, dir: nat, last: nat, c: nat)
    requires Grown(v1, v2, dir, last, c)
    ensures |FreeSet(v2.fat)| < |FreeSet(v1.fat)|
    ensures dir in v1.files && dir in v2.files && v2.files[dir] == v1.files[dir] + [c]
  {
    assert FreeSet(v2.fat) <= FreeSet(v1.fat) - {c};
    Smaller(FreeSet(v2.fat), FreeSet(v1.fat) - {c});
  }

  lemma {:induction false} Smaller(a: set<nat>, b: set<nat>)
    requires a <= b
    ensures |a| <= |b|
    decreases a
  {
    if x :| x in a {
      Smaller(a - {x}, b - {x});
    }
  }
}
