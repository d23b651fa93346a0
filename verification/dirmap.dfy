/**
 A directory whose entries are all short ones is a finite map from upper-case names to entries: what
 `create_dir_entry`, `find_entry` and `delete_dir_entry` (user/programs/fs-server/src/main.rs) do to the slots is
 insertion, lookup and removal.
 */
module DirMap {
  import opened Wrappers
  import opened Words
  import opened FatTable
  import opened Fat32
  import opened DirSlots
  import opened Directory

  /** What an entry says about its file. */
  datatype Meta = Meta(attr: byte, cluster: nat, size: nat)

  function MetaOf(s: slot): Meta {
    Meta(s[11], Le32(s[26], s[27], s[20], s[21]), Le32(s[28], s[29], s[30], s[31]))
  }

  type Index = map<seq<byte>, nat>     // upper-case name -> slot

  /** There are no slots of long names. */
  ghost predicate Plain(slots: seq<slot>) {
    forall k {:trigger slots[k]} :: 0 <= k < |slots| && !IsFree(slots[k]) ==> IsShort(slots[k])
  }

  /** The slot of every live entry is the one that the index gives for its name. */
  ghost predicate Indexed(slots: seq<slot>, at: Index) {
    && (forall k: nat {:trigger Live(slots, k)} :: Live(slots, k) ==>
          UpperName(NameAt(slots, k)) in at && at[UpperName(NameAt(slots, k))] == k)
    && (forall n {:trigger at[n]} :: n in at ==> Live(slots, at[n]) && UpperName(NameAt(slots, at[n])) == n)
  }

  ghost predicate IsMap(slots: seq<slot>, at: Index) {
    Plain(slots) && EndsOnce(slots) && Indexed(slots, at)
  }

  ghost function Contents(slots: seq<slot>, at: Index): map<seq<byte>, Meta>
    requires IsMap(slots, at)
  {
    map n | n in at :: MetaOf(slots[at[n]])
  }

  lemma {:induction false} PlainState(slots: seq<slot>, k: nat)
    requires Plain(slots) && k <= |slots|
    ensures StateAt(slots, k).len == 0
  {
    if k > 0 {
      PlainState(slots, k - 1);
      assert IsFree(slots[k - 1]) || IsShort(slots[k - 1]);
    }
  }

  /** A fresh directory is the empty map. */
  lemma EmptyIsMap(n: nat)
    ensures IsMap(ZeroSlots(n), map[])
  {
  }

  /** Looking a name up in the slots is looking it up in the map, in whatever case it is written. */
  lemma FindIs(slots: seq<slot>, at: Index, name: seq<byte>)
    requires IsMap(slots, at)
    ensures UpperName(name) in at ==> FirstMatch(slots, at[UpperName(name)], name)
    ensures UpperName(name) in at ==> forall k: nat :: FirstMatch(slots, k, name) ==> k == at[UpperName(name)]
    ensures UpperName(name) !in at ==> NoMatch(slots, name) && forall k: nat :: !FirstMatch(slots, k, name)
  {
    hide NameAt, IsShort, EndsOnce, UpperName, Plain, SameName;
    var n := UpperName(name);
    forall k: nat | Matches(slots, k, name)
      ensures n in at && at[n] == k
    {
      assert Live(slots, k);
      UpperSame(NameAt(slots, k), name);
    }
    if n in at {
      assert Live(slots, at[n]);
      UpperSame(NameAt(slots, at[n]), name);
      assert Matches(slots, at[n], name);
    }
  }

  lemma DeleteIs(slots: seq<slot>, at: Index, k: nat)
    requires IsMap(slots, at) && Live(slots, k)
    ensures var n, slots' := UpperName(NameAt(slots, k)), slots[k := Dead(slots[k])];
            IsMap(slots', at - {n}) && Contents(slots', at - {n}) == Contents(slots, at) - {n}
  {
    hide NameAt, UpperName, Live;
    var n, slots', at' := UpperName(NameAt(slots, k)), slots[k := Dead(slots[k])], at - {UpperName(NameAt(slots, k))};
    assert IsShort(slots[k]) by { LiveShort(slots, k); }
    Deleting(slots, k, Dead(slots[k]));
    assert at[n] == k;
    forall m | m in at'
      ensures Live(slots', at[m]) && UpperName(NameAt(slots', at[m])) == m && at[m] != k
    {
      assert Live(slots, at[m]);
    }
    forall j: nat | Live(slots', j)
      ensures UpperName(NameAt(slots', j)) in at' && at'[UpperName(NameAt(slots', j))] == j
    {
      assert Live(slots, j);
    }
  }

  lemma LiveShort(slots: seq<slot>, k: nat)
    requires Live(slots, k)
    ensures IsShort(slots[k])
  {
  }

  lemma CreateIs(slots: seq<slot>, at: Index, k: nat, s: slot, name: seq<byte>)
    requires IsMap(slots, at) && FirstFree(slots, k) && IsShort(s)
    requires UpperName(ShortName(s)) == UpperName(name) && UpperName(name) !in at
    ensures var n, slots' := UpperName(name), slots[k := s];
            IsMap(slots', at[n := k]) && Contents(slots', at[n := k]) == Contents(slots, at)[n := MetaOf(s)]
  {
    hide UpperName, ShortName, NameAt, Live;
    var n, slots', at' := UpperName(name), slots[k := s], at[UpperName(name) := k];
    PlainState(slots, k);
    Creating(slots, k, s);
    NotLive(slots, k);
    forall m {:trigger at'[m]} | m in at'
      ensures Live(slots', at'[m]) && UpperName(NameAt(slots', at'[m])) == m
    {
      if m != n { assert Live(slots, at[m]); }
    }
    forall j: nat | Live(slots', j)
      ensures UpperName(NameAt(slots', j)) in at' && at'[UpperName(NameAt(slots', j))] == j
    {
      if j != k { assert Live(slots, j); }
    }
    assert forall m :: m in at ==> at[m] != k && at[m] < |slots|;
  }

  lemma NotLive(slots: seq<slot>, k: nat)
    requires k < |slots| && IsFree(slots[k])
    ensures !Live(slots, k)
  {
  }

  /** A sector of free slots behind slots that are all in use changes nothing. */
  lemma EnlargeIs(slots: seq<slot>, at: Index, n: nat)
    requires IsMap(slots, at) && (n > 0 ==> forall j {:trigger slots[j]} :: 0 <= j < |slots| ==> !IsFree(slots[j]))
    ensures IsMap(slots + ZeroSlots(n), at) && Contents(slots + ZeroSlots(n), at) == Contents(slots, at)
  {
    var slots' := slots + ZeroSlots(n);
    hide UpperName, NameAt, Live, IsShort;
    forall k: nat
      ensures Live(slots', k) <==> Live(slots, k)
      ensures Live(slots, k) ==> NameAt(slots', k) == NameAt(slots, k)
    {
      Longer(slots, ZeroSlots(n), k);
    }
    forall m | m in at
      ensures Live(slots', at[m]) && UpperName(NameAt(slots', at[m])) == m && slots'[at[m]] == slots[at[m]]
    {
      assert Live(slots, at[m]);
    }
    forall j: nat | Live(slots', j)
      ensures UpperName(NameAt(slots', j)) in at && at[UpperName(NameAt(slots', j))] == j
    {
      assert Live(slots, j);
    }
  }

  lemma Longer(slots: seq<slot>, more: seq<slot>, k: nat)
    requires forall j {:trigger more[j]} :: 0 <= j < |more| ==> IsFree(more[j])
    ensures Live(slots + more, k) <==> Live(slots, k)
    ensures Live(slots, k) ==> NameAt(slots + more, k) == NameAt(slots, k)
  {
    hide ShortName, LongName;
    var slots' := slots + more;
    if k < |slots| {
      assert slots'[..k] == slots[..k];
      assert forall j :: 0 <= j <= k ==> slots'[j] == slots[j];
      SamePrefix(slots', slots, k);
    } else if k < |slots'| {
      assert slots'[k] == more[k - |slots|];
    }
  }

  // ---- The operations on the disk ----

  ghost predicate DirIs(v: View, dir: nat, at: Index) {
    dir in v.files && Sectors(v.data, v.files[dir]) && IsMap(SlotsOf(v.data, v.files[dir]), at)
  }

  ghost function DirContents(v: View, dir: nat, at: Index): map<seq<byte>, Meta>
    requires DirIs(v, dir, at)
  {
    Contents(SlotsOf(v.data, v.files[dir]), at)
  }

  lemma ShortNames(name: seq<byte>)
    requires Valid83(name)
    ensures name != [] && SlotCount(name) == 0
  {
    NameParts(name);
  }

  /** The first run of one free slot is the first free slot. */
  lemma FirstRunIsFirst(slots: seq<slot>, ci: nat, i: nat)
    requires Run(slots, ci, i, 1) && NoRun(slots, ci, i, 1)
    ensures FirstFree(slots, PER_SECTOR * ci + i)
  {
    forall k | 0 <= k < PER_SECTOR * ci + i
      ensures !IsFree(slots[k])
    {
      var cj, j := k / PER_SECTOR, k % PER_SECTOR;
      assert k == PER_SECTOR * cj + j;
      if cj < ci {
        assert !Run(slots, cj, j, 1);
      } else {
        assert cj == ci && !Run(slots, ci, j, 1);
      }
    }
  }

  /** Creating an entry under a new name puts exactly it into the map. */
  lemma CreatedIs(v0: View, v1: View, dir: nat, at: Index, ci: nat, i: nat, name: seq<byte>, attr: byte, cluster: nat,
          size: nat)
    requires DirIs(v0, dir, at) && Valid83(name) && name[|name| - 1] != DOT && UpperName(name) !in at
    requires attr != ATTR_LFN
    requires Created(v0, v1, dir, ci, i, name, MakeShort(name), attr, cluster, size)
    ensures var n, at' := UpperName(name), at[UpperName(name) := PER_SECTOR * ci + i];
            DirIs(v1, dir, at') && DirContents(v1, dir, at') == DirContents(v0, dir, at)[n := Meta(attr, cluster, size)]
  {
    hide Valid83, MakeShort, UpperName, ShortName, IsMap, Kept, SlotsOf, Run, NoRun, SlotCount;
    ShortNames(name);
    KeptOf(v0, v1, dir);
    var before, after, k := Enlarged(v0, v1, dir), SlotsOf(v1.data, v1.files[dir]), PER_SECTOR * ci + i;
    FirstRunIsFirst(before, ci, i);
    var s := after[k];
    ListedAs(name, s);
    var slots := SlotsOf(v0.data, v0.files[dir]);
    assert |v1.files[dir]| > |v0.files[dir]| ==> forall j :: 0 <= j < |slots| ==>
        slots[j] == before[j] && !IsFree(slots[j]);
    EnlargeIs(slots, at, PER_SECTOR * (|v1.files[dir]| - |v0.files[dir]|));
    CreateIs(before, at, k, s, name);
    assert after == before[k := s];
  }

  /** Deleting the entry of a name takes exactly it out of the map. */
  lemma DeletedIs(v0: View, v1: View, dir: nat, at: Index, name: seq<byte>)
    requires DirIs(v0, dir, at) && Deleted(v0, v1, dir, name)
    ensures UpperName(name) in at
    ensures var n := UpperName(name);
            DirIs(v1, dir, at - {n}) && DirContents(v1, dir, at - {n}) == DirContents(v0, dir, at) - {n}
  {
    hide UpperName, NameAt, IsMap, SlotsOf, Live;
    var slots := SlotsOf(v0.data, v0.files[dir]);
    FindIs(slots, at, name);
    var k: nat :| k < |slots| && FirstMatch(slots, k, name)
        && SlotsOf(v1.data, v0.files[dir]) == slots[k := Dead(slots[k])];
    UpperSame(NameAt(slots, k), name);
    DeleteIs(slots, at, k);
  }

  /** `FS_CREATE_OPEN` and `FS_MKDIR` come here when the name was not found. */
  method Create(fs: Fs, dir: nat, name: seq<byte>, attr: byte, cluster: nat, size: nat, ghost at: Index)
    returns (ok: bool, ghost at': Index)
    requires fs.Valid() && DirIs(fs.Now(), dir, at) && cluster < U32 && size < U32
    requires Valid83(name) && name[|name| - 1] != DOT && UpperName(name) !in at && attr != ATTR_LFN
    modifies fs, fs.disk
    ensures fs.Valid() && DirIs(fs.Now(), dir, at') && Kept(old(fs.Now()), fs.Now(), dir)
    ensures ok ==>
              DirContents(fs.Now(), dir, at') ==
                old(DirContents(fs.Now(), dir, at))[UpperName(name) := Meta(attr, cluster, size)]
    ensures !ok ==> Full(fs.Now()) && DirContents(fs.Now(), dir, at') == old(DirContents(fs.Now(), dir, at))
  {
    hide Fs.Valid, Valid83, UpperName, MakeShort, Created, Contents, IsMap, NoRun, SlotsOf, Full;
    ghost var v0 := fs.Now();
    ShortNames(name);
    var r;
    ghost var ci, i;
    r, ci, i := CreateDirEntry(fs, dir, name, MakeShort(name), attr, cluster, size);
    if r.None? {
      assert Enlarged(v0, fs.Now(), dir) == SlotsOf(v0.data, v0.files[dir]);
      return false, at;
    }
    CreatedKept(v0, fs.Now(), dir, ci, i, name, MakeShort(name), attr, cluster, size);
    CreatedIs(v0, fs.Now(), dir, at, ci, i, name, attr, cluster, size);
    return true, at[UpperName(name) := PER_SECTOR * ci + i];
  }

  lemma CreatedKept(v0: View, v1: View, dir: nat, ci: nat, i: nat, name: seq<byte>,
                    short: seq<byte>, attr: byte, cluster: nat, size: nat)
    requires Created(v0, v1, dir, ci, i, name, short, attr, cluster, size)
    ensures Kept(v0, v1, dir)
  {
    hide Kept, SlotsOf, Run, NoRun, Parts;
  }

  lemma DeletedKept(v0: View, v1: View, dir: nat, name: seq<byte>)
    requires Deleted(v0, v1, dir, name) && |v0.fat| == |v0.data|
    ensures Kept(v0, v1, dir)
  {
    hide SlotsOf, FirstMatch;
    assert v0.files == v0.files[dir := v0.files[dir]];
  }

  lemma SelfKept(v: View, dir: nat)
    requires dir in v.files && |v.fat| == |v.data|
    ensures Kept(v, v, dir)
  {
    assert v.files == v.files[dir := v.files[dir]];
  }

  /** What is done in one directory leaves every other one as it is, as a map and in each of its slots. */
  lemma OtherDirectory(v0: View, v1: View, dir: nat, other: nat, at: Index)
    requires Partition(v0.fat, v0.files, v0.places) && Partition(v1.fat, v1.files, v1.places)
    requires Sized(v0.data) && Sized(v1.data) && Kept(v0, v1, dir) && other != dir && DirIs(v0, other, at)
    ensures DirIs(v1, other, at) && DirContents(v1, other, at) == DirContents(v0, other, at)
    ensures SlotsOf(v1.data, v1.files[other]) == SlotsOf(v0.data, v0.files[other])
  {
    hide IsMap, Contents;
    ChainSectors(v1.fat, v1.data, v1.files, v1.places, other);
    var chain := v0.files[other];
    forall i | 0 <= i < |chain|
      ensures v1.data[chain[i]] == v0.data[chain[i]]
    {
      OtherSector(v0, v1, dir, other, i);
    }
    assert SlotsOf(v1.data, v1.files[other]) == SlotsOf(v0.data, v0.files[other]);
  }

  lemma OtherSector(v0: View, v1: View, dir: nat, other: nat, i: nat)
    requires Partition(v1.fat, v1.files, v1.places) && Kept(v0, v1, dir) && other in v0.files && other != dir
    requires i < |v0.files[other]| && v0.files[other][i] < |v0.data|
    ensures other in v1.files && v1.files[other] == v0.files[other]
    ensures v1.data[v0.files[other][i]] == v0.data[v0.files[other][i]]
  {
    var c := v0.files[other][i];
    if c in v1.files[dir] {
      var j :| 0 <= j < |v1.files[dir]| && v1.files[dir][j] == c;
      ChainsDisjoint(v1.fat, v1.files, v1.places, other, i, dir, j);
      assert false;
    }
  }

  method Lookup(fs: Fs, dir: nat, name: seq<byte>, ghost at: Index) returns (r: Option<Meta>)
    requires fs.Valid() && DirIs(fs.Now(), dir, at)
    ensures r == if UpperName(name) in at then Some(DirContents(fs.Now(), dir, at)[UpperName(name)]) else None
  {
    hide Fs.Valid, UpperName, FirstMatch, IsMap, NoMatch, SlotsOf;
    var found := FindEntry(fs, dir, name);
    FindIs(SlotsOf(fs.data, fs.files[dir]), at, name);
    if found.None? {
      NotBoth(SlotsOf(fs.data, fs.files[dir]), at, name);
      return None;
    }
    return Some(MetaOf(found.value));
  }

  lemma NotBoth(slots: seq<slot>, at: Index, name: seq<byte>)
    requires IsMap(slots, at) && NoMatch(slots, name)
    ensures UpperName(name) !in at
  {
    FindIs(slots, at, name);
  }

  method Remove(fs: Fs, dir: nat, name: seq<byte>, ghost at: Index) returns (ok: bool)
    requires fs.Valid() && DirIs(fs.Now(), dir, at)
    modifies fs, fs.disk
    ensures fs.Valid() && ok == (UpperName(name) in at) && Kept(old(fs.Now()), fs.Now(), dir)
    ensures DirIs(fs.Now(), dir, at - {UpperName(name)})
    ensures DirContents(fs.Now(), dir, at - {UpperName(name)}) ==
              old(DirContents(fs.Now(), dir, at)) - {UpperName(name)}
  {
    hide Fs.Valid, UpperName, Deleted, IsMap, Contents, NoMatch, SlotsOf;
    ghost var v0 := fs.Now();
    fs.ChainKnown(dir);
    ok := DeleteDirEntry(fs, dir, name);
    if ok {
      DeletedIs(v0, fs.Now(), dir, at, name);
      DeletedKept(v0, fs.Now(), dir, name);
    } else {
      SelfKept(v0, dir);
      NotBoth(SlotsOf(fs.data, fs.files[dir]), at, name);
      assert at - {UpperName(name)} == at;
      assert DirContents(v0, dir, at) - {UpperName(name)} == DirContents(v0, dir, at) by { ContentsKeys(v0, dir, at); }
    }
  }

  lemma ContentsKeys(v: View, dir: nat, at: Index)
    requires DirIs(v, dir, at)
    ensures DirContents(v, dir, at).Keys == at.Keys
  {
  }

  /**
   An entry created under a long name is listed under it; no terminator and more characters pending is the one
   exception (`LongNameReadBack`). But the walk only comes to it when no slot before it marks the end, which a
   name that did not fit behind such a slot in its sector has before it.
   */
  lemma LongNameListed(v0: View, v1: View, dir: nat, ci: nat, i: nat, name: seq<byte>,
                       short: seq<byte>, attr: byte, cluster: nat, size: nat)
    requires LongAscii(name) && Created(v0, v1, dir, ci, i, name, short, attr, cluster, size)
    requires |short| == 11 && short[0] != FREE_END && short[0] != DELETED && attr != ATTR_LFN
    ensures var slots, at, n := SlotsOf(v1.data, v1.files[dir]), PER_SECTOR * ci + i, SlotCount(name);
            && at + n < |slots|
            && (Live(slots, at + n) <==> forall j :: 0 <= j < at ==> slots[j][0] != FREE_END)
            && (|name| % 13 != 0 || StateAt(slots, at).len <= |name| ==> NameAt(slots, at + n) == name)
  {
    hide Kept, SlotsOf, Run, NoRun, LongAscii, SlotCount, Live, NameAt, StateAt, Parts;
    KeptOf(v0, v1, dir);
    var slots, at, n := SlotsOf(v1.data, v1.files[dir]), PER_SECTOR * ci + i, SlotCount(name);
    var s := slots[at + n];
    assert s[..11][0] == s[0];
    LongListed(slots, at, name);
  }

  lemma LongListed(slots: seq<slot>, at: nat, name: seq<byte>)
    requires LongAscii(name) && Parts(slots, at, name) && at + SlotCount(name) < |slots|
    requires IsShort(slots[at + SlotCount(name)])
    ensures Live(slots, at + SlotCount(name)) <==> forall j :: 0 <= j < at ==> slots[j][0] != FREE_END
    ensures |name| % 13 != 0 || StateAt(slots, at).len <= |name| ==> NameAt(slots, at + SlotCount(name)) == name
  {
    hide LongAscii, SlotCount, StateAt, LongName, Text, Parts, ShortName;
    LongNameReadBack(slots, at, name);
    PartsInUse(slots, at, name);
  }

  lemma PartsInUse(slots: seq<slot>, at: nat, name: seq<byte>)
    requires LongAscii(name) && Parts(slots, at, name)
    ensures forall j :: at <= j < at + SlotCount(name) ==> slots[j][0] != FREE_END
  {
    CountBounds(name);
    hide SlotCount, LongAscii, CharUnit, Unit;
    forall j | at <= j < at + SlotCount(name)
      ensures slots[j][0] != FREE_END
    {
      assert PartAt(slots, at, name, at + SlotCount(name) - 1 - j);
    }
  }
}
