/**
 The file allocation table (user/programs/fs-server/src/main.rs): chains of clusters over a table of
 28-bit entries, as in "FAT Data Structure" of the Microsoft FAT32 File System Specification.
 This module is about the table's values; module Fat32 is the engine that keeps them on the disk.
 */
module FatTable {
  import opened Words

  const FREE: nat := 0
  const EOC: nat := 0x0FFF_FFF8
  const ENTRY: nat := 0x1000_0000      // entries are read modulo 2^28

  /** The source follows an entry exactly when it names a data cluster. */
  predicate HasNext(entry: nat) {
    2 <= entry < EOC
  }

  /** Where a cluster stands: in the chain that starts at `head`, at `index`. */
  datatype Place = Place(head: nat, index: nat)

  type Chains = map<nat, seq<nat>>     // first cluster -> the whole chain
  type Places = map<nat, Place>

  ghost predicate Placed(files: Chains, places: Places, h: nat, i: nat)
    requires h in files && i < |files[h]|
  {
    files[h][i] in places && places[files[h][i]] == Place(h, i)
  }

  /** The entry of cluster c names the next cluster of its chain, or ends it. */
  ghost predicate Entry(fat: seq<nat>, files: Chains, places: Places, c: nat)
    requires c in places
  {
    var p := places[c];
    && 2 <= c < |fat| && p.head in files && p.index < |files[p.head]| && files[p.head][p.index] == c
    && (if p.index + 1 < |files[p.head]| then fat[c] == files[p.head][p.index + 1] else fat[c] >= EOC)
  }

  /** The table is cut into chains and free clusters: every cluster is free or at exactly one place of one chain. */
  ghost predicate Partition(fat: seq<nat>, files: Chains, places: Places) {
    && 2 <= |fat| <= EOC
    && (forall h :: h in files ==> files[h] != [] && files[h][0] == h)
    && (forall h, i {:trigger Placed(files, places, h, i)} :: h in files && 0 <= i < |files[h]| ==>
        Placed(files, places, h, i))
    && (forall c {:trigger Entry(fat, files, places, c)} :: c in places ==> Entry(fat, files, places, c))
    && (forall c {:trigger fat[c]} :: 2 <= c < |fat| && c !in places ==> fat[c] == FREE)
  }

  /** What following the table through a chain meets. */
  lemma ChainStep(fat: seq<nat>, files: Chains, places: Places, h: nat, i: nat)
    requires Partition(fat, files, places) && h in files && i < |files[h]|
    ensures 2 <= files[h][i] < |fat| && files[h][i] in places && places[files[h][i]] == Place(h, i)
    ensures i + 1 < |files[h]| ==> fat[files[h][i]] == files[h][i + 1] && HasNext(fat[files[h][i]])
    ensures i + 1 == |files[h]| ==> fat[files[h][i]] >= EOC
    ensures fat[files[h][i]] != FREE
  {
    assert Placed(files, places, h, i);
    assert Entry(fat, files, places, files[h][i]);
    if i + 1 < |files[h]| {
      assert Placed(files, places, h, i + 1);
      assert Entry(fat, files, places, files[h][i + 1]);
    }
  }

  /** No cluster is met twice, in one chain or in two. */
  lemma ChainsDisjoint(fat: seq<nat>, files: Chains, places: Places, h: nat, i: nat, g: nat, j: nat)
    requires Partition(fat, files, places) && h in files && i < |files[h]| && g in files && j < |files[g]|
    requires files[h][i] == files[g][j]
    ensures h == g && i == j
  {
    assert Placed(files, places, h, i) && Placed(files, places, g, j);
  }

  /** A cluster is free exactly when it stands nowhere. */
  lemma FreeIffNowhere(fat: seq<nat>, files: Chains, places: Places, c: nat)
    requires Partition(fat, files, places) && 2 <= c < |fat|
    ensures fat[c] == FREE <==> c !in places
  {
    if c in places {
      assert Entry(fat, files, places, c);
      ChainStep(fat, files, places, places[c].head, places[c].index);
    }
  }

  // ---- Conservation ----

  ghost function FreeSet(fat: seq<nat>): set<nat> {
    set c: nat | c < |fat| && 2 <= c && fat[c] == FREE
  }

  /** The lengths of all chains whose first cluster is below n. */
  ghost function TotalLength(files: Chains, n: nat): nat {
    if n == 0 then 0 else TotalLength(files, n - 1) + if n - 1 in files then |files[n - 1]| else 0
  }

  ghost function PlacesBelow(places: Places, n: nat): set<nat> {
    set c | c in places && places[c].head < n
  }

  lemma {:induction false} ChainCardinality(cs: seq<nat>, clusters: set<nat>)
    requires forall i, j :: 0 <= i < j < |cs| ==> cs[i] != cs[j]
    requires forall c :: c in clusters <==> c in cs
    ensures |clusters| == |cs|
  {
    if cs == [] {
      assert clusters == {};
    } else {
      assert cs[0] !in cs[1..];
      ChainCardinality(cs[1..], clusters - {cs[0]});
    }
  }

  lemma {:induction false} PlacesCardinality(fat: seq<nat>, files: Chains, places: Places, n: nat)
    requires Partition(fat, files, places)
    ensures |PlacesBelow(places, n)| == TotalLength(files, n)
  {
    if n == 0 {
      assert PlacesBelow(places, n) == {};
    } else {
      PlacesCardinality(fat, files, places, n - 1);
      var h := n - 1;
      var here := set c | c in places && places[c].head == h;
      assert PlacesBelow(places, n) == PlacesBelow(places, h) + here;
      if h in files {
        ChainCardinalityOf(fat, files, places, h, here);
      } else {
        assert here == {} by {
          forall c | c in places
            ensures places[c].head != h
          {
            assert Entry(fat, files, places, c);
          }
        }
      }
    }
  }

  lemma ChainCardinalityOf(fat: seq<nat>, files: Chains, places: Places, h: nat, here: set<nat>)
    requires Partition(fat, files, places) && h in files
    requires forall c :: c in here <==> c in places && places[c].head == h
    ensures |here| == |files[h]|
  {
    var cs := files[h];
    forall i, j | 0 <= i < j < |cs|
      ensures cs[i] != cs[j]
    {
      assert Placed(files, places, h, i) && Placed(files, places, h, j);
    }
    forall c
      ensures c in here <==> c in cs
    {
      if c in here { assert Entry(fat, files, places, c); }
      if c in cs {
        var i :| 0 <= i < |cs| && cs[i] == c;
        assert Placed(files, places, h, i);
      }
    }
    ChainCardinality(cs, here);
  }

  lemma {:induction false} RangeCardinality(s: set<nat>, lo: nat, hi: nat)
    requires lo <= hi && forall c :: c in s <==> lo <= c < hi
    ensures |s| == hi - lo
  {
    if lo < hi {
      RangeCardinality(s - {hi - 1}, lo, hi - 1);
    } else {
      assert s == {};
    }
  }

  /** Free clusters and chain lengths always add up to the number of data clusters. */
  lemma Conservation(fat: seq<nat>, files: Chains, places: Places)
    requires Partition(fat, files, places)
    ensures |FreeSet(fat)| + TotalLength(files, |fat|) == |fat| - 2
  {
    PlacesCardinality(fat, files, places, |fat|);
    var free, used := FreeSet(fat), PlacesBelow(places, |fat|);
    forall c: nat
      ensures c in free + used <==> 2 <= c < |fat|
      ensures !(c in free && c in used)
    {
      if 2 <= c < |fat| {
        FreeIffNowhere(fat, files, places, c);
      }
      if c in places {
        assert Entry(fat, files, places, c);
        var h := places[c].head;
        assert files[h][0] == h && Placed(files, places, h, 0);
        assert Entry(fat, files, places, h);
      }
    }
    RangeCardinality(free + used, 2, |fat|);
    assert |free + used| == |free| + |used| - |free * used| && free * used == {};
  }

  // ---- The changes the engine makes to the table ----

  /** Marking a free cluster as the end of a chain makes it a chain of its own. */
  lemma AllocKeeps(fat: seq<nat>, files: Chains, places: Places, c: nat)
    requires Partition(fat, files, places) && 2 <= c < |fat| && fat[c] == FREE
    ensures c !in places && c !in files
    ensures Partition(fat[c := EOC], files[c := [c]], places[c := Place(c, 0)])
  {
    assert c !in files by {
      if c in files { ChainStep(fat, files, places, c, 0); }
    }
    FreeIffNowhere(fat, files, places, c);
    var fat', files', places' := fat[c := EOC], files[c := [c]], places[c := Place(c, 0)];
    forall h, i | h in files' && 0 <= i < |files'[h]|
      ensures Placed(files', places', h, i)
    {
      if h != c { assert Placed(files, places, h, i); }
    }
    forall d | d in places'
      ensures Entry(fat', files', places', d)
    {
      if d != c { assert Entry(fat, files, places, d); }
    }
  }

  /** Pointing the end of the chain of h at a chain of one cluster joins the two. */
  lemma LinkKeeps(fat: seq<nat>, files: Chains, places: Places, h: nat, c: nat, last: nat)
    requires Partition(fat, files, places) && h in files && files[h] != [] && last == files[h][|files[h]| - 1] < |fat|
    requires c in files && c != h && files[c] == [c]
    ensures Partition(fat[last := c], (files - {c})[h := files[h] + [c]], places[c := Place(h, |files[h]|)])
  {
    var n := |files[h]|;
    var fat', files', places' := fat[last := c], (files - {c})[h := files[h] + [c]], places[c := Place(h, n)];
    assert Placed(files, places, h, n - 1) && Placed(files, places, c, 0);
    ChainStep(fat, files, places, c, 0);
    forall g, i | g in files' && 0 <= i < |files'[g]|
      ensures Placed(files', places', g, i)
    {
      if g != h || i < n { assert Placed(files, places, g, i); }
    }
    forall d | d in places'
      ensures Entry(fat', files', places', d)
    {
      assert Entry(fat, files, places, d);
    }
  }

  /** The table with every cluster of the set marked free. */
  function Freed(fat: seq<nat>, cs: set<nat>): (r: seq<nat>)
    ensures |r| == |fat|
    ensures forall c :: 0 <= c < |fat| ==> r[c] == if c in cs then FREE else fat[c]
  {
    seq(|fat|, c requires 0 <= c < |fat| => if c in cs then FREE else fat[c])
  }

  ghost function Members(places: Places, h: nat, from: nat): set<nat> {
    set c | c in places && places[c].head == h && places[c].index >= from
  }

  /** Freeing a whole chain drops it and leaves the others. */
  lemma FreeKeeps(fat: seq<nat>, files: Chains, places: Places, h: nat)
    requires Partition(fat, files, places) && h in files
    ensures var gone := Members(places, h, 0);
            Partition(Freed(fat, gone), files - {h}, places - gone)
  {
    var gone := Members(places, h, 0);
    var fat', files', places' := Freed(fat, gone), files - {h}, places - gone;
    forall g, i | g in files' && 0 <= i < |files'[g]|
      ensures Placed(files', places', g, i)
    {
      assert Placed(files, places, g, i);
    }
    forall d | d in places'
      ensures Entry(fat', files', places', d)
    {
      assert Entry(fat, files, places, d);
    }
  }

  /** Freeing all but the first cluster of a chain and ending it there leaves a chain of one. */
  lemma TruncateKeeps(fat: seq<nat>, files: Chains, places: Places, h: nat)
    requires Partition(fat, files, places) && h in files && h < |fat|
    ensures var gone := Members(places, h, 1);
            Partition(Freed(fat, gone)[h := EOC], files[h := [h]], places - gone)
  {
    var gone := Members(places, h, 1);
    var fat', files', places' := Freed(fat, gone)[h := EOC], files[h := [h]], places - gone;
    assert Placed(files, places, h, 0);
    forall g, i | g in files' && 0 <= i < |files'[g]|
      ensures Placed(files', places', g, i)
    {
      assert Placed(files, places, g, i);
    }
    forall d | d in places'
      ensures Entry(fat', files', places', d)
    {
      assert Entry(fat, files, places, d);
    }
    ChainStep(fat, files, places, h, 0);
  }
}
