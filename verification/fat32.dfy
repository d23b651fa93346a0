/**
 The FAT32 engine of the file server (user/programs/fs-server/src/main.rs) on its RAM disk, with one sector
 per cluster as `format_fat32` sets it up. `fat` and `data` are what the bytes of the disk say; `files` and
 `places` say how the table is cut into chains.
 */
module Fat32 {
  import opened Wrappers
  import opened Words
  import opened FatTable

  const BLOCK: nat := 512
  const RAMDISK_SIZE: nat := 4 * 1024 * 1024

  function Le32(b0: byte, b1: byte, b2: byte, b3: byte): (v: nat)
    ensures v < U32
  {
    b0 + 0x100 * (b1 + 0x100 * (b2 + 0x100 * b3))
  }

  function Le32Bytes(v: nat): (s: seq<byte>)
    requires v < U32
    ensures |s| == 4 && Le32(s[0], s[1], s[2], s[3]) == v
  {
    var v1 := v / 0x100;
    var v2 := v1 / 0x100;
    [v % 0x100, v1 % 0x100, v2 % 0x100, v2 / 0x100]
  }

  /** The bytes with those from `at` on overwritten. */
  function Patched(buf: seq<byte>, at: nat, bytes: seq<byte>): (r: seq<byte>)
    requires at + |bytes| <= |buf|
    ensures |r| == |buf|
    ensures forall i :: 0 <= i < |buf| ==> r[i] == if at <= i < at + |bytes| then bytes[i - at] else buf[i]
  {
    buf[..at] + bytes + buf[at + |bytes|..]
  }

  /**
   Between two states of the disk the four bytes of one entry have been overwritten and no other byte has changed. The
   top four bits, which are reserved, become those of the value: zero for every value that the file server writes.
   */
  ghost predicate FatWritten(was: seq<byte>, now: seq<byte>, at: nat, value: nat) {
    && at + 4 <= |was| == |now| && Le32(now[at], now[at + 1], now[at + 2], now[at + 3]) == value
    && (value < ENTRY ==> now[at + 3] < 0x10)
    && forall i {:trigger now[i]} :: 0 <= i < |now| && (i < at || at + 4 <= i) ==> now[i] == was[i]
  }

  lemma FatPatched(was: seq<byte>, now: seq<byte>, at: nat, value: nat)
    requires value < U32 && at + 4 <= |was| && now == Patched(was, at, Le32Bytes(value))
    ensures FatWritten(was, now, at, value)
  {
    hide Le32Bytes, Patched;
    var b := Le32Bytes(value);
    assert now[at] == b[0] && now[at + 1] == b[1] && now[at + 2] == b[2] && now[at + 3] == b[3];
  }

  /** Reading a block, overwriting part of it and writing it back overwrites that part of the whole. */
  lemma PatchTwice(buf: seq<byte>, block: nat, offset: nat, bytes: seq<byte>)
    requires block + BLOCK <= |buf| && offset + |bytes| <= BLOCK
    ensures Patched(buf, block, Patched(buf[block..block + BLOCK], offset, bytes)) ==
              Patched(buf, block + offset, bytes)
  {
    hide Patched;
  }

  // ---- File contents ----

  /** Every chain names clusters whose sectors are known. */
  ghost predicate Sectors(data: seq<seq<byte>>, chain: seq<nat>) {
    forall i {:trigger chain[i]} :: 0 <= i < |chain| ==> chain[i] < |data| && |data[chain[i]]| == BLOCK
  }

  ghost predicate Sized(data: seq<seq<byte>>) {
    forall c {:trigger data[c]} :: 2 <= c < |data| ==> |data[c]| == BLOCK
  }

  lemma ChainSectors(fat: seq<nat>, data: seq<seq<byte>>, files: Chains, places: Places, h: nat)
    requires Partition(fat, files, places) && h in files && |fat| == |data| && Sized(data)
    ensures Sectors(data, files[h])
  {
    forall i | 0 <= i < |files[h]|
      ensures 2 <= files[h][i] < |data|
    {
      ChainStep(fat, files, places, h, i);
    }
  }

  /** A free cluster is in no chain. */
  lemma FreeOutside(fat: seq<nat>, files: Chains, places: Places, h: nat, c: nat)
    requires Partition(fat, files, places) && h in files && c < |fat| && fat[c] == FREE
    ensures c !in files[h] && c !in files && c < EOC
  {
    if c in files { ChainStep(fat, files, places, c, 0); }
    if c in files[h] {
      var i :| 0 <= i < |files[h]| && files[h][i] == c;
      ChainStep(fat, files, places, h, i);
    }
  }

  lemma Head(fat: seq<nat>, files: Chains, places: Places, h: nat)
    requires Partition(fat, files, places) && h in files
    ensures files[h] != [] && files[h][0] == h && 2 <= h < |fat| <= EOC
  {
    ChainStep(fat, files, places, h, 0);
  }

  lemma FreedNone(fat: seq<nat>, all: set<nat>, rest: set<nat>)
    requires all <= rest
    ensures Freed(fat, all - rest) == fat
  {
  }

  /** One step of `FreeChain`, at index n of the chain: what it reads there and what it leaves. */
  lemma FreedOne(fat: seq<nat>, files: Chains, places: Places, h: nat, from: nat, n: nat)
    requires Partition(fat, files, places) && h in files && from <= n < |files[h]|
    ensures var now, all := files[h][n], Members(places, h, from);
            && now < |fat| && var table := Freed(fat, all - Members(places, h, n));
            && HasNext(table[now]) == (n + 1 < |files[h]|)
                && (n + 1 < |files[h]| ==> table[now] == files[h][n + 1] < |fat|)
            && table[now := FREE] == Freed(fat, all - Members(places, h, n + 1))
  {
    ChainStep(fat, files, places, h, n);
    if n + 1 < |files[h]| { ChainStep(fat, files, places, h, n + 1); }
    var all, c := Members(places, h, from), files[h][n];
    var left, right := Freed(fat, all - Members(places, h, n)), Freed(fat, all - Members(places, h, n + 1));
    forall d | 0 <= d < |fat|
      ensures left[c := FREE][d] == right[d]
    {
      if d in places { assert Entry(fat, files, places, d); }
    }
  }

  lemma FreedAll(fat: seq<nat>, files: Chains, places: Places, h: nat, from: nat)
    requires Partition(fat, files, places) && h in files
    ensures var all := Members(places, h, from);
            Freed(fat, all - Members(places, h, |files[h]|)) == Freed(fat, all)
  {
    forall c | c in places
      ensures c !in Members(places, h, |files[h]|)
    {
      assert Entry(fat, files, places, c);
    }
  }

  /** Byte p of the file whose clusters are `chain`. */
  ghost function ByteOf(data: seq<seq<byte>>, chain: seq<nat>, p: nat): byte
    requires Sectors(data, chain) && p < |chain| * BLOCK
  {
    data[chain[p / BLOCK]][p % BLOCK]
  }

  /** What sector i of a file was before a write: a sector the write adds to the chain starts as zeros. */
  ghost function Before(data: seq<seq<byte>>, chain: seq<nat>, i: nat): (s: seq<byte>)
    requires Sectors(data, chain)
    ensures |s| == BLOCK
  {
    if i < |chain| then data[chain[i]] else Zeros(BLOCK)
  }

  /**
   The byte at `base + k`, in the sector that starts at `base`, after the first n bytes of buf are written at
   `offset`. A sector that the write enters at its first byte is not read first, so what it held behind the
   written bytes is lost.
   */
  function ByteAfter(was: byte, base: nat, k: nat, offset: nat, n: nat, buf: seq<byte>): byte
    requires n <= |buf|
  {
    if offset <= base + k < offset + n then buf[base + k - offset]
    else if offset <= base < offset + n then 0
    else was
  }

  ghost predicate SectorAfter(was: seq<byte>, now: seq<byte>, base: nat, offset: nat, n: nat, buf: seq<byte>)
    requires |was| == BLOCK && n <= |buf|
  {
    |now| == BLOCK && forall k {:trigger now[k]} :: 0 <= k < BLOCK ==>
        now[k] == ByteAfter(was[k], base, k, offset, n, buf)
  }

  /** The file was `chain0` over `data0`; it is `chain1` over `data1` after n bytes of buf are written at offset. */
  ghost predicate Written(data0: seq<seq<byte>>, chain0: seq<nat>, data1: seq<seq<byte>>, chain1: seq<nat>,
                          offset: nat, n: nat, buf: seq<byte>)
    requires n <= |buf|
  {
    && Sectors(data0, chain0) && Sectors(data1, chain1) && chain0 <= chain1
    && (forall i {:trigger chain1[i]} :: 0 <= i < |chain1| ==>
         SectorAfter(Before(data0, chain0, i), data1[chain1[i]], i * BLOCK, offset, n, buf))
  }

  /** A zeroed cluster at the end of the chain changes nothing else about the file. */
  lemma WrittenExtend(data0: seq<seq<byte>>, chain0: seq<nat>, data1: seq<seq<byte>>, chain1: seq<nat>,
                      offset: nat, n: nat, buf: seq<byte>, c: nat)
    requires n <= |buf| && Written(data0, chain0, data1, chain1, offset, n, buf)
    requires c < |data1| && c !in chain1 && |chain0| <= |chain1|
    requires offset + n <= |chain1| * BLOCK || n == 0
    ensures Written(data0, chain0, data1[c := Zeros(BLOCK)], chain1 + [c], offset, n, buf)
  {
    var chain2, data2 := chain1 + [c], data1[c := Zeros(BLOCK)];
    forall i | 0 <= i < |chain2|
      ensures chain2[i] < |data2| && |data2[chain2[i]]| == BLOCK
      ensures SectorAfter(Before(data0, chain0, i), data2[chain2[i]], i * BLOCK, offset, n, buf)
    {
      if i < |chain1| { assert chain2[i] == chain1[i]; }
    }
  }

  /** Writing one more sector of the file. */
  lemma WrittenStep(data0: seq<seq<byte>>, chain0: seq<nat>, data1: seq<seq<byte>>, chain1: seq<nat>,
                    offset: nat, n: nat, buf: seq<byte>, i: nat, m: nat, now: seq<byte>)
    requires n <= m <= |buf| && Written(data0, chain0, data1, chain1, offset, n, buf)
    requires i < |chain1| && (forall j :: 0 <= j < |chain1| && j != i ==> chain1[j] != chain1[i])
    requires (n == 0 && i * BLOCK <= offset) || offset + n == i * BLOCK
    requires offset + m <= (i + 1) * BLOCK
    requires SectorAfter(Before(data0, chain0, i), now, i * BLOCK, offset, m, buf)
    ensures Written(data0, chain0, data1[chain1[i] := now], chain1, offset, m, buf)
  {
    var data2 := data1[chain1[i] := now];
    forall j | 0 <= j < |chain1|
      ensures chain1[j] < |data2| && |data2[chain1[j]]| == BLOCK
      ensures SectorAfter(Before(data0, chain0, j), data2[chain1[j]], j * BLOCK, offset, m, buf)
    {
      if j != i {
        assert data2[chain1[j]] == data1[chain1[j]];
        if j < i { assert (j + 1) * BLOCK <= i * BLOCK; } else { assert (i + 1) * BLOCK <= j * BLOCK; }
      }
    }
  }

  /**
   What a write means for a reader of the file: the bytes written are there, those before them are kept, those
   of the sectors the write does not enter are kept, and what the file was extended by reads as zero.
   */
  lemma WrittenBytes(data0: seq<seq<byte>>, chain0: seq<nat>, data1: seq<seq<byte>>, chain1: seq<nat>,
                     offset: nat, n: nat, buf: seq<byte>, p: nat)
    requires n <= |buf| && Written(data0, chain0, data1, chain1, offset, n, buf) && p < |chain1| * BLOCK
    ensures offset <= p < offset + n ==> ByteOf(data1, chain1, p) == buf[p - offset]
    ensures p < offset && p < |chain0| * BLOCK ==> ByteOf(data1, chain1, p) == ByteOf(data0, chain0, p)
    ensures offset + n <= p / BLOCK * BLOCK && p < |chain0| * BLOCK ==>
              ByteOf(data1, chain1, p) == ByteOf(data0, chain0, p)
    ensures !(offset <= p < offset + n) && p >= |chain0| * BLOCK ==> ByteOf(data1, chain1, p) == 0
    ensures offset + n <= p < (p / BLOCK + 1) * BLOCK && p / BLOCK * BLOCK < offset + n && p < |chain0| * BLOCK ==>
              ByteOf(data1, chain1, p) == if offset <= p / BLOCK * BLOCK then 0 else ByteOf(data0, chain0, p)
  {
    var i, k := p / BLOCK, p % BLOCK;
    assert p == i * BLOCK + k;
    assert i < |chain1|;
    assert SectorAfter(Before(data0, chain0, i), data1[chain1[i]], i * BLOCK, offset, n, buf);
    assert data1[chain1[i]][k] == ByteAfter(Before(data0, chain0, i)[k], i * BLOCK, k, offset, n, buf);
    assert p < |chain0| * BLOCK <==> i < |chain0|;
  }

  /** The bytes of the file from `offset` on start with `out`. */
  ghost predicate Reads(data: seq<seq<byte>>, chain: seq<nat>, offset: nat, out: seq<byte>) {
    && Sectors(data, chain) && (out != [] ==> offset + |out| <= |chain| * BLOCK)
    && (forall k {:trigger out[k]} :: 0 <= k < |out| ==> out[k] == ByteOf(data, chain, offset + k))
  }

  /** A buffer that held `was` holds n bytes of the file from `offset` on, and behind them what it held. */
  ghost predicate Filled(now: seq<byte>, was: seq<byte>, n: nat, data: seq<seq<byte>>, chain: seq<nat>, offset: nat) {
    |now| == |was| && n <= |was| && now[n..] == was[n..] && Reads(data, chain, offset, now[..n])
  }

  lemma FilledNone(was: seq<byte>, data: seq<seq<byte>>, chain: seq<nat>, offset: nat)
    requires Sectors(data, chain)
    ensures Filled(was, was, 0, data, chain, offset)
  {
  }

  /** One turn of the loop of `read_file`: m bytes of sector i, from `start` on, go behind the first n of the buffer. */
  lemma FilledStep(now: seq<byte>, was: seq<byte>, n: nat, data: seq<seq<byte>>, chain: seq<nat>, offset: nat,
                   i: nat, start: nat, m: nat)
    requires Filled(now, was, n, data, chain, offset) && i < |chain| && start + m <= BLOCK && n + m <= |was|
    requires offset + n == i * BLOCK + start
    ensures chain[i] < |data| && |data[chain[i]]| == BLOCK
    ensures Filled(Patched(now, n, data[chain[i]][start..start + m]), was, n + m, data, chain, offset)
  {
    var c := chain[i];
    var now' := Patched(now, n, data[c][start..start + m]);
    forall k | 0 <= k < n + m
      ensures now'[k] == ByteOf(data, chain, offset + k)
    {
      if k >= n {
        var p := offset + k;
        assert p == i * BLOCK + (start + k - n);
        assert p / BLOCK == i && p % BLOCK == start + k - n;
      } else {
        assert now[..n][k] == now[k];
      }
    }
    assert forall k :: 0 <= k < |was| - n ==> now[n..][k] == was[n..][k];
  }

  lemma FilledPrefix(now: seq<byte>, was: seq<byte>, n: nat, data: seq<seq<byte>>, chain: seq<nat>, offset: nat, m: nat)
    requires Filled(now, was, n, data, chain, offset) && m <= n
    ensures Reads(data, chain, offset, now[..m])
  {
    assert forall k :: 0 <= k < m ==> now[..m][k] == now[..n][k];
  }

  /** Copying bytes into a buffer. */
  method Put(buf: array<byte>, at: nat, s: seq<byte>)
    requires at + |s| <= buf.Length
    modifies buf
    ensures buf[..] == Patched(old(buf[..]), at, s)
  {
    for k := 0 to |s|
      invariant buf[..] == Patched(old(buf[..]), at, s[..k])
    {
      buf[at + k] := s[k];
    }
  }

  // ---- What the engine's steps do to a file system ----

  /** A file system: its table, its sectors by cluster, and how the table is cut into chains. */
  datatype View = View(fat: seq<nat>, data: seq<seq<byte>>, files: Chains, places: Places)

  ghost predicate Full(v: View) {
    forall c {:trigger v.fat[c]} :: 2 <= c < |v.fat| ==> v.fat[c] != FREE
  }

  /** The smallest free cluster has become a chain of one zeroed cluster. */
  ghost predicate Allocated(v0: View, v1: View, c: nat) {
    && 2 <= c < |v0.fat| == |v0.data| && v0.fat[c] == FREE && (forall d :: 2 <= d < c ==> v0.fat[d] != FREE)
    && c !in v0.files && v1.fat == v0.fat[c := EOC] && v1.data == v0.data[c := Zeros(BLOCK)]
    && v1.files == v0.files[c := [c]]
  }

  /** The smallest free cluster has been zeroed and put behind the last cluster of the chain of h. */
  ghost predicate Grown(v0: View, v1: View, h: nat, last: nat, c: nat) {
    && 2 <= c < |v0.fat| == |v0.data| && v0.fat[c] == FREE && (forall d :: 2 <= d < c ==> v0.fat[d] != FREE)
    && h in v0.files && last < |v0.fat| && c != last && c !in v0.files[h]
    && v1.fat == v0.fat[c := EOC][last := c] && v1.data == v0.data[c := Zeros(BLOCK)]
    && v1.files == v0.files[h := v0.files[h] + [c]]
  }

  /**
   From one state to the other only the chain of h grew, by clusters that were free, and only its clusters changed.
   */
  ghost predicate Kept(v0: View, v1: View, h: nat) {
    && |v1.fat| == |v0.fat| == |v1.data| == |v0.data|
    && h in v0.files && h in v1.files && v1.files == v0.files[h := v1.files[h]] && v0.files[h] <= v1.files[h]
    && (forall c {:trigger v1.data[c]} :: 0 <= c < |v0.data| && c !in v1.files[h] ==> v1.data[c] == v0.data[c])
    && (forall c {:trigger v1.fat[c]} :: 0 <= c < |v0.fat| && v1.fat[c] == FREE ==> v0.fat[c] == FREE)
    && (forall i :: |v0.files[h]| <= i < |v1.files[h]| ==> v1.files[h][i] < |v0.fat| && v0.fat[v1.files[h][i]] == FREE)
  }

  lemma KeptGrown(v0: View, v1: View, v2: View, h: nat, last: nat, c: nat)
    requires Kept(v0, v1, h) && Grown(v1, v2, h, last, c)
    ensures Kept(v0, v2, h)
  {
    forall d | d !in v2.files[h]
      ensures d !in v1.files[h] && d != c
    {
      assert v2.files[h][|v1.files[h]|] == c;
      assert v2.files[h][..|v1.files[h]|] == v1.files[h];
    }
  }

  /** `write_file` stands at sector i of the file of h, with n bytes of buf written; the state was v0 and is v1. */
  ghost predicate Progress(v0: View, v1: View, h: nat, offset: nat, n: nat, buf: seq<byte>, i: nat) {
    && n <= |buf| && Kept(v0, v1, h) && Written(v0.data, v0.files[h], v1.data, v1.files[h], offset, n, buf)
    && i < |v1.files[h]| && (|v1.files[h]| == i + 1 || |v1.files[h]| == |v0.files[h]|)
  }

  lemma ProgressStart(v: View, h: nat, offset: nat, buf: seq<byte>)
    requires h in v.files && Sectors(v.data, v.files[h]) && v.files[h] != [] && |v.fat| == |v.data|
    ensures Progress(v, v, h, offset, 0, buf, 0)
  {
  }

  /** The next cluster of the chain was looked up behind index i, and made where the chain ended. */
  ghost predicate Stepped(v1: View, v2: View, h: nat, i: nat, cluster: nat, next: Option<nat>) {
    && h in v1.files && i < |v1.files[h]|
    && (if i + 1 < |v1.files[h]| then v2 == v1 && next == Some(v1.files[h][i + 1])
        else if next.None? then v2 == v1 && Full(v2)
        else Grown(v1, v2, h, cluster, next.value))
  }

  lemma ProgressStep(v0: View, v1: View, v2: View, h: nat, offset: nat, n: nat, buf: seq<byte>, i: nat, cluster: nat,
          next: nat)
    requires Progress(v0, v1, h, offset, n, buf, i) && Stepped(v1, v2, h, i, cluster, Some(next))
    requires n == 0 || offset + n <= (i + 1) * BLOCK
    ensures Progress(v0, v2, h, offset, n, buf, i + 1)
    ensures h in v2.files && i + 1 < |v2.files[h]| && v2.files[h][i + 1] == next
  {
    hide Kept, Written;
    if i + 1 == |v1.files[h]| {
      KeptOf(v0, v1, h);
      KeptGrown(v0, v1, v2, h, cluster, next);
      WrittenExtend(v0.data, v0.files[h], v1.data, v1.files[h], offset, n, buf, next);
    }
  }

  lemma NoneLeft(v1: View, v2: View, h: nat, i: nat, cluster: nat)
    requires Stepped(v1, v2, h, i, cluster, None)
    ensures v2 == v1 && Full(v1) && h in v1.files && i + 1 == |v1.files[h]|
  {
  }

  lemma KeptOf(v0: View, v1: View, h: nat)
    requires Kept(v0, v1, h)
    ensures h in v0.files && h in v1.files && |v0.files[h]| <= |v1.files[h]|
  {
  }

  /** The bytes that one turn of the loop of `write_file` puts into a sector, over what is read there or over zeros. */
  lemma SectorWritten(was: seq<byte>, now: seq<byte>, at: nat, offset: nat, n: nat, buf: seq<byte>, start: nat, m: nat)
    requires |was| == BLOCK && n + m <= |buf| && start + m <= BLOCK && m > 0
    requires SectorAfter(was, now, at, offset, n, buf)
    requires offset + n == at + start && (n > 0 ==> start == 0)
    ensures SectorAfter(was, Patched(if start > 0 then now else Zeros(BLOCK), start, buf[n..n + m]), at, offset, n + m,
              buf)
  {
    if start > 0 {
      assert now == was;
    }
  }

  /** One turn of the loop of `write_file`: m bytes go to sector i from `start` on. */
  lemma ProgressWrite(v0: View, v1: View, h: nat, offset: nat, n: nat, buf: seq<byte>, i: nat, start: nat, m: nat,
                      base: seq<byte>)
    requires Progress(v0, v1, h, offset, n, buf, i) && n + m <= |buf| && start + m <= BLOCK && m > 0
    requires forall j :: 0 <= j < |v1.files[h]| && j != i ==> v1.files[h][j] != v1.files[h][i]
    requires offset + n == i * BLOCK + start && (n > 0 ==> start == 0)
    requires v1.files[h][i] < |v1.data| && base == if start > 0 then v1.data[v1.files[h][i]] else Zeros(BLOCK)
    requires |base| == BLOCK
    ensures var now := Patched(base, start, buf[n..n + m]);
            Progress(v0, v1.(data := v1.data[v1.files[h][i] := now]), h, offset, n + m, buf, i)
  {
    hide SectorAfter, Patched, Before;
    var c := v1.files[h][i];
    assert c in v1.files[h];
    SectorWritten(Before(v0.data, v0.files[h], i), v1.data[c], i * BLOCK, offset, n, buf, start, m);
    WrittenStep(v0.data, v0.files[h], v1.data, v1.files[h], offset, n, buf, i, n + m,
        Patched(base, start, buf[n..n + m]));
  }

  /**
   What a call of `write_file` that wrote n bytes leaves. The chain is as long as the last sector it entered
   needs, `last` is the cluster of that sector, and fewer bytes than asked are written only on a full disk.
   When not even `offset` was reached, nothing is written.
   */
  ghost predicate WriteDone(v0: View, v1: View, h: nat, offset: nat, buf: seq<byte>, n: nat, last: nat) {
    && n <= |buf| && Kept(v0, v1, h) && Written(v0.data, v0.files[h], v1.data, v1.files[h], offset, n, buf)
    && (n < |buf| ==> Full(v1))
    && (if |v1.files[h]| * BLOCK <= offset then n == 0 && last == h && Full(v1) else
          var i := (if n == 0 then offset else offset + n - 1) / BLOCK;
          && (n == 0 ==> buf == []) && i < |v1.files[h]| && last == v1.files[h][i]
          && (|v1.files[h]| == i + 1 || |v1.files[h]| == |v0.files[h]|))
  }

  /** The call ends at sector i: with all of buf written, or with no cluster left for the next byte. */
  lemma Finished(v0: View, v1: View, h: nat, offset: nat, n: nat, buf: seq<byte>, i: nat)
    requires Progress(v0, v1, h, offset, n, buf, i) && (n < |buf| ==> Full(v1)) && (n == 0 ==> buf == [])
    requires if n == 0 then i * BLOCK <= offset < (i + 1) * BLOCK else i * BLOCK < offset + n <= (i + 1) * BLOCK
    ensures h in v1.files && i < |v1.files[h]| && WriteDone(v0, v1, h, offset, buf, n, v1.files[h][i])
  {
    hide Kept, Written, Full;
    KeptOf(v0, v1, h);
    assert |v1.files[h]| * BLOCK >= (i + 1) * BLOCK;
  }

  /** The call ends before it reaches `offset`. */
  lemma NotReached(v0: View, v1: View, h: nat, offset: nat, buf: seq<byte>, i: nat)
    requires Progress(v0, v1, h, offset, 0, buf, i) && Full(v1) && (i + 1) * BLOCK <= offset
    requires h in v1.files && i + 1 == |v1.files[h]|
    ensures WriteDone(v0, v1, h, offset, buf, 0, h)
  {
    hide Kept, Written, Full;
  }

  /** Reading back what was written gives the written bytes. */
  lemma ReadBack(v0: View, v1: View, h: nat, offset: nat, buf: seq<byte>, n: nat, last: nat, out: seq<byte>)
    requires WriteDone(v0, v1, h, offset, buf, n, last) && h in v1.files
    requires |out| <= n && Reads(v1.data, v1.files[h], offset, out)
    ensures out == buf[..|out|]
  {
    hide Kept, Written, Full, ByteOf;
    KeptOf(v0, v1, h);
    forall k | 0 <= k < |out|
      ensures out[k] == buf[k]
    {
      WrittenBytes(v0.data, v0.files[h], v1.data, v1.files[h], offset, n, buf, offset + k);
    }
  }

  /** A write to the file of h leaves the chain and every byte of every other file as they were. */
  lemma OthersKept(v0: View, v1: View, h: nat, g: nat, p: nat)
    requires Partition(v0.fat, v0.files, v0.places) && Partition(v1.fat, v1.files, v1.places)
    requires Sized(v0.data) && Sized(v1.data)
    requires Kept(v0, v1, h) && g in v0.files && g != h && p < |v0.files[g]| * BLOCK
    ensures g in v1.files && v1.files[g] == v0.files[g]
    ensures Sectors(v0.data, v0.files[g]) && Sectors(v1.data, v1.files[g])
    ensures ByteOf(v1.data, v1.files[g], p) == ByteOf(v0.data, v0.files[g], p)
  {
    ChainSectors(v0.fat, v0.data, v0.files, v0.places, g);
    ChainSectors(v1.fat, v1.data, v1.files, v1.places, g);
    var i := p / BLOCK;
    var c := v0.files[g][i];
    if c in v1.files[h] {
      var j :| 0 <= j < |v1.files[h]| && v1.files[h][j] == c;
      ChainsDisjoint(v1.fat, v1.files, v1.places, g, i, h, j);
    }
  }

  /** A table in which cluster 2 is a chain of its own and the others are free. */
  lemma RootOnly(fat: seq<nat>)
    requires 3 <= |fat| <= EOC && fat[2] >= EOC && forall c :: 3 <= c < |fat| ==> fat[c] == FREE
    ensures Partition(fat, map[2 := [2]], map[2 := Place(2, 0)])
  {
  }

  class Fs {
    const disk: array<byte>
    const fatStart: nat
    const dataStart: nat
    const totalClusters: nat
    ghost var fat: seq<nat>
    ghost var data: seq<seq<byte>>
    ghost var files: Chains
    ghost var places: Places

    /** The table has an entry for every cluster and ends before the data, which fits on the disk. */
    ghost predicate Geometry() {
      && 2 <= totalClusters <= EOC
      && fatStart * BLOCK + totalClusters * 4 <= dataStart * BLOCK
      && (dataStart + totalClusters) * BLOCK <= RAMDISK_SIZE + 2 * BLOCK
      && dataStart * BLOCK <= RAMDISK_SIZE
    }

    /** The table's entry for cluster c in the bytes of the disk. */
    function EntryAt(bytes: seq<byte>, c: nat): nat
      requires fatStart * BLOCK + 4 * c + 4 <= |bytes|
    {
      var i := fatStart * BLOCK + 4 * c;
      Le32(bytes[i], bytes[i + 1], bytes[i + 2], bytes[i + 3]) % ENTRY
    }

    function Offset(c: nat): nat
      requires c >= 2
    {
      (dataStart + (c - 2)) * BLOCK
    }

    function SectorAt(bytes: seq<byte>, c: nat): seq<byte>
      requires c >= 2 && Offset(c) + BLOCK <= |bytes|
    {
      bytes[Offset(c)..Offset(c) + BLOCK]
    }

    /** What the bytes of the disk say: the table is `fat` and the sectors of the clusters are `data`. */
    ghost predicate Says(bytes: seq<byte>, fat: seq<nat>, data: seq<seq<byte>>) {
      && Geometry() && |fat| == |data| == totalClusters && |bytes| == RAMDISK_SIZE
      && (forall c {:trigger fat[c]} :: 0 <= c < totalClusters ==> EntryAt(bytes, c) == fat[c])
      && (forall c {:trigger data[c]} :: 2 <= c < totalClusters ==> SectorAt(bytes, c) == data[c])
    }

    /** Overwriting one entry of the table. */
    lemma EntryChanged(bytes: seq<byte>, fat: seq<nat>, data: seq<seq<byte>>, c: nat, value: nat)
      requires Says(bytes, fat, data) && c < |fat| && value < U32
      ensures fatStart * BLOCK + 4 * c + 4 <= |bytes|
      ensures Says(Patched(bytes, fatStart * BLOCK + 4 * c, Le32Bytes(value)), fat[c := value % ENTRY], data)
    {
      hide Le32, Le32Bytes;
      var at := fatStart * BLOCK + 4 * c;
      var b := Le32Bytes(value);
      var bytes' := Patched(bytes, at, b);
      assert bytes'[at] == b[0] && bytes'[at + 1] == b[1] && bytes'[at + 2] == b[2] && bytes'[at + 3] == b[3];
      forall d | 2 <= d < totalClusters
        ensures SectorAt(bytes', d) == data[d]
      {
        assert at + 4 <= Offset(d);
        assert SectorAt(bytes', d) == SectorAt(bytes, d);
      }
    }

    /** Overwriting one data sector. */
    lemma SectorChanged(bytes: seq<byte>, fat: seq<nat>, data: seq<seq<byte>>, c: nat, buf: seq<byte>)
      requires Says(bytes, fat, data) && 2 <= c < |fat| && |buf| == BLOCK
      ensures Offset(c) + BLOCK <= |bytes| && Says(Patched(bytes, Offset(c), buf), fat, data[c := buf])
    {
      var bytes' := Patched(bytes, Offset(c), buf);
      forall d | 0 <= d < totalClusters
        ensures EntryAt(bytes', d) == fat[d]
      {
        assert fatStart * BLOCK + 4 * d + 4 <= Offset(c);
      }
      forall d | 2 <= d < totalClusters
        ensures SectorAt(bytes', d) == data[c := buf][d]
      {
        if d == c {
          assert SectorAt(bytes', d) == buf;
        } else {
          assert Offset(d) + BLOCK <= Offset(c) || Offset(c) + BLOCK <= Offset(d);
          assert SectorAt(bytes', d) == SectorAt(bytes, d);
        }
      }
    }

    ghost predicate Mirrors()
      reads this`fat, this`data, disk
    {
      disk.Length == RAMDISK_SIZE && Says(disk[..], fat, data)
    }

    ghost predicate Valid()
      reads this, disk
    {
      Mirrors() && |fat| == |data| && Sized(data) && Partition(fat, files, places)
    }

    /** Where a byte of a cluster is on the disk, and the four bytes of its entry in the table, the lowest first. */
    lemma OnDisk(c: nat, j: nat)
      requires Valid() && 2 <= c < |data| && j < 512
      ensures |data[c]| == 512 && (dataStart + c - 2) * 512 + j < disk.Length
      ensures data[c][j] == disk[(dataStart + c - 2) * 512 + j]
      ensures c < |fat| && fatStart * 512 + 4 * c + 4 <= disk.Length
      ensures var at := fatStart * 512 + 4 * c;
              fat[c] == (disk[at] as int + 0x100 * disk[at + 1] as int + 0x1_0000 * disk[at + 2] as int
                         + 0x100_0000 * disk[at + 3] as int) % 0x1000_0000
    {
      var bytes := disk[..];
      assert SectorAt(bytes, c) == data[c];
      assert data[c][j] == bytes[Offset(c) + j];
      assert EntryAt(bytes, c) == fat[c];
    }

    ghost function Now(): View
      reads this
    {
      View(fat, data, files, places)
    }

    /** The formatted disk: an empty root directory in cluster 2, all other clusters free. */
    constructor Format()
      ensures Valid() && fresh(disk) && totalClusters == 8096 && fatStart == 32 && dataStart == 96
      ensures files == map[2 := [2]] && data[2] == Zeros(BLOCK) && forall c :: 3 <= c < |fat| ==> fat[c] == FREE
    {
      disk := new byte[RAMDISK_SIZE](_ => 0);
      fatStart, dataStart, totalClusters := 32, 96, 8096;
      fat, data := seq(8096, _ => FREE), seq(8096, _ => Zeros(BLOCK));
      files, places := map[2 := [2]], map[2 := Place(2, 0)];
      new;
      assert Mirrors() by {
        forall c | 0 <= c < totalClusters
          ensures EntryAt(disk[..], c) == FREE
        {
        }
      }
      hide Mirrors, FatWritten, Partition;
      var ok := FatSet(0, EOC);
      ok := FatSet(1, EOC + 7);
      ok := FatSet(2, EOC);
      RootOnly(fat);
    }

    method DiskRead(sector: nat) returns (r: Option<seq<byte>>)
      ensures r == if sector * BLOCK + BLOCK > disk.Length then None
                else Some(disk[..][sector * BLOCK..sector * BLOCK + BLOCK])
    {
      var offset := sector * BLOCK;
      if offset + BLOCK > disk.Length {
        return None;
      }
      return Some(disk[offset..offset + BLOCK]);
    }

    method DiskWrite(sector: nat, buf: seq<byte>) returns (ok: bool)
      requires |buf| == BLOCK
      modifies disk
      ensures ok == (sector * BLOCK + BLOCK <= disk.Length)
      ensures disk[..] == if ok then Patched(old(disk[..]), sector * BLOCK, buf) else old(disk[..])
    {
      var offset := sector * BLOCK;
      if offset + BLOCK > disk.Length {
        return false;
      }
      for k := 0 to BLOCK
        invariant forall i :: 0 <= i < disk.Length ==>
                    disk[i] == if offset <= i < offset + k then buf[i - offset] else old(disk[i])
      {
        disk[offset + k] := buf[k];
      }
      return true;
    }

    /** The sector of the table that holds the entry of a cluster, and where in it. */
    function FatSector(cluster: nat): nat {
      fatStart + cluster * 4 / BLOCK
    }

    function FatOffset(cluster: nat): nat {
      cluster * 4 % BLOCK
    }

    lemma EntryPlace(cluster: nat)
      ensures FatSector(cluster) * BLOCK + FatOffset(cluster) == fatStart * BLOCK + 4 * cluster
      ensures FatOffset(cluster) + 4 <= BLOCK
    {
      assert cluster * 4 % BLOCK == 4 * (cluster % 128);
    }

    method FatNext(cluster: nat) returns (r: Option<nat>)
      requires Mirrors()
      ensures cluster < |fat| ==> r == Some(fat[cluster])
    {
      hide Le32, FatSector, FatOffset;
      EntryPlace(cluster);
      var sector, offset := FatSector(cluster), FatOffset(cluster);
      var buf := DiskRead(sector);
      if buf.None? {
        return None;
      }
      var b := buf.value;
      return Some(Le32(b[offset], b[offset + 1], b[offset + 2], b[offset + 3]) % ENTRY);
    }

    method FatSet(cluster: nat, value: nat) returns (ok: bool)
      requires Mirrors() && cluster < |fat| && value < U32
      modifies this`fat, disk
      ensures ok && Mirrors() && fat == old(fat)[cluster := value % ENTRY]
      ensures FatWritten(old(disk[..]), disk[..], fatStart * BLOCK + 4 * cluster, value)
    {
      hide Says, Le32Bytes, FatSector, FatOffset, Patched, FatWritten;
      EntryPlace(cluster);
      EntryChanged(disk[..], fat, data, cluster, value);
      var sector, offset := FatSector(cluster), FatOffset(cluster);
      var read := DiskRead(sector);
      if read.None? {
        return false;
      }
      PatchTwice(disk[..], sector * BLOCK, offset, Le32Bytes(value));
      ok := DiskWrite(sector, Patched(read.value, offset, Le32Bytes(value)));
      FatPatched(old(disk[..]), disk[..], fatStart * BLOCK + 4 * cluster, value);
      fat := fat[cluster := value % ENTRY];
    }

    /** The smallest free cluster, if there is one. */
    method FindFreeCluster() returns (r: Option<nat>)
      requires Mirrors()
      ensures r.Some? ==> 2 <= r.value < |fat| && fat[r.value] == FREE && forall c :: 2 <= c < r.value ==>
                fat[c] != FREE
      ensures r.None? ==> forall c :: 2 <= c < |fat| ==> fat[c] != FREE
    {
      hide EntryAt, Offset;
      for c := 2 to totalClusters
        invariant forall d :: 2 <= d < c ==> fat[d] != FREE
      {
        var val := FatNext(c);
        if val == Some(FREE) {
          return Some(c);
        }
      }
      return None;
    }

    /** Overwriting one data sector. */
    method WriteSector(cluster: nat, buf: seq<byte>) returns (ok: bool)
      requires Mirrors() && 2 <= cluster < |data| == |fat| && |buf| == BLOCK
      modifies this`data, disk
      ensures ok && Mirrors() && data == old(data)[cluster := buf]
    {
      hide Says;
      SectorChanged(disk[..], fat, data, cluster, buf);
      ok := DiskWrite(ClusterToSector(cluster), buf);
      data := data[cluster := buf];
    }

    method ReadSector(cluster: nat) returns (r: Option<seq<byte>>)
      requires Valid() && 2 <= cluster < |data|
      ensures r == Some(data[cluster]) && |data[cluster]| == BLOCK
    {
      r := DiskRead(ClusterToSector(cluster));
      assert SectorAt(disk[..], cluster) == data[cluster];
    }

    function ClusterToSector(cluster: nat): nat
      requires cluster >= 2
    {
      dataStart + (cluster - 2)
    }

    /** The first free cluster becomes a chain of one zeroed cluster. */
    method AllocCluster() returns (r: Option<nat>)
      requires Valid()
      modifies this, disk
      ensures Valid()
      ensures r.None? ==> Now() == old(Now()) && Full(Now())
      ensures r.Some? ==> Allocated(old(Now()), Now(), r.value)
    {
      hide Mirrors, Partition, FatWritten;
      r := FindFreeCluster();
      if r.None? {
        return None;
      }
      var cluster := r.value;
      AllocKeeps(fat, files, places, cluster);
      var ok := FatSet(cluster, EOC);
      ok := WriteSector(cluster, Zeros(BLOCK));
      files := files[cluster := [cluster]];
      places := places[cluster := Place(cluster, 0)];
    }

    /** A fresh cluster behind the last one of the chain of h. */
    method ExtendChain(ghost h: nat, last: nat) returns (r: Option<nat>)
      requires Valid() && h in files && files[h] != [] && last == files[h][|files[h]| - 1] && last < |fat|
      modifies this, disk
      ensures Valid()
      ensures r.None? ==> Now() == old(Now()) && Full(Now())
      ensures r.Some? ==> Grown(old(Now()), Now(), h, last, r.value)
    {
      hide Mirrors, Partition;
      r := AllocCluster();
      if r.None? {
        return None;
      }
      var c := r.value;
      ghost var n := |files[h]|;
      FreeOutside(old(fat), old(files), old(places), h, c);
      LinkKeeps(fat, files, places, h, c, last);
      var ok := FatSet(last, c);
      files := (files - {c})[h := files[h] + [c]];
      places := places[c := Place(h, n)];
    }

    /**
     Freeing the chain that starts at `cluster`, which stands at index `from` of the chain of h: the tail of the
     chain goes. When it is the whole chain, what is left is again a table of chains; otherwise the caller has
     to end the chain that is left.
     */
    method FreeChain(cluster: nat, ghost h: nat, ghost from: nat) returns (count: nat)
      requires Valid() && (cluster < 2 || (h in files && from < |files[h]| && files[h][from] == cluster))
      modifies this, disk
      ensures Mirrors() && data == old(data) && (cluster < 2 || from == 0 ==> Valid())
      ensures cluster < 2 ==> count == 0 && Now() == old(Now())
      ensures cluster >= 2 ==> count == |old(files)[h]| - from
      ensures cluster >= 2 ==> files == if from == 0 then old(files) - {h} else old(files)[h := old(files)[h][..from]]
      ensures cluster >= 2 ==> fat == Freed(old(fat), Members(old(places), h, from))
      ensures cluster >= 2 ==> places == old(places) - Members(old(places), h, from)
    {
      hide Mirrors, Partition, Freed, Members, Sized, FatWritten;
      if cluster < 2 {
        return 0;
      }
      var cur := cluster;
      count := 0;
      ghost var fat0, tail := fat, Members(places, h, from);
      FreedNone(fat, tail, tail);
      ChainStep(fat, files, places, h, from);
      while true
        invariant Mirrors() && |fat| == |fat0| && unchanged(`data, `files, `places)
        invariant from + count < |files[h]| && cur == files[h][from + count] < |fat|
        invariant fat == Freed(fat0, tail - Members(places, h, from + count))
        decreases |files[h]| - count
      {
        FreedOne(fat0, files, places, h, from, from + count);
        var next := FatNext(cur);
        if next.None? {
          return count;
        }
        var ok := FatSet(cur, FREE);
        count := count + 1;
        if 2 <= next.value < EOC {
          cur := next.value;
        } else {
          FreedAll(fat0, files, places, h, from);
          FreeKeeps(fat0, files, places, h);
          files := if from == 0 then files - {h} else files[h := files[h][..from]];
          places := places - tail;
          return count;
        }
      }
    }

    /** Keeping only the first cluster of a file, zeroed. */
    method Truncate(cluster: nat)
      requires Valid() && (cluster < 2 || cluster in files)
      modifies this, disk
      ensures Valid()
      ensures cluster < 2 ==> Now() == old(Now())
      ensures cluster >= 2 ==> files == old(files)[cluster := [cluster]] && cluster < |old(data)|
      ensures cluster >= 2 ==> data == old(data)[cluster := Zeros(BLOCK)]
    {
      hide Mirrors, Partition;
      if cluster < 2 {
        return;
      }
      Head(fat, files, places, cluster);
      ChainStep(fat, files, places, cluster, 0);
      TruncateKeeps(fat, files, places, cluster);
      ghost var tail := Members(places, cluster, 1);
      if |files[cluster]| == 1 {
        FreedNone(fat, tail, tail);
        FreedAll(fat, files, places, cluster, 1);
      }
      var next := FatNext(cluster);
      if next.Some? && 2 <= next.value < EOC {
        var count := FreeChain(next.value, cluster, 1);
      }
      var ok := FatSet(cluster, EOC);
      ok := WriteSector(cluster, Zeros(BLOCK));
      files := old(files)[cluster := [cluster]];
      places := old(places) - tail;
    }

    /** How many bytes a read of up to `room` bytes can give. */
    static function Readable(length: nat, offset: nat, fileSize: nat, room: nat): nat {
      if offset >= fileSize || offset >= length then 0 else Min(Min(room, fileSize - offset), length - offset)
    }

    /** What a valid disk says about the chain of a file. */
    lemma ChainKnown(h: nat)
      requires Valid() && h in files
      ensures Sectors(data, files[h]) && files[h] != [] && files[h][0] == h && 2 <= h < |fat| == |data|
      ensures forall i :: 0 <= i < |files[h]| ==> 2 <= files[h][i] < |data|
    {
      ChainSectors(fat, data, files, places, h);
      forall i | 0 <= i < |files[h]|
        ensures 2 <= files[h][i] < |data|
      {
        ChainStep(fat, files, places, h, i);
      }
    }

    /** The cluster behind index i of the chain of h, if the table has one. */
    method Follow(cluster: nat, ghost h: nat, ghost i: nat) returns (r: Option<nat>)
      requires Valid() && h in files && i < |files[h]| && cluster == files[h][i]
      ensures r == if i + 1 < |files[h]| then Some(files[h][i + 1]) else None
    {
      hide Mirrors, Partition;
      ChainStep(fat, files, places, h, i);
      var next := FatNext(cluster);
      if next.Some? && 2 <= next.value < EOC {
        return next;
      }
      return None;
    }

    method ReadFile(cluster: nat, offset: nat, fileSize: nat, buf: array<byte>) returns (n: nat)
      requires Valid() && (cluster < 2 || cluster in files) && buf != disk
      modifies buf
      ensures Valid() && n <= buf.Length
      ensures cluster < 2 ==> n == 0 && buf[..] == old(buf[..])
      ensures cluster >= 2 ==> n == Readable(|files[cluster]| * BLOCK, offset, fileSize, buf.Length)
      ensures cluster >= 2 ==> Filled(buf[..], old(buf[..]), n, data, files[cluster], offset)
    {
      hide Valid, Filled, Sectors, Patched;
      if cluster >= 2 {
        ChainKnown(cluster);
        FilledNone(buf[..], data, files[cluster], offset);
      }
      if offset >= fileSize || cluster < 2 {
        return 0;
      }
      var toRead := Min(buf.Length, fileSize - offset);
      var curCluster, curOffset := cluster, 0;
      ghost var chain, was, i := files[cluster], buf[..], 0;
      while curOffset + BLOCK <= offset
        invariant i < |chain| && curCluster == chain[i] && curOffset == i * BLOCK <= offset
        invariant Filled(buf[..], was, 0, data, chain, offset)
        decreases offset - curOffset
        modifies {}
      {
        var next := Follow(curCluster, cluster, i);
        if next.None? {
          return 0;
        }
        curCluster := next.value;
        curOffset := curOffset + BLOCK;
        i := i + 1;
      }

      var skip := offset - curOffset;
      n := 0;
      while n < toRead
        invariant n <= toRead && i < |chain| && curCluster == chain[i] && curOffset == i * BLOCK
        invariant Valid() && unchanged(this)
        invariant (n == 0 && curOffset <= offset < curOffset + BLOCK && skip == offset - curOffset)
                    || (n > 0 && offset + n == curOffset)
        invariant Filled(buf[..], was, n, data, chain, offset)
        decreases |chain| - i
      {
        var sector := ReadSector(curCluster);
        if sector.None? {
          return n;
        }
        var start := if curOffset <= offset && n == 0 then Min(skip, BLOCK) else 0;
        var m := Min(BLOCK - start, toRead - n);
        FilledStep(buf[..], was, n, data, chain, offset, i, start, m);
        Put(buf, n, sector.value[start..start + m]);
        n := n + m;
        if n >= toRead {
          return n;
        }
        curOffset := curOffset + BLOCK;
        var next := Follow(curCluster, cluster, i);
        if next.None? {
          return n;
        }
        curCluster := next.value;
        i := i + 1;
      }
    }

    /** The next cluster of the chain, a fresh one where the chain ends. */
    method FollowOrExtend(cluster: nat, ghost h: nat, ghost i: nat) returns (r: Option<nat>)
      requires Valid() && h in files && i < |files[h]| && cluster == files[h][i]
      modifies this, disk
      ensures Valid() && Stepped(old(Now()), Now(), h, i, cluster, r)
    {
      hide Valid;
      ChainKnown(h);
      r := Follow(cluster, h, i);
      if r.None? {
        r := ExtendChain(h, cluster);
      }
    }

    method WriteFile(cluster: nat, offset: nat, buf: seq<byte>) returns (n: nat, last: nat)
      requires Valid() && (cluster < 2 || cluster in files)
      modifies this, disk
      ensures Valid()
      ensures cluster < 2 ==> n == 0 && last == cluster && Now() == old(Now())
      ensures cluster >= 2 ==> WriteDone(old(Now()), Now(), cluster, offset, buf, n, last)
    {
      hide Valid, Progress, Stepped, WriteDone, Full;
      if cluster < 2 {
        return 0, cluster;
      }
      n := 0;
      var curCluster, curOffset := cluster, 0;
      ghost var v0, i := Now(), 0;
      ChainKnown(cluster);
      ProgressStart(v0, cluster, offset, buf);
      while curOffset + BLOCK <= offset
        invariant Valid() && cluster in files && i < |files[cluster]| && curCluster == files[cluster][i]
        invariant curOffset == i * BLOCK <= offset
        invariant Progress(v0, Now(), cluster, offset, 0, buf, i)
        decreases offset - curOffset
      {
        ghost var v1 := Now();
        var next := FollowOrExtend(curCluster, cluster, i);
        if next.None? {
          NoneLeft(v1, Now(), cluster, i, curCluster);
          NotReached(v0, v1, cluster, offset, buf, i);
          return 0, cluster;
        }
        ProgressStep(v0, v1, Now(), cluster, offset, 0, buf, i, curCluster, next.value);
        curCluster := next.value;
        curOffset := curOffset + BLOCK;
        i := i + 1;
      }

      var skip := offset - curOffset;
      while n < |buf|
        invariant n < |buf| || (n == 0 && buf == [])
        invariant Valid() && cluster in files && i < |files[cluster]| && curCluster == files[cluster][i]
        invariant curOffset == i * BLOCK
        invariant (n == 0 && curOffset <= offset < curOffset + BLOCK && skip == offset - curOffset)
                    || (n > 0 && offset + n == curOffset)
        invariant Progress(v0, Now(), cluster, offset, n, buf, i)
        decreases |buf| - n
      {
        ghost var v1 := Now();
        var start := if curOffset <= offset && n == 0 then Min(skip, BLOCK) else 0;
        var sector := Zeros(BLOCK);
        ChainKnown(cluster);
        Distinct(cluster, i);
        if start > 0 {
          var read := ReadSector(curCluster);
          sector := read.value;
        }
        var m := Min(BLOCK - start, |buf| - n);
        ProgressWrite(v0, v1, cluster, offset, n, buf, i, start, m, sector);
        var ok := OverwriteSector(curCluster, Patched(sector, start, buf[n..n + m]));
        if !ok {
          return n, curCluster;
        }
        n := n + m;
        if n >= |buf| {
          Finished(v0, Now(), cluster, offset, n, buf, i);
          return n, curCluster;
        }
        curOffset := curOffset + BLOCK;
        ghost var v2 := Now();
        var next := FollowOrExtend(curCluster, cluster, i);
        if next.None? {
          NoneLeft(v2, Now(), cluster, i, curCluster);
          Finished(v0, Now(), cluster, offset, n, buf, i);
          return n, curCluster;
        }
        ProgressStep(v0, v2, Now(), cluster, offset, n, buf, i, curCluster, next.value);
        curCluster := next.value;
        i := i + 1;
      }
      Finished(v0, Now(), cluster, offset, n, buf, i);
      last := curCluster;
    }

    lemma Distinct(h: nat, i: nat)
      requires Valid() && h in files && i < |files[h]|
      ensures forall j :: 0 <= j < |files[h]| && j != i ==> files[h][j] != files[h][i]
    {
      forall j | 0 <= j < |files[h]| && j != i
        ensures files[h][j] != files[h][i]
      {
        assert Placed(files, places, h, i) && Placed(files, places, h, j);
      }
    }

    /** Overwriting a data sector keeps the file system valid. */
    method OverwriteSector(cluster: nat, buf: seq<byte>) returns (ok: bool)
      requires Valid() && 2 <= cluster < |data| && |buf| == BLOCK
      modifies this`data, disk
      ensures ok && Valid() && data == old(data)[cluster := buf]
    {
      hide Mirrors, Partition;
      ok := WriteSector(cluster, buf);
    }

    /** The round trip of the file server's write and read requests. */
    method WriteThenRead(cluster: nat, offset: nat, buf: seq<byte>, fileSize: nat, out: array<byte>) returns (n: nat,
            got: nat)
      requires Valid() && cluster in files && out != disk
      modifies this, disk, out
      ensures Valid() && n <= |buf| && got <= out.Length && (n < |buf| ==> Full(Now()))
      ensures out.Length >= n && fileSize >= offset + n ==> got >= n
      ensures got >= n ==> out[..n] == buf[..n]
      ensures forall g :: g in old(files) && g != cluster ==> g in files && files[g] == old(files)[g]
    {
      hide Valid, Full, Written;
      ghost var v0 := Now();
      ChainKnown(cluster);
      var last: nat;
      n, last := WriteFile(cluster, offset, buf);
      ghost var v1, was := Now(), out[..];
      ghost var chain := files[cluster];
      assert chain == v1.files[cluster];
      got := ReadFile(cluster, offset, fileSize, out);
      if got >= n {
        FilledPrefix(out[..], was, got, data, chain, offset, n);
        ReadBack(v0, v1, cluster, offset, buf, n, last, out[..n]);
      }
    }
  }
}
