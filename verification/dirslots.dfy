/**
 The 32-byte slots of a directory (user/programs/fs-server/src/main.rs): short entries and long-name slots, as in
 "FAT Directory Structure" and "FAT Long Directory Entries" of the Microsoft FAT32 File System Specification.
 This module says what a sequence of slots means to the walk over a directory; module Directory is the code.
 */
module DirSlots {
  import opened Words

  const SLOT: nat := 32
  const FREE_END: byte := 0x00      // first byte of a slot: this one and all later ones are unused
  const DELETED: byte := 0xE5
  const ATTR_LFN: byte := 0x0F
  const SPACE: byte := 0x20
  const DOT: byte := 0x2E
  const UNITS: nat := 13            // characters in a long-name slot

  type slot = s: seq<byte> | |s| == SLOT witness Zeros(SLOT)

  // ---- Names ----

  function Upper(b: byte): byte {
    if 0x61 <= b <= 0x7A then b - 0x20 else b
  }

  function UpperName(name: seq<byte>): (u: seq<byte>)
    ensures |u| == |name| && forall i :: 0 <= i < |name| ==> u[i] == Upper(name[i])
  {
    seq(|name|, i requires 0 <= i < |name| => Upper(name[i]))
  }

  /** The same name but for the case of the letters A to Z. */
  predicate SameName(a: seq<byte>, b: seq<byte>) {
    && |a| == |b|
    && forall i {:trigger a[i]} {:trigger b[i]} :: 0 <= i < |a| ==>
         || a[i] == b[i]
         || (0x41 <= a[i] <= 0x5A && b[i] == a[i] + 0x20)
         || (0x41 <= b[i] <= 0x5A && a[i] == b[i] + 0x20)
  }

  /** Names are the same but for case exactly when they are the same in upper case. */
  lemma UpperSame(a: seq<byte>, b: seq<byte>)
    ensures SameName(a, b) <==> UpperName(a) == UpperName(b)
  {
    if UpperName(a) == UpperName(b) {
      forall i | 0 <= i < |a|
        ensures Upper(a[i]) == Upper(b[i])
      {
        assert UpperName(a)[i] == UpperName(b)[i];
      }
    }
  }

  function UpToSpace(s: seq<byte>): seq<byte> {
    if s == [] || s[0] == SPACE then [] else [s[0]] + UpToSpace(s[1..])
  }

  /** The name a short entry is listed under. */
  function ShortName(s: slot): seq<byte> {
    UpToSpace(s[..8]) + if s[8] == SPACE then [] else [DOT] + UpToSpace(s[8..11])
  }

  function LastDot(name: seq<byte>): (i: int)
    ensures -1 <= i < |name|
    ensures i >= 0 ==> name[i] == DOT
    ensures forall k :: i < k < |name| ==> name[k] != DOT
  {
    if name == [] then -1
    else if name[|name| - 1] == DOT then |name| - 1
    else LastDot(name[..|name| - 1])
  }

  predicate NameByte(b: byte) {
    0x30 <= b <= 0x39 || 0x41 <= b <= 0x5A || 0x61 <= b <= 0x7A || b == 0x5F
  }

  function BasePart(name: seq<byte>): seq<byte> {
    if LastDot(name) < 0 then name else name[..LastDot(name)]
  }

  function ExtPart(name: seq<byte>): seq<byte> {
    if LastDot(name) < 0 then [] else name[LastDot(name) + 1..]
  }

  /** The names that `make_short_name` uses as they are. */
  predicate Valid83(name: seq<byte>) {
    && 1 <= |BasePart(name)| <= 8 && |ExtPart(name)| <= 3
    && (forall b :: b in BasePart(name) ==> NameByte(b)) && (forall b :: b in ExtPart(name) ==> NameByte(b))
  }

  function Padded(s: seq<byte>, n: nat): (r: seq<byte>)
    requires |s| <= n
    ensures |r| == n && r[..|s|] == s && forall i :: |s| <= i < n ==> r[i] == SPACE
  {
    s + seq(n - |s|, _ => SPACE)
  }

  function MakeShort(name: seq<byte>): (r: seq<byte>)
    requires Valid83(name)
    ensures |r| == 11
  {
    Padded(UpperName(BasePart(name)), 8) + Padded(UpperName(ExtPart(name)), 3)
  }

  /**
   The eleven bytes of a valid name: up to eight before the last dot and up to three behind it, filled up with spaces,
   and the letters a to z as A to Z.
   */
  lemma ShortBytes(name: seq<byte>, d: nat)
    requires Valid83(name) && d <= |name| && (d < |name| ==> name[d] == 0x2E)
    requires forall k :: 0 <= k < |name| && (k > d || d == |name|) ==> name[k] != 0x2E
    ensures d <= 8 && |name| <= d + 4
    ensures forall i :: 0 <= i < 8 ==>
              MakeShort(name)[i] == if i >= d then 0x20 else if 0x61 <= name[i] <= 0x7A then name[i] - 0x20 else name[i]
    ensures forall i :: 8 <= i < 11 ==>
              MakeShort(name)[i] ==
                  if d + i - 7 >= |name| then 0x20
                  else if 0x61 <= name[d + i - 7] <= 0x7A then name[d + i - 7] - 0x20 else name[d + i - 7]
    ensures forall i :: 0 <= i < 11 ==> !(0x61 <= MakeShort(name)[i] <= 0x7A)
  {
    hide LastDot, NameByte;
    assert LastDot(name) == if d < |name| then d else -1;
    var b, e := BasePart(name), ExtPart(name);
    assert b == name[..d] && (d < |name| ==> e == name[d + 1..]);
    var base, ext := Padded(UpperName(b), 8), Padded(UpperName(e), 3);
    forall i | 8 <= i < 11
      ensures MakeShort(name)[i] == ext[i - 8] && d + i - 7 >= 0
      ensures i - 8 < |e| ==> e[i - 8] == name[d + i - 7]
    {
    }
  }

  lemma {:induction false} UpToSpacePadded(s: seq<byte>, t: seq<byte>)
    requires |s| <= |t| && t[..|s|] == s && SPACE !in s && forall i :: |s| <= i < |t| ==> t[i] == SPACE
    ensures UpToSpace(t) == s
  {
    if s != [] {
      UpToSpacePadded(s[1..], t[1..]);
    }
  }

  lemma UpperPart(part: seq<byte>)
    requires forall b :: b in part ==> NameByte(b)
    ensures SPACE !in UpperName(part) && DOT !in UpperName(part)
    ensures part != [] ==> UpperName(part)[0] != FREE_END && UpperName(part)[0] != DELETED
  {
    assert forall i :: 0 <= i < |part| ==> NameByte(part[i]);
  }

  lemma ListedParts(name: seq<byte>, s: slot)
    requires Valid83(name) && s[..11] == MakeShort(name)
    ensures s[0] != FREE_END && s[0] != DELETED && BasePart(name) != []
    ensures ShortName(s) == if ExtPart(name) == [] then UpperName(BasePart(name))
                            else UpperName(BasePart(name)) + [DOT] + UpperName(ExtPart(name))
  {
    var b, e := BasePart(name), ExtPart(name);
    UpperPart(b);
    UpperPart(e);
    assert s[..8] == s[..11][..8] == Padded(UpperName(b), 8);
    assert s[8..11] == s[..11][8..] == Padded(UpperName(e), 3);
    UpToSpacePadded(UpperName(b), s[..8]);
    UpToSpacePadded(UpperName(e), s[8..11]);
    assert s[0] == s[..8][0] && s[8] == s[8..11][0];
  }

  lemma SplitAt(s: seq<byte>, d: nat)
    requires d < |s|
    ensures s == s[..d] + [s[d]] + s[d + 1..]
  {
  }

  lemma NameParts(name: seq<byte>)
    requires BasePart(name) != []
    ensures name == if LastDot(name) < 0 then BasePart(name) else BasePart(name) + [DOT] + ExtPart(name)
    ensures name != [] && (name[|name| - 1] == DOT <==> ExtPart(name) == [] && LastDot(name) >= 0)
    ensures LastDot(name) < 0 ==> ExtPart(name) == []
  {
    hide LastDot;
    if LastDot(name) >= 0 { SplitAt(name, LastDot(name)); }
  }

  lemma UpperConcat(a: seq<byte>, b: seq<byte>)
    ensures UpperName(a + b) == UpperName(a) + UpperName(b)
  {
  }

  lemma UpperTwice(name: seq<byte>)
    ensures UpperName(UpperName(name)) == UpperName(name)
  {
  }

  /** A valid name is listed in upper case, but without the dot it ends with, if it ends with one. */
  lemma ListedAs(name: seq<byte>, s: slot)
    requires Valid83(name) && s[..11] == MakeShort(name)
    ensures s[0] != FREE_END && s[0] != DELETED && name != []
    ensures ShortName(s) == UpperName(if name[|name| - 1] == DOT then name[..|name| - 1] else name)
    ensures (UpperName(ShortName(s)) == UpperName(name)) <==> name[|name| - 1] != DOT
  {
    var b, e := BasePart(name), ExtPart(name);
    hide Valid83, MakeShort, ShortName, LastDot, BasePart, ExtPart, UpperName, NameByte;
    ListedParts(name, s);
    NameParts(name);
    if name[|name| - 1] == DOT {
      assert name[..|name| - 1] == b;
      UpperTwice(b);
      assert |UpperName(UpperName(b))| == |name| - 1;
    } else {
      if e != [] {
        UpperConcat(b + [DOT], e);
        UpperConcat(b, [DOT]);
        assert UpperName([DOT]) == [DOT];
      }
      UpperTwice(name);
    }
  }

  // ---- Long names ----

  function Unit(s: slot, off: nat): nat
    requires off + 1 < SLOT
  {
    s[off] as int + 0x100 * (s[off + 1] as int)
  }

  /** Where in its slot character j of the 13 stands. */
  function UnitOffset(j: nat): (off: nat)
    requires j < UNITS
    ensures off % 2 == 0 ==> off >= 14
    ensures 1 <= off < 31 && !(10 <= off <= 13) && off != 25 && off != 26 && off != 27
  {
    if j < 5 then 1 + 2 * j else if j < 11 then 14 + 2 * (j - 5) else 28 + 2 * (j - 11)
  }

  function SlotUnits(s: slot): (u: seq<nat>)
    ensures |u| == UNITS && forall j :: 0 <= j < UNITS ==> u[j] == Unit(s, UnitOffset(j))
  {
    seq(UNITS, j requires 0 <= j < UNITS => Unit(s, UnitOffset(j)))
  }

  /** What the walk carries from slot to slot: the characters met so far and how many of them it holds for valid. */
  datatype Walk = Walk(units: seq<nat>, len: nat)

  const LFN_BUFFER: nat := 256
  function Start(): (w: Walk)
    ensures |w.units| == LFN_BUFFER && w.len == 0
  {
    Walk(seq(LFN_BUFFER, _ => 0), 0)
  }

  function OverUnits(units: seq<nat>, at: nat, new_: seq<nat>): (r: seq<nat>)
    requires at + |new_| <= |units|
    ensures |r| == |units|
    ensures forall i :: 0 <= i < |units| ==> r[i] == if at <= i < at + |new_| then new_[i - at] else units[i]
  {
    units[..at] + new_ + units[at + |new_|..]
  }

  predicate IsFree(s: slot) {
    s[0] == FREE_END || s[0] == DELETED
  }

  predicate IsShort(s: slot) {
    !IsFree(s) && s[11] != ATTR_LFN
  }

  /** The number of a long-name slot, from 0. */
  function SlotNumber(s: slot): nat {
    if s[0] % 0x40 == 0 then 0 else s[0] % 0x40 - 1
  }

  function Step(w: Walk, s: slot): (r: Walk)
    requires |w.units| == LFN_BUFFER
    ensures |r.units| == LFN_BUFFER
  {
    if IsFree(s) || IsShort(s) then Walk(w.units, 0)
    else if SlotNumber(s) >= 20 then w
    else
      var base := SlotNumber(s) * UNITS;
      Walk(if base + UNITS <= LFN_BUFFER then OverUnits(w.units, base, SlotUnits(s)) else w.units,
           if w.len >= base + UNITS then w.len else base + UNITS)
  }

  /** The ASCII characters up to the terminator. */
  function Text(units: seq<nat>): (t: seq<byte>)
    ensures |t| <= |units|
  {
    if units == [] || units[0] == 0 || units[0] == 0xFFFF then []
    else (if units[0] < 0x80 then [units[0]] else []) + Text(units[1..])
  }

  function LongName(w: Walk): seq<byte>
    requires |w.units| == LFN_BUFFER
  {
    Text(w.units[..if w.len <= LFN_BUFFER then w.len else LFN_BUFFER])
  }

  // ---- What a directory lists ----

  /** What the walk carries when it comes to slot k. */
  function StateAt(slots: seq<slot>, k: nat): (w: Walk)
    requires k <= |slots|
    ensures |w.units| == LFN_BUFFER
  {
    if k == 0 then Start() else Step(StateAt(slots, k - 1), slots[k - 1])
  }

  /** Slot k is a short entry that the walk comes to. */
  ghost predicate Live(slots: seq<slot>, k: nat): (live: bool)
    ensures live ==> k < |slots|
  {
    k < |slots| && IsShort(slots[k]) && forall j :: 0 <= j < k ==> slots[j][0] != FREE_END
  }

  /** The name the entry in slot k is listed under. */
  function NameAt(slots: seq<slot>, k: nat): seq<byte>
    requires k < |slots|
  {
    if StateAt(slots, k).len > 0 then LongName(StateAt(slots, k)) else ShortName(slots[k])
  }

  /** Names are compared without regard to case. */
  ghost predicate Matches(slots: seq<slot>, k: nat, name: seq<byte>) {
    Live(slots, k) && SameName(NameAt(slots, k), name)
  }

  /** Two names find the same entries exactly when they differ at most in the case of the letters A to Z. */
  lemma CaseIgnored(slots: seq<slot>, k: nat, a: seq<byte>, b: seq<byte>)
    requires Matches(slots, k, a)
    ensures Matches(slots, k, b) <==>
              && |a| == |b|
              && forall i :: 0 <= i < |a| ==>
                   || a[i] == b[i]
                   || (0x41 <= a[i] <= 0x5A && b[i] == a[i] + 0x20)
                   || (0x41 <= b[i] <= 0x5A && a[i] == b[i] + 0x20)
  {
    hide NameAt, Live, UpperName;
    var n := NameAt(slots, k);
    UpperSame(n, a);
    UpperSame(n, b);
    UpperSame(a, b);
  }

  /** Slots up to k decide what the walk carries to k. */
  lemma {:induction false} SamePrefix(a: seq<slot>, b: seq<slot>, k: nat)
    requires k <= |a| && k <= |b| && a[..k] == b[..k]
    ensures StateAt(a, k) == StateAt(b, k)
  {
    if k > 0 {
      assert a[..k][k - 1] == a[k - 1] && b[..k][k - 1] == b[k - 1];
      assert a[..k][..k - 1] == a[..k - 1] && b[..k][..k - 1] == b[..k - 1];
      SamePrefix(a, b, k - 1);
    }
  }

  /** Swapping a free slot for a short entry, or a short entry for a deleted slot, is forgotten by the next slot. */
  lemma {:induction false} StateForgets(slots: seq<slot>, i: nat, s: slot, k: nat)
    requires i < |slots| && k <= |slots| && (IsFree(slots[i]) || IsShort(slots[i])) && (IsFree(s) || IsShort(s))
    ensures StateAt(slots[i := s], k) == StateAt(slots, k)
  {
    if k <= i {
      SamePrefix(slots[i := s], slots, k);
    } else {
      StateForgets(slots, i, s, k - 1);
    }
  }

  /** Nothing is live behind the first slot that marks the end: all later slots mark it too. */
  ghost predicate EndsOnce(slots: seq<slot>) {
    forall j, k :: 0 <= j < k < |slots| && slots[j][0] == FREE_END ==> slots[k][0] == FREE_END
  }

  /** Deleting entry i takes exactly it out of the listing. */
  lemma Deleting(slots: seq<slot>, i: nat, s: slot)
    requires Live(slots, i) && s[0] == DELETED
    ensures forall k :: Live(slots[i := s], k) <==> Live(slots, k) && k != i
    ensures forall k :: Live(slots, k) && k != i ==> NameAt(slots[i := s], k) == NameAt(slots, k)
    ensures EndsOnce(slots) ==> EndsOnce(slots[i := s])
  {
    forall k: nat
      ensures Live(slots[i := s], k) <==> Live(slots, k) && k != i
      ensures Live(slots, k) && k != i ==> NameAt(slots[i := s], k) == NameAt(slots, k)
    {
      if k < |slots| {
        assert forall j :: 0 <= j < k ==> (slots[i := s][j][0] == FREE_END <==> slots[j][0] == FREE_END);
        StateForgets(slots, i, s, k);
      }
    }
  }

  /** The first free slot of a directory, where it has one. */
  ghost predicate FirstFree(slots: seq<slot>, i: nat) {
    i < |slots| && IsFree(slots[i]) && forall j :: 0 <= j < i ==> !IsFree(slots[j])
  }

  /**
   A short entry in the first free slot adds exactly it to the listing. It is listed under its own name when no
   long name is pending there; the slots of a long name stay behind when its entry is deleted, and then the new
   entry is listed under that name.
   */
  lemma Creating(slots: seq<slot>, i: nat, s: slot)
    requires FirstFree(slots, i) && IsShort(s) && EndsOnce(slots)
    ensures forall k :: Live(slots[i := s], k) <==> Live(slots, k) || k == i
    ensures forall k :: Live(slots, k) ==> NameAt(slots[i := s], k) == NameAt(slots, k)
    ensures NameAt(slots[i := s], i) == if StateAt(slots, i).len == 0 then ShortName(s) else LongName(StateAt(slots, i))
    ensures EndsOnce(slots[i := s])
  {
    forall k: nat
      ensures Live(slots[i := s], k) <==> Live(slots, k) || k == i
      ensures Live(slots, k) ==> NameAt(slots[i := s], k) == NameAt(slots, k)
    {
      if k < |slots| {
        assert forall j :: 0 <= j < k && j != i ==> (slots[i := s][j][0] == FREE_END <==> slots[j][0] == FREE_END);
        StateForgets(slots, i, s, k);
        if i < k { assert slots[i := s][i] == s; }
      }
    }
    StateForgets(slots, i, s, i);
  }

  // ---- Long names: writing and reading back ----

  /** The character that `create_dir_entry` writes at position i of a long name. */
  function CharUnit(name: seq<byte>, i: nat): nat {
    if i < |name| then name[i] else if i == |name| then 0 else 0xFFFF
  }

  /** How many long-name slots a name gets: none when it has 13 characters or fewer. */
  function SlotCount(name: seq<byte>): nat {
    if |name| <= 13 then 0 else (|name| + 12) / 13
  }

  /** Slot s holds part j of the name, counted from 0; the last part is marked. */
  ghost predicate Part(s: slot, name: seq<byte>, j: nat) {
    && s[0] == (if j + 1 == SlotCount(name) then j + 1 + 0x40 else j + 1) && s[11] == ATTR_LFN
    && (forall c {:trigger UnitOffset(c)} :: 0 <= c < UNITS ==> Unit(s, UnitOffset(c)) == CharUnit(name, UNITS * j + c))
  }

  /** Where each byte of a long-name slot is: thirteen characters of two bytes, the low one first, in three pieces. */
  lemma LongSlotBytes(s: slot, name: seq<byte>, j: nat, c: nat)
    requires Part(s, name, j) && |name| > 13 && 13 * j < |name| && c < 13
    ensures s[0] == (if 13 * j + 13 < |name| then j + 1 else j + 0x41) && s[11] == 0x0F
    ensures var off, at := if c < 5 then 1 + 2 * c else if c < 11 then 4 + 2 * c else 6 + 2 * c, 13 * j + c;
            && s[off] == (if at < |name| then name[at] else if at == |name| then 0 else 0xFF)
            && s[off + 1] == (if at <= |name| then 0 else 0xFF)
  {
    assert Unit(s, UnitOffset(c)) == CharUnit(name, UNITS * j + c);
  }

  // ---- The checksum of the short name ----

  /** One step of the checksum: the sum is rotated right by one bit, and the next byte is added. */
  function Mixed(sum: byte, b: byte): byte {
    (sum / 2 + (if sum % 2 == 1 then 0x80 else 0) + b) % 0x100
  }

  /** The checksum of `lfn_checksum`, which is `ChkSum` in "FAT Long Directory Entries". */
  function Checksum(short: seq<byte>): byte {
    if short == [] then 0 else Mixed(Checksum(short[..|short| - 1]), short[|short| - 1])
  }

  /** In the source: `(sum >> 1) + (sum << 7)`, in eight bits. */
  lemma Rotated(sum: byte)
    ensures (sum * 0x80) % 0x100 == if sum % 2 == 1 then 0x80 else 0
  {
    assert sum == 2 * (sum / 2) + sum % 2;
  }

  method LfnChecksum(short: seq<byte>) returns (sum: byte)
    ensures sum == Checksum(short)
  {
    sum := 0;
    for i := 0 to |short|
      invariant sum == Checksum(short[..i])
    {
      assert short[..i + 1][..i] == short[..i];
      Rotated(sum);
      sum := (sum / 2 + (sum * 0x80) % 0x100 + short[i]) % 0x100;
    }
    assert short[..|short|] == short;
  }

  /** What one more byte makes of the checksum: half of it, 128 more if it was odd, and the byte, without carry. */
  lemma ChecksumNext(short: seq<byte>, b: byte)
    ensures var sum := Checksum(short);
            Checksum(short + [b]) == (if sum % 2 == 0 then sum / 2 + b else (sum - 1) / 2 + 128 + b) % 256
    ensures Checksum([]) == 0
  {
    assert (short + [b])[..|short|] == short;
  }

  lemma MixedDiffers(sum: byte, sum': byte, b: byte, b': byte)
    requires (sum == sum' && b != b') || (sum != sum' && b == b')
    ensures Mixed(sum, b) != Mixed(sum', b')
  {
    var r, r' := sum / 2 + (if sum % 2 == 1 then 0x80 else 0), sum' / 2 + (if sum' % 2 == 1 then 0x80 else 0);
    assert 0 <= r < 0x100 && 0 <= r' < 0x100;
    assert r + b != r' + b' && -0x100 < r + b - r' - b' < 0x100;
  }

  /** A short name with one byte changed has another checksum. */
  lemma {:induction false} ChecksumDetects(short: seq<byte>, i: nat, b: byte)
    requires i < |short| && b != short[i]
    ensures Checksum(short[i := b]) != Checksum(short)
  {
    hide Mixed;
    var n, other := |short| - 1, short[i := b];
    if i == n {
      assert other[..n] == short[..n];
    } else {
      ChecksumDetects(short[..n], i, b);
      assert other[..n] == short[..n][i := b];
    }
    MixedDiffers(Checksum(short[..n]), Checksum(other[..n]), short[n], other[n]);
  }

  /** From slot `start` on stand the parts of the name, the last one first. */
  ghost predicate Parts(slots: seq<slot>, start: nat, name: seq<byte>) {
    && start + SlotCount(name) <= |slots|
    && (forall j {:trigger PartAt(slots, start, name, j)} :: 0 <= j < SlotCount(name) ==> PartAt(slots, start, name, j))
  }

  ghost predicate PartAt(slots: seq<slot>, start: nat, name: seq<byte>, j: nat)
    requires j < SlotCount(name) && start + SlotCount(name) <= |slots|
  {
    Part(slots[start + SlotCount(name) - 1 - j], name, j)
  }

  predicate LongAscii(name: seq<byte>) {
    14 <= |name| <= 195 && forall i :: 0 <= i < |name| ==> 0 < name[i] < 0x80
  }

  lemma CountBounds(name: seq<byte>)
    requires LongAscii(name)
    ensures 2 <= SlotCount(name) <= 15
    ensures UNITS * SlotCount(name) - UNITS < |name| <= UNITS * SlotCount(name)
    ensures |name| == UNITS * SlotCount(name) <==> |name| % 13 == 0
  {
  }

  function Max(a: nat, b: nat): nat {
    if a >= b then a else b
  }

  /** What the walk carries after the first m of the name's slots. */
  ghost predicate Collected(w: Walk, w0: Walk, name: seq<byte>, m: nat) {
    var n := SlotCount(name);
    && |w.units| == |w0.units| == LFN_BUFFER && m <= n <= 15
    && (forall i :: 0 <= i < LFN_BUFFER ==>
         w.units[i] == if UNITS * (n - m) <= i < UNITS * n then CharUnit(name, i) else w0.units[i])
    && w.len == if m == 0 then w0.len else Max(w0.len, UNITS * n)
  }

  lemma CollectNone(w: Walk, name: seq<byte>)
    requires LongAscii(name) && |w.units| == LFN_BUFFER
    ensures Collected(w, w, name, 0)
  {
    CountBounds(name);
  }

  /** What the walk sees in a slot that holds part j of a name. */
  lemma PartRead(s: slot, name: seq<byte>, j: nat)
    requires j < SlotCount(name) <= 15 && Part(s, name, j)
    ensures !IsFree(s) && !IsShort(s) && SlotNumber(s) == j
    ensures SlotUnits(s) == seq(UNITS, c requires 0 <= c < UNITS => CharUnit(name, UNITS * j + c))
  {
    hide SlotCount, CharUnit, Unit, UnitOffset;
    forall c | 0 <= c < UNITS
      ensures SlotUnits(s)[c] == CharUnit(name, UNITS * j + c)
    {
      assert SlotUnits(s)[c] == Unit(s, UnitOffset(c));
    }
  }

  lemma CollectStep(w: Walk, w0: Walk, name: seq<byte>, m: nat, s: slot)
    requires LongAscii(name) && m < SlotCount(name) && Collected(w, w0, name, m)
    requires Part(s, name, SlotCount(name) - 1 - m)
    ensures Collected(Step(w, s), w0, name, m + 1)
  {
    CountBounds(name);
    hide SlotCount, CharUnit, Part, SlotUnits, SlotNumber, IsFree, IsShort, LongAscii;
    PartRead(s, name, SlotCount(name) - 1 - m);
  }

  lemma {:induction false} Collecting(slots: seq<slot>, start: nat, name: seq<byte>, m: nat)
    requires LongAscii(name) && Parts(slots, start, name) && m <= SlotCount(name)
    ensures Collected(StateAt(slots, start + m), StateAt(slots, start), name, m)
  {
    hide SlotCount, Collected, Part, Step, LongAscii;
    CountBounds(name);
    if m == 0 {
      CollectNone(StateAt(slots, start), name);
    } else {
      Collecting(slots, start, name, m - 1);
      var j := SlotCount(name) - m;
      assert PartAt(slots, start, name, j);
      CollectStep(StateAt(slots, start + m - 1), StateAt(slots, start), name, m - 1, slots[start + m - 1]);
    }
  }

  lemma {:induction false} TextOf(name: seq<byte>, units: seq<nat>)
    requires |name| <= |units| && forall i :: 0 <= i < |name| ==> 0 < name[i] < 0x80 && units[i] == name[i]
    ensures Text(units) == name + Text(units[|name|..])
  {
    if name == [] {
      assert units[0..] == units;
    } else {
      TextOf(name[1..], units[1..]);
      assert units[1..][|name| - 1..] == units[|name|..];
    }
  }

  /**
   The walk reads back the long name that was written, whatever it carried before, with one exception: a name
   whose length is a multiple of 13 has no terminator, and if the walk came with more characters than that, left
   by slots of a deleted entry, they are read as part of the name.
   */
  lemma LongNameReadBack(slots: seq<slot>, start: nat, name: seq<byte>)
    requires LongAscii(name) && Parts(slots, start, name)
    ensures var w0, w := StateAt(slots, start), StateAt(slots, start + SlotCount(name));
            && w.len > 0
            && LongName(w) == if |name| % 13 == 0
                && w0.len > |name| then name + Text(w0.units[|name|..if w0.len <= LFN_BUFFER then w0.len
                else LFN_BUFFER]) else name
  {
    hide Step;
    CountBounds(name);
    Collecting(slots, start, name, SlotCount(name));
    var w0, w := StateAt(slots, start), StateAt(slots, start + SlotCount(name));
    var len := if w.len <= LFN_BUFFER then w.len else LFN_BUFFER;
    var units := w.units[..len];
    TextOf(name, units);
    if |name| % 13 != 0 {
      assert w.units[|name|] == CharUnit(name, |name|) == 0;
      assert units[|name|..][0] == units[|name|] == w.units[|name|];
    } else {
      assert units[|name|..] == w0.units[|name|..len];
    }
  }
}
