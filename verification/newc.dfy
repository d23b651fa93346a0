/**
 The initrd archive, in the "New ASCII Format" of cpio(5): the writer of build.rs.
 */
module Newc {
  import opened Words

  const HEADER_SIZE: nat := 110
  const MODE: nat := 0x81ED                       // 0o100755
  const MAGIC: seq<byte> := [0x30, 0x37, 0x30, 0x37, 0x30, 0x31]  // "070701"
  const TRAILER: seq<byte> :=                     // "TRAILER!!!"
    [0x54, 0x52, 0x41, 0x49, 0x4C, 0x45, 0x52, 0x21, 0x21, 0x21]

  datatype Entry = Entry(name: seq<byte>, data: seq<byte>)

  function DigitOf(v: nat): byte
    requires v < 16
  {
    if v < 10 then 0x30 + v else 0x61 + (v - 10)
  }

  /** The low `n` hexadecimal digits of v, most significant first. */
  function HexDigits(v: nat, n: nat): (s: seq<byte>)
    ensures |s| == n
  {
    if n == 0 then [] else HexDigits(v / 16, n - 1) + [DigitOf(v % 16)]
  }

  /** `{v:08x}` for a value that fits eight digits. */
  function Field(v: nat): (s: seq<byte>)
    requires v < U32
    ensures |s| == 8
  {
    HexDigits(v, 8)
  }

  /** The header up to the file size: magic, inode, mode, uid, gid, link count, mtime. */
  function HeaderFront(ino: nat): (s: seq<byte>)
    requires ino < U32
    ensures |s| == 54 && s[..6] == MAGIC
  {
    MAGIC + (Field(ino) + Field(MODE) + Field(0) + Field(0) + Field(1) + Field(0))
  }

  /** The four device numbers between the file size and the name size. */
  function HeaderDevices(): (s: seq<byte>)
    ensures |s| == 32
  {
    Field(0) + Field(0) + Field(0) + Field(0)
  }

  function Header(name: seq<byte>, data: seq<byte>, ino: nat): (s: seq<byte>)
    requires |name| + 1 < U32 && |data| < U32 && ino < U32
    ensures |s| == HEADER_SIZE
  {
    HeaderFront(ino) + Field(|data|) + HeaderDevices() + Field(|name| + 1) + Field(0)
  }

  /** The number without its last k hexadecimal digits. */
  function Shifted(v: nat, k: nat): nat {
    if k == 0 then v else Shifted(v, k - 1) / 16
  }

  lemma {:induction false} ShiftedOnce(v: nat, k: nat)
    ensures Shifted(v / 16, k) == Shifted(v, k + 1)
  {
    if k > 0 { ShiftedOnce(v, k - 1); }
  }

  lemma {:induction false} HexDigitAt(v: nat, n: nat, i: nat)
    requires i < n
    ensures HexDigits(v, n)[i] == DigitOf(Shifted(v, n - 1 - i) % 16)
  {
    if i < n - 1 {
      HexDigitAt(v / 16, n - 1, i);
      ShiftedOnce(v, n - 2 - i);
    }
  }

  lemma ShiftedIs(v: nat)
    ensures Shifted(v, 1) == v / 0x10 && Shifted(v, 2) == v / 0x100 && Shifted(v, 3) == v / 0x1000
    ensures Shifted(v, 4) == v / 0x1_0000 && Shifted(v, 5) == v / 0x10_0000 && Shifted(v, 6) == v / 0x100_0000
    ensures Shifted(v, 7) == v / 0x1000_0000
  {
    hide Shifted;
    ShiftedMore(v, 0, 1);
    ShiftedMore(v, 1, 0x10);
    ShiftedMore(v, 2, 0x100);
    ShiftedMore(v, 3, 0x1000);
    ShiftedMore(v, 4, 0x1_0000);
    ShiftedMore(v, 5, 0x10_0000);
    ShiftedMore(v, 6, 0x100_0000);
  }

  lemma ShiftedMore(v: nat, k: nat, unit: nat)
    requires k <= 6 && unit == [1, 0x10, 0x100, 0x1000, 0x1_0000, 0x10_0000, 0x100_0000][k]
    ensures unit > 0 && (Shifted(v, k) == v / unit ==> Shifted(v, k + 1) == v / (unit * 16))
    ensures k == 0 ==> Shifted(v, k) == v
  {
  }

  /** Each of the eight characters of a field: the digits 0 to 9 and a to f in ASCII, the highest first. */
  lemma FieldDigits(v: nat, i: nat)
    requires v < U32 && i < 8
    ensures var d := v / [0x1000_0000, 0x100_0000, 0x10_0000, 0x1_0000, 0x1000, 0x100, 0x10, 1][i] % 16;
            Field(v)[i] == if d < 10 then 0x30 + d else 0x57 + d
  {
    hide HexDigits, Shifted;
    HexDigitAt(v, 8, i);
    ShiftedIs(v);
    ShiftedMore(v, 0, 1);
  }

  lemma FrontAt(ino: nat)
    requires ino < U32
    ensures var h := HeaderFront(ino);
            && h[..6] == [0x30, 0x37, 0x30, 0x37, 0x30, 0x31] && h[6..14] == Field(ino) && h[14..22] == Field(0x81ED)
            && h[22..30] == Field(0) && h[30..38] == Field(0) && h[38..46] == Field(1) && h[46..54] == Field(0)
  {
    hide HexDigits;
  }

  lemma FieldsAt(front: seq<byte>, size: seq<byte>, devices: seq<byte>, nameSize: seq<byte>, check: seq<byte>)
    requires |front| == 54 && |size| == 8 && |devices| == 32 && |nameSize| == 8
    ensures var h := front + size + devices + nameSize + check;
            |h| >= 102 && h[..54] == front && h[54..62] == size && h[62..94] == devices && h[94..102] == nameSize
                && h[102..] == check
  {
  }

  lemma Within(h: seq<byte>, from: nat, to: nat, part: seq<byte>, i: nat, j: nat)
    requires from <= to <= |h| && h[from..to] == part && i <= j <= |part|
    ensures h[from + i..from + j] == part[i..j]
  {
    forall k | i <= k < j
      ensures h[from + k] == part[k]
    {
      assert h[from..to][k] == part[k];
    }
  }

  /**
   The fields of the header in the order of cpio(5), each of eight digits behind the magic number: inode, mode, user,
   group, links, time, file size, two device numbers of two fields each, name size, checksum.
   */
  lemma HeaderFields(name: seq<byte>, data: seq<byte>, ino: nat)
    requires |name| + 1 < U32 && |data| < U32 && ino < U32
    ensures var h := Header(name, data, ino);
            && h[..6] == [0x30, 0x37, 0x30, 0x37, 0x30, 0x31] && h[6..14] == Field(ino) && h[14..22] == Field(0x81ED)
            && h[22..30] == Field(0) && h[30..38] == Field(0) && h[38..46] == Field(1) && h[46..54] == Field(0)
            && h[54..62] == Field(|data|) && h[62..94] == Field(0) + Field(0) + Field(0) + Field(0)
            && h[94..102] == Field(|name| + 1) && h[102..110] == Field(0)
  {
    hide HexDigits, HeaderFront;
    var front, h := HeaderFront(ino), Header(name, data, ino);
    FieldsAt(front, Field(|data|), HeaderDevices(), Field(|name| + 1), Field(0));
    FrontAt(ino);
    Within(h, 0, 54, front, 0, 6);
    Within(h, 0, 54, front, 6, 14);
    Within(h, 0, 54, front, 14, 22);
    Within(h, 0, 54, front, 22, 30);
    Within(h, 0, 54, front, 30, 38);
    Within(h, 0, 54, front, 38, 46);
    Within(h, 0, 54, front, 46, 54);
  }

  function PadLen(n: nat): (k: nat)
    ensures k < 4 && (n + k) % 4 == 0
  {
    if n % 4 == 0 then 0 else 4 - n % 4
  }

  lemma PadLenAligned(base: nat, n: nat)
    requires base % 4 == 0
    ensures PadLen(base + n) == PadLen(n)
  {
    assert (base + n) % 4 == n % 4;
  }

  function Pad4(s: seq<byte>): (p: seq<byte>)
    ensures |p| % 4 == 0 && |s| <= |p| < |s| + 4 && p[..|s|] == s
  {
    s + Zeros(PadLen(|s|))
  }

  ghost predicate Encodable(e: Entry) {
    |e.name| + 1 < U32 && |e.data| < U32
  }

  /** What one entry makes of an archive. */
  function Appended(archive: seq<byte>, e: Entry, ino: nat): (r: seq<byte>)
    requires Encodable(e) && ino < U32
    ensures |archive| <= |r| && r[..|archive|] == archive && |r| % 4 == 0
  {
    var named := Pad4(archive + Header(e.name, e.data, ino) + e.name + [0]);
    assert named[..|archive|] == archive;
    Pad4(named + e.data)
  }

  /** The whole archive: entries numbered from `ino`, then the trailer. */
  function Built(archive: seq<byte>, entries: seq<Entry>, ino: nat): (r: seq<byte>)
    requires forall e :: e in entries ==> Encodable(e)
    requires ino + |entries| < U32
    ensures |archive| <= |r| && r[..|archive|] == archive
    decreases |entries|
  {
    if entries == [] then
      Appended(archive, Entry(TRAILER, []), ino)
    else
      var next := Appended(archive, entries[0], ino);
      var r := Built(next, entries[1..], ino + 1);
      assert r[..|archive|] == r[..|next|][..|archive|];
      r
  }

  lemma BuiltStep(archive: seq<byte>, entries: seq<Entry>, ino: nat)
    requires forall e :: e in entries ==> Encodable(e)
    requires entries != [] && ino + |entries| < U32
    ensures Built(archive, entries, ino) == Built(Appended(archive, entries[0], ino), entries[1..], ino + 1)
  {
  }

  lemma BuiltEnd(archive: seq<byte>, ino: nat)
    requires ino < U32
    ensures Built(archive, [], ino) == Appended(archive, Entry(TRAILER, []), ino)
  {
  }

  /** The builder's growing byte vector. */
  class Archive {
    var bytes: seq<byte>

    constructor ()
      ensures bytes == []
    {
      bytes := [];
    }

    /** Pushes zero bytes until the length is a multiple of four. */
    method PadTo4()
      modifies this
      ensures bytes == Pad4(old(bytes))
    {
      ghost var before := bytes;
      while |bytes| % 4 != 0
        invariant |before| <= |bytes| <= |before| + PadLen(|before|)
        invariant bytes == before + Zeros(|bytes| - |before|)
        decreases |before| + PadLen(|before|) - |bytes|
      {
        bytes := bytes + [0];
      }
    }

    /** The source asserts that the header has 110 bytes, that is, that both lengths fit eight digits. */
    method AppendNewcEntry(name: seq<byte>, data: seq<byte>, ino: nat)
      requires |name| + 1 < U32 && |data| < U32 && ino < U32
      modifies this
      ensures bytes == Appended(old(bytes), Entry(name, data), ino)
    {
      bytes := bytes + Header(name, data, ino);
      bytes := bytes + name;
      bytes := bytes + [0];
      PadTo4();
      bytes := bytes + data;
      PadTo4();
    }
  }

  /** The archive-building loop of build.rs `main`. */
  method BuildInitrd(entries: seq<Entry>) returns (archive: Archive)
    requires forall e :: e in entries ==> Encodable(e)
    requires |entries| + 1 < U32
    ensures fresh(archive) && archive.bytes == Built([], entries, 1)
  {
    hide Built, Appended;
    archive := new Archive();
    ghost var target := Built(archive.bytes, entries, 1);
    assert entries[0..] == entries;
    for index := 0 to |entries|
      invariant fresh(archive)
      invariant Built(archive.bytes, entries[index..], index + 1) == target
    {
      assert Encodable(entries[index]);
      ghost var rest := entries[index..];
      assert rest[0] == entries[index] && rest[1..] == entries[index + 1..];
      BuiltStep(archive.bytes, rest, index + 1);
      archive.AppendNewcEntry(entries[index].name, entries[index].data, index + 1);
    }
    BuiltEnd(archive.bytes, |entries| + 1);
    archive.AppendNewcEntry(TRAILER, [], |entries| + 1);
  }
}
