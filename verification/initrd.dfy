/**
 The kernel's reader of the embedded archive (src/kernel/initrd.rs), and the proof that it reads back
 what build.rs wrote.
 */
module Initrd {
  import opened Wrappers
  import opened Words
  import opened Newc

  const MAX_FILES: nat := 16
  const DOT: seq<byte> := [0x2E]

  function DigitValue(b: byte): Option<nat> {
    if 0x30 <= b <= 0x39 then Some(b - 0x30)
    else if 0x61 <= b <= 0x66 then Some(b - 0x61 + 10)
    else if 0x41 <= b <= 0x46 then Some(b - 0x41 + 10)
    else None
  }

  /** The hexadecimal number a byte string denotes, if it denotes one that fits a machine word. */
  function HexValue(s: seq<byte>): (r: Option<nat>)
    ensures r.Some? ==> r.value < U64
  {
    if s == [] then
      Some(0)
    else
      match (HexValue(s[..|s| - 1]), DigitValue(s[|s| - 1]))
      case (Some(high), Some(low)) => if high * 16 + low < U64 then Some(high * 16 + low) else None
      case _ => None
  }

  lemma {:induction false} HexValueFailsEarly(s: seq<byte>, k: nat)
    requires k <= |s| && HexValue(s[..k]).None?
    ensures HexValue(s).None?
    decreases |s|
  {
    if k == |s| {
      assert s[..k] == s;
    } else {
      assert s[..|s| - 1][..k] == s[..k];
      HexValueFailsEarly(s[..|s| - 1], k);
    }
  }

  method Hex(bytes: seq<byte>) returns (r: Option<nat>)
    ensures r == HexValue(bytes)
  {
    var value: nat := 0;
    for i := 0 to |bytes|
      invariant HexValue(bytes[..i]) == Some(value)
    {
      var prefix := bytes[..i + 1];
      assert prefix[..i] == bytes[..i] && prefix[i] == bytes[i];
      if value * 16 >= U64 {
        HexValueFailsEarly(bytes, i + 1);
        return None;
      }
      value := value * 16;
      match DigitValue(bytes[i]) {
        case None =>
          HexValueFailsEarly(bytes, i + 1);
          return None;
        case Some(digit) =>
          if value + digit >= U64 {
            HexValueFailsEarly(bytes, i + 1);
            return None;
          }
          value := value + digit;
      }
    }
    assert bytes[..|bytes|] == bytes;
    return Some(value);
  }

  function Align4(value: nat): (r: nat)
    ensures value <= r < value + 4 && r % 4 == 0
  {
    (value + 3) / 4 * 4
  }

  lemma AlignIsPad(value: nat)
    ensures Align4(value) == value + PadLen(value)
  {
  }

  predicate Continuation(b: byte) { 0x80 <= b <= 0xBF }

  /** Length of the UTF-8 sequence that `s` starts with, by the table of section 4 of RFC 3629; 0 if malformed. */
  function Utf8Sequence(s: seq<byte>): (n: nat)
    requires s != []
    ensures n <= 4 && n <= |s|
  {
    var b := s[0];
    if b <= 0x7F then
      1
    else if 0xC2 <= b <= 0xDF then
      if |s| >= 2 && Continuation(s[1]) then 2 else 0
    else if 0xE0 <= b <= 0xEF then
      if |s| >= 3 && (if b == 0xE0 then 0xA0 else 0x80) <= s[1] <= (if b == 0xED then 0x9F else 0xBF)
         && Continuation(s[2]) then 3 else 0
    else if 0xF0 <= b <= 0xF4 then
      if |s| >= 4 && (if b == 0xF0 then 0x90 else 0x80) <= s[1] <= (if b == 0xF4 then 0x8F else 0xBF)
         && Continuation(s[2]) && Continuation(s[3]) then 4 else 0
    else
      0
  }

  predicate ValidUtf8(s: seq<byte>)
    decreases |s|
  {
    s == [] || (var n := Utf8Sequence(s); n > 0 && ValidUtf8(s[n..]))
  }

  /** The name size and the file size that a header gives, if it is one. */
  function Sizes(header: seq<byte>): Option<(nat, nat)>
    requires |header| == HEADER_SIZE
  {
    if header[..6] != MAGIC then None
    else
      match (HexValue(header[94..102]), HexValue(header[54..62]))
      case (Some(nameSize), Some(fileSize)) => Some((nameSize, fileSize))
      case _ => None
  }

  /** The record whose header at `pos` gives these sizes, and where the next one starts. */
  function Body(archive: seq<byte>, pos: nat, nameSize: nat, fileSize: nat): (r: Option<(Entry, nat)>)
    ensures r.Some? ==> r.value.1 > pos
  {
    var nameStart := pos + HEADER_SIZE;
    var nameEnd := nameStart + nameSize;
    if nameSize == 0 || nameEnd > |archive| then None
    else
      var name := archive[nameStart..nameEnd - 1];
      var dataStart := Align4(nameEnd);
      var dataEnd := dataStart + fileSize;
      if !ValidUtf8(name) || name == TRAILER || dataEnd > |archive| then None
      else Some((Entry(name, archive[dataStart..dataEnd]), Align4(dataEnd)))
  }

  /** The record at `pos` and where the next one starts; None where the reader stops. */
  function Record(archive: seq<byte>, pos: nat): (r: Option<(Entry, nat)>)
    ensures r.Some? ==> r.value.1 > pos && pos < |archive|
  {
    if pos + HEADER_SIZE > |archive| then None
    else
      match Sizes(archive[pos..pos + HEADER_SIZE])
      case None => None
      case Some((nameSize, fileSize)) => Body(archive, pos, nameSize, fileSize)
  }

  /** Every record from `pos` up to where the reader stops. */
  function Parsed(archive: seq<byte>, pos: nat): seq<Entry>
    decreases |archive| - pos
  {
    match Record(archive, pos)
    case None => []
    case Some((e, next)) => [e] + Parsed(archive, next)
  }

  function Kept(entries: seq<Entry>): seq<Entry> {
    if entries == [] then []
    else (if entries[0].name == DOT then [] else [entries[0]]) + Kept(entries[1..])
  }

  function Take(entries: seq<Entry>, n: nat): seq<Entry> {
    if |entries| <= n then entries else entries[..n]
  }

  function FirstMatch(entries: seq<Entry>, name: seq<byte>): Option<seq<byte>> {
    if entries == [] then None
    else if entries[0].name == name then Some(entries[0].data)
    else FirstMatch(entries[1..], name)
  }

  /** The two statics of the source: the file table and its count. */
  class FileTable {
    const files: array<Option<Entry>>
    var count: nat

    ghost predicate Valid()
      reads this, files
    {
      files.Length == MAX_FILES && count <= MAX_FILES && forall i :: 0 <= i < count ==> files[i].Some?
    }

    function Contents(): (s: seq<Entry>)
      requires Valid()
      reads this, files
      ensures |s| == count
    {
      seq(count, i requires 0 <= i < count && Valid() reads this, files => files[i].value)
    }

    constructor ()
      ensures Valid() && fresh(files) && Contents() == []
    {
      files := new Option<Entry>[MAX_FILES](_ => None);
      count := 0;
    }

    /** The body of the reading loop up to its last `break`: the record at `pos`, or None to stop. */
    static method ReadRecord(archive: seq<byte>, pos: nat) returns (r: Option<(Entry, nat)>)
      requires pos + HEADER_SIZE <= |archive| < U63
      ensures r == Record(archive, pos)
    {
      var header := archive[pos..pos + HEADER_SIZE];
      if header[..6] != MAGIC { return None; }
      var nameSize := Hex(header[94..102]);
      if nameSize.None? { return None; }
      var fileSize := Hex(header[54..62]);
      if fileSize.None? { return None; }
      var nameStart := pos + HEADER_SIZE;
      var nameEnd := nameStart + nameSize.value;
      if nameEnd >= U64 { return None; }
      if nameSize.value == 0 || nameEnd > |archive| { return None; }
      var name := archive[nameStart..nameEnd - 1];
      if !ValidUtf8(name) { return None; }
      if name == TRAILER { return None; }
      var dataStart := Align4(nameEnd);
      var dataEnd := dataStart + fileSize.value;
      if dataEnd >= U64 { return None; }
      if dataEnd > |archive| { return None; }
      return Some((Entry(name, archive[dataStart..dataEnd]), Align4(dataEnd)));
    }

    method Init(archive: seq<byte>)
      requires Valid() && |archive| < U63
      modifies this, files
      ensures Valid()
      ensures Contents() == Take(Kept(Parsed(archive, 0)), MAX_FILES)
    {
      var pos, n := 0, 0;
      ghost var seen: seq<Entry> := [];
      ghost var all := Kept(Parsed(archive, 0));
      while pos + HEADER_SIZE <= |archive|
        invariant n == if |seen| <= MAX_FILES then |seen| else MAX_FILES
        invariant forall i :: 0 <= i < n ==> files[i] == Some(seen[i])
        invariant all == seen + Kept(Parsed(archive, pos))
        decreases |archive| - pos
      {
        var record := ReadRecord(archive, pos);
        if record.None? { break; }
        var (entry, next) := record.value;
        ParsedStep(archive, pos, entry, next);
        if n < MAX_FILES && entry.name != DOT {
          files[n] := Some(entry);
          n := n + 1;
        }
        ghost var kept := if entry.name == DOT then [] else [entry];
        Regroup(seen, kept, Kept(Parsed(archive, next)));
        seen := seen + kept;
        pos := next;
      }
      assert Kept(Parsed(archive, pos)) == [];
      assert all == seen;
      count := n;
      assert Contents() == Take(all, MAX_FILES);
    }

    /** `find`: the data of the first file of that name. */
    function Find(name: seq<byte>): (r: Option<seq<byte>>)
      requires Valid()
      reads this, files
      ensures r.None? <==> forall i {:trigger Contents()[i]} :: 0 <= i < |Contents()| ==> Contents()[i].name != name
      ensures r.Some? ==>
                exists i {:trigger Contents()[i]} ::
                  0 <= i < |Contents()| && IsFirst(Contents(), i, name) && Contents()[i].data == r.value
    {
      FirstMatchIs(Contents(), name);
      FirstMatch(Contents(), name)
    }
  }

  /** Entry i is the first of that name. */
  ghost predicate IsFirst(entries: seq<Entry>, i: nat, name: seq<byte>) {
    i < |entries| && entries[i].name == name && forall j :: 0 <= j < i ==> entries[j].name != name
  }

  lemma {:induction false} FirstMatchIs(entries: seq<Entry>, name: seq<byte>)
    ensures FirstMatch(entries, name).None? <==> forall i {:trigger entries[i]} :: 0 <= i < |entries| ==>
              entries[i].name != name
    ensures FirstMatch(entries, name).Some? ==>
              exists i {:trigger entries[i]} :: 0 <= i < |entries| && IsFirst(entries, i, name)
                  && entries[i].data == FirstMatch(entries, name).value
  {
    if entries != [] && entries[0].name != name {
      FirstMatchIs(entries[1..], name);
      if FirstMatch(entries, name).Some? {
        var i :| 0 <= i < |entries| - 1 && IsFirst(entries[1..], i, name)
            && entries[1..][i].data == FirstMatch(entries, name).value;
        assert IsFirst(entries, i + 1, name) && entries[i + 1].data == FirstMatch(entries, name).value;
      }
      assert forall i :: 0 < i < |entries| ==> entries[i] == entries[1..][i - 1];
    } else if entries != [] {
      assert IsFirst(entries, 0, name);
    }
  }

  lemma Regroup<T>(a: seq<T>, b: seq<T>, c: seq<T>)
    ensures a + (b + c) == (a + b) + c
  {
  }

  lemma ParsedStep(archive: seq<byte>, pos: nat, e: Entry, next: nat)
    requires Record(archive, pos) == Some((e, next))
    ensures Kept(Parsed(archive, pos)) == (if e.name == DOT then [] else [e]) + Kept(Parsed(archive, next))
  {
    var rest := Parsed(archive, next);
    assert ([e] + rest)[1..] == rest;
  }

  // ---- Reading back what was written ----

  lemma {:induction false} HexDigitsValue(v: nat, n: nat)
    requires n <= 8 && v < Pow16(n)
    ensures HexValue(HexDigits(v, n)) == Some(v)
  {
    if n > 0 {
      HexDigitsValue(v / 16, n - 1);
      Pow16Bound(n);
      HexStep(HexDigits(v / 16, n - 1), v / 16, v % 16);
    }
  }

  lemma HexStep(s: seq<byte>, high: nat, low: nat)
    requires HexValue(s) == Some(high) && low < 16 && high * 16 + low < U64
    ensures HexValue(s + [DigitOf(low)]) == Some(high * 16 + low)
  {
    var t := s + [DigitOf(low)];
    assert t[..|t| - 1] == s && t[|t| - 1] == DigitOf(low);
  }

  function Pow16(n: nat): nat { if n == 0 then 1 else 16 * Pow16(n - 1) }

  lemma {:induction false} Pow16Bound(n: nat)
    requires n <= 8
    ensures Pow16(n) <= U32 && Pow16(8) == U32
  {
    assert Pow16(8) == 16 * 16 * 16 * 16 * 16 * 16 * 16 * 16 by {
      assert Pow16(4) == 16 * 16 * 16 * 16;
    }
    if n < 8 { Pow16Grows(n, 8); }
  }

  lemma {:induction false} Pow16Grows(m: nat, n: nat)
    requires m <= n
    ensures Pow16(m) <= Pow16(n)
    decreases n - m
  {
    if m < n { Pow16Grows(m, n - 1); }
  }

  lemma FieldValue(v: nat)
    requires v < U32
    ensures HexValue(Field(v)) == Some(v)
  {
    Pow16Bound(8);
    HexDigitsValue(v, 8);
  }

  /** The reader stops at the first entry that carries the trailer's name. */
  function UpToTrailer(entries: seq<Entry>): seq<Entry> {
    if entries == [] || entries[0].name == TRAILER then []
    else [entries[0]] + UpToTrailer(entries[1..])
  }

  lemma HeaderSizes(e: Entry, ino: nat)
    requires Encodable(e) && ino < U32
    ensures Sizes(Header(e.name, e.data, ino)) == Some((|e.name| + 1, |e.data|))
  {
    HeaderFields(e.name, e.data, ino);
    FieldValue(|e.data|);
    FieldValue(|e.name| + 1);
  }

  function NamePad(e: Entry): nat {
    PadLen(HEADER_SIZE + |e.name| + 1)
  }

  /** The layout of an appended entry inside any archive that continues it. */
  lemma AppendedLayout(archive: seq<byte>, e: Entry, ino: nat, full: seq<byte>)
      returns (header: seq<byte>, gap: seq<byte>, tail: seq<byte>)
    requires Encodable(e) && ino < U32 && |archive| % 4 == 0
    requires var a := Appended(archive, e, ino); |a| <= |full| && full[..|a|] == a
    ensures |header| == HEADER_SIZE && Sizes(header) == Some((|e.name| + 1, |e.data|))
    ensures |gap| == 1 + NamePad(e) && full == archive + header + e.name + gap + e.data + tail
    ensures |Appended(archive, e, ino)|
         == Align4(|archive| + HEADER_SIZE + |e.name| + 1 + NamePad(e) + |e.data|)
  {
    header := Header(e.name, e.data, ino);
    HeaderSizes(e, ino);
    gap := [0] + Zeros(NamePad(e));
    var named := archive + header + e.name;
    PadLenAligned(|archive|, HEADER_SIZE + |e.name| + 1);
    assert Pad4(named + [0]) == (named + [0]) + Zeros(NamePad(e));
    var a := Appended(archive, e, ino);
    tail := AppendedTail(named, Zeros(NamePad(e)), e.data, a, full);
  }

  lemma AppendedTail(named: seq<byte>, pad: seq<byte>, data: seq<byte>, a: seq<byte>,
          full: seq<byte>) returns (tail: seq<byte>)
    requires a == Pad4(((named + [0]) + pad) + data) && |a| <= |full| && full[..|a|] == a
    ensures full == named + ([0] + pad) + data + tail
    ensures |a| == Align4(|named| + 1 + |pad| + |data|)
  {
    var body := ((named + [0]) + pad) + data;
    AlignIsPad(|body|);
    var pad2 := Zeros(PadLen(|body|));
    tail := pad2 + full[|a|..];
    Unpadded(named, [0], pad, data, pad2, full[|a|..]);
    assert full == a + full[|a|..];
  }

  lemma Unpadded(x: seq<byte>, nul: seq<byte>, z1: seq<byte>, y: seq<byte>, z2: seq<byte>, more: seq<byte>)
    ensures (((x + nul) + z1) + y) + z2 + more == x + (nul + z1) + y + (z2 + more)
  {
  }

  /** One appended entry, inside any archive that continues it, reads back as itself. */
  lemma AppendedReads(archive: seq<byte>, e: Entry, ino: nat, full: seq<byte>)
    requires Encodable(e) && ValidUtf8(e.name) && ino < U32 && |archive| % 4 == 0
    requires var a := Appended(archive, e, ino); |a| <= |full| && full[..|a|] == a
    ensures Record(full, |archive|) ==
            if e.name == TRAILER then None else Some((e, |Appended(archive, e, ino)|))
  {
    var header, gap, tail := AppendedLayout(archive, e, ino, full);
    LayoutReads(archive, header, gap, tail, e, full);
  }

  lemma LayoutReads(archive: seq<byte>, header: seq<byte>, gap: seq<byte>, tail: seq<byte>, e: Entry, full: seq<byte>)
    requires |archive| % 4 == 0 && ValidUtf8(e.name)
    requires |header| == HEADER_SIZE && Sizes(header) == Some((|e.name| + 1, |e.data|))
    requires |gap| == 1 + NamePad(e) && full == archive + header + e.name + gap + e.data + tail
    ensures Record(full, |archive|) ==
            if e.name == TRAILER then None
            else Some((e, Align4(|archive| + HEADER_SIZE + |e.name| + 1 + NamePad(e) + |e.data|)))
  {
    RecordSlices(archive, header, e.name, gap, e.data, tail, full);
    RecordFrom(full, |archive|, header, e);
  }

  /** A record is decided by the header, name and data slices at its position. */
  lemma RecordFrom(full: seq<byte>, pos: nat, header: seq<byte>, e: Entry)
    requires pos % 4 == 0 && |header| == HEADER_SIZE && ValidUtf8(e.name)
    requires var n := pos + HEADER_SIZE; var m := n + |e.name| + 1 + NamePad(e);
             |full| >= m + |e.data| && full[pos..n] == header && full[n..n + |e.name|] == e.name
             && full[m..m + |e.data|] == e.data
    requires Sizes(header) == Some((|e.name| + 1, |e.data|))
    ensures Record(full, pos) ==
            if e.name == TRAILER then None
            else Some((e, Align4(pos + HEADER_SIZE + |e.name| + 1 + NamePad(e) + |e.data|)))
  {
    assert Record(full, pos) == Body(full, pos, |e.name| + 1, |e.data|);
    BodyFrom(full, pos, e);
  }

  lemma BodyFrom(full: seq<byte>, pos: nat, e: Entry)
    requires pos % 4 == 0 && ValidUtf8(e.name)
    requires var n := pos + HEADER_SIZE; var m := n + |e.name| + 1 + NamePad(e);
             |full| >= m + |e.data| && full[n..n + |e.name|] == e.name && full[m..m + |e.data|] == e.data
    ensures Body(full, pos, |e.name| + 1, |e.data|) ==
            if e.name == TRAILER then None
            else Some((e, Align4(pos + HEADER_SIZE + |e.name| + 1 + NamePad(e) + |e.data|)))
  {
    hide ValidUtf8;
    PadLenAligned(pos, HEADER_SIZE + |e.name| + 1);
    AlignIsPad(pos + HEADER_SIZE + |e.name| + 1);
  }

  lemma RecordSlices(p: seq<byte>, h: seq<byte>, name: seq<byte>, gap: seq<byte>, data: seq<byte>, tail: seq<byte>,
          full: seq<byte>)
    requires full == p + h + name + gap + data + tail
    ensures var n := |p| + |h|;
            |full| >= n + |name| + |gap| + |data|
            && full[|p|..n] == h && full[n..n + |name|] == name
            && full[n + |name| + |gap|..n + |name| + |gap| + |data|] == data
  {
  }

  lemma TrailerStops(archive: seq<byte>, ino: nat)
    requires ino < U32 && |archive| % 4 == 0
    ensures Parsed(Built(archive, [], ino), |archive|) == []
  {
    var last := Entry(TRAILER, []);
    AsciiIsUtf8(last.name);
    BuiltEnd(archive, ino);
    StopsAtTrailer(archive, last, ino);
  }

  lemma StopsAtTrailer(archive: seq<byte>, e: Entry, ino: nat)
    requires Encodable(e) && ValidUtf8(e.name) && e.name == TRAILER && ino < U32 && |archive| % 4 == 0
    ensures Parsed(Appended(archive, e, ino), |archive|) == []
  {
    hide Appended, Encodable, ValidUtf8;
    var full := Appended(archive, e, ino);
    assert full[..|full|] == full;
    AppendedReads(archive, e, ino, full);
  }

  lemma {:induction false} ParsesBuilt(archive: seq<byte>, entries: seq<Entry>, ino: nat)
    requires forall e :: e in entries ==> Encodable(e)
    requires forall e :: e in entries ==> ValidUtf8(e.name)
    requires ino + |entries| < U32 && |archive| % 4 == 0
    ensures Parsed(Built(archive, entries, ino), |archive|) == UpToTrailer(entries)
    decreases |entries|
  {
    hide Built, Appended, Parsed, Encodable, ValidUtf8;
    if entries == [] {
      TrailerStops(archive, ino);
    } else {
      assert entries[0] in entries;
      BuiltReads(archive, entries, ino);
      ParsesBuilt(Appended(archive, entries[0], ino), entries[1..], ino + 1);
    }
  }

  lemma BuiltReads(archive: seq<byte>, entries: seq<Entry>, ino: nat)
    requires forall e :: e in entries ==> Encodable(e)
    requires entries != [] && ValidUtf8(entries[0].name)
    requires ino + |entries| < U32 && |archive| % 4 == 0
    ensures entries[0].name == TRAILER ==> Parsed(Built(archive, entries, ino), |archive|) == []
    ensures entries[0].name != TRAILER ==>
              var next := Appended(archive, entries[0], ino);
              Parsed(Built(archive, entries, ino), |archive|)
              == [entries[0]] + Parsed(Built(next, entries[1..], ino + 1), |next|)
  {
    hide Appended, Encodable, ValidUtf8, Record;
    var full := Built(archive, entries, ino);
    BuiltStep(archive, entries, ino);
    AppendedReads(archive, entries[0], ino, full);
  }

  lemma {:induction false} AsciiIsUtf8(s: seq<byte>)
    requires forall i :: 0 <= i < |s| ==> s[i] < 0x80
    ensures ValidUtf8(s)
    decreases |s|
  {
    if s != [] { AsciiIsUtf8(s[1..]); }
  }

  /** The initrd round trip: build.rs then initrd::init give the first sixteen entries before a trailer name. */
  method BuildThenInit(entries: seq<Entry>) returns (archive: Archive, table: FileTable)
    requires forall e :: e in entries ==> Encodable(e)
    requires forall e :: e in entries ==> ValidUtf8(e.name)
    requires |entries| + 1 < U32
    requires |Built([], entries, 1)| < U63
    ensures fresh(table) && fresh(table.files) && table.Valid()
    ensures table.Contents() == Take(Kept(UpToTrailer(entries)), MAX_FILES)
  {
    archive := BuildInitrd(entries);
    table := new FileTable();
    table.Init(archive.bytes);
    ParsesBuilt([], entries, 1);
  }

  /** When no name is "." or the trailer's, nothing is skipped. */
  lemma {:induction false} OrdinaryNamesAllKept(entries: seq<Entry>)
    requires forall e :: e in entries ==> e.name != DOT && e.name != TRAILER
    ensures Kept(UpToTrailer(entries)) == entries
  {
    if entries != [] {
      assert entries[0] in entries;
      OrdinaryNamesAllKept(entries[1..]);
      var rest := UpToTrailer(entries[1..]);
      assert ([entries[0]] + rest)[1..] == rest;
    }
  }
}
