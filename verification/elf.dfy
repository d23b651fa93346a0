/**
 Executable files (src/kernel/exec.rs): the header checks, the program headers, and what a loaded page holds, as in
 chapter 5 of the System V gABI, "Program Header".
 */
module Elf {
  import opened Words
  import opened Pages
  import opened PageTables
  import opened Ownership

  const HEADER_SIZE: nat := 64
  const PHDR_SIZE: nat := 56
  const ET_EXEC: nat := 2
  const EM_RISCV: nat := 243
  const PT_LOAD: nat := 1
  const USIZE_MAX: nat := 0xFFFF_FFFF_FFFF_FFFF

  /** The little-endian number in n bytes of a file. */
  function Number(file: seq<byte>, at: nat, n: nat): (x: nat)
    requires at + n <= |file|
    decreases n
  {
    if n == 0 then 0 else file[at] as int + 256 * Number(file, at + 1, n - 1)
  }

  function Phoff(file: seq<byte>): nat
    requires |file| >= HEADER_SIZE
  {
    Number(file, 32, 8)
  }

  function Phnum(file: seq<byte>): nat
    requires |file| >= HEADER_SIZE
  {
    Number(file, 56, 2)
  }

  /** `elf_verify`. */
  predicate Verified(file: seq<byte>): (v: bool)
    ensures v ==> |file| >= HEADER_SIZE
  {
    && |file| >= HEADER_SIZE
    && file[0] == 0x7f && file[1] == 'E' as int && file[2] == 'L' as int && file[3] == 'F' as int
    && Number(file, 16, 2) == ET_EXEC && Number(file, 18, 2) == EM_RISCV && Number(file, 54, 2) == PHDR_SIZE
    && Phoff(file) + Phnum(file) * Number(file, 54, 2) <= |file|
  }

  /**
   One program header. The flag bits are the low three of its flags field: bit 2 reading, bit 1 writing, bit 0
   execution.
   */
  datatype Segment = Segment(kind: nat, r: bool, w: bool, x: bool, offset: nat, vaddr: nat, filesz: nat, memsz: nat)

  /** A verified file has all its program headers inside. */
  lemma HeadersInside(file: seq<byte>, i: nat)
    requires Verified(file) && i < Phnum(file)
    ensures Phoff(file) + i * PHDR_SIZE + PHDR_SIZE <= |file|
  {
    assert (i + 1) * PHDR_SIZE <= Phnum(file) * PHDR_SIZE;
  }

  function SegmentAt(file: seq<byte>, i: nat): Segment
    requires Verified(file) && i < Phnum(file)
  {
    HeadersInside(file, i);
    var at := Phoff(file) + i * PHDR_SIZE;
    Segment(Number(file, at, 4), file[at + 4] % 8 >= 4, file[at + 4] % 4 >= 2, file[at + 4] % 2 == 1,
            Number(file, at + 8, 8), Number(file, at + 16, 8), Number(file, at + 32, 8), Number(file, at + 40, 8))
  }

  // ---- Files as a linker writes them ----

  /** The n bytes that hold x, the lowest first. */
  function LittleEndian(x: nat, n: nat): (s: seq<byte>)
    ensures |s| == n
  {
    if n == 0 then [] else [x % 0x100] + LittleEndian(x / 0x100, n - 1)
  }

  /** The number fits in n bytes. */
  predicate FitsIn(x: nat, n: nat) {
    if n == 0 then x == 0 else FitsIn(x / 0x100, n - 1)
  }

  lemma Widths(x: nat)
    ensures FitsIn(x, 2) <==> x < 0x1_0000
    ensures FitsIn(x, 4) <==> x < 0x1_0000_0000
    ensures FitsIn(x, 8) <==> x < 0x1_0000_0000_0000_0000
  {
    var x2 := x / 0x100 / 0x100;
    var x4 := x2 / 0x100 / 0x100;
    var x6 := x4 / 0x100 / 0x100;
    assert FitsIn(x, 2) <==> FitsIn(x2, 0);
    assert FitsIn(x, 4) <==> FitsIn(x2, 2);
    assert FitsIn(x2, 2) <==> FitsIn(x4, 0);
    assert FitsIn(x, 8) <==> FitsIn(x2, 6);
    assert FitsIn(x2, 6) <==> FitsIn(x4, 4);
    assert FitsIn(x4, 4) <==> FitsIn(x6, 2);
  }

  /** Where a number's bytes stand, the number is read. */
  lemma {:induction false} NumberRead(file: seq<byte>, at: nat, x: nat, n: nat)
    requires at + n <= |file| && FitsIn(x, n) && file[at..at + n] == LittleEndian(x, n)
    ensures Number(file, at, n) == x
    decreases n
  {
    if n > 0 {
      var s := LittleEndian(x, n);
      assert file[at] == s[0] == x % 0x100;
      assert file[at + 1..at + 1 + (n - 1)] == file[at..at + n][1..] == s[1..] == LittleEndian(x / 0x100, n - 1);
      NumberRead(file, at + 1, x / 0x100, n - 1);
    }
  }

  /** A program header as a linker means it, with its fields in the order of the gABI. */
  datatype ProgramHeader = ProgramHeader(kind: nat, flags: nat, offset: nat, vaddr: nat, paddr: nat, filesz: nat,
                                         memsz: nat, align: nat)

  predicate HeaderFits(h: ProgramHeader) {
    && h.kind < 0x1_0000_0000 && h.flags < 0x1_0000_0000
    && h.offset < 0x1_0000_0000_0000_0000 && h.vaddr < 0x1_0000_0000_0000_0000 && h.paddr < 0x1_0000_0000_0000_0000
    && h.filesz < 0x1_0000_0000_0000_0000 && h.memsz < 0x1_0000_0000_0000_0000 && h.align < 0x1_0000_0000_0000_0000
  }

  function HeaderBytes(h: ProgramHeader): (s: seq<byte>)
    ensures |s| == 56
  {
    LittleEndian(h.kind, 4) + LittleEndian(h.flags, 4) + LittleEndian(h.offset, 8) + LittleEndian(h.vaddr, 8)
    + LittleEndian(h.paddr, 8) + LittleEndian(h.filesz, 8) + LittleEndian(h.memsz, 8) + LittleEndian(h.align, 8)
  }

  /** The bytes of `part` stand at offset `at` of the header that stands at `base` in the file. */
  lemma FieldRead(file: seq<byte>, base: nat, whole: seq<byte>, at: nat, x: nat, n: nat)
    requires base + |whole| <= |file| && file[base..base + |whole|] == whole && at + n <= |whole|
    requires whole[at..at + n] == LittleEndian(x, n) && FitsIn(x, n)
    ensures Number(file, base + at, n) == x
  {
    var field := file[base + at..base + at + n];
    forall k | 0 <= k < n
      ensures field[k] == whole[at..at + n][k]
    {
      assert field[k] == file[base + (at + k)] == file[base..base + |whole|][at + k];
    }
    assert field == whole[at..at + n];
    NumberRead(file, base + at, x, n);
  }

  /** A program header is read as the linker wrote it: every field, and the flags bit by bit. */
  lemma SegmentRead(file: seq<byte>, i: nat, h: ProgramHeader)
    requires Verified(file) && i < Phnum(file) && HeaderFits(h)
    requires Phoff(file) + 56 * i + 56 <= |file|
    requires file[Phoff(file) + 56 * i..Phoff(file) + 56 * i + 56] == HeaderBytes(h)
    ensures var g := SegmentAt(file, i);
            && g.kind == h.kind && g.offset == h.offset && g.vaddr == h.vaddr && g.filesz == h.filesz
            && g.memsz == h.memsz
            && (g.r <==> h.flags / 4 % 2 == 1) && (g.w <==> h.flags / 2 % 2 == 1) && (g.x <==> h.flags % 2 == 1)
  {
    hide LittleEndian, Number, FitsIn, Verified, Phoff, Phnum;
    HeadersInside(file, i);
    var base, s := Phoff(file) + 56 * i, HeaderBytes(h);
    Widths(h.kind);
    Widths(h.flags);
    Widths(h.offset);
    Widths(h.vaddr);
    Widths(h.filesz);
    Widths(h.memsz);
    HeaderParts(h);
    FieldRead(file, base, s, 0, h.kind, 4);
    FieldRead(file, base, s, 8, h.offset, 8);
    FieldRead(file, base, s, 16, h.vaddr, 8);
    FieldRead(file, base, s, 32, h.filesz, 8);
    FieldRead(file, base, s, 40, h.memsz, 8);
    assert file[base + 4] == file[base..base + 56][4] == s[4] == s[4..8][0];
    LowestFirst(h.flags, 4);
    FlagBits(h.flags);
  }

  lemma HeaderParts(h: ProgramHeader)
    ensures var s := HeaderBytes(h);
            && s[0..4] == LittleEndian(h.kind, 4) && s[4..8] == LittleEndian(h.flags, 4)
            && s[8..16] == LittleEndian(h.offset, 8) && s[16..24] == LittleEndian(h.vaddr, 8)
            && s[32..40] == LittleEndian(h.filesz, 8) && s[40..48] == LittleEndian(h.memsz, 8)
  {
    hide LittleEndian;
  }

  lemma LowestFirst(x: nat, n: nat)
    requires n > 0
    ensures LittleEndian(x, n)[0] == x % 0x100
  {
  }

  lemma ByteBits(b: nat)
    requires b < 0x100
    ensures (b % 8 >= 4 <==> b / 4 % 2 == 1) && (b % 4 >= 2 <==> b / 2 % 2 == 1)
  {
  }

  lemma EvenApart(m: nat, f: nat)
    ensures (2 * m + f) % 2 == f % 2
  {
  }

  lemma FlagBits(flags: nat)
    ensures flags % 0x100 % 8 >= 4 <==> flags / 4 % 2 == 1
    ensures flags % 0x100 % 4 >= 2 <==> flags / 2 % 2 == 1
    ensures flags % 0x100 % 2 == 1 <==> flags % 2 == 1
  {
    var m, b := flags / 0x100, flags % 0x100;
    ByteBits(b);
    EvenApart(32 * m, b / 4);
    EvenApart(64 * m, b / 2);
    EvenApart(128 * m, b);
    assert flags == 2 * (128 * m) + b && flags / 4 == 2 * (32 * m) + b / 4 && flags / 2 == 2 * (64 * m) + b / 2;
  }

  /** The header of a file, with its fields in the order of the gABI; `ident` is what follows the magic number. */
  datatype FileHeader = FileHeader(ident: seq<byte>, kind: nat, machine: nat, version: nat, entry: nat, phoff: nat,
                                   shoff: nat, flags: nat, ehsize: nat, phentsize: nat, phnum: nat, shentsize: nat,
                                   shnum: nat, shstrndx: nat)

  function FileHeaderBytes(h: FileHeader): (s: seq<byte>)
    requires |h.ident| == 12
    ensures |s| == 64
  {
    [0x7f, 0x45, 0x4c, 0x46] + h.ident + LittleEndian(h.kind, 2) + LittleEndian(h.machine, 2)
    + LittleEndian(h.version, 4) + LittleEndian(h.entry, 8) + LittleEndian(h.phoff, 8) + LittleEndian(h.shoff, 8)
    + LittleEndian(h.flags, 4) + LittleEndian(h.ehsize, 2) + LittleEndian(h.phentsize, 2) + LittleEndian(h.phnum, 2)
    + LittleEndian(h.shentsize, 2) + LittleEndian(h.shnum, 2) + LittleEndian(h.shstrndx, 2)
  }

  lemma FileHeaderParts(h: FileHeader)
    requires |h.ident| == 12
    ensures var s := FileHeaderBytes(h);
            && s[0..4] == [0x7f, 0x45, 0x4c, 0x46]
            && s[16..18] == LittleEndian(h.kind, 2) && s[18..20] == LittleEndian(h.machine, 2)
            && s[24..32] == LittleEndian(h.entry, 8) && s[32..40] == LittleEndian(h.phoff, 8)
            && s[54..56] == LittleEndian(h.phentsize, 2) && s[56..58] == LittleEndian(h.phnum, 2)
  {
    hide LittleEndian;
  }

  /**
   A file's header is read as the linker wrote it: the entry point and the program headers' place and number; and the
   file is taken exactly when it is an executable for RISC-V whose program headers have 56 bytes each and lie in the
   file.
   */
  lemma FileHeaderRead(file: seq<byte>, h: FileHeader)
    requires |file| >= 64 && |h.ident| == 12 && file[..64] == FileHeaderBytes(h)
    requires h.kind < 0x1_0000 && h.machine < 0x1_0000 && h.phentsize < 0x1_0000 && h.phnum < 0x1_0000
    requires h.entry < 0x1_0000_0000_0000_0000 && h.phoff < 0x1_0000_0000_0000_0000
    ensures Number(file, 24, 8) == h.entry && Phoff(file) == h.phoff && Phnum(file) == h.phnum
    ensures Verified(file) <==>
              h.kind == 2 && h.machine == 243 && h.phentsize == 56 && h.phoff + 56 * h.phnum <= |file|
  {
    hide LittleEndian, Number, FitsIn;
    var s := FileHeaderBytes(h);
    FileHeaderParts(h);
    Widths(h.kind);
    Widths(h.machine);
    Widths(h.entry);
    Widths(h.phoff);
    Widths(h.phentsize);
    Widths(h.phnum);
    FieldRead(file, 0, s, 16, h.kind, 2);
    FieldRead(file, 0, s, 18, h.machine, 2);
    FieldRead(file, 0, s, 24, h.entry, 8);
    FieldRead(file, 0, s, 32, h.phoff, 8);
    FieldRead(file, 0, s, 54, h.phentsize, 2);
    FieldRead(file, 0, s, 56, h.phnum, 2);
    assert file[0] == s[0..4][0] && file[1] == s[0..4][1] && file[2] == s[0..4][2] && file[3] == s[0..4][3];
  }

  predicate Loadable(g: Segment) {
    g.kind == PT_LOAD && g.memsz != 0
  }

  /** The segment's bytes are in the file, and there is room for them in memory. */
  predicate Readable(file: seq<byte>, g: Segment) {
    g.filesz <= g.memsz && g.offset + g.filesz <= |file|
  }

  /**
   The programs that this model loads: what is to be loaded lies below the heap limit, and may be read, written or
   run.
   */
  predicate Fits(file: seq<byte>) {
    Verified(file) ==>
        forall i {:trigger SegmentAt(file, i)} :: 0 <= i < Phnum(file) && Loadable(SegmentAt(file, i)) ==>
      MayLoad(SegmentAt(file, i))
  }

  predicate MayLoad(g: Segment) {
    g.vaddr + g.memsz <= HEAP_LIMIT && (g.r || g.w || g.x)
  }

  // ---- Pages of a segment ----

  function SegStart(g: Segment): nat {
    AlignDown(g.vaddr)
  }

  function SegEnd(g: Segment): nat {
    AlignUp(g.vaddr + g.memsz)
  }

  function SegPages(g: Segment): nat {
    if SegStart(g) <= SegEnd(g) then (SegEnd(g) - SegStart(g)) / PAGE_SIZE else 0
  }

  lemma SegSpan(g: Segment)
    ensures SegStart(g) % PAGE_SIZE == 0 && SegEnd(g) % PAGE_SIZE == 0
    ensures SegStart(g) + SegPages(g) * PAGE_SIZE == SegEnd(g)
    ensures g.vaddr + g.memsz <= HEAP_LIMIT ==> SegEnd(g) <= HEAP_LIMIT
  {
  }

  /** The flags of an entry: user, and what the segment allows. */
  function SegFlags(g: Segment): (f: nat)
    ensures f < FLAGS && (g.r || g.w || g.x ==> IsLeaf(f))
  {
    PTE_U + (if g.r then PTE_R else 0) + (if g.w then PTE_W else 0) + (if g.x then PTE_X else 0)
  }

  /** The byte at address a of a loaded segment: from the file, or zero. */
  function SegmentByte(file: seq<byte>, g: Segment, a: nat): byte
    requires Readable(file, g)
  {
    if g.vaddr <= a < g.vaddr + g.filesz then file[g.offset + (a - g.vaddr)] else 0
  }

  ghost predicate IsSegmentPage(page: seq<byte>, file: seq<byte>, g: Segment, va: nat)
    requires Readable(file, g)
  {
    |page| == PAGE_SIZE && forall k {:trigger page[k]} :: 0 <= k < PAGE_SIZE ==> page[k] == SegmentByte(file, g, va + k)
  }

  function Max(a: nat, b: nat): nat {
    if a < b then b else a
  }

  /** Copying the file's part over a zeroed page gives the segment's page. */
  method PageOf(file: seq<byte>, g: Segment, va: nat) returns (page: seq<byte>)
    requires Readable(file, g)
    ensures IsSegmentPage(page, file, g, va)
  {
    page := Zeros(PAGE_SIZE);
    var from, to := Max(va, g.vaddr), Min(va + PAGE_SIZE, g.vaddr + g.filesz);
    if from < to {
      var source, target := g.offset + from - g.vaddr, from - va;
      page := page[..target] + file[source..source + (to - from)] + page[target + (to - from)..];
    }
  }

  // ---- The range of an image ----

  /** The lowest page address of the first n headers' segments, and the highest end. */
  function ImageStart(file: seq<byte>, n: nat): (start: nat)
    requires Verified(file) && n <= Phnum(file)
  {
    if n == 0 then USIZE_MAX
    else if Loadable(SegmentAt(file, n - 1)) then Min(ImageStart(file, n - 1), SegStart(SegmentAt(file, n - 1)))
    else ImageStart(file, n - 1)
  }

  function ImageEnd(file: seq<byte>, n: nat): (end: nat)
    requires Verified(file) && n <= Phnum(file)
  {
    if n == 0 then 0
    else if Loadable(SegmentAt(file, n - 1)) then Max(ImageEnd(file, n - 1), SegEnd(SegmentAt(file, n - 1)))
    else ImageEnd(file, n - 1)
  }

  /** Every loadable segment lies in the image's range. */
  lemma {:induction false} SegmentIn(file: seq<byte>, n: nat, i: nat)
    requires Verified(file) && i < n <= Phnum(file) && Loadable(SegmentAt(file, i))
    ensures ImageStart(file, n) <= SegStart(SegmentAt(file, i)) && SegEnd(SegmentAt(file, i)) <= ImageEnd(file, n)
    ensures ImageStart(file, n) != USIZE_MAX || SegStart(SegmentAt(file, i)) >= USIZE_MAX
  {
    hide Verified, SegmentAt, SegStart, SegEnd;
    if i < n - 1 { SegmentIn(file, n - 1, i); }
  }

  /** The range is whole pages below the heap limit, and not empty. */
  lemma {:induction false} ImageRange(file: seq<byte>, n: nat)
    requires Verified(file) && Fits(file) && n <= Phnum(file)
    ensures ImageEnd(file, n) <= HEAP_LIMIT && ImageEnd(file, n) % PAGE_SIZE == 0
    ensures ImageStart(file, n) != USIZE_MAX ==> ImageStart(file, n) < ImageEnd(file, n)
    ensures ImageStart(file, n) != USIZE_MAX ==> ImageStart(file, n) % PAGE_SIZE == 0
    ensures ImageStart(file, n) == USIZE_MAX ==> ImageEnd(file, n) == 0
  {
    hide Verified;
    if n > 0 {
      ImageRange(file, n - 1);
      SegSpan(SegmentAt(file, n - 1));
    }
  }
}
