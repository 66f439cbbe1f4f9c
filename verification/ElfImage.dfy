/** ELF64 images written field after field, and what the loader makes of any image so written. */
module ElfImage {
  import opened Bytes
  import opened Elf64

  // ----- a writer -----

  /** `n` in `width` bytes, least significant first. */
  function Word(n: nat, width: nat): (w: seq<Byte>)
    ensures |w| == width
    decreases width
  {
    if width == 0 then [] else [n % 256] + Word(n / 256, width - 1)
  }

  /** The file header, in field order. */
  datatype Header = Header(ident: seq<Byte>, kind: nat, machine: nat, version: nat, entry: nat, tableOffset: nat,
                           sectionOffset: nat, flags: nat, headerSize: nat, rowSize: nat, rowCount: nat,
                           sectionSize: nat, sectionCount: nat, sectionNames: nat)
  {
    predicate Writable() {
      && |ident| == 16 && kind < 0x1_0000 && machine < 0x1_0000 && version < 0x1_0000_0000
      && entry <= UINT64_MAX && tableOffset <= UINT64_MAX
      && headerSize < 0x1_0000 && rowSize < 0x1_0000 && rowCount < 0x1_0000
    }

    function Written(): (w: seq<Byte>)
      ensures |ident| == 16 ==> |w| == 64
    {
      ident + Word(kind, 2) + Word(machine, 2) + Word(version, 4) + Word(entry, 8) + Word(tableOffset, 8)
      + Word(sectionOffset, 8) + Word(flags, 4) + Word(headerSize, 2) + Word(rowSize, 2) + Word(rowCount, 2)
      + Word(sectionSize, 2) + Word(sectionCount, 2) + Word(sectionNames, 2)
    }

    /** A little-endian 64-bit executable for the x86-64 with a table of at least one 56-byte row. */
    predicate Executable() {
      && |ident| == 16 && ident[..7] == [0x7F, 0x45, 0x4C, 0x46, 2, 1, 1]
      && kind == 2 && machine == 62 && version == 1 && headerSize == 64 && rowSize == 56 && rowCount > 0
    }
  }

  /** One row of the program table, in field order. */
  datatype Row = Row(kind: nat, flags: nat, offset: nat, address: nat, physical: nat, fileSize: nat,
                     memorySize: nat, alignment: nat)
  {
    predicate Writable() {
      && kind < 0x1_0000_0000 && flags < 0x1_0000_0000 && offset <= UINT64_MAX && address <= UINT64_MAX
      && fileSize <= UINT64_MAX && memorySize <= UINT64_MAX
    }

    function Written(): (w: seq<Byte>)
      ensures |w| == 56
    {
      Word(kind, 4) + Word(flags, 4) + Word(offset, 8) + Word(address, 8) + Word(physical, 8) + Word(fileSize, 8)
      + Word(memorySize, 8) + Word(alignment, 8)
    }
  }

  /** The header is at the start of the image and the rows are where it says. */
  ghost predicate Holds(image: seq<Byte>, h: Header, rows: seq<Row>) {
    && h.Writable() && h.rowCount == |rows| && |image| >= 64 && image[..64] == h.Written()
    && h.tableOffset + 56 * |rows| <= |image|
    && forall i | 0 <= i < |rows| :: HoldsRow(image, h, rows, i)
  }

  ghost predicate HoldsRow(image: seq<Byte>, h: Header, rows: seq<Row>, i: nat)
    requires i < |rows|
  {
    && rows[i].Writable() && h.tableOffset + 56 * i + 56 <= |image|
    && image[h.tableOffset + 56 * i..h.tableOffset + 56 * i + 56] == rows[i].Written()
  }

  // ----- reading words back -----

  lemma Reads2(s: seq<Byte>, i: nat, n: nat)
    requires i + 2 <= |s| && n < 0x1_0000 && s[i..i + 2] == Word(n, 2)
    ensures Le16(s, i) == n
  {
    assert Word(n, 2) == [n % 256] + ([n / 256 % 256] + Word(n / 256 / 256, 0));
    assert s[i] == s[i..i + 2][0] && s[i + 1] == s[i..i + 2][1];
  }

  lemma Halves(n: nat, width: nat, half: nat)
    requires half <= width && (half == 2 || half == 4)
    ensures Word(n, width) == Word(n, half) + Word(n / if half == 2 then 0x1_0000 else 0x1_0000_0000, width - half)
  {
    if half == 4 {
      Halves(n, width, 2);
      Halves(n / 0x1_0000, width - 2, 2);
      Halves(n, 4, 2);
      assert n / 0x1_0000 / 0x1_0000 == n / 0x1_0000_0000;
      assert Word(n / 0x1_0000, 2) == Word(n / 0x1_0000, 2) + Word(n / 0x1_0000 / 0x1_0000, 0);
      TwoBytes(n / 0x1_0000, width - 2);
    } else {
      TwoBytes(n, width);
    }
  }

  lemma TwoBytes(n: nat, width: nat)
    requires width >= 2
    ensures Word(n, width) == Word(n, 2) + Word(n / 0x1_0000, width - 2)
  {
    assert Word(n, 2) == [n % 256] + ([n / 256 % 256] + Word(n / 256 / 256, 0));
    assert Word(n, width) == [n % 256] + ([n / 256 % 256] + Word(n / 256 / 256, width - 2));
    assert n / 256 / 256 == n / 0x1_0000;
  }

  lemma LowHalf(n: nat)
    ensures Word(n, 2) == Word(n % 0x1_0000, 2)
  {
    assert Word(n, 2) == [n % 256] + ([n / 256 % 256] + Word(n / 256 / 256, 0));
    var m := n % 0x1_0000;
    assert Word(m, 2) == [m % 256] + ([m / 256 % 256] + Word(m / 256 / 256, 0));
    hide Word;
    LowBytes(n / 0x1_0000, m);
  }

  lemma LowBytes(q: nat, m: nat)
    requires m < 0x1_0000
    ensures var n := q * 0x1_0000 + m; n % 256 == m % 256 && n / 256 % 256 == m / 256 % 256
  {
    var n := q * 0x1_0000 + m;
    assert n == (q * 256) * 256 + m;
    assert n / 256 == q * 256 + m / 256;
  }

  lemma Reads4(s: seq<Byte>, i: nat, n: nat)
    requires i + 4 <= |s| && n < 0x1_0000_0000 && s[i..i + 4] == Word(n, 4)
    ensures Le32(s, i) == n
  {
    TwoBytes(n, 4);
    LowHalf(n);
    assert s[i..i + 2] == s[i..i + 4][..2] && s[i + 2..i + 4] == s[i..i + 4][2..];
    hide Word;
    Reads2(s, i, n % 0x1_0000);
    Reads2(s, i + 2, n / 0x1_0000);
  }

  lemma LowWord(n: nat)
    ensures Word(n, 4) == Word(n % 0x1_0000_0000, 4)
  {
    var m := n % 0x1_0000_0000;
    TwoBytes(n, 4);
    TwoBytes(m, 4);
    LowHalf(n);
    LowHalf(m);
    LowHalf(n / 0x1_0000);
    hide Word;
    LowHalves(n);
  }

  lemma LowHalves(n: nat)
    ensures var m := n % 0x1_0000_0000; m % 0x1_0000 == n % 0x1_0000 && n / 0x1_0000 % 0x1_0000 == m / 0x1_0000
  {
    SplitHalves(n / 0x1_0000_0000, n % 0x1_0000_0000);
  }

  lemma SplitHalves(q: nat, m: nat)
    requires m < 0x1_0000_0000
    ensures var n := q * 0x1_0000_0000 + m; m % 0x1_0000 == n % 0x1_0000 && n / 0x1_0000 % 0x1_0000 == m / 0x1_0000
  {
    var n := q * 0x1_0000_0000 + m;
    assert n == (q * 0x1_0000) * 0x1_0000 + m;
    assert n / 0x1_0000 == q * 0x1_0000 + m / 0x1_0000;
  }

  lemma Reads8(s: seq<Byte>, i: nat, n: nat)
    requires i + 8 <= |s| && n <= UINT64_MAX && s[i..i + 8] == Word(n, 8)
    ensures Le64(s, i) == n
  {
    Halves(n, 8, 4);
    LowWord(n);
    assert s[i..i + 4] == s[i..i + 8][..4] && s[i + 4..i + 8] == s[i..i + 8][4..];
    hide Word;
    Reads4(s, i, n % 0x1_0000_0000);
    Reads4(s, i + 4, n / 0x1_0000_0000);
  }

  // ----- the fields at their places -----

  lemma Piece(a: seq<Byte>, x: seq<Byte>, b: seq<Byte>)
    ensures (a + x + b)[|a|..|a| + |x|] == x
  {
  }

  lemma HeaderPieces(h: Header)
    requires |h.ident| == 16
    ensures var w := h.Written();
            && w[..16] == h.ident && w[16..18] == Word(h.kind, 2) && w[18..20] == Word(h.machine, 2)
            && w[20..24] == Word(h.version, 4) && w[24..32] == Word(h.entry, 8) && w[32..40] == Word(h.tableOffset, 8)
            && w[52..54] == Word(h.headerSize, 2) && w[54..56] == Word(h.rowSize, 2) && w[56..58] == Word(h.rowCount, 2)
  {
    hide Word;
    var w := h.Written();
    var a := h.ident;
    var b := a + Word(h.kind, 2);
    var c := b + Word(h.machine, 2);
    var d := c + Word(h.version, 4);
    var e := d + Word(h.entry, 8);
    var f := e + Word(h.tableOffset, 8) + Word(h.sectionOffset, 8) + Word(h.flags, 4);
    var g := f + Word(h.headerSize, 2);
    var i := g + Word(h.rowSize, 2);
    assert w == a + Word(h.kind, 2) + w[18..] && w == b + Word(h.machine, 2) + w[20..];
    assert w == c + Word(h.version, 4) + w[24..] && w == d + Word(h.entry, 8) + w[32..];
    assert w == e + Word(h.tableOffset, 8) + w[40..] && w == f + Word(h.headerSize, 2) + w[54..];
    assert w == g + Word(h.rowSize, 2) + w[56..] && w == i + Word(h.rowCount, 2) + w[58..];
    Piece(a, Word(h.kind, 2), w[18..]);
    Piece(b, Word(h.machine, 2), w[20..]);
    Piece(c, Word(h.version, 4), w[24..]);
    Piece(d, Word(h.entry, 8), w[32..]);
    Piece(e, Word(h.tableOffset, 8), w[40..]);
    Piece(f, Word(h.headerSize, 2), w[54..]);
    Piece(g, Word(h.rowSize, 2), w[56..]);
    Piece(i, Word(h.rowCount, 2), w[58..]);
  }

  lemma RowPieces(r: Row)
    ensures var w := r.Written();
            && w[0..4] == Word(r.kind, 4) && w[4..8] == Word(r.flags, 4) && w[8..16] == Word(r.offset, 8)
            && w[16..24] == Word(r.address, 8) && w[32..40] == Word(r.fileSize, 8) && w[40..48] == Word(r.memorySize, 8)
  {
    hide Word;
    var w := r.Written();
    var a := Word(r.kind, 4);
    var b := a + Word(r.flags, 4);
    var c := b + Word(r.offset, 8);
    var d := c + Word(r.address, 8) + Word(r.physical, 8);
    var e := d + Word(r.fileSize, 8);
    assert w == a + w[4..] && w == a + Word(r.flags, 4) + w[8..] && w == b + Word(r.offset, 8) + w[16..];
    assert w == c + Word(r.address, 8) + w[24..] && w == d + Word(r.fileSize, 8) + w[40..];
    assert w == e + Word(r.memorySize, 8) + w[48..];
    Piece(a, Word(r.flags, 4), w[8..]);
    Piece(b, Word(r.offset, 8), w[16..]);
    Piece(c, Word(r.address, 8), w[24..]);
    Piece(d, Word(r.fileSize, 8), w[40..]);
    Piece(e, Word(r.memorySize, 8), w[48..]);
  }

  lemma Inside(s: seq<Byte>, from: nat, to: nat, a: nat, b: nat)
    requires from <= to <= |s| && a <= b <= to - from
    ensures s[from + a..from + b] == s[from..to][a..b]
  {
    forall k | 0 <= k < b - a ensures s[from + a..from + b][k] == s[from..to][a..b][k] {
      assert s[from..to][a + k] == s[from + a + k];
    }
  }

  lemma IdentReads(image: seq<Byte>, h: Header)
    requires h.Writable() && |image| >= 64 && image[..64] == h.Written()
    ensures image[..16] == h.ident
  {
    HeaderPieces(h);
    assert image[..16] == image[..64][..16];
    hide Word;
  }

  lemma HeaderReads(image: seq<Byte>, h: Header)
    requires h.Writable() && |image| >= 64 && image[..64] == h.Written()
    ensures Le16(image, 16) == h.kind && Le16(image, 18) == h.machine && Le32(image, 20) == h.version
    ensures Le64(image, 24) == h.entry && Le64(image, 32) == h.tableOffset
    ensures Le16(image, 52) == h.headerSize && Le16(image, 54) == h.rowSize && Le16(image, 56) == h.rowCount
  {
    HeaderPieces(h);
    assert image[0..64] == image[..64];
    assert h.Writable();
    hide *;
    Inside(image, 0, 64, 16, 18);
    Inside(image, 0, 64, 18, 20);
    Inside(image, 0, 64, 20, 24);
    Inside(image, 0, 64, 24, 32);
    Inside(image, 0, 64, 32, 40);
    Inside(image, 0, 64, 52, 54);
    Inside(image, 0, 64, 54, 56);
    Inside(image, 0, 64, 56, 58);
    Widths(h);
    Reads2(image, 16, h.kind);
    Reads2(image, 18, h.machine);
    Reads4(image, 20, h.version);
    Reads8(image, 24, h.entry);
    Reads8(image, 32, h.tableOffset);
    Reads2(image, 52, h.headerSize);
    Reads2(image, 54, h.rowSize);
    Reads2(image, 56, h.rowCount);
  }

  lemma Widths(h: Header)
    requires h.Writable()
    ensures h.kind < 0x1_0000 && h.machine < 0x1_0000 && h.version < 0x1_0000_0000
    ensures h.entry <= UINT64_MAX && h.tableOffset <= UINT64_MAX
    ensures h.headerSize < 0x1_0000 && h.rowSize < 0x1_0000 && h.rowCount < 0x1_0000
  {
  }

  lemma RowReads(image: seq<Byte>, at: nat, r: Row)
    requires r.Writable() && at + 56 <= |image| && image[at..at + 56] == r.Written()
    ensures Le32(image, at) == r.kind && Le32(image, at + 4) == r.flags && Le64(image, at + 8) == r.offset
    ensures Le64(image, at + 16) == r.address && Le64(image, at + 32) == r.fileSize && Le64(image, at + 40) == r.memorySize
  {
    RowPieces(r);
    Inside(image, at, at + 56, 0, 4);
    Inside(image, at, at + 56, 4, 8);
    Inside(image, at, at + 56, 8, 16);
    Inside(image, at, at + 56, 16, 24);
    Inside(image, at, at + 56, 32, 40);
    Inside(image, at, at + 56, 40, 48);
    hide Word, Le16, Le32, Le64;
    Reads4(image, at, r.kind);
    Reads4(image, at + 4, r.flags);
    Reads8(image, at + 8, r.offset);
    Reads8(image, at + 16, r.address);
    Reads8(image, at + 32, r.fileSize);
    Reads8(image, at + 40, r.memorySize);
  }

  // ----- what the loader makes of it -----

  lemma HeaderOkIs(image: seq<Byte>, h: Header)
    requires h.Writable() && |image| >= 64 && image[..64] == h.Written()
    ensures HeaderOk(image) <==> h.Executable()
    ensures HeaderOk(image) ==> Count(image) == h.rowCount && Entry(image) == h.entry
  {
    hide Le16, Le32, Le64, Word, Header.Written;
    HeaderReads(image, h);
    IdentReads(image, h);
    MagicIs(image, h.ident);
  }

  lemma MagicIs(image: seq<Byte>, ident: seq<Byte>)
    requires |ident| == 16 && |image| >= 64 && image[..16] == ident
    ensures ident[..7] == [0x7F, 0x45, 0x4C, 0x46, 2, 1, 1]
            <==> image[0] == 0x7F && image[1] == 0x45 && image[2] == 0x4C && image[3] == 0x46
                 && image[4] == 2 && image[5] == 1 && image[6] == 1
  {
    hide *;
    var w := image[..16];
    assert w[0] == image[0] && w[1] == image[1] && w[2] == image[2] && w[3] == image[3];
    assert w[4] == image[4] && w[5] == image[5] && w[6] == image[6];
    assert ident[..7] == [ident[0], ident[1], ident[2], ident[3], ident[4], ident[5], ident[6]];
  }

  lemma TableOkIs(image: seq<Byte>, h: Header, rows: seq<Row>)
    requires Holds(image, h, rows) && HeaderOk(image)
    ensures TableOk(image) && Count(image) == |rows| && Le64(image, 32) == h.tableOffset
  {
    HeaderReads(image, h);
    HeaderOkIs(image, h);
    hide Le16, Le32, Le64, HeaderOk, HoldsRow;
  }

  /** The loader takes the header for one exactly when it is a proper one, and then sees the count,
      the entry point and every row as written. */
  lemma ImageReads(image: seq<Byte>, h: Header, rows: seq<Row>)
    requires Holds(image, h, rows)
    ensures HeaderOk(image) <==> h.Executable()
    ensures HeaderOk(image) ==> TableOk(image) && Count(image) == |rows| && Entry(image) == h.entry
    ensures TableOk(image) ==> forall i | 0 <= i < |rows| :: Seen(image, rows, i)
  {
    HeaderOkIs(image, h);
    if HeaderOk(image) {
      TableOkIs(image, h, rows);
      hide HeaderOk, TableOk, HoldsRow, Seen, Count, Entry, Le64;
      forall i | 0 <= i < |rows| ensures Seen(image, rows, i) {
        assert HoldsRow(image, h, rows, i);
        RowSeen(image, h, rows, i);
      }
    }
  }

  ghost predicate Seen(image: seq<Byte>, rows: seq<Row>, i: nat)
    requires TableOk(image) && i < |rows|
  {
    i < Count(image)
    && ProgramAt(image, i) == Program(rows[i].kind == 1, rows[i].flags, rows[i].offset, rows[i].address,
                                      rows[i].fileSize, rows[i].memorySize)
  }

  lemma RowSeen(image: seq<Byte>, h: Header, rows: seq<Row>, i: nat)
    requires TableOk(image) && i < |rows| && Count(image) == |rows| && Le64(image, 32) == h.tableOffset
    requires HoldsRow(image, h, rows, i)
    ensures Seen(image, rows, i)
  {
    var at := h.tableOffset + 56 * i;
    assert at == Le64(image, 32) + i * PROGRAM_SIZE && at + 56 <= |image| && rows[i].Writable();
    assert image[at..at + 56] == rows[i].Written();
    hide Le16, Le32, Le64, TableOk, HoldsRow, Count, ProgramAt;
    RowReads(image, at, rows[i]);
    ProgramIs(image, i, at);
  }

  lemma ProgramIs(image: seq<Byte>, i: nat, at: nat)
    requires TableOk(image) && i < Count(image) && at == Le64(image, 32) + i * PROGRAM_SIZE && at + 56 <= |image|
    ensures ProgramAt(image, i) == Program(Le32(image, at) == 1, Le32(image, at + 4), Le64(image, at + 8),
                                           Le64(image, at + 16), Le64(image, at + 32), Le64(image, at + 40))
  {
    hide Le16, Le32, Le64, TableOk, Count;
  }

  /** A loadable row: within the file, no larger there than in memory, and not wrapping. */
  predicate Proper(r: Row, size: nat) {
    r.kind == 1 ==> r.fileSize <= r.memorySize && r.offset + r.fileSize <= size && r.address + r.memorySize <= UINT64_MAX
  }

  /** The entry point lies in the memory of a loadable row with the execute flag. */
  predicate Enters(r: Row, entry: nat) {
    r.kind == 1 && r.flags % 2 == 1 && r.address <= entry < r.address + r.memorySize
  }

  /** Exactly the images with a proper header, proper rows, and one row that holds the entry point
      are executables. */
  lemma ExecutableLaw(image: seq<Byte>, h: Header, rows: seq<Row>)
    requires Holds(image, h, rows)
    ensures Executable(image)
            <==> h.Executable() && (forall i | 0 <= i < |rows| :: Proper(rows[i], |image|))
                 && exists i | 0 <= i < |rows| :: Enters(rows[i], h.entry)
  {
    ImageReads(image, h, rows);
    if HeaderOk(image) { RowsDecide(image, rows, h.entry); }
    hide HeaderOk, TableOk, ProgramAt, Count, Entry, Holds, Proper, Enters, SegmentOk, HoldsEntry, Seen;
  }

  lemma RowsDecide(image: seq<Byte>, rows: seq<Row>, entry: nat)
    requires TableOk(image) && Count(image) == |rows| && Entry(image) == entry
    requires forall i | 0 <= i < |rows| :: Seen(image, rows, i)
    ensures SegmentsOk(image, |rows|) <==> forall i | 0 <= i < |rows| :: Proper(rows[i], |image|)
    ensures (exists i | 0 <= i < |rows| :: HoldsEntry(ProgramAt(image, i), entry))
            <==> exists i | 0 <= i < |rows| :: Enters(rows[i], entry)
  {
    hide HeaderOk, TableOk, ProgramAt, Count, Entry;
    forall i | 0 <= i < |rows|
      ensures SegmentOk(ProgramAt(image, i), |image|) <==> Proper(rows[i], |image|)
      ensures HoldsEntry(ProgramAt(image, i), entry) <==> Enters(rows[i], entry)
    {
      assert Seen(image, rows, i);
    }
    hide SegmentOk, HoldsEntry, Proper, Enters;
  }

  /** ... and they are loaded exactly into a block that does not wrap and holds every loadable row. */
  lemma AcceptsLaw(image: seq<Byte>, h: Header, rows: seq<Row>, base: nat, size: nat)
    requires Holds(image, h, rows)
    ensures Accepts(image, base, size)
            <==> Executable(image) && base + size <= UINT64_MAX
                 && forall i | 0 <= i < |rows| :: Placed(rows[i], base, base + size)
  {
    ImageReads(image, h, rows);
    if Executable(image) {
      AllPlaced(image, rows, base, base + size);
    }
    hide HeaderOk, TableOk, ProgramAt, Count, Entry, Holds, AllWithin, Placed, SegmentsOk;
  }

  /** A loadable row lies between the bounds. */
  predicate Placed(r: Row, low: nat, high: nat) {
    r.kind == 1 ==> low <= r.address && r.address + r.memorySize <= high
  }

  lemma AllPlaced(image: seq<Byte>, rows: seq<Row>, low: nat, high: nat)
    requires TableOk(image) && Count(image) == |rows| && forall i | 0 <= i < |rows| :: Seen(image, rows, i)
    ensures AllWithin(image, low, high) <==> forall i | 0 <= i < |rows| :: Placed(rows[i], low, high)
  {
    hide TableOk, ProgramAt, Count;
    forall i | 0 <= i < |rows| ensures Within(ProgramAt(image, i), low, high) <==> Placed(rows[i], low, high) {
      assert Seen(image, rows, i);
    }
  }

  /** The range reported for an executable: its entry point, the lowest address of a loadable row and
      the highest end of one. */
  lemma LayoutLaw(image: seq<Byte>, h: Header, rows: seq<Row>, l: Layout)
    requires Holds(image, h, rows) && TableOk(image) && Spans(image, l)
    ensures l.entry == h.entry && forall i | 0 <= i < |rows| :: Placed(rows[i], l.base, l.end)
    ensures exists i | 0 <= i < |rows| :: rows[i].kind == 1 && rows[i].address == l.base
    ensures exists i | 0 <= i < |rows| :: rows[i].kind == 1 && rows[i].address + rows[i].memorySize == l.end
  {
    ImageReads(image, h, rows);
    assert HeaderOk(image);
    hide HeaderOk, TableOk, ProgramAt, Count, Entry, Holds, AllWithin, Spans, Seen, Placed;
    SpanRows(image, rows, l);
  }

  lemma SpanRows(image: seq<Byte>, rows: seq<Row>, l: Layout)
    requires TableOk(image) && Count(image) == |rows| && forall i | 0 <= i < |rows| :: Seen(image, rows, i)
    requires Spans(image, l)
    ensures l.entry == Entry(image) && forall i | 0 <= i < |rows| :: Placed(rows[i], l.base, l.end)
    ensures exists i | 0 <= i < |rows| :: rows[i].kind == 1 && rows[i].address == l.base
    ensures exists i | 0 <= i < |rows| :: rows[i].kind == 1 && rows[i].address + rows[i].memorySize == l.end
  {
    AllPlaced(image, rows, l.base, l.end);
    hide HeaderOk, TableOk, ProgramAt, Count, Entry, AllWithin, Placed;
    var a :| 0 <= a < Count(image) && ProgramAt(image, a).load && ProgramAt(image, a).address == l.base;
    var b :| 0 <= b < Count(image) && ProgramAt(image, b).load
             && ProgramAt(image, b).address + ProgramAt(image, b).memorySize == l.end;
    assert Seen(image, rows, a) && Seen(image, rows, b);
  }

  /** Row `i` has file bytes at address `a`. */
  predicate Fills(r: Row, a: nat) { r.kind == 1 && r.address <= a < r.address + r.fileSize }

  /** Row `i` is the last of the first `n` with file bytes there. */
  ghost predicate LastFill(rows: seq<Row>, a: nat, n: nat, i: nat) {
    i < n <= |rows| && Fills(rows[i], a) && forall j | i < j < n :: !Fills(rows[j], a)
  }

  ghost predicate NoFill(rows: seq<Row>, a: nat, n: nat) { n <= |rows| && forall j | 0 <= j < n :: !Fills(rows[j], a) }

  /** Where some row has file bytes, the loaded image holds those of the last such row ... */
  lemma {:induction false} LoadedByte(image: seq<Byte>, h: Header, rows: seq<Row>, base: nat, n: nat, k: nat, i: nat)
    requires Holds(image, h, rows) && Executable(image) && LastFill(rows, base + k, n, i)
    ensures TableOk(image) && n <= Count(image) && SegmentsOk(image, n)
    ensures rows[i].offset + (base + k - rows[i].address) < |image|
    ensures Loaded(image, base, n, k) == image[rows[i].offset + (base + k - rows[i].address)]
  {
    hide Holds, Executable, TableOk, SegmentsOk, Count, ProgramAt, Loaded;
    LoadedFacts(image, h, rows, n);
    LoadedStep(image, base, n - 1, k);
    if i < n - 1 { LoadedByte(image, h, rows, base, n - 1, k, i); }
  }

  /** ... and zero everywhere else: between file and memory size, and between the rows. */
  lemma {:induction false} LoadedZero(image: seq<Byte>, h: Header, rows: seq<Row>, base: nat, n: nat, k: nat)
    requires Holds(image, h, rows) && Executable(image) && NoFill(rows, base + k, n)
    ensures TableOk(image) && n <= Count(image) && SegmentsOk(image, n)
    ensures Loaded(image, base, n, k) == 0
  {
    hide Holds, Executable, TableOk, SegmentsOk, Count, ProgramAt, Loaded;
    if n == 0 {
      LoadedNothing(image, h, rows, base, k);
    } else {
      LoadedFacts(image, h, rows, n);
      LoadedStep(image, base, n - 1, k);
      LoadedZero(image, h, rows, base, n - 1, k);
    }
  }

  lemma LoadedNothing(image: seq<Byte>, h: Header, rows: seq<Row>, base: nat, k: nat)
    requires Holds(image, h, rows) && Executable(image)
    ensures TableOk(image) && 0 <= Count(image) && SegmentsOk(image, 0) && Loaded(image, base, 0, k) == 0
  {
    LoadedFacts(image, h, rows, 0);
    hide Holds, Executable, TableOk;
  }

  lemma LoadedFacts(image: seq<Byte>, h: Header, rows: seq<Row>, n: nat)
    requires Holds(image, h, rows) && Executable(image) && n <= |rows|
    ensures TableOk(image) && n <= Count(image) && SegmentsOk(image, n)
    ensures n > 0 ==> n - 1 < Count(image) && SegmentsOk(image, n - 1) && Proper(rows[n - 1], |image|)
                      && ProgramAt(image, n - 1) == Program(rows[n - 1].kind == 1, rows[n - 1].flags, rows[n - 1].offset,
                                                            rows[n - 1].address, rows[n - 1].fileSize, rows[n - 1].memorySize)
  {
    ImageReads(image, h, rows);
    ExecutableLaw(image, h, rows);
    if n > 0 { assert Seen(image, rows, n - 1) && Proper(rows[n - 1], |image|); }
    hide HeaderOk, TableOk, ProgramAt, Count, Entry, Holds;
  }
}
