/** The ELF64 loader: one layout check, and two loaders (into one block, and into scattered
    page frames) that must agree. */
module Elf64 {
  import opened Bytes
  import opened Options

  const UINT64_MAX: nat := 0xFFFF_FFFF_FFFF_FFFF
  const HEADER_SIZE: nat := 64
  const PROGRAM_SIZE: nat := 56
  const PAGE: nat := 4096

  datatype Program = Program(load: bool, flags: nat, offset: nat, address: nat, fileSize: nat, memorySize: nat)

  datatype Layout = Layout(base: nat, end: nat, entry: nat)

  /** Written so that no sum can wrap. */
  predicate Fits(offset: nat, length: nat, total: nat) { offset <= total && length <= total - offset }

  /** Addition of 64-bit words. */
  function Sum64(a: nat, b: nat): nat { (a + b) % (UINT64_MAX + 1) }

  lemma Sum64Is(a: nat, b: nat)
    requires a <= UINT64_MAX && b <= UINT64_MAX
    ensures a + b <= UINT64_MAX ==> Sum64(a, b) == a + b
    ensures a + b > UINT64_MAX ==> Sum64(a, b) < a
  {
  }

  predicate HeaderOk(image: seq<Byte>) {
    && |image| >= HEADER_SIZE
    && image[0] == 0x7F && image[1] == 0x45 && image[2] == 0x4C && image[3] == 0x46
    && image[4] == 2 && image[5] == 1 && image[6] == 1
    && Le16(image, 16) == 2 && Le16(image, 18) == 62 && Le32(image, 20) == 1
    && Le16(image, 52) == HEADER_SIZE && Le16(image, 54) == PROGRAM_SIZE && Le16(image, 56) != 0
  }

  function Count(image: seq<Byte>): nat
    requires HeaderOk(image)
  {
    Le16(image, 56)
  }

  function Entry(image: seq<Byte>): nat
    requires HeaderOk(image)
  {
    Le64(image, 24)
  }

  predicate TableOk(image: seq<Byte>) {
    HeaderOk(image) && Fits(Le64(image, 32), Count(image) * PROGRAM_SIZE, |image|)
  }

  function ProgramAt(image: seq<Byte>, i: nat): (p: Program)
    requires TableOk(image) && i < Count(image)
    ensures p.offset <= UINT64_MAX && p.address <= UINT64_MAX
    ensures p.fileSize <= UINT64_MAX && p.memorySize <= UINT64_MAX
  {
    TableRow(image, i);
    var at := Le64(image, 32) + i * PROGRAM_SIZE;
    Program(Le32(image, at) == 1, Le32(image, at + 4), Le64(image, at + 8), Le64(image, at + 16),
            Le64(image, at + 32), Le64(image, at + 40))
  }

  lemma TableRow(image: seq<Byte>, i: nat)
    requires TableOk(image) && i < Count(image)
    ensures Le64(image, 32) + i * PROGRAM_SIZE + PROGRAM_SIZE <= |image|
  {
    assert (i + 1) * PROGRAM_SIZE <= Count(image) * PROGRAM_SIZE;
    hide Le64, Le16, Le32;
  }

  /** A loadable segment is within the file, holds its file bytes, and its end does not wrap. */
  predicate SegmentOk(p: Program, size: nat) {
    p.load ==>
      p.fileSize <= p.memorySize && Fits(p.offset, p.fileSize, size)
      && p.address + p.memorySize <= UINT64_MAX
  }

  /** The entry point lies in an executable segment. */
  predicate HoldsEntry(p: Program, entry: nat) {
    p.load && p.flags % 2 == 1 && p.address <= entry < p.address + p.memorySize
  }

  ghost predicate SegmentsOk(image: seq<Byte>, n: nat)
    requires TableOk(image) && n <= Count(image)
  {
    forall i | 0 <= i < n :: SegmentOk(ProgramAt(image, i), |image|)
  }

  ghost predicate Executable(image: seq<Byte>) {
    && TableOk(image) && SegmentsOk(image, Count(image))
    && exists i | 0 <= i < Count(image) :: HoldsEntry(ProgramAt(image, i), Entry(image))
  }

  /** Segment i, when loadable, lies between the bounds. */
  ghost predicate Within(p: Program, low: nat, high: nat) {
    p.load ==> low <= p.address && p.address + p.memorySize <= high
  }

  ghost predicate AllWithin(image: seq<Byte>, low: nat, high: nat)
    requires TableOk(image)
  {
    forall i | 0 <= i < Count(image) :: Within(ProgramAt(image, i), low, high)
  }

  /** The tightest range around every loadable segment, with the entry point inside it. */
  ghost predicate Spans(image: seq<Byte>, l: Layout)
    requires TableOk(image)
  {
    && l.entry == Entry(image) && l.base <= l.entry < l.end <= UINT64_MAX
    && AllWithin(image, l.base, l.end)
    && (exists i | 0 <= i < Count(image) :: ProgramAt(image, i).load && ProgramAt(image, i).address == l.base)
    && (exists i | 0 <= i < Count(image) ::
          ProgramAt(image, i).load && ProgramAt(image, i).address + ProgramAt(image, i).memorySize == l.end)
  }

  /** The image fits a block of `size` bytes at `base`, and the block does not wrap. */
  ghost predicate Accepts(image: seq<Byte>, base: nat, size: nat) {
    Executable(image) && base + size <= UINT64_MAX && AllWithin(image, base, base + size)
  }

  /** Byte `k` of the loaded block after the first `n` segments: the last one that has file data
      there, otherwise zero. */
  function Loaded(image: seq<Byte>, base: nat, n: nat, k: nat): Byte
    requires TableOk(image) && n <= Count(image) && SegmentsOk(image, n)
  {
    if n == 0 then 0
    else
      var p := ProgramAt(image, n - 1);
      if p.load && p.address <= base + k < p.address + p.fileSize then
        assert SegmentOk(p, |image|);
        image[p.offset + (base + k - p.address)]
      else Loaded(image, base, n - 1, k)
  }

  /** The running minimum and maximum of the layout scan after `n` segments. */
  function Low(image: seq<Byte>, n: nat): nat
    requires TableOk(image) && n <= Count(image)
  {
    if n == 0 then UINT64_MAX
    else
      var p, low := ProgramAt(image, n - 1), Low(image, n - 1);
      if p.load && p.address < low then p.address else low
  }

  function High(image: seq<Byte>, n: nat): nat
    requires TableOk(image) && n <= Count(image)
  {
    if n == 0 then 0
    else
      var p, high := ProgramAt(image, n - 1), High(image, n - 1);
      if p.load && p.address + p.memorySize > high then p.address + p.memorySize else high
  }

  lemma {:induction false} LowIs(image: seq<Byte>, n: nat)
    requires TableOk(image) && n <= Count(image)
    ensures forall i | 0 <= i < n && ProgramAt(image, i).load :: Low(image, n) <= ProgramAt(image, i).address
    ensures Low(image, n) < UINT64_MAX ==>
              exists i | 0 <= i < n :: ProgramAt(image, i).load && ProgramAt(image, i).address == Low(image, n)
  {
    if n > 0 {
      hide ProgramAt, TableOk;
      LowIs(image, n - 1);
    }
  }

  lemma {:induction false} HighIs(image: seq<Byte>, n: nat)
    requires TableOk(image) && n <= Count(image) && SegmentsOk(image, n)
    ensures High(image, n) <= UINT64_MAX
    ensures forall i | 0 <= i < n && ProgramAt(image, i).load ::
              ProgramAt(image, i).address + ProgramAt(image, i).memorySize <= High(image, n)
    ensures High(image, n) > 0 ==>
              exists i | 0 <= i < n ::
                ProgramAt(image, i).load && ProgramAt(image, i).address + ProgramAt(image, i).memorySize == High(image, n)
  {
    if n > 0 {
      assert SegmentOk(ProgramAt(image, n - 1), |image|);
      hide ProgramAt, TableOk;
      HighIs(image, n - 1);
    }
  }

  /** An executable segment around the entry point makes the scanned range a proper span. */
  lemma ScanSpans(image: seq<Byte>)
    requires Executable(image)
    ensures Spans(image, Layout(Low(image, Count(image)), High(image, Count(image)), Entry(image)))
  {
    var n := Count(image);
    var w :| 0 <= w < n && HoldsEntry(ProgramAt(image, w), Entry(image));
    assert SegmentOk(ProgramAt(image, w), |image|);
    hide ProgramAt, TableOk, SegmentsOk, Low, High, Entry, Count;
    LowIs(image, n);
    HighIs(image, n);
  }

  /** What the layout scan knows after `n` segments. */
  ghost predicate Scanned(image: seq<Byte>, n: nat, base: nat, end: nat, executable: bool)
    requires TableOk(image) && n <= Count(image)
  {
    && SegmentsOk(image, n) && base == Low(image, n) && end == High(image, n)
    && (executable <==> exists j | 0 <= j < n :: HoldsEntry(ProgramAt(image, j), Entry(image)))
  }

  lemma ScanStep(image: seq<Byte>, i: nat, base: nat, end: nat, executable: bool)
    requires TableOk(image) && i < Count(image) && Scanned(image, i, base, end, executable)
    requires SegmentOk(ProgramAt(image, i), |image|)
    ensures var p := ProgramAt(image, i);
            Scanned(image, i + 1, if p.load && p.address < base then p.address else base,
                    if p.load && p.address + p.memorySize > end then p.address + p.memorySize else end,
                    executable || HoldsEntry(p, Entry(image)))
  {
    hide ProgramAt, TableOk, Entry, Count, HoldsEntry, SegmentOk;
  }

  lemma ScanRefuses(image: seq<Byte>, i: nat)
    requires TableOk(image) && i < Count(image) && !SegmentOk(ProgramAt(image, i), |image|)
    ensures !Executable(image)
  {
  }

  lemma ScanEnds(image: seq<Byte>, base: nat, end: nat, executable: bool)
    requires TableOk(image) && Scanned(image, Count(image), base, end, executable)
    ensures executable <==> Executable(image)
    ensures executable ==> Spans(image, Layout(base, end, Entry(image))) && base < end <= UINT64_MAX
  {
    ghost var l := Layout(base, end, Entry(image));
    hide ProgramAt, TableOk, Entry, Count, HoldsEntry, SegmentOk;
    if executable {
      ScanSpans(image);
      SpanProper(image, l);
    }
  }

  /** Computes the span in one pass. The two sanity checks on the span itself are implied by the
      entry check, so acceptance depends on the segments alone. */
  method ExecutableLayout(image: seq<Byte>) returns (r: Option<Layout>)
    requires |image| <= UINT64_MAX
    ensures r.Some? <==> Executable(image)
    ensures r.Some? ==> Spans(image, r.value)
  {
    if !TableOk(image) {
      return None;
    }
    var count, entry := Count(image), Entry(image);
    var base: nat, end: nat, executable := UINT64_MAX, 0, false;
    assert Scanned(image, 0, base, end, executable);
    hide ProgramAt, TableOk, HeaderOk, Spans, Executable, Scanned;
    for i := 0 to count
      invariant Scanned(image, i, base, end, executable)
    {
      var p := ProgramAt(image, i);
      if !p.load {
        ScanStep(image, i, base, end, executable);
        continue;
      }
      if p.fileSize > p.memorySize || !Fits(p.offset, p.fileSize, |image|)
         || p.address > UINT64_MAX - p.memorySize {
        ScanRefuses(image, i);
        return None;
      }
      ScanStep(image, i, base, end, executable);
      var segmentEnd := p.address + p.memorySize;
      if p.address < base {
        base := p.address;
      }
      if segmentEnd > end {
        end := segmentEnd;
      }
      if p.flags % 2 == 1 && entry >= p.address && entry < segmentEnd {
        executable := true;
      }
    }
    ScanEnds(image, base, end, executable);
    if base == UINT64_MAX || end <= base || !executable {
      return None;
    }
    return Some(Layout(base, end, entry));
  }

  lemma SpanProper(image: seq<Byte>, l: Layout)
    requires TableOk(image) && Spans(image, l)
    ensures l.base < l.end <= UINT64_MAX
  {
  }

  lemma AllWithinWhen(image: seq<Byte>, l: Layout, low: nat, high: nat)
    requires TableOk(image) && Spans(image, l)
    ensures AllWithin(image, low, high) <==> low <= l.base && l.end <= high
  {
    var a :| 0 <= a < Count(image) && ProgramAt(image, a).load && ProgramAt(image, a).address == l.base;
    var b :| 0 <= b < Count(image) && ProgramAt(image, b).load
             && ProgramAt(image, b).address + ProgramAt(image, b).memorySize == l.end;
    hide ProgramAt, TableOk, HeaderOk;
    if AllWithin(image, low, high) {
      assert Within(ProgramAt(image, a), low, high) && Within(ProgramAt(image, b), low, high);
    }
    if low <= l.base && l.end <= high {
      forall i | 0 <= i < Count(image) ensures Within(ProgramAt(image, i), low, high) {
        assert Within(ProgramAt(image, i), l.base, l.end);
      }
    }
  }

  /** The wrapped comparison of the flat loader and the explicit wrap check of the paged loader
      admit the same images. */
  lemma SpanFits(image: seq<Byte>, l: Layout, base: nat, size: nat)
    requires Executable(image) && Spans(image, l) && base <= UINT64_MAX && size <= UINT64_MAX
    ensures Accepts(image, base, size) <==>
              l.base >= base && l.end <= Sum64(base, size)
    ensures Accepts(image, base, size) <==>
              base <= UINT64_MAX - size && l.base >= base && l.end <= base + size
  {
    AllWithinWhen(image, l, base, base + size);
    SpanProper(image, l);
    Sum64Is(base, size);
    hide Executable, Spans, AllWithin, Sum64;
  }

  /** Every check the flat loader repeats while copying is already settled by the layout. */
  lemma SecondRoundNeverFails(image: seq<Byte>, base: nat, size: nat, i: nat)
    requires Accepts(image, base, size) && i < Count(image) && ProgramAt(image, i).load
    ensures var p := ProgramAt(image, i);
            && p.fileSize <= p.memorySize && Fits(p.offset, p.fileSize, |image|)
            && p.address >= base && Fits(p.address - base, p.memorySize, size)
    ensures base <= Entry(image) < base + size
  {
    var p := ProgramAt(image, i);
    assert SegmentOk(p, |image|) && Within(p, base, base + size);
    var w :| 0 <= w < Count(image) && HoldsEntry(ProgramAt(image, w), Entry(image));
    assert Within(ProgramAt(image, w), base, base + size);
  }

  /** Copies one segment's file bytes. */
  method CopySegment(image: seq<Byte>, memory: array<Byte>, destination: nat, p: Program)
    requires Fits(p.offset, p.fileSize, |image|) && destination + p.fileSize <= memory.Length
    modifies memory
    ensures forall k | 0 <= k < memory.Length ::
              memory[k] == if destination <= k < destination + p.fileSize
                           then image[p.offset + (k - destination)] else old(memory[k])
  {
    for b := 0 to p.fileSize
      invariant forall k | 0 <= k < memory.Length ::
                  memory[k] == if destination <= k < destination + b
                               then image[p.offset + (k - destination)] else old(memory[k])
    {
      memory[destination + b] := image[p.offset + b];
    }
  }

  method ClearBlock(memory: array<Byte>)
    modifies memory
    ensures forall k | 0 <= k < memory.Length :: memory[k] == 0
  {
    for i := 0 to memory.Length
      invariant forall k | 0 <= k < i :: memory[k] == 0
    {
      memory[i] := 0;
    }
  }

  lemma LoadedStep(image: seq<Byte>, base: nat, n: nat, k: nat)
    requires TableOk(image) && n < Count(image) && SegmentsOk(image, n + 1)
    ensures SegmentsOk(image, n)
    ensures var p := ProgramAt(image, n);
            Loaded(image, base, n + 1, k) ==
            if p.load && p.address <= base + k < p.address + p.fileSize && p.offset + (base + k - p.address) < |image|
            then image[p.offset + (base + k - p.address)] else Loaded(image, base, n, k)
  {
    hide ProgramAt;
    assert SegmentOk(ProgramAt(image, n), |image|);
  }

  /** `block` holds what the first `n` segments load. */
  ghost predicate BlockIs(block: seq<Byte>, image: seq<Byte>, base: nat, n: nat)
    requires TableOk(image) && n <= Count(image) && SegmentsOk(image, n)
  {
    forall k | 0 <= k < |block| :: block[k] == Loaded(image, base, n, k)
  }

  /** `after` is `before` with the bytes of segment `p` laid over it. */
  ghost predicate LaidOver(before: seq<Byte>, after: seq<Byte>, image: seq<Byte>, base: nat, p: Program) {
    |before| == |after| && forall k | 0 <= k < |after| ::
      after[k] == if p.load && p.address <= base + k < p.address + p.fileSize
                    && p.offset + (base + k - p.address) < |image|
                 then image[p.offset + (base + k - p.address)] else before[k]
  }

  /** Laying the next segment over the block loads one segment more. */
  lemma LoadedOver(image: seq<Byte>, base: nat, n: nat, before: seq<Byte>, after: seq<Byte>)
    requires TableOk(image) && n < Count(image) && SegmentsOk(image, n) && SegmentsOk(image, n + 1)
    requires LaidOver(before, after, image, base, ProgramAt(image, n)) && BlockIs(before, image, base, n)
    ensures BlockIs(after, image, base, n + 1)
  {
    hide ProgramAt, Loaded, SegmentsOk;
    forall k | 0 <= k < |after| ensures after[k] == Loaded(image, base, n + 1, k) {
      LoadedStep(image, base, n, k);
    }
  }

  /** One segment of the copying pass with its own checks; given an accepted image they pass. */
  method CopyChecked(image: seq<Byte>, memory: array<Byte>, base: nat, p: Program) returns (ok: bool)
    requires p.load && p.fileSize <= p.memorySize && Fits(p.offset, p.fileSize, |image|)
    requires p.address >= base && Fits(p.address - base, p.memorySize, memory.Length)
    modifies memory
    ensures ok && LaidOver(old(memory[..]), memory[..], image, base, p)
  {
    ok := !(p.fileSize > p.memorySize || !Fits(p.offset, p.fileSize, |image|) || p.address < base)
          && Fits(p.address - base, p.memorySize, memory.Length);
    CopySegment(image, memory, p.address - base, p);
  }

  lemma SkippedOver(block: seq<Byte>, image: seq<Byte>, base: nat, p: Program)
    requires !p.load
    ensures LaidOver(block, block, image, base, p)
  {
  }

  lemma PrefixOk(image: seq<Byte>, base: nat, size: nat, n: nat)
    requires Accepts(image, base, size) && n <= Count(image)
    ensures SegmentsOk(image, n)
  {
  }

  /** One turn of the copying pass: its verdict, and whether the segment counts towards the
      loaded and executable flags. */
  method LoadOne(image: seq<Byte>, memory: array<Byte>, base: nat, index: nat)
    returns (ok: bool, loads: bool, enters: bool)
    requires Accepts(image, base, memory.Length) && index < Count(image) && SegmentsOk(image, index)
    requires BlockIs(memory[..], image, base, index)
    modifies memory
    ensures ok && loads == ProgramAt(image, index).load && enters == HoldsEntry(ProgramAt(image, index), Entry(image))
    ensures SegmentsOk(image, index + 1) && BlockIs(memory[..], image, base, index + 1)
  {
    PrefixOk(image, base, memory.Length, index + 1);
    var p, start := ProgramAt(image, index), Entry(image);
    ghost var before := memory[..];
    loads := p.load;
    enters := p.load && p.flags % 2 == 1 && start >= p.address && start < p.address + p.memorySize;
    assert enters == HoldsEntry(p, start);
    hide *;
    if loads {
      SecondRoundNeverFails(image, base, memory.Length, index);
      ok := CopyChecked(image, memory, base, p);
    } else {
      SkippedOver(before, image, base, p);
      ok := true;
    }
    LoadedOver(image, base, index, before, memory[..]);
  }

  /** A zeroed block is the block before the first segment, and some segment will enter. */
  lemma ZeroStart(image: seq<Byte>, block: seq<Byte>, base: nat) returns (w: nat)
    requires Accepts(image, base, |block|) && forall k | 0 <= k < |block| :: block[k] == 0
    ensures HeaderOk(image) && TableOk(image) && SegmentsOk(image, 0) && BlockIs(block, image, base, 0)
    ensures w < Count(image) && ProgramAt(image, w).load && HoldsEntry(ProgramAt(image, w), Entry(image))
  {
    w :| w < Count(image) && HoldsEntry(ProgramAt(image, w), Entry(image));
  }

  method CopySegments(image: seq<Byte>, memory: array<Byte>, base: nat)
    returns (ok: bool, loaded: bool, executable: bool)
    requires Accepts(image, base, memory.Length)
    requires forall k | 0 <= k < memory.Length :: memory[k] == 0
    modifies memory
    ensures ok && loaded && executable
    ensures BlockIs(memory[..], image, base, Count(image))
  {
    ghost var w := ZeroStart(image, memory[..], base);
    hide *;
    var count := Count(image);
    ok, loaded, executable := true, false, false;
    var index := 0;
    while index < count && ok
      invariant 0 <= index <= count && ok && SegmentsOk(image, index)
      invariant index > w ==> executable && loaded
      invariant BlockIs(memory[..], image, base, index)
    {
      var loads, enters;
      ok, loads, enters := LoadOne(image, memory, base, index);
      loaded, executable := loaded || loads, executable || enters;
      index := index + 1;
    }
  }

  /** Later segments overwrite earlier ones, everything else is zero. */
  method LoadExecutable(image: seq<Byte>, memory: array<Byte>, base: nat) returns (entry: Option<nat>)
    requires |image| <= UINT64_MAX && memory.Length <= UINT64_MAX && base <= UINT64_MAX
    modifies memory
    ensures entry.Some? <==> Accepts(image, base, memory.Length)
    ensures entry.Some? ==> entry.value == Entry(image)
    ensures entry.Some? ==> BlockIs(memory[..], image, base, Count(image))
    ensures entry.None? ==> memory[..] == old(memory[..])
  {
    var layout := ExecutableLayout(image);
    if layout == None {
      assert !Accepts(image, base, memory.Length);
      return None;
    }
    SpanFits(image, layout.value, base, memory.Length);
    if layout.value.base < base || layout.value.end > Sum64(base, memory.Length) {
      return None;
    }
    ghost var w: nat :| w < Count(image) && HoldsEntry(ProgramAt(image, w), Entry(image));
    SecondRoundNeverFails(image, base, memory.Length, w);
    var start := Entry(image);
    hide *;
    ClearBlock(memory);
    var ok, loaded, executable := CopySegments(image, memory, base);
    entry := None;
    if ok && loaded && executable && base <= start < base + memory.Length {
      entry := Some(start);
    }
  }

  // ---- Scattered frames ---------------------------------------------------------------------

  predicate GoodFrame(frame: nat) { frame != 0 && frame % PAGE == 0 }

  /** Where byte `k` of the virtual block lives. */
  function Cell(frames: seq<nat>, k: nat): nat
    requires k < |frames| * PAGE
  {
    frames[k / PAGE] + k % PAGE
  }

  ghost predicate Distinct(frames: seq<nat>) {
    forall i, j | 0 <= i < j < |frames| :: frames[i] != frames[j]
  }

  ghost predicate AllGood(frames: seq<nat>) { forall i | 0 <= i < |frames| :: GoodFrame(frames[i]) }

  /** Usable frames lie inside physical memory. */
  ghost predicate InMemory(frames: seq<nat>, size: nat) {
    forall i | 0 <= i < |frames| && GoodFrame(frames[i]) :: frames[i] + PAGE <= size
  }

  ghost predicate InFrames(frames: seq<nat>, x: nat) {
    exists i | 0 <= i < |frames| :: frames[i] <= x < frames[i] + PAGE
  }

  lemma CellUnique(frames: seq<nat>, j: nat, k: nat)
    requires AllGood(frames) && Distinct(frames)
    requires j < |frames| * PAGE && k < |frames| * PAGE && Cell(frames, j) == Cell(frames, k)
    ensures j == k
  {
    var a, b := frames[j / PAGE], frames[k / PAGE];
    assert GoodFrame(a) && GoodFrame(b);
    var p, q := a / PAGE, b / PAGE;
    assert a == p * PAGE && b == q * PAGE;
    assert p == q;
    assert j / PAGE == k / PAGE;
  }

  lemma CellInFrames(frames: seq<nat>, k: nat, size: nat)
    requires AllGood(frames) && InMemory(frames, size) && k < |frames| * PAGE
    ensures Cell(frames, k) < size && InFrames(frames, Cell(frames, k))
  {
    assert GoodFrame(frames[k / PAGE]);
  }

  /** Zeroes the frames up to the first unusable one. */
  method ClearFrames(ram: array<Byte>, frames: seq<nat>) returns (ok: bool)
    requires InMemory(frames, ram.Length)
    modifies ram
    ensures ok <==> AllGood(frames)
    ensures ok ==> forall x | 0 <= x < ram.Length && InFrames(frames, x) :: ram[x] == 0
    ensures forall x | 0 <= x < ram.Length && !InFrames(frames, x) :: ram[x] == old(ram[x])
  {
    for page := 0 to |frames|
      invariant AllGood(frames[..page])
      invariant forall i, x | 0 <= i < page && frames[i] <= x < frames[i] + PAGE :: ram[x] == 0
      invariant forall x | 0 <= x < ram.Length && !InFrames(frames, x) :: ram[x] == old(ram[x])
    {
      if frames[page] == 0 || frames[page] % PAGE != 0 {
        assert !GoodFrame(frames[page]);
        return false;
      }
      assert GoodFrame(frames[page]);
      ClearPage(ram, frames[page]);
    }
    assert frames[..|frames|] == frames;
    ok := true;
  }

  method ClearPage(ram: array<Byte>, frame: nat)
    requires frame + PAGE <= ram.Length
    modifies ram
    ensures forall x | 0 <= x < ram.Length ::
              ram[x] == if frame <= x < frame + PAGE then 0 else old(ram[x])
  {
    for b := 0 to PAGE
      invariant forall x | 0 <= x < ram.Length ::
                  ram[x] == if frame <= x < frame + b then 0 else old(ram[x])
    {
      ram[frame + b] := 0;
    }
  }

  /** The virtual block as the frames hold it. */
  ghost function Gather(ram: seq<Byte>, frames: seq<nat>): (block: seq<Byte>)
    requires AllGood(frames) && InMemory(frames, |ram|)
    ensures |block| == |frames| * PAGE
    ensures forall k | 0 <= k < |block| :: Cell(frames, k) < |ram| && block[k] == ram[Cell(frames, k)]
  {
    seq(|frames| * PAGE, k requires 0 <= k < |frames| * PAGE =>
      CellInFrames(frames, k, |ram|);
      ram[Cell(frames, k)])
  }

  /** One byte sent through the frame table changes one byte of the block. */
  lemma GatherWrite(ram: seq<Byte>, frames: seq<nat>, offset: nat, v: Byte)
    requires AllGood(frames) && Distinct(frames) && InMemory(frames, |ram|) && offset < |frames| * PAGE
    ensures Cell(frames, offset) < |ram| && InFrames(frames, Cell(frames, offset))
    ensures Gather(ram[Cell(frames, offset) := v], frames) == Gather(ram, frames)[offset := v]
  {
    CellInFrames(frames, offset, |ram|);
    var x := Cell(frames, offset);
    var g, h := Gather(ram[x := v], frames), Gather(ram, frames);
    forall k | 0 <= k < |g| ensures g[k] == h[offset := v][k] {
      if Cell(frames, k) == x {
        CellUnique(frames, k, offset);
      }
    }
  }

  /** The same copy, each byte sent through the frame table. */
  method CopyScattered(image: seq<Byte>, ram: array<Byte>, frames: seq<nat>, base: nat, p: Program)
    requires AllGood(frames) && InMemory(frames, ram.Length)
    requires p.load && p.fileSize <= p.memorySize && Fits(p.offset, p.fileSize, |image|)
    requires p.address >= base && Fits(p.address - base, p.memorySize, |frames| * PAGE)
    modifies ram
    ensures Distinct(frames) ==> LaidOver(Gather(old(ram[..]), frames), Gather(ram[..], frames), image, base, p)
    ensures forall x | 0 <= x < ram.Length && !InFrames(frames, x) :: ram[x] == old(ram[x])
  {
    var destination := p.address - base;
    ghost var first := Gather(ram[..], frames);
    hide AllGood, InMemory, Distinct, InFrames, Gather;
    for b := 0 to p.fileSize
      invariant Distinct(frames) ==> forall k | 0 <= k < |first| ::
                  Gather(ram[..], frames)[k] == if destination <= k < destination + b
                                                then image[p.offset + (k - destination)] else first[k]
      invariant forall x | 0 <= x < ram.Length && !InFrames(frames, x) :: ram[x] == old(ram[x])
    {
      var offset := destination + b;
      CellInFrames(frames, offset, ram.Length);
      if Distinct(frames) { GatherWrite(ram[..], frames, offset, image[p.offset + b]); }
      ghost var before := ram[..];
      var at := frames[offset / PAGE] + offset % PAGE;
      assert at == Cell(frames, offset);
      hide Cell;
      ram[at] := image[p.offset + b];
      assert ram[..] == before[at := image[p.offset + b]];
    }
  }

  /** Loads through a table of scattered frames; a table that lists a frame twice is accepted too,
      but only distinct frames are sure to hold the whole block. An unusable frame is only noticed after the
      frames before it were zeroed. */
  method LoadExecutablePages(image: seq<Byte>, base: nat, ram: array<Byte>, frames: seq<nat>)
    returns (entry: Option<nat>)
    requires |image| <= UINT64_MAX && base <= UINT64_MAX
    requires InMemory(frames, ram.Length)
    modifies ram
    ensures entry.Some? <==> 0 < |frames| <= UINT64_MAX / PAGE && Accepts(image, base, |frames| * PAGE)
                             && forall i | 0 <= i < |frames| :: frames[i] != 0 && frames[i] % 4096 == 0
    ensures entry.Some? ==> entry.value == Entry(image)
    ensures entry.Some? && Distinct(frames) ==> BlockIs(Gather(ram[..], frames), image, base, Count(image))
    ensures forall x | 0 <= x < ram.Length && !InFrames(frames, x) :: ram[x] == old(ram[x])
    ensures !Accepts(image, base, |frames| * PAGE) ==> ram[..] == old(ram[..])
  {
    if |frames| == 0 || |frames| > UINT64_MAX / PAGE {
      return None;
    }
    var capacity := |frames| * PAGE;
    if base > UINT64_MAX - capacity {
      return None;
    }
    var layout := ExecutableLayout(image);
    if layout == None {
      return None;
    }
    SpanFits(image, layout.value, base, capacity);
    if layout.value.base < base || layout.value.end > base + capacity {
      return None;
    }
    assert layout.value.entry == Entry(image);
    hide *;
    var ok := ClearFrames(ram, frames);
    if !ok {
      return None;
    }
    CopyAllScattered(image, base, ram, frames);
    return Some(layout.value.entry);
  }

  method CopyAllScattered(image: seq<Byte>, base: nat, ram: array<Byte>, frames: seq<nat>)
    requires Accepts(image, base, |frames| * PAGE)
    requires AllGood(frames) && InMemory(frames, ram.Length)
    requires forall x | 0 <= x < ram.Length && InFrames(frames, x) :: ram[x] == 0
    modifies ram
    ensures Distinct(frames) ==> BlockIs(Gather(ram[..], frames), image, base, Count(image))
    ensures forall x | 0 <= x < ram.Length && !InFrames(frames, x) :: ram[x] == old(ram[x])
  {
    var count := Count(image);
    assert BlockIs(Gather(ram[..], frames), image, base, 0) by {
      forall k | 0 <= k < |frames| * PAGE ensures Gather(ram[..], frames)[k] == 0 {
        CellInFrames(frames, k, ram.Length);
      }
    }
    assert forall n | 0 <= n <= count :: SegmentsOk(image, n);
    hide ProgramAt, TableOk, SegmentsOk, Loaded, Accepts, BlockIs, LaidOver, Fits, Gather, AllGood, InMemory,
         Distinct, InFrames;
    for index := 0 to count
      invariant Distinct(frames) ==> BlockIs(Gather(ram[..], frames), image, base, index)
      invariant forall x | 0 <= x < ram.Length && !InFrames(frames, x) :: ram[x] == old(ram[x])
    {
      var p := ProgramAt(image, index);
      ghost var before := Gather(ram[..], frames);
      if p.load {
        SecondRoundNeverFails(image, base, |frames| * PAGE, index);
        CopyScattered(image, ram, frames, base, p);
      } else {
        SkippedOver(before, image, base, p);
      }
      if Distinct(frames) { LoadedOver(image, base, index, before, Gather(ram[..], frames)); }
    }
  }

  /** A frame is the 4096-byte slice of the block at its place in the table. */
  lemma FrameIsSlice(ram: seq<Byte>, frames: seq<nat>, page: nat)
    requires AllGood(frames) && InMemory(frames, |ram|) && page < |frames|
    ensures GoodFrame(frames[page]) && frames[page] + PAGE <= |ram|
    ensures (page + 1) * PAGE <= |frames| * PAGE
    ensures ram[frames[page]..frames[page] + PAGE] == Gather(ram, frames)[page * PAGE..(page + 1) * PAGE]
  {
    assert (page + 1) * PAGE <= |frames| * PAGE;
    assert GoodFrame(frames[page]);
    var block := Gather(ram, frames);
    var slice, frame := block[page * PAGE..(page + 1) * PAGE], ram[frames[page]..frames[page] + PAGE];
    forall b | 0 <= b < PAGE ensures slice[b] == frame[b] {
      assert (page * PAGE + b) / PAGE == page && (page * PAGE + b) % PAGE == b;
      assert Cell(frames, page * PAGE + b) == frames[page] + b;
    }
  }

  lemma SameBlock(a: seq<Byte>, b: seq<Byte>, image: seq<Byte>, base: nat)
    requires TableOk(image) && SegmentsOk(image, Count(image)) && |a| == |b|
    requires BlockIs(a, image, base, Count(image)) && BlockIs(b, image, base, Count(image))
    ensures a == b
  {
  }

  /** The paged loader refines the flat one: given usable frames and a block of the same size,
      both accept the same images with the same entry point, and distinct frames are the slices of
      the flat block. */
  method LoadBothWays(image: seq<Byte>, base: nat, memory: array<Byte>, ram: array<Byte>, frames: seq<nat>)
    returns (flat: Option<nat>, paged: Option<nat>)
    requires |image| <= UINT64_MAX && base <= UINT64_MAX
    requires 0 < |frames| <= UINT64_MAX / PAGE && memory.Length == |frames| * PAGE && memory != ram
    requires AllGood(frames) && InMemory(frames, ram.Length)
    modifies memory, ram
    ensures flat == paged
    ensures flat.Some? && Distinct(frames) ==> Gather(ram[..], frames) == memory[..]
  {
    assert forall i | 0 <= i < |frames| :: frames[i] != 0 && frames[i] % 4096 == 0;
    hide *;
    flat := LoadExecutable(image, memory, base);
    paged := LoadExecutablePages(image, base, ram, frames);
    if flat.Some? && Distinct(frames) {
      SettledBy(image, base, memory.Length);
      SameBlock(memory[..], Gather(ram[..], frames), image, base);
    }
  }

  lemma SettledBy(image: seq<Byte>, base: nat, size: nat)
    requires Accepts(image, base, size)
    ensures TableOk(image) && SegmentsOk(image, Count(image))
  {
  }
}
