/** DemonX copy_area: a rectangle moves between two surfaces, or within one, through a small
    buffer, as if all pixels moved at once. */
module CopyArea {
  import opened Grid

  type Pixel = bv32

  /** The clipped request; source minus destination stays what the caller asked for. */
  datatype Area = Area(sx: int, sy: int, dx: int, dy: int, width: int, height: int)

  function ClipLow(a: Area): Area {
    var a1 := if a.sx < 0 then a.(dx := a.dx - a.sx, width := a.width + a.sx, sx := 0) else a;
    var a2 := if a1.sy < 0 then a1.(dy := a1.dy - a1.sy, height := a1.height + a1.sy, sy := 0) else a1;
    var a3 := if a2.dx < 0 then a2.(sx := a2.sx - a2.dx, width := a2.width + a2.dx, dx := 0) else a2;
    if a3.dy < 0 then a3.(sy := a3.sy - a3.dy, height := a3.height + a3.dy, dy := 0) else a3
  }

  function ClipHigh(a: Area, sw: int, sh: int, dw: int, dh: int): Area {
    var a1 := if a.sx + a.width > sw then a.(width := sw - a.sx) else a;
    var a2 := if a1.sy + a1.height > sh then a1.(height := sh - a1.sy) else a1;
    var a3 := if a2.dx + a2.width > dw then a2.(width := dw - a2.dx) else a2;
    if a3.dy + a3.height > dh then a3.(height := dh - a3.dy) else a3
  }

  function Clip(a: Area, sw: int, sh: int, dw: int, dh: int): Area { ClipHigh(ClipLow(a), sw, sh, dw, dh) }

  predicate Targets(a: Area, X: int, Y: int) {
    a.dx <= X < a.dx + a.width && a.dy <= Y < a.dy + a.height
  }

  /** Destination point (X, Y) is in the request and its source is on the source surface. */
  predicate Wanted(a: Area, sw: int, sh: int, X: int, Y: int) {
    Targets(a, X, Y) && 0 <= X - a.dx + a.sx < sw && 0 <= Y - a.dy + a.sy < sh
  }

  /** Clipping keeps exactly the points in bounds on both sides, at the same displacement. */
  lemma ClipSpec(a: Area, sw: nat, sh: nat, dw: nat, dh: nat, X: int, Y: int)
    ensures var c := Clip(a, sw, sh, dw, dh);
            && (0 <= X < dw && 0 <= Y < dh && Wanted(a, sw, sh, X, Y) <==> Targets(c, X, Y))
            && (c.width > 0 && c.height > 0 ==>
                  c.dx - c.sx == a.dx - a.sx && c.dy - c.sy == a.dy - a.sy
                  && 0 <= c.sx && c.sx + c.width <= sw && 0 <= c.sy && c.sy + c.height <= sh
                  && 0 <= c.dx && c.dx + c.width <= dw && 0 <= c.dy && c.dy + c.height <= dh)
  {
  }

  ghost predicate SurfaceOf(a: array<Pixel>, w: nat, h: nat) { a.Length == w * h }

  ghost function At(a: array<Pixel>, w: nat, h: nat, x: int, y: int): Pixel
    requires SurfaceOf(a, w, h) && 0 <= x < w && 0 <= y < h
    reads a
  {
    IndexInside(w, h, x, y);
    a[Index(w, x, y)]
  }

  ghost function AtOf(s: seq<Pixel>, w: nat, h: nat, x: int, y: int): Pixel
    requires |s| == w * h && 0 <= x < w && 0 <= y < h
  {
    IndexInside(w, h, x, y);
    s[Index(w, x, y)]
  }

  class Copier {
    /** The shared draw_pixels buffer. */
    const buffer: array<Pixel>
    const src: array<Pixel>
    const dst: array<Pixel>
    const sw: nat
    const sh: nat
    const dw: nat
    const dh: nat

    constructor (buffer: array<Pixel>, src: array<Pixel>, sw: nat, sh: nat, dst: array<Pixel>, dw: nat, dh: nat)
      requires buffer.Length >= 1 && buffer != src && buffer != dst
      requires SurfaceOf(src, sw, sh) && SurfaceOf(dst, dw, dh) && (src == dst ==> sw == dw && sh == dh)
      ensures Shape() && this.buffer == buffer && this.src == src && this.dst == dst
      ensures this.sw == sw && this.sh == sh && this.dw == dw && this.dh == dh
    {
      this.buffer, this.src, this.dst, this.sw, this.sh, this.dw, this.dh := buffer, src, dst, sw, sh, dw, dh;
    }

    ghost predicate Shape() {
      && buffer.Length >= 1 && buffer != src && buffer != dst
      && SurfaceOf(src, sw, sh) && SurfaceOf(dst, dw, dh) && (src == dst ==> sw == dw && sh == dh)
    }

    ghost predicate OnTarget(X: int, Y: int) { 0 <= X < dw && 0 <= Y < dh }

    /** SURFACE_WRITE: refuses a stretch outside the surface, otherwise writes it whole. */
    method SurfaceWrite(count: nat, x: int, y: int) returns (written: nat)
      requires Shape() && count <= buffer.Length && 0 <= x && x + count <= dw && 0 <= y < dh
      modifies dst
      ensures written == count
      ensures forall X, Y | OnTarget(X, Y) ::
                At(dst, dw, dh, X, Y) == if Y == y && x <= X < x + count then buffer[X - x] else old(At(dst, dw, dh, X, Y))
    {
      hide Index;
      for i := 0 to count
        invariant forall X, Y | OnTarget(X, Y) ::
                    At(dst, dw, dh, X, Y) == if Y == y && x <= X < x + i then buffer[X - x] else old(At(dst, dw, dh, X, Y))
      {
        OnlyCell(dw, dh, x + i, y);
        dst[Index(dw, x + i, y)] := buffer[i];
      }
      return count;
    }

    method LoadChunk(count: nat, x: int, y: int)
      requires Shape() && count <= buffer.Length && 0 <= x && x + count <= sw && 0 <= y < sh
      modifies buffer
      ensures forall i | 0 <= i < count :: buffer[i] == At(src, sw, sh, x + i, y)
    {
      hide Index;
      for i := 0 to count
        invariant forall j | 0 <= j < i :: buffer[j] == At(src, sw, sh, x + j, y)
      {
        IndexInside(sw, sh, x + i, y);
        buffer[i] := src[Index(sw, x + i, y)];
      }
    }

    ghost predicate Fits(c: Area) {
      && 0 < c.width && 0 < c.height
      && 0 <= c.sx && c.sx + c.width <= sw && 0 <= c.sy && c.sy + c.height <= sh
      && 0 <= c.dx && c.dx + c.width <= dw && 0 <= c.dy && c.dy + c.height <= dh
    }

    /** `dst` holds `was` with the columns [from, to) of row `row` replaced by the source `from0`. */
    ghost predicate RowDone(c: Area, row: int, from: int, to: int, was: seq<Pixel>, source: seq<Pixel>)
      requires Shape() && Fits(c) && 0 <= row < c.height && 0 <= from && to <= c.width
      requires |was| == dw * dh && |source| == sw * sh
      reads dst
    {
      forall X, Y | OnTarget(X, Y) ::
        At(dst, dw, dh, X, Y) == if Y == c.dy + row && c.dx + from <= X < c.dx + to
                                 then AtOf(source, sw, sh, X - c.dx + c.sx, Y - c.dy + c.sy) else AtOf(was, dw, dh, X, Y)
    }

    /** The part of the source row still to be read has not been overwritten. */
    lemma SourceIntact(c: Area, row: int, from: int, to: int, was: seq<Pixel>, column: int)
      requires Shape() && Fits(c) && 0 <= row < c.height && 0 <= from <= to <= c.width
      requires |was| == dw * dh && 0 <= column < c.width
      requires src != dst || (src == dst && RowDone(c, row, from, to, was, was))
      requires src == dst && c.sy == c.dy ==> !(from <= column + c.sx - c.dx < to)
      ensures src == dst ==> At(src, sw, sh, c.sx + column, c.sy + row) == AtOf(was, dw, dh, c.sx + column, c.sy + row)
    {
      hide Index;
      if src == dst {
        assert OnTarget(c.sx + column, c.sy + row);
      }
    }

    /** One chunk of a row: columns [column, column + count). */
    method CopyChunk(c: Area, row: int, column: nat, count: nat,
                     ghost from: int, ghost to: int, ghost was: seq<Pixel>, ghost source: seq<Pixel>)
      requires Shape() && Fits(c) && 0 <= row < c.height && 0 < count <= buffer.Length && column + count <= c.width
      requires 0 <= from <= to <= c.width && (column + count == from || column == to)
      requires |was| == dw * dh && |source| == sw * sh && RowDone(c, row, from, to, was, source)
      requires if src == dst then was == source else src[..] == source
      requires src == dst && c.sy == c.dy ==> column + count + c.sx - c.dx <= from || to <= column + c.sx - c.dx
      modifies buffer, dst
      ensures RowDone(c, row, if column + count == from then column else from, if column == to then column + count else to, was, source)
    {
      hide Index;
      LoadChunk(count, c.sx + column, c.sy + row);
      forall i | 0 <= i < count
        ensures buffer[i] == AtOf(source, sw, sh, c.sx + column + i, c.sy + row)
      {
        if src == dst { SourceIntact(c, row, from, to, was, column + i); }
        IndexInside(sw, sh, c.sx + column + i, c.sy + row);
      }
      hide AtOf;
      StoreChunk(c, row, column, count, from, to, was, source);
    }

    method StoreChunk(c: Area, row: int, column: nat, count: nat,
                      ghost from: int, ghost to: int, ghost was: seq<Pixel>, ghost source: seq<Pixel>)
      requires Shape() && Fits(c) && 0 <= row < c.height && 0 < count <= buffer.Length && column + count <= c.width
      requires 0 <= from <= to <= c.width && (column + count == from || column == to)
      requires |was| == dw * dh && |source| == sw * sh && RowDone(c, row, from, to, was, source)
      requires forall i | 0 <= i < count :: buffer[i] == AtOf(source, sw, sh, c.sx + column + i, c.sy + row)
      modifies dst
      ensures RowDone(c, row, if column + count == from then column else from, if column == to then column + count else to, was, source)
    {
      hide Index, AtOf;
      var _ := SurfaceWrite(count, c.dx + column, c.dy + row);
    }

    method CopyRow(c: Area, row: int)
      requires Shape() && Fits(c) && 0 <= row < c.height
      modifies buffer, dst
      ensures RowDone(c, row, 0, c.width, old(dst[..]), old(src[..]))
    {
      ghost var was, source := dst[..], src[..];
      var reversed := src == dst && c.dy == c.sy && c.dx > c.sx;
      var column: nat := 0;
      EmptyRow(c, row, if reversed then c.width else 0, was, source);
      hide RowDone, Index;
      while column < c.width
        invariant column <= c.width
        invariant if reversed then RowDone(c, row, c.width - column, c.width, was, source)
                  else RowDone(c, row, 0, column, was, source)
        invariant src != dst ==> src[..] == source
      {
        var count := c.width - column;
        if count > buffer.Length { count := buffer.Length; }
        var chunkColumn: nat := column;
        if reversed { chunkColumn := c.width - column - count; }
        CopyChunk(c, row, chunkColumn, count, if reversed then c.width - column else 0,
                  if reversed then c.width else column, was, source);
        column := column + count;
      }
    }

    lemma EmptyRow(c: Area, row: int, at: int, was: seq<Pixel>, source: seq<Pixel>)
      requires Shape() && Fits(c) && 0 <= row < c.height && 0 <= at <= c.width && was == dst[..] && |source| == sw * sh
      ensures RowDone(c, row, at, at, was, source)
    {
      hide Index;
      forall X, Y | OnTarget(X, Y)
        ensures At(dst, dw, dh, X, Y) == AtOf(was, dw, dh, X, Y)
      {
        IndexInside(dw, dh, X, Y);
      }
    }

    /** Rows [lo, hi) of the area have arrived; everything else is as it was. */
    ghost predicate RowsDone(c: Area, lo: int, hi: int, was: seq<Pixel>, source: seq<Pixel>)
      requires Shape() && Fits(c) && 0 <= lo && hi <= c.height
      requires |was| == dw * dh && |source| == sw * sh
      reads dst
    {
      forall X, Y | OnTarget(X, Y) ::
        At(dst, dw, dh, X, Y) == if c.dy + lo <= Y < c.dy + hi && c.dx <= X < c.dx + c.width
                                 then AtOf(source, sw, sh, X - c.dx + c.sx, Y - c.dy + c.sy) else AtOf(was, dw, dh, X, Y)
    }

    lemma AddRow(c: Area, lo: int, hi: int, row: int, was: seq<Pixel>, source: seq<Pixel>,
                 was1: seq<Pixel>, source1: seq<Pixel>)
      requires Shape() && Fits(c) && 0 <= lo <= hi <= c.height && 0 <= row < c.height && (row == hi || row == lo - 1)
      requires |was| == dw * dh == |was1| && |source| == sw * sh == |source1|
      requires forall X, Y | OnTarget(X, Y) ::
                 AtOf(was1, dw, dh, X, Y) == if c.dy + lo <= Y < c.dy + hi && c.dx <= X < c.dx + c.width
                                             then AtOf(source, sw, sh, X - c.dx + c.sx, Y - c.dy + c.sy) else AtOf(was, dw, dh, X, Y)
      requires SameRow(source1, source, c.sy + row, c.sx, c.sx + c.width)
      requires RowDone(c, row, 0, c.width, was1, source1)
      ensures RowsDone(c, if row == hi then lo else row, if row == hi then hi + 1 else hi, was, source)
    {
      hide AtOf, At, Index;
    }

    ghost predicate SameRow(s1: seq<Pixel>, s2: seq<Pixel>, y: int, x0: int, x1: int)
      requires |s1| == sw * sh == |s2| && 0 <= y < sh && 0 <= x0 && x1 <= sw
    {
      forall x | x0 <= x < x1 :: AtOf(s1, sw, sh, x, y) == AtOf(s2, sw, sh, x, y)
    }

    /** A snapshot of the destination, cell by cell. */
    lemma Frozen(c: Area, lo: int, hi: int, was: seq<Pixel>, source: seq<Pixel>, now: seq<Pixel>)
      requires Shape() && Fits(c) && 0 <= lo && hi <= c.height && |was| == dw * dh && |source| == sw * sh
      requires RowsDone(c, lo, hi, was, source) && now == dst[..]
      ensures forall X, Y | OnTarget(X, Y) ::
                AtOf(now, dw, dh, X, Y) == if c.dy + lo <= Y < c.dy + hi && c.dx <= X < c.dx + c.width
                                           then AtOf(source, sw, sh, X - c.dx + c.sx, Y - c.dy + c.sy) else AtOf(was, dw, dh, X, Y)
    {
      hide Index;
      forall X, Y | OnTarget(X, Y)
        ensures AtOf(now, dw, dh, X, Y) == At(dst, dw, dh, X, Y)
      {
        IndexInside(dw, dh, X, Y);
      }
    }

    /** All rows, bottom up when the area moves down on its own surface. */
    method CopyRows(c: Area)
      requires Shape() && Fits(c)
      modifies buffer, dst
      ensures RowsDone(c, 0, c.height, old(dst[..]), old(src[..]))
    {
      ghost var was, source := dst[..], src[..];
      var row, rowEnd, rowStep := 0, c.height, 1;
      if src == dst && c.dy > c.sy { row, rowEnd, rowStep := c.height - 1, -1, -1; }
      NoRows(c, if rowStep == 1 then 0 else c.height, was, source);
      while row != rowEnd
        invariant if rowStep == 1 then 0 <= row <= c.height else -1 <= row < c.height
        invariant (rowStep == 1 && rowEnd == c.height) || (rowStep == -1 && rowEnd == -1)
        invariant rowStep == -1 <==> src == dst && c.dy > c.sy
        invariant if rowStep == 1 then RowsDone(c, 0, row, was, source) else RowsDone(c, row + 1, c.height, was, source)
        invariant src != dst ==> src[..] == source
        decreases if rowStep == 1 then c.height - row else row + 1
      {
        StepRow(c, row, if rowStep == 1 then 0 else row + 1, if rowStep == 1 then row else c.height, was, source);
        row := row + rowStep;
      }
    }

    method StepRow(c: Area, row: int, ghost lo: int, ghost hi: int, ghost was: seq<Pixel>, ghost source: seq<Pixel>)
      requires Shape() && Fits(c) && 0 <= lo <= hi <= c.height && 0 <= row < c.height && (row == hi || row == lo - 1)
      requires |was| == dw * dh && |source| == sw * sh && RowsDone(c, lo, hi, was, source)
      requires if src == dst then was == source else src[..] == source
      requires src == dst ==> !(lo <= row + c.sy - c.dy < hi)
      modifies buffer, dst
      ensures RowsDone(c, if row == hi then lo else row, if row == hi then hi + 1 else hi, was, source)
    {
      ghost var was1, source1 := dst[..], src[..];
      Frozen(c, lo, hi, was, source, was1);
      hide AtOf, Index, RowDone, RowsDone;
      assert SameRow(source1, source, c.sy + row, c.sx, c.sx + c.width);
      CopyRow(c, row);
      AddRow(c, lo, hi, row, was, source, was1, source1);
    }

    lemma NoRows(c: Area, at: int, was: seq<Pixel>, source: seq<Pixel>)
      requires Shape() && Fits(c) && 0 <= at <= c.height && was == dst[..] && |source| == sw * sh
      ensures RowsDone(c, at, at, was, source)
    {
      hide Index;
      forall X, Y | OnTarget(X, Y)
        ensures At(dst, dw, dh, X, Y) == AtOf(was, dw, dh, X, Y)
      {
        IndexInside(dw, dh, X, Y);
      }
    }

    /** For any request and any overlap: each destination pixel that is wanted gets the source's old
        pixel, no other pixel changes, and exactly those pixels are reported as damage. `mapped` says whether the source could be mapped. */
    method Copy(request: Area, mapped: bool) returns (code: int, damage: Area)
      requires Shape()
      modifies buffer, dst
      ensures forall X, Y | OnTarget(X, Y) ::
                At(dst, dw, dh, X, Y) ==
                if code == 1 && Wanted(request, sw, sh, X, Y)
                then old(At(src, sw, sh, X - request.dx + request.sx, Y - request.dy + request.sy))
                else old(At(dst, dw, dh, X, Y))
      ensures code == 1 || code == -2
      ensures code == -2 <==> !mapped && exists X, Y :: OnTarget(X, Y) && Wanted(request, sw, sh, X, Y)
      ensures forall X, Y :: Targets(damage, X, Y) <==> OnTarget(X, Y) && Wanted(request, sw, sh, X, Y)
    {
      damage := Clip(request, sw, sh, dw, dh);
      ghost var some := ClipFacts(request, damage);
      ClipTargets(request, damage);
      hide *;
      if damage.width <= 0 || damage.height <= 0 { return 1, damage; }
      if !mapped { return -2, damage; }
      CopyClipped(request, damage);
      return 1, damage;
    }

    lemma ClipTargets(request: Area, c: Area)
      requires forall X, Y :: ClipFact(request, c, X, Y)
      ensures forall X, Y :: Targets(c, X, Y) <==> OnTarget(X, Y) && Wanted(request, sw, sh, X, Y)
    {
      forall X, Y ensures Targets(c, X, Y) <==> OnTarget(X, Y) && Wanted(request, sw, sh, X, Y) {
        assert ClipFact(request, c, X, Y);
      }
    }

    lemma ClipFacts(request: Area, c: Area) returns (some: bool)
      requires Shape() && c == Clip(request, sw, sh, dw, dh)
      ensures forall X, Y :: ClipFact(request, c, X, Y)
      ensures c.width > 0 && c.height > 0 ==>
                Fits(c) && c.dx - c.sx == request.dx - request.sx && c.dy - c.sy == request.dy - request.sy
      ensures c.width <= 0 || c.height <= 0 ==> forall X, Y | OnTarget(X, Y) :: !Wanted(request, sw, sh, X, Y)
      ensures c.width > 0 && c.height > 0 ==> exists X, Y :: OnTarget(X, Y) && Wanted(request, sw, sh, X, Y)
    {
      forall X, Y ensures ClipFact(request, c, X, Y) { ClipSpec(request, sw, sh, dw, dh, X, Y); }
      ClipSpec(request, sw, sh, dw, dh, c.dx, c.dy);
      hide Clip, Wanted;
      forall X, Y | OnTarget(X, Y) && (c.width <= 0 || c.height <= 0)
        ensures !Wanted(request, sw, sh, X, Y)
      {
        assert ClipFact(request, c, X, Y);
      }
      some := c.width > 0 && c.height > 0;
      assert some ==> Targets(c, c.dx, c.dy) && ClipFact(request, c, c.dx, c.dy);
    }

    method CopyClipped(request: Area, c: Area)
      requires Shape() && Fits(c) && c.dx - c.sx == request.dx - request.sx && c.dy - c.sy == request.dy - request.sy
      requires forall X, Y :: ClipFact(request, c, X, Y)
      modifies buffer, dst
      ensures forall X, Y | OnTarget(X, Y) ::
                At(dst, dw, dh, X, Y) ==
                if Wanted(request, sw, sh, X, Y)
                then old(At(src, sw, sh, X - request.dx + request.sx, Y - request.dy + request.sy))
                else old(At(dst, dw, dh, X, Y))
    {
      ghost var was, source := dst[..], src[..];
      Snapshot(dst, dw, dh);
      Snapshot(src, sw, sh);
      hide At, AtOf, Index, RowsDone, ClipFact;
      CopyRows(c);
      Delivered(request, c, was, source);
    }

    lemma Snapshot(a: array<Pixel>, w: nat, h: nat)
      requires SurfaceOf(a, w, h)
      ensures forall x, y | 0 <= x < w && 0 <= y < h :: AtOf(a[..], w, h, x, y) == At(a, w, h, x, y)
    {
      hide Index;
      forall x, y | 0 <= x < w && 0 <= y < h
        ensures AtOf(a[..], w, h, x, y) == At(a, w, h, x, y)
      {
        IndexInside(w, h, x, y);
      }
    }

    ghost predicate ClipFact(request: Area, c: Area, X: int, Y: int) {
      OnTarget(X, Y) && Wanted(request, sw, sh, X, Y) <==> Targets(c, X, Y)
    }

    lemma Delivered(request: Area, c: Area, was: seq<Pixel>, source: seq<Pixel>)
      requires Shape() && Fits(c) && |was| == dw * dh && |source| == sw * sh && RowsDone(c, 0, c.height, was, source)
      requires c.dx - c.sx == request.dx - request.sx && c.dy - c.sy == request.dy - request.sy
      requires forall X, Y :: ClipFact(request, c, X, Y)
      ensures forall X, Y | OnTarget(X, Y) ::
                At(dst, dw, dh, X, Y) ==
                if Wanted(request, sw, sh, X, Y)
                then AtOf(source, sw, sh, X - request.dx + request.sx, Y - request.dy + request.sy)
                else AtOf(was, dw, dh, X, Y)
    {
      hide AtOf, At, Index;
      forall X, Y | OnTarget(X, Y)
        ensures At(dst, dw, dh, X, Y) ==
                if Wanted(request, sw, sh, X, Y)
                then AtOf(source, sw, sh, X - request.dx + request.sx, Y - request.dy + request.sy)
                else AtOf(was, dw, dh, X, Y)
      {
        assert ClipFact(request, c, X, Y);
      }
    }
  }
}
