/** The screen as a cache of the backbuffer: a damage rectangle says which pixels may be stale,
    and the cursor is drawn over the screen only. */
module Framebuffer {
  import opened Blending
  import opened Grid
  import opened Bresenham
  import opened Options

  const CURSOR_WIDTH: nat := 16
  const CURSOR_HEIGHT: nat := 24
  const INT32_LIMIT: nat := 0x8000_0000

  datatype Rect = Rect(x: int, y: int, width: int, height: int)

  predicate In(r: Rect, x: int, y: int) {
    r.x <= x < r.x + r.width && r.y <= y < r.y + r.height
  }

  /** rect_clip: the part of a rectangle on a w by h screen, if any. */
  function Clip(r: Rect, w: nat, h: nat): Option<Rect> {
    if r.width <= 0 || r.height <= 0 then None
    else
      var right, bottom := r.x + r.width, r.y + r.height;
      if right <= 0 || bottom <= 0 || r.x >= w || r.y >= h then None
      else
        var x, y := if r.x < 0 then 0 else r.x, if r.y < 0 then 0 else r.y;
        var right', bottom' := if right > w then w else right, if bottom > h then h else bottom;
        if right' - x > 0 && bottom' - y > 0 then Some(Rect(x, y, right' - x, bottom' - y)) else None
  }

  /** Clipping keeps exactly the on-screen points, and yields a nonempty on-screen rectangle. */
  lemma ClipSpec(r: Rect, w: nat, h: nat, x: int, y: int)
    ensures var c := Clip(r, w, h);
            && (0 <= x < w && 0 <= y < h && In(r, x, y) <==> c.Some? && In(c.value, x, y))
            && (c.Some? ==> 0 <= c.value.x && 0 < c.value.width && c.value.x + c.value.width <= w)
            && (c.Some? ==> 0 <= c.value.y && 0 < c.value.height && c.value.y + c.value.height <= h)
  {
  }

  /** The smallest rectangle around both. */
  function Around(a: Rect, b: Rect): Rect {
    var left, top := if a.x < b.x then a.x else b.x, if a.y < b.y then a.y else b.y;
    var r0, r1 := a.x + a.width, b.x + b.width;
    var bottom0, bottom1 := a.y + a.height, b.y + b.height;
    var right, bottom := if r0 > r1 then r0 else r1, if bottom0 > bottom1 then bottom0 else bottom1;
    Rect(left, top, right - left, bottom - top)
  }

  /** `r` covers both rectangles, and every rectangle that covers both covers `r`. */
  ghost predicate Smallest(r: Rect, a: Rect, b: Rect) {
    Encloses(r, a) && Encloses(r, b) && forall q: Rect | Encloses(q, a) && Encloses(q, b) :: Encloses(q, r)
  }

  ghost predicate Encloses(q: Rect, r: Rect) { forall x, y | In(r, x, y) :: In(q, x, y) }

  lemma AroundSpec(a: Rect, b: Rect)
    requires 0 < a.width && 0 < a.height && 0 < b.width && 0 < b.height
    ensures Smallest(Around(a, b), a, b)
  {
    forall q: Rect | Encloses(q, a) && Encloses(q, b) ensures Encloses(q, Around(a, b)) {
      Corners(q, a);
      Corners(q, b);
    }
  }

  lemma Corners(q: Rect, r: Rect)
    requires Encloses(q, r) && 0 < r.width && 0 < r.height
    ensures q.x <= r.x && r.x + r.width <= q.x + q.width && q.y <= r.y && r.y + r.height <= q.y + q.height
  {
    assert In(r, r.x, r.y) && In(r, r.x + r.width - 1, r.y + r.height - 1);
  }

  class Display {
    const width: nat
    const height: nat
    const backbuffer: array<Pixel>
    /** What the scanout memory shows, one native value a pixel. */
    const screen: array<Pixel>
    /** The display's pixel format. */
    const native: Pixel -> Pixel
    /** The default arrow, and the contextual icons by index. */
    const arrow: Option<seq<Pixel>>
    const icons: nat -> Option<seq<Pixel>>
    var enabled: bool
    var dirty: bool
    var damage: Rect
    var cursorX: int
    var cursorY: int
    var cursorVisible: bool
    var iconIndex: nat

    ghost predicate Shape()
    {
      && backbuffer.Length == width * height && screen.Length == width * height && backbuffer != screen
      && 0 < width < INT32_LIMIT && 0 < height < INT32_LIMIT
      && (arrow.Some? ==> |arrow.value| == CURSOR_WIDTH * CURSOR_HEIGHT)
      && (forall i :: icons(i).Some? ==> |icons(i).value| == CURSOR_WIDTH * CURSOR_HEIGHT)
    }

    ghost predicate OnScreen(x: int, y: int) { 0 <= x < width && 0 <= y < height }

    ghost function Back(x: int, y: int): Pixel
      requires Shape() && OnScreen(x, y)
      reads backbuffer
    {
      IndexInside(width, height, x, y);
      backbuffer[Index(width, x, y)]
    }

    ghost function Shown(x: int, y: int): Pixel
      requires Shape() && OnScreen(x, y)
      reads screen
    {
      IndexInside(width, height, x, y);
      screen[Index(width, x, y)]
    }

    function ActiveCursor(): Option<seq<Pixel>>
      reads this`iconIndex
    {
      if iconIndex != 0 && icons(iconIndex).Some? then icons(iconIndex) else arrow
    }

    predicate UnderCursor(x: int, y: int)
      reads this`cursorX, this`cursorY
    {
      cursorX <= x < cursorX + CURSOR_WIDTH && cursorY <= y < cursorY + CURSOR_HEIGHT
    }

    /** What a full redraw would put at (x, y). */
    ghost function Expected(x: int, y: int): Pixel
      requires Shape() && OnScreen(x, y)
      reads this`cursorVisible, this`cursorX, this`cursorY, this`iconIndex, backbuffer
    {
      if cursorVisible && ActiveCursor().Some? && UnderCursor(x, y)
      then Blend(Back(x, y), ActiveCursor().value[(y - cursorY) * CURSOR_WIDTH + (x - cursorX)])
      else Back(x, y)
    }

    ghost predicate Pending(x: int, y: int)
      reads this`dirty, this`damage
    {
      dirty && In(damage, x, y)
    }

    /** Expected for a given backbuffer. */
    ghost function ExpectedOver(back: seq<Pixel>, x: int, y: int): Pixel
      requires Shape() && |back| == width * height && OnScreen(x, y)
      reads this`cursorVisible, this`cursorX, this`cursorY, this`iconIndex
    {
      IndexInside(width, height, x, y);
      var b := back[Index(width, x, y)];
      if cursorVisible && ActiveCursor().Some? && UnderCursor(x, y)
      then Blend(b, ActiveCursor().value[(y - cursorY) * CURSOR_WIDTH + (x - cursorX)])
      else b
    }

    /** Every pixel outside the given damage shows what a full redraw of the given backbuffer would show. */
    ghost predicate ScreenOk(back: seq<Pixel>, pending: bool, rect: Rect)
      requires Shape() && |back| == width * height
      reads this`cursorVisible, this`cursorX, this`cursorY, this`iconIndex, screen
    {
      forall x, y | OnScreen(x, y) && !(pending && In(rect, x, y)) :: Shown(x, y) == native(ExpectedOver(back, x, y))
    }

    ghost predicate Valid()
      reads this, backbuffer, screen
    {
      Shape() && DamageOk() && (enabled ==> ScreenOk(backbuffer[..], dirty, damage))
    }

    /** Pending damage is a nonempty rectangle on the screen. */
    ghost predicate DamageOk()
      reads this`dirty, this`damage
    {
      dirty ==> && 0 <= damage.x && 0 < damage.width && damage.x + damage.width <= width
                && 0 <= damage.y && 0 < damage.height && damage.y + damage.height <= height
    }

    /** Valid, said of the backbuffer itself. */
    lemma ValidMeans(x: int, y: int)
      requires Valid() && enabled && OnScreen(x, y) && !Pending(x, y)
      ensures Shown(x, y) == native(Expected(x, y)) && CursorOver(x, y)
    {
      ShowsCursor();
      hide Blend, Index, CursorOver;
      IndexInside(width, height, x, y);
    }

    /** framebuffer_enable: everything is cleared and all of it is pending. */
    constructor (w: nat, h: nat, back: array<Pixel>, scanout: array<Pixel>, format: Pixel -> Pixel,
                 pointer: Option<seq<Pixel>>, contextual: nat -> Option<seq<Pixel>>)
      requires 0 < w < INT32_LIMIT && 0 < h < INT32_LIMIT && back.Length == w * h && scanout.Length == w * h && back != scanout
      requires pointer.Some? ==> |pointer.value| == CURSOR_WIDTH * CURSOR_HEIGHT
      requires forall i :: contextual(i).Some? ==> |contextual(i).value| == CURSOR_WIDTH * CURSOR_HEIGHT
      ensures Valid() && enabled && !cursorVisible && width == w && height == h && backbuffer == back && screen == scanout
      ensures forall x, y | OnScreen(x, y) :: Pending(x, y)
    {
      width, height, backbuffer, screen, native, arrow, icons := w, h, back, scanout, format, pointer, contextual;
      enabled, dirty, damage := true, true, Rect(0, 0, w, h);
      cursorX, cursorY, cursorVisible, iconIndex := 0, 0, false, 0;
    }

    method SetBack(x: int, y: int, value: Pixel)
      requires Shape() && OnScreen(x, y)
      modifies backbuffer
      ensures forall x', y' | OnScreen(x', y') :: Back(x', y') == if x' == x && y' == y then value else old(Back(x', y'))
    {
      OnlyCell(width, height, x, y);
      backbuffer[Index(width, x, y)] := value;
    }

    method SetShown(x: int, y: int, argb: Pixel)
      requires Shape() && OnScreen(x, y)
      modifies screen
      ensures forall x', y' | OnScreen(x', y') :: Shown(x', y') == if x' == x && y' == y then native(argb) else old(Shown(x', y'))
    {
      OnlyCell(width, height, x, y);
      screen[Index(width, x, y)] := native(argb);
    }

    /** Whatever was pending stays pending, and so does the new rectangle; nothing else becomes so
        that the smallest rectangle around both could leave out. */
    method MarkDamage(rect: Rect)
      requires Shape() && DamageOk()
      modifies this`dirty, this`damage
      ensures DamageOk()
      ensures var c := Clip(rect, width, height);
              if c == None then dirty == old(dirty) && damage == old(damage)
              else dirty && if old(dirty) then Smallest(damage, c.value, old(damage)) else damage == c.value
      ensures forall x, y | OnScreen(x, y) && (old(Pending(x, y)) || In(rect, x, y)) :: Pending(x, y)
    {
      forall x, y ensures ClipFact(rect, x, y) { ClipSpec(rect, width, height, x, y); }
      var clipped := Clip(rect, width, height);
      if clipped == None { return; }
      if !dirty {
        damage, dirty := clipped.value, true;
        return;
      }
      ClipSpec(rect, width, height, 0, 0);
      AroundSpec(clipped.value, damage);
      damage := Around(clipped.value, damage);
    }

    ghost predicate ClipFact(rect: Rect, x: int, y: int) {
      var c := Clip(rect, width, height);
      OnScreen(x, y) && In(rect, x, y) <==> c.Some? && In(c.value, x, y)
    }

    ghost predicate KeptCell(back: seq<Pixel>, x: int, y: int)
      requires Shape() && |back| == width * height && OnScreen(x, y)
      reads backbuffer
    {
      IndexInside(width, height, x, y);
      Back(x, y) == back[Index(width, x, y)]
    }

    /** A change of the backbuffer that is all pending afterwards keeps the screen right. */
    lemma DrawnIsPending(back: seq<Pixel>, wasDirty: bool, wasDamage: Rect)
      requires Shape() && |back| == width * height && (enabled ==> ScreenOk(back, wasDirty, wasDamage))
      requires forall x, y | OnScreen(x, y) && wasDirty && In(wasDamage, x, y) :: Pending(x, y)
      requires forall x, y | OnScreen(x, y) && !Pending(x, y) :: KeptCell(back, x, y)
      requires DamageOk()
      ensures Valid()
    {
      hide Blend, Index;
      forall x, y | enabled && OnScreen(x, y) && !Pending(x, y)
        ensures Shown(x, y) == native(ExpectedOver(backbuffer[..], x, y))
      {
        IndexInside(width, height, x, y);
        assert KeptCell(back, x, y);
      }
    }

    /** Every cell the screen may not be stale at is as it was in `back`. */
    lemma CellsKept(back: seq<Pixel>)
      requires Shape() && |back| == width * height
      requires forall x, y | OnScreen(x, y) && !Pending(x, y) ::
                 Index(width, x, y) < width * height && Back(x, y) == back[Index(width, x, y)]
      ensures forall x, y | OnScreen(x, y) && !Pending(x, y) :: KeptCell(back, x, y)
    {
    }

    lemma Snapshot(back: seq<Pixel>)
      requires Shape() && back == backbuffer[..]
      ensures forall x, y | OnScreen(x, y) :: Index(width, x, y) < width * height && back[Index(width, x, y)] == Back(x, y)
    {
      forall x, y | OnScreen(x, y)
        ensures Index(width, x, y) < width * height
      {
        IndexInside(width, height, x, y);
      }
    }

    method DrawPixel(x: int, y: int, argb: Pixel)
      requires Valid()
      modifies this`dirty, this`damage, backbuffer
      ensures Valid()
      ensures forall x', y' | OnScreen(x', y') :: Back(x', y') == if enabled && x' == x && y' == y then argb else old(Back(x', y'))
    {
      if !enabled || x < 0 || y < 0 || x >= width || y >= height { return; }
      ghost var back := backbuffer[..];
      Snapshot(back);
      assert Shape() && ScreenOk(back, dirty, damage);
      hide *;
      SetBack(x, y, argb);
      MarkDamage(Rect(x, y, 1, 1));
      PointIn(x, y);
      CellsKept(back);
      DrawnIsPending(back, old(dirty), old(damage));
    }

    lemma PointIn(x: int, y: int)
      ensures forall x', y' :: In(Rect(x, y, 1, 1), x', y') <==> x' == x && y' == y
    {
    }

    method FillRow(rect: Rect, y: int, argb: Pixel)
      requires Shape() && 0 <= rect.x && 0 <= rect.width && rect.x + rect.width <= width && 0 <= y < height
      modifies backbuffer
      ensures forall x', y' | OnScreen(x', y') ::
                Back(x', y') == if y' == y && rect.x <= x' < rect.x + rect.width then argb else old(Back(x', y'))
    {
      for x := rect.x to rect.x + rect.width
        invariant forall x', y' | OnScreen(x', y') ::
                    Back(x', y') == if y' == y && rect.x <= x' < x then argb else old(Back(x', y'))
      {
        SetBack(x, y, argb);
      }
    }

    method FillRows(r: Rect, argb: Pixel)
      requires Shape() && 0 <= r.x && 0 <= r.width && r.x + r.width <= width
      requires 0 <= r.y && 0 <= r.height && r.y + r.height <= height
      modifies backbuffer
      ensures forall x, y | OnScreen(x, y) :: Back(x, y) == if In(r, x, y) then argb else old(Back(x, y))
    {
      for y := r.y to r.y + r.height
        invariant forall x', y' | OnScreen(x', y') ::
                    Back(x', y') == if r.y <= y' < y && r.x <= x' < r.x + r.width then argb else old(Back(x', y'))
      {
        FillRow(r, y, argb);
      }
    }

    method FillRect(rect: Rect, argb: Pixel)
      requires Valid()
      modifies this`dirty, this`damage, backbuffer
      ensures Valid()
      ensures forall x, y | OnScreen(x, y) :: Back(x, y) == if enabled && In(rect, x, y) then argb else old(Back(x, y))
    {
      forall x, y ensures ClipFact(rect, x, y) { ClipSpec(rect, width, height, x, y); }
      ClipSpec(rect, width, height, 0, 0);
      var clipped := Clip(rect, width, height);
      hide ScreenOk, Clip, Index, Valid;
      if enabled && clipped.Some? { FillClipped(clipped.value, argb); }
      assert forall x, y | OnScreen(x, y) :: ClipFact(rect, x, y);
    }

    method FillClipped(r: Rect, argb: Pixel)
      requires Valid() && 0 <= r.x && 0 <= r.width && r.x + r.width <= width && 0 <= r.y && 0 <= r.height && r.y + r.height <= height
      modifies this`dirty, this`damage, backbuffer
      ensures Valid()
      ensures forall x, y | OnScreen(x, y) :: Back(x, y) == if In(r, x, y) then argb else old(Back(x, y))
    {
      ghost var back := backbuffer[..];
      Snapshot(back);
      assert Shape() && (enabled ==> ScreenOk(back, dirty, damage));
      hide ScreenOk, Index, KeptCell, Valid;
      FillRows(r, argb);
      MarkDamage(r);
      CellsKept(back);
      DrawnIsPending(back, old(dirty), old(damage));
    }

    method ClearAll(argb: Pixel)
      requires Valid()
      modifies this`dirty, this`damage, backbuffer
      ensures Valid() && forall x, y | OnScreen(x, y) :: Back(x, y) == if enabled then argb else old(Back(x, y))
    {
      FillRect(Rect(0, 0, width, height), argb);
    }

    // ----- blit -----

    /** The source pixel that a blit puts at (X, Y) is inside the source. */
    lemma SourceInside(length: nat, w: nat, h: nat, pitch: nat, sx: int, sy: int)
      requires 0 <= sx < w <= pitch && 0 <= sy < h && (h - 1) * pitch + w <= length
      ensures 0 <= sy * pitch + sx < length
    {
      assert sy * pitch <= (h - 1) * pitch by { assert (h - 1 - sy) * pitch >= 0; }
      assert sy * pitch >= 0;
    }

    /** A 32-bit unsigned size read as int32_t. */
    function Signed(n: nat): int { if n < INT32_LIMIT then n else n - 2 * INT32_LIMIT }

    /** What the blit leaves at (X, Y). */
    ghost function Blitted(x: int, y: int, pixels: seq<Pixel>, w: nat, h: nat, pitch: nat, X: int, Y: int, was: Pixel): Pixel
      requires 0 < w <= pitch && 0 < h && (h - 1) * pitch + w <= |pixels|
    {
      if In(Rect(x, y, Signed(w), Signed(h)), X, Y) then
        SourceInside(|pixels|, w, h, pitch, X - x, Y - y);
        Blend(was, pixels[(Y - y) * pitch + (X - x)])
      else was
    }

    /** Inside the rectangle the source pixel lies over what was there. */
    lemma BlittedOver(x: int, y: int, pixels: seq<Pixel>, w: nat, h: nat, pitch: nat, X: int, Y: int, was: Pixel)
      requires 0 < w <= pitch && 0 < h && (h - 1) * pitch + w <= |pixels|
      requires In(Rect(x, y, Signed(w), Signed(h)), X, Y)
      ensures 0 <= (Y - y) * pitch + (X - x) < |pixels|
      ensures Over(was, pixels[(Y - y) * pitch + (X - x)], Blitted(x, y, pixels, w, h, pitch, X, Y, was))
    {
      SourceInside(|pixels|, w, h, pitch, X - x, Y - y);
      BlendOver(was, pixels[(Y - y) * pitch + (X - x)]);
      hide Blend, Over;
    }

    method BlitRow(x: int, y: int, pixels: seq<Pixel>, w: nat, h: nat, pitch: nat, r: Rect, Y: int)
      requires Shape() && 0 < w <= pitch && 0 < h && (h - 1) * pitch + w <= |pixels|
      requires 0 <= r.x && 0 <= r.width && r.x + r.width <= width && 0 <= Y < height
      requires forall X | r.x <= X < r.x + r.width :: In(Rect(x, y, Signed(w), Signed(h)), X, Y)
      modifies backbuffer
      ensures forall X', Y' | OnScreen(X', Y') ::
                Back(X', Y') == if Y' == Y && r.x <= X' < r.x + r.width
                                then Blitted(x, y, pixels, w, h, pitch, X', Y', old(Back(X', Y'))) else old(Back(X', Y'))
    {
      for X := r.x to r.x + r.width
        invariant forall X', Y' | OnScreen(X', Y') ::
                    Back(X', Y') == if Y' == Y && r.x <= X' < X
                                    then Blitted(x, y, pixels, w, h, pitch, X', Y', old(Back(X', Y'))) else old(Back(X', Y'))
      {
        assert In(Rect(x, y, Signed(w), Signed(h)), X, Y);
        hide Blend, Index;
        SourceInside(|pixels|, w, h, pitch, X - x, Y - y);
        IndexInside(width, height, X, Y);
        var was := backbuffer[Index(width, X, Y)];
        SetBack(X, Y, Blend(was, pixels[(Y - y) * pitch + (X - x)]));
      }
    }

    method BlitRows(x: int, y: int, pixels: seq<Pixel>, w: nat, h: nat, pitch: nat, r: Rect)
      requires Shape() && 0 < w <= pitch && 0 < h && (h - 1) * pitch + w <= |pixels|
      requires 0 <= r.x && 0 <= r.width && r.x + r.width <= width
      requires 0 <= r.y && 0 <= r.height && r.y + r.height <= height
      requires forall X, Y | In(r, X, Y) :: In(Rect(x, y, Signed(w), Signed(h)), X, Y)
      modifies backbuffer
      ensures forall X, Y | OnScreen(X, Y) ::
                Back(X, Y) == if In(r, X, Y) then Blitted(x, y, pixels, w, h, pitch, X, Y, old(Back(X, Y))) else old(Back(X, Y))
    {
      for Y := r.y to r.y + r.height
        invariant forall X', Y' | OnScreen(X', Y') ::
                    Back(X', Y') == if In(r, X', Y') && Y' < Y
                                    then Blitted(x, y, pixels, w, h, pitch, X', Y', old(Back(X', Y'))) else old(Back(X', Y'))
      {
        hide Blitted, Index;
        assert forall X | r.x <= X < r.x + r.width :: In(r, X, Y);
        BlitRow(x, y, pixels, w, h, pitch, r, Y);
      }
    }

    /** Blends the source picture over the backbuffer, exactly where it is on screen. */
    method Blit(x: int, y: int, pixels: seq<Pixel>, w: nat, h: nat, pitch: nat)
      requires Valid()
      requires 0 < w <= pitch && 0 < h ==> (h - 1) * pitch + w <= |pixels|
      modifies this`dirty, this`damage, backbuffer
      ensures Valid()
      ensures enabled && 0 < w <= pitch && 0 < h ==>
                forall X, Y | OnScreen(X, Y) :: Back(X, Y) == Blitted(x, y, pixels, w, h, pitch, X, Y, old(Back(X, Y)))
      ensures enabled && 0 < w <= pitch && 0 < h ==>
                forall X, Y | OnScreen(X, Y) && In(Rect(x, y, Signed(w), Signed(h)), X, Y) ::
                  0 <= (Y - y) * pitch + (X - x) < |pixels|
                  && Over(old(Back(X, Y)), pixels[(Y - y) * pitch + (X - x)], Back(X, Y))
      ensures !(enabled && 0 < w <= pitch && 0 < h) ==> backbuffer[..] == old(backbuffer[..])
    {
      if !enabled || w == 0 || h == 0 || pitch < w { return; }
      BlitVisible(x, y, pixels, w, h, pitch);
      forall X, Y | OnScreen(X, Y) && In(Rect(x, y, Signed(w), Signed(h)), X, Y)
        ensures 0 <= (Y - y) * pitch + (X - x) < |pixels|
        ensures Over(old(Back(X, Y)), pixels[(Y - y) * pitch + (X - x)], Back(X, Y))
      {
        BlittedOver(x, y, pixels, w, h, pitch, X, Y, old(Back(X, Y)));
      }
      hide Valid, Over, Blitted, In, Index, Blend;
    }

    method BlitVisible(x: int, y: int, pixels: seq<Pixel>, w: nat, h: nat, pitch: nat)
      requires Valid() && enabled && 0 < w <= pitch && 0 < h && (h - 1) * pitch + w <= |pixels|
      modifies this`dirty, this`damage, backbuffer
      ensures Valid()
      ensures forall X, Y | OnScreen(X, Y) :: Back(X, Y) == Blitted(x, y, pixels, w, h, pitch, X, Y, old(Back(X, Y)))
    {
      var rect := Rect(x, y, Signed(w), Signed(h));
      forall X, Y ensures ClipFact(rect, X, Y) { ClipSpec(rect, width, height, X, Y); }
      ClipSpec(rect, width, height, 0, 0);
      assert forall X, Y | OnScreen(X, Y) && !In(rect, X, Y) ::
               Blitted(x, y, pixels, w, h, pitch, X, Y, Back(X, Y)) == Back(X, Y);
      var clipped := Clip(rect, width, height);
      hide ScreenOk, Clip, Index, KeptCell, Blitted;
      if clipped == None {
        assert forall X, Y | OnScreen(X, Y) :: ClipFact(rect, X, Y);
        return;
      }
      BlitClipped(x, y, pixels, w, h, pitch, clipped.value);
      assert forall X, Y | OnScreen(X, Y) :: ClipFact(rect, X, Y);
    }

    method BlitClipped(x: int, y: int, pixels: seq<Pixel>, w: nat, h: nat, pitch: nat, r: Rect)
      requires Valid() && 0 < w <= pitch && 0 < h && (h - 1) * pitch + w <= |pixels|
      requires 0 <= r.x && 0 < r.width && r.x + r.width <= width && 0 <= r.y && 0 < r.height && r.y + r.height <= height
      requires forall X, Y | OnScreen(X, Y) ::
                 ClipFact(Rect(x, y, Signed(w), Signed(h)), X, Y) && Clip(Rect(x, y, Signed(w), Signed(h)), width, height) == Some(r)
      modifies this`dirty, this`damage, backbuffer
      ensures Valid()
      ensures forall X, Y | OnScreen(X, Y) ::
                Back(X, Y) == if In(r, X, Y) then Blitted(x, y, pixels, w, h, pitch, X, Y, old(Back(X, Y))) else old(Back(X, Y))
    {
      ghost var back := backbuffer[..];
      Snapshot(back);
      assert forall X, Y | In(r, X, Y) :: OnScreen(X, Y) && ClipFact(Rect(x, y, Signed(w), Signed(h)), X, Y);
      hide ScreenOk, Clip, Index, KeptCell, Blitted;
      BlitRows(x, y, pixels, w, h, pitch, r);
      MarkDamage(r);
      CellsKept(back);
      DrawnIsPending(back, old(dirty), old(damage));
    }

    // ----- line -----

    /** (X, Y) is one of the first `count` points of the line. */
    ghost predicate OnLine(x0: int, y0: int, x1: int, y1: int, count: nat, X: int, Y: int) {
      exists k | 0 <= k < count :: LinePoint(x0, y0, x1, y1, k) == (X, Y)
    }

    /** The backbuffer is `start` with the first `count` points of the line painted. */
    ghost predicate Painted(start: seq<Pixel>, x0: int, y0: int, x1: int, y1: int, count: nat, argb: Pixel)
      requires Shape() && |start| == width * height
      reads this`enabled, backbuffer
    {
      forall X, Y | OnScreen(X, Y) && Index(width, X, Y) < |start| ::
        Back(X, Y) == if enabled && OnLine(x0, y0, x1, y1, count, X, Y) then argb else start[Index(width, X, Y)]
    }

    method PaintNext(ghost start: seq<Pixel>, ghost x0: int, ghost y0: int, ghost x1: int, ghost y1: int,
                     ghost count: nat, x: int, y: int, argb: Pixel)
      requires Valid() && |start| == width * height && Painted(start, x0, y0, x1, y1, count, argb)
      requires LinePoint(x0, y0, x1, y1, count) == (x, y)
      modifies this`dirty, this`damage, backbuffer
      ensures Valid() && Painted(start, x0, y0, x1, y1, count + 1, argb)
    {
      OneMorePoint(x0, y0, x1, y1, count);
      hide Index, ScreenOk, LinePoint, OnLine;
      DrawPixel(x, y, argb);
    }

    method Line(x0: int, y0: int, x1: int, y1: int, argb: Pixel) returns (plotted: nat)
      requires Valid()
      modifies this`dirty, this`damage, backbuffer
      ensures Valid()
      ensures plotted == Length(Span(x0, x1), Span(y0, y1)) + 1
      ensures forall X, Y | OnScreen(X, Y) ::
                Back(X, Y) == if enabled && OnLine(x0, y0, x1, y1, plotted, X, Y) then argb else old(Back(X, Y))
    {
      ghost var start := backbuffer[..];
      Snapshot(start);
      plotted := DrawLine(start, x0, y0, x1, y1, argb);
    }

    lemma LineBegins(start: seq<Pixel>, x0: int, y0: int, x1: int, y1: int, argb: Pixel)
      requires Valid() && start == backbuffer[..]
      ensures Shape() && |start| == width * height && Painted(start, x0, y0, x1, y1, 0, argb)
      ensures LinePoint(x0, y0, x1, y1, 0) == (x0, y0)
      ensures After(Span(x0, x1), Span(y0, y1), 0).error == Span(x0, x1) - Span(y0, y1)
    {
      Snapshot(start);
      LastPoint(x0, y0, x1, y1, 0);
    }

    method DrawLine(ghost start: seq<Pixel>, x0: int, y0: int, x1: int, y1: int, argb: Pixel) returns (plotted: nat)
      requires Valid() && start == backbuffer[..]
      modifies this`dirty, this`damage, backbuffer
      ensures Valid() && plotted == Length(Span(x0, x1), Span(y0, y1)) + 1
      ensures Painted(start, x0, y0, x1, y1, plotted, argb)
    {
      hide *;
      LineBegins(start, x0, y0, x1, y1, argb);
      SpanIs(x0, x1);
      SpanIs(y0, y1);
      var x, y := x0, y0;
      var dx := if x1 > x0 then x1 - x0 else x0 - x1;
      var sx := if x0 < x1 then 1 else -1;
      var dyAbs := if y1 > y0 then y1 - y0 else y0 - y1;
      var dy := -dyAbs;
      var sy := if y0 < y1 then 1 else -1;
      var error := dx + dy;
      plotted := 0;
      while true
        invariant Shape() && Valid() && plotted <= Length(dx, dyAbs) && |start| == width * height
        invariant LinePoint(x0, y0, x1, y1, plotted) == (x, y)
        invariant error == After(dx, dyAbs, plotted).error
        invariant Painted(start, x0, y0, x1, y1, plotted, argb)
        decreases Length(dx, dyAbs) - plotted
      {
        PaintNext(start, x0, y0, x1, y1, plotted, x, y, argb);
        plotted := plotted + 1;
        LastPoint(x0, y0, x1, y1, plotted - 1);
        if x == x1 && y == y1 { break; }
        NextPoint(x0, y0, x1, y1, plotted - 1);
        var twice := error * 2;
        if twice >= dy {
          error := error + dy;
          x := x + sx;
        }
        if twice <= dx {
          error := error + dx;
          y := y + sy;
        }
      }
    }

    lemma OneMorePoint(x0: int, y0: int, x1: int, y1: int, count: nat)
      ensures forall X, Y :: OnLine(x0, y0, x1, y1, count + 1, X, Y) <==>
                               OnLine(x0, y0, x1, y1, count, X, Y) || (X, Y) == LinePoint(x0, y0, x1, y1, count)
    {
      forall X, Y
        ensures OnLine(x0, y0, x1, y1, count + 1, X, Y) <==>
                OnLine(x0, y0, x1, y1, count, X, Y) || (X, Y) == LinePoint(x0, y0, x1, y1, count)
      {
      }
    }

    // ----- scanout and cursor -----

    method ScanoutRow(r: Rect, y: int)
      requires Shape() && 0 <= r.x && 0 <= r.width && r.x + r.width <= width && 0 <= y < height
      modifies screen
      ensures forall x', y' | OnScreen(x', y') ::
                Shown(x', y') == if y' == y && r.x <= x' < r.x + r.width then native(Back(x', y')) else old(Shown(x', y'))
    {
      hide Index;
      for x := r.x to r.x + r.width
        invariant forall x', y' | OnScreen(x', y') ::
                    Shown(x', y') == if y' == y && r.x <= x' < x then native(Back(x', y')) else old(Shown(x', y'))
      {
        IndexInside(width, height, x, y);
        SetShown(x, y, backbuffer[Index(width, x, y)]);
      }
    }

    /** Copies a rectangle of the backbuffer to the screen. */
    method ScanoutRect(rect: Rect)
      requires Shape()
      modifies screen
      ensures forall x, y | OnScreen(x, y) ::
                Shown(x, y) == if enabled && In(rect, x, y) then native(Back(x, y)) else old(Shown(x, y))
    {
      forall x, y ensures ClipFact(rect, x, y) { ClipSpec(rect, width, height, x, y); }
      ClipSpec(rect, width, height, 0, 0);
      var clipped := Clip(rect, width, height);
      hide Clip, Index;
      if !enabled || clipped == None {
        assert forall x, y | OnScreen(x, y) :: ClipFact(rect, x, y);
        return;
      }
      var r := clipped.value;
      for y := r.y to r.y + r.height
        invariant forall x', y' | OnScreen(x', y') ::
                    Shown(x', y') == if In(r, x', y') && y' < y then native(Back(x', y')) else old(Shown(x', y'))
      {
        ScanoutRow(r, y);
      }
      assert forall x, y | OnScreen(x, y) :: ClipFact(rect, x, y);
    }

    method OverlayRow(icon: seq<Pixel>, iy: nat)
      requires Shape() && cursorVisible && ActiveCursor() == Some(icon) && iy < CURSOR_HEIGHT
      requires |icon| == CURSOR_WIDTH * CURSOR_HEIGHT
      modifies screen
      ensures forall x, y | OnScreen(x, y) ::
                Shown(x, y) == if UnderCursor(x, y) && y - cursorY == iy then native(Expected(x, y)) else old(Shown(x, y))
    {
      hide Blend, Index, ActiveCursor;
      for ix := 0 to CURSOR_WIDTH
        invariant forall x, y | OnScreen(x, y) ::
                    Shown(x, y) == if UnderCursor(x, y) && y - cursorY == iy && x - cursorX < ix
                                   then native(Expected(x, y)) else old(Shown(x, y))
      {
        var px, py := cursorX + ix, cursorY + iy;
        if px < 0 || py < 0 || px >= width || py >= height {
          continue;
        }
        IndexInside(width, height, px, py);
        SetShown(px, py, Blend(backbuffer[Index(width, px, py)], icon[iy * CURSOR_WIDTH + ix]));
      }
    }

    /** Draws the cursor over the screen; what it covers then shows what a full redraw would. */
    method Overlay()
      requires Shape()
      modifies screen
      ensures forall x, y | OnScreen(x, y) ::
                Shown(x, y) == if enabled && cursorVisible && ActiveCursor().Some? && UnderCursor(x, y)
                               then native(Expected(x, y)) else old(Shown(x, y))
    {
      if !enabled || !cursorVisible { return; }
      var icon := ActiveCursor();
      if icon == None { return; }
      assert |icon.value| == CURSOR_WIDTH * CURSOR_HEIGHT;
      hide Expected, Index, ActiveCursor;
      for iy := 0 to CURSOR_HEIGHT
        invariant forall x, y | OnScreen(x, y) ::
                    Shown(x, y) == if UnderCursor(x, y) && y - cursorY < iy then native(Expected(x, y)) else old(Shown(x, y))
      {
        OverlayRow(icon.value, iy);
      }
    }

    /** The invariant, pixel by pixel. */
    ghost predicate Right()
      requires Shape()
      reads this, backbuffer, screen
    {
      enabled ==> forall x, y | OnScreen(x, y) && !Pending(x, y) :: Shown(x, y) == native(Expected(x, y))
    }

    lemma Reading()
      requires Valid()
      ensures Right()
    {
      forall x, y | enabled && OnScreen(x, y) && !Pending(x, y)
        ensures Shown(x, y) == native(Expected(x, y))
      {
        ValidMeans(x, y);
      }
    }

    lemma Showing()
      requires Shape() && Right() && DamageOk()
      ensures Valid()
    {
      hide Blend, Index;
      forall x, y | enabled && OnScreen(x, y) && !Pending(x, y)
        ensures Shown(x, y) == native(ExpectedOver(backbuffer[..], x, y))
      {
        IndexInside(width, height, x, y);
      }
    }

    /** Outside the cursor a full redraw shows the backbuffer. */
    lemma Uncovered()
      requires Shape()
      ensures forall x, y | OnScreen(x, y) && !(cursorVisible && ActiveCursor().Some? && UnderCursor(x, y)) ::
                Expected(x, y) == Back(x, y)
    {
    }

    /** Copies the damage; then every pixel the cursor does not cover is right. */
    method ShowDamage()
      requires Valid() && enabled && dirty
      modifies screen
      ensures forall x, y | OnScreen(x, y) && !(cursorVisible && ActiveCursor().Some? && UnderCursor(x, y)) ::
                Shown(x, y) == native(Expected(x, y))
    {
      Reading();
      Uncovered();
      hide Valid, Expected, Index, ActiveCursor;
      ScanoutRect(damage);
    }

    /** A full redraw shows the backbuffer, with the icon's pixels over it under a visible cursor. */
    ghost predicate CursorOver(x: int, y: int)
      requires Shape() && OnScreen(x, y)
      reads this, backbuffer
    {
      if cursorVisible && ActiveCursor().Some? && UnderCursor(x, y)
      then Over(Back(x, y), ActiveCursor().value[(y - cursorY) * CURSOR_WIDTH + (x - cursorX)], Expected(x, y))
      else Expected(x, y) == Back(x, y)
    }

    lemma ShowsCursor()
      requires Shape()
      ensures forall x, y | OnScreen(x, y) :: CursorOver(x, y)
    {
      forall x, y | OnScreen(x, y) ensures CursorOver(x, y) {
        if cursorVisible && ActiveCursor().Some? && UnderCursor(x, y) {
          BlendOver(Back(x, y), ActiveCursor().value[(y - cursorY) * CURSOR_WIDTH + (x - cursorX)]);
        }
        hide Over, Blend, Index;
      }
    }

    /** After a present the whole screen is what a full redraw would show. */
    method Present()
      requires Valid()
      modifies this`dirty, screen
      ensures Valid()
      ensures enabled ==> !dirty && forall x, y | OnScreen(x, y) :: Shown(x, y) == native(Expected(x, y))
      ensures forall x, y | OnScreen(x, y) :: CursorOver(x, y)
    {
      Reading();
      ShowsCursor();
      if !enabled || !dirty { return; }
      assert Shape();
      hide Valid, Expected, Index, ActiveCursor, Shape, UnderCursor, CursorOver;
      ShowDamage();
      Overlay();
      dirty := false;
      Showing();
    }

    /** Erases the cursor from the screen: there the backbuffer shows through. */
    method EraseCursor()
      requires Valid() && cursorVisible
      modifies screen
      ensures Shape() && (enabled ==> forall x, y | OnScreen(x, y) && !Pending(x, y) :: Shown(x, y) == native(Back(x, y)))
    {
      Reading();
      Uncovered();
      hide Valid, Expected, Index, ActiveCursor;
      ScanoutRect(Rect(cursorX, cursorY, CURSOR_WIDTH, CURSOR_HEIGHT));
    }

    /** Moves the cursor, clamped to the screen. */
    method CursorMove(x: int, y: int) returns (moved: bool)
      requires Valid()
      modifies this`cursorX, this`cursorY, this`cursorVisible, screen
      ensures Valid()
      ensures var cx := if x < 0 then 0 else if x >= width then width - 1 else x;
              var cy := if y < 0 then 0 else if y >= height then height - 1 else y;
              && moved == (enabled && ActiveCursor().Some? && !(old(cursorVisible) && cx == old(cursorX) && cy == old(cursorY)))
              && (moved ==> cursorVisible && cursorX == cx && cursorY == cy)
              && (!moved ==> cursorVisible == old(cursorVisible) && cursorX == old(cursorX) && cursorY == old(cursorY))
    {
      var icon := ActiveCursor();
      if !enabled || icon == None { return false; }
      var cx := if x < 0 then 0 else if x >= width then width - 1 else x;
      var cy := if y < 0 then 0 else if y >= height then height - 1 else y;
      if cursorVisible && cx == cursorX && cy == cursorY { return false; }
      Reading();
      Uncovered();
      hide Valid, Expected, Index, ActiveCursor;
      if cursorVisible { EraseCursor(); }
      cursorX, cursorY := cx, cy;
      cursorVisible := true;
      Uncovered();
      Overlay();
      Showing();
      return true;
    }

    method SetIcon(index: nat)
      requires Valid()
      modifies this`iconIndex, screen
      ensures Valid() && iconIndex == index
    {
      if index == iconIndex { return; }
      Reading();
      Uncovered();
      hide Valid, Expected, Index, ActiveCursor;
      if cursorVisible { EraseCursor(); }
      iconIndex := index;
      Uncovered();
      if !cursorVisible {
        Showing();
        return;
      }
      Overlay();
      Showing();
    }

    method HideCursor()
      requires Valid()
      modifies this`cursorVisible, screen
      ensures Valid() && !cursorVisible
    {
      if !cursorVisible { return; }
      EraseCursor();
      hide Valid, Expected, Index, ActiveCursor;
      cursorVisible := false;
      Uncovered();
      Showing();
    }
  }

  // ----- the points of a line -----

  function Span(a: int, b: int): nat { if b > a then b - a else a - b }

  function Sign(a: int, b: int): int { if a < b then 1 else -1 }

  /** The k-th point of the line: the ideal point rounded to the nearest pixel. */
  function LinePoint(x0: int, y0: int, x1: int, y1: int, k: nat): (int, int) {
    var dx, dy := Span(x0, x1), Span(y0, y1);
    (x0 + Sign(x0, x1) * IdealX(dx, dy, k), y0 + Sign(y0, y1) * IdealY(dx, dy, k))
  }

  /** The line starts at its first end point, stops at the second and not before. */
  lemma SpanIs(a: int, b: int)
    ensures Span(a, b) == if b > a then b - a else a - b
    ensures Sign(a, b) == if a < b then 1 else -1
  {
  }

  lemma LastPoint(x0: int, y0: int, x1: int, y1: int, k: nat)
    requires k <= Length(Span(x0, x1), Span(y0, y1))
    ensures LinePoint(x0, y0, x1, y1, 0) == (x0, y0)
    ensures LinePoint(x0, y0, x1, y1, k) == (x1, y1) <==> k == Length(Span(x0, x1), Span(y0, y1))
  {
    var dx, dy := Span(x0, x1), Span(y0, y1);
    EndsAt(dx, dy, k);
    OnIdealLine(dx, dy, 0);
    hide IdealX, IdealY;
    assert Sign(x0, x1) * dx == x1 - x0 && Sign(y0, y1) * dy == y1 - y0;
  }

  lemma NextPoint(x0: int, y0: int, x1: int, y1: int, k: nat)
    requires k < Length(Span(x0, x1), Span(y0, y1))
    ensures var dx, dy := Span(x0, x1), Span(y0, y1);
            var error := After(dx, dy, k).error;
            var n := After(dx, dy, k + 1);
            var (x, y) := LinePoint(x0, y0, x1, y1, k);
            && LinePoint(x0, y0, x1, y1, k + 1) ==
               (if error * 2 >= 0 - dy then x + Sign(x0, x1) else x, if error * 2 <= dx then y + Sign(y0, y1) else y)
            && n.error == error - (if error * 2 >= 0 - dy then dy else 0) + (if error * 2 <= dx then dx else 0)
  {
    var dx, dy := Span(x0, x1), Span(y0, y1);
    OnIdealLine(dx, dy, k);
    OnIdealLine(dx, dy, k + 1);
  }
}
