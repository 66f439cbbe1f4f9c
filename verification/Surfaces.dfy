/** Pixel surfaces carved out of one arena: first-fit placement on 1024-pixel boundaries,
    reference counts, and scrubbing on reclaim. */
module Surfaces {
  const LIMIT: nat := 8
  const MAX_WIDTH: nat := 640
  const MAX_HEIGHT: nat := 480
  const UNIT: nat := 1024
  const UINT32_MAX: nat := 0xFFFF_FFFF

  datatype Surface = Surface(active: bool, owner: nat, width: nat, height: nat,
                             offset: nat, capacity: nat, references: nat)

  const NONE := Surface(false, 0, 0, 0, 0, 0, 0)

  /** Extents are whole units inside the arena and hold the picture. */
  ghost predicate ExtentOk(s: Surface, total: nat) {
    if s.active then
      && s.offset % UNIT == 0 && s.capacity % UNIT == 0 && s.offset + s.capacity <= total
      && 0 < s.width <= MAX_WIDTH && 0 < s.height <= MAX_HEIGHT && s.width * s.height <= s.capacity
    else s.references == 0
  }

  predicate Meets(s: Surface, offset: nat, capacity: nat) {
    s.active && offset < s.offset + s.capacity && s.offset < offset + capacity
  }

  ghost predicate Covers(s: Surface, x: nat) { s.active && s.offset <= x < s.offset + s.capacity }

  ghost predicate Layout(objects: seq<Surface>, total: nat) {
    && |objects| == LIMIT
    && (forall i | 0 <= i < LIMIT :: ExtentOk(objects[i], total))
    && (forall i, j | 0 <= i < LIMIT && 0 <= j < LIMIT && i != j && objects[i].active ::
          !Meets(objects[j], objects[i].offset, objects[i].capacity))
  }

  /** Every pixel that belongs to no surface is zero. */
  ghost predicate Scrubbed(objects: seq<Surface>, mem: seq<bv32>) {
    forall x | 0 <= x < |mem| && Unowned(objects, x) :: mem[x] == 0
  }

  ghost predicate Unowned(objects: seq<Surface>, x: nat) {
    forall i | 0 <= i < |objects| :: !Covers(objects[i], x)
  }

  function Rounded(pixels: nat): (r: nat)
    ensures r % UNIT == 0 && pixels <= r < pixels + UNIT
  {
    (pixels + 1023) / 1024 * 1024
  }

  /** No surface meets the extent. */
  ghost predicate Gap(objects: seq<Surface>, offset: nat, capacity: nat) {
    forall i | 0 <= i < |objects| :: !Meets(objects[i], offset, capacity)
  }

  /** Searching only unit boundaries loses nothing: a gap anywhere, rounded down, is still a gap. */
  lemma GapRoundsDown(objects: seq<Surface>, offset: nat, capacity: nat, total: nat)
    requires Layout(objects, total) && capacity > 0 && capacity % UNIT == 0 && Gap(objects, offset, capacity)
    ensures Gap(objects, offset / UNIT * UNIT, capacity)
  {
    forall i | 0 <= i < LIMIT
      ensures !Meets(objects[i], offset / UNIT * UNIT, capacity)
    {
      assert ExtentOk(objects[i], total) && !Meets(objects[i], offset, capacity);
    }
  }

  /** A gap is a stretch of pixels none of which belongs to a surface. */
  lemma GapMeans(objects: seq<Surface>, offset: nat, capacity: nat, total: nat)
    requires Layout(objects, total) && capacity > 0
    ensures Gap(objects, offset, capacity) <==> forall x | offset <= x < offset + capacity :: Unowned(objects, x)
  {
    if Gap(objects, offset, capacity) {
      forall x, i | offset <= x < offset + capacity && 0 <= i < LIMIT
        ensures !Covers(objects[i], x)
      {
        assert !Meets(objects[i], offset, capacity);
      }
    } else {
      var i :| 0 <= i < LIMIT && Meets(objects[i], offset, capacity);
      assert ExtentOk(objects[i], total);
      var x := if objects[i].offset < offset then offset else objects[i].offset;
      assert Covers(objects[i], x) && !Unowned(objects, x);
    }
  }

  function FirstInactive(objects: seq<Surface>, i: nat): (r: nat)
    requires i <= |objects|
    ensures i <= r <= |objects| && (r < |objects| ==> !objects[r].active)
    ensures forall j | i <= j < r :: objects[j].active
    decreases |objects| - i
  {
    if i == |objects| || !objects[i].active then i else FirstInactive(objects, i + 1)
  }

  predicate Named(objects: seq<Surface>, id: nat) {
    0 < id <= |objects| && objects[id - 1].active
  }

  function Retained(objects: seq<Surface>, id: nat): seq<Surface>
    requires Named(objects, id)
  {
    objects[id - 1 := objects[id - 1].(references := objects[id - 1].references + 1)]
  }

  /** One reference fewer; the last one reclaims the surface. */
  function Released(objects: seq<Surface>, id: nat): seq<Surface>
    requires Named(objects, id) && objects[id - 1].references > 0
  {
    objects[id - 1 := if objects[id - 1].references == 1 then NONE
                      else objects[id - 1].(references := objects[id - 1].references - 1)]
  }

  lemma CountKeepsLayout(objects: seq<Surface>, total: nat, i: nat, references: nat)
    requires Layout(objects, total) && i < LIMIT && objects[i].active
    ensures Layout(objects[i := objects[i].(references := references)], total)
  {
    var objects' := objects[i := objects[i].(references := references)];
    forall j | 0 <= j < LIMIT ensures ExtentOk(objects'[j], total) { assert ExtentOk(objects[j], total); }
  }

  lemma ClearKeepsLayout(objects: seq<Surface>, total: nat, i: nat)
    requires Layout(objects, total) && i < LIMIT
    ensures Layout(objects[i := NONE], total)
  {
    var objects' := objects[i := NONE];
    forall j | 0 <= j < LIMIT ensures ExtentOk(objects'[j], total) { assert ExtentOk(objects[j], total); }
  }

  lemma AddKeepsLayout(objects: seq<Surface>, total: nat, i: nat, s: Surface)
    requires Layout(objects, total) && i < LIMIT && !objects[i].active && ExtentOk(s, total) && s.active
    requires Gap(objects, s.offset, s.capacity)
    ensures Layout(objects[i := s], total)
  {
    var objects' := objects[i := s];
    forall j | 0 <= j < LIMIT ensures ExtentOk(objects'[j], total) { assert ExtentOk(objects[j], total); }
    forall j, k | 0 <= j < LIMIT && 0 <= k < LIMIT && j != k && objects'[j].active
      ensures !Meets(objects'[k], objects'[j].offset, objects'[j].capacity)
    {
      if j != i && k != i { assert !Meets(objects[k], objects[j].offset, objects[j].capacity); }
      if j == i { assert !Meets(objects[k], s.offset, s.capacity); }
      if k == i { assert !Meets(objects[j], s.offset, s.capacity); }
    }
  }

  class SurfaceTable {
    var objects: seq<Surface>
    const arena: array<bv32>

    ghost predicate Valid()
      reads this, arena
    {
      Layout(objects, arena.Length) && Scrubbed(objects, arena[..])
    }

    /** surfaces_init. */
    constructor (pixels: array<bv32>)
      modifies pixels
      ensures Valid() && arena == pixels && forall i | 0 <= i < LIMIT :: objects[i] == NONE
    {
      arena := pixels;
      objects := seq(LIMIT, _ => NONE);
      new;
      for x := 0 to pixels.Length
        invariant forall y | 0 <= y < x :: pixels[y] == 0
        invariant |objects| == LIMIT && forall i | 0 <= i < LIMIT :: objects[i] == NONE
      {
        pixels[x] := 0;
      }
    }

    method Overlaps(offset: nat, capacity: nat) returns (overlaps: bool)
      requires |objects| == LIMIT
      ensures overlaps == !Gap(objects, offset, capacity)
    {
      for other := 0 to LIMIT
        invariant forall i | 0 <= i < other :: !Meets(objects[i], offset, capacity)
      {
        if objects[other].active {
          var otherEnd := objects[other].offset + objects[other].capacity;
          if offset < otherEnd && objects[other].offset < offset + capacity {
            assert Meets(objects[other], offset, capacity);
            return true;
          }
        }
      }
      return false;
    }

    /** No gap at any unit below `offset`, and no room from there on, is no gap at all. */
    lemma NoGap(capacity: nat, offset: nat)
      requires Valid() && 0 < capacity && capacity % UNIT == 0
      requires offset > arena.Length || capacity > arena.Length - offset
      requires forall o | 0 <= o < offset && o % UNIT == 0 :: !Gap(objects, o, capacity)
      ensures forall o: nat | o + capacity <= arena.Length :: !Gap(objects, o, capacity)
    {
      forall o: nat | o + capacity <= arena.Length
        ensures !Gap(objects, o, capacity)
      {
        assert (o / UNIT * UNIT) % UNIT == 0;
        if Gap(objects, o, capacity) { GapRoundsDown(objects, o, capacity, arena.Length); }
      }
    }

    /** The lowest unit-aligned gap; a failed search means there is no gap at any offset. */
    method FindGap(capacity: nat) returns (found: bool, offset: nat)
      requires Valid() && 0 < capacity && capacity % UNIT == 0
      ensures found ==> offset % UNIT == 0 && offset + capacity <= arena.Length && Gap(objects, offset, capacity)
      ensures found ==> forall o | 0 <= o < offset && o % UNIT == 0 :: !Gap(objects, o, capacity)
      ensures !found ==> forall o: nat | o + capacity <= arena.Length :: !Gap(objects, o, capacity)
    {
      assert |objects| == LIMIT;
      hide Valid, Gap, Layout, Scrubbed;
      offset := 0;
      while offset <= arena.Length && capacity <= arena.Length - offset
        invariant offset % UNIT == 0
        invariant forall o | 0 <= o < offset && o % UNIT == 0 :: !Gap(objects, o, capacity)
      {
        var overlaps := Overlaps(offset, capacity);
        if !overlaps { return true, offset; }
        offset := offset + 1024;
      }
      NoGap(capacity, offset);
      return false, 0;
    }

    /** Succeeds exactly when the arguments are valid, a slot is free and some gap is large enough.
        The new surface has no references yet and reads as zeros. */
    method Create(owner: nat, width: nat, height: nat) returns (ok: bool, id: nat)
      requires Valid()
      modifies this`objects
      ensures Valid()
      ensures ok <==> owner != 0 && 0 < width <= MAX_WIDTH && 0 < height <= MAX_HEIGHT
                      && (exists i | 0 <= i < LIMIT :: !old(objects)[i].active)
                      && (exists o: nat | o + Rounded(width * height) <= arena.Length :: Gap(old(objects), o, Rounded(width * height)))
      ensures !ok ==> objects == old(objects)
      ensures ok ==> id == FirstInactive(old(objects), 0) + 1 <= LIMIT && Named(objects, id)
                     && objects == old(objects)[id - 1 := objects[id - 1]]
                     && objects[id - 1] == Surface(true, owner, width, height, objects[id - 1].offset, Rounded(width * height), 0)
                     && Gap(old(objects), objects[id - 1].offset, Rounded(width * height))
                     && (forall o | 0 <= o < objects[id - 1].offset && o % UNIT == 0 :: !Gap(old(objects), o, Rounded(width * height)))
                     && forall x | objects[id - 1].offset <= x < objects[id - 1].offset + objects[id - 1].capacity :: arena[x] == 0
    {
      if owner == 0 || width == 0 || height == 0 || width > MAX_WIDTH || height > MAX_HEIGHT { return false, 0; }
      for slot := 0 to LIMIT
        invariant forall i | 0 <= i < slot :: objects[i].active
        invariant Valid() && objects == old(objects)
        invariant FirstInactive(objects, 0) == FirstInactive(objects, slot)
      {
        if !objects[slot].active {
          var pixels := width * height;
          var capacity := Rounded(pixels);
          assert pixels > 0;
          var found, offset := FindGap(capacity);
          if !found { return false, 0; }
          FreshGap(offset, capacity);
          var s := Surface(true, owner, width, height, offset, capacity, 0);
          AddKeepsLayout(objects, arena.Length, slot, s);
          objects := objects[slot := s];
          ScrubbedAfterAdd(old(objects), slot, s);
          return true, slot + 1;
        }
      }
      return false, 0;
    }

    lemma FreshGap(offset: nat, capacity: nat)
      requires Valid() && Gap(objects, offset, capacity) && offset + capacity <= arena.Length
      ensures forall x | offset <= x < offset + capacity :: arena[x] == 0
    {
      forall x | offset <= x < offset + capacity
        ensures arena[x] == 0
      {
        forall i | 0 <= i < LIMIT ensures !Covers(objects[i], x) { assert !Meets(objects[i], offset, capacity); }
        assert Unowned(objects, x) && arena[..][x] == arena[x];
      }
    }

    lemma ScrubbedAfterAdd(before: seq<Surface>, i: nat, s: Surface)
      requires |before| == LIMIT && i < LIMIT && !before[i].active && Scrubbed(before, arena[..]) && objects == before[i := s]
      ensures Scrubbed(objects, arena[..])
    {
      forall x | 0 <= x < arena.Length && Unowned(objects, x)
        ensures arena[..][x] == 0
      {
        forall j | 0 <= j < LIMIT ensures !Covers(before[j], x) { if j != i { assert !Covers(objects[j], x); } }
        assert Unowned(before, x);
      }
    }

    method Retain(id: nat) returns (ok: bool)
      requires Valid()
      modifies this`objects
      ensures Valid()
      ensures ok <==> 0 < id <= LIMIT && old(objects)[id - 1].active && old(objects)[id - 1].references != 0xFFFF_FFFF
      ensures !ok ==> objects == old(objects)
      ensures ok ==> objects == Retained(old(objects), id)
                             == old(objects)[id - 1 := old(objects)[id - 1].(references := old(objects)[id - 1].references + 1)]
    {
      if id == 0 || id > LIMIT || !objects[id - 1].active { return false; }
      if objects[id - 1].references == UINT32_MAX { return false; }
      CountKeepsLayout(objects, arena.Length, id - 1, objects[id - 1].references + 1);
      SameExtents(objects[id - 1].(references := objects[id - 1].references + 1), id - 1);
      objects := objects[id - 1 := objects[id - 1].(references := objects[id - 1].references + 1)];
      return true;
    }

    lemma SameExtents(s: Surface, i: nat)
      requires Valid() && i < LIMIT && objects[i].active && s == objects[i].(references := s.references)
      ensures Scrubbed(objects[i := s], arena[..])
    {
      forall x | 0 <= x < arena.Length && Unowned(objects[i := s], x)
        ensures arena[..][x] == 0
      {
        forall j | 0 <= j < LIMIT ensures !Covers(objects[j], x) { assert !Covers(objects[i := s][j], x); }
        assert Unowned(objects, x);
      }
    }

    /** Zeroes the extent and frees the slot. No pixel of another surface changes. */
    method Clear(i: nat)
      requires Valid() && i < LIMIT && objects[i].active
      modifies this`objects, arena
      ensures Valid() && objects == old(objects)[i := NONE]
      ensures forall x | 0 <= x < arena.Length && !Covers(old(objects)[i], x) :: arena[x] == old(arena[x])
    {
      var s := objects[i];
      assert ExtentOk(s, arena.Length);
      for pixel := 0 to s.capacity
        invariant objects == old(objects)
        invariant forall x | s.offset <= x < s.offset + pixel :: arena[x] == 0
        invariant forall x | 0 <= x < arena.Length && !Covers(s, x) :: arena[x] == old(arena[x])
      {
        arena[s.offset + pixel] := 0;
      }
      ClearKeepsLayout(objects, arena.Length, i);
      objects := objects[i := NONE];
      forall x | 0 <= x < arena.Length && Unowned(objects, x)
        ensures arena[..][x] == 0
      {
        if !Covers(s, x) {
          forall j | 0 <= j < LIMIT ensures !Covers(old(objects)[j], x) { if j != i { assert !Covers(objects[j], x); } }
          assert Unowned(old(objects), x);
          assert old(arena[..])[x] == 0;
        }
      }
    }

    method Release(id: nat) returns (ok: bool)
      requires Valid()
      modifies this`objects, arena
      ensures Valid()
      ensures ok <==> 0 < id <= LIMIT && old(objects)[id - 1].active && old(objects)[id - 1].references > 0
      ensures !ok ==> objects == old(objects)
      ensures ok ==> objects == Released(old(objects), id)
      ensures ok && old(objects)[id - 1].references == 1 ==> objects == old(objects)[id - 1 := NONE]
      ensures ok && old(objects)[id - 1].references > 1 ==>
                objects == old(objects)[id - 1 := old(objects)[id - 1].(references := old(objects)[id - 1].references - 1)]
      ensures forall x | 0 <= x < arena.Length && arena[x] != old(arena[x]) ::
                ok && old(objects)[id - 1].references == 1 && Covers(old(objects)[id - 1], x)
    {
      if id == 0 || id > LIMIT || !objects[id - 1].active { return false; }
      if objects[id - 1].references == 0 { return false; }
      if objects[id - 1].references == 1 {
        Clear(id - 1);
      } else {
        CountKeepsLayout(objects, arena.Length, id - 1, objects[id - 1].references - 1);
        SameExtents(objects[id - 1].(references := objects[id - 1].references - 1), id - 1);
        objects := objects[id - 1 := objects[id - 1].(references := objects[id - 1].references - 1)];
      }
      return true;
    }

    method Discard(id: nat) returns (ok: bool)
      requires Valid()
      modifies this`objects, arena
      ensures Valid()
      ensures ok <==> 0 < id <= LIMIT && old(objects)[id - 1].active && old(objects)[id - 1].references == 0
      ensures objects == if ok then old(objects)[id - 1 := NONE] else old(objects)
      ensures forall x | 0 <= x < arena.Length && arena[x] != old(arena[x]) :: ok && Covers(old(objects)[id - 1], x)
    {
      if id == 0 || id > LIMIT || !objects[id - 1].active { return false; }
      if objects[id - 1].references != 0 { return false; }
      Clear(id - 1);
      return true;
    }

    /** The picture of a surface, row after row. */
    ghost function Pixels(i: nat): seq<bv32>
      requires Valid() && i < LIMIT && objects[i].active
      reads this, arena
    {
      assert ExtentOk(objects[i], arena.Length);
      arena[objects[i].offset..objects[i].offset + objects[i].width * objects[i].height]
    }

    /** Writing one surface changes exactly the addressed stretch of its picture and nothing of any other. */
    method Write(id: nat, pixelOffset: nat, pixels: seq<bv32>) returns (ok: bool)
      requires Valid()
      modifies arena
      ensures Valid()
      ensures ok <==> 0 < id <= LIMIT && objects[id - 1].active
                      && pixelOffset + |pixels| <= objects[id - 1].width * objects[id - 1].height
      ensures !ok ==> arena[..] == old(arena[..])
      ensures ok ==> Pixels(id - 1) == old(Pixels(id - 1))[..pixelOffset] + pixels + old(Pixels(id - 1))[pixelOffset + |pixels|..]
      ensures forall j | 0 <= j < LIMIT && objects[j].active && j != id - 1 :: Pixels(j) == old(Pixels(j))
    {
      if id == 0 || id > LIMIT || !objects[id - 1].active { return false; }
      var s := objects[id - 1];
      assert ExtentOk(s, arena.Length);
      var total := s.width * s.height;
      if pixelOffset > total || |pixels| > total - pixelOffset { return false; }
      WriteAt(id - 1, pixelOffset, pixels, total);
      return true;
    }

    method WriteAt(i: nat, pixelOffset: nat, pixels: seq<bv32>, ghost total: nat)
      requires Valid() && i < LIMIT && objects[i].active && total == objects[i].width * objects[i].height
      requires pixelOffset + |pixels| <= total
      modifies arena
      ensures Valid()
      ensures Pixels(i) == old(Pixels(i))[..pixelOffset] + pixels + old(Pixels(i))[pixelOffset + |pixels|..]
      ensures forall j | 0 <= j < LIMIT && objects[j].active && j != i :: Pixels(j) == old(Pixels(j))
    {
      hide Layout, Scrubbed, ExtentOk, Covers, Valid, Pixels;
      WriteRange(i, total);
      ghost var mem := arena[..];
      var offset := objects[i].offset;
      PixelsAt(i, total);
      CopyIn(offset + pixelOffset, pixels);
      Placed(mem, arena[..], offset, total, pixelOffset, pixels);
      WriteKeepsOthers(mem, i);
      StillValid();
      PixelsAt(i, total);
      forall j | 0 <= j < LIMIT && objects[j].active && j != i ensures Pixels(j) == old(Pixels(j)) {
        PixelsKept(j);
      }
    }

    lemma WriteRange(i: nat, total: nat)
      requires Valid() && i < LIMIT && objects[i].active && total == objects[i].width * objects[i].height
      ensures |objects| == LIMIT && Layout(objects, arena.Length) && Scrubbed(objects, arena[..])
      ensures objects[i].offset + total <= arena.Length
      ensures forall x | 0 <= x < arena.Length && !Covers(objects[i], x) ::
                !(objects[i].offset <= x < objects[i].offset + total)
    {
      assert ExtentOk(objects[i], arena.Length);
    }

    lemma StillValid()
      requires Layout(objects, arena.Length) && Scrubbed(objects, arena[..])
      ensures Valid()
    {
    }

    lemma PixelsAt(i: nat, total: nat)
      requires Valid() && i < LIMIT && objects[i].active && total == objects[i].width * objects[i].height
      ensures objects[i].offset + total <= arena.Length
      ensures Pixels(i) == arena[objects[i].offset..objects[i].offset + total]
    {
      assert ExtentOk(objects[i], arena.Length);
    }

    twostate lemma PixelsKept(j: nat)
      requires old(Valid()) && Valid() && j < LIMIT && objects[j].active && objects == old(objects)
      requires var a, n := objects[j].offset, objects[j].width * objects[j].height;
               a + n <= arena.Length && arena[a..a + n] == old(arena[..])[a..a + n]
      ensures Pixels(j) == old(Pixels(j))
    {
    }

    method CopyIn(destination: nat, pixels: seq<bv32>)
      requires destination + |pixels| <= arena.Length
      modifies arena
      ensures arena[destination..destination + |pixels|] == pixels
      ensures forall x | 0 <= x < arena.Length && !(destination <= x < destination + |pixels|) :: arena[x] == old(arena[x])
    {
      for pixel := 0 to |pixels|
        invariant forall x | destination <= x < destination + pixel :: arena[x] == pixels[x - destination]
        invariant forall x | 0 <= x < arena.Length && !(destination <= x < destination + pixel) :: arena[x] == old(arena[x])
      {
        arena[destination + pixel] := pixels[pixel];
      }
    }

    lemma Placed(mem: seq<bv32>, mem': seq<bv32>, offset: nat, total: nat, at: nat, pixels: seq<bv32>)
      requires offset + total <= |mem| == |mem'| && at + |pixels| <= total
      requires mem'[offset + at..offset + at + |pixels|] == pixels
      requires forall x | 0 <= x < |mem| && !(offset + at <= x < offset + at + |pixels|) :: mem'[x] == mem[x]
      ensures mem'[offset..offset + total]
              == mem[offset..offset + total][..at] + pixels + mem[offset..offset + total][at + |pixels|..]
    {
      var was, now := mem[offset..offset + total], mem'[offset..offset + total];
      var want := was[..at] + pixels + was[at + |pixels|..];
      forall k | 0 <= k < total ensures now[k] == want[k] {
        if at <= k < at + |pixels| {
          assert mem'[offset + at..offset + at + |pixels|][k - at] == mem'[offset + k];
        }
      }
    }

    lemma WriteKeepsOthers(mem: seq<bv32>, i: nat)
      requires |mem| == arena.Length && |objects| == LIMIT && i < LIMIT && objects[i].active
      requires Layout(objects, arena.Length) && Scrubbed(objects, mem)
      requires forall x | 0 <= x < arena.Length && !Covers(objects[i], x) :: arena[x] == mem[x]
      ensures Scrubbed(objects, arena[..])
      ensures forall j | 0 <= j < LIMIT && objects[j].active && j != i ::
                var a, n := objects[j].offset, objects[j].width * objects[j].height;
                a + n <= arena.Length && arena[a..a + n] == mem[a..a + n]
    {
      forall x | 0 <= x < arena.Length && Unowned(objects, x)
        ensures arena[..][x] == 0
      {
        assert !Covers(objects[i], x);
      }
      forall j | 0 <= j < LIMIT && objects[j].active && j != i
        ensures var a, n := objects[j].offset, objects[j].width * objects[j].height;
                a + n <= arena.Length && arena[a..a + n] == mem[a..a + n]
      {
        assert ExtentOk(objects[j], arena.Length);
        assert !Meets(objects[i], objects[j].offset, objects[j].capacity);
      }
    }
  }
}
