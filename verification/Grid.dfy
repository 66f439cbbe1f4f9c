/** Row-major addressing of a rectangle of cells. */
module Grid {
  function Index(w: nat, x: nat, y: nat): nat { y * w + x }

  lemma IndexInside(w: nat, h: nat, x: nat, y: nat)
    requires x < w && y < h
    ensures Index(w, x, y) < w * h
  {
    assert y * w + w <= h * w by { assert (y + 1) * w <= h * w; }
  }

  lemma MulStep(a: nat, b: nat, w: nat)
    ensures a < b ==> (a + 1) * w <= b * w
  {
    if a < b { assert b * w == (a + 1) * w + (b - a - 1) * w; }
  }

  lemma IndexUnique(w: nat, x: nat, y: nat, x': nat, y': nat)
    requires x < w && x' < w && Index(w, x, y) == Index(w, x', y')
    ensures x == x' && y == y'
  {
    MulStep(y, y', w);
    MulStep(y', y, w);
  }

  /** A cell shares its address with no other. */
  lemma OnlyCell(w: nat, h: nat, x: nat, y: nat)
    requires x < w && y < h
    ensures Index(w, x, y) < w * h
    ensures forall x': nat, y': nat | x' < w && y' < h :: Index(w, x', y') == Index(w, x, y) ==> x' == x && y' == y
  {
    IndexInside(w, h, x, y);
    forall x': nat, y': nat | x' < w && y' < h && Index(w, x', y') == Index(w, x, y)
      ensures x' == x && y' == y
    {
      IndexUnique(w, x, y, x', y');
    }
  }
}
