/** The error-term line of framebuffer_line against the ideal line. */
module Bresenham {
  /** Counts of horizontal and vertical moves made so far, and the error term. */
  datatype Pen = Pen(i: int, j: int, error: int)

  function Start(dx: nat, dy: nat): Pen { Pen(0, 0, dx - dy) }

  /** One round of the loop for a line dx wide and dy high. */
  function Move(dx: nat, dy: nat, p: Pen): Pen {
    var twice := p.error * 2;
    var p1 := if twice >= 0 - dy then Pen(p.i + 1, p.j, p.error - dy) else p;
    if twice <= dx then Pen(p1.i, p1.j + 1, p1.error + dx) else p1
  }

  function After(dx: nat, dy: nat, k: nat): Pen {
    if k == 0 then Start(dx, dy) else Move(dx, dy, After(dx, dy, k - 1))
  }

  function Length(dx: nat, dy: nat): nat { if dx >= dy then dx else dy }

  /** p/q rounded to the nearest integer, halves up. */
  function Nearest(p: nat, q: nat): nat { if q == 0 then 0 else (2 * p + q) / (2 * q) }

  /** The ideal position after k steps along the longer axis. */
  function IdealX(dx: nat, dy: nat, k: nat): nat { if dx >= dy then k else Nearest(k * dx, dy) }

  function IdealY(dx: nat, dy: nat, k: nat): nat { if dx >= dy then Nearest(k * dy, dx) else k }

  lemma NearestIs(p: nat, q: nat, r: int)
    requires q > 0 && 2 * r * q <= 2 * p + q < 2 * r * q + 2 * q
    ensures Nearest(p, q) == r
  {
    DivIs(2 * p + q, 2 * q, r);
    assert r * (2 * q) == 2 * r * q;
  }

  lemma DivIs(n: nat, d: nat, r: int)
    requires d > 0 && r * d <= n < r * d + d
    ensures n / d == r
  {
    var q := n / d;
    assert n == q * d + n % d;
    MulStep(q, r, d);
    MulStep(r, q, d);
  }

  lemma {:induction false} MulStep(a: int, b: int, d: nat)
    ensures a < b ==> a * d + d <= b * d
    decreases b - a
  {
    if a < b - 1 { MulStep(a, b - 1, d); }
    Grow(b - 1, d);
  }

  lemma NearestBounds(p: nat, q: nat)
    requires q > 0
    ensures var r := Nearest(p, q); 2 * (r * q) <= 2 * p + q < 2 * (r * q) + 2 * q
  {
    var n, d := 2 * p + q, 2 * q;
    assert n == n / d * d + n % d;
    assert n / d * (2 * q) == 2 * (n / d * q);
  }

  /** The signed distance of the pen from the ideal line, scaled by the longer side. */
  ghost function Drift(dx: nat, dy: nat, p: Pen): int { p.j * dx - p.i * dy }

  lemma MoveDrift(dx: nat, dy: nat, p: Pen)
    requires p.error == dx - dy + Drift(dx, dy, p)
    ensures var n := Move(dx, dy, p); n.error == dx - dy + Drift(dx, dy, n)
  {
    var n := Move(dx, dy, p);
    assert n.j * dx == p.j * dx + (if n.j == p.j + 1 then dx else 0);
    assert n.i * dy == p.i * dy + (if n.i == p.i + 1 then dy else 0);
  }

  /** After k rounds the pen is at the ideal point rounded to the nearest pixel. */
  lemma {:induction false} OnIdealLine(dx: nat, dy: nat, k: nat)
    requires k <= Length(dx, dy)
    ensures var p := After(dx, dy, k);
            && p.i == IdealX(dx, dy, k) && p.j == IdealY(dx, dy, k)
            && p.error == dx - dy + Drift(dx, dy, p)
  {
    var p := After(dx, dy, k);
    if k > 0 {
      OnIdealLine(dx, dy, k - 1);
      var before := After(dx, dy, k - 1);
      MoveDrift(dx, dy, before);
      if dx >= dy { FlatRound(dx, dy, before); } else { SteepRound(dx, dy, before); }
    } else if dx >= dy {
      if dx > 0 { NearestIs(0, dx, 0); }
    } else {
      NearestIs(0, dy, 0);
    }
  }

  /** The tests of one round, in terms of the scaled coordinates across = i * dy and up = j * dx. */
  lemma FlatTests(dx: nat, dy: nat, across: int, up: int, error: int)
    requires dy <= dx && 2 * up <= 2 * across + dx < 2 * up + 2 * dx && error == dx - dy + up - across
    ensures error * 2 >= 0 - dy
    ensures var up' := if error * 2 <= dx then up + dx else up;
            2 * up' <= 2 * (across + dy) + dx < 2 * up' + 2 * dx
  {
  }

  lemma SteepTests(dx: nat, dy: nat, across: int, up: int, error: int)
    requires dx < dy && 2 * across <= 2 * up + dy < 2 * across + 2 * dy && error == dx - dy + up - across
    ensures error * 2 <= dx
    ensures var across' := if error * 2 >= 0 - dy then across + dy else across;
            2 * across' <= 2 * (up + dx) + dy < 2 * across' + 2 * dy
  {
  }

  lemma DriftIs(dx: nat, dy: nat, p: Pen)
    ensures Drift(dx, dy, p) == p.j * dx - p.i * dy
  {
  }

  lemma MoveIs(dx: nat, dy: nat, p: Pen)
    ensures Move(dx, dy, p).i == if p.error * 2 >= 0 - dy then p.i + 1 else p.i
    ensures Move(dx, dy, p).j == if p.error * 2 <= dx then p.j + 1 else p.j
  {
  }

  /** A round of a line at most as high as wide always moves right, and up to the nearest row. */
  lemma FlatRound(dx: nat, dy: nat, p: Pen)
    requires 0 < dx && dy <= dx && 0 <= p.i && p.j == Nearest(p.i * dy, dx) && p.error == dx - dy + Drift(dx, dy, p)
    ensures var n := Move(dx, dy, p); n.i == p.i + 1 && n.j == Nearest(n.i * dy, dx)
  {
    hide *;
    var across, up, n := p.i * dy, p.j * dx, Move(dx, dy, p);
    NearestBounds(across, dx);
    DriftIs(dx, dy, p);
    Double(p.j, dx);
    FlatTests(dx, dy, across, up, p.error);
    MoveIs(dx, dy, p);
    Grow(p.i, dy);
    Grow(p.j, dx);
    Double(n.j, dx);
    NearestIs(n.i * dy, dx, n.j);
  }

  lemma Grow(a: int, b: int)
    ensures (a + 1) * b == a * b + b
  {
  }

  lemma Double(a: int, b: int)
    ensures 2 * a * b == 2 * (a * b)
  {
  }

  lemma SteepRound(dx: nat, dy: nat, p: Pen)
    requires dx < dy && 0 <= p.j && p.i == Nearest(p.j * dx, dy) && p.error == dx - dy + Drift(dx, dy, p)
    ensures var n := Move(dx, dy, p); n.j == p.j + 1 && n.i == Nearest(n.j * dx, dy)
  {
    hide *;
    var across, up, n := p.i * dy, p.j * dx, Move(dx, dy, p);
    NearestBounds(up, dy);
    DriftIs(dx, dy, p);
    Double(p.i, dy);
    SteepTests(dx, dy, across, up, p.error);
    MoveIs(dx, dy, p);
    Grow(p.j, dx);
    Grow(p.i, dy);
    Double(n.i, dy);
    NearestIs(n.j * dx, dy, n.i);
  }

  /** The pen reaches the end exactly at the last step, so the loop plots Length + 1 points. */
  lemma EndsAt(dx: nat, dy: nat, k: nat)
    requires k <= Length(dx, dy)
    ensures IdealX(dx, dy, k) == dx && IdealY(dx, dy, k) == dy <==> k == Length(dx, dy)
  {
    if k == Length(dx, dy) {
      if dx >= dy {
        if dx > 0 { assert 2 * dy * dx == 2 * (k * dy); NearestIs(k * dy, dx, dy); }
      } else {
        assert 2 * dx * dy == 2 * (k * dx);
        NearestIs(k * dx, dy, dx);
      }
    }
  }

  /** Every plotted point is within half a pixel of the ideal line, measured along the shorter axis. */
  lemma WithinHalf(dx: nat, dy: nat, k: nat)
    requires k <= Length(dx, dy)
    ensures dx >= dy ==> 0 - dx <= 2 * (IdealY(dx, dy, k) * dx - k * dy) <= dx
    ensures dx < dy ==> 0 - dy <= 2 * (IdealX(dx, dy, k) * dy - k * dx) <= dy
  {
    if dx >= dy {
      if dx > 0 { NearestBounds(k * dy, dx); }
    } else {
      NearestBounds(k * dx, dy);
    }
  }

  /** The doubled error term stays within three times the length, so 32 bits suffice for any line
      shorter than 2^31 / 3. */
  lemma ErrorRange(dx: nat, dy: nat, k: nat)
    requires k <= Length(dx, dy)
    ensures -3 * Length(dx, dy) <= After(dx, dy, k).error * 2 <= 3 * Length(dx, dy)
  {
    OnIdealLine(dx, dy, k);
    WithinHalf(dx, dy, k);
  }
}
