/** The C library's `qsort`: elements of any size in a byte array, median of three, Lomuto
    partition; it recurses on the smaller part and loops on the larger one, except that it
    recurses on all the rest when the pivot is the least element. */
module Quicksort {
  import opened Bytes

  type Element = seq<Byte>

  // ---- Orders -------------------------------------------------------------------------------

  /** The sign of the comparison is that of a total preorder on elements of this size. */
  ghost predicate Preorder(compare: (Element, Element) -> int, size: nat) {
    && (forall x: Element, y: Element | |x| == |y| == size :: compare(x, y) > 0 <==> compare(y, x) < 0)
    && (forall x: Element, y: Element, z: Element | |x| == |y| == |z| == size ::
          compare(x, y) <= 0 && compare(y, z) <= 0 ==> compare(x, z) <= 0)
  }

  ghost predicate Sorted(compare: (Element, Element) -> int, e: seq<Element>) {
    forall x, y | 0 <= x < y < |e| :: compare(e[x], e[y]) <= 0
  }

  ghost predicate Sized(e: seq<Element>, size: nat) { forall k | 0 <= k < |e| :: |e[k]| == size }

  /** Every ordered pair of [first..last) is in order, except pairs inside [lo..hi). */
  ghost predicate OrderedOutside(compare: (Element, Element) -> int, e: seq<Element>,
                                 first: nat, last: nat, lo: nat, hi: nat)
    requires last <= |e|
  {
    forall x, y | first <= x < y < last && !(lo <= x && y < hi) :: compare(e[x], e[y]) <= 0
  }

  // ---- Rearrangements -----------------------------------------------------------------------

  /** Only [a..b) changed, and there the elements were only moved. */
  ghost predicate Moved(s: seq<Element>, t: seq<Element>, a: nat, b: nat)
    requires a <= b <= |s|
  {
    |s| == |t| && s[..a] == t[..a] && s[b..] == t[b..] && multiset(s[a..b]) == multiset(t[a..b])
  }

  lemma MovedBack(s: seq<Element>, t: seq<Element>, u: seq<Element>, a: nat, b: nat)
    requires a <= b <= |s| && Moved(s, t, a, b) && Moved(t, u, a, b)
    ensures Moved(s, u, a, b)
  {
  }

  lemma ThreeParts(s: seq<Element>, a: nat, c: nat, d: nat, b: nat)
    requires a <= c <= d <= b <= |s|
    ensures s[a..b] == s[a..c] + s[c..d] + s[d..b]
    ensures s[..c][a..] == s[a..c] && s[d..][..b - d] == s[d..b]
    ensures s[..c][..a] == s[..a] && s[d..][b - d..] == s[b..]
  {
  }

  lemma MovedWider(s: seq<Element>, t: seq<Element>, a: nat, b: nat, c: nat, d: nat)
    requires a <= c <= d <= b <= |s| && Moved(s, t, c, d)
    ensures Moved(s, t, a, b)
  {
    ThreeParts(s, a, c, d, b);
    ThreeParts(t, a, c, d, b);
  }

  function Swapped(s: seq<Element>, i: nat, j: nat): seq<Element>
    requires i < |s| && j < |s|
  {
    s[i := s[j]][j := s[i]]
  }

  lemma SwapMoves(s: seq<Element>, i: nat, j: nat, a: nat, b: nat)
    requires a <= i < b <= |s| && a <= j < b
    ensures Moved(s, Swapped(s, i, j), a, b)
  {
    var t := Swapped(s, i, j);
    assert t[a..b] == s[a..b][i - a := s[j]][j - a := s[i]];
  }

  /** Where an element came from: outside the part it did not move, inside it came from inside. */
  lemma MovedFrom(s: seq<Element>, t: seq<Element>, a: nat, b: nat, k: nat) returns (m: nat)
    requires a <= b <= |s| && Moved(s, t, a, b) && k < |t|
    ensures m < |s| && t[k] == s[m] && (a <= k < b <==> a <= m < b) && (!(a <= k < b) ==> m == k)
  {
    if k < a {
      assert t[k] == t[..a][k] == s[..a][k];
      m := k;
    } else if k >= b {
      assert t[k] == t[b..][k - b] == s[b..][k - b];
      m := k;
    } else {
      assert t[a..b][k - a] in multiset(s[a..b]);
      var d :| 0 <= d < b - a && s[a..b][d] == t[k];
      m := a + d;
    }
  }

  // ---- Elements in the byte array -----------------------------------------------------------

  /** An array of this length holds `n` elements of `size` bytes. */
  ghost predicate Room(length: nat, size: nat, n: nat) { n * size <= length }

  lemma Fits(i: nat, n: nat, size: nat)
    requires i < n
    ensures i * size + size <= n * size
  {
    assert (i + 1) * size <= n * size;
  }

  ghost function Piece(bytes: seq<Byte>, size: nat, i: nat): Element {
    if i * size + size <= |bytes| then bytes[i * size..i * size + size] else []
  }

  /** The first `n` elements of `size` bytes. */
  ghost function Elements(bytes: seq<Byte>, size: nat, n: nat): (e: seq<Element>)
    ensures |e| == n
    ensures forall i | 0 <= i < n :: e[i] == Piece(bytes, size, i)
  {
    seq(n, i requires 0 <= i < n => Piece(bytes, size, i))
  }

  /** The bytes after the elements. */
  ghost function Tail(bytes: seq<Byte>, size: nat, n: nat): seq<Byte> {
    if n * size <= |bytes| then bytes[n * size..] else []
  }

  lemma ElementsSized(bytes: seq<Byte>, size: nat, n: nat)
    requires Room(|bytes|, size, n)
    ensures Sized(Elements(bytes, size, n), size)
  {
    forall i | 0 <= i < n ensures |Piece(bytes, size, i)| == size {
      Fits(i, n, size);
    }
  }

  lemma Disjoint(i: nat, j: nat, size: nat)
    ensures i == j || i * size + size <= j * size || j * size + size <= i * size
  {
    if i < j {
      Fits(i, j, size);
    } else if j < i {
      Fits(j, i, size);
    }
  }

  /** `t` is `s` with the blocks at `p` and `q` exchanged. */
  ghost predicate BlocksSwapped(s: seq<Byte>, t: seq<Byte>, p: nat, q: nat, size: nat) {
    && p + size <= |s| == |t| && q + size <= |s|
    && t[p..p + size] == s[q..q + size] && t[q..q + size] == s[p..p + size]
    && forall k | 0 <= k < |s| && !(p <= k < p + size) && !(q <= k < q + size) :: t[k] == s[k]
  }

  lemma BlockKept(s: seq<Byte>, t: seq<Byte>, p: nat, q: nat, size: nat, r: nat)
    requires BlocksSwapped(s, t, p, q, size) && r <= |s|
    requires p + size <= r || r + size <= p
    requires q + size <= r || r + size <= q
    ensures r + size <= |s| ==> t[r..r + size] == s[r..r + size]
    ensures p + size <= r && q + size <= r ==> t[r..] == s[r..]
  {
  }

  /** Swapping the bytes of two elements swaps the elements, even when they are the same one. */
  lemma ElementsSwapped(s: seq<Byte>, t: seq<Byte>, size: nat, n: nat, i: nat, j: nat)
    requires Room(|s|, size, n) && i < n && j < n && BlocksSwapped(s, t, i * size, j * size, size)
    ensures Elements(t, size, n) == Swapped(Elements(s, size, n), i, j)
    ensures Tail(t, size, n) == Tail(s, size, n)
  {
    var e, f := Elements(s, size, n), Elements(t, size, n);
    forall m | 0 <= m < n ensures f[m] == Swapped(e, i, j)[m] {
      PieceSwapped(s, t, size, n, i, j, m);
    }
    Fits(i, n, size);
    Fits(j, n, size);
    BlockKept(s, t, i * size, j * size, size, n * size);
  }

  lemma PieceIs(bytes: seq<Byte>, size: nat, n: nat, i: nat, at: nat)
    requires Room(|bytes|, size, n) && i < n && at == i * size
    ensures at + size <= |bytes| && Piece(bytes, size, i) == bytes[at..at + size]
  {
    Fits(i, n, size);
  }

  /** Offsets of two elements are equal or a whole element apart. */
  ghost predicate Apart(p: nat, q: nat, size: nat) { p + size <= q || q + size <= p }

  lemma SliceSwapped(s: seq<Byte>, t: seq<Byte>, p: nat, q: nat, size: nat, r: nat, u: nat)
    requires BlocksSwapped(s, t, p, q, size) && r + size <= |s|
    requires (r == p && u == q) || (r == q && u == p) || (r == u && Apart(r, p, size) && Apart(r, q, size))
    ensures u + size <= |s| && t[r..r + size] == s[u..u + size]
  {
    if r == u && Apart(r, p, size) && Apart(r, q, size) {
      BlockKept(s, t, p, q, size, r);
    }
  }

  lemma PieceSwapped(s: seq<Byte>, t: seq<Byte>, size: nat, n: nat, i: nat, j: nat, m: nat)
    requires Room(|s|, size, n) && i < n && j < n && m < n && BlocksSwapped(s, t, i * size, j * size, size)
    ensures Piece(t, size, m) == Piece(s, size, if m == i then j else if m == j then i else m)
  {
    var source := if m == i then j else if m == j then i else m;
    var p, q, r, u := i * size, j * size, m * size, source * size;
    assert |s| == |t|;
    hide *;
    PieceIs(s, size, n, source, u);
    PieceIs(t, size, n, m, r);
    Separate(m, i, size);
    Separate(m, j, size);
    SliceSwapped(s, t, p, q, size, r, u);
  }

  lemma Separate(i: nat, j: nat, size: nat)
    ensures i == j || Apart(i * size, j * size, size)
  {
    Disjoint(i, j, size);
  }

  lemma BlocksFrom(s: seq<Byte>, t: seq<Byte>, p: nat, q: nat, size: nat)
    requires p + size <= |s| == |t| && q + size <= |s|
    requires forall k | p <= k < p + size :: t[k] == s[k - p + q]
    requires forall k | q <= k < q + size :: t[k] == s[k - q + p]
    requires forall k | 0 <= k < |s| && !(p <= k < p + size) && !(q <= k < q + size) :: t[k] == s[k]
    ensures BlocksSwapped(s, t, p, q, size)
  {
  }

  method SwapBytes(base: array<Byte>, p: nat, q: nat, size: nat)
    requires p + size <= base.Length && q + size <= base.Length
    requires p == q || Apart(p, q, size)
    modifies base
    ensures BlocksSwapped(old(base[..]), base[..], p, q, size)
  {
    hide BlocksSwapped;
    ghost var s := base[..];
    for i := 0 to size
      invariant forall k | p <= k < p + i :: base[k] == s[k - p + q]
      invariant forall k | q <= k < q + i :: base[k] == s[k - q + p]
      invariant forall k | 0 <= k < base.Length && !(p <= k < p + i) && !(q <= k < q + i) :: base[k] == s[k]
    {
      var t := base[p + i];
      base[p + i] := base[q + i];
      base[q + i] := t;
    }
    BlocksFrom(s, base[..], p, q, size);
  }

  method SwapElements(base: array<Byte>, i: nat, j: nat, size: nat, ghost n: nat)
    requires Room(base.Length, size, n) && i < n && j < n
    modifies base
    ensures Elements(base[..], size, n) == Swapped(Elements(old(base[..]), size, n), i, j)
    ensures Tail(base[..], size, n) == Tail(old(base[..]), size, n)
  {
    hide *;
    ghost var s := base[..];
    var p, q := i * size, j * size;
    PieceIs(s, size, n, i, p);
    PieceIs(s, size, n, j, q);
    Separate(i, j, size);
    SwapBytes(base, p, q, size);
    ElementsSwapped(s, base[..], size, n, i, j);
  }

  method Compare(base: array<Byte>, i: nat, j: nat, size: nat, ghost n: nat, compare: (Element, Element) -> int)
    returns (r: int)
    requires Room(base.Length, size, n) && i < n && j < n
    ensures r == compare(Elements(base[..], size, n)[i], Elements(base[..], size, n)[j])
  {
    hide *;
    var p, q := i * size, j * size;
    PieceIs(base[..], size, n, i, p);
    PieceIs(base[..], size, n, j, q);
    var x, y := base[p..p + size], base[q..q + size];
    assert x == base[..][p..p + size] && y == base[..][q..q + size];
    r := compare(x, y);
  }

  // ---- Sorting ------------------------------------------------------------------------------

  method SwapIf(base: array<Byte>, i: nat, j: nat, size: nat, ghost n: nat, compare: (Element, Element) -> int,
                ghost a: nat, ghost b: nat)
    requires Room(base.Length, size, n) && a <= i < b <= n && a <= j < b
    modifies base
    ensures Moved(Elements(old(base[..]), size, n), Elements(base[..], size, n), a, b)
    ensures Tail(base[..], size, n) == Tail(old(base[..]), size, n)
  {
    var r := Compare(base, i, j, size, n, compare);
    hide Elements, Tail;
    if r > 0 {
      SwapMoves(Elements(base[..], size, n), i, j, a, b);
      SwapElements(base, i, j, size, n);
    }
  }

  /** Orders the first, middle and last element, then puts the middle one last as the pivot. The
      middle may be the first element itself. */
  method MedianOfThree(base: array<Byte>, lo: nat, hi: nat, size: nat, ghost n: nat, compare: (Element, Element) -> int)
    requires Room(base.Length, size, n) && lo < hi < n
    modifies base
    ensures Moved(Elements(old(base[..]), size, n), Elements(base[..], size, n), lo, hi + 1)
    ensures Tail(base[..], size, n) == Tail(old(base[..]), size, n)
  {
    hide *;
    var mid := lo + (hi - lo) / 2;
    ghost var e0 := Elements(base[..], size, n);
    SwapIf(base, lo, hi, size, n, compare, lo, hi + 1);
    ghost var e1 := Elements(base[..], size, n);
    SwapIf(base, mid, hi, size, n, compare, lo, hi + 1);
    ghost var e2 := Elements(base[..], size, n);
    MovedBack(e0, e1, e2, lo, hi + 1);
    SwapIf(base, lo, mid, size, n, compare, lo, hi + 1);
    ghost var e3 := Elements(base[..], size, n);
    MovedBack(e0, e2, e3, lo, hi + 1);
    SwapMoves(e3, mid, hi, lo, hi + 1);
    SwapElements(base, mid, hi, size, n);
    MovedBack(e0, e3, Swapped(e3, mid, hi), lo, hi + 1);
  }

  /** Below the pivot up to `store`, not below it from there to `i`. */
  ghost predicate Parted(compare: (Element, Element) -> int, e: seq<Element>, lo: nat, store: nat, i: nat, hi: nat,
                         pivot: Element)
  {
    && lo <= store <= i <= hi < |e| && e[hi] == pivot
    && (forall k | lo <= k < store :: compare(e[k], pivot) < 0)
    && (forall k | store <= k < i :: compare(e[k], pivot) >= 0)
  }

  lemma PartedStep(compare: (Element, Element) -> int, e: seq<Element>, lo: nat, store: nat, i: nat, hi: nat,
                   pivot: Element)
    requires Parted(compare, e, lo, store, i, hi, pivot) && i < hi
    ensures compare(e[i], pivot) >= 0 ==> Parted(compare, e, lo, store, i + 1, hi, pivot)
    ensures compare(e[i], pivot) < 0 ==> Parted(compare, Swapped(e, store, i), lo, store + 1, i + 1, hi, pivot)
  {
  }

  /** The pivot in place, with the elements below it on its left and the others on its right. */
  ghost predicate Split(compare: (Element, Element) -> int, e: seq<Element>, lo: nat, store: nat, hi: nat) {
    && lo <= store <= hi < |e|
    && (forall k | lo <= k < store :: compare(e[k], e[store]) < 0)
    && (forall k | store < k <= hi :: compare(e[k], e[store]) >= 0)
  }

  lemma PartedEnds(compare: (Element, Element) -> int, e: seq<Element>, lo: nat, store: nat, hi: nat, pivot: Element)
    requires Parted(compare, e, lo, store, hi, hi, pivot)
    ensures Split(compare, Swapped(e, store, hi), lo, store, hi)
  {
  }

  lemma NothingParted(compare: (Element, Element) -> int, e: seq<Element>, lo: nat, hi: nat)
    requires lo <= hi < |e|
    ensures Parted(compare, e, lo, lo, lo, hi, e[hi])
    ensures Moved(e, e, lo, hi + 1)
  {
  }

  lemma PartedBounds(compare: (Element, Element) -> int, e: seq<Element>, lo: nat, store: nat, i: nat, hi: nat,
                     pivot: Element)
    requires Parted(compare, e, lo, store, i, hi, pivot)
    ensures lo <= store <= i <= hi < |e| && e[hi] == pivot
  {
  }

  /** Lomuto's partition around the last element. */
  method Partition(base: array<Byte>, lo: nat, hi: nat, size: nat, ghost n: nat, compare: (Element, Element) -> int)
    returns (store: nat)
    requires Room(base.Length, size, n) && lo < hi < n
    modifies base
    ensures lo <= store <= hi
    ensures Moved(Elements(old(base[..]), size, n), Elements(base[..], size, n), lo, hi + 1)
    ensures Tail(base[..], size, n) == Tail(old(base[..]), size, n)
    ensures Split(compare, Elements(base[..], size, n), lo, store, hi)
  {
    hide *;
    ghost var first, e := Elements(base[..], size, n), Elements(base[..], size, n);
    ghost var pivot := first[hi];
    store := lo;
    NothingParted(compare, first, lo, hi);
    for i := lo to hi
      invariant lo <= store <= i && |e| == n && e == Elements(base[..], size, n)
      invariant Moved(first, e, lo, hi + 1)
      invariant Tail(base[..], size, n) == Tail(old(base[..]), size, n)
      invariant Parted(compare, e, lo, store, i, hi, pivot)
    {
      PartedBounds(compare, e, lo, store, i, hi, pivot);
      PartedStep(compare, e, lo, store, i, hi, pivot);
      var r := Compare(base, i, hi, size, n, compare);
      if r < 0 {
        SwapMoves(e, store, i, lo, hi + 1);
        MovedBack(first, e, Swapped(e, store, i), lo, hi + 1);
        SwapElements(base, store, i, size, n);
        store, e := store + 1, Swapped(e, store, i);
      }
    }
    PartedEnds(compare, e, lo, store, hi, pivot);
    SwapMoves(e, store, hi, lo, hi + 1);
    MovedBack(first, e, Swapped(e, store, hi), lo, hi + 1);
    SwapElements(base, store, hi, size, n);
  }

  /** Every ordered pair of [first..last) is in order, except pairs inside either of two parts. */
  ghost predicate OrderedBut(compare: (Element, Element) -> int, e: seq<Element>, first: nat, last: nat,
                             a: nat, b: nat, c: nat, d: nat)
  {
    last <= |e| && forall x, y | first <= x < y < last && !(a <= x && y < b) && !(c <= x && y < d) ::
      compare(e[x], e[y]) <= 0
  }

  /** A pair that crosses the pivot is in order by transitivity. */
  lemma AcrossPivot(compare: (Element, Element) -> int, e: seq<Element>, size: nat, lo: nat, store: nat, hi: nat,
                    x: nat, y: nat)
    requires Preorder(compare, size) && Sized(e, size) && Split(compare, e, lo, store, hi)
    requires lo <= x <= store <= y <= hi && x < y
    ensures compare(e[x], e[y]) <= 0
  {
    assert |e[x]| == |e[y]| == |e[store]| == size;
    assert x < store ==> compare(e[x], e[store]) <= 0;
    assert y > store ==> compare(e[y], e[store]) >= 0 && compare(e[store], e[y]) <= 0;
  }

  /** A pair with an end outside the window was in order and still is. */
  lemma OutsidePair(compare: (Element, Element) -> int, s: seq<Element>, e: seq<Element>,
                    first: nat, last: nat, lo: nat, hi: nat, x: nat, y: nat)
    requires first <= lo <= hi <= last <= |s| && Moved(s, e, lo, hi) && first <= x < y < last
    requires !(lo <= x && y < hi) && OrderedOutside(compare, s, first, last, lo, hi)
    ensures compare(e[x], e[y]) <= 0
  {
    assert |e| == |s|;
    hide Moved;
    var p := MovedFrom(s, e, lo, hi, x);
    var q := MovedFrom(s, e, lo, hi, y);
  }

  /** After a partition every pair across the pivot is in order. */
  lemma PartitionOrders(compare: (Element, Element) -> int, s: seq<Element>, e: seq<Element>, size: nat,
                        first: nat, last: nat, lo: nat, hi: nat, store: nat)
    requires Preorder(compare, size) && Sized(e, size) && Split(compare, e, lo, store, hi)
    requires first <= lo && hi < last <= |s| && Moved(s, e, lo, hi + 1)
    requires OrderedOutside(compare, s, first, last, lo, hi + 1)
    ensures OrderedBut(compare, e, first, last, lo, store, store + 1, hi + 1)
  {
    assert |e| == |s| && lo <= store <= hi;
    hide Preorder, Sized, Moved, Split, OrderedOutside;
    forall x, y | first <= x < y < last && !(lo <= x && y < store) && !(store + 1 <= x && y < hi + 1)
      ensures compare(e[x], e[y]) <= 0
    {
      if lo <= x && y <= hi {
        AcrossPivot(compare, e, size, lo, store, hi, x, y);
      } else {
        OutsidePair(compare, s, e, first, last, lo, hi + 1, x, y);
      }
    }
  }

  /** Sorting one of the two parts leaves only the other one out of order. */
  lemma PartSorted(compare: (Element, Element) -> int, s: seq<Element>, t: seq<Element>, first: nat, last: nat,
                   a: nat, b: nat, c: nat, d: nat)
    requires first <= a <= b <= last <= |s| && first <= c && d <= last && Moved(s, t, a, b)
    requires b <= c || d <= a
    requires OrderedBut(compare, s, first, last, a, b, c, d) || OrderedBut(compare, s, first, last, c, d, a, b)
    requires Sorted(compare, t[a..b])
    ensures OrderedOutside(compare, t, first, last, c, d)
  {
    forall x, y | first <= x < y < last && !(c <= x && y < d) ensures compare(t[x], t[y]) <= 0 {
      if a <= x && y < b {
        assert t[x] == t[a..b][x - a] && t[y] == t[a..b][y - a];
      } else {
        hide Moved;
        var p := MovedFrom(s, t, a, b, x);
        var q := MovedFrom(s, t, a, b, y);
      }
    }
  }

  lemma SideSorted(compare: (Element, Element) -> int, s: seq<Element>, t: seq<Element>, first: nat, last: nat,
                   a: nat, b: nat, c: nat, d: nat)
    requires first <= a <= b <= last <= |s| && first <= c && d <= last && Moved(s, t, a, b)
    requires b <= c || d <= a
    ensures (OrderedBut(compare, s, first, last, a, b, c, d) || OrderedBut(compare, s, first, last, c, d, a, b))
            && Sorted(compare, t[a..b])
            ==> OrderedOutside(compare, t, first, last, c, d)
  {
    hide OrderedBut, Sorted, OrderedOutside;
    if (OrderedBut(compare, s, first, last, a, b, c, d) || OrderedBut(compare, s, first, last, c, d, a, b))
       && Sorted(compare, t[a..b]) {
      PartSorted(compare, s, t, first, last, a, b, c, d);
    }
  }

  /** At the start the whole range may be out of order; a window of one element exempts nothing. */
  lemma Windows(compare: (Element, Element) -> int, e: seq<Element>, first: nat, last: nat, lo: nat)
    requires first <= last <= |e|
    ensures OrderedOutside(compare, e, first, last, first, last) && Moved(e, e, first, last)
    ensures OrderedOutside(compare, e, first, last, lo, lo) ==> OrderedOutside(compare, e, first, last, lo, lo + 1)
  {
  }

  lemma AllOrdered(compare: (Element, Element) -> int, e: seq<Element>, first: nat, last: nat, lo: nat, hi: nat)
    requires first <= last <= |e| && hi <= lo + 1 && OrderedOutside(compare, e, first, last, lo, hi)
    ensures Sorted(compare, e[first..last])
  {
  }

  /** Median of three, then partition: the window falls into two sides around the pivot. */
  method PartitionWindow(base: array<Byte>, lo: nat, hi: nat, size: nat, ghost n: nat,
                         compare: (Element, Element) -> int, ghost first: nat, ghost last: nat)
    returns (store: nat)
    requires Room(base.Length, size, n) && first <= lo < hi < last <= n
    modifies base
    ensures lo <= store <= hi
    ensures Moved(Elements(old(base[..]), size, n), Elements(base[..], size, n), first, last)
    ensures Tail(base[..], size, n) == Tail(old(base[..]), size, n)
    ensures Preorder(compare, size) && OrderedOutside(compare, Elements(old(base[..]), size, n), first, last, lo, hi + 1)
            ==> OrderedBut(compare, Elements(base[..], size, n), first, last, lo, store, store + 1, hi + 1)
  {
    hide *;
    ghost var e0 := Elements(base[..], size, n);
    MedianOfThree(base, lo, hi, size, n, compare);
    ghost var e1 := Elements(base[..], size, n);
    store := Partition(base, lo, hi, size, n, compare);
    ghost var e2 := Elements(base[..], size, n);
    MovedBack(e0, e1, e2, lo, hi + 1);
    ElementsSized(base[..], size, n);
    if Preorder(compare, size) && OrderedOutside(compare, e0, first, last, lo, hi + 1) {
      PartitionOrders(compare, e0, e2, size, first, last, lo, hi, store);
    }
    MovedWider(e0, e2, first, last, lo, hi + 1);
  }

  /** One turn of the loop: partition the window and sort one side of it. The side left over is the
      window of the next turn. */
  method Turn(base: array<Byte>, lo: nat, hi: nat, size: nat, ghost n: nat, compare: (Element, Element) -> int,
              ghost first: nat, ghost last: nat) returns (lo': nat, hi': nat)
    requires Room(base.Length, size, n) && first <= lo < hi < last <= n
    modifies base
    ensures Moved(Elements(old(base[..]), size, n), Elements(base[..], size, n), first, last)
    ensures Tail(base[..], size, n) == Tail(old(base[..]), size, n)
    ensures lo <= lo' <= hi' + 1 && hi' <= hi && hi' - lo' < hi - lo
    ensures Preorder(compare, size) && OrderedOutside(compare, Elements(old(base[..]), size, n), first, last, lo, hi + 1)
            ==> OrderedOutside(compare, Elements(base[..], size, n), first, last, lo', hi' + 1)
    decreases hi + 1 - lo, 0
  {
    hide *;
    ghost var e0 := Elements(base[..], size, n);
    var store := PartitionWindow(base, lo, hi, size, n, compare, first, last);
    ghost var e2 := Elements(base[..], size, n);
    if store > lo && store - lo < hi - store {
      Sort(base, lo, store - 1, size, n, compare);
      ghost var e3 := Elements(base[..], size, n);
      SideSorted(compare, e2, e3, first, last, lo, store, store + 1, hi + 1);
      MovedWider(e2, e3, first, last, lo, store);
      lo', hi' := store + 1, hi;
    } else {
      Sort(base, store + 1, hi, size, n, compare);
      ghost var e3 := Elements(base[..], size, n);
      SideSorted(compare, e2, e3, first, last, store + 1, hi + 1, lo, store);
      MovedWider(e2, e3, first, last, store + 1, hi + 1);
      Windows(compare, e3, first, last, lo);
      lo', hi' := lo, if store == lo then lo else store - 1;
    }
    MovedBack(e0, e2, Elements(base[..], size, n), first, last);
  }

  /** Sorts [lo0..hi0]; `hi0` may be one below `lo0`, which is an empty range. The bounds never go
      below zero, it ends for any comparator, any comparator gives a rearrangement, and a total
      preorder gives a sorted one. */
  method Sort(base: array<Byte>, lo0: nat, hi0: nat, size: nat, ghost n: nat, compare: (Element, Element) -> int)
    requires Room(base.Length, size, n) && lo0 <= hi0 + 1 && hi0 < n
    modifies base
    ensures Moved(Elements(old(base[..]), size, n), Elements(base[..], size, n), lo0, hi0 + 1)
    ensures Tail(base[..], size, n) == Tail(old(base[..]), size, n)
    ensures Preorder(compare, size) ==> Sorted(compare, Elements(base[..], size, n)[lo0..hi0 + 1])
    decreases hi0 + 1 - lo0, 1
  {
    hide *;
    ghost var first := Elements(base[..], size, n);
    Windows(compare, first, lo0, hi0 + 1, lo0);
    var lo, hi := lo0, hi0;
    while lo < hi
      invariant lo0 <= lo <= hi + 1 && hi <= hi0
      invariant Moved(first, Elements(base[..], size, n), lo0, hi0 + 1)
      invariant Tail(base[..], size, n) == Tail(old(base[..]), size, n)
      invariant Preorder(compare, size) ==>
                  OrderedOutside(compare, Elements(base[..], size, n), lo0, hi0 + 1, lo, hi + 1)
      decreases hi + 1 - lo
    {
      ghost var e := Elements(base[..], size, n);
      lo, hi := Turn(base, lo, hi, size, n, compare, lo0, hi0 + 1);
      MovedBack(first, e, Elements(base[..], size, n), lo0, hi0 + 1);
    }
    if Preorder(compare, size) {
      AllOrdered(compare, Elements(base[..], size, n), lo0, hi0 + 1, lo, hi + 1);
    }
  }

  /** `qsort`: fewer than two elements, or elements of no bytes, are left alone. */
  method Qsort(base: array<Byte>, count: nat, size: nat, compare: (Element, Element) -> int)
    requires Room(base.Length, size, count)
    modifies base
    ensures multiset(Elements(base[..], size, count)) == multiset(Elements(old(base[..]), size, count))
    ensures Tail(base[..], size, count) == Tail(old(base[..]), size, count)
    ensures Preorder(compare, size) ==> Sorted(compare, Elements(base[..], size, count))
    ensures count < 2 || size == 0 ==> base[..] == old(base[..])
  {
    if count < 2 || size == 0 {
      NothingToSort(compare, base[..], size, count);
      return;
    }
    ghost var before := Elements(base[..], size, count);
    hide *;
    Sort(base, 0, count - 1, size, count, compare);
    ghost var after := Elements(base[..], size, count);
    WholeRange(before, after);
  }

  lemma WholeRange(s: seq<Element>, t: seq<Element>)
    requires |s| == |t| && Moved(s, t, 0, |s|)
    ensures multiset(s) == multiset(t) && t[0..|t|] == t
  {
    assert s[0..|s|] == s && t[0..|s|] == t;
  }

  /** Elements of no bytes are all the same element. */
  lemma NothingToSort(compare: (Element, Element) -> int, bytes: seq<Byte>, size: nat, n: nat)
    requires Room(|bytes|, size, n) && (n < 2 || size == 0)
    ensures Preorder(compare, size) ==> Sorted(compare, Elements(bytes, size, n))
  {
    ElementsSized(bytes, size, n);
    if Preorder(compare, size) && size == 0 {
      var e := Elements(bytes, size, n);
      forall x, y | 0 <= x < y < n ensures compare(e[x], e[y]) <= 0 {
        assert e[x] == [] && e[y] == [];
      }
    }
  }
}
