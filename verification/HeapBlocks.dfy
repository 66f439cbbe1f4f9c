/** The PortKit heap seen as a list of blocks that tile the arena: what one allocation and one
    release do to that list, and why they undo each other. */
module HeapBlocks {
  /** sizeof(struct port_block): three 8-byte words and a flag, padded to 16. */
  const HEADER: nat := 32
  const SMALLEST: nat := 16
  const SIZE_MAX: nat := 0xFFFF_FFFF_FFFF_FFFF

  datatype Block = Block(size: nat, free: bool)

  /** Offset of the header of block `i`, for 0 <= i <= |bs|. */
  ghost function Addr(bs: seq<Block>, i: nat): (a: nat)
    requires i <= |bs|
    ensures i == 0 ==> a == 0
  {
    if i == 0 then 0 else Addr(bs, i - 1) + HEADER + bs[i - 1].size
  }

  ghost function UsedSum(bs: seq<Block>): nat {
    if |bs| == 0 then 0
    else UsedSum(bs[..|bs| - 1]) + if bs[|bs| - 1].free then 0 else bs[|bs| - 1].size
  }

  ghost predicate NoFreeNeighbours(bs: seq<Block>) {
    forall i | 0 <= i < |bs| - 1 :: !(bs[i].free && bs[i + 1].free)
  }

  /** Every header sits on a 16-byte boundary. */
  ghost predicate Aligned(bs: seq<Block>) {
    && (forall i | 0 <= i < |bs| :: bs[i].size >= SMALLEST)
    && (forall i | 0 <= i < |bs| - 1 :: bs[i].size % 16 == 0)
  }

  /** The blocks fill an arena of `total` bytes without gaps or overlaps. */
  ghost predicate Tiles(bs: seq<Block>, total: nat) {
    |bs| > 0 && Addr(bs, |bs|) == total && NoFreeNeighbours(bs) && Aligned(bs)
  }

  // ----- malloc -----

  /** aligned_size: 0 for a request that is 0 or too large to round up. */
  function AlignedSize(size: nat): (r: nat)
    ensures r % 16 == 0
    ensures 0 < size <= SIZE_MAX - 15 ==> size <= r < size + 16
    ensures size == 0 || size > SIZE_MAX - 15 ==> r == 0
  {
    if size > SIZE_MAX - 15 then 0 else (size + 15) / 16 * 16
  }

  predicate Fits(b: Block, needed: nat) { b.free && b.size >= needed }

  /** First fit from block `i` on; |bs| when there is none. */
  function FirstFit(bs: seq<Block>, needed: nat, i: nat): (r: nat)
    requires i <= |bs|
    ensures i <= r <= |bs|
    ensures r < |bs| ==> Fits(bs[r], needed)
    ensures forall j | i <= j < r :: !Fits(bs[j], needed)
    decreases |bs| - i
  {
    if i == |bs| || Fits(bs[i], needed) then i else FirstFit(bs, needed, i + 1)
  }

  predicate Splits(b: Block, needed: nat) { b.size >= needed + HEADER + SMALLEST }

  function Take(bs: seq<Block>, i: nat, needed: nat): seq<Block>
    requires i < |bs| && bs[i].size >= needed
  {
    if Splits(bs[i], needed)
    then bs[..i] + [Block(needed, false), Block(bs[i].size - needed - HEADER, true)] + bs[i + 1..]
    else bs[i := Block(bs[i].size, false)]
  }

  /** Block `i` handed out for `needed` bytes: a block with room for another one behind it is cut to
      exactly that size and the rest stays a free block; a shorter one is handed out whole, so fewer
      than 48 bytes are given away. */
  ghost predicate Trimmed(bs: seq<Block>, cs: seq<Block>, i: nat, needed: nat) {
    && i < |bs| && i < |cs| && !cs[i].free && needed <= cs[i].size < needed + 48
    && if bs[i].size < needed + 48 then cs == bs[i := Block(bs[i].size, false)]
       else && cs[i].size == needed && |cs| == |bs| + 1
            && cs[i + 1] == Block(bs[i].size - needed - 32, true)
            && cs[..i] == bs[..i] && cs[i + 2..] == bs[i + 1..]
  }

  lemma TakeTrims(bs: seq<Block>, i: nat, needed: nat)
    requires i < |bs| && Fits(bs[i], needed)
    ensures Trimmed(bs, Take(bs, i, needed), i, needed)
  {
  }

  // ----- free -----

  function JoinNext(bs: seq<Block>, i: nat): seq<Block>
    requires i < |bs|
  {
    if i + 1 < |bs| && bs[i + 1].free
    then bs[..i] + [Block(bs[i].size + HEADER + bs[i + 1].size, bs[i].free)] + bs[i + 2..]
    else bs
  }

  function Give(bs: seq<Block>, i: nat): seq<Block>
    requires i < |bs|
  {
    var joined := JoinNext(Marked(bs, i), i);
    if i > 0 && joined[i - 1].free then JoinNext(joined, i - 1) else joined
  }

  // ----- addresses -----

  lemma {:induction false} AddrMono(bs: seq<Block>, i: nat, j: nat)
    requires i <= j <= |bs|
    ensures Addr(bs, i) <= Addr(bs, j)
    ensures i < j ==> Addr(bs, i) + HEADER + bs[i].size <= Addr(bs, j)
    decreases j
  {
    if i < j { AddrMono(bs, i, j - 1); }
  }

  lemma {:induction false} AddrPrefix(xs: seq<Block>, ys: seq<Block>, i: nat)
    requires i <= |xs|
    ensures Addr(xs + ys, i) == Addr(xs, i)
  {
    if i > 0 { AddrPrefix(xs, ys, i - 1); }
  }

  lemma {:induction false} AddrConcat(xs: seq<Block>, ys: seq<Block>, n: nat)
    requires n <= |ys|
    ensures Addr(xs + ys, |xs| + n) == Addr(xs, |xs|) + Addr(ys, n)
  {
    if n > 0 { AddrConcat(xs, ys, n - 1); } else { AddrPrefix(xs, ys, |xs|); }
  }

  lemma {:induction false} UsedConcat(xs: seq<Block>, ys: seq<Block>)
    ensures UsedSum(xs + ys) == UsedSum(xs) + UsedSum(ys)
    decreases |ys|
  {
    if |ys| == 0 {
      assert xs + ys == xs;
    } else {
      var front := ys[..|ys| - 1];
      UsedConcat(xs, front);
      assert (xs + ys)[..|xs + ys| - 1] == xs + front;
    }
  }

  lemma UsedOne(b: Block)
    ensures UsedSum([b]) == (if b.free then 0 else b.size) && Addr([b], 1) == HEADER + b.size
  {
    assert [b][..0] == [];
  }

  lemma UsedTwo(b: Block, c: Block)
    ensures UsedSum([b, c]) == (if b.free then 0 else b.size) + (if c.free then 0 else c.size)
    ensures Addr([b, c], 2) == HEADER + b.size + HEADER + c.size
  {
    assert [b, c][..1] == [b];
    UsedOne(b);
    assert Addr([b, c], 1) == HEADER + b.size;
  }

  lemma {:induction false} UsedAtMost(bs: seq<Block>)
    ensures UsedSum(bs) <= Addr(bs, |bs|)
    decreases |bs|
  {
    if |bs| > 0 {
      var front := bs[..|bs| - 1];
      UsedAtMost(front);
      AddrPrefix(front, [bs[|bs| - 1]], |front|);
      assert bs == front + [bs[|bs| - 1]];
    }
  }

  /** Replacing a stretch of blocks by another of the same length in bytes moves nothing else. */
  lemma ExchangeAt(xs: seq<Block>, a: seq<Block>, b: seq<Block>, ys: seq<Block>, j: nat, k: nat)
    requires Addr(a, |a|) == Addr(b, |b|)
    requires (j <= |xs| && k == j) || (|xs| + |a| <= j <= |xs + a + ys| && k == j - |a| + |b|)
    ensures k <= |xs + b + ys| && Addr(xs + a + ys, j) == Addr(xs + b + ys, k)
  {
    if j <= |xs| && k == j {
      ExchangeBefore(xs, a, ys, j);
      ExchangeBefore(xs, b, ys, j);
    } else {
      ExchangeAfter(xs, a, ys, j - |xs| - |a|);
      ExchangeAfter(xs, b, ys, j - |xs| - |a|);
    }
  }

  lemma ExchangeUsed(xs: seq<Block>, a: seq<Block>, b: seq<Block>, ys: seq<Block>)
    ensures UsedSum(xs + a + ys) - UsedSum(a) == UsedSum(xs + b + ys) - UsedSum(b)
  {
    UsedConcat(xs + a, ys);
    UsedConcat(xs, a);
    UsedConcat(xs + b, ys);
    UsedConcat(xs, b);
  }

  lemma ExchangeBefore(xs: seq<Block>, a: seq<Block>, ys: seq<Block>, j: nat)
    requires j <= |xs|
    ensures Addr(xs + a + ys, j) == Addr(xs, j)
  {
    assert xs + a + ys == xs + (a + ys);
    AddrPrefix(xs, a + ys, j);
  }

  lemma ExchangeAfter(xs: seq<Block>, a: seq<Block>, ys: seq<Block>, j: nat)
    requires j <= |ys|
    ensures Addr(xs + a + ys, |xs| + |a| + j) == Addr(xs, |xs|) + Addr(a, |a|) + Addr(ys, j)
  {
    AddrConcat(xs + a, ys, j);
    AddrConcat(xs, a, |a|);
  }

  // ----- what one allocation keeps -----

  /** The block that malloc puts in place of block `i`: one block, or the used part and the rest. */
  function Carved(b: Block, needed: nat): seq<Block>
    requires b.size >= needed
  {
    if Splits(b, needed) then [Block(needed, false), Block(b.size - needed - HEADER, true)]
    else [Block(b.size, false)]
  }

  /** Where block `j` of the old list is in the new one. */
  function TakeIndex(bs: seq<Block>, i: nat, needed: nat, j: nat): nat
    requires i < |bs|
  {
    if j > i && Splits(bs[i], needed) then j + 1 else j
  }

  lemma TakeIsExchange(bs: seq<Block>, i: nat, needed: nat)
    requires i < |bs| && Fits(bs[i], needed)
    ensures var mid := Carved(bs[i], needed);
            && Take(bs, i, needed) == bs[..i] + mid + bs[i + 1..]
            && bs == bs[..i] + [bs[i]] + bs[i + 1..]
            && Addr(mid, |mid|) == HEADER + bs[i].size && Addr([bs[i]], 1) == HEADER + bs[i].size
            && UsedSum(mid) == mid[0].size && UsedSum([bs[i]]) == 0
  {
    var mid := Carved(bs[i], needed);
    UsedOne(bs[i]);
    if |mid| == 2 { UsedTwo(mid[0], mid[1]); } else { UsedOne(mid[0]); }
  }

  lemma TakeNeighbours(bs: seq<Block>, i: nat, needed: nat)
    requires NoFreeNeighbours(bs) && Aligned(bs) && i < |bs| && Fits(bs[i], needed)
    requires needed % 16 == 0 && needed >= SMALLEST
    ensures NoFreeNeighbours(Take(bs, i, needed)) && Aligned(Take(bs, i, needed))
  {
    var cs := Take(bs, i, needed);
    if Splits(bs[i], needed) {
      assert forall j | i + 1 < j < |cs| :: cs[j] == bs[j - 1];
    }
  }

  /** The new list tiles the arena and its used bytes grew by the block handed out. */
  lemma TakeTiles(bs: seq<Block>, i: nat, needed: nat, total: nat)
    requires Tiles(bs, total) && i < |bs| && Fits(bs[i], needed) && needed % 16 == 0 && needed >= SMALLEST
    ensures var cs := Take(bs, i, needed);
            Tiles(cs, total) && !cs[i].free && cs[i].size >= needed && UsedSum(cs) == UsedSum(bs) + cs[i].size
  {
    TakeNeighbours(bs, i, needed);
    TakeKeeps(bs, i, needed, |bs|);
    TakeIsExchange(bs, i, needed);
    ExchangeUsed(bs[..i], [bs[i]], Carved(bs[i], needed), bs[i + 1..]);
  }

  /** No other block moves or changes. */
  lemma TakeKeeps(bs: seq<Block>, i: nat, needed: nat, j: nat)
    requires i < |bs| && Fits(bs[i], needed) && j <= |bs|
    ensures var cs := Take(bs, i, needed);
            var k := TakeIndex(bs, i, needed, j);
            k <= |cs| && Addr(cs, k) == Addr(bs, j) && (j < |bs| && j != i ==> k < |cs| && cs[k] == bs[j])
  {
    TakeIsExchange(bs, i, needed);
    ExchangeAt(bs[..i], [bs[i]], Carved(bs[i], needed), bs[i + 1..], j, TakeIndex(bs, i, needed, j));
  }

  lemma FreeStandsAlone(bs: seq<Block>, j: nat)
    requires NoFreeNeighbours(bs) && j + 1 < |bs| && bs[j].free
    ensures !bs[j + 1].free
  {
  }

  /** A failed search means no run of free blocks, even merged, could hold the request. */
  lemma NoRunFits(bs: seq<Block>, needed: nat, j: nat, k: nat)
    requires NoFreeNeighbours(bs) && FirstFit(bs, needed, 0) == |bs|
    requires j <= k < |bs| && forall x | j <= x <= k :: bs[x].free
    ensures Addr(bs, k + 1) - Addr(bs, j) - HEADER < needed
  {
    if j < k {
      FreeStandsAlone(bs, j);
      assert false;
    } else {
      assert !Fits(bs[j], needed);
    }
  }

  // ----- what one release keeps -----

  lemma JoinIsExchange(bs: seq<Block>, i: nat)
    requires i + 1 < |bs| && bs[i].free && bs[i + 1].free
    ensures var mid := [Block(bs[i].size + HEADER + bs[i + 1].size, true)];
            && JoinNext(bs, i) == bs[..i] + mid + bs[i + 2..]
            && bs == bs[..i] + [bs[i], bs[i + 1]] + bs[i + 2..]
            && Addr(mid, 1) == Addr([bs[i], bs[i + 1]], 2)
            && UsedSum(mid) == UsedSum([bs[i], bs[i + 1]]) == 0
  {
    UsedTwo(bs[i], bs[i + 1]);
    UsedOne(Block(bs[i].size + HEADER + bs[i + 1].size, true));
  }

  lemma JoinAt(bs: seq<Block>, i: nat, j: nat)
    requires i < |bs| && j < |JoinNext(bs, i)|
    ensures var cs := JoinNext(bs, i); var joins := i + 1 < |bs| && bs[i + 1].free;
            && |cs| == (if joins then |bs| - 1 else |bs|)
            && (j != i ==> cs[j] == bs[if joins && j > i then j + 1 else j])
            && (j == i ==> cs[j].size == bs[i].size + if joins then HEADER + bs[i + 1].size else 0)
  {
  }

  lemma JoinAligned(bs: seq<Block>, i: nat)
    requires i < |bs| && Aligned(bs)
    ensures var cs := JoinNext(bs, i); Aligned(cs) && i < |cs| && cs[..i] == bs[..i]
  {
    var cs := JoinNext(bs, i);
    JoinAt(bs, i, 0);
    forall j | 0 <= j < |cs| ensures cs[j].size >= SMALLEST && (j < |cs| - 1 ==> cs[j].size % 16 == 0) {
      JoinAt(bs, i, j);
    }
  }

  /** Joining block `i` with its free right neighbour. */
  lemma JoinTiles(bs: seq<Block>, i: nat)
    requires i < |bs| && bs[i].free && Aligned(bs)
    ensures var cs := JoinNext(bs, i);
            && Aligned(cs) && Addr(cs, |cs|) == Addr(bs, |bs|) && UsedSum(cs) == UsedSum(bs)
            && i < |cs| && cs[i].free && cs[..i] == bs[..i]
  {
    JoinAligned(bs, i);
    JoinKeepsBlock(bs, i, |bs|);
    hide Aligned, Addr;
    if i + 1 < |bs| && bs[i + 1].free {
      JoinIsExchange(bs, i);
      ExchangeUsed(bs[..i], [bs[i], bs[i + 1]], [Block(bs[i].size + HEADER + bs[i + 1].size, true)], bs[i + 2..]);
    }
  }

  /** Where block `j` (not the right neighbour) is after the join. */
  function JoinIndex(bs: seq<Block>, i: nat, j: nat): nat
    requires i < |bs|
  {
    if i + 1 < |bs| && bs[i + 1].free && j > i + 1 then j - 1 else j
  }

  lemma JoinKeepsBlock(bs: seq<Block>, i: nat, j: nat)
    requires i < |bs| && bs[i].free && j <= |bs| && (j == i + 1 < |bs| ==> !bs[j].free)
    ensures var cs := JoinNext(bs, i);
            var k := JoinIndex(bs, i, j);
            k <= |cs| && Addr(cs, k) == Addr(bs, j) && (j < |bs| && j != i ==> k < |cs| && cs[k] == bs[j])
  {
    if i + 1 < |bs| && bs[i + 1].free {
      JoinIsExchange(bs, i);
      ExchangeAt(bs[..i], [bs[i], bs[i + 1]], [Block(bs[i].size + HEADER + bs[i + 1].size, true)], bs[i + 2..],
                 j, JoinIndex(bs, i, j));
    }
  }

  function Marked(bs: seq<Block>, i: nat): seq<Block>
    requires i < |bs|
  {
    bs[i := Block(bs[i].size, true)]
  }

  lemma MarkKeeps(bs: seq<Block>, i: nat, j: nat)
    requires i < |bs| && !bs[i].free && j <= |bs|
    ensures UsedSum(bs) == UsedSum(Marked(bs, i)) + bs[i].size && Addr(Marked(bs, i), j) == Addr(bs, j)
  {
    var b := Block(bs[i].size, true);
    UsedOne(bs[i]);
    UsedOne(b);
    assert bs == bs[..i] + [bs[i]] + bs[i + 1..] && Marked(bs, i) == bs[..i] + [b] + bs[i + 1..];
    ExchangeUsed(bs[..i], [bs[i]], [b], bs[i + 1..]);
    ExchangeAt(bs[..i], [bs[i]], [b], bs[i + 1..], j, j);
  }

  lemma MarkAligned(bs: seq<Block>, i: nat)
    requires Aligned(bs) && i < |bs|
    ensures Aligned(Marked(bs, i)) && |Marked(bs, i)| == |bs| && Marked(bs, i)[i].free
  {
  }

  lemma NoFreeAlone(bs: seq<Block>, i: nat)
    requires i < |bs| && NoFreeBut(bs, i) && !(i > 0 && bs[i].free && bs[i - 1].free)
    ensures NoFreeNeighbours(bs)
  {
  }

  lemma GiveIs(bs: seq<Block>, i: nat)
    requires i < |bs|
    ensures i < |JoinNext(Marked(bs, i), i)|
    ensures var joined := JoinNext(Marked(bs, i), i);
            Give(bs, i) == if i > 0 && joined[i - 1].free then JoinNext(joined, i - 1) else joined
  {
  }

  /** After a release the list tiles the arena again and the used bytes shrank by the block. */
  lemma GiveTiles(bs: seq<Block>, i: nat, total: nat)
    requires Tiles(bs, total) && i < |bs| && !bs[i].free
    ensures Tiles(Give(bs, i), total) && UsedSum(bs) == UsedSum(Give(bs, i)) + bs[i].size
  {
    hide Aligned, NoFreeNeighbours, NoFreeBut, Addr, UsedSum, JoinNext, Marked, Give;
    MarkKeeps(bs, i, |bs|);
    MarkAligned(bs, i);
    var marked := Marked(bs, i);
    JoinTiles(marked, i);
    var joined := JoinNext(marked, i);
    NoFreeButAfterMark(bs, i);
    GiveIs(bs, i);
    if i > 0 && joined[i - 1].free {
      JoinTiles(joined, i - 1);
      NoFreeAfterJoin(joined, i);
    } else {
      NoFreeAlone(joined, i);
    }
  }

  lemma NoFreeButAfterMark(bs: seq<Block>, i: nat)
    requires NoFreeNeighbours(bs) && i < |bs| && !bs[i].free
    ensures NoFreeBut(JoinNext(Marked(bs, i), i), i)
  {
    var marked := Marked(bs, i);
    var joined := JoinNext(marked, i);
    forall j | 0 <= j < |joined| - 1 && j + 1 != i
      ensures !(joined[j].free && joined[j + 1].free)
    {
      if j < i { assert joined[j] == bs[j] && joined[j + 1] == bs[j + 1]; }
      else if |joined| < |bs| { assert joined[j + 1] == bs[j + 2] && !(bs[j + 1].free && bs[j + 2].free); }
      else { assert joined[j + 1] == bs[j + 1]; }
    }
  }

  /** The only free neighbours are block `i` and the one before it. */
  ghost predicate NoFreeBut(bs: seq<Block>, i: nat) {
    forall j | 0 <= j < |bs| - 1 && j + 1 != i :: !(bs[j].free && bs[j + 1].free)
  }

  lemma NoFreeAfterJoin(bs: seq<Block>, i: nat)
    requires 0 < i < |bs| && bs[i].free && bs[i - 1].free && NoFreeBut(bs, i)
    ensures NoFreeNeighbours(JoinNext(bs, i - 1))
  {
    var cs := JoinNext(bs, i - 1);
    forall j | 0 <= j < |cs| - 1
      ensures !(cs[j].free && cs[j + 1].free)
    {
      if j < i - 1 {
        assert !(bs[j].free && bs[j + 1].free);
      } else {
        assert !(bs[j + 1].free && bs[j + 2].free);
      }
    }
  }

  /** Every other used block is where it was. */
  function GiveIndex(bs: seq<Block>, i: nat, j: nat): nat
    requires i < |bs|
  {
    var marked := Marked(bs, i);
    var joined := JoinNext(marked, i);
    var k := JoinIndex(marked, i, j);
    if i > 0 && joined[i - 1].free then if k >= i then k - 1 else k else k
  }

  lemma GiveKeeps(bs: seq<Block>, i: nat, j: nat)
    requires i < |bs| && !bs[i].free && j < |bs| && j != i && !bs[j].free
    ensures var cs := Give(bs, i);
            var k := GiveIndex(bs, i, j);
            k < |cs| && cs[k] == bs[j] && Addr(cs, k) == Addr(bs, j)
  {
    hide Addr, JoinNext, Marked, Give, JoinIndex, GiveIndex;
    var marked := Marked(bs, i);
    MarkKeeps(bs, i, j);
    MarkSame(bs, i, j);
    var joined := JoinNext(marked, i);
    JoinKeepsBlock(marked, i, j);
    GiveIs(bs, i);
    GiveIndexIs(bs, i, j);
    var k := JoinIndex(marked, i, j);
    if i > 0 && joined[i - 1].free {
      JoinIndexIs(marked, i, j);
      JoinKeepsBlock(joined, i - 1, k);
      JoinIndexIs(joined, i - 1, k);
      JoinedFree(marked, i);
    }
  }

  lemma MarkSame(bs: seq<Block>, i: nat, j: nat)
    requires i < |bs| && j < |bs| && j != i
    ensures |Marked(bs, i)| == |bs| && Marked(bs, i)[i].free && Marked(bs, i)[j] == bs[j]
  {
  }

  lemma JoinIndexIs(bs: seq<Block>, i: nat, j: nat)
    requires i < |bs|
    ensures JoinIndex(bs, i, j) == if i + 1 < |bs| && bs[i + 1].free && j > i + 1 then j - 1 else j
  {
  }

  lemma JoinedFree(bs: seq<Block>, i: nat)
    requires i < |bs| && bs[i].free
    ensures i < |JoinNext(bs, i)| && JoinNext(bs, i)[i].free
  {
  }

  lemma GiveIndexIs(bs: seq<Block>, i: nat, j: nat)
    requires i < |bs| && i < |JoinNext(Marked(bs, i), i)|
    ensures var joined := JoinNext(Marked(bs, i), i); var k := JoinIndex(Marked(bs, i), i, j);
            GiveIndex(bs, i, j) == if i > 0 && joined[i - 1].free && k >= i then if k == 0 then 0 else k - 1 else k
  {
  }

  /** free right after malloc restores the exact block list. */
  lemma GiveUndoesTake(bs: seq<Block>, i: nat, needed: nat)
    requires NoFreeNeighbours(bs) && i < |bs| && Fits(bs[i], needed)
    ensures Give(Take(bs, i, needed), i) == bs
  {
    var cs := Take(bs, i, needed);
    assert bs == bs[..i] + [bs[i]] + bs[i + 1..];
    assert JoinNext(Marked(cs, i), i) == bs;
  }
}
