/** The PortKit allocator over one arena: doubly linked headers inside the memory they describe,
    first fit with splitting, and coalescing on release. */
module PortKit {
  import opened HeapBlocks
  import opened Options

  /** struct port_block; pointers are offsets into the arena. */
  datatype Header = Header(size: nat, previous: Option<nat>, next: Option<nat>, free: bool)

  ghost function HeaderOf(bs: seq<Block>, i: nat): Header
    requires i < |bs|
  {
    Header(bs[i].size, if i == 0 then None else Some(Addr(bs, i - 1)),
           if i + 1 == |bs| then None else Some(Addr(bs, i + 1)), bs[i].free)
  }

  /** Every block has its header in place, pointing to its neighbours on both sides. */
  ghost predicate Linked(hs: map<nat, Header>, bs: seq<Block>) {
    forall i | 0 <= i < |bs| :: HeaderAt(hs, bs, i)
  }

  ghost predicate HeaderAt(hs: map<nat, Header>, bs: seq<Block>, i: nat)
    requires i < |bs|
  {
    Addr(bs, i) in hs && hs[Addr(bs, i)] == HeaderOf(bs, i)
  }

  ghost function Payload(mem: seq<bv8>, a: nat, size: nat): seq<bv8>
    requires a + HEADER + size <= |mem|
  {
    mem[a + HEADER..a + HEADER + size]
  }

  /** Blocks in use keep their bytes. `but` is the one block excepted; |bs| for none. */
  ghost predicate PayloadsKept(bs: seq<Block>, mem: seq<bv8>, mem': seq<bv8>, but: nat) {
    && Addr(bs, |bs|) == |mem| == |mem'|
    && forall j | 0 <= j < |bs| && j != but && !bs[j].free :: PayloadKept(bs, mem, mem', j)
  }

  ghost predicate PayloadKept(bs: seq<Block>, mem: seq<bv8>, mem': seq<bv8>, j: nat)
    requires j < |bs|
  {
    Addr(bs, j) + HEADER + bs[j].size <= |mem| == |mem'|
    && Payload(mem, Addr(bs, j), bs[j].size) == Payload(mem', Addr(bs, j), bs[j].size)
  }

  // ----- header updates -----

  /** The updates of malloc that carve `needed` bytes off the block at offset `p`. */
  ghost function SplitHeaders(hs: map<nat, Header>, p: nat, needed: nat): map<nat, Header>
    requires p in hs && hs[p].size >= needed + HEADER
  {
    var h := hs[p];
    var rest := p + HEADER + needed;
    var hs1 := hs[rest := Header(h.size - needed - HEADER, Some(p), h.next, true)];
    var hs2 := if h.next.Some? && h.next.value in hs1
               then hs1[h.next.value := hs1[h.next.value].(previous := Some(rest))] else hs1;
    hs2[p := h.(next := Some(rest), size := needed)]
  }

  ghost function TakeHeaders(hs: map<nat, Header>, p: nat, needed: nat): map<nat, Header>
    requires p in hs && hs[p].size >= needed
  {
    var hs1 := if hs[p].size < needed + HEADER + SMALLEST then hs else SplitHeaders(hs, p, needed);
    hs1[p := hs1[p].(free := false)]
  }

  lemma HeaderIn(hs: map<nat, Header>, bs: seq<Block>, i: nat)
    requires Linked(hs, bs) && i < |bs|
    ensures HeaderAt(hs, bs, i)
  {
  }

  lemma Apart(bs: seq<Block>, j: nat, k: nat)
    requires j < |bs| && k < |bs| && j != k
    ensures Addr(bs, j) != Addr(bs, k)
    ensures j < k ==> Addr(bs, j) + HEADER + bs[j].size <= Addr(bs, k)
    ensures k < j ==> Addr(bs, k) + HEADER + bs[k].size <= Addr(bs, j)
  {
    if j < k { AddrMono(bs, j, k); } else { AddrMono(bs, k, j); }
  }

  lemma TakeLinkedPlain(hs: map<nat, Header>, bs: seq<Block>, i: nat, needed: nat)
    requires Linked(hs, bs) && i < |bs| && Fits(bs[i], needed) && !Splits(bs[i], needed)
    ensures Addr(bs, i) in hs && hs[Addr(bs, i)] == HeaderOf(bs, i)
    ensures Linked(TakeHeaders(hs, Addr(bs, i), needed), Take(bs, i, needed))
  {
    assert HeaderAt(hs, bs, i);
    var cs := Take(bs, i, needed);
    forall j | 0 <= j <= |bs|
      ensures Addr(cs, j) == Addr(bs, j)
    {
      TakeKeeps(bs, i, needed, j);
    }
    forall j | 0 <= j < |cs|
      ensures HeaderAt(TakeHeaders(hs, Addr(bs, i), needed), cs, j)
    {
      assert HeaderAt(hs, bs, j);
      if j != i { Apart(bs, i, j); }
    }
  }

  /** The two blocks that replace block `i`. */
  lemma SplitOwn(hs: map<nat, Header>, bs: seq<Block>, i: nat, needed: nat)
    requires Linked(hs, bs) && i < |bs| && Fits(bs[i], needed) && Splits(bs[i], needed)
    ensures Addr(bs, i) in hs && hs[Addr(bs, i)] == HeaderOf(bs, i)
    ensures var cs := Take(bs, i, needed);
            && |cs| == |bs| + 1 && Addr(cs, i) == Addr(bs, i) && Addr(cs, i + 1) == Addr(bs, i) + HEADER + needed
            && Addr(cs, i + 2) == Addr(bs, i + 1)
            && HeaderAt(TakeHeaders(hs, Addr(bs, i), needed), cs, i)
            && HeaderAt(TakeHeaders(hs, Addr(bs, i), needed), cs, i + 1)
  {
    assert HeaderAt(hs, bs, i);
    TakeKeeps(bs, i, needed, i);
    TakeKeeps(bs, i, needed, i + 1);
    if i > 0 { TakeKeeps(bs, i, needed, i - 1); }
    if i + 1 < |bs| { assert HeaderAt(hs, bs, i + 1); }
  }

  /** malloc's updates leave the headers of the other blocks, but for the back link of the next one. */
  lemma SplitMap(hs: map<nat, Header>, bs: seq<Block>, i: nat, needed: nat, j: nat)
    requires Linked(hs, bs) && i < |bs| && Fits(bs[i], needed) && Splits(bs[i], needed)
    requires j < |bs| && j != i
    ensures Addr(bs, i) in hs && hs[Addr(bs, i)].size >= needed && Addr(bs, j) in hs
    ensures var hs' := TakeHeaders(hs, Addr(bs, i), needed);
            Addr(bs, j) in hs'
            && hs'[Addr(bs, j)] == if j == i + 1 then hs[Addr(bs, j)].(previous := Some(Addr(bs, i) + HEADER + needed))
                                   else hs[Addr(bs, j)]
  {
    assert HeaderAt(hs, bs, i) && HeaderAt(hs, bs, j);
    Apart(bs, i, j);
    if i + 1 < |bs| {
      assert HeaderAt(hs, bs, i + 1);
      if j != i + 1 { Apart(bs, i + 1, j); }
    }
  }

  lemma SplitHeader(bs: seq<Block>, i: nat, needed: nat, j: nat)
    requires i < |bs| && Fits(bs[i], needed) && Splits(bs[i], needed) && j < |bs| && j != i
    ensures var k := TakeIndex(bs, i, needed, j);
            var cs := Take(bs, i, needed);
            k < |cs| && Addr(cs, k) == Addr(bs, j)
            && HeaderOf(cs, k) == if j == i + 1 then HeaderOf(bs, j).(previous := Some(Addr(bs, i) + HEADER + needed))
                                  else HeaderOf(bs, j)
  {
    CutAddr(bs, i, needed);
    hide Addr, Take;
    TakeKeeps(bs, i, needed, j);
    TakeKeeps(bs, i, needed, j + 1);
    if j > 0 { TakeKeeps(bs, i, needed, j - 1); }
  }

  lemma CutAddr(bs: seq<Block>, i: nat, needed: nat)
    requires i < |bs| && Fits(bs[i], needed) && Splits(bs[i], needed)
    ensures var cs := Take(bs, i, needed); |cs| == |bs| + 1 && Addr(cs, i + 1) == Addr(bs, i) + HEADER + needed
  {
    TakeKeeps(bs, i, needed, i);
  }

  /** A block that was there before. */
  lemma SplitOther(hs: map<nat, Header>, bs: seq<Block>, i: nat, needed: nat, j: nat)
    requires Linked(hs, bs) && i < |bs| && Fits(bs[i], needed) && Splits(bs[i], needed)
    requires j < |bs| && j != i
    ensures Addr(bs, i) in hs && hs[Addr(bs, i)].size >= needed
    ensures var k := TakeIndex(bs, i, needed, j);
            k < |Take(bs, i, needed)| && HeaderAt(TakeHeaders(hs, Addr(bs, i), needed), Take(bs, i, needed), k)
  {
    SplitMap(hs, bs, i, needed, j);
    SplitHeader(bs, i, needed, j);
    assert HeaderAt(hs, bs, j);
  }

  lemma TakeLinkedSplit(hs: map<nat, Header>, bs: seq<Block>, i: nat, needed: nat)
    requires Linked(hs, bs) && i < |bs| && Fits(bs[i], needed) && Splits(bs[i], needed)
    ensures Addr(bs, i) in hs && hs[Addr(bs, i)] == HeaderOf(bs, i)
    ensures Linked(TakeHeaders(hs, Addr(bs, i), needed), Take(bs, i, needed))
  {
    var cs := Take(bs, i, needed);
    SplitOwn(hs, bs, i, needed);
    forall k | 0 <= k < |cs|
      ensures HeaderAt(TakeHeaders(hs, Addr(bs, i), needed), cs, k)
    {
      if k < i { SplitOther(hs, bs, i, needed, k); } else if k > i + 1 { SplitOther(hs, bs, i, needed, k - 1); }
    }
  }

  /** The updates of free that absorb the right neighbour of the block at `p`. */
  ghost function AbsorbHeaders(hs: map<nat, Header>, p: nat): map<nat, Header>
    requires p in hs && hs[p].next.Some? && hs[p].next.value in hs
  {
    var n := hs[hs[p].next.value];
    var hs1 := hs[p := hs[p].(size := hs[p].size + HEADER + n.size, next := n.next)];
    if n.next.Some? && n.next.value in hs1
    then hs1[n.next.value := hs1[n.next.value].(previous := Some(p))] else hs1
  }

  lemma AbsorbOwn(hs: map<nat, Header>, bs: seq<Block>, i: nat)
    requires Linked(hs, bs) && i + 1 < |bs| && bs[i].free && bs[i + 1].free
    ensures var p := Addr(bs, i);
            && p in hs && hs[p] == HeaderOf(bs, i) && Addr(bs, i + 1) in hs && hs[Addr(bs, i + 1)] == HeaderOf(bs, i + 1)
            && |JoinNext(bs, i)| == |bs| - 1
            && HeaderAt(AbsorbHeaders(hs, p), JoinNext(bs, i), i)
  {
    assert HeaderAt(hs, bs, i) && HeaderAt(hs, bs, i + 1);
    Apart(bs, i, i + 1);
    JoinKeepsBlock(bs, i, i);
    JoinKeepsBlock(bs, i, i + 2);
    if i + 2 < |bs| {
      assert HeaderAt(hs, bs, i + 2);
      Apart(bs, i, i + 2);
    }
    if i > 0 { JoinKeepsBlock(bs, i, i - 1); }
  }

  lemma AbsorbMap(hs: map<nat, Header>, bs: seq<Block>, i: nat, j: nat)
    requires Linked(hs, bs) && i + 1 < |bs| && bs[i].free && bs[i + 1].free
    requires j < |bs| && j != i && j != i + 1
    ensures Addr(bs, i) in hs && hs[Addr(bs, i)].next == Some(Addr(bs, i + 1)) && Addr(bs, i + 1) in hs && Addr(bs, j) in hs
    ensures var hs' := AbsorbHeaders(hs, Addr(bs, i));
            Addr(bs, j) in hs'
            && hs'[Addr(bs, j)] == if j == i + 2 then hs[Addr(bs, j)].(previous := Some(Addr(bs, i))) else hs[Addr(bs, j)]
  {
    AbsorbOwn(hs, bs, i);
    assert HeaderAt(hs, bs, j);
    Apart(bs, i, j);
    if i + 2 < |bs| {
      assert HeaderAt(hs, bs, i + 2);
      if j != i + 2 { Apart(bs, i + 2, j); }
    }
  }

  lemma AbsorbHeader(bs: seq<Block>, i: nat, j: nat)
    requires i + 1 < |bs| && bs[i].free && bs[i + 1].free && j < |bs| && j != i && j != i + 1
    ensures var k := JoinIndex(bs, i, j);
            var cs := JoinNext(bs, i);
            k < |cs| && Addr(cs, k) == Addr(bs, j)
            && HeaderOf(cs, k) == if j == i + 2 then HeaderOf(bs, j).(previous := Some(Addr(bs, i))) else HeaderOf(bs, j)
  {
    hide Addr, JoinNext;
    JoinKeepsBlock(bs, i, i);
    JoinKeepsBlock(bs, i, j);
    JoinKeepsBlock(bs, i, j + 1);
    if j > 0 && j != i + 2 { JoinKeepsBlock(bs, i, j - 1); }
    JoinedLength(bs, i);
  }

  lemma JoinedLength(bs: seq<Block>, i: nat)
    requires i + 1 < |bs| && bs[i + 1].free
    ensures |JoinNext(bs, i)| == |bs| - 1
  {
  }

  lemma AbsorbOther(hs: map<nat, Header>, bs: seq<Block>, i: nat, j: nat)
    requires Linked(hs, bs) && i + 1 < |bs| && bs[i].free && bs[i + 1].free
    requires j < |bs| && j != i && j != i + 1
    ensures Addr(bs, i) in hs && hs[Addr(bs, i)].next == Some(Addr(bs, i + 1)) && Addr(bs, i + 1) in hs
    ensures var k := JoinIndex(bs, i, j);
            k < |JoinNext(bs, i)| && HeaderAt(AbsorbHeaders(hs, Addr(bs, i)), JoinNext(bs, i), k)
  {
    AbsorbMap(hs, bs, i, j);
    AbsorbHeader(bs, i, j);
    assert HeaderAt(hs, bs, j);
  }

  lemma AbsorbLinked(hs: map<nat, Header>, bs: seq<Block>, i: nat)
    requires Linked(hs, bs) && i + 1 < |bs| && bs[i].free && bs[i + 1].free
    ensures var p := Addr(bs, i);
            p in hs && hs[p].next == Some(Addr(bs, i + 1)) && Addr(bs, i + 1) in hs
            && Linked(AbsorbHeaders(hs, p), JoinNext(bs, i))
  {
    AbsorbOwn(hs, bs, i);
    var cs := JoinNext(bs, i);
    forall k | 0 <= k < |cs|
      ensures HeaderAt(AbsorbHeaders(hs, Addr(bs, i)), cs, k)
    {
      if k < i { AbsorbOther(hs, bs, i, k); } else if k > i { AbsorbOther(hs, bs, i, k + 1); }
    }
  }

  /** What absorbing needs of the three headers involved. */
  lemma AbsorbFacts(hs: map<nat, Header>, bs: seq<Block>, i: nat, total: nat)
    requires Addr(bs, |bs|) == total && Linked(hs, bs) && i + 1 < |bs| && bs[i].free && bs[i + 1].free
    ensures var p, q := Addr(bs, i), Addr(bs, i + 1);
            && p in hs && hs[p].next == Some(q) && q in hs && p + HEADER <= total && p != q
            && (hs[q].next.Some? <==> i + 2 < |bs|)
            && (hs[q].next.Some? ==> hs[q].next.value == Addr(bs, i + 2) && Addr(bs, i + 2) in hs
                                     && Addr(bs, i + 2) + HEADER <= total && Addr(bs, i + 2) != p)
    ensures var p, n := Addr(bs, i), hs[Addr(bs, i + 1)];
            var hs1 := hs[p := hs[p].(size := hs[p].size + HEADER + n.size, next := n.next)];
            Linked(if n.next.Some? then hs1[n.next.value := hs1[n.next.value].(previous := Some(p))] else hs1, JoinNext(bs, i))
    ensures SubHeaders(bs, bs)
  {
    AbsorbLinked(hs, bs, i);
    AbsorbOwn(hs, bs, i);
    Apart(bs, i, i + 1);
    AddrMono(bs, i, |bs|);
    forall k | 0 <= k < |bs| ensures IsHeader(bs, Addr(bs, k)) {}
    if i + 2 < |bs| {
      HeaderIn(hs, bs, i + 2);
      AddrMono(bs, i + 2, |bs|);
      Apart(bs, i, i + 2);
    }
    hide Linked, JoinNext;
  }

  lemma MarkLinked(hs: map<nat, Header>, bs: seq<Block>, i: nat)
    requires Linked(hs, bs) && i < |bs| && !bs[i].free
    ensures var p := Addr(bs, i);
            p in hs && hs[p] == HeaderOf(bs, i) && Linked(hs[p := hs[p].(free := true)], Marked(bs, i))
  {
    assert HeaderAt(hs, bs, i);
    var cs := Marked(bs, i);
    forall j | 0 <= j <= |bs|
      ensures Addr(cs, j) == Addr(bs, j)
    {
      MarkKeeps(bs, i, j);
    }
    var hs' := hs[Addr(bs, i) := hs[Addr(bs, i)].(free := true)];
    forall j | 0 <= j < |cs|
      ensures HeaderAt(hs', cs, j)
    {
      assert HeaderAt(hs, bs, j);
      if j != i { Apart(bs, i, j); }
    }
  }

  // ----- headers in memory -----

  /** A header's bytes, in any layout. */
  type Layout = (Header, nat) -> bv8

  ghost predicate Encoded(enc: Layout, h: Header, mem: seq<bv8>, a: nat) {
    a + HEADER <= |mem| && forall k: nat | k < HEADER :: mem[a + k] == enc(h, k)
  }

  ghost predicate StoredAt(enc: Layout, hs: map<nat, Header>, mem: seq<bv8>, a: nat) {
    a in hs && Encoded(enc, hs[a], mem, a)
  }

  /** The bytes in front of every block, except block `but`, are its header. */
  ghost predicate StoredBut(enc: Layout, hs: map<nat, Header>, mem: seq<bv8>, bs: seq<Block>, but: nat) {
    forall i | 0 <= i < |bs| && i != but :: StoredAt(enc, hs, mem, Addr(bs, i))
  }

  ghost predicate Stored(enc: Layout, hs: map<nat, Header>, mem: seq<bv8>, bs: seq<Block>) {
    StoredBut(enc, hs, mem, bs, |bs|)
  }

  ghost predicate SameOutside(mem: seq<bv8>, mem': seq<bv8>, from: nat, to: nat) {
    |mem| == |mem'| && forall x | 0 <= x < |mem| && !(from <= x < to) :: mem'[x] == mem[x]
  }

  lemma EncodedFrame(enc: Layout, h: Header, mem: seq<bv8>, mem': seq<bv8>, a: nat, from: nat, to: nat)
    requires Encoded(enc, h, mem, a) && SameOutside(mem, mem', from, to) && (a + HEADER <= from || to <= a)
    ensures Encoded(enc, h, mem', a)
  {
    forall k: nat | k < HEADER ensures mem'[a + k] == enc(h, k) { assert mem[a + k] == enc(h, k); }
  }

  /** Writing one header leaves every other one in place. */
  lemma StoreKeeps(enc: Layout, hs: map<nat, Header>, mem: seq<bv8>, mem': seq<bv8>, bs: seq<Block>, j: nat, but: nat, h: Header)
    requires j < |bs| && if but == |bs| then Stored(enc, hs, mem, bs) else but == j && StoredBut(enc, hs, mem, bs, j)
    requires SameOutside(mem, mem', Addr(bs, j), Addr(bs, j) + HEADER) && Encoded(enc, h, mem', Addr(bs, j))
    ensures Stored(enc, hs[Addr(bs, j) := h], mem', bs)
  {
    forall i | 0 <= i < |bs| ensures StoredAt(enc, hs[Addr(bs, j) := h], mem', Addr(bs, i)) {
      if i != j {
        Apart(bs, i, j);
        assert StoredAt(enc, hs, mem, Addr(bs, i));
        EncodedFrame(enc, hs[Addr(bs, i)], mem, mem', Addr(bs, i), Addr(bs, j), Addr(bs, j) + HEADER);
      }
    }
    hide Addr, Encoded, SameOutside;
  }

  /** ... and so does writing into one payload. */
  lemma PayloadWrite(enc: Layout, hs: map<nat, Header>, mem: seq<bv8>, mem': seq<bv8>, bs: seq<Block>, j: nat, to: nat)
    requires j < |bs| && Stored(enc, hs, mem, bs) && to <= Addr(bs, j) + HEADER + bs[j].size
    requires SameOutside(mem, mem', Addr(bs, j) + HEADER, to)
    ensures Stored(enc, hs, mem', bs)
  {
    forall i | 0 <= i < |bs| ensures StoredAt(enc, hs, mem', Addr(bs, i)) { PayloadWriteAt(enc, hs, mem, mem', bs, j, to, i); }
    hide Addr, StoredAt, SameOutside;
  }

  lemma PayloadWriteAt(enc: Layout, hs: map<nat, Header>, mem: seq<bv8>, mem': seq<bv8>, bs: seq<Block>, j: nat, to: nat, i: nat)
    requires j < |bs| && i < |bs| && Stored(enc, hs, mem, bs) && to <= Addr(bs, j) + HEADER + bs[j].size
    requires SameOutside(mem, mem', Addr(bs, j) + HEADER, to)
    ensures StoredAt(enc, hs, mem', Addr(bs, i))
  {
    hide Addr, Encoded, SameOutside, Stored;
    StoredHeaderAt(enc, hs, mem, bs, i);
    HeaderOutside(bs, i, j, to);
    EncodedFrame(enc, hs[Addr(bs, i)], mem, mem', Addr(bs, i), Addr(bs, j) + HEADER, to);
  }

  lemma StoredHeaderAt(enc: Layout, hs: map<nat, Header>, mem: seq<bv8>, bs: seq<Block>, i: nat)
    requires Stored(enc, hs, mem, bs) && i < |bs|
    ensures Addr(bs, i) in hs && Encoded(enc, hs[Addr(bs, i)], mem, Addr(bs, i))
  {
    assert StoredAt(enc, hs, mem, Addr(bs, i));
  }

  lemma HeaderOutside(bs: seq<Block>, i: nat, j: nat, to: nat)
    requires i < |bs| && j < |bs| && to <= Addr(bs, j) + HEADER + bs[j].size
    ensures Addr(bs, i) + HEADER <= Addr(bs, j) + HEADER || to <= Addr(bs, i)
  {
    if i != j { Apart(bs, i, j); }
  }

  /** Only the addresses matter. */
  lemma StoredSub(enc: Layout, hs: map<nat, Header>, mem: seq<bv8>, bs: seq<Block>, cs: seq<Block>)
    requires Stored(enc, hs, mem, bs) && forall k | 0 <= k < |cs| :: IsHeader(bs, Addr(cs, k))
    ensures Stored(enc, hs, mem, cs)
  {
    forall k | 0 <= k < |cs| ensures StoredAt(enc, hs, mem, Addr(cs, k)) {
      assert IsHeader(bs, Addr(cs, k));
      var j :| 0 <= j < |bs| && Addr(bs, j) == Addr(cs, k);
      assert StoredAt(enc, hs, mem, Addr(bs, j));
    }
  }

  lemma MarkedSub(enc: Layout, hs: map<nat, Header>, mem: seq<bv8>, bs: seq<Block>, i: nat)
    requires i < |bs| && !bs[i].free && Stored(enc, hs, mem, bs)
    ensures Stored(enc, hs, mem, Marked(bs, i))
  {
    forall k | 0 <= k < |bs| ensures IsHeader(bs, Addr(Marked(bs, i), k)) { MarkKeeps(bs, i, k); }
    StoredSub(enc, hs, mem, bs, Marked(bs, i));
  }

  lemma JoinedSub(enc: Layout, hs: map<nat, Header>, mem: seq<bv8>, bs: seq<Block>, i: nat)
    requires i < |bs| && bs[i].free && Stored(enc, hs, mem, bs)
    ensures Stored(enc, hs, mem, JoinNext(bs, i))
  {
    var joined := JoinNext(bs, i);
    forall k | 0 <= k < |joined| ensures IsHeader(bs, Addr(joined, k)) {
      var j := if k > i && |joined| < |bs| then k + 1 else k;
      JoinKeepsBlock(bs, i, j);
      assert Addr(bs, j) == Addr(joined, k);
    }
    StoredSub(enc, hs, mem, bs, joined);
  }

  /** The blocks after a split are those before it and the one that begins at the cut. */
  lemma TakeSub(enc: Layout, hs: map<nat, Header>, mem: seq<bv8>, bs: seq<Block>, i: nat, needed: nat)
    requires i < |bs| && Fits(bs[i], needed) && Stored(enc, hs, mem, bs)
    ensures var cs := Take(bs, i, needed);
            if Splits(bs[i], needed)
            then |cs| == |bs| + 1 && Addr(cs, i) == Addr(bs, i) && Addr(cs, i + 1) == Addr(bs, i) + HEADER + needed
                 && (i + 1 < |bs| ==> Addr(cs, i + 2) == Addr(bs, i + 1)) && StoredBut(enc, hs, mem, cs, i + 1)
            else |cs| == |bs| && Addr(cs, i) == Addr(bs, i) && Stored(enc, hs, mem, cs)
  {
    var cs := Take(bs, i, needed);
    TakeKeeps(bs, i, needed, i);
    forall k | 0 <= k < |cs| && !(Splits(bs[i], needed) && k == i + 1) ensures StoredAt(enc, hs, mem, Addr(cs, k)) {
      var j := if Splits(bs[i], needed) && k > i then k - 1 else k;
      TakeKeeps(bs, i, needed, j);
      assert StoredAt(enc, hs, mem, Addr(bs, j));
    }
    if i + 1 < |bs| { TakeKeeps(bs, i, needed, i + 1); }
  }

  // ----- memory: header writes stay inside headers or free space -----

  /** Only bytes of the block at index `i` and of the header after it may have changed. */
  ghost predicate ChangedWithin(bs: seq<Block>, mem: seq<bv8>, mem': seq<bv8>, i: nat)
    requires i < |bs|
  {
    |mem| == |mem'| && forall x | 0 <= x < |mem| && !(Addr(bs, i) <= x < Addr(bs, i + 1) + HEADER) :: mem'[x] == mem[x]
  }

  lemma OthersKept(bs: seq<Block>, mem: seq<bv8>, mem': seq<bv8>, i: nat)
    requires i < |bs| && Addr(bs, |bs|) == |mem| && ChangedWithin(bs, mem, mem', i)
    ensures PayloadsKept(bs, mem, mem', i)
  {
    forall j | 0 <= j < |bs| && j != i && !bs[j].free
      ensures PayloadKept(bs, mem, mem', j)
    {
      AddrMono(bs, j, |bs|);
      if j < i { AddrMono(bs, j, i); } else if j == i + 1 {} else { AddrMono(bs, i + 1, j); }
    }
  }

  /** Only header bytes changed. */
  ghost predicate HeadersOnly(bs: seq<Block>, mem: seq<bv8>, mem': seq<bv8>) {
    Addr(bs, |bs|) == |mem| == |mem'|
    && forall x | 0 <= x < |mem| :: mem'[x] == mem[x] || exists k | 0 <= k < |bs| :: Addr(bs, k) <= x < Addr(bs, k) + HEADER
  }

  lemma StoredHeader(bs: seq<Block>, mem: seq<bv8>, mem': seq<bv8>, i: nat)
    requires i < |bs| && Addr(bs, |bs|) == |mem| == |mem'|
    requires SameOutside(mem, mem', Addr(bs, i), Addr(bs, i) + HEADER)
    ensures HeadersOnly(bs, mem, mem')
  {
  }

  lemma NoPayloadTouched(bs: seq<Block>, mem: seq<bv8>, mem': seq<bv8>)
    requires HeadersOnly(bs, mem, mem')
    ensures PayloadsKept(bs, mem, mem', |bs|)
  {
    forall j | 0 <= j < |bs| && !bs[j].free
      ensures PayloadKept(bs, mem, mem', j)
    {
      AddrMono(bs, j, |bs|);
      forall x | Addr(bs, j) + HEADER <= x < Addr(bs, j) + HEADER + bs[j].size
        ensures mem[x] == mem'[x]
      {
        if mem[x] != mem'[x] {
          var k :| 0 <= k < |bs| && Addr(bs, k) <= x < Addr(bs, k) + HEADER;
          if j != k { Apart(bs, j, k); }
        }
      }
    }
  }

  /** Headers of a list obtained by marking and joining are headers of the original list. */
  ghost predicate SubHeaders(bs: seq<Block>, cs: seq<Block>) {
    Addr(bs, |bs|) == Addr(cs, |cs|) && forall k | 0 <= k < |cs| :: IsHeader(bs, Addr(cs, k))
  }

  ghost predicate IsHeader(bs: seq<Block>, a: nat) { exists j | 0 <= j < |bs| :: Addr(bs, j) == a }

  lemma JoinedHeaders(bs: seq<Block>, i: nat)
    requires i < |bs| && !bs[i].free
    ensures SubHeaders(bs, JoinNext(Marked(bs, i), i))
  {
    var marked := Marked(bs, i);
    var joined := JoinNext(marked, i);
    MarkKeeps(bs, i, |bs|);
    JoinKeepsBlock(marked, i, |bs|);
    forall k | 0 <= k < |joined|
      ensures IsHeader(bs, Addr(joined, k))
    {
      var j := if k > i && |joined| < |bs| then k + 1 else k;
      JoinKeepsBlock(marked, i, j);
      MarkKeeps(bs, i, j);
      assert Addr(bs, j) == Addr(joined, k);
    }
  }

  /** What free reads of the right neighbour of the block it has marked. */
  lemma RightFacts(hs: map<nat, Header>, bs: seq<Block>, i: nat, total: nat)
    requires Tiles(bs, total) && i < |bs| && !bs[i].free && Linked(hs, Marked(bs, i))
    ensures var m := Marked(bs, i); var p := Addr(m, i);
            && p == Addr(bs, i) && p in hs && Addr(m, |m|) == total && SubHeaders(bs, m) && |m| == |bs| && m[i].free
            && (hs[p].next.Some? ==> i + 1 < |m| && hs[p].next.value in hs && hs[hs[p].next.value].free == m[i + 1].free)
            && (!(hs[p].next.Some? && hs[hs[p].next.value].free) ==> JoinNext(m, i) == m)
  {
    var m := Marked(bs, i);
    HeaderIn(hs, m, i);
    if i + 1 < |m| { HeaderIn(hs, m, i + 1); }
    MarkKeeps(bs, i, i);
    MarkKeeps(bs, i, |bs|);
    forall k | 0 <= k < |m| ensures IsHeader(bs, Addr(m, k)) {
      MarkKeeps(bs, i, k);
      assert Addr(bs, k) == Addr(m, k);
    }
    hide Addr, Linked, Tiles;
  }

  /** ... and of the left neighbour, after the right one has been absorbed. */
  lemma LeftFacts(hs: map<nat, Header>, bs: seq<Block>, i: nat, total: nat)
    requires Tiles(bs, total) && i < |bs| && !bs[i].free && Linked(hs, JoinNext(Marked(bs, i), i))
    ensures var m := JoinNext(Marked(bs, i), i); var p := Addr(bs, i);
            && i < |m| && Addr(m, i) == p && p in hs && Addr(m, |m|) == total && SubHeaders(bs, m) && m[i].free
            && (hs[p].previous.Some? ==> i > 0 && hs[p].previous.value == Addr(m, i - 1) && hs[p].previous.value in hs
                                         && hs[hs[p].previous.value].free == m[i - 1].free)
            && Give(bs, i) == if hs[p].previous.Some? && hs[hs[p].previous.value].free then JoinNext(m, i - 1) else m
  {
    var m := JoinNext(Marked(bs, i), i);
    JoinTiles(Marked(bs, i), i);
    MarkKeeps(bs, i, i);
    MarkKeeps(bs, i, |bs|);
    JoinKeepsBlock(Marked(bs, i), i, i);
    JoinKeepsBlock(Marked(bs, i), i, |bs|);
    JoinedHeaders(bs, i);
    HeaderIn(hs, m, i);
    if i > 0 { HeaderIn(hs, m, i - 1); }
    hide Addr, Linked, SubHeaders, Tiles, UsedSum;
  }

  lemma HeadersOnlyTrans(bs: seq<Block>, cs: seq<Block>, mem: seq<bv8>, mem1: seq<bv8>, mem2: seq<bv8>)
    requires HeadersOnly(bs, mem, mem1) && HeadersOnly(cs, mem1, mem2) && SubHeaders(bs, cs)
    ensures HeadersOnly(bs, mem, mem2)
  {
    forall x | 0 <= x < |mem| && mem2[x] != mem[x]
      ensures exists k | 0 <= k < |bs| :: Addr(bs, k) <= x < Addr(bs, k) + HEADER
    {
      if mem2[x] != mem1[x] {
        var k :| 0 <= k < |cs| && Addr(cs, k) <= x < Addr(cs, k) + HEADER;
        assert IsHeader(bs, Addr(cs, k));
        var j :| 0 <= j < |bs| && Addr(bs, j) == Addr(cs, k);
      }
    }
  }

  lemma OutsideNone(mem: seq<bv8>, from: nat, to: nat)
    ensures SameOutside(mem, mem, from, to)
  {
  }

  lemma OutsideTrans(mem: seq<bv8>, mem1: seq<bv8>, mem2: seq<bv8>, a: nat, b: nat, from: nat, to: nat)
    requires SameOutside(mem, mem1, from, to) && SameOutside(mem1, mem2, a, b) && from <= a && b <= to
    ensures SameOutside(mem, mem2, from, to)
  {
  }

  lemma ChangedOutside(bs: seq<Block>, mem: seq<bv8>, mem': seq<bv8>, i: nat)
    requires i < |bs| && SameOutside(mem, mem', Addr(bs, i), Addr(bs, i + 1) + HEADER)
    ensures ChangedWithin(bs, mem, mem', i)
  {
  }

  /** What splitting needs of the header itself and of the next one. */
  lemma SplitFacts(hs: map<nat, Header>, bs: seq<Block>, i: nat, needed: nat, total: nat)
    requires Tiles(bs, total) && Linked(hs, bs) && i < |bs| && Fits(bs[i], needed) && Splits(bs[i], needed)
    ensures var p := Addr(bs, i);
            && p in hs && hs[p].size >= needed + HEADER
            && p + HEADER + needed + HEADER <= Addr(bs, i + 1) <= total
            && (hs[p].next.Some? ==> i + 1 < |bs| && hs[p].next.value == Addr(bs, i + 1) && Addr(bs, i + 1) in hs
                                     && Addr(bs, i + 1) + HEADER <= total)
            && var rest := p + HEADER + needed;
               var hs1 := hs[rest := Header(hs[p].size - needed - HEADER, Some(p), hs[p].next, true)];
               var hs2 := if hs[p].next.Some? then hs1[hs[p].next.value := hs1[hs[p].next.value].(previous := Some(rest))]
                          else hs1;
               SplitHeaders(hs, p, needed) == hs2[p := hs[p].(next := Some(rest), size := needed)]
  {
    HeaderIn(hs, bs, i);
    AddrMono(bs, i + 1, |bs|);
    if i + 1 < |bs| {
      HeaderIn(hs, bs, i + 1);
      AddrMono(bs, i + 1, |bs|);
    }
    hide Linked;
  }

  lemma AllocFacts(hs: map<nat, Header>, bs: seq<Block>, i: nat, needed: nat, total: nat)
    requires Tiles(bs, total) && Linked(hs, bs) && i < |bs| && Fits(bs[i], needed)
    requires needed % 16 == 0 && needed >= SMALLEST
    ensures var p := Addr(bs, i);
            var cs := Take(bs, i, needed);
            && p in hs && hs[p].size >= needed && Addr(bs, |bs|) == total
            && Linked(TakeHeaders(hs, p, needed), cs) && Tiles(cs, total)
            && i < |cs| && p in TakeHeaders(hs, p, needed) && TakeHeaders(hs, p, needed)[p].size == cs[i].size
            && UsedSum(cs) == UsedSum(bs) + cs[i].size
  {
    TakeTiles(bs, i, needed, total);
    TakeKeeps(bs, i, needed, i);
    if Splits(bs[i], needed) { TakeLinkedSplit(hs, bs, i, needed); } else { TakeLinkedPlain(hs, bs, i, needed); }
    HeaderIn(TakeHeaders(hs, Addr(bs, i), needed), Take(bs, i, needed), i);
  }

  lemma MarkFacts(hs: map<nat, Header>, bs: seq<Block>, i: nat, total: nat)
    requires Tiles(bs, total) && Linked(hs, bs) && i < |bs| && !bs[i].free
    ensures var p := Addr(bs, i);
            && p in hs && hs[p] == HeaderOf(bs, i) && p + HEADER <= total
            && Linked(hs[p := hs[p].(free := true)], Marked(bs, i)) && Addr(Marked(bs, i), i) == p
            && Tiles(Give(bs, i), total) && UsedSum(bs) == UsedSum(Give(bs, i)) + bs[i].size
  {
    GiveTiles(bs, i, total);
    AddrMono(bs, i, |bs|);
    MarkLinked(hs, bs, i);
    MarkKeeps(bs, i, i);
  }

  class PortHeap {
    const arena: array<bv8>
    /** How a header is laid out in its 32 bytes; any layout will do. */
    const encode: Layout
    var headers: map<nat, Header>
    var first: Option<nat>
    var used: nat
    var peak: nat
    var capacity: nat
    ghost var blocks: seq<Block>

    ghost predicate Valid()
      reads this, arena
    {
      && arena.Length <= 0x7FFF_FFFF_FFFF_FFFF
      && (first == None ==> blocks == [])
      && (first.Some? ==>
            && first == Some(0) && Tiles(blocks, arena.Length) && Linked(headers, blocks)
            && Stored(encode, headers, arena[..], blocks)
            && used == UsedSum(blocks) && used <= peak && capacity == arena.Length - HEADER)
    }

    constructor (arena: array<bv8>, encode: Layout)
      requires arena.Length <= 0x7FFF_FFFF_FFFF_FFFF
      ensures Valid() && first == None && this.arena == arena
    {
      this.arena := arena;
      this.encode := encode;
      headers, first, used, peak, capacity, blocks := map[], None, 0, 0, 0, [];
    }

    /** Writes a header into the arena. */
    method Store(p: nat, h: Header)
      requires p + HEADER <= arena.Length
      modifies this`headers, arena
      ensures headers == old(headers)[p := h]
      ensures SameOutside(old(arena[..]), arena[..], p, p + HEADER) && Encoded(encode, h, arena[..], p)
    {
      headers := headers[p := h];
      for i := 0 to HEADER
        invariant forall k: nat | k < i :: arena[p + k] == encode(h, k)
        invariant headers == old(headers)[p := h]
        invariant forall x | 0 <= x < arena.Length && !(p <= x < p + HEADER) :: arena[x] == old(arena[x])
      {
        arena[p + i] := encode(h, i);
      }
    }

    /** ... in front of block `j` of the list `cs` being built, whose other headers are in place. */
    method Put(p: nat, h: Header, ghost cs: seq<Block>, ghost j: nat, ghost but: nat)
      requires p + HEADER <= arena.Length && j < |cs| && p == Addr(cs, j)
      requires if but == |cs| then Stored(encode, headers, arena[..], cs)
               else but == j && StoredBut(encode, headers, arena[..], cs, j)
      modifies this`headers, arena
      ensures headers == old(headers)[p := h] && Stored(encode, headers, arena[..], cs)
      ensures SameOutside(old(arena[..]), arena[..], p, p + HEADER)
    {
      hide *;
      ghost var hs, mem := headers, arena[..];
      Store(p, h);
      StoreKeeps(encode, hs, mem, arena[..], cs, j, but, h);
    }

    /** `aligned` says whether the arena starts on a 16-byte boundary. */
    method Init(aligned: bool, storageOpened: bool) returns (ok: bool)
      requires Valid()
      modifies this, arena
      ensures Valid()
      ensures ok == (aligned && arena.Length > HEADER + 16 && storageOpened)
      ensures aligned && arena.Length > HEADER + 16 ==> blocks == [Block(arena.Length - HEADER, true)] && used == 0
      ensures !(aligned && arena.Length > HEADER + 16) ==> blocks == old(blocks) && headers == old(headers)
    {
      if !aligned || arena.Length <= HEADER + 16 { return false; }
      used, peak, capacity := 0, 0, arena.Length - HEADER;
      first := Some(0);
      blocks := [Block(capacity, true)];
      Put(0, Header(capacity, None, None, true), blocks, 0, 0);
      UsedOne(blocks[0]);
      assert HeaderAt(headers, blocks, 0);
      return storageOpened;
    }

    /** The block that follows `i`, as the code reaches it. */
    lemma NextBlock(i: nat)
      requires Linked(headers, blocks) && i < |blocks|
      ensures Addr(blocks, i) in headers && headers[Addr(blocks, i)] == HeaderOf(blocks, i)
    {
      assert HeaderAt(headers, blocks, i);
    }

    /** First fit. A request that is 0, too large to align, or fits no free block is refused and
        changes nothing; otherwise the block list becomes Take of the old one. */
    method Malloc(size: nat) returns (pointer: Option<nat>)
      requires Valid()
      modifies this`headers, this`blocks, this`used, this`peak, arena
      ensures Valid()
      ensures Malloced(old(blocks), old(arena[..]), blocks, arena[..], first.Some?, size, pointer)
      ensures pointer == None ==> used == old(used)
    {
      hide Stored, UsedSum, PayloadsKept, Take, Trimmed;
      var needed := AlignedSize(size);
      if needed == 0 || first == None { return None; }
      var block := first;
      ghost var i := 0;
      while block.Some?
        invariant i <= |blocks| && blocks == old(blocks) && arena[..] == old(arena[..]) && Valid() && first == old(first)
        invariant used == old(used)
        invariant block == if i == |blocks| then None else Some(Addr(blocks, i))
        invariant FirstFit(blocks, needed, 0) == FirstFit(blocks, needed, i)
        decreases |blocks| - i
      {
        NextBlock(i);
        var h := headers[block.value];
        if h.free && h.size >= needed {
          TakeTrims(blocks, i, needed);
          Allocate(block.value, needed, i);
          return Some(block.value + HEADER);
        }
        block := h.next;
        i := i + 1;
      }
      return None;
    }

    /** Hands out the free block at offset `p`, splitting it when the rest can hold a block. */
    method Allocate(p: nat, needed: nat, ghost i: nat)
      requires Valid() && i < |blocks| && p == Addr(blocks, i) && Fits(blocks[i], needed)
      requires needed % 16 == 0 && needed >= SMALLEST
      modifies this`headers, this`blocks, this`used, this`peak, arena
      ensures Valid()
      ensures blocks == Take(old(blocks), i, needed)
      ensures PayloadsKept(old(blocks), old(arena[..]), arena[..], i)
    {
      ghost var bs, mem := blocks, arena[..];
      AllocFacts(headers, bs, i, needed, arena.Length);
      hide Addr, Take, Linked, Stored, Tiles, UsedSum, PayloadsKept, ChangedWithin, TakeHeaders;
      CarveHeaders(p, needed, i);
      used := used + headers[p].size;
      if used > peak { peak := used; }
      blocks := Take(blocks, i, needed);
      OthersKept(bs, mem, arena[..], i);
    }

    method CarveHeaders(p: nat, needed: nat, ghost i: nat)
      requires Tiles(blocks, arena.Length) && Linked(headers, blocks) && Stored(encode, headers, arena[..], blocks)
      requires i < |blocks| && p == Addr(blocks, i) && Fits(blocks[i], needed)
      modifies this`headers, arena
      ensures p in old(headers) && old(headers)[p] == HeaderOf(blocks, i)
      ensures headers == TakeHeaders(old(headers), p, needed)
      ensures Stored(encode, headers, arena[..], Take(blocks, i, needed))
      ensures ChangedWithin(blocks, old(arena[..]), arena[..], i)
    {
      NextBlock(i);
      AddrMono(blocks, i + 1, |blocks|);
      TakeSub(encode, headers, arena[..], blocks, i, needed);
      ghost var cs := Take(blocks, i, needed);
      if headers[p].size >= needed + HEADER + SMALLEST {
        Split(p, needed, i);
      }
      Put(p, headers[p].(free := false), cs, i, |cs|);
    }

    method Split(p: nat, needed: nat, ghost i: nat)
      requires Tiles(blocks, arena.Length) && Linked(headers, blocks) && Stored(encode, headers, arena[..], blocks)
      requires i < |blocks| && p == Addr(blocks, i) && Fits(blocks[i], needed) && Splits(blocks[i], needed)
      modifies this`headers, arena
      ensures p in old(headers) && old(headers)[p].size >= needed + HEADER
      ensures headers == SplitHeaders(old(headers), p, needed)
      ensures Stored(encode, headers, arena[..], Take(blocks, i, needed))
      ensures ChangedWithin(blocks, old(arena[..]), arena[..], i)
    {
      ghost var mem, from, to := arena[..], p, Addr(blocks, i + 1) + HEADER;
      TakeSub(encode, headers, mem, blocks, i, needed);
      SplitFacts(headers, blocks, i, needed, arena.Length);
      OutsideNone(mem, from, to);
      hide *;
      ghost var cs := Take(blocks, i, needed);
      var h := headers[p];
      var rest := p + HEADER + needed;
      Put(rest, Header(h.size - needed - HEADER, Some(p), h.next, true), cs, i + 1, i + 1);
      ghost var mem1 := arena[..];
      OutsideTrans(mem, mem, mem1, rest, rest + HEADER, from, to);
      if h.next.Some? {
        Put(h.next.value, headers[h.next.value].(previous := Some(rest)), cs, i + 2, |cs|);
        OutsideTrans(mem, mem1, arena[..], h.next.value, h.next.value + HEADER, from, to);
      }
      ghost var mem2 := arena[..];
      Put(p, h.(next := Some(rest), size := needed), cs, i, |cs|);
      OutsideTrans(mem, mem2, arena[..], p, p + HEADER, from, to);
      ChangedOutside(blocks, mem, arena[..], i);
    }

    /** `block->size += sizeof + next->size; block->next = next->next; fix the back link`. */
    method Absorb(p: nat, ghost i: nat)
      requires Addr(blocks, |blocks|) == arena.Length && Linked(headers, blocks) && Stored(encode, headers, arena[..], blocks)
      requires i + 1 < |blocks| && p == Addr(blocks, i) && blocks[i].free && blocks[i + 1].free
      modifies this`headers, arena, this`blocks
      ensures blocks == JoinNext(old(blocks), i) && Linked(headers, blocks) && Stored(encode, headers, arena[..], blocks)
      ensures HeadersOnly(old(blocks), old(arena[..]), arena[..])
    {
      hide *;
      ghost var hs, bs, mem := headers, blocks, arena[..];
      AbsorbFacts(hs, bs, i, arena.Length);
      var n := headers[headers[p].next.value];
      Put(p, headers[p].(size := headers[p].size + HEADER + n.size, next := n.next), bs, i, |bs|);
      StoredHeader(bs, mem, arena[..], i);
      if n.next.Some? {
        ghost var mem1 := arena[..];
        Put(n.next.value, headers[n.next.value].(previous := Some(p)), bs, i + 2, |bs|);
        StoredHeader(bs, mem1, arena[..], i + 2);
        HeadersOnlyTrans(bs, bs, mem, mem1, arena[..]);
      }
      JoinedSub(encode, headers, arena[..], bs, i);
      blocks := JoinNext(blocks, i);
    }

    /** Releases the block whose payload starts at `pointer`; releasing a free block is ignored. */
    method Free(pointer: Option<nat>, ghost i: nat)
      requires Valid()
      requires pointer.Some? ==> i < |blocks| && pointer.value == Addr(blocks, i) + HEADER
      modifies this`headers, this`blocks, this`used, arena
      ensures Valid()
      ensures if pointer == None || old(blocks)[i].free then blocks == old(blocks) && arena[..] == old(arena[..])
              else blocks == Give(old(blocks), i) && used == old(used) - old(blocks)[i].size
                   && PayloadsKept(old(blocks), old(arena[..]), arena[..], |old(blocks)|)
    {
      if pointer == None { return; }
      var p := pointer.value - HEADER;
      NextBlock(i);
      if headers[p].free { return; }
      Release(p, i);
    }

    method Release(p: nat, ghost i: nat)
      requires Tiles(blocks, arena.Length) && Linked(headers, blocks) && Stored(encode, headers, arena[..], blocks)
               && used == UsedSum(blocks)
      requires i < |blocks| && p == Addr(blocks, i) && !blocks[i].free
      modifies this`headers, this`blocks, this`used, arena
      ensures Tiles(blocks, arena.Length) && Linked(headers, blocks) && Stored(encode, headers, arena[..], blocks)
               && used == UsedSum(blocks)
      ensures blocks == Give(old(blocks), i) && used == old(used) - old(blocks)[i].size
      ensures PayloadsKept(old(blocks), old(arena[..]), arena[..], |old(blocks)|)
    {
      ghost var bs, mem := blocks, arena[..];
      MarkFacts(headers, bs, i, arena.Length);
      hide *;
      MarkFree(p, i);
      Coalesce(p, i, bs, mem);
      NoPayloadTouched(bs, mem, arena[..]);
    }

    method MarkFree(p: nat, ghost i: nat)
      requires Tiles(blocks, arena.Length) && Linked(headers, blocks) && Stored(encode, headers, arena[..], blocks)
               && used == UsedSum(blocks)
      requires i < |blocks| && p == Addr(blocks, i) && !blocks[i].free
      modifies this`headers, this`blocks, this`used, arena
      ensures blocks == Marked(old(blocks), i) && Linked(headers, blocks)
      ensures Stored(encode, headers, arena[..], blocks)
      ensures used == old(used) - old(blocks)[i].size
      ensures HeadersOnly(old(blocks), old(arena[..]), arena[..])
    {
      ghost var bs, mem := blocks, arena[..];
      MarkFacts(headers, bs, i, arena.Length);
      assert headers[p].size == bs[i].size && used >= bs[i].size && Addr(bs, |bs|) == arena.Length;
      hide *;
      Put(p, headers[p].(free := true), bs, i, |bs|);
      MarkedSub(encode, headers, arena[..], bs, i);
      StoredHeader(bs, mem, arena[..], i);
      if used >= headers[p].size { used := used - headers[p].size; }
      blocks := Marked(blocks, i);
    }

    /** The two joins of free, right neighbour first. */
    method Coalesce(p: nat, ghost i: nat, ghost bs: seq<Block>, ghost mem: seq<bv8>)
      requires Tiles(bs, arena.Length) && i < |bs| && !bs[i].free && blocks == Marked(bs, i) && Linked(headers, blocks)
      requires Stored(encode, headers, arena[..], blocks)
      requires p == Addr(blocks, i) && HeadersOnly(bs, mem, arena[..])
      modifies this`headers, arena, this`blocks
      ensures blocks == Give(bs, i) && Linked(headers, blocks) && HeadersOnly(bs, mem, arena[..])
      ensures Stored(encode, headers, arena[..], blocks)
    {
      RightFacts(headers, bs, i, arena.Length);
      hide *;
      ghost var marked := blocks;
      var h := headers[p];
      if h.next.Some? && headers[h.next.value].free {
        ghost var mem1 := arena[..];
        Absorb(p, i);
        HeadersOnlyTrans(bs, marked, mem, mem1, arena[..]);
      }
      ghost var joined := blocks;
      LeftFacts(headers, bs, i, arena.Length);
      h := headers[p];
      if h.previous.Some? && headers[h.previous.value].free {
        ghost var mem1 := arena[..];
        Absorb(h.previous.value, i - 1);
        HeadersOnlyTrans(bs, joined, mem, mem1, arena[..]);
      }
    }

    /** Zeroed allocation; refused when count * size does not fit in 64 bits. */
    method Calloc(count: nat, size: nat) returns (pointer: Option<nat>)
      requires Valid()
      modifies this, arena
      ensures Valid()
      ensures var total := count * size;
              if count != 0 && size > SIZE_MAX / count
              then pointer == None && blocks == old(blocks) && arena[..] == old(arena[..])
              else && Malloced(old(blocks), old(arena[..]), blocks, arena[..], first.Some?, total, pointer)
                   && (pointer.Some? ==> pointer.value + total <= arena.Length
                                         && forall x | pointer.value <= x < pointer.value + total :: arena[x] == 0)
    {
      if count != 0 && size > SIZE_MAX / count { return None; }
      var total := count * size;
      ghost var bs, mem := blocks, arena[..];
      pointer := Malloc(total);
      if pointer == None { return; }
      ghost var i := FirstFit(bs, AlignedSize(total), 0);
      ghost var mem1 := arena[..];
      TakenBlock(bs, i, AlignedSize(total), arena.Length);
      assert Tiles(blocks, arena.Length);
      hide *;
      ZeroPayload(pointer.value, total, i);
      SizesFit(total);
      Zeroed(bs, mem, mem1, arena[..], blocks, total, pointer);
    }

    /** Fills the start of block `j`. */
    method ZeroPayload(start: nat, length: nat, ghost j: nat)
      requires Valid() && j < |blocks| && start == Addr(blocks, j) + HEADER && length <= blocks[j].size
      requires start + length <= arena.Length
      modifies arena
      ensures Valid() && SameOutside(old(arena[..]), arena[..], start, start + length)
      ensures forall x | start <= x < start + length :: arena[x] == 0
    {
      ghost var mem := arena[..];
      ZeroFill(start, length);
      PayloadWrite(encode, headers, mem, arena[..], blocks, j, start + length);
    }

    /** bytes_zero. */
    method ZeroFill(start: nat, length: nat)
      requires start + length <= arena.Length
      modifies arena
      ensures forall x | start <= x < start + length :: arena[x] == 0
      ensures forall x | 0 <= x < arena.Length && !(start <= x < start + length) :: arena[x] == old(arena[x])
    {
      for k := 0 to length
        invariant forall x | start <= x < start + k :: arena[x] == 0
        invariant forall x | 0 <= x < arena.Length && !(start <= x < start + k) :: arena[x] == old(arena[x])
      {
        arena[start + k] := 0;
      }
    }

    /** bytes_copy. */
    method Copy(to: nat, from: nat, length: nat)
      requires to + length <= arena.Length && from + length <= arena.Length
      requires to + length <= from || from + length <= to
      modifies arena
      ensures arena[to..to + length] == old(arena[from..from + length])
      ensures forall x | 0 <= x < arena.Length && !(to <= x < to + length) :: arena[x] == old(arena[x])
    {
      for k := 0 to length
        invariant arena[to..to + k] == old(arena[from..from + k])
        invariant forall x | 0 <= x < arena.Length && !(to <= x < to + k) :: arena[x] == old(arena[x])
      {
        arena[to + k] := arena[from + k];
        assert arena[to..to + k + 1] == arena[to..to + k] + [arena[to + k]];
      }
    }

    /** Copies into block `j`. */
    method CopyPayload(to: nat, from: nat, length: nat, ghost j: nat)
      requires Valid() && j < |blocks| && to == Addr(blocks, j) + HEADER && length <= blocks[j].size
      requires to + length <= arena.Length && from + length <= arena.Length
      requires to + length <= from || from + length <= to
      modifies arena
      ensures Valid() && arena[to..to + length] == old(arena[from..from + length])
      ensures forall x | 0 <= x < arena.Length && !(to <= x < to + length) :: arena[x] == old(arena[x])
    {
      ghost var mem := arena[..];
      Copy(to, from, length);
      PayloadWrite(encode, headers, mem, arena[..], blocks, j, to + length);
    }

    /** Grows a block by moving it: the old contents stay a prefix of the new block. `i` is the
        index of the block released or kept. */
    method Realloc(pointer: Option<nat>, size: nat, ghost i: nat) returns (result: Option<nat>)
      requires Valid()
      requires pointer.Some? ==> i < |blocks| && pointer.value == Addr(blocks, i) + HEADER && !blocks[i].free
      modifies this, arena
      ensures Valid()
      ensures pointer == None ==> Malloced(old(blocks), old(arena[..]), blocks, arena[..], first.Some?, size, result)
      ensures pointer.Some? && size > old(blocks)[i].size ==>
                RefusedOrMoved(old(blocks), old(arena[..]), blocks, arena[..], i, pointer, size, result)
      ensures pointer.Some? && size == 0 ==>
                && result == None && blocks == Give(old(blocks), i) && used == old(used) - old(blocks)[i].size
                && PayloadsKept(old(blocks), old(arena[..]), arena[..], |old(blocks)|)
      ensures pointer.Some? && 0 < size <= old(blocks)[i].size ==>
                result == pointer && blocks == old(blocks) && arena[..] == old(arena[..])
    {
      if pointer == None {
        result := Malloc(size);
        return;
      }
      if size == 0 {
        Free(pointer, i);
        return None;
      }
      NextBlock(i);
      if headers[pointer.value - HEADER].size >= size { return pointer; }
      result := Move(pointer.value, size, i);
    }

    method Move(pointer: nat, size: nat, ghost i: nat) returns (result: Option<nat>)
      requires Valid() && i < |blocks| && pointer == Addr(blocks, i) + HEADER && !blocks[i].free && blocks[i].size < size
      modifies this, arena
      ensures Valid()
      ensures RefusedOrMoved(old(blocks), old(arena[..]), blocks, arena[..], i, Some(pointer), size, result)
    {
      hide *;
      ghost var bs, mem := blocks, arena[..];
      MoveBegins(i);
      var length := headers[pointer - HEADER].size;
      result := Malloc(size);
      ghost var needed := AlignedSize(size);
      ghost var f := FirstFit(bs, needed, 0);
      if result == None {
        MoveRefused(bs, mem, blocks, arena[..], i, pointer, size);
        return;
      }
      Allocated(bs, mem, blocks, arena[..], first.Some?, size, result);
      MoveFacts(bs, f, needed, i, arena.Length);
      CopyAndFree(result.value, pointer, length, bs, mem, f, needed, i, size);
      MoveDone(bs, mem, blocks, arena[..], i, pointer, size, result);
    }

    lemma MoveBegins(i: nat)
      requires Valid() && i < |blocks|
      ensures Addr(blocks, i) in headers && headers[Addr(blocks, i)].size == blocks[i].size
      ensures Tiles(blocks, arena.Length) && first != None
    {
      NextBlock(i);
    }

    method CopyAndFree(to: nat, pointer: nat, length: nat,
                       ghost bs: seq<Block>, ghost mem: seq<bv8>, ghost f: nat, ghost needed: nat, ghost i: nat, ghost size: nat)
      requires Valid() && f < |bs| && i < |bs| && f != i && !bs[i].free && Fits(bs[f], needed)
      requires bs[i].size == length < size <= needed && blocks == Take(bs, f, needed)
      requires to == Addr(bs, f) + HEADER && pointer == Addr(bs, i) + HEADER
      requires to + length <= arena.Length && pointer + length <= arena.Length
      requires to + length <= pointer || pointer + length <= to
      requires f < |blocks| && Addr(blocks, f) == Addr(bs, f) && needed <= blocks[f].size
      requires var k := TakeIndex(bs, f, needed, i); k < |blocks| && blocks[k] == bs[i] && Addr(blocks, k) == Addr(bs, i)
      requires PayloadsKept(bs, mem, arena[..], f)
      modifies this`headers, this`blocks, this`used, arena
      ensures Valid() && blocks == Give(old(blocks), TakeIndex(bs, f, needed, i))
      ensures PayloadsKeptBut(bs, mem, arena[..], f, i)
      ensures |mem| == arena.Length && Payload(arena[..], Addr(bs, f), length) == Payload(mem, Addr(bs, i), length)
    {
      hide *;
      ghost var cs, mem1 := blocks, arena[..];
      CopyPayload(to, pointer, length, f);
      ghost var mem2 := arena[..];
      CopyPlaced(bs, mem1, mem2, f, i);
      Free(Some(pointer), TakeIndex(bs, f, needed, i));
      MovedContents(bs, mem, mem1, mem2, arena[..], f, needed, i, size);
    }
  }

  ghost predicate Copied(bs: seq<Block>, mem1: seq<bv8>, mem2: seq<bv8>, f: nat, i: nat) {
    && f < |bs| && i < |bs| && |mem1| == |mem2|
    && Addr(bs, f) + HEADER + bs[i].size <= |mem1| && Addr(bs, i) + HEADER + bs[i].size <= |mem1|
    && Payload(mem2, Addr(bs, f), bs[i].size) == Payload(mem1, Addr(bs, i), bs[i].size)
    && (forall x | 0 <= x < |mem1| && !(Addr(bs, f) + HEADER <= x < Addr(bs, f) + HEADER + bs[i].size) :: mem2[x] == mem1[x])
  }

  lemma CopyPlaced(bs: seq<Block>, mem1: seq<bv8>, mem2: seq<bv8>, f: nat, i: nat)
    requires f < |bs| && i < |bs| && |mem1| == |mem2|
    requires var a, b, n := Addr(bs, f) + HEADER, Addr(bs, i) + HEADER, bs[i].size;
             && a + n <= |mem1| && b + n <= |mem1| && mem2[a..a + n] == mem1[b..b + n]
             && (forall x | 0 <= x < |mem1| && !(a <= x < a + n) :: mem2[x] == mem1[x])
    ensures Copied(bs, mem1, mem2, f, i)
  {
  }

  /** Two changes that both respect the same blocks. */
  lemma ThenKept(bs: seq<Block>, mem: seq<bv8>, mem1: seq<bv8>, mem2: seq<bv8>, i: nat)
    requires i < |bs| && PayloadsKept(bs, mem, mem1, i) && ChangedWithin(bs, mem1, mem2, i)
    ensures PayloadsKept(bs, mem, mem2, i)
  {
    OthersKept(bs, mem1, mem2, i);
    forall j | 0 <= j < |bs| && j != i && !bs[j].free
      ensures PayloadKept(bs, mem, mem2, j)
    {
      assert PayloadKept(bs, mem, mem1, j) && PayloadKept(bs, mem1, mem2, j);
    }
  }

  /** What malloc does: nothing when no block fits; otherwise the first that does is taken, and the
      other blocks keep their bytes. */
  ghost predicate Malloced(bs: seq<Block>, mem: seq<bv8>, ds: seq<Block>, mem': seq<bv8>, started: bool,
                           size: nat, result: Option<nat>)
  {
    var needed := AlignedSize(size);
    var f := FirstFit(bs, needed, 0);
    if needed == 0 || !started || f == |bs| then result == None && ds == bs && mem' == mem
    else && result == Some(Addr(bs, f) + HEADER) && ds == Take(bs, f, needed) && Trimmed(bs, ds, f, needed)
         && PayloadsKept(bs, mem, mem', f)
  }

  lemma Allocated(bs: seq<Block>, mem: seq<bv8>, ds: seq<Block>, mem': seq<bv8>, started: bool, size: nat, result: Option<nat>)
    requires Malloced(bs, mem, ds, mem', started, size, result) && result.Some?
    ensures var needed := AlignedSize(size);
            var f := FirstFit(bs, needed, 0);
            && needed >= size && needed != 0 && f < |bs| && Fits(bs[f], needed) && result == Some(Addr(bs, f) + HEADER)
            && ds == Take(bs, f, needed) && PayloadsKept(bs, mem, mem', f)
  {
    hide PayloadsKept, Take, Addr, AlignedSize, FirstFit, Trimmed;
    SizesFit(size);
  }

  lemma SizesFit(size: nat)
    ensures AlignedSize(size) != 0 ==> AlignedSize(size) >= size
  {
  }

  /** The block handed out, and where it ends. */
  lemma TakenBlock(bs: seq<Block>, i: nat, needed: nat, total: nat)
    requires Tiles(bs, total) && i < |bs| && Fits(bs[i], needed)
    ensures var cs := Take(bs, i, needed);
            i < |cs| && Addr(cs, i) == Addr(bs, i) && cs[i].size >= needed && Addr(bs, i) + HEADER + needed <= total
  {
    TakeKeeps(bs, i, needed, i);
    AddrMono(bs, i, |bs|);
  }

  /** Zeroing part of the block handed out does not disturb what malloc promised. */
  lemma Zeroed(bs: seq<Block>, mem: seq<bv8>, mem1: seq<bv8>, mem2: seq<bv8>, ds: seq<Block>, size: nat, result: Option<nat>)
    requires Malloced(bs, mem, ds, mem1, true, size, result) && result.Some?
    requires SameOutside(mem1, mem2, result.value, result.value + size)
    ensures Malloced(bs, mem, ds, mem2, true, size, result)
  {
    Allocated(bs, mem, ds, mem1, true, size, result);
    ThenKept(bs, mem, mem1, mem2, FirstFit(bs, AlignedSize(size), 0));
    hide PayloadsKept, Take, Trimmed;
  }

  /** A realloc that has to grow: nothing happens when no block fits; otherwise the new block
      starts with the old bytes, the old block is released and the other blocks keep theirs. */
  ghost predicate RefusedOrMoved(bs: seq<Block>, mem: seq<bv8>, ds: seq<Block>, mem': seq<bv8>, i: nat,
                                 pointer: Option<nat>, size: nat, result: Option<nat>)
  {
    var needed := AlignedSize(size);
    var f := FirstFit(bs, needed, 0);
    && pointer.Some? && i < |bs|
    && if needed == 0 || f == |bs| then result == None && ds == bs && mem' == mem
       else && ds == Give(Take(bs, f, needed), TakeIndex(bs, f, needed, i))
            && result == Some(Addr(bs, f) + HEADER)
            && PayloadsKeptBut(bs, mem, mem', f, i)
            && Addr(bs, f) + HEADER + bs[i].size <= |mem'| == |mem| && Addr(bs, i) + HEADER + bs[i].size <= |mem|
            && Payload(mem', Addr(bs, f), bs[i].size) == Payload(mem, Addr(bs, i), bs[i].size)
  }

  lemma MoveRefused(bs: seq<Block>, mem: seq<bv8>, ds: seq<Block>, mem': seq<bv8>, i: nat, pointer: nat, size: nat)
    requires i < |bs| && Malloced(bs, mem, ds, mem', true, size, None)
    ensures RefusedOrMoved(bs, mem, ds, mem', i, Some(pointer), size, None)
  {
  }

  lemma MoveDone(bs: seq<Block>, mem: seq<bv8>, ds: seq<Block>, mem': seq<bv8>, i: nat, pointer: nat, size: nat,
                 result: Option<nat>)
    requires var needed := AlignedSize(size);
             var f := FirstFit(bs, needed, 0);
             && i < |bs| && needed != 0 && f < |bs|
             && ds == Give(Take(bs, f, needed), TakeIndex(bs, f, needed, i))
             && result == Some(Addr(bs, f) + HEADER)
             && PayloadsKeptBut(bs, mem, mem', f, i)
             && Addr(bs, f) + HEADER + bs[i].size <= |mem'| == |mem| && Addr(bs, i) + HEADER + bs[i].size <= |mem|
             && Payload(mem', Addr(bs, f), bs[i].size) == Payload(mem, Addr(bs, i), bs[i].size)
    ensures RefusedOrMoved(bs, mem, ds, mem', i, Some(pointer), size, result)
  {
    hide PayloadsKeptBut, Give, Take, TakeIndex, Addr, FirstFit;
  }

  ghost predicate PayloadsKeptBut(bs: seq<Block>, mem: seq<bv8>, mem': seq<bv8>, f: nat, i: nat) {
    forall j | 0 <= j < |bs| && j != f && j != i && !bs[j].free :: PayloadKept(bs, mem, mem', j)
  }

  /** Where the moved block, its copy and its neighbours are after the allocation. */
  lemma MoveFacts(bs: seq<Block>, f: nat, needed: nat, i: nat, total: nat)
    requires Tiles(bs, total) && f < |bs| && i < |bs| && !bs[i].free && Fits(bs[f], needed) && bs[i].size < needed
    ensures var cs := Take(bs, f, needed);
            var k := TakeIndex(bs, f, needed, i);
            && f != i && k < |cs| && cs[k] == bs[i] && Addr(cs, k) == Addr(bs, i)
            && f < |cs| && Addr(cs, f) == Addr(bs, f) && needed <= cs[f].size
            && Addr(bs, f) + HEADER + needed <= total && Addr(bs, i) + HEADER + bs[i].size <= total
            && (Addr(bs, f) + HEADER + needed <= Addr(bs, i) || Addr(bs, i) + HEADER + bs[i].size <= Addr(bs, f))
  {
    TakeKeeps(bs, f, needed, i);
    TakeKeeps(bs, f, needed, f);
    AddrMono(bs, f, |bs|);
    AddrMono(bs, i, |bs|);
    Apart(bs, f, i);
  }

  lemma MovedPrefix(bs: seq<Block>, mem: seq<bv8>, mem1: seq<bv8>, mem2: seq<bv8>, mem3: seq<bv8>,
                    f: nat, needed: nat, i: nat)
    requires f < |bs| && i < |bs| && f != i && !bs[i].free && Fits(bs[f], needed) && bs[i].size < needed
    requires PayloadsKept(bs, mem, mem1, f) && Copied(bs, mem1, mem2, f, i)
    requires var cs := Take(bs, f, needed); PayloadsKept(cs, mem2, mem3, |cs|)
    ensures |mem3| == |mem| && Payload(mem3, Addr(bs, f), bs[i].size) == Payload(mem, Addr(bs, i), bs[i].size)
  {
    var cs := Take(bs, f, needed);
    TakeKeeps(bs, f, needed, f);
    assert PayloadKept(bs, mem, mem1, i);
    assert PayloadKept(cs, mem2, mem3, f);
    assert Payload(mem3, Addr(bs, f), bs[i].size) == Payload(mem3, Addr(bs, f), cs[f].size)[..bs[i].size];
    assert Payload(mem2, Addr(bs, f), bs[i].size) == Payload(mem2, Addr(bs, f), cs[f].size)[..bs[i].size];
  }

  lemma MovedContents(bs: seq<Block>, mem: seq<bv8>, mem1: seq<bv8>, mem2: seq<bv8>, mem3: seq<bv8>,
                      f: nat, needed: nat, i: nat, size: nat)
    requires f < |bs| && i < |bs| && f != i && !bs[i].free && Fits(bs[f], needed) && bs[i].size < size <= needed
    requires PayloadsKept(bs, mem, mem1, f) && Copied(bs, mem1, mem2, f, i)
    requires var cs := Take(bs, f, needed); PayloadsKept(cs, mem2, mem3, |cs|)
    ensures PayloadsKeptBut(bs, mem, mem3, f, i)
    ensures |mem3| == |mem| && Payload(mem3, Addr(bs, f), bs[i].size) == Payload(mem, Addr(bs, i), bs[i].size)
  {
    var cs := Take(bs, f, needed);
    MovedPrefix(bs, mem, mem1, mem2, mem3, f, needed, i);
    CopyWithin(bs, mem1, mem2, f, i);
    ThenKept(bs, mem, mem1, mem2, f);
    forall j | 0 <= j < |bs| && j != f && j != i && !bs[j].free
      ensures PayloadKept(bs, mem, mem3, j)
    {
      TakeKeeps(bs, f, needed, j);
      assert PayloadKept(bs, mem, mem2, j);
      assert PayloadKept(cs, mem2, mem3, TakeIndex(bs, f, needed, j));
    }
  }

  lemma CopyWithin(bs: seq<Block>, mem1: seq<bv8>, mem2: seq<bv8>, f: nat, i: nat)
    requires Copied(bs, mem1, mem2, f, i) && bs[i].size <= bs[f].size
    ensures ChangedWithin(bs, mem1, mem2, f)
  {
  }
}
