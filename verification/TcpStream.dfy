/** What the pending bytes are after any interleaving of frames, reads and sends: one
    in-order run of one connection. */
module TcpStream {
  import opened Bytes
  import opened Checksums
  import opened Options
  import opened Packets

  datatype Event =
    | Frame(bytes: seq<Byte>, other: bool)
    | Read(remote: nat, localPort: nat, remotePort: nat)
    | SendData
    | SendSyn
    | SetDevice(mac: seq<Byte>)
    | SetLink(up: bool)
    | SetAddress(address: nat)

  function Step(n: Net, e: Event): Net {
    match e
    case Frame(bytes, other) => Receive(n, bytes, other).0
    case Read(remote, local, port) => if Offers(n, remote, local, port) then n.(data := []) else n
    case SendData => n.(data := [], fin := false)
    case SendSyn => n.(syn := false)
    case SetDevice(mac) => if |mac| == 6 then n.(mac := mac, link := Down) else n
    case SetLink(up) => if n.link == NoDevice then n else n.(link := if up then Up else Down)
    case SetAddress(address) => n.(own := address)
  }

  function Run(n: Net, events: seq<Event>): Net {
    if events == [] then n else Step(Run(n, events[..|events| - 1]), events[|events| - 1])
  }

  /** The segment whose bytes this event put into the buffer. */
  function Added(n: Net, e: Event): Option<Segment> {
    if e.Frame? && |e.bytes| >= FRAME_MIN && n.link == Up && Carried(e.bytes).Some?
       && Carried(e.bytes).value.data != [] && Continues(Adopt(n, Carried(e.bytes).value), Carried(e.bytes).value)
    then Carried(e.bytes) else None
  }

  /** The accepted segments since the buffer was last empty. */
  function Log(n: Net, events: seq<Event>): seq<Segment> {
    if events == [] then []
    else
      var before, e := Run(n, events[..|events| - 1]), events[|events| - 1];
      var log := Log(n, events[..|events| - 1]);
      match Added(before, e)
      case Some(s) => log + [s]
      case None => if Step(before, e).data == [] then [] else log
  }

  function Content(log: seq<Segment>): seq<Byte> {
    if log == [] then [] else Content(log[..|log| - 1]) + log[|log| - 1].data
  }

  /** How many of the segments carried FIN; each takes a sequence number of its own. */
  function Fins(log: seq<Segment>): nat {
    if log == [] then 0 else Fins(log[..|log| - 1]) + log[|log| - 1].FinBit()
  }

  ghost predicate SamePeer(s: Segment, t: Segment) {
    s.source == t.source && s.remotePort == t.remotePort && s.localPort == t.localPort
  }

  /** The sequence number that follows everything in the log. */
  function After(log: seq<Segment>): nat
    requires log != []
  {
    Plus(log[0].sequence, |Content(log)| + Fins(log))
  }

  /** One peer, no empty segment, and each segment starts where the log before it ends. */
  ghost predicate InOrder(log: seq<Segment>) {
    forall i | 0 <= i < |log| ::
      && SamePeer(log[i], log[0]) && log[i].data != [] && log[i].sequence < MODULUS
      && (i > 0 ==> log[i].sequence == After(log[..i]))
  }

  /** The buffer is the log: same bytes, same connection, and the next sequence number. */
  ghost predicate Holds(n: Net, log: seq<Segment>) {
    && n.data == Content(log) && |n.data| <= RECEIVE_LIMIT && InOrder(log)
    && (log == [] <==> n.data == [])
    && (log != [] ==>
          && n.peer == log[0].source && n.remotePort == log[0].remotePort && n.localPort == log[0].localPort
          && n.next == After(log))
  }

  lemma LogGrows(log: seq<Segment>, s: Segment)
    ensures Content(log + [s]) == Content(log) + s.data && Fins(log + [s]) == Fins(log) + s.FinBit()
  {
    assert (log + [s])[..|log|] == log;
  }

  lemma InOrderGrows(log: seq<Segment>, s: Segment)
    requires InOrder(log) && s.data != [] && s.sequence < MODULUS
    requires log != [] ==> SamePeer(s, log[0]) && s.sequence == After(log)
    ensures InOrder(log + [s])
  {
    var grown := log + [s];
    assert forall i | 0 <= i <= |log| :: grown[..i] == log[..i];
    assert log[..|log|] == log;
  }

  lemma CarriedSequence(f: seq<Byte>)
    requires Carried(f).Some?
    ensures Carried(f).value.sequence < MODULUS
  {
    hide Canon, WordSum, PseudoSum;
  }

  lemma AppendHolds(n: Net, log: seq<Segment>, s: Segment)
    requires Holds(n, log) && s.data != [] && s.sequence < MODULUS && Continues(Adopt(n, s), s)
    ensures Holds(Append(n, s).0, log + [s])
  {
    LogGrows(log, s);
    if log == [] {
      assert Content([]) == [] && Fins([]) == 0;
      assert (log + [s])[0] == s;
    }
    InOrderGrows(log, s);
    ModAdd(n.next, |s.data| + s.FinBit(), log, s);
  }

  lemma ModAdd(next: nat, k: nat, log: seq<Segment>, s: Segment)
    requires log != [] ==> next == After(log)
    requires k == |s.data| + s.FinBit() && s.sequence < MODULUS
    requires Content(log + [s]) == Content(log) + s.data && Fins(log + [s]) == Fins(log) + s.FinBit()
    ensures log != [] ==> Plus(next, k) == After(log + [s])
    ensures log == [] ==> Plus(s.sequence, k) == After(log + [s])
  {
    if log != [] {
      var total := log[0].sequence + |Content(log)| + Fins(log);
      assert (total % MODULUS + k) % MODULUS == (total + k) % MODULUS;
    }
  }

  lemma ReceiveOf(n: Net, f: seq<Byte>, other: bool)
    ensures Receive(n, f, other).0 ==
            if |f| >= FRAME_MIN && n.link == Up && Carried(f).Some?
            then ReceiveSegment(n, Carried(f).value).0 else n
  {
    hide DecodeTcp, DecodeIpv4, ReceiveSegment;
  }

  /** Fields the buffer invariant depends on. */
  ghost predicate SameBuffer(n: Net, m: Net) {
    n.data == m.data && n.peer == m.peer && n.remotePort == m.remotePort && n.localPort == m.localPort
    && n.next == m.next
  }

  lemma SameHolds(n: Net, m: Net, log: seq<Segment>)
    requires Holds(n, log) && (SameBuffer(n, m) || m.data == [])
    ensures Holds(m, if m.data == [] then [] else log)
  {
    assert Content([]) == [];
  }

  lemma TakenHolds(n: Net, log: seq<Segment>, s: Segment)
    requires Holds(n, log) && s.sequence < MODULUS && s.data != [] && Continues(Adopt(n, s), s)
    ensures Holds(ReceiveSegment(n, s).0, log + [s])
  {
    var marked, m := NoteFin(n, s), ReceiveSegment(n, s).0;
    var taken := Append(marked, s).0;
    assert SameBuffer(n, marked) && taken.data != [] && SameBuffer(taken, m);
    assert m.data != [] && Continues(Adopt(marked, s), s);
    hide Append, NoteFin, ReceiveSegment, Holds, Continues, Adopt;
    SameHolds(n, marked, log);
    if marked.data == [] {
      assert log == [] by { EmptyLog(n, log); }
    }
    AppendHolds(marked, log, s);
    SameHolds(taken, m, log + [s]);
  }

  lemma EmptyLog(n: Net, log: seq<Segment>)
    requires Holds(n, log) && n.data == []
    ensures log == []
  {
  }

  lemma SegmentHolds(n: Net, log: seq<Segment>, s: Segment)
    requires Holds(n, log) && s.sequence < MODULUS
    ensures var m := ReceiveSegment(n, s).0;
            if s.data != [] && Continues(Adopt(n, s), s) then Holds(m, log + [s])
            else Holds(m, if m.data == [] then [] else log)
  {
    var m := ReceiveSegment(n, s).0;
    if s.data != [] && Continues(Adopt(n, s), s) {
      hide *;
      TakenHolds(n, log, s);
    } else {
      assert SameBuffer(n, m) || m.data == [];
      hide *;
      SameHolds(n, m, log);
    }
  }

  lemma StepHolds(n: Net, log: seq<Segment>, e: Event)
    requires Holds(n, log)
    ensures Added(n, e).Some? ==> Holds(Step(n, e), log + [Added(n, e).value])
    ensures Added(n, e).None? ==> Holds(Step(n, e), if Step(n, e).data == [] then [] else log)
  {
    if e.Frame? {
      ReceiveOf(n, e.bytes, e.other);
      hide Receive, Holds, Carried;
      if |e.bytes| >= FRAME_MIN && n.link == Up && Carried(e.bytes).Some? {
        var s := Carried(e.bytes).value;
        CarriedSequence(e.bytes);
        SegmentHolds(n, log, s);
        hide ReceiveSegment, Continues, Adopt;
      } else {
        SameHolds(n, Step(n, e), log);
      }
    } else {
      assert SameBuffer(n, Step(n, e)) || Step(n, e).data == [];
      hide Holds;
      SameHolds(n, Step(n, e), log);
    }
  }

  /** Whatever happens on the wire and in the callers, starting from an empty buffer, the pending
      bytes are the data of the logged segments, in order and of one connection. */
  lemma {:induction false} RunHolds(n: Net, events: seq<Event>)
    requires n.data == []
    ensures Holds(Run(n, events), Log(n, events))
  {
    if events == [] {
      assert Content([]) == [];
    } else {
      var before, e := Run(n, events[..|events| - 1]), events[|events| - 1];
      RunHolds(n, events[..|events| - 1]);
      StepHolds(before, Log(n, events[..|events| - 1]), e);
      hide Holds, Step, Added;
    }
  }

  lemma {:induction false} FinsAtMost(log: seq<Segment>)
    requires forall i | 0 <= i < |log| :: log[i].data != []
    ensures Fins(log) <= |Content(log)|
  {
    if log != [] {
      FinsAtMost(log[..|log| - 1]);
    }
  }

  /** The next sequence number is the first one plus the length exactly when no data segment with
      FIN was taken: each of those moves it one further. */
  lemma ContiguousUnlessFin(n: Net, events: seq<Event>)
    requires n.data == [] && Log(n, events) != []
    ensures |Run(n, events).data| <= RECEIVE_LIMIT
    ensures Run(n, events).next == Plus(Log(n, events)[0].sequence, |Run(n, events).data|)
            <==> Fins(Log(n, events)) == 0
  {
    RunHolds(n, events);
    hide *;
    NextOf(Run(n, events), Log(n, events));
  }

  lemma NextOf(n: Net, log: seq<Segment>)
    requires Holds(n, log) && log != []
    ensures |n.data| <= RECEIVE_LIMIT
    ensures n.next == Plus(log[0].sequence, |n.data|) <==> Fins(log) == 0
  {
    assert forall i | 0 <= i < |log| :: log[i].data != [];
    FinsAtMost(log);
    hide InOrder, Content, Fins;
    SmallShift(log[0].sequence + |n.data|, Fins(log));
  }

  lemma PlusInjective(first: nat, a: nat, b: nat)
    requires b <= a < MODULUS
    ensures Plus(first, a) == Plus(first, b) <==> a == b
  {
    SmallShift(first + b, a - b);
  }

  lemma SmallShift(base: nat, k: nat)
    requires k < MODULUS
    ensures (base + k) % MODULUS == base % MODULUS <==> k == 0
  {
    var p, q := (base + k) / MODULUS, base / MODULUS;
    if (base + k) % MODULUS == base % MODULUS {
      assert k == (p - q) * MODULUS;
    }
  }

  /** Every logged segment came in one of the run's frames. */
  lemma {:induction false} LogFromFrames(n: Net, events: seq<Event>, i: nat)
    requires i < |Log(n, events)|
    ensures exists j | 0 <= j < |events| :: events[j].Frame? && Carried(events[j].bytes) == Some(Log(n, events)[i])
  {
    var prefix, last := events[..|events| - 1], |events| - 1;
    if i < |Log(n, prefix)| && Log(n, events)[i] == Log(n, prefix)[i] {
      LogFromFrames(n, prefix, i);
      var j :| 0 <= j < |prefix| && prefix[j].Frame? && Carried(prefix[j].bytes) == Some(Log(n, prefix)[i]);
      assert events[j] == prefix[j];
    } else {
      assert events[last].Frame? && Carried(events[last].bytes) == Some(Log(n, events)[i]);
    }
  }

  // ---- Against a sender's stream ------------------------------------------------------------

  /** The segment is the piece at offset `o` of `stream`, numbered from `first`; a FIN only ever
      closes the stream. */
  ghost predicate PieceAt(s: Segment, stream: seq<Byte>, first: nat, o: nat) {
    && o + |s.data| <= |stream| && s.data == stream[o..o + |s.data|]
    && s.sequence == Plus(first, o)
    && (s.Fin() ==> o + |s.data| == |stream|)
  }

  ghost predicate Piece(s: Segment, stream: seq<Byte>, first: nat) {
    exists o: nat :: PieceAt(s, stream, first, o)
  }

  /** The log covers the stream from `o` on, and a FIN in it means the end was reached. */
  ghost predicate Covers(log: seq<Segment>, stream: seq<Byte>, first: nat, o: nat) {
    && o + |Content(log)| <= |stream| && Content(log) == stream[o..o + |Content(log)|]
    && (log != [] ==> log[0].sequence == Plus(first, o))
    && Fins(log) <= 1 && (Fins(log) == 1 ==> o + |Content(log)| == |stream|)
  }

  lemma SameOffset(a: nat, b: nat, first: nat)
    requires a < MODULUS && b < MODULUS && (first + a) % MODULUS == (first + b) % MODULUS
    ensures a == b
  {
    if a >= b {
      SmallShift(first + b, a - b);
    } else {
      SmallShift(first + a, b - a);
    }
  }

  lemma CoversGrows(log: seq<Segment>, s: Segment, stream: seq<Byte>, first: nat, o: nat)
    requires log != [] && |stream| + 1 < MODULUS && Covers(log, stream, first, o)
    requires s.data != [] && Piece(s, stream, first) && s.sequence == After(log)
    ensures Covers(log + [s], stream, first, o)
  {
    LogGrows(log, s);
    var p: nat :| PieceAt(s, stream, first, p);
    var q := o + |Content(log)| + Fins(log);
    AfterIs(log, stream, first, o);
    SameOffset(q, p, first);
    assert Fins(log) == 0;
    assert stream[o..p] + stream[p..p + |s.data|] == stream[o..p + |s.data|];
  }

  lemma AfterIs(log: seq<Segment>, stream: seq<Byte>, first: nat, o: nat)
    requires log != [] && Covers(log, stream, first, o)
    ensures After(log) == Plus(first, o + |Content(log)| + Fins(log))
  {
    var k := |Content(log)| + Fins(log);
    assert ((first + o) % MODULUS + k) % MODULUS == (first + o + k) % MODULUS;
  }

  lemma FirstCovers(s: Segment, stream: seq<Byte>, first: nat) returns (o: nat)
    requires s.data != [] && Piece(s, stream, first)
    ensures Covers([s], stream, first, o)
  {
    o :| PieceAt(s, stream, first, o);
    LogGrows([], s);
    assert [] + [s] == [s];
    assert Content([s]) == [] + s.data == s.data;
  }

  lemma InOrderFront(log: seq<Segment>)
    requires |log| > 1 && InOrder(log)
    ensures InOrder(log[..|log| - 1])
    ensures log[|log| - 1].data != [] && log[|log| - 1].sequence == After(log[..|log| - 1])
  {
    var front := log[..|log| - 1];
    assert forall i | 0 <= i < |front| :: front[..i] == log[..i];
    hide After;
  }

  lemma {:induction false} InOrderCovers(log: seq<Segment>, stream: seq<Byte>, first: nat) returns (o: nat)
    requires log != [] && InOrder(log) && |stream| + 1 < MODULUS
    requires forall i | 0 <= i < |log| :: Piece(log[i], stream, first)
    ensures Covers(log, stream, first, o)
  {
    var front, s := log[..|log| - 1], log[|log| - 1];
    assert log == front + [s];
    assert Piece(s, stream, first);
    if |log| == 1 {
      o := FirstCovers(s, stream, first);
      assert log == [s];
    } else {
      InOrderFront(log);
      hide InOrder, After, Covers, Piece;
      o := InOrderCovers(front, stream, first);
      CoversGrows(front, s, stream, first, o);
    }
  }

  /** If every segment of a connection is a piece of its sender's stream, duplicated, lost or
      reordered at will and mixed with any other traffic, then whenever the buffer belongs to
      that connection it is one contiguous stretch of the stream. */
  lemma BufferIsStretch(n: Net, events: seq<Event>, who: Segment, stream: seq<Byte>, first: nat)
    returns (o: nat)
    requires n.data == [] && |stream| + 1 < MODULUS
    requires forall j | 0 <= j < |events| && events[j].Frame? && Carried(events[j].bytes).Some?
               && SamePeer(Carried(events[j].bytes).value, who)
               :: Piece(Carried(events[j].bytes).value, stream, first)
    requires Run(n, events).data != []
    requires Offers(Run(n, events), who.source, who.localPort, who.remotePort)
    ensures o + |Run(n, events).data| <= |stream|
    ensures Run(n, events).data == stream[o..o + |Run(n, events).data|]
  {
    RunHolds(n, events);
    var log := Log(n, events);
    forall i | 0 <= i < |log| ensures Piece(log[i], stream, first) {
      LogFromFrames(n, events, i);
      assert SamePeer(log[i], log[0]);
    }
    hide Run, Log;
    o := InOrderCovers(log, stream, first);
  }

  // ---- Reading ------------------------------------------------------------------------------

  /** A read copies only what fits, yet the sequence number it reports covers every pending byte:
      nothing is lost exactly when the caller's buffer is large enough. */
  lemma ReadLosesNothing(n: Net, events: seq<Event>, capacity: nat)
    requires n.data == [] && Log(n, events) != [] && Fins(Log(n, events)) == 0
    ensures Run(n, events).next == Plus(Log(n, events)[0].sequence, Min(|Run(n, events).data|, capacity))
            <==> |Run(n, events).data| <= capacity
  {
    ContiguousUnlessFin(n, events);
    hide Run, Log, Fins, Plus;
    PlusInjective(Log(n, events)[0].sequence, |Run(n, events).data|, Min(|Run(n, events).data|, capacity));
  }
}
