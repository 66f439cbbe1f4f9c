/** Ethernet, IPv4 and TCP as the network core reads and writes them, and the state its
    receivers leave behind for the polling calls. */
module Packets {
  import opened Bytes
  import opened Checksums
  import opened Options

  const FRAME_MIN: nat := 60
  const TYPE_ARP: nat := 0x0806
  const TYPE_IPV4: nat := 0x0800
  const PROTOCOL_TCP: nat := 6
  const PROTOCOL_UDP: nat := 17
  const RECEIVE_LIMIT: nat := 4096
  const DATA_MAX: nat := 1400
  const WINDOW: nat := 16384
  const MODULUS: nat := 0x1_0000_0000
  const FIN: nat := 0x01
  const SYN: nat := 0x02
  const PSH: nat := 0x08
  const ACK: nat := 0x10

  datatype Link = NoDevice | Down | Up

  /** Sender's address first; `remotePort` is the sender's port, `localPort` ours. */
  datatype Segment = Segment(source: nat, destination: nat, remotePort: nat, localPort: nat,
                             sequence: nat, acknowledgment: nat, flags: Byte, window: nat,
                             data: seq<Byte>)
  {
    predicate Fin() { flags % 2 == 1 }
    predicate SynAck() { flags / 2 % 2 == 1 && flags / 16 % 2 == 1 }
    function FinBit(): nat { if Fin() then 1 else 0 }
  }

  /** Sequence number arithmetic, modulo 2^32. */
  function Plus(sequence: nat, k: nat): nat { (sequence + k) % MODULUS }

  datatype FinNote = FinNote(peer: nat, remotePort: nat, localPort: nat, next: nat)
  datatype SynNote = SynNote(peer: nat, remotePort: nat, localPort: nat, sequence: nat,
                             acknowledgment: nat, window: nat)

  /** The link, our address, the pending bytes of one connection, and the two notes. */
  datatype Net = Net(link: Link, own: nat, mac: seq<Byte>,
                     data: seq<Byte>, peer: nat, remotePort: nat, localPort: nat, next: nat,
                     fin: bool, finNote: FinNote, syn: bool, synNote: SynNote)

  /** What the IPv4 layer makes of a packet. */
  datatype Datagram = Refused | Passed | Udp | Tcp(payload: seq<Byte>, source: nat, destination: nat)

  // ---- Parsing ------------------------------------------------------------------------------

  function TcpChecksum(p: seq<Byte>, source: nat, destination: nat): nat {
    WORD_MAX - Canon(PseudoSum(source, destination, PROTOCOL_TCP, |p|) + WordSum(p))
  }

  function DecodeTcp(p: seq<Byte>, source: nat, destination: nat): Option<Segment> {
    if |p| < 20 || TcpChecksum(p, source, destination) != 0 then None
    else
      var header := p[12] / 16 * 4;
      if header < 20 || header > |p| then None
      else Some(Segment(source, destination, Be16(p, 0), Be16(p, 2), Be32(p, 4), Be32(p, 8), p[13],
                        Be16(p, 14), p[header..]))
  }

  function DecodeIpv4(p: seq<Byte>): (d: Datagram)
    ensures d.Tcp? ==> |d.payload| <= WORD_MAX && d.source <= UINT32_MAX && d.destination <= UINT32_MAX
  {
    if |p| < 20 || p[0] / 16 != 4 then Refused
    else
      var header := p[0] % 16 * 4;
      var total := Be16(p, 2);
      if header < 20 || header > 60 || header > |p| || total < header || total > |p| then Refused
      else if WORD_MAX - Canon(WordSum(p[..header])) != 0 then Refused
      else if Be16(p, 6) % 0x4000 != 0 then Refused
      else if p[9] == PROTOCOL_UDP then Udp
      else if p[9] == PROTOCOL_TCP then Tcp(p[header..total], Be32(p, 12), Be32(p, 16))
      else Passed
  }

  // ---- Receiving ----------------------------------------------------------------------------

  function NoteFin(n: Net, s: Segment): Net {
    if s.Fin() then
      n.(fin := true,
         finNote := FinNote(s.source, s.remotePort, s.localPort, Plus(s.sequence, |s.data| + 1)))
    else n
  }

  predicate Continues(n: Net, s: Segment) {
    && n.peer == s.source && n.remotePort == s.remotePort && n.localPort == s.localPort
    && n.next == s.sequence && |n.data| + |s.data| <= RECEIVE_LIMIT
  }

  /** An empty buffer first takes over the connection of the arriving segment. */
  function Adopt(n: Net, s: Segment): Net {
    if n.data == [] then
      n.(peer := s.source, remotePort := s.remotePort, localPort := s.localPort, next := s.sequence)
    else n
  }

  function Append(n: Net, s: Segment): (Net, bool) {
    if s.data == [] then (n, true)
    else
      var m := Adopt(n, s);
      if !Continues(m, s) then (m, false)
      else (m.(data := m.data + s.data, next := Plus(m.next, |s.data| + s.FinBit())), true)
  }

  function NoteSynAck(n: Net, s: Segment): Net {
    if s.SynAck() then
      n.(syn := true,
         synNote := SynNote(s.source, s.remotePort, s.localPort, s.sequence, s.acknowledgment, s.window))
    else n
  }

  function ReceiveSegment(n: Net, s: Segment): (Net, bool) {
    var r := Append(NoteFin(n, s), s);
    if r.1 then (NoteSynAck(r.0, s), true) else r
  }

  /** The segment a frame carries, when every check on the way to it passes. */
  function Carried(frame: seq<Byte>): Option<Segment> {
    if |frame| < FRAME_MIN || Be16(frame, 12) != TYPE_IPV4 then None
    else
      var d := DecodeIpv4(frame[14..]);
      if d.Tcp? then DecodeTcp(d.payload, d.source, d.destination) else None
  }

  function ReceiveDatagram(n: Net, d: Datagram, other: bool): (Net, bool) {
    match d
    case Refused => (n, false)
    case Passed => (n, true)
    case Udp => (n, other)
    case Tcp(payload, source, destination) =>
      match DecodeTcp(payload, source, destination)
      case None => (n, false)
      case Some(s) => ReceiveSegment(n, s)
  }

  lemma DatagramCases(n: Net, d: Datagram, other: bool)
    ensures d.Refused? ==> ReceiveDatagram(n, d, other) == (n, false)
    ensures d.Passed? ==> ReceiveDatagram(n, d, other) == (n, true)
    ensures d.Udp? ==> ReceiveDatagram(n, d, other) == (n, other)
    ensures d.Tcp? ==> ReceiveDatagram(n, d, other) == ReceiveDatagram(n, d, false)
  {
  }

  lemma TcpBounds(p: seq<Byte>)
    ensures var d := DecodeIpv4(p);
            d.Tcp? ==> |d.payload| <= WORD_MAX && d.source <= UINT32_MAX && d.destination <= UINT32_MAX
  {
  }

  /** One incoming frame. `other` is the verdict of the ARP and UDP receivers, which touch none
      of this state. */
  function Receive(n: Net, frame: seq<Byte>, other: bool): (Net, bool) {
    if |frame| < FRAME_MIN || n.link != Up then (n, false)
    else if Be16(frame, 12) == TYPE_ARP then (n, other)
    else if Be16(frame, 12) != TYPE_IPV4 then (n, false)
    else ReceiveDatagram(n, DecodeIpv4(frame[14..]), other)
  }

  /** Handing the pending bytes to a reader that names the connection. */
  predicate Offers(n: Net, remote: nat, localPort: nat, remotePort: nat) {
    n.data != [] && n.peer == remote && n.localPort == localPort && n.remotePort == remotePort
  }

  function Min(a: nat, b: nat): nat { if a <= b then a else b }

  // ---- Building -----------------------------------------------------------------------------

  ghost predicate IpHeader(h: seq<Byte>, ident: nat, total: nat, own: nat, remote: nat) {
    && |h| == 20 && h[0] == 0x45 && h[1] == 0 && Be16(h, 2) == total && Be16(h, 4) == ident
    && Be16(h, 6) == 0 && h[8] == 64 && h[9] == PROTOCOL_TCP
    && Be32(h, 12) == own && Be32(h, 16) == remote
    && Be16(h, 10) == WORD_MAX - Canon(WordSum(h[10 := 0][11 := 0]))
  }

  ghost predicate TcpSegment(t: seq<Byte>, s: Segment) {
    && |t| == 20 + |s.data| && Be16(t, 0) == s.remotePort && Be16(t, 2) == s.localPort
    && Be32(t, 4) == s.sequence && Be32(t, 8) == s.acknowledgment
    && t[12] == 0x50 && t[13] == s.flags && Be16(t, 14) == s.window && Be16(t, 18) == 0
    && t[20..] == s.data
    && Be16(t, 16) == TcpChecksum(t[16 := 0][17 := 0], s.source, s.destination)
  }

  /** The frame that carries segment `s` from our card to `target`; bytes after the segment are
      zero padding. */
  ghost predicate Frames(f: seq<Byte>, target: seq<Byte>, mac: seq<Byte>, ident: nat, s: Segment) {
    && |target| == |mac| == 6 && |f| >= 54 + |s.data|
    && f[..6] == target && f[6..12] == mac && Be16(f, 12) == TYPE_IPV4
    && IpHeader(f[14..34], ident, 40 + |s.data|, s.source, s.destination)
    && TcpSegment(f[34..54 + |s.data|], s)
    && forall k | 54 + |s.data| <= k < |f| :: f[k] == 0
  }

  // ---- Properties ---------------------------------------------------------------------------

  lemma IpHeaderVerifies(h: seq<Byte>, ident: nat, total: nat, own: nat, remote: nat)
    requires IpHeader(h, ident, total, own, remote)
    ensures Canon(WordSum(h)) == WORD_MAX
  {
    FilledVerifies(h[10 := 0][11 := 0], h, 10, 0);
  }

  lemma SegmentVerifies(t: seq<Byte>, s: Segment)
    requires TcpSegment(t, s)
    ensures TcpChecksum(t, s.source, s.destination) == 0
  {
    FilledVerifies(t[16 := 0][17 := 0], t, 16, PseudoSum(s.source, s.destination, PROTOCOL_TCP, |t|));
  }

  lemma SegmentDecodes(t: seq<Byte>, s: Segment)
    requires TcpSegment(t, s)
    ensures DecodeTcp(t, s.source, s.destination) == Some(s)
  {
    SegmentVerifies(t, s);
    hide TcpChecksum, WordSum;
  }

  lemma PacketDecodes(p: seq<Byte>, ident: nat, total: nat, own: nat, remote: nat)
    requires 20 <= total <= |p| && IpHeader(p[..20], ident, total, own, remote)
    ensures DecodeIpv4(p) == Tcp(p[20..total], own, remote)
  {
    var h := p[..20];
    IpHeaderVerifies(h, ident, total, own, remote);
    assert Be16(p, 2) == Be16(h, 2) && Be16(p, 6) == Be16(h, 6);
    assert Be32(p, 12) == Be32(h, 12) && Be32(p, 16) == Be32(h, 16);
    hide Canon, WordSum, Be32;
  }

  /** What the builders write, the receiver reads back, unless the frame is a runt. */
  lemma FrameDecodes(f: seq<Byte>, target: seq<Byte>, mac: seq<Byte>, ident: nat, s: Segment)
    requires Frames(f, target, mac, ident, s)
    ensures Carried(f) == if |f| >= FRAME_MIN then Some(s) else None
  {
    var p := f[14..];
    var total := 40 + |s.data|;
    assert p[..20] == f[14..34];
    PacketDecodes(p, ident, total, s.source, s.destination);
    assert p[20..total] == f[34..54 + |s.data|];
    SegmentDecodes(p[20..total], s);
    hide DecodeTcp, DecodeIpv4;
  }

  lemma ReceiveCarried(n: Net, f: seq<Byte>, other: bool)
    requires n.link == Up && Carried(f).Some?
    ensures Receive(n, f, other) == ReceiveSegment(n, Carried(f).value)
  {
    hide DecodeTcp, DecodeIpv4;
  }

  /** A segment of bytes without FIN or SYN arriving at an empty buffer becomes its contents. */
  lemma FirstSegment(n: Net, s: Segment)
    requires n.data == [] && 0 < |s.data| <= DATA_MAX && s.flags == PSH + ACK
    ensures ReceiveSegment(n, s) == (Adopt(n, s).(data := s.data,
                                                  next := Plus(s.sequence, |s.data|)), true)
  {
    assert [] + s.data == s.data;
  }

  /** A data frame fed straight back is accepted exactly when it carries at least six bytes;
      shorter ones make a frame below the Ethernet minimum, since data frames are not padded.
      The reader then gets the bytes and the sequence number after them. */
  lemma DataRoundTrip(n: Net, f: seq<Byte>, target: seq<Byte>, mac: seq<Byte>, s: Segment, other: bool)
    requires n.link == Up && n.data == []
    requires 0 < |s.data| <= DATA_MAX && s.flags == PSH + ACK
    requires Frames(f, target, mac, 5, s) && |f| == 54 + |s.data|
    ensures Receive(n, f, other).1 <==> |s.data| >= 6
    ensures |s.data| < 6 ==> Receive(n, f, other).0 == n
    ensures |s.data| >= 6 ==> Offers(Receive(n, f, other).0, s.source, s.localPort, s.remotePort)
    ensures |s.data| >= 6 ==> Receive(n, f, other).0.data == s.data
    ensures |s.data| >= 6 ==> Receive(n, f, other).0.next == Plus(s.sequence, |s.data|)
    ensures |s.data| >= 6 ==> Receive(n, f, other).0.fin == n.fin
  {
    FrameDecodes(f, target, mac, 5, s);
    FirstSegment(n, s);
    assert Frames(f, target, mac, 5, s) && |f| == 54 + |s.data|;
    if |s.data| >= 6 {
      ReceiveCarried(n, f, other);
      hide Frames, Carried, Receive, ReceiveSegment;
    }
  }

  lemma FinSegment(n: Net, s: Segment)
    requires s.data == [] && s.flags == FIN + ACK
    ensures ReceiveSegment(n, s) == (n.(fin := true,
                                        finNote := FinNote(s.source, s.remotePort, s.localPort,
                                                           Plus(s.sequence, 1))), true)
  {
  }

  /** A padded FIN frame fed back is always accepted and leaves its closing sequence number. */
  lemma FinRoundTrip(n: Net, f: seq<Byte>, target: seq<Byte>, mac: seq<Byte>, s: Segment, other: bool)
    requires n.link == Up && s.data == [] && s.flags == FIN + ACK
    requires Frames(f, target, mac, 4, s) && |f| == FRAME_MIN
    ensures Receive(n, f, other) == (n.(fin := true,
                                        finNote := FinNote(s.source, s.remotePort, s.localPort,
                                                           Plus(s.sequence, 1))), true)
  {
    FrameDecodes(f, target, mac, 4, s);
    ReceiveCarried(n, f, other);
    FinSegment(n, s);
    hide *;
  }

  /** No frame that reaches the TCP parser with one checksummed word altered is accepted, save
      for the two spellings of zero. */
  lemma AlteredSegmentRefused(t: seq<Byte>, u: seq<Byte>, i: nat, source: nat, destination: nat)
    requires i + 2 <= |t| == |u| && i % 2 == 0
    requires u[..i] == t[..i] && u[i + 2..] == t[i + 2..] && Be16(u, i) != Be16(t, i)
    requires {Be16(t, i), Be16(u, i)} != {0, WORD_MAX}
    requires DecodeTcp(t, source, destination).Some?
    ensures DecodeTcp(u, source, destination).None?
  {
    var rest := PseudoSum(source, destination, PROTOCOL_TCP, |t|);
    if Canon(rest + WordSum(u)) == WORD_MAX {
      ChangedWordNoticed(t, u, i, rest);
    }
  }
}
