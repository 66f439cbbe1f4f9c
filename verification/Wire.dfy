/** The formats on the wire, written field after field as RFC 791 section 3.1 and RFC 9293
    section 3.1 lay them out, and what the receive path makes of any packet so written. */
module Wire {
  import opened Bytes
  import opened Checksums
  import opened Options
  import opened Packets

  /** Most significant byte first. */
  function Word16(n: nat): (w: seq<Byte>)
    requires n <= WORD_MAX
  {
    [n / 256, n % 256]
  }

  function Word32(n: nat): (w: seq<Byte>)
    requires n <= UINT32_MAX
  {
    Word16(n / 0x1_0000) + Word16(n % 0x1_0000)
  }

  lemma Reads16(a: seq<Byte>, n: nat, b: seq<Byte>)
    requires n <= WORD_MAX
    ensures Be16(a + Word16(n) + b, |a|) == n
  {
  }

  lemma Reads32(a: seq<Byte>, n: nat, b: seq<Byte>)
    requires n <= UINT32_MAX
    ensures Be32(a + Word32(n) + b, |a|) == n
  {
    var high, low := Word16(n / 0x1_0000), Word16(n % 0x1_0000);
    assert a + Word32(n) + b == a + high + (low + b) == (a + high) + low + b;
    Reads16(a, n / 0x1_0000, low + b);
    Reads16(a + high, n % 0x1_0000, b);
    hide Word16;
  }

  // ----- IPv4 -----

  /** The header fields in order; `fragment` is the flags and the fragment offset. */
  datatype Ip = Ip(version: nat, service: Byte, total: nat, ident: nat, fragment: nat, ttl: Byte, protocol: Byte,
                   checksum: nat, source: nat, destination: nat, options: seq<Byte>)
  {
    /** In bytes. */
    function HeaderSize(): nat { 20 + |options| }

    predicate Writable() {
      && version < 16 && total <= WORD_MAX && ident <= WORD_MAX && fragment <= WORD_MAX && checksum <= WORD_MAX
      && source <= UINT32_MAX && destination <= UINT32_MAX && |options| % 4 == 0 && |options| <= 40
    }

    function Written(): (w: seq<Byte>)
      requires Writable()
      ensures |w| == HeaderSize()
    {
      [version * 16 + HeaderSize() / 4, service] + Word16(total) + Word16(ident) + Word16(fragment)
      + [ttl, protocol] + Word16(checksum) + Word32(source) + Word32(destination) + options
    }
  }

  lemma IpReads(h: Ip, rest: seq<Byte>)
    requires h.Writable()
    ensures var p := h.Written() + rest;
            && p[0] / 16 == h.version && p[0] % 16 * 4 == h.HeaderSize()
            && Be16(p, 2) == h.total && Be16(p, 6) == h.fragment && p[9] == h.protocol
            && Be32(p, 12) == h.source && Be32(p, 16) == h.destination
  {
    var p := h.Written() + rest;
    var a := [h.version * 16 + h.HeaderSize() / 4, h.service];
    var b := a + Word16(h.total);
    var c := b + Word16(h.ident);
    var d := c + Word16(h.fragment);
    var e := d + [h.ttl, h.protocol];
    var f := e + Word16(h.checksum);
    var g := f + Word32(h.source);
    assert p == a + Word16(h.total) + p[4..] && p == c + Word16(h.fragment) + p[8..];
    assert p == f + Word32(h.source) + p[16..] && p == g + Word32(h.destination) + p[20..];
    Reads16(a, h.total, p[4..]);
    Reads16(c, h.fragment, p[8..]);
    Reads32(f, h.source, p[16..]);
    Reads32(g, h.destination, p[20..]);
    assert p[9] == e[9];
  }

  /** A written packet gets through exactly as version 4, unfragmented, within what arrived, with a
      header whose words add up to a positive multiple of 65535; its payload ends where the total
      length says. */
  lemma Ipv4Law(h: Ip, rest: seq<Byte>)
    requires h.Writable()
    ensures var p := h.Written() + rest; var d := DecodeIpv4(p);
            if h.version == 4 && h.HeaderSize() <= h.total <= |p| && h.fragment % 0x4000 == 0
               && WordSum(h.Written()) > 0 && WordSum(h.Written()) % WORD_MAX == 0
            then d == if h.protocol == 17 then Udp
                      else if h.protocol == 6 then Tcp(rest[..h.total - h.HeaderSize()], h.source, h.destination)
                      else Passed
            else d == Refused
  {
    var p := h.Written() + rest;
    IpReads(h, rest);
    VerifiesWhen(WordSum(h.Written()));
    assert p[..h.HeaderSize()] == h.Written();
    if h.HeaderSize() <= h.total <= |p| { assert p[h.HeaderSize()..h.total] == rest[..h.total - h.HeaderSize()]; }
    hide WordSum, Canon, Be32, Be16, Word16, Word32;
  }

  /** What is not a header at all is refused. */
  lemma Ipv4Short(p: seq<Byte>)
    requires |p| < 20 || p[0] % 16 < 5 || |p| < p[0] % 16 * 4
    ensures DecodeIpv4(p) == Refused
  {
  }

  // ----- TCP -----

  datatype TcpHeader = TcpHeader(sourcePort: nat, destinationPort: nat, sequence: nat, acknowledgment: nat,
                                 reserved: nat, flags: Byte, window: nat, checksum: nat, urgent: nat, options: seq<Byte>)
  {
    function HeaderSize(): nat { 20 + |options| }

    predicate Writable() {
      && sourcePort <= WORD_MAX && destinationPort <= WORD_MAX && sequence <= UINT32_MAX && acknowledgment <= UINT32_MAX
      && reserved < 16 && window <= WORD_MAX && checksum <= WORD_MAX && urgent <= WORD_MAX
      && |options| % 4 == 0 && |options| <= 40
    }

    function Written(): (w: seq<Byte>)
      requires Writable()
      ensures |w| == HeaderSize()
    {
      Word16(sourcePort) + Word16(destinationPort) + Word32(sequence) + Word32(acknowledgment)
      + [HeaderSize() / 4 * 16 + reserved, flags] + Word16(window) + Word16(checksum) + Word16(urgent) + options
    }
  }

  lemma TcpReads(h: TcpHeader, data: seq<Byte>)
    requires h.Writable()
    ensures var p := h.Written() + data;
            && Be16(p, 0) == h.sourcePort && Be16(p, 2) == h.destinationPort && Be32(p, 4) == h.sequence
            && Be32(p, 8) == h.acknowledgment && p[12] / 16 * 4 == h.HeaderSize() && p[13] == h.flags
            && Be16(p, 14) == h.window && p[h.HeaderSize()..] == data
  {
    var p := h.Written() + data;
    var a := Word16(h.sourcePort);
    var b := a + Word16(h.destinationPort);
    var c := b + Word32(h.sequence);
    var d := c + Word32(h.acknowledgment);
    var e := d + [h.HeaderSize() / 4 * 16 + h.reserved, h.flags];
    assert p == [] + Word16(h.sourcePort) + p[2..] && p == a + Word16(h.destinationPort) + p[4..];
    assert p == b + Word32(h.sequence) + p[8..] && p == c + Word32(h.acknowledgment) + p[12..];
    assert p == e + Word16(h.window) + p[16..];
    Reads16([], h.sourcePort, p[2..]);
    Reads16(a, h.destinationPort, p[4..]);
    Reads32(b, h.sequence, p[8..]);
    Reads32(c, h.acknowledgment, p[12..]);
    Reads16(e, h.window, p[16..]);
    assert p[12] == e[12] && p[13] == e[13];
  }

  /** The pseudo header of RFC 9293 section 3.1, summed word by word. */
  lemma PseudoIsWords(source: nat, destination: nat, protocol: Byte, length: nat)
    requires source <= UINT32_MAX && destination <= UINT32_MAX && length <= WORD_MAX
    ensures PseudoSum(source, destination, protocol, length)
            == WordSum(Word32(source) + Word32(destination) + [0, protocol] + Word16(length))
  {
    var s := Word32(source) + Word32(destination) + [0, protocol] + Word16(length);
    assert s[2..][2..] == s[4..] && s[4..][2..] == s[6..] && s[6..][2..] == s[8..] && s[8..][2..] == s[10..];
    assert s[10..][2..] == [];
    assert WordSum(s) == Be16(s, 0) + WordSum(s[2..]);
    assert WordSum(s[2..]) == Be16(s, 2) + WordSum(s[4..]);
    assert WordSum(s[4..]) == Be16(s, 4) + WordSum(s[6..]);
    assert WordSum(s[6..]) == Be16(s, 6) + WordSum(s[8..]);
    assert WordSum(s[8..]) == Be16(s, 8) + WordSum(s[10..]);
    assert WordSum(s[10..]) == Be16(s, 10) + WordSum([]);
  }

  /** A written segment is read back field by field exactly when, with the pseudo header, its words
      add up to a positive multiple of 65535. */
  lemma TcpLaw(h: TcpHeader, data: seq<Byte>, source: nat, destination: nat)
    requires h.Writable()
    ensures var p := h.Written() + data;
            var sum := PseudoSum(source, destination, 6, |p|) + WordSum(p);
            DecodeTcp(p, source, destination)
            == if sum > 0 && sum % WORD_MAX == 0
               then Some(Segment(source, destination, h.sourcePort, h.destinationPort, h.sequence, h.acknowledgment,
                                 h.flags, h.window, data))
               else None
  {
    var p := h.Written() + data;
    TcpReads(h, data);
    VerifiesWhen(PseudoSum(source, destination, 6, |p|) + WordSum(p));
    hide WordSum, Canon, Be32, Be16, Word16, Word32, PseudoSum;
  }

  // ----- frames -----

  /** The checksum field that makes `words` add up. */
  function Complement(sum: nat): (c: nat)
    ensures c <= WORD_MAX
  {
    WORD_MAX - Canon(sum)
  }

  /** An unchecked header as the builders fill it: no options, whole, 64 hops. */
  function IpOf(ident: nat, s: Segment, checksum: nat): Ip {
    Ip(4, 0, 40 + |s.data|, ident, 0, 64, 6, checksum, s.source, s.destination, [])
  }

  function TcpOf(s: Segment, checksum: nat): TcpHeader {
    TcpHeader(s.remotePort, s.localPort, s.sequence, s.acknowledgment, 0, s.flags, s.window, checksum, 0, [])
  }

  /** 0x0800 in the Ethernet type field. */
  function FrameOf(target: seq<Byte>, mac: seq<Byte>, ip: Ip, tcp: TcpHeader, data: seq<Byte>): seq<Byte>
    requires ip.Writable() && tcp.Writable()
  {
    target + mac + Word16(0x0800) + ip.Written() + tcp.Written() + data
  }

  lemma Writes16(f: seq<Byte>, i: nat, n: nat)
    requires i + 2 <= |f| && Be16(f, i) == n
    ensures n <= WORD_MAX && f[i..i + 2] == Word16(n)
  {
    assert (f[i] as int) == n / 256 && f[i + 1] == n % 256;
  }

  lemma Writes32(f: seq<Byte>, i: nat, n: nat)
    requires i + 4 <= |f| && Be32(f, i) == n
    ensures n <= UINT32_MAX && f[i..i + 4] == Word32(n)
  {
    var high, low := Be16(f, i), Be16(f, i + 2);
    Writes16(f, i, high);
    Writes16(f, i + 2, low);
    assert n == high * 0x1_0000 + low;
    hide Be16, Be32, Word16;
    assert n / 0x1_0000 == high && n % 0x1_0000 == low;
    assert f[i..i + 4] == f[i..i + 2] + f[i + 2..i + 4];
  }

  /** A prefix grows by the next stretch. */
  lemma Grow(f: seq<Byte>, a: nat, b: nat)
    requires a <= b <= |f|
    ensures f[..b] == f[..a] + f[a..b]
  {
  }

  lemma IpPieces(h: seq<Byte>)
    requires |h| == 20
    ensures h == h[0..2] + h[2..4] + h[4..6] + h[6..8] + h[8..10] + h[10..12] + h[12..16] + h[16..20] + []
  {
    Grow(h, 2, 4);
    Grow(h, 4, 6);
    Grow(h, 6, 8);
    Grow(h, 8, 10);
    Grow(h, 10, 12);
    Grow(h, 12, 16);
    Grow(h, 16, 20);
    assert h[..20] == h && h[..2] == h[0..2];
  }

  /** A header whose fields read as given is the one written from them. */
  lemma IpWritten(h: seq<Byte>, ident: nat, s: Segment, checksum: nat)
    requires |h| == 20 && h[0] == 0x45 && h[1] == 0 && Be16(h, 2) == 40 + |s.data| && Be16(h, 4) == ident
    requires Be16(h, 6) == 0 && h[8] == 64 && h[9] == 6 && Be16(h, 10) == checksum
    requires Be32(h, 12) == s.source && Be32(h, 16) == s.destination
    ensures IpOf(ident, s, checksum).Writable() && h == IpOf(ident, s, checksum).Written()
  {
    Writes16(h, 2, 40 + |s.data|);
    Writes16(h, 4, ident);
    Writes16(h, 6, 0);
    Writes16(h, 10, checksum);
    Writes32(h, 12, s.source);
    Writes32(h, 16, s.destination);
    assert h[0..2] == [0x45, 0] && h[8..10] == [64, 6];
    hide Be16, Be32, Word16, Word32;
    IpPieces(h);
  }

  lemma IpHeaderIs(h: seq<Byte>, ident: nat, s: Segment)
    requires IpHeader(h, ident, 40 + |s.data|, s.source, s.destination)
    ensures IpOf(ident, s, Be16(h, 10)).Writable() && h == IpOf(ident, s, Be16(h, 10)).Written()
    ensures IpOf(ident, s, 0).Writable() && Be16(h, 10) == Complement(WordSum(IpOf(ident, s, 0).Written()))
  {
    IpWritten(h, ident, s, Be16(h, 10));
    var zeroed := h[10 := 0][11 := 0];
    IpWritten(zeroed, ident, s, 0);
    hide WordSum, Canon;
  }

  lemma TcpPieces(t: seq<Byte>)
    requires |t| >= 20
    ensures t == t[0..2] + t[2..4] + t[4..8] + t[8..12] + t[12..14] + t[14..16] + t[16..18] + t[18..20] + [] + t[20..]
  {
    Grow(t, 2, 4);
    Grow(t, 4, 8);
    Grow(t, 8, 12);
    Grow(t, 12, 14);
    Grow(t, 14, 16);
    Grow(t, 16, 18);
    Grow(t, 18, 20);
    assert t == t[..20] + t[20..] && t[..2] == t[0..2];
  }

  lemma TcpWritten(t: seq<Byte>, s: Segment, checksum: nat)
    requires |t| == 20 + |s.data| && Be16(t, 0) == s.remotePort && Be16(t, 2) == s.localPort
    requires Be32(t, 4) == s.sequence && Be32(t, 8) == s.acknowledgment && t[12] == 0x50 && t[13] == s.flags
    requires Be16(t, 14) == s.window && Be16(t, 16) == checksum && Be16(t, 18) == 0 && t[20..] == s.data
    ensures TcpOf(s, checksum).Writable() && t == TcpOf(s, checksum).Written() + s.data
  {
    Writes16(t, 0, s.remotePort);
    Writes16(t, 2, s.localPort);
    Writes32(t, 4, s.sequence);
    Writes32(t, 8, s.acknowledgment);
    Writes16(t, 14, s.window);
    Writes16(t, 16, checksum);
    Writes16(t, 18, 0);
    assert t[12..14] == [0x50, s.flags];
    hide Be16, Be32, Word16, Word32;
    TcpPieces(t);
  }

  lemma TcpSegmentIs(t: seq<Byte>, s: Segment)
    requires TcpSegment(t, s)
    ensures TcpOf(s, Be16(t, 16)).Writable() && t == TcpOf(s, Be16(t, 16)).Written() + s.data
    ensures TcpOf(s, 0).Writable()
    ensures Be16(t, 16) == Complement(PseudoSum(s.source, s.destination, 6, |t|)
                                      + WordSum(TcpOf(s, 0).Written() + s.data))
  {
    TcpWritten(t, s, Be16(t, 16));
    var zeroed := t[16 := 0][17 := 0];
    assert zeroed[20..] == t[20..];
    TcpWritten(zeroed, s, 0);
    hide WordSum, Canon, PseudoSum;
  }

  lemma FramePieces(f: seq<Byte>, end: nat)
    requires 34 <= end <= |f|
    ensures f == f[..6] + f[6..12] + f[12..14] + f[14..34] + f[34..end] + f[end..]
  {
    Grow(f, 6, 12);
    Grow(f, 12, 14);
    Grow(f, 14, 34);
    Grow(f, 34, end);
    assert f == f[..end] + f[end..];
  }

  /** The builders' frames, byte for byte: the two headers with their checksums filled in, the data,
      and zeros to the end. */
  lemma FrameLaw(f: seq<Byte>, target: seq<Byte>, mac: seq<Byte>, ident: nat, s: Segment)
    requires Frames(f, target, mac, ident, s)
    ensures IpOf(ident, s, 0).Writable() && TcpOf(s, 0).Writable()
    ensures var ip := IpOf(ident, s, Complement(WordSum(IpOf(ident, s, 0).Written())));
            var tcp := TcpOf(s, Complement(PseudoSum(s.source, s.destination, 6, 20 + |s.data|)
                                           + WordSum(TcpOf(s, 0).Written() + s.data)));
            && ip.Writable() && tcp.Writable()
            && f == FrameOf(target, mac, ip, tcp, s.data) + seq(|f| - 54 - |s.data|, _ => 0)
  {
    hide *;
    var end := 54 + |s.data|;
    FrameParts(f, target, mac, ident, s, end);
    Writes16(f, 12, 0x0800);
    IpHeaderIs(f[14..34], ident, s);
    TcpSegmentIs(f[34..end], s);
    FrameGlue(f, target, mac, IpOf(ident, s, Be16(f[14..34], 10)), TcpOf(s, Be16(f[34..end], 16)), s.data, end);
  }

  lemma FrameParts(f: seq<Byte>, target: seq<Byte>, mac: seq<Byte>, ident: nat, s: Segment, end: nat)
    requires Frames(f, target, mac, ident, s) && end == 54 + |s.data|
    ensures end <= |f| && f[..6] == target && f[6..12] == mac && Be16(f, 12) == 0x0800
    ensures IpHeader(f[14..34], ident, 40 + |s.data|, s.source, s.destination) && TcpSegment(f[34..end], s)
    ensures |f[34..end]| == 20 + |s.data| && f[end..] == seq(|f| - end, _ => 0)
  {
    hide Be16, IpHeader, TcpSegment;
    assert f[end..] == seq(|f| - end, _ => 0);
  }

  lemma FrameGlue(f: seq<Byte>, target: seq<Byte>, mac: seq<Byte>, ip: Ip, tcp: TcpHeader, data: seq<Byte>, end: nat)
    requires 34 <= end <= |f| && ip.Writable() && tcp.Writable()
    requires f[..6] == target && f[6..12] == mac && f[12..14] == Word16(0x0800) && f[14..34] == ip.Written()
    requires f[34..end] == tcp.Written() + data && f[end..] == seq(|f| - end, _ => 0)
    ensures f == FrameOf(target, mac, ip, tcp, data) + seq(|f| - end, _ => 0)
  {
    FramePieces(f, end);
    var head := target + mac + Word16(0x0800) + ip.Written();
    assert head + (tcp.Written() + data) == head + tcp.Written() + data;
    hide Word16;
  }

  // ----- what a segment does to the connection -----

  /** A whole frame on arrival: when the link is up and it has 60 bytes, the segment written in it is
      received, with whatever follows the IPv4 packet ignored; otherwise nothing happens. */
  lemma ArrivalLaw(n: Net, addresses: seq<Byte>, ip: Ip, tcp: TcpHeader, data: seq<Byte>, tail: seq<Byte>, other: bool)
    requires |addresses| == 12 && ip.Writable() && tcp.Writable() && ip.version == 4 && ip.fragment % 0x4000 == 0
    requires ip.protocol == 6 && ip.total == ip.HeaderSize() + tcp.HeaderSize() + |data|
    requires WordSum(ip.Written()) > 0 && WordSum(ip.Written()) % WORD_MAX == 0
    ensures var frame := addresses + [8, 0] + (ip.Written() + (tcp.Written() + data + tail));
            var sum := PseudoSum(ip.source, ip.destination, 6, tcp.HeaderSize() + |data|) + WordSum(tcp.Written() + data);
            Receive(n, frame, other)
            == if n.link == Up && |frame| >= 60 && sum > 0 && sum % WORD_MAX == 0
               then ReceiveSegment(n, Segment(ip.source, ip.destination, tcp.sourcePort, tcp.destinationPort, tcp.sequence,
                                              tcp.acknowledgment, tcp.flags, tcp.window, data))
               else (n, false)
  {
    hide *;
    var header, segment := ip.Written(), tcp.Written() + data;
    var packet := header + (segment + tail);
    var frame := addresses + [8, 0] + packet;
    assert tcp.Written() + data + tail == segment + tail;
    ArrivalParts(addresses, packet, segment, tail);
    Ipv4Law(ip, segment + tail);
    TcpLaw(tcp, data, ip.source, ip.destination);
    Arrives(n, frame, other);
  }

  lemma ArrivalParts(addresses: seq<Byte>, packet: seq<Byte>, segment: seq<Byte>, tail: seq<Byte>)
    requires |addresses| == 12
    ensures var frame := addresses + [8, 0] + packet; frame[12] == 8 && frame[13] == 0 && frame[14..] == packet
    ensures (segment + tail)[..|segment|] == segment
  {
  }

  lemma Arrives(n: Net, frame: seq<Byte>, other: bool)
    requires |frame| >= 14 && frame[12] == 8 && frame[13] == 0
    ensures var d := DecodeIpv4(frame[14..]);
            Receive(n, frame, other)
            == if n.link != Up || |frame| < 60 || d == Refused then (n, false)
               else match d
                    case Refused => (n, false)
                    case Passed => (n, true)
                    case Udp => (n, other)
                    case Tcp(payload, source, destination) =>
                      match DecodeTcp(payload, source, destination)
                      case None => (n, false)
                      case Some(s) => ReceiveSegment(n, s)
  {
    EtherType(frame);
    hide DecodeIpv4, DecodeTcp, ReceiveSegment, Be16;
  }

  lemma EtherType(frame: seq<Byte>)
    requires |frame| >= 14 && frame[12] == 8
    ensures frame[13] == 0 ==> Be16(frame, 12) == TYPE_IPV4 != TYPE_ARP
    ensures frame[13] == 6 ==> Be16(frame, 12) == TYPE_ARP
  {
  }

  /** The data of a segment is taken exactly when there is none, or when it fits into 4096 bytes and
      either nothing is pending or it comes from the pending connection with the next number. */
  predicate TakesData(n: Net, s: Segment) {
    || s.data == []
    || (n.data == [] && |s.data| <= 4096)
    || (n.data != [] && |n.data| + |s.data| <= 4096 && s.source == n.peer && s.remotePort == n.remotePort
        && s.localPort == n.localPort && s.sequence == n.next)
  }

  /** A segment that arrives: the pending bytes grow by its data or stay, the FIN note is taken from
      every FIN, and the SYN-ACK note only from a segment that was taken. */
  lemma SegmentLaw(n: Net, s: Segment)
    ensures var (m, ok) := ReceiveSegment(n, s);
            && ok == TakesData(n, s) && m.link == n.link && m.own == n.own && m.mac == n.mac
            && m.data == (if ok then n.data + s.data else n.data)
            && (ok && s.data != [] ==>
                  && m.peer == s.source && m.remotePort == s.remotePort && m.localPort == s.localPort
                  && m.next == (s.sequence + |s.data| + s.flags % 2) % 0x1_0000_0000)
            && (s.data == [] || (!ok && n.data != []) ==>
                  m.peer == n.peer && m.remotePort == n.remotePort && m.localPort == n.localPort && m.next == n.next)
            && m.fin == (n.fin || s.flags % 2 == 1)
            && m.finNote == (if s.flags % 2 == 1
                             then FinNote(s.source, s.remotePort, s.localPort, (s.sequence + |s.data| + 1) % 0x1_0000_0000)
                             else n.finNote)
            && var syn := ok && s.flags / 2 % 2 == 1 && s.flags / 16 % 2 == 1;
               m.syn == (n.syn || syn)
               && m.synNote == if syn then SynNote(s.source, s.remotePort, s.localPort, s.sequence, s.acknowledgment, s.window)
                               else n.synNote
  {
  }

  /** The example of RFC 1071 section 3: its words sum to 0x2DDF0, folded 0xDDF2. */
  lemma ChecksumExample()
    ensures var s := [0x00, 0x01, 0xF2, 0x03, 0xF4, 0xF5, 0xF6, 0xF7];
            WordSum(s) == 0x2DDF0 && Canon(WordSum(s)) == 0xDDF2
  {
    var s: seq<Byte> := [0x00, 0x01, 0xF2, 0x03, 0xF4, 0xF5, 0xF6, 0xF7];
    assert s[2..][2..] == s[4..] && s[4..][2..] == s[6..] && s[6..][2..] == [];
    assert WordSum(s[6..]) == 0xF6F7 + WordSum([]);
    assert WordSum(s[4..]) == 0xF4F5 + WordSum(s[6..]);
    assert WordSum(s[2..]) == 0xF203 + WordSum(s[4..]);
    assert WordSum(s) == 0x0001 + WordSum(s[2..]);
  }
}
