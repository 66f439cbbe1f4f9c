/** The network core in place: frame builders, the receive path and the polling calls. */
module Network {
  import opened Bytes
  import opened Checksums
  import opened Options
  import opened Packets

  /** Both hold the same bytes from `from` up to `to`. */
  ghost predicate Same(s: seq<Byte>, t: seq<Byte>, from: nat, to: nat)
    requires from <= to <= |s| && to <= |t|
  {
    forall k | from <= k < to :: s[k] == t[k]
  }

  ghost predicate Zero(s: seq<Byte>, from: nat, to: nat)
    requires from <= to <= |s|
  {
    forall k | from <= k < to :: s[k] == 0
  }

  /** The IPv4 fields other than the checksum, at their place in the frame. */
  ghost predicate IpFields(f: seq<Byte>, ident: nat, total: nat, own: nat, remote: nat)
    requires |f| >= 34
  {
    && f[14] == 0x45 && f[15] == 0 && Be16(f, 16) == total && Be16(f, 18) == ident
    && Be16(f, 20) == 0 && f[22] == 64 && f[23] == PROTOCOL_TCP
    && Be32(f, 26) == own && Be32(f, 30) == remote
  }

  /** The TCP fields other than the checksum. */
  ghost predicate TcpFields(f: seq<Byte>, s: Segment)
    requires |f| >= 54 + |s.data|
  {
    && Be16(f, 34) == s.remotePort && Be16(f, 36) == s.localPort
    && Be32(f, 38) == s.sequence && Be32(f, 42) == s.acknowledgment
    && f[46] == 0x50 && f[47] == s.flags && Be16(f, 48) == s.window && Be16(f, 52) == 0
    && f[54..54 + |s.data|] == s.data
  }

  lemma IpFieldsSame(f: seq<Byte>, g: seq<Byte>, ident: nat, total: nat, own: nat, remote: nat)
    requires |f| == |g| >= 34 && Same(f, g, 14, 24) && Same(f, g, 26, 34)
    requires IpFields(f, ident, total, own, remote)
    ensures IpFields(g, ident, total, own, remote)
  {
  }

  lemma IpHeaderFrom(f: seq<Byte>, g: seq<Byte>, ident: nat, total: nat, own: nat, remote: nat)
    requires |f| == |g| >= 34 && Same(f, g, 14, 24) && Same(f, g, 26, 34) && Zero(f, 24, 26)
    requires IpFields(f, ident, total, own, remote)
    requires Be16(g, 24) == WORD_MAX - Canon(WordSum(f[14..34]))
    ensures IpHeader(g[14..34], ident, total, own, remote)
  {
    var h := g[14..34];
    assert h[10 := 0][11 := 0] == f[14..34];
    IpFieldsSame(f, g, ident, total, own, remote);
  }

  lemma TcpSegmentFrom(f: seq<Byte>, g: seq<Byte>, s: Segment)
    requires |f| == |g| >= 54 + |s.data| && Zero(f, 50, 52)
    requires Same(f, g, 34, 50) && Same(f, g, 52, 54 + |s.data|)
    requires TcpFields(f, s)
    requires Be16(g, 50) == TcpChecksum(f[34..54 + |s.data|], s.source, s.destination)
    ensures TcpSegment(g[34..54 + |s.data|], s)
  {
    var t := g[34..54 + |s.data|];
    assert t[16 := 0][17 := 0] == f[34..54 + |s.data|];
    assert t[20..] == f[54..54 + |s.data|];
    hide TcpChecksum, WordSum;
  }

  method ClearFrame(frame: array<Byte>, length: nat)
    requires length <= frame.Length
    modifies frame
    ensures Zero(frame[..], 0, length)
    ensures forall k | length <= k < frame.Length :: frame[k] == old(frame[k])
  {
    for i := 0 to length
      invariant forall k | 0 <= k < i :: frame[k] == 0
      invariant forall k | length <= k < frame.Length :: frame[k] == old(frame[k])
    {
      frame[i] := 0;
    }
  }

  method CopyMac(frame: array<Byte>, at: nat, mac: seq<Byte>)
    requires at + 6 <= frame.Length && |mac| == 6
    modifies frame
    ensures frame[at..at + 6] == mac
    ensures forall k | 0 <= k < frame.Length && !(at <= k < at + 6) :: frame[k] == old(frame[k])
  {
    for i := 0 to 6
      invariant forall k | 0 <= k < i :: frame[at + k] == mac[k]
      invariant forall k | 0 <= k < frame.Length && !(at <= k < at + 6) :: frame[k] == old(frame[k])
    {
      frame[at + i] := mac[i];
    }
  }

  method FillIp(frame: array<Byte>, ident: nat, total: nat, own: nat, remote: nat)
    requires frame.Length >= 34 && Zero(frame[..], 14, 34)
    requires ident <= WORD_MAX && total <= WORD_MAX && own <= UINT32_MAX && remote <= UINT32_MAX
    modifies frame
    ensures IpFields(frame[..], ident, total, own, remote) && Zero(frame[..], 24, 26)
    ensures forall k | 0 <= k < frame.Length && !(14 <= k < 34) :: frame[k] == old(frame[k])
  {
    frame[14] := 0x45;
    Write16(frame, 16, total);
    ghost var f1 := frame[..];
    Write16(frame, 18, ident);
    ghost var f2 := frame[..];
    frame[22] := 64;
    frame[23] := PROTOCOL_TCP;
    Write32(frame, 26, own);
    ghost var f3 := frame[..];
    Write32(frame, 30, remote);
    ghost var f := frame[..];
    WordKept(f1, f, 16);
    WordKept(f2, f, 18);
    WordKept(f3, f, 26);
    WordKept(f3, f, 28);
  }

  method WriteIp(frame: array<Byte>, ident: nat, total: nat, own: nat, remote: nat)
    requires frame.Length >= 34 && Zero(frame[..], 14, 34)
    requires ident <= WORD_MAX && total <= WORD_MAX && own <= UINT32_MAX && remote <= UINT32_MAX
    modifies frame
    ensures IpHeader(frame[14..34], ident, total, own, remote)
    ensures forall k | 0 <= k < frame.Length && !(14 <= k < 34) :: frame[k] == old(frame[k])
  {
    FillIp(frame, ident, total, own, remote);
    ghost var f := frame[..];
    assert frame[14..14 + 20] == f[14..34];
    var sum := Ipv4Checksum(frame, 14, 20);
    Write16(frame, 24, sum);
    assert Same(f, frame[..], 14, 24) && Same(f, frame[..], 26, 34);
    IpHeaderFrom(f, frame[..], ident, total, own, remote);
    assert frame[..][14..34] == frame[14..34];
    hide *;
  }

  method FillPorts(frame: array<Byte>, s: Segment)
    requires frame.Length >= 54 && Zero(frame[..], 34, 54)
    requires s.remotePort <= WORD_MAX && s.localPort <= WORD_MAX && s.window <= WORD_MAX
    requires s.sequence <= UINT32_MAX && s.acknowledgment <= UINT32_MAX
    modifies frame
    ensures TcpFields(frame[..], s.(data := [])) && Zero(frame[..], 50, 52)
    ensures forall k | 0 <= k < frame.Length && !(34 <= k < 54) :: frame[k] == old(frame[k])
  {
    Write16(frame, 34, s.remotePort);
    ghost var f1 := frame[..];
    Write16(frame, 36, s.localPort);
    ghost var f2 := frame[..];
    Write32(frame, 38, s.sequence);
    ghost var f3 := frame[..];
    Write32(frame, 42, s.acknowledgment);
    ghost var f4 := frame[..];
    frame[46] := 0x50;
    frame[47] := s.flags;
    Write16(frame, 48, s.window);
    ghost var f := frame[..];
    WordKept(f1, f, 34);
    WordKept(f2, f, 36);
    WordKept(f3, f, 38);
    WordKept(f3, f, 40);
    WordKept(f4, f, 42);
    WordKept(f4, f, 44);
  }

  lemma TcpFieldsSame(f: seq<Byte>, g: seq<Byte>, s: Segment)
    requires |f| == |g| >= 54 + |s.data| && Same(f, g, 34, 54) && g[54..54 + |s.data|] == s.data
    requires TcpFields(f, s.(data := []))
    ensures TcpFields(g, s)
  {
  }

  method FillTcp(frame: array<Byte>, s: Segment)
    requires frame.Length >= 54 + |s.data| && Zero(frame[..], 34, 54 + |s.data|)
    requires s.remotePort <= WORD_MAX && s.localPort <= WORD_MAX && s.window <= WORD_MAX
    requires s.sequence <= UINT32_MAX && s.acknowledgment <= UINT32_MAX
    modifies frame
    ensures TcpFields(frame[..], s) && Zero(frame[..], 50, 52)
    ensures forall k | 0 <= k < frame.Length && !(34 <= k < 54 + |s.data|) :: frame[k] == old(frame[k])
  {
    assert Zero(frame[..], 34, 54);
    hide TcpFields;
    FillPorts(frame, s);
    ghost var f := frame[..];
    for i := 0 to |s.data|
      invariant forall k | 0 <= k < i :: frame[54 + k] == s.data[k]
      invariant forall k | 0 <= k < frame.Length && !(54 <= k < 54 + i) :: frame[k] == f[k]
    {
      frame[54 + i] := s.data[i];
    }
    TcpFieldsSame(f, frame[..], s);
  }

  method WriteTcp(frame: array<Byte>, s: Segment)
    requires frame.Length >= 54 + |s.data| && Zero(frame[..], 34, 54 + |s.data|)
    requires s.remotePort <= WORD_MAX && s.localPort <= WORD_MAX && s.window <= WORD_MAX
    requires s.sequence <= UINT32_MAX && s.acknowledgment <= UINT32_MAX
    requires s.source <= UINT32_MAX && s.destination <= UINT32_MAX && |s.data| <= DATA_MAX
    modifies frame
    ensures TcpSegment(frame[34..54 + |s.data|], s)
    ensures forall k | 0 <= k < frame.Length && !(34 <= k < 54 + |s.data|) :: frame[k] == old(frame[k])
  {
    FillTcp(frame, s);
    ghost var f := frame[..];
    var length := 20 + |s.data|;
    assert frame[34..34 + length] == f[34..54 + |s.data|];
    var sum := TransportChecksum(s.source, s.destination, PROTOCOL_TCP, frame, 34, length);
    Write16(frame, 50, sum);
    assert Same(f, frame[..], 34, 50) && Same(f, frame[..], 52, 54 + |s.data|);
    TcpSegmentFrom(f, frame[..], s);
    assert frame[..][34..54 + |s.data|] == frame[34..54 + |s.data|];
    hide *;
  }

  /** The common body of the two TCP builders: zero the frame, then headers and payload. */
  method WriteFrame(frame: array<Byte>, length: nat, target: seq<Byte>, mac: seq<Byte>, ident: nat, s: Segment)
    requires 54 + |s.data| <= length <= frame.Length && |target| == |mac| == 6
    requires s.remotePort <= WORD_MAX && s.localPort <= WORD_MAX && s.window <= WORD_MAX
    requires s.sequence <= UINT32_MAX && s.acknowledgment <= UINT32_MAX && ident <= WORD_MAX
    requires s.source <= UINT32_MAX && s.destination <= UINT32_MAX && |s.data| <= DATA_MAX
    modifies frame
    ensures Frames(frame[..length], target, mac, ident, s)
    ensures forall k | length <= k < frame.Length :: frame[k] == old(frame[k])
  {
    ClearFrame(frame, length);
    CopyMac(frame, 0, target);
    CopyMac(frame, 6, mac);
    Write16(frame, 12, TYPE_IPV4);
    ghost var f0 := frame[..];
    assert f0[..6] == target && f0[6..12] == mac && Be16(f0, 12) == TYPE_IPV4;
    assert Zero(f0, 14, length);
    assert Zero(f0, 14, 34);
    WriteIp(frame, ident, 40 + |s.data|, s.source, s.destination);
    ghost var f1 := frame[..];
    assert Zero(f1, 34, length) && Same(f0, f1, 0, 14);
    assert Zero(f1, 34, 54 + |s.data|);
    WriteTcp(frame, s);
    FrameAssembled(f0, f1, frame[..], length, target, mac, ident, s) by {
      assert frame[..][34..54 + |s.data|] == frame[34..54 + |s.data|];
    }
    assert frame[..][..length] == frame[..length];
  }

  lemma FrameAssembled(f0: seq<Byte>, f1: seq<Byte>, f: seq<Byte>, length: nat,
                       target: seq<Byte>, mac: seq<Byte>, ident: nat, s: Segment)
    requires |target| == |mac| == 6 && |f0| == |f1| == |f| && 54 + |s.data| <= length <= |f|
    requires f0[..6] == target && f0[6..12] == mac && Be16(f0, 12) == TYPE_IPV4
    requires Same(f0, f1, 0, 14) && Zero(f1, 34, length)
    requires IpHeader(f1[14..34], ident, 40 + |s.data|, s.source, s.destination)
    requires Same(f1, f, 0, 34) && Same(f1, f, 54 + |s.data|, length)
    requires TcpSegment(f[34..54 + |s.data|], s)
    ensures Frames(f[..length], target, mac, ident, s)
  {
    var g := f[..length];
    assert Same(f0, f, 0, 14);
    assert g[..6] == target && g[6..12] == mac && Be16(g, 12) == TYPE_IPV4;
    assert g[14..34] == f1[14..34];
    assert g[34..54 + |s.data|] == f[34..54 + |s.data|];
    hide IpHeader, TcpSegment;
  }

  method ParseTcp(frame: array<Byte>, start: nat, size: nat, source: nat, destination: nat)
    returns (d: Option<Segment>)
    requires start + size <= frame.Length && size <= WORD_MAX
    requires source <= UINT32_MAX && destination <= UINT32_MAX
    ensures d == DecodeTcp(frame[start..start + size], source, destination)
    ensures d.Some? ==> d.value.sequence < MODULUS
  {
    if size < 20 {
      return None;
    }
    var sum := TransportChecksum(source, destination, PROTOCOL_TCP, frame, start, size);
    if sum != 0 {
      return None;
    }
    hide Canon, WordSum, PseudoSum;
    var header := (frame[start + 12] as nat) / 16 * 4;
    if header < 20 || header > size {
      return None;
    }
    var p := frame[start..start + size];
    d := Some(Segment(source, destination, Be16(p, 0), Be16(p, 2), Be32(p, 4), Be32(p, 8), p[13],
                      Be16(p, 14), p[header..]));
  }

  method ParseIpv4(frame: array<Byte>, start: nat) returns (d: Datagram, header: nat, total: nat)
    requires start <= frame.Length
    ensures d == DecodeIpv4(frame[start..])
    ensures d.Tcp? ==> header <= total && start + total <= frame.Length
    ensures d.Tcp? ==> d.payload == frame[start + header..start + total]
  {
    d, header, total := Refused, 0, 0;
    var size := frame.Length - start;
    if size < 20 || frame[start] / 16 != 4 {
      return;
    }
    var p := frame[start..];
    header := (p[0] as nat) % 16 * 4;
    total := Be16(p, 2);
    if header < 20 || header > 60 || header > size || total < header || total > size {
      return;
    }
    assert frame[start..start + header] == p[..header];
    var sum := Ipv4Checksum(frame, start, header);
    hide Canon, WordSum;
    if sum != 0 {
      return;
    }
    if Be16(p, 6) % 0x4000 != 0 {
      return;
    }
    assert frame[start + header..start + total] == p[header..total];
    if p[9] == PROTOCOL_UDP {
      d := Udp;
    } else if p[9] == PROTOCOL_TCP {
      d := Tcp(p[header..total], Be32(p, 12), Be32(p, 16));
    } else {
      d := Passed;
    }
  }

  class Stack {
    var link: Link
    var own: nat
    var mac: seq<Byte>
    const buffer: array<Byte>
    var length: nat
    var peer: nat
    var remotePort: nat
    var localPort: nat
    var next: nat
    var fin: bool
    var finNote: FinNote
    var syn: bool
    var synNote: SynNote

    ghost predicate Valid()
      reads this
    {
      && buffer.Length == RECEIVE_LIMIT && length <= RECEIVE_LIMIT && own <= UINT32_MAX && |mac| == 6
      && next < MODULUS
    }

    ghost function View(): Net
      requires Valid()
      reads this, buffer
    {
      Net(link, own, mac, buffer[..length], peer, remotePort, localPort, next, fin, finNote, syn, synNote)
    }

    constructor ()
      ensures Valid() && fresh(buffer)
      ensures link == NoDevice && length == 0 && !fin && !syn
    {
      link, own, mac := NoDevice, 0, [0, 0, 0, 0, 0, 0];
      buffer := new Byte[RECEIVE_LIMIT](_ => 0);
      length, peer, remotePort, localPort, next := 0, 0, 0, 0, 0;
      fin, finNote := false, FinNote(0, 0, 0, 0);
      syn, synNote := false, SynNote(0, 0, 0, 0, 0, 0);
    }

    method SetDevice(address: seq<Byte>)
      requires Valid() && |address| == 6
      modifies this`mac, this`link
      ensures Valid() && View() == old(View()).(mac := address, link := Down)
    {
      mac, link := address, Down;
    }

    method SetLink(up: bool)
      requires Valid()
      modifies this`link
      ensures Valid()
      ensures View() == if old(link) == NoDevice then old(View())
                        else old(View()).(link := if up then Up else Down)
    {
      if link == NoDevice {
        return;
      }
      link := if up then Up else Down;
    }

    method SetIpv4(address: nat)
      requires Valid() && address <= UINT32_MAX
      modifies this`own
      ensures Valid() && View() == old(View()).(own := address)
    {
      own := address;
    }

    /** Why a builder refuses: no link, no address on either side, or no port. */
    predicate CanSend(remote: nat, local: nat, port: nat)
      reads this
    {
      link == Up && own != 0 && remote != 0 && local != 0 && port != 0
    }

    lemma Sends(remote: nat, local: nat, port: nat)
      requires Valid() && CanSend(remote, local, port)
      ensures View().link == Up && View().own == own
    {
    }

    method BuildTcpFrame(frame: array?<Byte>, target: seq<Byte>, remote: nat, local: nat, port: nat,
                         sequence: nat, acknowledgment: nat, flags: Byte) returns (size: nat)
      requires Valid() && |target| == 6 && remote <= UINT32_MAX && local <= WORD_MAX && port <= WORD_MAX
      requires sequence <= UINT32_MAX && acknowledgment <= UINT32_MAX && frame != buffer
      modifies frame
      ensures Valid() && View() == old(View())
      ensures size == if frame != null && frame.Length >= FRAME_MIN && old(link) == Up && old(own) != 0 && remote != 0 && local != 0 && port != 0
                      then FRAME_MIN else 0
      ensures size == 0 && frame != null ==> frame[..] == old(frame[..])
      ensures size > 0 ==>
                Frames(frame[..size], target, mac, 4,
                       Segment(own, remote, local, port, sequence, acknowledgment, flags, WINDOW, []))
      ensures size > 0 ==> forall k | size <= k < frame.Length :: frame[k] == old(frame[k])
    {
      if frame == null || frame.Length < FRAME_MIN || link != Up || own == 0 || remote == 0
         || local == 0 || port == 0 {
        return 0;
      }
      WriteFrame(frame, FRAME_MIN, target, mac, 4,
                 Segment(own, remote, local, port, sequence, acknowledgment, flags, WINDOW, []));
      size := FRAME_MIN;
    }

    method BuildTcpSyn(frame: array?<Byte>, target: seq<Byte>, remote: nat, local: nat, port: nat,
                       sequence: nat) returns (size: nat)
      requires Valid() && |target| == 6 && remote <= UINT32_MAX && local <= WORD_MAX && port <= WORD_MAX
      requires sequence <= UINT32_MAX && frame != buffer
      modifies frame, this`syn
      ensures Valid() && View() == old(View()).(syn := false)
      ensures size == if frame != null && frame.Length >= FRAME_MIN && old(link) == Up && old(own) != 0 && remote != 0 && local != 0 && port != 0
                      then FRAME_MIN else 0
      ensures size > 0 ==>
                Frames(frame[..size], target, mac, 4,
                       Segment(own, remote, local, port, sequence, 0, SYN, WINDOW, []))
    {
      syn := false;
      size := BuildTcpFrame(frame, target, remote, local, port, sequence, 0, SYN);
    }

    method BuildTcpFin(frame: array?<Byte>, target: seq<Byte>, remote: nat, local: nat, port: nat,
                       sequence: nat, acknowledgment: nat) returns (size: nat)
      requires Valid() && |target| == 6 && remote <= UINT32_MAX && local <= WORD_MAX && port <= WORD_MAX
      requires sequence <= UINT32_MAX && acknowledgment <= UINT32_MAX && frame != buffer
      modifies frame
      ensures Valid() && View() == old(View())
      ensures size == if frame != null && frame.Length >= FRAME_MIN && old(link) == Up && old(own) != 0 && remote != 0 && local != 0 && port != 0
                      then FRAME_MIN else 0
      ensures size > 0 ==>
                Frames(frame[..size], target, mac, 4,
                       Segment(own, remote, local, port, sequence, acknowledgment, FIN + ACK, WINDOW, []))
    {
      size := BuildTcpFrame(frame, target, remote, local, port, sequence, acknowledgment, FIN + ACK);
    }

    /** Building a data frame also forgets whatever had been received. */
    method BuildTcpData(frame: array?<Byte>, target: seq<Byte>, remote: nat, local: nat, port: nat,
                        sequence: nat, acknowledgment: nat, data: seq<Byte>) returns (size: nat)
      requires Valid() && |target| == 6 && remote <= UINT32_MAX && local <= WORD_MAX && port <= WORD_MAX
      requires sequence <= UINT32_MAX && acknowledgment <= UINT32_MAX && frame != buffer
      modifies frame, this`length, this`fin
      ensures Valid()
      ensures size == if frame != null && 0 < |data| <= DATA_MAX && frame.Length >= 54 + |data|
                         && old(link) == Up && old(own) != 0 && remote != 0 && local != 0 && port != 0
                      then 54 + |data| else 0
      ensures size == 0 ==> View() == old(View())
      ensures size > 0 ==> View() == old(View()).(data := [], fin := false)
      ensures size == 0 && frame != null ==> frame[..] == old(frame[..])
      ensures size > 0 ==>
                Frames(frame[..size], target, mac, 5,
                       Segment(own, remote, local, port, sequence, acknowledgment, PSH + ACK, WINDOW, data))
      ensures size > 0 ==> forall k | size <= k < frame.Length :: frame[k] == old(frame[k])
    {
      var needed := 14 + (20 + (20 + |data|));
      if frame == null || |data| == 0 || |data| > DATA_MAX || frame.Length < needed || link != Up
         || own == 0 || remote == 0 || local == 0 || port == 0 {
        return 0;
      }
      WriteFrame(frame, needed, target, mac, 5,
                 Segment(own, remote, local, port, sequence, acknowledgment, PSH + ACK, WINDOW, data));
      length := 0;
      fin := false;
      size := needed;
    }

    /** The data part of a segment; false when it does not continue the pending bytes. */
    method AppendData(s: Segment) returns (ok: bool)
      requires Valid() && s.sequence < MODULUS
      modifies this`length, this`peer, this`remotePort, this`localPort, this`next, buffer
      ensures Valid() && (View(), ok) == Append(old(View()), s)
    {
      if |s.data| == 0 {
        return true;
      }
      if length == 0 {
        peer, remotePort, localPort, next := s.source, s.remotePort, s.localPort, s.sequence;
      }
      if peer != s.source || remotePort != s.remotePort || localPort != s.localPort
         || next != s.sequence || |s.data| > RECEIVE_LIMIT - length {
        return false;
      }
      for i := 0 to |s.data|
        invariant forall k | 0 <= k < length :: buffer[k] == old(buffer[k])
        invariant forall k | 0 <= k < i :: buffer[length + k] == s.data[k]
        modifies buffer
      {
        buffer[length + i] := s.data[i];
      }
      length := length + |s.data|;
      next := Plus(next, |s.data| + s.FinBit());
      assert buffer[..length] == old(buffer[..length]) + s.data;
      ok := true;
    }

    /** Everything a checked segment does, in the order the receiver does it. */
    method TakeSegment(s: Segment) returns (ok: bool)
      requires Valid() && s.sequence < MODULUS
      modifies this`length, this`peer, this`remotePort, this`localPort, this`next
      modifies this`fin, this`finNote, this`syn, this`synNote, buffer
      ensures Valid() && (View(), ok) == ReceiveSegment(old(View()), s)
    {
      if s.flags % 2 == 1 {
        fin := true;
        finNote := FinNote(s.source, s.remotePort, s.localPort, Plus(s.sequence, |s.data| + 1));
      }
      assert View() == NoteFin(old(View()), s);
      hide Append;
      ok := AppendData(s);
      if !ok {
        return;
      }
      if s.flags / 2 % 2 == 1 && s.flags / 16 % 2 == 1 {
        syn := true;
        synNote := SynNote(s.source, s.remotePort, s.localPort, s.sequence, s.acknowledgment, s.window);
      }
    }

    method ReceiveTcp(frame: array<Byte>, start: nat, size: nat, source: nat, destination: nat)
      returns (ok: bool)
      requires Valid() && start + size <= frame.Length && size <= WORD_MAX && frame != buffer
      requires source <= UINT32_MAX && destination <= UINT32_MAX
      modifies this`length, this`peer, this`remotePort, this`localPort, this`next
      modifies this`fin, this`finNote, this`syn, this`synNote, buffer
      ensures Valid()
      ensures (View(), ok) == ReceiveDatagram(old(View()), Tcp(old(frame[start..start + size]), source, destination), false)
    {
      var d := ParseTcp(frame, start, size, source, destination);
      hide DecodeTcp, ReceiveSegment;
      if d == None {
        return false;
      }
      ok := TakeSegment(d.value);
    }

    method ReceiveIpv4(frame: array<Byte>, start: nat, other: bool) returns (ok: bool)
      requires Valid() && start <= frame.Length && frame != buffer
      modifies this`length, this`peer, this`remotePort, this`localPort, this`next
      modifies this`fin, this`finNote, this`syn, this`synNote, buffer
      ensures Valid()
      ensures (View(), ok) == ReceiveDatagram(old(View()), DecodeIpv4(old(frame[start..])), other)
    {
      hide *;
      ghost var n := View();
      var d, header, total := ParseIpv4(frame, start);
      DatagramCases(n, d, other);
      TcpBounds(frame[start..]);
      match d {
        case Refused => ok := false;
        case Udp => ok := other;
        case Passed => ok := true;
        case Tcp(payload, source, destination) =>
          ok := ReceiveTcp(frame, start + header, total - header, source, destination);
      }
    }

    method ReceiveEthernet(frame: array?<Byte>, other: bool) returns (ok: bool)
      requires Valid() && frame != buffer
      modifies this`length, this`peer, this`remotePort, this`localPort, this`next
      modifies this`fin, this`finNote, this`syn, this`synNote, buffer
      ensures Valid()
      ensures frame == null ==> !ok && View() == old(View())
      ensures frame != null ==> (View(), ok) == Receive(old(View()), old(frame[..]), other)
    {
      if frame == null || frame.Length < FRAME_MIN || link != Up {
        return false;
      }
      var kind := (frame[12] as nat) * 256 + frame[13];
      ok := false;
      assert frame[..][14..] == frame[14..];
      if kind == TYPE_ARP {
        ok := other;
      } else if kind == TYPE_IPV4 {
        assert Receive(View(), frame[..], other) == ReceiveDatagram(View(), DecodeIpv4(frame[14..]), other);
        hide Receive, DecodeIpv4;
        ok := ReceiveIpv4(frame, 14, other);
      }
    }

    /** Copies what fits, reports the sequence number after everything received, and empties the
        buffer: bytes beyond `capacity` are gone although they are covered by that number. */
    method TcpReceive(remote: nat, local: nat, port: nat, destination: array?<Byte>, capacity: nat)
      returns (amount: nat, nextSequence: Option<nat>)
      requires Valid() && destination != buffer && (destination != null ==> capacity <= destination.Length)
      modifies this`length, destination
      ensures Valid()
      ensures nextSequence.Some? <==> destination != null && old(length) > 0 && old(peer) == remote
                                      && old(localPort) == local && old(remotePort) == port
      ensures nextSequence.None? ==> amount == 0 && View() == old(View())
      ensures nextSequence.None? && destination != null ==> destination[..] == old(destination[..])
      ensures nextSequence.Some? ==>
                && nextSequence.value == old(next) && View() == old(View()).(data := [])
                && amount == Min(old(length), capacity)
                && destination[..amount] == old(buffer[..length])[..amount]
                && forall k | amount <= k < destination.Length :: destination[k] == old(destination[k])
    {
      if destination == null || length == 0 || peer != remote || localPort != local || remotePort != port {
        return 0, None;
      }
      amount := Min(length, capacity);
      for i := 0 to amount
        invariant forall k | 0 <= k < i :: destination[k] == buffer[k]
        invariant forall k | i <= k < destination.Length :: destination[k] == old(destination[k])
      {
        destination[i] := buffer[i];
      }
      nextSequence := Some(next);
      length := 0;
    }

    method TcpRemoteFin(remote: nat, local: nat, port: nat) returns (nextSequence: Option<nat>)
      requires Valid()
      ensures nextSequence == if fin && finNote.peer == remote && finNote.localPort == local
                                 && finNote.remotePort == port
                              then Some(finNote.next) else None
    {
      if !fin || finNote.peer != remote || finNote.localPort != local || finNote.remotePort != port {
        return None;
      }
      return Some(finNote.next);
    }
  }

  /** Build a data frame and feed it straight back to the receiver. */
  method SendToSelf(stack: Stack, frame: array<Byte>, target: seq<Byte>, remote: nat, local: nat, port: nat,
                    sequence: nat, data: seq<Byte>) returns (accepted: bool)
    requires stack.Valid() && stack.CanSend(remote, local, port) && |target| == 6
    requires remote <= UINT32_MAX && local <= WORD_MAX && port <= WORD_MAX && sequence <= UINT32_MAX
    requires 0 < |data| <= DATA_MAX && frame.Length == 54 + |data| && frame != stack.buffer
    modifies stack, stack.buffer, frame
    ensures stack.Valid()
    ensures accepted <==> |data| >= 6
    ensures |data| < 6 ==> stack.View().data == []
    ensures |data| >= 6 ==> Offers(stack.View(), old(stack.own), port, local)
    ensures |data| >= 6 ==> stack.View().data == data
    ensures |data| >= 6 ==> stack.View().next == Plus(sequence, |data|)
  {
    ghost var s := Segment(stack.own, remote, local, port, sequence, 0, PSH + ACK, WINDOW, data);
    hide *;
    stack.Sends(remote, local, port);
    var size := stack.BuildTcpData(frame, target, remote, local, port, sequence, 0, data);
    assert frame[..size] == frame[..];
    DataRoundTrip(stack.View(), frame[..], target, stack.mac, s, false);
    accepted := stack.ReceiveEthernet(frame, false);
  }

  /** The three calls in a row: build a data frame, feed it to the receiver, read it back. */
  method Loopback(stack: Stack, frame: array<Byte>, target: seq<Byte>, remote: nat, local: nat, port: nat,
                  sequence: nat, data: seq<Byte>, destination: array<Byte>)
    returns (accepted: bool, amount: nat, nextSequence: Option<nat>)
    requires stack.Valid() && stack.CanSend(remote, local, port) && |target| == 6
    requires remote <= UINT32_MAX && local <= WORD_MAX && port <= WORD_MAX && sequence <= UINT32_MAX
    requires 0 < |data| <= DATA_MAX && frame.Length == 54 + |data| && destination.Length >= |data|
    requires frame != stack.buffer && destination != stack.buffer
    modifies stack, stack.buffer, frame, destination
    ensures accepted <==> |data| >= 6
    ensures |data| < 6 ==> amount == 0 && nextSequence == None
    ensures |data| >= 6 ==> amount == |data| && destination[..amount] == data
    ensures |data| >= 6 ==> nextSequence == Some(Plus(sequence, |data|))
  {
    var from := stack.own;
    accepted := SendToSelf(stack, frame, target, remote, local, port, sequence, data);
    amount, nextSequence := stack.TcpReceive(from, port, local, destination, destination.Length);
  }
}
