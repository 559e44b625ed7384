/** TCP segments carried in IPv4 datagrams, from one endpoint to the mirrored one. */
module TCPOverIP {
  import opened Types
  import opened Segments
  import opened Parsing
  import opened Checksums
  import TCPCodec
  import IPCodec

  datatype Address = Address(ip: u32, port: u16)

  /** Who we are, who the peer is, and whether we still wait to learn that. */
  datatype Adapter = Adapter(listening: bool, source: Address, destination: Address)

  /** The ports are set from the configuration. */
  function WithPorts(a: Adapter, seg: TCPSegment): TCPSegment {
    seg.(header := seg.header.(sport := a.source.port, dport := a.destination.port))
  }

  function HeaderFor(a: Adapter, seg: TCPSegment): IPCodec.IPv4Header {
    IPCodec.BLANK.(src := a.source.ip, dst := a.destination.ip, len := (20 + 4 * seg.header.doff + |seg.payload|) % 0x1_0000)
  }

  function Wrap(a: Adapter, seg: TCPSegment): Option<IPCodec.IPv4Datagram> {
    var h := HeaderFor(a, seg);
    var payload := TCPCodec.Serialize(WithPorts(a, seg), h.PseudoCksum());
    if payload.None? then None else Some(IPCodec.IPv4Datagram(h, payload.value))
  }

  /** The segment in the datagram, if it is one of ours, and the adapter afterwards. */
  function Unwrap(a: Adapter, d: IPCodec.IPv4Datagram): (Option<TCPSegment>, Adapter) {
    if !a.listening && d.header.dst != a.source.ip then (None, a)
    else if !a.listening && d.header.src != a.destination.ip then (None, a)
    else if d.header.proto != IPCodec.PROTO_TCP then (None, a)
    else
      var (seg, result) := TCPCodec.Parse(d.payload, d.header.PseudoCksum());
      if !result.NoError? || seg.header.dport != a.source.port then (None, a)
      else if a.listening && !(seg.header.syn && !seg.header.rst) then (None, a)
      else
        var a' := if a.listening
                  then Adapter(false, Address(d.header.dst, a.source.port), Address(d.header.src, seg.header.sport))
                  else a;
        if seg.header.sport != a'.destination.port then (None, a') else (Some(seg), a')
  }

  /** The other end. */
  function Mirror(a: Adapter): Adapter {
    Adapter(false, a.destination, a.source)
  }

  class TCPOverIPv4Adapter {
    var listening: bool
    var source: Address
    var destination: Address

    ghost function State(): Adapter
      reads this
    {
      Adapter(listening, source, destination)
    }

    constructor (listening: bool, source: Address, destination: Address)
      ensures State() == Adapter(listening, source, destination)
    {
      this.listening, this.source, this.destination := listening, source, destination;
    }

    method UnwrapTcpInIp(d: IPCodec.IPv4Datagram) returns (seg: Option<TCPSegment>)
      modifies this
      ensures (seg, State()) == Unwrap(old(State()), d)
    {
      seg := None;
      if !listening && d.header.dst != source.ip {
        return;
      }
      if !listening && d.header.src != destination.ip {
        return;
      }
      if d.header.proto != IPCodec.PROTO_TCP {
        return;
      }
      var (tcp, result) := TCPCodec.Parse(d.payload, d.header.PseudoCksum());
      if !result.NoError? {
        return;
      }
      if tcp.header.dport != source.port {
        return;
      }
      if listening {
        if tcp.header.syn && !tcp.header.rst {
          source := Address(d.header.dst, source.port);
          destination := Address(d.header.src, tcp.header.sport);
          listening := false;
        } else {
          return;
        }
      }
      if tcp.header.sport != destination.port {
        return;
      }
      seg := Some(tcp);
    }

    method WrapTcpInIp(seg: TCPSegment) returns (seg': TCPSegment, d: Option<IPCodec.IPv4Datagram>)
      ensures seg' == WithPorts(State(), seg) && d == Wrap(State(), seg)
    {
      seg' := seg.(header := seg.header.(sport := source.port, dport := destination.port));
      var h := IPCodec.BLANK;
      h := h.(src := source.ip, dst := destination.ip);
      h := h.(len := (h.hlen * 4 + seg'.header.doff * 4 + |seg'.payload|) % 0x1_0000);
      var payload := TCPCodec.Serialize(seg', h.PseudoCksum());
      d := if payload.None? then None else Some(IPCodec.IPv4Datagram(h, payload.value));
    }
  }

  // From wire to wire.

  /** What arrives: the segment with its ports set and its checksum filled in. */
  function Arriving(a: Adapter, seg: TCPSegment): TCPSegment
    requires seg.header.doff >= 5
  {
    var s := WithPorts(a, seg);
    s.(header := s.header.(cksum := TCPCodec.Cksum(s, HeaderFor(a, seg).PseudoCksum())))
  }

  lemma Wrapped(a: Adapter, seg: TCPSegment) returns (sent: IPCodec.IPv4Datagram)
    requires 5 <= seg.header.doff <= 15 && 20 + 4 * seg.header.doff + |seg.payload| <= 0xFFFF
    ensures Wrap(a, seg) == Some(sent) && IPCodec.WellFormed(sent) && sent.header == HeaderFor(a, seg)
    ensures TCPCodec.Parse(sent.payload, sent.header.PseudoCksum()) == (Arriving(a, seg), NoError)
  {
    var h, s := HeaderFor(a, seg), WithPorts(a, seg);
    var pseudo := h.PseudoCksum();
    PseudoFits(h);
    var payload := SegmentCarried(s, pseudo);
    sent := WrapFits(a, seg, payload);
  }

  lemma WrapFits(a: Adapter, seg: TCPSegment, payload: seq<u8>) returns (sent: IPCodec.IPv4Datagram)
    requires 20 + 4 * seg.header.doff + |seg.payload| <= 0xFFFF && |payload| == 4 * seg.header.doff + |seg.payload|
    requires TCPCodec.Serialize(WithPorts(a, seg), HeaderFor(a, seg).PseudoCksum()) == Some(payload)
    ensures Wrap(a, seg) == Some(sent) && IPCodec.WellFormed(sent) && sent.header == HeaderFor(a, seg) && sent.payload == payload
  {
    sent := IPCodec.IPv4Datagram(HeaderFor(a, seg), payload);
  }

  /**
   * The datagram made of a segment that fits goes from us to the peer, and the
   * pseudo-header of its own addresses followed by its payload has checksum zero.
   */
  lemma ChecksumSent(a: Adapter, seg: TCPSegment)
    requires 5 <= seg.header.doff <= 15 && 20 + 4 * seg.header.doff + |seg.payload| <= 0xFFFF
    ensures Wrap(a, seg).Some?
    ensures var d := Wrap(a, seg).value;
            && d.header.src == a.source.ip && d.header.dst == a.destination.ip && d.header.proto == 6
            && d.header.PayloadLength() == |d.payload|
            && Running(0, false).Add(IPCodec.PseudoHeader(d.header) + d.payload).Value() == 0
  {
    var h := HeaderFor(a, seg);
    var sent := Wrapped(a, seg);
    IPCodec.LengthsAgree(sent);
    PseudoFits(h);
    TCPCodec.SegmentPasses(WithPorts(a, seg), h.PseudoCksum());
    IPCodec.PseudoFirst(h, sent.payload);
  }

  /**
   * A datagram yields a segment only if the checksum over its pseudo-header and
   * payload is zero, and it goes from the peer, known or learnt, to us.
   */
  lemma ChecksumHeeded(a: Adapter, d: IPCodec.IPv4Datagram)
    requires Unwrap(a, d).0.Some?
    ensures Running(0, false).Add(IPCodec.PseudoHeader(d.header) + d.payload).Value() == 0
    ensures var (seg, a') := Unwrap(a, d);
            && d.header.proto == 6 && !a'.listening
            && a'.source == Address(d.header.dst, seg.value.header.dport)
            && a'.destination == Address(d.header.src, seg.value.header.sport)
            && (!a.listening ==> a' == a)
            && (a.listening ==> seg.value.header.syn && !seg.value.header.rst && a'.source.port == a.source.port)
  {
    IPCodec.PseudoFirst(d.header, d.payload);
  }

  lemma SegmentCarried(s: TCPSegment, pseudo: u32) returns (payload: seq<u8>)
    requires 5 <= s.header.doff <= 15 && 20 + 4 * s.header.doff + |s.payload| <= 0xFFFF && pseudo <= 6 * 0xFFFF
    ensures TCPCodec.Serialize(s, pseudo) == Some(payload) && |payload| == 4 * s.header.doff + |s.payload|
    ensures TCPCodec.Parse(payload, pseudo) == (s.(header := s.header.(cksum := TCPCodec.Cksum(s, pseudo))), NoError)
  {
    TCPCodec.SegmentRoundTrip(s, pseudo);
    TCPCodec.SegmentLength(s, pseudo);
    payload := TCPCodec.Serialize(s, pseudo).value;
  }

  /** The datagram as it is read from the wire at the far end. */
  lemma Carried(a: Adapter, seg: TCPSegment) returns (d: IPCodec.IPv4Datagram, bytes: seq<u8>)
    requires 5 <= seg.header.doff <= 15 && 20 + 4 * seg.header.doff + |seg.payload| <= 0xFFFF
    ensures Wrap(a, seg).Some? && IPCodec.Serialize(Wrap(a, seg).value) == Some(bytes) && IPCodec.Parse(bytes) == (d, NoError)
    ensures d.header.src == a.source.ip && d.header.dst == a.destination.ip && d.header.proto == IPCodec.PROTO_TCP
    ensures TCPCodec.Parse(d.payload, d.header.PseudoCksum()) == (Arriving(a, seg), NoError)
  {
    var sent := Wrapped(a, seg);
    bytes := IPCodec.DatagramRoundTrip(sent);
    d := IPCodec.Parse(bytes).0;
    SamePseudo(sent.header, d.header.cksum);
  }

  lemma SamePseudo(h: IPCodec.IPv4Header, c: u16)
    ensures h.(cksum := c).PseudoCksum() == h.PseudoCksum()
  {
  }

  lemma PseudoFits(h: IPCodec.IPv4Header)
    ensures h.PseudoCksum() <= 6 * 0xFFFF
  {
  }

  /**
   * Wrapped, written, read and unwrapped at the mirrored endpoint, every segment
   * that fits a datagram comes back with the same fields and payload; so does a
   * SYN at a listening endpoint with the right port, which then mirrors the sender.
   */
  lemma RoundTrip(a: Adapter, seg: TCPSegment, b: Adapter)
    requires 5 <= seg.header.doff <= 15 && 20 + 4 * seg.header.doff + |seg.payload| <= 0xFFFF
    requires b == Mirror(a) || (b.listening && b.source.port == a.destination.port && seg.header.syn && !seg.header.rst)
    ensures Wrap(a, seg).Some? && IPCodec.Serialize(Wrap(a, seg).value).Some?
    ensures var (d, result) := IPCodec.Parse(IPCodec.Serialize(Wrap(a, seg).value).value);
            result == NoError && Unwrap(b, d) == (Some(Arriving(a, seg)), Mirror(a))
  {
    var d, bytes := Carried(a, seg);
  }
}
