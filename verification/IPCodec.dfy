/** IPv4 datagrams on the wire (RFC 791, section 3.1). */
module IPCodec {
  import opened Types
  import opened Checksums
  import opened Parsing

  const LENGTH: nat := 20
  const PROTO_TCP: u8 := 6

  datatype IPv4Header = IPv4Header(
    ver: u8, hlen: u8, tos: u8, len: u16, id: u16, df: bool, mf: bool, offset: u16,
    ttl: u8, proto: u8, cksum: u16, src: u32, dst: u32)
  {
    /** In 16-bit arithmetic. */
    function PayloadLength(): u16 {
      (len - 4 * hlen) % 0x1_0000
    }

    /** The pseudo-header's share of the TCP checksum. */
    function PseudoCksum(): u32 {
      src / 0x1_0000 + src % 0x1_0000 + dst / 0x1_0000 + dst % 0x1_0000 + proto + PayloadLength()
    }
  }

  const BLANK: IPv4Header := IPv4Header(4, 5, 0, 0, 0, true, false, 0, 128, PROTO_TCP, 0, 0, 0)

  datatype IPv4Datagram = IPv4Datagram(header: IPv4Header, payload: seq<u8>)

  const WIDTHS: seq<nat> := [1, 1, 2, 2, 2, 1, 1, 2, 4, 4]

  /** Fragmentation flags and offset in one word. */
  function FragmentWord(h: IPv4Header): u16 {
    Bit(h.df, 0x4000) + Bit(h.mf, 0x2000) + h.offset % 0x2000
  }

  /** The header fields up to the checksum. */
  function Front(h: IPv4Header): seq<Field> {
    [Field(1, h.ver * 16 % 256 + h.hlen % 16), Field(1, h.tos), Field(2, h.len), Field(2, h.id),
     Field(2, FragmentWord(h)), Field(1, h.ttl), Field(1, h.proto)]
  }

  function Back(h: IPv4Header): seq<Field> {
    [Field(4, h.src), Field(4, h.dst)]
  }

  function Fields(h: IPv4Header): seq<Field> {
    Front(h) + [Field(2, h.cksum)] + Back(h)
  }

  /** The header, padded to its advertised size; another version or too short a header is refused. */
  function SerializeHeader(h: IPv4Header): Option<seq<u8>> {
    if h.ver != 4 || 4 * h.hlen < LENGTH then None else Some(PutAll(Fields(h), Zeros(4 * h.hlen - LENGTH)))
  }

  function Cksum(h: IPv4Header): u16
    requires h.ver == 4 && h.hlen >= 5
  {
    Running(0, false).Add(SerializeHeader(h.(cksum := 0)).value).Value()
  }

  /** The datagram on the wire; one whose payload does not have the length in the header is refused. */
  function Serialize(d: IPv4Datagram): Option<seq<u8>> {
    if |d.payload| != d.header.PayloadLength() || SerializeHeader(d.header).None? then None
    else Some(SerializeHeader(d.header.(cksum := Cksum(d.header))).value + d.payload)
  }

  function FromValues(v: seq<nat>): IPv4Header
    requires |v| == 10 && v[0] < 0x100 && v[1] < 0x100 && v[2] < 0x1_0000 && v[3] < 0x1_0000 && v[4] < 0x1_0000
    requires v[5] < 0x100 && v[6] < 0x100 && v[7] < 0x1_0000 && v[8] < 0x1_0000_0000 && v[9] < 0x1_0000_0000
  {
    IPv4Header(v[0] / 16, v[0] % 16, v[1], v[2], v[3], v[4] / 0x4000 % 2 == 1, v[4] / 0x2000 % 2 == 1, v[4] % 0x2000,
               v[5], v[6], v[7], v[8], v[9])
  }

  function ParseFields(p: Parser): (IPv4Header, Parser) {
    var (v, p') := TakeAll(WIDTHS, p);
    Caps();
    (FromValues(v), p')
  }

  /** The header and what is left; a packet too short for the fixed part leaves both as they are. */
  function ParseHeader(h0: IPv4Header, p: Parser): (IPv4Header, ParseResult, Parser) {
    var size := |p.buffer|;
    if size < LENGTH then (h0, PacketTooShort, p)
    else
      var (h, p') := ParseFields(p);
      if size < 4 * h.hlen then (h, PacketTooShort, p')
      else if h.ver != 4 then (h, WrongIPVersion, p')
      else if h.hlen < 5 then (h, HeaderTooShort, p')
      else if size != h.len then (h, TruncatedPacket, p')
      else
        var p'' := p'.Skip(4 * h.hlen - LENGTH);
        if !p''.error.NoError? then (h, p''.error, p'')
        else if Running(0, false).Add(p.buffer[..4 * h.hlen]).Value() != 0 then (h, BadChecksum, p'')
        else (h, NoError, p'')
  }

  /** The verdict on the header is not looked at, only the length of the payload and the parser's error. */
  function Parse(buffer: seq<u8>): (IPv4Datagram, ParseResult) {
    var (h, _, p) := ParseHeader(BLANK, Parser(buffer, NoError));
    (IPv4Datagram(h, p.buffer), if |p.buffer| != h.PayloadLength() then PacketTooShort else p.error)
  }

  // Round trip.

  lemma FieldsFit(h: IPv4Header)
    ensures Fit(Fields(h)) && Widths(Fields(h)) == WIDTHS
  {
    Caps();
  }

  lemma WordRecovered(h: IPv4Header)
    requires h.offset < 0x2000
    ensures var w := FragmentWord(h);
            (w / 0x4000 % 2 == 1) == h.df && (w / 0x2000 % 2 == 1) == h.mf && w % 0x2000 == h.offset
  {
  }

  lemma ValuesGiveBack(h: IPv4Header, v: seq<nat>)
    requires h.ver < 16 && h.hlen < 16 && h.offset < 0x2000 && v == Values(Fields(h))
    ensures |v| == 10 && v[0] == h.ver * 16 + h.hlen && v[1] == h.tos && v[2] == h.len && v[3] == h.id
    ensures v[4] == FragmentWord(h) && v[5] == h.ttl && v[6] == h.proto && v[7] == h.cksum && v[8] == h.src && v[9] == h.dst
    ensures FromValues(v) == h
  {
    WordRecovered(h);
  }

  lemma {:induction false} FieldsParsed(h: IPv4Header, rest: seq<u8>)
    requires h.ver < 16 && h.hlen < 16 && h.offset < 0x2000
    ensures ParseFields(Parser(PutAll(Fields(h), rest), NoError)) == (h, Parser(rest, NoError))
  {
    FieldsFit(h);
    PutTakeAll(Fields(h), rest);
    ValuesGiveBack(h, Values(Fields(h)));
  }

  lemma WidthOf(h: IPv4Header)
    ensures Width(Front(h)) == 10
  {
    var f := Front(h);
    var f2 := f[1..][1..];
    var f4 := f2[1..][1..];
    var f6 := f4[1..][1..];
    assert f6[1..] == [];
    assert Width(f6) == 1;
    assert Width(f4) == 4;
    assert Width(f2) == 8;
  }

  lemma {:induction false} FieldsLength(h: IPv4Header, rest: seq<u8>)
    ensures |PutAll(Fields(h), rest)| == 20 + |rest|
  {
    var g := [Field(2, h.cksum)] + Back(h);
    WidthOf(h);
    assert Fields(h) == Front(h) + g;
    PutAllConcat(Front(h), g, rest);
    PutAllLength(Front(h), PutAll(g, rest));
    assert g[1..] == Back(h) && g[1..][1..][1..] == [];
    assert Width(g[1..][1..]) == 4;
    PutAllLength(g, rest);
  }

  /** The checksum field contributes its own value to the sum. */
  lemma {:induction false} CksumCounts(h: IPv4Header, c: u16, rest: seq<u8>)
    ensures WordSum(PutAll(Fields(h.(cksum := c)), rest), false) ==
            WordSum(PutAll(Fields(h.(cksum := 0)), rest), false) + c
  {
    WidthOf(h);
    assert Front(h.(cksum := c)) == Front(h) == Front(h.(cksum := 0));
    SumAround(Front(h), c, Back(h), rest);
    SumAround(Front(h), 0, Back(h), rest);
  }

  lemma HeaderPasses(h: IPv4Header)
    requires h.ver == 4 && 5 <= h.hlen <= 15
    ensures |SerializeHeader(h.(cksum := Cksum(h))).value| == 4 * h.hlen
    ensures Running(0, false).Add(SerializeHeader(h.(cksum := Cksum(h))).value).Value() == 0
  {
    var pad, c := Zeros(4 * h.hlen - LENGTH), Cksum(h);
    var zeroed := PutAll(Fields(h.(cksum := 0)), pad);
    CksumCounts(h, c, pad);
    FieldsLength(h.(cksum := 0), pad);
    FieldsLength(h.(cksum := c), pad);
    WordSumBound(zeroed, false);
    FilledPasses(0, zeroed, PutAll(Fields(h.(cksum := c)), pad));
  }

  /** A header that can be written, with the length of the payload. */
  ghost predicate WellFormed(d: IPv4Datagram) {
    && d.header.ver == 4 && 5 <= d.header.hlen <= 15 && d.header.offset < 0x2000
    && d.header.len == 4 * d.header.hlen + |d.payload|
  }

  /** What the parser sees of a header written with its checksum. */
  lemma HeaderSeen(h: IPv4Header, payload: seq<u8>) returns (bytes: seq<u8>)
    requires WellFormed(IPv4Datagram(h, payload)) && h.cksum == Cksum(h)
    ensures bytes == SerializeHeader(h).value + payload && |bytes| == h.len
    ensures ParseFields(Parser(bytes, NoError)) == (h, Parser(Zeros(4 * h.hlen - LENGTH) + payload, NoError))
    ensures Running(0, false).Add(bytes[..4 * h.hlen]).Value() == 0
  {
    var pad := Zeros(4 * h.hlen - LENGTH);
    bytes := SerializeHeader(h).value + payload;
    PutAllAppend(Fields(h), pad, payload);
    FieldsParsed(h, pad + payload);
    HeaderPasses(h);
    assert h.(cksum := Cksum(h)) == h;
    assert bytes[..4 * h.hlen] == SerializeHeader(h).value;
  }

  lemma HeaderParsed(h: IPv4Header, payload: seq<u8>) returns (bytes: seq<u8>)
    requires WellFormed(IPv4Datagram(h, payload)) && h.cksum == Cksum(h)
    ensures bytes == SerializeHeader(h).value + payload
    ensures ParseHeader(BLANK, Parser(bytes, NoError)) == (h, NoError, Parser(payload, NoError))
  {
    bytes := HeaderSeen(h, payload);
    PadSkipped(Zeros(4 * h.hlen - LENGTH), payload);
  }

  /** Every well-formed datagram comes back from the wire as it was, with its checksum filled in. */
  lemma DatagramRoundTrip(d: IPv4Datagram) returns (bytes: seq<u8>)
    requires WellFormed(d)
    ensures Serialize(d) == Some(bytes)
    ensures Parse(bytes) == (d.(header := d.header.(cksum := Cksum(d.header))), NoError)
  {
    var h := d.header.(cksum := Cksum(d.header));
    SameCksum(d.header, h.cksum);
    LengthsAgree(d);
    bytes := HeaderParsed(h, d.payload);
    PayloadSeen(bytes, h, d.payload);
  }

  lemma SameCksum(h: IPv4Header, c: u16)
    requires h.ver == 4 && h.hlen >= 5
    ensures Cksum(h.(cksum := c)) == Cksum(h)
  {
    assert h.(cksum := c).(cksum := 0) == h.(cksum := 0);
  }

  lemma LengthsAgree(d: IPv4Datagram)
    requires WellFormed(d)
    ensures |d.payload| == d.header.PayloadLength()
  {
  }

  lemma PayloadSeen(bytes: seq<u8>, h: IPv4Header, payload: seq<u8>)
    requires ParseHeader(BLANK, Parser(bytes, NoError)) == (h, NoError, Parser(payload, NoError))
    requires |payload| == h.PayloadLength()
    ensures Parse(bytes) == (IPv4Datagram(h, payload), NoError)
  {
  }

  /** Where every field is in a header of at least five words (RFC 791, section 3.1). */
  lemma {:induction false} Layout(h: IPv4Header)
    requires h.ver == 4 && 5 <= h.hlen <= 15 && h.offset < 0x2000
    ensures SerializeHeader(h) == Some(
              [64 + h.hlen] + ([h.tos] + (Bytes(2, h.len) + (Bytes(2, h.id) +
              (Bytes(2, (if h.df then 0x4000 else 0) + (if h.mf then 0x2000 else 0) + h.offset) +
              ([h.ttl] + ([h.proto] + (Bytes(2, h.cksum) + (Bytes(4, h.src) + (Bytes(4, h.dst) +
              Zeros(4 * h.hlen - 20)))))))))))
  {
    var pad := Zeros(4 * h.hlen - 20);
    LayoutFront(h, Fields(h)[4..], pad);
    LayoutBack(h, Fields(h)[4..], pad);
  }

  lemma {:induction false} LayoutFront(h: IPv4Header, gs: seq<Field>, pad: seq<u8>)
    requires h.ver == 4 && h.hlen <= 15 && gs == Fields(h)[4..]
    ensures PutAll(Fields(h), pad) == [64 + h.hlen] + ([h.tos] + (Bytes(2, h.len) + (Bytes(2, h.id) + PutAll(gs, pad))))
  {
    PutFour(Fields(h), pad);
    OneByte(64 + h.hlen);
    OneByte(h.tos);
  }

  lemma {:induction false} LayoutBack(h: IPv4Header, gs: seq<Field>, pad: seq<u8>)
    requires h.offset < 0x2000 && gs == Fields(h)[4..]
    ensures PutAll(gs, pad) ==
            Bytes(2, (if h.df then 0x4000 else 0) + (if h.mf then 0x2000 else 0) + h.offset) +
            ([h.ttl] + ([h.proto] + (Bytes(2, h.cksum) + (Bytes(4, h.src) + (Bytes(4, h.dst) + pad)))))
  {
    PutFour(gs, pad);
    assert gs[4..] == [Field(4, h.src), Field(4, h.dst)] + [];
    PutTwo(Field(4, h.src), Field(4, h.dst), [], pad);
    OneByte(h.ttl);
    OneByte(h.proto);
  }

  // What is accepted.

  lemma {:induction false} Places()
    ensures Total(WIDTHS) == 20 && Total(WIDTHS[..0]) == 0 && Total(WIDTHS[..2]) == 2
  {
    var w := WIDTHS;
    var w2 := w[1..][1..];
    var w4 := w2[1..][1..];
    var w6 := w4[1..][1..];
    assert w6[1..][1..][1..][1..] == [];
    assert Total(w6[1..][1..][1..]) == 4;
    assert Total(w6[1..][1..]) == 8;
    assert Total(w6) == 11;
    assert Total(w4) == 14;
    assert Total(w2) == 18;
    var f := WIDTHS[..2];
    assert f[1..][1..] == [];
    assert Total(f[1..]) == 1;
  }

  /** The length that a packet announces. */
  function Announced(b: seq<u8>): nat
    requires |b| >= 20
  {
    FromBytes(b[2..4])
  }

  lemma {:induction false} FixedPart(b: seq<u8>)
    requires |b| >= 20
    ensures var (h, p) := ParseFields(Parser(b, NoError));
            && h.ver == b[0] / 16 && h.hlen == b[0] % 16 && h.len == Announced(b) && p == Parser(b[20..], NoError)
  {
    Places();
    TakeLeaves(WIDTHS, b);
    TakeWithin(WIDTHS, b, 0, 0);
    TakeWithin(WIDTHS, b, 2, 2);
    OneFromBytes(b[0..][..1]);
    assert b[2..][..2] == b[2..4];
  }

  /** Version 4, a whole header, and as many bytes as announced. */
  predicate Whole(b: seq<u8>) {
    |b| >= 20 && b[0] / 16 == 4 && b[0] % 16 >= 5 && 4 * (b[0] % 16) <= |b| == Announced(b)
  }

  /** What is left after the header: the options of a packet that is not whole stay in it. */
  lemma {:induction false} HeaderVerdict(b: seq<u8>)
    ensures var (h, result, p) := ParseHeader(BLANK, Parser(b, NoError));
            && (result.NoError? <==> Whole(b) && Running(0, false).Add(b[..4 * (b[0] % 16)]).Value() == 0)
            && (|b| >= 20 ==> p == Parser(if Whole(b) then b[4 * (b[0] % 16)..] else b[20..], NoError))
            && (|b| >= 20 ==> h.PayloadLength() == (Announced(b) - 4 * (b[0] % 16)) % 0x1_0000)
  {
    if |b| >= 20 {
      FixedPart(b);
      if Whole(b) { RestOfRest(b, 20, 4 * (b[0] % 16)); }
    }
  }

  /**
   * The verdict on the header has no say: a packet is accepted exactly when it is
   * whole, or what follows its first 20 bytes happens to have the announced length.
   */
  lemma {:induction false} Accepted(b: seq<u8>)
    ensures Parse(b).1.NoError? <==>
            |b| >= 20 && (Whole(b) || |b| - 20 == (Announced(b) - 4 * (b[0] % 16)) % 0x1_0000)
    ensures Parse(b).1.NoError? ==> Parse(b).0.payload == if Whole(b) then b[4 * (b[0] % 16)..] else b[20..]
  {
    HeaderVerdict(b);
  }

  // The pseudo-header (RFC 793, section 3.1).

  /** Source, destination, a zero, the protocol and the length of what follows. */
  function PseudoHeader(h: IPv4Header): (bytes: seq<u8>)
    ensures |bytes| == 12
  {
    Bytes(4, h.src) + Bytes(4, h.dst) + [0, h.proto] + Bytes(2, h.PayloadLength())
  }

  /** The number that starts the TCP checksum is the sum of the words of the pseudo-header. */
  lemma {:induction false} PseudoCounts(h: IPv4Header)
    ensures WordSum(PseudoHeader(h), false) == h.PseudoCksum()
  {
    var a, b, c, d := Bytes(4, h.src), Bytes(4, h.dst), [0, h.proto], Bytes(2, h.PayloadLength());
    WordSumConcat(a + b + c, d, false);
    WordSumConcat(a + b, c, false);
    WordSumConcat(a, b, false);
    WordsOf(h.src);
    WordsOf(h.dst);
    WordOf(h.PayloadLength());
    WordOfTwo(0, h.proto);
  }

  /** Starting from that number is taking in the pseudo-header first. */
  lemma {:induction false} PseudoFirst(h: IPv4Header, payload: seq<u8>)
    ensures Running(0, false).Add(PseudoHeader(h) + payload) == Running(h.PseudoCksum(), false).Add(payload)
  {
    PseudoCounts(h);
    AddAfter(PseudoHeader(h), h.PseudoCksum(), payload);
  }
}
