/** TCP segments on the wire (RFC 793, section 3.1). */
module TCPCodec {
  import opened Types
  import opened Segments
  import opened Checksums
  import opened Parsing

  function FlagByte(h: TCPHeader): u8 {
    Bit(h.urg, 32) + Bit(h.ack, 16) + Bit(h.psh, 8) + Bit(h.rst, 4) + Bit(h.syn, 2) + Bit(h.fin, 1)
  }

  lemma FlagsRecovered(h: TCPHeader)
    ensures var b := FlagByte(h);
            && HasBit(b, 32) == h.urg && HasBit(b, 16) == h.ack && HasBit(b, 8) == h.psh
            && HasBit(b, 4) == h.rst && HasBit(b, 2) == h.syn && HasBit(b, 1) == h.fin
  {
  }

  const WIDTHS: seq<nat> := [2, 2, 4, 4, 1, 1, 2, 2, 2]

  /** The header fields up to the checksum. */
  function Front(h: TCPHeader): seq<Field> {
    [Field(2, h.sport), Field(2, h.dport), Field(4, h.seqno), Field(4, h.ackno),
     Field(1, h.doff * 16 % 256), Field(1, FlagByte(h)), Field(2, h.win)]
  }

  function Fields(h: TCPHeader): seq<Field> {
    Front(h) + [Field(2, h.cksum), Field(2, h.uptr)]
  }

  /** The header, padded to its advertised size; one too short for its fixed part is refused. */
  function SerializeHeader(h: TCPHeader): Option<seq<u8>> {
    if h.doff < 5 then None else Some(PutAll(Fields(h), Zeros(4 * h.doff - 20)))
  }

  function Serialize(seg: TCPSegment, pseudo: u32): Option<seq<u8>> {
    var header := SerializeHeader(seg.header.(cksum := 0));
    if header.None? then None
    else
      var cksum := Running(pseudo, false).Add(header.value).Add(seg.payload).Value();
      Some(SerializeHeader(seg.header.(cksum := cksum)).value + seg.payload)
  }

  /** The fields, in order, and what is left. */
  function ParseFields(p: Parser): (TCPHeader, Parser) {
    var (v, p') := TakeAll(WIDTHS, p);
    Caps();
    (FromValues(v), p')
  }

  function FromValues(v: seq<nat>): TCPHeader
    requires |v| == 9 && v[0] < 0x1_0000 && v[1] < 0x1_0000 && v[2] < 0x1_0000_0000 && v[3] < 0x1_0000_0000
    requires v[4] < 0x100 && v[5] < 0x100 && v[6] < 0x1_0000 && v[7] < 0x1_0000 && v[8] < 0x1_0000
  {
    var f := v[5];
    TCPHeader(v[0], v[1], v[2], v[3], v[4] / 16,
              HasBit(f, 32), HasBit(f, 16), HasBit(f, 8), HasBit(f, 4), HasBit(f, 2), HasBit(f, 1),
              v[6], v[7], v[8])
  }

  /** The header and what is left; options are skipped. */
  function ParseHeader(p: Parser): (TCPHeader, ParseResult, Parser) {
    var (h, p') := ParseFields(p);
    if h.doff < 5 then (h, HeaderTooShort, p')
    else
      var p'' := p'.Skip(4 * h.doff - 20);
      (h, p''.error, p'')
  }

  /** The checksum comes first; the verdict on the header is not looked at, only the parser's. */
  function Parse(buffer: seq<u8>, pseudo: u32): (TCPSegment, ParseResult) {
    if Running(pseudo, false).Add(buffer).Value() != 0 then (TCPSegment(BLANK, []), BadChecksum)
    else
      var (h, _, p) := ParseHeader(Parser(buffer, NoError));
      (TCPSegment(h, p.buffer), p.error)
  }

  // Round trip.

  lemma FieldsFit(h: TCPHeader)
    ensures Fit(Fields(h)) && Widths(Fields(h)) == WIDTHS
  {
    Caps();
  }

  lemma ValuesGiveBack(h: TCPHeader, v: seq<nat>)
    requires h.doff <= 15 && v == Values(Fields(h))
    ensures |v| == 9 && v[0] == h.sport && v[1] == h.dport && v[2] == h.seqno && v[3] == h.ackno
    ensures v[4] == h.doff * 16 && v[5] == FlagByte(h) && v[6] == h.win && v[7] == h.cksum && v[8] == h.uptr
    ensures FromValues(v) == h
  {
    FlagsRecovered(h);
  }

  lemma {:induction false} FieldsParsed(h: TCPHeader, rest: seq<u8>)
    requires h.doff <= 15
    ensures ParseFields(Parser(PutAll(Fields(h), rest), NoError)) == (h, Parser(rest, NoError))
  {
    var fs := Fields(h);
    FieldsFit(h);
    PutTakeAll(fs, rest);
    ValuesGiveBack(h, Values(fs));
  }

  lemma HeaderParsed(h: TCPHeader, payload: seq<u8>)
    requires 5 <= h.doff <= 15
    ensures ParseHeader(Parser(SerializeHeader(h).value + payload, NoError)) == (h, NoError, Parser(payload, NoError))
  {
    var pad := Zeros(4 * h.doff - 20);
    FieldsParsed(h, pad + payload);
    PutAllAppend(Fields(h), pad, payload);
    PadSkipped(pad, payload);
  }

  /** The checksum field contributes its own value to the sum. */
  lemma {:induction false} CksumCounts(h: TCPHeader, c: u16, rest: seq<u8>)
    ensures WordSum(PutAll(Fields(h.(cksum := c)), rest), false) ==
            WordSum(PutAll(Fields(h.(cksum := 0)), rest), false) + c
  {
    Around(h, c);
    Around(h, 0);
    WidthOf(h);
    SumAround(Front(h), c, [Field(2, h.uptr)], rest);
    SumAround(Front(h), 0, [Field(2, h.uptr)], rest);
  }

  lemma Around(h: TCPHeader, c: u16)
    ensures Fields(h.(cksum := c)) == Front(h) + [Field(2, c)] + [Field(2, h.uptr)]
  {
    assert Front(h.(cksum := c)) == Front(h);
  }

  lemma WidthOf(h: TCPHeader)
    ensures Width(Front(h)) == 16
  {
    var f := Front(h);
    var f2 := f[1..][1..];
    var f4 := f2[1..][1..];
    var f6 := f4[1..][1..];
    assert f6[1..] == [];
    assert Width(f6) == 2;
    assert Width(f4) == 4;
    assert Width(f2) == 12;
  }

  function Cksum(seg: TCPSegment, pseudo: u32): u16
    requires seg.header.doff >= 5
  {
    Running(pseudo, false).Add(SerializeHeader(seg.header.(cksum := 0)).value).Add(seg.payload).Value()
  }

  /** Every segment that fits a datagram comes back from the wire as it was, with its checksum filled in. */
  lemma SegmentRoundTrip(seg: TCPSegment, pseudo: u32)
    requires 5 <= seg.header.doff <= 15 && pseudo <= 6 * 0xFFFF && 4 * seg.header.doff + |seg.payload| <= 0xFFFF
    ensures Serialize(seg, pseudo).Some?
    ensures Parse(Serialize(seg, pseudo).value, pseudo) == (seg.(header := seg.header.(cksum := Cksum(seg, pseudo))), NoError)
  {
    var h, c := seg.header, Cksum(seg, pseudo);
    var bytes := Serialize(seg, pseudo).value;
    HeaderParsed(h.(cksum := c), seg.payload);
    SegmentPasses(seg, pseudo);
  }

  lemma SegmentPasses(seg: TCPSegment, pseudo: u32)
    requires 5 <= seg.header.doff <= 15 && pseudo <= 6 * 0xFFFF && 4 * seg.header.doff + |seg.payload| <= 0xFFFF
    ensures Running(pseudo, false).Add(Serialize(seg, pseudo).value).Value() == 0
  {
    var h, c := seg.header, Cksum(seg, pseudo);
    var pad := Zeros(4 * h.doff - 20);
    var zeroed := PutAll(Fields(h.(cksum := 0)), pad + seg.payload);
    PutAllAppend(Fields(h.(cksum := 0)), pad, seg.payload);
    PutAllAppend(Fields(h.(cksum := c)), pad, seg.payload);
    AddSplits(Running(pseudo, false), SerializeHeader(h.(cksum := 0)).value, seg.payload);
    CksumCounts(h, c, pad + seg.payload);
    FieldsLength(h.(cksum := 0), pad + seg.payload);
    WordSumBound(zeroed, false);
    FilledPasses(pseudo, zeroed, Serialize(seg, pseudo).value);
  }

  lemma {:induction false} FieldsLength(h: TCPHeader, rest: seq<u8>)
    ensures |PutAll(Fields(h), rest)| == 20 + |rest|
  {
    var g := [Field(2, h.cksum), Field(2, h.uptr)];
    WidthOf(h);
    PutAllConcat(Front(h), g, rest);
    PutAllLength(Front(h), PutAll(g, rest));
    assert g[1..][1..] == [];
    assert Width(g[1..]) == 2;
    PutAllLength(g, rest);
  }

  lemma SegmentLength(seg: TCPSegment, pseudo: u32)
    requires seg.header.doff >= 5
    ensures |Serialize(seg, pseudo).value| == 4 * seg.header.doff + |seg.payload|
  {
    FieldsLength(seg.header.(cksum := Cksum(seg, pseudo)), Zeros(4 * seg.header.doff - 20));
  }

  /** Where every field is in a header of at least five words (RFC 793, section 3.1). */
  lemma {:induction false} Layout(h: TCPHeader)
    requires 5 <= h.doff <= 15
    ensures SerializeHeader(h) == Some(
              Bytes(2, h.sport) + (Bytes(2, h.dport) + (Bytes(4, h.seqno) + (Bytes(4, h.ackno) +
              ([16 * h.doff] + ([FlagByte(h)] + (Bytes(2, h.win) + (Bytes(2, h.cksum) + (Bytes(2, h.uptr) +
              Zeros(4 * h.doff - 20))))))))))
    ensures FlagByte(h) == (if h.urg then 32 else 0) + (if h.ack then 16 else 0) + (if h.psh then 8 else 0)
                         + (if h.rst then 4 else 0) + (if h.syn then 2 else 0) + (if h.fin then 1 else 0)
  {
    var fs, pad := Fields(h), Zeros(4 * h.doff - 20);
    var gs := fs[4..];
    PutFour(fs, pad);
    PutFour(gs, pad);
    assert gs[4..] == [fs[8]];
    assert PutAll([fs[8]], pad) == Bytes(2, h.uptr) + pad by { assert [fs[8]][1..] == []; }
    OneByte(16 * h.doff);
    OneByte(FlagByte(h));
  }

  // What is accepted.

  lemma {:induction false} Places()
    ensures Total(WIDTHS) == 20 && Total(WIDTHS[..4]) == 12
  {
    var w := WIDTHS;
    var w2 := w[1..][1..];
    var w4 := w2[1..][1..];
    var w6 := w4[1..][1..];
    assert w6[1..][1..][1..] == [];
    assert Total(w6[1..][1..]) == 2;
    assert Total(w6) == 6;
    assert Total(w4) == 8;
    assert Total(w2) == 16;
    var f := WIDTHS[..4];
    assert f[1..][1..][1..][1..] == [];
    assert Total(f[1..][1..][1..]) == 4;
    assert Total(f[1..]) == 10;
  }

  /** What the parser makes of the fixed part: the size of the header is in the upper half of byte 12. */
  lemma {:induction false} FixedPart(b: seq<u8>)
    ensures var (h, p) := ParseFields(Parser(b, NoError));
            if |b| >= 20 then h.doff == b[12] / 16 && p == Parser(b[20..], NoError) else p.error.PacketTooShort?
  {
    Places();
    TakeLeaves(WIDTHS, b);
    if |b| >= 20 {
      TakeWithin(WIDTHS, b, 4, 12);
      OneFromBytes(b[12..][..1]);
    }
  }

  /**
   * Bytes are accepted exactly when the checksum is zero and they hold the fixed
   * part and as much of a header as they announce; one announced shorter passes.
   */
  lemma {:induction false} Accepted(b: seq<u8>, pseudo: u32)
    ensures Parse(b, pseudo).1.NoError? <==>
            Running(pseudo, false).Add(b).Value() == 0 && |b| >= 20 && |b| >= 4 * (b[12] / 16)
    ensures Parse(b, pseudo).1.NoError? ==> Parse(b, pseudo).0.payload == b[Max(20, 4 * (b[12] / 16))..]
  {
    FixedPart(b);
    if |b| >= 20 && |b| >= 4 * (b[12] / 16) >= 20 { RestOfRest(b, 20, 4 * (b[12] / 16)); }
    if |b| < 20 { SkipShort(ParseFields(Parser(b, NoError)).1); }
  }

  lemma SkipShort(p: Parser)
    requires p.error.PacketTooShort?
    ensures forall n: nat :: p.Skip(n).error.PacketTooShort?
  {
  }
}
