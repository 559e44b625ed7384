/** A TCP segment: header fields and payload. */
module Segments {
  import opened Types

  datatype TCPHeader = TCPHeader(
    sport: u16, dport: u16, seqno: u32, ackno: u32, doff: u8,
    urg: bool, ack: bool, psh: bool, rst: bool, syn: bool, fin: bool,
    win: u16, cksum: u16, uptr: u16)

  /** The header of a default-constructed segment. */
  const BLANK := TCPHeader(0, 0, 0, 0, 5, false, false, false, false, false, false, 0, 0, 0)

  datatype TCPSegment = TCPSegment(header: TCPHeader, payload: seq<u8>)
  {
    function LengthInSequenceSpace(): nat {
      |payload| + Num(header.syn) + Num(header.fin)
    }
  }
}
