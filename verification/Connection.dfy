/** A complete TCP endpoint: what each of its operations does to its state. */
module Connecting {
  import opened Types
  import opened WrappingIntegers
  import opened Segments
  import opened Sending
  import Receiving

  const MAX_RETX_ATTEMPTS: nat := 8

  /** A segment handed to the network, with the absolute numbers behind its seqno and ackno. */
  datatype Packet = Packet(seg: TCPSegment, at: int, ackAt: nat)

  datatype Conn = Conn(
    rtTimeout: u16, receiver: Receiving.Receiver, sender: Sender, out: seq<Packet>,
    linger: bool, active: bool, rst: bool, timer: nat)

  function Fresh(rtTimeout: u16, recvCapacity: nat, sendCapacity: nat, isn: u32): Conn {
    Conn(rtTimeout, Receiving.Fresh(recvCapacity), Sending.Fresh(sendCapacity, rtTimeout, isn), [], true, true, false, 0)
  }

  /** The operations below are defined on states with coherent halves. */
  ghost predicate Coherent(c: Conn) {
    c.receiver.Inv() && c.sender.stream.Valid() && c.sender.acked <= c.sender.next
  }

  /** Fills in what only the receiver knows, or the reset flag. */
  function Completed(rst: bool, ackno: Option<u32>, window: nat, h: TCPHeader): TCPHeader {
    var acked := if ackno.Some? then h.(ack := true, ackno := ackno.value) else h;
    if rst then h.(rst := true) else acked.(win := Min(window, 0xFFFF))
  }

  function Stamp(rst: bool, r: Receiving.Receiver, e: Outstanding): Packet
    requires r.Inv()
  {
    Packet(e.seg.(header := Completed(rst, r.Ackno(), r.WindowSize(), e.seg.header)), e.At(), r.AckAbs())
  }

  function StampAll(rst: bool, r: Receiving.Receiver, es: seq<Outstanding>): seq<Packet>
    requires r.Inv()
  {
    seq(|es|, i requires 0 <= i < |es| => Stamp(rst, r, es[i]))
  }

  /** Moves everything the sender has queued to the outbound queue. */
  function PullPush(c: Conn): (c': Conn)
    requires Coherent(c)
    ensures Coherent(c')
  {
    c.(out := c.out + StampAll(c.rst, c.receiver, c.sender.out), sender := c.sender.(out := []))
  }

  function FullyDead(c: Conn, errorType: nat): (c': Conn)
    requires Coherent(c)
    ensures Coherent(c')
  {
    PullPush(LastWords(c, errorType)).(active := false)
  }

  /** A normal end sends what the window allows; an end by reset dooms both streams, and one of our own making has something to carry the flag. */
  function LastWords(c: Conn, errorType: nat): (c': Conn)
    requires Coherent(c)
    ensures Coherent(c')
  {
    if errorType == 0 then c.(sender := Fill(c.sender))
    else Doom(c.(rst := true, sender := if errorType > 1 && c.sender.out == [] then SendEmpty(c.sender) else c.sender))
  }

  /** Both streams are in error. */
  function Doom(c: Conn): Conn {
    c.(receiver := c.receiver.(asm := c.receiver.asm.(out := c.receiver.asm.out.SetError())),
       sender := c.sender.(stream := c.sender.stream.SetError()))
  }

  function JudgeDo(c: Conn): (c': Conn)
    requires Coherent(c)
    ensures Coherent(c')
  {
    if !c.active then c
    else if c.rst then FullyDead(c, 1)
    else if c.sender.tries > MAX_RETX_ATTEMPTS then FullyDead(c, 2)
    else if c.linger && c.sender.FullFined() && c.receiver.FullFined() && c.timer >= 10 * c.rtTimeout
    then FullyDead(c.(linger := false), 0)
    else if !c.linger && c.sender.FullFined() then FullyDead(c, 0)
    else PullPush(c)
  }

  function FillIfSyned(s: Sender): Sender
    requires s.stream.Valid() && s.acked <= s.next
  {
    if s.syned then Fill(s) else s
  }

  function Connect(c: Conn): (c': Conn)
    requires Coherent(c)
    ensures Coherent(c')
  {
    JudgeDo(c.(sender := Fill(c.sender)))
  }

  function Write(c: Conn, data: seq<u8>): (c': Conn)
    requires Coherent(c)
    ensures Coherent(c')
  {
    JudgeDo(c.(sender := FillIfSyned(c.sender.Write(data))))
  }

  function EndInputStream(c: Conn): (c': Conn)
    requires Coherent(c)
    ensures Coherent(c')
  {
    JudgeDo(c.(sender := Fill(c.sender.EndInput())))
  }

  function Tick(c: Conn, ms: nat): (c': Conn)
    requires Coherent(c)
    ensures Coherent(c')
  {
    JudgeDo(Elapse(c, ms))
  }

  /** Time passes for both timers, before anything is judged. */
  function Elapse(c: Conn, ms: nat): (c': Conn)
    requires Coherent(c)
    ensures Coherent(c')
  {
    c.(timer := c.timer + ms, sender := FillIfSyned(Sending.Tick(c.sender, ms)))
  }

  /** Whether a segment must be answered with an empty one. */
  predicate MustAnswer(c: Conn, seg: TCPSegment) {
    || (c.sender.out == [] && seg.LengthInSequenceSpace() != 0)
    || (seg.LengthInSequenceSpace() == 0 && c.receiver.Ackno().Some? && seg.header.seqno == Plus(c.receiver.Ackno().value, -1))
  }

  /** The sender's part of an arriving segment. */
  function SenderHears(s: Sender, h: TCPHeader): (s': Sender)
    requires s.stream.Valid() && s.acked <= s.next
    ensures s'.stream.Valid() && s'.acked <= s'.next
  {
    FillIfSyned(if h.ack then AckReceived(s, h.ackno, h.win) else s)
  }

  /** The peer has finished first: no need to linger. */
  function NoteClose(c: Conn): Conn {
    if c.receiver.FullFined() && !c.sender.fined then c.(linger := false) else c
  }

  function Answer(c: Conn, seg: TCPSegment): Conn {
    if MustAnswer(c, seg) then c.(sender := SendEmpty(c.sender)) else c
  }

  /** What follows once both halves have seen the segment. */
  function Settle(c: Conn, seg: TCPSegment): (c': Conn)
    requires Coherent(c)
    ensures Coherent(c')
  {
    JudgeDo(Answer(NoteClose(c), seg))
  }

  function SegmentReceived(c: Conn, seg: TCPSegment): (c': Conn)
    requires Coherent(c)
    ensures Coherent(c')
  {
    if seg.header.rst then JudgeDo(c.(timer := 0, rst := true))
    else
      var receiver := Receiving.SegmentReceived(c.receiver, seg);
      Receiving.ReceiveKeeps(c.receiver, seg);
      var c1 := c.(timer := 0, receiver := receiver);
      if seg.header.syn && !c.sender.syned then Connect(c1)
      else Settle(c1.(sender := SenderHears(c.sender, seg.header)), seg)
  }

  /** The reader takes bytes from the inbound stream. */
  function Read(c: Conn, len: nat): (c': Conn)
    requires Coherent(c)
    ensures Coherent(c')
  {
    c.(receiver := c.receiver.Read(len))
  }
}
