/** The connection object: two halves and the queue of segments for the network. */
module TCPConnections {
  import opened Types
  import opened WrappingIntegers
  import opened Segments
  import opened Connecting
  import opened TCPReceivers
  import opened TCPSenders
  import Receiving

  /** The segments of packets. */
  function Wires(ps: seq<Packet>): seq<TCPSegment> {
    seq(|ps|, i requires 0 <= i < |ps| => ps[i].seg)
  }

  lemma PullStep(c: Conn, c1: Conn)
    requires Coherent(c) && c.sender.out != []
    requires c1 == c.(out := c.out + [Stamp(c.rst, c.receiver, c.sender.out[0])], sender := c.sender.(out := c.sender.out[1..]))
    ensures PullPush(c1) == PullPush(c)
  {
    var es := c.sender.out;
    assert StampAll(c.rst, c.receiver, es) == [Stamp(c.rst, c.receiver, es[0])] + StampAll(c.rst, c.receiver, es[1..]);
    assert PullPush(c1).out == PullPush(c).out;
  }

  lemma PullNothing(c: Conn)
    requires Coherent(c) && c.sender.out == []
    ensures PullPush(c) == c
  {
    assert PullPush(c).out == c.out;
  }

  method CompleteWith(rst: bool, ackno: Option<u32>, window: nat, h: TCPHeader) returns (h': TCPHeader)
    ensures h' == Completed(rst, ackno, window, h)
  {
    h' := h;
    if rst {
      h' := h'.(rst := true);
    } else {
      if ackno.Some? {
        h' := h'.(ack := true, ackno := ackno.value);
      }
      h' := h'.(win := if window <= 0xFFFF then window else 0xFFFF);
    }
  }

  class TCPConnection {
    const rtTimeout: u16
    const receiver: TCPReceiver
    const sender: TCPSender
    var segmentsOut: seq<TCPSegment>
    var linger: bool
    var active: bool
    var rst: bool
    var lastSegTimer: nat
    /** The queued segments with their absolute numbers. */
    ghost var trail: seq<Packet>

    ghost function Repr(): set<object> {
      {this, receiver, receiver.reassembler, receiver.reassembler.output, sender, sender.stream}
    }

    ghost predicate Valid()
      reads Repr()
    {
      && receiver.Valid() && sender.Valid() && sender.stream != receiver.reassembler.output
      && segmentsOut == Wires(trail)
    }

    ghost function State(): Conn
      reads Repr()
    {
      Conn(rtTimeout, receiver.State(), sender.State(), trail, linger, active, rst, lastSegTimer)
    }

    constructor (rtTimeout: u16, recvCapacity: nat, sendCapacity: nat, fixedIsn: u32)
      ensures Valid() && fresh(Repr()) && State() == Connecting.Fresh(rtTimeout, recvCapacity, sendCapacity, fixedIsn)
    {
      this.rtTimeout := rtTimeout;
      receiver := new TCPReceiver(recvCapacity);
      sender := new TCPSender(sendCapacity, rtTimeout, fixedIsn);
      segmentsOut, linger, active, rst, lastSegTimer, trail := [], true, true, false, 0, [];
    }

    /** The header as it goes on the wire. */
    method Complete(h: TCPHeader) returns (h': TCPHeader)
      requires receiver.Valid()
      ensures h' == Completed(rst, receiver.State().Ackno(), receiver.State().WindowSize(), h)
    {
      var ackno := receiver.Ackno();
      var window := receiver.WindowSize();
      h' := CompleteWith(rst, ackno, window, h);
    }

    /** The body of the loop of `pull_push_segments`. */
    method PullOne()
      requires Valid() && sender.segmentsOut != []
      modifies this`segmentsOut, this`trail, sender`segmentsOut, sender`trail
      ensures Valid() && |sender.segmentsOut| < old(|sender.segmentsOut|)
      ensures PullPush(State()) == PullPush(old(State()))
    {
      ghost var c, e := State(), sender.trail[0];
      var seg := sender.PopSegment();
      var header := Complete(seg.header);
      segmentsOut := segmentsOut + [seg.(header := header)];
      trail := trail + [Stamp(rst, receiver.State(), e)];
      PullStep(c, State());
    }

    method PullPushSegments()
      requires Valid()
      modifies this`segmentsOut, this`trail, sender`segmentsOut, sender`trail
      ensures Valid() && State() == PullPush(old(State()))
    {
      while sender.segmentsOut != []
        invariant Valid() && PullPush(State()) == PullPush(old(State()))
        decreases |sender.segmentsOut|
      {
        PullOne();
      }
      PullNothing(State());
    }

    method FullyDead(errorType: nat)
      requires Valid()
      modifies Repr()
      ensures Valid() && State() == Connecting.FullyDead(old(State()), errorType)
    {
      LastWords(errorType);
      PullPushSegments();
      active := false;
    }

    method LastWords(errorType: nat)
      requires Valid()
      modifies Repr()
      ensures Valid() && State() == Connecting.LastWords(old(State()), errorType)
    {
      if errorType == 0 {
        sender.FillWindow();
      } else {
        rst := true;
        if errorType > 1 && sender.segmentsOut == [] {
          sender.SendEmptySegment();
        }
        SetErrors();
      }
    }

    method SetErrors()
      requires Valid()
      modifies receiver.reassembler.output, sender.stream
      ensures Valid() && State() == Doom(old(State()))
    {
      receiver.reassembler.output.SetError();
      sender.stream.SetError();
    }

    method JudgeDo()
      requires Valid()
      modifies Repr()
      ensures Valid() && State() == Connecting.JudgeDo(old(State()))
    {
      ghost var c := State();
      if !active {
        return;
      }
      if rst {
        FullyDead(1);
        return;
      }
      if sender.tries > MAX_RETX_ATTEMPTS {
        FullyDead(2);
        return;
      }
      var sentAll, gotAll := sender.fined && sender.nextAbs == sender.lastAcked, receiver.fin >= 2;
      if linger && sentAll && gotAll && lastSegTimer >= 10 * rtTimeout {
        linger := false;
        assert State() == c.(linger := false);
        FullyDead(0);
        return;
      }
      if !linger && sentAll {
        FullyDead(0);
        return;
      }
      PullPushSegments();
    }

    method Connect()
      requires Valid()
      modifies Repr()
      ensures Valid() && State() == Connecting.Connect(old(State()))
    {
      sender.FillWindow();
      JudgeDo();
    }

    method FillIfSyned()
      requires Valid()
      modifies sender, sender.stream
      ensures Valid() && State() == old(State()).(sender := Connecting.FillIfSyned(old(State()).sender))
    {
      if sender.syned {
        sender.FillWindow();
      }
    }

    method Write(data: seq<u8>) returns (written: nat)
      requires Valid()
      modifies Repr()
      ensures Valid() && State() == Connecting.Write(old(State()), data)
      ensures written == Min(|data|, old(State()).sender.stream.Remaining())
    {
      written := sender.stream.Write(data);
      FillIfSyned();
      JudgeDo();
    }

    method Tick(ms: nat)
      requires Valid()
      modifies Repr()
      ensures Valid() && State() == Connecting.Tick(old(State()), ms)
    {
      ghost var c := State();
      lastSegTimer := lastSegTimer + ms;
      sender.Tick(ms);
      FillIfSyned();
      assert State() == Elapse(c, ms);
      JudgeDo();
    }

    method EndInputStream()
      requires Valid()
      modifies Repr()
      ensures Valid() && State() == Connecting.EndInputStream(old(State()))
    {
      sender.stream.EndInput();
      sender.FillWindow();
      JudgeDo();
    }

    /** Whether a segment must be answered with an empty one. */
    method MustAnswer(seg: TCPSegment) returns (sendEmpty: bool)
      requires Valid()
      ensures sendEmpty == Connecting.MustAnswer(State(), seg)
    {
      sendEmpty := sender.segmentsOut == [] && seg.LengthInSequenceSpace() != 0;
      var ackno := receiver.Ackno();
      if seg.LengthInSequenceSpace() == 0 && ackno.Some? && seg.header.seqno == Plus(ackno.value, -1) {
        sendEmpty := true;
      }
    }

    method NoteClose()
      requires Valid()
      modifies this`linger
      ensures Valid() && State() == Connecting.NoteClose(old(State()))
    {
      if receiver.fin >= 2 && !sender.fined {
        linger := false;
      }
    }

    method Answer(seg: TCPSegment)
      requires Valid()
      modifies sender
      ensures Valid() && State() == Connecting.Answer(old(State()), seg)
    {
      var sendEmpty := MustAnswer(seg);
      if sendEmpty {
        sender.SendEmptySegment();
      }
    }

    /** The reader takes bytes from the inbound stream. */
    method ReadInbound(len: nat) returns (bytes: seq<u8>)
      requires Valid()
      modifies receiver.reassembler.output
      ensures Valid() && State() == Connecting.Read(old(State()), len)
      ensures var before, after := old(State()).receiver.asm.out, State().receiver.asm.out;
              bytes == after.written[before.popped..after.popped]
    {
      bytes := receiver.ReadOut(len);
    }

    /** What follows once both halves have seen the segment. */
    method Settle(seg: TCPSegment)
      requires Valid()
      modifies Repr()
      ensures Valid() && State() == Connecting.Settle(old(State()), seg)
    {
      NoteClose();
      Answer(seg);
      JudgeDo();
    }

    /** The sender's part of an arriving segment. */
    method SenderHears(h: TCPHeader)
      requires Valid()
      modifies sender, sender.stream
      ensures Valid() && State() == old(State()).(sender := Connecting.SenderHears(old(State()).sender, h))
    {
      if h.ack {
        sender.AckReceived(h.ackno, h.win);
      }
      FillIfSyned();
    }

    /** The receiver's part of an arriving segment. */
    method ReceiverHears(seg: TCPSegment)
      requires Valid() && receiver.State().asm.Edge() + |seg.payload| < TWO64
      modifies receiver, receiver.reassembler, receiver.reassembler.output
      ensures Valid() && State() == old(State()).(receiver := Receiving.SegmentReceived(old(State()).receiver, seg))
    {
      receiver.SegmentReceived(seg);
    }

    method SegmentReceived(seg: TCPSegment)
      requires Valid() && receiver.State().asm.Edge() + |seg.payload| < TWO64
      modifies Repr()
      ensures Valid() && State() == Connecting.SegmentReceived(old(State()), seg)
    {
      lastSegTimer := 0;
      if seg.header.rst {
        rst := true;
        JudgeDo();
        return;
      }
      ReceiverHears(seg);
      if seg.header.syn && !sender.syned {
        Connect();
        return;
      }
      SenderHears(seg.header);
      Settle(seg);
    }
  }
}
