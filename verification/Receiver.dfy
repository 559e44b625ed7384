/** The receiving half of a TCP endpoint. */
module Receiving {
  import opened Types
  import opened WrappingIntegers
  import opened Segments
  import opened Reassembly

  /** `fin`: 0 no FIN seen, 1 seen but bytes missing before it, 2 the whole stream is assembled. */
  datatype Receiver = Receiver(asm: Reassembler, syn: bool, fin: nat, isn: u32, lastAbseqno: nat, ackno: Option<u32>)
  {
    function First(): nat {
      asm.First()
    }

    /** The absolute number of the next byte (or FIN) wanted, zero before the SYN. */
    function AckAbs(): nat {
      if syn then 1 + First() + Num(fin == 2) else 0
    }

    /** The acknowledgment number to advertise. */
    function Ackno(): Option<u32> {
      if fin == 2 && ackno.Some? then Some(Plus(ackno.value, 1)) else ackno
    }

    function WindowSize(): nat
      requires asm.out.popped <= |asm.out.written| <= asm.out.popped + asm.out.capacity
    {
      asm.out.Remaining()
    }

    function FullFined(): bool {
      fin >= 2
    }

    ghost predicate Inv() {
      && asm.Valid()
      && (syn ==> ackno == Some(Wrap(First() + 1, isn)))
      && (!syn ==> First() == 0 && asm.held == map[] && !asm.eof && ackno.None? && isn == 0)
      && lastAbseqno == (if First() == 0 then 0 else First() - 1)
      && fin <= 2 && (fin == 0 <==> !asm.eof) && (fin == 2 <==> asm.eofed)
    }

    function Read(len: nat): Receiver
      requires asm.out.popped <= |asm.out.written|
    {
      this.(asm := asm.Read(len))
    }
  }

  function Fresh(capacity: nat): Receiver {
    Receiver(Reassembly.Fresh(capacity), false, 0, 0, 0, None)
  }

  /** The stream index that the receiver gives to the first byte of the segment. */
  function StreamIndex(r: Receiver, h: TCPHeader): u64 {
    if r.syn then Unwrap(Plus(h.seqno, -1), r.isn, Low64(r.lastAbseqno)) else 0
  }

  /** A SYN that comes second, anything that comes before it, and a repeat of its number are ignored. */
  predicate Ignores(r: Receiver, h: TCPHeader) {
    h.syn == r.syn || (r.syn && Unwrap(h.seqno, r.isn, Low64(r.lastAbseqno)) == 0)
  }

  function SegmentReceived(r: Receiver, seg: TCPSegment): Receiver
    requires r.asm.out.Valid()
  {
    if Ignores(r, seg.header) then r
    else Note(r, seg.header, Push(r.asm, seg.payload, StreamIndex(r, seg.header), seg.header.fin))
  }

  /** The acknowledgment number after `first` bytes are assembled; the SYN itself may have carried some. */
  function NextAckno(syn: bool, isn: u32, ackno: Option<u32>, h: TCPHeader, first: nat): Option<u32> {
    var a :=
      if first == 0 then ackno
      else if syn then Some(Plus(Wrap(first, isn), 1))
      else Some(Plus(Plus(Wrap(first, isn), 1), -1));
    if !h.syn then a
    else if a.Some? then Some(Plus(Plus(h.seqno, 1), a.value))
    else Some(Plus(h.seqno, 1))
  }

  /** The bookkeeping after the payload has gone to the reassembler. */
  function Note(r: Receiver, h: TCPHeader, asm: Reassembler): Receiver {
    NoteFin(NoteAck(r, h, asm), h)
  }

  function NoteAck(r: Receiver, h: TCPHeader, asm: Reassembler): Receiver {
    var first := asm.First();
    Receiver(asm, r.syn || h.syn, r.fin, if h.syn then h.seqno else r.isn,
             if first != 0 then first - 1 else r.lastAbseqno,
             NextAckno(r.syn, r.isn, r.ackno, h, first))
  }

  function NoteFin(r: Receiver, h: TCPHeader): Receiver {
    var fin := if h.fin then 1 else r.fin;
    if fin == 1 && r.asm.eofed
    then r.(asm := r.asm.(out := r.asm.out.EndInput()), fin := 2)
    else r.(fin := fin)
  }

  lemma NoteAckno(r: Receiver, h: TCPHeader, asm: Reassembler)
    requires r.Inv() && h.syn != r.syn && r.First() <= asm.First()
    ensures var r' := Note(r, h, asm); r'.ackno == Some(Wrap(asm.First() + 1, r'.isn))
  {
    var first := asm.First();
    WrapPlus(first, 1, r.isn);
    if !r.syn {
      WrapPlus(first + 1, -1, 0);
      SynWithPayload(first, h.seqno);
    }
  }

  lemma SynWithPayload(first: nat, isn: u32)
    ensures Plus(Plus(isn, 1), Wrap(first, 0)) == Wrap(first + 1, isn)
    ensures Plus(isn, 1) == Wrap(1, isn)
  {
    WrapPlus(0, 1, isn);
    ReduceFirst(first, 0);
    SumReduced(first, isn);
  }

  lemma SumReduced(first: nat, isn: u32)
    ensures ((isn + 1) % 0x1_0000_0000 + first % 0x1_0000_0000) % 0x1_0000_0000 == ((first + 1) % 0x1_0000_0000 + isn) % 0x1_0000_0000
  {
    ReduceFirst(isn + 1, first % 0x1_0000_0000);
    ReduceFirst(first, isn + 1);
    ReduceFirst(first + 1, isn);
  }

  lemma NoteKeeps(r: Receiver, h: TCPHeader, asm: Reassembler)
    requires r.Inv() && h.syn != r.syn && asm.Valid()
    requires r.asm.out.written <= asm.out.written && (asm.eof <==> r.asm.eof || h.fin) && (r.asm.eofed ==> asm.eofed)
    ensures var r' := Note(r, h, asm); r'.Inv() && r'.asm == asm && r'.syn && r.AckAbs() <= r'.AckAbs() && r.fin <= r'.fin
  {
    NoteAckno(r, h, asm);
    assert asm.eofed ==> asm.out.EndInput() == asm.out;
  }

  /** Every segment, whoever sent it, keeps the invariant, and never moves the acknowledgment back. */
  lemma ReceiveKeeps(r: Receiver, seg: TCPSegment)
    requires r.Inv()
    ensures var r' := SegmentReceived(r, seg);
            && r'.Inv() && r.AckAbs() <= r'.AckAbs() && (r.syn ==> r'.syn && r'.isn == r.isn)
            && r.fin <= r'.fin && r.asm.out.written <= r'.asm.out.written
            && r'.asm.Edge() == r.asm.Edge() && r'.asm.out.popped == r.asm.out.popped
            && r'.asm.out.capacity == r.asm.out.capacity && r'.asm.out.error == r.asm.out.error
            && (!Ignores(r, seg.header) ==>
                  r'.syn && r'.asm == Push(r.asm, seg.payload, StreamIndex(r, seg.header), seg.header.fin))
  {
    var h, index := seg.header, StreamIndex(r, seg.header);
    if !Ignores(r, h) {
      PushSteps(r.asm, seg.payload, index, h.fin);
      PushEof(r.asm, seg.payload, index, h.fin);
      NoteKeeps(r, h, Push(r.asm, seg.payload, index, h.fin));
    }
  }

  lemma PushTakes(asm: Reassembler, data: seq<u8>, index: nat, eof: bool, i: nat)
    requires asm.Valid()
    ensures var asm' := Push(asm, data, index, eof);
            && (asm'.Knows(i) <==> asm.Knows(i) || (!asm.eofed && index <= i < index + |data| && i < asm.Edge()))
            && asm'.eof == (asm.eof || eof)
  {
    PushEof(asm, data, index, eof);
    if !asm.eofed { PushKnows(asm, data, index, eof, i); }
  }

  /** A SYN before any other fixes the numbering, and its payload is the start of the stream. */
  lemma SynTakes(r: Receiver, seg: TCPSegment, i: nat)
    requires r.Inv() && !r.syn && seg.header.syn
    ensures var r' := SegmentReceived(r, seg);
            && r'.syn && r'.isn == seg.header.seqno && r'.asm.eof == seg.header.fin
            && (r'.asm.Knows(i) <==> i < |seg.payload| && i < r.asm.Edge())
  {
    PlacedTakes(r, seg, 0, i);
  }

  lemma NumberRecovered(r: Receiver, h: TCPHeader, at: nat)
    requires r.syn && !h.syn && h.seqno == Wrap(at, r.isn)
    requires 1 <= at < TWO64 && r.lastAbseqno < TWO64 && -0x8000_0000 < at - 1 - r.lastAbseqno < 0x7FFF_FFFF
    ensures !Ignores(r, h) && StreamIndex(r, h) == at - 1
  {
    Low64InRange(r.lastAbseqno);
    WrapPlus(at, -1, r.isn);
    UnwrapRecovers(at, r.isn, r.lastAbseqno);
    UnwrapRecovers(at - 1, r.isn, r.lastAbseqno);
  }

  /**
   * After the SYN, a segment whose first number lies less than 2^31 from the last
   * byte assembled, in order or not, adds exactly those of its bytes that are
   * inside the window, and its FIN.
   */
  lemma SegmentTakes(r: Receiver, seg: TCPSegment, at: nat, i: nat)
    requires r.Inv() && r.syn && !seg.header.syn && seg.header.seqno == Wrap(at, r.isn)
    requires 1 <= at < TWO64 && r.lastAbseqno < TWO64 && -0x8000_0000 < at - 1 - r.lastAbseqno < 0x7FFF_FFFF
    ensures var r' := SegmentReceived(r, seg);
            && (r'.asm.Knows(i) <==>
                  r.asm.Knows(i) || (!r.asm.eofed && at - 1 <= i < at - 1 + |seg.payload| && i < r.asm.Edge()))
            && r'.asm.eof == (r.asm.eof || seg.header.fin)
  {
    NumberRecovered(r, seg.header, at);
    PlacedTakes(r, seg, at - 1, i);
  }

  lemma PlacedTakes(r: Receiver, seg: TCPSegment, index: nat, i: nat)
    requires r.Inv() && !Ignores(r, seg.header) && StreamIndex(r, seg.header) == index
    ensures var r' := SegmentReceived(r, seg);
            && (r'.asm.Knows(i) <==>
                  r.asm.Knows(i) || (!r.asm.eofed && index <= i < index + |seg.payload| && i < r.asm.Edge()))
            && r'.asm.eof == (r.asm.eof || seg.header.fin)
  {
    ReceiveKeeps(r, seg);
    PushTakes(r.asm, seg.payload, index, seg.header.fin, i);
  }

  /** After the SYN the advertised number is the wrapped count of SYN, assembled bytes and FIN. */
  lemma AcknoIsCount(r: Receiver)
    requires r.Inv()
    ensures r.Ackno() == if r.syn then Some(Wrap(r.AckAbs(), r.isn)) else None
  {
    if r.syn { WrapPlus(r.First() + 1, 1, r.isn); }
  }

  datatype Event = Arrive(seg: TCPSegment) | Pop(len: nat)

  function Apply(r: Receiver, e: Event): Receiver
    requires r.asm.out.Valid()
  {
    match e
    case Arrive(seg) => SegmentReceived(r, seg)
    case Pop(len) => r.Read(len)
  }

  /** The absolute number past which the peer may not send. */
  function RightEdge(r: Receiver): nat
    requires r.asm.out.Valid()
  {
    r.AckAbs() + Min(r.WindowSize(), TWO16 - 1)
  }

  lemma ApplyKeeps(r: Receiver, e: Event)
    requires r.Inv()
    ensures var r' := Apply(r, e); r'.Inv() && (r.syn ==> r'.syn && r'.isn == r.isn && RightEdge(r) <= RightEdge(r'))
  {
    if e.Arrive? { ReceiveKeeps(r, e.seg); }
  }

  ghost function Run(capacity: nat, events: seq<Event>): (r: Receiver)
    ensures r.Inv()
  {
    if events == [] then Fresh(capacity)
    else
      var r := Run(capacity, events[..|events| - 1]);
      ApplyKeeps(r, events[|events| - 1]);
      Apply(r, events[|events| - 1])
  }

  lemma EdgeStep(r: Receiver, r1: Receiver, e: Event)
    requires r.Inv() && r1.Inv() && (r.syn ==> r1.syn && r1.isn == r.isn && RightEdge(r) <= RightEdge(r1))
    ensures var r' := Apply(r1, e); r.syn ==> r'.syn && r'.isn == r.isn && r'.Inv() && RightEdge(r) <= RightEdge(r')
  {
    ApplyKeeps(r1, e);
  }

  /** In every run the advertised number is exact and the right edge, once there is one, never moves left. */
  lemma {:induction false} RunEdge(capacity: nat, events: seq<Event>, n: nat)
    requires n <= |events|
    ensures var r, r' := Run(capacity, events[..n]), Run(capacity, events);
            && r'.Ackno() == (if r'.syn then Some(Wrap(r'.AckAbs(), r'.isn)) else None)
            && (r.syn ==> r'.syn && r'.isn == r.isn && RightEdge(r) <= RightEdge(r'))
  {
    AcknoIsCount(Run(capacity, events));
    EdgeKept(capacity, events, n);
  }

  lemma {:induction false} EdgeKept(capacity: nat, events: seq<Event>, n: nat)
    requires n <= |events|
    ensures var r, r' := Run(capacity, events[..n]), Run(capacity, events);
            r.syn ==> r'.syn && r'.isn == r.isn && RightEdge(r) <= RightEdge(r')
  {
    if n == |events| {
      assert events[..n] == events;
    } else {
      var m := |events| - 1;
      var before, e := events[..m], events[m];
      assert before[..n] == events[..n];
      EdgeKept(capacity, before, n);
      EdgeStep(Run(capacity, before[..n]), Run(capacity, before), e);
    }
  }
}
