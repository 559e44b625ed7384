/** The receiver object. */
module TCPReceivers {
  import opened Types
  import opened WrappingIntegers
  import opened Segments
  import opened StreamReassemblers
  import Reassembly
  import Receiving

  class TCPReceiver {
    const reassembler: StreamReassembler
    var syn: bool
    var fin: nat
    var isn: u32
    var lastAbseqno: nat
    var acknoValue: Option<u32>

    ghost predicate Valid()
      reads this, reassembler, reassembler.output
    {
      reassembler.Valid() && State().Inv()
    }

    ghost function State(): Receiving.Receiver
      reads this, reassembler, reassembler.output
    {
      Receiving.Receiver(reassembler.State(), syn, fin, isn, lastAbseqno, acknoValue)
    }

    constructor (capacity: nat)
      ensures Valid() && fresh(reassembler) && fresh(reassembler.output)
      ensures State() == Receiving.Fresh(capacity)
    {
      reassembler := new StreamReassembler(capacity);
      syn, fin, isn, lastAbseqno, acknoValue := false, 0, 0, 0, None;
    }

    /** The acknowledgment part of the bookkeeping. */
    method UpdateAckno(h: TCPHeader, first: nat)
      modifies this`syn, this`isn, this`lastAbseqno, this`acknoValue
      ensures acknoValue == Receiving.NextAckno(old(syn), old(isn), old(acknoValue), h, first)
      ensures syn == (old(syn) || h.syn) && isn == if h.syn then h.seqno else old(isn)
      ensures lastAbseqno == if first != 0 then first - 1 else old(lastAbseqno)
    {
      if first != 0 {
        lastAbseqno := first - 1;
        acknoValue := Some(Plus(Wrap(lastAbseqno + 1, isn), 1));
        if !syn {
          acknoValue := Some(Plus(acknoValue.value, -1));
        }
      }
      if h.syn {
        syn, isn := true, h.seqno;
        acknoValue := if acknoValue.Some? then Some(Plus(Plus(isn, 1), acknoValue.value)) else Some(Plus(isn, 1));
      }
    }

    method NoteAck(h: TCPHeader)
      requires reassembler.Valid()
      modifies this`syn, this`isn, this`lastAbseqno, this`acknoValue
      ensures State() == Receiving.NoteAck(old(State()), h, old(State()).asm)
    {
      UpdateAckno(h, reassembler.firstIndex);
    }

    /** The end-of-stream part of the bookkeeping. */
    method NoteFin(h: TCPHeader)
      requires reassembler.Valid()
      modifies this`fin, reassembler.output
      ensures State() == Receiving.NoteFin(old(State()), h)
      ensures reassembler.Valid()
    {
      if h.fin {
        fin := 1;
      }
      if fin == 1 && reassembler.eofed {
        reassembler.output.EndInput();
        fin := 2;
      }
    }

    /** The bookkeeping after the payload has been pushed. */
    method Note(h: TCPHeader)
      requires reassembler.Valid()
      modifies this, reassembler.output
      ensures State() == Receiving.Note(old(State()), h, old(State()).asm)
      ensures reassembler.Valid()
    {
      NoteAck(h);
      ghost var r := State();
      NoteFin(h);
    }

    method SegmentReceived(seg: TCPSegment)
      requires Valid() && State().asm.Edge() + |seg.payload| < TWO64
      modifies this, reassembler, reassembler.output
      ensures Valid() && State() == Receiving.SegmentReceived(old(State()), seg)
    {
      var h := seg.header;
      ghost var r := State();
      if (!h.syn && !syn) || (h.syn && syn) {
        return;
      }
      var streamIndex: u64 := 0;
      if syn {
        streamIndex := Unwrap(Plus(h.seqno, -1), isn, Low64(lastAbseqno));
        if Unwrap(h.seqno, isn, Low64(lastAbseqno)) == 0 {
          return;
        }
      }
      Take(h, seg.payload, streamIndex);
      Receiving.ReceiveKeeps(r, seg);
    }

    /** The payload goes to the reassembler, the rest into the books. */
    method Take(h: TCPHeader, payload: seq<u8>, streamIndex: u64)
      requires reassembler.Valid() && State().asm.Edge() + |payload| < TWO64
      modifies this, reassembler, reassembler.output
      ensures reassembler.Valid() && State() == Receiving.Note(old(State()), h, Reassembly.Push(old(State()).asm, payload, streamIndex, h.fin))
    {
      reassembler.PushSubstring(payload, streamIndex, h.fin);
      ghost var r := State();
      Note(h);
    }

    method Ackno() returns (a: Option<u32>)
      requires Valid()
      ensures a == State().Ackno() == if syn then Some(Wrap(State().AckAbs(), isn)) else None
    {
      Receiving.AcknoIsCount(State());
      a := if fin == 2 then Some(Plus(acknoValue.value, 1)) else acknoValue;
    }

    /** The reader takes bytes from the stream. */
    method ReadOut(len: nat) returns (bytes: seq<u8>)
      requires Valid()
      modifies reassembler.output
      ensures Valid() && State() == old(State()).Read(len)
      ensures bytes == State().asm.out.written[old(State()).asm.out.popped..State().asm.out.popped]
    {
      bytes := reassembler.output.Read(len);
    }

    method WindowSize() returns (n: nat)
      requires Valid()
      ensures n == State().WindowSize()
    {
      n := reassembler.output.RemainingCapacity();
    }
  }
}
