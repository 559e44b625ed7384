/** The sender object. */
module TCPSenders {
  import opened Types
  import opened WrappingIntegers
  import opened Segments
  import opened ByteStreams
  import opened Sending

  /** The segments of queue entries. */
  function Segs(es: seq<Outstanding>): seq<TCPSegment> {
    seq(|es|, i requires 0 <= i < |es| => es[i].seg)
  }

  class TCPSender {
    const isn: u32
    const initialTimeout: u16
    const stream: ByteStream
    var timeout: u32
    var nextAbs: nat
    var lastAcked: nat
    var sent: seq<Outstanding>
    var segmentsOut: seq<TCPSegment>
    var tries: nat
    var lastTime: nat
    var syned: bool
    var fined: bool
    var windowSize: u16
    /** The queued segments with their absolute numbers. */
    ghost var trail: seq<Outstanding>

    ghost predicate Valid()
      reads this, stream
    {
      stream.Valid() && lastAcked <= nextAbs && segmentsOut == Segs(trail)
    }

    ghost function State(): Sender
      reads this, stream
    {
      Sender(isn, initialTimeout, timeout, stream.State(), nextAbs, lastAcked, sent, trail,
             tries, lastTime, syned, fined, windowSize)
    }

    constructor (capacity: nat, retxTimeout: u16, fixedIsn: u32)
      ensures Valid() && fresh(stream) && State() == Sending.Fresh(capacity, retxTimeout, fixedIsn)
    {
      isn, initialTimeout, timeout := fixedIsn, retxTimeout, retxTimeout;
      stream := new ByteStream(capacity);
      nextAbs, lastAcked, sent, segmentsOut, trail := 0, 0, [], [], [];
      tries, lastTime, syned, fined, windowSize := 0, 0, false, false, 1;
    }

    method Enqueue(seg: TCPSegment, ghost expectedAck: nat)
      requires Valid()
      modifies this`segmentsOut, this`trail
      ensures Valid() && trail == old(trail) + [Outstanding(expectedAck, seg)]
    {
      segmentsOut := segmentsOut + [seg];
      trail := trail + [Outstanding(expectedAck, seg)];
    }

    /** The connection takes the front of the queue. */
    method PopSegment() returns (seg: TCPSegment)
      requires Valid() && segmentsOut != []
      modifies this`segmentsOut, this`trail
      ensures Valid() && old(trail) != [] && seg == old(trail)[0].seg
      ensures State() == old(State()).(out := old(trail)[1..])
    {
      seg := segmentsOut[0];
      segmentsOut, trail := segmentsOut[1..], trail[1..];
    }

    /** Reads the payload of the next segment and decides its flags. */
    method TakeSegment(allow: nat) returns (seg: TCPSegment)
      requires Valid() && 1 <= allow && !fined
      modifies this`syned, this`fined, stream
      ensures Valid() && seg == Carve(old(State()), allow)
      ensures State() == old(State()).(stream := old(State()).stream.Pop(|seg.payload|), syned := true, fined := seg.header.fin)
    {
      var allowSize, syn := allow, !syned;
      if !syned {
        syned := true;
        allowSize := allowSize - 1;
      }
      var readSize := MAX_PAYLOAD_SIZE;
      if allowSize < readSize {
        readSize := allowSize;
      }
      var payload := stream.Read(readSize);
      allowSize := allowSize - |payload|;
      if allowSize > 0 && stream.inputEnded && |stream.buffer| == 0 {
        fined := true;
      }
      seg := TCPSegment(BLANK.(syn := syn, fin := fined, seqno := Wrap(nextAbs, isn)), payload);
    }

    /** The body of the loop of `fill_window`; `more` is false when there was nothing to send. */
    method SendOne(allow: nat) returns (more: bool)
      requires Valid() && 1 <= allow && !fined
      modifies this, stream
      ensures Valid()
      ensures var seg := Carve(old(State()), allow);
              && more == (seg.LengthInSequenceSpace() != 0)
              && State() == if more then Emit(old(State()), seg) else old(State())
    {
      var seg := TakeSegment(allow);
      if seg.LengthInSequenceSpace() == 0 {
        return false;
      }
      Enqueue(seg, nextAbs + seg.LengthInSequenceSpace());
      nextAbs := nextAbs + seg.LengthInSequenceSpace();
      sent := sent + [Outstanding(nextAbs, seg)];
      more := true;
    }

    method FillWindow()
      requires Valid()
      modifies this, stream
      ensures Valid() && State() == Fill(old(State()))
    {
      var ex := if windowSize == 0 then 1 else 0;
      while windowSize + ex > nextAbs - lastAcked
        invariant Valid() && FillFrom(State(), ex) == Fill(old(State()))
        decreases windowSize + ex + lastAcked - nextAbs
      {
        if fined {
          return;
        }
        var more := SendOne(windowSize + ex - (nextAbs - lastAcked));
        ex := 0;
        if !more {
          return;
        }
      }
    }

    method AckReceived(ackno: u32, window: u16)
      requires Valid()
      modifies this
      ensures Valid() && State() == Sending.AckReceived(old(State()), ackno, window)
    {
      windowSize := window;
      var tmp := Unwrap(ackno, isn, Low64(lastAcked));
      if tmp <= lastAcked || tmp > nextAbs {
        return;
      }
      lastAcked := tmp;
      if sent != [] {
        timeout, lastTime, tries := initialTimeout, 0, 0;
        while sent != [] && sent[0].expectedAck <= lastAcked
          modifies this`sent
          invariant PopAcked(sent, lastAcked) == PopAcked(old(sent), lastAcked)
          decreases |sent|
        {
          sent := sent[1..];
        }
      }
    }

    method Tick(ms: nat)
      requires Valid()
      modifies this
      ensures Valid() && State() == Sending.Tick(old(State()), ms)
    {
      lastTime := lastTime + ms;
      if sent != [] && lastTime >= timeout {
        Enqueue(sent[0].seg, sent[0].expectedAck);
        lastTime := 0;
        if windowSize != 0 {
          timeout, tries := (2 * timeout) % 0x1_0000_0000, tries + 1;
        }
      } else if sent == [] {
        lastTime := 0;
      }
    }

    method SendEmptySegment()
      requires Valid()
      modifies this
      ensures Valid() && State() == SendEmpty(old(State()))
    {
      Enqueue(TCPSegment(BLANK.(seqno := Wrap(nextAbs, isn)), []), nextAbs);
    }
  }
}
