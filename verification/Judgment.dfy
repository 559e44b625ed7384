/**
 * Every operation but reading changes the halves of a connection and then judges
 * it: what is true between the two, and what the judgment makes of it.
 */
module Judgment {
  import opened Types
  import opened WrappingIntegers
  import opened Segments
  import opened Sending
  import opened Connecting
  import opened ConnectionProofs
  import Receiving

  // What an operation is, seen from outside.

  predicate Resets(op: Op) {
    op.Arrive? && op.seg.header.rst
  }

  /** The operation has to send a SYN if none was sent. */
  predicate Opens(op: Op) {
    op.Connect? || op.EndInput? || (op.Arrive? && !op.seg.header.rst && op.seg.header.syn)
  }

  /** A segment arrives that does not open the connection. */
  predicate Passes(synSent: bool, op: Op) {
    op.Arrive? && !op.seg.header.rst && !(op.seg.header.syn && !synSent)
  }

  // The queue of a sender.

  ghost predicate Queued(es: seq<Outstanding>, n: nat) {
    exists k :: 0 <= k < |es| && es[k].At() <= n < es[k].expectedAck
  }

  /** The queue keeps what it had, and every number newly sent is in it. */
  ghost predicate Grown(s: Sender, s': Sender) {
    s.out <= s'.out && s.next <= s'.next && forall n: nat :: s.next <= n < s'.next ==> Queued(s'.out, n)
  }

  lemma {:induction false} TilesCover(es: seq<Outstanding>, lo: int, hi: int, n: nat)
    requires Tiles(es, lo, hi) && lo <= n < hi
    ensures Queued(es, n)
  {
    if n < es[0].expectedAck {
      assert es[0].At() <= n;
    } else {
      TilesCover(es[1..], es[0].expectedAck, hi, n);
      var k :| 0 <= k < |es[1..]| && es[1..][k].At() <= n < es[1..][k].expectedAck;
      assert es[k + 1] == es[1..][k];
    }
  }

  lemma QueuedKept(es: seq<Outstanding>, es': seq<Outstanding>, n: nat)
    requires Queued(es, n) && es <= es'
    ensures Queued(es', n)
  {
    var k :| 0 <= k < |es| && es[k].At() <= n < es[k].expectedAck;
    assert es'[k] == es[k];
  }

  lemma GrownTransitive(s: Sender, s': Sender, s'': Sender)
    requires Grown(s, s') && Grown(s', s'')
    ensures Grown(s, s'')
  {
    forall n: nat | s.next <= n < s''.next ensures Queued(s''.out, n) {
      if n < s'.next { QueuedKept(s'.out, s''.out, n); }
    }
  }

  /** The segments start no earlier than n. */
  ghost predicate From(es: seq<Outstanding>, n: nat) {
    forall k :: 0 <= k < |es| ==> n <= es[k].At()
  }

  lemma {:induction false} TilesFrom(es: seq<Outstanding>, lo: nat, hi: int)
    requires Tiles(es, lo, hi)
    ensures From(es, lo)
  {
    if es != [] {
      TilesFrom(es[1..], es[0].expectedAck, hi);
      forall k | 0 < k < |es| ensures lo <= es[k].At() { assert es[k] == es[1..][k - 1]; }
    }
  }

  lemma FillFrontier(s: Sender)
    requires Inv(s) && s.out == []
    ensures From(Fill(s).out, s.next)
  {
    var s' := FillKeeps(s);
    TilesFrom(s'.sent[|s.sent|..], s.next, s'.next);
  }

  /** Filling sends the SYN if it was not sent, queues all that it sends and leaves nothing that it could send. */
  lemma FillDone(s: Sender) returns (s': Sender)
    requires Inv(s)
    ensures s' == Fill(s) && Inv(s') && Extends(s, s') && Exhausted(s') && Grown(s, s') && s'.syned
    ensures s'.stream.error == s.stream.error
  {
    s' := FillKeeps(s);
    AddsGrow(s, s', Limit(s));
    if !s.syned { FillOpens(s); }
  }

  lemma AddsGrow(s: Sender, s': Sender, limit: nat)
    requires Adds(s.sent, s.out, s.next, s', limit) && s.next <= s'.next
    ensures Grown(s, s')
  {
    var added := s'.sent[|s.sent|..];
    forall n: nat | s.next <= n < s'.next ensures Queued(s'.out, n) {
      TilesCover(added, s.next, s'.next, n);
      var k :| 0 <= k < |added| && added[k].At() <= n < added[k].expectedAck;
      assert s'.out[|s.out| + k] == added[k];
    }
  }

  lemma FillOpens(s: Sender)
    requires Inv(s) && !s.syned
    ensures Fill(s).syned
  {
    var ex := if s.window == 0 then 1 else 0;
    var seg := Carve(s, s.window + ex);
    EmitKeeps(s, seg, Emit(s, seg), s.window + ex);
    var s' := FillAdds(Emit(s, seg), 0, Limit(Emit(s, seg)));
  }

  /** Once its SYN is sent, the sender has left nothing that it could send. */
  ghost predicate Spent(s: Sender) {
    s.syned ==> Exhausted(s)
  }

  lemma FillIfSynedDone(s: Sender) returns (s': Sender)
    requires Inv(s)
    ensures s' == FillIfSyned(s) && Inv(s') && Extends(s, s') && Spent(s') && Grown(s, s') && s'.syned == s.syned
    ensures s'.stream.error == s.stream.error
  {
    s' := s;
    if s.syned { s' := FillDone(s); }
  }

  // Between the change and the judgment.

  ghost predicate SameErrors(c: Conn, c': Conn) {
    c'.sender.stream.error == c.sender.stream.error && c'.receiver.asm.out.error == c.receiver.asm.out.error
  }

  ghost predicate Ready(c: Conn, op: Op, c1: Conn) {
    && Inv(c1.sender) && c1.receiver.Inv() && c1.rtTimeout == c.rtTimeout
    && c1.out == c.out && c1.active == c.active && c1.rst == (c.rst || Resets(op)) && SameErrors(c, c1)
    && (!Resets(op) ==> Spent(c1.sender)) && Grown(c.sender, c1.sender) && c1.sender.syned == (c.sender.syned || Opens(op))
    && c1.linger == (c.linger && !(Passes(c.sender.syned, op) && c1.receiver.FullFined() && !c1.sender.fined))
  }

  lemma ConnectReady(c: Conn) returns (c1: Conn)
    requires Core(c)
    ensures Ready(c, Connect, c1) && Connecting.Connect(c) == JudgeDo(c1)
  {
    var s := FillDone(c.sender);
    c1 := c.(sender := s);
  }

  lemma WriteReady(c: Conn, data: seq<u8>) returns (c1: Conn)
    requires Core(c) && Enabled(c, Write(data))
    ensures Ready(c, Write(data), c1) && Connecting.Write(c, data) == JudgeDo(c1)
  {
    WriteKeeps(c.sender, data);
    var s := FillIfSynedDone(c.sender.Write(data));
    c1 := c.(sender := s);
  }

  lemma EndReady(c: Conn) returns (c1: Conn)
    requires Core(c)
    ensures Ready(c, EndInput, c1) && EndInputStream(c) == JudgeDo(c1)
  {
    EndInputKeeps(c.sender);
    var s := FillDone(c.sender.EndInput());
    c1 := c.(sender := s);
  }

  lemma ElapseReady(c: Conn, ms: nat) returns (c1: Conn)
    requires Core(c)
    ensures Ready(c, Elapse(ms), c1) && Connecting.Tick(c, ms) == JudgeDo(c1)
  {
    var s1 := Sending.Tick(c.sender, ms);
    TickKeeps(c.sender, ms);
    assert c.sender.out <= s1.out;
    var s := FillIfSynedDone(s1);
    GrownTransitive(c.sender, s1, s);
    c1 := Connecting.Elapse(c, ms);
  }

  lemma HearsDone(s: Sender, h: TCPHeader) returns (s': Sender)
    requires Inv(s)
    ensures s' == SenderHears(s, h) && Inv(s') && Spent(s') && Grown(s, s') && s'.syned == s.syned
    ensures s'.stream.error == s.stream.error
  {
    var s1 := s;
    if h.ack {
      AckKeeps(s, h.ackno, h.win);
      s1 := AckReceived(s, h.ackno, h.win);
    }
    s' := FillIfSynedDone(s1);
    GrownTransitive(s, s1, s');
  }

  lemma AnswerDone(c: Conn, seg: TCPSegment) returns (s: Sender)
    requires Inv(c.sender)
    ensures Answer(c, seg) == c.(sender := s) && Inv(s) && Grown(c.sender, s) && (Spent(c.sender) ==> Spent(s))
    ensures s.syned == c.sender.syned && s.fined == c.sender.fined && s.stream == c.sender.stream
  {
    s := c.sender;
    if MustAnswer(c, seg) {
      SendEmptyKeeps(s);
      s := SendEmpty(s);
    }
  }

  lemma ArriveReady(c: Conn, seg: TCPSegment) returns (c1: Conn)
    requires Core(c)
    ensures Ready(c, Arrive(seg), c1) && SegmentReceived(c, seg) == JudgeDo(c1)
  {
    if seg.header.rst {
      c1 := c.(timer := 0, rst := true);
      return;
    }
    Receiving.ReceiveKeeps(c.receiver, seg);
    var r := Receiving.SegmentReceived(c.receiver, seg);
    if seg.header.syn && !c.sender.syned {
      var s := FillDone(c.sender);
      c1 := c.(timer := 0, receiver := r, sender := s);
    } else {
      var s := HearsDone(c.sender, seg.header);
      c1 := SettleReady(c, seg, c.(timer := 0, receiver := r, sender := s));
    }
  }

  lemma SettleReady(c: Conn, seg: TCPSegment, d: Conn) returns (c1: Conn)
    requires d == c.(timer := 0, receiver := d.receiver, sender := d.sender) && SameErrors(c, d) && Passes(c.sender.syned, Arrive(seg))
    requires Inv(d.sender) && d.receiver.Inv() && Spent(d.sender) && Grown(c.sender, d.sender) && d.sender.syned == c.sender.syned
    requires seg.header.syn ==> c.sender.syned
    ensures Ready(c, Arrive(seg), c1) && Settle(d, seg) == JudgeDo(c1)
  {
    var c2 := NoteClose(d);
    var s' := AnswerDone(c2, seg);
    GrownTransitive(c.sender, d.sender, s');
    c1 := c2.(sender := s');
  }

  lemma Prepare(c: Conn, op: Op) returns (c1: Conn)
    requires Core(c) && !op.Read? && Enabled(c, op)
    ensures Ready(c, op, c1) && Apply(c, op) == JudgeDo(c1)
  {
    match op
    case Arrive(seg) => c1 := ArriveReady(c, seg);
    case Connect => c1 := ConnectReady(c);
    case Write(data) => c1 := WriteReady(c, data);
    case EndInput => c1 := EndReady(c);
    case Elapse(ms) => c1 := ElapseReady(c, ms);
  }

  // The judgment.

  /** A judged connection that lives on has had no cause to end, and all that was queued has gone out. */
  lemma LivesOn(c: Conn)
    requires Coherent(c) && JudgeDo(c).active
    ensures c.active && !c.rst && c.sender.tries <= MAX_RETX_ATTEMPTS && JudgeDo(c) == PullPush(c)
    ensures !(c.sender.FullFined() && c.receiver.FullFined() && (!c.linger || c.timer >= 10 * c.rtTimeout))
  {
  }

  /** Every packet queued from position n on carries the reset flag. */
  ghost predicate ResetsFrom(ps: seq<Packet>, n: nat) {
    forall k :: n <= k < |ps| ==> ps[k].seg.header.rst
  }

  /** An end by reset puts both streams in error, and one of our own making sends at least one segment. */
  lemma EndsByReset(c: Conn)
    requires Coherent(c) && c.active && JudgeDo(c).rst
    ensures !JudgeDo(c).active && JudgeDo(c).sender.stream.error && JudgeDo(c).receiver.asm.out.error
    ensures |c.out| <= |JudgeDo(c).out| && ResetsFrom(JudgeDo(c).out, |c.out|)
    ensures c.rst || (JudgeDo(c).sender.tries > MAX_RETX_ATTEMPTS && |c.out| < |JudgeDo(c).out|)
  {
  }

  lemma EndsCleanly(c: Conn)
    requires Coherent(c) && c.active && !JudgeDo(c).active && !JudgeDo(c).rst
    ensures c.sender.FullFined() && SameErrors(c, JudgeDo(c))
  {
  }

  /** The segment that the packet carries has the number. */
  ghost predicate Carried(ps: seq<Packet>, n: nat) {
    exists k :: 0 <= k < |ps| && ps[k].at <= n < ps[k].at + ps[k].seg.LengthInSequenceSpace()
  }

  /** Every number sent is in a packet for the network or, after the end, still queued. */
  ghost predicate Wired(c: Conn) {
    forall n: nat :: n < c.sender.next ==> Carried(c.out, n) || Queued(c.sender.out, n)
  }

  lemma CarriedKept(ps: seq<Packet>, ps': seq<Packet>, n: nat)
    requires Carried(ps, n) && ps <= ps'
    ensures Carried(ps', n)
  {
    var k :| 0 <= k < |ps| && ps[k].at <= n < ps[k].at + ps[k].seg.LengthInSequenceSpace();
    assert ps'[k] == ps[k];
  }

  lemma StampedCarries(rst: bool, r: Receiving.Receiver, es: seq<Outstanding>, ps: seq<Packet>, n: nat)
    requires r.Inv() && Queued(es, n)
    ensures Carried(ps + StampAll(rst, r, es), n)
  {
    var k :| 0 <= k < |es| && es[k].At() <= n < es[k].expectedAck;
    assert (ps + StampAll(rst, r, es))[|ps| + k] == Stamp(rst, r, es[k]);
  }

  lemma PullWired(c: Conn)
    requires Coherent(c) && Wired(c)
    ensures Wired(PullPush(c))
  {
    var c' := PullPush(c);
    forall n: nat | n < c'.sender.next ensures Carried(c'.out, n) {
      if Carried(c.out, n) { CarriedKept(c.out, c'.out, n); } else { StampedCarries(c.rst, c.receiver, c.sender.out, c.out, n); }
    }
  }

  /** More in the queue does no harm. */
  lemma WiredKept(c: Conn, c1: Conn)
    requires Wired(c) && c1.out == c.out && Grown(c.sender, c1.sender)
    ensures Wired(c1)
  {
    forall n: nat | n < c1.sender.next ensures Carried(c1.out, n) || Queued(c1.sender.out, n) {
      if n < c.sender.next && !Carried(c.out, n) { QueuedKept(c.sender.out, c1.sender.out, n); }
    }
  }

  lemma DeadWired(c: Conn, errorType: nat)
    requires Coherent(c) && Wired(c) && (errorType == 0 ==> c.sender.fined)
    ensures Wired(FullyDead(c, errorType))
  {
    var c1 := LastWords(c, errorType);
    WiredKept(c, c1);
    PullWired(c1);
  }

  lemma JudgeWired(c: Conn)
    requires Coherent(c) && Wired(c)
    ensures Wired(JudgeDo(c))
  {
    if c.active {
      if c.rst {
        DeadWired(c, 1);
      } else if c.sender.tries > MAX_RETX_ATTEMPTS {
        DeadWired(c, 2);
      } else if c.linger && c.sender.FullFined() && c.receiver.FullFined() && c.timer >= 10 * c.rtTimeout {
        DeadWired(c.(linger := false), 0);
      } else if !c.linger && c.sender.FullFined() {
        DeadWired(c, 0);
      } else {
        PullWired(c);
      }
    }
  }

  // What is said to the peer.

  /** The packet resets, or acknowledges all that is assembled and offers the room there is. */
  ghost predicate Advertises(p: Packet, r: Receiving.Receiver)
    requires r.Inv()
  {
    var h := p.seg.header;
    h.rst || (h.ack == r.syn && (r.syn ==> h.ackno == Wrap(r.AckAbs(), r.isn)) && h.win == Min(r.asm.out.Remaining(), 0xFFFF))
  }

  lemma StampAdvertises(rst: bool, r: Receiving.Receiver, e: Outstanding)
    requires r.Inv() && !e.seg.header.ack
    ensures Advertises(Stamp(rst, r, e), r)
  {
    Receiving.AcknoIsCount(r);
  }

  lemma SendsPlainly(c: Conn)
    requires Coherent(c) && c.active && !JudgeDo(c).rst
    ensures JudgeDo(c).out == c.out + StampAll(false, c.receiver, c.sender.out) && JudgeDo(c).receiver == c.receiver
  {
  }

  /** Whatever a judgment sends speaks for the receiver as it then is. */
  lemma JudgeAdvertises(c: Conn, c': Conn, k: nat)
    requires Coherent(c) && Plain(c.sender.out) && c' == JudgeDo(c) && c'.receiver.Inv() && |c.out| <= k < |c'.out|
    ensures Advertises(c'.out[k], c'.receiver)
  {
    if c'.rst {
      EndsByReset(c);
    } else {
      SendsPlainly(c);
      StampAdvertises(false, c.receiver, c.sender.out[k - |c.out|]);
    }
  }

  // Retransmission.

  /** The packet is a transmission of the queued segment. */
  ghost predicate Carries(p: Packet, e: Outstanding) {
    && p.at == e.At() && p.seg.payload == e.seg.payload && p.seg.header.seqno == e.seg.header.seqno
    && p.seg.header.syn == e.seg.header.syn && p.seg.header.fin == e.seg.header.fin
  }

  /** The tick is due to retransmit. */
  predicate Due(s: Sender, ms: nat) {
    s.sent != [] && s.timer + ms >= s.timeout
  }

  lemma ElapseQueue(c: Conn, ms: nat) returns (c1: Conn)
    requires ConnInv(c) && c.active
    ensures c1 == Connecting.Elapse(c, ms) && Coherent(c1) && Connecting.Tick(c, ms) == JudgeDo(c1)
    ensures c1.out == c.out && c1.active && !c1.rst && c1.sender.acked == c.sender.acked
    ensures Due(c.sender, ms) ==> c1.sender.out != [] && c1.sender.out[0] == c.sender.sent[0] && !c1.sender.FullFined()
    ensures !Due(c.sender, ms) ==> From(c1.sender.out, c.sender.next) && c1.sender.tries <= MAX_RETX_ATTEMPTS
  {
    var s1 := Sending.Tick(c.sender, ms);
    TickKeeps(c.sender, ms);
    c1 := Connecting.Elapse(c, ms);
    if s1.syned {
      var s := FillKeeps(s1);
      if !Due(c.sender, ms) { FillFrontier(s1); }
    }
  }

  /** A tick that is due puts the oldest outstanding segment on the wire first; any other sends only what is new. */
  lemma TickSends(c: Conn, ms: nat) returns (c': Conn)
    requires ConnInv(c) && c.active
    ensures c' == Connecting.Tick(c, ms)
    ensures Due(c.sender, ms) ==> |c.out| < |c'.out| && Carries(c'.out[|c.out|], c.sender.sent[0])
    ensures !Due(c.sender, ms) ==> forall k :: |c.out| <= k < |c'.out| ==> c.sender.next <= c'.out[k].at
  {
    var c1 := ElapseQueue(c, ms);
    c' := JudgeDo(c1);
    if Due(c.sender, ms) { FirstOut(c1); } else { AllOut(c1, c.sender.next); }
  }

  lemma FirstOut(c: Conn)
    requires Coherent(c) && c.active && !c.rst && c.sender.out != [] && !c.sender.FullFined()
    ensures |c.out| < |JudgeDo(c).out| && Carries(JudgeDo(c).out[|c.out|], c.sender.out[0])
  {
  }

  lemma AllOut(c: Conn, next: nat)
    requires Coherent(c) && c.active && !c.rst && c.sender.tries <= MAX_RETX_ATTEMPTS && From(c.sender.out, next)
    ensures forall k :: |c.out| <= k < |JudgeDo(c).out| ==> next <= JudgeDo(c).out[k].at
  {
    SendsPlainly(c);
  }
}
