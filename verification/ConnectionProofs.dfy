/** What every operation of an endpoint keeps, whatever its peer does. */
module ConnectionProofs {
  import opened Types
  import opened WrappingIntegers
  import opened Segments
  import opened Sending
  import opened Connecting
  import Receiving

  datatype Op =
    | Arrive(seg: TCPSegment) | Connect | Write(data: seq<u8>) | EndInput | Elapse(ms: nat) | Read(len: nat)

  /** Nobody writes after the end of input, nor more than a stream can hold. */
  predicate Enabled(c: Conn, op: Op) {
    op.Write? ==> !c.sender.stream.ended && |c.sender.stream.written| + |op.data| <= STREAM_LIMIT
  }

  function Apply(c: Conn, op: Op): (c': Conn)
    requires Coherent(c)
    ensures Coherent(c')
  {
    match op
    case Arrive(seg) => SegmentReceived(c, seg)
    case Connect => Connecting.Connect(c)
    case Write(data) => if Enabled(c, op) then Connecting.Write(c, data) else c
    case EndInput => EndInputStream(c)
    case Elapse(ms) => Connecting.Tick(c, ms)
    case Read(len) => Connecting.Read(c, len)
  }

  /** How a receiver may change, as far as acknowledgments already sent can tell. */
  ghost predicate Grows(r: Receiving.Receiver, r': Receiving.Receiver) {
    && (r.syn ==> r'.syn && r'.isn == r.isn)
    && r.AckAbs() <= r'.AckAbs() && r.fin <= r'.fin
  }

  /** The last acknowledged number, the window, the retransmission timer and what was written are the same. */
  ghost predicate SameBooks(s: Sender, s': Sender) {
    && s'.acked == s.acked && s'.window == s.window && s'.initialTimeout == s.initialTimeout
    && s'.timeout == s.timeout && s'.tries == s.tries && s'.timer == s.timer
    && s'.stream.written == s.stream.written && s'.stream.ended == s.stream.ended && s'.stream.capacity == s.stream.capacity
  }

  ghost predicate Advances(c: Conn, c': Conn) {
    Extends(c.sender, c'.sender) && Grows(c.receiver, c'.receiver) && c'.rtTimeout == c.rtTimeout
  }

  function Entry(p: Packet): Outstanding
    requires 0 <= p.at
  {
    Outstanding(p.at + p.seg.LengthInSequenceSpace(), p.seg)
  }

  /** A packet says only what is true of the stream sent and of the stream received. */
  ghost predicate Truthful(p: Packet, s: Sender, r: Receiving.Receiver) {
    && 0 <= p.at && Genuine(Entry(p), s)
    && (p.seg.header.ack ==> r.syn && 1 <= p.ackAt <= r.AckAbs() && p.seg.header.ackno == Wrap(p.ackAt, r.isn))
  }

  ghost predicate AllTruthful(ps: seq<Packet>, s: Sender, r: Receiving.Receiver) {
    forall k :: 0 <= k < |ps| ==> Truthful(ps[k], s, r)
  }

  ghost predicate Core(c: Conn) {
    && Inv(c.sender) && c.receiver.Inv()
    && AllTruthful(c.out, c.sender, c.receiver)
    && (!c.linger ==> c.receiver.FullFined())
    && (!c.active && !c.rst ==> c.sender.FullFined() && c.receiver.FullFined())
  }

  ghost predicate ConnInv(c: Conn) {
    && Core(c)
    && (c.active ==> !c.rst && c.sender.tries <= MAX_RETX_ATTEMPTS && c.sender.out == [])
  }

  lemma TruthfulKept(p: Packet, s: Sender, r: Receiving.Receiver, s': Sender, r': Receiving.Receiver)
    requires Truthful(p, s, r) && Extends(s, s') && Grows(r, r')
    ensures Truthful(p, s', r')
  {
    GenuineKept(Entry(p), s, s');
  }

  lemma AllTruthfulKept(ps: seq<Packet>, s: Sender, r: Receiving.Receiver, s': Sender, r': Receiving.Receiver)
    requires AllTruthful(ps, s, r) && Extends(s, s') && Grows(r, r')
    ensures AllTruthful(ps, s', r')
  {
    forall k | 0 <= k < |ps| ensures Truthful(ps[k], s', r') { TruthfulKept(ps[k], s, r, s', r'); }
  }

  lemma AdvancesTransitive(c: Conn, c': Conn, c'': Conn)
    requires Advances(c, c') && Advances(c', c'')
    ensures Advances(c, c'')
  {
    ExtendsTransitive(c.sender, c'.sender, c''.sender);
  }

  /** A finished sender stays finished. */
  lemma FullFinedKept(s: Sender, s': Sender)
    requires s.FullFined() && Extends(s, s') && s'.acked <= s'.next
    ensures s'.FullFined()
  {
  }

  /** Any change of the two halves, and more reset, that the lemmas about them allow. */
  lemma HalvesKeep(c: Conn, c': Conn)
    requires Core(c) && Advances(c, c') && Inv(c'.sender) && c'.receiver.Inv()
    requires c'.out == c.out && c'.linger == c.linger && c'.active == c.active && (c.rst ==> c'.rst)
    ensures Core(c')
  {
    AllTruthfulKept(c.out, c.sender, c.receiver, c'.sender, c'.receiver);
    if c.sender.FullFined() { FullFinedKept(c.sender, c'.sender); }
  }

  lemma StampTruthful(rst: bool, r: Receiving.Receiver, e: Outstanding, s: Sender)
    requires r.Inv() && Genuine(e, s) && !e.seg.header.ack
    ensures Truthful(Stamp(rst, r, e), s, r)
  {
    Receiving.AcknoIsCount(r);
    var p := Stamp(rst, r, e);
    assert Entry(p).At() == e.At();
  }

  lemma PullKeeps(c: Conn) returns (c': Conn)
    requires Core(c)
    ensures c' == PullPush(c) && Core(c') && Advances(c, c') && c'.sender.out == []
  {
    c' := PullPush(c);
    var es := c.sender.out;
    AllGenuineKept(c.sender.sent, c.sender, c'.sender);
    AllTruthfulKept(c.out, c.sender, c.receiver, c'.sender, c'.receiver);
    forall k | 0 <= k < |es| ensures Truthful(Stamp(c.rst, c.receiver, es[k]), c'.sender, c'.receiver) {
      GenuineKept(es[k], c.sender, c'.sender);
      StampTruthful(c.rst, c.receiver, es[k], c'.sender);
    }
  }

  lemma DoomKeeps(c: Conn) returns (c': Conn)
    requires Core(c)
    ensures c' == Doom(c) && Core(c') && Advances(c, c')
  {
    c' := Doom(c);
    AllGenuineKept(c.sender.sent, c.sender, c'.sender);
    AllGenuineKept(c.sender.out, c.sender, c'.sender);
    HalvesKeep(c, c');
  }

  lemma FlagReset(c: Conn, errorType: nat) returns (c': Conn)
    requires Core(c)
    ensures c' == c.(rst := true, sender := if errorType > 1 && c.sender.out == [] then SendEmpty(c.sender) else c.sender)
    ensures Core(c') && Advances(c, c')
  {
    c' := c.(rst := true);
    if errorType > 1 && c.sender.out == [] {
      SendEmptyKeeps(c.sender);
      c' := c'.(sender := SendEmpty(c.sender));
    }
    HalvesKeep(c, c');
  }

  /** Death by reset. */
  lemma ResetKeeps(c: Conn, errorType: nat) returns (c': Conn)
    requires Core(c) && errorType > 0
    ensures c' == FullyDead(c, errorType) && Core(c') && Advances(c, c') && !c'.active && c'.rst
    ensures c'.timer == c.timer
  {
    var c1 := FlagReset(c, errorType);
    var c2 := DoomKeeps(c1);
    AdvancesTransitive(c, c1, c2);
    var c3 := PullKeeps(c2);
    AdvancesTransitive(c, c2, c3);
    c' := c3.(active := false);
  }

  /** Clean death, when both streams are finished. */
  lemma FinishKeeps(c: Conn) returns (c': Conn)
    requires Core(c) && c.sender.FullFined() && c.receiver.FullFined() && !c.rst
    ensures c' == FullyDead(c, 0) && Core(c') && Advances(c, c') && !c'.active && !c'.rst && c'.timer == c.timer
  {
    var s' := FillKeeps(c.sender);
    assert s' == c.sender;
    var c1 := PullKeeps(c);
    c' := c1.(active := false);
  }

  lemma JudgeKeeps(c: Conn) returns (c': Conn)
    requires Core(c)
    ensures c' == JudgeDo(c) && ConnInv(c') && Advances(c, c') && c'.timer == c.timer
    ensures c.active && !c'.active && !c'.rst ==> !c.linger || c.timer >= 10 * c.rtTimeout
    ensures c'.active ==> c'.linger == c.linger
  {
    if !c.active {
      c' := c;
    } else if c.rst {
      c' := ResetKeeps(c, 1);
    } else if c.sender.tries > MAX_RETX_ATTEMPTS {
      c' := ResetKeeps(c, 2);
    } else if c.linger && c.sender.FullFined() && c.receiver.FullFined() && c.timer >= 10 * c.rtTimeout {
      c' := FinishKeeps(c.(linger := false));
    } else if !c.linger && c.sender.FullFined() {
      c' := FinishKeeps(c);
    } else {
      c' := PullKeeps(c);
    }
  }

  /** A change of the sender, followed by the judgment that ends every operation. */
  lemma SenderThenJudge(c: Conn, c1: Conn) returns (c': Conn)
    requires Core(c) && Inv(c1.sender) && Extends(c.sender, c1.sender)
    requires c1 == c.(sender := c1.sender, timer := c1.timer)
    ensures c' == JudgeDo(c1) && ConnInv(c') && Advances(c, c') && c'.timer == c1.timer
    ensures c.active && !c'.active && !c'.rst ==> !c.linger || c1.timer >= 10 * c.rtTimeout
    ensures c'.active ==> c'.linger == c.linger
  {
    HalvesKeep(c, c1);
    c' := JudgeKeeps(c1);
    AdvancesTransitive(c, c1, c');
  }

  lemma FillIfSynedKeeps(s: Sender) returns (s': Sender)
    requires Inv(s)
    ensures s' == FillIfSyned(s) && Inv(s') && Extends(s, s') && SameBooks(s, s')
  {
    s' := s;
    if s.syned { s' := FillKeeps(s); }
  }

  lemma ConnectKeeps(c: Conn) returns (c': Conn)
    requires Core(c)
    ensures c' == Connecting.Connect(c) && ConnInv(c') && Advances(c, c')
    ensures c.active && !c'.active && !c'.rst ==> !c.linger || c.timer >= 10 * c.rtTimeout
    ensures c'.active ==> c'.linger == c.linger
  {
    var s' := FillKeeps(c.sender);
    c' := SenderThenJudge(c, c.(sender := s'));
  }

  lemma WriteOpKeeps(c: Conn, data: seq<u8>) returns (c': Conn)
    requires Core(c) && Enabled(c, Write(data))
    ensures c' == Connecting.Write(c, data) && ConnInv(c') && Advances(c, c')
    ensures c.active && !c'.active && !c'.rst ==> !c.linger || c.timer >= 10 * c.rtTimeout
    ensures c'.active ==> c'.linger == c.linger
  {
    WriteKeeps(c.sender, data);
    var s1 := c.sender.Write(data);
    var s' := FillIfSynedKeeps(s1);
    ExtendsTransitive(c.sender, s1, s');
    c' := SenderThenJudge(c, c.(sender := s'));
  }

  lemma EndOpKeeps(c: Conn) returns (c': Conn)
    requires Core(c)
    ensures c' == EndInputStream(c) && ConnInv(c') && Advances(c, c')
    ensures c.active && !c'.active && !c'.rst ==> !c.linger || c.timer >= 10 * c.rtTimeout
    ensures c'.active ==> c'.linger == c.linger
  {
    EndInputKeeps(c.sender);
    var s1 := c.sender.EndInput();
    var s' := FillKeeps(s1);
    ExtendsTransitive(c.sender, s1, s');
    c' := SenderThenJudge(c, c.(sender := s'));
  }

  lemma TickOpKeeps(c: Conn, ms: nat) returns (c': Conn)
    requires Core(c)
    ensures c' == Connecting.Tick(c, ms) && ConnInv(c') && Advances(c, c')
    ensures c.active && !c'.active && !c'.rst ==> !c.linger || c'.timer >= 10 * c.rtTimeout
    ensures c'.active ==> c'.linger == c.linger
  {
    var c1 := ElapseKeeps(c, ms);
    c' := SenderThenJudge(c, c1);
  }

  lemma ElapseKeeps(c: Conn, ms: nat) returns (c1: Conn)
    requires Core(c)
    ensures c1 == Connecting.Elapse(c, ms) && Inv(c1.sender) && Extends(c.sender, c1.sender)
    ensures c1 == c.(sender := c1.sender, timer := c.timer + ms) && SameBooks(Sending.Tick(c.sender, ms), c1.sender)
  {
    var s' := TickFillKeeps(c.sender, ms);
    c1 := c.(timer := c.timer + ms, sender := s');
  }

  lemma TickFillKeeps(s: Sender, ms: nat) returns (s': Sender)
    requires Inv(s)
    ensures s' == FillIfSyned(Sending.Tick(s, ms)) && Inv(s') && Extends(s, s') && SameBooks(Sending.Tick(s, ms), s')
  {
    TickKeeps(s, ms);
    s' := FillIfSynedKeeps(Sending.Tick(s, ms));
    ExtendsTransitive(s, Sending.Tick(s, ms), s');
  }

  lemma ReadOpKeeps(c: Conn, len: nat) returns (c': Conn)
    requires ConnInv(c)
    ensures c' == Connecting.Read(c, len) && ConnInv(c') && Advances(c, c')
  {
    c' := Connecting.Read(c, len);
    SenderSelf(c.sender);
    HalvesKeep(c, c');
  }

  lemma SenderSelf(s: Sender)
    requires Inv(s)
    ensures Extends(s, s)
  {
  }

  lemma HearsKeeps(s: Sender, h: TCPHeader) returns (s': Sender)
    requires Inv(s)
    ensures s' == SenderHears(s, h) && Inv(s') && Extends(s, s')
  {
    var s1 := s;
    SenderSelf(s);
    if h.ack {
      AckKeeps(s, h.ackno, h.win);
      s1 := AckReceived(s, h.ackno, h.win);
    }
    s' := FillIfSynedKeeps(s1);
    ExtendsTransitive(s, s1, s');
  }

  lemma AnswerKeeps(c: Conn, seg: TCPSegment) returns (c': Conn)
    requires Core(c)
    ensures c' == Answer(c, seg) && Inv(c'.sender) && Extends(c.sender, c'.sender)
    ensures c' == c.(sender := c'.sender) && c'.sender.fined == c.sender.fined
  {
    c' := c;
    SenderSelf(c.sender);
    if MustAnswer(c, seg) {
      SendEmptyKeeps(c.sender);
      c' := c.(sender := SendEmpty(c.sender));
    }
  }

  lemma SettleKeeps(c: Conn, seg: TCPSegment) returns (c': Conn)
    requires Core(c)
    ensures c' == Settle(c, seg) && ConnInv(c') && Advances(c, c') && c'.timer == c.timer
    ensures c.active && !c'.active && !c'.rst ==> !c.linger || c.timer >= 10 * c.rtTimeout
    ensures c'.active && c.linger && !c'.linger ==> c'.receiver.FullFined() && !c'.sender.fined
  {
    var c1 := NoteClose(c);
    var c2 := AnswerKeeps(c1, seg);
    c' := SenderThenJudge(c1, c2);
    AnswerFined(c1, c2.sender, c');
  }

  /** Judging an unfinished sender leaves its FIN unsent. */
  lemma AnswerFined(c: Conn, s: Sender, c': Conn)
    requires Core(c) && s.fined == c.sender.fined && Inv(s) && c' == JudgeDo(c.(sender := s))
    ensures c'.active ==> c'.sender.fined == c.sender.fined
  {
  }

  lemma HeardKeeps(c: Conn, seg: TCPSegment) returns (c1: Conn)
    requires Core(c)
    ensures c1 == c.(timer := 0, receiver := Receiving.SegmentReceived(c.receiver, seg)) && Core(c1) && Advances(c, c1)
  {
    Receiving.ReceiveKeeps(c.receiver, seg);
    SenderSelf(c.sender);
    c1 := c.(timer := 0, receiver := Receiving.SegmentReceived(c.receiver, seg));
    HalvesKeep(c, c1);
  }

  lemma ArriveKeeps(c: Conn, seg: TCPSegment) returns (c': Conn)
    requires Core(c)
    ensures c' == SegmentReceived(c, seg) && ConnInv(c') && Advances(c, c')
    ensures c.active && !c'.active && !c'.rst ==> !c.linger || c'.timer >= 10 * c.rtTimeout
    ensures c'.active && c.linger && !c'.linger ==> c'.receiver.FullFined() && !c'.sender.fined
  {
    if seg.header.rst {
      var c1 := c.(timer := 0, rst := true);
      SenderSelf(c.sender);
      HalvesKeep(c, c1);
      c' := JudgeKeeps(c1);
      AdvancesTransitive(c, c1, c');
      return;
    }
    var c1 := HeardKeeps(c, seg);
    if seg.header.syn && !c.sender.syned {
      c' := ConnectKeeps(c1);
      AdvancesTransitive(c, c1, c');
      return;
    }
    var s := HearsKeeps(c.sender, seg.header);
    var c2 := c1.(sender := s);
    HalvesKeep(c1, c2);
    AdvancesTransitive(c, c1, c2);
    c' := SettleKeeps(c2, seg);
    AdvancesTransitive(c, c2, c');
  }

  /**
   * Every operation keeps the invariant. A clean death needs either an end of
   * linger from an earlier step or 10 * rt_timeout of silence; linger ends while
   * the connection lives only because the peer finished first.
   */
  lemma ApplyKeeps(c: Conn, op: Op) returns (c': Conn)
    requires ConnInv(c)
    ensures c' == Apply(c, op) && ConnInv(c') && Advances(c, c')
    ensures c.active && !c'.active && !c'.rst ==> !c.linger || c'.timer >= 10 * c.rtTimeout
    ensures c'.active && c.linger && !c'.linger ==> c'.receiver.FullFined() && !c'.sender.fined
  {
    match op
    case Arrive(seg) => c' := ArriveKeeps(c, seg);
    case Connect => c' := ConnectKeeps(c);
    case Write(data) => if Enabled(c, op) { c' := WriteOpKeeps(c, data); } else { SenderSelf(c.sender); c' := c; }
    case EndInput => c' := EndOpKeeps(c);
    case Elapse(ms) => c' := TickOpKeeps(c, ms);
    case Read(len) => c' := ReadOpKeeps(c, len);
  }
}
