/**
 * Whenever the oldest outstanding segment arrives, every answer to it gets the
 * sender further, and as long as attempts are left it can be made to arrive.
 */
module Progress {
  import opened Types
  import opened WrappingIntegers
  import opened Segments
  import opened Sending
  import opened Connecting
  import opened ConnectionProofs
  import opened ConnectionEffects
  import opened Judgment
  import opened Network
  import Reassembly
  import Receiving

  // A SYN travels alone: a receiver ignores a repeated SYN with all it carries.

  ghost predicate Alone(es: seq<Outstanding>) {
    forall k :: 0 <= k < |es| ==>
      |es[k].seg.payload| <= MAX_PAYLOAD_SIZE && (es[k].seg.header.syn ==> es[k].expectedAck == 1)
  }

  /** Before its SYN a sender has heard of no window; SYNs travel alone; payloads are bounded. */
  ghost predicate Modest(s: Sender) {
    (!s.syned ==> s.window == 1) && Alone(s.sent)
  }

  lemma EmitModest(s: Sender, seg: TCPSegment, s': Sender, allow: nat)
    requires Inv(s) && Modest(s) && 1 <= allow && (!s.syned ==> allow == 1)
    requires seg == Carve(s, allow) && s' == Emit(s, seg)
    ensures Modest(s')
  {
  }

  lemma {:induction false} FillModest(s: Sender, ex: nat) returns (s': Sender)
    requires Inv(s) && Modest(s) && ex <= 1 && (ex == 1 ==> s.window == 0)
    ensures s' == FillFrom(s, ex) && Modest(s')
    decreases s.window + ex + s.acked - s.next
  {
    s' := s;
    if !s.fined && s.window + ex > s.InFlight() {
      var allow := s.window + ex - s.InFlight();
      var seg := Carve(s, allow);
      if seg.LengthInSequenceSpace() != 0 {
        EmitKeeps(s, seg, Emit(s, seg), allow);
        EmitModest(s, seg, Emit(s, seg), allow);
        s' := FillModest(Emit(s, seg), 0);
      }
    }
  }

  lemma WindowModest(s: Sender) returns (s': Sender)
    requires Inv(s) && Modest(s)
    ensures s' == Fill(s) && Modest(s')
  {
    s' := FillModest(s, if s.window == 0 then 1 else 0);
  }

  lemma AckModest(s: Sender, ackno: u32, window: u16)
    requires Inv(s) && Modest(s) && s.syned
    ensures Modest(AckReceived(s, ackno, window))
  {
    var s' := AckReceived(s, ackno, window);
    if s'.acked != s.acked { PopKeeps(s.sent, Low(s), s.next, s'.acked); }
  }

  lemma JudgeModest(c: Conn)
    requires Coherent(c) && Modest(c.sender)
    ensures Modest(JudgeDo(c).sender)
  {
  }

  lemma SenderModest(c: Conn, s: Sender)
    requires Coherent(c) && Modest(s) && s.stream.Valid() && s.acked <= s.next
    ensures Modest(JudgeDo(c.(sender := s)).sender)
  {
    JudgeModest(c.(sender := s));
  }

  lemma SettleModest(c: Conn, seg: TCPSegment)
    requires Coherent(c) && Modest(c.sender)
    ensures Modest(Settle(c, seg).sender)
  {
    var c1 := NoteClose(c);
    if MustAnswer(c1, seg) {
      SenderModest(c1, SendEmpty(c1.sender));
    } else {
      JudgeModest(c1);
    }
  }

  lemma FillIfSynedModest(s: Sender) returns (s': Sender)
    requires Inv(s) && Modest(s)
    ensures s' == FillIfSyned(s) && Modest(s')
  {
    s' := s;
    if s.syned { s' := WindowModest(s); }
  }

  lemma ArriveModest(c: Conn, seg: TCPSegment)
    requires Core(c) && Modest(c.sender) && (seg.header.ack ==> c.sender.syned)
    ensures Modest(SegmentReceived(c, seg).sender)
  {
    if seg.header.rst {
      JudgeModest(c.(timer := 0, rst := true));
      return;
    }
    var c1 := HeardKeeps(c, seg);
    if seg.header.syn && !c.sender.syned {
      var s := WindowModest(c.sender);
      SenderModest(c1, s);
      return;
    }
    var s1 := c.sender;
    if seg.header.ack {
      AckModest(s1, seg.header.ackno, seg.header.win);
      AckKeeps(s1, seg.header.ackno, seg.header.win);
      s1 := AckReceived(s1, seg.header.ackno, seg.header.win);
    }
    var s := FillIfSynedModest(s1);
    SettleModest(c1.(sender := s), seg);
  }

  lemma OpModest(c: Conn, op: Op)
    requires Core(c) && Modest(c.sender) && (op.Arrive? && op.seg.header.ack ==> c.sender.syned)
    ensures Modest(Apply(c, op).sender)
  {
    match op
    case Arrive(seg) => ArriveModest(c, seg);
    case Connect =>
      var s := WindowModest(c.sender);
      SenderModest(c, s);
    case Write(data) =>
      if Enabled(c, op) {
        WriteKeeps(c.sender, data);
        var s := FillIfSynedModest(c.sender.Write(data));
        SenderModest(c, s);
      }
    case EndInput =>
      EndInputKeeps(c.sender);
      var s := WindowModest(c.sender.EndInput());
      SenderModest(c, s);
    case Elapse(ms) => ElapseModest(c, ms);
    case Read(len) =>
  }

  lemma ElapseModest(c: Conn, ms: nat)
    requires Core(c) && Modest(c.sender)
    ensures Modest(Connecting.Tick(c, ms).sender)
  {
    TickKeeps(c.sender, ms);
    var s := FillIfSynedModest(Sending.Tick(c.sender, ms));
    JudgeModest(Connecting.Elapse(c, ms));
  }

  ghost predicate Sound(w: World) {
    WorldInv(w) && Modest(w.a.sender) && Modest(w.b.sender)
  }

  lemma DoModest(w: World, e: Event)
    requires WorldInv(w) && Modest(w.a.sender) && Can(w, e)
    ensures Modest(Do(w, e).a.sender)
  {
    if e.Deliver? { assert Truthful(e.p, w.b.sender, w.b.receiver); }
    OpModest(w.a, OpOf(e));
  }

  lemma NextSound(w: World, m: Move) returns (w': World)
    requires Sound(w) && Possible(true, w, m)
    ensures w' == Next(w, m) && Sound(w')
  {
    w' := NextKeeps(w, m);
    if m.Left? { DoModest(w, m.e); } else { DoModest(Flip(w), m.e); }
  }

  lemma {:induction false} RunSound(w: World, moves: seq<Move>, w': World)
    requires Sound(w) && Runs(true, w, moves, w')
    ensures Sound(w')
    decreases |moves|
  {
    if moves != [] {
      var w1 := NextSound(w, moves[0]);
      RunSound(w1, moves[1..], w');
    }
  }

  lemma ReachableSound(w: World)
    requires Reachable(true, w)
    ensures Sound(w)
  {
    var a, b, moves :| Runs(true, Start(a, b), moves, w);
    StartInv(a, b);
    RunSound(Start(a, b), moves, w);
  }

  // The oldest outstanding segment, once delivered, is acknowledged.

  /** What a front segment that starts at the first missing number, or covers it, does to the receiver. */
  lemma FrontFills(s: Sender, r: Receiving.Receiver, p: Packet, r': Receiving.Receiver)
    requires Inv(s) && Modest(s) && r.Inv() && OneWay(s, r) && s.sent != [] && Carries(p, s.sent[0]) && !p.seg.header.rst
    requires Genuine(Entry(p), s) && Near(r, p.at) && r.WindowSize() >= 1 && r.syn && s.acked == r.AckAbs()
    requires r' == Receiving.SegmentReceived(r, p.seg) && r'.Inv() && Hears(s, r')
    ensures r'.AckAbs() > s.acked
  {
    var first, index := r.First(), DataStart(Entry(p));
    NumbersRecovered(s, r, p.at);
    PlacedRight(s, r, p);
    Receiving.ReceiveKeeps(r, p.seg);
    if first < index + |p.seg.payload| {
      Reassembly.PushAdvances(r.asm, p.seg.payload, index, p.seg.header.fin);
    } else {
      Reassembly.PushEof(r.asm, p.seg.payload, index, p.seg.header.fin);
    }
  }

  /** Whatever the receiver had before, it has all that precedes the next number to acknowledge, and then more. */
  lemma FrontAdvances(s: Sender, r: Receiving.Receiver, p: Packet)
    requires Inv(s) && Modest(s) && r.Inv() && OneWay(s, r) && s.sent != [] && Carries(p, s.sent[0]) && !p.seg.header.rst
    requires Near(r, p.at) && r.WindowSize() >= 1
    ensures Receiving.SegmentReceived(r, p.seg).AckAbs() > s.acked
  {
    assert Genuine(s.sent[0], s);
    assert Genuine(Entry(p), s);
    var r' := DeliveryHeard(s, r, p);
    Receiving.ReceiveKeeps(r, p.seg);
    if r.syn && r.AckAbs() == s.acked { FrontFills(s, r, p, r'); }
  }

  // Every segment that occupies sequence space is answered.

  /** Everything sent acknowledges all that is assembled, and is no older than anything sent before. */
  ghost predicate Answered(c': Conn, next: nat) {
    && c'.out != []
    && forall k :: 0 <= k < |c'.out| ==>
         var q := c'.out[k];
         next <= q.at && !q.seg.header.rst && q.seg.header.ack && q.ackAt == c'.receiver.AckAbs()
  }

  lemma JudgeAnswers(c: Conn, next: nat)
    requires Coherent(c) && c.active && !c.rst && c.sender.tries <= MAX_RETX_ATTEMPTS && c.out == [] && c.receiver.syn
    requires c.sender.out != [] && From(c.sender.out, next) && Plain(c.sender.out)
    ensures Answered(JudgeDo(c), next)
  {
    Receiving.AcknoIsCount(c.receiver);
    assert JudgeDo(c).out == StampAll(false, c.receiver, c.sender.out);
  }

  /** The SYN is the first thing out, however small the window. */
  lemma SynFirst(s: Sender, ex: nat) returns (s1: Sender)
    requires Inv(s) && !s.syned && s.out == [] && ex == if s.window == 0 then 1 else 0
    ensures Inv(s1) && FillFrom(s, ex) == FillFrom(s1, 0) && |s1.out| == 1 && s1.out[0].At() == s.next
    ensures s.next < s1.next && s1.InFlight() >= 1 && s1.tries == s.tries
  {
    var seg := Carve(s, s.window + ex);
    s1 := Emit(s, seg);
    EmitKeeps(s, seg, s1, s.window + ex);
  }

  lemma SynGoesOut(s: Sender) returns (s': Sender)
    requires Inv(s) && !s.syned && s.out == []
    ensures s' == Fill(s) && s'.out != [] && From(s'.out, s.next) && Inv(s') && s'.tries == s.tries
  {
    var s1 := SynFirst(s, if s.window == 0 then 1 else 0);
    s' := FillInv(s1, 0);
    var s'' := FillAdds(s1, 0, Limit(s1));
    TilesFrom(s'.sent[|s1.sent|..], s1.next, s'.next);
  }

  lemma HearsOut(s: Sender, h: TCPHeader) returns (s': Sender)
    requires Inv(s) && s.out == []
    ensures s' == SenderHears(s, h) && Inv(s') && s'.tries <= s.tries && s.next <= s'.next && From(s'.out, s.next)
  {
    s' := HearsKeeps(s, h);
    HearsBooks(s, h);
    var s1 := s;
    if h.ack {
      AckKeeps(s, h.ackno, h.win);
      s1 := AckReceived(s, h.ackno, h.win);
    }
    if s1.syned { FillFrontier(s1); }
  }

  /** An empty segment just before what the receiver expects asks whether it is still there. */
  ghost predicate Probe(r: Receiving.Receiver, seg: TCPSegment) {
    r.syn && seg.LengthInSequenceSpace() == 0 && seg.header.seqno == Wrap(r.AckAbs() - 1, r.isn)
  }

  lemma ProbeExactly(c: Conn, seg: TCPSegment)
    requires c.receiver.Inv() && seg.LengthInSequenceSpace() == 0
    ensures MustAnswer(c, seg) <==> Probe(c.receiver, seg)
  {
    Receiving.AcknoIsCount(c.receiver);
    if c.receiver.syn { WrapPlus(c.receiver.AckAbs(), -1, c.receiver.isn); }
  }

  lemma SettleAnswers(c: Conn, seg: TCPSegment, next: nat)
    requires Core(c) && c.active && !c.rst && c.sender.tries <= MAX_RETX_ATTEMPTS && c.out == [] && c.receiver.syn
    requires next <= c.sender.next && From(c.sender.out, next) && (seg.LengthInSequenceSpace() > 0 || Probe(c.receiver, seg))
    ensures Answered(Settle(c, seg), next)
  {
    var c1 := NoteClose(c);
    if seg.LengthInSequenceSpace() == 0 { ProbeExactly(c1, seg); }
    if MustAnswer(c1, seg) {
      SendEmptyKeeps(c1.sender);
      JudgeAnswers(c1.(sender := SendEmpty(c1.sender)), next);
    } else {
      JudgeAnswers(c1, next);
    }
  }

  lemma Answers(c: Conn, seg: TCPSegment)
    requires ConnInv(c) && c.active && c.out == [] && !seg.header.rst && Receiving.SegmentReceived(c.receiver, seg).syn
    requires seg.LengthInSequenceSpace() > 0 || Probe(Receiving.SegmentReceived(c.receiver, seg), seg)
    ensures Answered(SegmentReceived(c, seg), c.sender.next)
  {
    var c1 := HeardKeeps(c, seg);
    if seg.header.syn && !c.sender.syned {
      var s := SynGoesOut(c.sender);
      JudgeAnswers(c1.(sender := s), c.sender.next);
    } else {
      var s := HearsOut(c.sender, seg.header);
      var s' := HearsKeeps(c.sender, seg.header);
      HalvesKeep(c1, c1.(sender := s));
      SettleAnswers(c1.(sender := s), seg, c.sender.next);
    }
  }

  /** Every segment has a number. */
  ghost predicate Filled(es: seq<Outstanding>) {
    forall k :: 0 <= k < |es| ==> es[k].seg.LengthInSequenceSpace() > 0
  }

  lemma {:induction false} TilesFilled(es: seq<Outstanding>, lo: int, hi: int)
    requires Tiles(es, lo, hi)
    ensures Filled(es)
  {
    if es != [] {
      TilesFilled(es[1..], es[0].expectedAck, hi);
      forall k | 0 < k < |es| ensures es[k].seg.LengthInSequenceSpace() > 0 { assert es[k] == es[1..][k - 1]; }
    }
  }

  lemma FillFilled(s: Sender)
    requires Inv(s) && s.out == []
    ensures Filled(Fill(s).out)
  {
    var s' := FillKeeps(s);
    TilesFilled(s'.sent[|s.sent|..], s.next, s'.next);
  }

  lemma HearsFilled(s: Sender, h: TCPHeader)
    requires Inv(s) && s.out == []
    ensures Filled(SenderHears(s, h).out)
  {
    var s1 := s;
    if h.ack {
      AckKeeps(s, h.ackno, h.win);
      s1 := AckReceived(s, h.ackno, h.win);
    }
    if s1.syned { FillFilled(s1); }
  }

  lemma SettleStays(c: Conn, seg: TCPSegment)
    requires Coherent(c) && c.active && !c.rst && c.sender.tries <= MAX_RETX_ATTEMPTS && c.out == []
    ensures Settle(c, seg).out == StampAll(false, c.receiver, if MustAnswer(c, seg) then SendEmpty(c.sender).out else c.sender.out)
  {
    var c1 := Answer(NoteClose(c), seg);
    SendsPlainly(c1);
  }

  /** Of the segments without a number, exactly the probes are answered with one. */
  lemma EmptyAnswer(c: Conn, seg: TCPSegment)
    requires ConnInv(c) && c.active && c.out == [] && !seg.header.rst && seg.LengthInSequenceSpace() == 0
    ensures var out := SegmentReceived(c, seg).out;
            Probe(Receiving.SegmentReceived(c.receiver, seg), seg) <==>
            exists k :: 0 <= k < |out| && out[k].seg.LengthInSequenceSpace() == 0
  {
    var c1 := HeardKeeps(c, seg);
    var s := HearsOut(c.sender, seg.header);
    var d := c1.(sender := s);
    HearsFilled(c.sender, seg.header);
    SettleStays(d, seg);
    ProbeExactly(d, seg);
    if MustAnswer(d, seg) { assert SegmentReceived(c, seg).out[|s.out|].seg.LengthInSequenceSpace() == 0; }
  }

  // Progress.

  /** The front segment is near enough, for no more than a window and a segment lie beyond its start. */
  lemma FrontNear(s: Sender, r: Receiving.Receiver)
    requires Inv(s) && Modest(s) && r.Inv() && OneWay(s, r) && s.sent != []
    ensures Near(r, s.sent[0].At())
  {
    AckWithinSent(s, r);
    assert |s.sent[0].seg.payload| <= MAX_PAYLOAD_SIZE;
  }

  /** What b sends at once when p arrives. */
  ghost function Reply(w: World, p: Packet): seq<Packet>
    requires Coherent(w.b)
  {
    Apply(w.b, Arrive(p.seg)).out
  }

  /** A copy of a's oldest outstanding segment, not so old that b could mistake its acknowledgment. */
  ghost predicate FrontCopy(w: World, p: Packet) {
    && p in w.fromA && w.a.sender.sent != [] && Carries(p, w.a.sender.sent[0]) && !p.seg.header.rst
    && (p.seg.header.ack ==> !Mistakable(w.b.sender, p.ackAt))
  }

  lemma FrontArrives(w: World, p: Packet) returns (w': World)
    requires Sound(w) && w.b.active && w.b.receiver.WindowSize() >= 1 && FrontCopy(w, p)
    ensures Possible(true, w, Right(Deliver(p))) && w' == Next(w, Right(Deliver(p))) && Sound(w') && w'.a == w.a
    ensures Reply(w, p) != [] && w.a.sender.acked < w'.b.receiver.AckAbs()
    ensures forall k :: 0 <= k < |Reply(w, p)| ==>
              var q := Reply(w, p)[k];
              q in w'.fromB && w.b.sender.next <= q.at && !q.seg.header.rst && q.seg.header.ack && q.ackAt == w'.b.receiver.AckAbs()
  {
    FrontNear(w.a.sender, w.b.receiver);
    w' := NextSound(w, Right(Deliver(p)));
    FrontAdvances(w.a.sender, w.b.receiver, p);
    Answers(w.b, p.seg);
    Effects(w.b, Arrive(p.seg));
  }

  lemma AnswerArrives(w: World, q: Packet)
    requires Sound(w) && q in w.fromB && !q.seg.header.rst && q.seg.header.ack
    requires w.a.receiver.AckAbs() <= q.at && w.a.sender.acked < q.ackAt == w.b.receiver.AckAbs()
    ensures Possible(true, w, Left(Deliver(q))) && Next(w, Left(Deliver(q))).a.sender.acked == q.ackAt
  {
    assert Truthful(q, w.b.sender, w.b.receiver);
    AckWithinSent(w.a.sender, w.b.receiver);
    RecentNotMistaken(w.a.sender, q.ackAt);
    AckExactly(w.a.sender, q.ackAt, q.seg.header.win);
    Effects(w.a, Arrive(q.seg));
  }

  /**
   * Progress: in every reachable world, when any copy of an endpoint's oldest
   * outstanding segment arrives at an active peer with room for a byte, the peer
   * answers at once, and whichever of its answers arrives next, it strictly
   * increases what is acknowledged. It takes neither attempts left nor a live sender.
   */
  lemma DeliveryProgresses(w: World, p: Packet)
    requires Reachable(true, w) && w.b.active && w.b.receiver.First() < w.b.receiver.asm.Edge() && FrontCopy(w, p)
    ensures Possible(true, w, Right(Deliver(p)))
    ensures var w' := Next(w, Right(Deliver(p)));
            Reply(w, p) != [] && forall k :: 0 <= k < |Reply(w, p)| ==> Raises(w', Reply(w, p)[k])
  {
    ReachableSound(w);
    var w' := FrontArrives(w, p);
    AckWithinSent(w.b.sender, w.a.receiver);
    forall k | 0 <= k < |Reply(w, p)| ensures Raises(w', Reply(w, p)[k]) { AnswerArrives(w', Reply(w, p)[k]); }
  }

  /** The same for the other endpoint. */
  lemma DeliveryProgressesOther(w: World, p: Packet)
    requires Reachable(true, w) && w.a.active && w.a.receiver.First() < w.a.receiver.asm.Edge() && FrontCopy(Flip(w), p)
    ensures Possible(true, w, Left(Deliver(p)))
    ensures var w' := Next(w, Left(Deliver(p)));
            Reply(Flip(w), p) != [] && forall k :: 0 <= k < |Reply(Flip(w), p)| ==> Raises(Flip(w'), Reply(Flip(w), p)[k])
  {
    ReachableFlip(true, w);
    DeliveryProgresses(Flip(w), p);
  }

  /** Delivering q to a is possible and strictly increases what a has had acknowledged. */
  ghost predicate Raises(w: World, q: Packet) {
    && Possible(true, w, Left(Deliver(q)))
    && Next(w, Left(Deliver(q))).a.sender.acked > w.a.sender.acked
  }

  // Four moves that make it arrive.

  lemma ReaderEmpties(w: World) returns (m: Move, w': World)
    requires Sound(w) && w.b.receiver.asm.out.capacity >= 1
    ensures Possible(true, w, m) && w' == Next(w, m) && Sound(w')
    ensures w'.a == w.a && w'.b.active == w.b.active && w'.b.receiver.WindowSize() >= 1
  {
    m := Right(Act(Read(|w.b.receiver.asm.out.written|)));
    w' := NextSound(w, m);
  }

  lemma FrontQueued(s: Sender) returns (s': Sender)
    requires Inv(s) && s.out == [] && s.sent != [] && (s.tries < MAX_RETX_ATTEMPTS || s.window == 0) && s.tries <= MAX_RETX_ATTEMPTS
    ensures s' == FillIfSyned(Sending.Tick(s, s.timeout)) && s'.stream.Valid() && s'.acked == s.acked < s'.next
    ensures s'.out != [] && s'.out[0] == s.sent[0] && s'.sent != [] && s'.sent[0] == s.sent[0]
    ensures s'.tries <= MAX_RETX_ATTEMPTS
  {
    var s1 := Sending.Tick(s, s.timeout);
    TickKeeps(s, s.timeout);
    s' := s1;
    if s1.syned { s' := FillKeeps(s1); }
  }

  /** A timeout that is not the last puts the oldest outstanding segment back on the wire. */
  lemma TimeoutResends(c: Conn) returns (p: Packet, c': Conn)
    requires ConnInv(c) && c.active && c.out == [] && c.sender.sent != []
    requires c.sender.tries < MAX_RETX_ATTEMPTS || c.sender.window == 0
    ensures c' == Connecting.Tick(c, c.sender.timeout) && c'.out != [] && p == c'.out[0] && Carries(p, c.sender.sent[0]) && !p.seg.header.rst
    ensures p.ackAt == c.receiver.AckAbs()
    ensures c'.sender.sent != [] && c'.sender.sent[0] == c.sender.sent[0] && c'.sender.acked == c.sender.acked
    ensures c'.receiver == c.receiver
  {
    var s' := FrontQueued(c.sender);
    var c1 := c.(timer := c.timer + c.sender.timeout, sender := s');
    c' := PullPush(c1);
    p := Stamp(false, c.receiver, c.sender.sent[0]);
    assert Plain(c.sender.sent);
  }

  lemma Retransmits(w: World) returns (p: Packet, m: Move, w': World)
    requires Sound(w) && w.a.active && w.a.sender.sent != []
    requires w.a.sender.tries < MAX_RETX_ATTEMPTS || w.a.sender.window == 0
    ensures Possible(true, w, m) && w' == Next(w, m) && Sound(w')
    ensures w'.b == w.b && w'.a.receiver == w.a.receiver && w'.a.sender.acked == w.a.sender.acked
    ensures FrontCopy(w', p)
  {
    var c';
    p, c' := TimeoutResends(w.a);
    m := Left(Act(Elapse(w.a.sender.timeout)));
    w' := NextSound(w, m);
    assert w'.a == c'.(out := []) && p in w'.fromA;
    FreshNotMistaken(w.b.sender, w.a.receiver);
  }

  lemma FreshNotMistaken(s: Sender, r: Receiving.Receiver)
    requires Inv(s) && r.Inv() && OneWay(s, r)
    ensures !Mistakable(s, r.AckAbs())
  {
    AckWithinSent(s, r);
    RecentNotMistaken(s, r.AckAbs());
  }

  /**
   * No reachable world is stuck: an active endpoint with something outstanding
   * and attempts left, or a closed window before it, whose peer is active with a
   * buffer of any size at all, gets further in four moves: the reader reads, a
   * timeout passes, the segment and an answer arrive.
   */
  lemma NeverStuck(w: World) returns (moves: seq<Move>, w': World)
    requires Reachable(true, w) && w.a.active && w.b.active && w.a.sender.sent != []
    requires w.a.sender.tries < MAX_RETX_ATTEMPTS || w.a.sender.window == 0
    requires w.b.receiver.asm.out.capacity >= 1
    ensures |moves| == 4 && Runs(true, w, moves, w') && w'.a.sender.acked > w.a.sender.acked
  {
    ReachableSound(w);
    var m1, w1 := ReaderEmpties(w);
    var p, m2, w2 := Retransmits(w1);
    var q, w3 := FrontThenAnswer(w2, p);
    w' := Next(w3, Left(Deliver(q)));
    moves := [m1, m2, Right(Deliver(p)), Left(Deliver(q))];
    FourMoves(w, m1, w1, m2, w2, Right(Deliver(p)), w3, Left(Deliver(q)), w');
  }

  lemma FrontThenAnswer(w: World, p: Packet) returns (q: Packet, w': World)
    requires Sound(w) && w.b.active && w.b.receiver.WindowSize() >= 1 && FrontCopy(w, p)
    ensures Possible(true, w, Right(Deliver(p))) && w' == Next(w, Right(Deliver(p))) && w'.a == w.a && Raises(w', q)
  {
    w' := FrontArrives(w, p);
    AckWithinSent(w.b.sender, w.a.receiver);
    q := Reply(w, p)[0];
    AnswerArrives(w', q);
  }

  /** The same for the other endpoint. */
  lemma NeverStuckOther(w: World) returns (moves: seq<Move>, w': World)
    requires Reachable(true, w) && w.a.active && w.b.active && w.b.sender.sent != []
    requires w.b.sender.tries < MAX_RETX_ATTEMPTS || w.b.sender.window == 0
    requires w.a.receiver.asm.out.capacity >= 1
    ensures |moves| == 4 && Runs(true, w, moves, w') && w'.b.sender.acked > w.b.sender.acked
  {
    ReachableFlip(true, w);
    var ms, f := NeverStuck(Flip(w));
    RunsFlip(true, Flip(w), ms, f);
    moves, w' := SwapAll(ms), Flip(f);
  }

  lemma {:induction false} FourMoves(w: World, m1: Move, w1: World, m2: Move, w2: World, m3: Move, w3: World, m4: Move, w4: World)
    requires Possible(true, w, m1) && w1 == Next(w, m1) && Possible(true, w1, m2) && w2 == Next(w1, m2)
    requires Possible(true, w2, m3) && w3 == Next(w2, m3) && Possible(true, w3, m4) && w4 == Next(w3, m4)
    ensures Runs(true, w, [m1, m2, m3, m4], w4)
  {
    assert Runs(true, w4, [], w4);
    assert [m4][1..] == [];
    assert Runs(true, w3, [m4], w4);
    assert [m3, m4][1..] == [m4];
    assert Runs(true, w2, [m3, m4], w4);
    assert [m2, m3, m4][1..] == [m3, m4];
    assert Runs(true, w1, [m2, m3, m4], w4);
    assert [m1, m2, m3, m4][1..] == [m2, m3, m4];
  }
}
