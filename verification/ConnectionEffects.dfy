/** What each operation does to the numbers an endpoint shares with its peer and with the clock. */
module ConnectionEffects {
  import opened Types
  import opened Segments
  import opened Sending
  import opened Connecting
  import opened ConnectionProofs
  import Receiving

  ghost predicate SameButError(r: Receiving.Receiver, r': Receiving.Receiver) {
    r' == r.(asm := r.asm.(out := r.asm.out.(error := r'.asm.out.error)))
  }

  ghost predicate Quietly(c: Conn, c': Conn) {
    SameBooks(c.sender, c'.sender) && SameButError(c.receiver, c'.receiver) && c'.timer == c.timer
  }

  lemma FillBooks(s: Sender)
    requires Inv(s)
    ensures SameBooks(s, Fill(s))
  {
    var s' := FillKeeps(s);
  }

  lemma LastWordsQuiet(c: Conn, errorType: nat) returns (c1: Conn)
    requires Core(c)
    ensures c1 == LastWords(c, errorType) && Quietly(c, c1)
  {
    if errorType == 0 {
      FillBooks(c.sender);
      c1 := c.(sender := Fill(c.sender));
    } else {
      c1 := Doom(c.(rst := true, sender := if errorType > 1 && c.sender.out == [] then SendEmpty(c.sender) else c.sender));
    }
  }

  lemma DeadQuiet(c: Conn, errorType: nat)
    requires Core(c)
    ensures Quietly(c, FullyDead(c, errorType))
  {
    var c1 := LastWordsQuiet(c, errorType);
  }

  lemma JudgeQuiet(c: Conn)
    requires Core(c)
    ensures Quietly(c, JudgeDo(c))
  {
    if c.active {
      if c.rst {
        DeadQuiet(c, 1);
      } else if c.sender.tries > MAX_RETX_ATTEMPTS {
        DeadQuiet(c, 2);
      } else if c.linger && c.sender.FullFined() && c.receiver.FullFined() && c.timer >= 10 * c.rtTimeout {
        DeadQuiet(c.(linger := false), 0);
      } else if !c.linger && c.sender.FullFined() {
        DeadQuiet(c, 0);
      }
    }
  }

  /** The receiver after an operation, up to the error flag. */
  function Heard(r: Receiving.Receiver, op: Op): Receiving.Receiver
    requires r.Inv()
  {
    match op
    case Arrive(seg) => if seg.header.rst then r else Receiving.SegmentReceived(r, seg)
    case Read(len) => r.Read(len)
    case _ => r
  }

  /** The sender after an operation, as far as its books go. */
  function Told(s: Sender, op: Op): Sender
    requires s.stream.Valid()
  {
    match op
    case Arrive(seg) =>
      if seg.header.ack && !seg.header.rst && !(seg.header.syn && !s.syned)
      then AckReceived(s, seg.header.ackno, seg.header.win)
      else s
    case Elapse(ms) => Sending.Tick(s, ms)
    case Write(data) => if !s.stream.ended && |s.stream.written| + |data| <= STREAM_LIMIT then s.Write(data) else s
    case EndInput => s.EndInput()
    case _ => s
  }

  /** The time without a segment. */
  function Silence(before: nat, op: Op): nat {
    if op.Elapse? then before + op.ms else if op.Arrive? then 0 else before
  }

  lemma HearsBooks(s: Sender, h: TCPHeader)
    requires Inv(s)
    ensures SameBooks(if h.ack then AckReceived(s, h.ackno, h.win) else s, SenderHears(s, h))
  {
    if h.ack { AckKeeps(s, h.ackno, h.win); }
    var s1 := if h.ack then AckReceived(s, h.ackno, h.win) else s;
    if s1.syned { FillBooks(s1); }
  }

  lemma SettleQuiet(c: Conn, seg: TCPSegment)
    requires Core(c)
    ensures Quietly(c, Settle(c, seg))
  {
    var c1 := NoteClose(c);
    var c2 := AnswerKeeps(c1, seg);
    HalvesKeep(c1, c2);
    JudgeQuiet(c2);
  }

  lemma ConnectQuiet(c: Conn)
    requires Core(c)
    ensures Quietly(c, Connecting.Connect(c))
  {
    var s' := FillKeeps(c.sender);
    HalvesKeep(c, c.(sender := s'));
    JudgeQuiet(c.(sender := s'));
  }

  lemma ArriveEffects(c: Conn, seg: TCPSegment)
    requires Core(c)
    ensures var c' := SegmentReceived(c, seg);
            SameButError(Heard(c.receiver, Arrive(seg)), c'.receiver) && SameBooks(Told(c.sender, Arrive(seg)), c'.sender) && c'.timer == 0
  {
    if seg.header.rst {
      SenderSelf(c.sender);
      HalvesKeep(c, c.(timer := 0, rst := true));
      JudgeQuiet(c.(timer := 0, rst := true));
      return;
    }
    var c1 := HeardKeeps(c, seg);
    if seg.header.syn && !c.sender.syned {
      ConnectQuiet(c1);
    } else {
      var s := HearsKeeps(c.sender, seg.header);
      HalvesKeep(c1, c1.(sender := s));
      HearsBooks(c.sender, seg.header);
      SettleQuiet(c1.(sender := s), seg);
    }
  }

  lemma OtherEffects(c: Conn, op: Op)
    requires Core(c) && !op.Arrive?
    ensures SameButError(Heard(c.receiver, op), Apply(c, op).receiver) && SameBooks(Told(c.sender, op), Apply(c, op).sender)
    ensures Apply(c, op).timer == Silence(c.timer, op)
  {
    match op
    case Connect => ConnectQuiet(c);
    case Write(data) => if Enabled(c, op) { WriteQuiet(c, data); }
    case EndInput => EndQuiet(c);
    case Elapse(ms) => TickQuiet(c, ms);
    case Read(len) =>
  }

  lemma SenderJudgeQuiet(c: Conn, c1: Conn)
    requires Core(c) && Inv(c1.sender) && Extends(c.sender, c1.sender) && c1 == c.(sender := c1.sender, timer := c1.timer)
    ensures Quietly(c1, JudgeDo(c1))
  {
    HalvesKeep(c, c1);
    JudgeQuiet(c1);
  }

  lemma WriteQuiet(c: Conn, data: seq<u8>)
    requires Core(c) && Enabled(c, Write(data))
    ensures Quietly(c.(sender := c.sender.Write(data)), Connecting.Write(c, data))
  {
    WriteKeeps(c.sender, data);
    var s' := FillIfSynedKeeps(c.sender.Write(data));
    ExtendsTransitive(c.sender, c.sender.Write(data), s');
    SenderJudgeQuiet(c, c.(sender := s'));
  }

  lemma EndQuiet(c: Conn)
    requires Core(c)
    ensures Quietly(c.(sender := c.sender.EndInput()), EndInputStream(c))
  {
    EndInputKeeps(c.sender);
    FillBooks(c.sender.EndInput());
    var s' := FillKeeps(c.sender.EndInput());
    ExtendsTransitive(c.sender, c.sender.EndInput(), s');
    SenderJudgeQuiet(c, c.(sender := s'));
  }

  lemma TickQuiet(c: Conn, ms: nat)
    requires Core(c)
    ensures Quietly(c.(sender := Sending.Tick(c.sender, ms), timer := c.timer + ms), Connecting.Tick(c, ms))
  {
    var c1 := ElapseKeeps(c, ms);
    SenderJudgeQuiet(c, c1);
  }

  /** What an operation does, as far as the other end can tell. */
  lemma Effects(c: Conn, op: Op)
    requires Core(c)
    ensures SameButError(Heard(c.receiver, op), Apply(c, op).receiver)
    ensures SameBooks(Told(c.sender, op), Apply(c, op).sender)
    ensures Apply(c, op).timer == Silence(c.timer, op)
  {
    if op.Arrive? { ArriveEffects(c, op.seg); } else { OtherEffects(c, op); }
  }
}
