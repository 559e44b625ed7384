/** An endpoint of the two-endpoint world is a connection in a run of its own, so what is known of those holds there. */
module WorldRuns {
  import opened Segments
  import opened Sending
  import opened Connecting
  import opened ConnectionProofs
  import opened ConnectionRuns
  import opened Network
  import Receiving

  /** The same but for what is queued for the network. */
  ghost predicate Alike(c: Conn, d: Conn) {
    c == d.(out := c.out)
  }

  lemma JudgeAlike(c: Conn, d: Conn)
    requires Coherent(c) && Alike(c, d)
    ensures Alike(JudgeDo(c), JudgeDo(d))
  {
  }

  lemma SettleAlike(c: Conn, d: Conn, seg: TCPSegment)
    requires Coherent(c) && Alike(c, d)
    ensures Alike(Settle(c, seg), Settle(d, seg))
  {
    JudgeAlike(Answer(NoteClose(c), seg), Answer(NoteClose(d), seg));
  }

  lemma ArriveAlike(c: Conn, d: Conn, seg: TCPSegment)
    requires Coherent(c) && Alike(c, d)
    ensures Alike(SegmentReceived(c, seg), SegmentReceived(d, seg))
  {
    if seg.header.rst {
      JudgeAlike(c.(timer := 0, rst := true), d.(timer := 0, rst := true));
      return;
    }
    Receiving.ReceiveKeeps(c.receiver, seg);
    var r := Receiving.SegmentReceived(c.receiver, seg);
    var c1, d1 := c.(timer := 0, receiver := r), d.(timer := 0, receiver := r);
    if seg.header.syn && !c.sender.syned {
      JudgeAlike(c1.(sender := Fill(c.sender)), d1.(sender := Fill(c.sender)));
    } else {
      var s := SenderHears(c.sender, seg.header);
      SettleAlike(c1.(sender := s), d1.(sender := s), seg);
    }
  }

  lemma ApplyAlike(c: Conn, d: Conn, op: Op)
    requires Coherent(c) && Alike(c, d)
    ensures Alike(Apply(c, op), Apply(d, op))
  {
    match op
    case Arrive(seg) => ArriveAlike(c, d, seg);
    case Connect => JudgeAlike(c.(sender := Fill(c.sender)), d.(sender := Fill(c.sender)));
    case Write(data) =>
      var s := FillIfSyned(c.sender.Write(data));
      JudgeAlike(c.(sender := s), d.(sender := s));
    case EndInput =>
      var s := Fill(c.sender.EndInput());
      JudgeAlike(c.(sender := s), d.(sender := s));
    case Elapse(ms) => JudgeAlike(Connecting.Elapse(c, ms), Connecting.Elapse(d, ms));
    case Read(len) =>
  }

  /** The connection has the history that the operations give it. */
  ghost predicate Lives(c: Conn, k: Config, ops: seq<Op>) {
    Alike(c, RunOf(k.rtTimeout, k.recvCapacity, k.sendCapacity, k.isn, ops).c)
  }

  lemma LivesOn(c: Conn, k: Config, ops: seq<Op>, op: Op)
    requires Coherent(c) && Lives(c, k, ops)
    ensures Lives(Apply(c, op).(out := []), k, ops + [op])
  {
    assert (ops + [op])[..|ops|] == ops;
    ApplyAlike(c, RunOf(k.rtTimeout, k.recvCapacity, k.sendCapacity, k.isn, ops).c, op);
  }

  lemma {:induction false} RunLives(timely: bool, w: World, moves: seq<Move>, w': World, k: Config, ops: seq<Op>) returns (ops': seq<Op>)
    requires Runs(timely, w, moves, w') && Lives(w.a, k, ops)
    ensures Lives(w'.a, k, ops')
    decreases |moves|
  {
    ops' := ops;
    if moves != [] {
      var m := moves[0];
      if m.Left? {
        LivesOn(w.a, k, ops, OpOf(m.e));
        ops' := ops + [OpOf(m.e)];
      }
      ops' := RunLives(timely, Next(w, m), moves[1..], w', k, ops');
    }
  }

  /**
   * In every run of the two endpoints, an endpoint that ends without a reset
   * either saw its peer finish first or heard nothing for 10 * rt_timeout.
   */
  lemma CloseTakesTime(timely: bool, w: World, e: Event) returns (k: Config, ops: seq<Op>)
    requires Reachable(timely, w) && Possible(timely, w, Left(e)) && w.a.active && CleanlyClosed(Next(w, Left(e)).a)
    ensures Lives(w.a, k, ops) && Lives(Next(w, Left(e)).a, k, ops + [OpOf(e)])
    ensures var h := RunOf(k.rtTimeout, k.recvCapacity, k.sendCapacity, k.isn, ops);
            var h' := RunOf(k.rtTimeout, k.recvCapacity, k.sendCapacity, k.isn, ops + [OpOf(e)]);
            h.passive || h'.silence >= 10 * k.rtTimeout
  {
    var a, b, moves :| Runs(timely, Start(a, b), moves, w);
    k := a;
    ops := RunLives(timely, Start(a, b), moves, w, a, []);
    LivesOn(w.a, k, ops, OpOf(e));
    Ending(k.rtTimeout, k.recvCapacity, k.sendCapacity, k.isn, ops, OpOf(e));
  }
}
