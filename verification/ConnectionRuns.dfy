/** Whole runs of one endpoint, whatever arrives from outside: how a connection can end. */
module ConnectionRuns {
  import opened Types
  import opened Sending
  import opened Connecting
  import opened ConnectionProofs
  import opened ConnectionEffects
  import opened Judgment
  import SenderRuns

  /**
   * An endpoint, and what was seen from outside: the time since it accepted an
   * acknowledgment, the time since anything arrived, the window last offered to
   * it, whether anything made it open, whether its peer was heard to finish
   * first, whether it was reset, what it was given to send, and whether that
   * ended; and the time it should have retransmitted after, and how often it did.
   */
  datatype History = History(
    c: Conn, quiet: nat, silence: nat, window: u16, started: bool, passive: bool, reset: bool, input: seq<u8>, closed: bool,
    clock: nat, attempts: nat)

  /** How much of the data there is room for. */
  function Accepted(h: History, data: seq<u8>): (n: nat)
    ensures n <= |data|
  {
    Max(0, Min(|data|, h.c.sender.stream.capacity - (|h.input| - h.c.sender.stream.popped)))
  }

  /** Something is outstanding, and the time since the last retransmission or accepted acknowledgment has reached the doubled timeout. */
  predicate Overdue(h: History, ms: nat) {
    h.c.sender.acked < h.c.sender.next && h.clock + ms >= (h.c.rtTimeout * Pow2(h.attempts)) % 0x1_0000_0000
  }

  function Extend(h: History, op: Op): History
    requires Coherent(h.c)
  {
    var c := Apply(h.c, op);
    var advanced := c.sender.acked > h.c.sender.acked;
    History(
      c,
      if op.Elapse? then h.quiet + op.ms else if advanced then 0 else h.quiet,
      Silence(h.silence, op),
      if Passes(h.started, op) && op.seg.header.ack then op.seg.header.win else h.window,
      h.started || Opens(op),
      h.passive || (Passes(h.started, op) && c.receiver.FullFined() && !c.sender.fined),
      h.reset || Resets(op),
      if op.Write? && Enabled(h.c, op) then h.input + op.data[..Accepted(h, op.data)] else h.input,
      h.closed || op.EndInput?,
      if advanced then 0
      else if !op.Elapse? then h.clock
      else if h.c.sender.acked == h.c.sender.next || Overdue(h, op.ms) then 0
      else h.clock + op.ms,
      if advanced then 0 else if op.Elapse? && Overdue(h, op.ms) && h.window != 0 then h.attempts + 1 else h.attempts)
  }

  /** No cause to end is there. */
  ghost predicate Going(h: History) {
    && !h.reset && h.attempts <= MAX_RETX_ATTEMPTS
    && !(h.c.sender.FullFined() && h.c.receiver.FullFined() && (h.passive || h.silence >= 10 * h.c.rtTimeout))
  }

  ghost predicate Consistent(h: History) {
    && ConnInv(h.c) && Wired(h.c) && h.c.timer == h.silence
    && SenderRuns.BackedOff(h.c.sender, h.quiet) && h.c.sender.initialTimeout == h.c.rtTimeout
    && h.c.sender.syned == h.started && h.c.sender.window == h.window
    && h.c.sender.stream.written == h.input && h.c.sender.stream.ended == h.closed
    && h.c.sender.timer == h.clock && h.c.sender.tries == h.attempts
    && (h.c.active ==>
          && (h.c.linger <==> !h.passive) && Spent(h.c.sender) && Going(h)
          && !h.c.sender.stream.error && !h.c.receiver.asm.out.error)
  }

  lemma SameBackOff(s: Sender, s': Sender, quiet: nat)
    requires SameBooks(s, s') && SenderRuns.BackedOff(s, quiet)
    ensures SenderRuns.BackedOff(s', quiet)
  {
  }

  function Quiet(s: Sender, op: Op, acked: nat, quiet: nat): nat {
    if op.Elapse? then quiet + op.ms else if acked > s.acked then 0 else quiet
  }

  lemma ToldTimes(s: Sender, op: Op, quiet: nat)
    requires Inv(s) && SenderRuns.BackedOff(s, quiet)
    ensures SenderRuns.BackedOff(Told(s, op), Quiet(s, op, Told(s, op).acked, quiet))
    ensures Told(s, op).initialTimeout == s.initialTimeout
  {
    if op.Elapse? {
      SenderRuns.TickBacksOff(s, op.ms, quiet);
    } else if op.Arrive? {
      SenderRuns.AckResets(s, op.seg.header.ackno, op.seg.header.win, quiet);
    }
  }

  lemma TimesKept(s: Sender, op: Op, s': Sender, quiet: nat)
    requires Inv(s) && SameBooks(Told(s, op), s') && SenderRuns.BackedOff(s, quiet)
    ensures SenderRuns.BackedOff(s', Quiet(s, op, s'.acked, quiet))
    ensures s'.initialTimeout == s.initialTimeout
  {
    ToldTimes(s, op, quiet);
    SameBackOff(Told(s, op), s', Quiet(s, op, s'.acked, quiet));
  }

  /** The books agree with what was seen from outside. */
  lemma BooksKept(h: History, op: Op, s': Sender)
    requires Consistent(h) && SameBooks(Told(h.c.sender, op), s')
    ensures s'.window == if Passes(h.started, op) && op.seg.header.ack then op.seg.header.win else h.window
    ensures s'.stream.written == if op.Write? && Enabled(h.c, op) then h.input + op.data[..Accepted(h, op.data)] else h.input
    ensures s'.stream.ended == (h.closed || op.EndInput?)
  {
  }

  predicate Expires(s: Sender, op: Op) {
    op.Elapse? && s.acked < s.next && s.timer + op.ms >= s.timeout
  }

  /** Timer and count after an operation, as the history keeps them. */
  lemma ToldClock(s: Sender, op: Op)
    requires Inv(s)
    ensures var t := Told(s, op);
            var advanced := t.acked > s.acked;
            && t.timer == (if advanced || (op.Elapse? && s.acked == s.next) || Expires(s, op) then 0
                           else if op.Elapse? then s.timer + op.ms else s.timer)
            && t.tries == (if advanced then 0 else if Expires(s, op) && s.window != 0 then s.tries + 1 else s.tries)
  {
    if op.Arrive? { AckKeeps(s, op.seg.header.ackno, op.seg.header.win); }
  }

  lemma ClockKept(h: History, op: Op, h': History)
    requires Consistent(h) && h' == Extend(h, op) && SameBooks(Told(h.c.sender, op), h'.c.sender)
    ensures h'.c.sender.timer == h'.clock && h'.c.sender.tries == h'.attempts
  {
    ToldClock(h.c.sender, op);
    if op.Elapse? { OverdueIsDue(h, op.ms); }
  }

  /** Reading, and a write that nobody makes, change none of it. */
  lemma IdleKeeps(h: History, op: Op)
    requires Consistent(h) && (op.Read? || !Enabled(h.c, op))
    ensures Consistent(Extend(h, op))
  {
    var c' := ApplyKeeps(h.c, op);
  }

  lemma JudgedKeeps(h: History, op: Op, c1: Conn, h': History)
    requires Consistent(h) && Ready(h.c, op, c1) && h' == Extend(h, op) && h'.c == JudgeDo(c1) && h'.c.active && Coherent(c1)
    requires h'.silence == h'.c.timer && h'.attempts == h'.c.sender.tries
    ensures (h'.c.linger <==> !h'.passive) && Spent(h'.c.sender) && Going(h')
    ensures !h'.c.sender.stream.error && !h'.c.receiver.asm.out.error
  {
    LivesOn(c1);
  }

  lemma SynedKept(c: Conn)
    requires Coherent(c)
    ensures JudgeDo(c).sender.syned == c.sender.syned
  {
  }

  lemma ExtendKeeps(h: History, op: Op)
    requires Consistent(h)
    ensures Consistent(Extend(h, op))
  {
    if op.Read? || !Enabled(h.c, op) {
      IdleKeeps(h, op);
      return;
    }
    var c' := ApplyKeeps(h.c, op);
    Effects(h.c, op);
    TimesKept(h.c.sender, op, c'.sender, h.quiet);
    BooksKept(h, op, c'.sender);
    ClockKept(h, op, Extend(h, op));
    var c1 := Prepare(h.c, op);
    SynedKept(c1);
    WiredKept(h.c, c1);
    JudgeWired(c1);
    if c'.active { JudgedKeeps(h, op, c1, Extend(h, op)); }
  }

  ghost function RunOf(rtTimeout: u16, recvCapacity: nat, sendCapacity: nat, isn: u32, ops: seq<Op>): (h: History)
    ensures Consistent(h) && h.c.rtTimeout == rtTimeout
  {
    if ops == [] then
      assert Pow2(0) == 1;
      History(Connecting.Fresh(rtTimeout, recvCapacity, sendCapacity, isn), 0, 0, 1, false, false, false, [], false, 0, 0)
    else
      var h := RunOf(rtTimeout, recvCapacity, sendCapacity, isn, ops[..|ops| - 1]);
      ExtendKeeps(h, ops[|ops| - 1]);
      TimeoutKept(h.c, ops[|ops| - 1]);
      Extend(h, ops[|ops| - 1])
  }

  lemma TimeoutKept(c: Conn, op: Op)
    requires ConnInv(c)
    ensures Apply(c, op).rtTimeout == c.rtTimeout
  {
    var c' := ApplyKeeps(c, op);
  }

  // How a connection ends.

  /** Reading, and a write that nobody makes, neither reset nor end anything. */
  lemma IdleChanges(c: Conn, op: Op)
    requires ConnInv(c)
    ensures op.Read? || !Enabled(c, op) ==> Apply(c, op).rst == c.rst && Apply(c, op).active == c.active
  {
  }

  /** Only ticks count retransmissions. */
  lemma TicksCount(c: Conn, op: Op)
    requires ConnInv(c)
    ensures !op.Elapse? ==> Apply(c, op).sender.tries <= c.sender.tries
  {
    Effects(c, op);
  }

  lemma ResetCause(c: Conn, op: Op)
    requires ConnInv(c) && c.active && Apply(c, op).rst
    ensures var c' := Apply(c, op);
            && !c'.active && c'.sender.stream.error && c'.receiver.asm.out.error
            && |c.out| <= |c'.out| && ResetsFrom(c'.out, |c.out|)
            && (Resets(op) || (op.Elapse? && c'.sender.tries > MAX_RETX_ATTEMPTS && |c.out| < |c'.out|))
  {
    IdleChanges(c, op);
    var c1 := Prepare(c, op);
    EndsByReset(c1);
    TicksCount(c, op);
  }

  lemma GiveUpTakes(s: Sender, quiet: nat)
    requires SenderRuns.BackedOff(s, quiet) && s.tries == 9
    ensures quiet >= 511 * s.initialTimeout
  {
    assert Pow2(9) == 512;
  }

  /** The ways to end: a reset that arrived, giving up, and both streams finished. */
  ghost predicate EndedSo(h: History, op: Op, h': History) {
    || (h'.c.rst && h'.c.sender.stream.error && h'.c.receiver.asm.out.error && ResetsFrom(h'.c.out, |h.c.out|)
        && (Resets(op) || (op.Elapse? && h'.quiet >= 511 * h.c.rtTimeout && |h.c.out| < |h'.c.out|)))
    || (!h'.c.rst && !h'.c.sender.stream.error && !h'.c.receiver.asm.out.error
        && h'.c.sender.FullFined() && h'.c.receiver.FullFined() && (h.passive || h'.silence >= 10 * h.c.rtTimeout))
  }

  lemma EndsSo(h: History, op: Op)
    requires Consistent(h) && h.c.active && !Extend(h, op).c.active
    ensures EndedSo(h, op, Extend(h, op))
  {
    var c' := ApplyKeeps(h.c, op);
    ExtendKeeps(h, op);
    if c'.rst {
      ResetCause(h.c, op);
      Effects(h.c, op);
      if !Resets(op) { GiveUpTakes(c'.sender, Extend(h, op).quiet); }
    } else {
      CleanCause(h.c, op);
    }
  }

  lemma CleanCause(c: Conn, op: Op)
    requires ConnInv(c) && c.active && !Apply(c, op).active && !Apply(c, op).rst
    ensures SameErrors(c, Apply(c, op))
  {
    IdleChanges(c, op);
    var c1 := Prepare(c, op);
    EndsCleanly(c1);
  }

  /**
   * A connection ends in one of three ways: a reset arrived; nine timeouts in a
   * row went unanswered, which took at least 511 * rt_timeout, and a reset was
   * sent; or both streams finished, and either the peer finished first or
   * nothing arrived for 10 * rt_timeout. The first two put both streams in error.
   */
  lemma {:induction false} Ending(rtTimeout: u16, recvCapacity: nat, sendCapacity: nat, isn: u32, ops: seq<Op>, op: Op)
    requires RunOf(rtTimeout, recvCapacity, sendCapacity, isn, ops).c.active
    requires !RunOf(rtTimeout, recvCapacity, sendCapacity, isn, ops + [op]).c.active
    ensures EndedSo(RunOf(rtTimeout, recvCapacity, sendCapacity, isn, ops), op, RunOf(rtTimeout, recvCapacity, sendCapacity, isn, ops + [op]))
  {
    assert (ops + [op])[..|ops|] == ops;
    EndsSo(RunOf(rtTimeout, recvCapacity, sendCapacity, isn, ops), op);
  }

  /**
   * And it does end: at no time is a connection active that a reset has reached,
   * that has retransmitted more than 8 times in a row, or that has finished both
   * streams and either heard its peer finish first or heard nothing for 10 * rt_timeout.
   */
  lemma {:induction false} EndsInTime(rtTimeout: u16, recvCapacity: nat, sendCapacity: nat, isn: u32, ops: seq<Op>)
    ensures var h := RunOf(rtTimeout, recvCapacity, sendCapacity, isn, ops);
            h.c.active ==>
              && !h.reset && h.attempts <= 8
              && !(h.c.sender.FullFined() && h.c.receiver.FullFined() && (h.passive || h.silence >= 10 * rtTimeout))
  {
    var h := RunOf(rtTimeout, recvCapacity, sendCapacity, isn, ops);
  }

  // What a connection sends.

  /**
   * An active connection sends all it may: once anything made it open its SYN is
   * sent, and it stops only at the window last offered (or one number into a
   * closed one), after its FIN, or when it has sent all it was given and may get
   * more. Every number sent is in a packet for the network.
   */
  lemma {:induction false} NothingHeldBack(rtTimeout: u16, recvCapacity: nat, sendCapacity: nat, isn: u32, ops: seq<Op>)
    ensures var h := RunOf(rtTimeout, recvCapacity, sendCapacity, isn, ops);
            var s := h.c.sender;
            h.c.active ==>
              && s.syned == h.started && s.stream.written == h.input
              && (h.started ==>
                    s.fined || s.next - s.acked >= Max(1, h.window) || (s.next == 1 + |h.input| && !h.closed))
              && (forall n: nat :: n < s.next ==> Carried(h.c.out, n))
  {
    var h := RunOf(rtTimeout, recvCapacity, sendCapacity, isn, ops);
    if h.c.active {
      forall n: nat | n < h.c.sender.next ensures Carried(h.c.out, n) {
        assert Carried(h.c.out, n) || Queued(h.c.sender.out, n);
      }
    }
  }

  /**
   * An active connection retransmits when it should and only then: the first
   * packet out of a tick that is overdue carries the oldest outstanding segment,
   * and any other tick sends only numbers that were not sent before.
   */
  lemma {:induction false} ResendsInTime(rtTimeout: u16, recvCapacity: nat, sendCapacity: nat, isn: u32, ops: seq<Op>, ms: nat)
    requires RunOf(rtTimeout, recvCapacity, sendCapacity, isn, ops).c.active
    ensures var h, h' := RunOf(rtTimeout, recvCapacity, sendCapacity, isn, ops), RunOf(rtTimeout, recvCapacity, sendCapacity, isn, ops + [Elapse(ms)]);
            if Overdue(h, ms)
            then h.c.sender.sent != [] && |h.c.out| < |h'.c.out| && Carries(h'.c.out[|h.c.out|], h.c.sender.sent[0])
            else forall k :: |h.c.out| <= k < |h'.c.out| ==> h.c.sender.next <= h'.c.out[k].at
  {
    assert (ops + [Elapse(ms)])[..|ops|] == ops;
    StepResends(RunOf(rtTimeout, recvCapacity, sendCapacity, isn, ops), ms);
  }

  lemma OverdueIsDue(h: History, ms: nat)
    requires Consistent(h)
    ensures Overdue(h, ms) <==> Due(h.c.sender, ms)
  {
  }

  lemma StepResends(h: History, ms: nat)
    requires Consistent(h) && h.c.active
    ensures var c' := Extend(h, Elapse(ms)).c;
            if Overdue(h, ms)
            then h.c.sender.sent != [] && |h.c.out| < |c'.out| && Carries(c'.out[|h.c.out|], h.c.sender.sent[0])
            else forall k :: |h.c.out| <= k < |c'.out| ==> h.c.sender.next <= c'.out[k].at
  {
    OverdueIsDue(h, ms);
    var c' := TickSends(h.c, ms);
  }

  /** Whatever is sent resets, or acknowledges exactly what is assembled and offers exactly the room there is, up to 65535. */
  lemma {:induction false} SpeaksTruth(rtTimeout: u16, recvCapacity: nat, sendCapacity: nat, isn: u32, ops: seq<Op>, op: Op)
    ensures var h, h' := RunOf(rtTimeout, recvCapacity, sendCapacity, isn, ops), RunOf(rtTimeout, recvCapacity, sendCapacity, isn, ops + [op]);
            forall k :: |h.c.out| <= k < |h'.c.out| ==> Advertises(h'.c.out[k], h'.c.receiver)
  {
    assert (ops + [op])[..|ops|] == ops;
    StepSpeaks(RunOf(rtTimeout, recvCapacity, sendCapacity, isn, ops).c, op);
  }

  lemma StepSpeaks(c: Conn, op: Op)
    requires ConnInv(c)
    ensures var c' := Apply(c, op);
            c'.receiver.Inv() && forall k :: |c.out| <= k < |c'.out| ==> Advertises(c'.out[k], c'.receiver)
  {
    var c' := ApplyKeeps(c, op);
    if !op.Read? && Enabled(c, op) {
      var c1 := Prepare(c, op);
      forall k | |c.out| <= k < |c'.out| ensures Advertises(c'.out[k], c'.receiver) { JudgeAdvertises(c1, c', k); }
    }
  }
}
