/** Whole runs of a sender: tiling of the sequence space and the retransmission timer. */
module SenderRuns {
  import opened Types
  import opened WrappingIntegers
  import opened Sending

  datatype Op = Write(data: seq<u8>) | EndInput | FillWindow | Ack(ackno: u32, window: u16) | Elapse(ms: nat) | Empty

  /**
   * A sender, every segment it has sent for the first time, and what was seen
   * from outside: the time since it last accepted an acknowledgment, the time
   * that something was outstanding since then or since the last retransmission,
   * and the retransmissions into an open window since then.
   */
  datatype Traced = Traced(s: Sender, log: seq<Outstanding>, quiet: nat, clock: nat, attempts: nat, window: u16)

  /** Nobody writes after the end of input, nor more than a stream can hold. */
  predicate Enabled(s: Sender, op: Op) {
    op.Write? ==> !s.stream.ended && |s.stream.written| + |op.data| <= STREAM_LIMIT
  }

  function Apply(s: Sender, op: Op): Sender
    requires s.stream.Valid() && s.acked <= s.next
  {
    match op
    case Write(data) => if Enabled(s, op) then s.Write(data) else s
    case EndInput => s.EndInput()
    case FillWindow => Fill(s)
    case Ack(ackno, window) => AckReceived(s, ackno, window)
    case Elapse(ms) => Tick(s, ms)
    case Empty => SendEmpty(s)
  }

  lemma ApplyKeeps(s: Sender, op: Op)
    requires Inv(s)
    ensures Inv(Apply(s, op)) && Extends(s, Apply(s, op))
  {
    match op
    case Write(data) => if Enabled(s, op) { WriteKeeps(s, data); }
    case EndInput => EndInputKeeps(s);
    case FillWindow => var s' := FillKeeps(s);
    case Ack(ackno, window) => AckKeeps(s, ackno, window);
    case Elapse(ms) => TickKeeps(s, ms);
    case Empty => SendEmptyKeeps(s);
  }

  function Step(t: Traced, op: Op): Traced
    requires t.s.stream.Valid() && t.s.acked <= t.s.next
  {
    var s' := Apply(t.s, op);
    var advanced, resent := s'.acked > t.s.acked, op.Elapse? && |s'.out| > |t.s.out|;
    Traced(s',
           if op.FillWindow? && |t.s.sent| <= |s'.sent| then t.log + s'.sent[|t.s.sent|..] else t.log,
           if op.Elapse? then t.quiet + op.ms else if advanced then 0 else t.quiet,
           if advanced || resent || (op.Elapse? && t.s.acked == t.s.next) then 0 else if op.Elapse? then t.clock + op.ms else t.clock,
           if advanced then 0 else if resent && t.window != 0 then t.attempts + 1 else t.attempts,
           if op.Ack? then op.window else t.window)
  }

  ghost function Run(capacity: nat, retxTimeout: u16, isn: u32, ops: seq<Op>): (t: Traced)
    ensures Inv(t.s)
  {
    if ops == [] then Traced(Fresh(capacity, retxTimeout, isn), [], 0, 0, 0, 1)
    else
      var t, op := Run(capacity, retxTimeout, isn, ops[..|ops| - 1]), ops[|ops| - 1];
      ApplyKeeps(t.s, op);
      Step(t, op)
  }

  /** The outstanding queue is the part of the log that ends beyond the last acknowledged number. */
  ghost predicate Suffix(log: seq<Outstanding>, sent: seq<Outstanding>, acked: nat) {
    && |sent| <= |log| && log[|log| - |sent|..] == sent
    && (forall k :: 0 <= k < |log| ==> (log[k].expectedAck <= acked <==> k < |log| - |sent|))
  }

  lemma {:induction false} TilesConcat(a: seq<Outstanding>, b: seq<Outstanding>, lo: int, mid: int, hi: int)
    requires Tiles(a, lo, mid) && Tiles(b, mid, hi)
    ensures Tiles(a + b, lo, hi)
  {
    if a == [] {
      assert a + b == b;
    } else {
      TilesConcat(a[1..], b, a[0].expectedAck, mid, hi);
      assert (a + b)[1..] == a[1..] + b;
    }
  }

  lemma {:induction false} TilesBeyond(es: seq<Outstanding>, lo: int, hi: int, k: nat)
    requires Tiles(es, lo, hi) && k < |es|
    ensures lo < es[k].expectedAck && es[0].expectedAck <= es[k].expectedAck
  {
    if k > 0 { TilesBeyond(es[1..], es[0].expectedAck, hi, k - 1); }
  }

  lemma {:induction false} SuffixGrows(log: seq<Outstanding>, sent: seq<Outstanding>, acked: nat, added: seq<Outstanding>, lo: nat, hi: nat)
    requires Suffix(log, sent, acked) && Tiles(added, lo, hi) && acked <= lo
    ensures Suffix(log + added, sent + added, acked)
  {
    forall k | 0 <= k < |added| ensures added[k].expectedAck > acked {
      TilesBeyond(added, lo, hi, k);
    }
    assert (log + added)[|log| - |sent|..] == sent + added;
  }

  lemma {:induction false} SuffixShrinks(log: seq<Outstanding>, sent: seq<Outstanding>, acked: nat, p: seq<Outstanding>, acked': nat, lo: int, hi: int)
    requires Suffix(log, sent, acked) && acked <= acked'
    requires |p| <= |sent| && p == sent[|sent| - |p|..]
    requires forall k :: 0 <= k < |sent| - |p| ==> sent[k].expectedAck <= acked'
    requires p != [] ==> acked' < p[0].expectedAck && Tiles(p, lo, hi)
    ensures Suffix(log, p, acked')
  {
    var n, n' := |log| - |sent|, |log| - |p|;
    forall k | 0 <= k < |log| ensures log[k].expectedAck <= acked' <==> k < n' {
      if k >= n' {
        assert log[k] == sent[k - n] == p[k - n'];
        TilesBeyond(p, lo, hi, k - n');
      } else if k >= n {
        assert log[k] == sent[k - n];
      }
    }
  }

  lemma AckSuffix(t: Traced, ackno: u32, window: u16)
    requires Inv(t.s) && Suffix(t.log, t.s.sent, t.s.acked)
    ensures var s' := AckReceived(t.s, ackno, window); Suffix(t.log, s'.sent, s'.acked)
  {
    var s, s' := t.s, AckReceived(t.s, ackno, window);
    if s'.acked != s.acked {
      PopKeeps(s.sent, Low(s), s.next, s'.acked);
      SuffixShrinks(t.log, s.sent, s.acked, s'.sent, s'.acked, if s'.sent == [] then 0 else s'.sent[0].At(), s.next);
    }
  }

  ghost predicate Logged(log: seq<Outstanding>, s: Sender) {
    Tiles(log, 0, s.next) && AllGenuine(log, s) && Suffix(log, s.sent, s.acked)
  }

  lemma FillLogged(log: seq<Outstanding>, s: Sender, s': Sender, limit: nat)
    requires Logged(log, s) && s.acked <= s.next && s'.acked == s.acked
    requires Adds(s.sent, s.out, s.next, s', limit) && Extends(s, s') && AllGenuine(s'.sent, s')
    ensures Logged(log + s'.sent[|s.sent|..], s')
  {
    var added := s'.sent[|s.sent|..];
    SuffixGrows(log, s.sent, s.acked, added, s.next, s'.next);
    TilesConcat(log, added, 0, s.next, s'.next);
    AllGenuineKept(log, s, s');
    forall k | 0 <= k < |added| ensures Genuine(added[k], s') {
      assert added[k] == s'.sent[|s.sent| + k];
    }
  }

  lemma StepKeeps(t: Traced, op: Op)
    requires Inv(t.s) && Logged(t.log, t.s)
    ensures Logged(Step(t, op).log, Step(t, op).s)
  {
    var s' := Apply(t.s, op);
    if op.FillWindow? {
      var s'' := FillKeeps(t.s);
      FillLogged(t.log, t.s, s'', Limit(t.s));
    } else {
      ApplyKeeps(t.s, op);
      QueueKept(t, op, s');
      AllGenuineKept(t.log, t.s, s');
    }
  }

  lemma QueueKept(t: Traced, op: Op, s': Sender)
    requires Inv(t.s) && Suffix(t.log, t.s.sent, t.s.acked) && !op.FillWindow? && s' == Apply(t.s, op)
    ensures s'.next == t.s.next && Suffix(t.log, s'.sent, s'.acked)
  {
    if op.Ack? { AckSuffix(t, op.ackno, op.window); }
  }

  /**
   * In every run the segments sent for the first time tile [0, next), where next
   * counts SYN, bytes read and FIN; each carries the matching slice of the
   * written stream; the outstanding queue is exactly the suffix that ends beyond
   * the last acknowledged number, so its front covers the oldest unacknowledged one.
   */
  lemma {:induction false} Tiling(capacity: nat, retxTimeout: u16, isn: u32, ops: seq<Op>)
    ensures var t := Run(capacity, retxTimeout, isn, ops);
            && Tiles(t.log, 0, t.s.next) && AllGenuine(t.log, t.s) && Suffix(t.log, t.s.sent, t.s.acked)
            && t.s.next == Num(t.s.syned) + t.s.stream.popped + Num(t.s.fined)
            && (t.s.acked < t.s.next ==> t.s.sent != [] && t.s.sent[0].At() <= t.s.acked < t.s.sent[0].expectedAck)
            && t.s.next - t.s.acked < TWO16
  {
    RunLogged(capacity, retxTimeout, isn, ops);
  }

  lemma {:induction false} RunLogged(capacity: nat, retxTimeout: u16, isn: u32, ops: seq<Op>)
    ensures var t := Run(capacity, retxTimeout, isn, ops); Logged(t.log, t.s)
  {
    if ops != [] {
      var n := |ops| - 1;
      RunLogged(capacity, retxTimeout, isn, ops[..n]);
      StepKeeps(Run(capacity, retxTimeout, isn, ops[..n]), ops[n]);
    }
  }

  // The retransmission timer.

  /** The back-off, in 32-bit arithmetic, and the time that must have passed for it to get there. */
  ghost predicate BackedOff(s: Sender, quiet: nat) {
    && s.initialTimeout < TWO16
    && s.timeout == (s.initialTimeout * Pow2(s.tries)) % 0x1_0000_0000
    && (s.tries <= 16 ==> quiet >= s.initialTimeout * (Pow2(s.tries) - 1) + s.timer)
  }

  lemma {:induction false} PowMonotone(m: nat, n: nat)
    requires m <= n
    ensures 1 <= Pow2(m) <= Pow2(n)
  {
    if m < n { PowMonotone(m, n - 1); }
  }

  lemma {:induction false} ExactTimeout(initial: nat, tries: nat)
    requires initial <= 0xFFFF && tries <= 16
    ensures initial * Pow2(tries) < 0x1_0000_0000
  {
    PowMonotone(tries, 16);
    PowSixteen();
    Product(initial, 0xFFFF, Pow2(tries), 0x1_0000);
  }

  lemma PowSixteen()
    ensures Pow2(16) == 0x1_0000
  {
    assert Pow2(4) == 16;
    assert Pow2(8) == 16 * Pow2(4);
    assert Pow2(12) == 16 * Pow2(8);
    assert Pow2(16) == 16 * Pow2(12);
  }

  lemma Product(a: nat, b: nat, c: nat, d: nat)
    requires a <= b && c <= d
    ensures a * c <= b * d
  {
    assert a * c <= b * c && b * c <= b * d;
  }

  lemma TickBacksOff(s: Sender, ms: nat, quiet: nat)
    requires BackedOff(s, quiet)
    ensures BackedOff(Tick(s, ms), quiet + ms)
  {
    var s' := Tick(s, ms);
    if s'.tries != s.tries {
      Doubling(s.initialTimeout, Pow2(s.tries), s.timeout, s.timer, ms, quiet);
      if s'.tries <= 16 { ExactTimeout(s.initialTimeout, s.tries); }
    }
  }

  /** One more doubling, with p = 2^tries. */
  lemma Doubling(initial: nat, p: nat, timeout: nat, timer: nat, ms: nat, quiet: nat)
    requires timeout == (initial * p) % 0x1_0000_0000 && timer + ms >= timeout
    ensures (2 * timeout) % 0x1_0000_0000 == (initial * (2 * p)) % 0x1_0000_0000
    ensures initial * p < 0x1_0000_0000 && quiet >= initial * (p - 1) + timer ==> quiet + ms >= initial * (2 * p - 1)
  {
    assert initial * (2 * p) == 2 * (initial * p);
    DoubleResidue(initial * p);
    Distribute(initial, p);
  }

  lemma DoubleResidue(p: nat)
    ensures (2 * (p % 0x1_0000_0000)) % 0x1_0000_0000 == (2 * p) % 0x1_0000_0000
  {
    ReduceFirst(p, p % 0x1_0000_0000);
    ReduceFirst(p, p);
  }

  lemma Distribute(a: nat, p: nat)
    ensures a * (2 * p - 1) == a * (p - 1) + a * p
  {
    assert 2 * p - 1 == (p - 1) + p;
  }

  lemma StepBacksOff(t: Traced, op: Op)
    requires Inv(t.s) && BackedOff(t.s, t.quiet)
    ensures BackedOff(Step(t, op).s, Step(t, op).quiet)
  {
    match op
    case FillWindow => var s' := FillKeeps(t.s);
    case Ack(ackno, window) => AckResets(t.s, ackno, window, t.quiet);
    case Elapse(ms) => TickBacksOff(t.s, ms, t.quiet);
    case _ =>
  }

  lemma AckResets(s: Sender, ackno: u32, window: u16, quiet: nat)
    requires Inv(s) && BackedOff(s, quiet)
    ensures var s' := AckReceived(s, ackno, window); BackedOff(s', if s'.acked > s.acked then 0 else quiet)
  {
    assert Pow2(0) == 1;
    assert (s.initialTimeout * 1) % 0x1_0000_0000 == s.initialTimeout;
  }

  lemma {:induction false} RunBacksOff(capacity: nat, retxTimeout: u16, isn: u32, ops: seq<Op>)
    ensures var t := Run(capacity, retxTimeout, isn, ops);
            BackedOff(t.s, t.quiet) && t.s.initialTimeout == retxTimeout
  {
    if ops == [] {
      assert Pow2(0) == 1;
    } else {
      var n := |ops| - 1;
      RunBacksOff(capacity, retxTimeout, isn, ops[..n]);
      var t := Run(capacity, retxTimeout, isn, ops[..n]);
      StepBacksOff(t, ops[n]);
      InitialKept(t.s, ops[n]);
    }
  }

  /** In every run the timeout is the initial one doubled once per consecutive retransmission, and that took its time. */
  lemma {:induction false} BackOff(capacity: nat, retxTimeout: u16, isn: u32, ops: seq<Op>)
    ensures var t := Run(capacity, retxTimeout, isn, ops);
            && t.s.timeout == (retxTimeout * Pow2(t.s.tries)) % 0x1_0000_0000
            && (t.s.sent == [] ==> t.s.timer == 0)
            && (t.s.tries <= 16 ==>
                  && t.s.timeout == retxTimeout * Pow2(t.s.tries)
                  && t.quiet >= retxTimeout * (Pow2(t.s.tries) - 1) + t.s.timer)
  {
    RunBacksOff(capacity, retxTimeout, isn, ops);
    var t := Run(capacity, retxTimeout, isn, ops);
    Sharpen(t.s, t.quiet);
  }

  lemma Sharpen(s: Sender, quiet: nat)
    requires BackedOff(s, quiet)
    ensures s.tries <= 16 ==> s.timeout == s.initialTimeout * Pow2(s.tries)
  {
    if s.tries <= 16 { ExactTimeout(s.initialTimeout, s.tries); }
  }

  lemma InitialKept(s: Sender, op: Op)
    requires Inv(s)
    ensures Apply(s, op).initialTimeout == s.initialTimeout
  {
    if op.FillWindow? { var s' := FillKeeps(s); }
  }

  // When a retransmission happens.

  /** The timer and the counter are what was seen from outside. */
  ghost predicate Clocked(t: Traced) {
    t.s.timer == t.clock && t.s.tries == t.attempts && t.s.window == t.window
  }

  lemma StepClocked(t: Traced, op: Op)
    requires Inv(t.s) && Clocked(t)
    ensures Clocked(Step(t, op))
  {
    match op
    case FillWindow => var s' := FillKeeps(t.s);
    case Ack(ackno, window) => AckKeeps(t.s, ackno, window);
    case _ =>
  }

  lemma {:induction false} RunClocked(capacity: nat, retxTimeout: u16, isn: u32, ops: seq<Op>)
    ensures Clocked(Run(capacity, retxTimeout, isn, ops))
  {
    if ops != [] {
      var n := |ops| - 1;
      RunClocked(capacity, retxTimeout, isn, ops[..n]);
      StepClocked(Run(capacity, retxTimeout, isn, ops[..n]), ops[n]);
    }
  }

  /**
   * In every run, a tick queues the oldest outstanding segment again if and only
   * if something is outstanding and the time since the last retransmission or
   * accepted acknowledgment has reached the initial timeout, doubled once for
   * each retransmission into an open window; otherwise it queues nothing.
   */
  lemma {:induction false} Retransmission(capacity: nat, retxTimeout: u16, isn: u32, ops: seq<Op>, ms: nat)
    ensures var t := Run(capacity, retxTimeout, isn, ops);
            Tick(t.s, ms).out ==
            if t.s.acked < t.s.next && t.clock + ms >= (retxTimeout * Pow2(t.attempts)) % 0x1_0000_0000
            then t.s.out + [t.s.sent[0]] else t.s.out
  {
    RunClocked(capacity, retxTimeout, isn, ops);
    RunBacksOff(capacity, retxTimeout, isn, ops);
  }

  /** An acknowledgment that is not accepted changes nothing but the window. */
  lemma AckRejected(s: Sender, ackno: u32, window: u16)
    requires AckReceived(s, ackno, window).acked == s.acked
    ensures AckReceived(s, ackno, window) == s.(window := window)
  {
  }
}
