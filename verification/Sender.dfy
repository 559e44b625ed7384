/** The sending half of a TCP endpoint. */
module Sending {
  import opened Types
  import opened WrappingIntegers
  import opened Segments
  import opened ByteStreams

  const MAX_PAYLOAD_SIZE: nat := 1000

  /** No stream carries 2^63 bytes, so 64-bit absolute numbers never wrap around. */
  const STREAM_LIMIT: nat := 0x8000_0000_0000_0000

  /** A queued segment and the absolute number that acknowledges all of it. */
  datatype Outstanding = Outstanding(expectedAck: nat, seg: TCPSegment)
  {
    /** The absolute number of the segment's first sequence number. */
    function At(): int {
      expectedAck - seg.LengthInSequenceSpace()
    }
  }

  datatype Sender = Sender(
    isn: u32, initialTimeout: u32, timeout: u32, stream: Stream,
    next: nat, acked: nat, sent: seq<Outstanding>, out: seq<Outstanding>,
    tries: nat, timer: nat, syned: bool, fined: bool, window: u16)
  {
    function InFlight(): int {
      next - acked
    }

    /** FIN sent and everything acknowledged. */
    function FullFined(): bool {
      fined && next == acked
    }

    function Write(data: seq<u8>): Sender
      requires stream.Valid()
    {
      this.(stream := stream.Write(data))
    }

    function EndInput(): Sender {
      this.(stream := stream.EndInput())
    }
  }

  function Fresh(capacity: nat, retxTimeout: u16, isn: u32): Sender {
    Sender(isn, retxTimeout, retxTimeout, ByteStreams.Fresh(capacity), 0, 0, [], [], 0, 0, false, false, 1)
  }

  /** The next segment, when `allow` sequence numbers may be used. */
  function Carve(s: Sender, allow: nat): TCPSegment
    requires s.stream.popped <= |s.stream.written| && allow >= 1
  {
    var room := if s.syned then allow else allow - 1;
    var n := Min(Min(MAX_PAYLOAD_SIZE, room), |s.stream.Buffer()|);
    var fin := room > n && s.stream.ended && n == |s.stream.Buffer()|;
    TCPSegment(BLANK.(syn := !s.syned, fin := fin, seqno := Wrap(s.next, s.isn)), s.stream.Buffer()[..n])
  }

  /** Queues the segment, and keeps it until it is acknowledged. */
  function Emit(s: Sender, seg: TCPSegment): Sender
    requires s.stream.popped <= |s.stream.written|
  {
    var e := Outstanding(s.next + seg.LengthInSequenceSpace(), seg);
    s.(stream := s.stream.Pop(|seg.payload|), next := e.expectedAck, sent := s.sent + [e], out := s.out + [e],
       syned := true, fined := seg.header.fin)
  }

  /** The loop of `fill_window`: `ex` is the extra number allowed into a closed window. */
  function FillFrom(s: Sender, ex: nat): (r: Sender)
    requires s.stream.Valid() && s.acked <= s.next
    ensures r.stream.Valid() && r.acked <= r.next
    decreases s.window + ex + s.acked - s.next
  {
    if s.fined || s.window + ex <= s.InFlight() then s
    else
      var seg := Carve(s, s.window + ex - s.InFlight());
      if seg.LengthInSequenceSpace() == 0 then s else FillFrom(Emit(s, seg), 0)
  }

  function Fill(s: Sender): Sender
    requires s.stream.Valid() && s.acked <= s.next
  {
    FillFrom(s, if s.window == 0 then 1 else 0)
  }

  /** Drops the acknowledged segments from the front. */
  function PopAcked(sent: seq<Outstanding>, acked: nat): seq<Outstanding> {
    if sent != [] && sent[0].expectedAck <= acked then PopAcked(sent[1..], acked) else sent
  }

  function AckReceived(s: Sender, ackno: u32, window: u16): Sender {
    var tmp := AckNumber(s, ackno);
    if tmp <= s.acked || tmp > s.next then s.(window := window)
    else if s.sent == [] then s.(window := window, acked := tmp)
    else s.(window := window, acked := tmp, timeout := s.initialTimeout, timer := 0, tries := 0,
            sent := PopAcked(s.sent, tmp))
  }

  function Tick(s: Sender, ms: nat): Sender {
    if s.sent == [] then s.(timer := 0)
    else if s.timer + ms < s.timeout then s.(timer := s.timer + ms)
    else Resend(s)
  }

  /** The oldest outstanding segment goes out again; the timer backs off unless the window is closed. */
  function Resend(s: Sender): Sender
    requires s.sent != []
  {
    s.(out := s.out + [s.sent[0]], timer := 0,
       timeout := if s.window == 0 then s.timeout else (2 * s.timeout) % 0x1_0000_0000,
       tries := if s.window == 0 then s.tries else s.tries + 1)
  }

  function SendEmpty(s: Sender): Sender {
    s.(out := s.out + [Outstanding(s.next, TCPSegment(BLANK.(seqno := Wrap(s.next, s.isn)), []))])
  }

  // What a sender keeps.

  /** Where the payload lies in the stream. */
  function DataStart(e: Outstanding): int {
    if e.seg.header.syn || e.At() == 0 then 0 else e.At() - 1
  }

  /** The segment says about the stream only what is true of it. */
  ghost predicate Genuine(e: Outstanding, s: Sender) {
    var h, k := e.seg.header, DataStart(e);
    && 0 <= e.At() && e.expectedAck <= s.next
    && h.seqno == Wrap(e.At(), s.isn)
    && (h.syn ==> e.At() == 0) && (e.seg.LengthInSequenceSpace() > 0 && !h.syn ==> e.At() >= 1)
    && (e.seg.payload != [] ==>
          && k + |e.seg.payload| <= s.stream.popped <= |s.stream.written|
          && e.seg.payload == s.stream.written[k..k + |e.seg.payload|])
    && (h.fin ==> s.fined && s.stream.ended && k + |e.seg.payload| == |s.stream.written|)
  }

  ghost predicate AllGenuine(es: seq<Outstanding>, s: Sender) {
    forall k :: 0 <= k < |es| ==> Genuine(es[k], s)
  }

  /** A sender leaves acknowledgment and reset to the connection. */
  ghost predicate Plain(es: seq<Outstanding>) {
    forall k :: 0 <= k < |es| ==> !es[k].seg.header.ack && !es[k].seg.header.rst
  }

  /** The segments follow each other without gap or overlap from lo to hi. */
  ghost predicate Tiles(es: seq<Outstanding>, lo: int, hi: int) {
    if es == [] then lo == hi
    else es[0].At() == lo < es[0].expectedAck && Tiles(es[1..], es[0].expectedAck, hi)
  }

  ghost predicate Inv(s: Sender) {
    && s.stream.Valid() && |s.stream.written| <= STREAM_LIMIT
    && s.acked <= s.next <= s.acked + TWO16 - 1
    && s.next == Num(s.syned) + s.stream.popped + Num(s.fined)
    && (!s.syned ==> s.stream.popped == 0 && !s.fined)
    && (s.fined ==> s.stream.ended && s.stream.popped == |s.stream.written|)
    && Tiles(s.sent, Low(s), s.next) && Low(s) <= s.acked && (s.sent == [] || s.acked < s.sent[0].expectedAck)
    && AllGenuine(s.sent, s) && AllGenuine(s.out, s) && Plain(s.sent) && Plain(s.out)
    && (s.sent == [] ==> s.timer == 0)
  }

  /** Where the outstanding segments begin. */
  function Low(s: Sender): int {
    if s.sent == [] then s.next else s.sent[0].At()
  }

  /** How a sender may change, as far as segments already sent can tell. */
  ghost predicate Extends(s: Sender, s': Sender) {
    && s'.isn == s.isn && s.stream.written <= s'.stream.written && s.stream.popped <= s'.stream.popped <= |s'.stream.written|
    && (s.stream.ended ==> s'.stream.ended && s'.stream.written == s.stream.written)
    && s.next <= s'.next && s.acked <= s'.acked
    && (s.syned ==> s'.syned) && (s.fined ==> s'.fined && s'.next == s.next)
  }

  lemma GenuineKept(e: Outstanding, s: Sender, s': Sender)
    requires Genuine(e, s) && Extends(s, s')
    ensures Genuine(e, s')
  {
    if e.seg.payload != [] {
      var k := DataStart(e);
      assert s'.stream.written[..|s.stream.written|] == s.stream.written;
      assert s'.stream.written[k..k + |e.seg.payload|] == s.stream.written[k..k + |e.seg.payload|];
    }
  }

  lemma AllGenuineKept(es: seq<Outstanding>, s: Sender, s': Sender)
    requires AllGenuine(es, s) && Extends(s, s')
    ensures AllGenuine(es, s')
  {
    forall k | 0 <= k < |es| ensures Genuine(es[k], s') { GenuineKept(es[k], s, s'); }
  }

  lemma ExtendsTransitive(s: Sender, s': Sender, s'': Sender)
    requires Extends(s, s') && Extends(s', s'')
    ensures Extends(s, s'')
  {
  }

  lemma {:induction false} TilesAppend(es: seq<Outstanding>, lo: int, hi: int, e: Outstanding)
    requires Tiles(es, lo, hi) && e.At() == hi < e.expectedAck
    ensures Tiles(es + [e], lo, e.expectedAck)
  {
    if es == [] {
      assert (es + [e])[1..] == [];
    } else {
      TilesAppend(es[1..], es[0].expectedAck, hi, e);
      assert (es + [e])[1..] == es[1..] + [e];
    }
  }

  lemma EmitGenuine(s: Sender, allow: nat)
    requires Inv(s) && !s.fined && 1 <= allow && Carve(s, allow).LengthInSequenceSpace() > 0
    ensures var seg := Carve(s, allow); Genuine(Outstanding(s.next + seg.LengthInSequenceSpace(), seg), Emit(s, seg))
  {
  }

  lemma EmitNumbers(s: Sender, allow: nat)
    requires Inv(s) && !s.fined && 1 <= allow && Carve(s, allow).LengthInSequenceSpace() > 0
    ensures var seg := Carve(s, allow); var s' := Emit(s, seg);
            && Extends(s, s') && s.next < s'.next <= s.next + allow && |seg.payload| <= MAX_PAYLOAD_SIZE
            && s'.stream.Valid() && s'.syned && s'.next == 1 + s'.stream.popped + Num(s'.fined)
            && (s'.fined ==> s'.stream.ended && s'.stream.popped == |s'.stream.written|)
  {
  }

  lemma CarveNothing(s: Sender, allow: nat)
    requires Inv(s) && !s.fined && 1 <= allow && Carve(s, allow).LengthInSequenceSpace() == 0
    ensures Exhausted(s)
  {
  }

  /** One segment carved and emitted. */
  lemma EmitKeeps(s: Sender, seg: TCPSegment, s': Sender, allow: nat)
    requires Inv(s) && !s.fined && 1 <= allow <= s.acked + TWO16 - 1 - s.next
    requires seg == Carve(s, allow) && seg.LengthInSequenceSpace() > 0 && s' == Emit(s, seg)
    ensures Inv(s') && s.next < s'.next
  {
    EmitNumbers(s, allow);
    EmitGenuine(s, allow);
    var e := s'.sent[|s.sent|];
    AppendGenuine(s.sent, e, s, s');
    AppendGenuine(s.out, e, s, s');
    TilesAppend(s.sent, Low(s), s.next, e);
  }

  lemma AppendGenuine(es: seq<Outstanding>, e: Outstanding, s: Sender, s': Sender)
    requires AllGenuine(es, s) && Extends(s, s') && Genuine(e, s')
    ensures AllGenuine(es + [e], s')
  {
    AllGenuineKept(es, s, s');
  }

  /** The segments that filling adds follow the earlier ones, are of bounded size and end by the limit. */
  ghost predicate Adds(sent: seq<Outstanding>, out: seq<Outstanding>, next: nat, s': Sender, limit: nat) {
    && |sent| <= |s'.sent|
    && var added := s'.sent[|sent|..];
       && s'.sent == sent + added && s'.out == out + added && Tiles(added, next, s'.next)
       && (forall k :: 0 <= k < |added| ==> |added[k].seg.payload| <= MAX_PAYLOAD_SIZE)
       && s'.next <= Max(next, limit)
  }

  /** The window lets no number past this one; a closed window counts as one. */
  function Limit(s: Sender): nat {
    s.acked + Max(1, s.window)
  }

  /** Filling touches nothing else. */
  ghost predicate Frames(s: Sender, s': Sender) {
    && s' == s.(stream := s'.stream, next := s'.next, sent := s'.sent, out := s'.out, syned := s'.syned, fined := s'.fined)
    && s'.stream == s.stream.(popped := s'.stream.popped)
  }

  /** Filling stops only at the limit, after FIN, or for want of bytes. */
  ghost predicate Exhausted(s: Sender) {
    s.fined || s.InFlight() >= Max(1, s.window) || (s.stream.popped == |s.stream.written| && !s.stream.ended)
  }

  lemma AddsStep(sent: seq<Outstanding>, out: seq<Outstanding>, next: nat, e: Outstanding, s': Sender, limit: nat)
    requires e.At() == next < e.expectedAck <= limit && |e.seg.payload| <= MAX_PAYLOAD_SIZE
    requires Adds(sent + [e], out + [e], e.expectedAck, s', limit)
    ensures Adds(sent, out, next, s', limit)
  {
    var added, rest := s'.sent[|sent|..], s'.sent[|sent| + 1..];
    assert added == [e] + rest && added[1..] == rest;
    assert s'.sent == sent + added && s'.out == out + added;
  }

  ghost predicate FillResult(s: Sender, s': Sender, limit: nat) {
    Inv(s') && Extends(s, s') && Frames(s, s') && Adds(s.sent, s.out, s.next, s', limit) && Exhausted(s')
  }

  lemma AddsNothing(s: Sender, limit: nat)
    ensures Adds(s.sent, s.out, s.next, s, limit)
  {
    assert s.sent[|s.sent|..] == [];
    assert s.sent + [] == s.sent && s.out + [] == s.out;
  }

  lemma FillStep(s: Sender, seg: TCPSegment, s1: Sender, s': Sender, allow: nat, limit: nat)
    requires Inv(s) && !s.fined && 1 <= allow && s.next + allow <= limit
    requires seg == Carve(s, allow) && seg.LengthInSequenceSpace() > 0 && s1 == Emit(s, seg)
    requires Extends(s1, s') && Frames(s1, s') && Adds(s1.sent, s1.out, s1.next, s', limit)
    ensures Extends(s, s') && Frames(s, s') && Adds(s.sent, s.out, s.next, s', limit)
  {
    EmitNumbers(s, allow);
    ExtendsTransitive(s, s1, s');
    AddsStep(s.sent, s.out, s.next, s1.sent[|s.sent|], s', limit);
  }

  /** The loop of `fill_window` has another segment to send. */
  predicate Sends(s: Sender, ex: nat)
    requires s.stream.Valid() && s.acked <= s.next
  {
    !s.fined && s.window + ex > s.InFlight() && Carve(s, s.window + ex - s.InFlight()).LengthInSequenceSpace() != 0
  }

  lemma FillOnce(s: Sender, ex: nat) returns (allow: nat, seg: TCPSegment, s1: Sender)
    requires Inv(s) && ex <= 1 && (ex == 1 ==> s.window == 0) && Sends(s, ex)
    ensures allow == s.window + ex - s.InFlight() && 1 <= allow && s.next + allow <= Limit(s)
    ensures seg == Carve(s, allow) && seg.LengthInSequenceSpace() > 0 && s1 == Emit(s, seg) && FillFrom(s, ex) == FillFrom(s1, 0)
    ensures Inv(s1) && s.next < s1.next && Limit(s1) == Limit(s) && s1.window == s.window && s1.acked == s.acked
  {
    allow := s.window + ex - s.InFlight();
    seg := Carve(s, allow);
    s1 := Emit(s, seg);
    EmitKeeps(s, seg, s1, allow);
  }

  lemma {:induction false} FillInv(s: Sender, ex: nat) returns (s': Sender)
    requires Inv(s) && ex <= 1 && (ex == 1 ==> s.window == 0) && (s.window + ex >= 1 || s.InFlight() >= 1)
    ensures s' == FillFrom(s, ex) && Inv(s') && Exhausted(s')
    decreases s.window + ex + s.acked - s.next
  {
    s' := s;
    if Sends(s, ex) {
      var allow, seg, s1 := FillOnce(s, ex);
      s' := FillInv(s1, 0);
    } else if !s.fined && s.window + ex > s.InFlight() {
      CarveNothing(s, s.window + ex - s.InFlight());
    }
  }

  lemma {:induction false} FillAdds(s: Sender, ex: nat, limit: nat) returns (s': Sender)
    requires Inv(s) && ex <= 1 && (ex == 1 ==> s.window == 0) && limit == Limit(s)
    ensures s' == FillFrom(s, ex) && Extends(s, s') && Frames(s, s') && Adds(s.sent, s.out, s.next, s', limit)
    decreases s.window + ex + s.acked - s.next
  {
    if Sends(s, ex) {
      var allow, seg, s1 := FillOnce(s, ex);
      s' := FillAdds(s1, 0, limit);
      FillStep(s, seg, s1, s', allow, limit);
    } else {
      s' := s;
      AddsNothing(s, limit);
    }
  }

  /** `fill_window`: the invariant is kept, no number passes last acked + max(1, window), and it stops for a reason. */
  lemma FillKeeps(s: Sender) returns (s': Sender)
    requires Inv(s)
    ensures s' == Fill(s) && FillResult(s, s', Limit(s))
  {
    var ex := if s.window == 0 then 1 else 0;
    s' := FillInv(s, ex);
    var s'' := FillAdds(s, ex, Limit(s));
  }

  /** All segments but the last are as large as a segment may be. */
  ghost predicate Whole(es: seq<Outstanding>) {
    forall k :: 0 <= k < |es| - 1 ==> |es[k].seg.payload| == 1000
  }

  /** After a segment that is not full there is nothing more to send. */
  lemma {:induction false} ShortIsLast(s: Sender, seg: TCPSegment, s1: Sender, allow: nat)
    requires Inv(s) && !s.fined && 1 <= allow && s.InFlight() <= s.window + 1 && s.window - s.InFlight() <= allow
    requires seg == Carve(s, allow) && s1 == Emit(s, seg) && Inv(s1) && |seg.payload| < 1000
    ensures FillFrom(s1, 0) == s1
  {
  }

  lemma {:induction false} FillWhole(s: Sender, ex: nat) returns (s': Sender)
    requires Inv(s) && ex <= 1 && (ex == 1 ==> s.window == 0)
    ensures s' == FillFrom(s, ex) && s.sent <= s'.sent && Whole(s'.sent[|s.sent|..])
    decreases s.window + ex + s.acked - s.next
  {
    s' := s;
    if Sends(s, ex) {
      var allow, seg, s1 := FillOnce(s, ex);
      s' := FillWhole(s1, 0);
      if |seg.payload| < 1000 { ShortIsLast(s, seg, s1, allow); }
      WholeStep(s.sent, Outstanding(s1.next, seg), s'.sent);
    }
  }

  lemma WholeStep(sent: seq<Outstanding>, e: Outstanding, all: seq<Outstanding>)
    requires sent + [e] <= all && Whole(all[|sent + [e]|..]) && (|e.seg.payload| == 1000 || all == sent + [e])
    ensures sent <= all && Whole(all[|sent|..])
  {
    assert all[|sent|..] == [e] + all[|sent| + 1..];
  }

  /** Filling sends as few segments as it can: all that it adds but the last carry 1000 bytes. */
  lemma {:induction false} FillFull(s: Sender)
    requires Inv(s)
    ensures |s.sent| <= |Fill(s).sent| && Whole(Fill(s).sent[|s.sent|..])
  {
    var s' := FillWhole(s, if s.window == 0 then 1 else 0);
  }

  /** What is left after an acknowledgment is the suffix of segments that end beyond it. */
  lemma {:induction false} PopKeeps(sent: seq<Outstanding>, lo: int, hi: int, acked: nat)
    requires Tiles(sent, lo, hi) && lo <= acked <= hi
    ensures var p := PopAcked(sent, acked);
            && |p| <= |sent| && p == sent[|sent| - |p|..]
            && (forall k :: 0 <= k < |sent| - |p| ==> sent[k].expectedAck <= acked)
            && (p == [] ==> acked == hi)
            && (p != [] ==> p[0].At() <= acked < p[0].expectedAck && Tiles(p, p[0].At(), hi))
  {
    if sent != [] && sent[0].expectedAck <= acked {
      TilesOrder(sent[1..], sent[0].expectedAck, hi);
      PopKeeps(sent[1..], sent[0].expectedAck, hi, acked);
    }
  }

  lemma {:induction false} TilesOrder(es: seq<Outstanding>, lo: int, hi: int)
    requires Tiles(es, lo, hi)
    ensures lo <= hi
  {
    if es != [] { TilesOrder(es[1..], es[0].expectedAck, hi); }
  }

  /** The absolute number that the sender reads out of an acknowledgment. */
  function AckNumber(s: Sender, ackno: u32): u64 {
    Unwrap(ackno, s.isn, Low64(s.acked))
  }

  lemma AckNumberOf(s: Sender, x: nat)
    requires s.acked < TWO64 && x < TWO64 && Abs(x - s.acked) < TWO31
    ensures AckNumber(s, Wrap(x, s.isn)) == x
  {
    Low64InRange(s.acked);
    UnwrapRecovers(x, s.isn, s.acked);
  }

  /** An acknowledgment advances the sender exactly when it is the wrap of a number in (acked, next]. */
  lemma AckAccepted(s: Sender, ackno: u32, window: u16)
    requires Inv(s)
    ensures AckReceived(s, ackno, window).acked > s.acked <==>
            exists x: nat :: s.acked < x <= s.next && ackno == Wrap(x, s.isn)
    ensures forall x: nat :: s.acked < x <= s.next && ackno == Wrap(x, s.isn) ==>
              AckReceived(s, ackno, window).acked == x
  {
    assert s.next < TWO64 && s.next - s.acked < TWO31;
    forall x: nat | s.acked < x <= s.next && ackno == Wrap(x, s.isn) ensures AckNumber(s, ackno) == x {
      AckNumberOf(s, x);
    }
    var tmp := AckNumber(s, ackno);
    assert ackno == Wrap(tmp, s.isn) by { UnwrapWraps(ackno, s.isn, Low64(s.acked)); }
  }

  lemma AckKeeps(s: Sender, ackno: u32, window: u16)
    requires Inv(s)
    ensures var s' := AckReceived(s, ackno, window);
            && Inv(s') && Extends(s, s') && s' == s.(window := window, acked := s'.acked, sent := s'.sent,
                 timeout := s'.timeout, timer := s'.timer, tries := s'.tries)
  {
    var s' := AckReceived(s, ackno, window);
    if s'.acked != s.acked {
      PopKeeps(s.sent, Low(s), s.next, s'.acked);
      assert Extends(s, s');
      AllGenuineKept(s.out, s, s');
      AllGenuineKept(s.sent, s, s');
    } else {
      SameGenuine(s, s');
    }
  }

  lemma SameGenuine(s: Sender, s': Sender)
    requires AllGenuine(s.sent, s) && AllGenuine(s.out, s) && s.stream.Valid()
    requires s' == s.(window := s'.window, timer := s'.timer, timeout := s'.timeout, tries := s'.tries)
    ensures Extends(s, s') && AllGenuine(s.sent, s') && AllGenuine(s.out, s')
  {
    AllGenuineKept(s.out, s, s');
    AllGenuineKept(s.sent, s, s');
  }

  lemma TickKeeps(s: Sender, ms: nat)
    requires Inv(s)
    ensures Inv(Tick(s, ms)) && Extends(s, Tick(s, ms))
  {
    var s' := Tick(s, ms);
    SameGenuine(s, s'.(out := s.out));
    if s'.out != s.out { AppendGenuine(s.out, s.sent[0], s, s'); }
    AllGenuineKept(s.sent, s, s');
  }

  lemma SendEmptyKeeps(s: Sender)
    requires Inv(s)
    ensures Inv(SendEmpty(s)) && Extends(s, SendEmpty(s))
  {
    var s' := SendEmpty(s);
    AllGenuineKept(s.sent, s, s');
    AppendGenuine(s.out, s'.out[|s.out|], s, s');
  }

  lemma WriteKeeps(s: Sender, data: seq<u8>)
    requires Inv(s) && !s.stream.ended && |s.stream.written| + |data| <= STREAM_LIMIT
    ensures Inv(s.Write(data)) && Extends(s, s.Write(data))
  {
    var s' := s.Write(data);
    AllGenuineKept(s.sent, s, s');
    AllGenuineKept(s.out, s, s');
  }

  lemma EndInputKeeps(s: Sender)
    requires Inv(s)
    ensures Inv(s.EndInput()) && Extends(s, s.EndInput())
  {
    var s' := s.EndInput();
    AllGenuineKept(s.sent, s, s');
    AllGenuineKept(s.out, s, s');
  }
}
