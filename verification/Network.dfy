/**
 * Two endpoints and a network that holds every packet ever emitted and may
 * deliver any of them at any time, any number of times, or never.
 */
module Network {
  import opened Types
  import opened WrappingIntegers
  import opened Segments
  import opened Sending
  import opened Connecting
  import opened ConnectionProofs
  import opened ConnectionEffects
  import Reassembly
  import Receiving

  // What reaches the far half of an endpoint.

  /** The bytes handed to the network for the first time so far. */
  function Launched(s: Sender): seq<u8>
    requires s.stream.popped <= |s.stream.written|
  {
    s.stream.written[..s.stream.popped]
  }

  /** The receiver holds nothing but pieces of what the sender has sent. */
  ghost predicate Hears(s: Sender, r: Receiving.Receiver) {
    && s.stream.popped <= |s.stream.written|
    && (r.syn ==> s.syned && r.isn == s.isn)
    && Reassembly.Follows(r.asm, Launched(s))
    && (r.asm.eof ==> s.fined && r.asm.eofIndex == |s.stream.written|)
  }

  /** The receiver never acknowledges what has not been sent. */
  lemma AckWithinSent(s: Sender, r: Receiving.Receiver)
    requires Inv(s) && r.Inv() && Hears(s, r)
    ensures r.AckAbs() <= s.next
  {
  }

  /** Near enough to the receiver's checkpoint for 32 bits to tell both its number and the one before. */
  predicate Near(r: Receiving.Receiver, at: int) {
    -TWO31 < r.lastAbseqno - at < TWO31 - 1
  }

  lemma NumbersRecovered(s: Sender, r: Receiving.Receiver, at: nat)
    requires Inv(s) && r.Inv() && Hears(s, r) && r.syn
    requires at <= s.next && Near(r, at)
    ensures Unwrap(Wrap(at, r.isn), r.isn, Low64(r.lastAbseqno)) == at
    ensures at >= 1 ==> Unwrap(Plus(Wrap(at, r.isn), -1), r.isn, Low64(r.lastAbseqno)) == at - 1
  {
    AckWithinSent(s, r);
    Low64InRange(r.lastAbseqno);
    UnwrapRecovers(at, r.isn, r.lastAbseqno);
    if at >= 1 {
      WrapPlus(at, -1, r.isn);
      UnwrapRecovers(at - 1, r.isn, r.lastAbseqno);
    }
  }

  /** Where the receiver puts a packet is where its bytes come from. */
  lemma PlacedRight(s: Sender, r: Receiving.Receiver, p: Packet)
    requires Inv(s) && r.Inv() && Hears(s, r)
    requires 0 <= p.at && Genuine(Entry(p), s) && Near(r, p.at)
    requires !Receiving.Ignores(r, p.seg.header)
    ensures Receiving.StreamIndex(r, p.seg.header) == DataStart(Entry(p))
    ensures p.seg.header.syn ==> p.seg.header.seqno == s.isn && s.syned
  {
    assert Entry(p).At() == p.at;
    if r.syn {
      NumbersRecovered(s, r, p.at);
    } else {
      WrapPlus(0, 0, s.isn);
    }
  }

  lemma PayloadPlaced(s: Sender, p: Packet)
    requires Inv(s) && 0 <= p.at && Genuine(Entry(p), s)
    ensures var data, k := p.seg.payload, DataStart(Entry(p));
            data == [] || (k + |data| <= |Launched(s)| && data == Launched(s)[k..k + |data|])
  {
  }

  lemma PushHeard(s: Sender, asm: Reassembly.Reassembler, p: Packet, index: nat)
    requires Inv(s) && asm.Valid() && Reassembly.Follows(asm, Launched(s))
    requires 0 <= p.at && Genuine(Entry(p), s) && index == DataStart(Entry(p))
    ensures Reassembly.Follows(Reassembly.Push(asm, p.seg.payload, index, p.seg.header.fin), Launched(s))
  {
    PayloadPlaced(s, p);
    Reassembly.PushFollows(asm, p.seg.payload, index, p.seg.header.fin, Launched(s));
  }

  lemma EofHeard(asm: Reassembly.Reassembler, asm': Reassembly.Reassembler, end: nat, fin: bool, fined: bool, length: nat)
    requires asm'.eof == (asm.eof || fin) && length <= STREAM_LIMIT
    requires asm'.eofIndex == if !asm.eof && fin then end % 0x1_0000_0000_0000_0000 else asm.eofIndex
    requires (asm.eof ==> fined && asm.eofIndex == length) && (fin ==> fined && end == length)
    ensures asm'.eof ==> fined && asm'.eofIndex == length
  {
  }

  /** Delivering a genuine packet keeps the receiver a faithful listener. */
  lemma DeliveryHeard(s: Sender, r: Receiving.Receiver, p: Packet) returns (r': Receiving.Receiver)
    requires Inv(s) && r.Inv() && Hears(s, r)
    requires 0 <= p.at && Genuine(Entry(p), s) && Near(r, p.at)
    ensures r' == Receiving.SegmentReceived(r, p.seg) && r'.Inv() && Hears(s, r')
  {
    r' := Receiving.SegmentReceived(r, p.seg);
    Receiving.ReceiveKeeps(r, p.seg);
    if !Receiving.Ignores(r, p.seg.header) {
      PlacedRight(s, r, p);
      NewIsn(r, p.seg);
      AsmHeard(s, r.asm, p, r'.asm);
    }
  }

  lemma AsmHeard(s: Sender, asm: Reassembly.Reassembler, p: Packet, asm': Reassembly.Reassembler)
    requires Inv(s) && asm.Valid() && Reassembly.Follows(asm, Launched(s))
    requires asm.eof ==> s.fined && asm.eofIndex == |s.stream.written|
    requires 0 <= p.at && Genuine(Entry(p), s) && 0 <= DataStart(Entry(p))
    requires asm' == Reassembly.Push(asm, p.seg.payload, DataStart(Entry(p)), p.seg.header.fin)
    ensures Reassembly.Follows(asm', Launched(s)) && (asm'.eof ==> s.fined && asm'.eofIndex == |s.stream.written|)
  {
    var index := DataStart(Entry(p));
    PushHeard(s, asm, p, index);
    Reassembly.PushEof(asm, p.seg.payload, index, p.seg.header.fin);
    EofHeard(asm, asm', index + |p.seg.payload|, p.seg.header.fin, s.fined, |s.stream.written|);
  }

  lemma NewIsn(r: Receiving.Receiver, seg: TCPSegment)
    requires r.Inv() && !Receiving.Ignores(r, seg.header)
    ensures Receiving.SegmentReceived(r, seg).isn == if seg.header.syn then seg.header.seqno else r.isn
  {
  }

  /** Another number than the acknowledged one, among those not yet acknowledged, has the same 32 bits. */
  ghost predicate Mistakable(s: Sender, ackAt: nat) {
    exists x: nat :: s.acked < x <= s.next && x != ackAt && Wrap(x, s.isn) == Wrap(ackAt, s.isn)
  }

  /** A sender reads an acknowledgment right if and only if its number cannot be mistaken. */
  lemma AckExactly(s: Sender, ackAt: nat, window: u16)
    requires Inv(s) && ackAt <= s.next
    ensures AckReceived(s, Wrap(ackAt, s.isn), window).acked == Max(s.acked, ackAt) <==> !Mistakable(s, ackAt)
  {
    var ackno := Wrap(ackAt, s.isn);
    AckAccepted(s, ackno, window);
    AckKeeps(s, ackno, window);
    if Mistakable(s, ackAt) {
      var x: nat :| s.acked < x <= s.next && x != ackAt && Wrap(x, s.isn) == ackno;
      assert AckReceived(s, ackno, window).acked == x;
    }
  }

  /** Numbers are mistaken only after a whole turn. */
  lemma RecentNotMistaken(s: Sender, ackAt: nat)
    requires ackAt <= s.next && s.next - ackAt < TWO32 && s.next < s.acked + TWO16
    ensures !Mistakable(s, ackAt)
  {
    forall x: nat | s.acked < x <= s.next && Wrap(x, s.isn) == Wrap(ackAt, s.isn) ensures x == ackAt {
      WrapResidue(x, ackAt, s.isn);
      Congruent(x, ackAt);
    }
  }

  /** After a whole turn they are: an acknowledgment of 2^32 numbers before moves the sender to any number it has not got to. */
  lemma OldMistaken(s: Sender, x: nat, window: u16)
    requires Inv(s) && s.acked < x <= s.next && x >= TWO32
    ensures Mistakable(s, x - TWO32) && AckReceived(s, Wrap(x - TWO32, s.isn), window).acked == x
  {
    TurnBefore(x, s.isn);
    AckAccepted(s, Wrap(x, s.isn), window);
  }

  lemma TurnBefore(x: nat, isn: u32)
    requires x >= TWO32
    ensures Wrap(x - TWO32, isn) == Wrap(x, isn)
  {
    WrapResidue(x - TWO32, x, isn);
    Congruent(x, x - TWO32);
  }

  // The world.

  datatype World = World(a: Conn, b: Conn, fromA: set<Packet>, fromB: set<Packet>)

  /** The same world seen from the other side. */
  function Flip(w: World): World {
    World(w.b, w.a, w.fromB, w.fromA)
  }

  datatype Event = Act(op: Op) | Deliver(p: Packet)

  function OpOf(e: Event): Op {
    match e
    case Act(op) => op
    case Deliver(p) => Arrive(p.seg)
  }

  /** Only packets of the peer arrive, near enough to the receiver's checkpoint. */
  ghost predicate Can(w: World, e: Event) {
    match e
    case Act(op) => !op.Arrive?
    case Deliver(p) => p in w.fromB && (p.seg.header.rst || Near(w.a.receiver, p.at))
  }

  /** No acknowledgment arrives whose number has come round again. */
  ghost predicate Timely(w: World, e: Event) {
    e.Deliver? && e.p.seg.header.ack ==> !Mistakable(w.a.sender, e.p.ackAt)
  }

  /** Something happens at endpoint a; whatever it emits is in the network from then on. */
  ghost function Do(w: World, e: Event): World
    requires Coherent(w.a)
  {
    var c := Apply(w.a, OpOf(e));
    w.(a := c.(out := []), fromA := w.fromA + set k | 0 <= k < |c.out| :: c.out[k])
  }

  /** From one endpoint to the other: the listener is faithful and acknowledgments are sound. */
  ghost predicate OneWay(s: Sender, r: Receiving.Receiver) {
    Hears(s, r) && s.acked <= r.AckAbs()
  }

  ghost predicate Honest(net: set<Packet>, c: Conn) {
    forall p :: p in net ==> Truthful(p, c.sender, c.receiver)
  }

  /** What holds however old the acknowledgments that arrive. */
  ghost predicate HonestWorld(w: World) {
    && ConnInv(w.a) && ConnInv(w.b) && w.a.out == [] && w.b.out == []
    && Hears(w.a.sender, w.b.receiver) && Hears(w.b.sender, w.a.receiver)
    && Honest(w.fromA, w.a) && Honest(w.fromB, w.b)
  }

  ghost predicate WorldInv(w: World) {
    && HonestWorld(w)
    && w.a.sender.acked <= w.b.receiver.AckAbs() && w.b.sender.acked <= w.a.receiver.AckAbs()
  }

  lemma HearsKept(s: Sender, s': Sender, r: Receiving.Receiver)
    requires Hears(s, r) && Extends(s, s') && Inv(s) && Inv(s')
    ensures Hears(s', r)
  {
    var l, l' := Launched(s), Launched(s');
    assert s'.stream.written[..|s.stream.written|] == s.stream.written;
    assert l == l'[..|l|];
    assert Reassembly.Excerpts(r.asm.held, l');
    assert r.asm.out.written <= l';
  }

  lemma ListenerKept(s: Sender, r: Receiving.Receiver, r': Receiving.Receiver)
    requires Hears(s, r) && SameButError(r, r')
    ensures Hears(s, r')
  {
  }

  /** The listener at a, after an event at a. */
  lemma EventHeard(w: World, e: Event)
    requires HonestWorld(w) && Can(w, e)
    ensures Hears(w.b.sender, Apply(w.a, OpOf(e)).receiver)
  {
    var op, s, r := OpOf(e), w.b.sender, w.a.receiver;
    Effects(w.a, op);
    if e.Deliver? && !e.p.seg.header.rst {
      assert Truthful(e.p, s, w.b.receiver);
      var r' := DeliveryHeard(s, r, e.p);
    }
    ListenerKept(s, Heard(r, op), Apply(w.a, op).receiver);
  }

  /** The sender at a, after an event at a, has no more acknowledged than b has assembled. */
  lemma EventAcked(w: World, e: Event)
    requires WorldInv(w) && Can(w, e) && Timely(w, e)
    ensures Apply(w.a, OpOf(e)).sender.acked <= w.b.receiver.AckAbs()
  {
    var s, r := w.a.sender, w.b.receiver;
    Effects(w.a, OpOf(e));
    AckWithinSent(s, r);
    if e.Deliver? && e.p.seg.header.ack {
      assert Truthful(e.p, w.b.sender, r);
      AckExactly(s, e.p.ackAt, e.p.seg.header.win);
    }
  }

  lemma HonestKept(net: set<Packet>, c: Conn, c': Conn)
    requires Honest(net, c) && Advances(c, c')
    ensures Honest(net, c')
  {
    forall p | p in net ensures Truthful(p, c'.sender, c'.receiver) {
      TruthfulKept(p, c.sender, c.receiver, c'.sender, c'.receiver);
    }
  }

  /** Every event keeps the world honest. */
  lemma DoHonest(w: World, e: Event) returns (w': World)
    requires HonestWorld(w) && Can(w, e)
    ensures w' == Do(w, e) && HonestWorld(w') && w'.b == w.b && Advances(w.a, w'.a)
  {
    var c := ConnectionProofs.ApplyKeeps(w.a, OpOf(e));
    w' := Do(w, e);
    EventHeard(w, e);
    HearsKept(w.a.sender, c.sender, w.b.receiver);
    HonestKept(w.fromA, w.a, c);
  }

  /** Every event at which no acknowledgment is mistaken keeps the invariant of the world. */
  lemma DoKeeps(w: World, e: Event) returns (w': World)
    requires WorldInv(w) && Can(w, e) && Timely(w, e)
    ensures w' == Do(w, e) && WorldInv(w')
  {
    w' := DoHonest(w, e);
    EventAcked(w, e);
  }

  // Runs.

  datatype Move = Left(e: Event) | Right(e: Event)

  /** The move can be made; in a timely run it mistakes no acknowledgment. */
  ghost predicate Possible(timely: bool, w: World, m: Move) {
    && Coherent(w.a) && Coherent(w.b)
    && var side := if m.Left? then w else Flip(w);
       Can(side, m.e) && (timely ==> Timely(side, m.e))
  }

  ghost function Next(w: World, m: Move): World
    requires Coherent(w.a) && Coherent(w.b)
  {
    if m.Left? then Do(w, m.e) else Flip(Do(Flip(w), m.e))
  }

  ghost predicate Runs(timely: bool, w: World, moves: seq<Move>, w': World)
    decreases |moves|
  {
    if moves == [] then w' == w
    else Possible(timely, w, moves[0]) && Runs(timely, Next(w, moves[0]), moves[1..], w')
  }

  /** The settings of an endpoint: any at all. */
  datatype Config = Config(rtTimeout: u16, recvCapacity: nat, sendCapacity: nat, isn: u32)

  function Start(a: Config, b: Config): World {
    World(Connecting.Fresh(a.rtTimeout, a.recvCapacity, a.sendCapacity, a.isn),
          Connecting.Fresh(b.rtTimeout, b.recvCapacity, b.sendCapacity, b.isn), {}, {})
  }

  lemma StartInv(a: Config, b: Config)
    ensures WorldInv(Start(a, b))
  {
  }

  lemma NextHonest(w: World, m: Move) returns (w': World)
    requires HonestWorld(w) && Possible(false, w, m)
    ensures w' == Next(w, m) && HonestWorld(w')
  {
    if m.Left? {
      w' := DoHonest(w, m.e);
    } else {
      var f := DoHonest(Flip(w), m.e);
      w' := Flip(f);
    }
  }

  lemma NextKeeps(w: World, m: Move) returns (w': World)
    requires WorldInv(w) && Possible(true, w, m)
    ensures w' == Next(w, m) && WorldInv(w')
  {
    if m.Left? {
      w' := DoKeeps(w, m.e);
    } else {
      var f := DoKeeps(Flip(w), m.e);
      w' := Flip(f);
    }
  }

  lemma {:induction false} RunHonest(w: World, moves: seq<Move>, w': World)
    requires HonestWorld(w) && Runs(false, w, moves, w')
    ensures HonestWorld(w')
    decreases |moves|
  {
    if moves != [] {
      var w1 := NextHonest(w, moves[0]);
      RunHonest(w1, moves[1..], w');
    }
  }

  lemma {:induction false} RunKeeps(w: World, moves: seq<Move>, w': World)
    requires WorldInv(w) && Runs(true, w, moves, w')
    ensures WorldInv(w')
    decreases |moves|
  {
    if moves != [] {
      var w1 := NextKeeps(w, moves[0]);
      RunKeeps(w1, moves[1..], w');
    }
  }

  ghost predicate Reachable(timely: bool, w: World) {
    exists a: Config, b: Config, moves: seq<Move> :: Runs(timely, Start(a, b), moves, w)
  }

  lemma ReachableHonest(w: World)
    requires Reachable(false, w)
    ensures HonestWorld(w)
  {
    var a, b, moves :| Runs(false, Start(a, b), moves, w);
    StartInv(a, b);
    RunHonest(Start(a, b), moves, w);
  }

  lemma ReachableInv(w: World)
    requires Reachable(true, w)
    ensures WorldInv(w)
  {
    var a, b, moves :| Runs(true, Start(a, b), moves, w);
    StartInv(a, b);
    RunKeeps(Start(a, b), moves, w);
  }

  // Both ends are alike.

  function Swap(m: Move): Move {
    if m.Left? then Right(m.e) else Left(m.e)
  }

  function SwapAll(moves: seq<Move>): seq<Move> {
    seq(|moves|, i requires 0 <= i < |moves| => Swap(moves[i]))
  }

  lemma {:induction false} RunsFlip(timely: bool, w: World, moves: seq<Move>, w': World)
    requires Runs(timely, w, moves, w')
    ensures Runs(timely, Flip(w), SwapAll(moves), Flip(w'))
    decreases |moves|
  {
    if moves != [] {
      RunsFlip(timely, Next(w, moves[0]), moves[1..], w');
      assert SwapAll(moves)[1..] == SwapAll(moves[1..]);
    }
  }

  lemma ReachableFlip(timely: bool, w: World)
    requires Reachable(timely, w)
    ensures Reachable(timely, Flip(w))
  {
    var a, b, moves :| Runs(timely, Start(a, b), moves, w);
    RunsFlip(timely, Start(a, b), moves, w);
    assert Flip(Start(a, b)) == Start(b, a);
  }

  // What is promised to the applications at both ends.

  /** What has been delivered at one end is a prefix of what was written at the other, and an end announced is the true end. */
  ghost predicate Faithful(s: Sender, r: Receiving.Receiver) {
    && r.asm.out.written <= s.stream.written
    && (r.asm.out.ended ==> s.stream.ended && r.asm.out.written == s.stream.written)
  }

  /** Nothing is acknowledged that the peer has not assembled, and nothing leaves the queue before. */
  ghost predicate AcksSound(s: Sender, r: Receiving.Receiver) {
    && s.acked <= r.AckAbs() <= s.next
    && (forall k :: 0 <= k < s.acked - 1 && k < |s.stream.written| ==>
          k < |r.asm.out.written| && r.asm.out.written[k] == s.stream.written[k])
    && (s.acked < s.next ==> s.sent != [] && s.sent[0].At() <= s.acked)
  }

  ghost predicate CleanlyClosed(c: Conn) {
    !c.active && !c.rst
  }

  lemma FaithfulOneWay(s: Sender, r: Receiving.Receiver)
    requires Inv(s) && r.Inv() && Hears(s, r)
    ensures Faithful(s, r)
  {
    assert Launched(s) <= s.stream.written;
  }

  lemma SoundOneWay(s: Sender, r: Receiving.Receiver)
    requires Inv(s) && r.Inv() && OneWay(s, r)
    ensures AcksSound(s, r)
  {
    AckWithinSent(s, r);
    FaithfulOneWay(s, r);
  }

  /**
   * In every run over a network that loses, repeats, delays and reorders, both
   * streams arrive as they were written, however old the acknowledgments are.
   */
  lemma Prefix(w: World)
    requires Reachable(false, w)
    ensures Faithful(w.a.sender, w.b.receiver) && Faithful(w.b.sender, w.a.receiver)
  {
    ReachableHonest(w);
    FaithfulOneWay(w.a.sender, w.b.receiver);
    FaithfulOneWay(w.b.sender, w.a.receiver);
  }

  /** In every run in which no acknowledgment is mistaken, acknowledgments are sound too. */
  lemma Safety(w: World)
    requires Reachable(true, w)
    ensures Faithful(w.a.sender, w.b.receiver) && Faithful(w.b.sender, w.a.receiver)
    ensures AcksSound(w.a.sender, w.b.receiver) && AcksSound(w.b.sender, w.a.receiver)
  {
    ReachableInv(w);
    SoundOneWay(w.a.sender, w.b.receiver);
    SoundOneWay(w.b.sender, w.a.receiver);
    FaithfulOneWay(w.a.sender, w.b.receiver);
    FaithfulOneWay(w.b.sender, w.a.receiver);
  }

  /** Where acknowledgments are sound, no packet is too far ahead: only old ones are kept out. */
  lemma NeverTooFarAhead(w: World, p: Packet)
    requires Reachable(true, w) && p in w.fromB
    ensures p.at - w.a.receiver.lastAbseqno < TWO31
  {
    ReachableInv(w);
    assert Truthful(p, w.b.sender, w.b.receiver);
  }

  /** As soon as one endpoint has ended without a reset, both streams have been delivered whole, ends included. */
  lemma CleanClose(w: World)
    requires Reachable(true, w) && (CleanlyClosed(w.a) || CleanlyClosed(w.b))
    ensures w.a.sender.stream.ended && w.b.receiver.asm.out.ended
    ensures w.b.receiver.asm.out.written == w.a.sender.stream.written
    ensures w.b.sender.stream.ended && w.a.receiver.asm.out.ended
    ensures w.a.receiver.asm.out.written == w.b.sender.stream.written
  {
    ReachableInv(w);
    Safety(w);
  }

  /** Streams within the limit keep every window and payload far from the end of 64 bits. */
  lemma WindowFits(w: World, seg: TCPSegment)
    requires Reachable(false, w) && |seg.payload| <= 0xFFFF && w.a.receiver.asm.out.capacity <= 0x4000_0000_0000_0000
    ensures w.a.receiver.asm.Edge() + |seg.payload| < TWO64
  {
    ReachableHonest(w);
    FaithfulOneWay(w.b.sender, w.a.receiver);
  }
}
