/** Address resolution: what a network interface does with datagrams and frames. */
module Resolution {
  import opened Types
  import opened IPCodec

  type EthernetAddress = x: int | 0 <= x < 0x1_0000_0000_0000

  const ETHERNET_BROADCAST: EthernetAddress := 0xFFFF_FFFF_FFFF
  const OPCODE_REQUEST: u16 := 1
  const OPCODE_REPLY: u16 := 2

  datatype ARPMessage = ARPMessage(
    opcode: u16, senderEthernet: EthernetAddress, senderIp: u32, targetEthernet: EthernetAddress, targetIp: u32)

  /** The payload of a frame as its type says and as far as it can be parsed. */
  datatype Body = Arp(m: ARPMessage) | Ip(d: IPv4Datagram) | BadArp | BadIp | Other

  datatype Frame = Frame(dst: EthernetAddress, src: EthernetAddress, body: Body)

  /** What is known of an IP address, and when it was last asked or answered. */
  datatype Node = Node(address: EthernetAddress, updated: nat, asked: nat, known: bool)

  datatype Pending = Pending(hop: u32, d: IPv4Datagram)

  datatype Interface = Interface(mac: EthernetAddress, ip: u32, arp: map<u32, Node>, pending: seq<Pending>, timer: nat)

  function ArpFrame(s: Interface, target: u32, address: Option<EthernetAddress>): Frame {
    var dst := if address.Some? then address.value else ETHERNET_BROADCAST;
    Frame(dst, s.mac, Arp(ARPMessage(
      if dst == ETHERNET_BROADCAST then OPCODE_REQUEST else OPCODE_REPLY,
      s.mac, s.ip, if address.Some? then address.value else 0, target)))
  }

  /** Whether the last ARP towards the target is too recent for another. */
  predicate TooSoon(s: Interface, target: u32) {
    target in s.arp && s.timer - s.arp[target].asked <= 5000
  }

  function SendArp(s: Interface, target: u32, address: Option<EthernetAddress>): (Interface, seq<Frame>) {
    if TooSoon(s, target) then (s, [])
    else
      var node := if target in s.arp then s.arp[target] else Node(0, 0, 0, false);
      (s.(arp := s.arp[target := node.(asked := s.timer)]), [ArpFrame(s, target, address)])
  }

  /** The address of the hop is known and not older than 30 s. */
  predicate Resolved(s: Interface, hop: u32) {
    hop in s.arp && s.arp[hop].known && s.timer - s.arp[hop].updated <= 30000
  }

  function SendDatagram(s: Interface, d: IPv4Datagram, hop: u32): (Interface, seq<Frame>) {
    if Resolved(s, hop) then (s, [Frame(s.arp[hop].address, s.mac, Ip(d))])
    else
      var (s', frames) := SendArp(s, hop, None);
      (s'.(pending := s'.pending + [Pending(hop, d)]), frames)
  }

  /** The datagrams waiting for a hop, as frames to its address. */
  function Released(ps: seq<Pending>, hop: u32, address: EthernetAddress, mac: EthernetAddress): seq<Frame> {
    if ps == [] then []
    else
      var fs := Released(ps[..|ps| - 1], hop, address, mac);
      var p := ps[|ps| - 1];
      if p.hop == hop then fs + [Frame(address, mac, Ip(p.d))] else fs
  }

  function Waiting(ps: seq<Pending>, hop: u32): seq<Pending> {
    if ps == [] then []
    else
      var rest, p := Waiting(ps[..|ps| - 1], hop), ps[|ps| - 1];
      if p.hop == hop then rest else rest + [p]
  }

  /** An ARP message is taken in when it is for us or announces its sender. */
  predicate Accepts(s: Interface, f: Frame) {
    && (f.dst == s.mac || f.dst == ETHERNET_BROADCAST) && f.body.Arp?
    && (f.body.m.targetIp == s.ip || f.body.m.senderIp == f.body.m.targetIp)
  }

  function Learn(s: Interface, m: ARPMessage): Interface {
    var node := if m.senderIp in s.arp then s.arp[m.senderIp] else Node(0, 0, 0, false);
    s.(arp := s.arp[m.senderIp := node.(address := m.senderEthernet, updated := s.timer, known := true)])
  }

  /** A request is answered, a reply releases what waits for its sender. */
  function React(s: Interface, m: ARPMessage): (Interface, seq<Frame>) {
    if m.opcode == OPCODE_REQUEST then SendArp(s, m.senderIp, Some(m.senderEthernet))
    else if m.opcode == OPCODE_REPLY
    then (s.(pending := Waiting(s.pending, m.senderIp)), Released(s.pending, m.senderIp, m.senderEthernet, s.mac))
    else (s, [])
  }

  function RecvFrame(s: Interface, f: Frame): (Interface, seq<Frame>, Option<IPv4Datagram>) {
    if f.dst == s.mac && f.body.Ip? then (s, [], Some(f.body.d))
    else if Accepts(s, f) then
      var (s', frames) := React(s, f.body.m);
      (Learn(s', f.body.m), frames, None)
    else (s, [], None)
  }

  // Runs.

  datatype Op = Send(d: IPv4Datagram, hop: u32) | Recv(f: Frame) | Elapse(ms: nat)

  function Apply(s: Interface, op: Op): (Interface, seq<Frame>) {
    match op
    case Send(d, hop) => SendDatagram(s, d, hop)
    case Recv(f) => var (s', frames, _) := RecvFrame(s, f); (s', frames)
    case Elapse(ms) => (s.(timer := s.timer + ms), [])
  }

  /** A frame, the time at which it went out and the IP address on whose behalf. */
  datatype Emission = Emission(at: nat, hop: u32, f: Frame)

  function Stamped(frames: seq<Frame>, at: nat, hop: u32): seq<Emission> {
    seq(|frames|, i requires 0 <= i < |frames| => Emission(at, hop, frames[i]))
  }

  /** A datagram goes out towards its next hop, an answer or a release towards who was heard. */
  function Towards(op: Op): u32 {
    match op
    case Send(_, hop) => hop
    case Recv(f) => if f.body.Arp? then f.body.m.senderIp else 0
    case Elapse(_) => 0
  }

  /** The sender and time of an accepted ARP message. */
  datatype Hearing = Hearing(address: EthernetAddress, at: nat)

  /** An interface, everything handed to it, everything it sent, and the latest it heard of each address. */
  datatype History = History(s: Interface, handed: seq<Pending>, log: seq<Emission>, heard: map<u32, Hearing>)

  /** An ARP message to us or to all, that asks for our address, tells it to us, or announces its sender. */
  predicate Concerns(mac: EthernetAddress, ip: u32, f: Frame) {
    && (f.dst == mac || f.dst == 0xFFFF_FFFF_FFFF) && f.body.Arp?
    && (f.body.m.targetIp == ip || f.body.m.targetIp == f.body.m.senderIp)
  }

  function Hears(h: History, op: Op): map<u32, Hearing> {
    if op.Recv? && Concerns(h.s.mac, h.s.ip, op.f)
    then h.heard[op.f.body.m.senderIp := Hearing(op.f.body.m.senderEthernet, h.s.timer)]
    else h.heard
  }

  function Step(h: History, op: Op): History {
    var (s', frames) := Apply(h.s, op);
    History(s', if op.Send? then h.handed + [Pending(op.hop, op.d)] else h.handed,
            h.log + Stamped(frames, h.s.timer, Towards(op)), Hears(h, op))
  }

  function Run(mac: EthernetAddress, ip: u32, ops: seq<Op>): History {
    if ops == [] then History(Interface(mac, ip, map[], [], 0), [], [], map[])
    else Step(Run(mac, ip, ops[..|ops| - 1]), ops[|ops| - 1])
  }

  // What every run keeps.

  /** The datagrams in the frames sent, each with its hop. */
  ghost function Sent(log: seq<Emission>): multiset<Pending> {
    if log == [] then multiset{}
    else
      var e := log[|log| - 1];
      Sent(log[..|log| - 1]) + if e.f.body.Ip? then multiset{Pending(e.hop, e.f.body.d)} else multiset{}
  }

  /** Known addresses are those of the latest accepted messages. */
  ghost predicate Remembers(s: Interface, heard: map<u32, Hearing>) {
    forall ip :: (ip in s.arp && s.arp[ip].known <==> ip in heard)
      && (ip in heard ==> s.arp[ip].address == heard[ip].address && s.arp[ip].updated == heard[ip].at <= s.timer)
  }

  predicate ArpTo(e: Emission, ip: u32) {
    e.f.body.Arp? && e.f.body.m.targetIp == ip
  }

  /** Every ARP frame sent is remembered as the last one or an earlier one. */
  ghost predicate Asked(s: Interface, log: seq<Emission>) {
    && (forall ip :: ip in s.arp ==> s.arp[ip].asked <= s.timer)
    && (forall i, ip :: 0 <= i < |log| && ArpTo(log[i], ip) ==> ip in s.arp && log[i].at <= s.arp[ip].asked)
  }

  /** ARP frames towards the same address are more than 5 s apart. */
  ghost predicate Spaced(log: seq<Emission>) {
    forall i, j, ip :: 0 <= i < j < |log| && ArpTo(log[i], ip) && ArpTo(log[j], ip) ==> log[j].at - log[i].at > 5000
  }

  ghost predicate Logged(log: seq<Emission>, ip: u32, at: nat) {
    exists i :: 0 <= i < |log| && ArpTo(log[i], ip) && log[i].at == at
  }

  ghost predicate NeverAsked(log: seq<Emission>, ip: u32) {
    forall i :: 0 <= i < |log| ==> !ArpTo(log[i], ip)
  }

  /** The time noted is that of an ARP frame sent, or none was sent to an address that was heard first. */
  ghost predicate Noted(s: Interface, log: seq<Emission>) {
    forall ip :: ip in s.arp ==>
      Logged(log, ip, s.arp[ip].asked) || (s.arp[ip].asked == 0 && s.arp[ip].known && NeverAsked(log, ip))
  }

  ghost predicate Inv(h: History) {
    && Asked(h.s, h.log) && Spaced(h.log) && Remembers(h.s, h.heard) && Noted(h.s, h.log)
    && (forall k :: 0 <= k < |h.s.pending| ==> h.s.pending[k] in h.handed)
  }

  lemma SendArpSpaced(s: Interface, log: seq<Emission>, target: u32, address: Option<EthernetAddress>, hop: u32)
    requires Asked(s, log) && Spaced(log)
    ensures var (s', frames) := SendArp(s, target, address);
            var log' := log + Stamped(frames, s.timer, hop);
            Asked(s', log') && Spaced(log')
  {
    if TooSoon(s, target) { assert log + Stamped([], s.timer, hop) == log; }
  }

  /** Frames that carry datagrams do not count. */
  lemma OtherSpaced(s: Interface, log: seq<Emission>, frames: seq<Frame>, hop: u32)
    requires Asked(s, log) && Spaced(log) && forall k :: 0 <= k < |frames| ==> frames[k].body.Ip?
    ensures var log' := log + Stamped(frames, s.timer, hop); Asked(s, log') && Spaced(log')
  {
  }

  lemma {:induction false} ReleasedFrames(ps: seq<Pending>, hop: u32, address: EthernetAddress, mac: EthernetAddress, k: nat)
    requires k < |Released(ps, hop, address, mac)|
    ensures var f := Released(ps, hop, address, mac)[k]; f.body.Ip? && f.dst == address && Pending(hop, f.body.d) in ps
  {
    var n := |ps| - 1;
    var fs := Released(ps[..n], hop, address, mac);
    if k < |fs| { ReleasedFrames(ps[..n], hop, address, mac, k); }
    assert ps == ps[..n] + [ps[n]];
  }

  lemma {:induction false} WaitingOnly(ps: seq<Pending>, hop: u32, k: nat)
    requires k < |Waiting(ps, hop)|
    ensures Waiting(ps, hop)[k] in ps
  {
    var n := |ps| - 1;
    if k < |Waiting(ps[..n], hop)| { WaitingOnly(ps[..n], hop, k); }
    assert ps == ps[..n] + [ps[n]];
  }

  lemma ReactSpaced(s: Interface, log: seq<Emission>, m: ARPMessage, hop: u32)
    requires Asked(s, log) && Spaced(log)
    ensures var (s', frames) := React(s, m);
            var log' := log + Stamped(frames, s.timer, hop);
            Asked(s', log') && Spaced(log')
  {
    if m.opcode == OPCODE_REQUEST {
      SendArpSpaced(s, log, m.senderIp, Some(m.senderEthernet), hop);
    } else if m.opcode == OPCODE_REPLY {
      var frames := Released(s.pending, m.senderIp, m.senderEthernet, s.mac);
      forall k | 0 <= k < |frames| ensures frames[k].body.Ip? {
        ReleasedFrames(s.pending, m.senderIp, m.senderEthernet, s.mac, k);
      }
      OtherSpaced(s, log, frames, hop);
    } else {
      assert log + Stamped([], s.timer, hop) == log;
    }
  }

  lemma LearnAsked(s: Interface, log: seq<Emission>, m: ARPMessage)
    requires Asked(s, log)
    ensures Asked(Learn(s, m), log)
  {
  }

  lemma StepSpaced(h: History, op: Op)
    requires Inv(h)
    ensures var h' := Step(h, op); Asked(h'.s, h'.log) && Spaced(h'.log)
  {
    match op
    case Send(d, hop) =>
      if Resolved(h.s, hop) {
        OtherSpaced(h.s, h.log, SendDatagram(h.s, d, hop).1, hop);
      } else {
        SendArpSpaced(h.s, h.log, hop, None, hop);
      }
    case Recv(f) =>
      if Accepts(h.s, f) {
        ReactSpaced(h.s, h.log, f.body.m, f.body.m.senderIp);
        LearnAsked(React(h.s, f.body.m).0, Step(h, op).log, f.body.m);
      } else {
        assert h.log + Stamped([], h.s.timer, Towards(op)) == h.log;
      }
    case Elapse(ms) => assert h.log + Stamped([], h.s.timer, Towards(op)) == h.log;
  }

  lemma SendArpRemembers(s: Interface, heard: map<u32, Hearing>, target: u32, address: Option<EthernetAddress>)
    requires Remembers(s, heard)
    ensures Remembers(SendArp(s, target, address).0, heard)
  {
  }

  lemma LearnRemembers(s: Interface, heard: map<u32, Hearing>, m: ARPMessage)
    requires Remembers(s, heard)
    ensures Remembers(Learn(s, m), heard[m.senderIp := Hearing(m.senderEthernet, s.timer)])
  {
  }

  lemma StepRemembers(h: History, op: Op)
    requires Remembers(h.s, h.heard)
    ensures var h' := Step(h, op); Remembers(h'.s, h'.heard)
  {
    match op
    case Send(d, hop) => SendArpRemembers(h.s, h.heard, hop, None);
    case Recv(f) =>
      if Accepts(h.s, f) {
        SendArpRemembers(h.s, h.heard, f.body.m.senderIp, Some(f.body.m.senderEthernet));
        LearnRemembers(React(h.s, f.body.m).0, h.heard, f.body.m);
      }
    case Elapse(ms) =>
  }

  lemma StepHanded(h: History, op: Op)
    requires Inv(h)
    ensures var h' := Step(h, op); forall k :: 0 <= k < |h'.s.pending| ==> h'.s.pending[k] in h'.handed
  {
    var h' := Step(h, op);
    forall k | 0 <= k < |h'.s.pending| ensures h'.s.pending[k] in h'.handed {
      if op.Recv? && Accepts(h.s, op.f) && op.f.body.m.opcode == OPCODE_REPLY {
        WaitingOnly(h.s.pending, op.f.body.m.senderIp, k);
      }
    }
  }

  lemma LoggedKept(log: seq<Emission>, more: seq<Emission>, ip: u32, at: nat)
    requires Logged(log, ip, at)
    ensures Logged(log + more, ip, at)
  {
    var i :| 0 <= i < |log| && ArpTo(log[i], ip) && log[i].at == at;
    assert (log + more)[i] == log[i];
  }

  /** Frames towards other addresses, or none, change nothing for this one. */
  lemma NotedKept(s: Interface, s': Interface, log: seq<Emission>, more: seq<Emission>, ip: u32)
    requires Noted(s, log) && ip in s.arp && ip in s'.arp && s'.arp[ip].asked == s.arp[ip].asked && (s.arp[ip].known ==> s'.arp[ip].known)
    requires NeverAsked(more, ip)
    ensures Logged(log + more, ip, s'.arp[ip].asked) || (s'.arp[ip].asked == 0 && s'.arp[ip].known && NeverAsked(log + more, ip))
  {
    if Logged(log, ip, s.arp[ip].asked) { LoggedKept(log, more, ip, s.arp[ip].asked); }
  }

  lemma SendArpNoted(s: Interface, log: seq<Emission>, target: u32, address: Option<EthernetAddress>, hop: u32)
    requires Noted(s, log)
    ensures var (s', frames) := SendArp(s, target, address); Noted(s', log + Stamped(frames, s.timer, hop))
  {
    var (s', frames) := SendArp(s, target, address);
    var more := Stamped(frames, s.timer, hop);
    if TooSoon(s, target) {
      assert log + more == log;
    } else {
      assert ArpTo((log + more)[|log|], target);
      forall ip | ip in s'.arp && ip != target
        ensures Logged(log + more, ip, s'.arp[ip].asked) || (s'.arp[ip].asked == 0 && s'.arp[ip].known && NeverAsked(log + more, ip))
      {
        NotedKept(s, s', log, more, ip);
      }
    }
  }

  lemma OtherNoted(s: Interface, log: seq<Emission>, frames: seq<Frame>, hop: u32)
    requires Noted(s, log) && forall k :: 0 <= k < |frames| ==> frames[k].body.Ip?
    ensures Noted(s, log + Stamped(frames, s.timer, hop))
  {
    var more := Stamped(frames, s.timer, hop);
    forall ip | ip in s.arp
      ensures Logged(log + more, ip, s.arp[ip].asked) || (s.arp[ip].asked == 0 && s.arp[ip].known && NeverAsked(log + more, ip))
    {
      NotedKept(s, s, log, more, ip);
    }
  }

  lemma ReactNoted(s: Interface, log: seq<Emission>, m: ARPMessage, hop: u32)
    requires Noted(s, log)
    ensures var (s', frames) := React(s, m); Noted(s', log + Stamped(frames, s.timer, hop))
  {
    if m.opcode == OPCODE_REQUEST {
      SendArpNoted(s, log, m.senderIp, Some(m.senderEthernet), hop);
    } else if m.opcode == OPCODE_REPLY {
      var frames := Released(s.pending, m.senderIp, m.senderEthernet, s.mac);
      forall k | 0 <= k < |frames| ensures frames[k].body.Ip? {
        ReleasedFrames(s.pending, m.senderIp, m.senderEthernet, s.mac, k);
      }
      OtherNoted(s, log, frames, hop);
    } else {
      assert log + Stamped([], s.timer, hop) == log;
    }
  }

  lemma LearnNoted(s: Interface, log: seq<Emission>, m: ARPMessage)
    requires Noted(s, log) && Asked(s, log)
    ensures Noted(Learn(s, m), log)
  {
    var s' := Learn(s, m);
    forall ip | ip in s'.arp
      ensures Logged(log, ip, s'.arp[ip].asked) || (s'.arp[ip].asked == 0 && s'.arp[ip].known && NeverAsked(log, ip))
    {
      if ip in s.arp {
        assert log + [] == log;
        NotedKept(s, s', log, [], ip);
      }
    }
  }

  lemma StepNoted(h: History, op: Op)
    requires Inv(h)
    ensures Noted(Step(h, op).s, Step(h, op).log)
  {
    match op
    case Send(d, hop) =>
      if Resolved(h.s, hop) {
        OtherNoted(h.s, h.log, SendDatagram(h.s, d, hop).1, hop);
      } else {
        SendArpNoted(h.s, h.log, hop, None, hop);
      }
    case Recv(f) =>
      if Accepts(h.s, f) {
        ReactNoted(h.s, h.log, f.body.m, f.body.m.senderIp);
        ReactSpaced(h.s, h.log, f.body.m, f.body.m.senderIp);
        LearnNoted(React(h.s, f.body.m).0, Step(h, op).log, f.body.m);
      } else {
        assert h.log + Stamped([], h.s.timer, Towards(op)) == h.log;
      }
    case Elapse(ms) => assert h.log + Stamped([], h.s.timer, Towards(op)) == h.log;
  }

  lemma {:induction false} RunInv(mac: EthernetAddress, ip: u32, ops: seq<Op>)
    ensures Inv(Run(mac, ip, ops))
  {
    if ops != [] {
      var n := |ops| - 1;
      RunInv(mac, ip, ops[..n]);
      var h := Run(mac, ip, ops[..n]);
      StepSpaced(h, ops[n]);
      StepRemembers(h, ops[n]);
      StepHanded(h, ops[n]);
      StepNoted(h, ops[n]);
    }
  }

  /** In every run, any two ARP frames towards the same IP address are more than 5 s apart. */
  lemma {:induction false} ArpSpacing(mac: EthernetAddress, ip: u32, ops: seq<Op>)
    ensures Spaced(Run(mac, ip, ops).log)
  {
    RunInv(mac, ip, ops);
  }

  /** The frame goes to the address that the latest accepted ARP of the hop named, at most 30 s ago. */
  ghost predicate Directed(e: Emission, heard: map<u32, Hearing>) {
    e.hop in heard && heard[e.hop].address == e.f.dst && 0 <= e.at - heard[e.hop].at <= 30000
  }

  /**
   * In every run, every frame with a datagram goes to where the latest accepted
   * ARP of that datagram's own next hop said, at most 30 s ago; a datagram handed
   * in goes out on behalf of the hop it was handed in for.
   */
  lemma {:induction false} Direction(mac: EthernetAddress, ip: u32, ops: seq<Op>, op: Op)
    ensures var h := Run(mac, ip, ops);
            var h' := Step(h, op);
            |h.log| <= |h'.log| && forall i :: |h.log| <= i < |h'.log| && h'.log[i].f.body.Ip? ==>
              && h'.log[i].at == h.s.timer && Directed(h'.log[i], h'.heard)
              && Pending(h'.log[i].hop, h'.log[i].f.body.d) in h'.handed
              && (op.Send? ==> h'.log[i].f.body.d == op.d && h'.log[i].hop == op.hop)
  {
    var h := Run(mac, ip, ops);
    var h', frames := Step(h, op), Apply(h.s, op).1;
    RunInv(mac, ip, ops);
    forall k | 0 <= k < |frames| && frames[k].body.Ip?
      ensures Directed(Emission(h.s.timer, Towards(op), frames[k]), h'.heard) && Pending(Towards(op), frames[k].body.d) in h'.handed
    {
      if op.Recv? { ReleaseDirected(h, op, k); }
    }
  }

  /** A direct send of a datagram goes to the address last heard of its own hop. */
  lemma {:induction false} DirectSend(mac: EthernetAddress, ip: u32, ops: seq<Op>, d: IPv4Datagram, hop: u32)
    ensures var h := Run(mac, ip, ops);
            if hop in h.heard && h.s.timer - h.heard[hop].at <= 30000
            then SendDatagram(h.s, d, hop) == (h.s, [Frame(h.heard[hop].address, h.s.mac, Ip(d))])
            else SendDatagram(h.s, d, hop).0.pending == h.s.pending + [Pending(hop, d)]
                 && forall f :: f in SendDatagram(h.s, d, hop).1 ==> f.body.Arp?
  {
    RunInv(mac, ip, ops);
  }

  lemma ReleaseDirected(h: History, op: Op, k: nat)
    requires Inv(h) && op.Recv? && k < |Apply(h.s, op).1| && Apply(h.s, op).1[k].body.Ip?
    ensures Directed(Emission(h.s.timer, Towards(op), Apply(h.s, op).1[k]), Step(h, op).heard)
    ensures Pending(Towards(op), Apply(h.s, op).1[k].body.d) in h.handed
  {
    var m := op.f.body.m;
    ReleasedFrames(h.s.pending, m.senderIp, m.senderEthernet, h.s.mac, k);
  }

  // Conservation.

  lemma {:induction false} SentConcat(a: seq<Emission>, b: seq<Emission>)
    ensures Sent(a + b) == Sent(a) + Sent(b)
  {
    if b == [] {
      assert a + b == a;
    } else {
      assert (a + b)[..|a + b| - 1] == a + b[..|b| - 1];
      SentConcat(a, b[..|b| - 1]);
    }
  }

  lemma LastOf(ps: seq<Pending>)
    requires ps != []
    ensures multiset(ps) == multiset(ps[..|ps| - 1]) + multiset{ps[|ps| - 1]}
  {
    assert ps == ps[..|ps| - 1] + [ps[|ps| - 1]];
  }

  lemma {:induction false} ReleaseConserves(ps: seq<Pending>, hop: u32, address: EthernetAddress, mac: EthernetAddress, at: nat)
    ensures multiset(ps) == multiset(Waiting(ps, hop)) + Sent(Stamped(Released(ps, hop, address, mac), at, hop))
  {
    if ps != [] {
      var n := |ps| - 1;
      var fs := Released(ps[..n], hop, address, mac);
      ReleaseConserves(ps[..n], hop, address, mac, at);
      LastOf(ps);
      if ps[n].hop == hop {
        var f := Frame(address, mac, Ip(ps[n].d));
        assert Stamped(fs + [f], at, hop)[..|fs|] == Stamped(fs, at, hop);
      }
    }
  }

  ghost predicate Conserved(h: History) {
    multiset(h.handed) == multiset(h.s.pending) + Sent(h.log)
  }

  lemma SentOne(at: nat, hop: u32, f: Frame)
    ensures Sent(Stamped([f], at, hop)) == if f.body.Ip? then multiset{Pending(hop, f.body.d)} else multiset{}
  {
    assert Stamped([f], at, hop)[..0] == [];
  }

  lemma ArpCarriesNone(s: Interface, target: u32, address: Option<EthernetAddress>, hop: u32)
    ensures var (s', frames) := SendArp(s, target, address); Sent(Stamped(frames, s.timer, hop)) == multiset{} && s'.pending == s.pending
  {
    if !TooSoon(s, target) { SentOne(s.timer, hop, ArpFrame(s, target, address)); }
  }

  lemma SendConserves(h: History, d: IPv4Datagram, hop: u32)
    requires Conserved(h)
    ensures Conserved(Step(h, Send(d, hop)))
  {
    SentConcat(h.log, Stamped(SendDatagram(h.s, d, hop).1, h.s.timer, hop));
    if Resolved(h.s, hop) {
      SentOne(h.s.timer, hop, Frame(h.s.arp[hop].address, h.s.mac, Ip(d)));
    } else {
      ArpCarriesNone(h.s, hop, None, hop);
    }
  }

  lemma ReactConserves(s: Interface, m: ARPMessage)
    ensures var (s', frames) := React(s, m);
            multiset(s.pending) == multiset(s'.pending) + Sent(Stamped(frames, s.timer, m.senderIp))
  {
    if m.opcode == OPCODE_REQUEST {
      ArpCarriesNone(s, m.senderIp, Some(m.senderEthernet), m.senderIp);
    } else if m.opcode == OPCODE_REPLY {
      ReleaseConserves(s.pending, m.senderIp, m.senderEthernet, s.mac, s.timer);
    }
  }

  lemma StepConserves(h: History, op: Op)
    requires Conserved(h)
    ensures Conserved(Step(h, op))
  {
    if op.Send? {
      SendConserves(h, op.d, op.hop);
    } else {
      SentConcat(h.log, Stamped(Apply(h.s, op).1, h.s.timer, Towards(op)));
      if op.Recv? && Accepts(h.s, op.f) { ReactConserves(h.s, op.f.body.m); }
    }
  }

  /** In every run, every datagram handed in for a hop is waiting for that hop or has been sent on its behalf, exactly once. */
  lemma {:induction false} Conservation(mac: EthernetAddress, ip: u32, ops: seq<Op>)
    ensures Conserved(Run(mac, ip, ops))
  {
    if ops != [] {
      var n := |ops| - 1;
      Conservation(mac, ip, ops[..n]);
      StepConserves(Run(mac, ip, ops[..n]), ops[n]);
    }
  }

  // What has to be sent.

  /**
   * No ARP frame goes to the address now: one went there in the last 5 s, or,
   * before 5 s have passed at all, it was heard without ever having been asked.
   */
  ghost predicate Muted(h: History, ip: u32) {
    || (exists i :: 0 <= i < |h.log| && ArpTo(h.log[i], ip) && h.s.timer - h.log[i].at <= 5000)
    || (ip in h.heard && NeverAsked(h.log, ip) && h.s.timer <= 5000)
  }

  lemma MutedExactly(h: History, ip: u32)
    requires Inv(h)
    ensures TooSoon(h.s, ip) <==> Muted(h, ip)
  {
    if TooSoon(h.s, ip) && Logged(h.log, ip, h.s.arp[ip].asked) {
      var i :| 0 <= i < |h.log| && ArpTo(h.log[i], ip) && h.log[i].at == h.s.arp[ip].asked;
      assert h.s.timer - h.log[i].at <= 5000;
    }
    if ip in h.heard && NeverAsked(h.log, ip) {
      assert ip in h.s.arp && !Logged(h.log, ip, h.s.arp[ip].asked);
    }
  }

  /** The address of the hop was heard within 30 s. */
  ghost predicate Known(h: History, hop: u32) {
    hop in h.heard && h.s.timer - h.heard[hop].at <= 30000
  }

  /**
   * In every run, a datagram for a hop whose address was not heard within 30 s
   * makes the interface broadcast one request for it, unless that is muted.
   */
  lemma {:induction false} Requests(mac: EthernetAddress, ip: u32, ops: seq<Op>, d: IPv4Datagram, hop: u32)
    ensures var h := Run(mac, ip, ops);
            h.s.mac == mac && h.s.ip == ip &&
            (!Known(h, hop) ==>
              SendDatagram(h.s, d, hop).1 ==
              if Muted(h, hop) then [] else [Frame(0xFFFF_FFFF_FFFF, mac, Arp(ARPMessage(1, mac, ip, 0, hop)))])
  {
    RunInv(mac, ip, ops);
    SameSelf(mac, ip, ops);
    MutedExactly(Run(mac, ip, ops), hop);
  }

  lemma {:induction false} SameSelf(mac: EthernetAddress, ip: u32, ops: seq<Op>)
    ensures Run(mac, ip, ops).s.mac == mac && Run(mac, ip, ops).s.ip == ip
  {
    if ops != [] { SameSelf(mac, ip, ops[..|ops| - 1]); }
  }

  /** In every run, a request that concerns the interface is answered with one frame to the asker, unless that is muted. */
  lemma {:induction false} Replies(mac: EthernetAddress, ip: u32, ops: seq<Op>, f: Frame)
    requires Concerns(mac, ip, f) && f.body.m.opcode == 1
    ensures var h, m := Run(mac, ip, ops), f.body.m;
            RecvFrame(h.s, f).1 ==
            if Muted(h, m.senderIp) then []
            else [Frame(m.senderEthernet, mac,
                        Arp(ARPMessage(if m.senderEthernet == 0xFFFF_FFFF_FFFF then 1 else 2, mac, ip, m.senderEthernet, m.senderIp)))]
  {
    RunInv(mac, ip, ops);
    SameSelf(mac, ip, ops);
    MutedExactly(Run(mac, ip, ops), f.body.m.senderIp);
  }

  /** In every run, a reply that concerns the interface leaves nothing waiting for its sender, who is then known. */
  lemma {:induction false} Releases(mac: EthernetAddress, ip: u32, ops: seq<Op>, f: Frame)
    requires Concerns(mac, ip, f) && f.body.m.opcode == 2
    ensures var h' := Step(Run(mac, ip, ops), Recv(f));
            Known(h', f.body.m.senderIp) && forall k :: 0 <= k < |h'.s.pending| ==> h'.s.pending[k].hop != f.body.m.senderIp
  {
    SameSelf(mac, ip, ops);
    var h := Run(mac, ip, ops);
    var ws := Waiting(h.s.pending, f.body.m.senderIp);
    forall k | 0 <= k < |ws| ensures ws[k].hop != f.body.m.senderIp { NotWaiting(h.s.pending, f.body.m.senderIp, k); }
  }

  lemma {:induction false} NotWaiting(ps: seq<Pending>, hop: u32, k: nat)
    requires k < |Waiting(ps, hop)|
    ensures Waiting(ps, hop)[k].hop != hop
  {
    var n := |ps| - 1;
    if k < |Waiting(ps[..n], hop)| { NotWaiting(ps[..n], hop, k); }
  }
}
