/** The network interface object. */
module NetworkInterfaces {
  import opened Types
  import opened IPCodec
  import opened Resolution

  lemma {:induction false} FlushStep(ps: seq<Pending>, n: nat, hop: u32, address: EthernetAddress, mac: EthernetAddress)
    requires n < |ps|
    ensures var ws, fs := Waiting(ps[..n], hop), Released(ps[..n], hop, address, mac);
            if ps[n].hop == hop
            then Waiting(ps[..n + 1], hop) == ws && Released(ps[..n + 1], hop, address, mac) == fs + [Frame(address, mac, Ip(ps[n].d))]
            else Waiting(ps[..n + 1], hop) == ws + [ps[n]] && Released(ps[..n + 1], hop, address, mac) == fs
  {
    assert ps[..n + 1][..n] == ps[..n];
  }

  lemma Around<T>(ws: seq<T>, ps: seq<T>, n: nat)
    requires n < |ps|
    ensures var all := ws + ps[n..];
            && all[|ws|] == ps[n] && all[..|ws|] + all[|ws| + 1..] == ws + ps[n + 1..] && all == (ws + [ps[n]]) + ps[n + 1..]
  {
  }

  class NetworkInterface {
    const ethernetAddress: EthernetAddress
    const ipAddress: u32
    var framesOut: seq<Frame>
    var arpTable: map<u32, Node>
    /** Datagrams that wait for the address of their hop, oldest first. */
    var sentDgram: seq<Pending>
    var timer: nat

    ghost function State(): Interface
      reads this
    {
      Interface(ethernetAddress, ipAddress, arpTable, sentDgram, timer)
    }

    constructor (ethernetAddress: EthernetAddress, ipAddress: u32)
      ensures State() == Interface(ethernetAddress, ipAddress, map[], [], 0) && framesOut == []
    {
      this.ethernetAddress, this.ipAddress := ethernetAddress, ipAddress;
      framesOut, arpTable, sentDgram, timer := [], map[], [], 0;
    }

    method SendArp(target: u32, address: Option<EthernetAddress>)
      modifies this`framesOut, this`arpTable
      ensures State() == Resolution.SendArp(old(State()), target, address).0
      ensures framesOut == old(framesOut) + Resolution.SendArp(old(State()), target, address).1
    {
      var firstSend := target !in arpTable;
      if firstSend {
        arpTable := arpTable[target := Node(0, 0, 0, false)];
      }
      if !firstSend && timer - arpTable[target].asked <= 5 * 1000 {
        return;
      }
      var dst := if address.Some? then address.value else ETHERNET_BROADCAST;
      var message := ARPMessage(
        if dst == ETHERNET_BROADCAST then OPCODE_REQUEST else OPCODE_REPLY,
        ethernetAddress, ipAddress, if address.Some? then address.value else 0, target);
      framesOut := framesOut + [Frame(dst, ethernetAddress, Arp(message))];
      arpTable := arpTable[target := arpTable[target].(asked := timer)];
    }

    method SendDgram(d: IPv4Datagram, address: EthernetAddress)
      modifies this`framesOut
      ensures framesOut == old(framesOut) + [Frame(address, ethernetAddress, Ip(d))]
    {
      framesOut := framesOut + [Frame(address, ethernetAddress, Ip(d))];
    }

    method SendDatagram(d: IPv4Datagram, nextHop: u32)
      modifies this
      ensures State() == Resolution.SendDatagram(old(State()), d, nextHop).0
      ensures framesOut == old(framesOut) + Resolution.SendDatagram(old(State()), d, nextHop).1
    {
      if nextHop !in arpTable || !arpTable[nextHop].known || timer - arpTable[nextHop].updated > 30 * 1000 {
        SendArp(nextHop, None);
        sentDgram := sentDgram + [Pending(nextHop, d)];
      } else {
        SendDgram(d, arpTable[nextHop].address);
      }
    }

    /** Sends what waits for the hop and forgets it. */
    method Flush(hop: u32, address: EthernetAddress)
      modifies this`framesOut, this`sentDgram
      ensures sentDgram == Waiting(old(sentDgram), hop)
      ensures framesOut == old(framesOut) + Released(old(sentDgram), hop, address, ethernetAddress)
    {
      var i := 0;
      ghost var ps, done, ws: seq<Pending>, fs: seq<Frame> := sentDgram, 0, [], [];
      while i < |sentDgram|
        invariant 0 <= done <= |ps| && ws == Waiting(ps[..done], hop) && fs == Released(ps[..done], hop, address, ethernetAddress)
        invariant i == |ws| && sentDgram == ws + ps[done..] && framesOut == old(framesOut) + fs
        decreases |ps| - done
      {
        FlushStep(ps, done, hop, address, ethernetAddress);
        Around(ws, ps, done);
        if sentDgram[i].hop == hop {
          SendDgram(sentDgram[i].d, address);
          fs := fs + [Frame(address, ethernetAddress, Ip(ps[done].d))];
          sentDgram := sentDgram[..i] + sentDgram[i + 1..];
        } else {
          i, ws := i + 1, ws + [ps[done]];
        }
        done := done + 1;
      }
      assert ps[..done] == ps;
    }

    method Learn(m: ARPMessage)
      modifies this`arpTable
      ensures State() == Resolution.Learn(old(State()), m)
    {
      if m.senderIp in arpTable {
        var node := arpTable[m.senderIp];
        arpTable := arpTable[m.senderIp := node.(updated := timer, address := m.senderEthernet, known := true)];
      } else {
        arpTable := arpTable[m.senderIp := Node(m.senderEthernet, timer, 0, true)];
      }
    }

    method React(m: ARPMessage)
      modifies this
      ensures State() == Resolution.React(old(State()), m).0
      ensures framesOut == old(framesOut) + Resolution.React(old(State()), m).1
    {
      if m.opcode == OPCODE_REQUEST {
        SendArp(m.senderIp, Some(m.senderEthernet));
      } else if m.opcode == OPCODE_REPLY {
        Flush(m.senderIp, m.senderEthernet);
      }
    }

    method RecvFrame(f: Frame) returns (d: Option<IPv4Datagram>)
      modifies this
      ensures (State(), d) == (Resolution.RecvFrame(old(State()), f).0, Resolution.RecvFrame(old(State()), f).2)
      ensures framesOut == old(framesOut) + Resolution.RecvFrame(old(State()), f).1
      ensures d == if f.dst == ethernetAddress && f.body.Ip? then Some(f.body.d) else None
    {
      d := None;
      var isArp := f.body.Arp? || f.body.BadArp?;
      var isIp := f.body.Ip? || f.body.BadIp?;
      if f.dst == ethernetAddress && isIp {
        if f.body.Ip? {
          d := Some(f.body.d);
        }
      } else if (f.dst == ethernetAddress || f.dst == ETHERNET_BROADCAST) && isArp {
        if f.body.BadArp? {
          return;
        }
        var m := f.body.m;
        if m.targetIp != ipAddress && m.senderIp != m.targetIp {
          return;
        }
        React(m);
        Learn(m);
      }
    }

    method Tick(ms: nat)
      modifies this`timer
      ensures State() == old(State()).(timer := old(timer) + ms)
    {
      timer := timer + ms;
    }
  }
}
