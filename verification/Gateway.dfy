/** The two links as the objects the page updates: the gateway, and the queue behind a WebSocket. */
module Gateway {
  import opened Bytes
  import opened Checksum
  import opened Net

  /** Hands the front frame to the guest's buffer. */
  method Deliver(frame: Frame, into: array<byte>) returns (n: int)
    modifies into
    ensures n == if |frame| <= into.Length then |frame| else -1
    ensures n >= 0 ==> into[..] == Splice(old(into[..]), 0, frame)
    ensures n < 0 ==> into[..] == old(into[..])
  {
    if |frame| > into.Length {
      return -1;
    }
    forall i | 0 <= i < |frame| {
      into[i] := frame[i];
    }
    n := |frame|;
  }

  method SwapAddresses(reply: array<byte>, p: seq<byte>)
    requires |p| >= 28 && reply[..] == p
    modifies reply
    ensures reply[..] == Swapped(p)
  {
    forall i | 0 <= i < 4 {
      reply[12 + i] := p[16 + i];
    }
    assert forall i :: 12 <= i < 16 ==> reply[i] == p[i + 4];
    forall i | 0 <= i < 4 {
      reply[16 + i] := p[12 + i];
    }
    assert forall i :: 16 <= i < 20 ==> reply[i] == p[i - 4];
  }

  /** Zeroes the field, sums the range and writes the sum back. */
  method Stamp(reply: array<byte>, start: nat, end: nat, field: nat)
    requires start <= field && field + 2 <= end <= reply.Length && end - start <= 0x10000
    modifies reply
    ensures var z := SetWord(old(reply[..]), field, 0);
            reply[..] == SetWord(z, field, InternetChecksum(z[start..end]))
  {
    hide InternetChecksum;
    ghost var z := SetWord(reply[..], field, 0);
    reply[field] := 0;
    reply[field + 1] := 0;
    assert reply[..] == z;
    var sum := InetChecksum(reply, start, end);
    assert reply[start..end] == z[start..end];
    reply[field] := sum / 256;
    reply[field + 1] := sum % 256;
  }

  method MakeEchoReply(p: seq<byte>) returns (r: seq<byte>)
    requires 28 <= |p| < 0x10000
    ensures r == EchoReply(p)
  {
    hide SetWord, InternetChecksum;
    var reply := new byte[|p|](i requires 0 <= i < |p| => p[i]);
    assert reply[..] == p;
    SwapAddresses(reply, p);
    Stamp(reply, 0, 20, 10);
    assert reply[..] == WithHeaderSum(Swapped(p)) by {
      assert SetWord(Swapped(p), 10, 0)[0..20] == SetWord(Swapped(p), 10, 0)[..20];
    }
    ghost var h := reply[..];
    reply[20] := 0;
    assert reply[..] == h[20 := 0];
    Stamp(reply, 20, |p|, 22);
    ghost var z := SetWord(h[20 := 0], 22, 0);
    assert z[20..|p|] == z[20..];
    r := reply[..];
  }

  class Link {
    const c: Config
    var outbox: seq<Frame>
    var stats: Stats

    ghost function Now(): (s: State)
      reads this
    {
      State(outbox, stats)
    }

    constructor (config: Config)
      requires config.Valid()
      ensures c == config && Now() == FRESH
    {
      c := config;
      outbox := [];
      stats := Stats(0, 0, 0, 0, 0, 0);
    }

    method AnswerArp(f: Frame) returns (answered: bool)
      modifies this
      ensures answered <==> AsksForGateway(c, f)
      ensures outbox == old(outbox) + if answered then [ArpReply(c, f)] else []
      ensures stats == if answered then old(stats).(arpRequests := old(stats).arpRequests + 1,
                                                    arpReplies := old(stats).arpReplies + 1) else old(stats)
    {
      if |f| < 42 {
        return false;
      }
      var oper := Word(f[20], f[21]);
      if f[14] != 0 || f[15] != 1 {
        return false;
      }
      if f[16] != ETH_IPV4 / 256 || f[17] != ETH_IPV4 % 256 {
        return false;
      }
      if f[18] != 6 || f[19] != 4 {
        return false;
      }
      if oper != 1 || f[38..42] != c.ip {
        return false;
      }
      stats := stats.(arpRequests := stats.arpRequests + 1);
      var reply := [0, 1, 8, 0, 6, 4, 0, 2] + c.mac + c.ip + f[22..28] + f[28..32];
      outbox := outbox + [EtherFrame(f[22..28], c.mac, ETH_ARP, reply)];
      stats := stats.(arpReplies := stats.arpReplies + 1);
      answered := true;
    }

    method AnswerIcmp(f: Frame) returns (answered: bool)
      modifies this
      ensures answered <==> AsksForEcho(c, f) && HoldsMessage(f)
      ensures outbox == old(outbox) +
                if answered then [EtherFrame(f[6..12], c.mac, ETH_IPV4, EchoReply(f[14..14 + TotalLength(f)]))] else []
      ensures stats == old(stats).(icmpRequests := old(stats).icmpRequests + if AsksForEcho(c, f) then 1 else 0,
                                   icmpReplies := old(stats).icmpReplies + if answered then 1 else 0)
    {
      hide EchoReply;
      if |f| < 42 {
        return false;
      }
      if f[14] / 16 != 4 || f[14] % 16 != 5 {
        return false;
      }
      if f[23] != 1 || f[30..34] != c.ip || f[34] != 8 {
        return false;
      }
      stats := stats.(icmpRequests := stats.icmpRequests + 1);
      var total: int := Word(f[16], f[17]);
      var icmpLen := total - 20;
      if icmpLen < 8 || 34 + icmpLen > |f| {
        return false;
      }
      var reply := MakeEchoReply(f[14..14 + total]);
      outbox := outbox + [EtherFrame(f[6..12], c.mac, ETH_IPV4, reply)];
      stats := stats.(icmpReplies := stats.icmpReplies + 1);
      answered := true;
    }

    /** Puts one frame from the guest on the link. */
    method Send(f: Frame) returns (sent: bool)
      modifies this
      ensures sent && Now() == AfterSend(old(Now()), c, f)
    {
      hide EchoReply, ArpReply, AsksForEcho, AsksForGateway, HoldsMessage;
      stats := stats.(frames := stats.frames + 1);
      var ethertype := if |f| >= 14 then Word(f[12], f[13]) else 0;
      var answered := false;
      if ethertype == ETH_ARP {
        answered := AnswerArp(f);
      } else if ethertype == ETH_IPV4 {
        answered := AnswerIcmp(f);
      }
      if !answered {
        stats := stats.(unanswered := stats.unanswered + 1);
      }
      sent := true;
    }

    /** The next frame at the front of `into`; -1 when there is none, or when it does not fit, and
        then it is gone. */
    method Recv(into: array<byte>) returns (n: int)
      modifies this, into
      ensures Now() == AfterRecv(old(Now()))
      ensures n == if old(outbox) != [] && |old(outbox)[0]| <= into.Length then |old(outbox)[0]| else -1
      ensures n >= 0 ==> old(outbox) != [] && into[..] == Splice(old(into[..]), 0, old(outbox)[0])
      ensures n < 0 ==> into[..] == old(into[..])
    {
      if outbox == [] {
        return -1;
      }
      var frame := outbox[0];
      outbox := outbox[1..];
      n := Deliver(frame, into);
    }
  }

  /** The link to a relay: what the socket brings waits in a queue of at most 256 frames. */
  class WebSocketLink {
    var inbound: seq<Frame>
    var frames: nat
    var sent: nat
    var received: nat
    var dropped: nat
    ghost var arrived: seq<Frame>
    ghost var taken: seq<Frame>
    ghost var wire: seq<Frame>

    /** What was accepted is what was taken and what waits, in order; every arrival was accepted or
        counted as dropped. */
    ghost predicate Valid()
      reads this
    {
      && |inbound| <= 256
      && arrived == taken + inbound && received == |arrived|
      && sent == |wire| <= frames
    }

    constructor ()
      ensures Valid() && inbound == [] && frames == sent == received == dropped == 0
    {
      inbound, frames, sent, received, dropped := [], 0, 0, 0, 0;
      arrived, taken, wire := [], [], [];
    }

    method OnMessage(frame: Frame)
      requires Valid()
      modifies this
      ensures Valid() && received + dropped == old(received + dropped) + 1
      ensures arrived == old(arrived) + if |old(inbound)| < 256 then [frame] else []
      ensures taken == old(taken) && wire == old(wire) && frames == old(frames) && sent == old(sent)
    {
      if |inbound| >= 256 {
        dropped := dropped + 1;
        return;
      }
      inbound := inbound + [frame];
      arrived := arrived + [frame];
      received := received + 1;
    }

    method Recv(into: array<byte>) returns (n: int)
      requires Valid()
      modifies this, into
      ensures Valid() && arrived == old(arrived)
      ensures taken == old(taken) + if old(inbound) == [] then [] else [old(inbound)[0]]
      ensures n == if old(inbound) != [] && |old(inbound)[0]| <= into.Length then |old(inbound)[0]| else -1
      ensures n >= 0 ==> old(inbound) != [] && into[..] == Splice(old(into[..]), 0, old(inbound)[0])
      ensures n < 0 ==> into[..] == old(into[..])
      ensures dropped == old(dropped) && wire == old(wire)
    {
      if inbound == [] {
        return -1;
      }
      var frame := inbound[0];
      taken := taken + [frame];
      inbound := inbound[1..];
      n := Deliver(frame, into);
    }

    /** A socket that is not open refuses the frame. */
    method Send(frame: Frame, isOpen: bool) returns (ok: bool)
      requires Valid()
      modifies this
      ensures Valid() && ok == isOpen && frames == old(frames) + 1
      ensures wire == old(wire) + if isOpen then [frame] else []
      ensures inbound == old(inbound) && arrived == old(arrived) && taken == old(taken) && dropped == old(dropped)
    {
      frames := frames + 1;
      if !isOpen {
        return false;
      }
      wire := wire + [frame];
      sent := sent + 1;
      ok := true;
    }
  }
}
