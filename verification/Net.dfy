/** The gateway in the page: it answers ARP for its address (RFC 826) and ICMP echo (RFC 792). */
module Net {
  import opened Bytes
  import opened Checksum

  type Frame = seq<byte>

  const ETH_ARP: nat := 0x0806
  const ETH_IPV4: nat := 0x0800

  datatype Config = Config(mac: seq<byte>, ip: seq<byte>) {
    predicate Valid() {
      |mac| == 6 && |ip| == 4
    }
  }

  function EtherFrame(dst: seq<byte>, src: seq<byte>, ethertype: nat, payload: seq<byte>): (f: Frame)
    requires ethertype < 0x10000
  {
    dst + src + [ethertype / 256, ethertype % 256] + payload
  }

  function EtherType(f: Frame): (t: nat) {
    if |f| >= 14 then Word(f[12], f[13]) else 0
  }

  // ------------------------------------------------------------------ ARP

  /** An Ethernet/IPv4 request for the gateway's address. */
  predicate AsksForGateway(c: Config, f: Frame) {
    && |f| >= 42
    && f[14] == 0 && f[15] == 1 && f[16] == 8 && f[17] == 0 && f[18] == 6 && f[19] == 4
    && Word(f[20], f[21]) == 1
    && f[38..42] == c.ip
  }

  function ArpReply(c: Config, f: Frame): (r: Frame)
    requires |f| >= 42
  {
    EtherFrame(f[22..28], c.mac, ETH_ARP, [0, 1, 8, 0, 6, 4, 0, 2] + c.mac + c.ip + f[22..28] + f[28..32])
  }

  // ------------------------------------------------------------------ ICMP echo

  /** An IPv4 packet without options, carrying an ICMP echo request to the gateway. */
  predicate AsksForEcho(c: Config, f: Frame) {
    && |f| >= 42
    && f[14] / 16 == 4 && f[14] % 16 == 5 && f[23] == 1
    && f[30..34] == c.ip
    && f[34] == 8
  }

  function TotalLength(f: Frame): (n: nat)
    requires |f| >= 18
  {
    Word(f[16], f[17])
  }

  /** The frame holds the whole packet, and the packet a whole ICMP header. */
  predicate HoldsMessage(f: Frame)
    requires |f| >= 42
  {
    28 <= TotalLength(f) <= |f| - 14
  }

  function Swapped(p: seq<byte>): (r: seq<byte>)
    requires |p| >= 28
    ensures |r| == |p|
  {
    p[..12] + p[16..20] + p[12..16] + p[20..]
  }

  function WithHeaderSum(p: seq<byte>): (r: seq<byte>)
    requires |p| >= 28
    ensures |r| == |p|
  {
    var z := SetWord(p, 10, 0);
    SetWord(z, 10, InternetChecksum(z[..20]))
  }

  function WithMessageSum(p: seq<byte>): (r: seq<byte>)
    requires |p| >= 28
    ensures |r| == |p|
  {
    var z := SetWord(p[20 := 0], 22, 0);
    SetWord(z, 22, InternetChecksum(z[20..]))
  }

  function EchoReply(p: seq<byte>): (r: seq<byte>)
    requires |p| >= 28
    ensures |r| == |p|
  {
    WithMessageSum(WithHeaderSum(Swapped(p)))
  }

  // ------------------------------------------------------------------ what is answered

  function Answer(c: Config, f: Frame): (r: Option<Frame>) {
    if EtherType(f) == ETH_ARP then
      if AsksForGateway(c, f) then Some(ArpReply(c, f)) else None
    else if EtherType(f) == ETH_IPV4 then
      if AsksForEcho(c, f) && HoldsMessage(f)
      then Some(EtherFrame(f[6..12], c.mac, ETH_IPV4, EchoReply(f[14..14 + TotalLength(f)])))
      else None
    else None
  }

  lemma HeaderVerifies(p: seq<byte>)
    requires |p| >= 28
    ensures InternetChecksum(WithHeaderSum(p)[..20]) == 0
    ensures forall i :: 0 <= i < |p| && i != 10 && i != 11 ==> WithHeaderSum(p)[i] == p[i]
  {
    hide InternetChecksum;
    var z := SetWord(p, 10, 0);
    FieldVerifies(z[..20], 10);
    var sum := InternetChecksum(z[..20]);
    assert SetWord(z, 10, sum)[..20] == SetWord(z[..20], 10, sum);
  }

  lemma MessageVerifies(p: seq<byte>)
    requires |p| >= 28
    ensures InternetChecksum(WithMessageSum(p)[20..]) == 0 && WithMessageSum(p)[20] == 0
    ensures forall i :: 0 <= i < |p| && i != 20 && i != 22 && i != 23 ==> WithMessageSum(p)[i] == p[i]
  {
    hide InternetChecksum;
    var z := SetWord(p[20 := 0], 22, 0);
    FieldVerifies(z[20..], 2);
    var sum := InternetChecksum(z[20..]);
    assert SetWord(z, 22, sum)[20..] == SetWord(z[20..], 2, sum);
  }

  /** Every echo reply checks to zero, in its header and in its message, odd lengths included; the
      addresses are swapped, the type is 0, and every other byte is the request's. */
  lemma EchoVerifies(p: seq<byte>)
    requires |p| >= 28
    ensures var r := EchoReply(p);
            && InternetChecksum(r[..20]) == 0 && InternetChecksum(r[20..]) == 0
            && r[12..16] == p[16..20] && r[16..20] == p[12..16]
            && r[20] == 0
            && r[..10] == p[..10] && r[21] == p[21] && r[24..] == p[24..]
  {
    hide InternetChecksum, WithHeaderSum, WithMessageSum;
    var s := Swapped(p);
    var h := WithHeaderSum(s);
    HeaderVerifies(s);
    MessageVerifies(h);
    assert WithMessageSum(h)[..20] == h[..20];
  }

  /** For every echo request that is answered: the reply goes back to the sender of the frame, its
      source is the gateway, its destination the asker, both checksums verify, and the rest of the
      message is the request's. */
  lemma EchoAnswerVerifies(c: Config, f: Frame)
    requires c.Valid() && EtherType(f) == ETH_IPV4 && Answer(c, f).Some?
    ensures var r, total := Answer(c, f).value, TotalLength(f);
            && |r| == 14 + total && r[..6] == f[6..12] && r[6..12] == c.mac && EtherType(r) == ETH_IPV4
            && InternetChecksum(r[14..34]) == 0 && InternetChecksum(r[34..]) == 0
            && r[26..30] == c.ip && r[30..34] == f[26..30]
            && r[34] == 0 && r[14..24] == f[14..24] && r[35] == f[35] && r[38..] == f[38..14 + total]
  {
    hide InternetChecksum, EchoReply;
    var total := TotalLength(f);
    var p := f[14..14 + total];
    EchoVerifies(p);
    var e := EchoReply(p);
    var r := Answer(c, f).value;
    assert r[14..] == e;
    EchoInFrame(r, e);
    EchoInFrame(f[..14 + total], p);
  }

  lemma EchoInFrame(r: Frame, e: seq<byte>)
    requires |r| >= 42 && e == r[14..]
    ensures r[14..34] == e[..20] && r[34..] == e[20..] && r[26..30] == e[12..16] && r[30..34] == e[16..20]
    ensures r[34] == e[20] && r[14..24] == e[..10] && r[35] == e[21] && r[38..] == e[24..]
  {
  }

  /** The flags and the fragment offset of a request are never looked at: a fragment is answered
      exactly when the whole packet would be. */
  lemma FragmentsAreAnswered(c: Config, f: Frame, x: byte, y: byte)
    requires |f| >= 42
    ensures var g := f[20 := x][21 := y];
            EtherType(f) == ETH_IPV4 ==> (Answer(c, g).Some? <==> Answer(c, f).Some?)
  {
    hide EchoReply, EtherFrame;
    var g := f[20 := x][21 := y];
    assert g[30..34] == f[30..34];
  }

  /** No answer is itself a request: gateways on one link never answer each other. */
  lemma AnswersAreNotAnswered(c: Config, d: Config, f: Frame)
    requires c.Valid() && Answer(c, f).Some?
    ensures Answer(d, Answer(c, f).value) == None
  {
    hide EchoReply;
    if EtherType(f) == ETH_IPV4 {
      var p := f[14..14 + TotalLength(f)];
      EchoVerifies(p);
      var r := Answer(c, f).value;
      assert r[14..] == EchoReply(p);
      assert r[34] == EchoReply(p)[20];
    }
  }

  /** The ARP answer tells the asker, and nobody else, the gateway's hardware address. */
  lemma ArpAnswerBinds(c: Config, f: Frame)
    requires c.Valid() && EtherType(f) == ETH_ARP && AsksForGateway(c, f)
    ensures Answer(c, f).Some?
    ensures var r := Answer(c, f).value;
            && |r| == 42 && r[..6] == f[22..28] && EtherType(r) == ETH_ARP
            && Word(r[20], r[21]) == 2
            && r[28..32] == f[38..42] && r[22..28] == c.mac
            && r[32..38] == f[22..28] && r[38..42] == f[28..32]
  {
  }

  /** A host on the link, with the hardware addresses it knows. */
  datatype Peer = Peer(mac: seq<byte>, ip: seq<byte>, table: map<seq<byte>, seq<byte>>) {
    predicate Valid() {
      |mac| == 6 && |ip| == 4
    }
  }

  const BROADCAST: seq<byte> := [255, 255, 255, 255, 255, 255]

  /** What a host asks when it has a packet for `target` and no address for it. */
  function ArpRequest(h: Peer, target: seq<byte>): (f: Frame) {
    EtherFrame(BROADCAST, h.mac, ETH_ARP, [0, 1, 8, 0, 6, 4, 0, 1] + h.mac + h.ip + Zeros(6) + target)
  }

  /** What a host makes of a frame, as RFC 826 has it under "Packet Reception": an address it knows is
      brought up to date, and one it does not know is entered only if the packet is for the host. */
  function Learns(h: Peer, f: Frame): (r: Peer) {
    if |f| < 42 || EtherType(f) != ETH_ARP || (f[..6] != h.mac && f[..6] != BROADCAST) then h
    else if f[14..20] != [0, 1, 8, 0, 6, 4] then h
    else if f[28..32] in h.table || f[38..42] == h.ip then h.(table := h.table[f[28..32] := f[22..28]])
    else h
  }

  /** A host that asks the gateway learns the gateway's hardware address, and exactly when it asks for
      the gateway's own; no other host learns anything from the answer. */
  lemma ArpResolves(c: Config, h: Peer, target: seq<byte>, other: Peer)
    requires c.Valid() && h.Valid() && |target| == 4 && h.mac != BROADCAST
    ensures var a := Answer(c, ArpRequest(h, target));
            && (a.Some? <==> target == c.ip)
            && (a.Some? ==> Learns(h, a.value) == h.(table := h.table[c.ip := c.mac]))
            && (a.Some? && other.mac != h.mac ==> Learns(other, a.value) == other)
  {
    var f := ArpRequest(h, target);
    RequestFields(h, target);
    if target == c.ip {
      ArpAnswerBinds(c, f);
      var r := Answer(c, f).value;
      assert r[14..20] == [0, 1, 8, 0, 6, 4];
    }
  }

  lemma RequestFields(h: Peer, target: seq<byte>)
    requires h.Valid() && |target| == 4
    ensures var f := ArpRequest(h, target);
            && |f| == 42 && EtherType(f) == ETH_ARP && f[14..20] == [0, 1, 8, 0, 6, 4] && Word(f[20], f[21]) == 1
            && f[14] == 0 && f[15] == 1 && f[16] == 8 && f[17] == 0 && f[18] == 6 && f[19] == 4
            && f[22..28] == h.mac && f[28..32] == h.ip && f[38..42] == target
  {
  }

  // ------------------------------------------------------------------ runs of the gateway

  datatype Stats = Stats(frames: nat, arpRequests: nat, arpReplies: nat, icmpRequests: nat, icmpReplies: nat,
                         unanswered: nat)

  datatype State = State(outbox: seq<Frame>, stats: Stats)

  const FRESH := State([], Stats(0, 0, 0, 0, 0, 0))

  function Counted(s: Stats, c: Config, f: Frame): (r: Stats) {
    var answered := Answer(c, f).Some?;
    var arp := EtherType(f) == ETH_ARP;
    var echo := EtherType(f) == ETH_IPV4 && AsksForEcho(c, f);
    Stats(s.frames + 1,
          s.arpRequests + if arp && answered then 1 else 0,
          s.arpReplies + if arp && answered then 1 else 0,
          s.icmpRequests + if echo then 1 else 0,
          s.icmpReplies + if echo && answered then 1 else 0,
          s.unanswered + if answered then 0 else 1)
  }

  function AfterSend(s: State, c: Config, f: Frame): (r: State) {
    State(s.outbox + match Answer(c, f) case None => [] case Some(a) => [a], Counted(s.stats, c, f))
  }

  /** The frame at the front leaves the queue, whether it fits the buffer or not. */
  function AfterRecv(s: State): (r: State) {
    if s.outbox == [] then s else s.(outbox := s.outbox[1..])
  }

  datatype Op = Send(frame: Frame) | Recv(room: nat)

  /** A frame taken off the queue, and whether the buffer had room for it. */
  datatype Taken = Taken(frame: Frame, fits: bool)

  function Run(c: Config, ops: seq<Op>): (r: State) {
    if ops == [] then FRESH
    else
      var s := Run(c, ops[..|ops| - 1]);
      match ops[|ops| - 1] case Send(f) => AfterSend(s, c, f) case Recv(_) => AfterRecv(s)
  }

  function Takes(c: Config, ops: seq<Op>): (r: seq<Taken>) {
    if ops == [] then []
    else
      var before := ops[..|ops| - 1];
      var s := Run(c, before);
      Takes(c, before) +
      match ops[|ops| - 1]
      case Send(_) => []
      case Recv(room) => if s.outbox == [] then [] else [Taken(s.outbox[0], |s.outbox[0]| <= room)]
  }

  /** The answers to the frames sent, in order. */
  function Replies(c: Config, ops: seq<Op>): (r: seq<Frame>) {
    if ops == [] then []
    else
      Replies(c, ops[..|ops| - 1]) +
      match ops[|ops| - 1]
      case Recv(_) => []
      case Send(f) => match Answer(c, f) case None => [] case Some(a) => [a]
  }

  function Frames(taken: seq<Taken>): (r: seq<Frame>)
    ensures |r| == |taken|
  {
    seq(|taken|, i requires 0 <= i < |taken| => taken[i].frame)
  }

  function CountSends(ops: seq<Op>): (n: nat) {
    if ops == [] then 0
    else CountSends(ops[..|ops| - 1]) + if ops[|ops| - 1].Send? then 1 else 0
  }

  /** Over every run every frame sent is counted once: as an ARP reply, an ICMP reply or unanswered. */
  lemma {:induction false} FramesAreCounted(c: Config, ops: seq<Op>)
    ensures var s := Run(c, ops).stats;
            && s.frames == CountSends(ops) == s.arpReplies + s.icmpReplies + s.unanswered
            && s.arpRequests == s.arpReplies && s.icmpReplies <= s.icmpRequests
            && |Replies(c, ops)| == s.arpReplies + s.icmpReplies
    decreases |ops|
  {
    hide Answer, AsksForEcho, EtherType;
    if ops != [] {
      FramesAreCounted(c, ops[..|ops| - 1]);
      if ops[|ops| - 1].Send? {
        AnswerKinds(c, ops[|ops| - 1].frame);
      }
    }
  }

  /** Over every run the replies leave the queue in the order they were made, none lost and none
      twice: those taken and those still waiting are all of them. */
  lemma {:induction false} RepliesInOrder(c: Config, ops: seq<Op>)
    ensures Replies(c, ops) == Frames(Takes(c, ops)) + Run(c, ops).outbox
    decreases |ops|
  {
    hide Answer, Counted;
    if ops != [] {
      var before := ops[..|ops| - 1];
      RepliesInOrder(c, before);
      var s := Run(c, before);
      var replies, taken := Replies(c, before), Takes(c, before);
      hide Frames;
      match ops[|ops| - 1]
      case Send(f) =>
        var a := match Answer(c, f) case None => [] case Some(a) => [a];
        assert replies + a == Frames(taken) + (s.outbox + a);
      case Recv(room) =>
        if s.outbox != [] {
          FrontLeaves(replies, taken, s.outbox, |s.outbox[0]| <= room);
        }
    }
  }

  lemma FrontLeaves(replies: seq<Frame>, taken: seq<Taken>, outbox: seq<Frame>, fits: bool)
    requires replies == Frames(taken) + outbox && outbox != []
    ensures replies == Frames(taken + [Taken(outbox[0], fits)]) + outbox[1..]
  {
    var t := Taken(outbox[0], fits);
    assert Frames(taken + [t]) == Frames(taken) + [t.frame];
    assert outbox == [outbox[0]] + outbox[1..];
  }

  lemma AnswerKinds(c: Config, f: Frame)
    ensures Answer(c, f).Some? ==> EtherType(f) == ETH_ARP || (EtherType(f) == ETH_IPV4 && AsksForEcho(c, f))
  {
  }
}
