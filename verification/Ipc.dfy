/** Synchronous message passing in the kernel: send, receive, send-and-receive, and notifications,
    between single-threaded processes that stay alive. */
module Ipc {
  import opened Bytes

  type Pid = nat
  type Message = seq<byte>

  /** An endpoint that is no process's. */
  const NONE: Pid := 31743

  /** What the kernel keeps for a process. `getFrom` is None for a receive from anyone; it and `sendTo`
      are left as they were when the process stops waiting. A dead process has no endpoint. */
  datatype Proc = Proc(sending: bool, receiving: bool, replyPend: bool, dead: bool, sendTo: Pid, getFrom: Option<Pid>,
                       sendMsg: Message, callerQ: seq<Pid>, pending: set<Pid>)
  {
    predicate Blocked() {
      sending || receiving
    }

    predicate CanCall() {
      !Blocked() && !dead
    }

    function BlockedOn(): (p: Option<Pid>) {
      if sending then Some(sendTo) else if receiving then getFrom else None
    }
  }

  /** A process that has made no call: the table is zeroed, so its last partner is process 0. */
  const IDLE := Proc(false, false, false, false, 0, Some(0), [], [], {})

  datatype Sent = Sent(src: Pid, dst: Pid, msg: Message)

  /** The process table; every message a send was accepted for, every message delivered, and every
      message that went with a process that was cleared. */
  datatype State = State(procs: seq<Proc>, sent: seq<Sent>, delivered: seq<Sent>, dropped: seq<Sent>)

  datatype Code = Ok | NotReady | Locked | DeadDestination

  /** The calls of process `c`; the last is the process manager's, which clears a process away. */
  datatype Op =
    | Send(c: Pid, d: Pid, m: Message)
    | SendNb(c: Pid, d: Pid, m: Message)
    | SendRec(c: Pid, d: Pid, m: Message)
    | Receive(c: Pid, src: Option<Pid>)
    | Notify(c: Pid, d: Pid)
    | Clear(c: Pid, d: Pid)

  // ------------------------------------------------------------------ the deadlock check

  /** Follows what each process is blocked on, for at most `k` steps, looking for the caller. A pair
      of which one sends and the other receives is not a deadlock. */
  predicate Chase(procs: seq<Proc>, isSend: bool, caller: Pid, at: Pid, first: bool, k: nat)
    decreases k
  {
    if k == 0 || at >= |procs| then false
    else
      match procs[at].BlockedOn()
      case None => false
      case Some(next) =>
        if next == caller then !(first && procs[at].sending != isSend)
        else Chase(procs, isSend, caller, next, false, k - 1)
  }

  predicate Deadlock(procs: seq<Proc>, isSend: bool, caller: Pid, at: Option<Pid>) {
    match at case None => false case Some(p) => Chase(procs, isSend, caller, p, true, |procs|)
  }

  // ------------------------------------------------------------------ the primitives

  /** Whether the process takes a message from `src` now. One waiting for a reply takes it only from
      whom it asked; whether it is receiving at all is not looked at then. */
  predicate WillReceive(p: Proc, src: Pid) {
    if p.replyPend then !p.sending && p.getFrom == Some(src)
    else p.receiving && !p.sending && (p.getFrom.None? || p.getFrom == Some(src))
  }

  function MiniSend(s: State, c: Pid, d: Pid, m: Message, nonBlocking: bool): (r: (State, Code))
    requires c < |s.procs|
  {
    if d >= |s.procs| || s.procs[d].dead then (s, DeadDestination)
    else if WillReceive(s.procs[d], c) then
      (s.(procs := s.procs[d := s.procs[d].(receiving := false, replyPend := false)],
          sent := s.sent + [Sent(c, d, m)], delivered := s.delivered + [Sent(c, d, m)]), Ok)
    else if nonBlocking then (s, NotReady)
    else if Deadlock(s.procs, true, c, Some(d)) then (s, Locked)
    else
      var waiting := s.procs[c := s.procs[c].(sending := true, sendTo := d, sendMsg := m)];
      (s.(procs := waiting[d := waiting[d].(callerQ := waiting[d].callerQ + [c])], sent := s.sent + [Sent(c, d, m)]), Ok)
  }

  /** The place in the queue of the first sender the receive wants, or its length. */
  function FirstMatch(procs: seq<Proc>, q: seq<Pid>, src: Option<Pid>): (k: nat)
    ensures k <= |q|
  {
    if q == [] then 0
    else if (src.None? || src.value == q[0]) && q[0] < |procs| && procs[q[0]].sending then 0
    else 1 + FirstMatch(procs, q[1..], src)
  }

  function Least(s: set<Pid>, i: nat, n: nat): (l: nat)
    requires i <= n
    decreases n - i
  {
    if i == n || i in s then i else Least(s, i + 1, n)
  }

  function Block(s: State, c: Pid, src: Option<Pid>): (r: (State, Code))
    requires c < |s.procs|
  {
    if Deadlock(s.procs, false, c, src) then (s, Locked)
    else (s.(procs := s.procs[c := s.procs[c].(getFrom := src, receiving := true)]), Ok)
  }

  function TakeFrom(s: State, c: Pid, k: nat): (r: State)
    requires c < |s.procs| && k < |s.procs[c].callerQ| && s.procs[c].callerQ[k] < |s.procs|
  {
    var q := s.procs[c].callerQ;
    var p := q[k];
    var sender := s.procs[p := s.procs[p].(sending := false)];
    s.(procs := sender[c := sender[c].(callerQ := q[..k] + q[k + 1..], replyPend := false)],
       delivered := s.delivered + [Sent(p, c, s.procs[p].sendMsg)])
  }

  /** Every process in a queue exists. */
  predicate Linked(procs: seq<Proc>) {
    forall d, k :: 0 <= d < |procs| && 0 <= k < |procs[d].callerQ| ==> procs[d].callerQ[k] < |procs|
  }

  function MiniReceive(s: State, c: Pid, src: Option<Pid>): (r: (State, Code))
    requires c < |s.procs| && Linked(s.procs)
  {
    var p := s.procs[c];
    if p.sending then Block(s, c, src)
    else if !p.replyPend && p.pending != {} then
      (s.(procs := s.procs[c := p.(pending := p.pending - {Least(p.pending, 0, |s.procs|)})]), Ok)
    else
      var k := FirstMatch(s.procs, p.callerQ, src);
      if k < |p.callerQ| then (TakeFrom(s, c, k), Ok) else Block(s, c, src)
  }

  function WithPend(s: State, c: Pid, pend: bool): (r: State)
    requires c < |s.procs|
  {
    s.(procs := s.procs[c := s.procs[c].(replyPend := pend)])
  }

  function DoSendRec(s: State, c: Pid, d: Pid, m: Message): (r: (State, Code))
    requires c < |s.procs| && Linked(s.procs)
  {
    var sent := MiniSend(WithPend(s, c, true), c, d, m, false);
    if sent.1 != Ok then sent
    else
      SendLinks(WithPend(s, c, true), c, d, m, false);
      MiniReceive(sent.0, c, Some(d))
  }

  lemma SendLinks(s: State, c: Pid, d: Pid, m: Message, nonBlocking: bool)
    requires c < |s.procs| && Linked(s.procs)
    ensures |MiniSend(s, c, d, m, nonBlocking).0.procs| == |s.procs|
    ensures Linked(MiniSend(s, c, d, m, nonBlocking).0.procs)
  {
    hide Deadlock, WillReceive;
  }

  function DoNotify(s: State, c: Pid, d: Pid): (r: (State, Code)) {
    if d >= |s.procs| then (s, DeadDestination)
    else
      var p := s.procs[d];
      if p.receiving && !p.replyPend && (p.getFrom.None? || p.getFrom == Some(c))
      then (s.(procs := s.procs[d := p.(receiving := false)]), Ok)
      else (s.(procs := s.procs[d := p.(pending := p.pending + {c})]), Ok)
  }

  // ------------------------------------------------------------------ clearing a process

  /** A message its sender is blocked on, lost with the wait. */
  function Lost(p: Pid, x: Proc): (r: seq<Sent>) {
    if x.sending then [Sent(p, x.sendTo, x.sendMsg)] else []
  }

  /** The process stops waiting; a sender leaves the queue it is in. */
  function ClearIpc(s: State, p: Pid): (r: State)
    requires p < |s.procs|
    ensures |r.procs| == |s.procs|
  {
    var x := s.procs[p];
    var freed := if x.sending && x.sendTo < |s.procs|
                 then s.procs[x.sendTo := s.procs[x.sendTo].(callerQ := Without(s.procs[x.sendTo].callerQ, p))]
                 else s.procs;
    s.(procs := freed[p := freed[p].(sending := false, receiving := false, getFrom := None, sendTo := NONE)],
       dropped := s.dropped + Lost(p, x))
  }

  /** What process `p` still knows of `r` is forgotten, and a wait for it ends. */
  function ClearRef(s: State, r: Pid, p: Pid): (t: State)
    requires p < |s.procs|
    ensures |t.procs| == |s.procs|
  {
    if p == r then s
    else
      var a := s.(procs := s.procs[p := s.procs[p].(pending := s.procs[p].pending - {r})]);
      var b := if a.procs[p].BlockedOn() == Some(r) then ClearIpc(a, p) else a;
      var x := b.procs[p];
      b.(procs := b.procs[p := x.(sendTo := if x.sendTo == r then NONE else x.sendTo,
                                  getFrom := if x.getFrom == Some(r) then None else x.getFrom)])
  }

  function ClearRefs(s: State, r: Pid, i: nat): (t: State)
    requires i <= |s.procs|
    ensures |t.procs| == |s.procs|
  {
    if i == 0 then s else ClearRef(ClearRefs(s, r, i - 1), r, i - 1)
  }

  /** The process is marked dead first, and its own wait cleared after: by then it no longer looks like
      a sender. */
  function Buried(s: State, r: Pid): (t: State)
    requires r < |s.procs|
    ensures |t.procs| == |s.procs|
  {
    var x := s.procs[r];
    ClearIpc(s.(procs := s.procs[r := x.(sending := false, receiving := false, dead := true)],
                dropped := s.dropped + Lost(r, x)), r)
  }

  function ClearEndpoint(s: State, r: Pid): (t: State)
    requires r < |s.procs|
    ensures |t.procs| == |s.procs|
  {
    ClearRefs(Buried(s, r), r, |s.procs|)
  }

  // ------------------------------------------------------------------ one call

  /** One call. A process that is blocked or dead makes none. */
  function Step(s: State, op: Op): (r: (State, Code))
    requires Linked(s.procs)
  {
    if op.c >= |s.procs| || !s.procs[op.c].CanCall() then (s, Ok)
    else
      match op
      case Send(c, d, m) => MiniSend(s, c, d, m, false)
      case SendNb(c, d, m) => MiniSend(s, c, d, m, true)
      case SendRec(c, d, m) => DoSendRec(s, c, d, m)
      case Receive(c, src) => MiniReceive(WithPend(s, c, false), c, src)
      case Notify(c, d) => DoNotify(s, c, d)
      case Clear(_, d) => if d < |s.procs| && !s.procs[d].dead then (ClearEndpoint(s, d), Ok) else (s, Ok)
  }

  // ------------------------------------------------------------------ what every call keeps

  /** Process `p` is blocked sending to `d`. */
  predicate Waits(procs: seq<Proc>, p: Pid, d: Pid) {
    p < |procs| && procs[p].sending && procs[p].sendTo == d
  }

  /** A process in a queue it does not wait in. */
  predicate Astray(procs: seq<Proc>, p: Pid, d: Pid) {
    d < |procs| && p in procs[d].callerQ && !Waits(procs, p, d)
  }

  /** A queue holds every process blocked sending to its owner, once, and else only dead ones. */
  ghost predicate QueuesSound(procs: seq<Proc>) {
    && (forall p :: 0 <= p < |procs| && procs[p].sending ==> procs[p].sendTo < |procs|)
    && (forall p :: 0 <= p < |procs| && procs[p].dead ==> !procs[p].Blocked())
    && (forall d :: 0 <= d < |procs| ==> NoDup(procs[d].callerQ))
    && (forall d: Pid, p: Pid :: d < |procs| && Waits(procs, p, d) ==> p in procs[d].callerQ)
    && (forall d: Pid, p: Pid :: Astray(procs, p, d) ==> p < |procs| && procs[p].dead)
  }

  /** A queue holds exactly the processes blocked sending to its owner. */
  ghost predicate QueuesExact(procs: seq<Proc>) {
    QueuesSound(procs) && forall d: Pid, p: Pid :: !Astray(procs, p, d)
  }

  /** A process blocked both ways is in a send-and-receive with one partner. */
  predicate Shaped(procs: seq<Proc>) {
    forall p :: 0 <= p < |procs| && procs[p].sending && procs[p].receiving ==>
                  procs[p].replyPend && procs[p].getFrom == Some(procs[p].sendTo)
  }

  lemma QueuesLinked(procs: seq<Proc>)
    requires QueuesSound(procs)
    ensures Linked(procs)
  {
    forall d, k | 0 <= d < |procs| && 0 <= k < |procs[d].callerQ| ensures procs[d].callerQ[k] < |procs| {
      assert procs[d].callerQ[k] in procs[d].callerQ;
      assert Waits(procs, procs[d].callerQ[k], d) || Astray(procs, procs[d].callerQ[k], d);
    }
  }

  // ------------------------------------------------------------------ the queues

  /** The queues stay sound, and no process goes or stops being astray. */
  ghost predicate QueuesKept(procs: seq<Proc>, procs': seq<Proc>) {
    && |procs'| == |procs|
    && (QueuesSound(procs) ==> QueuesSound(procs'))
    && (forall d: Pid, p: Pid :: Astray(procs', p, d) <==> Astray(procs, p, d))
  }

  /** Nothing that concerns the queues has changed. */
  ghost predicate SameLinks(procs: seq<Proc>, procs': seq<Proc>) {
    && |procs'| == |procs|
    && forall p :: 0 <= p < |procs| ==>
                     procs'[p].sending == procs[p].sending && (procs[p].sending ==> procs'[p].sendTo == procs[p].sendTo)
                     && procs'[p].callerQ == procs[p].callerQ && procs'[p].dead == procs[p].dead
                     && (procs'[p].dead ==> !procs'[p].receiving)
  }

  lemma SameLinksKeep(procs: seq<Proc>, procs': seq<Proc>)
    requires SameLinks(procs, procs')
    ensures QueuesKept(procs, procs')
  {
    forall d: Pid, p: Pid ensures Waits(procs', p, d) <==> Waits(procs, p, d) {
    }
    forall d: Pid, p: Pid ensures Astray(procs', p, d) <==> Astray(procs, p, d) {
    }
  }

  /** A blocked sender joins the end of the queue it waits in. */
  lemma EnqueueKeeps(procs: seq<Proc>, c: Pid, d: Pid, m: Message)
    requires QueuesSound(procs) && c < |procs| && d < |procs| && !procs[c].sending && !procs[c].dead
    ensures var w := procs[c := procs[c].(sending := true, sendTo := d, sendMsg := m)];
            QueuesKept(procs, w[d := w[d].(callerQ := w[d].callerQ + [c])])
  {
    var w := procs[c := procs[c].(sending := true, sendTo := d, sendMsg := m)];
    var procs' := w[d := w[d].(callerQ := w[d].callerQ + [c])];
    forall e: Pid | e < |procs| ensures c !in procs[e].callerQ {
      assert !Waits(procs, c, e) && !Astray(procs, c, e);
    }
    assert forall e :: 0 <= e < |procs| ==> NoDup(procs'[e].callerQ);
    forall e: Pid, p: Pid | p != c ensures Waits(procs', p, e) <==> Waits(procs, p, e) {
    }
    forall e: Pid, p: Pid ensures Astray(procs', p, e) <==> Astray(procs, p, e) {
    }
  }

  lemma RemoveOne(q: seq<Pid>, k: nat)
    requires NoDup(q) && k < |q|
    ensures NoDup(q[..k] + q[k + 1..])
    ensures forall p :: p in q[..k] + q[k + 1..] <==> p in q && p != q[k]
  {
    var r := q[..k] + q[k + 1..];
    forall p | p in q && p != q[k] ensures p in r {
      var i :| 0 <= i < |q| && q[i] == p;
      assert r[if i < k then i else i - 1] == p;
    }
  }

  /** A sender whose message is taken leaves the queue and stops sending. */
  lemma DequeueKeeps(s: State, c: Pid, k: nat)
    requires QueuesSound(s.procs) && c < |s.procs| && k < |s.procs[c].callerQ| && s.procs[c].callerQ[k] < |s.procs|
    requires s.procs[s.procs[c].callerQ[k]].sending
    ensures Waits(s.procs, s.procs[c].callerQ[k], c)
    ensures QueuesKept(s.procs, TakeFrom(s, c, k).procs)
  {
    var q := s.procs[c].callerQ;
    var p := q[k];
    var procs' := TakeFrom(s, c, k).procs;
    RemoveOne(q, k);
    assert p in q;
    assert !Astray(s.procs, p, c);
    forall e: Pid, x: Pid ensures Waits(procs', x, e) <==> x != p && Waits(s.procs, x, e) {
    }
    forall e: Pid, x: Pid ensures Astray(procs', x, e) <==> Astray(s.procs, x, e) {
    }
  }
}
