/** Messages are delivered once each and in order; and who gets them. */
module IpcDelivery {
  import opened Bytes
  import opened Ipc
  import opened IpcRuns
  import opened IpcDeadlock

  /** The messages of a log from `a` to `b`. */
  function Between(log: seq<Sent>, a: Pid, b: Pid): (r: seq<Message>) {
    if log == [] then []
    else
      var last := log[|log| - 1];
      Between(log[..|log| - 1], a, b) + if last.src == a && last.dst == b then [last.msg] else []
  }

  lemma BetweenMore(log: seq<Sent>, e: Sent, a: Pid, b: Pid)
    ensures Between(log + [e], a, b) == Between(log, a, b) + if e.src == a && e.dst == b then [e.msg] else []
  {
    assert (log + [e])[..|log|] == log;
  }

  /** The message `a` is blocked sending to `b`. */
  function Pend(procs: seq<Proc>, a: Pid, b: Pid): (r: seq<Message>) {
    if Waits(procs, a, b) then [procs[a].sendMsg] else []
  }

  /** One of the two has been cleared away. */
  predicate Over(procs: seq<Proc>, a: Pid, b: Pid) {
    (a < |procs| && procs[a].dead) || (b < |procs| && procs[b].dead)
  }

  /** What was accepted is what was delivered, in order, and then either what went with one of the two
      or what waits. */
  ghost predicate Settled(s: State, a: Pid, b: Pid) {
    && Between(s.sent, a, b) == Between(s.delivered, a, b) + Between(s.dropped, a, b) + Pend(s.procs, a, b)
    && (Between(s.dropped, a, b) != [] ==> Over(s.procs, a, b) && Pend(s.procs, a, b) == [])
  }

  /** No process has begun, ended or changed a send, and none that was dead lives. */
  ghost predicate SameSends(s: State, t: State) {
    && |t.procs| == |s.procs| && t.sent == s.sent && t.delivered == s.delivered && t.dropped == s.dropped
    && forall p :: 0 <= p < |s.procs| ==>
                     t.procs[p].sending == s.procs[p].sending
                     && (s.procs[p].sending ==> t.procs[p].sendTo == s.procs[p].sendTo)
                     && t.procs[p].sendMsg == s.procs[p].sendMsg && t.procs[p].dead == s.procs[p].dead
  }

  lemma SameSendsSettle(s: State, t: State, a: Pid, b: Pid)
    requires Settled(s, a, b) && SameSends(s, t)
    ensures Settled(t, a, b)
  {
    assert Waits(s.procs, a, b) <==> Waits(t.procs, a, b);
  }

  /** Accepted and delivered at once. */
  lemma DirectSettles(s: State, t: State, e: Sent, a: Pid, b: Pid)
    requires Settled(s, a, b) && !Waits(s.procs, e.src, e.dst) && !Over(s.procs, e.src, e.dst)
    requires t.sent == s.sent + [e] && t.delivered == s.delivered + [e] && t.dropped == s.dropped
    requires Pend(t.procs, a, b) == Pend(s.procs, a, b) && (Over(s.procs, a, b) ==> Over(t.procs, a, b))
    ensures Settled(t, a, b)
  {
    hide Waits, Over;
    BetweenMore(s.sent, e, a, b);
    BetweenMore(s.delivered, e, a, b);
  }

  /** Accepted, and its sender blocked on it. */
  lemma QueuedSettles(s: State, t: State, e: Sent, a: Pid, b: Pid)
    requires Settled(s, a, b) && t.sent == s.sent + [e] && t.delivered == s.delivered && t.dropped == s.dropped
    requires Pend(t.procs, a, b) == Pend(s.procs, a, b) + if e.src == a && e.dst == b then [e.msg] else []
    requires !Over(s.procs, e.src, e.dst) && (Over(s.procs, a, b) ==> Over(t.procs, a, b))
    ensures Settled(t, a, b)
  {
    hide Pend, Over;
    BetweenMore(s.sent, e, a, b);
  }

  lemma SendSettles(s: State, c: Pid, d: Pid, m: Message, nonBlocking: bool, a: Pid, b: Pid)
    requires c < |s.procs| && s.procs[c].CanCall() && Settled(s, a, b)
    ensures Settled(MiniSend(s, c, d, m, nonBlocking).0, a, b)
  {
    hide Deadlock, WillReceive, Settled;
    var t := MiniSend(s, c, d, m, nonBlocking).0;
    if d < |s.procs| && !s.procs[d].dead {
      if WillReceive(s.procs[d], c) {
        DirectSettles(s, t, Sent(c, d, m), a, b);
      } else if !nonBlocking && !Deadlock(s.procs, true, c, Some(d)) {
        QueuedSettles(s, t, Sent(c, d, m), a, b);
      }
    }
  }

  lemma TakeSettles(s: State, c: Pid, k: nat, a: Pid, b: Pid)
    requires c < |s.procs| && k < |s.procs[c].callerQ| && Settled(s, a, b)
    requires Waits(s.procs, s.procs[c].callerQ[k], c)
    ensures Settled(TakeFrom(s, c, k), a, b)
  {
    var p := s.procs[c].callerQ[k];
    var t := TakeFrom(s, c, k);
    BetweenMore(s.delivered, Sent(p, c, s.procs[p].sendMsg), a, b);
    assert a != p ==> (Waits(s.procs, a, b) <==> Waits(t.procs, a, b));
    assert !Waits(t.procs, p, b);
    assert a == p && b == c ==> Pend(s.procs, a, b) == [s.procs[p].sendMsg];
    assert a == p && b != c ==> Pend(s.procs, a, b) == [];
  }

  lemma ReceiveSettles(s: State, c: Pid, src: Option<Pid>, a: Pid, b: Pid)
    requires Formed(s.procs) && Linked(s.procs) && c < |s.procs| && Settled(s, a, b)
    ensures Settled(MiniReceive(s, c, src).0, a, b)
  {
    hide Deadlock, TakeFrom, FirstMatch, Settled;
    var t := MiniReceive(s, c, src).0;
    var p := s.procs[c];
    var k := FirstMatch(s.procs, p.callerQ, src);
    if !p.sending && !(!p.replyPend && p.pending != {}) && k < |p.callerQ| {
      MatchSends(s.procs, p.callerQ, src);
      DequeueKeeps(s, c, k);
      TakeSettles(s, c, k, a, b);
    } else {
      SameSendsSettle(s, t, a, b);
    }
  }

  lemma SendRecSettles(s: State, c: Pid, d: Pid, m: Message, a: Pid, b: Pid)
    requires Formed(s.procs) && Linked(s.procs) && c < |s.procs| && s.procs[c].CanCall() && Settled(s, a, b)
    ensures Settled(DoSendRec(s, c, d, m).0, a, b)
  {
    hide MiniSend, MiniReceive, Settled, Formed;
    var t := WithPend(s, c, true);
    SameSendsSettle(s, t, a, b);
    PendForms(s, c, true);
    SendSettles(t, c, d, m, false, a, b);
    SendForms(t, c, d, m, false);
    var sent := MiniSend(t, c, d, m, false);
    if sent.1 == Ok {
      SendLinks(t, c, d, m, false);
      ReceiveSettles(sent.0, c, Some(d), a, b);
    }
  }

  // ------------------------------------------------------------------ clearing

  /** The wait of `p` ends and its message goes with it. */
  lemma LostSettles(s: State, t: State, p: Pid, a: Pid, b: Pid)
    requires p < |s.procs| == |t.procs| && Settled(s, a, b)
    requires t.sent == s.sent && t.delivered == s.delivered && t.dropped == s.dropped + Lost(p, s.procs[p])
    requires forall x :: 0 <= x < |s.procs| && x != p ==>
               t.procs[x].sending == s.procs[x].sending && (s.procs[x].sending ==> t.procs[x].sendTo == s.procs[x].sendTo)
               && t.procs[x].sendMsg == s.procs[x].sendMsg
    requires !t.procs[p].sending && (s.procs[p].sending ==> Over(t.procs, p, s.procs[p].sendTo))
    requires Over(s.procs, a, b) ==> Over(t.procs, a, b)
    ensures Settled(t, a, b)
  {
    var x := s.procs[p];
    assert a != p ==> (Waits(s.procs, a, b) <==> Waits(t.procs, a, b));
    assert !Waits(t.procs, p, b);
    if x.sending {
      BetweenMore(s.dropped, Sent(p, x.sendTo, x.sendMsg), a, b);
      assert Waits(s.procs, p, x.sendTo);
    } else {
      assert s.dropped + [] == s.dropped;
      assert !Waits(s.procs, p, b);
    }
  }

  lemma ClearRefSettles(s: State, r: Pid, p: Pid, a: Pid, b: Pid)
    requires p < |s.procs| && r < |s.procs| && s.procs[r].dead && Settled(s, a, b)
    ensures Settled(ClearRef(s, r, p), a, b)
  {
    hide Settled;
    if p != r {
      var x := s.(procs := s.procs[p := s.procs[p].(pending := s.procs[p].pending - {r})]);
      SameSendsSettle(s, x, a, b);
      var y := if x.procs[p].BlockedOn() == Some(r) then ClearIpc(x, p) else x;
      if x.procs[p].BlockedOn() == Some(r) {
        LostSettles(x, y, p, a, b);
      }
      SameSendsSettle(y, ClearRef(s, r, p), a, b);
    }
  }

  lemma {:induction false} ClearRefsSettle(s: State, r: Pid, i: nat, a: Pid, b: Pid)
    requires i <= |s.procs| && r < |s.procs| && s.procs[r].dead && Settled(s, a, b)
    ensures Settled(ClearRefs(s, r, i), a, b)
  {
    hide ClearRef, Settled;
    if i > 0 {
      ClearRefsSettle(s, r, i - 1, a, b);
      ClearRefsWait(s, r, i - 1, r);
      ClearRefSettles(ClearRefs(s, r, i - 1), r, i - 1, a, b);
    }
  }

  lemma BuriedSettles(s: State, r: Pid, a: Pid, b: Pid)
    requires r < |s.procs| && Settled(s, a, b)
    ensures Buried(s, r).procs[r].dead && Settled(Buried(s, r), a, b)
  {
    hide Settled;
    var x := s.procs[r];
    var t := s.(procs := s.procs[r := x.(sending := false, receiving := false, dead := true)],
                dropped := s.dropped + Lost(r, x));
    LostSettles(s, t, r, a, b);
    assert t.dropped + [] == t.dropped;
    SameSendsSettle(t, Buried(s, r), a, b);
  }

  lemma ClearSettles(s: State, r: Pid, a: Pid, b: Pid)
    requires r < |s.procs| && Settled(s, a, b)
    ensures Settled(ClearEndpoint(s, r), a, b)
  {
    hide ClearRefs, Buried, Settled;
    BuriedSettles(s, r, a, b);
    ClearRefsSettle(Buried(s, r), r, |s.procs|, a, b);
  }

  // ------------------------------------------------------------------ every run

  lemma StepSettles(s: State, op: Op, a: Pid, b: Pid)
    requires Formed(s.procs) && Linked(s.procs) && Settled(s, a, b)
    ensures Settled(Step(s, op).0, a, b)
  {
    hide MiniSend, MiniReceive, DoSendRec, ClearEndpoint, Settled, Formed;
    if op.c < |s.procs| && s.procs[op.c].CanCall() {
      match op
      case Send(c, d, m) => SendSettles(s, c, d, m, false, a, b);
      case SendNb(c, d, m) => SendSettles(s, c, d, m, true, a, b);
      case SendRec(c, d, m) => SendRecSettles(s, c, d, m, a, b);
      case Receive(c, src) =>
        var t := WithPend(s, c, false);
        SameSendsSettle(s, t, a, b);
        PendForms(s, c, false);
        ReceiveSettles(t, c, src, a, b);
      case Notify(c, d) => SameSendsSettle(s, DoNotify(s, c, d).0, a, b);
      case Clear(_, d) =>
        if d < |s.procs| {
          ClearSettles(s, d, a, b);
        }
    }
  }

  /** Over every run, between any two processes, or one and itself: the messages accepted are those
      delivered, once each and in order, and then at most one more: the one its sender is blocked on,
      or was when one of the two was cleared away. */
  lemma {:induction false} ExactlyOnce(n: nat, ops: seq<Op>, a: Pid, b: Pid)
    ensures Settled(Run(n, ops), a, b)
    decreases |ops|
  {
    hide Step, Settled, Formed;
    if ops == [] {
      BootSettled(n, a, b);
    } else {
      var before := ops[..|ops| - 1];
      ExactlyOnce(n, before, a, b);
      StepSettles(Run(n, before), ops[|ops| - 1], a, b);
    }
  }

  lemma BootSettled(n: nat, a: Pid, b: Pid)
    ensures Settled(Boot(n), a, b)
  {
  }
}
