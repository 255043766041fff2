/** The mark of a process that waits for a reply, and what it does when it is left behind. */
module IpcReplies {
  import opened Bytes
  import opened Ipc
  import opened IpcRuns
  import opened IpcDeadlock

  /** Process `p` is marked as waiting for somebody's reply and is not in a receive. */
  predicate Stale(p: Proc) {
    !p.dead && p.replyPend && p.getFrom.Some? && !p.receiving
  }

  predicate NoStale(procs: seq<Proc>) {
    forall p :: 0 <= p < |procs| ==> !Stale(procs[p])
  }

  /** A send-and-receive whose send half is refused, by a process that has had a partner. */
  predicate LeavesMark(s: State, op: Op) {
    && op.SendRec? && op.c < |s.procs| && s.procs[op.c].CanCall() && s.procs[op.c].getFrom.Some?
    && (op.d >= |s.procs| || s.procs[op.d].dead
        || (op.d != op.c && !WillReceive(s.procs[op.d], op.c) && Deadlock(s.procs, true, op.c, Some(op.d))))
  }

  // ------------------------------------------------------------------ the check sees the same waits

  lemma {:induction false} SameChase(procs: seq<Proc>, procs': seq<Proc>, isSend: bool, c: Pid, at: Pid, first: bool, k: nat)
    requires |procs'| == |procs| && at != c
    requires forall p :: 0 <= p < |procs| && p != c ==>
               procs'[p].BlockedOn() == procs[p].BlockedOn() && procs'[p].sending == procs[p].sending
    ensures Chase(procs', isSend, c, at, first, k) == Chase(procs, isSend, c, at, first, k)
    decreases k
  {
    if k > 0 && at < |procs| {
      var b := procs[at].BlockedOn();
      if b.Some? && b.value != c {
        SameChase(procs, procs', isSend, c, b.value, false, k - 1);
      }
    }
  }

  lemma {:induction false} ChaseAfterFirst(procs: seq<Proc>, c: Pid, at: Pid, k: nat)
    ensures Chase(procs, true, c, at, false, k) == Chase(procs, false, c, at, false, k)
    decreases k
  {
    if k > 0 && at < |procs| {
      var b := procs[at].BlockedOn();
      if b.Some? && b.value != c {
        ChaseAfterFirst(procs, c, b.value, k - 1);
      }
    }
  }

  /** Where a send to `d` was not refused, and `d` is not waiting to receive, a receive from `d` is not
      refused either. */
  lemma ReceiveNotRefused(procs: seq<Proc>, procs': seq<Proc>, c: Pid, d: Pid)
    requires |procs'| == |procs| && d != c && d < |procs| && !WillReceive(procs[d], c)
    requires !Deadlock(procs, true, c, Some(d))
    requires forall p :: 0 <= p < |procs| && p != c ==>
               procs'[p].BlockedOn() == procs[p].BlockedOn() && procs'[p].sending == procs[p].sending
    ensures !Deadlock(procs', false, c, Some(d))
  {
    var n := |procs|;
    SameChase(procs, procs', false, c, d, true, n);
    var b := procs[d].BlockedOn();
    if b.Some? && b.value != c {
      ChaseAfterFirst(procs, c, b.value, n - 1);
    }
  }

  /** Once its send half is accepted, a send-and-receive is not refused. */
  lemma SendRecGoesOn(s: State, c: Pid, d: Pid, m: Message)
    requires Formed(s.procs) && Linked(s.procs) && c < |s.procs| && s.procs[c].CanCall()
    ensures DoSendRec(s, c, d, m).1 == MiniSend(WithPend(s, c, true), c, d, m, false).1
  {
    hide FirstMatch, TakeFrom, Deadlock, Formed;
    var a := WithPend(s, c, true);
    PendForms(s, c, true);
    SendForms(a, c, d, m, false);
    var sent := MiniSend(a, c, d, m, false);
    if sent.1 == Ok {
      SendLinks(a, c, d, m, false);
      if !sent.0.procs[c].sending {
        NotRefused(sent.0, c, d);
      } else if d == c {
        SelfNotRefused(sent.0, c);
      } else {
        ReceiveNotRefused(a.procs, sent.0.procs, c, d);
      }
    }
  }

  lemma SelfNotRefused(s: State, c: Pid)
    requires Linked(s.procs) && c < |s.procs| && s.procs[c].sending && s.procs[c].sendTo == c
    ensures MiniReceive(s, c, Some(c)).1 == Ok
  {
    assert !Chase(s.procs, false, c, c, true, |s.procs|);
  }

  // ------------------------------------------------------------------ who leaves the mark

  lemma ReceiveNoStale(s: State, c: Pid, src: Option<Pid>)
    requires Linked(s.procs) && c < |s.procs|
    requires forall p :: 0 <= p < |s.procs| && p != c ==> !Stale(s.procs[p])
    requires MiniReceive(s, c, src).1 == Ok || !s.procs[c].replyPend
    ensures NoStale(MiniReceive(s, c, src).0.procs)
  {
    hide Deadlock, FirstMatch;
  }

  lemma SendRecStale(s: State, c: Pid, d: Pid, m: Message)
    requires Formed(s.procs) && Linked(s.procs) && NoStale(s.procs) && c < |s.procs| && s.procs[c].CanCall()
    ensures NoStale(DoSendRec(s, c, d, m).0.procs) <==> !LeavesMark(s, SendRec(c, d, m))
  {
    hide MiniReceive, Deadlock, Formed;
    var a := WithPend(s, c, true);
    PendForms(s, c, true);
    SendForms(a, c, d, m, false);
    SendRecGoesOn(s, c, d, m);
    SameDeadlock(s.procs, a.procs, c, d);
    var sent := MiniSend(a, c, d, m, false);
    if sent.1 == Ok {
      SendLinks(a, c, d, m, false);
      ReceiveNoStale(sent.0, c, Some(d));
    } else {
      assert Stale(sent.0.procs[c]) <==> s.procs[c].getFrom.Some?;
    }
  }

  lemma SameDeadlock(procs: seq<Proc>, procs': seq<Proc>, c: Pid, d: Pid)
    requires |procs'| == |procs| && c < |procs|
    requires forall p :: 0 <= p < |procs| ==>
               procs'[p].BlockedOn() == procs[p].BlockedOn() && procs'[p].sending == procs[p].sending
    requires procs[c].BlockedOn().None?
    ensures Deadlock(procs', true, c, Some(d)) == Deadlock(procs, true, c, Some(d))
    ensures d == c ==> !Deadlock(procs, true, c, Some(d))
  {
    if d != c {
      SameChase(procs, procs', true, c, d, true, |procs|);
    }
  }

  lemma ClearRefStale(s: State, r: Pid, p: Pid)
    requires NoStale(s.procs) && p < |s.procs|
    ensures NoStale(ClearRef(s, r, p).procs)
  {
  }

  lemma {:induction false} ClearRefsStale(s: State, r: Pid, i: nat)
    requires NoStale(s.procs) && i <= |s.procs|
    ensures NoStale(ClearRefs(s, r, i).procs)
  {
    hide ClearRef, NoStale;
    if i > 0 {
      ClearRefsStale(s, r, i - 1);
      ClearRefStale(ClearRefs(s, r, i - 1), r, i - 1);
    }
  }

  lemma ClearStale(s: State, r: Pid)
    requires NoStale(s.procs) && r < |s.procs|
    ensures NoStale(ClearEndpoint(s, r).procs)
  {
    hide ClearRefs;
    assert NoStale(Buried(s, r).procs);
    ClearRefsStale(Buried(s, r), r, |s.procs|);
  }

  /** A call leaves the mark behind exactly when it is a send-and-receive whose send half is refused:
      the destination does not exist, or it waits for the caller. */
  lemma StaleExactly(s: State, op: Op)
    requires Formed(s.procs) && Linked(s.procs) && NoStale(s.procs)
    ensures NoStale(Step(s, op).0.procs) <==> !LeavesMark(s, op)
  {
    hide Deadlock, MiniReceive, DoSendRec, ClearEndpoint, Formed;
    if op.c < |s.procs| && s.procs[op.c].CanCall() {
      match op
      case Send(c, d, m) => SendStale(s, c, d, m, false);
      case SendNb(c, d, m) => SendStale(s, c, d, m, true);
      case Notify(c, d) => NotifyStale(s, c, d);
      case Receive(c, src) => ReceiveNoStale(WithPend(s, c, false), c, src);
      case SendRec(c, d, m) => SendRecStale(s, c, d, m);
      case Clear(_, d) =>
        if d < |s.procs| {
          ClearStale(s, d);
        }
    }
  }

  lemma SendStale(s: State, c: Pid, d: Pid, m: Message, nonBlocking: bool)
    requires NoStale(s.procs) && c < |s.procs|
    ensures NoStale(MiniSend(s, c, d, m, nonBlocking).0.procs)
  {
    hide Deadlock;
  }

  lemma NotifyStale(s: State, c: Pid, d: Pid)
    requires NoStale(s.procs)
    ensures NoStale(DoNotify(s, c, d).0.procs)
  {
  }

  // ------------------------------------------------------------------ runs

  ghost predicate NoMarkLeft(n: nat, ops: seq<Op>) {
    ops == [] ||
    var before := ops[..|ops| - 1];
    NoMarkLeft(n, before) && !LeavesMark(Run(n, before), ops[|ops| - 1])
  }

  ghost predicate NeverStale(n: nat, ops: seq<Op>) {
    NoStale(Run(n, ops).procs) && (ops == [] || NeverStale(n, ops[..|ops| - 1]))
  }

  /** Over every run: no state has a stale mark if and only if no send-and-receive had its send half
      refused. */
  lemma {:induction false} MarksExactly(n: nat, ops: seq<Op>)
    ensures NeverStale(n, ops) <==> NoMarkLeft(n, ops)
    decreases |ops|
  {
    hide Step, Formed, NoStale, LeavesMark;
    if ops == [] {
      BootUnmarked(n);
    } else {
      var before := ops[..|ops| - 1];
      MarksExactly(n, before);
      if NeverStale(n, before) {
        StaleExactly(Run(n, before), ops[|ops| - 1]);
      }
    }
  }

  lemma BootUnmarked(n: nat)
    ensures NoStale(Boot(n).procs)
  {
  }

  /** And then a message is handed directly only to a process blocked in a receive that wants it. */
  lemma OnlyReceiversAreHanded(n: nat, ops: seq<Op>, c: Pid, d: Pid)
    requires NoMarkLeft(n, ops) && d < n
    ensures var p := Run(n, ops).procs[d];
            !p.dead && WillReceive(p, c) ==> p.receiving && !p.sending && (p.getFrom.None? || p.getFrom == Some(c))
  {
    MarksExactly(n, ops);
    assert !Stale(Run(n, ops).procs[d]);
  }

  /** Otherwise not: one call to nobody, as a process's first, marks it as waiting for process 0, whose
      next message is then handed to it although it is not receiving. */
  lemma StaleMarkTakesMessage(n: nat, c: Pid, d: Pid, m: Message)
    requires 0 < c < n <= d
    ensures var s := Step(Boot(n), SendRec(c, d, m)).0;
            && s.procs == Boot(n).procs[c := IDLE.(replyPend := true)] && !s.procs[c].Blocked()
            && MiniSend(s, 0, c, m, false).1 == Ok
            && MiniSend(s, 0, c, m, false).0.delivered == [Sent(0, c, m)]
  {
    var s := Boot(n);
    assert Step(s, SendRec(c, d, m)).0 == WithPend(s, c, true);
    assert [] + [Sent(0, c, m)] == [Sent(0, c, m)];
  }
}
