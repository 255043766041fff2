/** What every call keeps, whoever makes it and whomever it names, and runs of calls. */
module IpcRuns {
  import opened Bytes
  import opened Ipc

  ghost predicate Formed(procs: seq<Proc>) {
    QueuesSound(procs) && Shaped(procs)
  }

  ghost predicate Kept(s: State, t: State) {
    QueuesKept(s.procs, t.procs) && Formed(t.procs)
  }

  // ------------------------------------------------------------------ send and receive

  /** A send keeps the table formed; an accepted one has woken its destination or waits in its queue. */
  lemma SendForms(s: State, c: Pid, d: Pid, m: Message, nonBlocking: bool)
    requires Formed(s.procs) && c < |s.procs| && s.procs[c].CanCall()
    ensures var r := MiniSend(s, c, d, m, nonBlocking);
            && Kept(s, r.0)
            && !r.0.procs[c].receiving && !r.0.procs[c].dead
            && (r.0.procs[c].sending ==> r.1 == Ok && r.0.procs[c].sendTo == d && r.0.procs[c].replyPend == s.procs[c].replyPend)
            && (r.1 == Ok && !r.0.procs[c].sending ==> d < |s.procs| && !r.0.procs[d].Blocked())
  {
    hide Deadlock;
    var r := MiniSend(s, c, d, m, nonBlocking);
    if d < |s.procs| && !s.procs[d].dead && !WillReceive(s.procs[d], c) && !nonBlocking
       && !Deadlock(s.procs, true, c, Some(d))
    {
      EnqueueKeeps(s.procs, c, d, m);
    } else {
      SameLinksKeep(s.procs, r.0.procs);
    }
  }

  lemma {:induction false} MatchSends(procs: seq<Proc>, q: seq<Pid>, src: Option<Pid>)
    requires FirstMatch(procs, q, src) < |q|
    ensures var p := q[FirstMatch(procs, q, src)];
            p < |procs| && procs[p].sending && (src.None? || src.value == p)
    decreases |q|
  {
    if !((src.None? || src.value == q[0]) && q[0] < |procs| && procs[q[0]].sending) {
      MatchSends(procs, q[1..], src);
    }
  }

  lemma ReceiveForms(s: State, c: Pid, src: Option<Pid>)
    requires Formed(s.procs) && Linked(s.procs) && c < |s.procs| && !s.procs[c].receiving && !s.procs[c].dead
    requires s.procs[c].sending ==> s.procs[c].replyPend && src == Some(s.procs[c].sendTo)
    ensures Kept(s, MiniReceive(s, c, src).0)
  {
    hide Deadlock, FirstMatch;
    var p := s.procs[c];
    var r := MiniReceive(s, c, src).0;
    var k := FirstMatch(s.procs, p.callerQ, src);
    if !p.sending && !(!p.replyPend && p.pending != {}) && k < |p.callerQ| {
      MatchSends(s.procs, p.callerQ, src);
      DequeueKeeps(s, c, k);
    } else {
      SameLinksKeep(s.procs, r.procs);
    }
  }

  lemma PendForms(s: State, c: Pid, pend: bool)
    requires Formed(s.procs) && c < |s.procs| && s.procs[c].CanCall()
    ensures Kept(s, WithPend(s, c, pend)) && WithPend(s, c, pend).procs[c].CanCall()
  {
    SameLinksKeep(s.procs, WithPend(s, c, pend).procs);
  }

  lemma KeptOn(s: State, t: State, u: State)
    requires Kept(s, t) && Kept(t, u) && Formed(s.procs)
    ensures Kept(s, u)
  {
    hide Astray, QueuesSound, Shaped;
    assert forall d: Pid, p: Pid :: Astray(u.procs, p, d) <==> Astray(t.procs, p, d);
    assert forall d: Pid, p: Pid :: Astray(t.procs, p, d) <==> Astray(s.procs, p, d);
  }

  lemma SendRecForms(s: State, c: Pid, d: Pid, m: Message)
    requires Formed(s.procs) && Linked(s.procs) && c < |s.procs| && s.procs[c].CanCall()
    ensures Kept(s, DoSendRec(s, c, d, m).0)
  {
    hide MiniSend, MiniReceive, QueuesKept, Formed;
    var a := WithPend(s, c, true);
    PendForms(s, c, true);
    SendForms(a, c, d, m, false);
    var sent := MiniSend(a, c, d, m, false);
    KeptOn(s, a, sent.0);
    if sent.1 == Ok {
      SendLinks(a, c, d, m, false);
      ReceiveForms(sent.0, c, Some(d));
      KeptOn(s, sent.0, MiniReceive(sent.0, c, Some(d)).0);
    }
  }

  lemma NotifyForms(s: State, c: Pid, d: Pid)
    requires Formed(s.procs)
    ensures Kept(s, DoNotify(s, c, d).0)
  {
    SameLinksKeep(s.procs, DoNotify(s, c, d).0.procs);
  }

  // ------------------------------------------------------------------ clearing

  /** A process that stops waiting leaves the queue it waited in. */
  lemma ClearIpcForms(s: State, p: Pid)
    requires Formed(s.procs) && p < |s.procs|
    ensures Kept(s, ClearIpc(s, p))
    ensures forall x: Pid, e: Pid :: Waits(ClearIpc(s, p).procs, x, e) <==> x != p && Waits(s.procs, x, e)
  {
    var x := s.procs[p];
    var t := ClearIpc(s, p);
    if x.sending {
      var e := x.sendTo;
      WithoutOnce(s.procs[e].callerQ, p);
      assert Waits(s.procs, p, e);
      forall y: Pid, f: Pid ensures Waits(t.procs, y, f) <==> y != p && Waits(s.procs, y, f) {
      }
      forall y: Pid, f: Pid ensures Astray(t.procs, y, f) <==> Astray(s.procs, y, f) {
        assert !Astray(s.procs, p, f);
      }
    } else {
      SameLinksKeep(s.procs, t.procs);
    }
  }

  lemma ClearRefForms(s: State, r: Pid, p: Pid)
    requires Formed(s.procs) && p < |s.procs|
    ensures Kept(s, ClearRef(s, r, p))
  {
    if p != r {
      var a := s.(procs := s.procs[p := s.procs[p].(pending := s.procs[p].pending - {r})]);
      SameLinksKeep(s.procs, a.procs);
      var b := if a.procs[p].BlockedOn() == Some(r) then ClearIpc(a, p) else a;
      ClearIpcForms(a, p);
      assert Kept(a, b);
      var t := ClearRef(s, r, p);
      ForgetForms(b, t, r, p);
      KeptOn(s, a, b);
      KeptOn(s, b, t);
    }
  }

  lemma ForgetForms(s: State, t: State, r: Pid, p: Pid)
    requires Formed(s.procs) && p < |s.procs| && s.procs[p].BlockedOn() != Some(r)
    requires var x := s.procs[p];
             t.procs == s.procs[p := x.(sendTo := if x.sendTo == r then NONE else x.sendTo,
                                        getFrom := if x.getFrom == Some(r) then None else x.getFrom)]
    ensures Kept(s, t)
  {
    SameLinksKeep(s.procs, t.procs);
  }

  lemma {:induction false} ClearRefsForms(s: State, r: Pid, i: nat)
    requires Formed(s.procs) && i <= |s.procs|
    ensures Kept(s, ClearRefs(s, r, i))
  {
    hide ClearRef, QueuesKept, Formed;
    if i == 0 {
      KeptSame(s);
    } else {
      ClearRefsForms(s, r, i - 1);
      ClearRefForms(ClearRefs(s, r, i - 1), r, i - 1);
      KeptOn(s, ClearRefs(s, r, i - 1), ClearRefs(s, r, i));
    }
  }

  lemma KeptSame(s: State)
    requires Formed(s.procs)
    ensures Kept(s, s)
  {
  }

  /** The process itself is not taken out of the queue it waited in. */
  lemma BuriedForms(s: State, r: Pid)
    requires Formed(s.procs) && r < |s.procs|
    ensures var t := Buried(s, r);
            && Formed(t.procs) && t.procs[r].dead && !t.procs[r].Blocked()
            && forall p: Pid, d: Pid :: Astray(t.procs, p, d) <==> Astray(s.procs, p, d) || (p == r && d < |s.procs| && Waits(s.procs, r, d))
  {
    var t := Buried(s, r);
    forall y: Pid, f: Pid ensures Waits(t.procs, y, f) <==> y != r && Waits(s.procs, y, f) {
    }
    forall p: Pid, d: Pid
      ensures Astray(t.procs, p, d) <==> Astray(s.procs, p, d) || (p == r && d < |s.procs| && Waits(s.procs, r, d))
    {
    }
  }

  lemma ClearRefWaits(s: State, r: Pid, p: Pid, x: Pid)
    requires p < |s.procs| && x < |s.procs|
    ensures ClearRef(s, r, p).procs[x].BlockedOn()
         == if x == p && p != r && s.procs[x].BlockedOn() == Some(r) then None else s.procs[x].BlockedOn()
    ensures ClearRef(s, r, p).procs[x].dead == s.procs[x].dead
  {
  }

  lemma {:induction false} ClearRefsWait(s: State, r: Pid, i: nat, x: Pid)
    requires i <= |s.procs| && x < |s.procs|
    ensures ClearRefs(s, r, i).procs[x].BlockedOn()
         == if x < i && x != r && s.procs[x].BlockedOn() == Some(r) then None else s.procs[x].BlockedOn()
    ensures ClearRefs(s, r, i).procs[x].dead == s.procs[x].dead
  {
    hide ClearRef;
    if i > 0 {
      ClearRefsWait(s, r, i - 1, x);
      ClearRefWaits(ClearRefs(s, r, i - 1), r, i - 1, x);
    }
  }

  /** Clearing a process ends its own wait and every wait for it, and no other. */
  lemma ClearEndsWaits(s: State, r: Pid, x: Pid)
    requires r < |s.procs| && x < |s.procs|
    ensures ClearEndpoint(s, r).procs[x].BlockedOn()
         == if x == r || s.procs[x].BlockedOn() == Some(r) then None else s.procs[x].BlockedOn()
    ensures ClearEndpoint(s, r).procs[x].dead <==> x == r || s.procs[x].dead
  {
    hide ClearRefs;
    ClearRefsWait(Buried(s, r), r, |s.procs|, x);
  }

  /** The queues stay sound; the cleared process goes astray exactly in the queue it was waiting in. */
  lemma ClearForms(s: State, r: Pid)
    requires Formed(s.procs) && r < |s.procs|
    ensures var t := ClearEndpoint(s, r);
            && Formed(t.procs)
            && forall p: Pid, d: Pid :: Astray(t.procs, p, d) <==> Astray(s.procs, p, d) || (p == r && d < |s.procs| && Waits(s.procs, r, d))
  {
    hide Astray, QueuesSound, Shaped, ClearRefs, Buried;
    var b := Buried(s, r);
    BuriedForms(s, r);
    ClearRefsForms(b, r, |s.procs|);
    assert forall p: Pid, d: Pid :: Astray(ClearEndpoint(s, r).procs, p, d) <==> Astray(b.procs, p, d);
  }

  /** So the queues are exact after it exactly when the process was not blocked sending. */
  lemma ClearExactly(s: State, r: Pid)
    requires Formed(s.procs) && QueuesExact(s.procs) && r < |s.procs|
    ensures QueuesExact(ClearEndpoint(s, r).procs) <==> !s.procs[r].sending
  {
    hide ClearEndpoint;
    ClearForms(s, r);
    if s.procs[r].sending {
      assert Waits(s.procs, r, s.procs[r].sendTo);
      assert Astray(ClearEndpoint(s, r).procs, r, s.procs[r].sendTo);
    }
  }

  // ------------------------------------------------------------------ runs

  lemma StepForms(s: State, op: Op)
    requires Formed(s.procs) && Linked(s.procs)
    ensures |Step(s, op).0.procs| == |s.procs| && Formed(Step(s, op).0.procs)
    ensures !op.Clear? ==> QueuesKept(s.procs, Step(s, op).0.procs)
  {
    hide MiniSend, MiniReceive, DoSendRec, DoNotify, ClearEndpoint, Formed;
    KeptSame(s);
    if op.c < |s.procs| && s.procs[op.c].CanCall() {
      match op
      case Send(c, d, m) => SendForms(s, c, d, m, false);
      case SendNb(c, d, m) => SendForms(s, c, d, m, true);
      case SendRec(c, d, m) => SendRecForms(s, c, d, m);
      case Receive(c, src) =>
        PendForms(s, c, false);
        ReceiveForms(WithPend(s, c, false), c, src);
        KeptOn(s, WithPend(s, c, false), MiniReceive(WithPend(s, c, false), c, src).0);
      case Notify(c, d) => NotifyForms(s, c, d);
      case Clear(_, d) =>
        if d < |s.procs| {
          ClearForms(s, d);
        }
    }
  }

  /** `n` processes, none of which has called yet. */
  function Boot(n: nat): (s: State)
    ensures Linked(s.procs)
  {
    State(seq(n, i => IDLE), [], [], [])
  }

  /** The state after a run of calls, whatever they are. */
  ghost function Run(n: nat, ops: seq<Op>): (s: State)
    ensures Formed(s.procs) && Linked(s.procs) && |s.procs| == n
  {
    if ops == [] then Boot(n)
    else
      var s := Run(n, ops[..|ops| - 1]);
      StepForms(s, ops[|ops| - 1]);
      FormedLinks(Step(s, ops[|ops| - 1]).0.procs);
      Step(s, ops[|ops| - 1]).0
  }

  lemma FormedLinks(procs: seq<Proc>)
    requires Formed(procs)
    ensures Linked(procs)
  {
    QueuesLinked(procs);
  }

  /** A call that clears away a process blocked sending. */
  predicate ClearsSender(s: State, op: Op) {
    && op.Clear? && op.c < |s.procs| && s.procs[op.c].CanCall()
    && op.d < |s.procs| && s.procs[op.d].sending
  }

  lemma StepExactly(s: State, op: Op)
    requires Formed(s.procs) && Linked(s.procs) && QueuesExact(s.procs)
    ensures QueuesExact(Step(s, op).0.procs) <==> !ClearsSender(s, op)
  {
    hide Step, Astray, QueuesSound, Shaped, ClearEndpoint;
    StepForms(s, op);
    if op.Clear? {
      StepClears(s, op);
      if op.c < |s.procs| && s.procs[op.c].CanCall() && op.d < |s.procs| && !s.procs[op.d].dead {
        ClearExactly(s, op.d);
      } else if op.d < |s.procs| {
        DeadSendsNothing(s.procs, op.d);
      }
    }
  }

  lemma DeadSendsNothing(procs: seq<Proc>, d: Pid)
    requires QueuesSound(procs) && d < |procs|
    ensures procs[d].dead ==> !procs[d].sending
  {
  }

  lemma StepClears(s: State, op: Op)
    requires Linked(s.procs) && op.Clear?
    ensures Step(s, op).0 == if op.c < |s.procs| && s.procs[op.c].CanCall() && op.d < |s.procs| && !s.procs[op.d].dead
                             then ClearEndpoint(s, op.d) else s
  {
  }

  lemma {:induction false} StraysStay(n: nat, ops: seq<Op>, k: nat)
    requires k <= |ops| && !QueuesExact(Run(n, ops[..k]).procs)
    ensures !QueuesExact(Run(n, ops).procs)
    decreases |ops|
  {
    hide Step, QueuesSound, Shaped;
    if k == |ops| {
      assert ops[..k] == ops;
    } else {
      var before := ops[..|ops| - 1];
      assert before[..k] == ops[..k];
      StraysStay(n, before, k);
      var s := Run(n, before);
      StepForms(s, ops[|ops| - 1]);
      var d: Pid, p: Pid :| Astray(s.procs, p, d);
      StraysStayStep(s, ops[|ops| - 1], d, p);
    }
  }

  lemma StraysStayStep(s: State, op: Op, d: Pid, p: Pid)
    requires Formed(s.procs) && Linked(s.procs) && Astray(s.procs, p, d)
    ensures Astray(Step(s, op).0.procs, p, d)
  {
    hide Step, Formed, ClearEndpoint;
    StepForms(s, op);
    if op.Clear? {
      StepClears(s, op);
      if op.d < |s.procs| {
        ClearForms(s, op.d);
      }
    }
  }

  /** No call of the run cleared away a process blocked sending. */
  ghost predicate SparesSenders(n: nat, ops: seq<Op>) {
    ops == [] ||
    var before := ops[..|ops| - 1];
    SparesSenders(n, before) && !ClearsSender(Run(n, before), ops[|ops| - 1])
  }

  /** Over every run: the queues hold exactly the processes blocked sending if and only if nobody was
      cleared away while blocked sending. */
  lemma {:induction false} QueuesExactly(n: nat, ops: seq<Op>)
    ensures QueuesExact(Run(n, ops).procs) <==> SparesSenders(n, ops)
    decreases |ops|
  {
    hide Step, Formed, ClearsSender, QueuesExact;
    if ops == [] {
      BootExact(n);
    } else {
      var last := |ops| - 1;
      QueuesExactly(n, ops[..last]);
      if QueuesExact(Run(n, ops[..last]).procs) {
        StepExactly(Run(n, ops[..last]), ops[last]);
      } else {
        StraysStay(n, ops, last);
      }
    }
  }

  lemma BootExact(n: nat)
    ensures QueuesExact(Boot(n).procs)
  {
  }
}
