/** Processes that are cleared away, and those who wait for them. */
module IpcExit {
  import opened Bytes
  import opened Ipc
  import opened IpcRuns
  import opened IpcDeadlock

  ghost predicate NoneWaitsForDead(procs: seq<Proc>) {
    forall p: Pid, q: Pid :: Edge(procs, p, q) ==> !procs[q].dead
  }

  /** A receive that names a dead process, with nothing to take instead. */
  predicate WaitsAtGrave(s: State, op: Op) {
    && op.Receive? && op.c < |s.procs| && s.procs[op.c].CanCall() && s.procs[op.c].pending == {}
    && op.src.Some? && op.src.value < |s.procs| && s.procs[op.src.value].dead
  }

  /** Clearing a process leaves nobody waiting for it, and nobody waits for a dead process again until
      one with nothing pending asks to receive from it, which is not refused. */
  lemma GravesExactly(s: State, op: Op)
    requires Formed(s.procs) && Linked(s.procs) && NoneWaitsForDead(s.procs)
    ensures NoneWaitsForDead(Step(s, op).0.procs) <==> !WaitsAtGrave(s, op)
  {
    hide MiniSend, MiniReceive, ClearEndpoint, QueuesSound, Shaped;
    StepForms(s, op);
    var x := op.c;
    if x < |s.procs| && s.procs[x].CanCall() {
      match op
      case Send(_, d, m) => SendGraves(s, x, d, m, false);
      case SendNb(_, d, m) => SendGraves(s, x, d, m, true);
      case Clear(_, d) =>
        if d < |s.procs| {
          ClearGraves(s, d);
        }
      case Receive(_, src) =>
        PendForms(s, x, false);
        PendGraves(s, x, false);
        ReceiveGraves(WithPend(s, x, false), x, src);
      case SendRec(_, d, m) => SendRecGraves(s, x, d, m);
      case Notify(_, d) => NotifyGraves(s, x, d);
    }
  }

  /** No more waits, and nobody died. */
  lemma FewerGraves(procs: seq<Proc>, procs': seq<Proc>)
    requires NoneWaitsForDead(procs) && |procs'| == |procs|
    requires forall p: Pid, q: Pid :: Edge(procs', p, q) ==> Edge(procs, p, q)
    requires forall p :: 0 <= p < |procs| ==> procs'[p].dead == procs[p].dead
    ensures NoneWaitsForDead(procs')
  {
  }

  lemma SendGraves(s: State, c: Pid, d: Pid, m: Message, nonBlocking: bool)
    requires c < |s.procs| && s.procs[c].CanCall() && NoneWaitsForDead(s.procs)
    ensures NoneWaitsForDead(MiniSend(s, c, d, m, nonBlocking).0.procs)
    ensures MiniSend(s, c, d, m, nonBlocking).1 == Ok ==>
              d < |s.procs| && d < |MiniSend(s, c, d, m, nonBlocking).0.procs|
              && !MiniSend(s, c, d, m, nonBlocking).0.procs[d].dead
  {
    hide Deadlock;
    var r := MiniSend(s, c, d, m, nonBlocking).0;
    forall p: Pid, q: Pid | Edge(r.procs, p, q) ensures !r.procs[q].dead {
      assert p != c ==> Edge(s.procs, p, q);
    }
  }

  lemma PendGraves(s: State, c: Pid, pend: bool)
    requires c < |s.procs| && NoneWaitsForDead(s.procs)
    ensures NoneWaitsForDead(WithPend(s, c, pend).procs)
  {
    FewerGraves(s.procs, WithPend(s, c, pend).procs);
  }

  lemma NotifyGraves(s: State, c: Pid, d: Pid)
    requires Formed(s.procs) && NoneWaitsForDead(s.procs)
    ensures NoneWaitsForDead(DoNotify(s, c, d).0.procs)
  {
    FewerGraves(s.procs, DoNotify(s, c, d).0.procs);
  }

  lemma ClearGraves(s: State, r: Pid)
    requires r < |s.procs| && NoneWaitsForDead(s.procs)
    ensures NoneWaitsForDead(ClearEndpoint(s, r).procs)
  {
    hide ClearEndpoint;
    var t := ClearEndpoint(s, r);
    forall p: Pid, q: Pid | Edge(t.procs, p, q) ensures !t.procs[q].dead {
      ClearEndsWaits(s, r, p);
      ClearEndsWaits(s, r, q);
      assert Edge(s.procs, p, q);
    }
  }

  lemma BlockGraves(s: State, c: Pid, src: Option<Pid>)
    requires c < |s.procs| && !s.procs[c].receiving && NoneWaitsForDead(s.procs)
    requires s.procs[c].sending ==> src == Some(s.procs[c].sendTo)
    requires src.Some? && src.value < |s.procs| && s.procs[src.value].dead ==> !s.procs[src.value].Blocked()
    ensures NoneWaitsForDead(Block(s, c, src).0.procs) <==>
            !(src.Some? && src.value < |s.procs| && s.procs[src.value].dead)
  {
    var t := Block(s, c, src).0;
    if src.Some? && src.value < |s.procs| && s.procs[src.value].dead {
      assert !Chase(s.procs, false, c, src.value, true, |s.procs|);
      assert Edge(t.procs, c, src.value);
    } else {
      forall p: Pid, q: Pid | Edge(t.procs, p, q) ensures !t.procs[q].dead {
        assert p != c ==> Edge(s.procs, p, q);
        assert t == s ==> Edge(s.procs, p, q);
      }
    }
  }

  lemma ReceiveGraves(s: State, c: Pid, src: Option<Pid>)
    requires Formed(s.procs) && Linked(s.procs) && NoneWaitsForDead(s.procs)
    requires c < |s.procs| && !s.procs[c].receiving && !s.procs[c].dead
    requires s.procs[c].sending ==> src == Some(s.procs[c].sendTo)
    requires s.procs[c].replyPend ==> src.Some? && src.value < |s.procs| && !s.procs[src.value].dead
    ensures NoneWaitsForDead(MiniReceive(s, c, src).0.procs) <==>
            !(src.Some? && src.value < |s.procs| && s.procs[src.value].dead && s.procs[c].pending == {})
  {
    hide Block, FirstMatch;
    var p := s.procs[c];
    var t := MiniReceive(s, c, src).0;
    var k := FirstMatch(s.procs, p.callerQ, src);
    if p.sending {
      assert Edge(s.procs, c, p.sendTo);
      BlockGraves(s, c, src);
    } else if !p.replyPend && p.pending != {} {
      FewerGraves(s.procs, t.procs);
    } else if k < |p.callerQ| {
      MatchSends(s.procs, p.callerQ, src);
      DequeueKeeps(s, c, k);
      FewerGraves(s.procs, t.procs);
    } else {
      BlockGraves(s, c, src);
    }
  }

  lemma SendRecGraves(s: State, c: Pid, d: Pid, m: Message)
    requires Formed(s.procs) && Linked(s.procs) && NoneWaitsForDead(s.procs)
    requires c < |s.procs| && s.procs[c].CanCall()
    ensures NoneWaitsForDead(DoSendRec(s, c, d, m).0.procs)
  {
    hide MiniSend, MiniReceive, QueuesSound, Shaped, NoneWaitsForDead;
    var a := WithPend(s, c, true);
    PendForms(s, c, true);
    PendGraves(s, c, true);
    SendForms(a, c, d, m, false);
    SendGraves(a, c, d, m, false);
    var sent := MiniSend(a, c, d, m, false);
    if sent.1 == Ok {
      SendLinks(a, c, d, m, false);
      ReceiveGraves(sent.0, c, Some(d));
    }
  }
}
