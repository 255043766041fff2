/** The deadlock check keeps the waits-for relation free of cycles over every run of calls. */
module IpcDeadlock {
  import opened Bytes
  import opened Ipc
  import opened IpcRuns

  /** A rank that falls along every wait: no process waits for itself, however indirectly. */
  ghost predicate Ranked(procs: seq<Proc>, rank: seq<nat>) {
    && |rank| == |procs|
    && forall p: Pid, q: Pid :: Edge(procs, p, q) ==> rank[p] > rank[q]
  }

  predicate Edge(procs: seq<Proc>, p: Pid, q: Pid) {
    p < |procs| && q < |procs| && procs[p].BlockedOn() == Some(q)
  }

  ghost predicate Acyclic(procs: seq<Proc>) {
    exists rank :: Ranked(procs, rank)
  }

  /** Whom `p` waits for through `k` waits. */
  function Follow(procs: seq<Proc>, p: Pid, k: nat): (q: Option<Pid>)
    decreases k
  {
    if p >= |procs| then None
    else if k == 0 then Some(p)
    else match procs[p].BlockedOn() case None => None case Some(n) => Follow(procs, n, k - 1)
  }

  /** In an acyclic table nobody waits for itself, through any number of others. */
  lemma {:induction false} NoCycle(procs: seq<Proc>, rank: seq<nat>, p: Pid, k: nat)
    requires Ranked(procs, rank) && p < |procs| && Follow(procs, p, k).Some?
    ensures Follow(procs, p, k).value < |procs|
    ensures 0 < k ==> rank[Follow(procs, p, k).value] < rank[p]
    ensures 0 < k ==> Follow(procs, p, k) != Some(p)
    decreases k
  {
    if k > 0 {
      var n := procs[p].BlockedOn().value;
      assert Edge(procs, p, n);
      NoCycle(procs, rank, n, k - 1);
    }
  }

  // ------------------------------------------------------------------ reaching along waits

  /** `a` is `c`, or waits for it, directly or through others. */
  predicate Reach(procs: seq<Proc>, rank: seq<nat>, a: Pid, c: Pid)
    requires Ranked(procs, rank)
    decreases if a < |procs| then rank[a] else 0
  {
    a < |procs| &&
    (a == c ||
     match procs[a].BlockedOn()
     case None => false
     case Some(n) => n < |procs| && (assert Edge(procs, a, n); Reach(procs, rank, n, c)))
  }

  lemma ReachEdge(procs: seq<Proc>, rank: seq<nat>, p: Pid, q: Pid, c: Pid)
    requires Ranked(procs, rank) && Edge(procs, p, q)
    ensures Reach(procs, rank, p, c) <==> p == c || Reach(procs, rank, q, c)
  {
  }

  /** A new wait of a process nobody on the way waits for keeps the table acyclic. */
  lemma NewWait(procs: seq<Proc>, rank: seq<nat>, procs': seq<Proc>, c: Pid, d: Pid)
    requires Ranked(procs, rank) && |procs'| == |procs| && c < |procs| && d < |procs|
    requires procs[c].BlockedOn().None? && !Reach(procs, rank, d, c)
    requires forall p :: 0 <= p < |procs| && p != c ==> procs'[p].BlockedOn() == procs[p].BlockedOn()
    requires procs'[c].BlockedOn() == Some(d)
    ensures Acyclic(procs')
  {
    var up := seq(|rank|, p requires 0 <= p < |rank| => if Reach(procs, rank, p, c) then rank[p] + rank[d] + 1 else rank[p]);
    forall p: Pid, q: Pid | Edge(procs', p, q) ensures up[p] > up[q] {
      if p != c {
        assert Edge(procs, p, q);
        ReachEdge(procs, rank, p, q, c);
      } else {
        assert Reach(procs, rank, c, c);
      }
    }
    assert Ranked(procs', up);
  }

  /** Waits that are only given up keep it acyclic. */
  lemma FewerWaits(procs: seq<Proc>, procs': seq<Proc>)
    requires Acyclic(procs) && |procs'| == |procs|
    requires forall p: Pid, q: Pid :: Edge(procs', p, q) ==> Edge(procs, p, q)
    ensures Acyclic(procs')
  {
    var rank :| Ranked(procs, rank);
    assert Ranked(procs', rank);
  }

  // ------------------------------------------------------------------ the check walks far enough

  /** `n` processes cannot all be passed more than once on an acyclic walk. */
  lemma {:induction false} Pigeonhole(path: seq<nat>, n: nat)
    requires forall i, j :: 0 <= i < j < |path| ==> path[i] != path[j]
    requires forall i :: 0 <= i < |path| ==> path[i] < n
    ensures |path| <= n
    decreases n
  {
    if path != [] {
      assert path[0] < n;
      var top := n - 1;
      if top in path {
        var k :| 0 <= k < |path| && path[k] == top;
        var rest := path[..k] + path[k + 1..];
        assert forall i :: 0 <= i < |rest| ==> rest[i] == path[if i < k then i else i + 1];
        Pigeonhole(rest, n - 1);
      } else {
        assert forall i :: 0 <= i < |path| ==> path[i] in path;
        Pigeonhole(path, n - 1);
      }
    }
  }

  /** The ranks along a walk fall, so the walk does not meet a process twice. */
  ghost predicate Descends(path: seq<Pid>, procs: seq<Proc>, rank: seq<nat>)
    requires |rank| == |procs|
  {
    && (forall i :: 0 <= i < |path| ==> path[i] < |procs|)
    && (forall i, j :: 0 <= i < j < |path| ==> rank[path[i]] > rank[path[j]])
  }

  lemma DescendsMore(path: seq<Pid>, procs: seq<Proc>, rank: seq<nat>, at: Pid)
    requires Ranked(procs, rank) && Descends(path, procs, rank) && at < |procs|
    requires path != [] ==> Edge(procs, path[|path| - 1], at)
    ensures Descends(path + [at], procs, rank) && |path| < |procs|
  {
    var more := path + [at];
    if path != [] {
      assert rank[path[|path| - 1]] > rank[at];
    }
    assert Descends(more, procs, rank);
    Pigeonhole(more, |procs|);
  }

  /** The check's bounded walk finds the caller exactly when the destination waits for it, save for
      the pair of a sender and a receiver. */
  lemma {:induction false} ChaseExact(procs: seq<Proc>, rank: seq<nat>, isSend: bool, caller: Pid, at: Pid, path: seq<Pid>)
    requires Ranked(procs, rank) && caller < |procs| && at != caller
    requires Descends(path, procs, rank) && (path != [] ==> Edge(procs, path[|path| - 1], at))
    requires at < |procs| ==> |path| < |procs|
    requires |path| <= |procs|
    ensures Chase(procs, isSend, caller, at, path == [], |procs| - |path|)
       <==> Reach(procs, rank, at, caller)
            && !(path == [] && procs[at].BlockedOn() == Some(caller) && procs[at].sending != isSend)
    decreases |procs| - |path|
  {
    if at < |procs| {
      var b := procs[at].BlockedOn();
      if b.Some? && b.value != caller {
        if b.value < |procs| {
          assert Edge(procs, at, b.value);
          ReachEdge(procs, rank, at, b.value, caller);
          DescendsMore(path, procs, rank, at);
          DescendsMore(path + [at], procs, rank, b.value);
          ChaseExact(procs, rank, isSend, caller, b.value, path + [at]);
        }
      } else if b.Some? {
        assert Edge(procs, at, caller);
        ReachEdge(procs, rank, at, caller, caller);
      }
    }
  }

  /** Nobody the destination waits for is the caller. */
  ghost predicate WaitsFor(procs: seq<Proc>, a: Pid, c: Pid) {
    exists k: nat :: Follow(procs, a, k) == Some(c)
  }

  lemma {:induction false} ReachIsWaiting(procs: seq<Proc>, rank: seq<nat>, a: Pid, c: Pid)
    requires Ranked(procs, rank)
    ensures Reach(procs, rank, a, c) <==> WaitsFor(procs, a, c)
    decreases if a < |procs| then rank[a] else 0
  {
    if a < |procs| {
      assert Follow(procs, a, 0) == Some(a);
      var b := procs[a].BlockedOn();
      if b.Some? && b.value < |procs| {
        assert Edge(procs, a, b.value);
        ReachIsWaiting(procs, rank, b.value, c);
        if WaitsFor(procs, b.value, c) {
          var k: nat :| Follow(procs, b.value, k) == Some(c);
          assert Follow(procs, a, k + 1) == Some(c);
        }
        if WaitsFor(procs, a, c) && a != c {
          var k: nat :| Follow(procs, a, k) == Some(c);
          assert k > 0 && Follow(procs, b.value, k - 1) == Some(c);
        }
      } else {
        forall k: nat | 0 < k ensures Follow(procs, a, k) == None {
        }
      }
    }
  }

  /** The check, from its start: it refuses exactly the waits that would close a cycle, save a pair of
      a sender and a receiver. */
  lemma DeadlockExact(procs: seq<Proc>, isSend: bool, caller: Pid, d: Pid)
    requires Acyclic(procs) && caller < |procs| && d != caller
    ensures Deadlock(procs, isSend, caller, Some(d))
       <==> WaitsFor(procs, d, caller)
            && !(d < |procs| && procs[d].BlockedOn() == Some(caller) && procs[d].sending != isSend)
  {
    hide Chase;
    var rank :| Ranked(procs, rank);
    ChaseExact(procs, rank, isSend, caller, d, []);
    ReachIsWaiting(procs, rank, d, caller);
  }

  // ------------------------------------------------------------------ calls that name another

  ghost predicate Good(procs: seq<Proc>) {
    Formed(procs) && Acyclic(procs)
  }

  lemma BlockOn(procs: seq<Proc>, procs': seq<Proc>, c: Pid, d: Pid)
    requires Acyclic(procs) && |procs'| == |procs| && c < |procs|
    requires procs[c].BlockedOn().None? && !WaitsFor(procs, d, c)
    requires forall p :: 0 <= p < |procs| && p != c ==> procs'[p].BlockedOn() == procs[p].BlockedOn()
    requires procs'[c].BlockedOn() == Some(d)
    ensures Acyclic(procs')
  {
    hide Follow;
    var rank :| Ranked(procs, rank);
    if d < |procs| {
      ReachIsWaiting(procs, rank, d, c);
      NewWait(procs, rank, procs', c, d);
    } else {
      FewerWaits(procs, procs');
    }
  }

  lemma SendAcyclic(s: State, c: Pid, d: Pid, m: Message, nonBlocking: bool)
    requires Good(s.procs) && c < |s.procs| && s.procs[c].CanCall() && d != c
    ensures Acyclic(MiniSend(s, c, d, m, nonBlocking).0.procs)
  {
    hide Deadlock;
    var r := MiniSend(s, c, d, m, nonBlocking);
    if d < |s.procs| && !s.procs[d].dead && !WillReceive(s.procs[d], c) && !nonBlocking
       && !Deadlock(s.procs, true, c, Some(d))
    {
      DeadlockExact(s.procs, true, c, d);
      BlockOn(s.procs, r.0.procs, c, d);
    } else {
      FewerWaits(s.procs, r.0.procs);
    }
  }

  /** A queue without a match holds no message from the wanted source. */
  lemma {:induction false} NoMatch(procs: seq<Proc>, q: seq<Pid>, src: Option<Pid>, p: Pid)
    requires FirstMatch(procs, q, src) == |q| && p in q && (src.None? || src.value == p)
    ensures !(p < |procs| && procs[p].sending)
    decreases |q|
  {
    if q[0] != p {
      NoMatch(procs, q[1..], src, p);
    }
  }

  /** Blocking in a receive when the wanted message is not in the queue. */
  lemma BlockAcyclic(s: State, c: Pid, src: Option<Pid>)
    requires Acyclic(s.procs) && c < |s.procs| && s.procs[c].CanCall() && src != Some(c)
    requires src.Some? ==> !Waits(s.procs, src.value, c)
    ensures Acyclic(Block(s, c, src).0.procs)
  {
    hide Deadlock;
    var r := Block(s, c, src);
    if src.Some? && !Deadlock(s.procs, false, c, src) {
      DeadlockExact(s.procs, false, c, src.value);
      BlockOn(s.procs, r.0.procs, c, src.value);
    } else {
      FewerWaits(s.procs, r.0.procs);
    }
  }

  /** The second half of a send-and-receive whose message is still in the queue: it is never refused. */
  lemma BlockWhileSending(s: State, c: Pid, d: Pid)
    requires Acyclic(s.procs) && c < |s.procs| && d != c && d < |s.procs|
    requires s.procs[c].sending && !s.procs[c].receiving && s.procs[c].sendTo == d
    ensures Block(s, c, Some(d)).1 == Ok && Acyclic(Block(s, c, Some(d)).0.procs)
  {
    hide Deadlock;
    var rank :| Ranked(s.procs, rank);
    DeadlockExact(s.procs, false, c, d);
    if WaitsFor(s.procs, d, c) {
      var k: nat :| Follow(s.procs, d, k) == Some(c);
      assert Follow(s.procs, c, k + 1) == Some(c);
      NoCycle(s.procs, rank, c, k + 1);
    }
    FewerWaits(s.procs, Block(s, c, Some(d)).0.procs);
  }

  lemma TakeAcyclic(s: State, c: Pid, k: nat)
    requires Good(s.procs) && c < |s.procs| && s.procs[c].CanCall() && k < |s.procs[c].callerQ|
    requires s.procs[c].callerQ[k] < |s.procs| && s.procs[s.procs[c].callerQ[k]].sending
    ensures Acyclic(TakeFrom(s, c, k).procs)
  {
    DequeueKeeps(s, c, k);
    FewerWaits(s.procs, TakeFrom(s, c, k).procs);
  }

  lemma ReceiveAcyclic(s: State, c: Pid, src: Option<Pid>)
    requires Good(s.procs) && Linked(s.procs) && c < |s.procs| && s.procs[c].CanCall() && src != Some(c)
    ensures Acyclic(MiniReceive(s, c, src).0.procs)
  {
    hide Deadlock, Block, TakeFrom, FirstMatch;
    var p := s.procs[c];
    if !p.replyPend && p.pending != {} {
      FewerWaits(s.procs, MiniReceive(s, c, src).0.procs);
    } else {
      var k := FirstMatch(s.procs, p.callerQ, src);
      if k < |p.callerQ| {
        MatchSends(s.procs, p.callerQ, src);
        TakeAcyclic(s, c, k);
      } else {
        if src.Some? && Waits(s.procs, src.value, c) {
          assert src.value in p.callerQ;
          NoMatch(s.procs, p.callerQ, src, src.value);
        }
        BlockAcyclic(s, c, src);
      }
    }
  }

  lemma PendAcyclic(s: State, c: Pid, pend: bool)
    requires Good(s.procs) && c < |s.procs| && s.procs[c].CanCall()
    ensures Good(WithPend(s, c, pend).procs) && WithPend(s, c, pend).procs[c].CanCall()
  {
    PendForms(s, c, pend);
    FewerWaits(s.procs, WithPend(s, c, pend).procs);
  }

  lemma SendRecAcyclic(s: State, c: Pid, d: Pid, m: Message)
    requires Good(s.procs) && Linked(s.procs) && c < |s.procs| && s.procs[c].CanCall() && d != c
    ensures Acyclic(DoSendRec(s, c, d, m).0.procs)
    ensures DoSendRec(s, c, d, m).1 == MiniSend(WithPend(s, c, true), c, d, m, false).1
  {
    hide MiniSend, Block, Formed, Acyclic;
    var a := WithPend(s, c, true);
    PendAcyclic(s, c, true);
    SendForms(a, c, d, m, false);
    SendAcyclic(a, c, d, m, false);
    var sent := MiniSend(a, c, d, m, false);
    if sent.1 == Ok {
      SendLinks(a, c, d, m, false);
      AcceptedBelow(a, c, d, m, false);
      if sent.0.procs[c].sending {
        BlockWhileSending(sent.0, c, d);
      } else {
        ReceiveAcyclic(sent.0, c, Some(d));
        NotRefused(sent.0, c, d);
      }
    }
  }

  lemma AcceptedBelow(s: State, c: Pid, d: Pid, m: Message, nonBlocking: bool)
    requires c < |s.procs| && MiniSend(s, c, d, m, nonBlocking).1 == Ok
    ensures d < |s.procs|
  {
  }

  lemma NotRefused(s: State, c: Pid, d: Pid)
    requires Linked(s.procs) && c < |s.procs| && d < |s.procs| && !s.procs[d].Blocked()
    ensures MiniReceive(s, c, Some(d)).1 == Ok
  {
    hide FirstMatch, TakeFrom;
    assert !Chase(s.procs, false, c, d, true, |s.procs|);
  }

  lemma ClearAcyclic(s: State, r: Pid)
    requires Acyclic(s.procs) && r < |s.procs|
    ensures Acyclic(ClearEndpoint(s, r).procs)
  {
    hide ClearEndpoint;
    forall p: Pid, q: Pid | Edge(ClearEndpoint(s, r).procs, p, q) ensures Edge(s.procs, p, q) {
      ClearEndsWaits(s, r, p);
    }
    FewerWaits(s.procs, ClearEndpoint(s, r).procs);
  }

  // ------------------------------------------------------------------ calls that name the caller

  /** The calls that leave their caller waiting for itself: the check's walk starts behind the
      destination and does not see the caller there. */
  predicate LocksItself(s: State, op: Op) {
    op.c < |s.procs| && s.procs[op.c].CanCall() &&
    var p := s.procs[op.c];
    match op
    case Send(c, d, _) => d == c && !(p.replyPend && p.getFrom == Some(c))
    case SendRec(c, d, _) => d == c && !(p.getFrom == Some(c) && p.pending != {})
    case Receive(c, src) => src == Some(c) && p.pending == {}
    case _ => false
  }

  lemma SelfWaitIsCycle(procs: seq<Proc>, c: Pid)
    requires c < |procs| && procs[c].BlockedOn() == Some(c)
    ensures !Acyclic(procs)
  {
    assert Edge(procs, c, c);
  }

  lemma SelfSend(s: State, c: Pid, m: Message, nonBlocking: bool)
    requires Acyclic(s.procs) && c < |s.procs| && s.procs[c].CanCall()
    ensures var r := MiniSend(s, c, c, m, nonBlocking);
            if WillReceive(s.procs[c], c) || nonBlocking then Acyclic(r.0.procs)
            else r.1 == Ok && r.0.procs[c].BlockedOn() == Some(c)
  {
    assert !Chase(s.procs, true, c, c, true, |s.procs|);
    var r := MiniSend(s, c, c, m, nonBlocking);
    if WillReceive(s.procs[c], c) || nonBlocking {
      FewerWaits(s.procs, r.0.procs);
    }
  }

  lemma SelfReceive(s: State, c: Pid)
    requires Good(s.procs) && Linked(s.procs) && c < |s.procs| && s.procs[c].CanCall()
    ensures |MiniReceive(s, c, Some(c)).0.procs| == |s.procs|
    ensures var r := MiniReceive(s, c, Some(c));
            if !s.procs[c].replyPend && s.procs[c].pending != {} then Acyclic(r.0.procs)
            else r.1 == Ok && r.0.procs[c].BlockedOn() == Some(c)
  {
    hide TakeFrom, FirstMatch;
    if !s.procs[c].replyPend && s.procs[c].pending != {} {
      FewerWaits(s.procs, MiniReceive(s, c, Some(c)).0.procs);
    } else {
      var q := s.procs[c].callerQ;
      if FirstMatch(s.procs, q, Some(c)) < |q| {
        MatchSends(s.procs, q, Some(c));
      }
      assert !Chase(s.procs, false, c, c, true, |s.procs|);
    }
  }

  lemma SelfSendRec(s: State, c: Pid, m: Message)
    requires Good(s.procs) && Linked(s.procs) && c < |s.procs| && s.procs[c].CanCall()
    ensures var r := DoSendRec(s, c, c, m).0;
            if s.procs[c].getFrom == Some(c) && s.procs[c].pending != {} then Acyclic(r.procs)
            else c < |r.procs| && r.procs[c].BlockedOn() == Some(c)
  {
    hide MiniReceive, Formed, Acyclic;
    var a := WithPend(s, c, true);
    PendAcyclic(s, c, true);
    SelfSend(a, c, m, false);
    SendForms(a, c, c, m, false);
    var sent := MiniSend(a, c, c, m, false).0;
    SendLinks(a, c, c, m, false);
    if s.procs[c].getFrom == Some(c) {
      SelfReceive(sent, c);
    } else {
      SelfBlock(sent, c);
    }
  }

  lemma SelfBlock(s: State, c: Pid)
    requires Linked(s.procs) && c < |s.procs| && s.procs[c].sending && s.procs[c].sendTo == c
    ensures var r := MiniReceive(s, c, Some(c)).0;
            c < |r.procs| && r.procs[c].BlockedOn() == Some(c)
  {
    hide Deadlock;
  }

  /** From a table without cycles, a call leads to one exactly when it leaves its caller waiting for
      itself. */
  lemma AcyclicExactly(s: State, op: Op)
    requires Good(s.procs) && Linked(s.procs)
    ensures |Step(s, op).0.procs| == |s.procs|
    ensures Acyclic(Step(s, op).0.procs) <==> !LocksItself(s, op)
  {
    hide MiniSend, MiniReceive, DoSendRec, ClearEndpoint, Formed, Acyclic;
    StepForms(s, op);
    if op.c < |s.procs| && s.procs[op.c].CanCall() {
      match op
      case Send(c, d, m) =>
        if d == c {
          SelfCall(s, c, m, false);
        } else {
          SendAcyclic(s, c, d, m, false);
        }
      case SendNb(c, d, m) =>
        if d == c {
          SelfCall(s, c, m, true);
        } else {
          SendAcyclic(s, c, d, m, true);
        }
      case SendRec(c, d, m) =>
        if d == c {
          SelfSendRec(s, c, m);
          if LocksItself(s, op) {
            SelfWaitIsCycle(DoSendRec(s, c, d, m).0.procs, c);
          }
        } else {
          SendRecAcyclic(s, c, d, m);
        }
      case Receive(c, src) =>
        PendAcyclic(s, c, false);
        var t := WithPend(s, c, false);
        if src == Some(c) {
          SelfReceive(t, c);
          if LocksItself(s, op) {
            SelfWaitIsCycle(MiniReceive(t, c, src).0.procs, c);
          }
        } else {
          ReceiveAcyclic(t, c, src);
        }
      case Notify(c, d) => NotifyAcyclic(s, c, d);
      case Clear(_, d) =>
        if d < |s.procs| {
          ClearAcyclic(s, d);
        }
    }
  }

  lemma SelfCall(s: State, c: Pid, m: Message, nonBlocking: bool)
    requires Acyclic(s.procs) && c < |s.procs| && s.procs[c].CanCall()
    ensures Acyclic(MiniSend(s, c, c, m, nonBlocking).0.procs) <==>
            nonBlocking || (s.procs[c].replyPend && s.procs[c].getFrom == Some(c))
  {
    hide MiniSend;
    SelfSend(s, c, m, nonBlocking);
    if !nonBlocking && !WillReceive(s.procs[c], c) {
      SelfSendStays(s, c, m);
      SelfWaitIsCycle(MiniSend(s, c, c, m, false).0.procs, c);
    }
  }

  lemma SelfSendStays(s: State, c: Pid, m: Message)
    requires c < |s.procs|
    ensures |MiniSend(s, c, c, m, false).0.procs| == |s.procs|
  {
    hide Deadlock;
  }

  lemma NotifyAcyclic(s: State, c: Pid, d: Pid)
    requires Good(s.procs)
    ensures Acyclic(DoNotify(s, c, d).0.procs)
  {
    FewerWaits(s.procs, DoNotify(s, c, d).0.procs);
  }

  // ------------------------------------------------------------------ runs

  lemma {:induction false} BootAcyclic(n: nat)
    ensures Acyclic(Boot(n).procs)
  {
    assert Ranked(Boot(n).procs, seq(n, i => 0));
  }

  /** No call of the run left its caller waiting for itself. */
  ghost predicate NoSelfLock(n: nat, ops: seq<Op>) {
    ops == [] ||
    var before := ops[..|ops| - 1];
    NoSelfLock(n, before) && !LocksItself(Run(n, before), ops[|ops| - 1])
  }

  /** No state of the run has a cycle of waits. */
  ghost predicate NeverCyclic(n: nat, ops: seq<Op>) {
    Acyclic(Run(n, ops).procs) && (ops == [] || NeverCyclic(n, ops[..|ops| - 1]))
  }

  /** Over every run of calls, clearing included: no state has a cycle of waits if and only if no call
      left its caller waiting for itself. */
  lemma {:induction false} DeadlockFreeExactly(n: nat, ops: seq<Op>)
    ensures NeverCyclic(n, ops) <==> NoSelfLock(n, ops)
    decreases |ops|
  {
    hide Step, Formed, Acyclic, LocksItself;
    if ops == [] {
      BootAcyclic(n);
    } else {
      var before := ops[..|ops| - 1];
      DeadlockFreeExactly(n, before);
      if NeverCyclic(n, before) {
        AcyclicExactly(Run(n, before), ops[|ops| - 1]);
      }
    }
  }

  /** Then no process ever waits for itself, through any number of others. */
  lemma NeverDeadlocked(n: nat, ops: seq<Op>, p: Pid, k: nat)
    requires NoSelfLock(n, ops) && p < n && 0 < k
    ensures Follow(Run(n, ops).procs, p, k) != Some(p)
  {
    DeadlockFreeExactly(n, ops);
    var procs := Run(n, ops).procs;
    var rank :| Ranked(procs, rank);
    if Follow(procs, p, k) == Some(p) {
      NoCycle(procs, rank, p, k);
    }
  }

  /** The process waits for no other: it can run, or takes a message from anyone, or waits for an
      endpoint that does not exist. */
  predicate WaitsForNone(procs: seq<Proc>, p: Pid) {
    p < |procs| && (procs[p].BlockedOn().None? || procs[p].BlockedOn().value >= |procs|)
  }

  /** And there is always a process that waits for no other. */
  lemma SomebodyRuns(n: nat, ops: seq<Op>)
    requires NoSelfLock(n, ops) && 0 < n
    ensures exists p: Pid :: WaitsForNone(Run(n, ops).procs, p)
  {
    DeadlockFreeExactly(n, ops);
    var procs := Run(n, ops).procs;
    var rank :| Ranked(procs, rank);
    var p := LeastRank(rank, n);
    assert WaitsForNone(procs, p) by {
      if procs[p].BlockedOn().Some? && procs[p].BlockedOn().value < n {
        assert Edge(procs, p, procs[p].BlockedOn().value);
      }
    }
  }

  lemma {:induction false} LeastRank(rank: seq<nat>, n: nat) returns (p: nat)
    requires 0 < n <= |rank|
    ensures p < n && forall q :: 0 <= q < n ==> rank[p] <= rank[q]
    decreases n
  {
    if n == 1 {
      p := 0;
    } else {
      p := LeastRank(rank, n - 1);
      if rank[n - 1] < rank[p] {
        p := n - 1;
      }
    }
  }

  /** A process that waits for itself does so until it is cleared away: no other call ends it. */
  lemma SelfLockLasts(s: State, op: Op, c: Pid)
    requires Formed(s.procs) && Linked(s.procs) && c < |s.procs| && s.procs[c].BlockedOn() == Some(c)
    requires !(op.Clear? && op.d == c)
    ensures c < |Step(s, op).0.procs| && Step(s, op).0.procs[c].BlockedOn() == Some(c)
  {
    hide MiniSend, MiniReceive, ClearEndpoint, Formed;
    StepForms(s, op);
    var x := op.c;
    if x < |s.procs| && s.procs[x].CanCall() {
      match op
      case Send(_, d, m) => SelfLockSend(s, x, d, m, false, c);
      case SendNb(_, d, m) => SelfLockSend(s, x, d, m, true, c);
      case Clear(_, d) =>
        if d < |s.procs| {
          ClearEndsWaits(s, d, c);
        }
      case Receive(_, src) =>
        PendForms(s, x, false);
        SelfLockReceive(WithPend(s, x, false), x, src, c);
      case SendRec(_, d, m) =>
        var a := WithPend(s, x, true);
        PendForms(s, x, true);
        SendForms(a, x, d, m, false);
        SendLinks(a, x, d, m, false);
        SelfLockSend(a, x, d, m, false, c);
        var sent := MiniSend(a, x, d, m, false);
        if sent.1 == Ok {
          SelfLockReceive(sent.0, x, Some(d), c);
        }
      case Notify(_, d) =>
    }
  }

  lemma SelfLockSend(s: State, x: Pid, d: Pid, m: Message, nonBlocking: bool, c: Pid)
    requires x < |s.procs| && x != c && c < |s.procs| && s.procs[c].BlockedOn() == Some(c)
    ensures MiniSend(s, x, d, m, nonBlocking).0.procs[c].BlockedOn() == Some(c)
  {
    hide Deadlock;
  }

  lemma SelfLockReceive(s: State, x: Pid, src: Option<Pid>, c: Pid)
    requires Formed(s.procs) && Linked(s.procs) && x < |s.procs| && x != c && c < |s.procs|
    requires s.procs[c].BlockedOn() == Some(c)
    ensures MiniReceive(s, x, src).0.procs[c].BlockedOn() == Some(c)
  {
    hide Deadlock, FirstMatch;
    var q := s.procs[x].callerQ;
    var k := FirstMatch(s.procs, q, src);
    if k < |q| {
      MatchSends(s.procs, q, src);
      DequeueKeeps(s, x, k);
    }
  }

  // ------------------------------------------------------------------ what is refused

  /** A send to another process is refused as a deadlock exactly when its destination waits for the
      caller. */
  lemma SendRefusedExactly(s: State, c: Pid, d: Pid, m: Message)
    requires Good(s.procs) && c < |s.procs| && s.procs[c].CanCall() && d != c
    ensures MiniSend(s, c, d, m, false).1 == Locked <==>
            d < |s.procs| && !s.procs[d].dead && !WillReceive(s.procs[d], c) && WaitsFor(s.procs, d, c)
  {
    hide Deadlock;
    DeadlockExact(s.procs, true, c, d);
  }

  /** And so is a receive, when there is nothing to take. */
  lemma ReceiveRefusedExactly(s: State, c: Pid, d: Pid)
    requires Good(s.procs) && Linked(s.procs) && c < |s.procs| && s.procs[c].CanCall() && d != c
    ensures MiniReceive(s, c, Some(d)).1 == Locked <==>
            && !(!s.procs[c].replyPend && s.procs[c].pending != {})
            && !Waits(s.procs, d, c) && WaitsFor(s.procs, d, c)
  {
    hide Deadlock, TakeFrom, FirstMatch;
    DeadlockExact(s.procs, false, c, d);
    var q := s.procs[c].callerQ;
    var k := FirstMatch(s.procs, q, Some(d));
    if k < |q| {
      MatchSends(s.procs, q, Some(d));
      DequeueKeeps(s, c, k);
    } else if Waits(s.procs, d, c) {
      assert d in q;
      NoMatch(s.procs, q, Some(d), d);
    }
  }
}
