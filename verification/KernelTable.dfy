/** The calls as the kernel performs them on its process table. */
module KernelTable {
  import opened Bytes
  import opened Ipc
  import opened IpcRuns

  class Table {
    var procs: seq<Proc>
    ghost var sent: seq<Sent>
    ghost var delivered: seq<Sent>
    ghost var dropped: seq<Sent>

    ghost function Now(): (s: State)
      reads this
    {
      State(procs, sent, delivered, dropped)
    }

    constructor (n: nat)
      ensures Now() == Boot(n) && Formed(procs)
    {
      procs := seq(n, i => IDLE);
      sent, delivered, dropped := [], [], [];
    }

    /** Follows the chain of waits from `d`, for at most as many steps as there are processes. */
    method Deadlocked(isSend: bool, c: Pid, d: Option<Pid>) returns (locked: bool)
      ensures locked == Deadlock(procs, isSend, c, d)
    {
      if d.None? {
        return false;
      }
      var at: Pid := d.value;
      var groupSize := 1;
      var i := 0;
      while i < |procs|
        invariant 0 <= i <= |procs| && groupSize == i + 1
        invariant Chase(procs, isSend, c, at, groupSize == 1, |procs| - i) == Deadlock(procs, isSend, c, d)
      {
        if at >= |procs| {
          return false;
        }
        var x := procs[at];
        groupSize := groupSize + 1;
        var next := x.BlockedOn();
        if next.None? {
          return false;
        }
        if next.value == c {
          if groupSize == 2 && x.sending != isSend {
            return false;
          }
          return true;
        }
        at := next.value;
        i := i + 1;
      }
      locked := false;
    }

    method Send(c: Pid, d: Pid, m: Message, nonBlocking: bool) returns (code: Code)
      requires c < |procs|
      modifies this
      ensures (Now(), code) == MiniSend(old(Now()), c, d, m, nonBlocking)
    {
      hide Deadlock;
      if d >= |procs| || procs[d].dead {
        return DeadDestination;
      }
      if WillReceive(procs[d], c) {
        procs := procs[d := procs[d].(replyPend := false)];
        procs := procs[d := procs[d].(receiving := false)];
        assert procs == old(procs)[d := old(procs)[d].(receiving := false, replyPend := false)];
        sent, delivered := sent + [Sent(c, d, m)], delivered + [Sent(c, d, m)];
        return Ok;
      }
      if nonBlocking {
        return NotReady;
      }
      var locked := Deadlocked(true, c, Some(d));
      if locked {
        return Locked;
      }
      procs := procs[c := procs[c].(sending := true, sendTo := d, sendMsg := m)];
      procs := procs[d := procs[d].(callerQ := procs[d].callerQ + [c])];
      sent := sent + [Sent(c, d, m)];
      code := Ok;
    }

    /** The first sender in the queue that the receive wants. */
    method Find(q: seq<Pid>, src: Option<Pid>) returns (k: nat)
      ensures k == FirstMatch(procs, q, src)
    {
      k := 0;
      while k < |q|
        invariant 0 <= k <= |q| && FirstMatch(procs, q, src) == k + FirstMatch(procs, q[k..], src)
      {
        assert q[k..][0] == q[k] && q[k..][1..] == q[k + 1..];
        var p := q[k];
        if (src.None? || src.value == p) && p < |procs| && procs[p].sending {
          return;
        }
        k := k + 1;
      }
    }

    method Blocks(c: Pid, src: Option<Pid>) returns (code: Code)
      requires c < |procs|
      modifies this`procs
      ensures (Now(), code) == Block(old(Now()), c, src)
    {
      var locked := Deadlocked(false, c, src);
      if locked {
        return Locked;
      }
      procs := procs[c := procs[c].(getFrom := src, receiving := true)];
      code := Ok;
    }

    method Lowest(s: set<Pid>) returns (l: nat)
      ensures l == Least(s, 0, |procs|)
    {
      l := 0;
      while l < |procs| && l !in s
        invariant 0 <= l <= |procs| && Least(s, l, |procs|) == Least(s, 0, |procs|)
      {
        l := l + 1;
      }
    }

    method Receive(c: Pid, src: Option<Pid>) returns (code: Code)
      requires c < |procs| && Linked(procs)
      modifies this
      ensures (Now(), code) == MiniReceive(old(Now()), c, src)
    {
      hide Block, FirstMatch, Least;
      if !procs[c].sending {
        if !procs[c].replyPend && procs[c].pending != {} {
          var id := Lowest(procs[c].pending);
          procs := procs[c := procs[c].(pending := procs[c].pending - {id})];
          return Ok;
        }
        var q := procs[c].callerQ;
        var k := Find(q, src);
        if k < |q| {
          var p := q[k];
          delivered := delivered + [Sent(p, c, procs[p].sendMsg)];
          procs := procs[p := procs[p].(sending := false)];
          procs := procs[c := procs[c].(callerQ := q[..k] + q[k + 1..], replyPend := false)];
          return Ok;
        }
      }
      code := Blocks(c, src);
    }

    method Notify(c: Pid, d: Pid) returns (code: Code)
      modifies this`procs
      ensures (Now(), code) == DoNotify(old(Now()), c, d)
    {
      if d >= |procs| {
        return DeadDestination;
      }
      var p := procs[d];
      if p.receiving && !p.replyPend && (p.getFrom.None? || p.getFrom == Some(c)) {
        procs := procs[d := p.(receiving := false)];
      } else {
        procs := procs[d := p.(pending := p.pending + {c})];
      }
      code := Ok;
    }

    /** Takes `p` out of a queue, if it is in it. */
    method Unlink(q: seq<Pid>, p: Pid) returns (r: seq<Pid>)
      ensures r == Without(q, p)
    {
      var i := 0;
      while i < |q|
        invariant 0 <= i <= |q| && Without(q, p) == q[..i] + Without(q[i..], p)
      {
        assert q[i..][0] == q[i] && q[i..][1..] == q[i + 1..];
        if q[i] == p {
          return q[..i] + q[i + 1..];
        }
        assert q[..i + 1] == q[..i] + [q[i]];
        i := i + 1;
      }
      r := q[..i];
    }

    method StopWaiting(p: Pid)
      requires p < |procs|
      modifies this`procs, this`dropped
      ensures Now() == ClearIpc(old(Now()), p)
    {
      ghost var lost := Lost(p, procs[p]);
      if procs[p].sending && procs[p].sendTo < |procs| {
        var d := procs[p].sendTo;
        var q := Unlink(procs[d].callerQ, p);
        procs := procs[d := procs[d].(callerQ := q)];
      }
      dropped := dropped + lost;
      procs := procs[p := procs[p].(sending := false, receiving := false, getFrom := None, sendTo := NONE)];
    }

    method Forget(r: Pid, p: Pid)
      requires p < |procs|
      modifies this`procs, this`dropped
      ensures Now() == ClearRef(old(Now()), r, p)
    {
      hide ClearIpc;
      if p == r {
        return;
      }
      procs := procs[p := procs[p].(pending := procs[p].pending - {r})];
      if procs[p].BlockedOn() == Some(r) {
        StopWaiting(p);
      }
      ghost var b := procs;
      if procs[p].sendTo == r {
        procs := procs[p := procs[p].(sendTo := NONE)];
      }
      if procs[p].getFrom == Some(r) {
        procs := procs[p := procs[p].(getFrom := None)];
      }
      assert procs == b[p := b[p].(sendTo := if b[p].sendTo == r then NONE else b[p].sendTo,
                                   getFrom := if b[p].getFrom == Some(r) then None else b[p].getFrom)];
    }

    method Bury(r: Pid)
      requires r < |procs|
      modifies this`procs, this`dropped
      ensures Now() == ClearEndpoint(old(Now()), r)
    {
      hide ClearIpc, ClearRef;
      ghost var lost := Lost(r, procs[r]);
      procs := procs[r := procs[r].(sending := false, receiving := false, dead := true)];
      dropped := dropped + lost;
      StopWaiting(r);
      ghost var s := Now();
      assert s == Buried(old(Now()), r);
      var i := 0;
      while i < |procs|
        invariant 0 <= i <= |procs| == |s.procs| && Now() == ClearRefs(s, r, i)
      {
        Forget(r, i);
        i := i + 1;
      }
    }

    /** One call of a process that is neither blocked nor dead; the table stays formed. */
    method Call(op: Op) returns (code: Code)
      requires Formed(procs) && op.c < |procs| && procs[op.c].CanCall()
      modifies this
      ensures (Now(), code) == (FormedLinks(old(procs)); Step(old(Now()), op))
      ensures |procs| == old(|procs|) && Formed(procs)
    {
      hide MiniSend, MiniReceive, DoNotify, ClearEndpoint, Formed;
      FormedLinks(procs);
      ghost var s := Now();
      StepForms(s, op);
      match op
      case Send(c, d, m) =>
        code := Send(c, d, m, false);
      case SendNb(c, d, m) =>
        code := Send(c, d, m, true);
      case SendRec(c, d, m) =>
        procs := procs[c := procs[c].(replyPend := true)];
        SendLinks(Now(), c, d, m, false);
        code := Send(c, d, m, false);
        if code == Ok {
          code := Receive(c, Some(d));
        }
      case Receive(c, src) =>
        procs := procs[c := procs[c].(replyPend := false)];
        code := Receive(c, src);
      case Notify(c, d) =>
        code := Notify(c, d);
      case Clear(_, d) =>
        if d < |procs| && !procs[d].dead {
          Bury(d);
        }
        code := Ok;
    }
  }
}
