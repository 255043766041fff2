/** Stopping and replaying a guest is invisible to it: what every step of the engine keeps. */
module Transparency {
  import opened Bytes
  import opened Engine

  // -------------------------------------------------------------- the copy seam

  lemma ApplyMore(m: seq<byte>, ws: seq<Store>, w: Store)
    ensures Apply(m, ws + [w]) == if w.at + |w.data| <= |m| then Splice(Apply(m, ws), w.at, w.data) else Apply(m, ws)
  {
    assert (ws + [w])[..|ws + [w]| - 1] == ws;
  }

  /** Kernel stores do not enter the books of answers. */
  lemma StoresAside(l: Life, ws: seq<Store>)
    ensures RanOf(l.(stores := ws)) == RanOf(l)
    ensures Pulls(l.(stores := ws)) == Pulls(l)
    ensures Calls(l.(stores := ws)) == Calls(l)
    ensures Values(l.(stores := ws)) == Values(l)
    ensures Genuine(l.(stores := ws)) == Genuine(l)
    decreases |l.answers|
  {
    if l.answers != [] {
      StoresAside(Earlier(l), ws);
      assert Earlier(l.(stores := ws)) == Earlier(l).(stores := ws);
    }
  }

  /** The frame: a change to one record and its books leaves the others as they were. */
  lemma Local<K>(s: Sys<K>, r: Sys<K>, hot: Option<Slot>, pend: Pending, slot: Slot, hot': Option<Slot>, pend': Pending)
    requires Inv(s, hot, pend) && TableOk(r)
    requires r.procs.Keys <= s.procs.Keys + {slot} && slot in r.procs
    requires forall q :: q in r.procs && q != slot ==>
               q in s.procs && r.procs[q] == s.procs[q] && LifeOf(r, q) == LifeOf(s, q) && LedgerOf(r, q) == LedgerOf(s, q)
    requires (hot == Some(slot) || hot == None || hot == hot') && (hot' == Some(slot) || hot' == None || hot' == hot)
    requires hot == hot' && hot != Some(slot) ==> pend == pend'
    requires SlotOk(r, slot, if hot' == Some(slot) then pend' else r.procs[slot].pending, hot' != Some(slot))
    ensures Inv(r, hot', pend')
  {
    hide Faithful;
    forall q | q in r.procs
      ensures SlotOk(r, q, if hot' == Some(q) then pend' else r.procs[q].pending, hot' != Some(q))
    {
      if q != slot {
        assert SlotOk(s, q, if hot == Some(q) then pend else s.procs[q].pending, hot != Some(q));
      }
    }
  }

  lemma PokeBooks(p: Proc, pend: Pending, l: Life, g: Ledger, w: Store)
    requires Faithful(p, pend, l, g) && w.at + |w.data| <= |p.memory|
    ensures Faithful(p.(memory := Splice(p.memory, w.at, w.data)), pend, l.(stores := l.stores + [w]), g)
  {
    StoresAside(l, l.stores + [w]);
    ApplyMore(TurnOf(l).memory, l.stores, w);
  }

  lemma PokeKeeps<K>(s: Sys<K>, slot: Slot, at: nat, data: seq<byte>, hot: Option<Slot>, pend: Pending)
    requires Inv(s, hot, pend)
    requires slot in s.procs && at + |data| <= |s.procs[slot].memory|
    ensures Inv(Poke(s, slot, at, data), hot, pend)
  {
    hide Faithful;
    var r := Poke(s, slot, at, data);
    var pn := if hot == Some(slot) then pend else s.procs[slot].pending;
    assert SlotOk(s, slot, pn, hot != Some(slot));
    if slot in s.lives {
      PokeBooks(s.procs[slot], pn, s.lives[slot], LedgerOf(s, slot), Store(at, data));
    }
    Local(s, r, hot, pend, slot, hot, pend);
  }

  // --------------------------------------------------------------- fork and exec

  lemma AppendKeeps(q: seq<Slot>, slot: Slot)
    requires NoDup(q)
    ensures NoDup(Without(q, slot) + [slot])
    ensures forall x :: x in Without(q, slot) + [slot] <==> x in q || x == slot
  {
    WithoutOnce(q, slot);
    var r := Without(q, slot);
    assert forall i :: 0 <= i < |r| ==> r[i] in r;
  }

  /** A process suspended in a call has, byte for byte, the memory its clone gets. */
  lemma CloneIsExact(p: Proc)
    requires |p.module_.initial| <= |p.memory|
    ensures CloneMemory(p) == p.memory
  {
  }

  /** A suspended process has books, and a memory at least as large as its image's. */
  lemma RecordKept<K>(s: Sys<K>, slot: Slot, hot: Option<Slot>, pend: Pending)
    requires Inv(s, hot, pend) && hot != Some(slot) && slot in s.procs
    ensures |s.procs[slot].module_.initial| <= |s.procs[slot].memory|
    ensures !s.procs[slot].pending.Free? ==> slot in s.lives
  {
    hide Faithful;
    assert SlotOk(s, slot, s.procs[slot].pending, true);
  }

  /** A fork is refused exactly when the parent is unknown or the child's slot is live, and then
      nothing changes. One that finds no memory has already dropped the dead record of the child's
      slot, so it changes nothing exactly when there was none. */
  lemma ForkRefused<K>(s: Sys<K>, parent: Slot, child: Slot, room: bool)
    ensures var (r, code) := ServeFork(s, parent, child, room);
            var refused := parent !in s.procs || (child in s.procs && !s.procs[child].exited);
            && code == (if refused then EINVAL else if !room then ENOMEM else 0)
            && (code == EINVAL ==> r == s)
            && (code == ENOMEM ==> r.procs == s.procs - {child} && (r.procs == s.procs <==> child !in s.procs))
  {
    hide Clone, Without;
  }

  /** One that succeeds touches no process but the child. */
  lemma ForkFrame<K>(s: Sys<K>, parent: Slot, child: Slot, room: bool, q: Slot)
    requires q in s.procs && q != child
    ensures var r := ServeFork(s, parent, child, room).0;
            q in r.procs && r.procs[q] == s.procs[q] && LifeOf(r, q) == LifeOf(s, q) && LedgerOf(r, q) == LedgerOf(s, q)
  {
    hide Clone, Without;
  }

  /** The child of a fork that succeeds has the parent's record, its whole memory, its suspension,
      arguments and books. */
  lemma ForkTwins<K>(s: Sys<K>, parent: Slot, child: Slot, room: bool, hot: Option<Slot>, pend: Pending)
    requires Inv(s, hot, pend) && hot != Some(parent)
    requires ServeFork(s, parent, child, room).1 == 0
    ensures var r := ServeFork(s, parent, child, room).0;
            && child in r.procs && r.procs[child] == s.procs[parent].(exited := false)
            && (!s.procs[parent].pending.Free? ==>
                  LifeOf(r, child) == LifeOf(s, parent) && LedgerOf(r, child) == LedgerOf(s, parent))
  {
    hide Inv, CloneMemory, Without;
    RecordKept(s, parent, hot, pend);
    CloneIsExact(s.procs[parent]);
  }

  /** The child's record is as sound as the parent's: one that is not suspended has not started. */
  lemma ForkedOk<K>(s: Sys<K>, parent: Slot, child: Slot, room: bool, hot: Option<Slot>, pend: Pending)
    requires Inv(s, hot, pend) && hot != Some(parent)
    requires ServeFork(s, parent, child, room).1 == 0
    ensures var r := ServeFork(s, parent, child, room).0; child in r.procs && SlotOk(r, child, r.procs[child].pending, true)
  {
    hide TurnOf, Calls, Values, Genuine, Apply, Pulls, CloneMemory, Without;
    ForkTwins(s, parent, child, room, hot, pend);
    assert SlotOk(s, parent, s.procs[parent].pending, true);
  }

  /** A record and its books go together. */
  lemma DropKeeps<K>(s: Sys<K>, r: Sys<K>, slot: Slot, hot: Option<Slot>, pend: Pending)
    requires Inv(s, hot, pend) && hot != Some(slot) && TableOk(r)
    requires r.procs == s.procs - {slot} && r.lives == s.lives - {slot} && r.ledgers == s.ledgers - {slot}
    ensures Inv(r, hot, pend)
  {
    hide Faithful;
    forall q | q in r.procs
      ensures SlotOk(r, q, if hot == Some(q) then pend else r.procs[q].pending, hot != Some(q))
    {
      assert SlotOk(s, q, if hot == Some(q) then pend else s.procs[q].pending, hot != Some(q));
    }
  }

  lemma ForkTableOk<K>(s: Sys<K>, parent: Slot, child: Slot, room: bool)
    requires TableOk(s)
    ensures TableOk(ServeFork(s, parent, child, room).0)
    ensures ServeFork(s, parent, child, room).0.procs.Keys <= s.procs.Keys + {child}
  {
    hide Clone, Without;
    WithoutOnce(s.order, child);
    AppendKeeps(s.order, child);
  }

  lemma ForkLost<K>(s: Sys<K>, parent: Slot, child: Slot, room: bool)
    requires ServeFork(s, parent, child, room).1 == ENOMEM
    ensures var r := ServeFork(s, parent, child, room).0;
            r.procs == s.procs - {child} && r.lives == s.lives - {child} && r.ledgers == s.ledgers - {child}
  {
    hide Clone, Without;
  }

  lemma ForkKeeps<K>(s: Sys<K>, parent: Slot, child: Slot, room: bool, hot: Option<Slot>, pend: Pending)
    requires Inv(s, hot, pend)
    requires hot != Some(parent) && hot != Some(child)
    ensures Inv(ServeFork(s, parent, child, room).0, hot, pend)
  {
    hide ServeFork, Faithful;
    var (r, code) := ServeFork(s, parent, child, room);
    ForkRefused(s, parent, child, room);
    if code == 0 {
      ForkTableOk(s, parent, child, room);
      ForkTwins(s, parent, child, room, hot, pend);
      forall q | q in s.procs && q != child
        ensures q in r.procs && r.procs[q] == s.procs[q] && LifeOf(r, q) == LifeOf(s, q) && LedgerOf(r, q) == LedgerOf(s, q)
      {
        ForkFrame(s, parent, child, room, q);
      }
      ForkedOk(s, parent, child, room, hot, pend);
      Local(s, r, hot, pend, child, hot, pend);
    } else if code == ENOMEM {
      ForkTableOk(s, parent, child, room);
      ForkLost(s, parent, child, room);
      DropKeeps(s, r, child, hot, pend);
    }
  }

  lemma ExecKeeps<K>(s: Sys<K>, e: Request, hot: Option<Slot>, pend: Pending)
    requires Inv(s, hot, pend)
    requires e.Exec? && hot != Some(e.slot) && !e.fate.Torn?
    requires e.target.Some? ==> e.target.value.Valid() && |e.target.value.initial| <= |e.loaded|
    ensures Inv(ServeExec(s, e).0, hot, pend)
  {
    hide Faithful;
    var (r, code) := ServeExec(s, e);
    if code == 0 {
      Local(s, r, hot, pend, e.slot, hot, pend);
    }
  }

  /** An exec that fails half way leaves a process suspended in a call as it was, for the books, exactly
      when it had replaced nothing by then: nothing puts the old image back. */
  lemma TornExecExactly<K>(s: Sys<K>, e: Request, hot: Option<Slot>, pend: Pending)
    requires Inv(s, hot, pend)
    requires e.Exec? && e.fate.Torn? && e.target.Some? && hot != Some(e.slot) && e.slot in s.procs
    requires 0 <= e.image ==> e.image in s.procs
    requires !s.procs[e.slot].pending.Free?
    ensures var (r, code) := ServeExec(s, e);
            var p := s.procs[e.slot];
            && code == ENOMEM && e.slot in r.procs && r.procs[e.slot].pending == p.pending
            && (SlotOk(r, e.slot, p.pending, true) <==>
                  e.fate.module_ == p.module_ && e.fate.entry == p.entry && e.fate.args == p.args && e.fate.memory == p.memory)
  {
    hide TurnOf, Calls, Values, Genuine, Apply, Pulls;
    assert SlotOk(s, e.slot, s.procs[e.slot].pending, true);
  }

  lemma ServeKeeps<K>(s: Sys<K>, r: Request, slot: Slot, pend: Pending)
    requires Inv(s, Some(slot), pend)
    requires Proper(r, slot)
    ensures Inv(Serve(s, r).0, Some(slot), pend)
  {
    match r
    case CopyIn(dst, at, data) =>
      if dst in s.procs && InRange(s.procs[dst].memory, at, |data|) {
        PokeKeeps(s, dst, at, data, Some(slot), pend);
      }
    case CopyOut(_, _, _) =>
    case CopyAcross(src, from, dst, at, n) =>
      if src in s.procs && dst in s.procs && InRange(s.procs[src].memory, from, n) && InRange(s.procs[dst].memory, at, n) {
        PokeKeeps(s, dst, at, s.procs[src].memory[from..from + n], Some(slot), pend);
      }
    case Fork(parent, child, room) => ForkKeeps(s, parent, child, room, Some(slot), pend);
    case Exec(_, _, _, _, _, _) => ExecKeeps(s, r, Some(slot), pend);
  }

  /** The invariant does not look at the kernel, the slice or the counters. */
  lemma InvSame<K>(s: Sys<K>, r: Sys<K>, hot: Option<Slot>, pend: Pending)
    requires Inv(s, hot, pend)
    requires r.procs == s.procs && r.order == s.order && r.lives == s.lives && r.ledgers == s.ledgers
    ensures Inv(r, hot, pend)
  {
    hide Faithful;
    forall q | q in r.procs
      ensures SlotOk(r, q, if hot == Some(q) then pend else r.procs[q].pending, hot != Some(q))
    {
      assert SlotOk(s, q, if hot == Some(q) then pend else s.procs[q].pending, hot != Some(q));
    }
  }

  lemma {:induction false} SettleKeeps<K(!new)>(kn: Kernel<K>, s: Sys<K>, slot: Slot, pend: Pending)
    requires kn.Valid() && kn.current(s.k) == slot
    requires Inv(s, Some(slot), pend)
    ensures Inv(Settle(kn, s), Some(slot), pend)
    decreases kn.rank(s.k)
  {
    match kn.request(s.k)
    case None =>
    case Some(q) =>
      var (s1, reply) := Serve(s, q);
      ServeKeeps(s, q, slot, pend);
      var s2 := s1.(k := kn.reply(s1.k, reply));
      InvSame(s1, s2, Some(slot), pend);
      SettleKeeps(kn, s2, slot, pend);
  }

  // -------------------------------------------------------------------- the gate

  /** The state the gate is entered in: the running process is at `call`, undelivered for a first
      entry or a yield's replay, delivered for the other two replays. */
  ghost predicate AtGate<K>(s: Sys<K>, slot: Slot, call: Call) {
    && slot in s.procs && slot in s.lives
    && var pend := s.procs[slot].pending;
    && (!pend.Free? ==> pend.call == call)
    && Inv(s, Some(slot), if pend.Free? then Yielded(call) else pend)
  }

  /** Changing only the hot process's pending mark. */
  lemma MarkKeeps<K>(s: Sys<K>, slot: Slot, pend: Pending, mark: Pending)
    requires Inv(s, Some(slot), pend) && slot in s.procs
    ensures Inv(WithPending(s, slot, mark), Some(slot), pend)
  {
    assert SlotOk(s, slot, pend, false);
    Local(s, WithPending(s, slot, mark), Some(slot), pend, slot, Some(slot), pend);
  }

  /** A suspended process is at rest. */
  lemma MarkRests<K>(s: Sys<K>, slot: Slot, mark: Pending)
    requires Inv(s, Some(slot), mark) && slot in s.procs && !mark.Free?
    ensures Inv(WithPending(s, slot, mark), None, Free)
  {
    hide TurnOf, Calls, Values, Genuine, Apply, Pulls;
    assert SlotOk(s, slot, mark, false);
    Local(s, WithPending(s, slot, mark), Some(slot), mark, slot, None, Free);
  }

  /** The books after the call reached the kernel: owed, with nothing handed out yet. */
  lemma EnteredKeeps<K(!new)>(kn: Kernel<K>, s: Sys<K>, slot: Slot, call: Call)
    requires slot in s.procs && slot in s.lives
    requires Inv(s, Some(slot), Yielded(call))
    ensures Inv(Entered(kn, s, slot, call), Some(slot), Blocked(call, 0))
  {
    hide TurnOf, Calls, Values, Genuine, Apply, Pulls;
    assert SlotOk(s, slot, Yielded(call), false);
    Local(s, Entered(kn, s, slot, call), Some(slot), Yielded(call), slot, Some(slot), Blocked(call, 0));
  }

  lemma DeliverKeeps<K(!new)>(kn: Kernel<K>, s: Sys<K>, slot: Slot, call: Call)
    requires kn.Valid() && slot in s.procs && slot in s.lives
    requires Inv(s, Some(slot), Yielded(call))
    ensures slot in Deliver(kn, s, slot, call).lives
    ensures Inv(Deliver(kn, s, slot, call), Some(slot), Blocked(call, 0))
  {
    EnteredKeeps(kn, s, slot, call);
    SettleKeeps(kn, Entered(kn, s, slot, call), slot, Blocked(call, 0));
    assert SlotOk(Deliver(kn, s, slot, call), slot, Blocked(call, 0), false);
  }

  lemma HandKeeps<K>(s: Sys<K>, slot: Slot, call: Call, w: int, v: int)
    requires Inv(s, Some(slot), Blocked(call, w)) && slot in s.procs && slot in s.lives
    ensures Inv(Handed(s, slot, v), Some(slot), Resumed(call, v))
  {
    hide TurnOf, Calls, Values, Genuine, Apply, Pulls;
    assert SlotOk(s, slot, Blocked(call, w), false);
    Local(s, Handed(s, slot, v), Some(slot), Blocked(call, w), slot, Some(slot), Resumed(call, v));
  }

  lemma BlockedValueAside<K>(s: Sys<K>, slot: Slot, call: Call, v: int, w: int)
    requires Inv(s, Some(slot), Blocked(call, v)) && slot in s.procs
    ensures Inv(s, Some(slot), Blocked(call, w))
  {
    hide TurnOf, Calls, Values, Genuine, Apply, Pulls;
    assert SlotOk(s, slot, Blocked(call, v), false);
    Local(s, s, Some(slot), Blocked(call, v), slot, Some(slot), Blocked(call, w));
  }

  /** What the gate leaves: at rest if it suspended the caller, and otherwise the caller holding
      exactly one answer for exactly one delivery. */
  ghost predicate AfterGate<K>(s: Sys<K>, slot: Slot, call: Call, o: Outcome) {
    match o
    case Unwound => Inv(s, None, Free)
    case Answered(v) => slot in s.procs && slot in s.lives && Inv(s, Some(slot), Resumed(call, v))
    case Threw => slot in s.procs && s.procs[slot].pending.Free? && Inv(s, Some(slot), Yielded(call))
  }

  lemma ConcludeKeeps<K(!new)>(kn: Kernel<K>, s: Sys<K>, slot: Slot, call: Call)
    requires slot in s.procs && slot in s.lives
    requires Inv(s, Some(slot), Blocked(call, 0))
    ensures var (r, o) := Conclude(kn, s, slot, call); AfterGate(r, slot, call, o)
  {
    hide Inv;
    var v := kn.result(s.k);
    var s1 := if Spins(call, v) then s.(slice := s.slice.(spin := s.slice.spin + 1)) else s;
    InvSame(s, s1, Some(slot), Blocked(call, 0));
    if kn.blocked(s1.k, slot) {
      BlockedValueAside(s1, slot, call, 0, v);
      MarkRests(s1, slot, Blocked(call, v));
    } else {
      HandKeeps(s1, slot, call, 0, v);
      if call.nr == NR_THREAD_YIELD {
        MarkRests(Handed(s1, slot, v), slot, Resumed(call, v));
      }
    }
  }

  lemma GateKeeps<K(!new)>(kn: Kernel<K>, s: Sys<K>, slot: Slot, call: Call)
    requires kn.Valid() && AtGate(s, slot, call)
    ensures var (r, o) := Gate(kn, s, slot, call); AfterGate(r, slot, call, o)
  {
    match s.procs[slot].pending
    case Resumed(_, v) => MarkKeeps(s, slot, Resumed(call, v), Free);
    case Blocked(_, w) =>
      var v := kn.retval(s.k, slot);
      HandKeeps(s, slot, call, w, v);
      MarkKeeps(Handed(s, slot, v), slot, Resumed(call, v), Free);
    case _ =>
      var s1 := WithPending(s, slot, Free);
      MarkKeeps(s, slot, Yielded(call), Free);
      if s1.left <= 0 {
      } else if s1.slice.used >= s1.slice.limit {
        MarkRests(s1, slot, Yielded(call));
      } else {
        DeliverKeeps(kn, s1, slot, call);
        ConcludeKeeps(kn, Deliver(kn, s1, slot, call), slot, call);
      }
  }

  // -------------------------------------------------------------- the dispatch loop

  /** The running process is where the uninterrupted execution is: about to take turn `t`, or
      rewinding into the call it was suspended in. */
  ghost predicate Driving<K>(s: Sys<K>, slot: Slot, t: Turn) {
    && slot in s.procs && slot in s.lives
    && var p := s.procs[slot];
    && Inv(s, Some(slot), p.pending)
    && |p.memory| <= |t.memory|
    && if p.pending.Free? then t == TurnOf(s.lives[slot]) && s.lives[slot].stores == []
       else t == Issues(p.pending.call, p.memory)
  }

  /** At rest after a clean ending; otherwise the process that stopped the pump is the only one
      that is not. */
  ghost predicate Rested<K>(s: Sys<K>, slot: Slot, e: Ending) {
    if e.OutOfBudget? || e.Faulted? then
      slot in s.procs && s.procs[slot].pending.Free? && Inv(s, Some(slot), Free)
    else Inv(s, None, Free)
  }

  /** What is owed while undelivered is nothing. */
  lemma YieldedIsFree<K>(s: Sys<K>, slot: Slot, call: Call)
    requires Inv(s, Some(slot), Yielded(call)) && slot in s.procs
    ensures Inv(s, Some(slot), Free)
  {
    assert SlotOk(s, slot, Yielded(call), false);
    Local(s, s, Some(slot), Yielded(call), slot, Some(slot), Free);
  }

  /** A turn that reaches a call brings the process to the gate. */
  lemma ReachesGate<K>(s: Sys<K>, slot: Slot, t: Turn)
    requires Driving(s, slot, t) && t.Issues?
    ensures AtGate(WithMemory(s, slot, t.memory), slot, t.call)
  {
    hide RanOf, Calls, Values, Genuine, Pulls;
    var p := s.procs[slot];
    var pend := if p.pending.Free? then Yielded(t.call) else p.pending;
    assert SlotOk(s, slot, p.pending, false);
    Local(s, WithMemory(s, slot, t.memory), Some(slot), p.pending, slot, Some(slot), pend);
  }

  /** A process that ends, with whatever memory it ends with. */
  lemma EndKeeps<K>(s: Sys<K>, slot: Slot, m: seq<byte>)
    requires slot in s.procs && s.procs[slot].pending.Free? && |s.procs[slot].memory| <= |m|
    requires Inv(s, Some(slot), Free)
    ensures Inv(WithMemory(s, slot, m), Some(slot), Free)
    ensures Inv(Retire(WithMemory(s, slot, m), slot), None, Free)
  {
    var r := WithMemory(s, slot, m);
    assert SlotOk(s, slot, Free, false);
    Local(s, r, Some(slot), Free, slot, Some(slot), Free);
    Local(r, Retire(r, slot), Some(slot), Free, slot, None, Free);
  }

  /** One answer advances the uninterrupted execution by one call. */
  lemma Advance(l: Life, a: Answer)
    requires Genuine(l) && TurnOf(l).Issues?
    ensures var n := l.(answers := l.answers + [a], stores := []);
            && Genuine(n)
            && Calls(n) == Calls(l) + [TurnOf(l).call]
            && Values(n) == Values(l) + [a.value]
            && RanOf(n) == l.module_.resume(Apply(TurnOf(l).memory, a.stores), a.value, a.view)
            && Pulls(n) == Pulls(l) + RanOf(n).pulls
  {
    var n := l.(answers := l.answers + [a], stores := []);
    assert Earlier(n) == l.(stores := []);
    StoresAside(l, []);
  }

  lemma ReceivedBooks(p: Proc, l: Life, g: Ledger, call: Call, v: int, view: View)
    requires Faithful(p, Resumed(call, v), l, g)
    ensures var n := l.(answers := l.answers + [Answer(l.stores, v, view)], stores := []);
            var ran := p.module_.resume(p.memory, v, view);
            Faithful(p, Free, n, g.(pulls := g.pulls + ran.pulls)) && RanOf(n) == ran
  {
    hide RanOf, Calls, Values, Genuine, Apply, Pulls;
    Advance(l, Answer(l.stores, v, view));
    var n := l.(answers := l.answers + [Answer(l.stores, v, view)], stores := []);
    assert Genuine(n);
    assert g.calls == Calls(n) + Owed(Free);
    assert g.values == Values(n) + Held(Free);
    assert RanOf(n) == p.module_.resume(p.memory, v, view);
    assert g.pulls + RanOf(n).pulls == Pulls(n);
  }

  lemma ReceivedKeeps<K(!new)>(kn: Kernel<K>, s: Sys<K>, slot: Slot, call: Call, v: int)
    requires slot in s.procs && slot in s.lives && s.procs[slot].pending.Free?
    requires Inv(s, Some(slot), Resumed(call, v))
    ensures var (r, t) := Resumes(kn, s, slot, v); Driving(r, slot, t)
  {
    hide Faithful, RanOf;
    var r := Resumes(kn, s, slot, v).0;
    assert SlotOk(s, slot, Resumed(call, v), false);
    ReceivedBooks(s.procs[slot], s.lives[slot], LedgerOf(s, slot), call, v, kn.view(s.k));
    Local(s, r, Some(slot), Resumed(call, v), slot, Some(slot), Free);
  }

  lemma {:induction false} DriveKeeps<K(!new)>(kn: Kernel<K>, s: Sys<K>, slot: Slot, t: Turn)
    requires kn.Valid() && s.slice.used <= s.slice.limit && Driving(s, slot, t)
    ensures var (r, e) := Drive(kn, s, slot, t); Rested(r, slot, e)
    decreases s.slice.limit - s.slice.used, Replays(s.procs[slot].pending)
  {
    hide Inv, Gate, Resumes, TurnOf, AtGate;
    var s0 := WithMemory(s, slot, t.memory);
    if t.Issues? {
      ReachesGate(s, slot, t);
      GateKeeps(kn, s0, slot, t.call);
      var (s1, o) := Gate(kn, s0, slot, t.call);
      match o
      case Threw => YieldedIsFree(s1, slot, t.call);
      case Unwound =>
      case Answered(v) =>
        ReceivedKeeps(kn, s1, slot, t.call, v);
        var (s2, t2) := Resumes(kn, s1, slot, v);
        DriveKeeps(kn, s2, slot, t2);
    } else {
      EndKeeps(s, slot, t.memory);
      var ended := Retire(s0, slot);
      InvSame(ended, ended.(k := kn.retire(s0.k, slot)), None, Free);
    }
  }

  lemma BornBooks(p: Proc, view: View)
    ensures var born := Life(p.module_, p.entry, p.args, p.memory, view, [], []);
            var ran := p.module_.start(p.entry, p.memory, p.args, view);
            Faithful(p, Free, born, BLANK.(pulls := ran.pulls)) && RanOf(born) == ran
  {
  }

  /** A process that starts. */
  lemma StartDrives<K(!new)>(kn: Kernel<K>, s: Sys<K>, slot: Slot)
    requires Inv(s, None, Free) && slot in s.procs && s.procs[slot].pending.Free?
    ensures var (r, t) := Starts(kn, s, slot); Driving(r, slot, t)
  {
    hide Faithful, RanOf;
    var r := Starts(kn, s, slot).0;
    BornBooks(s.procs[slot], kn.view(s.k));
    assert SlotOk(s, slot, s.procs[slot].pending, true);
    Local(s, r, None, Free, slot, Some(slot), Free);
  }

  lemma RewindDrives<K>(s: Sys<K>, slot: Slot)
    requires Inv(s, None, Free) && slot in s.procs && !s.procs[slot].pending.Free?
    ensures Driving(s, slot, Issues(s.procs[slot].pending.call, s.procs[slot].memory))
  {
    hide Calls, Values, Genuine, Apply, Pulls, RanOf;
    assert SlotOk(s, slot, s.procs[slot].pending, true);
    Local(s, s, None, Free, slot, Some(slot), s.procs[slot].pending);
  }

  lemma RunKeeps<K(!new)>(kn: Kernel<K>, s: Sys<K>, slot: Slot)
    requires kn.Valid() && s.slice.used <= s.slice.limit
    requires Inv(s, None, Free) && slot in s.procs
    ensures var (r, e) := Run(kn, s, slot); Rested(r, slot, e)
  {
    var p := s.procs[slot];
    if p.pending.Free? {
      StartDrives(kn, s, slot);
      var (s1, t) := Starts(kn, s, slot);
      DriveKeeps(kn, s1, slot, t);
    } else {
      RewindDrives(s, slot);
      DriveKeeps(kn, s, slot, Issues(p.pending.call, p.memory));
    }
  }

  /** At rest, or stopped by one process that is not suspended. */
  ghost predicate Settled<K>(s: Sys<K>, why: Reason) {
    if why.Budget? || why.Trapped? then
      exists slot :: slot in s.procs && s.procs[slot].pending.Free? && Inv(s, Some(slot), Free)
    else Inv(s, None, Free)
  }

  lemma VerdictSettles<K(!new)>(kn: Kernel<K>, before: Slice, s: Sys<K>, slot: Slot, e: Ending)
    requires Rested(s, slot, e)
    ensures var v := Verdict(kn, before, s, e); if v.Some? then Settled(s, v.value) else Inv(s, None, Free)
  {
  }

  lemma DispatchKeeps<K(!new)>(kn: Kernel<K>, s: Sys<K>, slot: Slot)
    requires kn.Valid() && s.slice.used <= s.slice.limit
    requires Inv(s, None, Free) && slot in s.procs
    ensures var (r, v) := Dispatch(kn, s, slot); if v.Some? then Settled(r, v.value) else Inv(r, None, Free)
  {
    RunKeeps(kn, s, slot);
    var (r, e) := Run(kn, s, slot);
    VerdictSettles(kn, s.slice, r, slot, e);
  }

  /** One round of the loop. */
  lemma LoopRound<K(!new)>(kn: Kernel<K>, s: Sys<K>, steps: nat)
    requires kn.Valid() && s.slice.used <= s.slice.limit
    ensures var (k, slot) := kn.step(s.k);
            var s1 := s.(k := k);
            var why := if slot == -1 then Quiescent else if steps == 0 then Steps else UnknownSlot;
            if slot == -1 || steps == 0 || slot !in s1.procs then Loop(kn, s, steps) == (s1, why)
            else
              var (s2, v) := Dispatch(kn, s1, slot);
              && s2.slice.used <= s2.slice.limit
              && Loop(kn, s, steps) == if v.Some? then (s2, v.value) else Loop(kn, s2, steps - 1)
  {
  }

  lemma RestSettles<K>(s: Sys<K>, why: Reason)
    requires Inv(s, None, Free) && !why.Budget? && !why.Trapped?
    ensures Settled(s, why)
  {
  }

  lemma {:induction false} LoopKeeps<K(!new)>(kn: Kernel<K>, s: Sys<K>, steps: nat, r: (Sys<K>, Reason))
    requires kn.Valid() && s.slice.used <= s.slice.limit && Inv(s, None, Free)
    requires r == Loop(kn, s, steps)
    ensures Settled(r.0, r.1)
    decreases steps
  {
    hide *;
    LoopRound(kn, s, steps);
    var (k, slot) := kn.step(s.k);
    var s1 := s.(k := k);
    InvSame(s, s1, None, Free);
    RestSettles(s1, Quiescent);
    RestSettles(s1, Steps);
    RestSettles(s1, UnknownSlot);
    if slot != -1 && steps != 0 && slot in s1.procs {
      DispatchKeeps(kn, s1, slot);
      var (s2, v) := Dispatch(kn, s1, slot);
      if v.None? {
        LoopKeeps(kn, s2, steps - 1, r);
      }
    }
  }

  /** The kernel's books and every guest's agree. */
  ghost predicate Transparent<K>(s: Sys<K>) {
    forall slot :: slot in s.lives ==>
      slot in s.procs && Faithful(s.procs[slot], s.procs[slot].pending, s.lives[slot], LedgerOf(s, slot))
  }

  lemma SettledIsTransparent<K>(s: Sys<K>, why: Reason)
    requires Settled(s, why)
    ensures Transparent(s) && TableOk(s)
  {
    hide Faithful;
    forall slot | slot in s.lives
      ensures slot in s.procs && Faithful(s.procs[slot], s.procs[slot].pending, s.lives[slot], LedgerOf(s, slot))
    {
      if why.Budget? || why.Trapped? {
        var hot :| hot in s.procs && s.procs[hot].pending.Free? && Inv(s, Some(hot), Free);
        assert SlotOk(s, slot, if slot == hot then Free else s.procs[slot].pending, slot != hot);
      } else {
        assert SlotOk(s, slot, s.procs[slot].pending, true);
      }
    }
  }

  /** For every kernel, every set of guests and every sequence of slices, step bounds and outside
      events, in every state a session reaches: the calls the kernel was given in a process's name
      are the calls an uninterrupted execution of its program issues, once each and in program
      order; the values it handed out are the ones that execution received; and a suspended process
      has exactly the memory and the next call that execution has. The process table stays sound. */
  lemma {:induction false} SlicingIsTransparent<K(!new)>(kn: Kernel<K>, s: Sys<K>, moves: seq<Move<K>>)
    requires kn.Valid() && Inv(s, None, Free)
    ensures var (r, going) := Session(kn, s, moves);
            Transparent(r) && TableOk(r) && (going ==> Inv(r, None, Free))
    decreases |moves|
  {
    if moves == [] {
      SettledIsTransparent(s, Quiescent);
    } else {
      match moves[0]
      case Outside(k) =>
        InvSame(s, s.(k := k), None, Free);
        SlicingIsTransparent(kn, s.(k := k), moves[1..]);
      case PumpFor(limit, steps) =>
        var s0 := s.(slice := Slice(0, 0, limit));
        InvSame(s, s0, None, Free);
        var (s1, why) := Pump(kn, s, limit, steps);
        LoopKeeps(kn, s0, steps, (s1, why));
        if GoesOn(why) {
          SlicingIsTransparent(kn, s1, moves[1..]);
        } else {
          SettledIsTransparent(s1, why);
        }
    }
  }

  // ----------------------------------------------------------------- boot and fork

  lemma SpawnShape<K>(s: Sys<K>, specs: seq<(Slot, Module, string)>)
    requires forall q :: q in s.order <==> q in s.procs
    ensures var r := Spawn(s, specs);
            && r.order == s.order + Slots(specs)
            && (forall q :: q in r.order <==> q in r.procs)
            && r.lives == s.lives && r.ledgers == s.ledgers
    decreases |specs|
  {
    if specs != [] {
      var (slot, m, entry) := specs[0];
      SpawnShape(s.(procs := s.procs[slot := Proc(m, entry, [], m.initial, Free, false, [], 0)], order := s.order + [slot]), specs[1..]);
      assert Slots(specs) == [slot] + Slots(specs[1..]);
    }
  }

  lemma SpawnRecords<K>(s: Sys<K>, specs: seq<(Slot, Module, string)>)
    requires forall i :: 0 <= i < |specs| ==> specs[i].1.Valid()
    requires forall q :: q in s.procs ==> RecordOk(s.procs[q], Free, None, BLANK, true) && s.procs[q].pending.Free?
    ensures var r := Spawn(s, specs);
            forall q :: q in r.procs ==> RecordOk(r.procs[q], Free, None, BLANK, true) && r.procs[q].pending.Free?
    decreases |specs|
  {
    if specs != [] {
      var (slot, m, entry) := specs[0];
      SpawnRecords(s.(procs := s.procs[slot := Proc(m, entry, [], m.initial, Free, false, [], 0)], order := s.order + [slot]), specs[1..]);
    }
  }

  /** A boot is sound exactly when its specs name each slot once. */
  lemma BootIsSound<K>(k: K, specs: seq<(Slot, Module, string)>, budget: nat)
    requires forall i :: 0 <= i < |specs| ==> specs[i].1.Valid()
    ensures Inv(Boot(k, specs, budget), None, Free) <==> NoDup(Slots(specs))
  {
    var start := Sys(k, map[], [], map[], map[], Slice(0, 0, 0), budget, 0, 0);
    SpawnShape(start, specs);
    SpawnRecords(start, specs);
    var r := Boot(k, specs, budget);
    assert r.order == Slots(specs);
    forall q | q in r.procs ensures SlotOk(r, q, r.procs[q].pending, true) {
      assert RecordOk(r.procs[q], Free, None, BLANK, true);
    }
  }

  /** Parent and child of a fork made inside a blocking call take the same turn when they are given
      the same value: all that can tell them apart is what the kernel returns to each slot. */
  lemma TwinsDifferOnlyInValue<K(!new)>(kn: Kernel<K>, s: Sys<K>, parent: Slot, child: Slot, room: bool,
                                        hot: Option<Slot>, pend: Pending)
    requires kn.Valid() && Inv(s, hot, pend) && hot != Some(parent) && parent != child
    requires ServeFork(s, parent, child, room).1 == 0 && s.procs[parent].pending.Blocked?
    ensures var r := ServeFork(s, parent, child, room).0;
            var call := s.procs[parent].pending.call;
            && child in r.procs && parent in r.procs
            && Gate(kn, r, parent, call).1 == Answered(kn.retval(r.k, parent))
            && Gate(kn, r, child, call).1 == Answered(kn.retval(r.k, child))
            && (forall v: int, w: View :: r.procs[child].module_.resume(r.procs[child].memory, v, w)
                                       == r.procs[parent].module_.resume(r.procs[parent].memory, v, w))
  {
    hide Inv, ServeFork;
    ForkRefused(s, parent, child, room);
    ForkTwins(s, parent, child, room, hot, pend);
    ForkFrame(s, parent, child, room, parent);
  }

  /** Nothing the kernel asks for overwrites a live process: it keeps its record, up to stores into
      its memory, unless the request is an exec of that very slot. */
  lemma LiveSlotsStand<K>(s: Sys<K>, q: Request, slot: Slot)
    requires slot in s.procs && !s.procs[slot].exited
    requires !(q.Exec? && q.slot == slot)
    ensures var r := Serve(s, q).0;
            slot in r.procs && r.procs[slot] == s.procs[slot].(memory := r.procs[slot].memory)
            && |r.procs[slot].memory| == |s.procs[slot].memory|
  {
  }
}
