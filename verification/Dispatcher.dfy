/**
 The gate, the dispatch of one process and the pump as the host runs them, over the process table:
 fields updated call by call, and loops that end when a guest gives control back or the pump has a
 reason to return. Each is tied to the function of `Engine` whose properties `Transparency` and
 `Slices` prove, and each keeps the table valid: records and slots in one-to-one correspondence, and
 no two records with one memory, in every state of every pump.
 */
module Dispatcher {
  import opened Bytes
  import opened Engine
  import H = Host
  import Slices

  class Host<K(!new)> {
    const kn: Kernel<K>
    const table: H.ProcessTable
    var k: K
    var slice: Slice
    var syscallsLeft: int
    ghost var lives: map<Slot, Life>
    ghost var ledgers: map<Slot, Ledger>
    ghost var delivered: nat
    ghost var retired: nat

    ghost predicate Valid()
      reads this, table, table.recs, table.mems
    {
      kn.Valid() && table.Valid()
    }

    ghost function State(): (s: Sys<K>)
      reads this, table
    {
      Sys(k, table.view, H.SlotsOf(table.procs), lives, ledgers, slice, syscallsLeft, delivered, retired)
    }

    /** `createHost`: one record per spec, none started. */
    constructor (kernel: Kernel<K>, start: K, specs: seq<(Slot, Module, string)>, budget: nat)
      requires kernel.Valid() && NoDup(Slots(specs))
      ensures kn == kernel && Valid() && State() == Boot(start, specs, budget)
      ensures fresh(table) && fresh(table.recs) && fresh(table.mems)
    {
      kn := kernel;
      table := new H.ProcessTable();
      k := start;
      slice := Slice(0, 0, 0);
      syscallsLeft := budget;
      lives, ledgers, delivered, retired := map[], map[], 0, 0;
      new;
      assert State() == Sys(start, map[], [], map[], map[], Slice(0, 0, 0), budget, 0, 0);
      Spawns(specs);
    }

    method Spawns(specs: seq<(Slot, Module, string)>)
      requires Valid() && NoDup(Slots(specs)) && forall j :: 0 <= j < |specs| ==> specs[j].0 !in table.view
      modifies table
      ensures Valid() && fresh(table.recs - old(table.recs)) && fresh(table.mems - old(table.mems))
      ensures State() == Spawn(old(State()), specs)
    {
      hide H.ProcessTable.Valid, H.SlotsOf;
      ghost var s := State();
      var i := 0;
      assert specs[0..] == specs;
      while i < |specs|
        invariant 0 <= i <= |specs| && Valid()
        invariant fresh(table.recs - old(table.recs)) && fresh(table.mems - old(table.mems))
        invariant Spawn(State(), specs[i..]) == Spawn(s, specs)
        invariant forall j :: i <= j < |specs| ==> specs[j].0 !in table.view
      {
        assert specs[i..][0] == specs[i] && specs[i..][1..] == specs[i + 1..];
        SlotsApart(specs, i);
        var (slot, m, entry) := specs[i];
        table.Spawn(slot, m, entry);
        i := i + 1;
      }
    }

    // ------------------------------------------------------------------ the kernel's requests

    /** `copyBetween` from the kernel: out of range is a fault and changes nothing. */
    method CopyIn(dst: Slot, dstAddr: int, data: seq<byte>) returns (code: int)
      requires Valid()
      modifies this, table, table.mems
      ensures Valid() && table.recs == old(table.recs) && table.mems == old(table.mems)
      ensures (State(), Reply(code, [])) == Serve(old(State()), Request.CopyIn(dst, dstAddr, data))
    {
      hide H.ProcessTable.Valid;
      var known := table.Has(dst);
      if !known {
        return EFAULT;
      }
      var p := table.Look(dst);
      if !InRange(p.memory, dstAddr, |data|) {
        return EFAULT;
      }
      lives := Engine.Poke(State(), dst, dstAddr, data).lives;
      table.Poke(dst, dstAddr, data);
      return 0;
    }

    /** `copyBetween` into the kernel. */
    method CopyOut(src: Slot, srcAddr: int, bytes: int) returns (r: Reply)
      requires Valid()
      ensures (State(), r) == Serve(State(), Request.CopyOut(src, srcAddr, bytes))
    {
      hide H.ProcessTable.Valid;
      var known := table.Has(src);
      if !known {
        return Reply(EFAULT, []);
      }
      var p := table.Look(src);
      if !InRange(p.memory, srcAddr, bytes) {
        return Reply(EFAULT, []);
      }
      return Reply(0, p.memory[srcAddr..srcAddr + bytes]);
    }

    /** `copyBetween` of two processes. */
    method CopyAcross(src: Slot, srcAddr: int, dst: Slot, dstAddr: int, bytes: int) returns (code: int)
      requires Valid()
      modifies this, table, table.mems
      ensures Valid() && table.recs == old(table.recs) && table.mems == old(table.mems)
      ensures (State(), Reply(code, [])) == Serve(old(State()), Request.CopyAcross(src, srcAddr, dst, dstAddr, bytes))
    {
      hide H.ProcessTable.Valid;
      var knownSrc := table.Has(src);
      var knownDst := table.Has(dst);
      if !knownSrc || !knownDst {
        return EFAULT;
      }
      var from := table.Look(src);
      var to := table.Look(dst);
      if !InRange(from.memory, srcAddr, bytes) || !InRange(to.memory, dstAddr, bytes) {
        return EFAULT;
      }
      var data := from.memory[srcAddr..srcAddr + bytes];
      lives := Engine.Poke(State(), dst, dstAddr, data).lives;
      table.Poke(dst, dstAddr, data);
      return 0;
    }

    method Forks(parent: Slot, child: Slot, room: bool) returns (code: int)
      requires Valid()
      modifies this, table
      ensures Valid() && fresh(table.recs - old(table.recs)) && fresh(table.mems - old(table.mems))
      ensures (State(), code) == ServeFork(old(State()), parent, child, room)
    {
      hide ForkTable, H.ProcessTable.Valid;
      ghost var after := ServeFork(State(), parent, child, room).0;
      code := table.Fork(parent, child, room);
      lives, ledgers := after.lives, after.ledgers;
      Refused(old(State()), parent, child, room);
    }

    method Execs(q: Request) returns (code: int)
      requires Valid() && q.Exec?
      modifies this, table, table.recs
      ensures Valid() && table.recs == old(table.recs) && fresh(table.mems - old(table.mems))
      ensures (State(), code) == ServeExec(old(State()), q)
    {
      hide H.ProcessTable.Valid;
      ghost var after := ServeExec(State(), q).0;
      code := table.Exec(q);
      lives, ledgers := after.lives, after.ledgers;
    }

    /** One request, by the table's own operations. */
    method Answer(q: Request) returns (r: Reply)
      requires Valid()
      modifies this, table, table.recs, table.mems
      ensures Valid() && fresh(table.recs - old(table.recs)) && fresh(table.mems - old(table.mems))
      ensures (State(), r) == Serve(old(State()), q)
    {
      hide ServeFork, ServeExec, H.ProcessTable.Valid;
      match q
      case CopyIn(dst, at, data) =>
        var code := CopyIn(dst, at, data);
        r := Reply(code, []);
      case CopyOut(src, at, n) =>
        r := CopyOut(src, at, n);
      case CopyAcross(src, from, dst, at, n) =>
        var code := CopyAcross(src, from, dst, at, n);
        r := Reply(code, []);
      case Fork(parent, child, room) =>
        var code := Forks(parent, child, room);
        r := Reply(code, []);
      case Exec(_, _, _, _, _, _) =>
        var code := Execs(q);
        r := Reply(code, []);
    }

    /** Serve what the kernel asks for until it has nothing more to ask. */
    method Settle()
      requires Valid()
      modifies this, table, table.recs, table.mems
      ensures Valid() && fresh(table.recs - old(table.recs)) && fresh(table.mems - old(table.mems))
      ensures State() == Engine.Settle(kn, old(State()))
    {
      hide Serve, H.ProcessTable.Valid;
      while kn.request(k).Some?
        invariant Valid() && fresh(table.recs - old(table.recs)) && fresh(table.mems - old(table.mems))
        invariant Engine.Settle(kn, State()) == Engine.Settle(kn, old(State()))
        decreases kn.rank(k)
      {
        ghost var before := State();
        var reply := Answer(kn.request(k).value);
        ServeRunner(before, kn.request(before.k).value, kn.current(before.k));
        k := kn.reply(k, reply);
      }
    }

    // ------------------------------------------------------------------ the gate

    /** `minix_syscall`, the import every guest calls. */
    method Syscall(slot: Slot, call: Call) returns (o: Outcome)
      requires Valid() && slot in table.view
      modifies this, table, table.recs, table.mems
      ensures Valid() && fresh(table.recs - old(table.recs)) && fresh(table.mems - old(table.mems))
      ensures (State(), o) == Gate(kn, old(State()), slot, call)
    {
      hide Deliver, Conclude, H.ProcessTable.Valid;
      var p := table.Look(slot);
      var pend := p.pending;
      table.SetPending(slot, Free);
      if pend.Resumed? {
        return Answered(pend.value);
      }
      if pend.Blocked? {
        var v := kn.retval(k, slot);
        ledgers := Handed(State(), slot, v).ledgers;
        return Answered(v);
      }
      if syscallsLeft <= 0 {
        return Threw;
      }
      if slice.used >= slice.limit {
        ghost var free := State();
        table.SetPending(slot, Yielded(call));
        assert State() == WithPending(free, slot, Yielded(call));
        return Unwound;
      }
      o := Ask(slot, call);
    }

    /** The call reaches the kernel: count it, hand it over, and look at what became of the caller. */
    method Ask(slot: Slot, call: Call) returns (o: Outcome)
      requires Valid() && slot in table.view
      modifies this, table, table.recs, table.mems
      ensures Valid() && fresh(table.recs - old(table.recs)) && fresh(table.mems - old(table.mems))
      ensures (State(), o) == Conclude(kn, Deliver(kn, old(State()), slot, call), slot, call)
    {
      hide Engine.Settle, Conclude, Entered, H.ProcessTable.Valid;
      Enter(slot, call);
      Settle();
      assert State() == Deliver(kn, old(State()), slot, call);
      o := Finish(slot, call);
    }

    method Enter(slot: Slot, call: Call)
      requires Valid() && slot in table.view
      modifies this, table, table.recs
      ensures Valid() && table.recs == old(table.recs) && table.mems == old(table.mems)
      ensures slot in old(table.view) && State() == Entered(kn, old(State()), slot, call)
    {
      hide H.ProcessTable.Valid, Push8, LedgerOf, H.SlotsOf;
      ledgers, delivered := Entered(kn, State(), slot, call).ledgers, delivered + 1;
      syscallsLeft, slice := syscallsLeft - 1, slice.(used := slice.used + 1);
      table.Count(slot, call.nr);
      k := kn.enter(k, slot, call);
    }

    /** After the kernel returned: suspend the caller, or hand it the result. */
    method Finish(slot: Slot, call: Call) returns (o: Outcome)
      requires Valid() && slot in table.view
      modifies this, table, table.recs
      ensures Valid() && table.recs == old(table.recs) && table.mems == old(table.mems)
      ensures (State(), o) == Conclude(kn, old(State()), slot, call)
    {
      hide H.ProcessTable.Valid;
      var result := kn.result(k);
      if Spins(call, result) {
        slice := slice.(spin := slice.spin + 1);
      }
      if kn.blocked(k, slot) {
        table.SetPending(slot, Blocked(call, result));
        return Unwound;
      }
      ledgers := Handed(State(), slot, result).ledgers;
      if call.nr == NR_THREAD_YIELD {
        table.SetPending(slot, Resumed(call, result));
        return Unwound;
      }
      return Answered(result);
    }

    // ------------------------------------------------------------------ dispatch

    /** `run`: rewind the process into its call, or start its entry, and follow it to its end. */
    method RunProcess(slot: Slot) returns (e: Ending)
      requires Valid() && slot in table.view && slice.used <= slice.limit
      modifies this, table, table.recs, table.mems
      ensures Valid() && fresh(table.recs - old(table.recs)) && fresh(table.mems - old(table.mems))
      ensures (State(), e) == Run(kn, old(State()), slot)
    {
      hide Drive, H.ProcessTable.Valid;
      var st := table.Look(slot);
      var t: Turn;
      if st.pending.Free? {
        t := Begin(slot, st);
      } else {
        t := Issues(st.pending.call, st.memory);
      }
      assert Run(kn, old(State()), slot) == Drive(kn, State(), slot, t);
      e := Follow(slot, t);
    }

    /** The entry, as far as its first call of the gate. */
    method Begin(slot: Slot, st: Proc) returns (t: Turn)
      requires Valid() && slot in table.view && st == table.view[slot]
      modifies this
      ensures Valid() && (State(), t) == Starts(kn, old(State()), slot)
    {
      hide H.ProcessTable.Valid;
      var ran := st.module_.start(st.entry, st.memory, st.args, kn.view(k));
      lives := lives[slot := Life(st.module_, st.entry, st.args, st.memory, kn.view(k), [], [])];
      ledgers := ledgers[slot := BLANK.(pulls := ran.pulls)];
      k := kn.pulled(k, slot, ran.pulls);
      t := ran.turn;
    }

    /** On from a call that was answered, as far as the next. */
    method Continue(slot: Slot, v: int) returns (t: Turn)
      requires Valid() && slot in table.view
      modifies this
      ensures Valid() && (State(), t) == Resumes(kn, old(State()), slot, v)
    {
      hide H.ProcessTable.Valid;
      var st := table.Look(slot);
      var ran := st.module_.resume(st.memory, v, kn.view(k));
      ghost var after := Received(State(), slot, v, kn.view(k), ran.pulls);
      lives, ledgers := after.lives, after.ledgers;
      k := kn.pulled(k, slot, ran.pulls);
      t := ran.turn;
    }

    /** The guest's turns, one import call after another. */
    method Follow(slot: Slot, first: Turn) returns (e: Ending)
      requires Valid() && slot in table.view && slice.used <= slice.limit
      modifies this, table, table.recs, table.mems
      ensures Valid() && fresh(table.recs - old(table.recs)) && fresh(table.mems - old(table.mems))
      ensures (State(), e) == Drive(kn, old(State()), slot, first)
    {
      hide Drive, Gate, Resumes, H.ProcessTable.Valid;
      ghost var s := State();
      var t := first;
      while t.Issues?
        invariant Valid() && slot in table.view && slice.used <= slice.limit
        invariant fresh(table.recs - old(table.recs)) && fresh(table.mems - old(table.mems))
        invariant Drive(kn, State(), slot, t) == Drive(kn, s, slot, first)
        decreases slice.limit - slice.used, Replays(table.view[slot].pending)
      {
        Slices.DriveStep(kn, State(), slot, t);
        var o, next := Issue(slot, t);
        match o
        case Threw => return OutOfBudget;
        case Unwound => return Suspended;
        case Answered(v) => t := next;
      }
      e := Stop(slot, t);
    }

    /** One import call, and the guest's next turn if it is answered. */
    method Issue(slot: Slot, t: Turn) returns (o: Outcome, next: Turn)
      requires Valid() && slot in table.view && t.Issues?
      modifies this, table, table.recs, table.mems
      ensures Valid() && fresh(table.recs - old(table.recs)) && fresh(table.mems - old(table.mems))
      ensures var (s1, o1) := Gate(kn, WithMemory(old(State()), slot, t.memory), slot, t.call);
              && o == o1 && slot in s1.procs
              && (if o.Answered? then (State(), next) == Resumes(kn, s1, slot, o.value) else State() == s1)
    {
      hide Gate, H.ProcessTable.Valid;
      table.SetMemory(slot, t.memory);
      assert State() == WithMemory(old(State()), slot, t.memory);
      o := Syscall(slot, t.call);
      next := t;
      if o.Answered? {
        next := Continue(slot, o.value);
      }
    }

    /** A turn that ends without a call: off the end of the entry, or a trap. */
    method Stop(slot: Slot, t: Turn) returns (e: Ending)
      requires Valid() && slot in table.view && slice.used <= slice.limit && !t.Issues?
      modifies this, table, table.recs, table.mems
      ensures Valid() && table.recs == old(table.recs) && table.mems == old(table.mems)
      ensures (State(), e) == Drive(kn, old(State()), slot, t)
    {
      hide Gate, H.ProcessTable.Valid;
      table.SetMemory(slot, t.memory);
      var st := table.Look(slot);
      var tail := st.tail;
      if t.Finishes? {
        table.SetExited(slot);
        retired := retired + 1;
        k := kn.retire(k, slot);
        return Ended;
      }
      if tail != [] && tail[|tail| - 1] == NR_EXIT {
        table.SetExited(slot);
        retired := retired + 1;
        return Exited;
      }
      return Faulted;
    }

    /** Asks the kernel what to run: a known slot, or a reason to hand control back. */
    method Pick(steps: nat) returns (slot: Slot, why: Option<Reason>)
      requires Valid() && slice.used <= slice.limit
      modifies this
      ensures Valid() && slice == old(slice)
      ensures why.Some? ==> Loop(kn, old(State()), steps) == (State(), why.value)
      ensures why.None? ==> steps > 0 && slot in table.view
      ensures why.None? ==>
        var (s, v) := Engine.Dispatch(kn, State(), slot);
        Loop(kn, old(State()), steps) == if v.Some? then (s, v.value) else Loop(kn, s, steps - 1)
    {
      hide Engine.Dispatch, H.ProcessTable.Valid;
      var (k', chosen) := kn.step(k);
      k := k';
      slot := chosen;
      if slot == -1 {
        return slot, Some(Quiescent);
      }
      if steps == 0 {
        return slot, Some(Steps);
      }
      var known := table.Has(slot);
      return slot, if known then None else Some(UnknownSlot);
    }

    /** `pump`: dispatch what the kernel picks until there is a reason to hand control back. */
    method Pump(maxSyscalls: nat, maxSteps: nat) returns (why: Reason)
      requires Valid()
      modifies this, table, table.recs, table.mems
      ensures Valid() && fresh(table.recs - old(table.recs)) && fresh(table.mems - old(table.mems))
      ensures (State(), why) == Engine.Pump(kn, old(State()), maxSyscalls, maxSteps)
    {
      hide Engine.Dispatch, Loop, H.ProcessTable.Valid;
      ghost var s := State();
      slice := Slice(0, 0, maxSyscalls);
      var steps := 0;
      while true
        invariant Valid() && fresh(table.recs - old(table.recs)) && fresh(table.mems - old(table.mems))
        invariant steps <= maxSteps && slice.used <= slice.limit
        invariant Loop(kn, State(), maxSteps - steps) == Engine.Pump(kn, s, maxSyscalls, maxSteps)
        decreases maxSteps - steps
      {
        var slot, stop := Pick(maxSteps - steps);
        if stop.Some? {
          return stop.value;
        }
        steps := steps + 1;
        var verdict := Dispatch(slot);
        if verdict.Some? {
          return verdict.value;
        }
      }
    }

    /** Runs one process and decides whether to go on: a process that exited by trapping skips the
        slice checks. */
    method Dispatch(slot: Slot) returns (v: Option<Reason>)
      requires Valid() && slot in table.view && slice.used <= slice.limit
      modifies this, table, table.recs, table.mems
      ensures Valid() && fresh(table.recs - old(table.recs)) && fresh(table.mems - old(table.mems))
      ensures (State(), v) == Engine.Dispatch(kn, old(State()), slot)
    {
      hide Run, H.ProcessTable.Valid;
      var before := slice;
      var e := RunProcess(slot);
      if e.OutOfBudget? {
        return Some(Budget);
      }
      if e.Faulted? {
        return Some(Trapped);
      }
      if e.Exited? {
        return None;
      }
      if slice.used > before.used && slice.spin - before.spin == slice.used - before.used && kn.quiet(k) {
        return Some(SliceSpent);
      }
      if slice.used >= slice.limit {
        return Some(SliceSpent);
      }
      return None;
    }
  }

  lemma SlotsApart(specs: seq<(Slot, Module, string)>, i: nat)
    requires NoDup(Slots(specs)) && i < |specs|
    ensures forall j :: i < j < |specs| ==> specs[j].0 != specs[i].0
  {
    assert forall j :: 0 <= j < |specs| ==> Slots(specs)[j] == specs[j].0;
  }

  /** The three ways a fork ends; an invalid one changes nothing. */
  lemma Refused<K>(s: Sys<K>, parent: Slot, child: Slot, room: bool)
    ensures var (procs, order, code) := ForkTable(s.procs, s.order, parent, child, room);
            code in {0, EINVAL, ENOMEM} && (code == EINVAL ==> procs == s.procs && order == s.order)
  {
  }
}
