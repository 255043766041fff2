/** What slices cost: nothing but the counters. Where a slice ends does not change what a dispatch
    does, every syscall is accounted for, and a pump that can do something does it. */
module Slices {
  import opened Bytes
  import opened Engine

  /** Equal in everything but the slice counters. */
  ghost predicate Alike<K>(s: Sys<K>, r: Sys<K>) {
    s.(slice := r.slice) == r
  }

  lemma ServeAlike<K>(s: Sys<K>, r: Sys<K>, q: Request)
    requires Alike(s, r)
    ensures Alike(Serve(s, q).0, Serve(r, q).0) && Serve(s, q).1 == Serve(r, q).1
  {
    hide Clone, Without, Splice;
  }

  lemma {:induction false} SettleAlike<K(!new)>(kn: Kernel<K>, s: Sys<K>, r: Sys<K>)
    requires kn.Valid() && Alike(s, r)
    ensures Alike(Settle(kn, s), Settle(kn, r))
    decreases kn.rank(s.k)
  {
    match kn.request(s.k)
    case None =>
    case Some(q) =>
      ServeAlike(s, r, q);
      var (s1, reply) := Serve(s, q);
      ServeRunner(s, q, kn.current(s.k));
      SettleAlike(kn, s1.(k := kn.reply(s1.k, reply)), Serve(r, q).0.(k := kn.reply(s1.k, reply)));
  }

  function Room(s: Slice): (n: int) {
    s.limit - s.used
  }

  lemma ConcludeAlike<K(!new)>(kn: Kernel<K>, s: Sys<K>, r: Sys<K>, slot: Slot, call: Call)
    requires slot in s.procs && Alike(s, r)
    ensures Alike(Conclude(kn, s, slot, call).0, Conclude(kn, r, slot, call).0)
    ensures Conclude(kn, s, slot, call).1 == Conclude(kn, r, slot, call).1
  {
  }

  lemma DeliverAlike<K(!new)>(kn: Kernel<K>, s: Sys<K>, r: Sys<K>, slot: Slot, call: Call)
    requires kn.Valid() && slot in s.procs && Alike(s, r)
    ensures Alike(Deliver(kn, s, slot, call), Deliver(kn, r, slot, call))
  {
    SettleAlike(kn, Entered(kn, s, slot, call), Entered(kn, r, slot, call));
  }

  /** The gate looks at the slice only to ask whether there is room left. */
  lemma GateAlike<K(!new)>(kn: Kernel<K>, s: Sys<K>, r: Sys<K>, slot: Slot, call: Call)
    requires kn.Valid() && slot in s.procs && Alike(s, r)
    requires Room(s.slice) == Room(r.slice) || (Room(s.slice) > 0 && Room(r.slice) > 0) || s.left <= 0
          || Replays(s.procs[slot].pending) == 1
    ensures Alike(Gate(kn, s, slot, call).0, Gate(kn, r, slot, call).0)
    ensures Gate(kn, s, slot, call).1 == Gate(kn, r, slot, call).1
  {
    if s.procs[slot].pending.Free? || s.procs[slot].pending.Yielded? {
      var s1 := WithPending(s, slot, Free);
      var r1 := WithPending(r, slot, Free);
      DeliverAlike(kn, s1, r1, slot, call);
      ConcludeAlike(kn, Deliver(kn, s1, slot, call), Deliver(kn, r1, slot, call), slot, call);
    }
  }

  lemma ResumesAlike<K(!new)>(kn: Kernel<K>, s: Sys<K>, r: Sys<K>, slot: Slot, v: int)
    requires slot in s.procs && Alike(s, r)
    ensures Alike(Resumes(kn, s, slot, v).0, Resumes(kn, r, slot, v).0)
    ensures Resumes(kn, s, slot, v).1 == Resumes(kn, r, slot, v).1
  {
  }

  lemma {:induction false} DriveAlike<K(!new)>(kn: Kernel<K>, s: Sys<K>, r: Sys<K>, slot: Slot, t: Turn)
    requires kn.Valid() && slot in s.procs && Alike(s, r)
    requires 0 <= Room(s.slice) == Room(r.slice)
    ensures Alike(Drive(kn, s, slot, t).0, Drive(kn, r, slot, t).0)
    ensures Drive(kn, s, slot, t).1 == Drive(kn, r, slot, t).1
    decreases s.slice.limit - s.slice.used, Replays(s.procs[slot].pending)
  {
    if t.Issues? {
      var s0 := WithMemory(s, slot, t.memory);
      var r0 := WithMemory(r, slot, t.memory);
      GateAlike(kn, s0, r0, slot, t.call);
      var (s1, o) := Gate(kn, s0, slot, t.call);
      var (r1, _) := Gate(kn, r0, slot, t.call);
      if o.Answered? {
        ResumesAlike(kn, s1, r1, slot, o.value);
        var (s2, t2) := Resumes(kn, s1, slot, o.value);
        DriveAlike(kn, s2, Resumes(kn, r1, slot, o.value).0, slot, t2);
      }
    }
  }

  /** The same slice with `more` syscalls added to its limit. */
  function Longer<K>(s: Sys<K>, more: nat): (r: Sys<K>) {
    s.(slice := s.slice.(limit := s.slice.limit + more))
  }

  predicate WasCut<K>(s: Sys<K>, slot: Slot, e: Ending) {
    e.Suspended? && slot in s.procs && s.procs[slot].pending.Yielded?
  }

  /** The next pump: a new slice, and the process rewound into the call it was stopped at. */
  function Rejoin<K(!new)>(kn: Kernel<K>, s: Sys<K>, slot: Slot, more: nat): (r: (Sys<K>, Ending))
    requires kn.Valid() && slot in s.procs && s.procs[slot].pending.Yielded?
  {
    var p := s.procs[slot];
    Drive(kn, s.(slice := Slice(0, 0, more)), slot, Issues(p.pending.call, p.memory))
  }

  /** Opened for a first entry: the memory of turn `t`, and no suspension. */
  function Opened<K>(s: Sys<K>, slot: Slot, m: seq<byte>): (r: Sys<K>)
    requires slot in s.procs
  {
    WithPending(WithMemory(s, slot, m), slot, Free)
  }

  lemma OpenTwice<K>(s: Sys<K>, slot: Slot, m: seq<byte>)
    requires slot in s.procs
    ensures Opened(Opened(s, slot, m), slot, m) == Opened(s, slot, m)
    ensures WithMemory(Opened(s, slot, m), slot, m) == Opened(s, slot, m)
  {
  }

  lemma GateOpens<K(!new)>(kn: Kernel<K>, s: Sys<K>, r: Sys<K>, slot: Slot, call: Call)
    requires kn.Valid() && slot in s.procs && slot in r.procs
    requires Replays(s.procs[slot].pending) == 0 && Replays(r.procs[slot].pending) == 0
    requires WithPending(s, slot, Free) == WithPending(r, slot, Free)
    ensures Gate(kn, s, slot, call) == Gate(kn, r, slot, call)
  {
  }

  lemma DriveByGate<K(!new)>(kn: Kernel<K>, s: Sys<K>, r: Sys<K>, slot: Slot, t: Turn)
    requires kn.Valid() && slot in s.procs && slot in r.procs && t.Issues?
    requires s.slice.used <= s.slice.limit && r.slice.used <= r.slice.limit
    requires Gate(kn, WithMemory(s, slot, t.memory), slot, t.call) == Gate(kn, WithMemory(r, slot, t.memory), slot, t.call)
    ensures Drive(kn, s, slot, t) == Drive(kn, r, slot, t)
  {
  }

  /** A first entry and the replay of a put-off call are the same to the gate. */
  lemma ReplayIsEntry<K(!new)>(kn: Kernel<K>, s: Sys<K>, slot: Slot, t: Turn)
    requires kn.Valid() && slot in s.procs && t.Issues? && s.slice.used <= s.slice.limit
    requires Replays(s.procs[slot].pending) == 0
    ensures Drive(kn, s, slot, t) == Drive(kn, Opened(s, slot, t.memory), slot, t)
  {
    OpenTwice(s, slot, t.memory);
    GateOpens(kn, WithMemory(s, slot, t.memory), WithMemory(Opened(s, slot, t.memory), slot, t.memory), slot, t.call);
    DriveByGate(kn, s, Opened(s, slot, t.memory), slot, t);
  }

  lemma CutShape<K(!new)>(kn: Kernel<K>, s: Sys<K>, slot: Slot, t: Turn)
    requires kn.Valid() && slot in s.procs && t.Issues?
    requires s.slice.used == s.slice.limit && 0 < s.left && Replays(s.procs[slot].pending) == 0
    ensures Drive(kn, s, slot, t) == (WithPending(Opened(s, slot, t.memory), slot, Yielded(t.call)), Suspended)
  {
  }

  lemma Reopened<K>(s: Sys<K>, slot: Slot, t: Turn, x: Slice)
    requires slot in s.procs && t.Issues?
    ensures Opened(WithPending(Opened(s, slot, t.memory), slot, Yielded(t.call)).(slice := x), slot, t.memory)
         == Opened(s, slot, t.memory).(slice := x)
    ensures Opened(s.(slice := x), slot, t.memory) == Opened(s, slot, t.memory).(slice := x)
  {
  }

  /** Cut and rejoined is the same as not cut. */
  ghost predicate Composes<K(!new)>(kn: Kernel<K>, r: (Sys<K>, Ending), long: (Sys<K>, Ending), slot: Slot, more: nat)
    requires kn.Valid()
  {
    if WasCut(r.0, slot, r.1)
    then Alike(Rejoin(kn, r.0, slot, more).0, long.0) && Rejoin(kn, r.0, slot, more).1 == long.1
    else Alike(r.0, long.0) && r.1 == long.1
  }

  lemma EndsAlike<K(!new)>(kn: Kernel<K>, s: Sys<K>, slot: Slot, t: Turn, more: nat)
    requires kn.Valid() && slot in s.procs && s.slice.used <= s.slice.limit && !t.Issues?
    ensures Composes(kn, Drive(kn, s, slot, t), Drive(kn, Longer(s, more), slot, t), slot, more)
  {
  }

  /** At the cut itself: stopping before the kernel and asking again later is asking now. */
  lemma CutHere<K(!new)>(kn: Kernel<K>, s: Sys<K>, slot: Slot, t: Turn, more: nat)
    requires kn.Valid() && slot in s.procs && t.Issues?
    requires s.slice.used == s.slice.limit && 0 < s.left && Replays(s.procs[slot].pending) == 0
    ensures Composes(kn, Drive(kn, s, slot, t), Drive(kn, Longer(s, more), slot, t), slot, more)
  {
    CutShape(kn, s, slot, t);
    var r := WithPending(Opened(s, slot, t.memory), slot, Yielded(t.call));
    var x := Slice(0, 0, more);
    var y := Longer(s, more).slice;
    Reopened(s, slot, t, x);
    Reopened(s, slot, t, y);
    assert Issues(t.call, r.procs[slot].memory) == t;
    ReplayIsEntry(kn, r.(slice := x), slot, t);
    ReplayIsEntry(kn, Longer(s, more), slot, t);
    DriveAlike(kn, Opened(s, slot, t.memory).(slice := x), Opened(s, slot, t.memory).(slice := y), slot, t);
  }

  lemma DriveStep<K(!new)>(kn: Kernel<K>, s: Sys<K>, slot: Slot, t: Turn)
    requires kn.Valid() && slot in s.procs && s.slice.used <= s.slice.limit && t.Issues?
    ensures var (s1, o) := Gate(kn, WithMemory(s, slot, t.memory), slot, t.call);
            Drive(kn, s, slot, t) ==
              match o
              case Threw => (s1, OutOfBudget)
              case Unwound => (s1, Suspended)
              case Answered(v) => Drive(kn, Resumes(kn, s1, slot, v).0, slot, Resumes(kn, s1, slot, v).1)
  {
  }

  lemma ComposesAlike<K(!new)>(kn: Kernel<K>, r: (Sys<K>, Ending), l: (Sys<K>, Ending), m: (Sys<K>, Ending), slot: Slot, more: nat)
    requires kn.Valid() && Composes(kn, r, l, slot, more) && Alike(l.0, m.0) && l.1 == m.1
    ensures Composes(kn, r, m, slot, more)
  {
  }

  /** A step both runs take alike, and what follows composes. */
  lemma StepComposes<K(!new)>(kn: Kernel<K>, s: Sys<K>, slot: Slot, t: Turn, more: nat, s1: Sys<K>, l1: Sys<K>, v: int)
    requires kn.Valid() && slot in s.procs && s.slice.used <= s.slice.limit && t.Issues?
    requires Gate(kn, WithMemory(s, slot, t.memory), slot, t.call) == (s1, Answered(v))
    requires Gate(kn, WithMemory(Longer(s, more), slot, t.memory), slot, t.call) == (l1, Answered(v))
    requires Alike(s1, l1) && 0 <= Room(s1.slice) && Room(l1.slice) == Room(s1.slice) + more && slot in s1.procs
    requires var (s2, t1) := Resumes(kn, s1, slot, v);
             Composes(kn, Drive(kn, s2, slot, t1), Drive(kn, Longer(s2, more), slot, t1), slot, more)
    ensures Composes(kn, Drive(kn, s, slot, t), Drive(kn, Longer(s, more), slot, t), slot, more)
  {
    hide Drive, Gate, Resumes;
    DriveStep(kn, s, slot, t);
    DriveStep(kn, Longer(s, more), slot, t);
    var (s2, t1) := Resumes(kn, s1, slot, v);
    var (l2, _) := Resumes(kn, l1, slot, v);
    ResumesAlike(kn, s1, l1, slot, v);
    DriveAlike(kn, Longer(s2, more), l2, slot, t1);
    ComposesAlike(kn, Drive(kn, s2, slot, t1), Drive(kn, Longer(s2, more), slot, t1), Drive(kn, l2, slot, t1), slot, more);
  }

  /** A step that ends the dispatch in both runs, other than by the slice. */
  lemma StopComposes<K(!new)>(kn: Kernel<K>, s: Sys<K>, slot: Slot, t: Turn, more: nat)
    requires kn.Valid() && slot in s.procs && s.slice.used <= s.slice.limit && t.Issues?
    requires s.slice.used < s.slice.limit || s.left <= 0 || Replays(s.procs[slot].pending) == 1
    requires !Gate(kn, WithMemory(s, slot, t.memory), slot, t.call).1.Answered?
    ensures Composes(kn, Drive(kn, s, slot, t), Drive(kn, Longer(s, more), slot, t), slot, more)
  {
    GateAlike(kn, WithMemory(s, slot, t.memory), WithMemory(Longer(s, more), slot, t.memory), slot, t.call);
    DriveStep(kn, s, slot, t);
    DriveStep(kn, Longer(s, more), slot, t);
  }

  /** Where a slice ends is invisible. A dispatch that the slice cut short, rewound in a later pump
      with `more` syscalls, leaves the kernel, every memory, every record and all the books exactly
      as one dispatch with the larger limit; a dispatch that was not cut does not see the limit. */
  lemma {:induction false} CutsCompose<K(!new)>(kn: Kernel<K>, s: Sys<K>, slot: Slot, t: Turn, more: nat)
    requires kn.Valid() && slot in s.procs && s.slice.used <= s.slice.limit
    ensures Composes(kn, Drive(kn, s, slot, t), Drive(kn, Longer(s, more), slot, t), slot, more)
    decreases s.slice.limit - s.slice.used, Replays(s.procs[slot].pending)
  {
    hide Drive, Gate;
    if !t.Issues? {
      EndsAlike(kn, s, slot, t, more);
    } else if Replays(s.procs[slot].pending) == 0 && 0 < s.left && s.slice.used == s.slice.limit {
      CutHere(kn, s, slot, t, more);
    } else {
      var s0 := WithMemory(s, slot, t.memory);
      var (s1, o) := Gate(kn, s0, slot, t.call);
      if o.Answered? {
        var l0 := WithMemory(Longer(s, more), slot, t.memory);
        GateAlike(kn, s0, l0, slot, t.call);
        var (s2, t2) := Resumes(kn, s1, slot, o.value);
        CutsCompose(kn, s2, slot, t2, more);
        StepComposes(kn, s, slot, t, more, s1, Gate(kn, l0, slot, t.call).0, o.value);
      } else {
        StopComposes(kn, s, slot, t, more);
      }
    }
  }

  // ------------------------------------------------------- accounting and progress

  /** The counters of a slice, and a budget that is only ever spent on deliveries. */
  ghost predicate Counted<K>(s: Sys<K>, budget: int) {
    && s.slice.spin <= s.slice.used <= s.slice.limit
    && s.left + s.delivered == budget
    && 0 <= s.left
  }

  /** In every state of every session spin <= used <= limit, and what is left of the budget plus
      what was delivered is the budget. */
  lemma {:induction false} BudgetIsConserved<K(!new)>(kn: Kernel<K>, s: Sys<K>, moves: seq<Move<K>>, budget: int)
    requires kn.Valid() && Counted(s, budget)
    ensures Counted(Session(kn, s, moves).0, budget)
    decreases |moves|
  {
    if moves != [] {
      match moves[0]
      case Outside(k) => BudgetIsConserved(kn, s.(k := k), moves[1..], budget);
      case PumpFor(limit, steps) =>
        var (s1, why) := Pump(kn, s, limit, steps);
        assert Accounts(s.(slice := Slice(0, 0, limit)), s1);
        if GoesOn(why) {
          BudgetIsConserved(kn, s1, moves[1..], budget);
        }
    }
  }

  /** With a positive limit, a step allowed and something runnable, a pump delivers a syscall,
      retires a process, or reports a stop. */
  lemma PumpProgresses<K(!new)>(kn: Kernel<K>, s: Sys<K>, limit: nat, steps: nat)
    requires kn.Valid() && 0 < limit && 0 < steps && kn.step(s.k).1 != -1
    ensures var (r, why) := Pump(kn, s, limit, steps);
            s.delivered < r.delivered || s.retired < r.retired || !GoesOn(why)
  {
    var (k, slot) := kn.step(s.k);
    var s1 := s.(slice := Slice(0, 0, limit), k := k);
    if slot in s1.procs {
      var (s2, v) := Dispatch(kn, s1, slot);
    }
  }
}
