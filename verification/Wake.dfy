/** Events, pump and park: when the page lets the guest sleep, and what wakes it.

    The page runs the guest in turns, each a pump of the engine. Between turns it may park, until a
    key, a pointer record or a timer. Console bytes are taken by the kernel and input records by a
    driver while the engine runs. */
module Wake {
  import opened Bytes
  import opened Engine

  datatype Record = Record(page: nat, code: nat, value: int)

  /** A record in the queue; `told` when it was pushed, which raises the line, rather than only held. */
  datatype Held = Held(record: Record, told: bool)

  /** The host's queues. `consumed` and `taken` are what the guest has had so far. */
  datatype Io = Io(queue: seq<byte>, inputs: seq<Held>, announced: bool, halted: bool,
                   consumed: seq<byte>, taken: seq<Held>)
  {
    /** What the front end is told is waiting for the guest. */
    function Pending(): (n: nat) {
      if announced then |inputs| else 0
    }

    /** A record the guest was told of and has not taken. */
    predicate Waiting() {
      exists i :: 0 <= i < |inputs| && inputs[i].told
    }

    predicate Quiet() {
      |queue| == 0 && Pending() == 0
    }
  }

  const EMPTY := Io([], [], false, false, [], [])

  /** The rest of the kernel and its devices, and the queues. */
  datatype Machine<Q> = Machine(core: Q, io: Io)

  datatype Phase = Ready | Parked(timed: bool) | Stopped

  datatype World<Q> = World(sys: Sys<Machine<Q>>, phase: Phase, stopping: bool) {
    function Queues(): (io: Io) {
      sys.k.io
    }
  }

  // ------------------------------------------------------------------ what the guest asks for

  datatype Ask = Console | Input | Halt

  function Take(io: Io, a: Ask): (r: Io) {
    match a
    case Console => if io.queue == [] then io else io.(queue := io.queue[1..], consumed := io.consumed + [io.queue[0]])
    case Input =>
      if io.inputs == [] then io.(announced := false)
      else io.(inputs := io.inputs[1..], taken := io.taken + [io.inputs[0]])
    case Halt => io.(halted := true)
  }

  function TakeAll(io: Io, asks: seq<Ask>): (r: Io) {
    if asks == [] then io else Take(TakeAll(io, asks[..|asks| - 1]), asks[|asks| - 1])
  }

  /** The guest asked for things, and nothing else happened to the queues. */
  ghost predicate Reads(a: Io, b: Io) {
    exists asks :: b == TakeAll(a, asks)
  }

  /** The kernel over these queues: it and its devices only read them, and the host calls them quiet
      when both are empty as far as anyone was told. */
  ghost predicate Wired<Q(!new)>(kn: Kernel<Machine<Q>>) {
    && kn.Valid()
    && (forall k: Machine<Q> :: Reads(k.io, kn.step(k).0.io))
    && (forall k: Machine<Q>, s: Slot, c: Call :: Reads(k.io, kn.enter(k, s, c).io))
    && (forall k: Machine<Q>, r: Reply :: Reads(k.io, kn.reply(k, r).io))
    && (forall k: Machine<Q>, s: Slot :: Reads(k.io, kn.retire(k, s).io))
    && (forall k: Machine<Q>, s: Slot, ps: seq<Pull> :: Reads(k.io, kn.pulled(k, s, ps).io))
    && (forall k: Machine<Q> :: kn.quiet(k) <==> k.io.Quiet())
  }

  // ------------------------------------------------------------------ the page

  datatype Event<Q> =
    | Typed(bytes: seq<byte>)
    | Pushed(record: Record, core: Q)
    | Enqueued(record: Record)
    | Timeout
    | Stop
    | Pumped(limit: nat, steps: nat)

  function WithIo<Q>(s: Sys<Machine<Q>>, io: Io): (r: Sys<Machine<Q>>) {
    s.(k := s.k.(io := io))
  }

  function WaitForInput(io: Io, timed: bool): (p: Phase) {
    if |io.queue| > 0 then Ready else Parked(timed)
  }

  /** What the page does when a pump is back: a halt and any reason but a slice or quiescence end the
      loop, and a slice that only retried its console read parks it if the queues are quiet. */
  function AfterPump(io: Io, slice: Slice, why: Reason): (p: Phase) {
    if io.halted || !GoesOn(why) then Stopped
    else if why.Quiescent? then WaitForInput(io, false)
    else if 0 < slice.used && slice.spin == slice.used && io.Quiet() then WaitForInput(io, true)
    else Ready
  }

  function Woken(p: Phase): (q: Phase) {
    if p.Parked? then Ready else p
  }

  function Step<Q(!new)>(kn: Kernel<Machine<Q>>, w: World<Q>, e: Event<Q>): (r: World<Q>)
    requires kn.Valid()
  {
    var io := w.Queues();
    match e
    case Typed(bytes) => w.(sys := WithIo(w.sys, io.(queue := io.queue + bytes)), phase := Woken(w.phase))
    case Pushed(r, core) =>
      w.(sys := w.sys.(k := Machine(core, io.(inputs := io.inputs + [Held(r, true)], announced := true))),
         phase := Woken(w.phase))
    case Enqueued(r) => w.(sys := WithIo(w.sys, io.(inputs := io.inputs + [Held(r, false)])))
    case Timeout => if w.phase == Parked(true) then w.(phase := Ready) else w
    case Stop => w.(stopping := true)
    case Pumped(limit, steps) =>
      if !w.phase.Ready? then w
      else if w.stopping then w.(phase := Stopped)
      else
        var (sys, why) := Pump(kn, w.sys, limit, steps);
        World(sys, AfterPump(sys.k.io, sys.slice, why), false)
  }

  function Runs<Q(!new)>(kn: Kernel<Machine<Q>>, start: World<Q>, es: seq<Event<Q>>): (w: World<Q>)
    requires kn.Valid()
  {
    if es == [] then start else Step(kn, Runs(kn, start, es[..|es| - 1]), es[|es| - 1])
  }

  // ------------------------------------------------------------------ the engine only reads

  lemma {:induction false} TakeBoth(io: Io, a: seq<Ask>, b: seq<Ask>)
    ensures TakeAll(io, a + b) == TakeAll(TakeAll(io, a), b)
    decreases |b|
  {
    hide Take;
    if b == [] {
      assert a + b == a;
    } else {
      var n := |b| - 1;
      TakeBoth(io, a, b[..n]);
      assert (a + b)[..|a + b| - 1] == a + b[..n];
    }
  }

  lemma ReadsNothing(a: Io)
    ensures Reads(a, a)
  {
    assert a == TakeAll(a, []);
  }

  lemma ReadsOn(a: Io, b: Io, c: Io)
    requires Reads(a, b) && Reads(b, c)
    ensures Reads(a, c)
  {
    hide TakeAll;
    var x :| b == TakeAll(a, x);
    var y :| c == TakeAll(b, y);
    TakeBoth(a, x, y);
  }

  lemma {:induction false} SettleReads<Q(!new)>(kn: Kernel<Machine<Q>>, s: Sys<Machine<Q>>)
    requires Wired(kn)
    ensures Reads(s.k.io, Settle(kn, s).k.io)
    decreases kn.rank(s.k)
  {
    hide Reads, Serve;
    match kn.request(s.k)
    case None => ReadsNothing(s.k.io);
    case Some(q) =>
      var (s1, reply) := Serve(s, q);
      ServeRunner(s, q, kn.current(s.k));
      var s2 := s1.(k := kn.reply(s1.k, reply));
      SettleReads(kn, s2);
      ReadsOn(s.k.io, s2.k.io, Settle(kn, s2).k.io);
  }

  lemma GateReads<Q(!new)>(kn: Kernel<Machine<Q>>, s: Sys<Machine<Q>>, slot: Slot, call: Call)
    requires Wired(kn) && slot in s.procs
    ensures Reads(s.k.io, Gate(kn, s, slot, call).0.k.io)
  {
    hide Reads, Settle;
    ReadsNothing(s.k.io);
    var s1 := WithPending(s, slot, Free);
    var s2 := Entered(kn, s1, slot, call);
    SettleReads(kn, s2);
    ReadsOn(s.k.io, s2.k.io, Settle(kn, s2).k.io);
  }

  lemma ResumesReads<Q(!new)>(kn: Kernel<Machine<Q>>, s: Sys<Machine<Q>>, slot: Slot, v: int)
    requires Wired(kn) && slot in s.procs
    ensures Reads(s.k.io, Resumes(kn, s, slot, v).0.k.io)
    ensures Reads(s.k.io, Starts(kn, s, slot).0.k.io)
  {
    hide Reads;
  }

  lemma {:induction false} DriveReads<Q(!new)>(kn: Kernel<Machine<Q>>, s: Sys<Machine<Q>>, slot: Slot, t: Turn)
    requires Wired(kn) && slot in s.procs && s.slice.used <= s.slice.limit
    ensures Reads(s.k.io, Drive(kn, s, slot, t).0.k.io)
    decreases s.slice.limit - s.slice.used, Replays(s.procs[slot].pending)
  {
    hide Reads, Gate, Resumes;
    ReadsNothing(s.k.io);
    if t.Issues? {
      var s0 := WithMemory(s, slot, t.memory);
      GateReads(kn, s0, slot, t.call);
      var (s1, o) := Gate(kn, s0, slot, t.call);
      if o.Answered? {
        ResumesReads(kn, s1, slot, o.value);
        var (s2, t2) := Resumes(kn, s1, slot, o.value);
        DriveReads(kn, s2, slot, t2);
        ReadsOn(s.k.io, s1.k.io, s2.k.io);
        ReadsOn(s.k.io, s2.k.io, Drive(kn, s2, slot, t2).0.k.io);
      }
    }
  }

  lemma DispatchReads<Q(!new)>(kn: Kernel<Machine<Q>>, s: Sys<Machine<Q>>, slot: Slot)
    requires Wired(kn) && slot in s.procs && s.slice.used <= s.slice.limit
    ensures Reads(s.k.io, Dispatch(kn, s, slot).0.k.io)
  {
    hide Reads, Drive, Starts;
    var p := s.procs[slot];
    if p.pending.Free? {
      ResumesReads(kn, s, slot, 0);
      var (s1, t) := Starts(kn, s, slot);
      DriveReads(kn, s1, slot, t);
      ReadsOn(s.k.io, s1.k.io, Drive(kn, s1, slot, t).0.k.io);
    } else {
      DriveReads(kn, s, slot, Issues(p.pending.call, p.memory));
    }
  }

  /** Whatever ends it, a pump only reads the queues; and it ends a slice with syscalls left to run
      only when nothing typed and no record the host announced is waiting. */
  lemma {:induction false} LoopReads<Q(!new)>(kn: Kernel<Machine<Q>>, s: Sys<Machine<Q>>, steps: nat)
    requires Wired(kn) && s.slice.used <= s.slice.limit
    ensures var (r, why) := Loop(kn, s, steps);
            && Reads(s.k.io, r.k.io)
            && (why.SliceSpent? && r.slice.used < r.slice.limit ==> r.k.io.Quiet())
    decreases steps
  {
    hide Reads, Run;
    var (k, slot) := kn.step(s.k);
    var s1 := s.(k := k);
    if slot != -1 && steps != 0 && slot in s1.procs {
      DispatchReads(kn, s1, slot);
      var (s2, v) := Dispatch(kn, s1, slot);
      ReadsOn(s.k.io, s1.k.io, s2.k.io);
      if v.None? {
        LoopReads(kn, s2, steps - 1);
        ReadsOn(s.k.io, s2.k.io, Loop(kn, s2, steps - 1).0.k.io);
      }
    }
  }

  // ------------------------------------------------------------------ what every step keeps

  /** A record sent and not taken is announced. */
  predicate Announced(io: Io) {
    io.Waiting() ==> io.announced
  }

  /** A parked loop has no console bytes waiting, and one parked as idle no sent record either. */
  predicate ParkedIdle(io: Io, p: Phase) {
    p.Parked? ==> io.queue == [] && (p.timed ==> !io.Waiting())
  }

  predicate Awake<Q>(w: World<Q>) {
    Announced(w.Queues()) && ParkedIdle(w.Queues(), w.phase)
  }

  lemma TakeKeeps(io: Io, a: Ask)
    requires Announced(io)
    ensures Announced(Take(io, a))
  {
    var r := Take(io, a);
    if r.Waiting() {
      var i :| 0 <= i < |r.inputs| && r.inputs[i].told;
      assert io.inputs[if a.Input? then i + 1 else i].told;
    }
  }

  lemma {:induction false} TakeAllKeeps(io: Io, asks: seq<Ask>)
    requires Announced(io)
    ensures Announced(TakeAll(io, asks))
    decreases |asks|
  {
    hide Take, Announced;
    if asks != [] {
      TakeAllKeeps(io, asks[..|asks| - 1]);
      TakeKeeps(TakeAll(io, asks[..|asks| - 1]), asks[|asks| - 1]);
    }
  }

  lemma ReadsKeep(a: Io, b: Io)
    requires Reads(a, b) && Announced(a)
    ensures Announced(b)
  {
    hide TakeAll, Announced;
    var asks :| b == TakeAll(a, asks);
    TakeAllKeeps(a, asks);
  }

  lemma QuietIsIdle(io: Io)
    requires Announced(io) && io.Quiet()
    ensures io.queue == [] && !io.Waiting()
  {
  }

  lemma AfterPumpIdle(io: Io, slice: Slice, why: Reason)
    requires Announced(io)
    ensures ParkedIdle(io, AfterPump(io, slice, why))
  {
    if io.Quiet() {
      QuietIsIdle(io);
    }
  }

  lemma StepKeeps<Q(!new)>(kn: Kernel<Machine<Q>>, w: World<Q>, e: Event<Q>)
    requires Wired(kn) && Awake(w)
    ensures Awake(Step(kn, w, e))
  {
    hide Reads, Loop, AfterPump;
    match e
    case Typed(_) =>
    case Pushed(_, _) =>
    case Enqueued(r) =>
      var io := Step(kn, w, e).Queues();
      if io.Waiting() {
        var i :| 0 <= i < |io.inputs| && io.inputs[i].told;
        assert w.Queues().inputs[i].told;
      }
    case Timeout =>
    case Stop =>
    case Pumped(limit, steps) =>
      var s0 := w.sys.(slice := Slice(0, 0, limit));
      LoopReads(kn, s0, steps);
      var (sys, why) := Loop(kn, s0, steps);
      ReadsKeep(s0.k.io, sys.k.io);
      AfterPumpIdle(sys.k.io, sys.slice, why);
  }

  /** For every kernel, every set of guests and every interleaving of events and turns: a parked loop
      has an empty console queue, a record sent and not taken is announced, and the idle park never
      happens with one waiting. */
  lemma {:induction false} NoLostWakeUp<Q(!new)>(kn: Kernel<Machine<Q>>, start: World<Q>, es: seq<Event<Q>>)
    requires Wired(kn) && Awake(start)
    ensures Awake(Runs(kn, start, es))
    decreases |es|
  {
    hide Awake, Step;
    if es != [] {
      NoLostWakeUp(kn, start, es[..|es| - 1]);
      StepKeeps(kn, Runs(kn, start, es[..|es| - 1]), es[|es| - 1]);
    }
  }

  /** The slice the pump cuts short is cut with nothing waiting that the guest was told of. */
  lemma CutIsIdle<Q(!new)>(kn: Kernel<Machine<Q>>, w: World<Q>, limit: nat, steps: nat)
    requires Wired(kn) && Awake(w)
    ensures var (r, why) := Pump(kn, w.sys, limit, steps);
            why.SliceSpent? && r.slice.used < limit ==> r.k.io.queue == [] && !r.k.io.Waiting()
  {
    hide Reads, Loop;
    var s0 := w.sys.(slice := Slice(0, 0, limit));
    LoopReads(kn, s0, steps);
    var (r, why) := Loop(kn, s0, steps);
    ReadsKeep(s0.k.io, r.k.io);
    if r.k.io.Quiet() {
      QuietIsIdle(r.k.io);
    }
  }

  /** A turn parks over a waiting record exactly when nothing was runnable at its end, the console
      queue was empty and the guest had not halted. */
  lemma ParksOverRecordExactly<Q(!new)>(kn: Kernel<Machine<Q>>, w: World<Q>, limit: nat, steps: nat)
    requires Wired(kn) && Awake(w) && w.phase.Ready? && !w.stopping
    ensures var (r, why) := Pump(kn, w.sys, limit, steps);
            var t := Step(kn, w, Pumped(limit, steps));
            t.phase.Parked? && t.Queues().Waiting()
            <==> why.Quiescent? && !r.k.io.halted && r.k.io.queue == [] && r.k.io.Waiting()
  {
    hide Reads, Loop;
    var s0 := w.sys.(slice := Slice(0, 0, limit));
    LoopReads(kn, s0, steps);
    var (r, why) := Loop(kn, s0, steps);
    ReadsKeep(s0.k.io, r.k.io);
    if r.k.io.Quiet() {
      QuietIsIdle(r.k.io);
    }
  }

  /** And it can happen, on any kernel that has nothing to run and takes nothing while it says so: that
      park looks at the console only, and has no timer. */
  lemma QuiescentParkHolds<Q(!new)>(kn: Kernel<Machine<Q>>, w: World<Q>, r: Record, core: Q, limit: nat, steps: nat)
    requires Wired(kn) && w.phase.Ready? && !w.stopping && w.Queues().queue == [] && !w.Queues().halted
    requires var k := Step(kn, w, Pushed(r, core)).sys.k; kn.step(k) == (k, -1)
    ensures var t := Step(kn, Step(kn, w, Pushed(r, core)), Pumped(limit, steps));
            t.phase == Parked(false) && t.Queues().Waiting() && Step(kn, t, Timeout) == t
  {
    var u := Step(kn, w, Pushed(r, core));
    var n := |w.Queues().inputs|;
    assert u.Queues().inputs[n].told;
    assert Pump(kn, u.sys, limit, steps) == (u.sys.(slice := Slice(0, 0, limit)), Quiescent);
  }

  /** A kernel with nothing to run. */
  const IDLE: Kernel<Machine<Slot>> :=
    Kernel((k: Machine<Slot>) => (k, -1), (k: Machine<Slot>, s: Slot, c: Call) => k.(core := s),
           (k: Machine<Slot>) => k.core, (k: Machine<Slot>) => None, (k: Machine<Slot>, r: Reply) => k,
           (k: Machine<Slot>) => 0, (k: Machine<Slot>, s: Slot) => false, (k: Machine<Slot>, s: Slot) => 0,
           (k: Machine<Slot>, s: Slot) => k, (k: Machine<Slot>) => [], (k: Machine<Slot>, s: Slot, ps: seq<Pull>) => k,
           (k: Machine<Slot>) => k.io.Quiet(), (k: Machine<Slot>) => 0)

  lemma IdleIsWired()
    ensures Wired(IDLE)
  {
    hide Reads;
    forall io: Io ensures Reads(io, io) {
      ReadsNothing(io);
    }
  }

  /** From a page just brought up: one record sent, one turn, and the page sleeps over it. */
  lemma SleepsOverRecord(r: Record)
    ensures var boot := World(Boot(Machine(0, EMPTY), [], 0), Ready, false);
            var w := Runs(IDLE, boot, [Pushed(r, 0), Pumped(1, 1)]);
            w.phase == Parked(false) && w.Queues().Waiting() && w.Queues().Pending() == 1
  {
    IdleIsWired();
    var boot := World(Boot(Machine(0, EMPTY), [], 0), Ready, false);
    var es: seq<Event<Slot>> := [Pushed(r, 0), Pumped(1, 1)];
    var one := es[..1];
    assert one == [Pushed(r, 0)] && one[..0] == [];
    assert Runs(IDLE, boot, one[..0]) == boot;
    assert Runs(IDLE, boot, one) == Step(IDLE, boot, Pushed(r, 0));
    assert Runs(IDLE, boot, es) == Step(IDLE, Runs(IDLE, boot, one), Pumped(1, 1));
    QuiescentParkHolds(IDLE, boot, r, 0, 1, 1);
  }

  // ------------------------------------------------------------------ nothing lost, nothing twice

  function AllTyped<Q>(es: seq<Event<Q>>): (b: seq<byte>) {
    if es == [] then []
    else AllTyped(es[..|es| - 1]) + match es[|es| - 1] case Typed(bytes) => bytes case _ => []
  }

  function AllRecords<Q>(es: seq<Event<Q>>): (r: seq<Held>) {
    if es == [] then []
    else
      AllRecords(es[..|es| - 1]) +
      match es[|es| - 1] case Pushed(r, _) => [Held(r, true)] case Enqueued(r) => [Held(r, false)] case _ => []
  }

  /** The bytes and the records that passed through the queues. */
  function ByteFlow(io: Io): (b: seq<byte>) {
    io.consumed + io.queue
  }

  function RecordFlow(io: Io): (r: seq<Held>) {
    io.taken + io.inputs
  }

  lemma TakeConserves(io: Io, a: Ask)
    ensures ByteFlow(Take(io, a)) == ByteFlow(io) && RecordFlow(Take(io, a)) == RecordFlow(io)
  {
    match a
    case Console =>
      if io.queue != [] {
        assert io.queue == [io.queue[0]] + io.queue[1..];
      }
    case Input =>
      if io.inputs != [] {
        assert io.inputs == [io.inputs[0]] + io.inputs[1..];
      }
    case Halt =>
  }

  lemma {:induction false} TakeAllConserves(io: Io, asks: seq<Ask>)
    ensures ByteFlow(TakeAll(io, asks)) == ByteFlow(io) && RecordFlow(TakeAll(io, asks)) == RecordFlow(io)
    decreases |asks|
  {
    hide Take, ByteFlow, RecordFlow;
    if asks != [] {
      TakeAllConserves(io, asks[..|asks| - 1]);
      TakeConserves(TakeAll(io, asks[..|asks| - 1]), asks[|asks| - 1]);
    }
  }

  lemma PumpConserves<Q(!new)>(kn: Kernel<Machine<Q>>, s: Sys<Machine<Q>>, limit: nat, steps: nat)
    requires Wired(kn)
    ensures var r := Pump(kn, s, limit, steps).0;
            ByteFlow(r.k.io) == ByteFlow(s.k.io) && RecordFlow(r.k.io) == RecordFlow(s.k.io)
  {
    hide Loop, TakeAll;
    var s0 := s.(slice := Slice(0, 0, limit));
    LoopReads(kn, s0, steps);
    var asks :| Loop(kn, s0, steps).0.k.io == TakeAll(s0.k.io, asks);
    TakeAllConserves(s0.k.io, asks);
  }

  /** Over every run, what the guest has had and what still waits is what there was at the start,
      everything typed and every record sent, in order. */
  lemma {:induction false} InputConserved<Q(!new)>(kn: Kernel<Machine<Q>>, start: World<Q>, es: seq<Event<Q>>)
    requires Wired(kn)
    ensures var io := Runs(kn, start, es).Queues();
            && ByteFlow(io) == ByteFlow(start.Queues()) + AllTyped(es)
            && RecordFlow(io) == RecordFlow(start.Queues()) + AllRecords(es)
    decreases |es|
  {
    hide Step, ByteFlow, RecordFlow;
    if es != [] {
      var before := es[..|es| - 1];
      InputConserved(kn, start, before);
      var w := Runs(kn, start, before);
      StepConserves(kn, w, es[|es| - 1]);
    }
  }

  lemma StepConserves<Q(!new)>(kn: Kernel<Machine<Q>>, w: World<Q>, e: Event<Q>)
    requires Wired(kn)
    ensures var io := Step(kn, w, e).Queues();
            && ByteFlow(io) == ByteFlow(w.Queues()) + (match e case Typed(bytes) => bytes case _ => [])
            && RecordFlow(io) == RecordFlow(w.Queues())
                 + match e case Pushed(r, _) => [Held(r, true)] case Enqueued(r) => [Held(r, false)] case _ => []
  {
    hide Pump;
    if e.Pumped? {
      PumpConserves(kn, w.sys, e.limit, e.steps);
    }
  }
}
