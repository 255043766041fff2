/**
 The wasm host engine: the syscall gate, the dispatch loop, fork, exec and the copy seam.

 Everything outside the gate is a parameter. A guest is a module whose behaviour between two calls
 of the gate is a function of its memory, of the value the last call returned and of what the host's
 other imports answer it meanwhile, which is what Asyncify provides whether or not the guest was
 unwound in between. The kernel, its queues and the devices are one abstract machine that may ask the
 host for copies, forks and execs while it handles a syscall, and that a guest's pulls change.
 */
module Engine {
  import opened Bytes

  const NR_EXIT := 0
  const NR_READ := 2
  const NR_THREAD_YIELD := 59
  const EAGAIN := -11
  const EFAULT := -14
  const EINVAL := -22
  const ENOEXEC := -8
  const ENOMEM := -12
  const PROGRAM_ENTRY := "minix_program_main"

  type Slot = int

  datatype Call = Call(nr: int, a0: int, rest: seq<int>)

  /** What a guest does when it is given the processor: reach an import call, or stop. */
  datatype Turn =
    | Issues(call: Call, memory: seq<byte>)
    | Finishes(memory: seq<byte>)
    | Traps(memory: seq<byte>)

  /** What the host's own imports, those beside the gate, would answer: the input records, the block
      device, the frames waiting, as numbers. */
  type View = seq<int>

  /** A call of such an import. */
  datatype Pull = Pull(name: string, args: seq<int>)

  /** One run of a guest between two calls of the gate: where it got, and what it pulled on the way. */
  datatype Ran = Ran(turn: Turn, pulls: seq<Pull>)

  datatype Module = Module(
    initial: seq<byte>,
    start: (string, seq<byte>, seq<int>, View) -> Ran,
    resume: (seq<byte>, int, View) -> Ran)
  {
    /** A wasm memory can grow and never shrinks. */
    ghost predicate Valid() {
      && (forall e: string, m: seq<byte>, a: seq<int>, w: View :: |m| <= |start(e, m, a, w).turn.memory|)
      && (forall m: seq<byte>, v: int, w: View :: |m| <= |resume(m, v, w).turn.memory|)
    }
  }

  /** Why a record is not running: `null`, or the three kinds of suspension. */
  datatype Pending =
    | Free
    | Yielded(call: Call)
    | Resumed(call: Call, value: int)
    | Blocked(call: Call, value: int)

  datatype Proc = Proc(
    module_: Module,
    entry: string,
    args: seq<int>,
    memory: seq<byte>,
    pending: Pending,
    exited: bool,
    tail: seq<int>,
    syscalls: nat)

  // ------------------------------------------------------------------ the kernel

  datatype Request =
    | CopyIn(dst: Slot, dstAddr: int, data: seq<byte>)
    | CopyOut(src: Slot, srcAddr: int, bytes: int)
    | CopyAcross(from: Slot, fromAddr: int, to: Slot, toAddr: int, count: int)
    | Fork(parent: Slot, child: Slot, room: bool)
    | Exec(slot: Slot, image: Slot, target: Option<Module>, argv: seq<int>, loaded: seq<byte>, fate: Fate)

  /** How instantiating a module ends: well, failing before anything of the record was replaced, or
      failing with these parts replaced, which nothing puts back. */
  datatype Fate = Loads | NoMemory | Torn(module_: Module, entry: string, args: seq<int>, memory: seq<byte>)

  datatype Reply = Reply(code: int, data: seq<byte>)

  datatype Kernel<!K(!new)> = Kernel(
    step: K -> (K, Slot),
    enter: (K, Slot, Call) -> K,
    current: K -> Slot,
    request: K -> Option<Request>,
    reply: (K, Reply) -> K,
    result: K -> int,
    blocked: (K, Slot) -> bool,
    retval: (K, Slot) -> int,
    retire: (K, Slot) -> K,
    view: K -> View,
    pulled: (K, Slot, seq<Pull>) -> K,
    quiet: K -> bool,
    rank: K -> nat)
  {
    /** Every syscall makes finitely many host requests, in one slot's name. */
    ghost predicate Valid() {
      && (forall k: K, s: Slot, c: Call :: current(enter(k, s, c)) == s)
      && (forall k: K, r: Reply :: request(k).Some? ==>
            rank(reply(k, r)) < rank(k) && current(reply(k, r)) == current(k))
      && (forall k: K :: request(k).Some? ==> Proper(request(k).value, current(k)))
    }
  }

  /** The kernel forks and replaces only other processes than the one whose call it is handling, a
      loaded image is at least as long as the module's own, and no exec is torn. */
  ghost predicate Proper(r: Request, running: Slot) {
    match r
    case Fork(parent, child, _) => parent != running && child != running
    case Exec(slot, _, target, _, loaded, fate) =>
      slot != running && !fate.Torn? && (target.Some? ==> target.value.Valid() && |target.value.initial| <= |loaded|)
    case _ => true
  }

  // -------------------------------------------------------------- the two records

  /** A store the kernel made into a guest's memory through the copy seam. */
  datatype Store = Store(at: nat, data: seq<byte>)

  function Apply(m: seq<byte>, ws: seq<Store>): (r: seq<byte>)
    ensures |r| == |m|
  {
    if ws == [] then m
    else
      var prev := Apply(m, ws[..|ws| - 1]);
      var w := ws[|ws| - 1];
      if w.at + |w.data| <= |m| then Splice(prev, w.at, w.data) else prev
  }

  /** What one call brought back: the kernel's stores, the value returned, and what the host's other
      imports answered until the next. */
  datatype Answer = Answer(stores: seq<Store>, value: int, view: View)

  /** The guest's side: how an image was started and what each call answered it so far. */
  datatype Life = Life(
    module_: Module,
    entry: string,
    args: seq<int>,
    born: seq<byte>,
    view: View,
    answers: seq<Answer>,
    stores: seq<Store>)

  /** The host's side: the calls delivered in a slot's name, the values handed out for them, and the
      pulls made in its name. */
  datatype Ledger = Ledger(calls: seq<Call>, values: seq<int>, pulls: seq<Pull>)

  const BLANK := Ledger([], [], [])

  function Earlier(l: Life): (r: Life)
    requires l.answers != []
  {
    l.(answers := l.answers[..|l.answers| - 1])
  }

  /** The last run of an uninterrupted execution given these answers: the guest is started once and
      every call is answered once. No slice, suspension or replay appears here. */
  function RanOf(l: Life): (r: Ran)
    decreases |l.answers|
  {
    if l.answers == [] then l.module_.start(l.entry, l.born, l.args, l.view)
    else
      var a := l.answers[|l.answers| - 1];
      l.module_.resume(Apply(RanOf(Earlier(l)).turn.memory, a.stores), a.value, a.view)
  }

  /** Where it stands. */
  function TurnOf(l: Life): (t: Turn) {
    RanOf(l).turn
  }

  /** What it has pulled. */
  function Pulls(l: Life): (ps: seq<Pull>)
    decreases |l.answers|
  {
    (if l.answers == [] then [] else Pulls(Earlier(l))) + RanOf(l).pulls
  }

  /** The calls that uninterrupted execution has had answered, in program order. */
  function Calls(l: Life): (cs: seq<Call>)
    decreases |l.answers|
  {
    if l.answers == [] then []
    else
      var t := TurnOf(Earlier(l));
      if t.Issues? then Calls(Earlier(l)) + [t.call] else Calls(Earlier(l))
  }

  function Values(l: Life): (vs: seq<int>) {
    seq(|l.answers|, i requires 0 <= i < |l.answers| => l.answers[i].value)
  }

  /** Every answer but the last step was asked for. */
  predicate Genuine(l: Life)
    decreases |l.answers|
  {
    l.answers == [] || (Genuine(Earlier(l)) && TurnOf(Earlier(l)).Issues?)
  }

  // ----------------------------------------------------------------------- state

  datatype Slice = Slice(used: nat, spin: nat, limit: nat)

  datatype Sys<K> = Sys(
    k: K,
    procs: map<Slot, Proc>,
    order: seq<Slot>,
    lives: map<Slot, Life>,
    ledgers: map<Slot, Ledger>,
    slice: Slice,
    left: int,
    delivered: nat,
    retired: nat)

  /** What a suspension owes the kernel's side of the books. */
  function Owed(p: Pending): (cs: seq<Call>) {
    if p.Resumed? || p.Blocked? then [p.call] else []
  }

  function Held(p: Pending): (vs: seq<int>) {
    if p.Resumed? then [p.value] else []
  }

  /** The kernel's books and the guest's agree up to what the suspension accounts for, and a
      suspended guest is exactly where the uninterrupted execution is. */
  ghost predicate Faithful(p: Proc, pend: Pending, l: Life, g: Ledger) {
    && l.module_ == p.module_ && l.entry == p.entry && l.args == p.args
    && Genuine(l)
    && g.calls == Calls(l) + Owed(pend)
    && g.values == Values(l) + Held(pend)
    && g.pulls == Pulls(l)
    && (!pend.Free? ==>
          TurnOf(l).Issues? && TurnOf(l).call == pend.call && p.memory == Apply(TurnOf(l).memory, l.stores))
  }

  function LifeOf<K>(s: Sys<K>, slot: Slot): (l: Option<Life>) {
    if slot in s.lives then Some(s.lives[slot]) else None
  }

  function LedgerOf<K>(s: Sys<K>, slot: Slot): (g: Ledger) {
    if slot in s.ledgers then s.ledgers[slot] else BLANK
  }

  /** One record and its books. A record that is at rest, not suspended and not exited has not
      started: no process is started a second time behind its back. */
  ghost predicate RecordOk(p: Proc, pend: Pending, life: Option<Life>, g: Ledger, resting: bool) {
    && p.module_.Valid()
    && |p.module_.initial| <= |p.memory|
    && (life.Some? ==> Faithful(p, pend, life.value, g))
    && (!pend.Free? ==> life.Some?)
    && (resting && pend.Free? && !p.exited ==> life.None?)
  }

  ghost predicate SlotOk<K>(s: Sys<K>, slot: Slot, pend: Pending, resting: bool)
    requires slot in s.procs
  {
    RecordOk(s.procs[slot], pend, LifeOf(s, slot), LedgerOf(s, slot), resting)
  }

  /** `procs` and `bySlot` name the same records, each once. */
  ghost predicate TableOk<K>(s: Sys<K>) {
    && NoDup(s.order)
    && (forall slot :: slot in s.order <==> slot in s.procs)
    && s.lives.Keys <= s.procs.Keys
  }

  /** What holds at rest (`hot` none) and while `hot` is running with `pend` as its effective state. */
  ghost predicate Inv<K>(s: Sys<K>, hot: Option<Slot>, pend: Pending) {
    && TableOk(s)
    && forall slot :: slot in s.procs ==>
         SlotOk(s, slot, if hot == Some(slot) then pend else s.procs[slot].pending, hot != Some(slot))
  }

  // -------------------------------------------------- copies, fork and exec

  predicate InRange(m: seq<byte>, at: int, n: int) {
    0 <= at && 0 <= n && at + n <= |m|
  }

  /** The kernel's bytes land in a process's memory. */
  function Poke<K>(s: Sys<K>, slot: Slot, at: nat, data: seq<byte>): (r: Sys<K>)
    requires slot in s.procs && at + |data| <= |s.procs[slot].memory|
  {
    var p := s.procs[slot];
    var lives := if slot in s.lives
                 then s.lives[slot := s.lives[slot].(stores := s.lives[slot].stores + [Store(at, data)])]
                 else s.lives;
    s.(procs := s.procs[slot := p.(memory := Splice(p.memory, at, data))], lives := lives)
  }

  /** The record a fork gives the child: a fresh instance grown to the parent's size and
      overwritten with the parent's bytes, and the parent's suspension. */
  function CloneMemory(parent: Proc): (m: seq<byte>)
    ensures |m| >= |parent.memory| && m[..|parent.memory|] == parent.memory
  {
    var own := parent.module_.initial;
    var grown := if |own| < |parent.memory| then own + Zeros(|parent.memory| - |own|) else own;
    Splice(grown, 0, parent.memory)
  }

  function Clone(parent: Proc): (child: Proc) {
    Proc(parent.module_, parent.entry, parent.args, CloneMemory(parent), parent.pending, false, parent.tail, parent.syscalls)
  }

  /** `hostForkProcess` on the two tables: an unknown parent or a live child slot is refused, and
      a slot whose process has exited is reused. Its record is dropped before the clone is made, so a
      clone that finds no memory leaves the slot without one. */
  function ForkTable(procs: map<Slot, Proc>, order: seq<Slot>, parent: Slot, child: Slot, room: bool)
    : (r: (map<Slot, Proc>, seq<Slot>, int))
  {
    if parent !in procs then (procs, order, EINVAL)
    else if child in procs && !procs[child].exited then (procs, order, EINVAL)
    else if !room then (procs - {child}, Without(order, child), ENOMEM)
    else (procs[child := Clone(procs[parent])], Without(order, child) + [child], 0)
  }

  function ServeFork<K>(s: Sys<K>, parent: Slot, child: Slot, room: bool): (r: (Sys<K>, int)) {
    var (procs, order, code) := ForkTable(s.procs, s.order, parent, child, room);
    if code == EINVAL then (s, code)
    else if code == ENOMEM then
      (s.(procs := procs, order := order, lives := s.lives - {child}, ledgers := s.ledgers - {child}), code)
    else
      var inherits := !s.procs[parent].pending.Free? && parent in s.lives;
      (s.(procs := procs, order := order,
          lives := if inherits then s.lives[child := s.lives[parent]] else s.lives - {child},
          ledgers := if inherits && parent in s.ledgers then s.ledgers[child := s.ledgers[parent]] else s.ledgers - {child}),
       0)
  }

  /** `hostExecModule` on the table: the same record runs another module, with nothing pending. */
  function ExecTable(procs: map<Slot, Proc>, r: Request): (q: (map<Slot, Proc>, int))
    requires r.Exec?
  {
    if 0 <= r.image && r.image !in procs then (procs, EINVAL)
    else if r.slot !in procs then (procs, EINVAL)
    else if r.target.None? then (procs, ENOEXEC)
    else if r.fate.NoMemory? then (procs, ENOMEM)
    else if r.fate.Torn? then
      (procs[r.slot := procs[r.slot].(module_ := r.fate.module_, entry := r.fate.entry, args := r.fate.args,
                                      memory := r.fate.memory)], ENOMEM)
    else
      (procs[r.slot := procs[r.slot].(module_ := r.target.value, entry := PROGRAM_ENTRY, args := r.argv,
                                      memory := r.loaded, pending := Free, exited := false)], 0)
  }

  function ServeExec<K>(s: Sys<K>, r: Request): (q: (Sys<K>, int))
    requires r.Exec?
  {
    var (procs, code) := ExecTable(s.procs, r);
    if code != 0 then (s.(procs := procs), code)
    else (s.(procs := procs, lives := s.lives - {r.slot}, ledgers := s.ledgers - {r.slot}), 0)
  }

  function Serve<K>(s: Sys<K>, r: Request): (q: (Sys<K>, Reply)) {
    match r
    case CopyIn(dst, at, data) =>
      if dst !in s.procs || !InRange(s.procs[dst].memory, at, |data|) then (s, Reply(EFAULT, []))
      else (Poke(s, dst, at, data), Reply(0, []))
    case CopyOut(src, at, n) =>
      if src !in s.procs || !InRange(s.procs[src].memory, at, n) then (s, Reply(EFAULT, []))
      else (s, Reply(0, s.procs[src].memory[at..at + n]))
    case CopyAcross(src, from, dst, at, n) =>
      if src !in s.procs || dst !in s.procs then (s, Reply(EFAULT, []))
      else if !InRange(s.procs[src].memory, from, n) || !InRange(s.procs[dst].memory, at, n) then (s, Reply(EFAULT, []))
      else (Poke(s, dst, at, s.procs[src].memory[from..from + n]), Reply(0, []))
    case Fork(parent, child, room) =>
      var (s1, code) := ServeFork(s, parent, child, room); (s1, Reply(code, []))
    case Exec(_, _, _, _, _, _) =>
      var (s1, code) := ServeExec(s, r); (s1, Reply(code, []))
  }

  /** What the kernel's requests may change about the process whose syscall it is handling. */
  ghost predicate SameRunner<K>(s: Sys<K>, r: Sys<K>, slot: Slot) {
    && s.slice == r.slice && s.left == r.left && s.delivered == r.delivered && s.retired == r.retired
    && (slot in s.procs ==>
          slot in r.procs && r.procs[slot] == s.procs[slot].(memory := r.procs[slot].memory))
  }

  lemma ServeRunner<K>(s: Sys<K>, r: Request, running: Slot)
    requires Proper(r, running)
    ensures SameRunner(s, Serve(s, r).0, running) && Serve(s, r).0.k == s.k
  {
  }

  /** Syscalls are neither lost nor invented between two states of one slice. */
  ghost predicate Accounts<K>(s: Sys<K>, r: Sys<K>) {
    && r.slice.limit == s.slice.limit
    && s.slice.used <= r.slice.used
    && (s.slice.used <= s.slice.limit ==> r.slice.used <= r.slice.limit)
    && 0 <= r.slice.spin - s.slice.spin <= r.slice.used - s.slice.used == r.delivered - s.delivered
    && r.left + r.delivered == s.left + s.delivered
    && (0 <= s.left ==> 0 <= r.left)
    && s.retired <= r.retired
  }

  /** Serve the kernel's requests until it has none. */
  function Settle<K(!new)>(kn: Kernel<K>, s: Sys<K>): (r: Sys<K>)
    requires kn.Valid()
    ensures SameRunner(s, r, kn.current(s.k))
    decreases kn.rank(s.k)
  {
    match kn.request(s.k)
    case None => s
    case Some(q) =>
      var (s1, reply) := Serve(s, q);
      ServeRunner(s, q, kn.current(s.k));
      Settle(kn, s1.(k := kn.reply(s1.k, reply)))
  }

  // ------------------------------------------------------------------- the gate

  datatype Outcome = Answered(value: int) | Unwound | Threw

  function Push8(tail: seq<int>, nr: int): (r: seq<int>)
    ensures |r| > 0 && r[|r| - 1] == nr
  {
    (if |tail| >= 8 then tail[1..] else tail) + [nr]
  }

  function WithPending<K>(s: Sys<K>, slot: Slot, pend: Pending): (r: Sys<K>)
    requires slot in s.procs
  {
    s.(procs := s.procs[slot := s.procs[slot].(pending := pend)])
  }

  function Handed<K>(s: Sys<K>, slot: Slot, v: int): (r: Sys<K>) {
    s.(ledgers := s.ledgers[slot := LedgerOf(s, slot).(values := LedgerOf(s, slot).values + [v])])
  }

  /** The console has nothing for the guest: a read of descriptor 0 that would block, or the yield
      that follows it. */
  predicate Spins(call: Call, value: int) {
    (call.nr == NR_READ && call.a0 == 0 && value == EAGAIN) || call.nr == NR_THREAD_YIELD
  }

  /** Count the call and enter the kernel with it. */
  function Entered<K(!new)>(kn: Kernel<K>, s: Sys<K>, slot: Slot, call: Call): (r: Sys<K>)
    requires slot in s.procs
  {
    var p := s.procs[slot];
    var g := LedgerOf(s, slot);
    s.(left := s.left - 1,
       slice := s.slice.(used := s.slice.used + 1),
       delivered := s.delivered + 1,
       procs := s.procs[slot := p.(tail := Push8(p.tail, call.nr), syscalls := p.syscalls + 1)],
       ledgers := s.ledgers[slot := g.(calls := g.calls + [call])],
       k := kn.enter(s.k, slot, call))
  }

  /** The kernel handles the call to the end. */
  function Deliver<K(!new)>(kn: Kernel<K>, s: Sys<K>, slot: Slot, call: Call): (r: Sys<K>)
    requires kn.Valid() && slot in s.procs
    ensures slot in r.procs
    ensures r.procs[slot].pending == s.procs[slot].pending && r.procs[slot].module_ == s.procs[slot].module_
    ensures r.slice == s.slice.(used := s.slice.used + 1)
    ensures r.left == s.left - 1 && r.delivered == s.delivered + 1 && r.retired == s.retired
  {
    Settle(kn, Entered(kn, s, slot, call))
  }

  /** After the kernel returned: suspend the caller, or hand it the result. */
  function Conclude<K(!new)>(kn: Kernel<K>, s: Sys<K>, slot: Slot, call: Call): (r: (Sys<K>, Outcome))
    requires slot in s.procs
    ensures slot in r.0.procs && !r.1.Threw?
    ensures r.1.Answered? ==> r.0.procs[slot].pending == s.procs[slot].pending
    ensures r.0.slice.limit == s.slice.limit && r.0.slice.used == s.slice.used
    ensures 0 <= r.0.slice.spin - s.slice.spin <= 1
    ensures r.0.left == s.left && r.0.delivered == s.delivered && r.0.retired == s.retired
  {
    var v := kn.result(s.k);
    var s1 := if Spins(call, v) then s.(slice := s.slice.(spin := s.slice.spin + 1)) else s;
    if kn.blocked(s1.k, slot) then (WithPending(s1, slot, Blocked(call, v)), Unwound)
    else if call.nr == NR_THREAD_YIELD then (WithPending(Handed(s1, slot, v), slot, Resumed(call, v)), Unwound)
    else (Handed(s1, slot, v), Answered(v))
  }

  /** A call the kernel has not been asked yet: refuse it, put it off, or deliver it. */
  function Offer<K(!new)>(kn: Kernel<K>, s: Sys<K>, slot: Slot, call: Call): (r: (Sys<K>, Outcome))
    requires kn.Valid() && slot in s.procs && s.procs[slot].pending.Free?
    ensures slot in r.0.procs && Accounts(s, r.0)
    ensures r.1.Answered? ==> r.0.procs[slot].pending.Free?
    ensures r.1.Answered? ==> r.0.slice.used == s.slice.used + 1 <= s.slice.limit
    ensures r.1.Unwound? ==> r.0.slice.used > s.slice.used || s.slice.used >= s.slice.limit
  {
    if s.left <= 0 then (s, Threw)
    else if s.slice.used >= s.slice.limit then (WithPending(s, slot, Yielded(call)), Unwound)
    else Conclude(kn, Deliver(kn, s, slot, call), slot, call)
  }

  /** `minix_syscall`: a replay that owes nothing more, or a call to offer to the kernel. */
  function Gate<K(!new)>(kn: Kernel<K>, s: Sys<K>, slot: Slot, call: Call): (r: (Sys<K>, Outcome))
    requires kn.Valid() && slot in s.procs
    ensures slot in r.0.procs && Accounts(s, r.0)
    ensures r.1.Answered? ==> r.0.procs[slot].pending.Free?
    ensures r.1.Answered? && Replays(s.procs[slot].pending) == 0 ==> r.0.slice.used == s.slice.used + 1 <= s.slice.limit
    ensures r.1.Answered? && Replays(s.procs[slot].pending) == 1 ==> r.0.slice == s.slice
    ensures r.1.Unwound? ==> r.0.slice.used > s.slice.used || s.slice.used >= s.slice.limit
  {
    match s.procs[slot].pending
    case Resumed(_, v) => (WithPending(s, slot, Free), Answered(v))
    case Blocked(_, _) =>
      var v := kn.retval(s.k, slot);
      (WithPending(Handed(s, slot, v), slot, Free), Answered(v))
    case _ => Offer(kn, WithPending(s, slot, Free), slot, call)
  }

  // ------------------------------------------------------------- dispatch and pump

  datatype Ending = Suspended | Ended | Exited | OutOfBudget | Faulted

  function WithMemory<K>(s: Sys<K>, slot: Slot, m: seq<byte>): (r: Sys<K>)
    requires slot in s.procs
  {
    s.(procs := s.procs[slot := s.procs[slot].(memory := m)])
  }

  function Retire<K>(s: Sys<K>, slot: Slot): (r: Sys<K>)
    requires slot in s.procs
  {
    s.(procs := s.procs[slot := s.procs[slot].(exited := true)], retired := s.retired + 1)
  }

  /** The guest received `v` and ran on: its side of the books, and the pulls it made. */
  function Received<K>(s: Sys<K>, slot: Slot, v: int, view: View, pulls: seq<Pull>): (r: Sys<K>) {
    if slot !in s.lives then s
    else
      var l, g := s.lives[slot], LedgerOf(s, slot);
      s.(lives := s.lives[slot := l.(answers := l.answers + [Answer(l.stores, v, view)], stores := [])],
         ledgers := s.ledgers[slot := g.(pulls := g.pulls + pulls)])
  }

  /** The guest runs on with `v`, as far as its next call of the gate. */
  function Resumes<K(!new)>(kn: Kernel<K>, s: Sys<K>, slot: Slot, v: int): (r: (Sys<K>, Turn))
    requires slot in s.procs
    ensures r.0.procs == s.procs && r.0.order == s.order && r.0.slice == s.slice && r.0.left == s.left
    ensures r.0.delivered == s.delivered && r.0.retired == s.retired
  {
    var p, view := s.procs[slot], kn.view(s.k);
    var ran := p.module_.resume(p.memory, v, view);
    (Received(s, slot, v, view, ran.pulls).(k := kn.pulled(s.k, slot, ran.pulls)), ran.turn)
  }

  /** The guest starts: its first life begins, and its books are empty but for what it pulls. */
  function Starts<K(!new)>(kn: Kernel<K>, s: Sys<K>, slot: Slot): (r: (Sys<K>, Turn))
    requires slot in s.procs
    ensures r.0.procs == s.procs && r.0.order == s.order && r.0.slice == s.slice && r.0.left == s.left
    ensures r.0.delivered == s.delivered && r.0.retired == s.retired
  {
    var p, view := s.procs[slot], kn.view(s.k);
    var ran := p.module_.start(p.entry, p.memory, p.args, view);
    (s.(lives := s.lives[slot := Life(p.module_, p.entry, p.args, p.memory, view, [], [])],
        ledgers := s.ledgers[slot := BLANK.(pulls := ran.pulls)],
        k := kn.pulled(s.k, slot, ran.pulls)),
     ran.turn)
  }

  function Replays(p: Pending): (n: nat) {
    if p.Resumed? || p.Blocked? then 1 else 0
  }

  /** Follow the guest from `t` until it gives control back or stops. */
  function Drive<K(!new)>(kn: Kernel<K>, s: Sys<K>, slot: Slot, t: Turn): (r: (Sys<K>, Ending))
    requires kn.Valid() && slot in s.procs && s.slice.used <= s.slice.limit
    ensures Accounts(s, r.0)
    ensures (r.1.Ended? || r.1.Exited?) ==> s.retired < r.0.retired
    ensures r.1.Suspended? ==> s.slice.used < r.0.slice.used || s.slice.used >= s.slice.limit
    decreases s.slice.limit - s.slice.used, Replays(s.procs[slot].pending)
  {
    var s0 := WithMemory(s, slot, t.memory);
    match t
    case Finishes(_) => (Retire(s0, slot).(k := kn.retire(s0.k, slot)), Ended)
    case Traps(_) =>
      var tail := s0.procs[slot].tail;
      if tail != [] && tail[|tail| - 1] == NR_EXIT then (Retire(s0, slot), Exited) else (s0, Faulted)
    case Issues(call, _) =>
      var (s1, o) := Gate(kn, s0, slot, call);
      match o
      case Threw => (s1, OutOfBudget)
      case Unwound => (s1, Suspended)
      case Answered(v) =>
        var (s2, t2) := Resumes(kn, s1, slot, v);
        Drive(kn, s2, slot, t2)
  }

  /** `run`: rewind into the call the process is suspended in, or start its entry. */
  function Run<K(!new)>(kn: Kernel<K>, s: Sys<K>, slot: Slot): (r: (Sys<K>, Ending))
    requires kn.Valid() && slot in s.procs && s.slice.used <= s.slice.limit
    ensures Accounts(s, r.0)
    ensures (r.1.Ended? || r.1.Exited?) ==> s.retired < r.0.retired
    ensures r.1.Suspended? ==> s.slice.used < r.0.slice.used || s.slice.used >= s.slice.limit
  {
    var p := s.procs[slot];
    if !p.pending.Free? then Drive(kn, s, slot, Issues(p.pending.call, p.memory))
    else
      var (s1, t) := Starts(kn, s, slot);
      Drive(kn, s1, slot, t)
  }

  datatype Reason = Quiescent | SliceSpent | Steps | UnknownSlot | Budget | Trapped

  /** Whether a front end goes on pumping after this. */
  predicate GoesOn(r: Reason) {
    r.Quiescent? || r.SliceSpent?
  }

  /** Whether the pump returns after a dispatch, and with what. A process that exited by trapping
      skips the slice checks. */
  function Verdict<K(!new)>(kn: Kernel<K>, before: Slice, s: Sys<K>, e: Ending): (v: Option<Reason>) {
    match e
    case OutOfBudget => Some(Budget)
    case Faulted => Some(Trapped)
    case Exited => None
    case _ =>
      if && s.slice.used > before.used
         && s.slice.spin - before.spin == s.slice.used - before.used
         && kn.quiet(s.k) then Some(SliceSpent)
      else if s.slice.used >= s.slice.limit then Some(SliceSpent)
      else None
  }

  /** Run one process and decide whether to go on. */
  function Dispatch<K(!new)>(kn: Kernel<K>, s: Sys<K>, slot: Slot): (r: (Sys<K>, Option<Reason>))
    requires kn.Valid() && slot in s.procs && s.slice.used <= s.slice.limit
    ensures Accounts(s, r.0)
    ensures 0 < s.slice.limit && s.slice.used == 0 && (r.1.None? || GoesOn(r.1.value)) ==>
              s.delivered < r.0.delivered || s.retired < r.0.retired
  {
    var (s1, e) := Run(kn, s, slot);
    (s1, Verdict(kn, s.slice, s1, e))
  }

  function Loop<K(!new)>(kn: Kernel<K>, s: Sys<K>, steps: nat): (r: (Sys<K>, Reason))
    requires kn.Valid() && s.slice.used <= s.slice.limit
    ensures Accounts(s, r.0)
    decreases steps
  {
    var (k, slot) := kn.step(s.k);
    var s1 := s.(k := k);
    if slot == -1 then (s1, Quiescent)
    else if steps == 0 then (s1, Steps)
    else if slot !in s1.procs then (s1, UnknownSlot)
    else
      var (s2, v) := Dispatch(kn, s1, slot);
      if v.Some? then (s2, v.value) else Loop(kn, s2, steps - 1)
  }

  function Pump<K(!new)>(kn: Kernel<K>, s: Sys<K>, limit: nat, steps: nat): (r: (Sys<K>, Reason))
    requires kn.Valid()
  {
    Loop(kn, s.(slice := Slice(0, 0, limit)), steps)
  }

  /** What a front end does between pumps: pump again, or let the world outside change. */
  datatype Move<K> = PumpFor(limit: nat, steps: nat) | Outside(k: K)

  /** A whole session; a stop that is not a slice or quiescence ends it. */
  function Session<K(!new)>(kn: Kernel<K>, s: Sys<K>, moves: seq<Move<K>>): (r: (Sys<K>, bool))
    requires kn.Valid()
    decreases |moves|
  {
    if moves == [] then (s, true)
    else match moves[0]
      case Outside(k) => Session(kn, s.(k := k), moves[1..])
      case PumpFor(limit, steps) =>
        var (s1, why) := Pump(kn, s, limit, steps);
        if GoesOn(why) then Session(kn, s1, moves[1..]) else (s1, false)
  }

  // -------------------------------------------------------------------- bring-up

  /** The state `createHost` brings up: one record per spec, none started. */
  function Boot<K>(k: K, specs: seq<(Slot, Module, string)>, budget: nat): (s: Sys<K>) {
    var start := Sys(k, map[], [], map[], map[], Slice(0, 0, 0), budget, 0, 0);
    Spawn(start, specs)
  }

  function Spawn<K>(s: Sys<K>, specs: seq<(Slot, Module, string)>): (r: Sys<K>)
    decreases |specs|
  {
    if specs == [] then s
    else
      var (slot, m, entry) := specs[0];
      Spawn(s.(procs := s.procs[slot := Proc(m, entry, [], m.initial, Free, false, [], 0)], order := s.order + [slot]), specs[1..])
  }

  function Slots(specs: seq<(Slot, Module, string)>): (q: seq<Slot>) {
    seq(|specs|, i requires 0 <= i < |specs| => specs[i].0)
  }
}
