/**
 The engine's records and methods as they are updated in place: one object per process, one memory
 object per instance, and the two tables that name them. Every method is tied to the corresponding
 function of `Engine`; no two records ever share a memory.
 */
module Host {
  import opened Bytes
  import opened Engine

  /** The linear memory of one instance, made for one slot. */
  class Memory {
    var bytes: seq<byte>
    ghost const owner: Slot

    constructor (b: seq<byte>, ghost slot: Slot)
      ensures bytes == b && owner == slot
    {
      bytes, owner := b, slot;
    }
  }

  /** The host's copy of what the kernel's process entry holds. */
  class Process {
    const slot: Slot
    var module_: Module
    var entry: string
    var args: seq<int>
    var memory: Memory
    var pending: Pending
    var exited: bool
    var tail: seq<int>
    var syscalls: nat

    ghost function Value(): (p: Proc)
      reads this, memory
    {
      Proc(module_, entry, args, memory.bytes, pending, exited, tail, syscalls)
    }

    /** A record with a fresh instance of `m`. */
    constructor (slot: Slot, m: Module, entry: string)
      ensures this.slot == slot && fresh(memory) && memory.owner == slot
      ensures Value() == Proc(m, entry, [], m.initial, Free, false, [], 0)
    {
      this.slot := slot;
      this.module_ := m;
      this.entry := entry;
      this.args := [];
      this.pending := Free;
      this.exited := false;
      this.tail := [];
      this.syscalls := 0;
      this.memory := new Memory(m.initial, slot);
    }

    /** `cloneProcess`: instantiate, grow to the parent's size, overwrite with the parent's bytes,
        and copy the record. */
    constructor Clone(parent: Process, childSlot: Slot)
      ensures slot == childSlot && fresh(memory) && memory.owner == slot
      ensures Value() == Engine.Clone(parent.Value())
    {
      slot := childSlot;
      module_ := parent.module_;
      entry := parent.entry;
      args := parent.args;
      pending := parent.pending;
      exited := false;
      tail := parent.tail;
      syscalls := parent.syscalls;
      memory := new Memory(parent.module_.initial, childSlot);
      new;
      if |memory.bytes| < |parent.memory.bytes| {
        memory.bytes := memory.bytes + Zeros(|parent.memory.bytes| - |memory.bytes|);
      }
      memory.bytes := Splice(memory.bytes, 0, parent.memory.bytes);
    }

    /** A module in a fresh memory, as far as `instantiate` gets before the suspension is dropped. */
    method Rewrite(m: Module, name: string, args: seq<int>, loaded: seq<byte>)
      modifies this
      ensures fresh(memory) && memory.owner == slot
      ensures Value() == old(Value()).(module_ := m, entry := name, args := args, memory := loaded)
    {
      this.memory := new Memory(loaded, slot);
      this.entry := name;
      this.module_ := m;
      this.args := args;
    }

    /** Replace what the slot runs: a fresh memory, a new module and entry, nothing pending. */
    method Replace(m: Module, args: seq<int>, loaded: seq<byte>)
      modifies this
      ensures fresh(memory) && memory.owner == slot
      ensures Value() == old(Value()).(module_ := m, entry := PROGRAM_ENTRY, args := args, memory := loaded,
                                       pending := Free, exited := false)
    {
      Rewrite(m, PROGRAM_ENTRY, args, loaded);
      this.pending := Free;
      this.exited := false;
    }
  }

  function SlotsOf(ps: seq<Process>): (q: seq<Slot>) {
    seq(|ps|, i requires 0 <= i < |ps| => ps[i].slot)
  }

  /** The list and the table are in one-to-one correspondence: `at` says where the list has each
      slot's record. */
  ghost predicate Paired(procs: seq<Process>, bySlot: map<Slot, Process>, at: map<Slot, nat>) {
    && (forall i :: 0 <= i < |procs| ==> procs[i].slot in bySlot && procs[i].slot in at && at[procs[i].slot] == i)
    && (forall s :: s in bySlot ==> s in at && at[s] < |procs| && procs[at[s]] == bySlot[s] && bySlot[s].slot == s)
  }

  lemma PairedMore(procs: seq<Process>, bySlot: map<Slot, Process>, at: map<Slot, nat>, st: Process)
    requires Paired(procs, bySlot, at) && st.slot !in bySlot
    ensures Paired(procs + [st], bySlot[st.slot := st], at[st.slot := |procs|])
    ensures SlotsOf(procs + [st]) == SlotsOf(procs) + [st.slot]
  {
  }

  function Closed(at: map<Slot, nat>, keys: set<Slot>, i: nat): (r: map<Slot, nat>) {
    map s | s in keys && s in at :: if at[s] > i then (at[s] - 1) as nat else at[s]
  }

  lemma PairedRest(procs: seq<Process>, bySlot: map<Slot, Process>, at: map<Slot, nat>, slot: Slot)
    requires Paired(procs, bySlot, at) && slot in bySlot
    ensures var i := at[slot];
            Paired(procs[..i] + procs[i + 1..], bySlot - {slot}, Closed(at, (bySlot - {slot}).Keys, i))
  {
    var i := at[slot];
    var rest := procs[..i] + procs[i + 1..];
    assert forall j :: 0 <= j < |rest| ==> rest[j] == procs[if j < i then j else j + 1];
  }

  lemma PairedSlots(procs: seq<Process>, bySlot: map<Slot, Process>, at: map<Slot, nat>, slot: Slot)
    requires Paired(procs, bySlot, at) && slot in bySlot
    ensures var i := at[slot];
            SlotsOf(procs[..i] + procs[i + 1..]) == Without(SlotsOf(procs), slot)
  {
    var i := at[slot];
    var q := SlotsOf(procs);
    assert q[i] == slot;
    assert forall j :: 0 <= j < i ==> q[j] != slot;
    WithoutAt(q, i);
    assert SlotsOf(procs[..i] + procs[i + 1..]) == q[..i] + q[i + 1..];
  }

  lemma Unlisted(procs: seq<Process>, bySlot: map<Slot, Process>, at: map<Slot, nat>, slot: Slot)
    requires Paired(procs, bySlot, at) && slot !in bySlot
    ensures Without(SlotsOf(procs), slot) == SlotsOf(procs)
  {
    assert forall i :: 0 <= i < |procs| ==> SlotsOf(procs)[i] in bySlot;
    WithoutNone(SlotsOf(procs), slot);
  }

  /** `procs` and `bySlot`, with the value they stand for. */
  class ProcessTable {
    var procs: seq<Process>
    var bySlot: map<Slot, Process>
    /** The value of each slot's record, its place in the list, and the objects in use. */
    ghost var view: map<Slot, Proc>
    ghost var at: map<Slot, nat>
    ghost var recs: set<Process>
    ghost var mems: set<Memory>

    constructor ()
      ensures Valid() && recs == {} && mems == {} && view == map[] && procs == []
    {
      procs, bySlot := [], map[];
      view, at, recs, mems := map[], map[], {}, {};
    }

    /** Each record holds its slot's value, in a memory made for it. */
    ghost predicate Valid()
      reads this, recs, mems
    {
      && Paired(procs, bySlot, at)
      && bySlot.Keys == view.Keys
      && forall s :: s in bySlot ==>
           && bySlot[s] in recs && bySlot[s].slot == s
           && bySlot[s].memory in mems && bySlot[s].memory.owner == s
           && bySlot[s].Value() == view[s]
    }

    /** No two processes share a record or a memory. */
    lemma NothingShared(s: Slot, t: Slot)
      requires Valid() && s in bySlot && t in bySlot && s != t
      ensures bySlot[s] != bySlot[t] && bySlot[s].memory != bySlot[t].memory
    {
      hide Paired;
    }

    /** `procAt`, as a test. */
    method Has(slot: Slot) returns (known: bool)
      requires Valid()
      ensures known <==> slot in view
    {
      known := slot in bySlot;
    }

    /** `procAt`. */
    method Find(slot: Slot) returns (st: Process)
      requires Valid() && slot in view
      ensures st.Value() == view[slot]
    {
      hide Paired;
      st := bySlot[slot];
    }

    /** The fields of the record under `slot`. */
    method Look(slot: Slot) returns (p: Proc)
      requires Valid() && slot in view
      ensures p == view[slot]
    {
      hide Paired;
      var st := bySlot[slot];
      p := Proc(st.module_, st.entry, st.args, st.memory.bytes, st.pending, st.exited, st.tail, st.syscalls);
    }

    /** Add a record under a slot neither table has. */
    method Install(st: Process)
      requires Valid() && st.slot !in bySlot && st.memory.owner == st.slot
      modifies this
      ensures Valid() && recs == old(recs) + {st} && mems == old(mems) + {st.memory}
      ensures view == old(view)[st.slot := st.Value()] && SlotsOf(procs) == SlotsOf(old(procs)) + [st.slot]
    {
      hide Paired, SlotsOf;
      PairedMore(procs, bySlot, at, st);
      at := at[st.slot := |procs|];
      procs := procs + [st];
      bySlot := bySlot[st.slot := st];
      recs, mems := recs + {st}, mems + {st.memory};
      view := view[st.slot := st.Value()];
    }

    /** A new record of `m` under `slot`, not started. */
    method Spawn(slot: Slot, m: Module, entry: string)
      requires Valid() && slot !in view
      modifies this
      ensures Valid() && fresh(recs - old(recs)) && fresh(mems - old(mems))
      ensures view == old(view)[slot := Proc(m, entry, [], m.initial, Free, false, [], 0)]
      ensures SlotsOf(procs) == SlotsOf(old(procs)) + [slot]
    {
      hide Paired, SlotsOf;
      var st := new Process(slot, m, entry);
      Install(st);
    }

    /** `procs.indexOf` of the record of `slot`. */
    method IndexOf(slot: Slot) returns (i: nat)
      requires Valid() && slot in bySlot
      ensures slot in at && i == at[slot] < |procs|
    {
      i := 0;
      while procs[i] != bySlot[slot]
        invariant 0 <= i <= at[slot]
        decreases at[slot] - i
      {
        i := i + 1;
      }
    }

    /** Forget the record under `slot`. */
    method Drop(slot: Slot)
      requires Valid() && slot in bySlot
      modifies this
      ensures Valid() && slot !in bySlot && recs == old(recs) && mems == old(mems)
      ensures view == old(view) - {slot} && SlotsOf(procs) == Without(SlotsOf(old(procs)), slot)
    {
      hide Paired, SlotsOf, Without;
      var i := IndexOf(slot);
      PairedRest(procs, bySlot, at, slot);
      PairedSlots(procs, bySlot, at, slot);
      at := Closed(at, (bySlot - {slot}).Keys, i);
      procs := procs[..i] + procs[i + 1..];
      bySlot := bySlot - {slot};
      view := view - {slot};
    }

    /** A slot's record goes, if it has one. */
    method Vacate(slot: Slot)
      requires Valid()
      modifies this
      ensures Valid() && slot !in view && recs == old(recs) && mems == old(mems)
      ensures view == old(view) - {slot} && SlotsOf(procs) == Without(SlotsOf(old(procs)), slot)
    {
      if slot in bySlot {
        Drop(slot);
      } else {
        Unlisted(procs, bySlot, at, slot);
      }
    }

    /** A clone of `parent` under a slot neither table has. */
    method Adopt(parent: Process, slot: Slot)
      requires Valid() && slot !in view
      modifies this
      ensures Valid() && fresh(recs - old(recs)) && fresh(mems - old(mems))
      ensures view == old(view)[slot := Engine.Clone(old(parent.Value()))]
      ensures SlotsOf(procs) == SlotsOf(old(procs)) + [slot]
    {
      hide Paired, SlotsOf, Engine.Clone;
      var child := new Process.Clone(parent, slot);
      Install(child);
    }

    /** An unknown parent, or a child's slot with a live process. */
    method Refuses(parentSlot: Slot, childSlot: Slot) returns (no: bool)
      requires Valid()
      ensures no <==> parentSlot !in view || (childSlot in view && !view[childSlot].exited)
    {
      hide Valid;
      var known := Has(parentSlot);
      var occupied := Has(childSlot);
      if known && occupied {
        var occupant := Find(childSlot);
        return !occupant.exited;
      }
      return !known;
    }

    /** `hostForkProcess`: the dead record goes before the clone is made. */
    method Fork(parentSlot: Slot, childSlot: Slot, room: bool) returns (code: int)
      requires Valid()
      modifies this
      ensures Valid() && fresh(recs - old(recs)) && fresh(mems - old(mems))
      ensures (view, SlotsOf(procs), code) == ForkTable(old(view), SlotsOf(old(procs)), parentSlot, childSlot, room)
    {
      hide Valid, SlotsOf, Without, Engine.Clone;
      var refused := Refuses(parentSlot, childSlot);
      if refused {
        return EINVAL;
      }
      var parent := Find(parentSlot);
      Vacate(childSlot);
      if !room {
        return ENOMEM;
      }
      Adopt(parent, childSlot);
      Reinserted(old(view), childSlot, Engine.Clone(old(view)[parentSlot]));
      return 0;
    }

    /** Bytes land in a process's memory, in place: no other process's memory moves. */
    method Poke(slot: Slot, dst: nat, data: seq<byte>)
      requires Valid() && slot in view && dst + |data| <= |view[slot].memory|
      modifies this`view, mems
      ensures Valid()
      ensures view == old(view)[slot := old(view)[slot].(memory := Splice(old(view)[slot].memory, dst, data))]
    {
      hide Paired;
      var m := bySlot[slot].memory;
      m.bytes := Splice(m.bytes, dst, data);
      view := view[slot := view[slot].(memory := m.bytes)];
    }

    /** The guest's own turn leaves its memory as `bytes`. */
    method SetMemory(slot: Slot, bytes: seq<byte>)
      requires Valid() && slot in view
      modifies this`view, mems
      ensures Valid() && view == old(view)[slot := old(view)[slot].(memory := bytes)]
    {
      hide Paired;
      bySlot[slot].memory.bytes := bytes;
      view := view[slot := view[slot].(memory := bytes)];
    }

    method SetPending(slot: Slot, pend: Pending)
      requires Valid() && slot in view
      modifies this`view, recs
      ensures Valid() && view == old(view)[slot := old(view)[slot].(pending := pend)]
    {
      hide Paired;
      bySlot[slot].pending := pend;
      view := view[slot := view[slot].(pending := pend)];
    }

    method SetExited(slot: Slot)
      requires Valid() && slot in view
      modifies this`view, recs
      ensures Valid() && view == old(view)[slot := old(view)[slot].(exited := true)]
    {
      hide Paired;
      bySlot[slot].exited := true;
      view := view[slot := view[slot].(exited := true)];
    }

    /** One more syscall of the process. */
    method Count(slot: Slot, nr: int)
      requires Valid() && slot in view
      modifies this`view, recs
      ensures Valid()
      ensures view == old(view)[slot := old(view)[slot].(tail := Push8(old(view)[slot].tail, nr),
                                                         syscalls := old(view)[slot].syscalls + 1)]
    {
      hide Paired, Push8;
      var st := bySlot[slot];
      st.tail, st.syscalls := Push8(st.tail, nr), st.syscalls + 1;
      view := view[slot := st.Value()];
    }

    /** The same record, running another module in a fresh memory. */
    method Overwrite(slot: Slot, m: Module, args: seq<int>, loaded: seq<byte>)
      requires Valid() && slot in view
      modifies this`view, this`mems, recs
      ensures Valid() && fresh(mems - old(mems))
      ensures view == old(view)[slot := old(view)[slot].(module_ := m, entry := PROGRAM_ENTRY, args := args,
                                                         memory := loaded, pending := Free, exited := false)]
    {
      hide Paired;
      var st := bySlot[slot];
      st.Replace(m, args, loaded);
      mems := mems + {st.memory};
      view := view[slot := st.Value()];
    }

    /** An instantiation that failed half way: what it replaced stays replaced. */
    method Tear(slot: Slot, fate: Fate)
      requires Valid() && slot in view && fate.Torn?
      modifies this`view, this`mems, recs
      ensures Valid() && fresh(mems - old(mems))
      ensures view == old(view)[slot := old(view)[slot].(module_ := fate.module_, entry := fate.entry,
                                                         args := fate.args, memory := fate.memory)]
    {
      hide Paired;
      var st := bySlot[slot];
      st.Rewrite(fate.module_, fate.entry, fate.args, fate.memory);
      mems := mems + {st.memory};
      view := view[slot := st.Value()];
    }

    /** `hostExecModule` once the image compiled. */
    method Exec(q: Request) returns (code: int)
      requires Valid() && q.Exec?
      modifies this, recs
      ensures Valid() && procs == old(procs) && recs == old(recs) && fresh(mems - old(mems))
      ensures (view, code) == ExecTable(old(view), q)
    {
      hide Valid;
      var image := Has(q.image);
      if 0 <= q.image && !image {
        return EINVAL;
      }
      var known := Has(q.slot);
      if !known {
        return EINVAL;
      }
      if q.target.None? {
        return ENOEXEC;
      }
      if q.fate.NoMemory? {
        return ENOMEM;
      }
      if q.fate.Torn? {
        Tear(q.slot, q.fate);
        return ENOMEM;
      }
      Overwrite(q.slot, q.target.value, q.argv, q.loaded);
      return 0;
    }
  }

  lemma Reinserted<A, B>(m: map<A, B>, k: A, v: B)
    ensures (m - {k})[k := v] == m[k := v]
  {
  }

  lemma WithoutNone(q: seq<Slot>, slot: Slot)
    requires slot !in q
    ensures Without(q, slot) == q
  {
  }

  lemma WithoutAt(q: seq<Slot>, i: nat)
    requires i < |q| && q[i] !in q[..i]
    ensures Without(q, q[i]) == q[..i] + q[i + 1..]
  {
    if i > 0 {
      assert q[1..][..i - 1] == q[1..i];
      assert q[..i] == [q[0]] + q[1..i];
      WithoutAt(q[1..], i - 1);
      assert q[1..][i..] == q[i + 1..];
    }
  }
}
