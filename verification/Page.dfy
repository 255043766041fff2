/** The page's side of the guest: its queues, its loop and the buttons it holds down. */
module Page {
  import opened Bytes
  import opened Engine
  import opened Wake
  import opened Dispatcher
  import H = Host

  const BUTTON_PAGE: nat := 0x0009

  /** The HID usage of a browser button: left 1, right 2, middle 3. */
  function Usage(button: nat): (u: Option<nat>) {
    match button case 0 => Some(1) case 1 => Some(3) case 2 => Some(2) case _ => None
  }

  // ------------------------------------------------------------------ held buttons

  datatype Gesture = Press(button: nat) | Release(button: nat) | Leave

  /** The usages held down, oldest first, and every button record sent. */
  datatype Buttons = Buttons(held: seq<nat>, log: seq<Record>)

  function Releases(held: seq<nat>): (r: seq<Record>)
    ensures |r| == |held| && forall i :: 0 <= i < |held| ==> r[i] == Record(BUTTON_PAGE, held[i], 0)
  {
    seq(|held|, i requires 0 <= i < |held| => Record(BUTTON_PAGE, held[i], 0))
  }

  function Gestured(b: Buttons, g: Gesture): (r: Buttons) {
    match g
    case Leave => Buttons([], b.log + Releases(b.held))
    case Press(n) =>
      (match Usage(n)
       case None => b
       case Some(u) => Buttons(if u in b.held then b.held else b.held + [u], b.log + [Record(BUTTON_PAGE, u, 1)]))
    case Release(n) =>
      (match Usage(n)
       case None => b
       case Some(u) => Buttons(Without(b.held, u), b.log + [Record(BUTTON_PAGE, u, 0)]))
  }

  function Gestures(gs: seq<Gesture>): (b: Buttons) {
    if gs == [] then Buttons([], []) else Gestured(Gestures(gs[..|gs| - 1]), gs[|gs| - 1])
  }

  /** The button as the guest was last told. */
  predicate Down(log: seq<Record>, u: nat) {
    log != [] &&
    var last := log[|log| - 1];
    if last.code == u then last.value == 1 else Down(log[..|log| - 1], u)
  }

  lemma DownMore(log: seq<Record>, r: Record, u: nat)
    ensures Down(log + [r], u) <==> if r.code == u then r.value == 1 else Down(log, u)
  {
    assert (log + [r])[..|log|] == log;
  }

  lemma {:induction false} DownAfterReleases(log: seq<Record>, held: seq<nat>, u: nat)
    ensures Down(log + Releases(held), u) <==> u !in held && Down(log, u)
    decreases |held|
  {
    if held == [] {
      assert log + Releases(held) == log;
    } else {
      var n := |held| - 1;
      DownAfterReleases(log, held[..n], u);
      var last := Record(BUTTON_PAGE, held[n], 0);
      assert Releases(held) == Releases(held[..n]) + [last];
      assert log + Releases(held) == (log + Releases(held[..n])) + [last];
      DownMore(log + Releases(held[..n]), last, u);
      assert held == held[..n] + [held[n]];
    }
  }

  /** Each button held is held once, and is down for the guest. */
  ghost predicate Tracks(b: Buttons) {
    NoDup(b.held) && forall u: nat :: u in b.held <==> Down(b.log, u)
  }

  lemma PressTracks(b: Buttons, v: nat)
    requires Tracks(b)
    ensures Tracks(Buttons(if v in b.held then b.held else b.held + [v], b.log + [Record(BUTTON_PAGE, v, 1)]))
  {
    hide Down;
    forall u: nat ensures Down(b.log + [Record(BUTTON_PAGE, v, 1)], u) <==> u == v || Down(b.log, u) {
      DownMore(b.log, Record(BUTTON_PAGE, v, 1), u);
    }
    assert forall i :: 0 <= i < |b.held| ==> b.held[i] in b.held;
  }

  lemma ReleaseTracks(b: Buttons, v: nat)
    requires Tracks(b)
    ensures Tracks(Buttons(Without(b.held, v), b.log + [Record(BUTTON_PAGE, v, 0)]))
  {
    hide Down, Without;
    WithoutOnce(b.held, v);
    forall u: nat ensures Down(b.log + [Record(BUTTON_PAGE, v, 0)], u) <==> u != v && Down(b.log, u) {
      DownMore(b.log, Record(BUTTON_PAGE, v, 0), u);
    }
  }

  lemma LeaveTracks(b: Buttons)
    requires Tracks(b)
    ensures Tracks(Buttons([], b.log + Releases(b.held)))
  {
    hide Down, Releases;
    forall u: nat ensures !Down(b.log + Releases(b.held), u) {
      DownAfterReleases(b.log, b.held, u);
    }
  }

  /** Over every run of gestures, the page holds a button exactly when the guest believes it down; so
      after the pointer leaves, the guest believes none is. */
  lemma {:induction false} HeldIsDown(gs: seq<Gesture>)
    ensures Tracks(Gestures(gs))
    ensures gs != [] && gs[|gs| - 1].Leave? ==> forall u: nat :: !Down(Gestures(gs).log, u)
    decreases |gs|
  {
    hide Tracks, Down;
    if gs == [] {
      NothingHeld();
    } else {
      HeldIsDown(gs[..|gs| - 1]);
      var b := Gestures(gs[..|gs| - 1]);
      match gs[|gs| - 1]
      case Leave =>
        LeaveTracks(b);
        NoneDown(Gestures(gs));
      case Press(n) =>
        if Usage(n).Some? {
          PressTracks(b, Usage(n).value);
        }
      case Release(n) =>
        if Usage(n).Some? {
          ReleaseTracks(b, Usage(n).value);
        }
    }
  }

  lemma NothingHeld()
    ensures Tracks(Buttons([], []))
  {
  }

  lemma NoneDown(b: Buttons)
    requires Tracks(b) && b.held == []
    ensures forall u: nat :: !Down(b.log, u)
  {
  }

  // ------------------------------------------------------------------ the page

  const KEY_PAGE: nat := 0x0007
  const IRQ_KEYBOARD: nat := 1
  const IRQ_POINTER: nat := 12

  /** The line a record's driver registered. */
  function Line(r: Record): (irq: nat) {
    if r.page == KEY_PAGE then IRQ_KEYBOARD else IRQ_POINTER
  }

  class Page<Q(!new)> {
    const host: Host<Machine<Q>>
    /** What raising a line does to the kernel. */
    const irq: (Q, nat) -> Q
    var wake: bool
    var timed: bool
    var stopped: bool
    var stopping: bool
    var held: seq<nat>
    ghost var log: seq<Record>

    ghost function Now(): (w: World<Q>)
      reads this, host, host.table
    {
      World(host.State(), if stopped then Stopped else if wake then Parked(timed) else Ready, stopping)
    }

    /** A stopped loop is not waiting for anything. */
    ghost predicate Valid()
      reads this, host, host.table, host.table.recs, host.table.mems
    {
      host.Valid() && Wired(host.kn) && Awake(Now()) && !(stopped && wake)
    }

    constructor (h: Host<Machine<Q>>, raise: (Q, nat) -> Q)
      requires h.Valid() && Wired(h.kn) && h.k.io == EMPTY
      ensures Valid() && host == h && irq == raise && Now() == World(h.State(), Ready, false) && held == [] && log == []
    {
      host, irq := h, raise;
      wake, timed, stopped, stopping, held := false, false, false, false, [];
      log := [];
    }

    method Send(bytes: seq<byte>)
      requires Valid()
      modifies this`wake, host`k
      ensures Valid() && Now() == Step(host.kn, old(Now()), Typed(bytes)) && !wake
    {
      hide Wired, Awake, H.ProcessTable.Valid;
      StepKeeps(host.kn, Now(), Typed(bytes));
      var io := host.k.io;
      host.k := host.k.(io := io.(queue := io.queue + bytes));
      wake := false;
    }

    /** The record goes in before the line is raised. */
    method SendInput(r: Record)
      requires Valid()
      modifies this`wake, host`k
      ensures Valid() && Now() == Step(host.kn, old(Now()), Pushed(r, irq(old(host.k.core), Line(r)))) && !wake
    {
      hide Wired, Awake, H.ProcessTable.Valid;
      StepKeeps(host.kn, Now(), Pushed(r, irq(host.k.core, Line(r))));
      var io := host.k.io;
      host.k := host.k.(io := io.(inputs := io.inputs + [Held(r, true)], announced := true));
      host.k := host.k.(core := irq(host.k.core, Line(r)));
      wake := false;
    }

    method Enqueue(r: Record)
      requires Valid()
      modifies host`k
      ensures Valid() && Now() == Step(host.kn, old(Now()), Enqueued(r))
    {
      hide Wired, Awake, H.ProcessTable.Valid;
      StepKeeps(host.kn, Now(), Enqueued(r));
      var io := host.k.io;
      host.k := host.k.(io := io.(inputs := io.inputs + [Held(r, false)]));
    }

    method Timer()
      requires Valid()
      modifies this`wake
      ensures Valid() && Now() == Step(host.kn, old(Now()), Timeout)
    {
      hide Wired, Awake, H.ProcessTable.Valid;
      StepKeeps(host.kn, Now(), Timeout);
      if wake && timed {
        wake := false;
      }
    }

    /** The disk is about to be cleared: the loop stops before its next turn. */
    method StartsOver()
      requires Valid()
      modifies this`stopping
      ensures Valid() && Now() == Step(host.kn, old(Now()), Stop)
    {
      hide Wired, Awake, H.ProcessTable.Valid;
      StepKeeps(host.kn, Now(), Stop);
      stopping := true;
    }

    /** The kernel's read of the console. */
    method ConsoleRead() returns (b: int)
      modifies host`k
      ensures host.k == old(host.k).(io := Take(old(host.k.io), Console))
      ensures b == if old(host.k.io.queue) == [] then -1 else old(host.k.io.queue)[0]
    {
      var io := host.k.io;
      if io.queue == [] {
        return -1;
      }
      b := io.queue[0];
      host.k := host.k.(io := io.(queue := io.queue[1..], consumed := io.consumed + [b]));
    }

    /** The driver's read of one input record. */
    method InputRead() returns (r: Option<Record>)
      modifies host`k
      ensures host.k == old(host.k).(io := Take(old(host.k.io), Input))
      ensures r == if old(host.k.io.inputs) == [] then None else Some(old(host.k.io.inputs)[0].record)
    {
      var io := host.k.io;
      if io.inputs == [] {
        host.k := host.k.(io := io.(announced := false));
        return None;
      }
      r := Some(io.inputs[0].record);
      host.k := host.k.(io := io.(inputs := io.inputs[1..], taken := io.taken + [io.inputs[0]]));
    }

    method WaitsForInput(withTimer: bool)
      requires !stopped && !wake
      modifies this`wake, this`timed
      ensures !stopped && Now() == old(Now()).(phase := WaitForInput(host.k.io, withTimer))
    {
      if |host.k.io.queue| > 0 {
        return;
      }
      wake := true;
      timed := withTimer;
    }

    /** One turn of the loop: a pump, and what its reason says. */
    method Turns(limit: nat, steps: nat)
      requires Valid() && !wake && !stopped
      modifies this`wake, this`timed, this`stopped, this`stopping, host, host.table, host.table.recs, host.table.mems
      ensures Valid() && Now() == Step(host.kn, old(Now()), Pumped(limit, steps))
      ensures fresh(host.table.recs - old(host.table.recs)) && fresh(host.table.mems - old(host.table.mems))
    {
      hide Wired, Awake, H.ProcessTable.Valid, Pump;
      StepKeeps(host.kn, Now(), Pumped(limit, steps));
      if stopping {
        stopped := true;
        return;
      }
      var why := host.Pump(limit, steps);
      var io, slice := host.k.io, host.slice;
      if io.halted || !GoesOn(why) {
        stopped := true;
      } else if why.Quiescent? {
        WaitsForInput(false);
      } else if 0 < slice.used && slice.spin == slice.used && io.Quiet() {
        WaitsForInput(true);
      }
    }

    // ---------------------------------------------------------------- the pointer

    ghost function ButtonsNow(): (b: Buttons)
      reads this
    {
      Buttons(held, log)
    }

    method SendButton(button: nat, pressed: bool)
      requires Valid()
      modifies this, host`k
      ensures Valid() && ButtonsNow() == Gestured(old(ButtonsNow()), if pressed then Press(button) else Release(button))
      ensures host.k.io.queue == old(host.k.io.queue)
    {
      hide Wired, Awake, H.ProcessTable.Valid;
      var usage := Usage(button);
      if usage.None? {
        return;
      }
      var u := usage.value;
      if pressed {
        held := if u in held then held else held + [u];
      } else {
        held := Without(held, u);
      }
      var r := Record(BUTTON_PAGE, u, if pressed then 1 else 0);
      log := log + [r];
      SendInput(r);
    }

    method PointerLeaves()
      requires Valid()
      modifies this, host`k
      ensures Valid() && ButtonsNow() == Gestured(old(ButtonsNow()), Leave)
      ensures host.k.io.queue == old(host.k.io.queue)
    {
      hide Wired, Awake, H.ProcessTable.Valid;
      ghost var was := log;
      var i := 0;
      while i < |held|
        invariant 0 <= i <= |held| && held == old(held) && host.k.io.queue == old(host.k.io.queue) && Valid()
        invariant log == was + Releases(held)[..i]
      {
        var r := Record(BUTTON_PAGE, held[i], 0);
        log := log + [r];
        SendInput(r);
        i := i + 1;
      }
      held := [];
    }
  }
}
