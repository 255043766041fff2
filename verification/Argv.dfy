/** The argument list of an exec: out of the kernel's packed strings, into the new image's memory. */
module Argv {
  import opened Bytes
  import opened Utf8

  type Arg = seq<byte>

  const SCAN: nat := 4096

  // ------------------------------------------------------------------ reading a string

  /** The bytes a bounded scan can see. */
  function Window(mem: seq<byte>, at: nat, max: nat): (w: seq<byte>) {
    if at >= |mem| then [] else mem[at..Min(at + max, |mem|)]
  }

  method CString(mem: seq<byte>, at: nat, max: nat) returns (s: seq<byte>)
    ensures s == UpToZero(Window(mem, at, max))
  {
    hide UpToZero;
    var limit := Min(at + max, |mem|);
    var end := at;
    if at >= |mem| {
      ScanStops([]);
      return [];
    }
    while end < limit && mem[end] != 0
      invariant at <= end <= limit
      invariant UpToZero(mem[at..limit]) == mem[at..end] + UpToZero(mem[end..limit])
    {
      ScanSteps(mem, end, limit);
      assert mem[at..end] + [mem[end]] == mem[at..end + 1];
      end := end + 1;
    }
    ScanStops(mem[end..limit]);
    s := mem[at..end];
  }

  lemma ScanStops(s: seq<byte>)
    requires s == [] || s[0] == 0
    ensures UpToZero(s) == []
  {
  }

  lemma ScanSteps(mem: seq<byte>, at: nat, limit: nat)
    requires at < limit <= |mem| && mem[at] != 0
    ensures UpToZero(mem[at..limit]) == [mem[at]] + UpToZero(mem[at + 1..limit])
  {
    assert mem[at..limit][1..] == mem[at + 1..limit];
  }

  // ------------------------------------------------------------------ unpacking

  /** The kernel's packing: each argument and its terminator, one after another. */
  function Packed(args: seq<Arg>): (s: seq<byte>) {
    if args == [] then [] else args[0] + [0] + Packed(args[1..])
  }

  function Unpacked(mem: seq<byte>, at: nat, argc: nat): (args: seq<Arg>)
    ensures |args| == argc
    decreases argc
  {
    if argc == 0 then []
    else
      var arg := Recode(UpToZero(Window(mem, at, SCAN)));
      [arg] + Unpacked(mem, at + |arg| + 1, argc - 1)
  }

  method Unpack(mem: seq<byte>, at: nat, argc: nat) returns (args: seq<Arg>)
    ensures args == Unpacked(mem, at, argc)
  {
    hide UpToZero, Window;
    args := [];
    var pos: nat := at;
    for i := 0 to argc
      invariant args + Unpacked(mem, pos, argc - i) == Unpacked(mem, at, argc)
    {
      var s := CString(mem, pos, SCAN);
      var arg := Recode(s);
      Append(args, arg, Unpacked(mem, pos + |arg| + 1, argc - i - 1));
      args := args + [arg];
      pos := pos + |arg| + 1;
    }
  }

  lemma Append(args: seq<Arg>, arg: Arg, rest: seq<Arg>)
    ensures args + [arg] + rest == args + ([arg] + rest)
  {
  }

  /** As much of an argument as one scan takes. */
  function Seen(arg: Arg): (s: seq<byte>) {
    arg[..Min(SCAN, |arg|)]
  }

  ghost predicate ZeroFree(args: seq<Arg>) {
    forall i :: 0 <= i < |args| ==> 0 !in args[i]
  }

  lemma ScanSees(mem: seq<byte>, at: nat, arg: Arg)
    requires 0 !in arg && at + |arg| + 1 <= |mem| && mem[at..at + |arg| + 1] == arg + [0]
    ensures UpToZero(Window(mem, at, SCAN)) == Seen(arg)
  {
    hide UpToZero;
    var w := Window(mem, at, SCAN);
    var block := mem[at..at + |arg| + 1];
    assert forall j :: 0 <= j < |arg| ==> block[j] == mem[at + j] == arg[j];
    if |arg| < SCAN {
      var rest := w[|arg|..];
      assert w == arg + rest && rest[0] == block[|arg|];
      UpToZeroAfter(arg, rest);
      ScanStops(rest);
      assert Seen(arg) == arg;
    } else {
      assert w == arg[..SCAN];
      UpToZeroAfter(w, []);
      ScanStops([]);
      assert w + [] == w;
    }
  }

  /** The strings that come through a scan, a decoding and an encoding as they were: UTF-8 without a
      leading byte-order mark, and within the scan bound, or past it by less than a U+FFFD at the
      end, which is what the decoder makes of its own cut bytes. */
  ghost predicate Survives(arg: Arg) {
    WellFormed(arg) && !(BOM <= arg) && (|arg| <= SCAN || (|arg| - 3 < SCAN && EndsReplaced(arg)))
  }

  lemma SurvivesExactly(arg: Arg)
    ensures Recode(Seen(arg)) == arg <==> Survives(arg)
  {
    hide Encode, Decode, EndsReplaced;
    if |arg| <= SCAN {
      assert Seen(arg) == arg;
      RecodeExactly(arg);
    } else {
      var cut := Seen(arg);
      assert BOM <= cut <==> BOM <= arg;
      if BOM <= cut {
        assert BOM + cut[3..] == cut;
        MarkIsLost(cut[3..], arg);
      } else if WellFormed(arg) {
        var cs :| arg == Encode(cs);
        CutExactly(cs, SCAN);
      }
    }
  }

  /** Unpacking gives the list back exactly when every argument survives. */
  lemma {:induction false} UnpackExactly(mem: seq<byte>, at: nat, args: seq<Arg>)
    requires ZeroFree(args) && at + |Packed(args)| <= |mem| && mem[at..at + |Packed(args)|] == Packed(args)
    ensures Unpacked(mem, at, |args|) == args <==>
            forall i :: 0 <= i < |args| ==> Survives(args[i])
    decreases |args|
  {
    hide UpToZero, Window, Seen, Survives, Recode;
    if args != [] {
      var a, rest := args[0], args[1..];
      var p := Packed(args);
      assert mem[at..at + |p|][..|a| + 1] == a + [0] && mem[at..at + |p|][|a| + 1..] == Packed(rest);
      assert mem[at..at + |a| + 1] == a + [0];
      assert mem[at + |a| + 1..at + |a| + 1 + |Packed(rest)|] == Packed(rest);
      ScanSees(mem, at, a);
      SurvivesExactly(a);
      UnpackExactly(mem, at + |a| + 1, rest);
      var arg := Recode(Seen(a));
      var u := Unpacked(mem, at, |args|);
      assert u[0] == arg && u[1..] == Unpacked(mem, at + |arg| + 1, |rest|);
      assert args == [a] + rest;
      assert u == args <==> arg == a && Unpacked(mem, at + |a| + 1, |rest|) == rest;
      AllOf(args);
    }
  }

  lemma AllOf(args: seq<Arg>)
    requires args != []
    ensures (forall i :: 0 <= i < |args| ==> Survives(args[i])) <==>
            Survives(args[0]) && forall i :: 0 <= i < |args[1..]| ==> Survives(args[1..][i])
  {
    hide Survives;
    assert forall i :: 1 <= i < |args| ==> args[i] == args[1..][i - 1];
  }

  lemma {:induction false} UnpackedZeroFree(mem: seq<byte>, at: nat, argc: nat)
    ensures ZeroFree(Unpacked(mem, at, argc))
    decreases argc
  {
    hide Encode, Decode;
    if argc != 0 {
      var seen := UpToZero(Window(mem, at, SCAN));
      NoNewZero(if BOM <= seen then seen[3..] else seen);
      var arg := Recode(seen);
      UnpackedZeroFree(mem, at + |arg| + 1, argc - 1);
    }
  }

  // ------------------------------------------------------------------ writing the block

  /** Where string `i` goes: after the count, the pointers and the strings before it. */
  function Place(base: nat, args: seq<Arg>, i: nat): (p: nat)
    requires i <= |args|
    ensures base + 4 + 4 * |args| <= p
  {
    if i == 0 then base + 4 + 4 * |args| else Place(base, args, i - 1) + |args[i - 1]| + 1
  }

  function PointerAt(base: nat, i: nat): (p: nat) {
    base + 4 + 4 * i
  }

  /** The memory after the count and the first `i` pointers and strings are written. */
  function Written(mem: seq<byte>, base: nat, args: seq<Arg>, i: nat): (m: seq<byte>)
    requires i <= |args| && Place(base, args, |args|) <= |mem|
    ensures |m| == |mem|
  {
    PlaceGrows(base, args, i, |args|);
    if i == 0 then Splice(mem, base, LE32(|args|))
    else
      PlaceGrows(base, args, i - 1, i);
      Splice(Splice(Written(mem, base, args, i - 1), PointerAt(base, i - 1), LE32(Place(base, args, i - 1))),
             Place(base, args, i - 1), args[i - 1])
  }

  lemma {:induction false} PlaceGrows(base: nat, args: seq<Arg>, i: nat, j: nat)
    requires i <= j <= |args|
    ensures Place(base, args, i) <= Place(base, args, j)
    ensures i < j ==> Place(base, args, i) + |args[i]| + 1 <= Place(base, args, j)
    decreases j
  {
    if i < j {
      PlaceGrows(base, args, i, j - 1);
    }
  }

  method WriteArgv(mem: array<byte>, base: nat, args: seq<Arg>)
    requires Place(base, args, |args|) <= mem.Length
    modifies mem
    ensures mem[..] == Written(old(mem[..]), base, args, |args|)
  {
    hide Splice, LE32;
    ghost var was := mem[..];
    PlaceGrows(base, args, 0, |args|);
    Put(mem, base, LE32(|args|));
    var at := base + 4 + 4 * |args|;
    for i := 0 to |args|
      invariant at == Place(base, args, i)
      invariant mem[..] == Written(was, base, args, i)
    {
      PlaceGrows(base, args, i, |args|);
      Put(mem, PointerAt(base, i), LE32(at));
      Put(mem, at, args[i]);
      at := at + |args[i]| + 1;
    }
  }

  // ------------------------------------------------------------------ reading it back

  /** What the program finds: follow each pointer to its terminator. */
  function Arguments(mem: seq<byte>, base: nat): (args: Option<seq<Arg>>) {
    if base + 4 > |mem| then None
    else
      var argc := Rd32(mem, base);
      if base + 4 + 4 * argc > |mem| then None
      else Some(seq(argc, i requires 0 <= i < argc => StringAt(mem, Rd32(mem, base + 4 + 4 * i))))
  }

  function StringAt(mem: seq<byte>, at: nat): (s: Arg) {
    UpToZero(Window(mem, at, |mem|))
  }

  /** String `j` is in place, its pointer points to it, and its terminator is there. */
  predicate Placed(m: seq<byte>, base: nat, args: seq<Arg>, j: nat)
    requires j < |args| && Place(base, args, |args|) <= |m|
  {
    PlaceGrows(base, args, j, |args|);
    var at := Place(base, args, j);
    && m[PointerAt(base, j)..PointerAt(base, j) + 4] == LE32(at)
    && m[at..at + |args[j]|] == args[j] && m[at + |args[j]|] == 0
  }

  /** A write above the pointer and beside the string leaves both. */
  lemma PlacedKept(m: seq<byte>, base: nat, args: seq<Arg>, j: nat, at: nat, bytes: seq<byte>)
    requires j < |args| && Place(base, args, |args|) <= |m| && at + |bytes| <= |m| && Placed(m, base, args, j)
    requires PointerAt(base, j) + 4 <= at
    requires at + |bytes| <= Place(base, args, j) || Place(base, args, j) + |args[j]| + 1 <= at
    ensures Placed(Splice(m, at, bytes), base, args, j)
  {
    hide Splice, LE32;
    PlaceGrows(base, args, j, |args|);
    var p := Place(base, args, j);
    SpliceKeeps(m, at, bytes, PointerAt(base, j), PointerAt(base, j) + 4);
    SpliceKeeps(m, at, bytes, p, p + |args[j]|);
    SpliceKeeps(m, at, bytes, p + |args[j]|, p + |args[j]| + 1);
    assert Splice(m, at, bytes)[p + |args[j]|..p + |args[j]| + 1][0] == m[p + |args[j]|..p + |args[j]| + 1][0];
  }

  lemma JustPlaced(m: seq<byte>, base: nat, args: seq<Arg>, j: nat)
    requires j < |args| && Place(base, args, |args|) <= |m| && ZeroRange(m, Place(base, args, j), Place(base, args, |args|))
    ensures Place(base, args, j) + |args[j]| < |m|
    ensures var at := Place(base, args, j);
            var m' := Splice(Splice(m, PointerAt(base, j), LE32(at)), at, args[j]);
            Placed(m', base, args, j) && ZeroRange(m', Place(base, args, j + 1), Place(base, args, |args|))
  {
    hide LE32;
    PlaceGrows(base, args, j, |args|);
    PlaceGrows(base, args, j + 1, |args|);
    var at := Place(base, args, j);
    var one := Splice(m, PointerAt(base, j), LE32(at));
    SpliceKeeps(one, at, args[j], PointerAt(base, j), PointerAt(base, j) + 4);
  }

  lemma CountWritten(mem: seq<byte>, base: nat, args: seq<Arg>)
    requires Place(base, args, |args|) <= |mem| && ZeroRange(mem, base, Place(base, args, |args|))
    ensures var m := Written(mem, base, args, 0);
            m[base..base + 4] == LE32(|args|) && ZeroRange(m, Place(base, args, 0), Place(base, args, |args|))
  {
    hide LE32;
    PlaceGrows(base, args, 0, |args|);
  }

  lemma {:induction false} WrittenPlaces(mem: seq<byte>, base: nat, args: seq<Arg>, i: nat)
    requires i <= |args| && Place(base, args, |args|) <= |mem| && ZeroRange(mem, base, Place(base, args, |args|))
    ensures var m := Written(mem, base, args, i);
            && m[base..base + 4] == LE32(|args|)
            && ZeroRange(m, Place(base, args, i), Place(base, args, |args|))
            && forall j :: 0 <= j < i ==> Placed(m, base, args, j)
    decreases i
  {
    hide LE32, Placed, Splice, Place;
    PlaceGrows(base, args, i, |args|);
    if i == 0 {
      hide ZeroRange;
      CountWritten(mem, base, args);
    } else {
      var k := i - 1;
      WrittenPlaces(mem, base, args, k);
      var m := Written(mem, base, args, k);
      PlaceGrows(base, args, k, |args|);
      var at := Place(base, args, k);
      var one := Splice(m, PointerAt(base, k), LE32(at));
      JustPlaced(m, base, args, k);
      forall j | 0 <= j < k ensures Placed(Splice(one, at, args[k]), base, args, j) {
        PlaceGrows(base, args, j, k);
        PlacedKept(m, base, args, j, PointerAt(base, k), LE32(at));
        PlacedKept(one, base, args, j, at, args[k]);
      }
      SpliceKeeps(m, PointerAt(base, k), LE32(at), base, base + 4);
      SpliceKeeps(one, at, args[k], base, base + 4);
    }
  }

  lemma PlacedReads(m: seq<byte>, base: nat, args: seq<Arg>, j: nat)
    requires j < |args| && 0 !in args[j] && |m| <= 0x1_0000_0000
    requires Place(base, args, |args|) <= |m| && Placed(m, base, args, j)
    ensures PointerAt(base, j) + 4 <= |m| && StringAt(m, Rd32(m, PointerAt(base, j))) == args[j]
  {
    hide LE32, Rd32, StringAt, Place;
    PlaceGrows(base, args, j, |args|);
    var at := Place(base, args, j);
    Rd32LE32(m, PointerAt(base, j), at);
    StringFound(m, at, args[j]);
  }

  lemma StringFound(m: seq<byte>, at: nat, arg: Arg)
    requires 0 !in arg && at + |arg| < |m| && m[at..at + |arg|] == arg && m[at + |arg|] == 0
    ensures StringAt(m, at) == arg
  {
    hide UpToZero;
    var rest := m[at + |arg|..];
    assert Window(m, at, |m|) == m[at..] == arg + rest;
    UpToZeroAfter(arg, rest);
    ScanStops(rest);
  }

  /** In zeroed memory the block reads back as the list that was written. */
  lemma BlockReadsBack(mem: seq<byte>, base: nat, args: seq<Arg>)
    requires ZeroFree(args) && |mem| <= 0x1_0000_0000
    requires Place(base, args, |args|) <= |mem| && ZeroRange(mem, base, Place(base, args, |args|))
    ensures Arguments(Written(mem, base, args, |args|), base) == Some(args)
  {
    hide LE32, Rd32, StringAt, Written, Placed;
    WrittenPlaces(mem, base, args, |args|);
    var m := Written(mem, base, args, |args|);
    PlaceGrows(base, args, 0, |args|);
    Rd32LE32(m, base, |args|);
    forall j | 0 <= j < |args| ensures base + 4 + 4 * j + 4 <= |m| && StringAt(m, Rd32(m, base + 4 + 4 * j)) == args[j] {
      PlacedReads(m, base, args, j);
    }
    var got := Arguments(m, base);
    assert got.Some? && |got.value| == |args|;
    assert forall j :: 0 <= j < |args| ==> got.value[j] == StringAt(m, Rd32(m, base + 4 + 4 * j));
    assert got.value == args;
  }

  /** The whole way: from the packed strings in the kernel's memory to the new image's memory, the
      program finds what was unpacked, and that is the list given to exec exactly when every argument
      survives. */
  lemma ArgvSurvives(kernel: seq<byte>, at: nat, args: seq<Arg>, mem: seq<byte>, base: nat)
    requires ZeroFree(args)
    requires at + |Packed(args)| <= |kernel| && kernel[at..at + |Packed(args)|] == Packed(args)
    requires var got := Unpacked(kernel, at, |args|);
             && |mem| <= 0x1_0000_0000 && Place(base, got, |got|) <= |mem|
             && ZeroRange(mem, base, Place(base, got, |got|))
    ensures var got := Unpacked(kernel, at, |args|);
            && Arguments(Written(mem, base, got, |got|), base) == Some(got)
            && (got == args <==> forall i :: 0 <= i < |args| ==> Survives(args[i]))
  {
    hide Unpacked, Arguments, Written, Place, Packed, Seen, ZeroRange, Survives;
    var got := Unpacked(kernel, at, |args|);
    UnpackedZeroFree(kernel, at, |args|);
    BlockReadsBack(mem, base, got);
    UnpackExactly(kernel, at, args);
  }
}
