/** The `cc` wrapper's two scans of one command line: the classifier, and the walk that links. */
module CcScan {
  import opened Bytes

  type Token = string

  // ------------------------------------------------------------------ the flag tables

  predicate CompileValue(a: Token) {
    a in {"-I", "-D", "-U", "-isystem", "-include", "-imacros", "-MF", "-MT", "-MQ", "-x", "--param", "-std",
          "-Xclang", "-idirafter", "-iquote", "-isysroot", "--sysroot"}
  }

  predicate LinkValue(a: Token) {
    a in {"-L", "-l", "-Xlinker", "-u", "-z", "-T"}
  }

  predicate LinkFlag(a: Token) {
    a in {"-shared", "-static", "-rdynamic", "-pthread", "-nostdlib", "-nodefaultlibs", "-s"}
  }

  /** Compile-only flags and version probes. */
  predicate Probe(a: Token) {
    a in {"-c", "-E", "-S", "-M", "-MM", "-fsyntax-only",
          "--version", "-v", "-V", "-qversion", "-dumpversion", "-dumpmachine", "--help"}
  }

  /** Linker options whose value comes as the next token. */
  predicate WantsValue(p: string) {
    p in {"--version-script", "--dynamic-list", "--script", "-T", "-Map", "--retain-symbols-file", "--defsym", "-e",
          "--dynamic-linker", "--just-symbols"}
  }

  predicate SpuriousLib(a: Token) {
    a in {"-lm", "-lpthread", "-ldl", "-lrt", "-lc", "-lws2_32", "-lgcc", "-lgcc_s"}
  }

  predicate IsWl(a: Token) {
    "-Wl," <= a
  }

  predicate Dashed(a: Token) {
    "-" <= a
  }

  /** The tables do not overlap where the two scans test them in different orders. */
  lemma TablesApart(a: Token)
    ensures Probe(a) ==> Dashed(a) && a != "-o" && !CompileValue(a) && !LinkValue(a) && !IsWl(a) && a != "-Wl"
    ensures LinkValue(a) ==> Dashed(a) && !IsWl(a) && a != "-Wl" && a != "-o" && !CompileValue(a)
    ensures IsWl(a) ==> Dashed(a) && a != "-o" && !CompileValue(a)
    ensures LinkFlag(a) ==> Dashed(a) && a != "-Wl"
    ensures CompileValue(a) || a == "-o" ==> a != "-Wl"
    ensures CompileValue(a) ==> a != "-o"
  {
    if IsWl(a) {
      assert a[1] == 'W' && a[3] == ',';
    }
  }

  // ------------------------------------------------------------------ commas and paths

  function Split(s: string, at: char): (parts: seq<string>)
    ensures parts != []
  {
    if s == [] then [""]
    else
      var rest := Split(s[1..], at);
      if s[0] == at then [""] + rest else [[s[0]] + rest[0]] + rest[1..]
  }

  function Parts(list: string): (parts: seq<string>)
    ensures parts != []
  {
    Split(list, ',')
  }

  function LastPart(s: string): (p: string) {
    Parts(s)[|Parts(s)| - 1]
  }

  /** The parts without `-z relro`. */
  function DropRelro(parts: seq<string>): (r: seq<string>) {
    if parts == [] then []
    else if parts[0] == "-z" && |parts| > 1 && parts[1] == "relro" then DropRelro(parts[2..])
    else [parts[0]] + DropRelro(parts[1..])
  }

  /** The last component of a path that names something. */
  function Name(components: seq<string>): (name: string) {
    if components == [] then ""
    else
      var last := components[|components| - 1];
      if last == "" || last == "." then Name(components[..|components| - 1]) else last
  }

  /** Where the last dot is, or `|name|`. */
  function LastDot(name: string): (i: nat)
    ensures i <= |name|
    ensures if i < |name| then name[i] == '.' && '.' !in name[i + 1..] else '.' !in name
  {
    if name == [] then 0
    else
      var i := LastDot(name[1..]);
      if i < |name| - 1 then i + 1 else if name[0] == '.' then 0 else |name|
  }

  /** A path's last component without its suffix; a dot that starts or ends it begins none. */
  function Stem(path: Token): (stem: string) {
    var name := Name(Split(path, '/'));
    var i := LastDot(name);
    if 0 < i && i + 1 < |name| then name[..i] else name
  }

  /** The object a source is compiled to, in the work directory. */
  function Object(work: string, source: Token): (obj: Token) {
    work + "/" + Stem(source) + ".o"
  }

  // ------------------------------------------------------------------ the classifier

  datatype Class = Compile | Link | Source | Output

  function ClassOf(a: Token): (k: Class) {
    if a == "-o" then Output
    else if CompileValue(a) then Compile
    else if LinkValue(a) || IsWl(a) || LinkFlag(a) then Link
    else if Dashed(a) then Compile
    else Source
  }

  predicate TakesNext(a: Token) {
    a == "-o" || CompileValue(a) || LinkValue(a) || (IsWl(a) && WantsValue(LastPart(a[4..])))
  }

  /** How many tokens the head at `i` stands for. */
  function Width(argv: seq<Token>, i: nat): (w: nat)
    requires i < |argv|
    ensures 1 <= w && i + w <= |argv|
  {
    if TakesNext(argv[i]) && i + 1 < |argv| then 2 else 1
  }

  /** The tokens of one class, in order. */
  function Of(argv: seq<Token>, i: nat, k: Class): (r: seq<Token>)
    requires i <= |argv|
    decreases |argv| - i
  {
    if i == |argv| then []
    else
      var w := Width(argv, i);
      (if ClassOf(argv[i]) == k then argv[i..i + w] else []) + Of(argv, i + w, k)
  }

  /** The value of the last `-o`; a `-o` at the very end has none. */
  function OutputName(argv: seq<Token>, i: nat, sofar: Option<Token>): (r: Option<Token>)
    requires i <= |argv|
    decreases |argv| - i
  {
    if i == |argv| then sofar
    else
      var next := if argv[i] != "-o" then sofar else if i + 1 < |argv| then Some(argv[i + 1]) else None;
      OutputName(argv, i + Width(argv, i), next)
  }

  method Classify(argv: seq<Token>)
    returns (comp: seq<Token>, link: seq<Token>, inputs: seq<Token>, out: Option<Token>)
    ensures comp == Of(argv, 0, Compile) && link == Of(argv, 0, Link) && inputs == Of(argv, 0, Source)
    ensures out == OutputName(argv, 0, None)
  {
    hide Of, OutputName, ClassOf;
    comp, link, inputs, out := [], [], [], None;
    var i := 0;
    while i < |argv|
      invariant 0 <= i <= |argv|
      invariant comp + Of(argv, i, Compile) == Of(argv, 0, Compile)
      invariant link + Of(argv, i, Link) == Of(argv, 0, Link)
      invariant inputs + Of(argv, i, Source) == Of(argv, 0, Source)
      invariant OutputName(argv, i, out) == OutputName(argv, 0, None)
      decreases |argv| - i
    {
      var w, k := OneHead(argv, i);
      OfStep(argv, i, Compile, comp);
      OfStep(argv, i, Link, link);
      OfStep(argv, i, Source, inputs);
      OutputStep(argv, i, out);
      match k {
        case Output => out := if i + 1 < |argv| then Some(argv[i + 1]) else None;
        case Compile => comp := comp + argv[i..i + w];
        case Link => link := link + argv[i..i + w];
        case Source => inputs := inputs + argv[i..i + w];
      }
      i := i + w;
    }
    OfEnd(argv);
    OutputEnd(argv, out);
  }

  lemma {:induction false} OfUnfolds(argv: seq<Token>, i: nat, k: Class)
    requires i < |argv|
    ensures var w := Width(argv, i);
            Of(argv, i, k) == (if ClassOf(argv[i]) == k then argv[i..i + w] else []) + Of(argv, i + w, k)
  {
    hide ClassOf, Width;
  }

  lemma {:induction false} OfStep(argv: seq<Token>, i: nat, k: Class, sofar: seq<Token>)
    requires i < |argv|
    ensures var w := Width(argv, i);
            sofar + Of(argv, i, k) == (if ClassOf(argv[i]) == k then sofar + argv[i..i + w] else sofar) + Of(argv, i + w, k)
  {
    hide ClassOf, Width, Of;
    OfUnfolds(argv, i, k);
  }

  lemma OfEnd(argv: seq<Token>)
    ensures forall k :: Of(argv, |argv|, k) == []
  {
  }

  lemma OutputStep(argv: seq<Token>, i: nat, sofar: Option<Token>)
    requires i < |argv|
    ensures OutputName(argv, i, sofar)
         == OutputName(argv, i + Width(argv, i),
                       if ClassOf(argv[i]) != Output then sofar else if i + 1 < |argv| then Some(argv[i + 1]) else None)
  {
    hide Width;
  }

  lemma OutputEnd(argv: seq<Token>, sofar: Option<Token>)
    ensures OutputName(argv, |argv|, sofar) == sofar
  {
  }

  /** One head of the classifier: its class and its width, tested in the classifier's order. */
  method OneHead(argv: seq<Token>, i: nat) returns (w: nat, k: Class)
    requires i < |argv|
    ensures w == Width(argv, i) && k == ClassOf(argv[i])
  {
    hide CompileValue, LinkValue, LinkFlag, WantsValue, LastPart;
    var a := argv[i];
    TablesApart(a);
    var more := i + 1 < |argv|;
    if a == "-o" {
      return if more then 2 else 1, Output;
    } else if CompileValue(a) {
      return if more then 2 else 1, Compile;
    } else if LinkValue(a) {
      return if more then 2 else 1, Link;
    } else if IsWl(a) {
      return if WantsValue(LastPart(a[4..])) && more then 2 else 1, Link;
    } else if LinkFlag(a) {
      return 1, Link;
    } else if Dashed(a) {
      return 1, Compile;
    }
    return 1, Source;
  }

  /** The tokens of all classes together. */
  ghost function Bag(argv: seq<Token>, i: nat): (b: multiset<Token>)
    requires i <= |argv|
  {
    multiset(Of(argv, i, Compile)) + multiset(Of(argv, i, Link)) + multiset(Of(argv, i, Source))
    + multiset(Of(argv, i, Output))
  }

  lemma {:induction false} BagStep(argv: seq<Token>, i: nat)
    requires i < |argv|
    ensures Bag(argv, i) == multiset(argv[i..i + Width(argv, i)]) + Bag(argv, i + Width(argv, i))
  {
    hide Width, Of, ClassOf;
    var j := i + Width(argv, i);
    CountStep(argv, i, Compile);
    CountStep(argv, i, Link);
    CountStep(argv, i, Source);
    CountStep(argv, i, Output);
    Regroup(ClassOf(argv[i]), multiset(argv[i..j]), multiset(Of(argv, j, Compile)), multiset(Of(argv, j, Link)),
            multiset(Of(argv, j, Source)), multiset(Of(argv, j, Output)));
  }

  lemma Regroup<T>(k: Class, x: multiset<T>, a: multiset<T>, b: multiset<T>, c: multiset<T>, d: multiset<T>)
    ensures ((if k == Compile then x else multiset{}) + a) + ((if k == Link then x else multiset{}) + b)
          + ((if k == Source then x else multiset{}) + c) + ((if k == Output then x else multiset{}) + d)
         == x + (a + b + c + d)
  {
  }

  lemma {:induction false} CountStep(argv: seq<Token>, i: nat, k: Class)
    requires i < |argv|
    ensures multiset(Of(argv, i, k))
         == (if ClassOf(argv[i]) == k then multiset(argv[i..i + Width(argv, i)]) else multiset{})
            + multiset(Of(argv, i + Width(argv, i), k))
  {
    hide ClassOf, Width, Of;
    OfUnfolds(argv, i, k);
  }

  /** Every token of the line is in exactly one class. */
  lemma {:induction false} ClassesPartition(argv: seq<Token>, i: nat)
    requires i <= |argv|
    ensures Bag(argv, i) == multiset(argv[i..])
    decreases |argv| - i
  {
    hide Width, Bag;
    if i == |argv| {
      BagEmpty(argv);
    } else {
      var w := Width(argv, i);
      ClassesPartition(argv, i + w);
      BagStep(argv, i);
      assert argv[i..] == argv[i..i + w] + argv[i + w..];
    }
  }

  lemma BagEmpty(argv: seq<Token>)
    ensures Bag(argv, |argv|) == multiset{}
  {
    OfEnd(argv);
  }

  // ------------------------------------------------------------------ the link walk

  /** How far the walk goes on from the head at `i`. A bare `-Wl` takes the token after it apart. */
  function Stride(argv: seq<Token>, i: nat): (w: nat)
    requires i < |argv|
    ensures 1 <= w
  {
    var a := argv[i];
    if a == "-o" || CompileValue(a) then 2
    else if Probe(a) then 1
    else if a == "-Wl" then if i + 2 < |argv| && WantsValue(LastPart(argv[i + 1])) then 3 else 2
    else if IsWl(a) then if i + 1 < |argv| && WantsValue(LastPart(a[4..])) then 2 else 1
    else if LinkValue(a) && i + 1 < |argv| then 2
    else 1
  }

  predicate ObjectLike(a: Token) {
    EndsWith(a, ".o") || EndsWith(a, ".a") || EndsWith(a, ".so") || Contains(a, ".so.")
  }

  predicate EndsWith(a: string, e: string) {
    |e| <= |a| && a[|a| - |e|..] == e
  }

  predicate Contains(a: string, e: string)
    requires e != []
  {
    |e| <= |a| && (e <= a || Contains(a[1..], e))
  }

  predicate IsInput(a: Token) {
    !(a == "-o" || CompileValue(a) || Probe(a) || a == "-Wl" || IsWl(a) || LinkValue(a) || LinkFlag(a) || Dashed(a))
  }

  /** The expansion of a comma list, and the value that follows when its last part wants one. */
  function Expanded(argv: seq<Token>, list: string, next: nat): (r: seq<Token>) {
    DropRelro(Parts(list)) + if next < |argv| && WantsValue(LastPart(list)) then [argv[next]] else []
  }

  /** What the head at `i` gives the linker. */
  function Translated(argv: seq<Token>, i: nat, work: string): (r: seq<Token>)
    requires i < |argv|
  {
    var a := argv[i];
    if a == "-o" || CompileValue(a) || Probe(a) then []
    else if a == "-Wl" then if i + 1 < |argv| then Expanded(argv, argv[i + 1], i + 2) else []
    else if IsWl(a) then Expanded(argv, a[4..], i + 1)
    else if LinkValue(a) then
      if i + 1 == |argv| then [a]
      else if a == "-z" && argv[i + 1] == "relro" then []
      else [a, argv[i + 1]]
    else if LinkFlag(a) then []
    else if Dashed(a) then if "-L" <= a || ("-l" <= a && !SpuriousLib(a)) then [a] else []
    else [if ObjectLike(a) then a else Object(work, a)]
  }

  function Next(argv: seq<Token>, i: nat): (j: nat)
    requires i < |argv|
    ensures i < j <= |argv|
  {
    Min(i + Stride(argv, i), |argv|)
  }

  /** The linker's arguments: the translations of the heads, in order. */
  function LinkLine(argv: seq<Token>, i: nat, work: string): (r: seq<Token>)
    requires i <= |argv|
    decreases |argv| - i
  {
    if i == |argv| then [] else Translated(argv, i, work) + LinkLine(argv, Next(argv, i), work)
  }

  /** The heads the walk takes for inputs. */
  function LinkInputs(argv: seq<Token>, i: nat): (r: seq<Token>)
    requires i <= |argv|
    decreases |argv| - i
  {
    if i == |argv| then []
    else (if IsInput(argv[i]) then [argv[i]] else []) + LinkInputs(argv, Next(argv, i))
  }

  // ------------------------------------------------------------------ agreement

  /** No head of the line is a bare `-Wl`. */
  predicate NoBareWl(argv: seq<Token>, i: nat)
    requires i <= |argv|
    decreases |argv| - i
  {
    i == |argv| || (argv[i] != "-Wl" && NoBareWl(argv, i + Width(argv, i)))
  }

  lemma SameStep(argv: seq<Token>, i: nat)
    requires i < |argv| && argv[i] != "-Wl"
    ensures Next(argv, i) == i + Width(argv, i)
    ensures IsInput(argv[i]) <==> ClassOf(argv[i]) == Source
    ensures IsInput(argv[i]) ==> Width(argv, i) == 1
  {
    hide CompileValue, LinkValue, LinkFlag, Probe, WantsValue, Dashed, LastPart;
    TablesApart(argv[i]);
  }

  /** On a line without a bare `-Wl`, the walk takes for inputs exactly the tokens the classifier
      calls inputs, in the same order. */
  lemma {:induction false} ScannersAgree(argv: seq<Token>, i: nat)
    requires i <= |argv| && NoBareWl(argv, i)
    ensures LinkInputs(argv, i) == Of(argv, i, Source)
    decreases |argv| - i
  {
    hide ClassOf, Width, IsInput, Next, Of, LinkInputs;
    OfEnd(argv);
    InputsEnd(argv);
    if i < |argv| {
      SameStep(argv, i);
      ScannersAgree(argv, Next(argv, i));
      OfUnfolds(argv, i, Source);
      InputsUnfold(argv, i);
      if IsInput(argv[i]) {
        assert argv[i..i + 1] == [argv[i]];
      }
    }
  }

  lemma {:induction false} InputsUnfold(argv: seq<Token>, i: nat)
    requires i < |argv|
    ensures LinkInputs(argv, i) == (if IsInput(argv[i]) then [argv[i]] else []) + LinkInputs(argv, Next(argv, i))
  {
    hide IsInput, Next;
  }

  lemma InputsEnd(argv: seq<Token>)
    ensures LinkInputs(argv, |argv|) == []
  {
  }

  /** After a bare `-Wl` from which both scans go on at the same token, they agree exactly when the
      token it takes apart is no input: the classifier looks at that token, the walk does not. */
  lemma {:induction false} BareWlExactly(argv: seq<Token>, i: nat)
    requires i + 1 < |argv| && argv[i] == "-Wl"
    requires Next(argv, i) == i + 1 + Width(argv, i + 1) && NoBareWl(argv, Next(argv, i))
    ensures LinkInputs(argv, i) == Of(argv, i, Source) <==> ClassOf(argv[i + 1]) != Source
  {
    hide ClassOf, Width, IsInput, Next, Of, LinkInputs, NoBareWl;
    BareWlIsFlag(argv, i);
    OfUnfolds(argv, i, Source);
    OfUnfolds(argv, i + 1, Source);
    InputsUnfold(argv, i);
    ScannersAgree(argv, Next(argv, i));
  }

  lemma BareWlIsFlag(argv: seq<Token>, i: nat)
    requires i < |argv| && argv[i] == "-Wl"
    ensures ClassOf(argv[i]) == Compile && Width(argv, i) == 1 && !IsInput(argv[i])
  {
  }

  // ------------------------------------------------------------------ order

  /** The heads from `i` on include one at `k`. */
  predicate HeadAt(argv: seq<Token>, i: nat, k: nat)
    requires i <= |argv|
    decreases |argv| - i
  {
    i == k || (i < |argv| && HeadAt(argv, Next(argv, i), k))
  }

  /** What the heads before `k` give. */
  function LinkUpTo(argv: seq<Token>, i: nat, k: nat, work: string): (r: seq<Token>)
    requires i <= |argv|
    decreases |argv| - i
  {
    if i == |argv| || i >= k then [] else Translated(argv, i, work) + LinkUpTo(argv, Next(argv, i), k, work)
  }

  /** At every head the line splits: what comes before it is translated before it. */
  lemma {:induction false} SplitsAtHeads(argv: seq<Token>, i: nat, k: nat, work: string)
    requires i <= |argv| && k <= |argv| && HeadAt(argv, i, k)
    ensures LinkLine(argv, i, work) == LinkUpTo(argv, i, k, work) + LinkLine(argv, k, work)
    decreases |argv| - i
  {
    hide Translated, Next;
    if i != k {
      HeadsGoOn(argv, Next(argv, i), k);
      SplitsAtHeads(argv, Next(argv, i), k, work);
    }
  }

  lemma {:induction false} HeadsGoOn(argv: seq<Token>, i: nat, k: nat)
    requires i <= |argv| && HeadAt(argv, i, k)
    ensures i <= k
    decreases |argv| - i
  {
    hide Next;
    if i != k {
      HeadsGoOn(argv, Next(argv, i), k);
    }
  }

  const WHOLE := "-Wl,--whole-archive"
  const NO_WHOLE := "-Wl,--no-whole-archive"

  predicate Archive(a: Token) {
    IsInput(a) && EndsWith(a, ".a")
  }

  lemma {:induction false} ArchivesPass(argv: seq<Token>, i: nat, m: nat, work: string)
    requires i + m <= |argv| && forall j :: i <= j < i + m ==> Archive(argv[j])
    ensures LinkLine(argv, i, work) == argv[i..i + m] + LinkLine(argv, i + m, work)
    decreases m
  {
    hide Archive, Translated, Next, LinkLine;
    if m == 0 {
      assert argv[i..i] == [];
    } else {
      LineSteps(argv, i, work);
      ArchiveStep(argv, i, work);
      ArchivesPass(argv, i + 1, m - 1, work);
      assert argv[i..i + m] == [argv[i]] + argv[i + 1..i + 1 + (m - 1)];
    }
  }

  lemma ArchiveStep(argv: seq<Token>, i: nat, work: string)
    requires i < |argv| && Archive(argv[i])
    ensures Translated(argv, i, work) == [argv[i]] && Next(argv, i) == i + 1
  {
    hide CompileValue, LinkValue, LinkFlag, Probe, WantsValue, Dashed, LastPart, IsWl;
  }

  lemma {:induction false} SplitOne(s: string, at: char)
    requires at !in s
    ensures Split(s, at) == [s]
    decreases |s|
  {
    if s != [] {
      SplitOne(s[1..], at);
      assert [s[0]] + s[1..] == s;
    }
  }

  lemma BracketStep(argv: seq<Token>, i: nat, option: string, work: string)
    requires i < |argv| && argv[i] == "-Wl," + option && ',' !in option
    requires !WantsValue(option)
    ensures Translated(argv, i, work) == [option] && Next(argv, i) == i + 1
  {
    hide CompileValue, LinkValue, LinkFlag, Probe, WantsValue, Dashed;
    var a := argv[i];
    assert a[4..] == option && a[3] == ',';
    assert IsWl(a) && a != "-Wl";
    TablesApart(a);
    SplitOne(option, ',');
    assert DropRelro([option]) == [option];
  }

  /** The archives of a whole-archive bracket stay between its two options, wherever it stands. */
  lemma BracketsHold(argv: seq<Token>, i: nat, m: nat, work: string)
    requires i + m + 2 <= |argv| && argv[i] == WHOLE && argv[i + m + 1] == NO_WHOLE
    requires forall j :: i < j <= i + m ==> Archive(argv[j])
    ensures LinkLine(argv, i, work)
         == ["--whole-archive"] + argv[i + 1..i + m + 1] + ["--no-whole-archive"] + LinkLine(argv, i + m + 2, work)
  {
    hide Archive, Translated, Next, LinkLine;
    LineSteps(argv, i, work);
    LineSteps(argv, i + m + 1, work);
    assert WHOLE == "-Wl," + "--whole-archive" && NO_WHOLE == "-Wl," + "--no-whole-archive";
    BracketStep(argv, i, "--whole-archive", work);
    ArchivesPass(argv, i + 1, m, work);
    BracketStep(argv, i + m + 1, "--no-whole-archive", work);
  }

  // ------------------------------------------------------------------ what reaches the linker

  const EXPORT := "--export-dynamic"

  /** `-rdynamic` is a link flag, and link flags are dropped before the case that would translate it. */
  lemma RdynamicDropped(argv: seq<Token>, i: nat, work: string)
    requires i < |argv| && argv[i] == "-rdynamic"
    ensures Translated(argv, i, work) == [] && Next(argv, i) == i + 1
  {
    hide CompileValue, LinkValue, Probe;
    FlagTables();
    assert argv[i][1] == 'r';
  }

  lemma FlagTables()
    ensures LinkFlag("-rdynamic") && !CompileValue("-rdynamic") && !LinkValue("-rdynamic") && !Probe("-rdynamic")
  {
  }

  lemma {:induction false} RelroOnly(parts: seq<string>, p: string)
    requires p != "-z" && p != "relro"
    ensures p in DropRelro(parts) <==> p in parts
    decreases |parts|
  {
    if parts != [] {
      if parts[0] == "-z" && |parts| > 1 && parts[1] == "relro" {
        RelroOnly(parts[2..], p);
        assert parts == [parts[0], parts[1]] + parts[2..];
      } else {
        RelroOnly(parts[1..], p);
      }
    }
  }

  /** The heads that put the option on the line: a comma list with that part or followed by it as a
      value, or a link option with it as its value. */
  predicate Exports(argv: seq<Token>, i: nat)
    requires i < |argv|
  {
    var a := argv[i];
    if a == "-Wl" then i + 1 < |argv| && ListExports(argv, argv[i + 1], i + 2)
    else if IsWl(a) then ListExports(argv, a[4..], i + 1)
    else LinkValue(a) && i + 1 < |argv| && argv[i + 1] == EXPORT
  }

  predicate ListExports(argv: seq<Token>, list: string, next: nat) {
    EXPORT in Parts(list) || (next < |argv| && WantsValue(LastPart(list)) && argv[next] == EXPORT)
  }

  lemma ExportsExactly(argv: seq<Token>, i: nat, work: string)
    requires i < |argv|
    ensures EXPORT in Translated(argv, i, work) <==> Exports(argv, i)
  {
    hide CompileValue, LinkFlag, Probe, WantsValue, LastPart, DropRelro, SpuriousLib, ObjectLike;
    var a := argv[i];
    TablesApart(a);
    assert EXPORT[0] == '-' && EXPORT[1] == '-';
    assert "-L"[1] == 'L' && "-l"[1] == 'l';
    if a == "-Wl" && i + 1 < |argv| {
      RelroOnly(Parts(argv[i + 1]), EXPORT);
    } else if IsWl(a) {
      RelroOnly(Parts(a[4..]), EXPORT);
    } else if IsInput(a) {
      var obj := Object(work, a);
      assert obj[|obj| - 1] == 'o';
    }
  }

  /** Some head from `i` on puts the option on the line. */
  predicate SomeExports(argv: seq<Token>, i: nat)
    requires i <= |argv|
    decreases |argv| - i
  {
    i < |argv| && (Exports(argv, i) || SomeExports(argv, Next(argv, i)))
  }

  /** The linker is told to export its symbols exactly when a `-Wl` list or a link option says so in
      the linker's own words: no `-rdynamic` does. */
  lemma {:induction false} ExportedExactly(argv: seq<Token>, i: nat, work: string)
    requires i <= |argv|
    ensures EXPORT in LinkLine(argv, i, work) <==> SomeExports(argv, i)
    decreases |argv| - i
  {
    hide Translated, Next, Exports, LinkLine;
    WalkEnds(argv, work);
    if i < |argv| {
      LineSteps(argv, i, work);
      ExportsExactly(argv, i, work);
      ExportedExactly(argv, Next(argv, i), work);
    }
  }

  /** A flag of the compiler's does not reach the linker, but for a path or a library joined to its
      option, which reaches both unless the port has the library already. */
  lemma CompileFlagsStay(argv: seq<Token>, i: nat, work: string)
    requires i < |argv| && argv[i] != "-Wl" && ClassOf(argv[i]) == Compile
    ensures Translated(argv, i, work) == if Joined(argv[i]) then [argv[i]] else []
  {
    hide LinkFlag, LinkValue, WantsValue, LastPart, ObjectLike, Expanded;
    TablesApart(argv[i]);
  }

  predicate Joined(a: Token) {
    !CompileValue(a) && !Probe(a) && ("-L" <= a || ("-l" <= a && !SpuriousLib(a)))
  }

  // ------------------------------------------------------------------ a shared object

  predicate Shared(argv: seq<Token>, i: nat)
    requires i <= |argv|
    decreases |argv| - i
  {
    i < |argv| && (argv[i] == "-shared" || Shared(argv, Next(argv, i)))
  }

  const NO_UNDEFINED := "--no-undefined"

  function Dropped(line: seq<Token>): (r: seq<Token>) {
    if line == [] then []
    else (if line[0] == NO_UNDEFINED then [] else [line[0]]) + Dropped(line[1..])
  }

  /** What the linker is given: a shared object may have undefined symbols. */
  function Final(argv: seq<Token>, work: string): (r: seq<Token>) {
    if Shared(argv, 0) then Dropped(LinkLine(argv, 0, work)) else LinkLine(argv, 0, work)
  }

  lemma {:induction false} DroppedBoth(a: seq<Token>, b: seq<Token>)
    ensures Dropped(a + b) == Dropped(a) + Dropped(b)
    decreases |a|
  {
    if a == [] {
      assert a + b == b;
    } else {
      assert (a + b)[1..] == a[1..] + b;
      DroppedBoth(a[1..], b);
    }
  }

  lemma {:induction false} NothingDropped(a: seq<Token>)
    requires NO_UNDEFINED !in a
    ensures Dropped(a) == a
    decreases |a|
  {
    if a != [] {
      NothingDropped(a[1..]);
    }
  }

  /** In a whole link, shared or not, the archives of a whole-archive bracket reach the linker between
      its two options, after everything the heads before it give and before everything after. */
  lemma BracketsReach(argv: seq<Token>, i: nat, m: nat, work: string)
    requires i + m + 2 <= |argv| && argv[i] == WHOLE && argv[i + m + 1] == NO_WHOLE
    requires HeadAt(argv, 0, i) && forall j :: i < j <= i + m ==> Archive(argv[j])
    ensures var before, after := LinkUpTo(argv, 0, i, work), LinkLine(argv, i + m + 2, work);
            var bracket := ["--whole-archive"] + argv[i + 1..i + m + 1] + ["--no-whole-archive"];
            Final(argv, work) == if Shared(argv, 0) then Dropped(before) + bracket + Dropped(after)
                                 else before + bracket + after
  {
    hide LinkUpTo, LinkLine, Dropped, HeadAt, Shared, Archive;
    var before, after := LinkUpTo(argv, 0, i, work), LinkLine(argv, i + m + 2, work);
    var bracket := ["--whole-archive"] + argv[i + 1..i + m + 1] + ["--no-whole-archive"];
    SplitsAtHeads(argv, 0, i, work);
    BracketsHold(argv, i, m, work);
    assert LinkLine(argv, 0, work) == before + bracket + after;
    DroppedBoth(before + bracket, after);
    DroppedBoth(before, bracket);
    assert NO_UNDEFINED !in bracket by { ArchivesStay(argv, i, m); }
    NothingDropped(bracket);
  }

  lemma ArchivesStay(argv: seq<Token>, i: nat, m: nat)
    requires i + m + 2 <= |argv| && forall j :: i < j <= i + m ==> Archive(argv[j])
    ensures NO_UNDEFINED !in argv[i + 1..i + m + 1]
  {
    hide CompileValue, LinkValue, LinkFlag, Probe, EndsWith;
    assert Dashed(NO_UNDEFINED);
  }

  // ------------------------------------------------------------------ the walk itself

  /** The sources among the inputs, in order. */
  function Sources(argv: seq<Token>, i: nat): (r: seq<Token>)
    requires i <= |argv|
    decreases |argv| - i
  {
    if i == |argv| then []
    else (if IsInput(argv[i]) && !ObjectLike(argv[i]) then [argv[i]] else []) + Sources(argv, Next(argv, i))
  }

  /** The object files after compiling some sources in order, and whose code is in each. */
  function Built(work: string, compiled: seq<Token>): (files: map<Token, Token>) {
    if compiled == [] then map[]
    else
      var last := compiled[|compiled| - 1];
      Built(work, compiled[..|compiled| - 1])[Object(work, last) := last]
  }

  lemma ObjectsApart(work: string, s: Token, t: Token)
    ensures Object(work, s) == Object(work, t) <==> Stem(s) == Stem(t)
  {
    hide Stem;
    var n := |work| + 1;
    assert forall x :: Object(work, x)[n..|Object(work, x)| - 2] == Stem(x);
  }

  /** No two of the sources have one stem. */
  ghost predicate StemsApart(sources: seq<Token>) {
    forall s, t :: s in sources && t in sources && Stem(s) == Stem(t) ==> s == t
  }

  lemma {:induction false} LastBuilt(work: string, compiled: seq<Token>, s: Token)
    requires s in compiled
    ensures Object(work, s) in Built(work, compiled)
    ensures var u := Built(work, compiled)[Object(work, s)]; u in compiled && Stem(u) == Stem(s)
    decreases |compiled|
  {
    hide Stem, Object;
    var n := |compiled| - 1;
    var last := compiled[n];
    ObjectsApart(work, s, last);
    if Stem(s) != Stem(last) {
      assert s in compiled[..n];
      LastBuilt(work, compiled[..n], s);
    }
  }

  /** Each source's code is in the object the line names for it. */
  ghost predicate Holds(work: string, compiled: seq<Token>) {
    var files := Built(work, compiled);
    forall s :: s in compiled ==> Object(work, s) in files && files[Object(work, s)] == s
  }

  /** Every source's code is in the object the line names for it exactly when no two sources have one
      stem: of two that do, the one compiled later is linked in the other's place. */
  lemma {:induction false} EverySourceLinked(work: string, compiled: seq<Token>)
    ensures Holds(work, compiled) <==> StemsApart(compiled)
  {
    hide Stem, Object, Built;
    var files := Built(work, compiled);
    forall s | s in compiled
      ensures Object(work, s) in files && files[Object(work, s)] in compiled && Stem(files[Object(work, s)]) == Stem(s)
    {
      LastBuilt(work, compiled, s);
    }
    forall s, t | s in compiled && t in compiled && Stem(s) == Stem(t)
      ensures Object(work, s) == Object(work, t)
    {
      ObjectsApart(work, s, t);
    }
  }

  lemma {:induction false} LastComponent(dir: string, file: string)
    requires '/' !in file
    ensures var parts := Split(dir + "/" + file, '/'); |parts| > 1 && parts[|parts| - 1] == file
    decreases |dir|
  {
    var path := dir + "/" + file;
    if dir == [] {
      assert path[1..] == file;
      SplitOne(file, '/');
    } else {
      assert path[1..] == dir[1..] + "/" + file;
      LastComponent(dir[1..], file);
    }
  }

  lemma StemInDirectory(dir: string, file: string)
    requires '/' !in file && file != "" && file != "."
    ensures Stem(dir + "/" + file) == Stem(file)
  {
    hide Split, LastDot;
    LastComponent(dir, file);
    SplitOne(file, '/');
  }

  /** Files of one name in two directories have one object, which holds only one of them. */
  lemma OneObject(work: string, dir: string, other: string, file: string)
    requires dir != other && '/' !in file && file != "" && file != "."
    ensures !Holds(work, [dir + "/" + file, other + "/" + file])
  {
    hide Stem, Holds;
    var s, t := dir + "/" + file, other + "/" + file;
    StemInDirectory(dir, file);
    StemInDirectory(other, file);
    EverySourceLinked(work, [s, t]);
    assert s in [s, t] && t in [s, t];
    assert s[..|s| - |file| - 1] == dir && t[..|t| - |file| - 1] == other;
  }

  /** A bare `-Wl` with nothing after it. */
  predicate Dangling(argv: seq<Token>, i: nat)
    requires i <= |argv|
    decreases |argv| - i
  {
    i < |argv| && ((argv[i] == "-Wl" && i + 1 == |argv|) || Dangling(argv, Next(argv, i)))
  }

  method Expand(argv: seq<Token>, list: string, next: nat) returns (args: seq<Token>, after: nat)
    ensures args == Expanded(argv, list, next)
    ensures after == if next < |argv| && WantsValue(LastPart(list)) then next + 1 else next
  {
    hide WantsValue;
    var parts := Parts(list);
    args, after := [], next;
    var j := 0;
    while j < |parts|
      invariant 0 <= j <= |parts|
      invariant j < |parts| ==> after == next && args + DropRelro(parts[j..]) == DropRelro(parts)
      invariant j == |parts| ==> args == Expanded(argv, list, next)
      invariant j == |parts| ==> after == if next < |argv| && WantsValue(LastPart(list)) then next + 1 else next
    {
      var p := parts[j];
      if p == "-z" && j + 1 < |parts| && parts[j + 1] == "relro" {
        assert parts[j..][2..] == parts[j + 2..];
        RelroWantsNothing();
        j := j + 2;
      } else {
        assert parts[j..][1..] == parts[j + 1..];
        args := args + [p];
        if WantsValue(p) && j == |parts| - 1 && next < |argv| {
          args := args + [argv[next]];
          after := next + 1;
        }
        j := j + 1;
      }
    }
  }

  lemma RelroWantsNothing()
    ensures !WantsValue("relro")
  {
  }

  /** A head that is no input: what it gives the linker, and where the next head is. */
  method OneFlag(argv: seq<Token>, i: nat, work: string) returns (args: seq<Token>, next: nat)
    requires i < |argv| && !IsInput(argv[i]) && !(argv[i] == "-Wl" && i + 1 == |argv|)
    ensures args == Translated(argv, i, work) && Min(next, |argv|) == Next(argv, i)
  {
    hide CompileValue, LinkValue, LinkFlag, Probe, WantsValue, LastPart, Expanded, SpuriousLib;
    var a := argv[i];
    TablesApart(a);
    if a == "-o" || CompileValue(a) {
      return [], i + 2;
    }
    if Probe(a) {
      return [], i + 1;
    }
    if a == "-Wl" {
      args, next := Expand(argv, argv[i + 1], i + 2);
      return;
    }
    if IsWl(a) {
      args, next := Expand(argv, a[4..], i + 1);
      return;
    }
    if LinkValue(a) {
      if a == "-z" && i + 1 < |argv| && argv[i + 1] == "relro" {
        return [], i + 2;
      }
      if i + 1 < |argv| {
        return [a, argv[i + 1]], i + 2;
      }
      return [a], i + 1;
    }
    if LinkFlag(a) {
      return [], i + 1;
    }
    if "-L" <= a || ("-l" <= a && !SpuriousLib(a)) {
      return [a], i + 1;
    }
    return [], i + 1;
  }

  /** What the walk remembers: each source it compiled, once, under the object it made. */
  ghost predicate Noted(memo: map<Token, Token>, compiled: seq<Token>, compiles: Token -> bool, work: string) {
    && NoDup(compiled) && (forall s :: s in compiled <==> s in memo)
    && forall s :: s in memo ==> memo[s] == Object(work, s) && compiles(s)
  }

  /** One source: compiled unless it was, and its object. */
  method Take(a: Token, memo: map<Token, Token>, compiled: seq<Token>, compiles: Token -> bool, work: string)
    returns (obj: Option<Token>, memo': map<Token, Token>, compiled': seq<Token>)
    requires Noted(memo, compiled, compiles, work)
    ensures obj == if compiles(a) then Some(Object(work, a)) else None
    ensures Noted(memo', compiled', compiles, work)
    ensures forall s :: s in compiled' <==> s in compiled || (s == a && compiles(a))
  {
    hide Object;
    if a in memo {
      return Some(memo[a]), memo, compiled;
    }
    if !compiles(a) {
      return None, memo, compiled;
    }
    return Some(Object(work, a)), memo[a := Object(work, a)], compiled + [a];
  }

  /** The walk: what the linker is given, or nothing when a source does not compile or a bare `-Wl`
      ends the line. Every source is compiled once, however often it is named; its code is in the
      object named for it exactly when no other has its stem. */
  method Walk(argv: seq<Token>, compiles: Token -> bool, work: string)
    returns (line: Option<seq<Token>>, shared: bool, compiled: seq<Token>)
    ensures line.Some? <==> !Dangling(argv, 0) && forall s :: s in Sources(argv, 0) ==> compiles(s)
    ensures line.Some? ==> line.value == Final(argv, work) && shared == Shared(argv, 0)
    ensures NoDup(compiled) && forall s :: s in compiled ==> s in Sources(argv, 0)
    ensures line.Some? ==> forall s :: s in Sources(argv, 0) ==> s in compiled
    ensures line.Some? ==> (Holds(work, compiled) <==> StemsApart(Sources(argv, 0)))
  {
    hide Translated, Next, IsInput, ObjectLike, LinkLine, Sources, Dangling, Shared, Noted, Dropped, Object, Stem, Holds;
    WalkEnds(argv, work);
    var args: seq<Token> := [];
    var memo: map<Token, Token> := map[];
    compiled, shared := [], false;
    assert Noted(memo, compiled, compiles, work) by { NotedNone(compiles, work); }
    var i := 0;
    while i < |argv|
      invariant args + LinkLine(argv, Min(i, |argv|), work) == LinkLine(argv, 0, work)
      invariant Dangling(argv, 0) == Dangling(argv, Min(i, |argv|))
      invariant Shared(argv, 0) == (shared || Shared(argv, Min(i, |argv|)))
      invariant forall s :: s in Sources(argv, 0) <==> s in compiled || s in Sources(argv, Min(i, |argv|))
      invariant Noted(memo, compiled, compiles, work)
      decreases |argv| - i
    {
      var a := argv[i];
      NextOfInput(argv, i, work);
      LineSteps(argv, i, work);
      assert args + LinkLine(argv, i, work) == args + Translated(argv, i, work) + LinkLine(argv, Next(argv, i), work);
      DanglingSteps(argv, i);
      SharedSteps(argv, i);
      SourcesStep(argv, i);
      if IsInput(a) {
        if ObjectLike(a) {
          args := args + [a];
        } else {
          var obj;
          obj, memo, compiled := Take(a, memo, compiled, compiles, work);
          if obj.None? {
            NotedSays(memo, compiled, compiles, work);
            return None, shared, compiled;
          }
          args := args + [obj.value];
        }
        i := i + 1;
      } else if a == "-Wl" && i + 1 == |argv| {
        NotedSays(memo, compiled, compiles, work);
        return None, shared, compiled;
      } else {
        shared := shared || a == "-shared";
        var more, next := OneFlag(argv, i, work);
        args := args + more;
        i := next;
      }
    }
    NotedSays(memo, compiled, compiles, work);
    EverySourceLinked(work, compiled);
    assert args + [] == args;
    line := Some(if shared then Dropped(args) else args);
  }

  lemma NotedNone(compiles: Token -> bool, work: string)
    ensures Noted(map[], [], compiles, work)
  {
  }

  lemma NotedSays(memo: map<Token, Token>, compiled: seq<Token>, compiles: Token -> bool, work: string)
    requires Noted(memo, compiled, compiles, work)
    ensures NoDup(compiled) && forall s :: s in compiled ==> compiles(s)
  {
  }

  lemma SharedSteps(argv: seq<Token>, i: nat)
    requires i < |argv|
    ensures Shared(argv, i) <==> argv[i] == "-shared" || Shared(argv, Next(argv, i))
    ensures IsInput(argv[i]) ==> argv[i] != "-shared"
  {
    hide Next, CompileValue, LinkValue, Probe;
  }

  lemma NextOfInput(argv: seq<Token>, i: nat, work: string)
    requires i < |argv|
    ensures IsInput(argv[i]) ==>
              Next(argv, i) == i + 1 && argv[i] != "-Wl"
              && Translated(argv, i, work) == [if ObjectLike(argv[i]) then argv[i] else Object(work, argv[i])]
  {
    hide CompileValue, LinkValue, LinkFlag, Probe, WantsValue, Dashed, LastPart, IsWl, ObjectLike;
  }

  lemma LineSteps(argv: seq<Token>, i: nat, work: string)
    requires i < |argv|
    ensures LinkLine(argv, i, work) == Translated(argv, i, work) + LinkLine(argv, Next(argv, i), work)
  {
    hide Translated, Next;
  }

  lemma DanglingSteps(argv: seq<Token>, i: nat)
    requires i < |argv|
    ensures Dangling(argv, i) <==> (argv[i] == "-Wl" && i + 1 == |argv|) || Dangling(argv, Next(argv, i))
  {
    hide Next;
  }

  lemma SourcesStep(argv: seq<Token>, i: nat)
    requires i < |argv|
    ensures forall s :: s in Sources(argv, i) <==>
              (s == argv[i] && IsInput(s) && !ObjectLike(s)) || s in Sources(argv, Next(argv, i))
  {
    hide Next, IsInput, ObjectLike;
  }

  lemma WalkEnds(argv: seq<Token>, work: string)
    ensures LinkLine(argv, |argv|, work) == [] && !Dangling(argv, |argv|) && !Shared(argv, |argv|)
    ensures Sources(argv, |argv|) == []
  {
  }
}
