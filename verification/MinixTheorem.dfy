/** A whole build, from the requests to the bytes and back. */
module MinixTheorem {
  import opened Bytes
  import opened MinixFs
  import opened MinixRead
  import opened MinixBuild
  import opened MinixImage

  /** What the image builder is asked for. Directories are named by their node: 0 is the root, and
      request `k` makes node `k + 1`, inode `k + 2`. */
  datatype Op = MkDir(name: seq<byte>, mode: nat) | AddFile(dir: nat, name: seq<byte>, bytes: seq<byte>) {
    function Target(): (d: nat) {
      if MkDir? then 0 else dir
    }

    function Made(ino: nat): (n: Node) {
      if MkDir? then SubDir(mode, ino) else File(bytes)
    }
  }

  /** A request that needs no more zones, inodes or directory slots than there are. */
  predicate Fits(g: Geo, t: Tree, op: Op) {
    && op.Target() < |t| && t[op.Target()].Dir? && |t[op.Target()].ents| < DIR_SLOTS
    && |t| < 8 * BLOCK * g.ImapBlocks()
    && Sized(op.Made(|t| + 1))
    && Place(g.FirstDataZone(), t) + Len(op.Made(|t| + 1)) <= g.total
  }

  function Step(g: Geo, t: Tree, op: Op): (u: Option<Tree>) {
    if Fits(g, t, op) then Some(Grown(t, op.Target(), op.name, op.Made(|t| + 1))) else None
  }

  /** The tree the requests describe, or nothing if one of them does not fit. */
  function TreeOf(g: Geo, ops: seq<Op>): (t: Option<Tree>)
    ensures t.Some? ==> |t.value| == |ops| + 1 && t.value[0].Dir?
  {
    if ops == [] then (if g.FirstDataZone() < g.total then Some([Root()]) else None)
    else match TreeOf(g, ops[..|ops| - 1])
      case None => None
      case Some(t) => Step(g, t, ops[|ops| - 1])
  }

  /** The zones of the directories made so far, by node. */
  ghost predicate Zoned(g: Geo, t: Tree, zones: map<nat, nat>) {
    && (forall d :: d in zones <==> 0 <= d < |t| && t[d].Dir?)
    && (forall d :: d in zones ==> zones[d] == Start(g, t, d))
  }

  method Perform(fs: FsImage, op: Op, zones: map<nat, nat>, ghost t: Tree) returns (made: Option<nat>)
    requires fs.Holds(t) && 0 < |t| && t[0].Dir? && Zoned(fs.g, t, zones) && op.Target() in zones
    modifies fs
    ensures made.Some? <==> Fits(fs.g, t, op)
    ensures made.Some? ==> fs.Holds(Grown(t, op.Target(), op.name, op.Made(|t| + 1)))
    ensures made.Some? && op.MkDir? ==> made.value == Place(fs.g.FirstDataZone(), t)
  {
    hide Rep, Marked, Place, Start;
    match op
    case MkDir(name, mode) => made := fs.MakeDirectory(zones[0], name, mode, t);
    case AddFile(dir, name, bytes) => made := fs.AddFile(zones[dir], name, bytes, t, dir);
  }

  /** Build an image, as the tool's `main` does: the root, then each request in turn. */
  method Build(total: nat, inodes: nat, ops: seq<Op>) returns (img: Option<seq<byte>>)
    requires Geo(total, inodes).Sane() && 0 < inodes
    ensures img.Some? <==> TreeOf(Geo(total, inodes), ops).Some?
    ensures img.Some? ==>
              var g := Geo(total, inodes);
              var t := TreeOf(g, ops).value;
              && ImageOf(img.value, g, t)
              && BitmapsOf(img.value, g, |t|, Place(g.FirstDataZone(), t) - g.FirstDataZone())
  {
    hide Place, Start, Grown, Fits, Zoned, ImageOf, BitmapsOf, Rep, Marked;
    ghost var g := Geo(total, inodes);
    var fs := new FsImage(total, inodes);
    var root := fs.CreateRoot();
    if root.None? {
      assert ops[..0] == [];
      NoneStays(g, ops, 0);
      return None;
    }
    var zones: map<nat, nat> := map[0 := root.value];
    ghost var t := [Root()];
    RootZoned(g, root.value);
    var i := 0;
    while i < |ops|
      invariant 0 <= i <= |ops| && fs.g == g && fresh(fs)
      invariant TreeOf(g, ops[..i]) == Some(t) && fs.Holds(t) && Zoned(g, t, zones)
    {
      var op := ops[i];
      assert ops[..i + 1][..i] == ops[..i] && ops[..i + 1][i] == op;
      ZonedTarget(g, t, zones, op);
      if op.Target() !in zones {
        NoneStays(g, ops, i + 1);
        return None;
      }
      var made := Perform(fs, op, zones, t);
      if made.None? {
        NoneStays(g, ops, i + 1);
        return None;
      }
      ZonedMore(g, t, zones, op, made.value);
      if op.MkDir? {
        zones := zones[i + 1 := made.value];
      }
      t := Grown(t, op.Target(), op.name, op.Made(|t| + 1));
      i := i + 1;
    }
    assert ops[..i] == ops;
    var bytes := fs.Finalise(t);
    return Some(bytes);
  }

  lemma RootZoned(g: Geo, z: nat)
    requires z == Start(g, [Root()], 0)
    ensures Zoned(g, [Root()], map[0 := z])
  {
  }

  lemma ZonedTarget(g: Geo, t: Tree, zones: map<nat, nat>, op: Op)
    requires Zoned(g, t, zones)
    ensures op.Target() !in zones ==> !Fits(g, t, op)
    ensures op.Target() in zones ==> op.Target() < |t| && t[op.Target()].Dir?
  {
  }

  lemma ZonedMore(g: Geo, t: Tree, zones: map<nat, nat>, op: Op, z: nat)
    requires Zoned(g, t, zones) && op.Target() < |t| && t[op.Target()].Dir?
    requires op.MkDir? ==> z == Place(g.FirstDataZone(), t)
    ensures Zoned(g, Grown(t, op.Target(), op.name, op.Made(|t| + 1)), if op.MkDir? then zones[|t| := z] else zones)
  {
    hide Start, Place, SubDir;
    var n := op.Made(|t| + 1);
    assert n.Dir? <==> op.MkDir? by {
      MadeShape(op, |t| + 1);
    }
    GrownStarts(g, t, op.Target(), op.name, n);
    var u := Grown(t, op.Target(), op.name, n);
    assert forall i :: 0 <= i < |t| ==> u[i].Dir? == t[i].Dir?;
    assert u[|t|] == n;
  }

  lemma MadeShape(op: Op, ino: nat)
    ensures op.Made(ino).Dir? <==> op.MkDir?
  {
  }

  lemma NoneStays(g: Geo, ops: seq<Op>, i: nat)
    requires i <= |ops| && TreeOf(g, ops[..i]).None?
    ensures TreeOf(g, ops).None?
    decreases |ops| - i
  {
    if i < |ops| {
      assert ops[..i + 1][..i] == ops[..i];
      NoneStays(g, ops, i + 1);
    } else {
      assert ops[..i] == ops;
    }
  }

  lemma GrownStarts(g: Geo, t: Tree, d: nat, name: seq<byte>, n: Node)
    requires d < |t| && t[d].Dir?
    ensures var u := Grown(t, d, name, n);
            && Start(g, u, |t|) == Place(g.FirstDataZone(), t)
            && (forall i :: 0 <= i < |t| ==> Start(g, u, i) == Start(g, t, i))
  {
    var u := Grown(t, d, name, n);
    var w := t[d := WithEntry(t[d], Entry(|t| + 1, name))];
    assert u[..|t|] == w;
    PlaceKept(g, t, d, w[d]);
    forall i | 0 <= i < |t| ensures Start(g, u, i) == Start(g, t, i) {
      assert u[..i] == w[..i];
      StartSame(g, t, d, w[d], i);
    }
  }

  // --------------------------------------------------------- what later requests keep

  /** Files stay, and directories only gain entries. */
  ghost predicate Extends(a: Tree, b: Tree) {
    && |a| <= |b|
    && (forall i :: 0 <= i < |a| && a[i].File? ==> b[i] == a[i])
    && (forall i :: 0 <= i < |a| && a[i].Dir? ==> b[i].Dir? && a[i].mode == b[i].mode && a[i].ents <= b[i].ents)
  }

  lemma {:induction false} TreeExtends(g: Geo, ops: seq<Op>, k: nat)
    requires k <= |ops| && TreeOf(g, ops).Some?
    ensures TreeOf(g, ops[..k]).Some? && Extends(TreeOf(g, ops[..k]).value, TreeOf(g, ops).value)
    decreases |ops| - k
  {
    hide Step, Extends;
    if k == |ops| {
      assert ops[..k] == ops;
      ExtendsSelf(TreeOf(g, ops).value);
    } else {
      TreeExtends(g, ops, k + 1);
      assert ops[..k + 1][..k] == ops[..k];
      StepExtends(g, TreeOf(g, ops[..k]).value, ops[..k + 1][k]);
      ExtendsOn(TreeOf(g, ops[..k]).value, TreeOf(g, ops[..k + 1]).value, TreeOf(g, ops).value);
    }
  }

  lemma ExtendsSelf(a: Tree)
    ensures Extends(a, a)
  {
  }

  lemma ExtendsOn(a: Tree, b: Tree, c: Tree)
    requires Extends(a, b) && Extends(b, c)
    ensures Extends(a, c)
  {
  }

  lemma StepExtends(g: Geo, t: Tree, op: Op)
    requires Step(g, t, op).Some?
    ensures Extends(t, Step(g, t, op).value)
  {
  }

  /** Request `k` is node `k + 1`, and is entered in its directory as inode `k + 2`. */
  lemma NodeOfRequest(g: Geo, ops: seq<Op>, k: nat)
    requires k < |ops| && TreeOf(g, ops).Some?
    ensures var t := TreeOf(g, ops).value;
            var d := ops[k].Target();
            && TreeOf(g, ops[..k]).Some? && d <= k && t[d].Dir? && TreeOf(g, ops[..k]).value[d].Dir?
            && TreeOf(g, ops[..k]).value[d].ents + [Entry(k + 2, ops[k].name)] <= t[d].ents
            && (ops[k].AddFile? ==> t[k + 1] == File(ops[k].bytes))
  {
    TreeExtends(g, ops, k + 1);
    TreeExtends(g, ops, k);
    assert ops[..k + 1][..k] == ops[..k] && ops[..k + 1][k] == ops[k];
    var before := TreeOf(g, ops[..k]).value;
    var after := TreeOf(g, ops[..k + 1]).value;
    assert after == Grown(before, ops[k].Target(), ops[k].name, ops[k].Made(k + 2));
  }

  // ------------------------------------------------------------- names in directories

  /** An entry of directory `d`: `.` or `..`, or an earlier request's. */
  ghost predicate FromRequest(ops: seq<Op>, d: nat, e: Entry) {
    || e.name == DOT || e.name == DOTDOT
    || exists j :: 0 <= j < |ops| && ops[j].Target() == d && e == Entry(j + 2, ops[j].name)
  }

  lemma {:induction false} EntriesComeFrom(g: Geo, ops: seq<Op>, d: nat, m: nat)
    requires TreeOf(g, ops).Some? && d < |TreeOf(g, ops).value|
    requires TreeOf(g, ops).value[d].Dir? && m < |TreeOf(g, ops).value[d].ents|
    ensures FromRequest(ops, d, TreeOf(g, ops).value[d].ents[m])
    ensures 0 < TreeOf(g, ops).value[d].ents[m].ino <= |ops| + 1
    decreases |ops|
  {
    if ops != [] {
      var prev := ops[..|ops| - 1];
      var op := ops[|ops| - 1];
      var t := TreeOf(g, prev).value;
      var e := TreeOf(g, ops).value[d].ents[m];
      if d < |t| && m < |t[d].ents| {
        EntriesComeFrom(g, prev, d, m);
        if e.name != DOT && e.name != DOTDOT {
          var j :| 0 <= j < |prev| && prev[j].Target() == d && e == Entry(j + 2, prev[j].name);
          assert ops[j] == prev[j];
        }
      } else if d < |t| {
        assert op.Target() == d && e == Entry(|ops| + 1, op.name);
        assert ops[|ops| - 1] == op;
      }
    }
  }

  predicate NamesOk(ops: seq<Op>) {
    forall j :: 0 <= j < |ops| ==> NulFree(ops[j].name) && (ops[j].MkDir? ==> ops[j].mode < 0x10000)
  }

  lemma TreeProper(g: Geo, ops: seq<Op>, d: nat)
    requires TreeOf(g, ops).Some? && NamesOk(ops) && |ops| < 0xFFFF_FFFE && d < |TreeOf(g, ops).value|
    requires TreeOf(g, ops).value[d].Dir?
    ensures MinixRead.Proper(TreeOf(g, ops).value[d].ents)
  {
    var es := TreeOf(g, ops).value[d].ents;
    forall m | 0 <= m < |es| ensures 0 < es[m].ino < 0x1_0000_0000 && NulFree(es[m].name) {
      EntriesComeFrom(g, ops, d, m);
    }
  }

  lemma {:induction false} TreeModes(g: Geo, ops: seq<Op>)
    requires TreeOf(g, ops).Some? && NamesOk(ops)
    ensures ModesFit(TreeOf(g, ops).value)
    decreases |ops|
  {
    if ops != [] {
      var prev := ops[..|ops| - 1];
      assert forall j :: 0 <= j < |prev| ==> prev[j] == ops[j];
      TreeModes(g, prev);
    }
  }

  lemma TreeSmall(g: Geo, ops: seq<Op>)
    requires TreeOf(g, ops).Some? && g.Sane()
    ensures |ops| < 0x4000_0000
  {
    hide Place, Len, Sized, Grown, Geo.ImapBlocks, Geo.Sane;
    if ops != [] {
      var t := TreeOf(g, ops[..|ops| - 1]).value;
      assert Fits(g, t, ops[|ops| - 1]);
      MapSmall(g);
    }
  }

  lemma MapSmall(g: Geo)
    requires g.Sane()
    ensures 8 * BLOCK * g.ImapBlocks() < 0x4000_0000
  {
  }

  /** No earlier request enters the same stored name in the same directory, and the name is not one
      of the two every directory has. */
  ghost predicate NameIsNew(ops: seq<Op>, k: nat)
    requires k < |ops|
  {
    && Cut(ops[k].name) != DOT && Cut(ops[k].name) != DOTDOT
    && forall j :: 0 <= j < k && ops[j].Target() == ops[k].Target() ==> Cut(ops[j].name) != Cut(ops[k].name)
  }

  lemma {:induction false} DotsFirst(g: Geo, ops: seq<Op>, d: nat)
    requires TreeOf(g, ops).Some? && d < |TreeOf(g, ops).value| && TreeOf(g, ops).value[d].Dir?
    ensures var es := TreeOf(g, ops).value[d].ents; |es| >= 2 && es[0].name == DOT && es[1].name == DOTDOT
    decreases |ops|
  {
    if ops != [] {
      var prev := ops[..|ops| - 1];
      if d < |TreeOf(g, prev).value| {
        DotsFirst(g, prev, d);
      }
    }
  }

  /** A name that is not new is already in the directory when the request comes. */
  lemma OldNameListed(g: Geo, ops: seq<Op>, k: nat) returns (m: nat)
    requires TreeOf(g, ops).Some? && k < |ops| && !NameIsNew(ops, k)
    ensures var d := ops[k].Target();
            && TreeOf(g, ops[..k]).Some? && d < |TreeOf(g, ops[..k]).value| && TreeOf(g, ops[..k]).value[d].Dir?
            && var was := TreeOf(g, ops[..k]).value[d].ents;
               m < |was| && Cut(was[m].name) == Cut(ops[k].name)
  {
    NodeOfRequest(g, ops, k);
    var d := ops[k].Target();
    DotsFirst(g, ops[..k], d);
    if Cut(ops[k].name) == DOT {
      m := 0;
    } else if Cut(ops[k].name) == DOTDOT {
      m := 1;
    } else {
      var j :| 0 <= j < k && ops[j].Target() == d && Cut(ops[j].name) == Cut(ops[k].name);
      assert ops[..k][j] == ops[j];
      NodeOfRequest(g, ops[..k], j);
      m := |TreeOf(g, ops[..k][..j]).value[d].ents|;
    }
  }

  /** A request's entry is the first under its stored name exactly when the name is new. */
  lemma FirstWhenNew(g: Geo, ops: seq<Op>, k: nat)
    requires TreeOf(g, ops).Some? && k < |ops|
    ensures var d := ops[k].Target();
            && d < |TreeOf(g, ops).value| && TreeOf(g, ops).value[d].Dir?
            && var es := TreeOf(g, ops).value[d].ents;
               var f := FirstIndex(es, Cut(ops[k].name));
            && f.Some? && (es[f.value].ino == k + 2 <==> NameIsNew(ops, k))
  {
    NodeOfRequest(g, ops, k);
    var d := ops[k].Target();
    var es := TreeOf(g, ops).value[d].ents;
    var was := TreeOf(g, ops[..k]).value[d].ents;
    var m := |was|;
    hide TreeOf, FirstIndex;
    assert es[m] == Entry(k + 2, ops[k].name);
    if NameIsNew(ops, k) {
      EarlierDiffer(g, ops, k);
      FoundIff(es, m);
    } else {
      var old_ := OldNameListed(g, ops, k);
      var f := FirstIndex(es, Cut(ops[k].name)).value;
      assert es[old_] == was[old_] && f <= old_ && es[f] == was[f];
      EntriesComeFrom(g, ops[..k], d, f);
    }
  }

  /** From the finished image alone, and whatever was asked for afterwards: looking the stored name of
      a file or directory up where it was asked for gives its inode number exactly when no earlier
      request entered the same stored name there. */
  lemma RequestsFound(g: Geo, ops: seq<Op>, img: seq<byte>, k: nat)
    requires TreeOf(g, ops).Some? && NamesOk(ops) && ImageOf(img, g, TreeOf(g, ops).value)
    requires k < |ops| && ops[k].Target() < g.inodes
    ensures Lookup(img, ops[k].Target() + 1, Cut(ops[k].name)) == Some(k + 2) <==> NameIsNew(ops, k)
  {
    hide ImageOf, TreeOf, NameIsNew;
    ImageSane(img, g, TreeOf(g, ops).value);
    TreeSmall(g, ops);
    TreeModes(g, ops);
    NodeOfRequest(g, ops, k);
    var d := ops[k].Target();
    TreeProper(g, ops, d);
    FirstWhenNew(g, ops, k);
    LookupBack(img, g, TreeOf(g, ops).value, d, Cut(ops[k].name));
  }

  /** And a file that was asked for is read back byte for byte under its inode number exactly when the
      superblock admits that number. */
  lemma FilesReadBack(g: Geo, ops: seq<Op>, img: seq<byte>, k: nat)
    requires TreeOf(g, ops).Some? && NamesOk(ops) && ImageOf(img, g, TreeOf(g, ops).value)
    requires k < |ops| && ops[k].AddFile?
    ensures ReadFile(img, k + 2) == if k + 1 < g.inodes then Some(ops[k].bytes) else None
    ensures ops[k].dir < g.inodes ==> (Lookup(img, ops[k].dir + 1, Cut(ops[k].name)) == Some(k + 2) <==> NameIsNew(ops, k))
  {
    hide ImageOf, TreeOf, NameIsNew;
    ImageSane(img, g, TreeOf(g, ops).value);
    TreeSmall(g, ops);
    TreeModes(g, ops);
    NodeOfRequest(g, ops, k);
    if ops[k].dir < g.inodes {
      RequestsFound(g, ops, img, k);
    }
    ReadBack(img, g, TreeOf(g, ops).value, k + 1);
  }

  /** The inode a path leads to, from inode 1 down. */
  function Resolve(img: seq<byte>, path: seq<seq<byte>>): (ino: Option<nat>) {
    if path == [] then Some(1)
    else
      match Resolve(img, path[..|path| - 1])
      case None => None
      case Some(dir) => Lookup(img, dir, path[|path| - 1])
  }

  /** From the root of the finished image, the path through a directory that was asked for leads to a
      file asked for in it, and the bytes there are the file's: for a directory whose name was new,
      exactly when the file's was too. */
  lemma PathsReadBack(g: Geo, ops: seq<Op>, img: seq<byte>, m: nat, k: nat)
    requires TreeOf(g, ops).Some? && NamesOk(ops) && ImageOf(img, g, TreeOf(g, ops).value)
    requires m < |ops| && ops[m].MkDir? && NameIsNew(ops, m)
    requires k < |ops| && ops[k].AddFile? && ops[k].dir == m + 1 && k + 1 < g.inodes
    ensures Resolve(img, [Cut(ops[m].name), Cut(ops[k].name)]) == Some(k + 2) <==> NameIsNew(ops, k)
    ensures ReadFile(img, k + 2) == Some(ops[k].bytes)
  {
    hide ImageOf, TreeOf, NameIsNew, Lookup;
    NodeOfRequest(g, ops, k);
    RequestsFound(g, ops, img, m);
    RequestsFound(g, ops, img, k);
    FilesReadBack(g, ops, img, k);
    var path: seq<seq<byte>> := [Cut(ops[m].name), Cut(ops[k].name)];
    var one := path[..1];
    assert one == [path[0]] && one[..0] == [] && Resolve(img, one[..0]) == Some(1);
    assert Resolve(img, one) == Some(m + 2);
  }

  lemma ImageSane(img: seq<byte>, g: Geo, t: Tree)
    requires ImageOf(img, g, t)
    ensures g.Sane()
  {
  }

  lemma EarlierDiffer(g: Geo, ops: seq<Op>, k: nat)
    requires TreeOf(g, ops).Some? && k < |ops| && NameIsNew(ops, k)
    ensures var d := ops[k].Target();
            && d < |TreeOf(g, ops).value| && TreeOf(g, ops).value[d].Dir?
            && TreeOf(g, ops[..k]).Some? && d < |TreeOf(g, ops[..k]).value| && TreeOf(g, ops[..k]).value[d].Dir?
            && var es := TreeOf(g, ops).value[d].ents;
               var m := |TreeOf(g, ops[..k]).value[d].ents|;
            && m < |es|
            && forall j :: 0 <= j < m ==> Cut(es[j].name) != Cut(ops[k].name)
  {
    NodeOfRequest(g, ops, k);
    var d := ops[k].Target();
    var es := TreeOf(g, ops).value[d].ents;
    var was := TreeOf(g, ops[..k]).value[d].ents;
    forall j | 0 <= j < |was| ensures Cut(es[j].name) != Cut(ops[k].name) {
      assert es[j] == was[j];
      EntriesComeFrom(g, ops[..k], d, j);
      if was[j].name != DOT && was[j].name != DOTDOT {
        var i :| 0 <= i < k && ops[..k][i].Target() == d && was[j] == Entry(i + 2, ops[..k][i].name);
        assert ops[..k][i] == ops[i];
      }
    }
  }
}
