/** Sessions over one store: which image's pages end up in it.

    The store records the identifier of the image it was seeded from. A session whose image has
    another identifier is refused the disk, so that no page of one image is ever read as part of
    another. */
module Sessions {
  import opened Bytes
  import opened Store
  import opened ImageId

  /** The database, and for every record the identifier of the image whose session wrote it. */
  datatype World = World(pages: Records, imageId: Option<string>, owner: map<nat, string>) {
    predicate Valid(ps: nat) {
      Whole(pages, ps) && owner.Keys == pages.Keys
    }

    /** Every stored page was written under the identifier on record. */
    predicate Pure() {
      forall p :: p in owner ==> imageId == Some(owner[p])
    }

    predicate Admits(image: seq<byte>) {
      imageId.None? || imageId.value == IdOf(image)
    }
  }

  const EMPTY := World(map[], None, map[])

  /** A session boots an image and writes. When the store has no identifier yet the session's first
      transaction records it; `named` says that one was committed, and `kept` are the numbers of the
      committed page transactions. `Clear` deletes the database. */
  datatype Event = Session(image: seq<byte>, ws: seq<Write>, named: bool, kept: set<nat>) | Clear {
    predicate Valid() {
      Session? ==> Fits(|image|, ws)
    }

    ghost predicate InOrder() {
      Session? ==> exists k: nat :: k <= |ws| && kept == First(k) && (0 < k ==> named)
    }
  }

  /** The owner of each record after a session's committed transactions. */
  function Stamped(owner: map<nat, string>, ws: seq<Write>, kept: set<nat>, id: string, ps: nat): (r: map<nat, string>)
    requires 0 < ps
  {
    if ws == [] then owner
    else
      var n := |ws| - 1;
      var before := Stamped(owner, ws[..n], kept, id, ps);
      if n in kept then before + Marks(ws[n], id, ps) else before
  }

  function Marks(w: Write, id: string, ps: nat): (r: map<nat, string>)
    requires 0 < ps
  {
    map p: nat | 0 <= p <= PageOf(w.off + |w.bytes| - 1, ps) && Touches(w, p, ps) :: id
  }

  function Step(w: World, e: Event, ps: nat): (r: World)
    requires 0 < ps && w.Valid(ps) && e.Valid()
  {
    if e.Clear? then EMPTY
    else if !w.Admits(e.image) then w
    else
      var id := IdOf(e.image);
      World(Durable(w.pages, Overlay(e.image, w.pages, ps), e.ws, e.kept, ps),
            if w.imageId.None? && !e.named then None else Some(id),
            Stamped(w.owner, e.ws, e.kept, id, ps))
  }

  ghost predicate AllValid(es: seq<Event>) {
    forall i :: 0 <= i < |es| ==> es[i].Valid()
  }

  ghost predicate AllInOrder(es: seq<Event>) {
    forall i :: 0 <= i < |es| ==> es[i].InOrder()
  }

  function History(es: seq<Event>, ps: nat): (w: World)
    requires 0 < ps && AllValid(es)
    ensures w.Valid(ps)
  {
    if es == [] then EMPTY
    else
      var w := History(es[..|es| - 1], ps);
      StepValid(w, es[|es| - 1], ps);
      Step(w, es[|es| - 1], ps)
  }

  // ------------------------------------------------------------------ one session

  lemma {:induction false} SameKeys(pages: Records, owner: map<nat, string>, disk: seq<byte>, ws: seq<Write>,
                                    kept: set<nat>, id: string, ps: nat)
    requires 0 < ps && Fits(|disk|, ws) && Whole(pages, ps) && owner.Keys == pages.Keys
    ensures Stamped(owner, ws, kept, id, ps).Keys == Durable(pages, disk, ws, kept, ps).Keys
    decreases |ws|
  {
    hide PageOf, After, Record;
    if ws != [] {
      var n := |ws| - 1;
      SameKeys(pages, owner, disk, ws[..n], kept, id, ps);
      assert Marks(ws[n], id, ps).Keys == Transaction(After(disk, ws), ws[n], ps).Keys;
    }
  }

  lemma StepValid(w: World, e: Event, ps: nat)
    requires 0 < ps && w.Valid(ps) && e.Valid()
    ensures Step(w, e, ps).Valid(ps)
  {
    hide Durable, Stamped, Overlay, IdOf;
    if e.Session? && w.Admits(e.image) {
      SameKeys(w.pages, w.owner, Overlay(e.image, w.pages, ps), e.ws, e.kept, IdOf(e.image), ps);
    }
  }

  lemma {:induction false} StampedBy(owner: map<nat, string>, ws: seq<Write>, kept: set<nat>, id: string, ps: nat)
    requires 0 < ps && forall p :: p in owner ==> owner[p] == id
    ensures forall p :: p in Stamped(owner, ws, kept, id, ps) ==> Stamped(owner, ws, kept, id, ps)[p] == id
    decreases |ws|
  {
    if ws != [] {
      StampedBy(owner, ws[..|ws| - 1], kept, id, ps);
    }
  }

  /** Some committed write put a record. */
  ghost predicate Puts(ws: seq<Write>, kept: set<nat>, ps: nat)
    requires 0 < ps
  {
    exists n :: 0 <= n < |ws| && n in kept && PageOf(ws[n].off, ps) <= PageOf(ws[n].off + |ws[n].bytes| - 1, ps)
  }

  lemma {:induction false} StampedIffPuts(ws: seq<Write>, kept: set<nat>, id: string, ps: nat)
    requires 0 < ps
    ensures Stamped(map[], ws, kept, id, ps) != map[] <==> Puts(ws, kept, ps)
    decreases |ws|
  {
    hide PageOf;
    if ws != [] {
      var n := |ws| - 1;
      StampedIffPuts(ws[..n], kept, id, ps);
      var marks := Marks(ws[n], id, ps);
      if PageOf(ws[n].off, ps) <= PageOf(ws[n].off + |ws[n].bytes| - 1, ps) {
        assert PageOf(ws[n].off, ps) in marks;
      }
      if Puts(ws[..n], kept, ps) {
        var m :| 0 <= m < n && m in kept && PageOf(ws[..n][m].off, ps) <= PageOf(ws[..n][m].off + |ws[..n][m].bytes| - 1, ps);
        assert ws[..n][m] == ws[m];
      }
      if Puts(ws, kept, ps) {
        var m :| 0 <= m < |ws| && m in kept && PageOf(ws[m].off, ps) <= PageOf(ws[m].off + |ws[m].bytes| - 1, ps);
        assert m < n ==> ws[..n][m] == ws[m];
      }
    }
  }

  /** Whatever was committed, a session keeps the store pure exactly when the identifier was already
      on record, or its transaction was committed, or no record was. */
  lemma PureExactly(w: World, e: Event, ps: nat)
    requires 0 < ps && w.Valid(ps) && w.Pure() && e.Valid() && e.Session?
    ensures Step(w, e, ps).Pure() <==>
            (w.imageId.Some? || e.named || !Puts(e.ws, e.kept, ps))
  {
    hide Durable, Overlay, IdOf, Puts;
    var id := IdOf(e.image);
    if w.Admits(e.image) {
      var owner := Stamped(w.owner, e.ws, e.kept, id, ps);
      StampedBy(w.owner, e.ws, e.kept, id, ps);
      if w.imageId.None? {
        assert w.owner == map[];
        StampedIffPuts(e.ws, e.kept, id, ps);
        if owner != map[] {
          var p :| p in owner;
        }
      }
    }
  }

  lemma OrderedIsPure(w: World, e: Event, ps: nat)
    requires 0 < ps && w.Valid(ps) && w.Pure() && e.Valid() && e.InOrder()
    ensures Step(w, e, ps).Pure()
  {
    hide Step, Puts;
    if e.Session? {
      var k: nat :| k <= |e.ws| && e.kept == First(k) && (0 < k ==> e.named);
      if k == 0 {
        NothingPut(e.ws, e.kept, ps);
      }
      PureExactly(w, e, ps);
    } else {
      ClearEmpties(w, e, ps);
    }
  }

  lemma NothingPut(ws: seq<Write>, kept: set<nat>, ps: nat)
    requires 0 < ps && kept == {}
    ensures !Puts(ws, kept, ps)
  {
  }

  lemma ClearEmpties(w: World, e: Event, ps: nat)
    requires 0 < ps && w.Valid(ps) && e.Clear?
    ensures Step(w, e, ps) == EMPTY
  {
  }

  // ------------------------------------------------------------------ histories

  /** Over any sequence of sessions booting any images, with transactions that commit in order, every
      stored page was written under the image identifier on record. */
  lemma {:induction false} DisksNeverMix(es: seq<Event>, ps: nat)
    requires 0 < ps && AllValid(es) && AllInOrder(es)
    ensures History(es, ps).Pure()
    decreases |es|
  {
    if es != [] {
      var before := es[..|es| - 1];
      DisksNeverMix(before, ps);
      OrderedIsPure(History(before, ps), es[|es| - 1], ps);
    }
  }

  /** Without that order they mix: the identifier is in another object store than the pages, and a
      page committed without it is read as part of whichever image boots next. */
  lemma OutOfOrderMixes(ps: nat)
    requires 0 < ps
    ensures var es := [Session([0], [Write(0, [7])], false, {0}), Session([5], [], true, {})];
            && AllValid(es) && !History(es, ps).Pure()
            && History(es[..1], ps).Admits([5]) && Overlay([5], History(es[..1], ps).pages, ps) == [7]
  {
    hide IdOf, Durable, Overlay;
    var a := Session([0], [Write(0, [7])], false, {0});
    var b := Session([5], [], true, {});
    var es := [a, b];
    assert es[..1] == [a] && [a][..0] == [];
    FirstLosesIdentifier(a, ps);
    assert DifferOnlyAt([0], [5], 0);
    DifferentImagesDiffer([0], [5]);
    assert History(es[..1], ps) == Step(EMPTY, a, ps);
    assert History(es, ps) == Step(Step(EMPTY, a, ps), b, ps);
  }

  lemma OneCommitted(disk: seq<byte>, w: Write, id: string, ps: nat)
    requires 0 < ps && w.off + |w.bytes| <= |disk|
    ensures Durable(map[], disk, [w], {0}, ps) == Transaction(Splice(disk, w.off, w.bytes), w, ps)
    ensures Stamped(map[], [w], {0}, id, ps) == Marks(w, id, ps)
  {
    var ws := [w];
    assert ws[..0] == [] && ws[0] == w;
    assert After(disk, ws) == Splice(disk, w.off, w.bytes);
    assert Durable(map[], disk, ws[..0], {0}, ps) == map[];
  }

  lemma FirstLosesIdentifier(a: Event, ps: nat)
    requires 0 < ps && a == Session([0], [Write(0, [7])], false, {0})
    ensures var w := Step(EMPTY, a, ps);
            && w.imageId == None && 0 in w.owner && w.owner[0] == IdOf([0])
            && w.Valid(ps) && Overlay([5], w.pages, ps) == [7]
  {
    hide IdOf, Durable, Stamped;
    StepValid(EMPTY, a, ps);
    InPage(0, 0, ps);
    var disk := Overlay([0], map[], ps);
    OneCommitted(disk, Write(0, [7]), IdOf([0]), ps);
    assert Splice(disk, 0, [7]) == [7];
    assert Record([7], 0, ps)[0] == 7;
  }

  /** Booting the image again resumes the disk as the committed writes left it. */
  lemma Resumes(w: World, e: Event, k: nat, ps: nat)
    requires 0 < ps && w.Valid(ps) && e.Valid() && e.Session? && w.Admits(e.image)
    requires e.kept == First(k) && k <= |e.ws|
    ensures Step(w, e, ps).Valid(ps) && Step(w, e, ps).Admits(e.image)
    ensures Overlay(e.image, Step(w, e, ps).pages, ps) == After(Overlay(e.image, w.pages, ps), e.ws[..k])
  {
    hide IdOf, Overlay, Stamped, After;
    StepValid(w, e, ps);
    CrashConsistent(e.image, w.pages, e.ws, k, ps);
  }

  /** A rebuilt image, of another length or with one byte changed, is refused and changes nothing. */
  lemma RebuiltImageRefused(w: World, image: seq<byte>, e: Event, ps: nat)
    requires 0 < ps && w.Valid(ps) && e.Valid() && e.Session? && w.imageId == Some(IdOf(image))
    requires |image| != |e.image| || exists at: nat :: DifferOnlyAt(image, e.image, at)
    ensures !w.Admits(e.image) && Step(w, e, ps) == w
  {
    DifferentImagesDiffer(image, e.image);
  }

  // ------------------------------------------------------------------ the disk over its whole life

  lemma {:induction false} FirstCounts(k: nat)
    ensures |First(k)| == k
  {
    if k != 0 {
      FirstCounts(k - 1);
    }
  }

  /** The writes in the database, oldest first: the committed writes of the sessions that had the
      disk, since it was last cleared. */
  function Log(es: seq<Event>, ps: nat): (ws: seq<Write>)
    requires 0 < ps && AllValid(es)
  {
    if es == [] then []
    else
      var e := es[|es| - 1];
      var before := es[..|es| - 1];
      if e.Clear? then []
      else Log(before, ps) + if History(before, ps).Admits(e.image) then e.ws[..Min(|e.kept|, |e.ws|)] else []
  }

  lemma AfterLast(disk: seq<byte>, ws: seq<Write>, w: Write)
    requires Fits(|disk|, ws) && w.off + |w.bytes| <= |disk|
    ensures Fits(|disk|, ws + [w]) && After(disk, ws + [w]) == Splice(After(disk, ws), w.off, w.bytes)
  {
    assert (ws + [w])[..|ws|] == ws;
  }

  lemma AfterNone(disk: seq<byte>)
    ensures After(disk, []) == disk
  {
  }

  lemma FitsBoth(n: nat, a: seq<Write>, b: seq<Write>)
    ensures Fits(n, a + b) <==> Fits(n, a) && Fits(n, b)
  {
    assert forall k :: 0 <= k < |b| ==> (a + b)[|a| + k] == b[k];
    assert forall k :: 0 <= k < |a| ==> (a + b)[k] == a[k];
  }

  lemma {:induction false} AfterBoth(disk: seq<byte>, a: seq<Write>, b: seq<Write>)
    requires Fits(|disk|, a) && Fits(|disk|, b)
    ensures Fits(|disk|, a + b) && After(disk, a + b) == After(After(disk, a), b)
    decreases |b|
  {
    hide After, Splice;
    FitsBoth(|disk|, a, b);
    if b == [] {
      assert a + b == a;
      AfterNone(After(disk, a));
    } else {
      var c, w := b[..|b| - 1], b[|b| - 1];
      assert b == c + [w] && a + b == (a + c) + [w];
      AfterBoth(disk, a, c);
      AfterLast(disk, a + c, w);
      AfterLast(After(disk, a), c, w);
    }
  }

  /** What the history leaves for `image`: nothing at all, or its own disk, or another image's. */
  ghost predicate Consistent(w: World, log: seq<Write>, image: seq<byte>, ps: nat)
    requires 0 < ps && w.Valid(ps)
  {
    if w.imageId.None? then w.pages == map[] && log == []
    else
      w.imageId.value == IdOf(image) ==>
        Fits(|image|, log) && Overlay(image, w.pages, ps) == After(image, log)
  }

  lemma ConsistentStep(w: World, e: Event, k: nat, log: seq<Write>, image: seq<byte>, ps: nat)
    requires 0 < ps && w.Valid(ps) && Consistent(w, log, image, ps) && e.Valid() && e.Session?
    requires w.Admits(e.image) && k <= |e.ws| && e.kept == First(k) && (0 < k ==> e.named)
    requires IdOf(e.image) == IdOf(image) ==> e.image == image
    ensures Step(w, e, ps).Valid(ps) && Consistent(Step(w, e, ps), log + e.ws[..k], image, ps)
  {
    hide IdOf, Overlay, After, Stamped;
    Resumes(w, e, k, ps);
    var next := Step(w, e, ps);
    if next.imageId.None? {
      PrefixDurable(w.pages, Overlay(e.image, w.pages, ps), e.ws, 0, ps);
    } else if next.imageId.value == IdOf(image) {
      if w.imageId.None? {
        BareOverlay(image, ps);
      }
      AfterBoth(image, log, e.ws[..k]);
    }
  }

  lemma BareOverlay(image: seq<byte>, ps: nat)
    requires 0 < ps
    ensures Overlay(image, map[], ps) == image == After(image, [])
  {
  }

  /** Over any in-order history the disk an image finds is that image with every committed write of
      its own sessions on it, in order, and nothing else. */
  lemma {:induction false} DiskHistory(es: seq<Event>, image: seq<byte>, ps: nat)
    requires 0 < ps && AllValid(es) && AllInOrder(es)
    requires forall i :: 0 <= i < |es| && es[i].Session? && IdOf(es[i].image) == IdOf(image) ==> es[i].image == image
    ensures Consistent(History(es, ps), Log(es, ps), image, ps)
    decreases |es|
  {
    hide IdOf, Overlay, After, Consistent, Step;
    if es == [] {
      EmptyConsistent(image, ps);
    } else {
      var e := es[|es| - 1];
      var before := es[..|es| - 1];
      var w := History(before, ps);
      DiskHistory(before, image, ps);
      if e.Clear? {
        ClearEmpties(w, e, ps);
        EmptyConsistent(image, ps);
      } else if w.Admits(e.image) {
        var k: nat :| k <= |e.ws| && e.kept == First(k) && (0 < k ==> e.named);
        FirstCounts(k);
        ConsistentStep(w, e, k, Log(before, ps), image, ps);
      } else {
        RefusedLeaves(w, e, ps);
        assert Log(es, ps) == Log(before, ps);
      }
    }
  }

  lemma EmptyConsistent(image: seq<byte>, ps: nat)
    requires 0 < ps
    ensures EMPTY.Valid(ps) && Consistent(EMPTY, [], image, ps)
  {
  }

  lemma RefusedLeaves(w: World, e: Event, ps: nat)
    requires 0 < ps && w.Valid(ps) && e.Valid() && e.Session? && !w.Admits(e.image)
    ensures Step(w, e, ps) == w
  {
  }
}
