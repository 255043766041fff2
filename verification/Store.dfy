/** The disk a session keeps in memory and the page records that outlive it.

    Every write changes the disk and hands the database one transaction, holding a record for each
    page the write touched. A crash keeps some of the transactions. The next session starts from the
    boot image with the surviving records laid over it. */
module Store {
  import opened Bytes

  type Records = map<nat, seq<byte>>

  datatype Write = Write(off: nat, bytes: seq<byte>)

  /** A record is one page long: what the database holds is always made by `Record`. */
  predicate Whole(pages: Records, ps: nat) {
    forall p :: p in pages ==> |pages[p]| == ps
  }

  // ------------------------------------------------------------------ pages

  function PageOf(i: int, ps: nat): (p: int)
    requires 0 < ps
    ensures 0 <= i ==> 0 <= p
  {
    i / ps
  }

  lemma Apart(p: int, q: int, ps: nat)
    requires p < q
    ensures p * ps + ps <= q * ps
  {
    assert (q - p - 1) * ps >= 0;
  }

  lemma Bounds(i: int, ps: nat)
    requires 0 < ps
    ensures PageOf(i, ps) * ps <= i < PageOf(i, ps) * ps + ps
  {
    assert i == i / ps * ps + i % ps;
  }

  /** A byte lies in page `p` exactly when its address does. */
  lemma InPage(i: int, p: int, ps: nat)
    requires 0 < ps
    ensures PageOf(i, ps) == p <==> p * ps <= i < p * ps + ps
  {
    hide PageOf;
    var q := PageOf(i, ps);
    Bounds(i, ps);
    if p < q {
      Apart(p, q, ps);
    } else if q < p {
      Apart(q, p, ps);
    }
  }

  lemma PageMonotone(i: int, j: int, ps: nat)
    requires 0 < ps && i <= j
    ensures PageOf(i, ps) <= PageOf(j, ps)
  {
    hide PageOf;
    Bounds(i, ps);
    Bounds(j, ps);
    if PageOf(j, ps) < PageOf(i, ps) {
      Apart(PageOf(j, ps), PageOf(i, ps), ps);
    }
  }

  /** The bytes of the disk from page `p`'s start to its end, or to the end of the disk. */
  function Part(disk: seq<byte>, at: nat, ps: nat): (s: seq<byte>)
    ensures |s| <= ps
  {
    if at >= |disk| then [] else disk[at..Min(at + ps, |disk|)]
  }

  /** What a write stores for page `p`: its bytes, and zeros past the end of the disk. */
  function Record(disk: seq<byte>, p: nat, ps: nat): (r: seq<byte>)
    ensures |r| == ps
    ensures forall j :: 0 <= j < ps ==> r[j] == if p * ps + j < |disk| then disk[p * ps + j] else 0
  {
    Part(disk, p * ps, ps) + Zeros(ps - |Part(disk, p * ps, ps)|)
  }

  // ------------------------------------------------------------------ reopening

  function OverlayByte(image: seq<byte>, pages: Records, ps: nat, i: nat): (b: byte)
    requires 0 < ps && i < |image| && Whole(pages, ps)
  {
    var p := PageOf(i, ps);
    if p in pages then (InPage(i, p, ps); pages[p][i - p * ps]) else image[i]
  }

  /** The disk a session opens with: the image under the records. */
  function Overlay(image: seq<byte>, pages: Records, ps: nat): (d: seq<byte>)
    requires 0 < ps && Whole(pages, ps)
    ensures |d| == |image|
    ensures forall i :: 0 <= i < |image| ==> d[i] == OverlayByte(image, pages, ps, i)
  {
    seq(|image|, i requires 0 <= i < |image| => OverlayByte(image, pages, ps, i))
  }

  // ------------------------------------------------------------------ writing

  predicate Fits(n: nat, ws: seq<Write>) {
    forall k :: 0 <= k < |ws| ==> ws[k].off + |ws[k].bytes| <= n
  }

  /** The pages a write puts records for. A write of no bytes puts none, except when it lies inside a
      page, whose record it then puts again. */
  predicate Touches(w: Write, p: int, ps: nat)
    requires 0 < ps
  {
    PageOf(w.off, ps) <= p <= PageOf(w.off + |w.bytes| - 1, ps)
  }

  /** The transaction of a write that left the disk as `disk`. */
  function Transaction(disk: seq<byte>, w: Write, ps: nat): (t: Records)
    requires 0 < ps
    ensures Whole(t, ps)
  {
    map p: nat | PageOf(w.off, ps) <= p <= PageOf(w.off + |w.bytes| - 1, ps) :: Record(disk, p, ps)
  }

  /** The disk in memory after a session's writes. */
  function After(disk: seq<byte>, ws: seq<Write>): (d: seq<byte>)
    requires Fits(|disk|, ws)
    ensures |d| == |disk|
  {
    if ws == [] then disk
    else
      var n := |ws| - 1;
      Splice(After(disk, ws[..n]), ws[n].off, ws[n].bytes)
  }

  /** The database after a session of which the transactions numbered in `kept` were committed. */
  function Durable(pages: Records, disk: seq<byte>, ws: seq<Write>, kept: set<nat>, ps: nat): (r: Records)
    requires 0 < ps && Fits(|disk|, ws) && Whole(pages, ps)
    ensures Whole(r, ps)
  {
    if ws == [] then pages
    else
      var n := |ws| - 1;
      var before := Durable(pages, disk, ws[..n], kept, ps);
      if n in kept then before + Transaction(After(disk, ws), ws[n], ps) else before
  }

  /** No write touched the page, or the last one that did was committed. */
  predicate Settled(ws: seq<Write>, kept: set<nat>, p: int, ps: nat)
    requires 0 < ps
  {
    if ws == [] then true
    else
      var n := |ws| - 1;
      if Touches(ws[n], p, ps) then n in kept else Settled(ws[..n], kept, p, ps)
  }

  // ------------------------------------------------------------------ crash consistency

  /** A byte a write changes is in a page the write touches. */
  lemma WrittenIsTouched(w: Write, i: nat, ps: nat)
    requires 0 < ps && w.off <= i < w.off + |w.bytes|
    ensures Touches(w, PageOf(i, ps), ps)
  {
    PageMonotone(w.off, i, ps);
    PageMonotone(i, w.off + |w.bytes| - 1, ps);
  }

  lemma TouchedByte(image: seq<byte>, before: Records, disk: seq<byte>, w: Write, ps: nat, i: nat)
    requires 0 < ps && Whole(before, ps) && i < |image| == |disk| && Touches(w, PageOf(i, ps), ps)
    ensures OverlayByte(image, before + Transaction(disk, w, ps), ps, i) == disk[i]
  {
    hide PageOf;
    InPage(i, PageOf(i, ps), ps);
    assert PageOf(i, ps) in Transaction(disk, w, ps);
  }

  lemma UntouchedByte(image: seq<byte>, before: Records, disk: seq<byte>, w: Write, ps: nat, i: nat)
    requires 0 < ps && Whole(before, ps) && i < |image| && !Touches(w, PageOf(i, ps), ps)
    ensures OverlayByte(image, before + Transaction(disk, w, ps), ps, i) == OverlayByte(image, before, ps, i)
    ensures !(w.off <= i < w.off + |w.bytes|)
  {
    hide PageOf;
    if w.off <= i < w.off + |w.bytes| {
      WrittenIsTouched(w, i, ps);
    }
    assert PageOf(i, ps) !in Transaction(disk, w, ps);
  }

  /** Whatever the browser committed, a page whose last transaction is in the database reopens as
      memory had it. */
  lemma {:induction false} SettledPageSurvives(image: seq<byte>, pages: Records, ws: seq<Write>, kept: set<nat>,
                                               ps: nat, i: nat)
    requires 0 < ps && Whole(pages, ps) && Fits(|image|, ws) && i < |image|
    requires Settled(ws, kept, PageOf(i, ps), ps)
    ensures var disk := Overlay(image, pages, ps);
            OverlayByte(image, Durable(pages, disk, ws, kept, ps), ps, i) == After(disk, ws)[i]
    decreases |ws|
  {
    hide PageOf, OverlayByte, Overlay, Transaction, Touches;
    var disk := Overlay(image, pages, ps);
    if ws != [] {
      var n := |ws| - 1;
      var before := Durable(pages, disk, ws[..n], kept, ps);
      if Touches(ws[n], PageOf(i, ps), ps) {
        TouchedByte(image, before, After(disk, ws), ws[n], ps, i);
      } else {
        UntouchedByte(image, before, After(disk, ws), ws[n], ps, i);
        SettledPageSurvives(image, pages, ws[..n], kept, ps, i);
      }
    }
  }

  /** The numbers of the first `k` transactions. */
  function First(k: nat): (s: set<nat>)
    ensures forall i: nat :: i in s <==> i < k
  {
    if k == 0 then {} else First(k - 1) + {k - 1}
  }

  lemma {:induction false} PrefixSettles(ws: seq<Write>, k: nat, p: int, ps: nat)
    requires 0 < ps && |ws| <= k
    ensures Settled(ws, First(k), p, ps)
    decreases |ws|
  {
    if ws != [] {
      PrefixSettles(ws[..|ws| - 1], k, p, ps);
    }
  }

  lemma {:induction false} PrefixDurable(pages: Records, disk: seq<byte>, ws: seq<Write>, k: nat, ps: nat)
    requires 0 < ps && Fits(|disk|, ws) && Whole(pages, ps) && k <= |ws|
    ensures Durable(pages, disk, ws, First(k), ps) == Durable(pages, disk, ws[..k], First(k), ps)
    decreases |ws|
  {
    if k < |ws| {
      PrefixDurable(pages, disk, ws[..|ws| - 1], k, ps);
      assert ws[..|ws| - 1][..k] == ws[..k];
    } else {
      assert ws[..k] == ws;
    }
  }

  /** Transactions that commit whole and in order: after any number of them the next session opens
      the disk exactly as it was after that many writes. */
  lemma CrashConsistent(image: seq<byte>, pages: Records, ws: seq<Write>, k: nat, ps: nat)
    requires 0 < ps && Whole(pages, ps) && Fits(|image|, ws) && k <= |ws|
    ensures var disk := Overlay(image, pages, ps);
            Overlay(image, Durable(pages, disk, ws, First(k), ps), ps) == After(disk, ws[..k])
  {
    var disk := Overlay(image, pages, ps);
    PrefixDurable(pages, disk, ws, k, ps);
    var left := Durable(pages, disk, ws[..k], First(k), ps);
    forall i | 0 <= i < |image| ensures Overlay(image, left, ps)[i] == After(disk, ws[..k])[i] {
      PrefixSettles(ws[..k], k, PageOf(i, ps), ps);
      SettledPageSurvives(image, pages, ws[..k], First(k), ps, i);
    }
  }

  // ------------------------------------------------------------------ the disk as a byte array

  /** The last write that covers the byte decides it. */
  lemma {:induction false} LastWriteWins(disk: seq<byte>, ws: seq<Write>, k: nat, i: nat)
    requires Fits(|disk|, ws) && k < |ws| && ws[k].off <= i < ws[k].off + |ws[k].bytes|
    requires forall j :: k < j < |ws| ==> !(ws[j].off <= i < ws[j].off + |ws[j].bytes|)
    ensures After(disk, ws)[i] == ws[k].bytes[i - ws[k].off]
    decreases |ws|
  {
    if k < |ws| - 1 {
      LastWriteWins(disk, ws[..|ws| - 1], k, i);
    }
  }
}
