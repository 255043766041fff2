/**
 The image builder: a zone counter, an inode counter, two bitmaps, an inode table and the image's
 bytes, all updated in place, and proved to hold exactly the tree that was asked for.
 */
module MinixBuild {
  import opened Bytes
  import opened MinixFs
  import opened MinixRead
  import Bitmap

  // -------------------------------------------------- where nodes lie and stay

  lemma PlaceSame(fdz: nat, t: Tree, d: nat, n: Node, i: nat)
    requires d < |t| && Len(n) == Len(t[d]) && i <= |t|
    ensures Place(fdz, t[d := n][..i]) == Place(fdz, t[..i])
  {
    if i > 0 {
      PlaceSame(fdz, t, d, n, i - 1);
      assert t[d := n][..i][..i - 1] == t[d := n][..i - 1];
      assert t[..i][..i - 1] == t[..i - 1];
    }
  }

  lemma PlaceOrder(fdz: nat, t: Tree, i: nat, j: nat)
    requires i < j <= |t|
    ensures Place(fdz, t[..i]) + Len(t[i]) <= Place(fdz, t[..j])
  {
    PlaceGrows(fdz, t[..j], i);
    assert t[..j][..i] == t[..i] && t[..j][..i + 1] == t[..i + 1];
  }

  /** A write outside a node's zones leaves the node. */
  lemma NodeStays(data: seq<byte>, n: Node, z: nat, at: nat, bytes: seq<byte>)
    requires NodeAt(data, n, z) && at + |bytes| <= |data|
    requires at + |bytes| <= z * BLOCK || (z + Len(n)) * BLOCK <= at
    ensures NodeAt(Splice(data, at, bytes), n, z)
  {
    SpliceKeeps(data, at, bytes, z * BLOCK, (z + Len(n)) * BLOCK);
  }

  lemma NodeCopied(data: seq<byte>, data': seq<byte>, n: Node, z: nat, p: nat)
    requires NodeAt(data, n, z) && z + Len(n) <= p && p * BLOCK <= |data| == |data'|
    requires data'[..p * BLOCK] == data[..p * BLOCK]
    ensures NodeAt(data', n, z)
  {
    hide NodeBytes;
    Within(data, 0, p * BLOCK, z * BLOCK, (z + Len(n)) * BLOCK);
    Within(data', 0, p * BLOCK, z * BLOCK, (z + Len(n)) * BLOCK);
  }

  /** A new node above the others. */
  lemma LaidMore(data: seq<byte>, data': seq<byte>, g: Geo, t: Tree, n: Node)
    requires Laid(data, g, t) && |data'| == |data|
    requires data'[..Place(g.FirstDataZone(), t) * BLOCK] == data[..Place(g.FirstDataZone(), t) * BLOCK]
    requires NodeAt(data', n, Place(g.FirstDataZone(), t))
    ensures Laid(data', g, t + [n])
  {
    var fdz := g.FirstDataZone();
    var u := t + [n];
    assert u[..|t|] == t;
    NodeEnds(data', n, Place(fdz, t));
    hide NodeAt, Len;
    forall i | 0 <= i < |u| ensures NodeAt(data', u[i], Start(g, u, i)) {
      assert u[..i] == t[..i];
      if i < |t| {
        PlaceGrows(fdz, t, i);
        NodeCopied(data, data', t[i], Start(g, t, i), Place(fdz, t));
      }
    }
  }

  lemma NodeEnds(data: seq<byte>, n: Node, z: nat)
    requires NodeAt(data, n, z)
    ensures (z + Len(n)) * BLOCK <= |data|
  {
  }

  function WithEntry(n: Node, e: Entry): (r: Node)
    requires n.Dir?
    ensures Len(r) == Len(n)
  {
    Dir(n.mode, n.ents + [e])
  }

  lemma EntsMore(es: seq<Entry>, e: Entry)
    requires |es| < DIR_SLOTS
    ensures Splice(DirBlock(es), 64 * |es|, Direct(e)) == DirBlock(es + [e])
  {
    assert (es + [e])[..|es|] == es;
    hide Direct;
    assert Ents(es + [e]) == Ents(es) + Direct(e);
  }

  /** Writing one entry into the first free slot of a directory. */
  lemma NodeEntry(data: seq<byte>, n: Node, z: nat, e: Entry)
    requires NodeAt(data, n, z) && n.Dir? && |n.ents| < DIR_SLOTS
    ensures NodeAt(Splice(data, z * BLOCK + 64 * |n.ents|, Direct(e)), WithEntry(n, e), z)
  {
    hide Direct, Ents;
    EntsMore(n.ents, e);
    var r := Splice(data, z * BLOCK + 64 * |n.ents|, Direct(e));
    SpliceSlice(data, z * BLOCK, (z + 1) * BLOCK, 64 * |n.ents|, Direct(e));
    assert r[z * BLOCK..(z + 1) * BLOCK] == DirBlock(n.ents + [e]);
  }

  lemma SpliceSlice(s: seq<byte>, lo: nat, hi: nat, at: nat, t: seq<byte>)
    requires lo <= hi <= |s| && at + |t| <= hi - lo
    ensures Splice(s, lo + at, t)[lo..hi] == Splice(s[lo..hi], at, t)
  {
    var a, b := Splice(s, lo + at, t)[lo..hi], Splice(s[lo..hi], at, t);
    assert forall k :: 0 <= k < hi - lo ==> a[k] == b[k];
  }

  lemma StartSame(g: Geo, t: Tree, d: nat, n: Node, i: nat)
    requires d < |t| && Len(n) == Len(t[d]) && i <= |t|
    ensures Start(g, t[d := n], i) == Start(g, t, i)
  {
    PlaceSame(g.FirstDataZone(), t, d, n, i);
  }

  lemma OthersStay(data: seq<byte>, g: Geo, t: Tree, d: nat, at: nat, bytes: seq<byte>, i: nat)
    requires Laid(data, g, t) && d < |t| && i < |t| && i != d
    requires Start(g, t, d) * BLOCK <= at && at + |bytes| <= (Start(g, t, d) + Len(t[d])) * BLOCK && at + |bytes| <= |data|
    ensures NodeAt(Splice(data, at, bytes), t[i], Start(g, t, i))
  {
    hide NodeAt, Len, Splice;
    if i < d { PlaceOrder(g.FirstDataZone(), t, i, d); } else { PlaceOrder(g.FirstDataZone(), t, d, i); }
    NodeStays(data, t[i], Start(g, t, i), at, bytes);
  }

  lemma PlaceKept(g: Geo, t: Tree, d: nat, n: Node)
    requires d < |t| && Len(n) == Len(t[d])
    ensures Place(g.FirstDataZone(), t[d := n]) == Place(g.FirstDataZone(), t)
  {
    PlaceSame(g.FirstDataZone(), t, d, n, |t|);
    assert t[..|t|] == t && t[d := n][..|t|] == t[d := n];
  }

  lemma EntryRoom(data: seq<byte>, g: Geo, t: Tree, d: nat)
    requires Laid(data, g, t) && d < |t| && t[d].Dir?
    ensures NodeAt(data, t[d], Start(g, t, d)) && Len(t[d]) == 1
    ensures (Start(g, t, d) + 1) * BLOCK <= |data|
  {
    NodeEnds(data, t[d], Start(g, t, d));
  }

  lemma LaidEntry(data: seq<byte>, g: Geo, t: Tree, d: nat, e: Entry)
    requires Laid(data, g, t) && d < |t| && t[d].Dir? && |t[d].ents| < DIR_SLOTS
    ensures Start(g, t, d) * BLOCK + 64 * |t[d].ents| + 64 <= |data|
    ensures Laid(Splice(data, Start(g, t, d) * BLOCK + 64 * |t[d].ents|, Direct(e)), g, t[d := WithEntry(t[d], e)])
  {
    hide Direct, NodeAt, Len, Splice, Start, WithEntry, Place;
    EntryRoom(data, g, t, d);
    var z := Start(g, t, d);
    var n := WithEntry(t[d], e);
    var u := t[d := n];
    PlaceKept(g, t, d, n);
    var at := z * BLOCK + 64 * |t[d].ents|;
    var r := Splice(data, at, Direct(e));
    forall i | 0 <= i < |u| ensures NodeAt(r, u[i], Start(g, u, i)) {
      StartSame(g, t, d, n, i);
      if i == d {
        NodeEntry(data, t[d], z, e);
      } else {
        OthersStay(data, g, t, d, at, Direct(e), i);
      }
    }
  }

  // ---------------------------------------------------------------- what is kept

  predicate Linked(t: Tree) {
    forall i, j :: 0 <= i < |t| && t[i].Dir? && 0 <= j < |t[i].ents| ==> 0 < t[i].ents[j].ino < 0x1_0000_0000
  }

  /** The image bytes and the inode table are those of the tree, and the rest is zero. */
  ghost predicate Rep(data: seq<byte>, table: seq<Inode>, g: Geo, t: Tree) {
    && g.Sane() && |data| == g.total * BLOCK
    && Laid(data, g, t) && ZeroRange(data, Place(g.FirstDataZone(), t) * BLOCK, |data|)
    && table == Table(g, t) && Linked(t)
  }

  /** Bit `n - 1` of the inode map stands for inode `n`; bit `b` of the zone map for zone
      `first data zone - 1 + b`. Exactly the first `inodes` inodes and `zones` data zones are marked. */
  ghost predicate Marked(ibits: Bitmap.Map, zbits: Bitmap.Map, inodes: nat, zones: nat) {
    && (forall b :: 0 <= b < 8 * |ibits| ==> (Bitmap.Test(ibits, b) <==> b < inodes))
    && (forall b :: 0 <= b < 8 * |zbits| ==> (Bitmap.Test(zbits, b) <==> 1 <= b <= zones))
  }

  /** The inode of a directory is the only one whose first zone is the directory's. */
  lemma OnlyOwner(g: Geo, t: Tree, d: nat, i: nat)
    requires d < |t| && i < |t| && i != d && t[d].Dir?
    ensures Table(g, t)[i].zones[0] != Start(g, t, d) == Table(g, t)[d].zones[0]
  {
    if i < d {
      PlaceOrder(g.FirstDataZone(), t, i, d);
    } else {
      PlaceOrder(g.FirstDataZone(), t, d, i);
    }
  }

  lemma TableMore(g: Geo, t: Tree, n: Node)
    ensures Table(g, t + [n]) == Table(g, t) + [InodeOf(n, Place(g.FirstDataZone(), t))]
  {
    var u := t + [n];
    assert u[..|t|] == t;
    forall i | 0 <= i < |u| ensures Table(g, u)[i] == (Table(g, t) + [InodeOf(n, Place(g.FirstDataZone(), t))])[i] {
      assert u[..i] == t[..i];
    }
  }

  lemma TableEntry(g: Geo, t: Tree, d: nat, e: Entry)
    requires d < |t| && t[d].Dir?
    ensures Table(g, t[d := WithEntry(t[d], e)])
         == Table(g, t)[d := Table(g, t)[d].(size := 64 * (|t[d].ents| + 1))]
  {
    var n := WithEntry(t[d], e);
    var u := t[d := n];
    forall i | 0 <= i < |u|
      ensures Table(g, u)[i] == Table(g, t)[d := Table(g, t)[d].(size := 64 * (|t[d].ents| + 1))][i]
    {
      StartSame(g, t, d, n, i);
    }
  }

  /** One more entry in a directory: the bytes and the table move together. */
  lemma RepEntry(data: seq<byte>, table: seq<Inode>, g: Geo, t: Tree, d: nat, e: Entry)
    requires Rep(data, table, g, t) && d < |t| && t[d].Dir? && |t[d].ents| < DIR_SLOTS
    requires 0 < e.ino < 0x1_0000_0000
    ensures Start(g, t, d) * BLOCK + 64 * |t[d].ents| + 64 <= |data|
    ensures Rep(Splice(data, Start(g, t, d) * BLOCK + 64 * |t[d].ents|, Direct(e)),
                table[d := table[d].(size := 64 * (|t[d].ents| + 1))], g, t[d := WithEntry(t[d], e)])
  {
    hide Laid, Direct, Table;
    LaidEntry(data, g, t, d, e);
    TableEntry(g, t, d, e);
    PlaceKept(g, t, d, WithEntry(t[d], e));
    PlaceGrows(g.FirstDataZone(), t, d);
  }

  /** One more node above the others. */
  lemma RepMore(data: seq<byte>, data': seq<byte>, table: seq<Inode>, g: Geo, t: Tree, n: Node)
    requires Rep(data, table, g, t) && |data'| == |data|
    requires data'[..Place(g.FirstDataZone(), t) * BLOCK] == data[..Place(g.FirstDataZone(), t) * BLOCK]
    requires NodeAt(data', n, Place(g.FirstDataZone(), t))
    requires ZeroRange(data', (Place(g.FirstDataZone(), t) + Len(n)) * BLOCK, |data'|)
    requires Linked([n])
    ensures Rep(data', table + [InodeOf(n, Place(g.FirstDataZone(), t))], g, t + [n])
  {
    LaidMore(data, data', g, t, n);
    TableMore(g, t, n);
    assert (t + [n])[..|t|] == t;
  }
}
