/** The reader recovers every node of a tree from the bytes of its image. */
module MinixRead {
  import opened Bytes
  import opened MinixFs

  /** The start of node `i`. */
  function Start(g: Geo, t: Tree, i: nat): (z: nat)
    requires i <= |t|
  {
    Place(g.FirstDataZone(), t[..i])
  }

  function Table(g: Geo, t: Tree): (s: seq<Inode>)
    ensures |s| == |t| && forall i :: 0 <= i < |s| ==> |s[i].zones| == 10
  {
    seq(|t|, i requires 0 <= i < |t| => InodeOf(t[i], Start(g, t, i)))
  }

  ghost predicate NodeAt(data: seq<byte>, n: Node, z: nat) {
    && Sized(n)
    && (z + Len(n)) * BLOCK <= |data|
    && data[z * BLOCK..(z + Len(n)) * BLOCK] == NodeBytes(n, z)
  }

  /** Every node's zones hold the node's bytes. */
  ghost predicate Laid(data: seq<byte>, g: Geo, t: Tree) {
    && Place(g.FirstDataZone(), t) * BLOCK <= |data|
    && (forall i :: 0 <= i < |t| ==> NodeAt(data, t[i], Start(g, t, i)))
  }

  /** The finished image of a tree. */
  ghost predicate ImageOf(img: seq<byte>, g: Geo, t: Tree) {
    && g.Sane() && |img| == g.total * BLOCK && g.FirstDataZone() <= g.total
    && img[SUPER_OFFSET..SUPER_OFFSET + 36] == SuperBytes(g)
    && Laid(img, g, t)
    && var n := Min(64 * |t|, g.InodeBlocks() * BLOCK);
       img[g.Itable() * BLOCK..g.Itable() * BLOCK + n] == TableBytes(Table(g, t))[..n]
  }

  /** What a node's bytes say: a file's data, a directory's entries. */
  function Content(n: Node): (d: seq<byte>) {
    match n
    case Dir(_, es) => Ents(es)
    case File(d) => d
  }

  // ------------------------------------------------------ fields of fixed width

  lemma PointerAt(z: nat, k: nat, j: nat)
    requires j < k
    ensures Pointers(z, k)[4 * j..4 * j + 4] == LE32(z + j)
  {
    if j < k - 1 {
      PointerAt(z, k - 1, j);
      assert Pointers(z, k)[4 * j..4 * j + 4] == Pointers(z, k - 1)[4 * j..4 * j + 4];
    }
  }

  lemma ZoneAt(zs: seq<nat>, j: nat)
    requires j < |zs|
    ensures ZoneBytes(zs)[4 * j..4 * j + 4] == LE32(zs[j])
  {
    if j < |zs| - 1 {
      ZoneAt(zs[..|zs| - 1], j);
      assert ZoneBytes(zs)[4 * j..4 * j + 4] == ZoneBytes(zs[..|zs| - 1])[4 * j..4 * j + 4];
    }
  }

  lemma InodeAt(t: seq<Inode>, j: nat)
    requires forall i :: 0 <= i < |t| ==> |t[i].zones| == 10
    requires j < |t|
    ensures TableBytes(t)[64 * j..64 * j + 64] == InodeBytes(t[j])
  {
    if j < |t| - 1 {
      InodeAt(t[..|t| - 1], j);
      assert TableBytes(t)[64 * j..64 * j + 64] == TableBytes(t[..|t| - 1])[64 * j..64 * j + 64];
    }
  }

  lemma EntAt(es: seq<Entry>, j: nat)
    requires j < |es|
    ensures Ents(es)[64 * j..64 * j + 64] == Direct(es[j])
  {
    hide Direct;
    var front := Ents(es[..|es| - 1]);
    if j < |es| - 1 {
      EntAt(es[..|es| - 1], j);
      assert Ents(es)[..|front|] == front;
      Within(Ents(es), 0, |front|, 64 * j, 64 * j + 64);
    } else {
      assert Ents(es)[|front|..] == Direct(es[j]);
    }
  }

  /** A slice of a slice. */
  lemma Within(s: seq<byte>, lo: nat, hi: nat, a: nat, b: nat)
    requires lo <= hi <= |s| && a <= b <= hi - lo
    ensures s[lo..hi][a..b] == s[lo + a..lo + b]
  {
    assert forall k :: 0 <= k < b - a ==> s[lo..hi][a..b][k] == s[lo + a..lo + b][k];
  }

  // ------------------------------------------------------------- superblock

  lemma SuperFields(g: Geo)
    ensures SuperBytes(g)[0..4] == LE32(g.inodes)
    ensures SuperBytes(g)[8..10] == LE16(g.ImapBlocks())
    ensures SuperBytes(g)[10..12] == LE16(g.ZmapBlocks())
    ensures SuperBytes(g)[28..30] == LE16(SUPER_MAGIC)
  {
    var counts := LE32(g.inodes) + LE32(g.total);
    var maps := counts + LE16(g.ImapBlocks()) + LE16(g.ZmapBlocks());
    var body := maps + LE32(g.FirstDataZone()) + LE16(0) + LE16(0) + LE32(0x7FFF_FFFF) + LE32(g.total);
    var b := SuperBytes(g);
    assert b == body + LE16(SUPER_MAGIC) + (LE16(0) + LE16(BLOCK) + [0, 0]);
    assert b[28..30] == LE16(SUPER_MAGIC);
    assert b[..12] == body[..12] == maps;
    assert b[0..4] == maps[0..4] == LE32(g.inodes);
    assert b[8..10] == maps[8..10] == LE16(g.ImapBlocks());
    assert b[10..12] == maps[10..12] == LE16(g.ZmapBlocks());
  }

  lemma SuperReads(img: seq<byte>, g: Geo)
    requires g.Sane() && |img| >= SUPER_OFFSET + 36
    requires img[SUPER_OFFSET..SUPER_OFFSET + 36] == SuperBytes(g)
    ensures ReadSuper(img) == Some(Super(g.inodes, g.Itable()))
  {
    hide SuperBytes, LE16, LE32, Rd16, Rd32;
    SuperFields(g);
    Within(img, SUPER_OFFSET, SUPER_OFFSET + 36, 0, 4);
    Within(img, SUPER_OFFSET, SUPER_OFFSET + 36, 8, 10);
    Within(img, SUPER_OFFSET, SUPER_OFFSET + 36, 10, 12);
    Within(img, SUPER_OFFSET, SUPER_OFFSET + 36, 28, 30);
    Rd32LE32(img, SUPER_OFFSET, g.inodes);
    Rd16LE16(img, SUPER_OFFSET + 8, g.ImapBlocks());
    Rd16LE16(img, SUPER_OFFSET + 10, g.ZmapBlocks());
    Rd16LE16(img, SUPER_OFFSET + 28, SUPER_MAGIC);
  }

  // ----------------------------------------------------------------- inodes

  predicate Fits32(i: Inode) {
    i.mode < 0x10000 && i.size < 0x1_0000_0000 && forall k :: 0 <= k < |i.zones| ==> i.zones[k] < 0x1_0000_0000
  }

  lemma InodeParts(i: Inode)
    requires |i.zones| == 10
    ensures InodeBytes(i)[0..2] == LE16(i.mode)
    ensures InodeBytes(i)[8..12] == LE32(i.size)
    ensures InodeBytes(i)[24..64] == ZoneBytes(i.zones)
  {
    var head := LE16(i.mode) + LE16(1) + LE16(0) + LE16(0);
    var b := InodeBytes(i);
    assert b == head + LE32(i.size) + (Zeros(12) + ZoneBytes(i.zones));
    assert b[0..2] == head[0..2] == LE16(i.mode);
  }

  lemma InodeFields(img: seq<byte>, at: nat, i: Inode)
    requires at + 64 <= |img| && |i.zones| == 10 && Fits32(i)
    requires img[at..at + 64] == InodeBytes(i)
    ensures Rd16(img, at) == i.mode && Rd32(img, at + 8) == i.size
    ensures forall k :: 0 <= k < 10 ==> Rd32(img, at + 24 + 4 * k) == i.zones[k]
  {
    hide InodeBytes, LE16, LE32, Rd16, Rd32, ZoneBytes;
    InodeParts(i);
    Within(img, at, at + 64, 0, 2);
    Within(img, at, at + 64, 8, 12);
    Within(img, at, at + 64, 24, 64);
    Rd16LE16(img, at, i.mode);
    Rd32LE32(img, at + 8, i.size);
    forall k | 0 <= k < 10 ensures Rd32(img, at + 24 + 4 * k) == i.zones[k] {
      ZoneAt(i.zones, k);
      Within(img, at + 24, at + 64, 4 * k, 4 * k + 4);
      Rd32LE32(img, at + 24 + 4 * k, i.zones[k]);
    }
  }

  // ------------------------------------------------------------ file contents

  /** The area of a node that starts at `z` and takes `blocks` blocks for the bytes `c`. */
  ghost predicate Spread(img: seq<byte>, z: nat, blocks: nat, c: seq<byte>) {
    && |c| <= blocks * BLOCK && blocks <= MAX_BLOCKS
    && z + blocks < 0x1_0000_0000
    && z * BLOCK + |c| <= |img| && img[z * BLOCK..z * BLOCK + |c|] == c
    && (blocks > DIRECT_ZONES ==>
          (z + blocks + 1) * BLOCK <= |img|
          && img[(z + blocks) * BLOCK..(z + blocks + 1) * BLOCK] == IndirectBlock(z, blocks))
  }

  lemma IndirectAt(z: nat, blocks: nat, j: nat)
    requires DIRECT_ZONES < blocks <= MAX_BLOCKS && j < blocks - DIRECT_ZONES
    ensures IndirectBlock(z, blocks)[4 * j..4 * j + 4] == LE32(z + DIRECT_ZONES + j)
  {
    hide LE32;
    PointerAt(z + DIRECT_ZONES, blocks - DIRECT_ZONES, j);
    var p := Pointers(z + DIRECT_ZONES, blocks - DIRECT_ZONES);
    assert IndirectBlock(z, blocks)[..|p|] == p;
    Within(IndirectBlock(z, blocks), 0, |p|, 4 * j, 4 * j + 4);
  }

  lemma MapReads(img: seq<byte>, i: Inode, z: nat, blocks: nat, c: seq<byte>, b: nat)
    requires Spread(img, z, blocks, c) && i.zones == ZoneMap(z, blocks) && b < blocks
    ensures ReadMap(img, i, b) == Some(z + b)
  {
    hide Rd32, LE32, IndirectBlock;
    if b >= DIRECT_ZONES {
      var at := (z + blocks) * BLOCK;
      IndirectAt(z, blocks, b - DIRECT_ZONES);
      Within(img, at, at + BLOCK, 4 * (b - DIRECT_ZONES), 4 * (b - DIRECT_ZONES) + 4);
      Rd32LE32(img, at + 4 * (b - DIRECT_ZONES), z + b);
    }
  }

  lemma {:induction false} BytesRead(img: seq<byte>, i: Inode, z: nat, blocks: nat, c: seq<byte>, n: nat)
    requires Spread(img, z, blocks, c) && i.zones == ZoneMap(z, blocks) && n <= |c|
    ensures ReadBytes(img, i, n) == Some(c[..n])
    decreases n
  {
    if n > 0 {
      var b := (n - 1) / BLOCK;
      MapReads(img, i, z, blocks, c, b);
      BytesRead(img, i, z, blocks, c, b * BLOCK);
      Within(img, z * BLOCK, z * BLOCK + |c|, b * BLOCK, n);
      assert (z + b) * BLOCK == z * BLOCK + b * BLOCK;
      assert c[..n] == c[..b * BLOCK] + c[b * BLOCK..n];
    }
  }

  lemma NodeSpreads(img: seq<byte>, n: Node, z: nat)
    requires NodeAt(img, n, z) && z + MAX_BLOCKS < 0x1_0000_0000
    ensures Spread(img, z, if n.Dir? then 1 else Blocks(|n.data|), Content(n))
  {
    var lo, hi := z * BLOCK, (z + Len(n)) * BLOCK;
    var c := Content(n);
    var area := NodeBytes(n, z);
    assert area[..|c|] == c;
    Within(img, lo, hi, 0, |c|);
    if n.File? && Blocks(|n.data|) > DIRECT_ZONES {
      var k := Blocks(|n.data|) * BLOCK;
      assert area[k..] == IndirectBlock(z, Blocks(|n.data|));
      Within(img, lo, hi, k, |area|);
    }
  }

  lemma PlaceGrows(fdz: nat, t: Tree, i: nat)
    requires i < |t|
    ensures Place(fdz, t[..i]) + Len(t[i]) == Place(fdz, t[..i + 1]) <= Place(fdz, t)
    decreases |t| - i
  {
    assert t[..i + 1][..i] == t[..i];
    if i + 1 < |t| {
      PlaceGrows(fdz, t, i + 1);
    } else {
      assert t[..i + 1] == t;
    }
  }

  predicate ModesFit(t: Tree) {
    forall i :: 0 <= i < |t| && t[i].Dir? ==> t[i].mode < 0x10000
  }

  /** An admitted inode lies whole inside the part of the table the image holds. */
  lemma InodeStored(img: seq<byte>, g: Geo, t: Tree, i: nat)
    requires ImageOf(img, g, t) && i < |t| && i < g.inodes
    ensures var at := g.Itable() * BLOCK + 64 * i;
            at + 64 <= |img| && img[at..at + 64] == InodeBytes(InodeOf(t[i], Start(g, t, i)))
  {
    hide SuperBytes, InodeBytes, TableBytes, Laid, InodeOf, Start;
    var n := Min(64 * |t|, g.InodeBlocks() * BLOCK);
    var at := g.Itable() * BLOCK;
    InodeAt(Table(g, t), i);
    Within(TableBytes(Table(g, t)), 0, n, 64 * i, 64 * i + 64);
    Within(img, at, at + n, 64 * i, 64 * i + 64);
  }

  lemma InodeFits(img: seq<byte>, g: Geo, t: Tree, i: nat)
    requires ImageOf(img, g, t) && ModesFit(t) && i < |t|
    ensures Fits32(InodeOf(t[i], Start(g, t, i)))
  {
    hide SuperBytes, TableBytes, NodeBytes, Table;
    PlaceGrows(g.FirstDataZone(), t, i);
    assert NodeAt(img, t[i], Start(g, t, i));
  }

  lemma ImageSuper(img: seq<byte>, g: Geo, t: Tree)
    requires ImageOf(img, g, t)
    ensures ReadSuper(img) == Some(Super(g.inodes, g.Itable()))
  {
    SuperReads(img, g);
  }

  lemma InodeReads(img: seq<byte>, g: Geo, t: Tree, i: nat)
    requires ImageOf(img, g, t) && ModesFit(t) && i < |t|
    ensures ReadInode(img, i + 1) == if i < g.inodes then Some(InodeOf(t[i], Start(g, t, i))) else None
  {
    hide ImageOf, InodeBytes, Rd16, Rd32, InodeOf, Start, ReadSuper, Fits32, ModesFit;
    ImageSuper(img, g, t);
    if i < g.inodes {
      var node := InodeOf(t[i], Start(g, t, i));
      InodeStored(img, g, t, i);
      InodeFits(img, g, t, i);
      InodeFields(img, g.Itable() * BLOCK + 64 * i, node);
      assert ReadInode(img, i + 1).value.zones == node.zones;
    }
  }

  /** Read-back: from nothing but the finished bytes, the reader recovers exactly the contents of
      every node whose inode the superblock admits, and no other. */
  lemma ReadBack(img: seq<byte>, g: Geo, t: Tree, i: nat)
    requires ImageOf(img, g, t) && ModesFit(t) && i < |t|
    ensures ReadFile(img, i + 1) == if i < g.inodes then Some(Content(t[i])) else None
  {
    InodeReads(img, g, t, i);
    if i < g.inodes {
      var z := Start(g, t, i);
      var node := InodeOf(t[i], z);
      PlaceGrows(g.FirstDataZone(), t, i);
      assert NodeAt(img, t[i], z);
      NodeSpreads(img, t[i], z);
      var c := Content(t[i]);
      BytesRead(img, node, z, if t[i].Dir? then 1 else Blocks(|c|), c, |c|);
      assert c[..|c|] == c;
    }
  }

  // ---------------------------------------------------------------- directories

  predicate NulFree(name: seq<byte>) {
    forall i :: 0 <= i < |name| ==> name[i] != 0
  }

  predicate Proper(es: seq<Entry>) {
    forall i :: 0 <= i < |es| ==> 0 < es[i].ino < 0x1_0000_0000 && NulFree(es[i].name)
  }

  /** The first entry whose stored name is `name`. */
  function FirstIndex(es: seq<Entry>, name: seq<byte>): (k: Option<nat>)
    ensures k.None? ==> forall j :: 0 <= j < |es| ==> Cut(es[j].name) != name
    ensures k.Some? ==> k.value < |es| && Cut(es[k.value].name) == name
                        && forall j :: 0 <= j < k.value ==> Cut(es[j].name) != name
  {
    if es == [] then None
    else if Cut(es[0].name) == name then Some(0)
    else
      assert forall j :: 0 < j < |es| ==> es[j] == es[1..][j - 1];
      match FirstIndex(es[1..], name)
      case None => None
      case Some(k) => Some(k + 1)
  }

  /** An entry is the one found under its stored name exactly when no earlier entry stores the same. */
  lemma FoundIff(es: seq<Entry>, k: nat)
    requires k < |es|
    ensures FirstIndex(es, Cut(es[k].name)) == Some(k) <==> forall j :: 0 <= j < k ==> Cut(es[j].name) != Cut(es[k].name)
  {
    hide FirstIndex;
    var f := FirstIndex(es, Cut(es[k].name));
  }

  lemma NameReads(name: seq<byte>, k: nat)
    requires NulFree(name) && 0 < k
    ensures UpToZero(name + Zeros(k)) == name
  {
    if name != [] {
      NameReads(name[1..], k);
      assert (name + Zeros(k))[1..] == name[1..] + Zeros(k);
    }
  }

  lemma EntsFront(es: seq<Entry>)
    requires es != []
    ensures Ents(es) == Direct(es[0]) + Ents(es[1..])
  {
    if |es| > 1 {
      var init := es[..|es| - 1];
      EntsFront(init);
      assert es[1..][..|es[1..]| - 1] == init[1..];
      assert Ents(es) == (Direct(es[0]) + Ents(init[1..])) + Direct(es[|es| - 1]);
    }
  }

  lemma EntReads(dir: seq<byte>, e: Entry)
    requires |dir| >= 64 && dir[..64] == Direct(e)
    requires 0 < e.ino < 0x1_0000_0000 && NulFree(e.name)
    ensures Rd32(dir, 0) == e.ino && UpToZero(dir[4..64]) == Cut(e.name)
  {
    assert dir[0..4] == Direct(e)[0..4] == LE32(e.ino);
    Rd32LE32(dir, 0, e.ino);
    assert dir[4..64] == Direct(e)[4..64] == NameField(e.name);
    NameReads(Cut(e.name), 60 - |Cut(e.name)|);
  }

  lemma {:induction false} FindReads(es: seq<Entry>, name: seq<byte>)
    requires Proper(es)
    ensures Find(Ents(es), name) == match FirstIndex(es, name) case None => None case Some(k) => Some(es[k].ino)
  {
    if es != [] {
      hide Direct, Rd32, UpToZero, Cut;
      EntsFront(es);
      EntReads(Ents(es), es[0]);
      FindReads(es[1..], name);
      assert Ents(es)[64..] == Ents(es[1..]);
    }
  }

  /** Looking a name up in a directory of the image finds the first entry stored under it. */
  lemma LookupBack(img: seq<byte>, g: Geo, t: Tree, d: nat, name: seq<byte>)
    requires ImageOf(img, g, t) && ModesFit(t) && d < |t| && d < g.inodes
    requires t[d].Dir? && Proper(t[d].ents)
    ensures var k := FirstIndex(t[d].ents, name);
            && (k.None? ==> Lookup(img, d + 1, name) == None)
            && (k.Some? ==> k.value < |t[d].ents| && Lookup(img, d + 1, name) == Some(t[d].ents[k.value].ino))
  {
    hide ImageOf;
    ReadBack(img, g, t, d);
    FindReads(t[d].ents, name);
  }
}
