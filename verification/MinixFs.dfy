/**
 The MINIX V3 image: what a tree of files looks like on disk, byte for byte, and a reader that uses
 nothing but the bytes.

 The builder hands out zones and inodes in order, so where a node lies is determined by the nodes
 before it: node `i` of a tree starts at `Place(first data zone, tree[..i])`.
 */
module MinixFs {
  import opened Bytes

  const BLOCK: nat := 4096
  const DIRECT_ZONES: nat := 7
  const MAX_BLOCKS: nat := 1031 // 7 direct zones and 1024 in the indirect block
  const DIR_SLOTS: nat := 64
  const NAME_BYTES: nat := 59
  const I_DIRECTORY: nat := 0x41ED // 0o040755
  const I_REGULAR: nat := 0x81ED // 0o100755
  const SUPER_OFFSET: nat := 1024
  const SUPER_MAGIC: nat := 0x4D5A
  const ROOT_INODE: nat := 1

  // ---------------------------------------------------------------- the tree

  datatype Entry = Entry(ino: nat, name: seq<byte>)
  datatype Node = Dir(mode: nat, ents: seq<Entry>) | File(data: seq<byte>)
  type Tree = seq<Node>

  /** Blocks a file of `n` bytes takes. */
  function Blocks(n: nat): (b: nat)
    ensures n <= b * BLOCK < n + BLOCK
  {
    (n + BLOCK - 1) / BLOCK
  }

  /** Zones a node takes, its indirect block included. */
  function Len(n: Node): (k: nat) {
    match n
    case Dir(_, _) => 1
    case File(d) => if Blocks(|d|) > DIRECT_ZONES then Blocks(|d|) + 1 else Blocks(|d|)
  }

  /** The first zone after the nodes of `t`. */
  function Place(fdz: nat, t: Tree): (z: nat)
    ensures fdz <= z
  {
    if t == [] then fdz else Place(fdz, t[..|t| - 1]) + Len(t[|t| - 1])
  }

  // -------------------------------------------------------------- the bytes

  /** A name field: at most 59 bytes, and zeros to 60. */
  function NameField(name: seq<byte>): (b: seq<byte>)
    ensures |b| == 60
  {
    var kept := Cut(name);
    kept + Zeros(60 - |kept|)
  }

  function Cut(name: seq<byte>): (b: seq<byte>)
    ensures |b| <= NAME_BYTES
  {
    if |name| <= NAME_BYTES then name else name[..NAME_BYTES]
  }

  function Direct(e: Entry): (b: seq<byte>)
    ensures |b| == 64
  {
    LE32(e.ino) + NameField(e.name)
  }

  function Ents(es: seq<Entry>): (b: seq<byte>)
    ensures |b| == 64 * |es|
  {
    if es == [] then [] else Ents(es[..|es| - 1]) + Direct(es[|es| - 1])
  }

  function DirBlock(es: seq<Entry>): (b: seq<byte>)
    requires |es| <= DIR_SLOTS
    ensures |b| == BLOCK
  {
    Ents(es) + Zeros(BLOCK - 64 * |es|)
  }

  /** `k` zone numbers from `z` on. */
  function Pointers(z: nat, k: nat): (b: seq<byte>)
    ensures |b| == 4 * k
  {
    if k == 0 then [] else Pointers(z, k - 1) + LE32(z + k - 1)
  }

  function IndirectBlock(z: nat, blocks: nat): (b: seq<byte>)
    requires DIRECT_ZONES < blocks <= MAX_BLOCKS
    ensures |b| == BLOCK
  {
    Pointers(z + DIRECT_ZONES, blocks - DIRECT_ZONES) + Zeros(BLOCK - 4 * (blocks - DIRECT_ZONES))
  }

  predicate Sized(n: Node) {
    match n
    case Dir(_, es) => |es| <= DIR_SLOTS
    case File(d) => Blocks(|d|) <= MAX_BLOCKS
  }

  /** What the zones of a node that starts at zone `z` hold. */
  function NodeBytes(n: Node, z: nat): (b: seq<byte>)
    requires Sized(n)
    ensures |b| == Len(n) * BLOCK
  {
    match n
    case Dir(_, es) => DirBlock(es)
    case File(d) =>
      var padded := d + Zeros(Blocks(|d|) * BLOCK - |d|);
      if Blocks(|d|) > DIRECT_ZONES then padded + IndirectBlock(z, Blocks(|d|)) else padded
  }

  datatype Inode = Inode(mode: nat, size: nat, zones: seq<nat>)

  function ZoneMap(z: nat, blocks: nat): (zs: seq<nat>)
    ensures |zs| == 10
  {
    seq(10, i => if i < DIRECT_ZONES then (if i < blocks then z + i else 0)
                 else if i == DIRECT_ZONES && blocks > DIRECT_ZONES then z + blocks else 0)
  }

  function InodeOf(n: Node, z: nat): (i: Inode)
    ensures |i.zones| == 10
  {
    match n
    case Dir(mode, es) => Inode(mode, 64 * |es|, ZoneMap(z, 1))
    case File(d) => Inode(I_REGULAR, |d|, ZoneMap(z, Blocks(|d|)))
  }

  function ZoneBytes(zs: seq<nat>): (b: seq<byte>)
    ensures |b| == 4 * |zs|
  {
    if zs == [] then [] else ZoneBytes(zs[..|zs| - 1]) + LE32(zs[|zs| - 1])
  }

  /** An inode on disk: mode, one link, owner 0, size, three zero times, ten zone numbers. */
  function InodeBytes(i: Inode): (b: seq<byte>)
    requires |i.zones| == 10
    ensures |b| == 64
  {
    LE16(i.mode) + LE16(1) + LE16(0) + LE16(0) + LE32(i.size) + Zeros(12) + ZoneBytes(i.zones)
  }

  function TableBytes(t: seq<Inode>): (b: seq<byte>)
    requires forall i :: 0 <= i < |t| ==> |t[i].zones| == 10
    ensures |b| == 64 * |t|
  {
    if t == [] then [] else TableBytes(t[..|t| - 1]) + InodeBytes(t[|t| - 1])
  }

  // ------------------------------------------------------------- the layout

  datatype Geo = Geo(total: nat, inodes: nat) {
    function ImapBlocks(): (n: nat) { (inodes + 32767) / 32768 }
    function ZmapBlocks(): (n: nat) { (total + 32767) / 32768 }
    function InodeBlocks(): (n: nat) { (inodes + 63) / 64 }
    function Imap(): (n: nat) { 2 }
    function Zmap(): (n: nat) { 2 + ImapBlocks() }
    function Itable(): (n: nat) { 2 + ImapBlocks() + ZmapBlocks() }
    function FirstDataZone(): (n: nat) { 2 + ImapBlocks() + ZmapBlocks() + InodeBlocks() }

    /** The counts the 16-bit superblock fields can hold. */
    predicate Sane() { total <= 0x3FFF_8000 && inodes <= 0x3FFF_8000 }
  }

  function SuperBytes(g: Geo): (b: seq<byte>)
    ensures |b| == 36
  {
    LE32(g.inodes) + LE32(g.total) + LE16(g.ImapBlocks()) + LE16(g.ZmapBlocks()) + LE32(g.FirstDataZone())
    + LE16(0) + LE16(0) + LE32(0x7FFF_FFFF) + LE32(g.total) + LE16(SUPER_MAGIC) + LE16(0) + LE16(BLOCK) + [0, 0]
  }

  // ---------------------------------------------------------------- the reader

  /** What a reader takes from the superblock of an image. */
  datatype Super = Super(inodes: nat, itable: nat)

  function ReadSuper(img: seq<byte>): (s: Option<Super>) {
    if |img| < SUPER_OFFSET + 36 then None
    else if Rd16(img, SUPER_OFFSET + 28) != SUPER_MAGIC then None
    else Some(Super(Rd32(img, SUPER_OFFSET), 2 + Rd16(img, SUPER_OFFSET + 8) + Rd16(img, SUPER_OFFSET + 10)))
  }

  function ReadInode(img: seq<byte>, ino: nat): (r: Option<Inode>)
    ensures r.Some? ==> |r.value.zones| == 10
  {
    var s := ReadSuper(img);
    if s.None? || ino == 0 || ino > s.value.inodes then None
    else
      var at := s.value.itable * BLOCK + (ino - 1) * 64;
      if at + 64 > |img| then None
      else Some(Inode(Rd16(img, at), Rd32(img, at + 8), seq(10, i requires 0 <= i < 10 => Rd32(img, at + 24 + 4 * i))))
  }

  /** The zone of block `b`: seven direct zones, then the indirect block. */
  function ReadMap(img: seq<byte>, i: Inode, b: nat): (z: Option<nat>)
    requires |i.zones| == 10
  {
    if b < DIRECT_ZONES then Some(i.zones[b])
    else if b >= MAX_BLOCKS || (i.zones[DIRECT_ZONES] + 1) * BLOCK > |img| then None
    else Some(Rd32(img, i.zones[DIRECT_ZONES] * BLOCK + 4 * (b - DIRECT_ZONES)))
  }

  /** The first `n` bytes of a file, block by block. */
  function ReadBytes(img: seq<byte>, i: Inode, n: nat): (d: Option<seq<byte>>)
    requires |i.zones| == 10
    decreases n
  {
    if n == 0 then Some([])
    else
      var b := (n - 1) / BLOCK;
      var z := ReadMap(img, i, b);
      if z.None? || z.value * BLOCK + (n - b * BLOCK) > |img| then None
      else
        var front := ReadBytes(img, i, b * BLOCK);
        if front.None? then None
        else Some(front.value + img[z.value * BLOCK..z.value * BLOCK + (n - b * BLOCK)])
  }

  function ReadFile(img: seq<byte>, ino: nat): (d: Option<seq<byte>>) {
    var i := ReadInode(img, ino);
    if i.None? then None else ReadBytes(img, i.value, i.value.size)
  }

  /** The first directory entry with this name. */
  function Find(dir: seq<byte>, name: seq<byte>): (ino: Option<nat>)
    decreases |dir|
  {
    if |dir| < 64 then None
    else if Rd32(dir, 0) != 0 && UpToZero(dir[4..64]) == name then Some(Rd32(dir, 0))
    else Find(dir[64..], name)
  }

  function Lookup(img: seq<byte>, dirIno: nat, name: seq<byte>): (ino: Option<nat>) {
    var d := ReadFile(img, dirIno);
    if d.None? then None else Find(d.value, name)
  }
}
