/**
 `FsImage`: the builder's object and its methods. A panic of the builder is a `None` or `false`
 here, and each method says exactly when that happens.
 */
module MinixImage {
  import opened Bytes
  import opened MinixFs
  import opened MinixRead
  import opened MinixBuild
  import Bitmap

  /** `n` zone numbers from `p` on. */
  function Consecutive(p: nat, n: nat): (zs: seq<nat>)
    ensures |zs| == n && forall i :: 0 <= i < n ==> zs[i] == p + i
  {
    if n == 0 then [] else Consecutive(p, n - 1) + [p + n - 1]
  }

  /** `zs` over the direct zones of `was`. */
  function OverDirect(zs: seq<nat>, was: seq<nat>): (r: seq<nat>)
    requires |was| == 10
    ensures |r| == 10
  {
    seq(10, i requires 0 <= i < 10 => if i < |zs| && i < DIRECT_ZONES then zs[i] else was[i])
  }

  const DOT: seq<byte> := [46]
  const DOTDOT: seq<byte> := [46, 46]

  class FsImage {
    const g: Geo
    var data: seq<byte>
    var nextInode: nat
    var nextZone: nat
    var inodeBitmap: Bitmap.Map
    var zoneBitmap: Bitmap.Map
    var inodeTable: seq<Inode>

    /** The counters and the bitmaps agree. */
    ghost predicate Counted()
      reads this
    {
      && g.FirstDataZone() <= nextZone && nextInode == |inodeTable| + 1
      && |data| == g.total * BLOCK
      && |inodeBitmap| == g.ImapBlocks() * BLOCK && |zoneBitmap| == g.ZmapBlocks() * BLOCK
      && Marked(inodeBitmap, zoneBitmap, |inodeTable|, nextZone - g.FirstDataZone())
    }

    /** The object holds the tree `t`. */
    ghost predicate Holds(t: Tree)
      reads this
    {
      && g.Sane() && Counted() && Rep(data, inodeTable, g, t) && nextZone == Place(g.FirstDataZone(), t)
    }

    /** `new`: an empty image with inode 1 reserved. */
    constructor (total: nat, inodes: nat)
      requires Geo(total, inodes).Sane() && 0 < inodes
      ensures g == Geo(total, inodes) && Counted() && nextZone == g.FirstDataZone()
      ensures inodeTable == [Inode(0, 0, ZoneMap(0, 0))] && data == Zeros(total * BLOCK)
    {
      var geo := Geo(total, inodes);
      g := geo;
      data := Zeros(total * BLOCK);
      nextInode := ROOT_INODE + 1;
      nextZone := geo.FirstDataZone();
      inodeBitmap := Bitmap.Set(Bitmap.Clear(geo.ImapBlocks() * BLOCK), ROOT_INODE - 1);
      zoneBitmap := Bitmap.Clear(geo.ZmapBlocks() * BLOCK);
      inodeTable := [Inode(0, 0, ZoneMap(0, 0))];
    }

    method SetZoneUsed(zone: nat)
      requires g.FirstDataZone() <= zone + 1
      modifies this`zoneBitmap
      ensures |zoneBitmap| == |old(zoneBitmap)|
      ensures forall b :: 0 <= b < 8 * |zoneBitmap| ==>
                (Bitmap.Test(zoneBitmap, b) <==> b == zone + 1 - g.FirstDataZone() || Bitmap.Test(old(zoneBitmap), b))
    {
      var bit := zone - (g.FirstDataZone() - 1);
      if bit / 8 < |zoneBitmap| {
        zoneBitmap := Bitmap.Set(zoneBitmap, bit);
      }
    }

    method AllocZone() returns (z: nat)
      requires Counted()
      modifies this`nextZone, this`zoneBitmap
      ensures Counted() && z == old(nextZone) && nextZone == z + 1
    {
      z := nextZone;
      nextZone := nextZone + 1;
      SetZoneUsed(z);
    }

    /** `alloc_inode`; indexing past the inode map panics. */
    method AllocInode(mode: nat, size: nat) returns (ino: Option<nat>)
      requires Counted()
      modifies this`nextInode, this`inodeTable, this`inodeBitmap
      ensures ino.Some? <==> old(|inodeTable|) < 8 * |inodeBitmap|
      ensures ino.Some? ==> Counted() && ino.value == |inodeTable| == old(|inodeTable|) + 1
      ensures ino.Some? ==> inodeTable == old(inodeTable) + [Inode(mode, size, ZoneMap(0, 0))]
      ensures |inodeBitmap| == |old(inodeBitmap)|
    {
      var n := nextInode;
      nextInode := nextInode + 1;
      inodeTable := inodeTable + [Inode(mode, size, ZoneMap(0, 0))];
      var bit := n - 1;
      if bit / 8 >= |inodeBitmap| {
        return None;
      }
      inodeBitmap := Bitmap.Set(inodeBitmap, bit);
      return Some(n);
    }

    /** `write_zone`; writing past the image panics. */
    method WriteZone(zone: nat, bytes: seq<byte>) returns (ok: bool)
      modifies this`data
      ensures ok <==> zone * BLOCK + |bytes| <= |old(data)|
      ensures data == if ok then Splice(old(data), zone * BLOCK, bytes) else old(data)
    {
      if zone * BLOCK + |bytes| > |data| {
        return false;
      }
      data := Splice(data, zone * BLOCK, bytes);
      return true;
    }

    /** The first directory slot with no inode. */
    method FreeSlot(dirZone: nat, ghost es: seq<Entry>) returns (slot: nat)
      requires (dirZone + 1) * BLOCK <= |data| && |es| <= DIR_SLOTS
      requires data[dirZone * BLOCK..(dirZone + 1) * BLOCK] == DirBlock(es)
      requires forall j :: 0 <= j < |es| ==> 0 < es[j].ino < 0x1_0000_0000
      ensures slot == |es|
    {
      slot := 0;
      while slot < DIR_SLOTS && Rd32(data, dirZone * BLOCK + slot * 64) != 0
        invariant 0 <= slot <= |es|
      {
        SlotReads(data, dirZone, es, slot);
        slot := slot + 1;
      }
      if slot < |es| {
        SlotReads(data, dirZone, es, slot);
      }
    }

    /** Grow the size of the inode that owns `dirZone`, if the entry in `slot` lies past it. */
    method GrowDirectory(dirZone: nat, slot: nat, ghost k: nat)
      requires k < |inodeTable| && forall i :: 0 <= i < |inodeTable| ==> |inodeTable[i].zones| == 10
      requires forall i :: 0 <= i < |inodeTable| ==> (inodeTable[i].zones[0] == dirZone <==> i == k)
      modifies this`inodeTable
      ensures inodeTable == old(inodeTable)[k := old(inodeTable[k]).(size := Max(old(inodeTable[k].size), (slot + 1) * 64))]
    {
      var i := 0;
      while i < |inodeTable|
        invariant 0 <= i <= |inodeTable|
        invariant inodeTable == old(inodeTable)
        invariant i > k ==> old(inodeTable[k].size) >= (slot + 1) * 64
      {
        if inodeTable[i].zones[0] == dirZone && inodeTable[i].size < (slot + 1) * 64 {
          inodeTable := inodeTable[i := inodeTable[i].(size := (slot + 1) * 64)];
          return;
        }
        i := i + 1;
      }
    }

    /** `add_dirent`: the entry goes into the first free slot of the directory's zone; a full
        directory, or a zone outside the image, panics. */
    method AddDirent(dirZone: nat, ino: nat, name: seq<byte>, ghost es: seq<Entry>, ghost k: nat) returns (ok: bool)
      requires |es| <= DIR_SLOTS && forall j :: 0 <= j < |es| ==> 0 < es[j].ino < 0x1_0000_0000
      requires (dirZone + 1) * BLOCK <= |data| ==> data[dirZone * BLOCK..(dirZone + 1) * BLOCK] == DirBlock(es)
      requires k < |inodeTable| && forall i :: 0 <= i < |inodeTable| ==> |inodeTable[i].zones| == 10
      requires forall i :: 0 <= i < |inodeTable| ==> (inodeTable[i].zones[0] == dirZone <==> i == k)
      modifies this`data, this`inodeTable
      ensures ok <==> (dirZone + 1) * BLOCK <= |old(data)| && |es| < DIR_SLOTS
      ensures ok ==> data == Splice(old(data), dirZone * BLOCK + 64 * |es|, Direct(Entry(ino, name)))
      ensures ok ==>
        inodeTable == old(inodeTable)[k := old(inodeTable[k]).(size := Max(old(inodeTable[k].size), 64 * (|es| + 1)))]
    {
      hide DirBlock, Direct;
      if (dirZone + 1) * BLOCK > |data| {
        return false;
      }
      var slot := FreeSlot(dirZone, es);
      if slot == DIR_SLOTS {
        return false;
      }
      data := Splice(data, dirZone * BLOCK + slot * 64, Direct(Entry(ino, name)));
      GrowDirectory(dirZone, slot, k);
      return true;
    }

    /** One block into one fresh zone. */
    method WriteBlock(chunk: seq<byte>) returns (z: Option<nat>)
      requires Counted() && 0 < |chunk| <= BLOCK
      modifies this`data, this`nextZone, this`zoneBitmap
      ensures z.Some? <==> old(nextZone) < g.total
      ensures z.Some? ==> Counted() && z.value == old(nextZone) && nextZone == z.value + 1
      ensures z.Some? ==> |data| == |old(data)| == g.total * BLOCK
      ensures z.Some? ==> data == Splice(old(data), old(nextZone) * BLOCK, chunk)
    {
      hide Marked, Splice;
      var zone := AllocZone();
      var ok := WriteZone(zone, chunk);
      return if ok then Some(zone) else None;
    }

    /** The blocks of a file, one freshly allocated zone each. */
    method WriteBlocks(bytes: seq<byte>) returns (zones: Option<seq<nat>>)
      requires Counted() && nextZone <= g.total && |data| == g.total * BLOCK
      modifies this`data, this`nextZone, this`zoneBitmap
      ensures zones.Some? <==> old(nextZone) + Blocks(|bytes|) <= g.total
      ensures zones.Some? ==> Counted() && nextZone == old(nextZone) + Blocks(|bytes|)
      ensures zones.Some? ==> zones.value == Consecutive(old(nextZone), Blocks(|bytes|))
      ensures zones.Some? ==> old(nextZone) * BLOCK + |bytes| <= |old(data)|
                              && data == Splice(old(data), old(nextZone) * BLOCK, bytes)
    {
      hide Counted, Splice, Consecutive, Blocks;
      var needed := Blocks(|bytes|);
      ConsecutiveGrows(nextZone);
      var zs: seq<nat> := [];
      var i := 0;
      ghost var p, was, done := nextZone, data, 0;
      SpliceNothing(data, p * BLOCK, bytes[..0]);
      while i < needed
        invariant 0 <= i <= needed && p + i <= g.total && nextZone == p + i
        invariant Counted() && |data| == |was| == g.total * BLOCK
        invariant zs == Consecutive(p, i)
        invariant done == (if i < needed then i * BLOCK else |bytes|)
        invariant p * BLOCK + done <= |was| && data == Splice(was, p * BLOCK, bytes[..done])
      {
        var start := i * BLOCK;
        var end := if start + BLOCK <= |bytes| then start + BLOCK else |bytes|;
        var z := WriteBlock(bytes[start..end]);
        if z.None? {
          return None;
        }
        BlockWritten(was, p * BLOCK, bytes, start, end);
        done := end;
        zs := zs + [z.value];
        i := i + 1;
      }
      assert bytes[..done] == bytes;
      return Some(zs);
    }

    /** The direct zones of an inode, from the zones its blocks went to. */
    method RecordDirect(idx: nat, zones: seq<nat>)
      requires idx < |inodeTable| && |inodeTable[idx].zones| == 10
      modifies this`inodeTable
      ensures inodeTable == old(inodeTable)[idx := old(inodeTable[idx]).(zones := OverDirect(zones, old(inodeTable[idx].zones)))]
    {
      var direct := Min(|zones|, DIRECT_ZONES);
      var i := 0;
      while i < direct
        invariant 0 <= i <= direct
        invariant |inodeTable| == |old(inodeTable)| && |inodeTable[idx].zones| == 10
        invariant inodeTable == old(inodeTable)[idx := old(inodeTable[idx]).(zones := inodeTable[idx].zones)]
        invariant forall j :: 0 <= j < 10 ==> inodeTable[idx].zones[j] == if j < i then zones[j] else old(inodeTable[idx].zones[j])
      {
        inodeTable := inodeTable[idx := inodeTable[idx].(zones := inodeTable[idx].zones[i := zones[i]])];
        i := i + 1;
      }
      assert inodeTable[idx].zones == OverDirect(zones, old(inodeTable[idx].zones));
    }

    /** The indirect block: a 1025th pointer panics. */
    static method BuildIndirect(zones: seq<nat>, ghost p: nat) returns (b: Option<seq<byte>>)
      requires |zones| > DIRECT_ZONES && zones == Consecutive(p, |zones|)
      ensures b.Some? <==> |zones| <= MAX_BLOCKS
      ensures b.Some? ==> b.value == IndirectBlock(p, |zones|)
    {
      hide LE32, Pointers, Splice, Zeros;
      var block := Zeros(BLOCK);
      var j := 0;
      PointersNone(p + DIRECT_ZONES);
      while DIRECT_ZONES + j < |zones|
        invariant 0 <= j <= 1024 && DIRECT_ZONES + j <= |zones|
        invariant block == Pointers(p + DIRECT_ZONES, j) + Zeros(BLOCK - 4 * j)
      {
        if j * 4 + 4 > BLOCK {
          return None;
        }
        PointersMore(p + DIRECT_ZONES, j);
        block := Splice(block, j * 4, LE32(zones[DIRECT_ZONES + j]));
        j := j + 1;
      }
      return Some(block);
    }

    /** Allocate and write the indirect block, and point the inode at it. */
    method StoreIndirect(idx: nat, zones: seq<nat>, ghost p: nat) returns (ok: bool)
      requires Counted() && idx < |inodeTable| && |inodeTable[idx].zones| == 10
      requires |zones| > DIRECT_ZONES && zones == Consecutive(p, |zones|)
      modifies this`data, this`nextZone, this`zoneBitmap, this`inodeTable
      ensures ok <==> |zones| <= MAX_BLOCKS && old(nextZone) < g.total
      ensures ok ==> Counted() && nextZone == old(nextZone) + 1
      ensures ok ==> (old(nextZone) + 1) * BLOCK <= |old(data)|
                     && data == Splice(old(data), old(nextZone) * BLOCK, IndirectBlock(p, |zones|))
      ensures ok ==> inodeTable == old(inodeTable)[idx :=
                       old(inodeTable[idx]).(zones := old(inodeTable[idx].zones)[DIRECT_ZONES := old(nextZone)])]
    {
      hide Marked, Splice, IndirectBlock;
      var indirZone := AllocZone();
      var block := BuildIndirect(zones, p);
      if block.None? {
        return false;
      }
      ok := WriteZone(indirZone, block.value);
      if !ok {
        return false;
      }
      inodeTable := inodeTable[idx := inodeTable[idx].(zones := inodeTable[idx].zones[DIRECT_ZONES := indirZone])];
    }

    /** Whether a file can be added to directory `d` of `t` without a panic. */
    ghost predicate FileFits(t: Tree, d: nat, bytes: seq<byte>)
      requires d < |t| && t[d].Dir?
    {
      && Blocks(|bytes|) <= MAX_BLOCKS
      && Place(g.FirstDataZone(), t) + Len(File(bytes)) <= g.total
      && |t| < 8 * BLOCK * g.ImapBlocks()
      && |t[d].ents| < DIR_SLOTS
    }

    /** The zones, the inode and the zone map of a file, before it is entered in a directory. */
    method StoreFile(bytes: seq<byte>, ghost t: Tree) returns (ino: Option<nat>)
      requires Holds(t)
      modifies this
      ensures ino.Some? <==>
                && Blocks(|bytes|) <= MAX_BLOCKS
                && Place(g.FirstDataZone(), t) + Len(File(bytes)) <= g.total
                && |t| < 8 * BLOCK * g.ImapBlocks()
      ensures ino.Some? ==> ino.value == |t| + 1 && Holds(t + [File(bytes)])
    {
      hide Marked, Splice, Rep, Place, IndirectBlock, InodeOf, ZoneMap, OverDirect, Consecutive;
      ghost var p := nextZone;
      ghost var was := data;
      PlaceBound(data, inodeTable, g, t);
      var zones := WriteBlocks(bytes);
      if zones.None? {
        return None;
      }
      ino := AllocInode(I_REGULAR, |bytes|);
      if ino.None? {
        return None;
      }
      var idx := ino.value - 1;
      var needed := |zones.value|;
      RecordDirect(idx, zones.value);
      if needed > DIRECT_ZONES {
        var ok := StoreIndirect(idx, zones.value, p);
        if !ok {
          return None;
        }
      }
      MapRecorded(p, needed);
      FileStored(was, old(inodeTable), g, t, bytes);
      assert inodeTable == old(inodeTable) + [Inode(I_REGULAR, |bytes|, ZoneMap(p, needed))];
    }

    /** `add_file`: the file's zones and inode, then its entry in directory `d`, whose zone is
        `dirZone`. It succeeds exactly when everything fits. */
    method AddFile(dirZone: nat, name: seq<byte>, bytes: seq<byte>, ghost t: Tree, ghost d: nat) returns (ino: Option<nat>)
      requires Holds(t) && d < |t| && t[d].Dir? && dirZone == Start(g, t, d)
      modifies this
      ensures ino.Some? <==> FileFits(t, d, bytes)
      ensures ino.Some? ==> ino.value == |t| + 1 && Holds(Grown(t, d, name, File(bytes)))
    {
      hide Rep, Counted, Len, Direct;
      ino := StoreFile(bytes, t);
      if ino.None? {
        return None;
      }
      ghost var u := t + [File(bytes)];
      assert u[..d] == t[..d];
      var ok := EnterName(dirZone, ino.value, name, u, d);
      if !ok {
        return None;
      }
      assert u[d := WithEntry(u[d], Entry(ino.value, name))] == Grown(t, d, name, File(bytes));
    }

    /** `add_dirent` into a directory of the tree the image holds. */
    method EnterName(dirZone: nat, ino: nat, name: seq<byte>, ghost t: Tree, ghost d: nat) returns (ok: bool)
      requires Holds(t) && d < |t| && t[d].Dir? && dirZone == Start(g, t, d) && 0 < ino < 0x1_0000_0000
      modifies this`data, this`inodeTable
      ensures ok <==> |t[d].ents| < DIR_SLOTS
      ensures ok ==> Holds(t[d := WithEntry(t[d], Entry(ino, name))])
    {
      hide Direct, Marked, Rep, Place, Start, Splice, DirBlock;
      DirectoryReady(data, inodeTable, g, t, d);
      ok := AddDirent(dirZone, ino, name, t[d].ents, d);
      if ok {
        RepEntry(old(data), old(inodeTable), g, t, d, Entry(ino, name));
        PlaceKept(g, t, d, WithEntry(t[d], Entry(ino, name)));
      }
    }

    /** `create_directory` for the root: one zone with `.` and `..`, and inode 1 made a directory. */
    method CreateRoot() returns (zone: Option<nat>)
      requires g.Sane() && Counted() && nextZone == g.FirstDataZone()
      requires inodeTable == [Inode(0, 0, ZoneMap(0, 0))] && data == Zeros(g.total * BLOCK)
      modifies this
      ensures zone.Some? <==> g.FirstDataZone() < g.total
      ensures zone.Some? ==> zone.value == Start(g, [Root()], 0) && Holds([Root()])
    {
      hide Marked, Splice, Direct, Zeros, Ents;
      var z := AllocZone();
      var dirData := Direct(Entry(ROOT_INODE, DOT)) + Direct(Entry(ROOT_INODE, DOTDOT));
      var ok := WriteZone(z, dirData);
      if !ok {
        return None;
      }
      ZoneMapFirst(z);
      inodeTable := inodeTable[0 := Inode(I_DIRECTORY, |dirData|, inodeTable[0].zones[0 := z])];
      RootLaid(g);
      return Some(z);
    }

    /** Whether a directory can be made under the root without a panic. */
    ghost predicate DirFits(t: Tree)
      requires 0 < |t| && t[0].Dir?
    {
      && Place(g.FirstDataZone(), t) < g.total
      && |t| < 8 * BLOCK * g.ImapBlocks()
      && |t[0].ents| < DIR_SLOTS
    }

    /** A directory under the root: a zone, an inode of size 64, the root's entry, `.` and `..`. */
    method MakeDirectory(rootZone: nat, name: seq<byte>, mode: nat, ghost t: Tree) returns (zone: Option<nat>)
      requires Holds(t) && 0 < |t| && t[0].Dir? && rootZone == Start(g, t, 0)
      modifies this
      ensures zone.Some? <==> DirFits(t)
      ensures zone.Some? ==> zone.value == Place(g.FirstDataZone(), t) && Holds(Grown(t, 0, name, SubDir(mode, |t| + 1)))
    {
      hide Marked, Splice, Direct, Rep, Place, Start, DirBlock, ZoneMap, Table;
      ghost var was, table := data, inodeTable;
      PlaceBound(data, inodeTable, g, t);
      DirectoryReady(data, inodeTable, g, t, 0);
      FirstZones(data, inodeTable, g, t);
      var z := AllocZone();
      var ino := AllocInode(mode, 64);
      if ino.None? {
        return None;
      }
      ZoneMapFirst(z);
      inodeTable := inodeTable[ino.value - 1 := inodeTable[ino.value - 1].(zones := inodeTable[ino.value - 1].zones[0 := z])];
      assert inodeTable == table + [Inode(mode, 64, ZoneMap(z, 1))];
      var ok := AddDirent(rootZone, ino.value, name, t[0].ents, 0);
      if !ok {
        return None;
      }
      ghost var root := table[0 := table[0].(size := 64 * (|t[0].ents| + 1))];
      assert inodeTable == root + [Inode(mode, 64, ZoneMap(z, 1))];
      if z < g.total {
        SubDirEmpty(was, table, g, t, name, mode);
      }
      ok := FillDirectory(z, ino.value, root, t, name, mode);
      MakingPlace(g, t, name, mode, SubDir(mode, |t| + 1).ents);
      return if ok then Some(z) else None;
    }

    /** `.` and `..` of a new directory, whose zone may lie outside the image. */
    method FillDirectory(z: nat, ino: nat, ghost root: seq<Inode>, ghost t: Tree, ghost name: seq<byte>, ghost mode: nat)
      returns (ok: bool)
      requires 0 < |t| == |root| && t[0].Dir? && z == Place(g.FirstDataZone(), t) && 0 < ino == |t| + 1 < 0x1_0000_0000
      requires inodeTable == root + [Inode(mode, 64, ZoneMap(z, 1))] && |data| == g.total * BLOCK
      requires forall i :: 0 <= i < |root| ==> |root[i].zones| == 10 && root[i].zones[0] < z
      requires z < g.total ==>
        Rep(data, root + [MakingInode(mode, z, 0)], g, Making(t, name, mode, []))
        && data[z * BLOCK..(z + 1) * BLOCK] == DirBlock([])
      modifies this`data, this`inodeTable
      ensures ok <==> z < g.total
      ensures ok ==> Rep(data, inodeTable, g, Making(t, name, mode, SubDir(mode, ino).ents)) && |data| == |old(data)|
      ensures ok ==> |inodeTable| == |old(inodeTable)|
    {
      hide Splice, Direct, Rep, Place, Start, DirBlock, Table, Making, ZoneMap;
      ZoneMapFirst(z);
      var dot, dotdot := Entry(ino, DOT), Entry(ROOT_INODE, DOTDOT);
      ok := AddDirent(z, ino, DOT, [], |t|);
      if !ok {
        return false;
      }
      assert inodeTable == root + [Inode(mode, 64, ZoneMap(z, 1))];
      SubDirStep(old(data), root, g, t, name, mode, [], dot);
      assert [] + [dot] == [dot];
      ghost var d := data;
      ok := AddDirent(z, ROOT_INODE, DOTDOT, [dot], |t|);
      assert inodeTable == root + [MakingInode(mode, z, 2)];
      SubDirStep(d, root, g, t, name, mode, [dot], dotdot);
      assert [dot] + [dotdot] == SubDir(mode, ino).ents;
    }

    /** `finalise`: the superblock, the two bitmaps and the inode table go below the first data zone.
        A table too long for its blocks is cut. */
    method Finalise(ghost t: Tree) returns (img: seq<byte>)
      requires Holds(t)
      modifies this`zoneBitmap, this`data
      ensures ImageOf(img, g, t)
      ensures BitmapsOf(img, g, |t|, Place(g.FirstDataZone(), t) - g.FirstDataZone())
    {
      hide Laid, SuperBytes, TableBytes, Splice, Place, Table;
      Below(data, g, t);
      TableShape(g, t);
      ghost var p := nextZone;
      var d1 := Splice(data, SUPER_OFFSET, SuperBytes(g));
      var d2 := Splice(d1, g.Imap() * BLOCK, Bitmap.ToBytes(inodeBitmap));
      SetZoneUsed(g.FirstDataZone() - 1);
      var d3 := Splice(d2, g.Zmap() * BLOCK, Bitmap.ToBytes(zoneBitmap));
      var table := TableBytes(inodeTable);
      var n := Min(|table|, g.InodeBlocks() * BLOCK);
      img := Splice(d3, g.Itable() * BLOCK, table[..n]);
      Finished(data, g, t, inodeBitmap, zoneBitmap);
    }
  }

  /** The image with everything below the first data zone filled in. */
  function Filled(data: seq<byte>, g: Geo, t: Tree, ibits: Bitmap.Map, zbits: Bitmap.Map): (img: seq<byte>)
    requires |ibits| == g.ImapBlocks() * BLOCK && |zbits| == g.ZmapBlocks() * BLOCK && g.FirstDataZone() * BLOCK <= |data|
    ensures |img| == |data|
  {
    var table := TableBytes(Table(g, t));
    var d1 := Splice(data, SUPER_OFFSET, SuperBytes(g));
    var d2 := Splice(d1, g.Imap() * BLOCK, Bitmap.ToBytes(ibits));
    var d3 := Splice(d2, g.Zmap() * BLOCK, Bitmap.ToBytes(zbits));
    Splice(d3, g.Itable() * BLOCK, table[..Min(|table|, g.InodeBlocks() * BLOCK)])
  }

  /** The bitmaps an image stores: inode `n` is bit `n - 1`, data zone `first + b - 1` is bit `b`, and
      bit 0 of the zone map is taken. */
  ghost predicate BitmapsOf(img: seq<byte>, g: Geo, inodes: nat, zones: nat) {
    && g.Itable() * BLOCK <= |img|
    && var ibits := Bitmap.FromBytes(img[g.Imap() * BLOCK..g.Zmap() * BLOCK]);
       var zbits := Bitmap.FromBytes(img[g.Zmap() * BLOCK..g.Itable() * BLOCK]);
    && (forall b :: 0 <= b < 8 * |ibits| ==> (Bitmap.Test(ibits, b) <==> b < inodes))
    && (forall b :: 0 <= b < 8 * |zbits| ==> (Bitmap.Test(zbits, b) <==> b <= zones))
  }

  lemma Below(data: seq<byte>, g: Geo, t: Tree)
    requires Laid(data, g, t)
    ensures g.FirstDataZone() * BLOCK <= |data|
  {
  }

  lemma TableShape(g: Geo, t: Tree)
    ensures |Table(g, t)| == |t| && |TableBytes(Table(g, t))| == 64 * |t|
  {
  }

  lemma LaidBelow(data: seq<byte>, g: Geo, t: Tree, at: nat, bytes: seq<byte>)
    requires Laid(data, g, t) && at + |bytes| <= g.FirstDataZone() * BLOCK
    ensures at + |bytes| <= |data| && Laid(Splice(data, at, bytes), g, t)
  {
    var r := Splice(data, at, bytes);
    forall i | 0 <= i < |t| ensures NodeAt(r, t[i], Start(g, t, i)) {
      hide Splice;
      NodeStays(data, t[i], Start(g, t, i), at, bytes);
    }
  }

  /** The four pieces tile what lies below the data zones, so each survives the others. */
  lemma Finished(data: seq<byte>, g: Geo, t: Tree, ibits: Bitmap.Map, zbits: Bitmap.Map)
    requires |ibits| == g.ImapBlocks() * BLOCK && |zbits| == g.ZmapBlocks() * BLOCK
    requires g.Sane() && |data| == g.total * BLOCK && Laid(data, g, t) && g.FirstDataZone() * BLOCK <= |data|
    ensures var img := Filled(data, g, t, ibits, zbits);
            && ImageOf(img, g, t)
            && Bitmap.FromBytes(img[g.Imap() * BLOCK..g.Zmap() * BLOCK]) == ibits
            && Bitmap.FromBytes(img[g.Zmap() * BLOCK..g.Itable() * BLOCK]) == zbits
  {
    hide Laid, SuperBytes, TableBytes, Splice, Table, Bitmap.ToBytes, Bitmap.FromBytes;
    var table := TableBytes(Table(g, t));
    TableShape(g, t);
    var top := table[..Min(|table|, g.InodeBlocks() * BLOCK)];
    var im, zm, it := g.Imap() * BLOCK, g.Zmap() * BLOCK, g.Itable() * BLOCK;
    var d1 := Splice(data, SUPER_OFFSET, SuperBytes(g));
    var d2 := Splice(d1, im, Bitmap.ToBytes(ibits));
    var d3 := Splice(d2, zm, Bitmap.ToBytes(zbits));
    var img := Splice(d3, it, top);
    LaidBelow(data, g, t, SUPER_OFFSET, SuperBytes(g));
    LaidBelow(d1, g, t, im, Bitmap.ToBytes(ibits));
    LaidBelow(d2, g, t, zm, Bitmap.ToBytes(zbits));
    LaidBelow(d3, g, t, it, top);
    SpliceKeeps(d1, im, Bitmap.ToBytes(ibits), SUPER_OFFSET, SUPER_OFFSET + 36);
    SpliceKeeps(d2, zm, Bitmap.ToBytes(zbits), SUPER_OFFSET, SUPER_OFFSET + 36);
    SpliceKeeps(d3, it, top, SUPER_OFFSET, SUPER_OFFSET + 36);
    SpliceKeeps(d2, zm, Bitmap.ToBytes(zbits), im, zm);
    SpliceKeeps(d3, it, top, im, zm);
    SpliceKeeps(d3, it, top, zm, it);
    Bitmap.StoredReads(ibits);
    Bitmap.StoredReads(zbits);
  }

  lemma ZoneMapFirst(z: nat)
    ensures ZoneMap(0, 0)[0 := z] == ZoneMap(z, 1) && ZoneMap(z, 1)[0] == z
  {
  }

  lemma FirstZones(data: seq<byte>, table: seq<Inode>, g: Geo, t: Tree)
    requires Rep(data, table, g, t)
    ensures forall i :: 0 <= i < |table| ==> |table[i].zones| == 10 && table[i].zones[0] < Place(g.FirstDataZone(), t)
    ensures forall i :: 0 <= i < |t| && t[i].Dir? ==> Start(g, t, i) < Place(g.FirstDataZone(), t)
  {
    forall i | 0 <= i < |table| ensures table[i].zones[0] < Place(g.FirstDataZone(), t) {
      PlaceGrows(g.FirstDataZone(), t, i);
    }
    forall i | 0 <= i < |t| && t[i].Dir? ensures Start(g, t, i) < Place(g.FirstDataZone(), t) {
      PlaceGrows(g.FirstDataZone(), t, i);
    }
  }

  /** The tree while a directory is being made: entered in the root, holding `es`. */
  function Making(t: Tree, name: seq<byte>, mode: nat, es: seq<Entry>): (u: Tree)
    requires 0 < |t| && t[0].Dir?
  {
    Grown(t, 0, name, Dir(mode, es))
  }

  function MakingInode(mode: nat, z: nat, n: nat): (i: Inode) {
    Inode(mode, 64 * n, ZoneMap(z, 1))
  }

  lemma SubDirEmpty(was: seq<byte>, table: seq<Inode>, g: Geo, t: Tree, name: seq<byte>, mode: nat)
    requires Rep(was, table, g, t) && 0 < |t| < 0xFFFF_FFFF && t[0].Dir? && |t[0].ents| < DIR_SLOTS
    requires Place(g.FirstDataZone(), t) < g.total
    ensures var z := Place(g.FirstDataZone(), t);
            var d1 := Splice(was, Start(g, t, 0) * BLOCK + 64 * |t[0].ents|, Direct(Entry(|t| + 1, name)));
            var root := table[0 := table[0].(size := 64 * (|t[0].ents| + 1))];
            && Rep(d1, root + [MakingInode(mode, z, 0)], g, Making(t, name, mode, []))
            && d1[z * BLOCK..(z + 1) * BLOCK] == DirBlock([])
  {
    hide Direct, Laid, Splice, Table, NodeAt;
    var z := Place(g.FirstDataZone(), t);
    var n := Dir(mode, []);
    EmptyDirectory(was, z, mode, g.total);
    RepMore(was, was, table, g, t, n);
    var u := t + [n];
    assert u[..0] == t[..0] && u[0] == t[0];
    RepEntry(was, table + [InodeOf(n, z)], g, u, 0, Entry(|t| + 1, name));
    var u1 := u[0 := WithEntry(u[0], Entry(|t| + 1, name))];
    assert u1 == Making(t, name, mode, []);
    var root := table[0 := table[0].(size := 64 * (|t[0].ents| + 1))];
    assert (table + [InodeOf(n, z)])[0 := table[0].(size := 64 * (|t[0].ents| + 1))] == root + [MakingInode(mode, z, 0)];
    var d1 := Splice(was, Start(g, t, 0) * BLOCK + 64 * |t[0].ents|, Direct(Entry(|t| + 1, name)));
    MakingPlace(g, t, name, mode, []);
    DirectoryReady(d1, root + [MakingInode(mode, z, 0)], g, u1, |t|);
  }

  lemma EmptyDirectory(was: seq<byte>, z: nat, mode: nat, total: nat)
    requires |was| == total * BLOCK && z < total && ZeroRange(was, z * BLOCK, |was|)
    ensures NodeAt(was, Dir(mode, []), z) && ZeroRange(was, (z + Len(Dir(mode, []))) * BLOCK, |was|)
  {
    var area := was[z * BLOCK..(z + 1) * BLOCK];
    assert forall k :: 0 <= k < BLOCK ==> area[k] == DirBlock([])[k];
  }

  lemma MakingPlace(g: Geo, t: Tree, name: seq<byte>, mode: nat, es: seq<Entry>)
    requires 0 < |t| && t[0].Dir?
    ensures Start(g, Making(t, name, mode, es), |t|) == Place(g.FirstDataZone(), t)
    ensures Place(g.FirstDataZone(), Making(t, name, mode, es)) == Place(g.FirstDataZone(), t) + 1
  {
    var n := WithEntry(t[0], Entry(|t| + 1, name));
    var u := Making(t, name, mode, es);
    assert u[..|t|] == t[0 := n];
    PlaceKept(g, t, 0, n);
  }

  lemma SubDirStep(d: seq<byte>, root: seq<Inode>, g: Geo, t: Tree, name: seq<byte>, mode: nat, es: seq<Entry>, e: Entry)
    requires 0 < |t| && t[0].Dir? && |root| == |t| && |es| < DIR_SLOTS && 0 < e.ino < 0x1_0000_0000
    requires Rep(d, root + [MakingInode(mode, Place(g.FirstDataZone(), t), |es|)], g, Making(t, name, mode, es))
    ensures var z := Place(g.FirstDataZone(), t);
            && z * BLOCK + 64 * |es| + 64 <= |d|
            && Rep(Splice(d, z * BLOCK + 64 * |es|, Direct(e)), root + [MakingInode(mode, z, |es| + 1)], g, Making(t, name, mode, es + [e]))
            && (|es| + 1 < DIR_SLOTS ==>
                  (z + 1) * BLOCK <= |d| && Splice(d, z * BLOCK + 64 * |es|, Direct(e))[z * BLOCK..(z + 1) * BLOCK] == DirBlock(es + [e]))
  {
    hide Rep, Direct, Splice, Place, Start, DirBlock;
    var z := Place(g.FirstDataZone(), t);
    var u := Making(t, name, mode, es);
    MakingPlace(g, t, name, mode, es);
    RepEntry(d, root + [MakingInode(mode, z, |es|)], g, u, |t|, e);
    var u1 := u[|t| := WithEntry(u[|t|], e)];
    assert u1 == Making(t, name, mode, es + [e]);
    assert (root + [MakingInode(mode, z, |es|)])[|t| := MakingInode(mode, z, |es| + 1)] == root + [MakingInode(mode, z, |es| + 1)];
    MakingPlace(g, t, name, mode, es + [e]);
    DirectoryReady(Splice(d, z * BLOCK + 64 * |es|, Direct(e)), root + [MakingInode(mode, z, |es| + 1)], g, u1, |t|);
  }

  function Root(): (n: Node) {
    Dir(I_DIRECTORY, [Entry(ROOT_INODE, DOT), Entry(ROOT_INODE, DOTDOT)])
  }

  function SubDir(mode: nat, ino: nat): (n: Node) {
    Dir(mode, [Entry(ino, DOT), Entry(ROOT_INODE, DOTDOT)])
  }

  /** The tree with one more node, entered in directory `d` under the next inode number. */
  function Grown(t: Tree, d: nat, name: seq<byte>, n: Node): (u: Tree)
    requires d < |t| && t[d].Dir?
  {
    t[d := WithEntry(t[d], Entry(|t| + 1, name))] + [n]
  }

  lemma RootLaid(g: Geo)
    requires g.Sane() && g.FirstDataZone() < g.total
    ensures var z := g.FirstDataZone();
            && Rep(Splice(Zeros(g.total * BLOCK), z * BLOCK, Direct(Entry(ROOT_INODE, DOT)) + Direct(Entry(ROOT_INODE, DOTDOT))),
                   [Inode(I_DIRECTORY, 128, ZoneMap(z, 1))], g, [Root()])
            && Place(z, [Root()]) == z + 1 && Start(g, [Root()], 0) == z
  {
    hide Direct;
    var z := g.FirstDataZone();
    var blank := Zeros(g.total * BLOCK);
    var e1, e2 := Entry(ROOT_INODE, DOT), Entry(ROOT_INODE, DOTDOT);
    var d := Splice(blank, z * BLOCK, Direct(e1) + Direct(e2));
    assert Ents([e1, e2]) == Direct(e1) + Direct(e2) by {
      assert [e1, e2][..1] == [e1] && [e1][..0] == [];
    }
    assert d[z * BLOCK..(z + 1) * BLOCK] == DirBlock([e1, e2]);
    assert Rep(blank, [], g, []);
    RepMore(blank, d, [], g, [], Root());
    assert [] + [Root()] == [Root()] && [Root()][..0] == [];
  }

  lemma DirectoryReady(data: seq<byte>, table: seq<Inode>, g: Geo, t: Tree, d: nat)
    requires Rep(data, table, g, t) && d < |t| && t[d].Dir?
    ensures var z := Start(g, t, d);
            && (z + 1) * BLOCK <= |data| && |t[d].ents| <= DIR_SLOTS
            && data[z * BLOCK..(z + 1) * BLOCK] == DirBlock(t[d].ents)
            && |table| == |t| && table[d].size == 64 * |t[d].ents|
            && (forall i :: 0 <= i < |table| ==> |table[i].zones| == 10 && (table[i].zones[0] == z <==> i == d))
            && (forall j :: 0 <= j < |t[d].ents| ==> 0 < t[d].ents[j].ino < 0x1_0000_0000)
  {
    hide Direct, Ents, DirBlock;
    EntryRoom(data, g, t, d);
    forall i | 0 <= i < |table| ensures table[i].zones[0] == Start(g, t, d) <==> i == d {
      if i != d {
        OnlyOwner(g, t, d, i);
      }
    }
  }

  lemma MapRecorded(p: nat, n: nat)
    ensures var direct := OverDirect(Consecutive(p, n), ZoneMap(0, 0));
            ZoneMap(p, n) == if n > DIRECT_ZONES then direct[DIRECT_ZONES := p + n] else direct
  {
  }

  lemma SpliceNothing(s: seq<byte>, at: nat, e: seq<byte>)
    requires at <= |s| && e == []
    ensures Splice(s, at, e) == s
  {
  }

  lemma PointersNone(z: nat)
    ensures Pointers(z, 0) + Zeros(BLOCK - 4 * 0) == Zeros(BLOCK)
  {
  }

  lemma PointersMore(z: nat, j: nat)
    requires 4 * j + 4 <= BLOCK
    ensures Splice(Pointers(z, j) + Zeros(BLOCK - 4 * j), j * 4, LE32(z + j)) == Pointers(z, j + 1) + Zeros(BLOCK - 4 * (j + 1))
  {
    hide LE32;
  }

  lemma PlaceBound(data: seq<byte>, table: seq<Inode>, g: Geo, t: Tree)
    requires Rep(data, table, g, t)
    ensures Place(g.FirstDataZone(), t) <= g.total && |table| == |t|
  {
  }

  /** The image after a file's blocks, and its indirect block if it has one, were written from zone
      `p` on. */
  function Stored(was: seq<byte>, p: nat, bytes: seq<byte>): (data: seq<byte>)
    requires Blocks(|bytes|) <= MAX_BLOCKS && (p + Len(File(bytes))) * BLOCK <= |was|
    ensures |data| == |was|
  {
    var n := Blocks(|bytes|);
    if n > DIRECT_ZONES then Splice(Splice(was, p * BLOCK, bytes), (p + n) * BLOCK, IndirectBlock(p, n))
    else Splice(was, p * BLOCK, bytes)
  }

  lemma StoredArea(was: seq<byte>, p: nat, bytes: seq<byte>)
    requires ZeroRange(was, p * BLOCK, |was|) && Blocks(|bytes|) <= MAX_BLOCKS
    requires (p + Len(File(bytes))) * BLOCK <= |was|
    ensures NodeAt(Stored(was, p, bytes), File(bytes), p)
    ensures ZeroRange(Stored(was, p, bytes), (p + Len(File(bytes))) * BLOCK, |Stored(was, p, bytes)|)
    ensures Stored(was, p, bytes)[..p * BLOCK] == was[..p * BLOCK]
  {
    hide IndirectBlock;
    var data := Stored(was, p, bytes);
    var area := data[p * BLOCK..(p + Len(File(bytes))) * BLOCK];
    var goal := NodeBytes(File(bytes), p);
    assert forall k :: 0 <= k < |area| ==> area[k] == goal[k];
  }

  /** What the blocks and the indirect block of a file leave is the file's node. */
  lemma FileStored(was: seq<byte>, table: seq<Inode>, g: Geo, t: Tree, bytes: seq<byte>)
    requires Rep(was, table, g, t) && Blocks(|bytes|) <= MAX_BLOCKS
    requires Place(g.FirstDataZone(), t) + Len(File(bytes)) <= g.total
    ensures Rep(Stored(was, Place(g.FirstDataZone(), t), bytes),
                table + [Inode(I_REGULAR, |bytes|, ZoneMap(Place(g.FirstDataZone(), t), Blocks(|bytes|)))], g, t + [File(bytes)])
    ensures Place(g.FirstDataZone(), t + [File(bytes)]) == Place(g.FirstDataZone(), t) + Len(File(bytes))
  {
    hide Stored, Laid, NodeAt, ZeroRange, Table;
    var p := Place(g.FirstDataZone(), t);
    assert (t + [File(bytes)])[..|t|] == t;
    StoredArea(was, p, bytes);
    RepMore(was, Stored(was, p, bytes), table, g, t, File(bytes));
  }

  function Max(a: nat, b: nat): (r: nat) {
    if a < b then b else a
  }

  lemma ConsecutiveGrows(p: nat)
    ensures Consecutive(p, 0) == []
    ensures forall n: nat :: Consecutive(p, n + 1) == Consecutive(p, n) + [p + n]
  {
  }

  lemma BlockWritten(was: seq<byte>, at: nat, bytes: seq<byte>, start: nat, end: nat)
    requires start <= end <= |bytes| && at + end <= |was|
    ensures Splice(Splice(was, at, bytes[..start]), at + start, bytes[start..end]) == Splice(was, at, bytes[..end])
  {
    hide Splice;
    SpliceMore(was, at, bytes[..start], bytes[start..end]);
    assert bytes[..start] + bytes[start..end] == bytes[..end];
  }

  /** Two writes one after the other are one. */
  lemma SpliceMore(s: seq<byte>, at: nat, x: seq<byte>, y: seq<byte>)
    requires at + |x| + |y| <= |s|
    ensures Splice(Splice(s, at, x), at + |x|, y) == Splice(s, at, x + y)
  {
  }

  /** The inode number field of a directory slot. */
  lemma UsedSlot(es: seq<Entry>, i: nat)
    requires |es| <= DIR_SLOTS && i < |es|
    ensures DirBlock(es)[i * 64..i * 64 + 4] == LE32(es[i].ino)
  {
    hide LE32, NameField;
    var b := DirBlock(es);
    EntAt(es, i);
    assert b[..64 * |es|] == Ents(es);
    Within(b, 0, 64 * |es|, 64 * i, 64 * i + 64);
    Within(b, 64 * i, 64 * i + 64, 0, 4);
    assert Direct(es[i])[0..4] == LE32(es[i].ino);
  }

  lemma EmptySlot(es: seq<Entry>, i: nat)
    requires |es| <= i < DIR_SLOTS
    ensures DirBlock(es)[i * 64..i * 64 + 4] == LE32(0)
  {
    hide Ents;
    var b := DirBlock(es);
    assert forall k :: 64 * |es| <= k < BLOCK ==> b[k] == 0;
  }

  lemma SlotReads(data: seq<byte>, z: nat, es: seq<Entry>, i: nat)
    requires (z + 1) * BLOCK <= |data| && |es| <= DIR_SLOTS && i < DIR_SLOTS
    requires data[z * BLOCK..(z + 1) * BLOCK] == DirBlock(es)
    ensures Rd32(data, z * BLOCK + i * 64) == if i < |es| then es[i].ino % 0x1_0000_0000 else 0
  {
    hide Rd32, LE32, DirBlock;
    Within(data, z * BLOCK, (z + 1) * BLOCK, i * 64, i * 64 + 4);
    if i < |es| {
      UsedSlot(es, i);
      Rd32LE32(data, z * BLOCK + i * 64, es[i].ino);
    } else {
      EmptySlot(es, i);
      Rd32LE32(data, z * BLOCK + i * 64, 0);
    }
  }
}
