/** The store and the block device over it, as the objects the host updates in place. */
module DiskStore {
  import opened Bytes
  import opened Store
  import ImageId

  /** A transaction handed to the database. */
  datatype Sent = Identity(id: string) | Pages(records: Records)

  /** The page transactions among those sent. */
  function PageSends(sent: seq<Sent>): (r: seq<Records>) {
    if sent == [] then []
    else
      var n := |sent| - 1;
      PageSends(sent[..n]) + match sent[n] case Identity(_) => [] case Pages(t) => [t]
  }

  lemma PageSendsMore(sent: seq<Sent>, s: Sent)
    ensures PageSends(sent + [s]) == PageSends(sent) + match s case Identity(_) => [] case Pages(t) => [t]
  {
    assert (sent + [s])[..|sent|] == sent;
  }

  /** The transactions of a session's writes. */
  function Transactions(disk: seq<byte>, ws: seq<Write>, ps: nat): (r: seq<Records>)
    requires 0 < ps && Fits(|disk|, ws)
    ensures |r| == |ws|
  {
    if ws == [] then []
    else Transactions(disk, ws[..|ws| - 1], ps) + [Transaction(After(disk, ws), ws[|ws| - 1], ps)]
  }

  /** The database once those numbered in `kept` are committed. */
  function Committed(pages: Records, txs: seq<Records>, kept: set<nat>): (r: Records) {
    if txs == [] then pages
    else
      var n := |txs| - 1;
      var before := Committed(pages, txs[..n], kept);
      if n in kept then before + txs[n] else before
  }

  /** Committing what the store sent is what the crash model calls durable. */
  lemma {:induction false} SentIsDurable(pages: Records, disk: seq<byte>, ws: seq<Write>, kept: set<nat>, ps: nat)
    requires 0 < ps && Fits(|disk|, ws) && Whole(pages, ps)
    ensures Committed(pages, Transactions(disk, ws, ps), kept) == Durable(pages, disk, ws, kept, ps)
    decreases |ws|
  {
    hide Transaction, After;
    if ws != [] {
      var n := |ws| - 1;
      var txs := Transactions(disk, ws, ps);
      assert txs[..n] == Transactions(disk, ws[..n], ps);
      SentIsDurable(pages, disk, ws[..n], kept, ps);
    }
  }

  /** Record by record, in any order of distinct keys. */
  function Loaded(keys: seq<nat>, values: seq<seq<byte>>): (m: Records)
    requires |keys| == |values|
  {
    if keys == [] then map[]
    else
      var n := |keys| - 1;
      Loaded(keys[..n], values[..n])[keys[n] := values[n]]
  }

  function Clipped(record: seq<byte>, at: nat, n: nat): (s: seq<byte>)
    requires at < n
  {
    record[..Min(|record|, n - at)]
  }

  /** Laying one record over the disk is adding it to what lies over the image. */
  lemma OverlayMore(image: seq<byte>, pages: Records, p: nat, record: seq<byte>, ps: nat)
    requires 0 < ps && Whole(pages, ps) && |record| == ps
    ensures Whole(pages[p := record], ps)
    ensures Overlay(image, pages[p := record], ps)
         == if p * ps >= |image| then Overlay(image, pages, ps)
            else Splice(Overlay(image, pages, ps), p * ps, Clipped(record, p * ps, |image|))
  {
    hide PageOf;
    var was, now := Overlay(image, pages, ps), Overlay(image, pages[p := record], ps);
    forall i | 0 <= i < |image|
      ensures now[i] == if p * ps <= i < p * ps + ps then record[i - p * ps] else was[i]
    {
      InPage(i, p, ps);
    }
    if p * ps < |image| {
      assert now == Splice(was, p * ps, Clipped(record, p * ps, |image|));
    } else {
      assert now == was;
    }
  }

  /** Every record read back, laid over the image one after another: as much of each as the disk has
      room for, whatever its length. */
  function Laid(image: seq<byte>, keys: seq<nat>, values: seq<seq<byte>>, ps: nat): (d: seq<byte>)
    requires |keys| == |values|
    ensures |d| == |image|
  {
    if keys == [] then image
    else
      var n := |keys| - 1;
      var before := Laid(image, keys[..n], values[..n], ps);
      var at := keys[n] * ps;
      if at >= |image| then before else Splice(before, at, Clipped(values[n], at, |image|))
  }

  /** With records of one page each, as the store writes them, the order does not matter: the disk is
      the image with each page's record over it. */
  lemma {:induction false} LaidWhole(image: seq<byte>, keys: seq<nat>, values: seq<seq<byte>>, ps: nat)
    requires 0 < ps && |keys| == |values| && forall i :: 0 <= i < |values| ==> |values[i]| == ps
    ensures Whole(Loaded(keys, values), ps)
    ensures Laid(image, keys, values, ps) == Overlay(image, Loaded(keys, values), ps)
    decreases |keys|
  {
    hide Overlay, Splice, Clipped;
    if keys == [] {
      NoOverlay(image, ps);
    } else {
      var n := |keys| - 1;
      LaidWhole(image, keys[..n], values[..n], ps);
      OverlayMore(image, Loaded(keys[..n], values[..n]), keys[n], values[n], ps);
    }
  }

  lemma NoOverlay(image: seq<byte>, ps: nat)
    requires 0 < ps
    ensures Overlay(image, map[], ps) == image
  {
  }

  class DiskStore {
    const ps: nat
    const disk: array<byte>
    var imageId: Option<string>
    var sent: seq<Sent>
    ghost const start: seq<byte>
    ghost var log: seq<Write>

    ghost predicate Valid()
      reads this, disk
    {
      && 0 < ps && disk.Length == |start| && Fits(|start|, log)
      && disk[..] == After(start, log)
      && PageSends(sent) == Transactions(start, log, ps)
    }

    /** Opens the disk: a copy of the image, with every stored page laid over it. */
    constructor (image: seq<byte>, keys: seq<nat>, values: seq<seq<byte>>, meta: Option<string>, pageSize: nat)
      requires 0 < pageSize && |keys| == |values|
      ensures Valid() && fresh(disk) && ps == pageSize && imageId == meta && sent == [] && log == []
      ensures disk[..] == start == Laid(image, keys, values, ps)
    {
      var d := new byte[|image|](i requires 0 <= i < |image| => image[i]);
      assert d[..] == image;
      var i := 0;
      while i < |keys|
        invariant 0 <= i <= |keys| && d.Length == |image|
        invariant d[..] == Laid(image, keys[..i], values[..i], pageSize)
      {
        assert keys[..i + 1][..i] == keys[..i] && values[..i + 1][..i] == values[..i];
        var at := keys[i] * pageSize;
        if at < |image| {
          Put(d, at, Clipped(values[i], at, |image|));
        }
        i := i + 1;
      }
      assert keys[..i] == keys && values[..i] == values;
      ps := pageSize;
      disk := d;
      imageId := meta;
      sent := [];
      start := d[..];
      log := [];
    }

    method SetImageId(id: string)
      requires Valid()
      modifies this
      ensures Valid() && imageId == Some(id) && sent == old(sent) + [Identity(id)] && log == old(log)
    {
      hide PageSends, Transactions, After;
      imageId := Some(id);
      PageSendsMore(sent, Identity(id));
      sent := sent + [Identity(id)];
    }

    method Read(offset: nat, length: nat) returns (bytes: seq<byte>)
      requires Valid()
      ensures bytes == After(start, log)[Min(offset, disk.Length)..Min(offset + length, disk.Length)]
    {
      bytes := disk[Min(offset, disk.Length)..Min(offset + length, disk.Length)];
    }

    /** The records of every page the write touched, made from the disk as it now is. */
    method MakeRecords(w: Write) returns (records: Records)
      requires 0 < ps
      ensures records == Transaction(disk[..], w, ps)
    {
      var first := PageOf(w.off, ps);
      var last := PageOf(w.off + |w.bytes| - 1, ps);
      records := map[];
      var page := first;
      while page <= last
        invariant first <= page && (page <= last + 1 || page == first)
        invariant forall p: nat :: p in records <==> first <= p < page
        invariant forall p: nat :: p in records ==> records[p] == Record(disk[..], p, ps)
      {
        records := records[page := Record(disk[..], page, ps)];
        page := page + 1;
      }
    }

    /** Writes into the disk in memory, and sends the records of the pages touched. */
    method Write(offset: nat, bytes: seq<byte>)
      requires Valid() && offset + |bytes| <= disk.Length
      modifies this, disk
      ensures Valid() && imageId == old(imageId) && log == old(log) + [Store.Write(offset, bytes)]
      ensures disk[..] == Splice(old(disk[..]), offset, bytes)
      ensures sent == old(sent) + [Pages(Transaction(disk[..], Store.Write(offset, bytes), ps))]
    {
      var w := Store.Write(offset, bytes);
      ghost var before := log;
      Put(disk, offset, bytes);
      ghost var after := log + [w];
      assert after[..|log|] == log;
      PageSendsMore(sent, Pages(Transaction(disk[..], w, ps)));
      var records := MakeRecords(w);
      sent := sent + [Pages(records)];
      log := after;
    }
  }

  class Device {
    const store: DiskStore
    var readCount: nat
    var writeCount: nat
    var bytesRead: nat
    var bytesWritten: nat

    ghost predicate Valid()
      reads this, store, store.disk
    {
      store.Valid() && store.imageId.Some?
    }

    constructor (s: DiskStore)
      requires s.Valid() && s.imageId.Some?
      ensures Valid() && store == s && readCount == writeCount == bytesRead == bytesWritten == 0
    {
      store := s;
      readCount, writeCount, bytesRead, bytesWritten := 0, 0, 0, 0;
    }

    /** How much of a request the device serves: short at its end, nothing past it. */
    function Served(offset: nat, bytes: nat): (n: nat)
      ensures 0 < n ==> offset + n <= store.disk.Length && n <= bytes
    {
      if offset >= store.disk.Length then 0 else Min(bytes, store.disk.Length - offset)
    }

    method ReadInto(memory: array<byte>, offset: nat, dst: nat, bytes: nat) returns (n: nat)
      requires Valid() && memory != store.disk && dst + Served(offset, bytes) <= memory.Length
      modifies this, memory
      ensures Valid() && n == Served(offset, bytes)
      ensures store.disk[..] == old(store.disk[..])
      ensures memory[..] == if offset >= store.disk.Length then old(memory[..])
                            else Splice(old(memory[..]), dst, store.disk[offset..offset + n])
      ensures (readCount, bytesRead) == if offset >= store.disk.Length then (old(readCount), old(bytesRead))
                                    else (old(readCount) + 1, old(bytesRead) + n)
      ensures writeCount == old(writeCount) && bytesWritten == old(bytesWritten)
    {
      hide After, Transactions, Transaction, PageSends, Splice, Fits;
      if offset >= store.disk.Length {
        return 0;
      }
      n := Min(bytes, store.disk.Length - offset);
      var chunk := store.Read(offset, n);
      Put(memory, dst, chunk);
      readCount := readCount + 1;
      bytesRead := bytesRead + n;
    }

    method WriteFrom(memory: array<byte>, offset: nat, src: nat, bytes: nat) returns (n: nat)
      requires Valid() && memory != store.disk && src + Served(offset, bytes) <= memory.Length
      modifies this, store, store.disk
      ensures Valid() && n == Served(offset, bytes) && store.imageId == old(store.imageId)
      ensures offset < store.disk.Length ==>
                store.log == old(store.log) + [Write(offset, memory[src..src + n])]
                && store.disk[..] == Splice(old(store.disk[..]), offset, memory[src..src + n])
      ensures offset >= store.disk.Length ==> store.log == old(store.log) && store.disk[..] == old(store.disk[..])
      ensures (writeCount, bytesWritten) == if offset >= store.disk.Length then (old(writeCount), old(bytesWritten))
                                        else (old(writeCount) + 1, old(bytesWritten) + n)
      ensures readCount == old(readCount) && bytesRead == old(bytesRead)
    {
      hide After, Transactions, Transaction, PageSends, Splice, Fits;
      if offset >= store.disk.Length {
        return 0;
      }
      n := Min(bytes, store.disk.Length - offset);
      store.Write(offset, memory[src..src + n]);
      writeCount := writeCount + 1;
      bytesWritten := bytesWritten + n;
    }
  }

  /** Attaches the device unless the store was made from another image; a store that names no image
      takes this one's identifier. */
  method Attach(store: DiskStore, image: seq<byte>) returns (device: Option<Device>)
    requires store.Valid()
    modifies store
    ensures store.Valid() && store.log == old(store.log) && store.disk[..] == old(store.disk[..])
    ensures device.Some? <==> old(store.imageId.None? || store.imageId.value == ImageId.IdOf(image))
    ensures device.Some? ==> device.value.store == store && device.value.Valid()
                             && store.imageId == Some(ImageId.IdOf(image))
    ensures store.sent == old(store.sent) + if old(store.imageId.None?) then [Identity(ImageId.IdOf(image))] else []
    ensures device.None? ==> store.imageId == old(store.imageId)
  {
    var id := ImageId.Identify(image);
    if store.imageId.Some? && store.imageId.value != id {
      return None;
    }
    if store.imageId.None? {
      store.SetImageId(id);
    }
    var d := new Device(store);
    device := Some(d);
  }
}
