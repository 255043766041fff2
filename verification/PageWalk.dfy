/** Page-table walks over a snapshot of physical memory: 4-level paging on x86-64 (section 4.5 of the
    Intel SDM, volume 3A) and Sv39 on riscv64. */
module PageWalk {
  import opened Bytes

  /** The snapshot: one byte for every physical address. */
  type Memory = nat -> byte

  datatype Arch = X86 | Riscv {
    /** The index shifts of the levels above the leaf table, root first. */
    function Shifts(): (s: seq<nat>) {
      match this case X86 => [39, 30, 21] case Riscv => [30, 21]
    }

    predicate Present(e: nat) {
      e % 2 == 1
    }

    /** An entry above the leaf table that is itself a leaf: PS on x86-64, R or X on riscv64. */
    predicate Huge(e: nat) {
      match this case X86 => e / 0x80 % 2 == 1 case Riscv => e / 2 % 2 == 1 || e / 8 % 2 == 1
    }

    function Frame(e: nat): (f: nat) {
      match this
      case X86 => e / 0x1000 % 0x100_0000_0000 * 0x1000
      case Riscv => e / 0x400 % 0x1000_0000_0000 * 0x1000
    }

    /** The walk goes on through the entry. */
    predicate Follows(e: nat) {
      Present(e) && !Huge(e)
    }
  }

  // ------------------------------------------------------------------ reading memory

  function ReadPhys(mem: Memory, at: nat, n: nat): (s: seq<byte>)
    ensures |s| == n && forall i :: 0 <= i < n ==> s[i] == mem(at + i)
  {
    seq(n, i requires 0 <= i => mem(at + i))
  }

  function Little(s: seq<byte>): (v: nat) {
    if s == [] then 0 else s[0] as nat + 256 * Little(s[1..])
  }

  /** The 64-bit word at `at`. */
  function Word(s: seq<byte>, at: nat): (v: nat)
    requires at + 8 <= |s|
  {
    Little(s[at..at + 8])
  }

  /** One page-table entry, read on its own. */
  function Entry(mem: Memory, table: nat, index: nat): (e: nat) {
    Word(ReadPhys(mem, table + index * 8, 8), 0)
  }

  /** An entry of a table read whole is the entry read on its own. */
  lemma WholeTable(mem: Memory, table: nat, index: nat)
    requires index < 512
    ensures Word(ReadPhys(mem, table, 4096), index * 8) == Entry(mem, table, index)
  {
    assert ReadPhys(mem, table, 4096)[index * 8..index * 8 + 8] == ReadPhys(mem, table + index * 8, 8)[0..8];
  }

  function Index(va: nat, shift: nat): (i: nat)
    ensures i < 512
  {
    va / PowerOfTwo(shift) % 512
  }

  // ------------------------------------------------------------------ the pointwise walk

  function TableBelow(mem: Memory, arch: Arch, table: nat, va: nat, shifts: seq<nat>): (t: Option<nat>)
    decreases |shifts|
  {
    if shifts == [] then Some(table)
    else
      var e := Entry(mem, table, Index(va, shifts[0]));
      if !arch.Follows(e) then None else TableBelow(mem, arch, arch.Frame(e), va, shifts[1..])
  }

  /** The leaf table covering `va`. */
  method LeafTable(mem: Memory, arch: Arch, root: nat, va: nat) returns (t: Option<nat>)
    ensures t == TableBelow(mem, arch, root, va, arch.Shifts())
  {
    var table := root;
    var shifts := arch.Shifts();
    var i := 0;
    while i < |shifts|
      invariant 0 <= i <= |shifts|
      invariant TableBelow(mem, arch, table, va, shifts[i..]) == TableBelow(mem, arch, root, va, shifts)
    {
      var e := Entry(mem, table, Index(va, shifts[i]));
      assert shifts[i..][1..] == shifts[i + 1..];
      if !arch.Present(e) || arch.Huge(e) {
        return None;
      }
      table := arch.Frame(e);
      i := i + 1;
    }
    t := Some(table);
  }

  /** The raw entry for `va`, or 0 when there is none. */
  function Leaf(mem: Memory, arch: Arch, root: nat, va: nat): (e: nat) {
    LeafIn(mem, TableBelow(mem, arch, root, va, arch.Shifts()), va)
  }

  function LeafIn(mem: Memory, table: Option<nat>, va: nat): (e: nat) {
    match table case None => 0 case Some(pt) => Entry(mem, pt, Index(va, 12))
  }

  // ------------------------------------------------------------------ one 2 MiB region at a time

  const REGION: nat := 0x20_0000

  lemma ShiftValues()
    ensures PowerOfTwo(12) == 0x1000 && PowerOfTwo(21) == REGION
    ensures PowerOfTwo(30) == 0x4000_0000 && PowerOfTwo(39) == 0x80_0000_0000
  {
    assert PowerOfTwo(10) == 0x400;
    assert PowerOfTwo(20) == 0x10_0000;
    assert PowerOfTwo(30) == 0x4000_0000;
    assert PowerOfTwo(39) == 0x80_0000_0000;
  }

  lemma Nested(va: nat)
    ensures va / 0x4000_0000 == va / REGION / 512
    ensures va / 0x80_0000_0000 == va / 0x4000_0000 / 512
  {
  }

  /** The upper indices depend only on the region. */
  lemma SameRegion(va: nat, wa: nat, shift: nat)
    requires va / REGION == wa / REGION && shift in {21, 30, 39}
    ensures Index(va, shift) == Index(wa, shift)
  {
    hide PowerOfTwo;
    ShiftValues();
    Nested(va);
    Nested(wa);
  }

  lemma {:induction false} SameTable(mem: Memory, arch: Arch, table: nat, va: nat, wa: nat, shifts: seq<nat>)
    requires va / REGION == wa / REGION && forall i :: 0 <= i < |shifts| ==> shifts[i] in {21, 30, 39}
    ensures TableBelow(mem, arch, table, va, shifts) == TableBelow(mem, arch, table, wa, shifts)
    decreases |shifts|
  {
    hide Index, Entry;
    if shifts != [] {
      SameRegion(va, wa, shifts[0]);
      var e := Entry(mem, table, Index(va, shifts[0]));
      SameTable(mem, arch, arch.Frame(e), va, wa, shifts[1..]);
    }
  }

  lemma Between(base: nat, window: nat, va: nat)
    requires base <= va < base + window && base / REGION == (base + window - 1) / REGION
    ensures va / REGION == base / REGION
  {
  }

  lemma WindowLeaf(mem: Memory, arch: Arch, root: nat, base: nat, window: nat, va: nat)
    requires base <= va < base + window && base / REGION == (base + window - 1) / REGION
    ensures Leaf(mem, arch, root, va) == LeafIn(mem, TableBelow(mem, arch, root, base, arch.Shifts()), va)
  {
    hide TableBelow;
    Between(base, window, va);
    SameTable(mem, arch, root, va, base, arch.Shifts());
  }

  /** A page of the window. */
  predicate PageOf(base: nat, end: nat, va: nat) {
    base <= va < end && (va - base) % 4096 == 0
  }

  /** The pages of a window inside one region, from one walk and one read of the leaf table: exactly
      those the pointwise walk finds present, with the frames it finds. */
  method FramesIn(mem: Memory, arch: Arch, root: nat, base: nat, window: nat) returns (found: map<nat, nat>)
    requires base / REGION == (base + window - 1) / REGION
    ensures forall va :: va in found <==> PageOf(base, base + window, va) && arch.Present(Leaf(mem, arch, root, va))
    ensures forall va :: va in found ==> found[va] == arch.Frame(Leaf(mem, arch, root, va))
  {
    hide Index, Entry, TableBelow, Leaf;
    var table := LeafTable(mem, arch, root, base);
    forall va | base <= va < base + window ensures Leaf(mem, arch, root, va) == LeafIn(mem, table, va) {
      WindowLeaf(mem, arch, root, base, window, va);
    }
    found := map[];
    if table.None? {
      return;
    }
    var pt := ReadPhys(mem, table.value, 4096);
    var off := 0;
    while off < window
      invariant off % 4096 == 0
      invariant forall va :: va in found <==>
                  PageOf(base, base + Min(off, window), va) && arch.Present(Leaf(mem, arch, root, va))
      invariant forall va :: va in found ==> found[va] == arch.Frame(Leaf(mem, arch, root, va))
    {
      var e := Word(pt, Index(base + off, 12) * 8);
      WholeTable(mem, table.value, Index(base + off, 12));
      assert e == Leaf(mem, arch, root, base + off);
      NextPage(base, base + off, base + Min(off + 4096, window));
      if arch.Present(e) {
        found := found[base + off := arch.Frame(e)];
      }
      off := off + 4096;
    }
  }

  lemma NextPage(base: nat, end: nat, end': nat)
    requires base <= end < end' <= end + 4096 && (end - base) % 4096 == 0
    ensures forall va: nat :: PageOf(base, end', va) <==> PageOf(base, end, va) || va == end
  {
    forall va: nat | PageOf(base, end', va) && end <= va ensures va == end {
      var d := va - end;
      assert (va - base) % 4096 == d % 4096;
    }
  }

  // ------------------------------------------------------------------ the exhaustive search

  predicate PtHits(mem: Memory, pt: nat, want: nat) {
    exists l :: 0 <= l < 512 && X86.Present(Entry(mem, pt, l)) && X86.Frame(Entry(mem, pt, l)) == want
  }

  predicate PdHits(mem: Memory, pd: nat, want: nat) {
    exists k :: 0 <= k < 512 && X86.Follows(Entry(mem, pd, k)) && PtHits(mem, X86.Frame(Entry(mem, pd, k)), want)
  }

  predicate PdptHits(mem: Memory, pdpt: nat, want: nat) {
    exists j :: 0 <= j < 512 && X86.Follows(Entry(mem, pdpt, j)) && PdHits(mem, X86.Frame(Entry(mem, pdpt, j)), want)
  }

  predicate RootHits(mem: Memory, root: nat, want: nat) {
    exists i :: 0 <= i < 256 && X86.Follows(Entry(mem, root, i)) && PdptHits(mem, X86.Frame(Entry(mem, root, i)), want)
  }

  method WalkPt(mem: Memory, table: nat, want: nat) returns (hit: bool)
    ensures hit <==> PtHits(mem, table, want)
  {
    hide Word, Entry;
    var pt := ReadPhys(mem, table, 4096);
    for l := 0 to 512
      invariant forall m :: 0 <= m < l ==> !(X86.Present(Entry(mem, table, m)) && X86.Frame(Entry(mem, table, m)) == want)
    {
      var e := Word(pt, l * 8);
      WholeTable(mem, table, l);
      if X86.Present(e) && X86.Frame(e) == want {
        return true;
      }
    }
    hit := false;
  }

  method WalkPd(mem: Memory, table: nat, want: nat) returns (hit: bool)
    ensures hit <==> PdHits(mem, table, want)
  {
    hide Word, Entry, PtHits;
    var pd := ReadPhys(mem, table, 4096);
    for k := 0 to 512
      invariant forall m :: 0 <= m < k ==>
                  !(X86.Follows(Entry(mem, table, m)) && PtHits(mem, X86.Frame(Entry(mem, table, m)), want))
    {
      var e := Word(pd, k * 8);
      WholeTable(mem, table, k);
      if X86.Present(e) && !X86.Huge(e) {
        hit := WalkPt(mem, X86.Frame(e), want);
        if hit {
          return true;
        }
      }
    }
    hit := false;
  }

  method WalkPdpt(mem: Memory, table: nat, want: nat) returns (hit: bool)
    ensures hit <==> PdptHits(mem, table, want)
  {
    hide Word, Entry, PdHits;
    var pdpt := ReadPhys(mem, table, 4096);
    for j := 0 to 512
      invariant forall m :: 0 <= m < j ==>
                  !(X86.Follows(Entry(mem, table, m)) && PdHits(mem, X86.Frame(Entry(mem, table, m)), want))
    {
      var e := Word(pdpt, j * 8);
      WholeTable(mem, table, j);
      if X86.Present(e) && !X86.Huge(e) {
        hit := WalkPd(mem, X86.Frame(e), want);
        if hit {
          return true;
        }
      }
    }
    hit := false;
  }

  /** Some user address below 2^47 has a present 4 KiB leaf with that frame. */
  ghost predicate Mapped(mem: Memory, root: nat, want: nat) {
    exists va: nat :: va < 0x8000_0000_0000 && X86.Present(Leaf(mem, X86, root, va))
                      && X86.Frame(Leaf(mem, X86, root, va)) == want
  }

  method WalkPageTable(mem: Memory, root: nat, want: nat) returns (hit: bool)
    ensures hit <==> Mapped(mem, root, want)
  {
    hide Word, Entry, PdptHits;
    var table := ReadPhys(mem, root, 4096);
    MappedIffHits(mem, root, want);
    for i := 0 to 256
      invariant forall m :: 0 <= m < i ==>
                  !(X86.Follows(Entry(mem, root, m)) && PdptHits(mem, X86.Frame(Entry(mem, root, m)), want))
    {
      var e := Word(table, i * 8);
      WholeTable(mem, root, i);
      if X86.Present(e) && !X86.Huge(e) {
        hit := WalkPdpt(mem, X86.Frame(e), want);
        if hit {
          return true;
        }
      }
    }
    hit := false;
  }

  // ------------------------------------------------------------------ addresses and indices

  /** The address whose four indices these are. */
  function Address(i: nat, j: nat, k: nat, l: nat): (va: nat) {
    i * 0x80_0000_0000 + j * 0x4000_0000 + k * REGION + l * 0x1000
  }

  lemma AddressIndices(i: nat, j: nat, k: nat, l: nat)
    requires i < 256 && j < 512 && k < 512 && l < 512
    ensures var va := Address(i, j, k, l);
            && va < 0x8000_0000_0000
            && Index(va, 39) == i && Index(va, 30) == j && Index(va, 21) == k && Index(va, 12) == l
  {
    hide PowerOfTwo;
    ShiftValues();
    var va := Address(i, j, k, l);
    assert va / 0x1000 == ((i * 512 + j) * 512 + k) * 512 + l;
    assert va / REGION == (i * 512 + j) * 512 + k;
    assert va / 0x4000_0000 == i * 512 + j;
    assert va / 0x80_0000_0000 == i;
  }

  lemma UserIndex(va: nat)
    requires va < 0x8000_0000_0000
    ensures Index(va, 39) < 256
  {
    hide PowerOfTwo;
    ShiftValues();
  }

  /** The pointwise walk, level by level. */
  lemma LeafUnfolds(mem: Memory, root: nat, va: nat)
    ensures var e4 := Entry(mem, root, Index(va, 39));
            var e3 := Entry(mem, X86.Frame(e4), Index(va, 30));
            var e2 := Entry(mem, X86.Frame(e3), Index(va, 21));
            var e1 := Entry(mem, X86.Frame(e2), Index(va, 12));
            Leaf(mem, X86, root, va) == if X86.Follows(e4) && X86.Follows(e3) && X86.Follows(e2) then e1 else 0
  {
    hide Entry, Index;
    assert X86.Shifts()[1..] == [30, 21] && [30, 21][1..] == [21] && [21][1..] == [];
  }

  lemma HitsWhenMapped(mem: Memory, root: nat, va: nat)
    requires va < 0x8000_0000_0000 && X86.Present(Leaf(mem, X86, root, va))
    ensures RootHits(mem, root, X86.Frame(Leaf(mem, X86, root, va)))
  {
    hide Entry, Index, Leaf;
    LeafUnfolds(mem, root, va);
    UserIndex(va);
    var want := X86.Frame(Leaf(mem, X86, root, va));
    var e4 := Entry(mem, root, Index(va, 39));
    var e3 := Entry(mem, X86.Frame(e4), Index(va, 30));
    var e2 := Entry(mem, X86.Frame(e3), Index(va, 21));
    assert PtHits(mem, X86.Frame(e2), want);
    assert PdHits(mem, X86.Frame(e3), want);
    assert PdptHits(mem, X86.Frame(e4), want);
  }

  lemma MappedWhenHits(mem: Memory, root: nat, want: nat)
    requires RootHits(mem, root, want)
    ensures Mapped(mem, root, want)
  {
    hide Entry, Index, Leaf;
    var i: nat :| 0 <= i < 256 && X86.Follows(Entry(mem, root, i)) && PdptHits(mem, X86.Frame(Entry(mem, root, i)), want);
    var pdpt := X86.Frame(Entry(mem, root, i));
    var j: nat :| 0 <= j < 512 && X86.Follows(Entry(mem, pdpt, j)) && PdHits(mem, X86.Frame(Entry(mem, pdpt, j)), want);
    var pd := X86.Frame(Entry(mem, pdpt, j));
    var k: nat :| 0 <= k < 512 && X86.Follows(Entry(mem, pd, k)) && PtHits(mem, X86.Frame(Entry(mem, pd, k)), want);
    var pt := X86.Frame(Entry(mem, pd, k));
    var l: nat :| 0 <= l < 512 && X86.Present(Entry(mem, pt, l)) && X86.Frame(Entry(mem, pt, l)) == want;
    var va := Address(i, j, k, l);
    AddressIndices(i, j, k, l);
    LeafUnfolds(mem, root, va);
  }

  /** The search by tables and the search by addresses agree. */
  lemma MappedIffHits(mem: Memory, root: nat, want: nat)
    ensures Mapped(mem, root, want) <==> RootHits(mem, root, want)
  {
    if Mapped(mem, root, want) {
      var va: nat :| va < 0x8000_0000_0000 && X86.Present(Leaf(mem, X86, root, va))
                      && X86.Frame(Leaf(mem, X86, root, va)) == want;
      HitsWhenMapped(mem, root, va);
    }
    if RootHits(mem, root, want) {
      MappedWhenHits(mem, root, want);
    }
  }
}
