/** The allocation bitmaps: bytes whose bits are set one at a time. */
module Bitmap {
  import opened Bytes

  type Map = seq<bv8>

  predicate Bit(b: bv8, k: nat)
    requires k < 8
  {
    b & (1 << k) != 0
  }

  lemma OrSets(b: bv8, k: nat, j: nat)
    requires k < 8 && j < 8
    ensures Bit(b | (1 << k), j) <==> j == k || Bit(b, j)
  {
  }

  predicate Test(m: Map, bit: nat)
    requires bit < 8 * |m|
  {
    Bit(m[bit / 8], bit % 8)
  }

  function Set(m: Map, bit: nat): (r: Map)
    requires bit < 8 * |m|
    ensures |r| == |m|
    ensures forall b :: 0 <= b < 8 * |m| ==> (Test(r, b) <==> b == bit || Test(m, b))
  {
    var r := m[bit / 8 := m[bit / 8] | (1 << (bit % 8))];
    SetSets(m, bit);
    r
  }

  lemma SetSets(m: Map, bit: nat)
    requires bit < 8 * |m|
    ensures var r := m[bit / 8 := m[bit / 8] | (1 << (bit % 8))];
            forall b :: 0 <= b < 8 * |m| ==> (Test(r, b) <==> b == bit || Test(m, b))
  {
    var r := m[bit / 8 := m[bit / 8] | (1 << (bit % 8))];
    forall b | 0 <= b < 8 * |m| ensures Test(r, b) <==> b == bit || Test(m, b) {
      OrSets(m[bit / 8], bit % 8, b % 8);
    }
  }

  function Clear(n: nat): (m: Map)
    ensures |m| == n
    ensures forall b :: 0 <= b < 8 * n ==> !Test(m, b)
  {
    seq(n, i => 0)
  }

  /** The bytes a bitmap is stored as, and the bitmap a stretch of bytes stores. */
  function ToBytes(m: Map): (b: seq<byte>)
    ensures |b| == |m|
  {
    seq(|m|, i requires 0 <= i < |m| => m[i] as int)
  }

  function FromBytes(b: seq<byte>): (m: Map)
    ensures |m| == |b|
  {
    seq(|b|, i requires 0 <= i < |b| => b[i] as bv8)
  }

  lemma StoredReads(m: Map)
    ensures FromBytes(ToBytes(m)) == m
  {
  }
}
