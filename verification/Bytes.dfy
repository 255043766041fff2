/** Bytes and the fixed-width little-endian fields the on-disk formats are made of. */
module Bytes {

  type byte = x: int | 0 <= x < 256

  datatype Option<+T> = None | Some(value: T)

  function Min(a: int, b: int): (r: int) {
    if a <= b then a else b
  }

  function PowerOfTwo(k: nat): (r: nat)
    ensures r > 0
  {
    if k == 0 then 1 else 2 * PowerOfTwo(k - 1)
  }

  /** `n` zero bytes. */
  function Zeros(n: nat): (z: seq<byte>)
    ensures |z| == n && forall i :: 0 <= i < n ==> z[i] == 0
  {
    seq(n, i => 0)
  }

  ghost predicate ZeroRange(s: seq<byte>, lo: nat, hi: nat) {
    hi <= |s| && forall k :: lo <= k < hi ==> s[k] == 0
  }

  /** `s` with the bytes of `t` written over it from `at` on. */
  function Splice(s: seq<byte>, at: nat, t: seq<byte>): (r: seq<byte>)
    requires at + |t| <= |s|
    ensures |r| == |s|
    ensures r[at..at + |t|] == t
    ensures forall i :: 0 <= i < at ==> r[i] == s[i]
    ensures forall i :: at + |t| <= i < |s| ==> r[i] == s[i]
    ensures forall i :: at <= i < at + |t| ==> r[i] == t[i - at]
  {
    s[..at] + t + s[at + |t|..]
  }

  /** Writes bytes into an array, in place. */
  method Put(dst: array<byte>, at: nat, bytes: seq<byte>)
    requires at + |bytes| <= dst.Length
    modifies dst
    ensures dst[..] == Splice(old(dst[..]), at, bytes)
  {
    forall i | 0 <= i < |bytes| {
      dst[at + i] := bytes[i];
    }
  }

  /** No element occurs twice. */
  ghost predicate NoDup<T>(s: seq<T>) {
    forall i, j :: 0 <= i < j < |s| ==> s[i] != s[j]
  }

  /** `q` without the first occurrence of `x`. */
  function Without<T(==,!new)>(q: seq<T>, x: T): (r: seq<T>)
    ensures forall y :: y != x ==> (y in r <==> y in q)
  {
    if q == [] then []
    else if q[0] == x then q[1..]
    else [q[0]] + Without(q[1..], x)
  }

  lemma {:induction false} WithoutOnce<T(!new)>(q: seq<T>, x: T)
    requires NoDup(q)
    ensures NoDup(Without(q, x)) && x !in Without(q, x)
    decreases |q|
  {
    if q != [] {
      if q[0] == x {
        assert forall i :: 0 <= i < |q[1..]| ==> q[1..][i] == q[i + 1];
      } else {
        WithoutOnce(q[1..], x);
        var r := Without(q[1..], x);
        assert forall i :: 0 <= i < |r| ==> r[i] in r;
        assert q[0] !in q[1..];
      }
    }
  }

  /** A write leaves every range it does not overlap as it was. */
  lemma SpliceKeeps(s: seq<byte>, at: nat, t: seq<byte>, lo: nat, hi: nat)
    requires at + |t| <= |s|
    requires lo <= hi <= |s|
    requires hi <= at || at + |t| <= lo
    ensures Splice(s, at, t)[lo..hi] == s[lo..hi]
  {
  }

  /** The bytes before the first zero. */
  function UpToZero(s: seq<byte>): (r: seq<byte>)
    ensures 0 !in r
  {
    if s == [] || s[0] == 0 then [] else [s[0]] + UpToZero(s[1..])
  }

  lemma {:induction false} UpToZeroAfter(s: seq<byte>, t: seq<byte>)
    requires 0 !in s
    ensures UpToZero(s + t) == s + UpToZero(t)
    decreases |s|
  {
    if s == [] {
      assert s + t == t;
    } else {
      UpToZeroAfter(s[1..], t);
      assert (s + t)[1..] == s[1..] + t;
    }
  }

  function LE16(v: nat): (b: seq<byte>)
    ensures |b| == 2
  {
    [v % 256, v / 256 % 256]
  }

  function LE32(v: nat): (b: seq<byte>)
    ensures |b| == 4
  {
    [v % 256, v / 256 % 256, v / 65536 % 256, v / 16777216 % 256]
  }

  function Rd16(s: seq<byte>, at: nat): (v: nat)
    requires at + 2 <= |s|
    ensures v < 0x10000
  {
    s[at] as int + 256 * (s[at + 1] as int)
  }

  function Rd32(s: seq<byte>, at: nat): (v: nat)
    requires at + 4 <= |s|
    ensures v < 0x1_0000_0000
  {
    s[at] as int + 256 * (s[at + 1] as int) + 65536 * (s[at + 2] as int) + 16777216 * (s[at + 3] as int)
  }

  /** Reading back a 16-bit field gives the value truncated to its width. */
  lemma Rd16LE16(s: seq<byte>, at: nat, v: nat)
    requires at + 2 <= |s|
    requires s[at..at + 2] == LE16(v)
    ensures Rd16(s, at) == v % 0x10000
  {
    assert s[at] == s[at..at + 2][0] && s[at + 1] == s[at..at + 2][1];
    var q := v / 256;
    TwoBytes(q / 256, v % 256 + 256 * (q % 256));
    assert v == 0x10000 * (q / 256) + (v % 256 + 256 * (q % 256));
  }

  lemma TwoBytes(t: nat, w: nat)
    requires w < 0x10000
    ensures (0x10000 * t + w) % 0x10000 == w
  {
  }

  lemma LowDigit(v: nat)
    ensures v % 0x1_0000_0000 == v % 256 + 256 * (v / 256 % 0x100_0000)
  {
    var q := v / 256;
    var t := q / 0x100_0000;
    assert v == 0x1_0000_0000 * t + (v % 256 + 256 * (q % 0x100_0000));
  }

  lemma Quotients(v: nat)
    ensures v / 256 / 256 == v / 65536
    ensures v / 256 / 65536 == v / 0x100_0000
  {
  }

  lemma ThreeBytes(t: nat, w: nat)
    requires w < 0x100_0000
    ensures (0x100_0000 * t + w) % 0x100_0000 == w
  {
  }

  lemma MidDigit(v: nat)
    ensures v % 0x100_0000 == v % 256 + 256 * (v / 256 % 256) + 65536 * (v / 65536 % 256)
  {
    var q := v / 256;
    var r := q / 256;
    Quotients(v);
    var w := v % 256 + 256 * (q % 256) + 65536 * (r % 256);
    assert v == 0x100_0000 * (r / 256) + w;
    ThreeBytes(r / 256, w);
  }

  /** Reading back a 32-bit field gives the value truncated to its width. */
  lemma Rd32LE32(s: seq<byte>, at: nat, v: nat)
    requires at + 4 <= |s|
    requires s[at..at + 4] == LE32(v)
    ensures Rd32(s, at) == v % 0x1_0000_0000
  {
    var f := s[at..at + 4];
    assert s[at] == f[0] && s[at + 1] == f[1] && s[at + 2] == f[2] && s[at + 3] == f[3];
    LowDigit(v);
    MidDigit(v / 256);
    Quotients(v);
  }
}
