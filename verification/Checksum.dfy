/** The internet checksum (section 1 of RFC 1071), as the page and the reference script compute it. */
module Checksum {
  import opened Bytes

  function Word(hi: byte, lo: byte): (w: nat)
    ensures w < 0x10000
  {
    256 * (hi as int) + lo as int
  }

  /** The sum of the big-endian 16-bit words; an odd last byte is the high half of a word. */
  function WordSum(s: seq<byte>): (n: nat)
    ensures n <= 0xffff * ((|s| + 1) / 2)
    decreases |s|
  {
    if |s| == 0 then 0
    else if |s| == 1 then Word(s[0], 0)
    else Word(s[0], s[1]) + WordSum(s[2..])
  }

  /** The end-around carry, until it fits in 16 bits. */
  function Fold(n: nat): (r: nat)
    ensures r < 0x10000
  {
    if n < 0x10000 then n else Fold(n % 0x10000 + n / 0x10000)
  }

  function InternetChecksum(s: seq<byte>): (c: nat)
    ensures c < 0x10000
  {
    0xffff - Fold(WordSum(s))
  }

  // ------------------------------------------------------------------ arithmetic of the carry

  /** Folding is the residue modulo 65535, with 65535 rather than 0 for a nonzero sum. */
  lemma {:induction false} FoldResidue(n: nat)
    ensures Fold(n) % 0xffff == n % 0xffff && (Fold(n) == 0 <==> n == 0)
  {
    if n >= 0x10000 {
      var q, r := n / 0x10000, n % 0x10000;
      FoldResidue(r + q);
      SameResidue(r + q, q);
      assert n == (r + q) + 0xffff * q;
    }
  }

  lemma SameResidue(a: nat, q: nat)
    ensures (a + 0xffff * q) % 0xffff == a % 0xffff
  {
    var d := a / 0xffff;
    assert a + 0xffff * q == 0xffff * (d + q) + a % 0xffff;
  }

  lemma Multiple(k: nat, f: nat)
    requires f < 0x10000 && f % 0xffff == k % 0xffff
    ensures (k + (0xffff - f)) % 0xffff == 0
  {
    var a, b := k / 0xffff, f / 0xffff;
    assert k + (0xffff - f) == 0xffff * (a - b + 1);
  }

  /** A sum and the complement of its fold add up to all ones. */
  lemma ComplementCancels(n: nat)
    ensures Fold(n + (0xffff - Fold(n))) == 0xffff
  {
    hide Fold;
    FoldResidue(n);
    var m := n + (0xffff - Fold(n));
    FoldResidue(m);
    Multiple(n, Fold(n));
  }

  // ------------------------------------------------------------------ the field in the message

  function SetWord(s: seq<byte>, at: nat, w: nat): (r: seq<byte>)
    requires at + 2 <= |s| && w < 0x10000
    ensures |r| == |s| && r[at] == w / 256 && r[at + 1] == w % 256
    ensures forall i :: 0 <= i < |s| && i != at && i != at + 1 ==> r[i] == s[i]
  {
    s[at := w / 256][at + 1 := w % 256]
  }

  lemma {:induction false} WordSumSet(s: seq<byte>, at: nat, w: nat)
    requires at % 2 == 0 && at + 2 <= |s| && w < 0x10000
    ensures WordSum(SetWord(s, at, w)) + Word(s[at], s[at + 1]) == WordSum(s) + w
    decreases at
  {
    var t := SetWord(s, at, w);
    if at == 0 {
      assert t[2..] == s[2..];
    } else {
      WordSumSet(s[2..], at - 2, w);
      assert t[2..] == SetWord(s[2..], at - 2, w);
    }
  }

  /** Whatever the message, with its checksum in an even field that was zero it checks to zero. */
  lemma FieldVerifies(s: seq<byte>, at: nat)
    requires at % 2 == 0 && at + 2 <= |s| && s[at] == 0 && s[at + 1] == 0
    ensures InternetChecksum(SetWord(s, at, InternetChecksum(s))) == 0
  {
    hide Fold, WordSum;
    WordSumSet(s, at, InternetChecksum(s));
    ComplementCancels(WordSum(s));
  }

  // ------------------------------------------------------------------ the page's loop

  /** A number as the 32-bit operators of JavaScript see it. */
  function ToInt32(n: int): (r: int)
    ensures -0x8000_0000 <= r < 0x8000_0000
  {
    var m := n % 0x1_0000_0000;
    if m >= 0x8000_0000 then m - 0x1_0000_0000 else m
  }

  /** `n >> 16`: the sign is kept. */
  function Shift16(n: int): (r: int) {
    ToInt32(n) / 0x10000
  }

  /** `n & 0xffff`. */
  function Low16(n: int): (r: nat)
    ensures r < 0x10000
  {
    ToInt32(n) % 0x10000
  }

  /** Below 2^31 the signed shift is plain division. */
  lemma SmallShift(n: nat)
    requires n < 0x8000_0000
    ensures Shift16(n) == n / 0x10000 && Low16(n) == n % 0x10000
    ensures Low16(-1 - n) == 0xffff - n % 0x10000
  {
    var m := 0x1_0000_0000 - 1 - n;
    assert m == 0x10000 * (0xffff - n / 0x10000) + (0xffff - n % 0x10000);
    assert (-1 - n) % 0x1_0000_0000 == m;
  }

  /** The bytes an IPv4 total length can name keep the sum below 2^31. */
  lemma SumBound(s: seq<byte>)
    requires |s| <= 0x10000
    ensures WordSum(s) < 0x8000_0000
  {
  }

  lemma NextWord(s: seq<byte>, i: nat, end: nat)
    requires i + 2 <= end <= |s|
    ensures WordSum(s[i..end]) == Word(s[i], s[i + 1]) + WordSum(s[i + 2..end])
  {
    assert s[i..end][2..] == s[i + 2..end];
  }

  lemma NoWord()
    ensures WordSum([]) == 0
  {
  }

  /** `inetChecksum`. Its callers pass a range of at most 65535 bytes; 65536 is the most for which the
      sum stays positive as a 32-bit number. */
  method InetChecksum(bytes: array<byte>, start: nat, end: nat) returns (c: nat)
    requires start <= end <= bytes.Length && end - start <= 0x10000
    ensures c == InternetChecksum(bytes[start..end])
  {
    hide Fold;
    ghost var all := bytes[start..end];
    SumBound(all);
    var sum: int := 0;
    var i := start;
    while i + 1 < end
      invariant start <= i <= end
      invariant 0 <= sum && sum + WordSum(bytes[i..end]) == WordSum(all)
    {
      assert bytes[i..end][2..] == bytes[i + 2..end];
      sum := sum + Word(bytes[i], bytes[i + 1]);
      i := i + 2;
    }
    if i < end {
      sum := sum + Word(bytes[i], 0);
    }
    assert sum == WordSum(all);
    c := Complement(sum);
  }

  method Complement(n: nat) returns (c: nat)
    requires n < 0x8000_0000
    ensures c == 0xffff - Fold(n)
  {
    hide ToInt32;
    var sum: int := n;
    SmallShift(sum);
    while Shift16(sum) != 0
      invariant 0 <= sum < 0x8000_0000 && Fold(sum) == Fold(n)
      invariant Shift16(sum) == sum / 0x10000 && Low16(sum) == sum % 0x10000
      decreases sum
    {
      sum := Low16(sum) + Shift16(sum);
      SmallShift(sum);
    }
    SmallShift(sum);
    c := Low16(-1 - sum);
  }

  // ------------------------------------------------------------------ the reference script

  lemma {:induction false} PaddingIsZero(s: seq<byte>)
    requires |s| % 2 == 1
    ensures WordSum(s + [0]) == WordSum(s)
    decreases |s|
  {
    if |s| == 1 {
      assert (s + [0])[2..] == [];
    } else {
      PaddingIsZero(s[2..]);
      assert (s + [0])[2..] == s[2..] + [0];
    }
  }

  /** `csum`: pads, adds and folds, in unbounded arithmetic, over any number of bytes. */
  method Csum(bytes: seq<byte>) returns (c: nat)
    ensures c == InternetChecksum(bytes)
  {
    hide Fold, WordSum;
    var data := bytes;
    if |data| % 2 != 0 {
      PaddingIsZero(data);
      data := data + [0];
    }
    var s := Words(data);
    c := Carried(s);
    c := 0xffff - c;
  }

  method Words(data: seq<byte>) returns (s: nat)
    requires |data| % 2 == 0
    ensures s == WordSum(data)
  {
    hide WordSum;
    s := 0;
    var i := 0;
    assert data[0..] == data;
    while i < |data|
      invariant 0 <= i <= |data| && i % 2 == 0
      invariant s + WordSum(data[i..]) == WordSum(data)
    {
      NextWord(data, i, |data|);
      assert data[i..] == data[i..|data|] && data[i + 2..] == data[i + 2..|data|];
      s := s + Word(data[i], data[i + 1]);
      i := i + 2;
    }
    NoWord();
  }

  method Carried(n: nat) returns (s: nat)
    ensures s == Fold(n)
  {
    s := n;
    while s / 0x10000 != 0
      invariant Fold(s) == Fold(n)
      decreases s
    {
      s := s % 0x10000 + s / 0x10000;
    }
  }
}
