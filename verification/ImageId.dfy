/** The fingerprint that ties a store to the image it was made from. */
module ImageId {
  import opened Bytes

  const WORD: nat := 0x1_0000_0000
  const OFFSET_BASIS: nat := 0x811c9dc5
  const PRIME: nat := 0x01000193
  /** The inverse of the prime in 32-bit arithmetic. */
  const INVERSE: nat := 0x359c449b

  /** Exclusive or, bit by bit. */
  function Xor(x: nat, y: nat): (r: nat)
    decreases x + y
  {
    if x == 0 then y
    else if y == 0 then x
    else 2 * Xor(x / 2, y / 2) + (x + y) % 2
  }

  /** One byte of the hash: exclusive or, then a 32-bit multiplication. */
  function Mix(h: nat, b: byte): (r: nat)
    ensures r < WORD
  {
    Xor(h, b) * PRIME % WORD
  }

  function HashFrom(h: nat, bytes: seq<byte>): (r: nat)
    decreases |bytes|
  {
    if bytes == [] then h else HashFrom(Mix(h, bytes[0]), bytes[1..])
  }

  function DigitChar(d: nat): (c: char)
    requires d < 16
    ensures c != ':'
  {
    if d < 10 then '0' + d as char else 'a' + (d - 10) as char
  }

  function Upper(n: nat, base: nat): (q: nat)
    requires 2 <= base
    ensures q == 0 || q < n
  {
    UpperLess(n, base);
    n / base
  }

  lemma UpperLess(n: nat, base: nat)
    requires 2 <= base
    ensures n / base == 0 || n / base < n
  {
    var q := n / base;
    assert q * base <= n;
    assert q * base >= q * 2;
  }

  function Digit(n: nat, base: nat): (d: nat)
    requires 2 <= base
    ensures d < base
  {
    n % base
  }

  /** `n` in the given base, without leading zeros. */
  function Numeral(n: nat, base: nat): (s: string)
    requires 2 <= base <= 16
    ensures s != [] && forall i :: 0 <= i < |s| ==> s[i] != ':'
  {
    (if Upper(n, base) == 0 then [] else Numeral(Upper(n, base), base)) + [DigitChar(Digit(n, base))]
  }

  /** `imageIdOf`: the length in decimal, a colon, and the hash in hexadecimal. */
  method Identify(bytes: seq<byte>) returns (id: string)
    ensures id == IdOf(bytes)
  {
    var h := OFFSET_BASIS;
    var i := 0;
    while i < |bytes|
      invariant 0 <= i <= |bytes|
      invariant HashFrom(h, bytes[i..]) == HashFrom(OFFSET_BASIS, bytes)
    {
      h := Mix(h, bytes[i]);
      assert bytes[i..][1..] == bytes[i + 1..];
      i := i + 1;
    }
    id := Numeral(|bytes|, 10) + ":" + Numeral(h, 16);
  }

  function IdOf(bytes: seq<byte>): (id: string) {
    Numeral(|bytes|, 10) + ":" + Numeral(HashFrom(OFFSET_BASIS, bytes), 16)
  }

  // ------------------------------------------------------------------ injectivity

  lemma DigitsDiffer(a: nat, b: nat)
    requires a < 16 && b < 16 && DigitChar(a) == DigitChar(b)
    ensures a == b
  {
  }

  lemma DigitsDetermine(a: nat, b: nat, base: nat)
    requires 2 <= base && Upper(a, base) == Upper(b, base) && Digit(a, base) == Digit(b, base)
    ensures a == b
  {
    assert a == a / base * base + a % base && b == b / base * base + b % base;
  }

  lemma NumeralEnds(n: nat, base: nat)
    requires 2 <= base <= 16
    ensures var s := Numeral(n, base);
            && s[|s| - 1] == DigitChar(Digit(n, base))
            && s[..|s| - 1] == if Upper(n, base) == 0 then [] else Numeral(Upper(n, base), base)
  {
    hide Upper, Digit, DigitChar;
  }

  lemma {:induction false} NumeralInjective(a: nat, b: nat, base: nat)
    requires 2 <= base <= 16 && Numeral(a, base) == Numeral(b, base)
    ensures a == b
    decreases a
  {
    hide Numeral, DigitChar, Upper, Digit;
    NumeralEnds(a, base);
    NumeralEnds(b, base);
    DigitsDiffer(Digit(a, base), Digit(b, base));
    if Upper(a, base) != 0 && Upper(b, base) != 0 {
      NumeralInjective(Upper(a, base), Upper(b, base), base);
    }
    DigitsDetermine(a, b, base);
  }

  lemma WordsOff(x: nat, t: int)
    requires x < WORD
    ensures (x + WORD * t) % WORD == x
  {
  }

  lemma PrimeInvertible(x: nat)
    requires x < WORD
    ensures x * PRIME % WORD * INVERSE % WORD == x
  {
    var q := x * PRIME / WORD;
    var y := x * PRIME % WORD;
    assert y == x * PRIME - WORD * q;
    assert PRIME * INVERSE == 1 + WORD * 0x359c99;
    assert y * INVERSE == x + WORD * (x * 0x359c99 - q * INVERSE);
    WordsOff(x, x * 0x359c99 - q * INVERSE);
  }

  lemma {:induction false} XorTwice(x: nat, y: nat)
    ensures Xor(Xor(x, y), y) == x && Xor(x, y) == Xor(y, x)
    decreases x + y
  {
    if x != 0 && y != 0 {
      XorTwice(x / 2, y / 2);
      XorHalves(x, y);
      XorHalves(Xor(x, y), y);
    } else if x == 0 {
      XorSelf(y);
    }
  }

  lemma XorHalves(x: nat, y: nat)
    ensures Xor(x, y) / 2 == Xor(x / 2, y / 2) && Xor(x, y) % 2 == (x + y) % 2
  {
  }

  lemma {:induction false} XorSelf(y: nat)
    ensures Xor(y, y) == 0
  {
    if y != 0 {
      XorSelf(y / 2);
    }
  }

  lemma {:induction false} XorBounded(x: nat, y: nat, k: nat)
    requires x < PowerOfTwo(k) && y < PowerOfTwo(k)
    ensures Xor(x, y) < PowerOfTwo(k)
  {
    if k != 0 {
      XorBounded(x / 2, y / 2, k - 1);
    }
  }

  /** Each step of the hash is injective in the state and in the byte. */
  lemma MixInjective(g: nat, a: byte, h: nat, b: byte)
    requires g < WORD && h < WORD && Mix(g, a) == Mix(h, b) && (a == b || g == h)
    ensures g == h && a == b
  {
    hide Xor;
    assert PowerOfTwo(8) == 256;
    assert PowerOfTwo(16) == 0x1_0000;
    assert PowerOfTwo(24) == 0x100_0000;
    assert PowerOfTwo(32) == WORD;
    XorBounded(g, a, 32);
    XorBounded(h, b, 32);
    PrimeInvertible(Xor(g, a));
    PrimeInvertible(Xor(h, b));
    XorTwice(g, a);
    XorTwice(h, b);
    XorTwice(a, g);
    XorTwice(b, h);
  }

  lemma {:induction false} HashKeepsDifference(g: nat, h: nat, bytes: seq<byte>)
    requires g != h && g < WORD && h < WORD
    ensures HashFrom(g, bytes) != HashFrom(h, bytes)
    decreases |bytes|
  {
    if bytes != [] {
      if Mix(g, bytes[0]) == Mix(h, bytes[0]) {
        MixInjective(g, bytes[0], h, bytes[0]);
      }
      HashKeepsDifference(Mix(g, bytes[0]), Mix(h, bytes[0]), bytes[1..]);
    }
  }

  /** Changing one byte changes the hash. */
  lemma {:induction false} OneByteChangesHash(h: nat, x: seq<byte>, at: nat, b: byte)
    requires h < WORD && at < |x| && x[at] != b
    ensures HashFrom(h, x) != HashFrom(h, x[at := b])
    decreases at
  {
    var y := x[at := b];
    if at == 0 {
      assert x[1..] == y[1..];
      if Mix(h, x[0]) == Mix(h, b) {
        MixInjective(h, x[0], h, b);
      }
      HashKeepsDifference(Mix(h, x[0]), Mix(h, b), x[1..]);
    } else {
      assert y[1..] == x[1..][at - 1 := b];
      OneByteChangesHash(Mix(h, x[0]), x[1..], at - 1, b);
    }
  }

  /** Equal identifiers mean equal lengths and equal hashes. */
  lemma IdSplits(x: seq<byte>, y: seq<byte>)
    requires IdOf(x) == IdOf(y)
    ensures |x| == |y| && HashFrom(OFFSET_BASIS, x) == HashFrom(OFFSET_BASIS, y)
  {
    var a, b := Numeral(|x|, 10), Numeral(|y|, 10);
    var p, q := HashFrom(OFFSET_BASIS, x), HashFrom(OFFSET_BASIS, y);
    var s, t := IdOf(x), IdOf(y);
    assert s[|a|] == ':' && t[|b|] == ':';
    assert forall i :: 0 <= i < |a| ==> s[i] == a[i];
    assert forall i :: 0 <= i < |b| ==> t[i] == b[i];
    assert s[..|a|] == a && t[..|b|] == b;
    NumeralInjective(|x|, |y|, 10);
    assert s[|a| + 1..] == Numeral(p, 16) && t[|b| + 1..] == Numeral(q, 16);
    NumeralInjective(p, q, 16);
  }

  /** Two images of one length that disagree at `at` and nowhere else. */
  predicate DifferOnlyAt(x: seq<byte>, y: seq<byte>, at: nat) {
    at < |x| == |y| && x[at] != y[at] && y == x[at := y[at]]
  }

  /** Images of different length, or of equal length and differing in exactly one byte, never share
      an identifier. */
  lemma DifferentImagesDiffer(x: seq<byte>, y: seq<byte>)
    requires |x| != |y| || exists at: nat :: DifferOnlyAt(x, y, at)
    ensures IdOf(x) != IdOf(y)
  {
    if IdOf(x) == IdOf(y) {
      IdSplits(x, y);
      var at: nat :| DifferOnlyAt(x, y, at);
      OneByteChangesHash(OFFSET_BASIS, x, at, y[at]);
    }
  }
}
