/**
 UTF-8 text: the encoding of a scalar value, and the decoder of the Encoding Standard, which replaces
 each maximal prefix of a sequence that cannot be completed by one U+FFFD and drops a leading
 byte-order mark.
 */
module Utf8 {
  import opened Bytes

  type Scalar = c: nat | c < 0x11_0000 && !(0xd800 <= c < 0xe000)

  const REPLACEMENT: Scalar := 0xfffd
  const REPLACED: seq<byte> := [0xef, 0xbf, 0xbd]
  const BOM: seq<byte> := [0xef, 0xbb, 0xbf]

  function Encode1(c: Scalar): (s: seq<byte>)
    ensures 1 <= |s| <= 4
  {
    if c < 0x80 then [c]
    else if c < 0x800 then [0xc0 + c / 0x40, 0x80 + c % 0x40]
    else if c < 0x1_0000 then [0xe0 + c / 0x40 / 0x40, 0x80 + c / 0x40 % 0x40, 0x80 + c % 0x40]
    else [0xf0 + c / 0x40 / 0x40 / 0x40, 0x80 + c / 0x40 / 0x40 % 0x40, 0x80 + c / 0x40 % 0x40, 0x80 + c % 0x40]
  }

  function Encode(cs: seq<Scalar>): (s: seq<byte>) {
    if cs == [] then [] else Encode1(cs[0]) + Encode(cs[1..])
  }

  /** What is UTF-8: the encoding of some scalar values. */
  ghost predicate WellFormed(s: seq<byte>) {
    exists cs :: s == Encode(cs)
  }

  // ------------------------------------------------------------------ the decoder

  /** How many bytes follow a leading byte, and the range of the first of them. */
  function Needed(b: byte): (n: nat) {
    if 0xc2 <= b < 0xe0 then 1 else if 0xe0 <= b < 0xf0 then 2 else if 0xf0 <= b < 0xf5 then 3 else 0
  }

  predicate Follows(b: byte, x: byte) {
    (if b == 0xe0 then 0xa0 else if b == 0xf0 then 0x90 else 0x80) <= x
    && x < (if b == 0xed then 0xa0 else if b == 0xf4 then 0x90 else 0xc0)
  }

  /** Six more bits. */
  function Join(high: nat, b: byte): (c: nat)
    requires 0x80 <= b < 0xc0
    ensures c / 0x40 == high && c % 0x40 == b - 0x80
  {
    0x40 * high + (b - 0x80)
  }

  predicate Trailing(s: seq<byte>, i: nat) {
    i < |s| && 0x80 <= s[i] < 0xc0
  }

  /** The first scalar value of some bytes, and how many bytes it takes up. */
  function Next(s: seq<byte>): (r: (Scalar, nat))
    requires s != []
    ensures 1 <= r.1 <= |s|
  {
    var b := s[0];
    if b < 0x80 then (b, 1)
    else if Needed(b) == 0 || |s| < 2 || !Follows(b, s[1]) then (REPLACEMENT, 1)
    else if Needed(b) == 1 then (Join(b - 0xc0, s[1]), 2)
    else if !Trailing(s, 2) then (REPLACEMENT, 2)
    else if Needed(b) == 2 then (Join(Join(b - 0xe0, s[1]), s[2]), 3)
    else if !Trailing(s, 3) then (REPLACEMENT, 3)
    else (Join(Join(Join(b - 0xf0, s[1]), s[2]), s[3]), 4)
  }

  function Decode(s: seq<byte>): (cs: seq<Scalar>) {
    if s == [] then [] else [Next(s).0] + Decode(s[Next(s).1..])
  }

  /** Decoding bytes to a string and encoding it again. */
  function Recode(s: seq<byte>): (t: seq<byte>) {
    Encode(Decode(if BOM <= s then s[3..] else s))
  }

  // ------------------------------------------------------------------ one scalar value

  lemma JoinSplit(c: nat)
    ensures Join(c / 0x40, 0x80 + c % 0x40) == c
  {
  }

  /** The decoder takes an encoded value off the front. */
  lemma TakesEncoded(c: Scalar, rest: seq<byte>)
    ensures Next(Encode1(c) + rest) == (c, |Encode1(c)|)
  {
    JoinSplit(c);
    JoinSplit(c / 0x40);
    JoinSplit(c / 0x40 / 0x40);
    hide Join;
  }

  /** What the decoder takes is the encoding of what it gives, or it is replaced. */
  lemma TakenIsEncoded(s: seq<byte>)
    requires s != []
    ensures Next(s).0 == REPLACEMENT || s[..Next(s).1] == Encode1(Next(s).0)
  {
  }

  /** The start of an encoded value, cut short, is one replacement. */
  lemma CutIsReplaced(c: Scalar, n: nat)
    requires 0 < n < |Encode1(c)|
    ensures Next(Encode1(c)[..n]) == (REPLACEMENT, n)
  {
  }

  // ------------------------------------------------------------------ whole texts

  lemma {:induction false} DecodeEncode(cs: seq<Scalar>)
    ensures Decode(Encode(cs)) == cs
    decreases |cs|
  {
    hide Encode1, Next;
    if cs != [] {
      var one, rest := Encode1(cs[0]), Encode(cs[1..]);
      TakesEncoded(cs[0], rest);
      DecodeEncode(cs[1..]);
      assert (one + rest)[|one|..] == rest;
      assert one + rest != [];
    }
  }

  /** Text is UTF-8 exactly when decoding loses nothing of it. */
  lemma WellFormedExactly(s: seq<byte>)
    ensures WellFormed(s) <==> Encode(Decode(s)) == s
  {
    if WellFormed(s) {
      var cs :| s == Encode(cs);
      DecodeEncode(cs);
    }
  }

  /** The same as a test. */
  predicate IsUtf8(s: seq<byte>)
    ensures IsUtf8(s) <==> WellFormed(s)
  {
    WellFormedExactly(s);
    Encode(Decode(s)) == s
  }

  /** A text after the mark cannot decode to the text with the mark, nor to any continuation of it:
      the mark would have to be followed by another, and so on to the end. */
  lemma {:induction false} MarkIsLost(t: seq<byte>, y: seq<byte>)
    requires BOM + t <= y
    ensures Encode(Decode(t)) != y
    decreases |t|
  {
    hide Encode1, Next;
    if Encode(Decode(t)) == y && t != [] {
      var (c, n) := Next(t);
      var y2 := Encode(Decode(t[n..]));
      assert y == Encode1(c) + y2;
      assert Encode1(0xfeff) == BOM by { MarkEncodes(); }
      assert y == Encode1(0xfeff) + y[3..];
      TakesEncoded(c, y2);
      TakesEncoded(0xfeff, y[3..]);
      TakenIsEncoded(t);
      assert n == 3 && t == BOM + t[3..];
      assert y2 == y[3..];
      assert (BOM + t)[3..] == t;
      MarkIsLost(t[3..], y2);
    }
  }

  lemma MarkEncodes()
    ensures Encode1(0xfeff) == BOM && Encode1(REPLACEMENT) == REPLACED
  {
  }

  /** A string comes back as it was exactly when it is UTF-8 and does not start with the mark. */
  lemma RecodeExactly(s: seq<byte>)
    ensures Recode(s) == s <==> WellFormed(s) && !(BOM <= s)
  {
    WellFormedExactly(s);
    if BOM <= s {
      assert BOM + s[3..] == s;
      MarkIsLost(s[3..], s);
    }
  }

  lemma {:induction false} EncodeBoth(a: seq<Scalar>, b: seq<Scalar>)
    ensures Encode(a + b) == Encode(a) + Encode(b)
    decreases |a|
  {
    hide Encode1;
    if a == [] {
      assert a + b == b;
    } else {
      assert (a + b)[1..] == a[1..] + b;
      EncodeBoth(a[1..], b);
    }
  }

  /** Every byte position is in one encoded value, or at the end. */
  lemma {:induction false} Position(cs: seq<Scalar>, n: nat) returns (k: nat)
    requires n < |Encode(cs)|
    ensures k < |cs| && |Encode(cs[..k])| <= n < |Encode(cs[..k + 1])|
    decreases |cs|
  {
    hide Encode1;
    if n < |Encode1(cs[0])| {
      k := 0;
      assert cs[..1] == [cs[0]] && cs[..1][1..] == [];
    } else {
      var j := Position(cs[1..], n - |Encode1(cs[0])|);
      k := j + 1;
      assert cs[..k][1..] == cs[1..][..j] && cs[..k + 1][1..] == cs[1..][..j + 1];
    }
  }

  /** Decoding what is left of a text when it is cut: the whole values, and one replacement if the
      cut is inside a value. */
  lemma {:induction false} DecodeCut(cs: seq<Scalar>, c: Scalar, n: nat)
    requires n < |Encode1(c)|
    ensures Decode(Encode(cs) + Encode1(c)[..n]) == cs + if n == 0 then [] else [REPLACEMENT]
    decreases |cs|
  {
    hide Encode1, Next;
    var part := Encode1(c)[..n];
    if cs != [] {
      var one, rest := Encode1(cs[0]), Encode(cs[1..]) + part;
      assert Encode(cs) + part == one + rest;
      TakesEncoded(cs[0], rest);
      DecodeCut(cs[1..], c, n);
      assert (one + rest)[|one|..] == rest;
      assert one + rest != [];
    } else if n > 0 {
      assert Encode(cs) + part == part;
      CutIsReplaced(c, n);
      assert part[n..] == [];
      assert Decode(part) == [REPLACEMENT] + Decode([]);
    } else {
      assert Encode(cs) + part == [];
    }
  }

  lemma {:induction false} EncodeSplit(cs: seq<Scalar>, k: nat)
    requires k < |cs|
    ensures Encode(cs) == Encode(cs[..k]) + Encode1(cs[k]) + Encode(cs[k + 1..])
  {
    hide Encode1;
    assert cs == cs[..k] + cs[k..];
    EncodeBoth(cs[..k], cs[k..]);
    assert cs[k..][1..] == cs[k + 1..];
    assert Encode(cs[k..]) == Encode1(cs[k]) + Encode(cs[k + 1..]);
  }

  lemma {:induction false} CutPosition(cs: seq<Scalar>, n: nat) returns (k: nat)
    requires n < |Encode(cs)|
    ensures k < |cs| && 0 <= n - |Encode(cs[..k])| < |Encode1(cs[k])|
    ensures Encode(cs)[..n] == Encode(cs[..k]) + Encode1(cs[k])[..n - |Encode(cs[..k])|]
  {
    hide Encode1;
    k := Position(cs, n);
    EncodeSplit(cs, k);
    EncodeSplit(cs[..k + 1], k);
    assert cs[..k + 1][..k] == cs[..k] && cs[..k + 1][k + 1..] == [];
  }

  lemma LeadingFirst(c: Scalar, i: nat)
    requires i < |Encode1(c)| && Encode1(c)[i] == 0xef
    ensures i == 0 && |Encode1(c)| == 3
  {
  }

  predicate EndsReplaced(s: seq<byte>) {
    |s| >= 3 && s[|s| - 3..] == REPLACED
  }

  /** A text that ends in the bytes of a replacement ends in a replacement. */
  lemma {:induction false} EndsExactly(cs: seq<Scalar>)
    ensures EndsReplaced(Encode(cs)) <==> cs != [] && cs[|cs| - 1] == REPLACEMENT
  {
    hide Encode1, Next;
    var s := Encode(cs);
    MarkEncodes();
    if cs != [] && cs[|cs| - 1] == REPLACEMENT {
      EncodeSplit(cs, |cs| - 1);
      assert s == Encode(cs[..|cs| - 1]) + REPLACED;
    }
    if EndsReplaced(s) {
      var at := |s| - 3;
      var k := CutPosition(cs, at);
      EncodeSplit(cs, k);
      var before, one, after := Encode(cs[..k]), Encode1(cs[k]), Encode(cs[k + 1..]);
      assert s[at] == s[at..][0] == 0xef && s[at] == one[at - |before|];
      LeadingFirst(cs[k], at - |before|);
      assert after == [] && one == s[at..];
      TakesEncoded(cs[k], []);
      TakesEncoded(REPLACEMENT, []);
    }
  }

  /** A text cut short decodes to the whole text exactly when it ends in a replacement and the cut is
      inside it. */
  lemma {:induction false} CutExactly(cs: seq<Scalar>, n: nat)
    requires n < |Encode(cs)|
    ensures Encode(Decode(Encode(cs)[..n])) == Encode(cs) <==> |Encode(cs)| - 3 < n && EndsReplaced(Encode(cs))
  {
    hide *;
    var k := CutPosition(cs, n);
    var m := n - |Encode(cs[..k])|;
    DecodeCut(cs[..k], cs[k], m);
    var got := cs[..k] + if m == 0 then [] else [REPLACEMENT];
    DecodeEncode(cs);
    DecodeEncode(got);
    EndsExactly(cs);
    CutAtLast(cs, k, m);
  }

  lemma {:induction false} CutAtLast(cs: seq<Scalar>, k: nat, m: nat)
    requires k < |cs| && m < |Encode1(cs[k])|
    ensures cs == cs[..k] + (if m == 0 then [] else [REPLACEMENT]) <==>
            |Encode(cs)| - 3 < |Encode(cs[..k])| + m && cs[|cs| - 1] == REPLACEMENT
  {
    hide Encode1;
    MarkEncodes();
    EncodeSplit(cs, k);
    var last := |cs| - 1;
    if k == last {
      assert cs[k + 1..] == [];
      assert cs == cs[..k] + [cs[k]];
      assert m == 0 ==> |cs[..k] + []| < |cs|;
      assert m != 0 ==> (cs[..k] + [REPLACEMENT])[k] == REPLACEMENT;
    } else {
      EncodeSplit(cs[k + 1..], last - k - 1);
      assert cs[k + 1..][last - k - 1] == cs[last];
      assert |cs[..k] + (if m == 0 then [] else [REPLACEMENT])| <= k + 1 < |cs|;
    }
  }

  // ------------------------------------------------------------------ zero bytes

  lemma ZeroAlone(c: Scalar)
    ensures 0 in Encode1(c) <==> c == 0
    ensures Encode1(0) == [0]
  {
  }

  /** Recoding puts no zero byte where there was none. */
  lemma {:induction false} NoNewZero(s: seq<byte>)
    requires 0 !in s
    ensures 0 !in Encode(Decode(s))
    decreases |s|
  {
    hide Encode1, Next;
    if s != [] {
      var (c, n) := Next(s);
      TakenIsEncoded(s);
      ZeroAlone(c);
      NoNewZero(s[n..]);
    }
  }

  /** A string cut at its first zero byte is still UTF-8. */
  lemma {:induction false} CutAtZero(cs: seq<Scalar>)
    ensures WellFormed(UpToZero(Encode(cs)))
    decreases |cs|
  {
    hide Encode1;
    if cs == [] || cs[0] == 0 {
      if cs != [] {
        ZeroAlone(cs[0]);
        assert Encode(cs)[0] == 0;
      }
      assert UpToZero(Encode(cs)) == Encode([]);
    } else {
      ZeroAlone(cs[0]);
      CutAtZero(cs[1..]);
      UpToZeroAfter(Encode1(cs[0]), Encode(cs[1..]));
      var ds :| UpToZero(Encode(cs[1..])) == Encode(ds);
      assert ([cs[0]] + ds)[1..] == ds;
      assert UpToZero(Encode(cs)) == Encode([cs[0]] + ds);
    }
  }
}
