/** The newc archive the boot image is packed in: the writer, a full reader, and the kernel's lookup. */
module Cpio {
  import opened Bytes
  import opened Utf8

  const WORD: nat := 0x1_0000_0000

  datatype Entry = Entry(ino: nat, name: seq<byte>, mode: nat, uid: nat, gid: nat, perm: nat, rdev: nat, data: seq<byte>) {
    /** The integers are 32-bit; the name and the data are any that a 32-bit length can count. */
    predicate Valid() {
      && ino < WORD && mode < WORD && uid < WORD && gid < WORD && perm < WORD && rdev < WORD
      && |name| + 1 < WORD && |data| < WORD
    }
  }

  // ------------------------------------------------------------------ hexadecimal fields

  function HexDigit(d: nat): (b: byte)
    requires d < 16
  {
    if d < 10 then 48 + d else 87 + d
  }

  function DigitValue(b: byte): (d: Option<nat>)
    ensures d.Some? ==> d.value < 16
  {
    if 48 <= b < 58 then Some(b - 48)
    else if 97 <= b < 103 then Some(b - 87)
    else if 65 <= b < 71 then Some(b - 55)
    else None
  }

  /** The low `n` hexadecimal digits of `v`. */
  function Hex(v: nat, n: nat): (s: seq<byte>)
    ensures |s| == n
    decreases n
  {
    if n == 0 then [] else Hex(v / 16, n - 1) + [HexDigit(v % 16)]
  }

  function Unhex(s: seq<byte>): (v: Option<nat>) {
    if s == [] then Some(0)
    else
      match (Unhex(s[..|s| - 1]), DigitValue(s[|s| - 1]))
      case (Some(v), Some(d)) => Some(16 * v + d)
      case _ => None
  }

  function Power16(n: nat): (p: nat)
    ensures p > 0
  {
    if n == 0 then 1 else 16 * Power16(n - 1)
  }

  lemma {:induction false} UnhexHex(v: nat, n: nat)
    requires v < Power16(n)
    ensures Unhex(Hex(v, n)) == Some(v)
    decreases n
  {
    if n != 0 {
      UnhexHex(v / 16, n - 1);
      assert Hex(v, n)[..n - 1] == Hex(v / 16, n - 1);
    }
  }

  /** The kernel's reading of a field: a sign is allowed, and what is not a number is 0. */
  function FieldValue(s: seq<byte>): (v: nat)
    requires |s| == 8
  {
    var digits := if s[0] == 43 then s[1..] else s;
    match Unhex(digits) case Some(v) => v case None => 0
  }

  lemma {:induction false} HexHasNoSign(v: nat, n: nat)
    ensures forall i :: 0 <= i < n ==> Hex(v, n)[i] != 43
    decreases n
  {
    if n != 0 {
      HexHasNoSign(v / 16, n - 1);
    }
  }

  lemma FieldValueHex(v: nat)
    requires v < WORD
    ensures FieldValue(Hex(v, 8)) == v
  {
    assert Power16(8) == WORD;
    UnhexHex(v, 8);
    HexHasNoSign(v, 8);
  }

  // ------------------------------------------------------------------ the header

  const MAGIC: seq<byte> := [48, 55, 48, 55, 48, 49]
  const TRAILER: seq<byte> := [84, 82, 65, 73, 76, 69, 82, 33, 33, 33]

  /** The file type comes from the mode and the permissions from `perm`. */
  function Normalised(mode: nat, perm: nat): (m: nat)
    ensures m < WORD
  {
    (if mode / 0x4000 % 2 == 1 then 0x4000 else if mode / 0x2000 % 2 == 1 then 0x2000 else 0x8000) + perm % 0x200
  }

  /** The type survives for directories, character devices and regular files, and for no others: a
      block device or a socket becomes a directory, a symbolic link a character device. */
  lemma TypeKeptExactly(mode: nat, perm: nat)
    ensures Normalised(mode, perm) / 0x1000 == mode / 0x1000 % 16 <==> mode / 0x1000 % 16 in {2, 4, 8}
    ensures Normalised(mode, perm) % 0x200 == perm % 0x200
  {
    var t := mode / 0x1000 % 16;
    TypeBits(mode);
    assert t < 16;
  }

  lemma TypeBits(mode: nat)
    ensures mode / 0x4000 % 2 == mode / 0x1000 % 16 / 4 % 2
    ensures mode / 0x2000 % 2 == mode / 0x1000 % 16 / 2 % 2
  {
    var q := mode / 0x1000;
    TypeQuotients(mode);
    FourthBit(q);
    SecondBit(q);
  }

  lemma TypeQuotients(mode: nat)
    ensures mode / 0x4000 == mode / 0x1000 / 4 && mode / 0x2000 == mode / 0x1000 / 2
  {
  }

  lemma FourthBit(q: nat)
    ensures q / 4 % 2 == q % 16 / 4 % 2
  {
    var a, r := q / 16, q % 16;
    var b, c := r / 4, r % 4;
    Quarter(q, 4 * a + b, c);
    SameParity(2 * a, b);
  }

  lemma SecondBit(q: nat)
    ensures q / 2 % 2 == q % 16 / 2 % 2
  {
    var a, r := q / 16, q % 16;
    var b, c := r / 2, r % 2;
    Half(q, 8 * a + b, c);
    SameParity(4 * a, b);
  }

  lemma Quarter(q: nat, k: nat, c: nat)
    requires c < 4 && q == 4 * k + c
    ensures q / 4 == k
  {
  }

  lemma Half(q: nat, k: nat, c: nat)
    requires c < 2 && q == 2 * k + c
    ensures q / 2 == k
  {
  }

  lemma SameParity(a: nat, b: nat)
    ensures (2 * a + b) % 2 == b % 2
  {
  }

  function Fields(e: Entry): (f: seq<nat>)
    ensures |f| == 13
  {
    [e.ino, Normalised(e.mode, e.perm), e.uid, e.gid, 1, 0, |e.data| % WORD, 0, 0,
     e.rdev / 256 % 256, e.rdev % 256, (|e.name| + 1) % WORD, 0]
  }

  function Flat(fields: seq<nat>): (s: seq<byte>)
    ensures |s| == 8 * |fields|
  {
    if fields == [] then [] else Flat(fields[..|fields| - 1]) + Hex(fields[|fields| - 1], 8)
  }

  lemma {:induction false} FlatAt(fields: seq<nat>, k: nat)
    requires k < |fields|
    ensures Flat(fields)[8 * k..8 * k + 8] == Hex(fields[k], 8)
    decreases |fields|
  {
    hide Hex;
    var n := |fields| - 1;
    if k < n {
      FlatAt(fields[..n], k);
      WithinFirst(Flat(fields[..n]), Hex(fields[n], 8), 8 * k, 8 * k + 8);
    } else {
      assert Flat(fields)[8 * n..] == Hex(fields[n], 8);
      assert Flat(fields)[8 * n..8 * n + 8] == Flat(fields)[8 * n..];
    }
  }

  lemma WithinFirst(a: seq<byte>, b: seq<byte>, lo: nat, hi: nat)
    requires lo <= hi <= |a|
    ensures (a + b)[lo..hi] == a[lo..hi]
  {
  }

  function Header(e: Entry): (h: seq<byte>)
    ensures |h| == 110 && h[..6] == MAGIC
  {
    MAGIC + Flat(Fields(e))
  }

  function Field(h: seq<byte>, k: nat): (v: nat)
    requires |h| == 110 && k < 13
  {
    FieldValue(h[6 + 8 * k..14 + 8 * k])
  }

  lemma FieldsFit(e: Entry, k: nat)
    requires e.Valid() && k < 13
    ensures Fields(e)[k] < WORD
  {
    hide Normalised;
  }

  lemma HeaderField(e: Entry, k: nat)
    requires e.Valid() && k < 13
    ensures Field(Header(e), k) == Fields(e)[k]
  {
    hide Flat, Hex, FieldValue, Fields;
    FieldsFit(e, k);
    FlatAt(Fields(e), k);
    assert Header(e)[6 + 8 * k..14 + 8 * k] == Flat(Fields(e))[8 * k..8 * k + 8];
    FieldValueHex(Fields(e)[k]);
  }

  // ------------------------------------------------------------------ the writer

  function Align(n: nat): (r: nat)
    ensures n <= r < n + 4 && r % 4 == 0
  {
    (n + 3) / 4 * 4
  }

  function Padded(s: seq<byte>): (r: seq<byte>)
    ensures |r| == Align(|s|) && r[..|s|] == s
  {
    s + Zeros(Align(|s|) - |s|)
  }

  function Encoded(e: Entry): (s: seq<byte>)
    ensures |s| % 4 == 0
  {
    Padded(Padded(Header(e) + e.name + [0]) + e.data)
  }

  lemma OneMoreZero(s: seq<byte>, n: nat)
    ensures s + Zeros(n) + [0] == s + Zeros(n + 1)
  {
  }

  class Archive {
    var bytes: seq<byte>

    constructor ()
      ensures bytes == []
    {
      bytes := [];
    }

    method Pad()
      modifies this
      ensures bytes == Padded(old(bytes))
    {
      hide Zeros;
      ghost var was := bytes;
      assert was == was + Zeros(0);
      while |bytes| % 4 != 0
        invariant |was| <= |bytes| <= Align(|was|)
        invariant bytes == was + Zeros(|bytes| - |was|)
        decreases Align(|was|) - |bytes|
      {
        OneMoreZero(was, |bytes| - |was|);
        bytes := bytes + [0];
      }
    }

    method WriteEntry(e: Entry)
      modifies this
      ensures bytes == Padded(Padded(old(bytes) + Header(e) + e.name + [0]) + e.data)
      ensures |old(bytes)| % 4 == 0 ==> bytes == old(bytes) + Encoded(e)
    {
      ghost var was := bytes;
      bytes := bytes + Header(e);
      bytes := bytes + e.name;
      bytes := bytes + [0];
      Pad();
      bytes := bytes + e.data;
      Pad();
      if |was| % 4 == 0 {
        Aligned(was, e);
      }
    }
  }

  lemma PaddedAfter(s: seq<byte>, t: seq<byte>)
    requires |s| % 4 == 0
    ensures Padded(s + t) == s + Padded(t)
  {
    assert Align(|s + t|) == |s| + Align(|t|);
  }

  /** On an aligned archive an entry is written as it would be on its own. */
  lemma Aligned(s: seq<byte>, e: Entry)
    requires |s| % 4 == 0
    ensures Padded(Padded(s + Header(e) + e.name + [0]) + e.data) == s + Encoded(e)
  {
    var t := Header(e) + e.name + [0];
    hide Padded, Header, Align;
    assert s + Header(e) + e.name + [0] == s + t;
    PaddedAfter(s, t);
    assert s + Padded(t) + e.data == s + (Padded(t) + e.data);
    PaddedAfter(s, Padded(t) + e.data);
  }

  function Concat(es: seq<Entry>): (s: seq<byte>) {
    if es == [] then [] else Encoded(es[0]) + Concat(es[1..])
  }

  lemma {:induction false} ConcatAligned(es: seq<Entry>)
    ensures |Concat(es)| % 4 == 0
    decreases |es|
  {
    hide Encoded;
    if es != [] {
      ConcatAligned(es[1..]);
    }
  }

  const END := Entry(0, TRAILER, 0, 0, 0, 0, 0, [])

  /** The archive of a list of entries. */
  function Packed(es: seq<Entry>): (s: seq<byte>) {
    Concat(es) + Encoded(END)
  }

  lemma {:induction false} ConcatMore(es: seq<Entry>, e: Entry)
    ensures Concat(es + [e]) == Concat(es) + Encoded(e)
    decreases |es|
  {
    hide Encoded;
    if es == [] {
      assert [e][1..] == [];
      assert es + [e] == [e];
    } else {
      ConcatMore(es[1..], e);
      assert (es + [e])[1..] == es[1..] + [e];
    }
  }

  lemma EmptyConcat()
    ensures Concat([]) == []
  {
  }

  method Pack(es: seq<Entry>) returns (s: seq<byte>)
    ensures s == Packed(es)
  {
    hide Encoded, Concat, Padded;
    var a := new Archive();
    EmptyConcat();
    var i := 0;
    while i < |es|
      invariant 0 <= i <= |es| && a.bytes == Concat(es[..i])
    {
      ConcatAligned(es[..i]);
      a.WriteEntry(es[i]);
      ConcatMore(es[..i], es[i]);
      assert es[..i + 1] == es[..i] + [es[i]];
      i := i + 1;
    }
    assert es[..i] == es;
    ConcatAligned(es);
    a.WriteEntry(END);
    s := a.bytes;
  }

  // ------------------------------------------------------------------ a full reader

  datatype Item = Item(ino: nat, mode: nat, uid: nat, gid: nat, nlink: nat, mtime: nat, rdevMajor: nat, rdevMinor: nat,
                       name: seq<byte>, data: seq<byte>)

  /** What a reader must find for an entry. */
  function Seen(e: Entry): (i: Item) {
    Item(e.ino, Normalised(e.mode, e.perm), e.uid, e.gid, 1, 0, e.rdev / 256 % 256, e.rdev % 256, e.name, e.data)
  }

  function NameEnd(s: seq<byte>, at: nat): (n: nat)
    requires at + 110 <= |s|
  {
    at + 110 + Field(s[at..at + 110], 11)
  }

  function DataStart(s: seq<byte>, at: nat): (n: nat)
    requires at + 110 <= |s|
  {
    Align(NameEnd(s, at))
  }

  function DataEnd(s: seq<byte>, at: nat): (n: nat)
    requires at + 110 <= |s|
  {
    DataStart(s, at) + Field(s[at..at + 110], 6)
  }

  /** The item whose header is at `at`, and where the next header is. */
  function ItemAt(s: seq<byte>, at: nat): (r: Option<(Item, nat)>)
    ensures r.Some? ==> at + 110 <= r.value.1 <= |s|
  {
    if at + 110 > |s| || s[at..at + 6] != MAGIC then None
    else
      var h := s[at..at + 110];
      var nameEnd, dataEnd := NameEnd(s, at), DataEnd(s, at);
      if nameEnd == at + 110 || Align(dataEnd) > |s| || s[nameEnd - 1] != 0 then None
      else
        Some((Item(Field(h, 0), Field(h, 1), Field(h, 2), Field(h, 3), Field(h, 4), Field(h, 5), Field(h, 9), Field(h, 10),
                   s[at + 110..nameEnd - 1], s[DataStart(s, at)..dataEnd]), Align(dataEnd)))
  }

  /** Every item up to the trailer. */
  function Unpack(s: seq<byte>, at: nat): (r: Option<seq<Item>>)
    decreases |s| - at
  {
    match ItemAt(s, at)
    case None => None
    case Some((item, next)) =>
      if item.name == TRAILER then Some([])
      else match Unpack(s, next) case None => None case Some(rest) => Some([item] + rest)
  }

  /** Where things are in an entry that was written at an aligned offset. */
  lemma EntryLayout(s: seq<byte>, at: nat, e: Entry)
    requires e.Valid() && at % 4 == 0 && at + |Encoded(e)| <= |s| && s[at..at + |Encoded(e)|] == Encoded(e)
    ensures at + 110 <= |s| && s[at..at + 110] == Header(e) && s[at..at + 6] == MAGIC
    ensures NameEnd(s, at) == at + 110 + |e.name| + 1 <= |s| && s[at + 110..NameEnd(s, at)] == e.name + [0]
    ensures Align(DataEnd(s, at)) == at + |Encoded(e)| && DataEnd(s, at) <= |s|
    ensures DataStart(s, at) % 4 == 0 && s[DataStart(s, at)..DataEnd(s, at)] == e.data
  {
    hide Header, Fields, Field, Encoded;
    EntrySlices(s, at, e);
    HeaderField(e, 11);
    HeaderField(e, 6);
    FieldNames(e);
    AlignShift(at, TextSize(e));
    AlignShift(at, Align(TextSize(e)) + |e.data|);
  }

  function TextSize(e: Entry): (n: nat) {
    110 + |e.name| + 1
  }

  lemma EntrySlices(s: seq<byte>, at: nat, e: Entry)
    requires at + |Encoded(e)| <= |s| && s[at..at + |Encoded(e)|] == Encoded(e)
    ensures var t := Align(TextSize(e));
            && |Encoded(e)| == Align(t + |e.data|)
            && s[at..at + 110] == Header(e) && s[at..at + 6] == MAGIC
            && s[at + 110..at + TextSize(e)] == e.name + [0]
            && s[at + t..at + t + |e.data|] == e.data
  {
    hide Header, Align;
    var text := Header(e) + e.name + [0];
    var body := Padded(text) + e.data;
    assert body[..|Padded(text)|] == Padded(text);
    Slices(s, at, Encoded(e), text, Padded(text), e.data);
    assert text[..110] == Header(e) && text[110..] == e.name + [0];
    assert s[at..at + 6] == s[at..at + 110][..6];
  }

  lemma FieldNames(e: Entry)
    requires e.Valid()
    ensures Fields(e)[11] == |e.name| + 1 && Fields(e)[6] == |e.data|
  {
  }

  lemma AlignShift(at: nat, n: nat)
    requires at % 4 == 0
    ensures Align(at + n) == at + Align(n)
  {
  }

  lemma Slices(s: seq<byte>, at: nat, whole: seq<byte>, text: seq<byte>, padded: seq<byte>, data: seq<byte>)
    requires at + |whole| <= |s| && s[at..at + |whole|] == whole
    requires 110 <= |text| <= |padded| && padded[..|text|] == text
    requires |padded| + |data| <= |whole| && whole[..|padded| + |data|] == padded + data
    ensures s[at..at + 110] == text[..110] && s[at + 110..at + |text|] == text[110..]
    ensures s[at + |padded|..at + |padded| + |data|] == data
  {
    assert whole[..|padded|] == (padded + data)[..|padded|] == padded;
    assert whole[..|text|] == padded[..|text|];
    SubSlice(s, at, whole, 0, 110);
    SubSlice(s, at, whole, 110, |text|);
    SubSlice(s, at, whole, |padded|, |padded| + |data|);
    assert text[..110] == whole[0..110] && text[110..] == whole[110..|text|];
    assert whole[|padded|..|padded| + |data|] == (padded + data)[|padded|..];
  }

  lemma SubSlice(s: seq<byte>, at: nat, whole: seq<byte>, lo: nat, hi: nat)
    requires at + |whole| <= |s| && s[at..at + |whole|] == whole && lo <= hi <= |whole|
    ensures s[at + lo..at + hi] == whole[lo..hi]
  {
    forall i | lo <= i < hi ensures s[at + i] == whole[i] {
      assert s[at..at + |whole|][i] == s[at + i];
    }
  }

  lemma ItemRead(s: seq<byte>, at: nat, e: Entry)
    requires e.Valid() && at % 4 == 0 && at + |Encoded(e)| <= |s| && s[at..at + |Encoded(e)|] == Encoded(e)
    ensures ItemAt(s, at) == Some((Seen(e), at + |Encoded(e)|))
  {
    hide Encoded, Header, Field, NameEnd, DataStart, DataEnd, Normalised, Align;
    EntryLayout(s, at, e);
    ItemFields(e);
    var end := NameEnd(s, at);
    SubSlice(s, at + 110, e.name + [0], 0, |e.name|);
    assert s[end - 1] == s[at + 110..end][|e.name|];
  }

  lemma ItemFields(e: Entry)
    requires e.Valid()
    ensures var h := Header(e);
            && Field(h, 0) == e.ino && Field(h, 1) == Normalised(e.mode, e.perm) && Field(h, 2) == e.uid
            && Field(h, 3) == e.gid && Field(h, 4) == 1 && Field(h, 5) == 0
            && Field(h, 9) == e.rdev / 256 % 256 && Field(h, 10) == e.rdev % 256
  {
    hide Header, Field, Normalised;
    HeaderField(e, 0);
    HeaderField(e, 1);
    HeaderField(e, 2);
    HeaderField(e, 3);
    HeaderField(e, 4);
    HeaderField(e, 5);
    HeaderField(e, 9);
    HeaderField(e, 10);
  }

  function AllSeen(es: seq<Entry>): (r: seq<Item>) {
    seq(|es|, i requires 0 <= i < |es| => Seen(es[i]))
  }

  ghost predicate AllValid(es: seq<Entry>) {
    forall i :: 0 <= i < |es| ==> es[i].Valid()
  }

  /** The entries before one that is named as the trailer. */
  function Visible(es: seq<Entry>): (v: seq<Entry>)
    ensures v <= es && (v == es <==> forall i :: 0 <= i < |es| ==> es[i].name != TRAILER)
  {
    if es == [] || es[0].name == TRAILER then [] else [es[0]] + Visible(es[1..])
  }

  lemma {:induction false} UnpackFrom(s: seq<byte>, at: nat, es: seq<Entry>)
    requires AllValid(es) && at % 4 == 0 && at <= |s| && s[at..] == Packed(es)
    ensures Unpack(s, at) == Some(AllSeen(Visible(es)))
    decreases |es|
  {
    hide ItemAt, Encoded;
    var first := if es == [] then END else es[0];
    PackedSplit(s, at, es);
    ItemRead(s, at, first);
    if es != [] && first.name != TRAILER {
      UnpackFrom(s, at + |Encoded(first)|, es[1..]);
      assert AllSeen(Visible(es)) == [Seen(es[0])] + AllSeen(Visible(es[1..]));
    } else {
      assert AllSeen(Visible(es)) == [];
    }
  }

  /** The first entry of what is left, and the rest. */
  lemma PackedSplit(s: seq<byte>, at: nat, es: seq<Entry>)
    requires at <= |s| && s[at..] == Packed(es)
    ensures var first := if es == [] then END else es[0];
            var next := at + |Encoded(first)|;
            next <= |s| && s[at..next] == Encoded(first) && (es != [] ==> s[next..] == Packed(es[1..]))
  {
    hide Encoded;
    if es != [] {
      var next := at + |Encoded(es[0])|;
      assert Packed(es) == Encoded(es[0]) + Packed(es[1..]);
      assert s[at..][|Encoded(es[0])|..] == s[next..];
      assert s[at..][..|Encoded(es[0])|] == s[at..next];
    } else {
      assert Packed(es) == Encoded(END);
    }
  }

  /** Reading what was written gives back the entries, in order, with inode, normalised mode, owner,
      device, name and data: all of them exactly when none has the trailer's name. */
  lemma RoundTrip(es: seq<Entry>)
    requires AllValid(es)
    ensures Unpack(Packed(es), 0) == Some(AllSeen(Visible(es)))
    ensures Unpack(Packed(es), 0) == Some(AllSeen(es)) <==> forall i :: 0 <= i < |es| ==> es[i].name != TRAILER
  {
    hide Unpack, Packed;
    assert Packed(es)[0..] == Packed(es);
    UnpackFrom(Packed(es), 0, es);
    assert |AllSeen(Visible(es))| == |Visible(es)|;
  }

  /** Where entry `k` starts. */
  function Offset(es: seq<Entry>, k: nat): (n: nat)
    requires k <= |es|
  {
    |Concat(es[..k])|
  }

  lemma {:induction false} EntryInPlace(es: seq<Entry>, k: nat)
    requires k < |es|
    ensures var at := Offset(es, k);
            at + |Encoded(es[k])| <= |Packed(es)| && Packed(es)[at..at + |Encoded(es[k])|] == Encoded(es[k])
    decreases k
  {
    hide Encoded;
    var s := Packed(es);
    assert s[0..] == s;
    PackedSplit(s, 0, es);
    if k == 0 {
      assert es[..0] == [];
    } else {
      var n := |Encoded(es[0])|;
      EntryInPlace(es[1..], k - 1);
      assert es[..k] == [es[0]] + es[1..][..k - 1];
      assert es[..k][1..] == es[1..][..k - 1];
      SubSlice(s, n, Packed(es[1..]), Offset(es[1..], k - 1), Offset(es[1..], k - 1) + |Encoded(es[k])|);
    }
  }

  /** Every header and every data block starts at a multiple of four. */
  lemma EverythingAligned(es: seq<Entry>, k: nat)
    requires AllValid(es) && k < |es|
    ensures var at := Offset(es, k);
            && at % 4 == 0 && at + 110 <= |Packed(es)| && Packed(es)[at..at + 110] == Header(es[k])
            && DataStart(Packed(es), at) % 4 == 0
            && DataEnd(Packed(es), at) <= |Packed(es)|
            && Packed(es)[DataStart(Packed(es), at)..DataEnd(Packed(es), at)] == es[k].data
  {
    hide Encoded, Header, Packed, DataStart, DataEnd;
    ConcatAligned(es[..k]);
    EntryInPlace(es, k);
    EntryLayout(Packed(es), Offset(es, k), es[k]);
  }

  // ------------------------------------------------------------------ the kernel's lookup

  lemma {:induction false} CutName(s: seq<byte>)
    ensures UpToZero(s + [0]) == UpToZero(s)
    ensures 0 !in s ==> UpToZero(s) == s
    decreases |s|
  {
    if s != [] {
      CutName(s[1..]);
      assert (s + [0])[1..] == s[1..] + [0];
    }
  }

  /** What looking `path` up from the header at `at` gives: the data and the mode. */
  function Lookup(s: seq<byte>, at: nat, path: seq<byte>): (r: Option<(seq<byte>, nat)>)
    decreases |s| - at
  {
    if at + 110 > |s| || s[at..at + 6] != MAGIC || NameEnd(s, at) > |s| then None
    else
      var name := UpToZero(s[at + 110..NameEnd(s, at)]);
      if !IsUtf8(name) || name == TRAILER then None
      else if name == path then
        if DataEnd(s, at) > |s| then None
        else Some((s[DataStart(s, at)..DataEnd(s, at)], Field(s[at..at + 110], 1)))
      else Lookup(s, Align(DataEnd(s, at)), path)
  }

  /** `parse_initramfs`. */
  method FindFile(s: seq<byte>, path: seq<byte>) returns (r: Option<(seq<byte>, nat)>)
    ensures r == Lookup(s, 0, path)
  {
    hide UpToZero, Field, IsUtf8;
    var offset := 0;
    while offset + 110 <= |s|
      invariant Lookup(s, offset, path) == Lookup(s, 0, path)
      decreases |s| - offset
    {
      var h := s[offset..offset + 110];
      if s[offset..offset + 6] != MAGIC {
        return None;
      }
      var nameSize, fileSize := Field(h, 11), Field(h, 6);
      var nameStart := offset + 110;
      var nameEnd := nameStart + nameSize;
      if nameEnd > |s| {
        return None;
      }
      var name := UpToZero(s[nameStart..nameEnd]);
      if !IsUtf8(name) {
        return None;
      }
      if name == TRAILER {
        return None;
      }
      if name == path {
        var dataStart := Align(nameEnd);
        var dataEnd := dataStart + fileSize;
        if dataEnd > |s| {
          return None;
        }
        return Some((s[dataStart..dataEnd], Field(h, 1)));
      }
      offset := Align(Align(nameEnd) + fileSize);
    }
    r := None;
  }

  /** The first entry of that name before one named as the trailer or not in UTF-8. */
  function FirstNamed(es: seq<Entry>, path: seq<byte>): (r: Option<Entry>)
    ensures r.Some? ==> r.value in es && UpToZero(r.value.name) == path
  {
    if es == [] || !IsUtf8(UpToZero(es[0].name)) || UpToZero(es[0].name) == TRAILER then None
    else if UpToZero(es[0].name) == path then Some(es[0])
    else FirstNamed(es[1..], path)
  }

  lemma {:induction false} LookupFrom(s: seq<byte>, at: nat, es: seq<Entry>, path: seq<byte>)
    requires AllValid(es) && at % 4 == 0 && at <= |s| && s[at..] == Packed(es)
    ensures Lookup(s, at, path)
         == match FirstNamed(es, path) case None => None case Some(e) => Some((e.data, Normalised(e.mode, e.perm)))
    decreases |es|
  {
    hide Encoded, Header, NameEnd, DataStart, DataEnd, Normalised, UpToZero, Field, Align, Packed, IsUtf8;
    var first := if es == [] then END else es[0];
    PackedSplit(s, at, es);
    EntryLayout(s, at, first);
    CutName(first.name);
    ItemFields(first);
    if es == [] {
      assert 0 !in TRAILER;
    } else if IsUtf8(UpToZero(first.name)) && UpToZero(first.name) != TRAILER && UpToZero(first.name) != path {
      LookupFrom(s, at + |Encoded(first)|, es[1..], path);
    }
  }

  /** In every archive the writer makes, the kernel finds a path exactly when an entry has that name,
      and then gets the bytes and the mode of the first. */
  lemma LookupFindsFirst(es: seq<Entry>, path: seq<byte>)
    requires AllValid(es)
    ensures Lookup(Packed(es), 0, path)
         == match FirstNamed(es, path) case None => None case Some(e) => Some((e.data, Normalised(e.mode, e.perm)))
  {
    assert Packed(es)[0..] == Packed(es);
    LookupFrom(Packed(es), 0, es, path);
  }

  /** With names in UTF-8, as the writer's are, and none that reads as the trailer's, every entry is
      found under its name cut at the first zero byte, the first of each; a name without a zero byte
      is not cut. */
  lemma {:induction false} EveryNameFound(es: seq<Entry>, k: nat)
    requires k < |es|
    requires forall i :: 0 <= i < |es| ==> WellFormed(es[i].name) && UpToZero(es[i].name) != TRAILER
    ensures FirstNamed(es, UpToZero(es[k].name)).Some?
    ensures (forall j :: 0 <= j < k ==> UpToZero(es[j].name) != UpToZero(es[k].name)) ==>
            FirstNamed(es, UpToZero(es[k].name)).value == es[k]
    ensures 0 !in es[k].name ==> UpToZero(es[k].name) == es[k].name
    decreases k
  {
    hide UpToZero, IsUtf8;
    var cs :| es[0].name == Encode(cs);
    CutAtZero(cs);
    CutName(es[k].name);
    if k > 0 {
      EveryNameFound(es[1..], k - 1);
    }
  }
}
