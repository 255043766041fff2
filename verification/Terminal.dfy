/** The console's renderer: a line, a cursor that overwrites, and a bounded history. */
module Terminal {
  import opened Bytes

  const LF: byte := 10
  const CR: byte := 13
  const BS: byte := 8
  const BELL: byte := 7
  const ESCAPE: byte := 27
  const SPACE: byte := 32

  datatype Screen = Screen(lines: seq<seq<byte>>, line: seq<byte>, col: nat)

  const BLANK := Screen([], [], 0)

  /** White space among the characters a byte can be. */
  predicate White(b: byte) {
    9 <= b <= 13 || b == SPACE || b == 0xa0
  }

  predicate AllWhite(s: seq<byte>) {
    forall i :: 0 <= i < |s| ==> White(s[i])
  }

  /** Without its trailing white space. */
  function Trimmed(s: seq<byte>): (t: seq<byte>)
    ensures t <= s && AllWhite(s[|t|..]) && (t != [] ==> !White(t[|t| - 1]))
  {
    if s != [] && White(s[|s| - 1]) then
      var t := Trimmed(s[..|s| - 1]);
      assert s[|t|..] == s[..|s| - 1][|t|..] + [s[|s| - 1]];
      t
    else s
  }

  function LastLines(lines: seq<seq<byte>>, max: nat): (r: seq<seq<byte>>) {
    if |lines| > max then lines[|lines| - max..] else lines
  }

  predicate Plain(b: byte) {
    b != LF && b != CR && b != BS && b != BELL && b != ESCAPE
  }

  /** What one byte does, with no limit on the history. */
  function Step(s: Screen, b: byte): (t: Screen) {
    if b == LF then Screen(s.lines + [Trimmed(s.line)], [], 0)
    else if b == CR then s.(col := 0)
    else if b == BS then s.(col := if s.col > 0 then s.col - 1 else 0)
    else if b == BELL || b == ESCAPE then s
    else s.(line := if s.col < |s.line| then s.line[s.col := b] else s.line + [b], col := s.col + 1)
  }

  function Shown(s: Screen, bytes: seq<byte>): (t: Screen) {
    if bytes == [] then s else Step(Shown(s, bytes[..|bytes| - 1]), bytes[|bytes| - 1])
  }

  /** The same, keeping `max` lines. */
  function BoundedStep(s: Screen, b: byte, max: nat): (t: Screen) {
    var t := Step(s, b);
    if b == LF then t.(lines := LastLines(t.lines, max)) else t
  }

  function Bounded(bytes: seq<byte>, max: nat): (t: Screen) {
    if bytes == [] then BLANK else BoundedStep(Bounded(bytes[..|bytes| - 1], max), bytes[|bytes| - 1], max)
  }

  // ------------------------------------------------------------------ the history

  lemma LastOfLast(lines: seq<seq<byte>>, l: seq<byte>, max: nat)
    ensures LastLines(LastLines(lines, max) + [l], max) == LastLines(lines + [l], max)
  {
  }

  /** The bounded screen is the unbounded one with its last `max` lines; the cursor is not past the
      end of the line; and no finished line ends in white space. */
  ghost predicate Refines(b: Screen, u: Screen, max: nat) {
    && b.lines == LastLines(u.lines, max) && b.line == u.line && b.col == u.col
    && |b.lines| <= max && b.col <= |b.line|
    && forall i :: 0 <= i < |u.lines| ==> u.lines[i] == [] || !White(u.lines[i][|u.lines[i]| - 1])
  }

  lemma StepRefines(b: Screen, u: Screen, x: byte, max: nat)
    requires Refines(b, u, max)
    ensures Refines(BoundedStep(b, x, max), Step(u, x), max)
  {
    hide Trimmed, White;
    if x == LF {
      hide LastLines;
      LastOfLast(u.lines, Trimmed(u.line), max);
      LastIsShort(u.lines + [Trimmed(u.line)], max);
    }
  }

  lemma LastIsShort(lines: seq<seq<byte>>, max: nat)
    ensures |LastLines(lines, max)| <= max
  {
  }

  /** After any bytes. */
  lemma {:induction false} BoundedRefines(bytes: seq<byte>, max: nat)
    ensures Refines(Bounded(bytes, max), Shown(BLANK, bytes), max)
    decreases |bytes|
  {
    hide Step, BoundedStep;
    if bytes != [] {
      var n := |bytes| - 1;
      BoundedRefines(bytes[..n], max);
      StepRefines(Bounded(bytes[..n], max), Shown(BLANK, bytes[..n]), bytes[n], max);
    }
  }

  // ------------------------------------------------------------------ redrawing a line

  /** A line with `s` written over it from column `c`. */
  function Over(line: seq<byte>, c: nat, s: seq<byte>): (r: seq<byte>)
    requires c <= |line|
  {
    line[..c] + s + line[Min(c + |s|, |line|)..]
  }

  lemma {:induction false} PlainOverwrites(s: Screen, bytes: seq<byte>)
    requires s.col <= |s.line| && forall i :: 0 <= i < |bytes| ==> Plain(bytes[i])
    ensures Shown(s, bytes) == Screen(s.lines, Over(s.line, s.col, bytes), s.col + |bytes|)
    decreases |bytes|
  {
    if bytes == [] {
      assert Over(s.line, s.col, []) == s.line;
    } else {
      var n := |bytes| - 1;
      PlainOverwrites(s, bytes[..n]);
      OverOne(s.line, s.col, bytes[..n], bytes[n]);
      assert bytes[..n] + [bytes[n]] == bytes;
    }
  }

  lemma OverOne(line: seq<byte>, c: nat, s: seq<byte>, b: byte)
    requires c <= |line|
    ensures var o := Over(line, c, s);
            var at := c + |s|;
            at <= |o| && (if at < |o| then o[at := b] else o + [b]) == Over(line, c, s + [b])
  {
  }

  lemma {:induction false} ShownBoth(s: Screen, a: seq<byte>, b: seq<byte>)
    ensures Shown(s, a + b) == Shown(Shown(s, a), b)
    decreases |b|
  {
    hide Step;
    if b == [] {
      assert a + b == a;
    } else {
      var n := |b| - 1;
      ShownBoth(s, a, b[..n]);
      assert (a + b)[..|a + b| - 1] == a + b[..n];
    }
  }

  lemma ShownOne(s: Screen, b: byte)
    ensures Shown(s, [b]) == Step(s, b)
  {
    assert [b][..0] == [];
  }

  function Spaces(n: nat): (s: seq<byte>)
    ensures |s| == n && forall i :: 0 <= i < n ==> s[i] == SPACE
  {
    seq(n, i => SPACE)
  }

  /** How the shell's editor draws: blank 79 columns, then the text. */
  function Redraw(text: seq<byte>): (b: seq<byte>) {
    [CR] + Spaces(79) + [CR] + text + [LF]
  }

  /** What is left of the old line to the right of both the blanks and the text. */
  function Leftover(line: seq<byte>, text: seq<byte>): (s: seq<byte>) {
    if |text| <= 79 then (if |line| <= 79 then [] else line[79..])
    else if |line| <= |text| then [] else line[|text|..]
  }

  function Blanks(text: seq<byte>): (s: seq<byte>) {
    Spaces(if |text| <= 79 then 79 - |text| else 0)
  }

  lemma RedrawnLine(line: seq<byte>, text: seq<byte>)
    ensures Over(Over(line, 0, Spaces(79)), 0, text) == text + Blanks(text) + Leftover(line, text)
  {
    var o := Over(line, 0, Spaces(79));
    assert o == Spaces(79) + line[Min(79, |line|)..];
  }

  /** The line a redraw commits. */
  lemma RedrawCommits(s: Screen, text: seq<byte>)
    requires s.col <= |s.line| && forall i :: 0 <= i < |text| ==> Plain(text[i])
    ensures Shown(s, Redraw(text))
         == Screen(s.lines + [Trimmed(text + Blanks(text) + Leftover(s.line, text))], [], 0)
  {
    hide Over, Trimmed, Leftover, Blanks, Spaces;
    var a := [CR] + Spaces(79);
    var b := a + [CR];
    var c := b + text;
    ShownBoth(s, [CR], Spaces(79));
    ShownBoth(s, a, [CR]);
    ShownBoth(s, b, text);
    ShownBoth(s, c, [LF]);
    ShownOne(s, CR);
    PlainOverwrites(s.(col := 0), Spaces(79));
    ShownOne(Shown(s, a), CR);
    PlainOverwrites(Shown(s, b), text);
    ShownOne(Shown(s, c), LF);
    RedrawnLine(s.line, text);
  }

  lemma TrimLast(s: seq<byte>, b: byte)
    requires White(b)
    ensures Trimmed(s + [b]) == Trimmed(s)
  {
    assert (s + [b])[..|s + [b]| - 1] == s;
  }

  lemma {:induction false} TrimWhite(s: seq<byte>, w: seq<byte>)
    requires AllWhite(w)
    ensures Trimmed(s + w) == Trimmed(s)
    decreases |w|
  {
    hide Trimmed, White;
    if w == [] {
      assert s + w == s;
    } else {
      var n := |w| - 1;
      TrimWhite(s, w[..n]);
      TrimLast(s + w[..n], w[n]);
      assert s + w == s + w[..n] + [w[n]];
    }
  }

  lemma TrimKeepsInk(s: seq<byte>, w: seq<byte>)
    requires !AllWhite(w)
    ensures Trimmed(s + w) != Trimmed(s)
  {
    var t := Trimmed(s + w);
    var k :| 0 <= k < |w| && !White(w[k]);
    assert (s + w)[|s| + k] == w[k];
    var rest := (s + w)[|t|..];
    assert forall j :: 0 <= j < |rest| ==> rest[j] == (s + w)[|t| + j] && White(rest[j]);
    assert |t| > |s| + k;
  }

  /** Redrawing over any line commits exactly the trimmed text if and only if what sticks out to the
      right of the 79 blanked columns, and of the text, is white; on a line of at most 79 columns
      nothing does. */
  lemma RedrawExact(s: Screen, text: seq<byte>)
    requires s.col <= |s.line| && forall i :: 0 <= i < |text| ==> Plain(text[i])
    ensures Shown(s, Redraw(text)) == Screen(s.lines + [Trimmed(text)], [], 0) <==> AllWhite(Leftover(s.line, text))
    ensures |s.line| <= 79 ==> Leftover(s.line, text) == []
  {
    hide Shown, Redraw, Trimmed, Blanks, AllWhite;
    RedrawCommits(s, text);
    TrimExactly(text, Leftover(s.line, text));
    SameCommit(s.lines, Trimmed(text + Blanks(text) + Leftover(s.line, text)), Trimmed(text));
  }

  lemma TrimExactly(text: seq<byte>, rest: seq<byte>)
    ensures Trimmed(text + Blanks(text) + rest) == Trimmed(text) <==> AllWhite(rest)
  {
    hide Trimmed;
    var blanks := Blanks(text);
    TrimWhite(text, blanks);
    if AllWhite(rest) {
      TrimWhite(text + blanks, rest);
    } else {
      TrimKeepsInk(text + blanks, rest);
    }
  }

  lemma SameCommit(lines: seq<seq<byte>>, a: seq<byte>, b: seq<byte>)
    ensures Screen(lines + [a], [], 0) == Screen(lines + [b], [], 0) <==> a == b
  {
    assert (lines + [a])[|lines|] == a && (lines + [b])[|lines|] == b;
  }

  // ------------------------------------------------------------------ the object

  lemma BoundedMore(bytes: seq<byte>, b: byte, max: nat)
    ensures Bounded(bytes + [b], max) == BoundedStep(Bounded(bytes, max), b, max)
  {
    assert (bytes + [b])[..|bytes|] == bytes;
  }

  class Console {
    const maxLines: nat
    var lines: seq<seq<byte>>
    var line: seq<byte>
    var col: nat
    ghost var written: seq<byte>

    ghost predicate Valid()
      reads this
    {
      Screen(lines, line, col) == Bounded(written, maxLines) && col <= |line|
    }

    constructor (max: nat)
      ensures Valid() && maxLines == max && written == []
    {
      maxLines := max;
      lines, line, col, written := [], [], 0, [];
    }

    method Flush()
      modifies this`lines, this`line, this`col
      ensures lines == LastLines(old(lines) + [Trimmed(old(line))], maxLines) && line == [] && col == 0
    {
      lines := lines + [Trimmed(line)];
      if |lines| > maxLines {
        lines := lines[|lines| - maxLines..];
      }
      line, col := [], 0;
    }

    method Write(b: byte)
      requires Valid()
      modifies this
      ensures Valid() && written == old(written) + [b]
    {
      hide Trimmed, Bounded, LastLines;
      BoundedMore(written, b, maxLines);
      written := written + [b];
      if b == LF {
        Flush();
      } else if b == CR {
        col := 0;
      } else if b == BS {
        if col > 0 {
          col := col - 1;
        }
      } else if b != BELL && b != ESCAPE {
        if col < |line| {
          line := line[col := b];
        } else {
          line := line + [b];
        }
        col := col + 1;
      }
    }
  }
}
