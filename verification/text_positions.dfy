/** Text as code points, with the two measures the editor protocol and the file system put
    on it: UTF-16 code units for columns, UTF-8 bytes for offsets. */
module TextPositions {
  function UnitWidth(c: char): (n: nat)
    ensures n == 1 || n == 2
  {
    if c as int < 0x10000 then 1 else 2
  }

  newtype byte = b: int | 0 <= b < 256

  function EncodeChar(c: char): (bytes: seq<byte>)
    ensures |bytes| == ByteWidth(c)
  {
    var n := c as int;
    if n < 0x80 then [n as byte]
    else if n < 0x800 then [(0xC0 + n / 64) as byte, (0x80 + n % 64) as byte]
    else if n < 0x10000 then [(0xE0 + n / 4096) as byte, (0x80 + n / 64 % 64) as byte, (0x80 + n % 64) as byte]
    else [(0xF0 + n / 262144) as byte, (0x80 + n / 4096 % 64) as byte, (0x80 + n / 64 % 64) as byte,
        (0x80 + n % 64) as byte]
  }

  function ByteWidth(c: char): (n: nat)
    ensures 1 <= n <= 4
  {
    if c as int < 0x80 then 1 else if c as int < 0x800 then 2 else if c as int < 0x10000 then 3 else 4
  }

  function Units(s: string): nat {
    if s == "" then 0 else Units(s[..|s| - 1]) + UnitWidth(s[|s| - 1])
  }

  function ByteLen(s: string): nat {
    if s == "" then 0 else ByteLen(s[..|s| - 1]) + ByteWidth(s[|s| - 1])
  }

  function Encode(s: string): (bytes: seq<byte>)
    ensures |bytes| == ByteLen(s)
  {
    if s == "" then [] else Encode(s[..|s| - 1]) + EncodeChar(s[|s| - 1])
  }

  lemma UnitsSnoc(s: string, c: char)
    ensures Units(s + [c]) == Units(s) + UnitWidth(c)
  {
    assert (s + [c])[..|s|] == s;
  }

  lemma PrefixSnoc(s: string, k: nat)
    requires k < |s|
    ensures s[..k + 1] == s[..k] + [s[k]]
    ensures Units(s[..k + 1]) == Units(s[..k]) + UnitWidth(s[k])
    ensures ByteLen(s[..k + 1]) == ByteLen(s[..k]) + ByteWidth(s[k])
  {
    assert s[..k + 1][..k] == s[..k];
  }

  lemma {:induction false} UnitsGrow(s: string, i: nat, j: nat)
    requires i < j <= |s|
    ensures Units(s[..i]) < Units(s[..j])
    ensures ByteLen(s[..i]) < ByteLen(s[..j])
    decreases j
  {
    PrefixSnoc(s, j - 1);
    if i < j - 1 {
      UnitsGrow(s, i, j - 1);
    }
  }

  lemma {:induction false} EncodeConcat(a: string, b: string)
    ensures Encode(a + b) == Encode(a) + Encode(b)
  {
    if b == "" {
      assert a + b == a;
    } else {
      var init := b[..|b| - 1];
      assert (a + b)[..|a + b| - 1] == a + init;
      EncodeConcat(a, init);
      hide EncodeChar;
      assert Encode(a) + (Encode(init) + EncodeChar(b[|b| - 1])) == Encode(a) + Encode(init) + EncodeChar(b[|b| - 1]);
    }
  }

  // --- lines ---

  /** The text split at every line feed. */
  function Lines(t: string): (lines: seq<string>)
    ensures lines != []
  {
    if t == "" then [""]
    else
      var rest := Lines(t[1..]);
      if t[0] == '\n' then [""] + rest else [[t[0]] + rest[0]] + rest[1..]
  }

  function Last<T>(s: seq<T>): T
    requires s != []
  {
    s[|s| - 1]
  }

  /** The lines of a text cut somewhere inside a line, put together again. */
  function Glue(a: seq<string>, b: seq<string>): (lines: seq<string>)
    requires a != [] && b != []
    ensures |lines| == |a| + |b| - 1
  {
    a[..|a| - 1] + [Last(a) + b[0]] + b[1..]
  }

  lemma GlueAfterBreak(rest: seq<string>, b: seq<string>)
    requires rest != [] && b != []
    ensures Glue([""] + rest, b) == [""] + Glue(rest, b)
  {
    assert ([""] + rest)[..|rest|] == [""] + rest[..|rest| - 1];
  }

  lemma GlueAfterChar(c: char, rest: seq<string>, b: seq<string>)
    requires rest != [] && b != []
    ensures Glue([[c] + rest[0]] + rest[1..], b) == [[c] + Glue(rest, b)[0]] + Glue(rest, b)[1..]
  {
    var whole, glued := [[c] + rest[0]] + rest[1..], Glue(rest, b);
    if |rest| == 1 {
      assert [c] + (rest[0] + b[0]) == [c] + rest[0] + b[0];
      assert whole[..0] == [] && rest[..0] == [];
    } else {
      assert whole[..|whole| - 1] == [[c] + rest[0]] + rest[1..|rest| - 1];
      assert glued[1..] == rest[1..|rest| - 1] + [Last(rest) + b[0]] + b[1..];
    }
  }

  lemma {:induction false} LinesConcat(a: string, b: string)
    ensures Lines(a + b) == Glue(Lines(a), Lines(b))
  {
    if a == "" {
      assert a + b == b;
      assert "" + Lines(b)[0] == Lines(b)[0];
    } else {
      assert (a + b)[1..] == a[1..] + b;
      LinesConcat(a[1..], b);
      LinesCons(a);
      LinesCons(a + b);
      hide Lines, Glue;
      GlueAfterBreak(Lines(a[1..]), Lines(b));
      GlueAfterChar(a[0], Lines(a[1..]), Lines(b));
    }
  }

  lemma LinesCons(t: string)
    requires t != ""
    ensures Lines(t) == if t[0] == '\n' then [""] + Lines(t[1..])
                        else [[t[0]] + Lines(t[1..])[0]] + Lines(t[1..])[1..]
  {
  }

  lemma LinesOfChar(c: char)
    ensures Lines([c]) == if c == '\n' then ["", ""] else [[c]]
  {
    EmptyLines();
    LinesCons([c]);
    hide Lines;
    assert [c][1..] == "" && [c] + "" == [c];
  }

  lemma LinesSnoc(t: string, c: char)
    ensures c == '\n' ==> Lines(t + [c]) == Lines(t) + [""]
    ensures c != '\n' ==> Lines(t + [c]) == Lines(t)[..|Lines(t)| - 1] + [Last(Lines(t)) + [c]]
  {
    hide Lines;
    LinesConcat(t, [c]);
    LinesOfChar(c);
    assert Last(Lines(t)) + "" == Last(Lines(t));
  }

  lemma LinesOfLine(t: string)
    requires '\n' !in t
    ensures Lines(t) == [t]
  {
    if t != "" {
      LinesOfLine(t[1..]);
      assert t == [t[0]] + t[1..];
    }
  }

  /** Where line l starts. */
  function LineStart(lines: seq<string>, l: nat): nat
    requires l <= |lines|
  {
    if l == 0 then 0 else LineStart(lines, l - 1) + |lines[l - 1]| + 1
  }

  lemma {:induction false} LineStartOfPrefix(a: seq<string>, b: seq<string>, l: nat)
    requires l <= |a| && l <= |b| && forall k :: 0 <= k < l ==> a[k] == b[k]
    ensures LineStart(a, l) == LineStart(b, l)
  {
    if l > 0 {
      LineStartOfPrefix(a, b, l - 1);
    }
  }

  lemma {:induction false} LineStartMonotone(lines: seq<string>, l: nat, m: nat)
    requires l < m <= |lines|
    ensures LineStart(lines, l) + |lines[l]| < LineStart(lines, m)
  {
    if l < m - 1 {
      LineStartMonotone(lines, l, m - 1);
    }
  }

  /** An index of the text, as the line it is on and the part of that line before it. */
  lemma {:induction false} IndexOnLine(t: string, i: nat)
    requires i <= |t|
    ensures var before, lines := Lines(t[..i]), Lines(t);
            && |before| <= |lines|
            && lines[..|before| - 1] == before[..|before| - 1]
            && lines[|before| - 1] == Last(before) + Lines(t[i..])[0]
            && i == LineStart(lines, |before| - 1) + |Last(before)|
    ensures Lines(t) == Glue(Lines(t[..i]), Lines(t[i..]))
  {
    hide Lines;
    var before, lines := Lines(t[..i]), Lines(t);
    assert t[..i] + t[i..] == t;
    LinesConcat(t[..i], t[i..]);
    assert lines[..|before| - 1] == before[..|before| - 1];
    LengthOfLines(t[..i]);
    LineStartOfPrefix(before, lines, |before| - 1);
  }

  lemma {:induction false} LengthOfLines(t: string)
    ensures var lines := Lines(t); |t| == LineStart(lines, |lines| - 1) + |Last(lines)|
    decreases |t|
  {
    hide Lines;
    if t == "" {
      EmptyLines();
    } else {
      var init := t[..|t| - 1];
      LengthOfLines(init);
      assert t == init + [Last(t)];
      LinesSnoc(init, Last(t));
      LineStartOfPrefix(Lines(init), Lines(t), |Lines(init)| - 1);
    }
  }

  lemma EmptyLines()
    ensures Lines("") == [""]
  {
  }

  // --- the point a position names ---

  function TrimCR(s: string): string {
    if s != "" && Last(s) == '\r' then s[..|s| - 1] else s
  }

  /** A line without its terminator, which may be CR LF. */
  function Content(lines: seq<string>, l: nat): string
    requires l < |lines|
  {
    if l + 1 < |lines| then TrimCR(lines[l]) else lines[l]
  }

  /** The first index of the line that is at least col units in, else its length. */
  function ColumnPoint(s: string, col: nat): (k: nat)
    ensures k <= |s|
    ensures forall j :: 0 <= j < k ==> Units(s[..j]) < col
    ensures k < |s| ==> Units(s[..k]) >= col
  {
    ColumnFrom(s, col, 0)
  }

  function ColumnFrom(s: string, col: nat, i: nat): (k: nat)
    requires i <= |s| && forall j :: 0 <= j < i ==> Units(s[..j]) < col
    ensures k <= |s|
    ensures forall j :: 0 <= j < k ==> Units(s[..j]) < col
    ensures k < |s| ==> Units(s[..k]) >= col
    decreases |s| - i
  {
    if i == |s| || Units(s[..i]) >= col then i else ColumnFrom(s, col, i + 1)
  }

  lemma ColumnPointIs(s: string, col: nat, k: nat)
    requires k <= |s|
    requires forall j :: 0 <= j < k ==> Units(s[..j]) < col
    requires k < |s| ==> Units(s[..k]) >= col
    ensures ColumnPoint(s, col) == k
  {
    var p := ColumnPoint(s, col);
    assert p == |s| || Units(s[..p]) >= col;
    assert Units(s[..k]) >= col || k == |s|;
  }

  datatype Position = Position(line: nat, character: nat)

  /** The index a position stands for: a place in the named line's content, or the end of
      the text when there is no such line. */
  function PointAt(t: string, pos: Position): nat {
    var lines := Lines(t);
    if pos.line < |lines| then LineStart(lines, pos.line) + ColumnPoint(Content(lines, pos.line), pos.character)
    else |t|
  }

  lemma PointInText(t: string, pos: Position)
    ensures PointAt(t, pos) <= |t|
  {
    hide Lines, LineStart;
    var lines := Lines(t);
    LengthOfLines(t);
    if pos.line < |lines| - 1 {
      LineStartMonotone(lines, pos.line, |lines| - 1);
    }
  }

  /** What is left of a line at one of its indices. */
  lemma RestOfLine(t: string, i: nat)
    requires i < |t|
    ensures var rest := Lines(t[i..]);
            && (t[i] == '\n' <==> rest[0] == "")
            && (t[i] == '\n' ==> rest == [""] + Lines(t[i + 1..]))
            && (t[i] != '\n' ==> rest == [[t[i]] + Lines(t[i + 1..])[0]] + Lines(t[i + 1..])[1..])
  {
    assert t[i..][1..] == t[i + 1..];
    LinesCons(t[i..]);
  }

  lemma LineEnds(t: string)
    ensures Lines(t)[0] == "" && |Lines(t)| > 1 ==> t != "" && t[0] == '\n'
  {
  }

  // --- scanning for a position ---

  /** Having read i characters, the scan stands on line `line`, col units in, and has not
      yet reached the position. */
  ghost predicate Seeking(t: string, i: nat, line: nat, col: nat, pos: Position) {
    && i <= |t|
    && var before := Lines(t[..i]);
       && line == |before| - 1 && col == Units(Last(before))
       && line <= pos.line
       && (line == pos.line && line < |Lines(t)| ==>
             && |Last(before)| <= |Content(Lines(t), line)|
             && forall k :: 0 <= k < |Last(before)| ==> Units(Last(before)[..k]) < pos.character)
  }

  lemma SeekStart(t: string, pos: Position)
    ensures Seeking(t, 0, 0, 0, pos) && ByteLen(t[..0]) == 0
  {
    EmptyLines();
  }

  lemma StopsAtColumn(t: string, i: nat, line: nat, col: nat, pos: Position)
    requires Seeking(t, i, line, col, pos) && line == pos.line
    requires col >= pos.character
    ensures PointAt(t, pos) == i
  {
    hide Lines, LineStart, Units, Glue;
    IndexOnLine(t, i);
    var before, content := Last(Lines(t[..i])), Content(Lines(t), line);
    assert content[..|before|] == before;
    PrefixesAgree(content, before);
    ColumnPointIs(content, pos.character, |before|);
  }

  lemma PrefixesAgree(s: string, part: string)
    requires |part| <= |s| && s[..|part|] == part
    ensures forall k :: 0 <= k <= |part| ==> s[..k] == part[..k]
  {
  }

  lemma StopsAtEnd(t: string, i: nat, line: nat, col: nat, pos: Position)
    requires Seeking(t, i, line, col, pos) && line == pos.line
    requires i < |t| && (t[i] == '\n' || (t[i] == '\r' && i + 1 < |t| && t[i + 1] == '\n'))
    ensures PointAt(t, pos) == i
  {
    hide Lines, LineStart, Units, Glue;
    IndexOnLine(t, i);
    RestOfLine(t, i);
    if t[i] == '\r' {
      RestOfLine(t, i + 1);
    }
    var before, content := Last(Lines(t[..i])), Content(Lines(t), line);
    assert content == before;
    PrefixesAgree(content, before);
    ColumnPointIs(content, pos.character, |before|);
  }

  lemma Advance(t: string, i: nat, line: nat, col: nat, pos: Position)
    requires Seeking(t, i, line, col, pos) && i < |t|
    requires line == pos.line ==>
               col < pos.character && t[i] != '\n' && !(t[i] == '\r' && i + 1 < |t| && t[i + 1] == '\n')
    ensures Seeking(t, i + 1, if t[i] == '\n' then line + 1 else line, if t[i] ==
            '\n' then 0 else col + UnitWidth(t[i]), pos)
  {
    hide Lines, LineStart, Units, Glue;
    var before := Last(Lines(t[..i]));
    assert t[..i + 1] == t[..i] + [t[i]];
    LinesSnoc(t[..i], t[i]);
    UnitsSnoc(before, t[i]);
    IndexOnLine(t, i);
    RestOfLine(t, i);
    UnitsOfEmpty();
    if t[i] != '\n' && line == pos.line {
      LineEnds(t[i + 1..]);
      PrefixesAgree(before + [t[i]], before);
    }
    if t[i] == '\n' && line + 1 == pos.line {
      var now := Lines(t[..i + 1]);
      assert Last(now) == "";
    }
  }

  lemma UnitsOfEmpty()
    ensures Units("") == 0
  {
  }

  lemma StopsAtTextEnd(t: string, line: nat, col: nat, pos: Position)
    requires Seeking(t, |t|, line, col, pos)
    ensures PointAt(t, pos) == |t|
  {
    hide Lines, LineStart, Units, Glue;
    assert t[..|t|] == t;
    IndexOnLine(t, |t|);
    if line == pos.line {
      var before := Last(Lines(t));
      PrefixesAgree(before, before);
      ColumnPointIs(before, pos.character, |before|);
    }
  }
}
