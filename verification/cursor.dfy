/** Editor positions and file offsets: the loops that convert between them, and how the
    conversions agree. */
module Cursor {
  import opened TextPositions

  // --- the loops ---

  /** The byte offset of a position. */
  method OffsetAt(text: string, pos: Position) returns (offset: nat)
    ensures PointAt(text, pos) <= |text|
    ensures offset == ByteLen(text[..PointAt(text, pos)])
  {
    hide Seeking, PointAt, Lines, ByteLen;
    PointInText(text, pos);
    SeekStart(text, pos);
    var line: nat, col: nat := 0, 0;
    offset := 0;
    var i := 0;
    while i < |text|
      invariant i <= |text| && offset == ByteLen(text[..i])
      invariant Seeking(text, i, line, col, pos)
    {
      var r := text[i];
      if line == pos.line {
        if col >= pos.character {
          StopsAtColumn(text, i, line, col, pos);
          return;
        }
        if r == '\n' || (r == '\r' && i + 1 < |text| && text[i + 1] == '\n') {
          StopsAtEnd(text, i, line, col, pos);
          return;
        }
      }
      Advance(text, i, line, col, pos);
      PrefixSnoc(text, i);
      offset := offset + ByteWidth(r);
      i := i + 1;
      if r == '\n' {
        line := line + 1;
        col := 0;
        continue;
      }
      col := col + UnitWidth(r);
    }
    StopsAtTextEnd(text, line, col, pos);
  }

  /** The given line without its line feed. */
  method LineText(src: string, line0: int) returns (line: string, ok: bool)
    ensures ok == (0 <= line0 < |Lines(src)|)
    ensures line == if ok then Lines(src)[line0] else ""
  {
    if line0 < 0 {
      return "", false;
    }
    EmptyLines();
    var cur, start := 0, 0;
    for i := 0 to |src|
      invariant start <= i && cur <= line0
      invariant cur == |Lines(src[..i])| - 1 && src[start..i] == Last(Lines(src[..i]))
    {
      IndexOnLine(src, i);
      RestOfLine(src, i);
      assert src[..i + 1] == src[..i] + [src[i]];
      LinesSnoc(src[..i], src[i]);
      if src[i] != '\n' {
        assert src[start..i + 1] == src[start..i] + [src[i]];
        continue;
      }
      if cur == line0 {
        assert Last(Lines(src[..i])) + "" == src[start..i];
        return src[start..i], true;
      }
      cur := cur + 1;
      start := i + 1;
    }
    assert src[..|src|] == src;
    if cur == line0 {
      return src[start..], true;
    }
    return "", false;
  }

  method UTF16Len(s: string) returns (n: nat)
    ensures n == Units(s)
  {
    n := 0;
    for i := 0 to |s|
      invariant n == Units(s[..i])
    {
      PrefixSnoc(s, i);
      n := n + UnitWidth(s[i]);
    }
    assert s[..|s|] == s;
  }

  /** The column of a 1-based rune column; past the end of the text each rune missing
      counts one unit. */
  function ColumnOf(text: string, runeCol: int): nat {
    if runeCol <= 1 then 0
    else if runeCol - 1 <= |text| then Units(text[..runeCol - 1])
    else Units(text) + (runeCol - 1 - |text|)
  }

  method UTF16Column(text: string, runeCol: int) returns (col: nat)
    ensures col == ColumnOf(text, runeCol)
  {
    if runeCol <= 1 {
      return 0;
    }
    var target := runeCol - 1;
    col := 0;
    var idx := 0;
    for i := 0 to |text|
      invariant idx == i <= target && col == Units(text[..i])
    {
      if idx >= target {
        return;
      }
      PrefixSnoc(text, i);
      col := col + UnitWidth(text[i]);
      idx := idx + 1;
    }
    assert text[..|text|] == text;
    if idx < target {
      col := col + (target - idx);
    }
  }

  function PositionOf(src: string, line: int, runeCol: int): Position {
    var l := if line - 1 > 0 then line - 1 else 0;
    Position(l, ColumnOf(if l < |Lines(src)| then Lines(src)[l] else "", runeCol))
  }

  /** A 1-based line and rune column as a position. */
  method UTF16Position(src: string, line: int, runeCol: int) returns (pos: Position)
    ensures pos == PositionOf(src, line, runeCol)
  {
    var l := if line - 1 > 0 then line - 1 else 0;
    var txt, ok := LineText(src, l);
    var col := UTF16Column(txt, runeCol);
    return Position(l, col);
  }

  /** The part of the line before the column. */
  method LineUpToUTF16(line: string, utf16Col: nat) returns (prefix: string)
    ensures prefix == line[..ColumnPoint(line, utf16Col)]
  {
    var col := 0;
    UnitsOfEmpty();
    for i := 0 to |line|
      invariant col == Units(line[..i])
      invariant forall j :: 0 <= j < i ==> Units(line[..j]) < utf16Col
    {
      if col >= utf16Col {
        ColumnPointIs(line, utf16Col, i);
        return line[..i];
      }
      PrefixSnoc(line, i);
      col := col + UnitWidth(line[i]);
    }
    ColumnPointIs(line, utf16Col, |line|);
    return line;
  }

  method LinePrefix(text: string, pos: Position) returns (prefix: string)
    ensures prefix ==
              if pos.line < |Lines(text)|
              then Lines(text)[pos.line][..ColumnPoint(Lines(text)[pos.line], pos.character)]
              else ""
  {
    var line, ok := LineText(text, pos.line);
    if !ok {
      return "";
    }
    prefix := LineUpToUTF16(line, pos.character);
  }

  // --- what they promise ---

  /** A place on a line cuts the text into the lines up to it and the lines from it on. */
  lemma CutOnLine(t: string, l: nat, c: nat)
    requires l < |Lines(t)| && c <= |Lines(t)[l]|
    ensures var lines, i := Lines(t), LineStart(Lines(t), l) + c;
            && i <= |t|
            && Lines(t[..i]) == lines[..l] + [lines[l][..c]]
            && Lines(t[i..]) == [lines[l][c..]] + lines[l + 1..]
  {
    hide Lines, LineStart;
    var lines, i := Lines(t), LineStart(Lines(t), l) + c;
    LengthOfLines(t);
    if l < |lines| - 1 {
      LineStartMonotone(lines, l, |lines| - 1);
    }
    assert i <= |t|;
    IndexOnLine(t, i);
    var before, after := Lines(t[..i]), Lines(t[i..]);
    if |before| - 1 < l {
      LineStartMonotone(lines, |before| - 1, l);
    }
    if l < |before| - 1 {
      LineStartMonotone(lines, l, |before| - 1);
    }
    assert |before| - 1 == l && |Last(before)| == c;
    assert lines[l] == Last(before) + after[0];
    assert before == lines[..l] + [lines[l][..c]];
    assert lines[l + 1..] == after[1..];
    assert after == [lines[l][c..]] + lines[l + 1..];
  }

  /** Every position names a place on its own line before the terminator, or the end of
      the text when there is no such line. */
  lemma PointOnLine(t: string, pos: Position)
    ensures var p := PointAt(t, pos);
            && p <= |t|
            && (pos.line < |Lines(t)| ==>
                  && |Lines(t[..p])| - 1 == pos.line
                  && Last(Lines(t[..p])) <= Content(Lines(t), pos.line)
                  && forall k :: 0 <= k < |Last(Lines(t[..p]))| ==>
                        Units(Content(Lines(t), pos.line)[..k]) < pos.character)
            && (pos.line >= |Lines(t)| ==> p == |t|)
  {
    hide Lines, LineStart, Units;
    PointInText(t, pos);
    if pos.line < |Lines(t)| {
      CutOnLine(t, pos.line, ColumnPoint(Content(Lines(t), pos.line), pos.character));
    }
  }

  lemma CutInCRLF(t: string, p: nat)
    requires 0 < p < |t| && t[p - 1] == '\r' && t[p] == '\n'
    ensures var l := |Lines(t[..p])| - 1;
            l < |Lines(t)| && |Content(Lines(t), l)| < |Last(Lines(t[..p]))|
  {
    hide Lines, LineStart;
    assert t[..p] == t[..p - 1] + [t[p - 1]];
    LinesSnoc(t[..p - 1], t[p - 1]);
    RestOfLine(t, p);
    IndexOnLine(t, p);
    var before := Last(Lines(t[..p]));
    assert Lines(t)[|Lines(t[..p])| - 1] == before + "" == before;
  }

  /** A position never falls between a CR and its LF. */
  lemma NeverSplitsCRLF(t: string, pos: Position)
    ensures var p := PointAt(t, pos);
            p <= |t| && !(0 < p < |t| && t[p - 1] == '\r' && t[p] == '\n')
  {
    hide Lines, PointAt, Content, Units;
    var p := PointAt(t, pos);
    PointOnLine(t, pos);
    if 0 < p < |t| && t[p - 1] == '\r' && t[p] == '\n' {
      CutInCRLF(t, p);
    }
  }

  predicate AtOrBefore(a: Position, b: Position) {
    a.line < b.line || (a.line == b.line && a.character <= b.character)
  }

  lemma ColumnPointMonotone(s: string, a: nat, b: nat)
    requires a <= b
    ensures ColumnPoint(s, a) <= ColumnPoint(s, b)
  {
    var p, q := ColumnPoint(s, a), ColumnPoint(s, b);
    assert q == |s| || Units(s[..q]) >= b;
  }

  /** Later positions have later offsets. */
  lemma OffsetsAreMonotone(t: string, a: Position, b: Position)
    requires AtOrBefore(a, b)
    ensures PointAt(t, a) <= PointAt(t, b) <= |t|
    ensures ByteLen(t[..PointAt(t, a)]) <= ByteLen(t[..PointAt(t, b)])
  {
    hide Lines, LineStart, ColumnPoint, Units, ByteLen;
    var lines := Lines(t);
    PointInText(t, a);
    PointInText(t, b);
    if a.line == b.line < |lines| {
      ColumnPointMonotone(Content(lines, a.line), a.character, b.character);
    } else if b.line < |lines| {
      LineStartMonotone(lines, a.line, b.line);
    }
    if PointAt(t, a) < PointAt(t, b) {
      UnitsGrow(t, PointAt(t, a), PointAt(t, b));
    }
  }

  /** The position of a rune column before the terminator leads back to that rune. */
  lemma PositionRoundTrip(t: string, l: nat, c: nat)
    requires l < |Lines(t)| && c <= |Content(Lines(t), l)|
    ensures PointAt(t, PositionOf(t, l + 1, c + 1)) == LineStart(Lines(t), l) + c
  {
    hide Lines, LineStart;
    var content, line := Content(Lines(t), l), Lines(t)[l];
    assert content[..c] == line[..c];
    forall k | 0 <= k < c
      ensures Units(content[..k]) < Units(content[..c])
    {
      UnitsGrow(content, k, c);
    }
    UnitsOfEmpty();
    assert c == 0 ==> line[..c] == "";
    ColumnPointIs(content, Units(content[..c]), c);
  }

  /** The text before the cursor is what lies between the start of its line and its
      offset, for every column up to the terminator. */
  lemma LinePrefixEndsAtOffset(t: string, pos: Position)
    requires pos.line < |Lines(t)|
    ensures var line := Lines(t)[pos.line];
            var k := ColumnPoint(line, pos.character);
            var start := LineStart(Lines(t), pos.line);
            && start <= PointAt(t, pos) <= |t|
            && (k <= |Content(Lines(t), pos.line)| ==> t[start..PointAt(t, pos)] == line[..k])
            && (k > |Content(Lines(t), pos.line)| ==> t[start..PointAt(t, pos)] + "\r" == line[..k])
  {
    hide Lines, LineStart, Units;
    var lines := Lines(t);
    var line, content, start := lines[pos.line], Content(lines, pos.line), LineStart(lines, pos.line);
    var k, c := ColumnPoint(line, pos.character), ColumnPoint(content, pos.character);
    PointInText(t, pos);
    SliceOfLine(t, pos.line, c);
    PrefixesAgree(line, content);
    if k <= |content| {
      ColumnPointIs(content, pos.character, k);
    } else {
      assert k == |line| == |content| + 1;
      assert forall j :: 0 <= j < |content| ==> content[..j] == line[..j];
      ColumnPointIs(content, pos.character, |content|);
      assert line[..k] == content + "\r";
    }
  }

  lemma HeadOfLine(t: string, l: nat)
    requires l < |Lines(t)|
    ensures var line := Lines(t)[l];
            var i := LineStart(Lines(t), l) + |line|;
            && i <= |t|
            && t[..i][LineStart(Lines(t), l)..] == line
  {
    hide Lines, LineStart;
    var lines := Lines(t);
    var line := lines[l];
    CutOnLine(t, l, |line|);
    var head := t[..LineStart(lines, l) + |line|];
    assert line[..|line|] == line;
    assert Last(Lines(head)) == line;
    LastLineIsSuffix(head);
    LengthOfLines(head);
    LineStartOfPrefix(Lines(head), lines, l);
  }

  lemma SliceOfLine(t: string, l: nat, c: nat)
    requires l < |Lines(t)| && c <= |Lines(t)[l]|
    ensures var start := LineStart(Lines(t), l);
            start + c <= |t| && t[start..start + c] == Lines(t)[l][..c]
  {
    hide Lines, LineStart;
    var start, line := LineStart(Lines(t), l), Lines(t)[l];
    HeadOfLine(t, l);
    var head := t[..start + |line|];
    assert t[start..start + c] == head[start..start + c];
    assert head[start..start + c] == head[start..][..c];
  }

  lemma {:induction false} LastLineIsSuffix(t: string)
    ensures var last := Last(Lines(t)); |last| <= |t| && t[|t| - |last|..] == last
    decreases |t|
  {
    hide Lines;
    if t == "" {
      EmptyLines();
    } else {
      var init := t[..|t| - 1];
      assert t == init + [Last(t)];
      LinesSnoc(init, Last(t));
      LastLineIsSuffix(init);
    }
  }
}
