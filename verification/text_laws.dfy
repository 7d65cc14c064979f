/** Texts, lines, columns and bytes, said of the characters themselves. */
module TextLaws {
  import opened Cursor
  import opened Strings
  import opened TextPositions

  // --- characters ---

  /** White space: the six ASCII characters, the two of Latin-1, and the others of the
      Unicode property. */
  lemma SpaceChars(c: char)
    ensures c as int < 0x80 ==> (IsSpace(c) <==> c in " \t\n\r\U{0B}\U{0C}")
    ensures 0x80 <= c as int ==>
              (IsSpace(c) <==>
                 c in "\U{85}\U{A0}\U{1680}\U{2000}\U{2001}\U{2002}\U{2003}\U{2004}\U{2005}\U{2006}\U{2007}\U{2008}" ||
                 c in "\U{2009}\U{200A}\U{2028}\U{2029}\U{202F}\U{205F}\U{3000}")
  {
  }

  /** How many blanks a line starts with, told by the line. */
  lemma BlanksAre(gap: string, rest: string)
    requires OnlyBlanks(gap) && (rest != "" ==> rest[0] != ' ' && rest[0] != '\t')
    ensures Blanks(gap + rest) == |gap|
  {
    var n := Blanks(gap + rest);
    assert forall i :: 0 <= i < |gap| ==> (gap + rest)[i] == gap[i] && gap[i] in gap;
    assert rest != "" ==> (gap + rest)[|gap|] == rest[0];
  }

  // --- order ---

  /** Where the two first differ, the first has the smaller code point. */
  ghost predicate SmallerThere(a: string, b: string, k: nat) {
    k < |a| && k < |b| && a[..k] == b[..k] && a[k] < b[k]
  }

  lemma OneLater(a: string, b: string, k: nat)
    requires a != "" && b != "" && a[0] == b[0]
    ensures SmallerThere(a, b, k + 1) <==> SmallerThere(a[1..], b[1..], k)
    ensures !SmallerThere(a, b, 0)
  {
    if k < |a| - 1 && k < |b| - 1 {
      assert a[..k + 1] == [a[0]] + a[1..][..k] && b[..k + 1] == [b[0]] + b[1..][..k];
      assert a[1..][..k] == a[..k + 1][1..] && b[1..][..k] == b[..k + 1][1..];
    }
  }

  lemma OtherHeads(a: string, b: string, k: nat)
    requires a != "" && b != "" && a[0] != b[0]
    ensures SmallerThere(a, b, k) <==> k == 0 && a[0] < b[0]
  {
    if 0 < k <= |a| && k <= |b| {
      assert a[..k][0] == a[0] && b[..k][0] == b[0];
    }
  }

  /** One string is not after another when it is a prefix of it, or has the smaller code point
      where they first differ. */
  lemma {:induction false} OrderIs(a: string, b: string)
    ensures NotAfter(a, b) <==> a <= b || exists k: nat :: SmallerThere(a, b, k)
  {
    hide SmallerThere;
    if a == "" || b == "" {
      NoneSmaller(a, b);
    } else if a[0] == b[0] {
      OrderIs(a[1..], b[1..]);
      assert a <= b <==> a[1..] <= b[1..];
      forall k: nat
        ensures SmallerThere(a, b, k + 1) <==> SmallerThere(a[1..], b[1..], k)
        ensures !SmallerThere(a, b, 0)
      {
        OneLater(a, b, k);
      }
      if k: nat :| SmallerThere(a, b, k) {
        OneLater(a, b, if k > 0 then k - 1 else 0);
      }
      if k: nat :| SmallerThere(a[1..], b[1..], k) {
        assert SmallerThere(a, b, k + 1);
      }
    } else {
      OtherHeads(a, b, 0);
      forall k: nat | SmallerThere(a, b, k)
        ensures a[0] < b[0]
      {
        OtherHeads(a, b, k);
      }
    }
  }

  lemma NoneSmaller(a: string, b: string)
    requires a == "" || b == ""
    ensures forall k: nat :: !SmallerThere(a, b, k)
  {
  }

  // --- lines ---

  function Joined(lines: seq<string>): string
    requires lines != []
  {
    if |lines| == 1 then lines[0] else lines[0] + "\n" + Joined(lines[1..])
  }

  /** The lines of a text hold no line feed, and with line feeds between them are the text. */
  lemma {:induction false} LinesAreParts(t: string)
    ensures Joined(Lines(t)) == t
    ensures forall l <- Lines(t) :: '\n' !in l
  {
    if t != "" {
      var rest := Lines(t[1..]);
      LinesAreParts(t[1..]);
      assert t == [t[0]] + t[1..];
      assert rest[0] in rest && rest == [rest[0]] + rest[1..];
      if t[0] == '\n' {
        JoinedMore("", rest);
      } else {
        JoinedLonger(t[0], rest);
      }
    }
  }

  lemma JoinedMore(line: string, rest: seq<string>)
    requires rest != []
    ensures Joined([line] + rest) == line + "\n" + Joined(rest)
  {
    assert ([line] + rest)[1..] == rest;
  }

  lemma JoinedLonger(c: char, lines: seq<string>)
    requires lines != []
    ensures Joined([[c] + lines[0]] + lines[1..]) == [c] + Joined(lines)
  {
    var longer := [[c] + lines[0]] + lines[1..];
    assert longer[1..] == lines[1..];
  }

  /** And they are the only such lines. */
  lemma {:induction false} OnlyTheseLines(lines: seq<string>)
    requires lines != [] && forall l <- lines :: '\n' !in l
    ensures Lines(Joined(lines)) == lines
    decreases |lines|
  {
    assert lines[0] in lines;
    if |lines| == 1 {
      LinesOfLine(lines[0]);
      assert lines == [lines[0]];
    } else {
      var rest := lines[1..];
      OnlyTheseLines(rest);
      LinesConcat(lines[0], "\n" + Joined(rest));
      LinesOfLine(lines[0]);
      assert ("\n" + Joined(rest))[1..] == Joined(rest);
      assert lines[0] + "\n" + Joined(rest) == lines[0] + ("\n" + Joined(rest));
      assert lines[0] + "" == lines[0];
      assert lines == [lines[0]] + rest;
    }
  }

  lemma CRIsTrimmed(s: string)
    ensures TrimCR(s + "\r") == s
    ensures s == "" || s[|s| - 1] != '\r' ==> TrimCR(s) == s
  {
    assert (s + "\r")[..|s|] == s;
  }

  // --- columns ---

  /** UTF-16 units: two for a character beyond the first 65536, else one. */
  lemma {:induction false} UnitsAdd(s: string, c: char)
    ensures Units("") == 0
    ensures Units(s + [c]) == Units(s) + if c as int >= 65536 then 2 else 1
  {
    assert (s + [c])[..|s|] == s;
  }

  /** A rune column counts the units before it, and one for every rune that is missing. */
  lemma ColumnIs(text: string, runeCol: int)
    ensures runeCol <= 1 ==> ColumnOf(text, runeCol) == 0
    ensures 1 <= runeCol <= |text| + 1 ==> ColumnOf(text, runeCol) == Units(text[..runeCol - 1])
    ensures runeCol > |text| + 1 ==> ColumnOf(text, runeCol) == Units(text) + runeCol - 1 - |text|
  {
    assert Units(text[..0]) == 0;
  }

  /** The position of a line and column counted from one; a line before the first is the
      first. */
  lemma PositionIs(src: string, line: int, runeCol: int)
    ensures line >= 1 ==> PositionOf(src, line, runeCol).line == line - 1
    ensures line < 1 ==> PositionOf(src, line, runeCol).line == 0
    ensures var l := PositionOf(src, line, runeCol).line;
            PositionOf(src, line, runeCol).character ==
              ColumnOf(if l < |Lines(src)| then Lines(src)[l] else "", runeCol)
  {
  }

  // --- bytes ---

  /** A continuation byte and its six bits. */
  predicate Continues(b: byte) { 0x80 <= b as int < 0xC0 }

  /** UTF-8: the leading byte tells the length and holds the top bits, and each continuation
      byte holds six more. */
  lemma EncodingIsUtf8(c: char)
    ensures var n, e := c as int, EncodeChar(c);
            && (n < 0x80 ==> |e| == 1 && e[0] as int == n)
            && (0x80 <= n < 0x800 ==>
                  |e| == 2 && 0xC0 <= e[0] as int < 0xE0 && Continues(e[1])
                  && n == (e[0] as int - 0xC0) * 64 + (e[1] as int - 0x80))
            && (0x800 <= n < 0x10000 ==>
                  |e| == 3 && 0xE0 <= e[0] as int < 0xF0 && Continues(e[1]) && Continues(e[2])
                  && n == (e[0] as int - 0xE0) * 4096 + (e[1] as int - 0x80) * 64 + (e[2] as int - 0x80))
            && (0x10000 <= n ==>
                  |e| == 4 && 0xF0 <= e[0] as int < 0xF8 && Continues(e[1]) && Continues(e[2]) && Continues(e[3])
                  && n == (e[0] as int - 0xF0) * 262144 + (e[1] as int - 0x80) * 4096 + (e[2] as int - 0x80) * 64
                          + (e[3] as int - 0x80))
  {
    var n := c as int;
    assert n / 64 == n / 4096 * 64 + n / 64 % 64;
    assert n / 4096 == n / 262144 * 64 + n / 4096 % 64;
  }

  /** A text's bytes are those of its characters. */
  lemma BytesAdd(s: string, c: char)
    ensures Encode("") == []
    ensures Encode(s + [c]) == Encode(s) + EncodeChar(c)
    ensures ByteLen(s) == |Encode(s)|
  {
    assert (s + [c])[..|s|] == s;
  }
}
