/** Which lines open a block scalar, and how deep a line below must be to belong to it, said of
    the characters of the line. */
module BlockScalarLaws {
  import opened FixExact
  import opened FixProofs
  import opened FixRest
  import opened FixWorks
  import opened Options
  import opened Strings
  import opened SuppressionRules
  import opened Suppressions
  import opened TextPositions

  predicate SignChar(s: string) { s == "+" || s == "-" }

  predicate DigitOneToNine(s: string) { |s| == 1 && '1' <= s[0] <= '9' }

  /** A chomping sign and an indentation digit, each at most once, in either order. */
  ghost predicate Indicators(s: string) {
    || s == "" || SignChar(s) || DigitOneToNine(s)
    || (|s| == 2 && SignChar(s[..1]) && DigitOneToNine(s[1..]))
    || (|s| == 2 && DigitOneToNine(s[..1]) && SignChar(s[1..]))
  }

  /** Nothing but blanks; or a colon, a dash, or a word that starts with ! or &, and then
      blanks. */
  ghost predicate Introduces(before: string) {
    || OnlyBlanks(before)
    || exists w: string, gap: string :: before == w + gap && OnlyBlanks(gap) && (EndsInMark(w) || EndsInProperty(w))
  }

  predicate EndsInMark(w: string) { w != "" && (w[|w| - 1] == ':' || w[|w| - 1] == '-') }

  ghost predicate EndsInProperty(w: string) {
    exists head: string, word: string ::
      && w == head + word && word != "" && (word[0] == '!' || word[0] == '&')
      && ' ' !in word && '\t' !in word
      && (head == "" || head[|head| - 1] == ' ' || head[|head| - 1] == '\t')
  }

  /** The code ends in a header: | or >, indicators, blanks; and what is before it introduces
      one. */
  ghost predicate OpensBy(code: string, before: string, c: char, tail: string, end: string) {
    && code == before + [c] + tail + end
    && (c == '|' || c == '>') && Indicators(tail) && OnlyBlanks(end) && Introduces(before)
  }

  ghost predicate OpensScalar(code: string) {
    exists before: string, c: char, tail: string, end: string :: OpensBy(code, before, c, tail, end)
  }

  // --- trimming ---

  lemma {:induction false} TrimmedIs(w: string, gap: string)
    requires OnlyBlanks(gap) && (w == "" || !(w[|w| - 1] == ' ' || w[|w| - 1] == '\t'))
    ensures TrimRight(w + gap) == w
  {
    assert (w + gap)[..|w|] == w;
    assert forall k :: |w| <= k < |w + gap| ==> (w + gap)[k] in gap;
  }

  lemma TrimmedOff(s: string) returns (gap: string)
    ensures s == TrimRight(s) + gap && OnlyBlanks(gap)
    ensures TrimRight(s) == "" || !(Last(TrimRight(s)) == ' ' || Last(TrimRight(s)) == '\t')
  {
    gap := s[TrimmedLength(s)..];
  }

  // --- headers ---

  lemma HeaderIs(h: string)
    ensures IsHeader(h) <==> h != "" && (h[0] == '|' || h[0] == '>') && Indicators(h[1..])
  {
    if h != "" {
      var t := h[1..];
      if |t| == 1 {
        assert t == [t[0]];
      } else if |t| == 2 {
        assert t[..1] == [t[0]] && t[1..] == [t[1]];
      }
    }
  }

  lemma IndicatorsHoldNoHeader(t: string)
    requires Indicators(t)
    ensures |t| <= 2 && forall k :: 0 <= k < |t| ==> t[k] != '|' && t[k] != '>' && t[k] != ' ' && t[k] != '\t'
  {
    if |t| == 2 {
      assert t[..1][0] == t[0] && t[1..][0] == t[1];
    }
  }

  lemma HeaderIsFound(before: string, c: char, tail: string)
    requires (c == '|' || c == '>') && Indicators(tail)
    ensures HeaderStart(before + [c] + tail) == Some(|before|)
  {
    hide IsHeader, Indicators;
    var code := before + [c] + tail;
    IndicatorsHoldNoHeader(tail);
    assert code[|before|..] == [c] + tail && code[|before|..][1..] == tail;
    HeaderIs(code[|before|..]);
    var at := HeaderStart(code);
    assert at.Some?;
    HeaderIs(code[at.value..]);
    IndicatorsHoldNoHeader(code[at.value..][1..]);
    assert forall k :: |before| < k < |code| ==> code[k] == tail[k - |before| - 1];
    assert code[|before|] == c;
  }

  // --- introductions ---

  lemma {:induction false} LastWordIs(s: string) returns (head: string)
    requires s != "" && !IsBlank(Last(s))
    ensures s == head + LastWord(s) && ' ' !in LastWord(s) && '\t' !in LastWord(s)
    ensures head == "" || IsBlank(Last(head))
  {
    if |s| > 1 && !IsBlank(s[|s| - 2]) {
      head := LastWordIs(s[..|s| - 1]);
      assert s == s[..|s| - 1] + [Last(s)];
    } else {
      head := s[..|s| - 1];
      assert s == head + [Last(s)];
    }
  }

  lemma {:induction false} LastWordOf(head: string, word: string)
    requires word != "" && ' ' !in word && '\t' !in word && (head == "" || IsBlank(Last(head)))
    ensures LastWord(head + word) == word
  {
    var s := head + word;
    assert Last(s) == Last(word) && Last(word) in word;
    if |word| == 1 {
      assert |s| > 1 ==> s[|s| - 2] == Last(head);
    } else {
      var init := word[..|word| - 1];
      assert word == init + [Last(word)];
      LastWordOf(head, init);
      assert s[..|s| - 1] == head + init;
      assert s[|s| - 2] == Last(init) && Last(init) in init;
      LastWordUnfolds(s);
    }
  }

  lemma LastWordUnfolds(s: string)
    requires |s| > 1 && !IsBlank(Last(s)) && !IsBlank(s[|s| - 2])
    ensures LastWord(s) == LastWord(s[..|s| - 1]) + [Last(s)]
  {
  }

  lemma IntroducesIs(before: string)
    ensures Introduces(before) <==> OpensAfter(TrimRight(before))
  {
    hide LastWord, TrimRight;
    var w := TrimRight(before);
    var gap := TrimmedOff(before);
    if w == "" {
      assert "" + gap == gap == before;
    } else {
      if OpensAfter(w) {
        assert EndsInMark(w) || EndsInProperty(w) by {
          if !EndsInMark(w) {
            var head := LastWordIs(w);
            assert w == head + LastWord(w);
          }
        }
      }
      if Introduces(before) {
        IntroducedBy(before, w);
      }
    }
  }

  lemma IntroducedBy(before: string, w: string)
    requires Introduces(before) && w == TrimRight(before) && w != "" && !IsBlank(Last(w))
    ensures OpensAfter(w)
  {
    hide LastWord, TrimRight;
    assert TrimRight(before) != "";
    assert "" + before == before;
    if OnlyBlanks(before) {
      TrimmedIs("", before);
    } else {
      var v: string, gap: string :| before == v + gap && OnlyBlanks(gap) && (EndsInMark(v) || EndsInProperty(v));
      if EndsInMark(v) {
        TrimmedIs(v, gap);
      } else {
        var head: string, word: string :|
          && v == head + word && word != "" && (word[0] == '!' || word[0] == '&')
          && ' ' !in word && '\t' !in word
          && (head == "" || head[|head| - 1] == ' ' || head[|head| - 1] == '\t');
        assert v[|v| - 1] == word[|word| - 1] && word[|word| - 1] in word;
        TrimmedIs(v, gap);
        LastWordOf(head, word);
      }
    }
  }

  // --- which code opens a scalar ---

  /** Code opens a block scalar exactly when it ends in such a header; the indent to exceed is
      then the column past the dashes. */
  lemma OpensExactly(code: string)
    ensures BlockIndent(code) == if OpensScalar(code) then PastDashes(code, IndentOf(code)) else -1
  {
    hide OpensScalar, OpensAfter, HeaderStart, PastDashes, TrimmedLength, IndentOf;
    var trimmed := TrimRight(code);
    var at := HeaderStart(trimmed);
    if at.Some? && OpensAfter(TrimRight(trimmed[..at.value])) {
      ReadIsOpened(code, at.value);
    }
    if OpensScalar(code) {
      OpenedIsRead(code);
    }
  }

  lemma ReadIsOpened(code: string, at: nat)
    requires HeaderStart(TrimRight(code)) == Some(at) && OpensAfter(TrimRight(TrimRight(code)[..at]))
    ensures OpensScalar(code)
  {
    hide IsHeader, Indicators, OpensAfter, Introduces, TrimRight;
    var trimmed := TrimRight(code);
    var end := TrimmedOff(code);
    var before, h := trimmed[..at], trimmed[at..];
    HeaderIs(h);
    IntroducesIs(before);
    assert h == [h[0]] + h[1..] && trimmed == before + h;
    assert code == before + [h[0]] + h[1..] + end;
    assert OpensBy(code, before, h[0], h[1..], end);
  }

  lemma OpenedIsRead(code: string)
    requires OpensScalar(code)
    ensures BlockIndent(code) == PastDashes(code, IndentOf(code))
  {
    hide IsHeader, Indicators, OpensAfter, Introduces, HeaderStart, PastDashes, TrimRight, IndentOf;
    var before: string, c: char, tail: string, end: string :| OpensBy(code, before, c, tail, end);
    IndicatorsHoldNoHeader(tail);
    var trimmed := before + [c] + tail;
    TrimmedIs(trimmed, end);
    HeaderIsFound(before, c, tail);
    IntroducesIs(before);
    assert trimmed[..|before|] == before;
  }

  // --- how deep a line below must be ---

  /** Dashes of nested list entries, each with its spaces. */
  function Dashes(gaps: seq<nat>): string {
    if gaps == [] then "" else "-" + Spaces(gaps[0]) + Dashes(gaps[1..])
  }

  lemma DashChars(line: string, i: nat, g: nat, tail: string)
    requires i <= |line| && line[i..] == "-" + Spaces(g) + tail
    ensures i + 1 + g <= |line| && line[i + 1 + g..] == tail
    ensures line[i] == '-' && forall k :: i < k <= i + g ==> line[k] == ' '
  {
    assert |line[i..]| == 1 + g + |tail|;
    forall k | i <= k < |line|
      ensures line[k] == ("-" + Spaces(g) + tail)[k - i]
    {
      assert line[k] == line[i..][k - i];
    }
    assert line[i + 1 + g..] == tail;
  }

  lemma OneDash(line: string, i: nat, g: nat, tail: string)
    requires i <= |line| && g > 0 && line[i..] == "-" + Spaces(g) + tail && (tail != "" ==> tail[0] != ' ')
    ensures i + 1 + g <= |line| && line[i + 1 + g..] == tail
    ensures PastDashes(line, i) == PastDashes(line, i + 1 + g)
  {
    hide Spaces, SpacesFrom;
    DashChars(line, i, g, tail);
    assert i + 1 + g < |line| ==> line[i + 1 + g] == tail[0];
    SpacesEnd(line, i + 1, g);
  }

  lemma {:induction false} PastDashesAre(line: string, i: nat, gaps: seq<nat>, rest: string)
    requires i <= |line| && line[i..] == Dashes(gaps) + rest
    requires (forall k :: 0 <= k < |gaps| ==> gaps[k] > 0) && (rest != "" ==> rest[0] != ' ') && !("- " <= rest)
    ensures PastDashes(line, i) == i + |Dashes(gaps)|
    decreases |gaps|
  {
    hide PastDashes;
    if gaps == [] {
      assert line[i..] == rest;
      NoDash(line, i);
    } else {
      var g, tail := gaps[0], Dashes(gaps[1..]) + rest;
      assert line[i..] == "-" + Spaces(g) + tail;
      assert tail != "" ==> tail[0] != ' ';
      OneDash(line, i, g, tail);
      PastDashesAre(line, i + 1 + g, gaps[1..], rest);
    }
  }

  lemma NoDash(line: string, i: nat)
    requires i <= |line| && !("- " <= line[i..])
    ensures PastDashes(line, i) == i
  {
    assert i + 1 < |line| ==> line[i..][0] == line[i] && line[i..][1] == line[i + 1];
  }

  lemma SpacesEnd(s: string, i: nat, n: nat)
    requires i + n <= |s| && forall k :: i <= k < i + n ==> s[k] == ' '
    requires i + n < |s| ==> s[i + n] != ' '
    ensures SpacesFrom(s, i) == n
  {
  }

  /** Code that opens a scalar: lines below belong to it when they are deeper than the column
      behind its leading spaces and the dashes of its list entries. */
  lemma HeaderColumn(d: nat, gaps: seq<nat>, rest: string)
    requires (forall k :: 0 <= k < |gaps| ==> gaps[k] > 0) && rest != "" && rest[0] != ' ' && !("- " <= rest)
    requires OpensScalar(Spaces(d) + Dashes(gaps) + rest)
    ensures BlockIndent(Spaces(d) + Dashes(gaps) + rest) == d + |Dashes(gaps)|
  {
    hide OpensScalar, BlockIndent, PastDashes;
    var line := Spaces(d) + Dashes(gaps) + rest;
    OpensExactly(line);
    assert line[d..] == Dashes(gaps) + rest;
    assert line[d] == (Dashes(gaps) + rest)[0];
    SpacesEnd(line, 0, d);
    PastDashesAre(line, d, gaps, rest);
  }

  /** In particular `key: |`, `key: >-`, `- |2` and the like: with a colon, a dash or a tag or
      anchor before the header, and no list entry, the indent of the line itself. */
  lemma PlainHeaderColumn(d: nat, w: string, gap: string, c: char, tail: string, end: string)
    requires w != "" && w[0] != ' ' && !("- " <= w + gap + [c] + tail + end)
    requires (EndsInMark(w) || EndsInProperty(w)) && OnlyBlanks(gap) && (c == '|' || c == '>')
    requires Indicators(tail) && OnlyBlanks(end)
    ensures BlockIndent(Spaces(d) + w + gap + [c] + tail + end) == d
  {
    hide BlockIndent, Indicators;
    var rest := w + gap + [c] + tail + end;
    var before := Spaces(d) + w + gap;
    IndentedEnds(Spaces(d), w);
    assert before == (Spaces(d) + w) + gap;
    assert Introduces(before);
    var line := Spaces(d) + w + gap + [c] + tail + end;
    assert OpensBy(line, before, c, tail, end);
    assert line == Spaces(d) + Dashes([]) + rest;
    HeaderColumn(d, [], rest);
  }

  lemma IndentedEnds(indent: string, w: string)
    requires w != "" && OnlyBlanks(indent)
    ensures EndsInMark(w) ==> EndsInMark(indent + w)
    ensures EndsInProperty(w) ==> EndsInProperty(indent + w)
  {
    if EndsInProperty(w) {
      var head: string, word: string :|
        && w == head + word && word != "" && (word[0] == '!' || word[0] == '&')
        && ' ' !in word && '\t' !in word
        && (head == "" || head[|head| - 1] == ' ' || head[|head| - 1] == '\t');
      EndsBehind(indent, head, word);
      assert indent + w == indent + head + word;
    }
  }

  lemma EndsBehind(indent: string, head: string, word: string)
    requires OnlyBlanks(indent) && word != "" && (word[0] == '!' || word[0] == '&')
    requires ' ' !in word && '\t' !in word
    requires head == "" || head[|head| - 1] == ' ' || head[|head| - 1] == '\t'
    ensures EndsInProperty(indent + head + word)
  {
    var longer := indent + head;
    if head != "" {
      assert longer[|longer| - 1] == head[|head| - 1];
    } else if indent != "" {
      assert longer[|longer| - 1] == indent[|indent| - 1] && indent[|indent| - 1] in indent;
    }
  }

  // --- what a block scalar hides ---

  /** White space only, or more leading spaces than that. */
  ghost predicate BlankOrDeeper(line: string, indent: int) {
    || (forall c <- line :: IsSpace(c))
    || (indent >= 0 && |line| > indent && forall k :: 0 <= k <= indent ==> line[k] == ' ')
  }

  lemma DeepIsInBlock(c: Control, line: string)
    requires c.blockIndent >= 0 && BlankOrDeeper(line, c.blockIndent)
    ensures InBlock(c, line)
  {
    if !(forall x <- line :: IsSpace(x)) {
      assert IndentOf(line) > c.blockIndent;
    } else {
      assert forall k :: 0 <= k < |line| ==> line[k] in line;
    }
  }

  /** The scan of a text up to a line that opens a block scalar and is not in one itself. */
  lemma OpenedBelow(a: seq<string>, i: nat)
    requires i + 1 < |a| && Before(a, i).blockIndent == -1 && OpensScalar(Code(a[i]))
    ensures Before(a, i + 1).blockIndent == BlockIndent(Code(a[i])) >= 0
  {
    hide BlockIndent, Code, OpensScalar, Directive, DISABLE, ENABLE, DISABLE_FILE, PastDashes;
    BeforeNext(a, i);
    OpensExactly(Code(a[i]));
  }

  /** Below a line that opens a block scalar, a blank or deeper line has no effect on what is
      suppressed: the text with an empty line in its place suppresses the same. */
  lemma ScalarHidesLine(a: seq<string>, i: nat, j: nat)
    requires i + 1 < |a| && Before(a, i).blockIndent == -1 && OpensScalar(Code(a[i]))
    requires BlankOrDeeper(a[i + 1], BlockIndent(Code(a[i])))
    ensures var b := a[i + 1 := ""];
            Before(b, |b|).fileWide == Before(a, |a|).fileWide && LineSuppressed(b, j) == LineSuppressed(a, j)
  {
    hide BlockIndent, Code, OpensScalar, Directive, DISABLE_LINE, Before, InBlock, BlankOrDeeper, CodeBeforeComment;
    var b := a[i + 1 := ""];
    OpenedBelow(a, i);
    DeepIsInBlock(Before(a, i + 1), a[i + 1]);
    EmptyIsDeep(BlockIndent(Code(a[i])));
    DeepIsInBlock(Before(a, i + 1), "");
    SameBefore(a, b, i + 1);
    BeforeNext(a, i + 1);
    BeforeNext(b, i + 1);
    SkippedLine(Before(a, i + 1), a[i + 1]);
    SkippedLine(Before(a, i + 1), "");
    forall k | 0 <= k <= |a|
      ensures Before(b, k) == Before(a, k)
    {
      if k <= i + 1 {
        SameBefore(a, b, k);
      } else {
        SameAfter(a, b, i + 2, k);
      }
    }
  }

  lemma EmptyIsDeep(indent: int)
    ensures BlankOrDeeper("", indent)
  {
  }

  lemma SameAfter(a: seq<string>, b: seq<string>, m: nat, k: nat)
    requires m <= k <= |a| == |b| && Before(a, m) == Before(b, m)
    requires forall n :: m <= n < |a| ==> a[n] == b[n]
    ensures Before(a, k) == Before(b, k)
  {
    SameFrom(a, b, m, k);
  }
}
