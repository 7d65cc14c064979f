/** Where a comment starts and what the directives of a whole text suppress, said of the
    characters of its lines. */
module ScannerLaws {
  import opened BlockScalarLaws
  import opened FixExact
  import opened FixProofs
  import opened QuickFix
  import opened Strings
  import opened SuppressionRules
  import opened Suppressions
  import opened TextLaws
  import opened TextPositions

  // --- where a token can start ---

  /** A token can start after this much of a line: nothing but blanks, an opening bracket, brace
      or comma, a colon and blanks, or a dash or question mark of its own and blanks. */
  ghost predicate TokenMayFollow(before: string) {
    || OnlyBlanks(before)
    || exists w: string, c: char, gap: string :: before == w + [c] + gap && OnlyBlanks(gap) && Precedes(w, c, gap)
  }

  predicate Precedes(w: string, c: char, gap: string) {
    || c in "[{,"
    || (c == ':' && gap != "")
    || (c in "-?" && gap != "" && (w == "" || w[|w| - 1] == ' ' || w[|w| - 1] == '\t'))
  }

  lemma FollowedByToken(line: string, i: nat, w: string, c: char, gap: string)
    requires i <= |line| && line[..i] == w + [c] + gap && OnlyBlanks(gap) && Precedes(w, c, gap)
    ensures AtTokenStart(line, i)
  {
    hide TrimmedLength, OnlyBlanks;
    var before := line[..i];
    TrimmedIs(w + [c], gap);
    assert |TrimRight(before)| == |w| + 1;
    assert line[|w|] == before[|w|] == c;
    assert w != "" ==> line[|w| - 1] == before[|w| - 1] == w[|w| - 1];
  }

  lemma BlanksAreFollowed(line: string, i: nat)
    requires i <= |line| && OnlyBlanks(line[..i])
    ensures AtTokenStart(line, i)
  {
    hide TrimmedLength, OnlyBlanks;
    assert "" + line[..i] == line[..i];
    TrimmedIs("", line[..i]);
    assert TrimRight(line[..i]) == "";
  }

  lemma TokenStarts(line: string, i: nat)
    requires i <= |line|
    ensures AtTokenStart(line, i) <==> TokenMayFollow(line[..i])
  {
    hide OnlyBlanks;
    var before := line[..i];
    var n := TrimmedLength(before);
    var end := TrimmedOff(before);
    if OnlyBlanks(before) {
      BlanksAreFollowed(line, i);
    } else if w: string, c: char, gap: string :|
        before == w + [c] + gap && OnlyBlanks(gap) && Precedes(w, c, gap) {
      FollowedByToken(line, i, w, c, gap);
    }
    if AtTokenStart(line, i) {
      if n == 0 {
        assert before == end;
      } else {
        assert before == before[..n - 1] + [before[n - 1]] + end;
        assert Precedes(before[..n - 1], before[n - 1], end);
      }
    }
  }

  // --- where a comment starts ---

  /** Escapes, each a backslash and any character, and characters that are neither a backslash
      nor a double quote. */
  predicate EscapedText(s: string) {
    || s == ""
    || (s[0] != '\\' && s[0] != '"' && EscapedText(s[1..]))
    || (|s| >= 2 && s[0] == '\\' && EscapedText(s[2..]))
  }

  ghost predicate SingleQuoted(s: string) {
    exists body: string :: s == "'" + body + "'" && '\'' !in body
  }

  ghost predicate DoubleQuoted(s: string) {
    exists body: string :: s == "\"" + body + "\"" && EscapedText(body)
  }

  /** The number sign that opens a comment, unless it is quoted. */
  predicate NumberSign(line: string, k: nat)
    requires k < |line|
  {
    line[k] == '#' && (k == 0 || line[k - 1] == ' ' || line[k - 1] == '\t')
  }

  /** From i to j the line reads as one quoted scalar, or one other character. */
  ghost predicate OnePiece(line: string, i: nat, j: nat)
    requires i < j <= |line|
  {
    if (line[i] == '\'' || line[i] == '"') && TokenMayFollow(line[..i])
    then SingleQuoted(line[i..j]) || DoubleQuoted(line[i..j])
    else j == i + 1 && !NumberSign(line, i)
  }

  ghost predicate Pieces(line: string, i: nat, k: nat)
    requires i <= k <= |line|
    decreases k - i
  {
    i == k || exists j :: i < j <= k && OnePiece(line, i, j) && Pieces(line, j, k)
  }

  /** A comment starts at the number sign that only such pieces precede. */
  ghost predicate CommentAt(line: string, k: nat) {
    k < |line| && NumberSign(line, k) && Pieces(line, 0, k)
  }

  lemma {:induction false} SingleEnds(line: string, i: nat, k: nat) returns (j: nat)
    requires i <= |line| && Scan(line, i, Single) == Found(k)
    ensures i <= j < k && line[j] == '\'' && '\'' !in line[i..j] && Scan(line, j + 1, Unquoted) == Found(k)
    decreases |line| - i
  {
    hide AtTokenStart;
    ScanOne(line, i, Single);
    if line[i] == '\'' {
      j := i;
    } else {
      j := SingleEnds(line, i + 1, k);
      assert line[i..j] == [line[i]] + line[i + 1..j];
    }
  }

  lemma EmptyIsEscaped(s: string)
    requires s == ""
    ensures EscapedText(s)
  {
  }

  lemma EscapedBefore(line: string, i: nat, n: nat, j: nat)
    requires i + n <= j <= |line| && EscapedText(line[i + n..j])
    requires (n == 1 && line[i] != '\\' && line[i] != '"') || (n == 2 && line[i] == '\\')
    ensures EscapedText(line[i..j])
  {
    assert line[i..j][n..] == line[i + n..j];
  }

  lemma {:induction false} DoubleEnds(line: string, i: nat, k: nat) returns (j: nat)
    requires i <= |line| && Scan(line, i, Double) == Found(k)
    ensures i <= j < k && line[j] == '"' && EscapedText(line[i..j]) && Scan(line, j + 1, Unquoted) == Found(k)
    decreases |line| - i
  {
    hide Scan, EscapedText;
    ScanOne(line, i, Double);
    if line[i] == '"' {
      j := i;
      EmptyIsEscaped(line[i..i]);
    } else if line[i] == '\\' {
      j := DoubleEnds(line, i + 2, k);
      EscapedBefore(line, i, 2, j);
    } else {
      j := DoubleEnds(line, i + 1, k);
      EscapedBefore(line, i, 1, j);
    }
  }

  lemma {:induction false} EscapedIsSkipped(line: string, i: nat, j: nat)
    requires i <= j < |line| && line[j] == '"' && EscapedText(line[i..j])
    ensures Scan(line, i, Double) == Scan(line, j + 1, Unquoted)
    decreases j - i
  {
    hide AtTokenStart;
    ScanOne(line, i, Double);
    if i < j {
      assert line[i..j][0] == line[i];
      assert line[i..j][1..] == line[i + 1..j];
      if line[i] == '\\' {
        assert line[i..j][2..] == line[i + 2..j];
        EscapedIsSkipped(line, i + 2, j);
      } else {
        EscapedIsSkipped(line, i + 1, j);
      }
    }
  }

  /** A quoted stretch of a line, and where its text lies. */
  lemma QuotedBody(line: string, i: nat, j: nat, q: char, body: string)
    requires i < j <= |line| && line[i..j] == [q] + body + [q]
    ensures i + 1 < j && line[i] == q && line[j - 1] == q && line[i + 1..j - 1] == body
  {
    var s := line[i..j];
    assert s[0] == line[i] && s[|s| - 1] == line[j - 1];
    forall k | i + 1 <= k < j - 1
      ensures line[k] == body[k - i - 1]
    {
      assert s[k - i] == line[k];
    }
  }

  lemma SingleIsSkipped(line: string, i: nat, j: nat)
    requires i < j <= |line| && SingleQuoted(line[i..j])
    ensures line[i] == '\'' && Scan(line, i + 1, Single) == Scan(line, j, Unquoted)
  {
    hide Scan;
    var body: string :| line[i..j] == "'" + body + "'" && '\'' !in body;
    QuotedBody(line, i, j, '\'', body);
    assert forall k :: i + 1 <= k < j - 1 ==> line[k] in line[i + 1..j - 1];
    QuotedTextIsSkipped(line, i + 1, j - 1);
  }

  lemma DoubleIsSkipped(line: string, i: nat, j: nat)
    requires i < j <= |line| && DoubleQuoted(line[i..j])
    ensures line[i] == '"' && Scan(line, i + 1, Double) == Scan(line, j, Unquoted)
  {
    hide Scan, EscapedText;
    var body: string :| line[i..j] == "\"" + body + "\"" && EscapedText(body);
    QuotedBody(line, i, j, '"', body);
    EscapedIsSkipped(line, i + 1, j - 1);
  }

  lemma PieceIsSkipped(line: string, i: nat, j: nat)
    requires i < j <= |line| && OnePiece(line, i, j)
    ensures Scan(line, i, Unquoted) == Scan(line, j, Unquoted)
  {
    hide AtTokenStart, TokenMayFollow, SingleQuoted, DoubleQuoted;
    TokenStarts(line, i);
    ScanOne(line, i, Unquoted);
    if (line[i] == '\'' || line[i] == '"') && TokenMayFollow(line[..i]) {
      if SingleQuoted(line[i..j]) {
        SingleIsSkipped(line, i, j);
      } else {
        DoubleIsSkipped(line, i, j);
      }
    }
  }

  lemma {:induction false} PiecesAreSkipped(line: string, i: nat, k: nat)
    requires i <= k <= |line| && Pieces(line, i, k)
    ensures Scan(line, i, Unquoted) == Scan(line, k, Unquoted)
    decreases k - i
  {
    hide OnePiece, Scan;
    if i < k {
      var j :| i < j <= k && OnePiece(line, i, j) && Pieces(line, j, k);
      PieceIsSkipped(line, i, j);
      PiecesAreSkipped(line, j, k);
    }
  }

  lemma CutOut(line: string, i: nat, e: nat)
    requires i < e < |line|
    ensures line[i..e + 1] == [line[i]] + line[i + 1..e] + [line[e]]
  {
  }

  lemma SingleCut(line: string, i: nat, e: nat)
    requires i < e < |line| && line[i] == '\'' && line[e] == '\'' && '\'' !in line[i + 1..e]
    ensures SingleQuoted(line[i..e + 1])
  {
    CutOut(line, i, e);
  }

  lemma DoubleCut(line: string, i: nat, e: nat)
    requires i < e < |line| && line[i] == '"' && line[e] == '"' && EscapedText(line[i + 1..e])
    ensures DoubleQuoted(line[i..e + 1])
  {
    CutOut(line, i, e);
  }

  lemma NextPiece(line: string, i: nat, k: nat) returns (j: nat)
    requires i < |line| && Scan(line, i, Unquoted) == Found(k) && i != k
    ensures i < j <= k < |line| && OnePiece(line, i, j) && Scan(line, j, Unquoted) == Found(k)
  {
    hide AtTokenStart, TokenMayFollow, SingleQuoted, DoubleQuoted, EscapedText;
    TokenStarts(line, i);
    ScanOne(line, i, Unquoted);
    j := i + 1;
    if AtTokenStart(line, i) && line[i] == '\'' {
      var e := SingleEnds(line, i + 1, k);
      j := e + 1;
      SingleCut(line, i, e);
    } else if AtTokenStart(line, i) && line[i] == '"' {
      var e := DoubleEnds(line, i + 1, k);
      j := e + 1;
      DoubleCut(line, i, e);
    }
  }

  lemma {:induction false} FoundAfterPieces(line: string, i: nat, k: nat)
    requires i <= |line| && Scan(line, i, Unquoted) == Found(k)
    ensures i <= k < |line| && NumberSign(line, k) && Pieces(line, i, k)
    decreases |line| - i
  {
    hide OnePiece, AtTokenStart;
    if i != k {
      var j := NextPiece(line, i, k);
      FoundAfterPieces(line, j, k);
    }
  }

  /** The search finds a comment exactly there. */
  lemma CommentExactly(line: string, k: nat)
    ensures Scan(line, 0, Unquoted) == Found(k) <==> CommentAt(line, k)
  {
    hide OnePiece, AtTokenStart;
    if CommentAt(line, k) {
      PiecesAreSkipped(line, 0, k);
      NumberSignIsFound(line, k);
    }
    if Scan(line, 0, Unquoted) == Found(k) {
      FoundAfterPieces(line, 0, k);
    }
  }

  lemma NumberSignIsFound(line: string, k: nat)
    requires k < |line| && NumberSign(line, k)
    ensures Scan(line, k, Unquoted) == Found(k)
  {
  }

  // --- directives ---

  /** The text's first word: what its white space, if any, leaves up to the next. */
  ghost predicate FirstWord(s: string, word: string) {
    exists gap: string, rest: string :: IsWord(s, gap, word, rest)
  }

  ghost predicate IsWord(s: string, gap: string, word: string, rest: string) {
    && s == gap + word + rest && word != "" && (rest == "" || IsSpace(rest[0]))
    && (forall c <- gap :: IsSpace(c)) && (forall c <- word :: !IsSpace(c))
  }

  lemma {:induction false} FirstTokenIs(gap: string, word: string, rest: string)
    requires word != "" && (rest == "" || IsSpace(rest[0]))
    requires (forall c <- gap :: IsSpace(c)) && (forall c <- word :: !IsSpace(c))
    ensures FirstToken(gap + word + rest) == word
  {
    hide IsSpace;
    var s := gap + word + rest;
    if gap == "" {
      assert s == word + rest && s[0] in word;
      PrefixIs(word, rest);
    } else {
      assert s[0] in gap && s[1..] == gap[1..] + word + rest;
      FirstTokenIs(gap[1..], word, rest);
    }
  }

  lemma {:induction false} PrefixIs(word: string, rest: string)
    requires (rest == "" || IsSpace(rest[0])) && forall c <- word :: !IsSpace(c)
    ensures TokenPrefix(word + rest) == word
  {
    hide IsSpace;
    if word == "" {
      assert word + rest == rest;
    } else {
      assert (word + rest)[0] in word && (word + rest)[1..] == word[1..] + rest;
      PrefixIs(word[1..], rest);
    }
  }

  lemma LaterWord(s: string, word: string)
    requires s != "" && IsSpace(s[0]) && FirstWord(s[1..], word)
    ensures FirstWord(s, word)
  {
    hide IsSpace;
    var gap: string, rest: string :| IsWord(s[1..], gap, word, rest);
    assert s == [s[0]] + gap + word + rest;
    assert IsWord(s, [s[0]] + gap, word, rest);
  }

  lemma {:induction false} FirstTokenHas(s: string)
    ensures FirstToken(s) != "" ==> FirstWord(s, FirstToken(s))
  {
    hide IsSpace;
    if FirstToken(s) != "" {
      if IsSpace(s[0]) {
        FirstTokenHas(s[1..]);
        LaterWord(s, FirstToken(s));
      } else {
        var rest := PrefixEnds(s);
        assert IsWord(s, "", FirstToken(s), rest);
      }
    }
  }

  lemma {:induction false} PrefixEnds(s: string) returns (rest: string)
    ensures s == TokenPrefix(s) + rest && (rest == "" || IsSpace(rest[0]))
    ensures forall c <- TokenPrefix(s) :: !IsSpace(c)
  {
    hide IsSpace;
    rest := s;
    if s != "" && !IsSpace(s[0]) {
      rest := PrefixEnds(s[1..]);
    }
  }

  ghost predicate CommentSays(line: string, k: nat, word: string) {
    CommentAt(line, k) && FirstWord(line[k + 1..], word)
  }

  /** The line has a comment, and it starts with that word. */
  ghost predicate Bears(line: string, word: string) {
    exists k: nat :: CommentSays(line, k, word)
  }

  lemma DirectiveIs(line: string, word: string)
    requires word != ""
    ensures Directive(line) == word <==> Bears(line, word)
  {
    hide Scan, FirstWord, FirstToken, NumberSign, Pieces;
    if k: nat :| CommentSays(line, k, word) {
      CommentExactly(line, k);
      FirstWordIsToken(line[k + 1..], word);
    }
    if Directive(line) == word {
      var k := Scan(line, 0, Unquoted).at;
      CommentExactly(line, k);
      FirstTokenHas(line[k + 1..]);
      assert CommentSays(line, k, word);
    }
  }

  lemma FirstWordIsToken(s: string, word: string)
    requires FirstWord(s, word)
    ensures FirstToken(s) == word
  {
    hide FirstToken, IsSpace;
    var gap: string, rest: string :| IsWord(s, gap, word, rest);
    FirstTokenIs(gap, word, rest);
  }

  /** The line up to its comment. */
  ghost predicate IsCode(line: string, code: string) {
    if exists k: nat :: CommentAt(line, k)
    then code <= line && CommentAt(line, |code|)
    else code == line
  }

  lemma CodeIs(line: string, code: string)
    ensures Code(line) == code <==> IsCode(line, code)
  {
    hide CommentAt;
    var r := Scan(line, 0, Unquoted);
    if r.Found? {
      CommentExactly(line, r.at);
    }
    if k: nat :| CommentAt(line, k) {
      CommentExactly(line, k);
    }
    if CommentAt(line, |code|) {
      CommentExactly(line, |code|);
    }
  }

  /** Something that is neither a blank nor a comment comes first. */
  ghost predicate CodeFirst(line: string) {
    exists k :: 0 <= k < |line| && OnlyBlanks(line[..k]) && line[k] !in " \t#"
  }

  lemma CodeFirstIs(line: string)
    ensures CodeBeforeComment(line) <==> CodeFirst(line)
  {
    CodeBeforeCommentIs(line);
    var n := Blanks(line);
    assert forall k :: 0 <= k < n ==> line[..n][k] == line[k];
    forall k | n < k <= |line|
      ensures !OnlyBlanks(line[..k])
    {
      assert line[..k][n] == line[n];
      assert line[n] in line[..k];
    }
    if n < |line| {
      assert OnlyBlanks(line[..n]);
    }
  }

  // --- block scalars ---

  /** Code behind d spaces and the dashes of list entries. */
  ghost predicate Indented(code: string, d: nat, gaps: seq<nat>, rest: string) {
    && code == Spaces(d) + Dashes(gaps) + rest
    && (forall k :: 0 <= k < |gaps| ==> gaps[k] > 0)
    && rest != "" && rest[0] != ' ' && !("- " <= rest)
  }

  /** The line's code opens a block scalar, and this is the column of what it belongs to. */
  ghost predicate OpensAt(line: string, column: int) {
    exists code: string, d: nat, gaps: seq<nat>, rest: string ::
      IsCode(line, code) && OpensScalar(code) && Indented(code, d, gaps, rest) && column == d + |Dashes(gaps)|
  }

  lemma OneDashCut(line: string, i: nat, g: nat)
    requires i + 1 + g <= |line| && line[i] == '-' && forall k :: i < k <= i + g ==> line[k] == ' '
    ensures line[i..] == "-" + Spaces(g) + line[i + 1 + g..]
  {
    assert line[i + 1..i + 1 + g] == Spaces(g);
    assert line[i..] == "-" + line[i + 1..i + 1 + g] + line[i + 1 + g..];
  }

  lemma {:induction false} DashesOf(line: string, i: nat) returns (gaps: seq<nat>, rest: string)
    requires i <= |line| && (i < |line| ==> line[i] != ' ')
    ensures line[i..] == Dashes(gaps) + rest && forall k :: 0 <= k < |gaps| ==> gaps[k] > 0
    ensures !("- " <= rest) && (rest != "" ==> rest[0] != ' ')
    decreases |line| - i
  {
    gaps, rest := [], line[i..];
    if "- " <= rest {
      assert rest[0] == line[i] && rest[1] == line[i + 1];
      var g := SpacesFrom(line, i + 1);
      var more, end := DashesOf(line, i + 1 + g);
      gaps, rest := [g] + more, end;
      assert gaps[1..] == more;
      OneDashCut(line, i, g);
      assert line[i..] == "-" + Spaces(g) + (Dashes(more) + end);
    }
  }

  lemma {:induction false} DashesHold(gaps: seq<nat>, c: char)
    requires c in Dashes(gaps)
    ensures c == '-' || c == ' '
  {
    if gaps != [] && c != '-' && c !in Spaces(gaps[0]) {
      DashesHold(gaps[1..], c);
    }
  }

  lemma IndentedSomehow(code: string) returns (d: nat, gaps: seq<nat>, rest: string)
    requires OpensScalar(code)
    ensures Indented(code, d, gaps, rest)
  {
    hide OpensScalar;
    d := IndentOf(code);
    gaps, rest := DashesOf(code, d);
    assert code == code[..d] + code[d..];
    assert code[..d] == Spaces(d);
    assert code == Spaces(d) + Dashes(gaps) + rest;
    HeaderIsVisible(code, d, gaps, rest);
  }

  lemma HeaderIsVisible(code: string, d: nat, gaps: seq<nat>, rest: string)
    requires OpensScalar(code) && code == Spaces(d) + Dashes(gaps) + rest
    ensures rest != ""
  {
    hide Indicators, Introduces, Dashes;
    var before: string, c: char, tail: string, end: string :| OpensBy(code, before, c, tail, end);
    assert c in code;
    if c in Dashes(gaps) {
      DashesHold(gaps, c);
    }
  }

  lemma OpensAtIs(line: string, column: int)
    ensures OpensAt(line, column) <==> column >= 0 && BlockIndent(Code(line)) == column
  {
    hide IsCode, OpensScalar, BlockIndent, Code, PastDashes, Indented;
    if code: string, d: nat, gaps: seq<nat>, rest: string :|
        IsCode(line, code) && OpensScalar(code) && Indented(code, d, gaps, rest) && column == d + |Dashes(gaps)| {
      CodeIs(line, code);
      IndentedColumn(code, d, gaps, rest);
    }
    if column >= 0 && BlockIndent(Code(line)) == column {
      var code := Code(line);
      CodeIs(line, code);
      OpensExactly(code);
      var d, gaps, rest := IndentedSomehow(code);
      IndentedColumn(code, d, gaps, rest);
    }
  }

  lemma IndentedColumn(code: string, d: nat, gaps: seq<nat>, rest: string)
    requires OpensScalar(code) && Indented(code, d, gaps, rest)
    ensures BlockIndent(code) == d + |Dashes(gaps)|
  {
    hide OpensScalar, BlockIndent, Dashes;
    HeaderColumn(d, gaps, rest);
  }

  lemma DeeperIs(line: string, indent: int)
    requires indent >= 0
    ensures Under(line, indent) <==> BlankOrDeeper(line, indent)
  {
    if AllSpace(line) || forall c <- line :: IsSpace(c) {
      assert forall k :: 0 <= k < |line| ==> line[k] in line;
    }
  }

  /** Line k is part of a block scalar: a line above, not part of one itself, opens one at some
      column, and every line since is blank or deeper. */
  ghost predicate InScalar(lines: seq<string>, k: nat)
    requires k < |lines|
    decreases k
  {
    exists o: nat, column: int :: o < k && !InScalar(lines, o) && ScalarFrom(lines, o, column, k)
  }

  ghost predicate ScalarFrom(lines: seq<string>, o: nat, column: int, k: nat)
    requires o < k < |lines|
  {
    OpensAt(lines[o], column) && forall m :: o < m <= k ==> BlankOrDeeper(lines[m], column)
  }

  lemma ScalarFromIs(lines: seq<string>, o: nat, k: nat)
    requires o < k < |lines|
    ensures InScalarOf(lines, k, o) <==>
              !InBlock(Before(lines, o), lines[o]) && exists column: int :: ScalarFrom(lines, o, column, k)
  {
    hide OpensAt, BlankOrDeeper, Under, InBlock, Before, BlockIndent, Code;
    var column := BlockIndent(Code(lines[o]));
    OpensAtIs(lines[o], column);
    if column >= 0 {
      forall m | o < m <= k
        ensures Under(lines[m], column) <==> BlankOrDeeper(lines[m], column)
      {
        DeeperIs(lines[m], column);
      }
    }
    if c: int :| ScalarFrom(lines, o, c, k) {
      OpensAtIs(lines[o], c);
    }
    assert InScalarOf(lines, k, o) && !InBlock(Before(lines, o), lines[o]) ==> ScalarFrom(lines, o, column, k);
  }

  lemma {:induction false} InScalarIs(lines: seq<string>, k: nat)
    requires k < |lines|
    ensures InBlock(Before(lines, k), lines[k]) <==> InScalar(lines, k)
    decreases k
  {
    hide InBlock, Before, ScalarFrom, InScalarOf;
    InBlockIff(lines, k);
    forall o: nat | o < k
      ensures InScalarOf(lines, k, o) <==> !InScalar(lines, o) && exists column: int :: ScalarFrom(lines, o, column, k)
    {
      InScalarIs(lines, o);
      ScalarFromIs(lines, o, k);
    }
    forall o: nat | InScalarOf(lines, k, o)
      ensures o < k
    {
      OpenedAbove(lines, k, o);
    }
  }

  lemma OpenedAbove(lines: seq<string>, k: nat, o: nat)
    requires k < |lines| && InScalarOf(lines, k, o)
    ensures o < k
  {
  }

  // --- whole texts ---

  /** Line k is not part of a block scalar, and its comment starts with that word. */
  ghost predicate Says(lines: seq<string>, k: nat, word: string)
    requires k < |lines|
  {
    !InScalar(lines, k) && Bears(lines[k], word)
  }

  ghost predicate SwitchedOff(lines: seq<string>, j: nat, k: nat)
    requires j < |lines|
  {
    k < j && Says(lines, k, "yayamlls-disable") && forall m :: k < m < j ==> !Says(lines, m, "yayamlls-enable")
  }

  /** A line is suppressed when some line says so for the file, when a line above disables and
      none in between enables, when it says so behind its code, or when the line above does,
      with no code. */
  ghost predicate Silenced(lines: seq<string>, j: nat) {
    || (exists k: nat :: k < |lines| && Says(lines, k, "yayamlls-disable-file"))
    || (j < |lines| &&
        (|| (exists k: nat :: SwitchedOff(lines, j, k))
         || (Says(lines, j, "yayamlls-disable-line") && CodeFirst(lines[j]))
         || (j > 0 && Says(lines, j - 1, "yayamlls-disable-line") && !CodeFirst(lines[j - 1]))))
  }

  lemma TheWords()
    ensures DISABLE == "yayamlls-disable" && ENABLE == "yayamlls-enable"
    ensures DISABLE_FILE == "yayamlls-disable-file" && DISABLE_LINE == "yayamlls-disable-line"
  {
  }

  lemma SaysIs(lines: seq<string>, k: nat, word: string)
    requires k < |lines| && word != ""
    ensures Sees(lines, k, word) <==> Says(lines, k, word)
  {
    hide InBlock, Before, Directive, InScalar, Bears;
    InScalarIs(lines, k);
    DirectiveIs(lines[k], word);
  }

  lemma SwitchedOffIs(lines: seq<string>, j: nat)
    requires j < |lines|
    ensures Before(lines, j).blocked <==> exists k: nat :: SwitchedOff(lines, j, k)
  {
    hide Before, Sees, Says, DISABLE, ENABLE;
    TheWords();
    DisabledStretch(lines, j);
    forall k: nat | k < j
      ensures Sees(lines, k, DISABLE) <==> Says(lines, k, "yayamlls-disable")
      ensures Sees(lines, k, ENABLE) <==> Says(lines, k, "yayamlls-enable")
    {
      SaysIs(lines, k, DISABLE);
      SaysIs(lines, k, ENABLE);
    }
    forall k: nat
      ensures DisabledBy(lines, j, k) <==> SwitchedOff(lines, j, k)
    {
    }
  }

  lemma FileIsOff(lines: seq<string>)
    ensures Before(lines, |lines|).fileWide <==>
              exists k: nat :: k < |lines| && Says(lines, k, "yayamlls-disable-file")
  {
    hide Before, Sees, Says, DISABLE_FILE;
    TheWords();
    FileWideIff(lines, |lines|);
    forall k: nat | k < |lines|
      ensures SaysFile(lines, |lines|, k) <==> Says(lines, k, "yayamlls-disable-file")
    {
      SaysIs(lines, k, DISABLE_FILE);
    }
  }

  /** What the scanner makes of a text, for every text and line. */
  lemma TextIsRead(text: string, j: nat)
    ensures TextSuppresses(text, j) <==> Silenced(StripCR(Lines(text)), j)
  {
    hide Before, Says, SwitchedOff, InBlock, Directive, DISABLE_LINE, CodeBeforeComment, CodeFirst, Lines, StripCR;
    var lines := StripCR(Lines(text));
    TheWords();
    FileIsOff(lines);
    if j < |lines| {
      SwitchedOffIs(lines, j);
      SaysIs(lines, j, DISABLE_LINE);
      CodeFirstIs(lines[j]);
      if j > 0 {
        SaysIs(lines, j - 1, DISABLE_LINE);
        CodeFirstIs(lines[j - 1]);
      }
    }
  }

  // --- the quick fix ---

  lemma FixDirective()
    ensures DIRECTIVE == "# yayamlls-disable-line"
  {
  }

  lemma AfterGap(gap: string, a: string, b: string)
    ensures gap + a + b == gap + (a + b)
  {
  }

  lemma FixWords(gap: string)
    ensures SOURCE == "yayamlls" && " " + DIRECTIVE == " # yayamlls-disable-line"
    ensures gap + DIRECTIVE + "\n" == gap + "# yayamlls-disable-line\n"
  {
    hide DIRECTIVE;
    FixDirective();
    AfterGap(gap, "# yayamlls-disable-line", "\n");
    assert "# yayamlls-disable-line" + "\n" == "# yayamlls-disable-line\n";
  }

  lemma NoCommentIs(line: string)
    ensures Scan(line, 0, Unquoted).Ended? <==> forall k: nat :: !CommentAt(line, k)
  {
    hide CommentAt, Scan;
    var r := Scan(line, 0, Unquoted);
    if r.Found? {
      CommentExactly(line, r.at);
    }
    if k: nat :| CommentAt(line, k) {
      CommentExactly(line, k);
    }
  }

  lemma BehindBlanks(gap: string, rest: string)
    requires OnlyBlanks(gap)
    ensures AllSpace(gap + rest) <==> forall c <- rest :: IsSpace(c)
  {
    hide IsSpace;
    var src := gap + rest;
    SpaceChars(' ');
    SpaceChars('\t');
    assert forall k :: 0 <= k < |gap| ==> src[k] in gap;
    assert forall k :: |gap| <= k < |src| ==> src[k] in rest;
    assert forall k :: 0 <= k < |rest| ==> src[|gap| + k] == rest[k];
  }

  /** The words of the fix, and its place: behind the code of a line that has some and no
      comment, else above the line and behind the same blanks. */
  lemma FixIs(text: string, l: nat, gap: string, rest: string)
    requires SourceLine(text, l) == gap + rest && OnlyBlanks(gap)
    requires rest != "" ==> rest[0] != ' ' && rest[0] != '\t'
    ensures FixFor(text, l) ==
            if (forall k: nat :: !CommentAt(gap + rest, k)) && exists c <- rest :: !IsSpace(c)
            then Edit(Position(l, Units(gap + rest)), " # yayamlls-disable-line")
            else Edit(Position(l, 0), gap + "# yayamlls-disable-line\n")
  {
    hide CommentAt, Scan, IsSpace, DIRECTIVE, SourceLine, Units, AllSpace;
    TextLaws.BlanksAre(gap, rest);
    assert (gap + rest)[..|gap|] == gap;
    NoCommentIs(gap + rest);
    BehindBlanks(gap, rest);
    FixWords(gap);
  }

  /** The line of a text that a diagnostic is on, up to the line feed or the carriage return and
      line feed that end it. */
  lemma SourceLineIs(before: seq<string>, line: string, after: seq<string>)
    requires forall l <- before + [line] + after :: '\n' !in l
    ensures SourceLine(Joined(before + [line] + after), |before|) ==
            if line != "" && line[|line| - 1] == '\r' then line[..|line| - 1] else line
  {
    OnlyTheseLines(before + [line] + after);
  }
}
