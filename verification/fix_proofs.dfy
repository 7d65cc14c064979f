/** The quick fix works: the target line becomes suppressed and no other line changes. */
module FixProofs {
  import opened Strings
  import opened TextPositions
  import opened Suppressions
  import opened QuickFix

  // --- a longer line reads the same up to its end ---

  lemma {:induction false} SpacesOfLonger(s: string, x: string, i: nat, h: nat)
    requires i <= h < |s| && s[h] != ' '
    ensures SpacesFrom(s + x, i) == SpacesFrom(s, i)
    ensures i + SpacesFrom(s, i) <= h
    decreases h - i
  {
    if s[i] == ' ' {
      SpacesOfLonger(s, x, i + 1, h);
    }
  }

  lemma TokenStartOfLonger(s: string, x: string, i: nat)
    requires i <= |s|
    ensures AtTokenStart(s + x, i) == AtTokenStart(s, i)
  {
    assert (s + x)[..i] == s[..i];
  }

  /** No quote and no escape from i on. */
  predicate QuoteFree(s: string, i: nat) {
    forall k :: i <= k < |s| ==> s[k] != '\\' && s[k] != '\'' && s[k] != '"'
  }

  lemma {:induction false} QuotedToTheEnd(s: string, i: nat, quote: Quote)
    requires QuoteFree(s, i) && quote != Unquoted
    ensures Scan(s, i, quote) == Ended(quote)
    decreases |s| - i
  {
    if i < |s| {
      QuotedToTheEnd(s, i + 1, quote);
    }
  }

  lemma ScanOne(s: string, i: nat, quote: Quote)
    requires i < |s|
    ensures Scan(s, i, quote) ==
            var c := s[i];
            if quote != Unquoted then
              if c == '\\' && quote == Double then Scan(s, i + 2, quote)
              else Scan(s, i + 1, if QuoteOf(c) == quote then Unquoted else quote)
            else if QuoteOf(c) != Unquoted && AtTokenStart(s, i) then Scan(s, i + 1, QuoteOf(c))
            else if c == '#' && (i == 0 || IsBlank(s[i - 1])) then Found(i)
            else Scan(s, i + 1, Unquoted)
  {
  }

  lemma ScanEnd(s: string, i: nat, quote: Quote)
    requires i >= |s|
    ensures Scan(s, i, quote) == Ended(quote)
  {
  }

  /** Text appended to a line is read from the line's end on, in the state the line left. */
  lemma {:induction false} ScanOfLonger(s: string, x: string, i: nat, quote: Quote)
    requires i <= |s| && QuoteFree(x, 0)
    ensures Scan(s, i, quote).Found? ==> Scan(s + x, i, quote) == Scan(s, i, quote)
    ensures Scan(s, i, quote) == Ended(Unquoted) ==> Scan(s + x, i, quote) == Scan(s + x, |s|, Unquoted)
    ensures Scan(s, i, quote).Ended? && Scan(s, i, quote).quote != Unquoted ==>
            Scan(s + x, i, quote) == Scan(s, i, quote)
    decreases |s| - i
  {
    hide AtTokenStart, Scan;
    assert QuoteFree(s + x, |s|);
    if i == |s| {
      ScanEnd(s, i, quote);
      if quote != Unquoted {
        QuotedToTheEnd(s + x, i, quote);
      }
    } else {
      var c := s[i];
      assert (s + x)[i] == c;
      TokenStartOfLonger(s, x, i);
      ScanOne(s, i, quote);
      ScanOne(s + x, i, quote);
      if quote != Unquoted && c == '\\' && quote == Double {
        if i + 2 <= |s| {
          ScanOfLonger(s, x, i + 2, quote);
        } else {
          ScanEnd(s, i + 2, quote);
          QuotedToTheEnd(s + x, i + 2, quote);
        }
      } else if quote != Unquoted {
        ScanOfLonger(s, x, i + 1, if QuoteOf(c) == quote then Unquoted else quote);
      } else if QuoteOf(c) != Unquoted && AtTokenStart(s, i) {
        ScanOfLonger(s, x, i + 1, QuoteOf(c));
      } else {
        ScanOfLonger(s, x, i + 1, Unquoted);
      }
    }
  }

  // --- the directive is read ---

  lemma {:induction false} TokenIsWhole(s: string)
    requires forall k :: 0 <= k < |s| ==> !IsSpace(s[k])
    ensures TokenPrefix(s) == s
  {
    if s != "" {
      TokenIsWhole(s[1..]);
      assert s == [s[0]] + s[1..];
    }
  }

  lemma DirectiveToken(line: string, at: nat)
    requires at + |DIRECTIVE| == |line| && line[at..] == DIRECTIVE
    requires Scan(line, 0, Unquoted) == Found(at)
    ensures Directive(line) == DISABLE_LINE
    ensures Code(line) == line[..at]
  {
    hide DISABLE_LINE, DIRECTIVE, Scan;
    DirectiveIsPlain();
    TokenIsWhole(DISABLE_LINE);
    var rest := line[at + 1..];
    assert rest == line[at..][1..] == DIRECTIVE[1..];
    assert rest[0] == DIRECTIVE[1] && rest[1..] == DIRECTIVE[2..];
    assert FirstToken(DISABLE_LINE) == TokenPrefix(DISABLE_LINE);
    assert FirstToken(rest) == FirstToken(rest[1..]);
  }

  lemma {:induction false} ScanSkipsBlanks(s: string, i: nat)
    requires i <= |s| && forall k :: 0 <= k < i ==> IsBlank(s[k])
    ensures Scan(s, 0, Unquoted) == Scan(s, i, Unquoted)
    decreases i
  {
    if i > 0 {
      ScanSkipsBlanks(s, i - 1);
    }
  }

  lemma {:induction false} CodeBeforeCommentIs(s: string)
    ensures CodeBeforeComment(s) <==> Blanks(s) < |s| && s[Blanks(s)] != '#'
  {
    if s != "" && IsBlank(s[0]) {
      CodeBeforeCommentIs(s[1..]);
      BlanksAre(s, Blanks(s[1..]) + 1);
    } else {
      BlanksAre(s, 0);
    }
  }

  lemma BlanksAre(s: string, n: nat)
    requires n <= |s| && forall k :: 0 <= k < n ==> IsBlank(s[k])
    requires n < |s| ==> !IsBlank(s[n])
    ensures Blanks(s) == n
  {
    assert Blanks(s) <= n;
  }

  lemma CodeOfLonger(s: string, x: string)
    requires CodeBeforeComment(s)
    ensures CodeBeforeComment(s + x)
  {
    CodeBeforeCommentIs(s);
    BlanksAre(s + x, Blanks(s));
    CodeBeforeCommentIs(s + x);
  }

  lemma CanTrailHasCode(s: string)
    requires CanTrail(s)
    ensures CodeBeforeComment(s)
  {
    hide Scan;
    CodeBeforeCommentIs(s);
    var b := Blanks(s);
    ScanSkipsBlanks(s, b);
    if b < |s| {
      ScanOne(s, b, Unquoted);
    }
  }

  // --- a trailing blank changes no block scalar ---

  lemma DashStep(s: string, i: nat)
    requires i + 1 < |s| && s[i] == '-' && s[i + 1] == ' '
    ensures PastDashes(s, i) == PastDashes(s, i + 1 + SpacesFrom(s, i + 1))
  {
  }

  lemma NoDash(s: string, i: nat)
    requires i <= |s| && !(i + 1 < |s| && s[i] == '-' && s[i + 1] == ' ')
    ensures PastDashes(s, i) == i
  {
  }

  lemma {:induction false} DashesOfLonger(s: string, x: string, i: nat, h: nat)
    requires i <= h < |s| && s[h] != ' ' && s[h] != '-'
    ensures PastDashes(s + x, i) == PastDashes(s, i)
    decreases |s| - i
  {
    hide SpacesFrom, PastDashes;
    if i + 1 < |s| && s[i] == '-' && s[i + 1] == ' ' {
      SpacesOfLonger(s, x, i + 1, h);
      DashStep(s, i);
      DashStep(s + x, i);
      DashesOfLonger(s, x, i + 1 + SpacesFrom(s, i + 1), h);
    } else {
      NoDash(s, i);
      NoDash(s + x, i);
    }
  }

  lemma BlockIndentIgnoresBlank(s: string)
    ensures BlockIndent(s + " ") == BlockIndent(s)
  {
    hide PastDashes, HeaderStart, OpensAfter;
    assert (s + " ")[..|s + " "| - 1] == s;
    assert TrimRight(s + " ") == TrimRight(s);
    var code := TrimRight(s);
    var loc := HeaderStart(code);
    if loc.Some? {
      HeaderStarts(code);
      SpacesOfLonger(s, " ", 0, loc.value);
      DashesOfLonger(s, " ", IndentOf(s), loc.value);
    }
  }

  lemma HeaderStarts(code: string)
    ensures var loc := HeaderStart(code);
            loc.Some? ==> loc.value < |code| && (code[loc.value] == '|' || code[loc.value] == '>')
  {
    var loc := HeaderStart(code);
    if loc.Some? {
      assert IsHeader(code[loc.value..]);
      assert code[loc.value..][0] == code[loc.value];
    }
  }

  lemma BlanksOpenNothing(s: string)
    requires forall k :: 0 <= k < |s| ==> IsBlank(s[k])
    ensures BlockIndent(s) == -1
  {
    assert TrimRight(s) == "";
  }

  // --- the line with the directive at its end ---

  lemma TrailingDirective(line: string)
    requires Scan(line, 0, Unquoted) == Ended(Unquoted)
    ensures var longer := line + (" " + DIRECTIVE);
            Directive(longer) == DISABLE_LINE && Code(longer) == line + " "
  {
    hide DIRECTIVE, Scan, FirstToken, Directive, Code, AtTokenStart;
    DirectiveIsPlain();
    var x := " " + DIRECTIVE;
    var longer := line + x;
    ScanOfLonger(line, x, 0, Unquoted);
    assert longer[|line|] == ' ' && longer[|line| + 1] == '#';
    ScanOne(longer, |line|, Unquoted);
    ScanOne(longer, |line| + 1, Unquoted);
    assert longer[|line| + 1..] == DIRECTIVE;
    DirectiveToken(longer, |line| + 1);
    assert longer[..|line| + 1] == line + " ";
  }

  lemma QuotedDirective(line: string)
    requires Scan(line, 0, Unquoted).Ended? && Scan(line, 0, Unquoted) != Ended(Unquoted)
    ensures Directive(line + (" " + DIRECTIVE)) == ""
  {
    hide DIRECTIVE, Scan, FirstToken;
    DirectiveIsPlain();
    ScanOfLonger(line, " " + DIRECTIVE, 0, Unquoted);
  }

  lemma CodeInLonger(line: string, x: string)
    requires CanTrail(line)
    ensures !AllSpace(line + x) && IndentOf(line + x) == IndentOf(line)
  {
    hide Scan;
    var k :| 0 <= k < |line| && !IsSpace(line[k]);
    assert (line + x)[k] == line[k];
    SpacesOfLonger(line, x, 0, k);
  }

  /** What the scanner sees of a line once the directive ends it. */
  lemma TrailingLine(line: string)
    requires CanTrail(line)
    ensures var longer := line + (" " + DIRECTIVE);
            && !AllSpace(longer) && IndentOf(longer) == IndentOf(line)
            && CodeBeforeComment(longer)
            && (Scan(line, 0, Unquoted) == Ended(Unquoted) ==>
                  Directive(longer) == DISABLE_LINE && Code(longer) == line + " ")
            && (Scan(line, 0, Unquoted) != Ended(Unquoted) ==> Directive(longer) == "")
  {
    hide DIRECTIVE, Scan, CodeBeforeComment, Directive, Code, AllSpace, IndentOf;
    CanTrailHasCode(line);
    CodeOfLonger(line, " " + DIRECTIVE);
    CodeInLonger(line, " " + DIRECTIVE);
    if Scan(line, 0, Unquoted) == Ended(Unquoted) {
      TrailingDirective(line);
    } else {
      QuotedDirective(line);
    }
  }

  /** What the scanner sees of the directive on a line of its own. */
  lemma StandaloneLine(line: string)
    ensures var own := LeadingWS(line) + DIRECTIVE;
            && !AllSpace(own) && IndentOf(own) == IndentOf(line)
            && !CodeBeforeComment(own)
            && Directive(own) == DISABLE_LINE
            && BlockIndent(Code(own)) == -1
  {
    hide DIRECTIVE, Scan, FirstToken, BlockIndent;
    DirectiveIsPlain();
    var ws, own := LeadingWS(line), LeadingWS(line) + DIRECTIVE;
    assert own[|ws|] == '#';
    BlanksAre(own, |ws|);
    CodeBeforeCommentIs(own);
    ScanSkipsBlanks(own, |ws|);
    ScanOne(own, |ws|, Unquoted);
    assert own[|ws|..] == DIRECTIVE;
    DirectiveToken(own, |ws|);
    BlanksOpenNothing(ws);
    assert own[..|ws|] == ws;
    SameIndent(line, own);
  }

  lemma SameIndent(line: string, own: string)
    requires LeadingWS(line) < own && own[Blanks(line)] != ' '
    ensures IndentOf(own) == IndentOf(line)
  {
    var n := IndentOf(line);
    assert Blanks(line) == |line| || line[Blanks(line)] != ' ';
    SpacesAre(own, 0, n);
  }

  lemma {:induction false} SpacesAre(s: string, i: nat, n: nat)
    requires i + n <= |s| && forall k :: i <= k < i + n ==> s[k] == ' '
    requires i + n < |s| ==> s[i + n] != ' '
    ensures SpacesFrom(s, i) == n
    decreases n
  {
    if n > 0 {
      SpacesAre(s, i + 1, n - 1);
    }
  }

  // --- the scanner's run over the edited lines ---

  lemma {:induction false} SameBefore(a: seq<string>, b: seq<string>, i: nat)
    requires i <= |a| && i <= |b| && forall k :: 0 <= k < i ==> a[k] == b[k]
    ensures Before(a, i) == Before(b, i)
  {
    hide Next;
    if i > 0 {
      SameBefore(a, b, i - 1);
    }
  }

  /** The scan ends outside quotes, so the line can take a comment at its end. */
  predicate QuotesClosed(line: string) {
    Scan(line, 0, Unquoted) == Ended(Unquoted)
  }

  function WithDirective(line: string): string {
    line + (" " + DIRECTIVE)
  }

  function OwnLine(line: string): string {
    LeadingWS(line) + DIRECTIVE
  }

  lemma TrailingNext(c: Control, line: string)
    requires CanTrail(line)
    ensures InBlock(c, WithDirective(line)) == InBlock(c, line)
    ensures QuotesClosed(line) || InBlock(c, line) ==> Next(c, WithDirective(line)) == Next(c, line)
  {
    hide DIRECTIVE, Scan, CodeBeforeComment, Directive, AllSpace, IndentOf, BlockIndent, DISABLE, DISABLE_FILE,
      ENABLE, DISABLE_LINE, Code;
    TrailingLine(line);
    BlockIndentIgnoresBlank(line);
    DirectivesDiffer();
    PlainLine(line);
  }

  lemma PlainLine(line: string)
    requires Scan(line, 0, Unquoted).Ended?
    ensures Directive(line) == "" && Code(line) == line
  {
  }

  lemma {:induction false} TrailingRun(a: seq<string>, l: nat, i: nat)
    requires l < |a| && i <= |a| && CanTrail(a[l])
    requires i <= l || QuotesClosed(a[l]) || InBlock(Before(a, l), a[l])
    ensures Before(a[l := WithDirective(a[l])], i) == Before(a, i)
  {
    hide Next, CanTrail, InBlock, QuotesClosed;
    if i > 0 {
      TrailingRun(a, l, i - 1);
      if i - 1 == l {
        TrailingNext(Before(a, l), a[l]);
      }
    }
  }

  /** The control once the inserted line has been read. */
  lemma StandaloneNext(c: Control, line: string)
    ensures InBlock(c, OwnLine(line)) == (c.blockIndent >= 0 && IndentOf(line) > c.blockIndent)
    ensures Next(c, OwnLine(line)) == if InBlock(c, OwnLine(line)) then c else c.(blockIndent := -1)
  {
    hide DIRECTIVE, Scan, CodeBeforeComment, Directive, AllSpace, IndentOf, BlockIndent, DISABLE, DISABLE_FILE,
      ENABLE, DISABLE_LINE, Code;
    StandaloneLine(line);
    DirectivesDiffer();
  }

  function WithLine(a: seq<string>, l: nat): (b: seq<string>)
    requires l < |a|
    ensures |b| == |a| + 1
    ensures forall k :: 0 <= k < l ==> b[k] == a[k]
    ensures b[l] == OwnLine(a[l])
    ensures forall k :: l <= k < |a| ==> b[k + 1] == a[k]
  {
    a[..l] + [OwnLine(a[l])] + a[l..]
  }

  lemma NextOutside(c: Control, line: string)
    requires !InBlock(c, line)
    ensures !InBlock(c.(blockIndent := -1), line)
    ensures Next(c.(blockIndent := -1), line) == Next(c, line)
  {
  }

  lemma {:induction false} InsertedRun(a: seq<string>, l: nat, i: nat)
    requires l < i <= |a| && !InBlock(Before(a, l), a[l])
    ensures Before(WithLine(a, l), i + 1) == Before(a, i)
  {
    hide Next, InBlock, WithLine, OwnLine;
    var b := WithLine(a, l);
    if i == l + 1 {
      SameBefore(a, b, l);
      var c := Before(a, l);
      OutsideInserted(c, a[l]);
      assert Before(b, l + 1) == c.(blockIndent := -1);
      NextOutside(c, a[l]);
      assert Before(b, l + 2) == Next(Before(b, l + 1), b[l + 1]);
    } else {
      InsertedRun(a, l, i - 1);
      assert Before(b, i + 1) == Next(Before(b, i), b[i]);
    }
  }

  lemma OutsideInserted(c: Control, line: string)
    requires !InBlock(c, line)
    ensures !InBlock(c, OwnLine(line))
    ensures Next(c, OwnLine(line)) == c.(blockIndent := -1)
  {
    hide Next, OwnLine;
    StandaloneNext(c, line);
  }

  // --- the directive does its work ---

  /** A directive at the end of a line suppresses that line and no other. */
  lemma TrailingSuppresses(a: seq<string>, l: nat, j: nat)
    requires l < |a| && CanTrail(a[l]) && QuotesClosed(a[l]) && !InBlock(Before(a, l), a[l])
    ensures var b := a[l := WithDirective(a[l])];
            && Before(b, |b|) == Before(a, |a|)
            && LineSuppressed(b, l)
            && (j != l ==> LineSuppressed(b, j) == LineSuppressed(a, j))
  {
    hide Before, InBlock, CodeBeforeComment, Directive, WithDirective, DISABLE_LINE, CanTrail, Scan;
    var b := a[l := WithDirective(a[l])];
    TrailingRun(a, l, l);
    TrailingRun(a, l, |a|);
    TrailingFacts(Before(a, l), a[l]);
    DirectivesDiffer();
    if j < |a| {
      TrailingRun(a, l, j);
    }
    if 0 < j <= |a| {
      TrailingRun(a, l, j - 1);
    }
  }

  lemma TrailingFacts(c: Control, line: string)
    requires CanTrail(line) && QuotesClosed(line) && !InBlock(c, line)
    ensures !InBlock(c, WithDirective(line))
    ensures Directive(WithDirective(line)) == DISABLE_LINE && CodeBeforeComment(WithDirective(line))
    ensures Directive(line) == ""
  {
    hide InBlock, CodeBeforeComment, Directive, DISABLE_LINE, Scan;
    TrailingNext(c, line);
    TrailingLine(line);
    PlainLine(line);
  }

  /** A directive on a line of its own suppresses the line below and no other. */
  lemma StandaloneSuppresses(a: seq<string>, l: nat, j: nat)
    requires l < |a| && !InBlock(Before(a, l), a[l])
    ensures var b := WithLine(a, l);
            && Before(b, |b|) == Before(a, |a|)
            && LineSuppressed(b, l + 1)
            && (j < l ==> LineSuppressed(b, j) == LineSuppressed(a, j))
            && (j > l ==> LineSuppressed(b, j + 1) == LineSuppressed(a, j))
  {
    hide Before, InBlock, CodeBeforeComment, Directive, HasLineDirective, WithLine, OwnLine, DISABLE_LINE;
    var b := WithLine(a, l);
    InsertedRun(a, l, |a|);
    InsertedDirective(a, l);
    if j < l {
      SameBefore(a, b, j);
      KeptDirective(a, l, j);
      if j > 0 {
        KeptDirective(a, l, j - 1);
      }
    } else if l < j < |a| {
      InsertedRun(a, l, j);
      ShiftedDirective(a, l, j);
      ShiftedDirective(a, l, j - 1);
    }
  }

  /** The inserted line is read, and it has nothing before its comment. */
  lemma InsertedDirective(a: seq<string>, l: nat)
    requires l < |a| && !InBlock(Before(a, l), a[l])
    ensures HasLineDirective(WithLine(a, l), l) && !CodeBeforeComment(WithLine(a, l)[l])
  {
    hide InBlock, CodeBeforeComment, Directive, WithLine, OwnLine, DISABLE_LINE;
    SameBefore(a, WithLine(a, l), l);
    OutsideInserted(Before(a, l), a[l]);
    StandaloneFacts(a[l]);
  }

  /** Above the target, each line's directive counts as it did. */
  lemma KeptDirective(a: seq<string>, l: nat, j: nat)
    requires j < l < |a|
    ensures HasLineDirective(WithLine(a, l), j) == HasLineDirective(a, j)
  {
    hide InBlock, Directive, WithLine, OwnLine, DISABLE_LINE;
    SameBefore(a, WithLine(a, l), j);
  }

  lemma StandaloneFacts(line: string)
    ensures Directive(OwnLine(line)) == DISABLE_LINE && !CodeBeforeComment(OwnLine(line))
  {
    hide CodeBeforeComment, Directive, DISABLE_LINE, AllSpace, IndentOf, BlockIndent, Code;
    StandaloneLine(line);
  }

  /** From the target on, each line's directive counts as it did, one line further down. */
  lemma ShiftedDirective(a: seq<string>, l: nat, k: nat)
    requires l <= k < |a| && !InBlock(Before(a, l), a[l])
    ensures HasLineDirective(WithLine(a, l), k + 1) == HasLineDirective(a, k)
  {
    hide InBlock, Directive, WithLine, OwnLine, DISABLE_LINE, Next;
    var b := WithLine(a, l);
    if k == l {
      SameBefore(a, b, l);
      OutsideInserted(Before(a, l), a[l]);
      NextOutside(Before(a, l), a[l]);
      assert Before(b, l + 1) == Next(Before(b, l), b[l]);
    } else {
      InsertedRun(a, l, k);
    }
  }
}
