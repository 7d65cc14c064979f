/** The quick fix on whole texts: when it works, and exactly when it reaches its line. */
module FixWorks {
  import opened Strings
  import opened TextPositions
  import opened Suppressions
  import opened QuickFix
  import opened FixProofs

  function Stripped(text: string): seq<string> {
    StripCR(Lines(text))
  }

  lemma DirectiveEndsPlain()
    ensures |DIRECTIVE| > 0 && Last(DIRECTIVE) != '\r'
  {
    hide DIRECTIVE;
    DirectiveIsPlain();
    assert Last(DIRECTIVE) in DIRECTIVE;
  }

  lemma TrimAfter(x: string, rest: string)
    requires x != "" && Last(x) != '\r' && (rest == "" || rest == "\r")
    ensures TrimCR(x + rest) == x
  {
    if rest == "" {
      assert x + rest == x;
    } else {
      assert (x + rest)[..|x + rest| - 1] == x;
    }
  }

  lemma FixedTrailing(text: string, l: nat)
    requires l < |Lines(text)| && CanTrail(Stripped(text)[l])
    ensures Stripped(Fixed(text, l)) == Stripped(text)[l := WithDirective(Stripped(text)[l])]
  {
    hide Lines, Fixed, CanTrail, DIRECTIVE;
    var line, src := Lines(text)[l], SourceLine(text, l);
    TrailingEdit(text, l);
    TrimmedLine(line);
    DirectiveEndsPlain();
    TrimAfter(WithDirective(src), line[|src|..]);
  }

  lemma FixedStandalone(text: string, l: nat)
    requires l < |Lines(text)| && !CanTrail(Stripped(text)[l])
    ensures Stripped(Fixed(text, l)) == WithLine(Stripped(text), l)
  {
    hide Lines, Fixed, CanTrail, DIRECTIVE, LeadingWS;
    var src := SourceLine(text, l);
    InsertedEdit(text, l);
    DirectiveEndsPlain();
    TrimAfter(OwnLine(src), "");
    assert OwnLine(src) + "" == OwnLine(src);
    var b := Lines(text)[..l] + [OwnLine(src)] + Lines(text)[l..];
    forall k | 0 <= k < |b|
      ensures TrimCR(b[k]) == WithLine(Stripped(text), l)[k]
    {
      assert k > l ==> b[k] == Lines(text)[k - 1];
    }
  }

  /** The diagnostic is on a line the fix can serve: the line is not inside an open block
      scalar, and the search for its comment does not end inside quotes. */
  predicate Fixable(text: string, l: nat) {
    && l < |Lines(text)|
    && !InBlock(Before(Stripped(text), l), Stripped(text)[l])
    && (Scan(Stripped(text)[l], 0, Unquoted).Ended? ==> QuotesClosed(Stripped(text)[l]))
  }

  /** The fix suppresses its line and leaves every other line as it was, in texts with LF
      and with CR LF. A directive on a line of its own moves the lines below down by one. */
  lemma QuickFixWorks(text: string, l: nat, j: nat)
    requires Fixable(text, l)
    ensures var after := Fixed(text, l);
            if CanTrail(SourceLine(text, l)) then
              TextSuppresses(after, l) && (j != l ==> TextSuppresses(after, j) == TextSuppresses(text, j))
            else
              && TextSuppresses(after, l + 1)
              && (j < l ==> TextSuppresses(after, j) == TextSuppresses(text, j))
              && (j > l ==> TextSuppresses(after, j + 1) == TextSuppresses(text, j))
  {
    hide Lines, Fixed, CanTrail, InBlock, LineSuppressed, Before, Scan, WithLine, WithDirective;
    if CanTrail(SourceLine(text, l)) {
      ClosedWhenTrailing(SourceLine(text, l));
      FixedTrailing(text, l);
      TrailingSuppresses(Stripped(text), l, j);
    } else {
      FixedStandalone(text, l);
      StandaloneSuppresses(Stripped(text), l, j);
    }
  }

  lemma ClosedWhenTrailing(line: string)
    requires CanTrail(line)
    ensures Scan(line, 0, Unquoted).Ended?
  {
  }

  // --- exactly when the directive counts ---

  lemma BlankCommentOpensNothing(line: string)
    requires Scan(line, 0, Unquoted).Found? && !CodeBeforeComment(line)
    ensures BlockIndent(Code(line)) == -1
  {
    hide Scan, BlockIndent, CodeBeforeComment;
    CodeBeforeCommentIs(line);
    var b := Blanks(line);
    ScanSkipsBlanks(line, b);
    if b == |line| {
      ScanEnd(line, b, Unquoted);
    } else {
      ScanOne(line, b, Unquoted);
    }
    BlanksOpenNothing(line[..b]);
  }

  lemma NoTokenNoDirective()
    ensures DISABLE_LINE != ""
  {
  }

  /** After a directive on a line of its own, no block scalar is open. */
  lemma DirectiveClosesBlocks(a: seq<string>, i: nat)
    requires i < |a| && HasLineDirective(a, i) && !CodeBeforeComment(a[i])
    ensures Before(a, i + 1).blockIndent == -1
  {
    hide Scan, BlockIndent, CodeBeforeComment, InBlock, DISABLE, DISABLE_FILE, ENABLE, DISABLE_LINE, FirstToken;
    NoTokenNoDirective();
    assert Scan(a[i], 0, Unquoted).Found?;
    BlankCommentOpensNothing(a[i]);
    assert Before(a, i + 1) == Next(Before(a, i), a[i]);
  }

  /** At the end of its line, the directive counts if and only if the line is not inside a
      block scalar and its quotes are closed. */
  lemma TrailingExact(a: seq<string>, l: nat)
    requires l < |a| && CanTrail(a[l])
    ensures var b := a[l := WithDirective(a[l])];
            LineSuppressed(b, l) <==>
              (!InBlock(Before(a, l), a[l]) && QuotesClosed(a[l])) || LineSuppressed(a, l)
  {
    hide Before, InBlock, CodeBeforeComment, Directive, WithDirective, DISABLE_LINE, CanTrail, Scan;
    var b := a[l := WithDirective(a[l])];
    TrailingRun(a, l, l);
    TrailingDirectiveExact(Before(a, l), a[l]);
    if l > 0 {
      TrailingRun(a, l, l - 1);
    }
  }

  lemma TrailingDirectiveExact(c: Control, line: string)
    requires CanTrail(line)
    ensures InBlock(c, WithDirective(line)) == InBlock(c, line)
    ensures Directive(WithDirective(line)) == DISABLE_LINE <==> QuotesClosed(line)
    ensures CodeBeforeComment(WithDirective(line))
    ensures Directive(line) != DISABLE_LINE
  {
    hide InBlock, CodeBeforeComment, Directive, DISABLE_LINE, Scan;
    NoTokenNoDirective();
    TrailingNext(c, line);
    TrailingLine(line);
    PlainLine(line);
  }

  /** On a line of its own, the directive counts if and only if its indent keeps it out of
      an open block scalar. */
  lemma StandaloneExact(a: seq<string>, l: nat)
    requires l < |a|
    ensures var c := Before(a, l);
            LineSuppressed(WithLine(a, l), l + 1) <==>
              !(c.blockIndent >= 0 && IndentOf(a[l]) > c.blockIndent) || LineSuppressed(a, l)
  {
    hide Before, InBlock, CodeBeforeComment, Directive, WithLine, OwnLine, DISABLE_LINE, Next, IndentOf;
    var b, c := WithLine(a, l), Before(a, l);
    SameBefore(a, b, l);
    StandaloneNext(c, a[l]);
    StandaloneFacts(a[l]);
    BeforeNext(b, l);
    if InBlock(c, b[l]) && l > 0 && HasLineDirective(a, l - 1) && !CodeBeforeComment(a[l - 1]) {
      DirectiveClosesBlocks(a, l - 1);
    }
    assert HasLineDirective(b, l) <==> !InBlock(c, b[l]);
    assert InBlock(c, b[l]) ==> HasLineDirective(b, l + 1) == HasLineDirective(a, l);
  }

  lemma BeforeNext(a: seq<string>, i: nat)
    requires i < |a|
    ensures Before(a, i + 1) == Next(Before(a, i), a[i])
  {
  }

  /** A diagnostic whose line is no longer in the text gets its directive at the text's end. */
  lemma StaleLineAppends(text: string, l: nat)
    requires l >= |Lines(text)|
    ensures Fixed(text, l) == text + DIRECTIVE + "\n"
  {
    hide Lines, DIRECTIVE;
    assert LeadingWS("") == "";
    assert Fixed(text, l) == text[..|text|] + ("" + DIRECTIVE + "\n") + text[|text|..];
    assert text[..|text|] == text && text[|text|..] == "";
    assert "" + DIRECTIVE == DIRECTIVE;
  }
}
