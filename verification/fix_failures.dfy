/** Two texts on which the quick fix goes wrong. In one, an unclosed quote is followed by what
    looks like the header of a block scalar: the appended directive is text to the scanner,
    but it hides the header, and the lines below are read. In the other, the line is an empty
    one of a block scalar, and the inserted directive ends the scalar for the scanner. */
module FixFailures {
  import opened FixExact
  import opened FixProofs
  import opened FixRest
  import opened FixWorks
  import Options
  import opened QuickFix
  import opened Strings
  import opened SuppressionRules
  import opened Suppressions
  import opened TextPositions

  const QUOTED := "a: \"b: |"

  const HIDDEN := "  # " + DISABLE_FILE

  lemma QuotedStarts()
    ensures |QUOTED| == 8 && AtTokenStart(QUOTED, 3)
  {
    assert QUOTED[..3] == "a: ";
    assert QUOTED[..3][..2] == "a:" && TrimmedLength("a:") == 2;
    assert TrimmedLength(QUOTED[..3]) == 2;
  }

  /** The quote after the first colon is never closed. */
  lemma QuotedScan()
    ensures Scan(QUOTED, 0, Unquoted) == Ended(Double)
  {
    hide Scan, AtTokenStart;
    QuotedStarts();
    ScanOne(QUOTED, 0, Unquoted);
    ScanOne(QUOTED, 1, Unquoted);
    ScanOne(QUOTED, 2, Unquoted);
    ScanOne(QUOTED, 3, Unquoted);
    QuotedToTheEnd(QUOTED, 4, Double);
  }

  /** For the block scalar rule, which does not look at quotes, the line is a key with a
      header. */
  lemma QuotedHeader()
    ensures BlockIndent(QUOTED) == 0 && CanTrail(QUOTED) && !QuotesClosed(QUOTED)
  {
    QuotedScan();
    hide Scan;
    assert TrimRight(QUOTED) == QUOTED;
    assert QUOTED[7..] == "|" && QUOTED[6..] == " |" && QUOTED[5..] == ": |";
    assert HeaderStart(QUOTED) == Options.Some(7);
    var head := QUOTED[..7];
    assert head[..6] == "a: \"b:" && TrimmedLength(head[..6]) == 6;
    assert TrimmedLength(head) == 6;
    assert !IsSpace(QUOTED[0]);
  }

  lemma HiddenIndent()
    ensures IndentOf(HIDDEN) == 2 && !AllSpace(HIDDEN)
  {
    hide DISABLE_FILE;
    assert HIDDEN[0] == ' ' && HIDDEN[1] == ' ' && HIDDEN[2] == '#';
    SpacesAre(HIDDEN, 0, 2);
  }

  lemma HiddenComment()
    ensures Scan(HIDDEN, 0, Unquoted) == Found(2) && HIDDEN[3..] == " " + DISABLE_FILE
  {
    hide Scan, DISABLE_FILE;
    assert HIDDEN[0] == ' ' && HIDDEN[1] == ' ' && HIDDEN[2] == '#';
    ScanSkipsBlanks(HIDDEN, 2);
    ScanOne(HIDDEN, 2, Unquoted);
  }

  lemma HiddenScan()
    ensures Directive(HIDDEN) == DISABLE_FILE && IndentOf(HIDDEN) == 2 && !AllSpace(HIDDEN)
  {
    hide Scan, DISABLE_FILE, IndentOf, AllSpace, HIDDEN;
    HiddenIndent();
    HiddenComment();
    FileDirectiveIsPlain();
    TokenIsWhole(DISABLE_FILE);
    var rest := " " + DISABLE_FILE;
    assert rest[1..] == DISABLE_FILE;
    assert FirstToken(DISABLE_FILE) == TokenPrefix(DISABLE_FILE);
    assert FirstToken(rest) == FirstToken(rest[1..]);
  }

  lemma FileDirectiveIsPlain()
    ensures DISABLE_FILE != "" && forall k :: 0 <= k < |DISABLE_FILE| ==> !IsSpace(DISABLE_FILE[k])
  {
    assert forall k :: 0 <= k < |DISABLE_FILE| ==> 'a' <= DISABLE_FILE[k] <= 'z' || DISABLE_FILE[k] == '-';
  }

  function TwoLines(): seq<string> { [QUOTED, HIDDEN] }

  /** As it is, the second line is in a block scalar, and nothing is suppressed. */
  lemma NothingSuppressed()
    ensures !Suppresses(TwoLines(), 0) && !Suppresses(TwoLines(), 1)
    ensures !InBlock(Before(TwoLines(), 0), QUOTED)
  {
    hide QUOTED, HIDDEN, Scan, BlockIndent, IndentOf, AllSpace, Directive, CodeBeforeComment, Before, DISABLE,
      ENABLE, DISABLE_FILE, DISABLE_LINE;
    var a := TwoLines();
    BeforeNext(a, 0);
    BeforeNext(a, 1);
    StartsFree(a);
    QuotedScan();
    QuotedHeader();
    PlainLine(QUOTED);
    HiddenScan();
    DirectivesDiffer();
  }

  lemma StartsFree(a: seq<string>)
    ensures Before(a, 0) == START
  {
  }

  /** Once the first line has the directive, the second is read and suppresses everything. */
  lemma EverythingSuppressed()
    ensures var b := TwoLines()[0 := WithDirective(QUOTED)]; Suppresses(b, 0) && Suppresses(b, 1)
  {
    hide QUOTED, HIDDEN, Scan, BlockIndent, IndentOf, AllSpace, Directive, CodeBeforeComment, Before, WithDirective,
      CanTrail, QuotesClosed,
      DISABLE, ENABLE, DISABLE_FILE, DISABLE_LINE;
    var b := TwoLines()[0 := WithDirective(QUOTED)];
    BeforeNext(b, 0);
    BeforeNext(b, 1);
    StartsFree(b);
    QuotedHeader();
    OpenQuotesNext(START, QUOTED);
    HiddenScan();
    DirectivesDiffer();
  }

  lemma TextHasTwoLines()
    ensures Stripped(QUOTED + "\n" + HIDDEN) == TwoLines() && |Lines(QUOTED + "\n" + HIDDEN)| == 2
  {
    hide Lines;
    LinesConcat(QUOTED + "\n", HIDDEN);
    NoBreaks();
    LineBreakAfter(QUOTED);
    LinesOfLine(HIDDEN);
    assert "" + HIDDEN == HIDDEN;
    assert Lines(QUOTED + "\n" + HIDDEN) == TwoLines();
  }

  lemma NoBreaks()
    ensures '\n' !in QUOTED && '\n' !in HIDDEN
    ensures Last(QUOTED) != '\r' && Last(HIDDEN) != '\r'
  {
  }

  /** The fix on the first line does not do its work: neither line was suppressed, and
      afterwards both are. */
  lemma FixSuppressesTooMuch()
    ensures var text := QUOTED + "\n" + HIDDEN;
            && |Lines(text)| == 2
            && !TextSuppresses(text, 0) && !TextSuppresses(text, 1)
            && TextSuppresses(Fixed(text, 0), 0) && TextSuppresses(Fixed(text, 0), 1)
            && !FixDoesItsWork(text, 0)
  {
    hide QUOTED, HIDDEN, Lines, Fixed, Before, LineSuppressed, WithDirective, CanTrail, QuotesClosed, InBlock;
    var text := QUOTED + "\n" + HIDDEN;
    TextHasTwoLines();
    NothingSuppressed();
    EverythingSuppressed();
    QuotedHeader();
    FixedTrailing(text, 0);
    SuppressesText(text);
    SuppressesText(Fixed(text, 0));
  }

  // --- an empty line of a block scalar ---

  const HEADER := "a: |"

  /** The same directive, now hidden in a block scalar below an empty line. */
  function ThreeLines(): seq<string> { [HEADER, "", HIDDEN] }

  lemma HeaderOpens()
    ensures BlockIndent(Code(HEADER)) == 0 && Directive(HEADER) == "" && !AllSpace(HEADER)
  {
    hide AtTokenStart;
    NoQuotesInHeader();
    PlainLine(HEADER);
    assert TrimRight(HEADER) == HEADER;
    assert HEADER[3..] == "|" && HEADER[2..] == " |" && HEADER[1..] == ": |";
    assert HeaderStart(HEADER) == Options.Some(3);
    var head := HEADER[..3];
    assert head[..2] == "a:" && TrimmedLength(head[..2]) == 2;
    assert TrimmedLength(head) == 2;
    assert !IsSpace(HEADER[0]);
  }

  lemma NoQuotesInHeader()
    ensures Scan(HEADER, 0, Unquoted) == Ended(Unquoted)
  {
    hide Scan, AtTokenStart;
    ScanOne(HEADER, 0, Unquoted);
    ScanOne(HEADER, 1, Unquoted);
    ScanOne(HEADER, 2, Unquoted);
    ScanOne(HEADER, 3, Unquoted);
    ScanEnds(HEADER, 4, Unquoted);
  }

  lemma ScanEnds(s: string, i: nat, quote: Quote)
    requires i >= |s|
    ensures Scan(s, i, quote) == Ended(quote)
  {
  }

  /** The empty line is in the scalar and on, and so is the hidden directive. */
  lemma EmptyLineIsOn()
    ensures BlankInBlock(ThreeLines(), 1) && !CanTrail("")
    ensures !Suppresses(ThreeLines(), 0) && !Suppresses(ThreeLines(), 1)
    ensures Before(ThreeLines(), 1) == Before(ThreeLines(), 2) == Control(false, 0, false)
  {
    hide HEADER, HIDDEN, Scan, BlockIndent, Directive, Code, CodeBeforeComment, Before, DISABLE, ENABLE,
      DISABLE_FILE, DISABLE_LINE;
    var a := ThreeLines();
    BeforeNext(a, 0);
    BeforeNext(a, 1);
    BeforeNext(a, 2);
    StartsFree(a);
    HeaderOpens();
    HiddenScan();
    DirectivesDiffer();
  }

  lemma HiddenIsHarmful()
    ensures !RestIsHarmless(ThreeLines(), 1)
  {
    hide HEADER, HIDDEN, Scan, Directive, Before, DISABLE, ENABLE, DISABLE_FILE, DISABLE_LINE, IndentOf, AllSpace,
      CodeBeforeComment,
      LineSuppressed, BlockIndent, Code;
    var a := ThreeLines();
    EmptyLineIsOn();
    HiddenScan();
    assert Below(a, 1) == [HIDDEN];
    assert RestLength(a, 1) == 1;
    StartsFree(Below(a, 1));
    assert Sees(Below(a, 1), 0, DISABLE_FILE);
    assert !Harmless(a, 1, 0);
  }

  lemma TextHasThreeLines()
    ensures Stripped(HEADER + "\n\n" + HIDDEN) == ThreeLines() && |Lines(HEADER + "\n\n" + HIDDEN)| == 3
  {
    hide Lines, HIDDEN, HEADER;
    var two := HEADER + "\n";
    assert HEADER + "\n\n" + HIDDEN == two + ("\n" + HIDDEN);
    NoBreaks();
    NoBreakInHeader();
    LineBreakAfter(HEADER);
    LineBreakAfter("");
    assert "" + "\n" == "\n";
    LinesOfLine(HIDDEN);
    LinesConcat("\n", HIDDEN);
    assert "" + HIDDEN == HIDDEN;
    assert Lines("\n" + HIDDEN) == ["", HIDDEN];
    LinesConcat(two, "\n" + HIDDEN);
    assert "" + "" == "";
    assert Lines(HEADER + "\n\n" + HIDDEN) == ThreeLines();
  }

  lemma NoBreakInHeader()
    ensures '\n' !in HEADER && Last(HEADER) != '\r'
  {
  }

  /** Below the inserted line the hidden directive is read. */
  lemma HiddenIsRead()
    ensures Suppresses(WithLine(ThreeLines(), 1), 0)
  {
    hide HEADER, HIDDEN, Directive, Before, DISABLE, ENABLE, DISABLE_FILE, DISABLE_LINE, IndentOf, AllSpace,
      LineSuppressed, BlockIndent,
      Code, BlankInBlock, WithLine;
    var a := ThreeLines();
    EmptyLineIsOn();
    HiddenScan();
    DirectivesDiffer();
    assert Below(a, 1) == [HIDDEN];
    StartsFree(Below(a, 1));
    BeforeNext(Below(a, 1), 0);
    FreshRun(a, 1, 1);
  }

  /** The fix on the empty second line does not do its work: the lines were on, and
      afterwards the whole file is suppressed. */
  lemma FixEndsScalar()
    ensures var text := HEADER + "\n\n" + HIDDEN;
            && |Lines(text)| == 3
            && !TextSuppresses(text, 0) && !TextSuppresses(text, 1)
            && TextSuppresses(Fixed(text, 1), 0)
            && !FixDoesItsWork(text, 1)
  {
    hide HEADER, HIDDEN, Lines, Fixed, Before, LineSuppressed, InBlock, BlankInBlock, RestIsHarmless, FixDoesItsWork,
      WithLine, CanTrail;
    var text := HEADER + "\n\n" + HIDDEN;
    TextHasThreeLines();
    EmptyLineIsOn();
    HiddenIsHarmful();
    HiddenIsRead();
    SuppressesText(text);
    FixedStandalone(text, 1);
    SuppressesText(Fixed(text, 1));
    FixOnLines(text, 1);
    OwnLineWorksInBlock(ThreeLines(), 1);
  }
}
