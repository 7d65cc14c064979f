/** Exactly when the quick fix does its work on a line that is not suppressed yet: the line
    becomes suppressed, file-wide suppression included, and every other line stays as it was. */
module FixExact {
  import opened FixProofs
  import opened FixRest
  import opened FixWorks
  import opened QuickFix
  import opened Strings
  import opened SuppressionRules
  import opened Suppressions
  import opened TextPositions

  predicate Suppresses(a: seq<string>, j: nat) {
    Before(a, |a|).fileWide || LineSuppressed(a, j)
  }

  /** Ending line l in a directive suppresses it and changes no other line. */
  ghost predicate TrailingWorks(a: seq<string>, l: nat)
    requires l < |a|
  {
    var b := a[l := WithDirective(a[l])];
    Suppresses(b, l) && forall j: nat :: j < |a| && j != l ==> Suppresses(b, j) == Suppresses(a, j)
  }

  /** A directive on a line of its own above line l suppresses it, now one line further
      down, and changes no other line. */
  ghost predicate OwnLineWorks(a: seq<string>, l: nat)
    requires l < |a|
  {
    var b := WithLine(a, l);
    && Suppresses(b, l + 1)
    && (forall j: nat :: j < l ==> Suppresses(b, j) == Suppresses(a, j))
    && forall j: nat :: l < j < |a| ==> Suppresses(b, j + 1) == Suppresses(a, j)
  }

  lemma {:induction false} FileWideStays(a: seq<string>, i: nat)
    requires i <= |a| && !Before(a, |a|).fileWide
    ensures !Before(a, i).fileWide
    decreases |a| - i
  {
    hide InBlock, Directive, BlockIndent, Code, DISABLE, ENABLE, DISABLE_FILE;
    if i < |a| {
      FileWideStays(a, i + 1);
    }
  }

  /** Before a line that is not suppressed, nothing is blocked or file-wide. */
  lemma NothingOn(a: seq<string>, l: nat)
    requires l < |a| && !Suppresses(a, l)
    ensures !Before(a, l).blocked && !Before(a, l).fileWide
  {
    hide Before, HasLineDirective;
    FileWideStays(a, l);
  }

  // --- a directive at the end of the line ---

  lemma HeaderTail(h: string)
    requires IsHeader(h)
    ensures !('a' <= Last(h) <= 'z')
  {
  }

  lemma NoHeaderAtEnd(s: string)
    requires s != "" && 'a' <= Last(s) <= 'z'
    ensures BlockIndent(s) == -1
  {
    hide IsHeader, PastDashes, OpensAfter;
    assert TrimRight(s) == s;
    forall k | 0 <= k < |s|
      ensures !IsHeader(s[k..])
    {
      assert Last(s[k..]) == Last(s);
      if IsHeader(s[k..]) {
        HeaderTail(s[k..]);
      }
    }
  }

  lemma DirectiveLast()
    ensures |DIRECTIVE| > 0 && 'a' <= Last(DIRECTIVE) <= 'z'
  {
  }

  /** With its quotes open, a line takes the directive as text: it opens no block scalar,
      and has no directive, with or without it. */
  lemma OpenQuotesNext(c: Control, line: string)
    requires CanTrail(line) && !QuotesClosed(line) && !InBlock(c, line)
    ensures Next(c, line) == c.(blockIndent := BlockIndent(line))
    ensures Next(c, WithDirective(line)) == c.(blockIndent := -1)
    ensures Directive(line) == "" && Directive(WithDirective(line)) == ""
  {
    hide DIRECTIVE, Scan, CodeBeforeComment, AllSpace, IndentOf, BlockIndent, DISABLE, DISABLE_FILE, ENABLE, FirstToken;
    DirectivesDiffer();
    PlainLine(line);
    TrailingLine(line);
    TrailingNext(c, line);
    DirectiveLast();
    assert Last(WithDirective(line)) == Last(DIRECTIVE);
    NoHeaderAtEnd(WithDirective(line));
    StillQuoted(line);
    PlainLine(WithDirective(line));
  }

  lemma StillQuoted(line: string)
    requires Scan(line, 0, Unquoted).Ended? && !QuotesClosed(line)
    ensures Scan(WithDirective(line), 0, Unquoted).Ended?
  {
    hide DIRECTIVE, Scan;
    DirectiveIsPlain();
    ScanOfLonger(line, " " + DIRECTIVE, 0, Unquoted);
  }

  lemma {:induction false} SameFrom(a: seq<string>, b: seq<string>, m: nat, i: nat)
    requires m <= i <= |a| == |b| && Before(a, m) == Before(b, m)
    requires forall k :: m <= k < |a| ==> a[k] == b[k]
    ensures Before(a, i) == Before(b, i)
    decreases i
  {
    hide Next;
    if i > m {
      SameFrom(a, b, m, i - 1);
    }
  }

  /** If the directive, taken as text, makes anything file-wide, then the next line was in a
      block scalar that line l opened, and it was not suppressed. */
  lemma OpenQuotesLeak(a: seq<string>, l: nat)
    requires l < |a| && CanTrail(a[l]) && !QuotesClosed(a[l]) && !InBlock(Before(a, l), a[l]) && !Suppresses(a, l)
    requires var b := a[l := WithDirective(a[l])]; Before(b, |b|).fileWide
    ensures l + 1 < |a| && !Suppresses(a, l + 1)
  {
    hide Next, InBlock, Directive, CanTrail, QuotesClosed, WithDirective, CodeBeforeComment, Before, LineSuppressed;
    var b, c := a[l := WithDirective(a[l])], Before(a, l);
    NothingOn(a, l);
    SameBefore(a, b, l);
    OpenQuotesNext(c, a[l]);
    BeforeNext(a, l);
    BeforeNext(b, l);
    assert Before(b, l + 1) == c.(blockIndent := -1);
    if l + 1 < |a| {
      BeforeNext(a, l + 1);
      BeforeNext(b, l + 1);
      if !InBlock(Before(a, l + 1), a[l + 1]) {
        NextOutside(Before(a, l + 1), a[l + 1]);
        assert Before(a, l + 2) == Before(b, l + 2);
        SameFrom(a, b, l + 2, |a|);
      } else {
        NextUnsuppressed(a, l);
      }
    }
  }

  lemma NextUnsuppressed(a: seq<string>, l: nat)
    requires l + 1 < |a| && !Suppresses(a, l) && Directive(a[l]) == ""
    requires !Before(a, l + 1).blocked && InBlock(Before(a, l + 1), a[l + 1])
    ensures !Suppresses(a, l + 1)
  {
    hide Before, InBlock, Directive, CodeBeforeComment, DISABLE_LINE;
    NoTokenNoDirective();
  }

  lemma TrailingFailsOpenQuotes(a: seq<string>, l: nat)
    requires l < |a| && CanTrail(a[l]) && !QuotesClosed(a[l]) && !InBlock(Before(a, l), a[l]) && !Suppresses(a, l)
    ensures !TrailingWorks(a, l)
  {
    hide InBlock, CanTrail, QuotesClosed, WithDirective, Before, LineSuppressed;
    var b := a[l := WithDirective(a[l])];
    TrailingExact(a, l);
    if Before(b, |b|).fileWide {
      OpenQuotesLeak(a, l);
      assert Suppresses(b, l + 1) != Suppresses(a, l + 1);
    }
  }

  lemma TrailingFailsInBlock(a: seq<string>, l: nat)
    requires l < |a| && CanTrail(a[l]) && InBlock(Before(a, l), a[l]) && !Suppresses(a, l)
    ensures !TrailingWorks(a, l)
  {
    hide InBlock, CanTrail, QuotesClosed, WithDirective, Before, LineSuppressed;
    TrailingExact(a, l);
    TrailingRun(a, l, |a|);
  }

  lemma TrailingDoesWork(a: seq<string>, l: nat)
    requires l < |a| && CanTrail(a[l]) && QuotesClosed(a[l]) && !InBlock(Before(a, l), a[l])
    ensures TrailingWorks(a, l)
  {
    hide InBlock, CanTrail, QuotesClosed, WithDirective, Before, LineSuppressed;
    var b := a[l := WithDirective(a[l])];
    TrailingSuppresses(a, l, l);
    forall j: nat | j < |a| && j != l
      ensures Suppresses(b, j) == Suppresses(a, j)
    {
      TrailingSuppresses(a, l, j);
    }
  }

  // --- a directive on a line of its own ---

  /** Inside a block scalar and as deep as its lines, the inserted line is one of them. */
  lemma {:induction false} SkippedRun(a: seq<string>, l: nat, i: nat)
    requires l <= i <= |a| && l < |a| && InBlock(Before(a, l), OwnLine(a[l]))
    ensures Before(WithLine(a, l), i + 1) == Before(a, i)
    decreases i
  {
    hide Next, InBlock, WithLine, OwnLine;
    var b := WithLine(a, l);
    SameBefore(a, b, l);
    if i == l {
      BeforeNext(b, l);
      SkippedLine(Before(a, l), OwnLine(a[l]));
    } else {
      SkippedRun(a, l, i - 1);
      BeforeNext(b, i);
      BeforeNext(a, i - 1);
    }
  }

  lemma OwnLineFailsInBlock(a: seq<string>, l: nat)
    requires l < |a| && !Suppresses(a, l)
    requires Before(a, l).blockIndent >= 0 && IndentOf(a[l]) > Before(a, l).blockIndent
    ensures !OwnLineWorks(a, l)
  {
    hide InBlock, WithLine, OwnLine, Before, LineSuppressed, IndentOf, Next;
    StandaloneExact(a, l);
    StandaloneNext(Before(a, l), a[l]);
    SkippedRun(a, l, |a|);
  }

  lemma OwnLineDoesWork(a: seq<string>, l: nat)
    requires l < |a| && !InBlock(Before(a, l), a[l])
    ensures OwnLineWorks(a, l)
  {
    hide InBlock, WithLine, Before, LineSuppressed;
    var b := WithLine(a, l);
    StandaloneSuppresses(a, l, l);
    forall j: nat | j < l
      ensures Suppresses(b, j) == Suppresses(a, j)
    {
      StandaloneSuppresses(a, l, j);
    }
    forall j: nat | l < j < |a|
      ensures Suppresses(b, j + 1) == Suppresses(a, j)
    {
      StandaloneSuppresses(a, l, j);
    }
  }

  // --- an empty line inside a block scalar ---

  lemma PrefixSuppressed(a: seq<string>, b: seq<string>, l: nat, j: nat)
    requires j < l <= |a| && l <= |b| && forall k :: 0 <= k < l ==> a[k] == b[k]
    ensures LineSuppressed(b, j) == LineSuppressed(a, j)
  {
    hide Before, InBlock, Directive, CodeBeforeComment;
    SameBefore(a, b, j);
    if j > 0 {
      SameBefore(a, b, j - 1);
    }
  }

  lemma BlankIsReached(a: seq<string>, l: nat)
    requires l < |a| && BlankInBlock(a, l)
    ensures !(Before(a, l).blockIndent >= 0 && IndentOf(a[l]) > Before(a, l).blockIndent)
  {
  }

  /** The fix on such a line works if the lines below it are suppressed as before. */
  lemma SameBelowWorks(a: seq<string>, l: nat)
    requires l < |a| && !Suppresses(a, l) && BlankInBlock(a, l) && SameBelow(a, l)
    ensures OwnLineWorks(a, l)
  {
    hide InBlock, WithLine, BlankInBlock, Before, LineSuppressed, IndentOf, Below, SameBelow;
    var b, r := WithLine(a, l), Below(a, l);
    NothingOn(a, l);
    FreshRun(a, l, |r|);
    SameFile(a, l);
    BlankIsReached(a, l);
    StandaloneExact(a, l);
    forall j: nat | j < l
      ensures LineSuppressed(b, j) == LineSuppressed(a, j)
    {
      PrefixSuppressed(a, b, l, j);
    }
    forall j: nat | l < j < |a|
      ensures LineSuppressed(b, j + 1) == LineSuppressed(a, j)
    {
      FreshLine(a, l, j - l - 1);
      SameAt(a, l, j - l - 1);
    }
  }

  lemma SameFile(a: seq<string>, l: nat)
    requires l < |a| && SameBelow(a, l)
    ensures !Before(Below(a, l), |Below(a, l)|).fileWide
  {
  }

  lemma WorksAt(a: seq<string>, l: nat, j: nat)
    requires l < j < |a| && OwnLineWorks(a, l)
    ensures Suppresses(WithLine(a, l), j + 1) == Suppresses(a, j)
  {
    hide Suppresses, WithLine;
  }

  lemma WorksSameBelow(a: seq<string>, l: nat)
    requires l < |a| && !Suppresses(a, l) && BlankInBlock(a, l) && OwnLineWorks(a, l)
    ensures SameBelow(a, l)
  {
    hide InBlock, WithLine, BlankInBlock, Before, LineSuppressed, IndentOf, Below, RestLength, SaysFile,
      OwnLineWorks;
    var b, r := WithLine(a, l), Below(a, l);
    NothingOn(a, l);
    FreshRun(a, l, |r|);
    FileFromRest(a, l);
    if k: nat :| SaysFile(r, RestLength(a, l), k) {
      NotInEmpty(r, RestLength(a, l), k);
      WorksAt(a, l, l + 1);
      RestIsOn(a, l, 0);
    }
    forall i: nat | i < |r|
      ensures LineSuppressed(r, i) == LineSuppressed(a, l + 1 + i)
    {
      FreshLine(a, l, i);
      WorksAt(a, l, l + 1 + i);
    }
  }

  lemma NotInEmpty(r: seq<string>, e: nat, k: nat)
    requires e <= |r| && SaysFile(r, e, k)
    ensures e > 0
  {
  }

  /** The fix on an empty line of a block scalar, no deeper than the scalar's parent, works if
      and only if the rest of the scalar, now read by the scanner, is harmless. */
  lemma OwnLineWorksInBlock(a: seq<string>, l: nat)
    requires l < |a| && !Suppresses(a, l) && BlankInBlock(a, l)
    ensures OwnLineWorks(a, l) <==> RestIsHarmless(a, l)
  {
    hide WithLine, BlankInBlock, Before, LineSuppressed, RestIsHarmless, SameBelow, OwnLineWorks;
    NothingOn(a, l);
    HarmlessIff(a, l);
    if OwnLineWorks(a, l) {
      WorksSameBelow(a, l);
    }
    if SameBelow(a, l) {
      SameBelowWorks(a, l);
    }
  }

  /** The rest of the scalar holds nothing that reads as a disabling directive. */
  ghost predicate RestIsPlain(a: seq<string>, l: nat)
    requires l < |a|
  {
    forall k: nat :: k < RestLength(a, l) ==>
      var d := Directive(Below(a, l)[k]);
      d != DISABLE && d != DISABLE_FILE && d != DISABLE_LINE
  }

  /** In particular such a rest is harmless. */
  lemma PlainRestIsHarmless(a: seq<string>, l: nat)
    requires l < |a| && RestIsPlain(a, l)
    ensures RestIsHarmless(a, l)
  {
    hide Before, InBlock, Below, RestLength, Directive, CodeBeforeComment, LineSuppressed, DISABLE, DISABLE_FILE,
      DISABLE_LINE;
  }

  // --- whole texts ---

  /** The fix does its work: afterwards the line is suppressed, and every other line of the
      text is suppressed or not as before. */
  ghost predicate FixDoesItsWork(text: string, l: nat)
    requires l < |Lines(text)|
  {
    var after, n := Fixed(text, l), |Lines(text)|;
    if CanTrail(SourceLine(text, l)) then
      && TextSuppresses(after, l)
      && forall j: nat :: j < n && j != l ==> TextSuppresses(after, j) == TextSuppresses(text, j)
    else
      && TextSuppresses(after, l + 1)
      && (forall j: nat :: j < l ==> TextSuppresses(after, j) == TextSuppresses(text, j))
      && forall j: nat :: l < j < n ==> TextSuppresses(after, j + 1) == TextSuppresses(text, j)
  }

  lemma FixOnLines(text: string, l: nat)
    requires l < |Lines(text)|
    ensures CanTrail(Stripped(text)[l]) ==> (FixDoesItsWork(text, l) <==> TrailingWorks(Stripped(text), l))
    ensures !CanTrail(Stripped(text)[l]) ==> (FixDoesItsWork(text, l) <==> OwnLineWorks(Stripped(text), l))
  {
    hide Lines, Fixed, CanTrail, LineSuppressed, Before, WithLine, WithDirective;
    var a := Stripped(text);
    SuppressesText(text);
    SuppressesText(Fixed(text, l));
    if CanTrail(a[l]) {
      FixedTrailing(text, l);
    } else {
      FixedStandalone(text, l);
    }
  }

  lemma SuppressesText(text: string)
    ensures forall j: nat :: TextSuppresses(text, j) == Suppresses(Stripped(text), j)
  {
    hide Lines, LineSuppressed, Before;
  }

  /** For a line that is not suppressed yet. A trailing directive does its work if and only
      if the line is not inside a block scalar and its quotes are closed. A directive on a
      line of its own does if and only if the line is not inside a block scalar, or is an
      empty line of one, no deeper than its parent, and the rest of the scalar is harmless. */
  lemma QuickFixExact(text: string, l: nat)
    requires l < |Lines(text)| && !TextSuppresses(text, l)
    ensures var a, src := Stripped(text), SourceLine(text, l);
            var inBlock := InBlock(Before(a, l), src);
            FixDoesItsWork(text, l) <==>
              if CanTrail(src) then !inBlock && QuotesClosed(src)
              else !inBlock || (BlankInBlock(a, l) && RestIsHarmless(a, l))
  {
    hide Lines, FixDoesItsWork, TrailingWorks, OwnLineWorks, CanTrail, QuotesClosed, Suppresses, TextSuppresses,
      RestIsHarmless, Before, AllSpace, IndentOf;
    var a := Stripped(text);
    FixOnLines(text, l);
    SuppressesText(text);
    if CanTrail(a[l]) {
      if InBlock(Before(a, l), a[l]) {
        TrailingFailsInBlock(a, l);
      } else if QuotesClosed(a[l]) {
        TrailingDoesWork(a, l);
      } else {
        TrailingFailsOpenQuotes(a, l);
      }
    } else if !InBlock(Before(a, l), a[l]) {
      OwnLineDoesWork(a, l);
    } else if BlankInBlock(a, l) {
      OwnLineWorksInBlock(a, l);
    } else {
      OwnLineFailsInBlock(a, l);
    }
  }
}
