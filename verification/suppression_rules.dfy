/** What the directives mean, without the scanner's state: which lines are in a disabled
    stretch, which belong to a block scalar, and where a comment starts. */
module SuppressionRules {
  import opened Strings
  import opened TextPositions
  import opened Suppressions

  /** Line k carries this directive, and is not part of a block scalar. */
  predicate Sees(lines: seq<string>, k: nat, directive: string)
    requires k < |lines|
  {
    !InBlock(Before(lines, k), lines[k]) && Directive(lines[k]) == directive
  }

  ghost predicate DisabledBy(lines: seq<string>, i: nat, k: nat)
    requires i <= |lines|
  {
    k < i && Sees(lines, k, DISABLE) && forall m :: k < m < i ==> !Sees(lines, m, ENABLE)
  }

  /** A line is blocked exactly when a disable directive above it has no enable directive
      between itself and the line. */
  lemma {:induction false} DisabledStretch(lines: seq<string>, i: nat)
    requires i <= |lines|
    ensures Before(lines, i).blocked <==> exists k: nat :: DisabledBy(lines, i, k)
  {
    hide InBlock, Directive, BlockIndent, Code, DISABLE, ENABLE, DISABLE_FILE, DISABLE_LINE;
    DirectivesDiffer();
    if i > 0 {
      var p: nat := i - 1;
      DisabledStretch(lines, p);
      if Before(lines, p).blocked && !Sees(lines, p, ENABLE) {
        var k: nat :| DisabledBy(lines, p, k);
        assert DisabledBy(lines, i, k);
      }
      if Sees(lines, p, DISABLE) {
        assert DisabledBy(lines, i, p);
      }
      if k: nat :| DisabledBy(lines, i, k) {
        assert k < p ==> DisabledBy(lines, p, k) && !Sees(lines, p, ENABLE);
      }
    }
  }

  ghost predicate SaysFile(lines: seq<string>, i: nat, k: nat)
    requires i <= |lines|
  {
    k < i && Sees(lines, k, DISABLE_FILE)
  }

  /** The whole file is suppressed exactly when some line says so. */
  lemma {:induction false} FileWideIff(lines: seq<string>, i: nat)
    requires i <= |lines|
    ensures Before(lines, i).fileWide <==> exists k: nat :: SaysFile(lines, i, k)
  {
    hide InBlock, Directive, BlockIndent, Code, DISABLE, ENABLE, DISABLE_FILE, DISABLE_LINE;
    DirectivesDiffer();
    if i > 0 {
      var p: nat := i - 1;
      FileWideIff(lines, p);
      if Before(lines, p).fileWide {
        var k: nat :| SaysFile(lines, p, k);
        assert SaysFile(lines, i, k);
      }
      if Sees(lines, p, DISABLE_FILE) {
        assert SaysFile(lines, i, p);
      }
      if k: nat :| SaysFile(lines, i, k) {
        assert k < p ==> SaysFile(lines, p, k);
      }
    }
  }

  /** Line k, not in a block scalar itself, opens one, and every line up to and with i is
      blank or deeper than its parent. */
  ghost predicate OpenedBy(lines: seq<string>, i: nat, k: nat)
    requires i <= |lines|
  {
    && k < i
    && !InBlock(Before(lines, k), lines[k])
    && BlockIndent(Code(lines[k])) >= 0
    && forall m :: k < m < i ==> Under(lines[m], BlockIndent(Code(lines[k])))
  }

  predicate Under(line: string, indent: int) {
    AllSpace(line) || IndentOf(line) > indent
  }

  /** What one line does to the open block scalar. */
  lemma BlockAfter(lines: seq<string>, i: nat)
    requires i < |lines|
    ensures Before(lines, i + 1).blockIndent ==
            if InBlock(Before(lines, i), lines[i]) then Before(lines, i).blockIndent else BlockIndent(Code(lines[i]))
  {
    hide InBlock, BlockIndent, Code, Directive, DISABLE, ENABLE, DISABLE_FILE, DISABLE_LINE;
  }

  ghost predicate OpenedAt(lines: seq<string>, i: nat, k: nat, indent: int)
    requires i <= |lines|
  {
    OpenedBy(lines, i, k) && BlockIndent(Code(lines[k])) == indent
  }

  lemma NothingOpenYet(lines: seq<string>)
    ensures Before(lines, 0).blockIndent == -1
  {
  }

  lemma OpensHere(lines: seq<string>, i: nat)
    requires i < |lines|
    ensures !InBlock(Before(lines, i), lines[i]) && BlockIndent(Code(lines[i])) >= 0 ==>
              OpenedAt(lines, i + 1, i, BlockIndent(Code(lines[i])))
  {
    hide InBlock, Before, BlockIndent, Code;
  }

  lemma OpenStill(lines: seq<string>, i: nat, k: nat, indent: int)
    requires i < |lines|
    ensures OpenedAt(lines, i, k, indent) && Under(lines[i], indent) ==> OpenedAt(lines, i + 1, k, indent)
  {
    hide InBlock, Before, BlockIndent, Code, Under;
  }

  lemma {:induction false} OpenBlock(lines: seq<string>, i: nat)
    requires i <= |lines|
    ensures Before(lines, i).blockIndent >= 0 ==> exists k: nat :: OpenedAt(lines, i, k, Before(lines, i).blockIndent)
    ensures Before(lines, i).blockIndent >= -1
  {
    hide AllSpace, IndentOf, Code, BlockIndent, Before, OpenedAt;
    NothingOpenYet(lines);
    if i > 0 {
      var p: nat := i - 1;
      OpenBlock(lines, p);
      BlockAfter(lines, p);
      var c := Before(lines, p);
      if InBlock(c, lines[p]) {
        var k: nat :| OpenedAt(lines, p, k, c.blockIndent);
        OpenStill(lines, p, k, c.blockIndent);
      } else {
        BlockIndentIsIndent(Code(lines[p]));
        if BlockIndent(Code(lines[p])) >= 0 {
          OpensHere(lines, p);
        }
      }
    }
  }

  lemma BlockIndentIsIndent(code: string)
    ensures BlockIndent(code) >= -1
  {
  }

  lemma {:induction false} StaysOpen(lines: seq<string>, i: nat, k: nat)
    requires i <= |lines| && OpenedBy(lines, i, k)
    ensures Before(lines, i).blockIndent == BlockIndent(Code(lines[k]))
    decreases i
  {
    hide Directive, AllSpace, IndentOf, Code, BlockIndent, DISABLE, ENABLE, DISABLE_FILE, DISABLE_LINE;
    if k < i - 1 {
      assert OpenedBy(lines, i - 1, k);
      StaysOpen(lines, i - 1, k);
      assert Under(lines[i - 1], BlockIndent(Code(lines[k])));
    }
  }

  /** Line i belongs to the block scalar that line k opens. */
  ghost predicate InScalarOf(lines: seq<string>, i: nat, k: nat)
    requires i < |lines|
  {
    k < i && OpenedBy(lines, i + 1, k)
  }

  /** A line belongs to a block scalar exactly when a line above opens one and every line
      since, this one included, is blank or deeper than what it was opened in. */
  lemma InBlockIff(lines: seq<string>, i: nat)
    requires i < |lines|
    ensures InBlock(Before(lines, i), lines[i]) <==> exists k: nat :: InScalarOf(lines, i, k)
  {
    hide Before, BlockIndent, Code, AllSpace, IndentOf;
    OpenBlock(lines, i);
    var open := Before(lines, i).blockIndent;
    if InBlock(Before(lines, i), lines[i]) {
      var k: nat :| OpenedAt(lines, i, k, open);
      assert InScalarOf(lines, i, k);
    }
    if k: nat :| InScalarOf(lines, i, k) {
      assert OpenedBy(lines, i, k);
      StaysOpen(lines, i, k);
      assert Under(lines[i], BlockIndent(Code(lines[k])));
    }
  }

  // --- comments ---

  predicate OpensComment(line: string, i: nat)
    requires i < |line|
  {
    line[i] == '#' && (i == 0 || IsBlank(line[i - 1]))
  }

  /** No quote of the line is where a quoted scalar could start. */
  predicate QuotesArePlain(line: string) {
    forall k :: 0 <= k < |line| && QuoteOf(line[k]) != Unquoted ==> !AtTokenStart(line, k)
  }

  /** The search from i on ended at the first place where a comment opens. */
  predicate FirstComment(line: string, i: nat, r: Search) {
    match r
    case Found(at) => i <= at < |line| && OpensComment(line, at) && NoComment(line, i, at)
    case Ended(q) => q == Unquoted && NoComment(line, i, |line|)
  }

  predicate NoComment(line: string, i: nat, j: nat)
    requires j <= |line|
  {
    forall k :: i <= k < j ==> !OpensComment(line, k)
  }

  lemma {:induction false} PlainScan(line: string, i: nat)
    requires QuotesArePlain(line) && i <= |line|
    ensures FirstComment(line, i, Scan(line, i, Unquoted))
    decreases |line| - i
  {
    hide AtTokenStart;
    if i < |line| {
      PlainScan(line, i + 1);
    }
  }

  /** With only such quotes, as the apostrophe in `it's`, the comment starts at the first
      number sign that begins the line or follows a blank. */
  lemma PlainComment(line: string)
    requires QuotesArePlain(line)
    ensures FirstComment(line, 0, Scan(line, 0, Unquoted))
  {
    PlainScan(line, 0);
  }

  /** Nothing inside single quotes is a comment: from the opening quote the scan goes on
      right after the closing one. */
  lemma {:induction false} QuotedTextIsSkipped(line: string, i: nat, j: nat)
    requires i <= j < |line| && line[j] == '\'' && forall k :: i <= k < j ==> line[k] != '\''
    ensures Scan(line, i, Single) == Scan(line, j + 1, Unquoted)
    decreases j - i
  {
    hide AtTokenStart;
    if i < j {
      QuotedTextIsSkipped(line, i + 1, j);
    }
  }
}
