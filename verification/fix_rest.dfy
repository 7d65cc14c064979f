/** An empty line of a block scalar, and a directive inserted above it: the directive ends the
    scalar for the scanner, and the lines below are read as a text of their own. */
module FixRest {
  import opened FixProofs
  import opened FixWorks
  import opened Strings
  import opened SuppressionRules
  import opened Suppressions

  lemma {:induction false} SpaceHasNoQuotes(s: string, i: nat)
    requires AllSpace(s) && i <= |s|
    ensures Scan(s, i, Unquoted) == Ended(Unquoted)
    decreases |s| - i
  {
    hide AtTokenStart;
    if i < |s| {
      assert IsSpace(s[i]);
      SpaceHasNoQuotes(s, i + 1);
    }
  }

  lemma SkippedLine(c: Control, line: string)
    requires InBlock(c, line)
    ensures Next(c, line) == c
  {
  }

  /** An empty line of a block scalar that is no deeper than the scalar's parent: the
      inserted line there ends the scalar for the scanner. */
  predicate BlankInBlock(a: seq<string>, l: nat)
    requires l < |a|
  {
    var c := Before(a, l);
    InBlock(c, a[l]) && IndentOf(a[l]) <= c.blockIndent
  }

  lemma BlockIsDeep(line: string)
    ensures var open := BlockIndent(Code(line)); open == -1 || (open >= IndentOf(line) && !AllSpace(line))
  {
    hide Scan, PastDashes, OpensAfter;
    var code := Code(line);
    var trimmed := TrimRight(code);
    var loc := HeaderStart(trimmed);
    if BlockIndent(code) != -1 {
      HeaderStarts(trimmed);
      var rest := line[|code|..];
      assert line == code + rest;
      assert trimmed[loc.value] == code[loc.value] == line[loc.value];
      SpacesOfLonger(code, rest, 0, loc.value);
    }
  }

  /** The empty line itself, after the inserted one. */
  lemma BlankNext(c: Control, line: string)
    requires AllSpace(line)
    ensures Directive(line) == "" && Next(c.(blockIndent := -1), line) == c.(blockIndent := -1)
  {
    hide Scan, BlockIndent, FirstToken, DISABLE, DISABLE_FILE, ENABLE;
    DirectivesDiffer();
    SpaceHasNoQuotes(line, 0);
    BlockIsDeep(line);
    BlockIndentAtLeast(Code(line));
  }

  lemma BlockIndentAtLeast(code: string)
    ensures BlockIndent(code) >= -1
  {
  }

  lemma BlankStart(a: seq<string>, l: nat)
    requires l < |a| && BlankInBlock(a, l)
    ensures Before(a, l + 1) == Before(a, l)
    ensures Before(WithLine(a, l), l + 1) == Before(a, l).(blockIndent := -1) == Before(WithLine(a, l), l + 2)
    ensures Directive(a[l]) == ""
  {
    hide Next, WithLine, OwnLine, Directive, IndentOf, AllSpace;
    var b, c := WithLine(a, l), Before(a, l);
    SameBefore(a, b, l);
    BeforeNext(a, l);
    BeforeNext(b, l);
    BeforeNext(b, l + 1);
    SkippedLine(c, a[l]);
    StandaloneNext(c, a[l]);
    BlankNext(c, a[l]);
  }

  /** The lines below l. */
  function Below(a: seq<string>, l: nat): (r: seq<string>)
    requires l < |a|
    ensures |r| == |a| - l - 1
    ensures forall i :: 0 <= i < |r| ==> r[i] == a[l + 1 + i]
  {
    a[l + 1..]
  }

  /** How many of the lines from i on still belong to a block scalar of that control. */
  function BlockLength(c: Control, r: seq<string>, i: nat): (e: nat)
    requires i <= |r|
    ensures i <= e <= |r|
    ensures forall k :: i <= k < e ==> InBlock(c, r[k])
    ensures e < |r| ==> !InBlock(c, r[e])
    decreases |r| - i
  {
    if i < |r| && InBlock(c, r[i]) then BlockLength(c, r, i + 1) else i
  }

  /** How many of the lines below l belong to the block scalar that l is in. */
  function RestLength(a: seq<string>, l: nat): (e: nat)
    requires l < |a|
    ensures e <= |Below(a, l)|
    ensures forall k :: 0 <= k < e ==> InBlock(Before(a, l), Below(a, l)[k])
    ensures e < |Below(a, l)| ==> !InBlock(Before(a, l), Below(a, l)[e])
  {
    BlockLength(Before(a, l), Below(a, l), 0)
  }

  /** An empty line of a block scalar where nothing is switched off. */
  predicate BlankAndOn(a: seq<string>, l: nat)
    requires l < |a|
  {
    BlankInBlock(a, l) && !Before(a, l).blocked && !Before(a, l).fileWide
  }

  // --- the new text ---

  /** After the inserted line and the empty one, the scan starts afresh. */
  lemma {:induction false} FreshRun(a: seq<string>, l: nat, i: nat)
    requires l < |a| && BlankAndOn(a, l) && i <= |Below(a, l)|
    ensures Before(WithLine(a, l), l + 2 + i) == Before(Below(a, l), i)
    decreases i
  {
    hide Next, BlankInBlock, WithLine, Below;
    var b, r := WithLine(a, l), Below(a, l);
    if i == 0 {
      BlankStart(a, l);
      OpenIndent(a, l);
    } else {
      FreshRun(a, l, i - 1);
      BeforeNext(b, l + 1 + i);
      BeforeNext(r, i - 1);
      assert b[l + 1 + i] == r[i - 1];
    }
  }

  lemma OpenIndent(a: seq<string>, l: nat)
    requires l < |a| && BlankInBlock(a, l)
    ensures Before(a, l).blockIndent >= 0
    ensures IndentOf(a[l]) <= Before(a, l).blockIndent
    ensures InBlock(Before(a, l), a[l])
  {
  }

  /** Each line below counts as it does in the text of the lines below alone. */
  lemma FreshLine(a: seq<string>, l: nat, i: nat)
    requires l < |a| && BlankAndOn(a, l) && i < |Below(a, l)|
    ensures LineSuppressed(WithLine(a, l), l + 2 + i) == LineSuppressed(Below(a, l), i)
  {
    hide Before, BlankInBlock, InBlock, WithLine, Below, Directive, CodeBeforeComment, DISABLE_LINE;
    var b, r := WithLine(a, l), Below(a, l);
    FreshRun(a, l, i);
    assert b[l + 2 + i] == r[i];
    if i == 0 {
      BlankStart(a, l);
      NoTokenNoDirective();
      assert b[l + 1] == a[l];
    } else {
      FreshRun(a, l, i - 1);
      assert b[l + 1 + i] == r[i - 1];
    }
  }

  // --- the old text ---

  /** As long as the scalar lasts, nothing is read. */
  lemma {:induction false} SkipRest(a: seq<string>, l: nat, i: nat)
    requires l < |a| && BlankInBlock(a, l) && i <= RestLength(a, l)
    ensures Before(a, l + 1 + i) == Before(a, l)
    decreases i
  {
    hide Next, BlankInBlock, InBlock, Below, RestLength;
    if i == 0 {
      BlankStart(a, l);
    } else {
      SkipRest(a, l, i - 1);
      BeforeNext(a, l + i);
      assert Below(a, l)[i - 1] == a[l + i];
      SkippedLine(Before(a, l), a[l + i]);
    }
  }

  /** No line of the rest of the scalar is suppressed. */
  lemma RestIsOn(a: seq<string>, l: nat, i: nat)
    requires l < |a| && BlankAndOn(a, l) && i < RestLength(a, l)
    ensures !LineSuppressed(a, l + 1 + i)
  {
    hide Before, BlankInBlock, InBlock, Below, Directive, CodeBeforeComment, DISABLE_LINE, RestLength;
    SkipRest(a, l, i);
    assert Below(a, l)[i] == a[l + 1 + i];
    NotReadAbove(a, l, i);
  }

  /** The line above line i of the rest, or above the first line after it, has no directive
      that counts. */
  lemma NotReadAbove(a: seq<string>, l: nat, i: nat)
    requires l < |a| && BlankInBlock(a, l) && i <= RestLength(a, l) && i < |Below(a, l)|
    ensures !HasLineDirective(a, l + i)
  {
    hide Before, BlankInBlock, InBlock, Below, Directive, DISABLE_LINE, RestLength;
    if i == 0 {
      OpenIndent(a, l);
    } else {
      SkipRest(a, l, i - 1);
      assert Below(a, l)[i - 1] == a[l + i];
    }
  }

  // --- both, after the scalar ---

  /** If a block scalar is open, it lies inside the old one. */
  predicate Within(c: Control, d: Control) {
    d.blockIndent == -1 || d.blockIndent > c.blockIndent
  }

  lemma WithinNext(c: Control, d: Control, line: string)
    requires InBlock(c, line) && Within(c, d)
    ensures Within(c, Next(d, line))
  {
    hide AllSpace, IndentOf, BlockIndent, Code, Directive, DISABLE, DISABLE_FILE, ENABLE;
    BlockIsDeep(line);
  }

  lemma {:induction false} FreshWithin(a: seq<string>, l: nat, i: nat)
    requires l < |a| && i <= RestLength(a, l)
    ensures Within(Before(a, l), Before(Below(a, l), i))
    decreases i
  {
    hide Next, InBlock, Below, RestLength;
    if i > 0 {
      FreshWithin(a, l, i - 1);
      BeforeNext(Below(a, l), i - 1);
      WithinNext(Before(a, l), Before(Below(a, l), i - 1), Below(a, l)[i - 1]);
    }
  }

  /** No line from e up to i, without i, switches diagnostics on again. */
  ghost predicate NoEnable(r: seq<string>, e: nat, i: nat)
    requires i <= |r|
  {
    forall k: nat :: e <= k < i ==> !Sees(r, k, ENABLE)
  }

  /** Below the scalar the scans of the old and of the new text differ only in what the rest
      of the scalar has switched off. */
  ghost predicate Alongside(a: seq<string>, l: nat, i: nat)
    requires l < |a| && RestLength(a, l) <= i <= |Below(a, l)|
  {
    var r, e := Below(a, l), RestLength(a, l);
    var was, now, start := Before(a, l + 1 + i), Before(r, i), Before(r, e);
    && (now.blocked <==> was.blocked || (start.blocked && NoEnable(r, e, i)))
    && (now.fileWide <==> was.fileWide || start.fileWide)
    && (i > e ==> now.blockIndent == was.blockIndent)
  }

  lemma OutsideBoth(c: Control, d: Control, line: string)
    requires c.blockIndent >= 0 && !InBlock(c, line) && Within(c, d)
    ensures !InBlock(d, line)
  {
    hide AllSpace, IndentOf;
  }

  /** A line below the scalar is in a block scalar of its own for both scans or for neither. */
  lemma SameInBlock(a: seq<string>, l: nat, i: nat)
    requires l < |a| && BlankInBlock(a, l) && RestLength(a, l) <= i < |Below(a, l)| && Alongside(a, l, i)
    ensures a[l + 1 + i] == Below(a, l)[i]
    ensures InBlock(Before(Below(a, l), i), Below(a, l)[i]) <==> InBlock(Before(a, l + 1 + i), a[l + 1 + i])
  {
    hide BlankInBlock, Below, RestLength, AllSpace, IndentOf, Before, Within;
    if i == RestLength(a, l) {
      FreshWithin(a, l, i);
      SkipRest(a, l, i);
      OpenIndent(a, l);
      OutsideBoth(Before(a, l), Before(Below(a, l), i), Below(a, l)[i]);
    }
  }

  /** One line that both scans read, or both skip; `off` and `file` are what only the second
      has switched off. */
  lemma BothNext(was: Control, now: Control, line: string, off: bool, file: bool)
    requires InBlock(now, line) <==> InBlock(was, line)
    requires InBlock(now, line) ==> now.blockIndent == was.blockIndent
    requires (now.blocked <==> was.blocked || off) && (now.fileWide <==> was.fileWide || file)
    ensures var w, n := Next(was, line), Next(now, line);
            && n.blockIndent == w.blockIndent
            && (n.blocked <==> w.blocked || (off && (InBlock(now, line) || Directive(line) != ENABLE)))
            && (n.fileWide <==> w.fileWide || file)
  {
    hide AllSpace, IndentOf, BlockIndent, Code, Directive, DISABLE, DISABLE_FILE, ENABLE;
    DirectivesDiffer();
  }

  lemma AlongsideStep(a: seq<string>, l: nat, i: nat)
    requires l < |a| && BlankInBlock(a, l) && RestLength(a, l) <= i < |Below(a, l)| && Alongside(a, l, i)
    ensures Alongside(a, l, i + 1)
  {
    hide Next, BlankInBlock, Below, RestLength, InBlock, Directive, DISABLE, ENABLE, Before;
    var r, e := Below(a, l), RestLength(a, l);
    SameInBlock(a, l, i);
    FirstIsOutside(a, l, i);
    BeforeNext(a, l + 1 + i);
    BeforeNext(r, i);
    var start := Before(r, e);
    BothNext(Before(a, l + 1 + i), Before(r, i), r[i], start.blocked && NoEnable(r, e, i), start.fileWide);
    assert NoEnable(r, e, i + 1) <==> NoEnable(r, e, i) && !Sees(r, i, ENABLE);
  }

  lemma FirstIsOutside(a: seq<string>, l: nat, i: nat)
    requires l < |a| && BlankInBlock(a, l) && RestLength(a, l) <= i < |Below(a, l)| && Alongside(a, l, i)
    ensures InBlock(Before(Below(a, l), i), Below(a, l)[i]) ==> i > RestLength(a, l)
  {
    hide BlankInBlock, Below, RestLength, InBlock, Before, Alongside;
    if i == RestLength(a, l) {
      SameInBlock(a, l, i);
      SkipRest(a, l, i);
    }
  }

  lemma {:induction false} AlongsideRun(a: seq<string>, l: nat, i: nat)
    requires l < |a| && BlankAndOn(a, l) && RestLength(a, l) <= i <= |Below(a, l)|
    ensures Alongside(a, l, i)
    decreases i
  {
    hide BlankInBlock, Below, RestLength, Before;
    if i == RestLength(a, l) {
      SkipRest(a, l, i);
    } else {
      AlongsideRun(a, l, i - 1);
      AlongsideStep(a, l, i - 1);
    }
  }

  // --- which lines below are suppressed ---

  /** The last line of the rest of the scalar is, for the new text, a directive for the line
      below it. */
  predicate LastReaches(a: seq<string>, l: nat)
    requires l < |a|
  {
    var r, e := Below(a, l), RestLength(a, l);
    e > 0 && HasLineDirective(r, e - 1) && !CodeBeforeComment(r[e - 1])
  }

  /** Below the scalar, a line is suppressed in the new text if it was, if the rest of the
      scalar left things switched off, or if the scalar's last line reaches it. */
  lemma LineAfter(a: seq<string>, l: nat, i: nat)
    requires l < |a| && BlankAndOn(a, l) && RestLength(a, l) <= i < |Below(a, l)|
    ensures var r, e := Below(a, l), RestLength(a, l);
            LineSuppressed(r, i) <==>
              || LineSuppressed(a, l + 1 + i)
              || (Before(r, e).blocked && NoEnable(r, e, i))
              || (i == e && LastReaches(a, l))
  {
    hide Before, BlankInBlock, InBlock, Below, Directive, CodeBeforeComment, DISABLE_LINE, RestLength, NoEnable;
    AlongsideRun(a, l, i);
    SameInBlock(a, l, i);
    if i == RestLength(a, l) {
      NotReadAbove(a, l, i);
    } else {
      AlongsideRun(a, l, i - 1);
      SameInBlock(a, l, i - 1);
    }
  }

  // --- when the rest of the scalar does no harm ---

  /** Line k of the rest, read as part of a text of its own, changes nothing that was not so.
      It does not suppress the file. If it suppresses a single line, that is the one below it,
      which is past the scalar and suppressed anyway, or past the text. If it switches
      everything off, it is the scalar's last line, and whatever it reaches is suppressed
      anyway. */
  ghost predicate Harmless(a: seq<string>, l: nat, k: nat)
    requires l < |a| && k < RestLength(a, l)
  {
    var r, e := Below(a, l), RestLength(a, l);
    && !Sees(r, k, DISABLE_FILE)
    && (Sees(r, k, DISABLE_LINE) ==>
          k + 1 == e && !CodeBeforeComment(r[k]) && (e < |r| ==> LineSuppressed(a, l + 1 + e)))
    && (Sees(r, k, DISABLE) ==>
          k + 1 == e && forall m: nat :: e <= m < |r| && NoEnable(r, e, m) ==> LineSuppressed(a, l + 1 + m))
  }

  ghost predicate RestIsHarmless(a: seq<string>, l: nat)
    requires l < |a|
  {
    forall k: nat :: k < RestLength(a, l) ==> Harmless(a, l, k)
  }

  /** The lines below, read as a text of their own, are suppressed as they are. */
  ghost predicate SameBelow(a: seq<string>, l: nat)
    requires l < |a|
  {
    var r := Below(a, l);
    !Before(r, |r|).fileWide && forall i: nat :: i < |r| ==> LineSuppressed(r, i) == LineSuppressed(a, l + 1 + i)
  }

  lemma SameAt(a: seq<string>, l: nat, i: nat)
    requires l < |a| && SameBelow(a, l) && i < |Below(a, l)|
    ensures LineSuppressed(Below(a, l), i) == LineSuppressed(a, l + 1 + i)
  {
    hide LineSuppressed, Before, Below;
  }

  lemma HarmlessAt(a: seq<string>, l: nat, k: nat)
    requires l < |a| && RestIsHarmless(a, l) && k < RestLength(a, l)
    ensures Harmless(a, l, k)
  {
    hide Harmless, RestLength;
  }

  /** A disabling directive that is in force was read on a line above. */
  lemma BlockedBySome(r: seq<string>, i: nat) returns (k: nat)
    requires i <= |r| && Before(r, i).blocked
    ensures k < i && Sees(r, k, DISABLE) && forall m :: k < m < i ==> !Sees(r, m, ENABLE)
  {
    hide Before, Sees;
    DisabledStretch(r, i);
    k :| DisabledBy(r, i, k);
  }

  lemma BlocksNext(r: seq<string>, k: nat)
    requires k < |r| && Sees(r, k, DISABLE)
    ensures Before(r, k + 1).blocked
  {
    hide InBlock, BlockIndent, Code, Directive, DISABLE, ENABLE, DISABLE_FILE;
  }

  lemma FileFromRest(a: seq<string>, l: nat)
    requires l < |a| && BlankAndOn(a, l) && !Before(a, |a|).fileWide
    ensures var r, e := Below(a, l), RestLength(a, l);
            Before(r, |r|).fileWide <==> exists k: nat :: SaysFile(r, e, k)
  {
    hide BlankInBlock, Below, RestLength, Before, SaysFile;
    AlongsideRun(a, l, |Below(a, l)|);
    FileWideIff(Below(a, l), RestLength(a, l));
  }

  lemma SuppressedWhen(lines: seq<string>, j: nat)
    requires j < |lines|
    ensures LineSuppressed(lines, j) <==>
              || Before(lines, j).blocked
              || (Sees(lines, j, DISABLE_LINE) && CodeBeforeComment(lines[j]))
              || (j > 0 && Sees(lines, j - 1, DISABLE_LINE) && !CodeBeforeComment(lines[j - 1]))
  {
    hide Before, InBlock, Directive, DISABLE_LINE, CodeBeforeComment;
  }

  /** A harmless rest leaves its own lines on. */
  lemma HarmlessInside(a: seq<string>, l: nat, i: nat)
    requires l < |a| && BlankAndOn(a, l) && RestIsHarmless(a, l) && i < RestLength(a, l)
    ensures !LineSuppressed(Below(a, l), i)
  {
    hide Before, BlankInBlock, Below, CodeBeforeComment, DISABLE, DISABLE_FILE, DISABLE_LINE, RestLength, Sees,
      LineSuppressed,
      RestIsHarmless;
    var r := Below(a, l);
    SuppressedWhen(r, i);
    HarmlessAt(a, l, i);
    if Before(r, i).blocked {
      var k := BlockedBySome(r, i);
      HarmlessAt(a, l, k);
    }
    if i > 0 {
      HarmlessAt(a, l, i - 1);
    }
  }

  lemma HarmlessAfter(a: seq<string>, l: nat, i: nat)
    requires l < |a| && BlankAndOn(a, l) && RestIsHarmless(a, l) && RestLength(a, l) <= i < |Below(a, l)|
    ensures LineSuppressed(Below(a, l), i) == LineSuppressed(a, l + 1 + i)
  {
    hide Before, BlankInBlock, InBlock, Below, Directive, CodeBeforeComment, DISABLE, DISABLE_FILE, DISABLE_LINE,
      RestLength,
      LineSuppressed, RestIsHarmless, NoEnable;
    var r, e := Below(a, l), RestLength(a, l);
    LineAfter(a, l, i);
    if Before(r, e).blocked && NoEnable(r, e, i) {
      var k := BlockedBySome(r, e);
      HarmlessAt(a, l, k);
    }
    if i == e && LastReaches(a, l) {
      HarmlessAt(a, l, e - 1);
    }
  }

  lemma NoFileSeen(a: seq<string>, l: nat, k: nat)
    requires l < |a| && BlankAndOn(a, l) && !Before(a, |a|).fileWide && SameBelow(a, l) && k < RestLength(a, l)
    ensures !Sees(Below(a, l), k, DISABLE_FILE)
  {
    hide Before, BlankInBlock, Below, DISABLE_FILE, RestLength, Sees, LineSuppressed;
    FileFromRest(a, l);
    assert !SaysFile(Below(a, l), RestLength(a, l), k);
  }

  /** What harm the rest can do, it does. */
  lemma HarmShows(a: seq<string>, l: nat, k: nat)
    requires l < |a| && BlankAndOn(a, l) && !Before(a, |a|).fileWide && SameBelow(a, l) && k < RestLength(a, l)
    ensures Harmless(a, l, k)
  {
    hide Before, BlankInBlock, Below, CodeBeforeComment, DISABLE, DISABLE_FILE, DISABLE_LINE, RestLength, Sees,
      LineSuppressed,
      NoEnable, LastReaches;
    var r, e := Below(a, l), RestLength(a, l);
    NoFileSeen(a, l, k);
    SameAt(a, l, k);
    RestIsOn(a, l, k);
    SuppressedWhen(r, k);
    if k + 1 < e {
      SameAt(a, l, k + 1);
      RestIsOn(a, l, k + 1);
      SuppressedWhen(r, k + 1);
      if Sees(r, k, DISABLE) {
        BlocksNext(r, k);
      }
    } else {
      LastLineShows(a, l);
    }
  }

  lemma LastLineShows(a: seq<string>, l: nat)
    requires l < |a| && BlankAndOn(a, l) && SameBelow(a, l) && RestLength(a, l) > 0
    ensures var r, e := Below(a, l), RestLength(a, l);
            && (e < |r| && Sees(r, e - 1, DISABLE_LINE) && !CodeBeforeComment(r[e - 1]) ==>
                  LineSuppressed(a, l + 1 + e))
            && (Sees(r, e - 1, DISABLE) ==>
                  forall m: nat :: e <= m < |r| && NoEnable(r, e, m) ==> LineSuppressed(a, l + 1 + m))
  {
    hide Before, BlankInBlock, Below, CodeBeforeComment, DISABLE, DISABLE_FILE, DISABLE_LINE, RestLength,
      LineSuppressed, NoEnable,
      InBlock, Directive;
    var r, e := Below(a, l), RestLength(a, l);
    if e < |r| {
      SameAt(a, l, e);
      LineAfter(a, l, e);
    }
    if Sees(r, e - 1, DISABLE) {
      BlocksNext(r, e - 1);
      forall m: nat | e <= m < |r| && NoEnable(r, e, m)
        ensures LineSuppressed(a, l + 1 + m)
      {
        SameAt(a, l, m);
        LineAfter(a, l, m);
      }
    }
  }

  /** The lines below stay as they are if and only if the rest of the scalar is harmless. */
  lemma HarmlessIff(a: seq<string>, l: nat)
    requires l < |a| && BlankAndOn(a, l) && !Before(a, |a|).fileWide
    ensures RestIsHarmless(a, l) <==> SameBelow(a, l)
  {
    hide Before, BlankInBlock, Below, RestLength, Sees, LineSuppressed;
    var r, e := Below(a, l), RestLength(a, l);
    if SameBelow(a, l) {
      forall k: nat | k < e
        ensures Harmless(a, l, k)
      {
        HarmShows(a, l, k);
      }
    }
    if RestIsHarmless(a, l) {
      FileFromRest(a, l);
      if k: nat :| SaysFile(r, e, k) {
        HarmlessAt(a, l, k);
      }
      forall i: nat | i < |r|
        ensures LineSuppressed(r, i) == LineSuppressed(a, l + 1 + i)
      {
        if i < e {
          HarmlessInside(a, l, i);
          RestIsOn(a, l, i);
        } else {
          HarmlessAfter(a, l, i);
        }
      }
    }
  }
}
