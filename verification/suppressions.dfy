/** The line-by-line scanner for suppression directives in comments. */
module Suppressions {
  import opened Options
  import opened Strings
  import opened TextPositions

  const DISABLE_LINE := "yayamlls-disable-line"
  const DISABLE_FILE := "yayamlls-disable-file"
  const DISABLE := "yayamlls-disable"
  const ENABLE := "yayamlls-enable"

  // --- indents ---

  /** How many of the characters from i on are spaces (0x20), up to the first that is not. */
  function SpacesFrom(s: string, i: nat): (n: nat)
    requires i <= |s|
    ensures i + n <= |s|
    ensures forall k :: i <= k < i + n ==> s[k] == ' '
    ensures i + n < |s| ==> s[i + n] != ' '
    decreases |s| - i
  {
    if i < |s| && s[i] == ' ' then 1 + SpacesFrom(s, i + 1) else 0
  }

  function IndentOf(s: string): nat { SpacesFrom(s, 0) }

  /** The end of s without the blanks at its end. */
  function TrimmedLength(s: string): (n: nat)
    ensures n <= |s|
    ensures forall k :: n <= k < |s| ==> IsBlank(s[k])
    ensures n > 0 ==> !IsBlank(s[n - 1])
  {
    if s != "" && IsBlank(Last(s)) then TrimmedLength(s[..|s| - 1]) else |s|
  }

  function TrimRight(s: string): string { s[..TrimmedLength(s)] }

  // --- comments ---

  /** Whether a token can start at i: at the line's start, or after `: `, `- `, `? `, `[`,
      `{` or `,`. */
  predicate AtTokenStart(line: string, i: nat)
    requires i <= |line|
  {
    var j := TrimmedLength(line[..i]);
    j == 0 ||
    match line[j - 1]
    case '[' => true
    case '{' => true
    case ',' => true
    case ':' => j < i
    case '-' => j < i && (j == 1 || IsBlank(line[j - 2]))
    case '?' => j < i && (j == 1 || IsBlank(line[j - 2]))
    case _ => false
  }

  datatype Quote = Unquoted | Single | Double

  function QuoteOf(c: char): Quote {
    if c == '\'' then Single else if c == '"' then Double else Unquoted
  }

  /** How the search for a comment ends: at its number sign, or at the end of the line
      inside or outside quotes. */
  datatype Search = Found(at: nat) | Ended(quote: Quote)

  function Scan(line: string, i: nat, quote: Quote): (r: Search)
    ensures r.Found? ==>
              && i <= r.at < |line| && line[r.at] == '#'
              && (r.at == 0 || IsBlank(line[r.at - 1]))
    decreases |line| - i
  {
    if i >= |line| then Ended(quote)
    else
      var c := line[i];
      if quote != Unquoted then
        if c == '\\' && quote == Double then Scan(line, i + 2, quote)
        else Scan(line, i + 1, if QuoteOf(c) == quote then Unquoted else quote)
      else if QuoteOf(c) != Unquoted && AtTokenStart(line, i) then Scan(line, i + 1, QuoteOf(c))
      else if c == '#' && (i == 0 || IsBlank(line[i - 1])) then Found(i)
      else Scan(line, i + 1, Unquoted)
  }

  method AtTokenStartAt(line: string, i: nat) returns (b: bool)
    requires i < |line|
    ensures b == AtTokenStart(line, i)
  {
    var j: nat := i;
    while j > 0 && IsBlank(line[j - 1])
      invariant j <= i && TrimmedLength(line[..i]) == TrimmedLength(line[..j])
    {
      assert line[..j][..j - 1] == line[..j - 1];
      j := j - 1;
    }
    if j == 0 {
      return true;
    }
    match line[j - 1] {
      case '[' => return true;
      case '{' => return true;
      case ',' => return true;
      case ':' => return j < i;
      case '-' => return j < i && (j == 1 || IsBlank(line[j - 2]));
      case '?' => return j < i && (j == 1 || IsBlank(line[j - 2]));
      case _ => return false;
    }
  }

  /** The index of the number sign that opens a comment, or -1. */
  method CommentStart(line: string) returns (at: int)
    ensures match Scan(line, 0, Unquoted)
            case Found(k) => at == k
            case Ended(_) => at == -1
  {
    var quote := Unquoted;
    var i := 0;
    while i < |line|
      invariant Scan(line, 0, Unquoted) == Scan(line, i, quote)
    {
      var c := line[i];
      var opens := AtTokenStartAt(line, i);
      if quote != Unquoted {
        if c == '\\' && quote == Double {
          i := i + 1;
        } else if QuoteOf(c) == quote {
          quote := Unquoted;
        }
      } else if (c == '\'' || c == '"') && opens {
        quote := QuoteOf(c);
      } else if c == '#' && (i == 0 || line[i - 1] == ' ' || line[i - 1] == '\t') {
        return i;
      }
      i := i + 1;
    }
    return -1;
  }

  // --- block scalars ---

  predicate IndentDigit(c: char) { '1' <= c <= '9' }

  predicate Sign(c: char) { c == '+' || c == '-' }

  /** A block scalar header: | or > and then a chomping sign and an indentation digit, each
      at most once, in either order. */
  predicate IsHeader(s: string) {
    && s != "" && (s[0] == '|' || s[0] == '>')
    && (|s| == 1
        || (|s| == 2 && (Sign(s[1]) || IndentDigit(s[1])))
        || (|s| == 3 && ((Sign(s[1]) && IndentDigit(s[2])) || (IndentDigit(s[1]) && Sign(s[2])))))
  }

  /** Where the longest header at the end of the code starts. */
  function HeaderStart(code: string): (at: Option<nat>)
    ensures at.Some? ==> at.value < |code| && IsHeader(code[at.value..])
    ensures at.None? ==> forall k :: 0 <= k < |code| ==> !IsHeader(code[k..])
  {
    var n := |code|;
    if n >= 3 && IsHeader(code[n - 3..]) then Some(n - 3)
    else if n >= 2 && IsHeader(code[n - 2..]) then Some(n - 2)
    else if n >= 1 && IsHeader(code[n - 1..]) then Some(n - 1)
    else None
  }

  /** The last blank-separated word of a text that does not end in a blank. */
  function LastWord(s: string): string
    requires s != "" && !IsBlank(Last(s))
    ensures LastWord(s) != ""
  {
    if |s| > 1 && !IsBlank(s[|s| - 2]) then LastWord(s[..|s| - 1]) + [Last(s)] else [Last(s)]
  }

  /** Whether a header after this code opens a block scalar. */
  predicate OpensAfter(before: string)
    requires before == "" || !IsBlank(Last(before))
  {
    || before == ""
    || Last(before) == ':' || Last(before) == '-'
    || LastWord(before)[0] == '!' || LastWord(before)[0] == '&'
  }

  /** The index from i on past the dashes of nested list entries. */
  function PastDashes(line: string, i: nat): (j: nat)
    requires i <= |line|
    ensures i <= j <= |line|
    decreases |line| - i
  {
    if i + 1 < |line| && line[i] == '-' && line[i + 1] == ' ' then PastDashes(line, i + 1 + SpacesFrom(line, i + 1))
    else i
  }

  /** The indent a following line must exceed to be inside a block scalar that the line
      opens, or -1. */
  function BlockIndent(line: string): int {
    var code := TrimRight(line);
    match HeaderStart(code)
    case None => -1
    case Some(at) => if OpensAfter(TrimRight(code[..at])) then PastDashes(line, IndentOf(line)) else -1
  }

  method BlockScalarParentIndent(line: string) returns (indent: int)
    ensures indent == BlockIndent(line)
  {
    var code := TrimRight(line);
    var loc := HeaderStart(code);
    if loc.None? {
      return -1;
    }
    var before := TrimRight(code[..loc.value]);
    if !OpensAfter(before) {
      return -1;
    }
    var i: nat := IndentOf(line);
    var rest := line[i..];
    while |rest| >= 2 && rest[0] == '-' && rest[1] == ' '
      invariant i <= |line| && rest == line[i..]
      invariant PastDashes(line, IndentOf(line)) == PastDashes(line, i)
      decreases |rest|
    {
      var skip := 1 + SpacesFrom(line, i + 1);
      assert rest[skip..] == line[i + skip..];
      i := i + skip;
      rest := rest[skip..];
    }
    return i;
  }

  // --- directives ---

  /** The first field of a text separated by white space. */
  function FirstToken(s: string): string {
    if s == "" then ""
    else if IsSpace(s[0]) then FirstToken(s[1..])
    else TokenPrefix(s)
  }

  function TokenPrefix(s: string): string {
    if s == "" || IsSpace(s[0]) then "" else [s[0]] + TokenPrefix(s[1..])
  }

  /** Whether anything but blanks precedes the first number sign. */
  predicate CodeBeforeComment(line: string) {
    line != "" && (if IsBlank(line[0]) then CodeBeforeComment(line[1..]) else line[0] != '#')
  }

  method HasCodeBeforeComment(line: string) returns (b: bool)
    ensures b == CodeBeforeComment(line)
  {
    assert line[0..] == line;
    for i := 0 to |line|
      invariant CodeBeforeComment(line) == CodeBeforeComment(line[i..])
    {
      assert line[i..][1..] == line[i + 1..];
      if line[i] == ' ' || line[i] == '\t' {
        continue;
      }
      if line[i] == '#' {
        return false;
      }
      return true;
    }
    return false;
  }

  // --- the scanner ---

  /** What the scanner carries from line to line. */
  datatype Control = Control(blocked: bool, blockIndent: int, fileWide: bool)

  const START := Control(false, -1, false)

  /** The line belongs to the block scalar that is open. */
  predicate InBlock(c: Control, line: string) {
    c.blockIndent >= 0 && (AllSpace(line) || IndentOf(line) > c.blockIndent)
  }

  /** The first token of the line's comment; empty when it has none. */
  function Directive(line: string): string {
    match Scan(line, 0, Unquoted)
    case Found(at) => FirstToken(line[at + 1..])
    case Ended(_) => ""
  }

  function Code(line: string): string {
    match Scan(line, 0, Unquoted)
    case Found(at) => line[..at]
    case Ended(_) => line
  }

  function Next(c: Control, line: string): Control {
    if InBlock(c, line) then c
    else
      var d := Directive(line);
      Control(if d == DISABLE then true else if d == ENABLE then false else c.blocked,
              BlockIndent(Code(line)),
              c.fileWide || d == DISABLE_FILE)
  }

  /** The control before line i of a text whose lines have lost their CRs. */
  function Before(lines: seq<string>, i: nat): Control
    requires i <= |lines|
  {
    if i == 0 then START else Next(Before(lines, i - 1), lines[i - 1])
  }

  /** Line i carries a disable-line directive that counts. */
  predicate HasLineDirective(lines: seq<string>, i: nat)
    requires i < |lines|
  {
    !InBlock(Before(lines, i), lines[i]) && Directive(lines[i]) == DISABLE_LINE
  }

  /** Line j is suppressed by name: it is in a disabled stretch, ends in a directive of its
      own, or follows a directive that stands alone. */
  predicate LineSuppressed(lines: seq<string>, j: nat) {
    j < |lines| && (
      || Before(lines, j).blocked
      || (HasLineDirective(lines, j) && CodeBeforeComment(lines[j]))
      || (j > 0 && HasLineDirective(lines, j - 1) && !CodeBeforeComment(lines[j - 1])))
  }

  function StripCR(lines: seq<string>): (stripped: seq<string>)
    ensures |stripped| == |lines|
    ensures forall k :: 0 <= k < |lines| ==> stripped[k] == TrimCR(lines[k])
  {
    seq(|lines|, k requires 0 <= k < |lines| => TrimCR(lines[k]))
  }

  datatype Suppressor = Suppressor(fileWide: bool, lines: set<nat>)

  predicate Suppressed(s: Suppressor, line: nat) { s.fileWide || line in s.lines }

  /** The meaning of a text's directives. */
  predicate TextSuppresses(text: string, line: nat) {
    var lines := StripCR(Lines(text));
    Before(lines, |lines|).fileWide || LineSuppressed(lines, line)
  }

  lemma DirectivesDiffer()
    ensures DISABLE != ENABLE && DISABLE != DISABLE_FILE && DISABLE != DISABLE_LINE
    ensures ENABLE != DISABLE_FILE && ENABLE != DISABLE_LINE && DISABLE_FILE != DISABLE_LINE
    ensures DISABLE != "" && ENABLE != "" && DISABLE_FILE != "" && DISABLE_LINE != ""
  {
  }

  /** The lines before i have been scanned, and `marked` is what they suppress so far. */
  ghost predicate Scanned(lines: seq<string>, i: nat, marked: set<nat>) {
    i <= |lines| && forall j: nat :: j in marked <==> MarkedBy(lines, i, j)
  }

  ghost predicate MarkedBy(lines: seq<string>, i: nat, j: nat)
    requires i <= |lines|
  {
    && j < |lines|
    && (|| (j < i && LineSuppressed(lines, j))
        || (j == i && i > 0 && HasLineDirective(lines, i - 1) && !CodeBeforeComment(lines[i - 1])))
  }

  /** What one line adds to the suppressed lines. */
  function Marks(lines: seq<string>, i: nat): set<nat>
    requires i < |lines|
  {
    (if Before(lines, i).blocked then {i} else {})
    + (if !HasLineDirective(lines, i) then {}
       else if CodeBeforeComment(lines[i]) then {i}
       else if i + 1 < |lines| then {i + 1} else {})
  }

  lemma MarksScan(lines: seq<string>, i: nat, marked: set<nat>)
    requires i < |lines| && Scanned(lines, i, marked)
    ensures Scanned(lines, i + 1, marked + Marks(lines, i))
  {
    hide Before, HasLineDirective, CodeBeforeComment;
    var now := marked + Marks(lines, i);
    forall j: nat
      ensures j in now <==> MarkedBy(lines, i + 1, j)
    {
      assert j in marked <==> MarkedBy(lines, i, j);
    }
  }

  /** What one line does to the control, and which lines it suppresses. */
  lemma OneLine(lines: seq<string>, i: nat)
    requires i < |lines|
    ensures var c, line, d := Before(lines, i), lines[i], Directive(lines[i]);
            var own: set<nat> := if c.blocked then {i} else {};
            if InBlock(c, line) then Before(lines, i + 1) == c && Marks(lines, i) == own
            else
              && Before(lines, i + 1) ==
                 Control(if d == DISABLE then true else if d == ENABLE then false else c.blocked,
                         BlockIndent(Code(line)), c.fileWide || d == DISABLE_FILE)
              && Marks(lines, i) ==
                 if d != DISABLE_LINE then own
                 else if CodeBeforeComment(line) then own + {i}
                 else if i + 1 < |lines| then own + {i + 1} else own
  {
    hide FirstToken, CodeBeforeComment, BlockIndent, IndentOf, AllSpace, DISABLE, ENABLE, DISABLE_FILE, DISABLE_LINE;
  }

  method ParseSuppressions(text: string) returns (s: Suppressor)
    ensures var lines := StripCR(Lines(text));
            && s.fileWide == Before(lines, |lines|).fileWide
            && forall j :: j in s.lines <==> LineSuppressed(lines, j)
    ensures forall j :: Suppressed(s, j) <==> TextSuppresses(text, j)
  {
    hide Scan, FirstToken, CodeBeforeComment, BlockIndent, IndentOf, AllSpace, Lines, TrimCR, LineSuppressed,
      DISABLE, ENABLE, DISABLE_FILE, DISABLE_LINE, Scanned, Marks, HasLineDirective, Next, Before;
    DirectivesDiffer();
    s := Suppressor(false, {});
    var blocked := false;
    var blockIndent := -1;
    var lines := Lines(text);
    ghost var stripped := StripCR(lines);
    NothingScanned(stripped);
    for i := 0 to |lines|
      invariant Before(stripped, i) == Control(blocked, blockIndent, s.fileWide)
      invariant Scanned(stripped, i, s.lines)
    {
      MarksScan(stripped, i, s.lines);
      OneLine(stripped, i);
      ghost var marked := s.lines;
      var line := TrimCR(lines[i]);
      assert line == stripped[i];
      if blocked {
        s := s.(lines := s.lines + {i});
      }
      if blockIndent >= 0 && (AllSpace(line) || IndentOf(line) > blockIndent) {
        assert s.lines == marked + Marks(stripped, i);
        continue;
      }
      var code, comment, hasComment := line, "", false;
      var ci := CommentStart(line);
      if ci >= 0 {
        code, comment, hasComment := line[..ci], line[ci + 1..], true;
      }
      blockIndent := BlockScalarParentIndent(code);
      if !hasComment {
        assert s.lines == marked + Marks(stripped, i);
        continue;
      }
      var token := FirstToken(comment);
      assert token == Directive(line) && code == Code(line);
      if token == DISABLE_FILE {
        s := s.(fileWide := true);
      } else if token == DISABLE {
        blocked := true;
      } else if token == ENABLE {
        blocked := false;
      } else if token == DISABLE_LINE {
        var trailing := HasCodeBeforeComment(line);
        if trailing {
          s := s.(lines := s.lines + {i});
        } else if i + 1 < |lines| {
          s := s.(lines := s.lines + {i + 1});
        }
      }
      assert s.lines == marked + Marks(stripped, i);
    }
    EverythingScanned(stripped, s.lines);
  }

  lemma NothingScanned(lines: seq<string>)
    ensures Scanned(lines, 0, {}) && Before(lines, 0) == START
  {
  }

  lemma EverythingScanned(lines: seq<string>, marked: set<nat>)
    requires Scanned(lines, |lines|, marked)
    ensures forall j: nat :: j in marked <==> LineSuppressed(lines, j)
  {
    hide Before, HasLineDirective, CodeBeforeComment;
    forall j: nat
      ensures j in marked <==> LineSuppressed(lines, j)
    {
      assert j in marked <==> MarkedBy(lines, |lines|, j);
    }
  }
}
