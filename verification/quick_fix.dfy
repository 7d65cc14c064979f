/** The quick fix that silences a diagnostic: it measures a position, the document store
    edits the text there, and the scanner reads the result. */
module QuickFix {
  import opened Cursor
  import DocumentStore
  import opened Options
  import opened Strings
  import opened Suppressions
  import opened TextPositions

  const SOURCE := "yayamlls"

  const DIRECTIVE := "# " + DISABLE_LINE

  datatype Edit = Edit(at: Position, newText: string)

  function LeadingWS(line: string): string { line[..Blanks(line)] }

  /** The line has code and no comment, so a comment can end it. */
  predicate CanTrail(line: string) {
    !AllSpace(line) && Scan(line, 0, Unquoted).Ended?
  }

  /** The line a diagnostic is on, without its terminator. */
  function SourceLine(text: string, l: nat): string {
    TrimCR(if l < |Lines(text)| then Lines(text)[l] else "")
  }

  function FixFor(text: string, l: nat): Edit {
    var src := SourceLine(text, l);
    if CanTrail(src) then Edit(Position(l, Units(src)), " " + DIRECTIVE)
    else Edit(Position(l, 0), LeadingWS(src) + DIRECTIVE + "\n")
  }

  method SuppressAction(text: string, source: Option<string>, l: nat) returns (edit: Option<Edit>)
    ensures edit == if source == Some(SOURCE) then Some(FixFor(text, l)) else None
  {
    if source != Some(SOURCE) {
      return None;
    }
    var src, ok := LineText(text, l);
    src := TrimCR(src);
    var comment := CommentStart(src);
    if !AllSpace(src) && comment < 0 {
      var end := UTF16Len(src);
      return Some(Edit(Position(l, end), " " + DIRECTIVE));
    }
    return Some(Edit(Position(l, 0), LeadingWS(src) + DIRECTIVE + "\n"));
  }

  /** The text once the editor has sent the fix back as a change. */
  function Fixed(text: string, l: nat): string {
    var edit := FixFor(text, l);
    DocumentStore.Changed(text, DocumentStore.Ranged(edit.at, edit.at, edit.newText))
  }

  // --- the edit, as lines ---

  lemma EditedLines(text: string, p: nat, inserted: string)
    requires p <= |text|
    ensures Lines(text[..p] + inserted + text[p..])
         == Glue(Glue(Lines(text[..p]), Lines(inserted)), Lines(text[p..]))
  {
    hide Lines, Glue;
    LinesConcat(text[..p] + inserted, text[p..]);
    LinesConcat(text[..p], inserted);
  }

  lemma DirectiveLetters()
    ensures forall k :: 0 <= k < |DISABLE_LINE| ==> 'a' <= DISABLE_LINE[k] <= 'z' || DISABLE_LINE[k] == '-'
    ensures DISABLE_LINE != ""
  {
  }

  lemma DirectiveIsPlain()
    ensures '\n' !in DIRECTIVE && '\r' !in DIRECTIVE
    ensures |DIRECTIVE| > 2 && DIRECTIVE[0] == '#' && DIRECTIVE[1] == ' ' && DIRECTIVE[2..] == DISABLE_LINE
    ensures forall k :: 0 <= k < |DIRECTIVE| ==> DIRECTIVE[k] != '\\' && DIRECTIVE[k] != '\'' && DIRECTIVE[k] != '"'
    ensures forall k :: 0 <= k < |DISABLE_LINE| ==> !IsSpace(DISABLE_LINE[k])
    ensures DISABLE_LINE != ""
  {
    hide DISABLE_LINE;
    DirectiveLetters();
    assert forall k :: 2 <= k < |DIRECTIVE| ==> DIRECTIVE[k] == DISABLE_LINE[k - 2];
  }

  lemma TrimmedLine(line: string)
    ensures TrimCR(line) <= line
    ensures line == TrimCR(line) || line == TrimCR(line) + "\r"
  {
  }

  lemma TrailingPoint(text: string, l: nat)
    requires l < |Lines(text)|
    ensures var src := SourceLine(text, l);
            PointAt(text, Position(l, Units(src))) == LineStart(Lines(text), l) + |src|
  {
    hide Lines, LineStart, Units;
    var lines, src := Lines(text), SourceLine(text, l);
    var content := Content(lines, l);
    TrimmedLine(lines[l]);
    assert content[..|src|] == src;
    PrefixesAgree(content, src);
    forall k | 0 <= k < |src|
      ensures Units(content[..k]) < Units(src)
    {
      UnitsGrow(content, k, |src|);
    }
    ColumnPointIs(content, Units(src), |src|);
  }

  lemma GlueInside(before: seq<string>, a: string, b: string, inserted: string, after: seq<string>)
    ensures Glue(Glue(before + [a], [inserted]), [b] + after) == before + [a + inserted + b] + after
  {
    assert Glue(before + [a], [inserted]) == before + [a + inserted];
  }

  /** In a line that can take it, the directive goes between the code and the terminator. */
  lemma TrailingEdit(text: string, l: nat)
    requires l < |Lines(text)| && CanTrail(SourceLine(text, l))
    ensures var line, src := Lines(text)[l], SourceLine(text, l);
            && src <= line
            && Lines(Fixed(text, l)) == Lines(text)[l := src + (" " + DIRECTIVE) + line[|src|..]]
  {
    hide Lines, LineStart, Units, CanTrail, DIRECTIVE, Glue, PointAt;
    var lines, src, inserted := Lines(text), SourceLine(text, l), " " + DIRECTIVE;
    TrimmedLine(lines[l]);
    TrailingPoint(text, l);
    CutOnLine(text, l, |src|);
    EditedLines(text, PointAt(text, Position(l, Units(src))), inserted);
    DirectiveIsPlain();
    LinesOfLine(inserted);
    assert lines[l][..|src|] == src;
    GlueInside(lines[..l], src, lines[l][|src|..], inserted, lines[l + 1..]);
    ReplacedLine(lines, l, src + inserted + lines[l][|src|..]);
  }

  lemma ReplacedLine(lines: seq<string>, l: nat, changed: string)
    requires l < |lines|
    ensures lines[l := changed] == lines[..l] + [changed] + lines[l + 1..]
  {
  }

  lemma GlueAbove(before: seq<string>, own: string, line: string, after: seq<string>)
    ensures Glue(Glue(before + [""], [own, ""]), [line] + after) == before + [own] + ([line] + after)
  {
    assert "" + own == own && "" + line == line;
    assert Glue(before + [""], [own, ""]) == before + [own, ""];
  }

  lemma LineBreakAfter(x: string)
    requires '\n' !in x
    ensures Lines(x + "\n") == [x, ""]
  {
    hide Lines;
    LinesSnoc(x, '\n');
    LinesOfLine(x);
  }

  /** Elsewhere, it becomes a line of its own above. */
  lemma InsertedEdit(text: string, l: nat)
    requires l < |Lines(text)| && !CanTrail(SourceLine(text, l))
    ensures Lines(Fixed(text, l)) == Lines(text)[..l] + [LeadingWS(SourceLine(text, l)) + DIRECTIVE] + Lines(text)[l..]
  {
    hide Lines, LineStart, Units, CanTrail, DIRECTIVE, Glue, ColumnPoint, LeadingWS;
    var lines, own := Lines(text), LeadingWS(SourceLine(text, l)) + DIRECTIVE;
    UnitsOfEmpty();
    ColumnPointIs(Content(lines, l), 0, 0);
    CutOnLine(text, l, 0);
    EditedLines(text, PointAt(text, Position(l, 0)), own + "\n");
    OwnLineBreaks(SourceLine(text, l));
    assert lines[l][0..] == lines[l] && lines[l][..0] == "";
    GlueAbove(lines[..l], own, lines[l], lines[l + 1..]);
    assert [lines[l]] + lines[l + 1..] == lines[l..];
  }

  lemma OwnLineBreaks(src: string)
    ensures Lines(LeadingWS(src) + DIRECTIVE + "\n") == [LeadingWS(src) + DIRECTIVE, ""]
  {
    hide Lines, DIRECTIVE;
    DirectiveIsPlain();
    LineBreakAfter(LeadingWS(src) + DIRECTIVE);
  }
}
