/** Block documents as they are laid out on lines, and how the indentation walker reads each
    kind of line. */
module IndentLayouts {
  import opened IndentWalker
  import opened JsonPointer
  import opened Options
  import opened Strings
  import opened TextPositions

  // --- documents ---

  /** A block mapping or list. A key's line may hold any text after its colon; its value may
      go on below as a block with an indent of its own. A list item is text, a mapping that
      starts on the dash's line, `gap` spaces after the dash, or a bare dash with a block
      below. */
  datatype Block = MapBlock(entries: seq<Entry>) | SeqBlock(items: seq<Item>)

  /** A key as it is written before its colon, and the key that stands for: another one when
      it is quoted. */
  datatype Entry = Entry(text: string, key: string, rest: string, child: Child)

  datatype Child = NoChild | Child(indent: nat, block: Block)

  datatype Item =
    | Text(text: string)
    | Compact(gap: nat, first: Entry, more: seq<Entry>)
    | Bare(indent: nat, block: Block)

  predicate BlankOrColon(c: char) { IsBlank(c) || c == ':' }

  predicate Plain(s: string) { forall c <- s :: !BlankOrColon(c) }

  /** A key's text starts and ends with visible characters, and starts neither a comment nor a
      list item. */
  predicate GoodText(text: string) {
    text != "" ==>
      !IsSpace(text[0]) && !IsSpace(Last(text)) && text[0] != '#' && !("- " <= text)
  }

  /** What is true of a quoted key: it is shorter than its text, and the blanks and colons of
      the text are in it. */
  predicate StandsFor(text: string, key: string) {
    text == key || (|key| < |text| && forall c <- text :: BlankOrColon(c) ==> c in key)
  }

  /** Written as it is, without blanks and colons. */
  predicate AsItIs(e: Entry) { e.text == e.key && Plain(e.key) }

  /** Mappings lie deeper than their key, lists as deep or deeper. */
  predicate WellLaidEntry(e: Entry, d: nat) {
    GoodText(e.text) && StandsFor(e.text, e.key) &&
    match e.child
    case NoChild => true
    case Child(i, b) => (if b.MapBlock? then i > d else i >= d) && WellLaid(b, i)
  }

  predicate WellLaidItem(item: Item, d: nat) {
    match item
    case Text(_) => true
    case Compact(gap, first, more) =>
      gap > 0 && WellLaidEntry(first, d + 1 + gap) && forall e <- more :: WellLaidEntry(e, d + 1 + gap)
    case Bare(i, b) => i > d && WellLaid(b, i)
  }

  predicate WellLaid(b: Block, d: nat) {
    match b
    case MapBlock(entries) => forall e <- entries :: WellLaidEntry(e, d)
    case SeqBlock(items) => forall item <- items :: WellLaidItem(item, d)
  }

  // --- their lines ---

  function KeyText(e: Entry): string { e.text + ":" + e.rest }

  function FirstText(gap: nat, e: Entry): string { "-" + Spaces(gap) + KeyText(e) }

  /** A line; the path of the mapping it belongs to unless it starts with a dash; and whether
      the way there is clear: every key above it is written as it is, and those on a dash's
      line follow the dash after one space. */
  datatype Row = Row(line: string, path: Option<seq<string>>, clear: bool)

  function ChildRows(e: Entry, path: seq<string>, clear: bool): seq<Row>
    decreases e, 0
  {
    match e.child
    case NoChild => []
    case Child(i, b) => Rows(b, i, path + [e.key], clear)
  }

  function EntryRows(e: Entry, d: nat, path: seq<string>, clear: bool): seq<Row>
    decreases e, 1
  {
    [Row(Spaces(d) + KeyText(e), Some(path), clear)] + ChildRows(e, path, clear && AsItIs(e))
  }

  function MapRows(entries: seq<Entry>, d: nat, path: seq<string>, clear: bool): seq<Row>
    decreases entries, 2
  {
    if entries == [] then [] else EntryRows(entries[0], d, path, clear) + MapRows(entries[1..], d, path, clear)
  }

  function ItemRows(item: Item, d: nat, path: seq<string>, clear: bool): seq<Row>
    decreases item, 3
  {
    match item
    case Text(text) => [Row(Spaces(d) + "- " + text, None, clear)]
    case Compact(gap, first, more) =>
      [Row(Spaces(d) + FirstText(gap, first), None, clear)]
      + ChildRows(first, path, clear && gap == 1 && AsItIs(first))
      + MapRows(more, d + 1 + gap, path, clear)
    case Bare(i, b) => [Row(Spaces(d) + "-", None, clear)] + Rows(b, i, path, clear)
  }

  function SeqRows(items: seq<Item>, d: nat, path: seq<string>, n: nat, clear: bool): seq<Row>
    decreases items, 4
  {
    if items == [] then []
    else ItemRows(items[0], d, path + [Itoa(n)], clear) + SeqRows(items[1..], d, path, n + 1, clear)
  }

  function Rows(b: Block, d: nat, path: seq<string>, clear: bool): seq<Row>
    decreases b, 5
  {
    match b
    case MapBlock(entries) => MapRows(entries, d, path, clear)
    case SeqBlock(items) => SeqRows(items, d, path, 0, clear)
  }

  // --- where the lines of a block are ---

  /** At the indent or deeper, on paths below the given one, and clear only if that is. */
  ghost predicate RowUnder(row: Row, d: nat, path: seq<string>, clear: bool) {
    && Blanks(row.line) >= d
    && (row.path.Some? ==> path <= row.path.value)
    && (row.clear ==> clear)
  }

  ghost predicate Under(rows: seq<Row>, d: nat, path: seq<string>, clear: bool) {
    forall row <- rows :: RowUnder(row, d, path, clear)
  }

  lemma UnderLess(rows: seq<Row>, d: nat, path: seq<string>, clear: bool, less: nat, shorter: seq<string>, more: bool)
    requires Under(rows, d, path, clear) && less <= d && shorter <= path && (clear ==> more)
    ensures Under(rows, less, shorter, more)
  {
    forall row <- rows
      ensures RowUnder(row, less, shorter, more)
    {
      assert RowUnder(row, d, path, clear);
    }
  }

  lemma {:induction false} ChildRowsUnder(e: Entry, d: nat, path: seq<string>, clear: bool)
    requires WellLaidEntry(e, d)
    ensures Under(ChildRows(e, path, clear), d, path + [e.key], clear)
    decreases e, 0
  {
    hide Under, GoodText, StandsFor;
    match e.child
    case NoChild => NoRowsUnder(d, path + [e.key], clear);
    case Child(i, b) =>
      BlockRowsUnder(b, i, path + [e.key], clear);
      UnderLess(Rows(b, i, path + [e.key], clear), i, path + [e.key], clear, d, path + [e.key], clear);
  }

  lemma NoRowsUnder(d: nat, path: seq<string>, clear: bool)
    ensures Under([], d, path, clear)
  {
  }

  lemma UnderJoins(a: seq<Row>, b: seq<Row>, d: nat, path: seq<string>, clear: bool)
    requires Under(a, d, path, clear) && Under(b, d, path, clear)
    ensures Under(a + b, d, path, clear)
  {
  }

  lemma {:induction false} EntryRowsUnder(e: Entry, d: nat, path: seq<string>, clear: bool)
    requires WellLaidEntry(e, d)
    ensures Under(EntryRows(e, d, path, clear), d, path, clear)
    decreases e, 1
  {
    hide Under, StandsFor, RowUnder, AsItIs, Blanks;
    var rows := ChildRows(e, path, clear && AsItIs(e));
    EntryIsGood(e, d);
    LineUnder(Spaces(d) + KeyText(e), Some(path), d, path, clear) by {
      KeyLineReads(d, e);
    }
    ChildRowsUnder(e, d, path, clear && AsItIs(e));
    UnderLess(rows, d, path + [e.key], clear && AsItIs(e), d, path, clear);
    UnderJoins([Row(Spaces(d) + KeyText(e), Some(path), clear)], rows, d, path, clear);
  }

  lemma LineUnder(line: string, at: Option<seq<string>>, d: nat, path: seq<string>, clear: bool)
    requires Blanks(line) == d && (at.Some? ==> at.value == path)
    ensures Under([Row(line, at, clear)], d, path, clear)
  {
  }

  lemma {:induction false} MapRowsUnder(entries: seq<Entry>, d: nat, path: seq<string>, clear: bool)
    requires forall e <- entries :: WellLaidEntry(e, d)
    ensures Under(MapRows(entries, d, path, clear), d, path, clear)
    decreases entries, 2
  {
    hide Under, WellLaidEntry, EntryRows;
    if entries == [] {
      NoRowsUnder(d, path, clear);
    } else {
      EntryRowsUnder(entries[0], d, path, clear);
      MapRowsUnder(entries[1..], d, path, clear);
      UnderJoins(EntryRows(entries[0], d, path, clear), MapRows(entries[1..], d, path, clear), d, path, clear);
    }
  }

  /** Every line of an item but the dash's own is deeper than the dash. */
  lemma {:induction false} ItemRowsUnder(item: Item, d: nat, path: seq<string>, clear: bool)
    requires WellLaidItem(item, d)
    ensures ItemRows(item, d, path, clear) != []
    ensures Under(ItemRows(item, d, path, clear), d, path, clear)
    ensures Under(ItemRows(item, d, path, clear)[1..], d + 1, path, clear)
    decreases item, 3
  {
    hide Under, WellLaidEntry, AsItIs, Blanks, FirstText;
    match item
    case Text(text) =>
      TextLineReads(d, text);
      NoRowsUnder(d + 1, path, clear);
      var row := Row(Spaces(d) + "- " + text, None, clear);
      DashThenUnder(row, [], d, path, clear);
      assert [row] + [] == [row];
    case Compact(_, _, _) => CompactRowsUnder(item, d, path, clear);
    case Bare(i, b) =>
      DashLineReads(d);
      BlockRowsUnder(b, i, path, clear);
      UnderLess(Rows(b, i, path, clear), i, path, clear, d + 1, path, clear);
      DashThenUnder(Row(Spaces(d) + "-", None, clear), Rows(b, i, path, clear), d, path, clear);
  }

  lemma {:induction false} CompactRowsUnder(item: Item, d: nat, path: seq<string>, clear: bool)
    requires item.Compact? && WellLaidItem(item, d)
    ensures ItemRows(item, d, path, clear) != []
    ensures Under(ItemRows(item, d, path, clear), d, path, clear)
    ensures Under(ItemRows(item, d, path, clear)[1..], d + 1, path, clear)
    decreases item, 2
  {
    hide Under, WellLaidEntry, AsItIs, Blanks, FirstText;
    var gap, first, more := item.gap, item.first, item.more;
    var at := clear && gap == 1 && AsItIs(first);
    var below, after := ChildRows(first, path, at), MapRows(more, d + 1 + gap, path, clear);
    EntryIsGood(first, d + 1 + gap);
    FirstLineReads(d, gap, first);
    ChildRowsUnder(first, d + 1 + gap, path, at);
    UnderLess(below, d + 1 + gap, path + [first.key], at, d + 1, path, clear);
    MapRowsUnder(more, d + 1 + gap, path, clear);
    UnderLess(after, d + 1 + gap, path, clear, d + 1, path, clear);
    UnderJoins(below, after, d + 1, path, clear);
    var row := Row(Spaces(d) + FirstText(gap, first), None, clear);
    DashThenUnder(row, below + after, d, path, clear);
    assert [row] + below + after == [row] + (below + after);
  }

  lemma DashThenUnder(row: Row, rest: seq<Row>, d: nat, path: seq<string>, clear: bool)
    requires Blanks(row.line) == d && row.path == None && row.clear == clear && Under(rest, d + 1, path, clear)
    ensures Under([row] + rest, d, path, clear) && ([row] + rest)[1..] == rest
  {
    UnderLess(rest, d + 1, path, clear, d, path, clear);
  }

  lemma {:induction false} SeqRowsUnder(items: seq<Item>, d: nat, path: seq<string>, n: nat, clear: bool)
    requires forall item <- items :: WellLaidItem(item, d)
    ensures Under(SeqRows(items, d, path, n, clear), d, path, clear)
    decreases items, 4
  {
    hide Under, WellLaidItem, ItemRows;
    if items == [] {
      NoRowsUnder(d, path, clear);
    } else {
      var rows := ItemRows(items[0], d, path + [Itoa(n)], clear);
      ItemRowsUnder(items[0], d, path + [Itoa(n)], clear);
      UnderLess(rows, d, path + [Itoa(n)], clear, d, path, clear);
      SeqRowsUnder(items[1..], d, path, n + 1, clear);
      UnderJoins(rows, SeqRows(items[1..], d, path, n + 1, clear), d, path, clear);
    }
  }

  lemma {:induction false} BlockRowsUnder(b: Block, d: nat, path: seq<string>, clear: bool)
    requires WellLaid(b, d)
    ensures Under(Rows(b, d, path, clear), d, path, clear)
    decreases b, 5
  {
    hide Under;
    match b
    case MapBlock(entries) => MapRowsUnder(entries, d, path, clear);
    case SeqBlock(items) => SeqRowsUnder(items, d, path, 0, clear);
  }

  lemma EntryIsGood(e: Entry, d: nat)
    requires WellLaidEntry(e, d)
    ensures GoodText(e.text) && StandsFor(e.text, e.key)
  {
  }

  // --- reading a printed line ---

  lemma {:induction false} SpacesAreTrimmed(d: nat, body: string)
    requires body != "" && !IsSpace(body[0])
    ensures TrimStart(Spaces(d) + body) == body
  {
    if d == 0 {
      assert Spaces(d) + body == body;
    } else {
      assert (Spaces(d) + body)[1..] == Spaces(d - 1) + body;
      SpacesAreTrimmed(d - 1, body);
    }
  }

  lemma {:induction false} TrimEndKeeps(a: string, r: string)
    requires a != "" && !IsSpace(Last(a))
    ensures TrimEnd(a + r) == a + TrimEnd(r)
  {
    if r == "" {
      assert a + r == a;
      assert a + TrimEnd(r) == a;
    } else {
      assert (a + r)[..|a + r| - 1] == a + r[..|r| - 1];
      if IsSpace(Last(r)) {
        TrimEndKeeps(a, r[..|r| - 1]);
      }
    }
  }

  lemma SpacesAreBlanks(d: nat, body: string)
    requires body != "" && !IsBlank(body[0])
    ensures Blanks(Spaces(d) + body) == d
  {
    var line := Spaces(d) + body;
    assert line[d] == body[0];
  }

  /** A line that starts with visible text keeps it, up to trailing white space. */
  lemma PrintedLine(d: nat, a: string, r: string)
    requires a != "" && !IsSpace(a[0]) && !IsSpace(Last(a))
    ensures TrimSpace(Spaces(d) + (a + r)) == a + TrimEnd(r)
    ensures Blanks(Spaces(d) + (a + r)) == d
  {
    SpacesAreTrimmed(d, a + r);
    TrimEndKeeps(a, r);
    SpacesAreBlanks(d, a + r);
  }

  lemma {:induction false} ColonAfter(key: string, r: string)
    ensures ColonAt(key + ":" + r) == ColonAt(key)
  {
    if key != "" && key[0] != ':' {
      ColonAfter(key[1..], r);
      assert (key + ":" + r)[1..] == key[1..] + ":" + r;
    }
  }

  lemma {:induction false} TrimEndShorter(r: string)
    ensures TrimEnd(r) <= r
  {
    if r != "" && IsSpace(Last(r)) {
      TrimEndShorter(r[..|r| - 1]);
    }
  }

  lemma {:induction false} TrimStartKeeps(s: string)
    ensures forall c <- TrimStart(s) :: c in s
  {
    if s != "" && IsSpace(s[0]) {
      TrimStartKeeps(s[1..]);
    }
  }

  /** A key that is read holds neither blanks nor colons. */
  lemma KeyIsPlain(s: string)
    ensures KeyOf(s).Some? ==> Plain(KeyOf(s).value)
  {
    var n := ColonAt(s);
    TrimStartKeeps(s[..n]);
    TrimEndShorter(TrimStart(s[..n]));
    if KeyOf(s).Some? {
      forall c <- KeyOf(s).value
        ensures !BlankOrColon(c)
      {
        assert c in TrimStart(s[..n]);
        assert c in s[..n];
      }
    }
  }

  /** What the walker takes for the key of an entry's line. */
  function Taken(e: Entry): Option<string> { KeyOf(KeyText(e.(rest := TrimEnd(e.rest)))) }

  lemma ColonWithin(s: string)
    ensures ColonAt(s) < |s| ==> ':' in s
  {
    var n := ColonAt(s);
    if n < |s| {
      assert s[n] in s;
    }
  }

  /** A key without blanks and colons is read, and as its own text. */
  lemma PlainKeyIsTaken(e: Entry)
    requires GoodText(e.text) && StandsFor(e.text, e.key) && Plain(e.key)
    ensures Taken(e) == Some(e.text)
    ensures AsItIs(e) <==> e.text == e.key
  {
    var s := e.text + ":" + TrimEnd(e.rest);
    assert forall c <- e.text :: !BlankOrColon(c);
    ColonAfter(e.text, TrimEnd(e.rest));
    ColonWithin(e.text);
    assert s[..|e.text|] == e.text;
    forall k | 0 <= k < |e.text|
      ensures !IsBlank(s[k])
    {
      assert s[k] in e.text;
    }
    assert TrimSpace(e.text) == e.text;
  }

  lemma KeyLineReads(d: nat, e: Entry)
    requires GoodText(e.text)
    ensures var line := Spaces(d) + KeyText(e);
            && Blanks(line) == d && !Noise(line)
            && !("- " <= TrimSpace(line)) && TrimSpace(line) != "-"
            && KeyOf(TrimSpace(line)) == Taken(e)
  {
    hide TrimSpace, KeyOf, TrimEnd, Blanks;
    var a := e.text + ":";
    assert KeyText(e) == a + e.rest;
    PrintedLine(d, a, e.rest);
    var trimmed := a + TrimEnd(e.rest);
    assert trimmed[|e.text|] == ':';
    assert e.text != "" ==> trimmed[0] == e.text[0];
    assert |e.text| > 1 ==> trimmed[1] == e.text[1];
  }

  lemma DashLineReads(d: nat)
    ensures var line := Spaces(d) + "-";
            Blanks(line) == d && !Noise(line) && TrimSpace(line) == "-"
  {
    hide TrimSpace, KeyOf, Blanks;
    assert "-" + "" == "-";
    PrintedLine(d, "-", "");
  }

  lemma TextLineReads(d: nat, text: string)
    ensures var line := Spaces(d) + "- " + text;
            Blanks(line) == d && !Noise(line) && ("- " <= TrimSpace(line) || TrimSpace(line) == "-")
  {
    hide TrimSpace, KeyOf, Blanks;
    var line := Spaces(d) + "- " + text;
    assert line == Spaces(d) + ("-" + (" " + text));
    PrintedLine(d, "-", " " + text);
    TrimEndShorter(" " + text);
    var trimmed := TrimSpace(line);
    if !("- " <= trimmed) {
      assert TrimEnd(" " + text) == "";
    }
  }

  /** The first key on a dash's line is read only when one space precedes it. */
  lemma FirstLineReads(d: nat, gap: nat, e: Entry)
    requires GoodText(e.text) && gap > 0
    ensures var line := Spaces(d) + FirstText(gap, e);
            && Blanks(line) == d && !Noise(line)
            && "- " <= TrimSpace(line)
            && KeyOf(TrimSpace(line)[2..]) == if gap == 1 then Taken(e) else None
  {
    hide TrimSpace, KeyOf, TrimEnd, Blanks;
    var a := "-" + Spaces(gap) + e.text + ":";
    assert FirstText(gap, e) == a + e.rest;
    PrintedLine(d, a, e.rest);
    var trimmed := a + TrimEnd(e.rest);
    assert trimmed[0] == '-' && trimmed[1] == ' ';
    var left := e.text + ":" + TrimEnd(e.rest);
    assert trimmed[2..] == Spaces(gap - 1) + left;
    if gap == 1 {
      assert trimmed[2..] == left;
    } else {
      NoKeyAfterBlank(trimmed[2..]);
    }
  }

  lemma NoKeyAfterBlank(s: string)
    requires s != "" && s[0] == ' '
    ensures KeyOf(s) == None
  {
    var n := ColonAt(s);
    assert n < |s| ==> s[n] == ':';
  }
}
