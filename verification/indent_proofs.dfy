/** When the indentation walker recovers paths: on a block document laid out from a tree, it
    returns the pointer of the mapping the cursor's line belongs to exactly when every key
    above the line is written as it is and follows its dash, if any, after one space. */
module IndentProofs {
  import opened IndentLayouts
  import opened IndentWalker
  import opened JsonPointer
  import opened Options
  import opened Strings
  import opened TextPositions

  // --- the stack on any text ---

  /** Indents never shrink upwards, and stay level only from a key to its list. */
  predicate Shaped(s: Stack) {
    forall k :: 0 < k < |s| ==>
      s[k - 1].indent < s[k].indent
      || (s[k - 1].indent == s[k].indent && s[k - 1].KeyFrame? && s[k].SeqFrame?)
  }

  lemma KeyKeepsShape(s: Stack, indent: nat, key: string)
    requires Shaped(s)
    ensures Shaped(WithKey(s, indent, key))
  {
  }

  lemma ItemKeepsShape(s: Stack, indent: nat)
    requires Shaped(s)
    ensures Shaped(WithItem(s, indent))
  {
  }

  lemma StepKeepsShape(s: Stack, line: string)
    requires Shaped(s)
    ensures Shaped(Step(s, line))
  {
    hide TrimSpace, KeyOf, WithKey, WithItem, Shaped;
    var indent, trimmed := Blanks(line), TrimSpace(line);
    ItemKeepsShape(s, indent);
    if !Noise(line) {
      if "- " <= trimmed {
        match KeyOf(trimmed[2..])
        case Some(k) => KeyKeepsShape(WithItem(s, indent), indent + 2, k);
        case None =>
      } else {
        match KeyOf(trimmed)
        case Some(k) => KeyKeepsShape(s, indent, k);
        case None =>
      }
    }
  }

  lemma {:induction false} WalkKeepsShape(s: Stack, lines: seq<string>)
    requires Shaped(s)
    ensures Shaped(Walk(s, lines))
    decreases |lines|
  {
    hide Step, Shaped;
    if lines != [] {
      StepKeepsShape(s, lines[0]);
      WalkKeepsShape(Step(s, lines[0]), lines[1..]);
    }
  }

  /** On any text, the walker's stack has that shape at every line, and every frame of the
      answer is less indented than the cursor's line. */
  lemma StackIsShaped(lines: seq<string>, c: nat)
    requires c < |lines|
    ensures Shaped(Walk([], lines[..c])) && Shaped(StackAt(lines, c))
    ensures forall f <- StackAt(lines, c) :: f.indent < Blanks(lines[c])
  {
    hide Walk;
    WalkKeepsShape([], lines[..c]);
    PoppedIsBelow(Walk([], lines[..c]), Blanks(lines[c]));
  }

  lemma PoppedIsBelow(s: Stack, indent: nat)
    requires Shaped(s)
    ensures Shaped(PoppedTo(s, indent))
    ensures forall f <- PoppedTo(s, indent) :: f.indent < indent
  {
    var p := PoppedTo(s, indent);
    if p != [] {
      AllAtMostLast(p);
    }
  }

  lemma {:induction false} AllAtMostLast(s: Stack)
    requires Shaped(s) && s != []
    ensures forall f <- s :: f.indent <= Last(s).indent
  {
    if |s| > 1 {
      var init := s[..|s| - 1];
      AllAtMostLast(init);
      assert s == init + [Last(s)];
    }
  }

  // --- the steps of printed lines ---

  lemma KeyStep(s: Stack, d: nat, e: Entry)
    requires GoodText(e.text)
    ensures Step(s, Spaces(d) + KeyText(e)) == match Taken(e) case Some(k) => WithKey(s, d, k) case None => s
    ensures Blanks(Spaces(d) + KeyText(e)) == d
  {
    hide TrimSpace, KeyOf, Noise, WithKey, WithItem, Blanks, Taken, GoodText;
    KeyLineReads(d, e);
  }

  /** What is read of the first key on a dash's line. */
  function FirstTaken(gap: nat, e: Entry): Option<string> { if gap == 1 then Taken(e) else None }

  lemma FirstStep(s: Stack, d: nat, gap: nat, e: Entry)
    requires GoodText(e.text) && gap > 0
    ensures Step(s, Spaces(d) + FirstText(gap, e)) ==
              match FirstTaken(gap, e)
              case Some(k) => WithKey(WithItem(s, d), d + 2, k)
              case None => WithItem(s, d)
  {
    hide TrimSpace, KeyOf, Noise, WithKey, WithItem, Blanks, Taken, FirstText, GoodText;
    FirstLineReads(d, gap, e);
  }

  // --- the stack while a document is read ---

  ghost predicate AllBelow(c: Stack, d: nat) { forall f <- c :: f.indent < d }

  ghost predicate AllAtMost(c: Stack, d: nat) { forall f <- c :: f.indent <= d }

  /** The context lies at the bottom, and everything on top of it is at d or deeper. */
  ghost predicate Sits(s: Stack, c: Stack, d: nat) {
    c <= s && forall k :: |c| <= k < |s| ==> s[k].indent >= d
  }

  /** A list at d can start here: the context is no deeper, and its top is not a list at d. */
  ghost predicate ListContext(c: Stack, d: nat) {
    AllAtMost(c, d) && (c != [] ==> !(Last(c).SeqFrame? && Last(c).indent == d))
  }

  /** Just before item n of a list at d. */
  ghost predicate AtItem(s: Stack, c: Stack, d: nat, n: nat) {
    if n == 0 then s == c
    else
      && |s| > |c| && c <= s && s[|c|] == SeqFrame(d, n - 1)
      && forall k :: |c| < k < |s| ==> s[k].indent > d
  }

  lemma {:induction false} PoppedToContext(s: Stack, c: Stack, d: nat)
    requires AllBelow(c, d) && Sits(s, c, d)
    ensures PoppedTo(s, d) == c
  {
    if |s| > |c| {
      PoppedToContext(s[..|s| - 1], c, d);
    } else {
      assert s == c;
    }
  }

  lemma {:induction false} PoppedBelowContext(s: Stack, c: Stack, d: nat)
    requires AllAtMost(c, d) && c <= s && forall k :: |c| <= k < |s| ==> s[k].indent > d
    ensures PoppedBelow(s, d) == c
  {
    if |s| > |c| {
      PoppedBelowContext(s[..|s| - 1], c, d);
    } else {
      assert s == c;
    }
  }

  lemma NextItem(s: Stack, c: Stack, d: nat, n: nat)
    requires ListContext(c, d) && AtItem(s, c, d, n)
    ensures WithItem(s, d) == c + [SeqFrame(d, n)]
  {
    if n == 0 {
      PoppedBelowContext(s, c, d);
    } else {
      var up := c + [SeqFrame(d, n - 1)];
      assert s[..|c| + 1] == up;
      PoppedBelowContext(s, up, d);
    }
  }

  lemma KeyOnContext(s: Stack, c: Stack, d: nat, key: string)
    requires AllBelow(c, d) && Sits(s, c, d)
    ensures WithKey(s, d, key) == c + [KeyFrame(d, key)]
  {
    PoppedToContext(s, c, d);
  }

  lemma {:induction false} PoppedKeepsContext(s: Stack, c: Stack, d: nat, i: nat)
    requires AllBelow(c, d) && Sits(s, c, d) && i >= d
    ensures Sits(PoppedTo(s, i), c, d) && Sits(PoppedBelow(s, i), c, d)
  {
    if |s| > |c| {
      PoppedKeepsContext(s[..|s| - 1], c, d, i);
    } else {
      assert s == c;
      assert s != [] ==> Last(s) in c;
    }
  }

  lemma KeyKeepsContext(s: Stack, c: Stack, d: nat, i: nat, key: string)
    requires AllBelow(c, d) && Sits(s, c, d) && i >= d
    ensures Sits(WithKey(s, i, key), c, d)
  {
    PoppedKeepsContext(s, c, d, i);
  }

  lemma LastIsOnTop(s: Stack, c: Stack, d: nat)
    requires AllBelow(c, d) && c <= s && s != []
    ensures Last(s).indent >= d ==> |s| > |c|
  {
    if |s| == |c| {
      assert s == c;
      assert Last(s) in c;
    }
  }

  lemma ItemKeepsContext(s: Stack, c: Stack, d: nat, i: nat)
    requires AllBelow(c, d) && Sits(s, c, d) && i >= d
    ensures Sits(WithItem(s, i), c, d)
  {
    PoppedKeepsContext(s, c, d, i);
    var p := PoppedBelow(s, i);
    if p != [] && Last(p).indent == i {
      LastIsOnTop(p, c, d);
      assert p[..|p| - 1] + [SeqFrame(i, 0)] == p[|p| - 1 := SeqFrame(i, 0)];
    }
  }

  /** A line at d or deeper leaves what lies below d alone. */
  lemma StepKeepsContext(s: Stack, c: Stack, d: nat, line: string)
    requires AllBelow(c, d) && Sits(s, c, d) && Blanks(line) >= d
    ensures Sits(Step(s, line), c, d)
  {
    hide TrimSpace, KeyOf, WithKey, WithItem, AllBelow, Sits, Noise;
    var i, trimmed := Blanks(line), TrimSpace(line);
    ItemKeepsContext(s, c, d, i);
    if "- " <= trimmed {
      match KeyOf(trimmed[2..])
      case Some(k) => KeyKeepsContext(WithItem(s, i), c, d, i + 2, k);
      case None =>
    } else {
      match KeyOf(trimmed)
      case Some(k) => KeyKeepsContext(s, c, d, i, k);
      case None =>
    }
  }

  /** A dash's line opens its item, and what else it adds is deeper. */
  lemma DashOpensItem(s: Stack, c: Stack, d: nat, n: nat, line: string)
    requires ListContext(c, d) && AtItem(s, c, d, n)
    requires Blanks(line) == d && !Noise(line) && ("- " <= TrimSpace(line) || TrimSpace(line) == "-")
    ensures Sits(Step(s, line), c + [SeqFrame(d, n)], d + 1)
  {
    hide TrimSpace, KeyOf, WithKey, WithItem, Noise;
    var up := c + [SeqFrame(d, n)];
    NextItem(s, c, d, n);
    var trimmed := TrimSpace(line);
    if "- " <= trimmed && KeyOf(trimmed[2..]).Some? {
      KeyKeepsContext(up, up, d + 1, d + 2, KeyOf(trimmed[2..]).value);
    }
  }

  lemma SitsIsAtItem(s: Stack, c: Stack, d: nat, n: nat)
    requires Sits(s, c + [SeqFrame(d, n)], d + 1)
    ensures AtItem(s, c, d, n + 1)
  {
    var up := c + [SeqFrame(d, n)];
    assert s[..|up|] == up;
    assert s[|c|] == up[|c|];
    assert s[..|c|] == up[..|c|] == c;
  }

  // --- keys on the stack ---

  ghost predicate PlainStack(s: Stack) { forall f <- s :: f.KeyFrame? ==> Plain(f.key) }

  /** No frame's key holds a blank or a colon. */
  lemma StepStaysPlain(s: Stack, line: string)
    requires PlainStack(s)
    ensures PlainStack(Step(s, line))
  {
    hide TrimSpace, KeyOf, Plain, Noise;
    var trimmed := TrimSpace(line);
    KeyIsPlain(trimmed);
    if "- " <= trimmed {
      KeyIsPlain(trimmed[2..]);
    }
  }

  function Segment(f: Frame): string {
    match f case KeyFrame(_, k) => k case SeqFrame(_, n) => Itoa(n)
  }

  lemma PathOfMore(c: Stack, f: Frame)
    ensures PathOf(c + [f]) == PathOf(c) + [Segment(f)]
  {
    assert (c + [f])[..|c|] == c;
  }

  lemma {:induction false} PathIsPlain(s: Stack)
    requires PlainStack(s)
    ensures forall seg <- PathOf(s) :: Plain(seg)
  {
    if s != [] {
      var init := s[..|s| - 1];
      PathIsPlain(init);
      PathOfMore(init, Last(s));
      assert s == init + [Last(s)];
      match Last(s)
      case KeyFrame(_, _) => assert Last(s) in s;
      case SeqFrame(_, n) => NumberIsPlain(n);
    }
  }

  lemma NumberIsPlain(n: nat)
    ensures Plain(Itoa(n))
  {
    DigitsOfItoa(n);
  }

  ghost predicate Blocked(path: seq<string>) { exists seg <- path :: !Plain(seg) }

  /** The stack stands for the path if the way there is clear, and for no path below it
      otherwise. */
  ghost predicate Tracks(c: Stack, path: seq<string>, clear: bool) {
    if clear then PathOf(c) == path else !(path <= PathOf(c))
  }

  lemma TracksFurther(c: Stack, path: seq<string>, clear: bool, f: Frame, key: string)
    requires Tracks(c, path, clear)
    ensures Tracks(c + [f], path + [key], clear && Segment(f) == key)
  {
    PathOfMore(c, f);
    var at, to := PathOf(c) + [Segment(f)], path + [key];
    if to <= at {
      assert to[..|path|] == path && at[..|path|] == PathOf(c)[..|path|];
      assert to[|path|] == at[|path|];
    }
  }

  lemma TracksNoLonger(c: Stack, path: seq<string>, clear: bool, key: string)
    requires Tracks(c, path, clear)
    ensures Tracks(c, path + [key], false)
  {
    if path + [key] <= PathOf(c) {
      assert (path + [key])[..|path|] == path;
    }
  }

  // --- the walker over printed rows ---

  /** The row's path is what the walker finds if and only if the way there is clear. */
  ghost predicate RowReads(s: Stack, row: Row) {
    row.path.Some? ==> (PathOf(PoppedTo(s, Blanks(row.line))) == row.path.value <==> row.clear)
  }

  /** Every row with a path is read so, when the stack before the first is s. */
  ghost predicate RowsRead(s: Stack, rows: seq<Row>)
    decreases |rows|
  {
    rows == [] || (RowReads(s, rows[0]) && RowsRead(Step(s, rows[0].line), rows[1..]))
  }

  function After(s: Stack, rows: seq<Row>): Stack
    decreases |rows|
  {
    if rows == [] then s else After(Step(s, rows[0].line), rows[1..])
  }

  lemma {:induction false} RowsJoin(s: Stack, a: seq<Row>, b: seq<Row>)
    ensures After(s, a + b) == After(After(s, a), b)
    ensures RowsRead(s, a + b) <==> RowsRead(s, a) && RowsRead(After(s, a), b)
    decreases |a|
  {
    hide Step, RowReads;
    if a == [] {
      assert a + b == b;
    } else {
      assert (a + b)[1..] == a[1..] + b;
      RowsJoin(Step(s, a[0].line), a[1..], b);
    }
  }

  lemma OneRow(s: Stack, row: Row)
    ensures After(s, [row]) == Step(s, row.line)
    ensures RowsRead(s, [row]) <==> RowReads(s, row)
  {
    assert [row][1..] == [];
  }

  lemma DashRowReads(s: Stack, row: Row)
    requires row.path.None?
    ensures RowReads(s, row)
  {
  }

  lemma {:induction false} RowsKeepContext(s: Stack, rows: seq<Row>, c: Stack, d: nat, path: seq<string>, clear: bool)
    requires AllBelow(c, d) && Sits(s, c, d) && Under(rows, d, path, clear)
    ensures Sits(After(s, rows), c, d)
    decreases |rows|
  {
    hide Step, AllBelow, Sits, Blanks;
    if rows != [] {
      assert RowUnder(rows[0], d, path, clear);
      StepKeepsContext(s, c, d, rows[0].line);
      RowsKeepContext(Step(s, rows[0].line), rows[1..], c, d, path, clear);
    }
  }

  lemma {:induction false} RowsStayPlain(s: Stack, rows: seq<Row>)
    requires PlainStack(s)
    ensures PlainStack(After(s, rows))
    decreases |rows|
  {
    hide Step, PlainStack;
    if rows != [] {
      StepStaysPlain(s, rows[0].line);
      RowsStayPlain(Step(s, rows[0].line), rows[1..]);
    }
  }

  /** Below a key that holds a blank or a colon no path is ever found. */
  lemma {:induction false} BlockedRowsRead(s: Stack, rows: seq<Row>, d: nat, path: seq<string>)
    requires PlainStack(s) && Blocked(path) && Under(rows, d, path, false)
    ensures RowsRead(s, rows)
    decreases |rows|
  {
    hide Step, PlainStack, Blocked, Blanks;
    if rows != [] {
      assert RowUnder(rows[0], d, path, false);
      BlockedRowReads(s, rows[0], d, path);
      StepStaysPlain(s, rows[0].line);
      BlockedRowsRead(Step(s, rows[0].line), rows[1..], d, path);
    }
  }

  lemma BlockedRowReads(s: Stack, row: Row, d: nat, path: seq<string>)
    requires PlainStack(s) && Blocked(path) && RowUnder(row, d, path, false)
    ensures RowReads(s, row)
  {
    hide Plain, PathOf, Blanks;
    var p := PoppedTo(s, Blanks(row.line));
    PathIsPlain(p);
    var seg :| seg in path && !Plain(seg);
    if row.path.Some? {
      assert seg in row.path.value;
    }
  }

  /** The rows of a key's own block, read after the key's line left s. */
  lemma {:induction false} ChildRowsRead(e: Entry, d: nat, s: Stack, path: seq<string>, clear: bool)
    requires WellLaidEntry(e, d) && ListContext(s, d) && PlainStack(s)
    requires Tracks(s, path + [e.key], clear)
    ensures RowsRead(s, ChildRows(e, path, clear))
    decreases e, 0
  {
    hide Step, RowReads, GoodText, StandsFor, Tracks, PlainStack;
    match e.child
    case NoChild =>
    case Child(i, b) =>
      ContextHolds(s, d, i);
      BlockRowsRead(b, i, s, path + [e.key], clear);
  }

  lemma ContextHolds(s: Stack, d: nat, i: nat)
    requires ListContext(s, d)
    ensures i >= d ==> ListContext(s, i)
    ensures i > d ==> AllBelow(s, i)
  {
    assert s != [] ==> Last(s) in s;
  }

  /** The same from before the key's line, in a mapping at d on the context c. */
  lemma {:induction false} KeyedRowsRead(e: Entry, d: nat, c: Stack, s: Stack, path: seq<string>, clear: bool)
    requires WellLaidEntry(e, d) && AllBelow(c, d) && Sits(s, c, d) && PlainStack(s) && Tracks(c, path, clear)
    ensures RowsRead(Step(s, Spaces(d) + KeyText(e)), ChildRows(e, path, clear && AsItIs(e)))
    decreases e, 1
  {
    hide Step, RowsRead, GoodText, StandsFor, Tracks, PlainStack, ChildRows, Plain, Taken;
    EntryIsGood(e, d);
    KeyStep(s, d, e);
    var s1 := Step(s, Spaces(d) + KeyText(e));
    StepStaysPlain(s, Spaces(d) + KeyText(e));
    if Plain(e.key) {
      PlainKeyIsTaken(e);
      KeyOnContext(s, c, d, e.text);
      TracksFurther(c, path, clear, KeyFrame(d, e.text), e.key);
      ChildRowsRead(e, d, s1, path, clear && AsItIs(e));
    } else {
      ChildRowsUnder(e, d, path, false);
      BlockedBy(path, e.key);
      BlockedRowsRead(s1, ChildRows(e, path, false), d, path + [e.key]);
    }
  }

  lemma BlockedBy(path: seq<string>, key: string)
    requires !Plain(key)
    ensures Blocked(path + [key])
  {
    hide Plain;
    assert key in path + [key];
  }

  lemma {:induction false} MapRowsRead(entries: seq<Entry>, d: nat, c: Stack, s: Stack, path: seq<string>, clear: bool)
    requires (forall e <- entries :: WellLaidEntry(e, d)) && AllBelow(c, d) && Sits(s, c, d)
    requires PlainStack(s) && Tracks(c, path, clear)
    ensures RowsRead(s, MapRows(entries, d, path, clear))
    decreases entries, 2
  {
    hide Step, RowReads, RowsRead, WellLaidEntry, ChildRows, Sits, AllBelow, PathOf, PlainStack, Tracks, AsItIs, Under;
    if entries == [] {
      NoRowsRead(s);
    } else {
      var e := entries[0];
      var row, below := Row(Spaces(d) + KeyText(e), Some(path), clear), ChildRows(e, path, clear && AsItIs(e));
      KeyRowReads(e, d, c, s, path, clear);
      OneRow(s, row);
      KeyedRowsRead(e, d, c, s, path, clear);
      RowsJoin(s, [row], below);
      EntryRowsUnder(e, d, path, clear);
      RowsKeepContext(s, [row] + below, c, d, path, clear);
      RowsStayPlain(s, [row] + below);
      MapRowsRead(entries[1..], d, c, After(s, [row] + below), path, clear);
      RowsJoin(s, [row] + below, MapRows(entries[1..], d, path, clear));
    }
  }

  lemma NoRowsRead(s: Stack)
    ensures RowsRead(s, [])
  {
  }

  lemma KeyRowReads(e: Entry, d: nat, c: Stack, s: Stack, path: seq<string>, clear: bool)
    requires WellLaidEntry(e, d) && AllBelow(c, d) && Sits(s, c, d) && Tracks(c, path, clear)
    ensures RowReads(s, Row(Spaces(d) + KeyText(e), Some(path), clear))
  {
    hide Step, AllBelow, Sits, PathOf, KeyText, Taken, Blanks, GoodText, PoppedTo;
    EntryIsGood(e, d);
    KeyStep(s, d, e);
    PoppedToContext(s, c, d);
  }

  /** The rows of one list item; n counts the items before it. */
  lemma {:induction false} ItemRowsRead(item: Item, d: nat, c: Stack, n: nat, s: Stack, path: seq<string>, clear: bool)
    requires WellLaidItem(item, d) && ListContext(c, d) && AtItem(s, c, d, n) && PlainStack(s)
    requires Tracks(c + [SeqFrame(d, n)], path, clear)
    ensures RowsRead(s, ItemRows(item, d, path, clear))
    decreases item, 3
  {
    hide Step, RowReads, RowsRead, WellLaidEntry, WithItem, WithKey, PathOf, Tracks, PlainStack, AtItem;
    var up := c + [SeqFrame(d, n)];
    NextItem(s, c, d, n);
    match item
    case Text(text) =>
      var row := Row(Spaces(d) + "- " + text, None, clear);
      DashRowReads(s, row);
      OneRow(s, row);
    case Compact(gap, first, more) =>
      CompactRowsRead(item, d, s, up, path, clear);
    case Bare(i, b) =>
      var row := Row(Spaces(d) + "-", None, clear);
      DashLineReads(d);
      DashStep(s, d);
      DashRowReads(s, row);
      OneRow(s, row);
      StepStaysPlain(s, row.line);
      BlockRowsRead(b, i, up, path, clear);
      RowsJoin(s, [row], Rows(b, i, path, clear));
  }

  lemma DashStep(s: Stack, d: nat)
    ensures Step(s, Spaces(d) + "-") == WithItem(s, d)
  {
    hide TrimSpace, KeyOf, WithKey, WithItem, Blanks, Noise;
    DashLineReads(d);
  }

  lemma {:induction false} CompactRowsRead(item: Item, d: nat, s: Stack, up: Stack, path: seq<string>, clear: bool)
    requires item.Compact? && WellLaidItem(item, d) && PlainStack(s)
    requires WithItem(s, d) == up && ListContext(up, d + 1) && AllBelow(up, d + 1) && Tracks(up, path, clear)
    ensures RowsRead(s, ItemRows(item, d, path, clear))
    decreases item, 2
  {
    hide Step, RowReads, RowsRead, WellLaidEntry, WithItem, WithKey, PathOf, Tracks, PlainStack, AllBelow, Sits,
      ListContext, AsItIs, Under, FirstText;
    var gap, first, more := item.gap, item.first, item.more;
    var at := clear && gap == 1 && AsItIs(first);
    var row, below := Row(Spaces(d) + FirstText(gap, first), None, clear), ChildRows(first, path, at);
    var s1 := Step(s, row.line);
    DashRowReads(s, row);
    OneRow(s, row);
    StepStaysPlain(s, row.line);
    FirstRowsRead(first, d, gap, s, up, path, clear);
    RowsJoin(s, [row], below);
    ChildRowsUnder(first, d + 1 + gap, path, at);
    RowsKeepContext(s1, below, up, d + 1 + gap, path + [first.key], at);
    RowsStayPlain(s1, below);
    MapRowsRead(more, d + 1 + gap, up, After(s1, below), path, clear);
    RowsJoin(s, [row] + below, MapRows(more, d + 1 + gap, path, clear));
  }

  /** The block of the first key on a dash's line. */
  lemma {:induction false} FirstRowsRead(e: Entry, d: nat, gap: nat, s: Stack, up: Stack, path: seq<string>,
                                        clear: bool)
    requires gap > 0 && WellLaidEntry(e, d + 1 + gap) && PlainStack(s)
    requires WithItem(s, d) == up && ListContext(up, d + 1) && AllBelow(up, d + 1) && Tracks(up, path, clear)
    ensures var s1 := Step(s, Spaces(d) + FirstText(gap, e));
            && RowsRead(s1, ChildRows(e, path, clear && gap == 1 && AsItIs(e)))
            && Sits(s1, up, d + 1 + gap) && AllBelow(up, d + 1 + gap)
    decreases e, 1
  {
    hide Step, RowsRead, GoodText, StandsFor, Tracks, PlainStack, ChildRows, Plain, Taken, WithItem;
    EntryIsGood(e, d + 1 + gap);
    FirstStep(s, d, gap, e);
    var s1 := Step(s, Spaces(d) + FirstText(gap, e));
    StepStaysPlain(s, Spaces(d) + FirstText(gap, e));
    ContextHolds(up, d + 1, d + 1 + gap);
    if FirstTaken(gap, e).Some? {
      KeyOnContext(up, up, d + 2, FirstTaken(gap, e).value);
    }
    if gap > 1 {
      TracksNoLonger(up, path, clear, e.key);
      ChildRowsRead(e, d + 1 + gap, up, path, false);
    } else if Plain(e.key) {
      PlainKeyIsTaken(e);
      TracksFurther(up, path, clear, KeyFrame(d + 2, e.text), e.key);
      ChildRowsRead(e, d + 2, s1, path, clear && AsItIs(e));
    } else {
      ChildRowsUnder(e, d + 2, path, false);
      BlockedBy(path, e.key);
      BlockedRowsRead(s1, ChildRows(e, path, false), d + 2, path + [e.key]);
    }
  }

  lemma {:induction false} SeqRowsRead(items: seq<Item>, d: nat, c: Stack, n: nat, s: Stack, path: seq<string>,
                                       clear: bool)
    requires (forall item <- items :: WellLaidItem(item, d)) && ListContext(c, d) && AtItem(s, c, d, n)
    requires PlainStack(s) && Tracks(c, path, clear)
    ensures RowsRead(s, SeqRows(items, d, path, n, clear))
    decreases items, 4
  {
    hide Step, RowReads, RowsRead, WellLaidItem, ListContext, PathOf, ItemRows, Tracks, PlainStack, AtItem;
    if items == [] {
      NoRowsRead(s);
    } else {
      var at := path + [Itoa(n)];
      var rows := ItemRows(items[0], d, at, clear);
      TracksFurther(c, path, clear, SeqFrame(d, n), Itoa(n));
      ItemRowsRead(items[0], d, c, n, s, at, clear);
      ItemLeaves(items[0], d, c, n, s, at, clear);
      RowsStayPlain(s, rows);
      SeqRowsRead(items[1..], d, c, n + 1, After(s, rows), path, clear);
      RowsJoin(s, rows, SeqRows(items[1..], d, path, n + 1, clear));
    }
  }

  /** The stack an item leaves for the next. */
  lemma ItemLeaves(item: Item, d: nat, c: Stack, n: nat, s: Stack, path: seq<string>, clear: bool)
    requires WellLaidItem(item, d) && ListContext(c, d) && AtItem(s, c, d, n)
    ensures AtItem(After(s, ItemRows(item, d, path, clear)), c, d, n + 1)
  {
    hide Step, WellLaidItem, Sits, AtItem, Noise, TrimSpace, Under, ItemRows;
    var rows, up := ItemRows(item, d, path, clear), c + [SeqFrame(d, n)];
    ItemRowsUnder(item, d, path, clear);
    ItemStartsWithDash(item, d, path, clear);
    DashOpensItem(s, c, d, n, rows[0].line);
    RowsKeepContext(Step(s, rows[0].line), rows[1..], up, d + 1, path, clear);
    SitsIsAtItem(After(s, rows), c, d, n);
  }

  lemma ItemStartsWithDash(item: Item, d: nat, path: seq<string>, clear: bool)
    requires WellLaidItem(item, d)
    ensures ItemRows(item, d, path, clear) != []
    ensures var line := ItemRows(item, d, path, clear)[0].line;
            Blanks(line) == d && !Noise(line) && ("- " <= TrimSpace(line) || TrimSpace(line) == "-")
  {
    hide TrimSpace, Noise, Blanks, FirstText, KeyOf, WellLaidEntry;
    match item
    case Text(text) => TextLineReads(d, text);
    case Compact(gap, first, _) =>
      EntryIsGood(first, d + 1 + gap);
      FirstLineReads(d, gap, first);
    case Bare(_, _) => DashLineReads(d);
  }

  /** The rows of a block on the context c. */
  lemma {:induction false} BlockRowsRead(b: Block, d: nat, c: Stack, path: seq<string>, clear: bool)
    requires WellLaid(b, d) && PlainStack(c) && Tracks(c, path, clear)
    requires if b.MapBlock? then AllBelow(c, d) else ListContext(c, d)
    ensures RowsRead(c, Rows(b, d, path, clear))
    decreases b, 5
  {
    hide Step, RowReads, RowsRead, PathOf, Tracks, PlainStack;
    match b
    case MapBlock(entries) => MapRowsRead(entries, d, c, c, path, clear);
    case SeqBlock(items) => SeqRowsRead(items, d, c, 0, c, path, clear);
  }

  // --- the result ---

  function RowLines(rows: seq<Row>): (lines: seq<string>)
    ensures |lines| == |rows|
    ensures forall k :: 0 <= k < |rows| ==> lines[k] == rows[k].line
  {
    seq(|rows|, k requires 0 <= k < |rows| => rows[k].line)
  }

  /** The lines that are neither empty nor comments. */
  function Visible(lines: seq<string>): seq<string> {
    if lines == [] then [] else (if Noise(lines[0]) then [] else [lines[0]]) + Visible(lines[1..])
  }

  lemma {:induction false} WalkIgnoresNoise(s: Stack, lines: seq<string>)
    ensures Walk(s, lines) == Walk(s, Visible(lines))
    decreases |lines|
  {
    hide TrimSpace;
    if lines != [] {
      WalkIgnoresNoise(Step(s, lines[0]), lines[1..]);
      if Noise(lines[0]) {
        assert Visible(lines) == Visible(lines[1..]);
      } else {
        assert Visible(lines)[0] == lines[0] && Visible(lines)[1..] == Visible(lines[1..]);
      }
    }
  }

  lemma {:induction false} RowIsRead(s: Stack, rows: seq<Row>, k: nat)
    requires RowsRead(s, rows) && k < |rows|
    ensures RowReads(Walk(s, RowLines(rows[..k])), rows[k])
    decreases |rows|
  {
    hide Step, RowReads;
    if k > 0 {
      RowIsRead(Step(s, rows[0].line), rows[1..], k - 1);
      assert RowLines(rows[..k])[1..] == RowLines(rows[1..][..k - 1]);
    }
  }

  /** The line is row k of the document, and what is above it in the text are the rows above
      it, with empty lines and comments anywhere between them. */
  ghost predicate LineIsRow(lines: seq<string>, c: nat, rows: seq<Row>, k: nat) {
    && c < |lines| && k < |rows| && lines[c] == rows[k].line
    && Visible(lines[..c]) == RowLines(rows[..k])
  }

  /** Take a block document laid out at any indent. With the cursor on a mapping line that does
      not share a dash's line, the walker returns the pointer of that mapping if and only if
      the way there is clear. */
  lemma WalkerRecoversPath(b: Block, d: nat, lines: seq<string>, c: nat, k: nat)
    requires WellLaid(b, d) && LineIsRow(lines, c, Rows(b, d, [], true), k)
    ensures var row := Rows(b, d, [], true)[k];
            row.path.Some? ==> (Inferred(lines, c) == PointerTo(row.path.value) <==> row.clear)
  {
    hide WellLaid, Rows, Step, Walk, PointerTo, Noise, PathOf;
    var rows := Rows(b, d, [], true);
    EmptyContext(d);
    BlockRowsRead(b, d, [], [], true);
    RowIsRead([], rows, k);
    WalkIgnoresNoise([], lines[..c]);
    if rows[k].path.Some? {
      PointersDiffer(PathOf(StackAt(lines, c)), rows[k].path.value);
    }
  }

  lemma EmptyContext(d: nat)
    ensures AllBelow([], d) && ListContext([], d) && PlainStack([]) && Tracks([], [], true)
  {
  }

  /** Different segments are written as different pointers. */
  lemma PointersDiffer(a: seq<string>, b: seq<string>)
    ensures PointerTo(a) == PointerTo(b) <==> a == b
  {
    hide PointerTo, Segments;
    PointerStandsForSegments(a);
    PointerStandsForSegments(b);
    RootIsNotTheEmptyKey();
  }

  lemma RootIsNotTheEmptyKey()
    ensures PointerTo([]) == "" && |PointerTo([""])| == 1
  {
    assert Escape("") == "";
    assert PointerUpTo([""], 0) == "";
    assert PointerUpTo([""], 1) == "" + "/" + "";
  }

  /** On a clear way the answer's segments are the keys and item numbers themselves, with the
      exception of the empty key of the root. */
  lemma WalkerPointsToMapping(b: Block, d: nat, lines: seq<string>, c: nat, k: nat)
    requires WellLaid(b, d) && LineIsRow(lines, c, Rows(b, d, [], true), k)
    ensures var row := Rows(b, d, [], true)[k];
            row.path.Some? && row.clear && row.path != Some([""]) ==>
              Segments(Inferred(lines, c)) == row.path.value
  {
    hide WellLaid, Rows, Inferred, PointerTo, Segments, Visible;
    var rows := Rows(b, d, [], true);
    WalkerRecoversPath(b, d, lines, c, k);
    if rows[k].path.Some? {
      PointerStandsForSegments(rows[k].path.value);
    }
  }

  // --- where it goes wrong ---

  lemma BelowOneLine(line: string, at: string)
    ensures Inferred([line, at], 1) == PointerTo(PathOf(PoppedTo(Step([], line), Blanks(at))))
  {
    hide Step, PathOf, PointerTo, PoppedTo, Blanks;
    var above := [line, at][..1];
    assert above == [line];
    assert [line][1..] == [];
    assert Walk([], above) == Walk(Step([], line), []);
  }

  lemma OneSegment(f: Frame, d: nat)
    requires f.indent < d && '~' !in Segment(f) && '/' !in Segment(f)
    ensures PointerTo(PathOf(PoppedTo([f], d))) == "/" + Segment(f)
  {
    PathOfMore([], f);
    assert [] + [f] == [f];
    var path := PathOf([f]);
    assert path == [Segment(f)];
    PlainNeedsNoEscape(Segment(f));
    assert PointerUpTo(path, 0) == "";
    assert PointerUpTo(path, 1) == "" + "/" + Segment(f);
  }

  lemma NothingPushed(d: nat)
    ensures PointerTo(PathOf(PoppedTo([], d))) == ""
  {
    RootIsNotTheEmptyKey();
  }

  const BELOW := "      x: 1"

  /** One line below a line without a dash: the key that line is read with. */
  lemma BelowKeyLine(line: string)
    requires line != "" && !IsSpace(line[0]) && !IsSpace(Last(line)) && line[0] != '#' && line[0] != '-'
    requires KeyOf(line).Some? ==> '~' !in KeyOf(line).value && '/' !in KeyOf(line).value
    ensures Inferred([line, BELOW], 1) == match KeyOf(line) case Some(k) => "/" + k case None => ""
  {
    hide PoppedTo, PointerTo, KeyOf, WithKey, Inferred, PathOf;
    BelowIsDeeper();
    BelowOneLine(line, BELOW);
    assert TrimSpace(line) == line;
    match KeyOf(line)
    case Some(k) =>
      KeyOnContext([], [], 0, k);
      assert Step([], line) == [] + [KeyFrame(0, k)] == [KeyFrame(0, k)];
      OneSegment(KeyFrame(0, k), 6);
    case None =>
      assert Step([], line) == [];
      NothingPushed(6);
  }

  lemma BelowIsDeeper()
    ensures Blanks(BELOW) == 6
  {
    assert BELOW == Spaces(6) + "x: 1";
    SpacesAreBlanks(6, "x: 1");
  }

  lemma BlankNoKey(key: string, k: nat, tail: string)
    requires ':' !in key && k < |key| && IsBlank(key[k])
    ensures KeyOf(key + ":" + tail) == None
  {
    ColonAfter(key, tail);
    ColonWithin(key);
    assert (key + ":" + tail)[k] == key[k];
  }

  /** What the walker answers one line below five keys it does not read as they are: a key
      three spaces after its dash, one with a blank, one with a colon, a quoted one, and one
      with a blank before its colon, which no layout here has. */
  lemma KeysAreMissed()
    ensures Inferred(["-   a:", BELOW], 1) == "/0"
    ensures Inferred(["my key:", BELOW], 1) == ""
    ensures Inferred(["a:b:", BELOW], 1) == "/a"
    ensures Inferred(["\"a\":", BELOW], 1) == "/\"a\""
    ensures Inferred(["a :", BELOW], 1) == ""
  {
    hide *;
    WideGapIsMissed();
    BlanksAreMissed();
    OthersAreMissed();
  }

  lemma BlanksAreMissed()
    ensures Inferred(["my key:", BELOW], 1) == "" && Inferred(["a :", BELOW], 1) == ""
  {
    hide Inferred, KeyOf;
    BlankNoKey("my key", 2, "");
    assert "my key" + ":" + "" == "my key:";
    BelowKeyLine("my key:");
    BlankNoKey("a ", 1, "");
    assert "a " + ":" + "" == "a :";
    BelowKeyLine("a :");
  }

  lemma OthersAreMissed()
    ensures Inferred(["a:b:", BELOW], 1) == "/a" && Inferred(["\"a\":", BELOW], 1) == "/\"a\""
  {
    hide Inferred, KeyOf;
    PlainKeyIsTaken(Entry("a", "a", "b:", NoChild));
    assert TrimEnd("b:") == "b:";
    assert "a" + ":" + "b:" == "a:b:";
    BelowKeyLine("a:b:");
    var quoted := "\"a\"";
    PlainKeyIsTaken(Entry(quoted, quoted, "", NoChild));
    assert quoted + ":" + "" == "\"a\":";
    BelowKeyLine("\"a\":");
  }

  lemma WideGapIsMissed()
    ensures Inferred(["-   a:", BELOW], 1) == "/0"
  {
    hide Step, PoppedTo, PointerTo, Taken, Inferred, WithItem, Blanks, PathOf;
    var e := Entry("a", "a", "", NoChild);
    BelowIsDeeper();
    BelowOneLine("-   a:", BELOW);
    FirstStep([], 0, 3, e);
    assert Spaces(0) + FirstText(3, e) == "-   a:";
    NextItem([], [], 0, 0);
    assert Step([], "-   a:") == [] + [SeqFrame(0, 0)] == [SeqFrame(0, 0)];
    assert Itoa(0) == "0";
    OneSegment(SeqFrame(0, 0), 6);
  }
}
