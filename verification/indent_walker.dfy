/** Guessing the path of the cursor from indents alone, for texts that do not parse: one
    pass over the lines above the cursor with a stack of keys and list positions. */
module IndentWalker {
  import opened JsonPointer
  import opened Options
  import opened Strings
  import opened TextPositions

  // --- lines ---

  function TrimStart(s: string): string {
    if s != "" && IsSpace(s[0]) then TrimStart(s[1..]) else s
  }

  function TrimEnd(s: string): string {
    if s != "" && IsSpace(Last(s)) then TrimEnd(s[..|s| - 1]) else s
  }

  function TrimSpace(s: string): string { TrimEnd(TrimStart(s)) }

  function ColonAt(s: string): (n: nat)
    ensures n <= |s|
    ensures n < |s| ==> s[n] == ':'
    ensures ':' !in s[..n]
  {
    if s == "" || s[0] == ':' then 0
    else
      var n := ColonAt(s[1..]);
      assert s[..n + 1] == [s[0]] + s[1..][..n];
      n + 1
  }

  /** The key at the start of a line: what precedes the first colon, without blanks. */
  function KeyOf(s: string): Option<string> {
    var n := ColonAt(s);
    if n < |s| && forall k :: 0 <= k < n ==> !IsBlank(s[k]) then Some(TrimSpace(s[..n])) else None
  }

  predicate Noise(line: string) {
    var trimmed := TrimSpace(line);
    trimmed == "" || trimmed[0] == '#'
  }

  // --- the stack ---

  datatype Frame = KeyFrame(indent: nat, key: string) | SeqFrame(indent: nat, index: nat)

  type Stack = seq<Frame>

  /** Without the frames on top that are at the indent or deeper. */
  function PoppedTo(stack: Stack, indent: nat): (s: Stack)
    ensures s <= stack
    ensures s != [] ==> Last(s).indent < indent
  {
    if stack != [] && Last(stack).indent >= indent then PoppedTo(stack[..|stack| - 1], indent) else stack
  }

  /** Without the frames on top that are deeper than the indent. */
  function PoppedBelow(stack: Stack, indent: nat): (s: Stack)
    ensures s <= stack
    ensures s != [] ==> Last(s).indent <= indent
  {
    if stack != [] && Last(stack).indent > indent then PoppedBelow(stack[..|stack| - 1], indent) else stack
  }

  function WithKey(stack: Stack, indent: nat, key: string): Stack {
    PoppedTo(stack, indent) + [KeyFrame(indent, key)]
  }

  function WithItem(stack: Stack, indent: nat): Stack {
    var s := PoppedBelow(stack, indent);
    if s != [] && Last(s).indent == indent && Last(s).SeqFrame? then
      s[..|s| - 1] + [SeqFrame(indent, Last(s).index + 1)]
    else s + [SeqFrame(indent, 0)]
  }

  /** What one line does to the stack. */
  function Step(stack: Stack, line: string): Stack {
    var trimmed, indent := TrimSpace(line), Blanks(line);
    if Noise(line) then stack
    else if "- " <= trimmed then
      var s := WithItem(stack, indent);
      match KeyOf(trimmed[2..])
      case Some(k) => WithKey(s, indent + 2, k)
      case None => s
    else if trimmed == "-" then WithItem(stack, indent)
    else
      match KeyOf(trimmed)
      case Some(k) => WithKey(stack, indent, k)
      case None => stack
  }

  function Walk(stack: Stack, lines: seq<string>): Stack
    decreases |lines|
  {
    if lines == [] then stack else Walk(Step(stack, lines[0]), lines[1..])
  }

  /** The segments the stack stands for. */
  function PathOf(stack: Stack): (path: seq<string>)
    ensures |path| == |stack|
  {
    if stack == [] then []
    else PathOf(stack[..|stack| - 1]) + [match Last(stack) case KeyFrame(_, k) => k case SeqFrame(_, n) => Itoa(n)]
  }

  /** The stack when the cursor is on line c: frames at its indent or deeper are gone. */
  function StackAt(lines: seq<string>, c: nat): Stack
    requires c < |lines|
  {
    PoppedTo(Walk([], lines[..c]), Blanks(lines[c]))
  }

  function Inferred(lines: seq<string>, cursorLine: int): string
    requires lines != []
  {
    var c := if cursorLine >= |lines| then |lines| - 1 else cursorLine;
    if c < 0 then "" else PointerTo(PathOf(StackAt(lines, c)))
  }

  // --- the loop ---

  method PushKey(stack: Stack, indent: nat, key: string) returns (s: Stack)
    ensures s == WithKey(stack, indent, key)
  {
    s := stack;
    while |s| > 0 && s[|s| - 1].indent >= indent
      invariant PoppedTo(stack, indent) == PoppedTo(s, indent)
    {
      s := s[..|s| - 1];
    }
    s := s + [KeyFrame(indent, key)];
  }

  method PushSeqItem(stack: Stack, indent: nat) returns (s: Stack)
    ensures s == WithItem(stack, indent)
  {
    s := stack;
    while |s| > 0 && s[|s| - 1].indent > indent
      invariant PoppedBelow(stack, indent) == PoppedBelow(s, indent)
    {
      s := s[..|s| - 1];
    }
    if |s| > 0 && s[|s| - 1].indent == indent && s[|s| - 1].SeqFrame? {
      s := s[|s| - 1 := SeqFrame(indent, s[|s| - 1].index + 1)];
      return;
    }
    s := s + [SeqFrame(indent, 0)];
  }

  lemma WalkStep(stack: Stack, lines: seq<string>, i: nat)
    requires i < |lines|
    ensures Walk(stack, lines[i..]) == Walk(Step(stack, lines[i]), lines[i + 1..])
  {
    assert lines[i..][1..] == lines[i + 1..];
  }

  lemma PathSnoc(stack: Stack, n: nat)
    requires n < |stack|
    ensures PathOf(stack[..n + 1]) ==
            PathOf(stack[..n]) + [match stack[n] case KeyFrame(_, k) => k case SeqFrame(_, i) => Itoa(i)]
  {
    assert stack[..n + 1][..n] == stack[..n];
  }

  lemma {:induction false} NumberNeedsNoEscape(n: nat)
    ensures Escape(Itoa(n)) == Itoa(n)
  {
    DigitsOfItoa(n);
    PlainNeedsNoEscape(Itoa(n));
  }

  lemma {:induction false} PlainNeedsNoEscape(s: string)
    requires '~' !in s && '/' !in s
    ensures Escape(s) == s
  {
    EscapesEach(s);
    if s != "" {
      EscapesEach(s[1..]);
      PlainNeedsNoEscape(s[1..]);
      assert s == [s[0]] + s[1..];
    }
  }

  method InferPathByIndent(text: string, cursorLine: int) returns (path: string)
    ensures path == Inferred(Lines(text), cursorLine)
  {
    hide TrimSpace, KeyOf, Escape, Lines, PoppedTo, PointerTo, Itoa, Walk, PathOf, WithKey, WithItem;
    var lines := Lines(text);
    var c := cursorLine;
    if c >= |lines| {
      c := |lines| - 1;
    }
    if c < 0 {
      return "";
    }
    var stack: Stack := [];
    ghost var above := lines[..c];
    assert above[0..] == above;
    for i := 0 to c
      invariant Walk([], above) == Walk(stack, above[i..])
    {
      WalkStep(stack, above, i);
      var ln := lines[i];
      var trimmed := TrimSpace(ln);
      if trimmed == "" || trimmed[0] == '#' {
        continue;
      }
      var indent := Blanks(ln);
      if "- " <= trimmed {
        stack := PushSeqItem(stack, indent);
        var k := KeyOf(trimmed[2..]);
        if k.Some? {
          stack := PushKey(stack, indent + 2, k.value);
        }
      } else if trimmed == "-" {
        stack := PushSeqItem(stack, indent);
      } else {
        var k := KeyOf(trimmed);
        if k.Some? {
          stack := PushKey(stack, indent, k.value);
        }
      }
    }
    WalkEnds(stack, above);
    var cursorIndent := Blanks(lines[c]);
    ghost var whole := stack;
    while |stack| > 0 && stack[|stack| - 1].indent >= cursorIndent
      invariant PoppedTo(whole, cursorIndent) == PoppedTo(stack, cursorIndent)
    {
      PoppedOnce(stack, cursorIndent);
      stack := stack[..|stack| - 1];
    }
    PoppedOnce(stack, cursorIndent);
    NothingWritten();
    path := "";
    for n := 0 to |stack|
      invariant path == PointerTo(PathOf(stack[..n]))
    {
      PathSnoc(stack, n);
      path := path + "/";
      match stack[n] {
        case KeyFrame(_, key) =>
          PointerSnoc(PathOf(stack[..n]), key);
          path := path + Escape(key);
        case SeqFrame(_, index) =>
          PointerSnoc(PathOf(stack[..n]), Itoa(index));
          NumberNeedsNoEscape(index);
          path := path + Itoa(index);
      }
    }
    assert stack[..|stack|] == stack;
  }

  lemma WalkEnds(stack: Stack, lines: seq<string>)
    ensures Walk(stack, lines[|lines|..]) == stack
  {
  }

  lemma PoppedOnce(stack: Stack, indent: nat)
    ensures PoppedTo(stack, indent) ==
            if |stack| > 0 && stack[|stack| - 1].indent >= indent then PoppedTo(stack[..|stack| - 1], indent) else stack
  {
  }

  lemma NothingWritten()
    ensures PointerTo(PathOf([])) == ""
  {
  }
}
