/** The indentation walker told by the characters of a line and by the frames of the stack. */
module IndentLaws {
  import IndentLayouts
  import opened IndentWalker
  import opened JsonPointer
  import opened Options
  import opened Strings
  import TextLaws
  import opened TextPositions

  ghost predicate White(s: string) { forall c <- s :: IsSpace(c) }

  /** Not empty, and no white space at either end. */
  predicate Solid(s: string) { s != "" && !IsSpace(s[0]) && !IsSpace(s[|s| - 1]) }

  // --- trimming ---

  lemma {:induction false} StartIsTrimmed(a: string, s: string)
    requires White(a) && (s == "" || !IsSpace(s[0]))
    ensures TrimStart(a + s) == s
  {
    hide IsSpace;
    if a == "" {
      assert a + s == s;
    } else {
      assert (a + s)[0] in a && (a + s)[1..] == a[1..] + s;
      StartIsTrimmed(a[1..], s);
    }
  }

  lemma {:induction false} EndIsTrimmed(s: string, b: string)
    requires White(b) && (s == "" || !IsSpace(s[|s| - 1]))
    ensures TrimEnd(s + b) == s
  {
    hide IsSpace;
    if b == "" {
      assert s + b == s;
    } else {
      var init := b[..|b| - 1];
      assert Last(s + b) == Last(b) && Last(b) in b && (s + b)[..|s + b| - 1] == s + init;
      EndIsTrimmed(s, init);
    }
  }

  /** White space goes from both ends, and nothing else. */
  lemma TrimLaw(a: string, s: string, b: string)
    requires White(a) && White(b)
    ensures Solid(s) ==> TrimSpace(a + s + b) == s
    ensures TrimSpace(a + b) == ""
  {
    hide IsSpace, TrimStart, TrimEnd;
    EndIsTrimmed("", "");
    StartIsTrimmed(a + b, "");
    assert a + b + "" == a + b && "" + "" == "";
    if Solid(s) {
      assert a + s + b == a + (s + b) && (s + b)[0] == s[0];
      StartIsTrimmed(a, s + b);
      EndIsTrimmed(s, b);
    }
  }

  // --- keys ---

  /** The key of a line is what precedes its first colon, trimmed; none if that has a blank. */
  lemma KeyLaw(k: string, rest: string)
    requires ':' !in k
    ensures KeyOf(k) == None
    ensures KeyOf(k + ":" + rest) == if ' ' in k || '\t' in k then None else Some(TrimSpace(k))
  {
    var s := k + ":" + rest;
    NoColon(k);
    IndentLayouts.ColonAfter(k, rest);
    assert s[..|k|] == k;
    assert (exists i :: 0 <= i < |k| && IsBlank(s[i])) <==> ' ' in k || '\t' in k by {
      assert forall i :: 0 <= i < |k| ==> s[i] == k[i];
    }
  }

  lemma {:induction false} NoColon(k: string)
    requires ':' !in k
    ensures ColonAt(k) == |k|
  {
    if k != "" {
      assert k[0] in k;
      NoColon(k[1..]);
    }
  }

  // --- what a line does ---

  /** A line of white space, or whose first other character is a number sign, does nothing; a
      dash is a list item; a key after a dash is two columns deeper; the indent is the number of
      blanks in front. */
  lemma LineLaw(stack: Stack, gap: string, odd: string, s: string, end: string)
    requires OnlyBlanks(gap) && White(odd) && White(end) && (odd == "" || !(odd[0] == ' ' || odd[0] == '\t'))
    ensures Step(stack, gap + end) == stack
    ensures Solid(s) ==>
              Step(stack, gap + odd + s + end) ==
                if s[0] == '#' then stack
                else if s == "-" then WithItem(stack, |gap|)
                else if "- " <= s then
                  (match KeyOf(s[2..])
                   case Some(k) => WithKey(WithItem(stack, |gap|), |gap| + 2, k)
                   case None => WithItem(stack, |gap|))
                else
                  (match KeyOf(s)
                   case Some(k) => WithKey(stack, |gap|, k)
                   case None => stack)
  {
    hide IsSpace, KeyOf, WithKey, WithItem, TrimSpace, Blanks;
    TextLaws.SpaceChars(' ');
    TextLaws.SpaceChars('\t');
    BlanksAreWhite(gap);
    assert forall c <- gap + odd :: c in gap || c in odd;
    TrimLaw(gap, s, end);
    TrimLaw(gap + odd, s, end);
    if Solid(s) {
      var rest := odd + s + end;
      assert gap + odd + s + end == gap + rest;
      assert rest[0] == (if odd == "" then s[0] else odd[0]);
      TextLaws.BlanksAre(gap, rest);
    }
  }

  lemma BlanksAreWhite(s: string)
    requires OnlyBlanks(s)
    ensures White(s)
  {
  }

  // --- what it does to the stack ---

  lemma {:induction false} DeepFramesGo(base: Stack, deep: Stack, indent: nat)
    requires (forall f <- deep :: f.indent >= indent) && (base == [] || base[|base| - 1].indent < indent)
    ensures PoppedTo(base + deep, indent) == base
  {
    if deep == [] {
      assert base + deep == base;
    } else {
      var init := deep[..|deep| - 1];
      assert Last(base + deep) == Last(deep) && Last(deep) in deep && (base + deep)[..|base + deep| - 1] == base + init;
      DeepFramesGo(base, init, indent);
    }
  }

  lemma {:induction false} DeeperFramesGo(base: Stack, deep: Stack, indent: nat)
    requires (forall f <- deep :: f.indent > indent) && (base == [] || base[|base| - 1].indent <= indent)
    ensures PoppedBelow(base + deep, indent) == base
  {
    if deep == [] {
      assert base + deep == base;
    } else {
      var init := deep[..|deep| - 1];
      assert Last(base + deep) == Last(deep) && Last(deep) in deep && (base + deep)[..|base + deep| - 1] == base + init;
      DeeperFramesGo(base, init, indent);
    }
  }

  /** A key takes the place of what is at its indent or deeper on top. */
  lemma KeyPushLaw(base: Stack, deep: Stack, indent: nat, key: string)
    requires (forall f <- deep :: f.indent >= indent) && (base == [] || base[|base| - 1].indent < indent)
    ensures WithKey(base + deep, indent, key) == base + [KeyFrame(indent, key)]
  {
    DeepFramesGo(base, deep, indent);
  }

  /** An item takes the place of what is deeper on top; a list at its own indent counts on, else
      a list starts. */
  lemma ItemPushLaw(base: Stack, deep: Stack, indent: nat, n: nat)
    requires forall f <- deep :: f.indent > indent
    ensures WithItem(base + [SeqFrame(indent, n)] + deep, indent) == base + [SeqFrame(indent, n + 1)]
    ensures (base == [] || (base[|base| - 1].indent <= indent
                            && (base[|base| - 1].KeyFrame? || base[|base| - 1].indent < indent))) ==>
              WithItem(base + deep, indent) == base + [SeqFrame(indent, 0)]
  {
    var list := base + [SeqFrame(indent, n)];
    DeeperFramesGo(list, deep, indent);
    assert list[..|list| - 1] == base;
    if base == [] || base[|base| - 1].indent <= indent {
      DeeperFramesGo(base, deep, indent);
    }
  }

  /** The path is one segment a frame: its key, or its number in decimal. */
  lemma PathLaw(stack: Stack, indent: nat, key: string, n: nat)
    ensures PathOf([]) == []
    ensures PathOf(stack + [KeyFrame(indent, key)]) == PathOf(stack) + [key]
    ensures PathOf(stack + [SeqFrame(indent, n)]) == PathOf(stack) + [Itoa(n)]
  {
    var a, b := stack + [KeyFrame(indent, key)], stack + [SeqFrame(indent, n)];
    assert a[..|a| - 1] == stack && b[..|b| - 1] == stack;
  }

  // --- the walk ---

  lemma {:induction false} WalkLaw(stack: Stack, above: seq<string>, line: string)
    ensures Walk(stack, []) == stack
    ensures Walk(stack, above + [line]) == Step(Walk(stack, above), line)
    decreases |above|
  {
    hide Step;
    if above == [] {
      assert [line][1..] == [] && above + [line] == [line];
    } else {
      assert (above + [line])[0] == above[0] && (above + [line])[1..] == above[1..] + [line];
      WalkLaw(Step(stack, above[0]), above[1..], line);
    }
  }

  /** The answer is the pointer of the frames that the lines above the cursor leave, without
      those on top that are at the cursor line's indent or deeper. A cursor below the text is
      on the last line, and above it there is no path. */
  lemma CursorLaw(above: seq<string>, line: string, below: seq<string>, base: Stack, deep: Stack, gap: string,
                  rest: string, cursorLine: int)
    requires Walk([], above) == base + deep && line == gap + rest && OnlyBlanks(gap)
    requires rest == "" || !(rest[0] == ' ' || rest[0] == '\t')
    requires (forall f <- deep :: f.indent >= |gap|) && (base == [] || base[|base| - 1].indent < |gap|)
    ensures cursorLine == |above| || (below == [] && cursorLine > |above|) ==>
              Inferred(above + [line] + below, cursorLine) == PointerTo(PathOf(base))
    ensures cursorLine < 0 ==> Inferred(above + [line] + below, cursorLine) == ""
  {
    hide Walk, PointerTo, PathOf, PoppedTo, Blanks;
    var lines := above + [line] + below;
    assert lines[..|above|] == above && lines[|above|] == line;
    TextLaws.BlanksAre(gap, rest);
    DeepFramesGo(base, deep, |gap|);
  }
}
