/** What the template parser promises: it undoes a printer, its results are exactly the
    well-formed trees, and rendering follows the documented expansions. */
module K8sTemplateProofs {
  import opened K8sTemplate
  import opened Options

  /** Which characters a printer hides behind a backslash: any, as long as the
      backslash and the braces are among them. */
  type Escaping = p: set<char> | {'\\', '{', '}'} <= p
    witness {'\\', '{', '}'}

  function Escape(w: string, p: Escaping): string {
    if w == "" then "" else (if w[0] in p then ['\\', w[0]] else [w[0]]) + Escape(w[1..], p)
  }

  function PrintTerm(t: Term, p: Escaping): string
    decreases t, 0
  {
    match t.nested
    case Some(b) => PrintBody(b, p)
    case None => if t.kind.Operand? then t.raw else Escape(t.raw, p)
  }

  function PrintBody(b: Body, p: Escaping): string
    decreases b, 3
  {
    "{" + PrintInner(b, p) + "}"
  }

  function PrintInner(b: Body, p: Escaping): string
    decreases b, 2
  {
    PrintTerm(b.operand, p) + Separator(b.expr) + PrintWord(b, p)
  }

  function PrintWord(b: Body, p: Escaping): string
    decreases b, 1
  {
    match b.expr
    case Bare => ""
    case Apply => b.word.raw
    case _ => PrintTerm(b.word, p)
  }

  function PrintNode(n: Node, p: Escaping): string {
    match n
    case Text(s) => Escape(s, p)
    case Expr(b) => PrintBody(b, p)
  }

  function PrintNodes(nodes: seq<Node>, p: Escaping): string {
    if nodes == [] then "" else PrintNode(nodes[0], p) + PrintNodes(nodes[1..], p)
  }

  // --- well-formed trees: what resolving leaves ---

  predicate WellFormedTerm(t: Term, kind: Kind) {
    && t.kind == kind
    && match t.nested
       case Some(b) => t.raw == "" && WellFormedBody(b)
       case None => kind.Operand? ==> t.raw in KNOWN_VARS
  }

  predicate WellFormedBody(b: Body) {
    && WellFormedTerm(b.operand, Operand)
    && match b.expr
       case Bare => b.word == NO_WORD && b.op.NoOperator?
       case Apply => b.word == Term(Word, b.word.raw, None) && !b.op.NoOperator? && b.op == ParseOperator(b.word.raw)
       case _ => WellFormedTerm(b.word, Word) && b.op.NoOperator?
  }

  predicate WellFormedNode(n: Node) {
    match n
    case Text(s) => s != ""
    case Expr(b) => WellFormedBody(b)
  }

  /** Texts are not empty and never adjacent. */
  predicate WellFormedNodes(nodes: seq<Node>)
    decreases |nodes|
  {
    nodes != [] ==>
      && WellFormedNode(nodes[0])
      && WellFormedNodes(nodes[1..])
      && (nodes[0].Text? && |nodes| > 1 ==> nodes[1].Expr?)
  }

  // --- positions ---

  /** The part occurs in s at i. */
  predicate At(s: string, i: nat, part: string) {
    i + |part| <= |s| && forall k {:trigger part[k]} :: 0 <= k < |part| ==> s[i + k] == part[k]
  }

  lemma AtWhole(s: string)
    ensures At(s, 0, s)
  {
  }

  lemma AtSlice(s: string, i: nat, part: string)
    requires At(s, i, part)
    ensures s[i..i + |part|] == part
  {
  }

  lemma AtSplit(s: string, i: nat, a: string, b: string)
    requires At(s, i, a + b)
    ensures At(s, i, a) && At(s, i + |a|, b)
  {
    forall k {:trigger a[k]} | 0 <= k < |a|
      ensures s[i + k] == a[k]
    {
      assert (a + b)[k] == a[k];
    }
    forall k {:trigger b[k]} | 0 <= k < |b|
      ensures s[i + |a| + k] == b[k]
    {
      assert (a + b)[|a| + k] == b[k];
    }
  }

  lemma AtSplit3(s: string, i: nat, a: string, b: string, c: string)
    requires At(s, i, a + b + c)
    ensures At(s, i, a) && At(s, i + |a|, b) && At(s, i + |a| + |b|, c)
  {
    AtSplit(s, i, a + b, c);
    AtSplit(s, i, a, b);
  }

  lemma AtHead(s: string, i: nat, part: string)
    requires At(s, i, part) && part != ""
    ensures s[i] == part[0] && At(s, i + 1, part[1..])
  {
    assert part == [part[0]] + part[1..];
    assert [part[0]][0] == part[0];
    AtSplit(s, i, [part[0]], part[1..]);
  }

  lemma EscapeHead(w: string, p: Escaping)
    requires w != ""
    ensures w[0] in p ==> Escape(w, p) == ['\\', w[0]] + Escape(w[1..], p)
    ensures w[0] !in p ==> Escape(w, p) == [w[0]] + Escape(w[1..], p)
  {
  }

  // --- brace matching stops at the printed boundary ---

  /** Neither a brace, a backslash nor the start of a separator. */
  predicate Plain(s: string) {
    forall k :: 0 <= k < |s| ==> s[k] != '\\' && s[k] != '{' && s[k] != '}' && s[k] != ':' && s[k] != '@'
  }

  /** All that printing and parsing need of a tree: fields used as the parser uses
      them, and names without syntax in them. */
  predicate PrintableTerm(t: Term, kind: Kind) {
    && t.kind == kind
    && match t.nested
       case Some(b) => t.raw == "" && PrintableBody(b)
       case None => kind.Operand? ==> Plain(t.raw)
  }

  predicate PrintableBody(b: Body) {
    && PrintableTerm(b.operand, Operand)
    && match b.expr
       case Bare => b.word == NO_WORD
       case Apply => b.word == Term(Word, b.word.raw, None) && Plain(b.word.raw)
       case _ => PrintableTerm(b.word, Word)
  }

  predicate PrintableNode(n: Node) {
    match n
    case Text(s) => s != ""
    case Expr(b) => PrintableBody(b)
  }

  /** Texts are not empty and never adjacent. */
  predicate PrintableNodes(nodes: seq<Node>)
    decreases |nodes|
  {
    nodes != [] ==>
      && PrintableNode(nodes[0])
      && PrintableNodes(nodes[1..])
      && (nodes[0].Text? && |nodes| > 1 ==> nodes[1].Expr?)
  }

  lemma GroupVarsArePlain()
    ensures Plain("group") && Plain("groupSeg") && Plain("groupFirst") && Plain("groupFirstSeg")
  {
  }

  lemma OtherVarsArePlain()
    ensures Plain("kind") && Plain("kindLower") && Plain("version") && Plain("versionLower")
  {
  }

  lemma KnownVarsArePlain(name: string)
    requires name in KNOWN_VARS
    ensures Plain(name)
  {
    hide Plain;
    GroupVarsArePlain();
    OtherVarsArePlain();
  }

  lemma OperatorsArePlain(name: string)
    requires !ParseOperator(name).NoOperator?
    ensures Plain(name)
  {
    assert name == "U" || name == "L";
  }

  lemma {:induction false} WellFormedTermsArePrintable(t: Term, kind: Kind)
    requires WellFormedTerm(t, kind)
    ensures PrintableTerm(t, kind)
  {
    match t.nested
    case Some(b) => WellFormedBodiesArePrintable(b);
    case None =>
      if kind.Operand? {
        KnownVarsArePlain(t.raw);
      }
  }

  lemma {:induction false} WellFormedBodiesArePrintable(b: Body)
    requires WellFormedBody(b)
    ensures PrintableBody(b)
  {
    WellFormedTermsArePrintable(b.operand, Operand);
    if b.expr.Apply? {
      OperatorsArePlain(b.word.raw);
    } else if !b.expr.Bare? {
      WellFormedTermsArePrintable(b.word, Word);
    }
  }

  lemma {:induction false} WellFormedNodesArePrintable(nodes: seq<Node>)
    requires WellFormedNodes(nodes)
    ensures PrintableNodes(nodes)
  {
    if nodes != [] {
      WellFormedNodesArePrintable(nodes[1..]);
      if nodes[0].Expr? {
        WellFormedBodiesArePrintable(nodes[0].body);
      }
    }
  }

  lemma {:induction false} MatchSkipsPlain(s: string, i: nat, part: string, depth: int)
    requires At(s, i, part) && Plain(part)
    ensures MatchFrom(s, i, depth) == MatchFrom(s, i + |part|, depth)
    decreases |part|
  {
    if part != "" {
      AtHead(s, i, part);
      MatchSkipsPlain(s, i + 1, part[1..], depth);
    }
  }

  lemma {:induction false} MatchSkipsEscaped(s: string, i: nat, w: string, p: Escaping, depth: int)
    requires At(s, i, Escape(w, p))
    ensures MatchFrom(s, i, depth) == MatchFrom(s, i + |Escape(w, p)|, depth)
    decreases |w|
  {
    if w != "" {
      EscapeHead(w, p);
      if w[0] in p {
        AtSplit(s, i, ['\\', w[0]], Escape(w[1..], p));
        AtHead(s, i, ['\\', w[0]]);
        MatchSkipsEscaped(s, i + 2, w[1..], p, depth);
      } else {
        AtSplit(s, i, [w[0]], Escape(w[1..], p));
        AtHead(s, i, [w[0]]);
        MatchSkipsEscaped(s, i + 1, w[1..], p, depth);
      }
    }
  }

  lemma {:induction false} MatchSkipsTerm(s: string, i: nat, t: Term, kind: Kind, p: Escaping, depth: nat)
    requires PrintableTerm(t, kind) && At(s, i, PrintTerm(t, p)) && depth >= 1
    ensures MatchFrom(s, i, depth) == MatchFrom(s, i + |PrintTerm(t, p)|, depth)
    decreases t, 0
  {
    match t.nested
    case Some(b) => MatchSkipsBody(s, i, b, p, depth);
    case None =>
      if kind.Operand? {
          MatchSkipsPlain(s, i, t.raw, depth);
      } else {
        MatchSkipsEscaped(s, i, t.raw, p, depth);
      }
  }

  lemma PrintedParts(s: string, i: nat, b: Body, p: Escaping)
    requires At(s, i, PrintInner(b, p))
    ensures var operand, sep := PrintTerm(b.operand, p), Separator(b.expr);
            && At(s, i, operand) && At(s, i + |operand|, sep) && At(s, i + |operand| + |sep|, PrintWord(b, p))
            && |PrintInner(b, p)| == |operand| + |sep| + |PrintWord(b, p)|
  {
    AtSplit3(s, i, PrintTerm(b.operand, p), Separator(b.expr), PrintWord(b, p));
  }

  lemma PrintedBraces(s: string, i: nat, b: Body, p: Escaping)
    requires At(s, i, PrintBody(b, p))
    ensures var n := |PrintInner(b, p)|;
            && |PrintBody(b, p)| == n + 2 && i + n + 2 <= |s|
            && s[i] == '{' && At(s, i + 1, PrintInner(b, p)) && s[i + n + 1] == '}'
  {
    AtSplit3(s, i, "{", PrintInner(b, p), "}");
    AtHead(s, i, "{");
    AtHead(s, i + 1 + |PrintInner(b, p)|, "}");
  }

  lemma {:induction false} MatchSkipsWord(s: string, i: nat, b: Body, p: Escaping, depth: nat)
    requires PrintableBody(b) && At(s, i, PrintWord(b, p)) && depth >= 1
    ensures MatchFrom(s, i, depth) == MatchFrom(s, i + |PrintWord(b, p)|, depth)
    decreases b, 0
  {
    if b.expr.Apply? {
      MatchSkipsPlain(s, i, b.word.raw, depth);
    } else if !b.expr.Bare? {
      MatchSkipsTerm(s, i, b.word, Word, p, depth);
    }
  }

  lemma {:induction false} MatchSkipsInner(s: string, i: nat, b: Body, p: Escaping, depth: nat)
    requires PrintableBody(b) && At(s, i, PrintInner(b, p)) && depth >= 1
    ensures MatchFrom(s, i, depth) == MatchFrom(s, i + |PrintInner(b, p)|, depth)
    decreases b, 1
  {
    hide MatchFrom, PrintTerm, PrintWord, PrintInner, At;
    PrintedParts(s, i, b, p);
    var j := i + |PrintTerm(b.operand, p)|;
    var k := j + |Separator(b.expr)|;
    var end := k + |PrintWord(b, p)|;
    assert end == i + |PrintInner(b, p)|;
    MatchSkipsTerm(s, i, b.operand, Operand, p, depth);
    MatchSkipsSeparator(s, j, b.expr, depth);
    MatchSkipsWord(s, k, b, p, depth);
    assert MatchFrom(s, i, depth) == MatchFrom(s, end, depth);
  }

  lemma MatchSkipsSeparator(s: string, i: nat, e: Expression, depth: int)
    requires At(s, i, Separator(e))
    ensures MatchFrom(s, i, depth) == MatchFrom(s, i + |Separator(e)|, depth)
  {
    if e.Apply? {
      AtHead(s, i, "@");
    } else if !e.Bare? {
      AtHead(s, i, Separator(e));
      AtHead(s, i + 1, Separator(e)[1..]);
      assert MatchFrom(s, i, depth) == MatchFrom(s, i + 1, depth);
    }
  }

  /** From inside other braces, the scan passes over a printed expression as a whole. */
  lemma {:induction false} MatchSkipsBody(s: string, i: nat, b: Body, p: Escaping, depth: nat)
    requires PrintableBody(b) && At(s, i, PrintBody(b, p)) && depth >= 1
    ensures MatchFrom(s, i, depth) == MatchFrom(s, i + |PrintBody(b, p)|, depth)
    decreases b, 2
  {
    PrintedBraces(s, i, b, p);
    MatchSkipsInner(s, i + 1, b, p, depth + 1);
  }

  /** matchBraces started at a printed expression stops exactly at its end. */
  lemma MatchStopsAtPrintedEnd(s: string, i: nat, b: Body, p: Escaping)
    requires PrintableBody(b) && At(s, i, PrintBody(b, p))
    ensures MatchFrom(s, i, 0) == Some(i + |PrintBody(b, p)|)
  {
    PrintedBraces(s, i, b, p);
    MatchSkipsInner(s, i + 1, b, p, 1);
  }

  // --- the separator search stops at the printed separator ---

  lemma {:induction false} FindSkipsPlain(s: string, i: nat, part: string)
    requires At(s, i, part) && Plain(part)
    ensures FindFrom(s, i) == FindFrom(s, i + |part|)
    decreases |part|
  {
    if part != "" {
      AtHead(s, i, part);
      FindSkipsPlain(s, i + 1, part[1..]);
    }
  }

  lemma FindSkipsOperand(s: string, i: nat, t: Term, p: Escaping)
    requires PrintableTerm(t, Operand) && At(s, i, PrintTerm(t, p))
    ensures FindFrom(s, i) == FindFrom(s, i + |PrintTerm(t, p)|)
  {
    match t.nested
    case Some(b) =>
      MatchStopsAtPrintedEnd(s, i, b, p);
      PrintedBraces(s, i, b, p);
    case None =>
      FindSkipsPlain(s, i, t.raw);
  }

  /** findExpression on a printed body finds its own operator, right after the operand. */
  lemma FindStopsAtPrintedSeparator(s: string, b: Body, p: Escaping)
    requires PrintableBody(b) && At(s, 0, PrintInner(b, p)) && |s| == |PrintInner(b, p)|
    ensures FindFrom(s, 0) == if b.expr.Bare? then None else Some(Found(b.expr, |PrintTerm(b.operand, p)|))
  {
    var j := |PrintTerm(b.operand, p)|;
    PrintedParts(s, 0, b, p);
    FindSkipsOperand(s, 0, b.operand, p);
    assert FindFrom(s, 0) == FindFrom(s, j);
    SeparatorIsFound(s, j, b.expr);
  }

  lemma SeparatorIsFound(s: string, i: nat, e: Expression)
    requires At(s, i, Separator(e)) && (e.Bare? ==> i == |s|)
    ensures i <= |s|
    ensures FindFrom(s, i) == if e.Bare? then None else Some(Found(e, i))
  {
    if !e.Bare? {
      AtHead(s, i, Separator(e));
      if !e.Apply? {
        AtHead(s, i + 1, Separator(e)[1..]);
      }
    }
  }

  // --- parsing a printed tree ---

  lemma {:induction false} UnescapeUndoesEscape(s: string, i: nat, w: string, p: Escaping)
    requires At(s, i, Escape(w, p)) && i + |Escape(w, p)| == |s|
    ensures UnescapeFrom(s, i) == w
    decreases |w|
  {
    if w != "" {
      EscapeHead(w, p);
      if w[0] in p {
        AtSplit(s, i, ['\\', w[0]], Escape(w[1..], p));
        AtHead(s, i, ['\\', w[0]]);
        AtHead(s, i + 1, [w[0]]);
        UnescapeUndoesEscape(s, i + 2, w[1..], p);
      } else {
        AtSplit(s, i, [w[0]], Escape(w[1..], p));
        AtHead(s, i, [w[0]]);
        UnescapeUndoesEscape(s, i + 1, w[1..], p);
      }
    }
  }

  /** What parsing a printed tree yields before it is resolved: words still escaped,
      operators still unnamed. */
  function QuoteTerm(t: Term, p: Escaping): Term {
    match t.nested
    case Some(b) => t.(nested := Some(QuoteBody(b, p)))
    case None => if t.kind.Operand? then t else t.(raw := Escape(t.raw, p))
  }

  function QuoteBody(b: Body, p: Escaping): Body {
    var word := if b.expr.Default? || b.expr.Alt? then QuoteTerm(b.word, p) else b.word;
    Body(b.expr, QuoteTerm(b.operand, p), word, NoOperator)
  }

  function QuoteNode(n: Node, p: Escaping): Node {
    match n
    case Text(_) => n
    case Expr(b) => Expr(QuoteBody(b, p))
  }

  function QuoteNodes(nodes: seq<Node>, p: Escaping): seq<Node> {
    if nodes == [] then [] else [QuoteNode(nodes[0], p)] + QuoteNodes(nodes[1..], p)
  }

  lemma {:induction false} ResolveUndoesQuoteTerm(t: Term, kind: Kind, p: Escaping)
    requires WellFormedTerm(t, kind)
    ensures ResolveTerm(QuoteTerm(t, p)) == Ok(t)
  {
    match t.nested
    case Some(b) => ResolveUndoesQuoteBody(b, p);
    case None =>
      if kind.Word? {
        AtWhole(Escape(t.raw, p));
        UnescapeUndoesEscape(Escape(t.raw, p), 0, t.raw, p);
      }
  }

  lemma {:induction false} ResolveUndoesQuoteBody(b: Body, p: Escaping)
    requires WellFormedBody(b)
    ensures ResolveBody(QuoteBody(b, p)) == Ok(b)
  {
    ResolveUndoesQuoteTerm(b.operand, Operand, p);
    if b.expr.Default? || b.expr.Alt? {
      ResolveUndoesQuoteTerm(b.word, Word, p);
    }
  }

  lemma {:induction false} ResolveUndoesQuoteNodes(nodes: seq<Node>, p: Escaping)
    requires WellFormedNodes(nodes)
    ensures ResolveNodes(QuoteNodes(nodes, p)) == Ok(nodes)
  {
    if nodes != [] {
      ResolveUndoesQuoteNodes(nodes[1..], p);
      assert QuoteNodes(nodes, p)[1..] == QuoteNodes(nodes[1..], p);
      assert nodes == [nodes[0]] + nodes[1..];
      if nodes[0].Expr? {
        ResolveUndoesQuoteBody(nodes[0].body, p);
      }
    }
  }

  /** The text between the braces of a printed expression, and where it starts and stops. */
  lemma PrintedExpression(t: string, i: nat, b: Body, p: Escaping)
    requires PrintableBody(b) && At(t, i, PrintBody(b, p))
    ensures i < |t| && t[i] == '{'
    ensures MatchFrom(t, i, 0) == Some(i + |PrintBody(b, p)|)
    ensures t[i + 1..i + |PrintBody(b, p)| - 1] == PrintInner(b, p)
  {
    MatchStopsAtPrintedEnd(t, i, b, p);
    PrintedBraces(t, i, b, p);
    AtSlice(t, i + 1, PrintInner(b, p));
  }

  lemma NestedTermParses(s: string, kind: Kind, b: Body)
    requires s != "" && s[0] == '{' && MatchFrom(s, 0, 0) == Some(|s|)
    requires ParseBody(s[1..|s| - 1]) == Ok(b)
    ensures ParseTerm(s, kind) == Ok(Term(kind, "", Some(b)))
  {
  }

  lemma ExpressionParses(t: string, i: nat, end: nat, b: Body, buf: string, rest: seq<Node>)
    requires i < |t| && t[i] == '{' && MatchFrom(t, i, 0) == Some(end)
    requires ParseBody(t[i + 1..end - 1]) == Ok(b)
    requires ParseFrom(t, end, "") == Ok(Flush("") + rest)
    ensures ParseFrom(t, i, buf) == Ok(Flush(buf) + ([Expr(b)] + rest))
  {
    hide ParseBody, MatchFrom;
    assert Flush("") + rest == rest;
    assert Flush(buf) + [Expr(b)] + rest == Flush(buf) + ([Expr(b)] + rest);
  }

  lemma LeafTermParses(t: Term, kind: Kind, p: Escaping)
    requires PrintableTerm(t, kind) && t.nested.None?
    ensures ParseTerm(PrintTerm(t, p), kind) == Ok(QuoteTerm(t, p))
  {
    var s := PrintTerm(t, p);
    if kind.Operand? {
      assert s == t.raw;
    } else if t.raw != "" {
      EscapeHead(t.raw, p);
      assert s[0] != '{';
    }
  }

  lemma {:induction false} ParsePrintedTerm(t: Term, kind: Kind, p: Escaping)
    requires PrintableTerm(t, kind)
    ensures ParseTerm(PrintTerm(t, p), kind) == Ok(QuoteTerm(t, p))
    decreases t, 0
  {
    hide ParseBody, ParseTerm, PrintInner;
    match t.nested
    case None => LeafTermParses(t, kind, p);
    case Some(b) =>
      var s := PrintBody(b, p);
      AtWhole(s);
      PrintedExpression(s, 0, b, p);
      ParsePrintedInner(b, p);
      NestedTermParses(s, kind, QuoteBody(b, p));
  }

  lemma {:induction false} ParsePrintedInner(b: Body, p: Escaping)
    requires PrintableBody(b)
    ensures ParseBody(PrintInner(b, p)) == Ok(QuoteBody(b, p))
    decreases b, 0
  {
    var s, operand, sep := PrintInner(b, p), PrintTerm(b.operand, p), Separator(b.expr);
    AtWhole(s);
    FindStopsAtPrintedSeparator(s, b, p);
    ParsePrintedTerm(b.operand, Operand, p);
    if b.expr.Bare? {
      assert s == operand;
    } else {
      assert s[..|operand|] == operand && s[|operand| + |sep|..] == PrintWord(b, p);
      if b.expr.Apply? {
        assert ParseTerm(b.word.raw, Word) == Ok(b.word);
      } else {
        ParsePrintedTerm(b.word, Word, p);
      }
    }
  }

  lemma {:induction false} ParseSkipsEscapedText(t: string, i: nat, w: string, p: Escaping, buf: string)
    requires At(t, i, Escape(w, p))
    ensures ParseFrom(t, i, buf) == ParseFrom(t, i + |Escape(w, p)|, buf + w)
    decreases |w|
  {
    if w == "" {
      assert buf + w == buf;
    } else {
      EscapeHead(w, p);
      assert buf + [w[0]] + w[1..] == buf + w;
      if w[0] in p {
        AtSplit(t, i, ['\\', w[0]], Escape(w[1..], p));
        AtHead(t, i, ['\\', w[0]]);
        AtHead(t, i + 1, [w[0]]);
        ParseSkipsEscapedText(t, i + 2, w[1..], p, buf + [w[0]]);
      } else {
        AtSplit(t, i, [w[0]], Escape(w[1..], p));
        AtHead(t, i, [w[0]]);
        ParseSkipsEscapedText(t, i + 1, w[1..], p, buf + [w[0]]);
      }
    }
  }

  /** From i to its end, t is the nodes printed one after the other. */
  predicate PrintedFrom(t: string, i: nat, nodes: seq<Node>, p: Escaping)
    decreases |nodes|
  {
    if nodes == [] then i == |t|
    else At(t, i, PrintNode(nodes[0], p)) && PrintedFrom(t, i + |PrintNode(nodes[0], p)|, nodes[1..], p)
  }

  lemma {:induction false} NodesArePrintedFrom(t: string, i: nat, nodes: seq<Node>, p: Escaping)
    requires At(t, i, PrintNodes(nodes, p)) && i + |PrintNodes(nodes, p)| == |t|
    ensures PrintedFrom(t, i, nodes, p)
    decreases |nodes|
  {
    hide PrintNode, At;
    if nodes != [] {
      AtSplit(t, i, PrintNode(nodes[0], p), PrintNodes(nodes[1..], p));
      NodesArePrintedFrom(t, i + |PrintNode(nodes[0], p)|, nodes[1..], p);
    }
  }

  lemma ParsePrintedExpr(t: string, i: nat, b: Body, p: Escaping, buf: string, rest: seq<Node>)
    requires PrintableBody(b) && At(t, i, PrintBody(b, p))
    requires ParseFrom(t, i + |PrintBody(b, p)|, "") == Ok(Flush("") + rest)
    ensures ParseFrom(t, i, buf) == Ok(Flush(buf) + ([Expr(QuoteBody(b, p))] + rest))
  {
    hide ParseBody, ParseFrom;
    PrintedExpression(t, i, b, p);
    ParsePrintedInner(b, p);
    ExpressionParses(t, i, i + |PrintBody(b, p)|, QuoteBody(b, p), buf, rest);
  }

  lemma ParsePrintedText(t: string, i: nat, w: string, p: Escaping, rest: seq<Node>)
    requires w != "" && At(t, i, Escape(w, p))
    requires ParseFrom(t, i + |Escape(w, p)|, w) == Ok(Flush(w) + rest)
    ensures ParseFrom(t, i, "") == Ok(Flush("") + ([Text(w)] + rest))
  {
    ParseSkipsEscapedText(t, i, w, p, "");
    assert "" + w == w;
    assert Flush("") + ([Text(w)] + rest) == Flush(w) + rest;
  }

  lemma ParseEnds(t: string, buf: string)
    ensures ParseFrom(t, |t|, buf) == Ok(Flush(buf) + [])
  {
    assert Flush(buf) + [] == Flush(buf);
  }

  lemma {:induction false} ParsePrintedNodes(t: string, i: nat, nodes: seq<Node>, p: Escaping, buf: string)
    requires PrintableNodes(nodes) && PrintedFrom(t, i, nodes, p)
    requires buf != "" && nodes != [] ==> nodes[0].Expr?
    ensures ParseFrom(t, i, buf) == Ok(Flush(buf) + QuoteNodes(nodes, p))
    decreases |nodes|
  {
    hide ParseFrom, Flush, Escape, PrintBody, PrintableBody, QuoteBody, At;
    if nodes == [] {
      ParseEnds(t, buf);
    } else {
      var rest := QuoteNodes(nodes[1..], p);
      match nodes[0]
      case Text(w) =>
        ParsePrintedNodes(t, i + |Escape(w, p)|, nodes[1..], p, w);
        ParsePrintedText(t, i, w, p, rest);
      case Expr(b) =>
        ParsePrintedNodes(t, i + |PrintBody(b, p)|, nodes[1..], p, "");
        ParsePrintedExpr(t, i, b, p, buf, rest);
    }
  }

  lemma {:induction false} PrintedNodesNotEmpty(nodes: seq<Node>, p: Escaping)
    requires PrintableNodes(nodes) && nodes != []
    ensures PrintNodes(nodes, p) != ""
  {
    if nodes[0].Text? {
      EscapeHead(nodes[0].s, p);
    }
  }

  /** The parser undoes the printer, for every non-empty well-formed tree and every way
      of escaping. */
  lemma ParserUndoesPrinter(nodes: seq<Node>, p: Escaping)
    requires WellFormedNodes(nodes) && nodes != []
    ensures ParseK8sTemplate(PrintNodes(nodes, p)) == Ok(nodes)
  {
    WellFormedNodesArePrintable(nodes);
    PrintedNodesNotEmpty(nodes, p);
    var t := PrintNodes(nodes, p);
    AtWhole(t);
    NodesArePrintedFrom(t, 0, nodes, p);
    ParsePrintedNodes(t, 0, nodes, p, "");
    assert Flush("") + QuoteNodes(nodes, p) == QuoteNodes(nodes, p);
    ResolveUndoesQuoteNodes(nodes, p);
  }
}
