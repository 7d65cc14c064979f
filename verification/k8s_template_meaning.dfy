/** What resolved templates are and what they mean: parsing yields exactly the well-formed
    trees, evaluation never misses a variable, and the documented expansions and legacy
    aliases hold for every group, version and kind. */
module K8sTemplateMeaning {
  import opened K8sTemplate
  import opened K8sTemplateProofs
  import opened Options

  // --- what parsing yields ---

  predicate ShapedTerm(t: Term, kind: Kind) {
    t.kind == kind && (t.nested.Some? ==> t.raw == "" && ShapedBody(t.nested.value))
  }

  predicate ShapedBody(b: Body) {
    && b.op.NoOperator?
    && ShapedTerm(b.operand, Operand)
    && if b.expr.Bare? then b.word == NO_WORD else ShapedTerm(b.word, Word)
  }

  predicate ShapedNodes(nodes: seq<Node>)
    decreases |nodes|
  {
    nodes != [] ==>
      && (match nodes[0] case Text(s) => s != "" case Expr(b) => ShapedBody(b))
      && ShapedNodes(nodes[1..])
      && (nodes[0].Text? && |nodes| > 1 ==> nodes[1].Expr?)
  }

  lemma {:induction false} ParsedBodiesAreShaped(s: string)
    requires ParseBody(s).Ok?
    ensures ShapedBody(ParseBody(s).value)
    decreases |s|, 1
  {
    match FindFrom(s, 0)
    case None => ParsedTermsAreShaped(s, Operand);
    case Some(f) =>
      ParsedTermsAreShaped(s[..f.at], Operand);
      ParsedTermsAreShaped(s[f.at + |Separator(f.expr)|..], Word);
  }

  lemma {:induction false} ParsedTermsAreShaped(s: string, kind: Kind)
    requires ParseTerm(s, kind).Ok?
    ensures ShapedTerm(ParseTerm(s, kind).value, kind)
    decreases |s|, 0
  {
    if s != "" && s[0] == '{' {
      ParsedBodiesAreShaped(s[1..|s| - 1]);
    }
  }

  lemma ShapedJoin(buf: string, b: Body, rest: seq<Node>)
    requires ShapedBody(b) && ShapedNodes(rest)
    ensures ShapedNodes(Flush(buf) + [Expr(b)] + rest)
  {
    var tail := [Expr(b)] + rest;
    assert tail[1..] == rest;
    assert Flush(buf) + [Expr(b)] + rest == Flush(buf) + tail;
    if buf != "" {
      assert (Flush(buf) + tail)[1..] == tail;
    } else {
      assert Flush(buf) + tail == tail;
    }
  }

  lemma {:induction false} ParsedNodesAreShaped(t: string, i: nat, buf: string)
    requires ParseFrom(t, i, buf).Ok?
    ensures ShapedNodes(ParseFrom(t, i, buf).value)
    decreases |t| - i
  {
    hide ParseBody, ShapedBody;
    if i >= |t| {
    } else if t[i] == '\\' {
      if i + 1 < |t| {
        ParsedNodesAreShaped(t, i + 2, buf + [t[i + 1]]);
      } else {
        ParsedNodesAreShaped(t, i + 1, buf);
      }
    } else if t[i] == '{' {
      var end := MatchFrom(t, i, 0).value;
      var inner := t[i + 1..end - 1];
      ParsedBodiesAreShaped(inner);
      ParsedNodesAreShaped(t, end, "");
      ShapedJoin(buf, ParseBody(inner).value, ParseFrom(t, end, "").value);
    } else {
      ParsedNodesAreShaped(t, i + 1, buf + [t[i]]);
    }
  }

  lemma {:induction false} ResolvedBodiesAreWellFormed(b: Body)
    requires ShapedBody(b) && ResolveBody(b).Ok?
    ensures WellFormedBody(ResolveBody(b).value)
  {
    ResolvedTermsAreWellFormed(b.operand, Operand);
    if b.expr.Default? || b.expr.Alt? {
      ResolvedTermsAreWellFormed(b.word, Word);
    }
  }

  lemma {:induction false} ResolvedTermsAreWellFormed(t: Term, kind: Kind)
    requires ShapedTerm(t, kind) && ResolveTerm(t).Ok?
    ensures WellFormedTerm(ResolveTerm(t).value, kind)
  {
    if t.nested.Some? {
      ResolvedBodiesAreWellFormed(t.nested.value);
    }
  }

  lemma {:induction false} ResolvedNodesAreWellFormed(nodes: seq<Node>)
    requires ShapedNodes(nodes) && ResolveNodes(nodes).Ok?
    ensures WellFormedNodes(ResolveNodes(nodes).value)
    ensures |ResolveNodes(nodes).value| == |nodes|
    ensures forall k :: 0 <= k < |nodes| ==> ResolveNodes(nodes).value[k].Text? == nodes[k].Text?
  {
    hide ResolveBody, ShapedBody, WellFormedBody;
    if nodes != [] {
      ResolvedNodesAreWellFormed(nodes[1..]);
      if nodes[0].Expr? {
        ResolvedBodiesAreWellFormed(nodes[0].body);
      }
      var out := ResolveNodes(nodes).value;
      assert out[1..] == ResolveNodes(nodes[1..]).value;
    }
  }

  /** The results of parsing are exactly the well-formed trees. */
  lemma ParserImage(nodes: seq<Node>)
    ensures WellFormedNodes(nodes) <==> exists spec :: ParseK8sTemplate(spec) == Ok(nodes)
  {
    if WellFormedNodes(nodes) {
      if nodes == [] {
        assert ParseFrom("\\", 1, "") == Ok([]);
        assert ParseK8sTemplate("\\") == Ok(nodes);
      } else {
        var p: Escaping := {'\\', '{', '}'};
        ParserUndoesPrinter(nodes, p);
        assert ParseK8sTemplate(PrintNodes(nodes, p)) == Ok(nodes);
      }
    }
    forall spec | ParseK8sTemplate(spec) == Ok(nodes)
      ensures WellFormedNodes(nodes)
    {
      ParsedTemplatesAreWellFormed(spec);
    }
  }

  lemma ParsedTemplatesAreWellFormed(spec: string)
    requires ParseK8sTemplate(spec).Ok?
    ensures WellFormedNodes(ParseK8sTemplate(spec).value)
  {
    var s := if spec == "" then DEFAULT_URL else spec;
    ParsedNodesAreShaped(s, 0, "");
    ResolvedNodesAreWellFormed(ParseFrom(s, 0, "").value);
  }

  // --- evaluation never misses a variable ---

  /** Every operand met at any depth, whichever branch is taken, is defined. */
  predicate TermDefined(t: Term, vars: Vars) {
    match t.nested
    case Some(b) => BodyDefined(b, vars)
    case None => t.kind.Operand? ==> t.raw in vars
  }

  predicate BodyDefined(b: Body, vars: Vars) {
    && TermDefined(b.operand, vars)
    && (b.expr.Default? || b.expr.Alt? ==> TermDefined(b.word, vars))
    && (b.expr.Apply? ==> !b.op.NoOperator?)
  }

  lemma {:induction false} WellFormedTermsAreDefined(t: Term, kind: Kind, vars: Vars)
    requires WellFormedTerm(t, kind) && KNOWN_VARS <= vars.Keys
    ensures TermDefined(t, vars)
  {
    hide KNOWN_VARS;
    if t.nested.Some? {
      WellFormedBodiesAreDefined(t.nested.value, vars);
    }
  }

  lemma {:induction false} WellFormedBodiesAreDefined(b: Body, vars: Vars)
    requires WellFormedBody(b) && KNOWN_VARS <= vars.Keys
    ensures BodyDefined(b, vars)
  {
    hide KNOWN_VARS;
    WellFormedTermsAreDefined(b.operand, Operand, vars);
    if b.expr.Default? || b.expr.Alt? {
      WellFormedTermsAreDefined(b.word, Word, vars);
    }
  }

  lemma {:induction false} NodeIsWellFormed(nodes: seq<Node>, k: nat)
    requires WellFormedNodes(nodes) && k < |nodes|
    ensures WellFormedNode(nodes[k])
  {
    if k > 0 {
      NodeIsWellFormed(nodes[1..], k - 1);
    }
  }

  /** Once a template has parsed, evaluating it finds every variable it meets, for every
      group, version and kind. */
  lemma EvaluationIsTotal(spec: string, group: string, version: string, kind: string, cm: CaseMap, k: nat)
    requires ParseK8sTemplate(spec).Ok? && k < |ParseK8sTemplate(spec).value|
    requires ParseK8sTemplate(spec).value[k].Expr?
    ensures BodyDefined(ParseK8sTemplate(spec).value[k].body, K8sVars(group, version, kind, cm))
  {
    hide ParseFrom, ResolveNodes, KNOWN_VARS, WellFormedBody, BodyDefined;
    ParsedTemplatesAreWellFormed(spec);
    var nodes := ParseK8sTemplate(spec).value;
    NodeIsWellFormed(nodes, k);
    WellFormedBodiesAreDefined(nodes[k].body, K8sVars(group, version, kind, cm));
  }

  // --- the documented expansions, as laws between templates ---

  /** What a template expands to; None when it does not parse. */
  function Expand(spec: string, vars: Vars, cm: CaseMap): Option<string> {
    match ParseSpec(spec)
    case Ok(nodes) => Some(RenderAll(nodes, vars, cm))
    case Err(_) => None
  }

  lemma EmptyTemplateParses()
    ensures ParseSpec("") == Ok([])
  {
  }

  lemma PrintedTemplateExpands(nodes: seq<Node>, p: Escaping, vars: Vars, cm: CaseMap)
    requires WellFormedNodes(nodes)
    ensures Expand(PrintNodes(nodes, p), vars, cm) == Some(RenderAll(nodes, vars, cm))
  {
    hide ParseFrom, ResolveNodes, PrintBody, WellFormedBody, RenderBody, PrintableBody;
    if nodes == [] {
      EmptyTemplateParses();
    } else {
      ParserUndoesPrinter(nodes, p);
      WellFormedNodesArePrintable(nodes);
      PrintedNodesNotEmpty(nodes, p);
    }
  }

  lemma RenderOne(n: Node, vars: Vars, cm: CaseMap)
    ensures RenderAll([n], vars, cm) == RenderNode(n, vars, cm)
  {
    hide RenderNode;
    assert RenderUpTo([n], 1, vars, cm) == RenderUpTo([n], 0, vars, cm) + RenderNode(n, vars, cm);
  }

  lemma PrintOne(n: Node, p: Escaping)
    ensures PrintNodes([n], p) == PrintNode(n, p)
  {
    hide PrintNode;
    assert [n][1..] == [];
    assert PrintNode(n, p) + "" == PrintNode(n, p);
  }

  /** How a printed expression reads. */
  lemma PrintedBodyReads(b: Body, p: Escaping)
    ensures PrintBody(b, p) == "{" + PrintTerm(b.operand, p) + Separator(b.expr) + PrintWord(b, p) + "}"
  {
    hide PrintTerm, PrintWord, Separator;
    assert PrintBody(b, p) == "{" + PrintInner(b, p) + "}";
  }

  lemma PrintedExpressionExpands(b: Body, p: Escaping, vars: Vars, cm: CaseMap)
    requires WellFormedBody(b)
    ensures Expand(PrintBody(b, p), vars, cm) == Some(RenderBody(b, vars, cm))
  {
    hide Expand, PrintBody, PrintNodes, RenderAll, WellFormedBody, RenderBody;
    PrintOne(Expr(b), p);
    RenderOne(Expr(b), vars, cm);
    PrintedTemplateExpands([Expr(b)], p, vars, cm);
  }

  /** Escaped text stands for itself. */
  lemma LiteralLaw(w: string, p: Escaping, vars: Vars, cm: CaseMap)
    ensures Expand(Escape(w, p), vars, cm) == Some(w)
  {
    hide Expand, Escape, PrintNodes, RenderAll;
    if w == "" {
      PrintedTemplateExpands([], p, vars, cm);
      NothingPrints(p, vars, cm);
    } else {
      PrintOne(Text(w), p);
      RenderOne(Text(w), vars, cm);
      PrintedTemplateExpands([Text(w)], p, vars, cm);
    }
  }

  lemma NothingPrints(p: Escaping, vars: Vars, cm: CaseMap)
    ensures Escape("", p) == "" && PrintNodes([], p) == "" && RenderAll([], vars, cm) == ""
  {
  }

  /** {name} is the variable's value. */
  lemma VariableLaw(name: string, vars: Vars, cm: CaseMap)
    requires name in KNOWN_VARS && name in vars
    ensures Expand("{" + name + "}", vars, cm) == Some(vars[name])
  {
    hide Expand, KNOWN_VARS;
    var p: Escaping := {'\\', '{', '}'};
    OperandLaw(Term(Operand, name, None), p, vars, cm);
  }

  /** An operand in braces stands for its value; one that already is an expression gains
      nothing from another pair of braces. */
  lemma OperandLaw(t: Term, p: Escaping, vars: Vars, cm: CaseMap)
    requires WellFormedTerm(t, Operand)
    ensures Expand("{" + PrintTerm(t, p) + "}", vars, cm) == Some(RenderTerm(t, vars, cm))
    ensures t.nested.Some? ==> Expand("{" + PrintTerm(t, p) + "}", vars, cm) == Expand(PrintTerm(t, p), vars, cm)
  {
    hide Expand, WellFormedTerm, RenderTerm, PrintTerm;
    var b := Body(Bare, t, NO_WORD, NoOperator);
    PrintedBodyReads(b, p);
    assert PrintBody(b, p) == "{" + PrintTerm(t, p) + "}";
    PrintedExpressionExpands(b, p, vars, cm);
    TermExpands(t, Operand, p, vars, cm);
  }

  lemma TermExpands(t: Term, kind: Kind, p: Escaping, vars: Vars, cm: CaseMap)
    requires WellFormedTerm(t, kind)
    ensures kind.Word? || t.nested.Some? ==> Expand(PrintTerm(t, p), vars, cm) == Some(RenderTerm(t, vars, cm))
  {
    hide Expand, WellFormedBody;
    if t.nested.Some? {
      PrintedExpressionExpands(t.nested.value, p, vars, cm);
    } else {
      LiteralLaw(t.raw, p, vars, cm);
    }
  }

  /** {o:-w} is w if o is empty, else o. */
  lemma DefaultLaw(t: Term, u: Term, p: Escaping, vars: Vars, cm: CaseMap)
    requires WellFormedTerm(t, Operand) && WellFormedTerm(u, Word)
    ensures
      var o, w := PrintTerm(t, p), PrintTerm(u, p);
      && Expand("{" + o + "}", vars, cm).Some?
      && Expand("{" + o + ":-" + w + "}", vars, cm) ==
         if Expand("{" + o + "}", vars, cm) == Some("") then Expand(w, vars, cm) else Expand("{" + o + "}", vars, cm)
  {
    hide Expand, WellFormedTerm, RenderTerm, PrintTerm;
    OperandLaw(t, p, vars, cm);
    TermExpands(u, Word, p, vars, cm);
    var b := Body(Default, t, u, NoOperator);
    PrintedExpressionExpands(b, p, vars, cm);
    PrintedBodyReads(b, p);
    assert PrintBody(b, p) == "{" + PrintTerm(t, p) + ":-" + PrintTerm(u, p) + "}";
  }

  /** {o:+w} is w if o is not empty, else nothing. */
  lemma AltLaw(t: Term, u: Term, p: Escaping, vars: Vars, cm: CaseMap)
    requires WellFormedTerm(t, Operand) && WellFormedTerm(u, Word)
    ensures
      var o, w := PrintTerm(t, p), PrintTerm(u, p);
      && Expand("{" + o + "}", vars, cm).Some?
      && Expand("{" + o + ":+" + w + "}", vars, cm) ==
         if Expand("{" + o + "}", vars, cm) == Some("") then Some("") else Expand(w, vars, cm)
  {
    hide Expand, WellFormedTerm, RenderTerm, PrintTerm;
    OperandLaw(t, p, vars, cm);
    TermExpands(u, Word, p, vars, cm);
    var b := Body(Alt, t, u, NoOperator);
    PrintedExpressionExpands(b, p, vars, cm);
    PrintedBodyReads(b, p);
    assert PrintBody(b, p) == "{" + PrintTerm(t, p) + ":+" + PrintTerm(u, p) + "}";
  }

  /** {o@U} and {o@L} are o in upper and in lower case; no other operator resolves. */
  lemma CaseLaw(t: Term, p: Escaping, vars: Vars, cm: CaseMap)
    requires WellFormedTerm(t, Operand)
    ensures
      var o := PrintTerm(t, p);
      && Expand("{" + o + "}", vars, cm).Some?
      && Expand("{" + o + "@U}", vars, cm) == Some(cm.upper(Expand("{" + o + "}", vars, cm).value))
      && Expand("{" + o + "@L}", vars, cm) == Some(cm.lower(Expand("{" + o + "}", vars, cm).value))
  {
    hide Expand, WellFormedTerm, RenderTerm, PrintTerm;
    OperandLaw(t, p, vars, cm);
    var upper := Body(Apply, t, Term(Word, "U", None), Upper);
    var lower := Body(Apply, t, Term(Word, "L", None), Lower);
    PrintedExpressionExpands(upper, p, vars, cm);
    PrintedExpressionExpands(lower, p, vars, cm);
    PrintedBodyReads(upper, p);
    PrintedBodyReads(lower, p);
    assert PrintBody(upper, p) == "{" + PrintTerm(t, p) + "@U}";
    assert PrintBody(lower, p) == "{" + PrintTerm(t, p) + "@L}";
  }

  // --- legacy aliases ---

  /** u is t with any number of its kindLower and versionLower operands, at any depth,
      written as the nested lower-case expression instead. */
  predicate AliasOf(t: Term, u: Term) {
    || (t.kind == u.kind && t.nested.None? && u.nested.None? && t.raw == u.raw)
    || (t.kind == u.kind && t.raw == u.raw && t.nested.Some? && u.nested.Some? &&
        AliasOfBody(t.nested.value, u.nested.value))
    || (t == Term(Operand, "kindLower", None) && u == Term(Operand, "", Some(LowerOf("kind"))))
    || (t == Term(Operand, "versionLower", None) && u == Term(Operand, "", Some(LowerOf("version"))))
  }

  predicate AliasOfBody(b: Body, c: Body) {
    b.expr == c.expr && b.op == c.op && AliasOf(b.operand, c.operand) && AliasOf(b.word, c.word)
  }

  function LowerOf(name: string): Body {
    Body(Apply, Term(Operand, name, None), Term(Word, "L", None), Lower)
  }

  lemma {:induction false} AliasTermsRenderAlike(t: Term, u: Term, group: string, version: string, kind: string,
                                        cm: CaseMap)
    requires AliasOf(t, u)
    ensures RenderTerm(t, K8sVars(group, version, kind, cm), cm) == RenderTerm(u, K8sVars(group, version, kind, cm), cm)
  {
    if t.nested.Some? && u.nested.Some? {
      AliasesRenderAlike(t.nested.value, u.nested.value, group, version, kind, cm);
    } else if u.nested.Some? {
      var vars, name := K8sVars(group, version, kind, cm), u.nested.value.operand.raw;
      assert RenderTerm(Term(Operand, name, None), vars, cm) == vars[name];
      assert RenderBody(LowerOf(name), vars, cm) == cm.lower(vars[name]);
    }
  }

  /** Replacing the legacy lower-case names by the nested form anywhere in an expression
      never changes its output. */
  lemma {:induction false} AliasesRenderAlike(b: Body, c: Body, group: string, version: string, kind: string,
                                        cm: CaseMap)
    requires AliasOfBody(b, c)
    ensures RenderBody(b, K8sVars(group, version, kind, cm), cm) == RenderBody(c, K8sVars(group, version, kind, cm), cm)
  {
    hide K8sVars, KNOWN_VARS;
    AliasTermsRenderAlike(b.operand, c.operand, group, version, kind, cm);
    AliasTermsRenderAlike(b.word, c.word, group, version, kind, cm);
  }

  lemma TwoExpressionsExpand(b: Body, c: Body, p: Escaping, vars: Vars, cm: CaseMap)
    requires WellFormedBody(b) && WellFormedBody(c)
    ensures Expand(PrintBody(b, p) + PrintBody(c, p), vars, cm) ==
            Some(RenderBody(b, vars, cm) + RenderBody(c, vars, cm))
  {
    hide Expand, PrintBody, WellFormedBody, RenderBody;
    var nodes := [Expr(b), Expr(c)];
    assert nodes[1..] == [Expr(c)];
    assert WellFormedNodes(nodes[1..]);
    PrintOne(Expr(c), p);
    assert RenderUpTo(nodes, 0, vars, cm) == "";
    assert RenderUpTo(nodes, 1, vars, cm) == RenderUpTo(nodes, 0, vars, cm) + RenderNode(nodes[0], vars, cm);
    assert RenderUpTo(nodes, 1, vars, cm) == RenderBody(b, vars, cm);
    assert RenderUpTo(nodes, 2, vars, cm) == RenderUpTo(nodes, 1, vars, cm) + RenderNode(nodes[1], vars, cm);
    PrintedTemplateExpands(nodes, p, vars, cm);
  }

  /** {name}{name:+word} for one of the variables. */
  lemma SegmentPrints(b: Body, c: Body, p: Escaping, name: string, word: string)
    requires Escape(word, p) == word
    requires b == Body(Bare, Term(Operand, name, None), NO_WORD, NoOperator)
    requires c == Body(Alt, Term(Operand, name, None), Term(Word, word, None), NoOperator)
    ensures PrintBody(b, p) + PrintBody(c, p) == "{" + name + "}{" + name + ":+" + word + "}"
  {
    hide Escape, PrintBody;
    PrintedBodyReads(b, p);
    PrintedBodyReads(c, p);
    assert PrintBody(b, p) == "{" + name + "}";
    assert PrintBody(c, p) == "{" + name + ":+" + word + "}";
  }

  lemma SegmentExpands(name: string, word: string, spec: string, vars: Vars, cm: CaseMap)
    requires name in KNOWN_VARS && name in vars
    requires '\\' !in word && '{' !in word && '}' !in word
    requires spec == "{" + name + "}{" + name + ":+" + word + "}"
    ensures Expand(spec, vars, cm) == Some(vars[name] + if vars[name] != "" then word else "")
  {
    hide Expand, KNOWN_VARS, Escape;
    var p: Escaping := {'\\', '{', '}'};
    var operand := Term(Operand, name, None);
    var b, c := Body(Bare, operand, NO_WORD, NoOperator), Body(Alt, operand, Term(Word, word, None), NoOperator);
    NothingToEscape(word, p);
    SegmentPrints(b, c, p, name, word);
    TwoExpressionsExpand(b, c, p, vars, cm);
    assert vars[name] + "" == vars[name];
  }

  lemma {:induction false} NothingToEscape(w: string, p: Escaping)
    requires forall c <- w :: c !in p
    ensures Escape(w, p) == w
  {
    if w != "" {
      assert w[0] in w;
      NothingToEscape(w[1..], p);
      assert w == [w[0]] + w[1..];
    }
  }

  lemma LowerExpands(name: string, vars: Vars, cm: CaseMap)
    requires name in KNOWN_VARS && name in vars
    ensures Expand("{" + name + "@L}", vars, cm) == Some(cm.lower(vars[name]))
  {
    hide Expand, KNOWN_VARS;
    var p: Escaping := {'\\', '{', '}'};
    CaseLaw(Term(Operand, name, None), p, vars, cm);
    VariableLaw(name, vars, cm);
  }

  /** {kindLower} is {kind@L} and {versionLower} is {version@L}. */
  lemma LegacyLowerNames(group: string, version: string, kind: string, cm: CaseMap)
    ensures var vars := K8sVars(group, version, kind, cm);
            && Expand("{kindLower}", vars, cm) == Expand("{kind@L}", vars, cm)
            && Expand("{versionLower}", vars, cm) == Expand("{version@L}", vars, cm)
  {
    hide Expand;
    var vars := K8sVars(group, version, kind, cm);
    assert "{" + "kindLower" + "}" == "{kindLower}" && "{" + "kind" + "@L}" == "{kind@L}";
    assert "{" + "versionLower" + "}" == "{versionLower}" && "{" + "version" + "@L}" == "{version@L}";
    VariableLaw("kindLower", vars, cm);
    VariableLaw("versionLower", vars, cm);
    LowerExpands("kind", vars, cm);
    LowerExpands("version", vars, cm);
  }

  lemma SegmentVariables(group: string, version: string, kind: string, cm: CaseMap)
    ensures var vars := K8sVars(group, version, kind, cm);
            && vars["groupSeg"] == vars["group"] + (if vars["group"] != "" then "/" else "")
            && vars["groupFirstSeg"] == vars["groupFirst"] + if vars["groupFirst"] != "" then "-" else ""
  {
    assert group + "" == group && CutDot(group) + "" == CutDot(group);
  }

  lemma GroupSegReads()
    ensures "{" + "group" + "}{" + "group" + ":+" + "/" + "}" == "{group}{group:+/}"
    ensures "{" + "groupSeg" + "}" == "{groupSeg}"
  {
  }

  lemma GroupFirstReads()
    ensures "{" + "groupFirst" + "}{" + "groupFirst" + ":+" + "-" + "}" == "{groupFirst}{groupFirst:+-}"
  {
  }

  lemma GroupFirstSegReads()
    ensures "{" + "groupFirstSeg" + "}" == "{groupFirstSeg}"
  {
  }

  /** {groupSeg} is {group}{group:+/}, and {groupFirstSeg} is {groupFirst}{groupFirst:+-}. */
  lemma LegacySegments(group: string, version: string, kind: string, cm: CaseMap)
    ensures var vars := K8sVars(group, version, kind, cm);
            && Expand("{groupSeg}", vars, cm) == Expand("{group}{group:+/}", vars, cm)
            && Expand("{groupFirstSeg}", vars, cm) == Expand("{groupFirst}{groupFirst:+-}", vars, cm)
  {
    hide Expand, K8sVars;
    var vars := K8sVars(group, version, kind, cm);
    SegmentVariables(group, version, kind, cm);
    GroupSegReads();
    GroupFirstReads();
    GroupFirstSegReads();
    VariableLaw("groupSeg", vars, cm);
    VariableLaw("groupFirstSeg", vars, cm);
    SegmentExpands("group", "/", "{group}{group:+/}", vars, cm);
    SegmentExpands("groupFirst", "-", "{groupFirst}{groupFirst:+-}", vars, cm);
  }

  lemma {:induction false} AliasTermsAreWellFormed(t: Term, u: Term, kind: Kind)
    requires WellFormedTerm(t, kind) && AliasOf(t, u)
    ensures WellFormedTerm(u, kind)
  {
    if t.nested.Some? && u.nested.Some? {
      AliasesAreWellFormed(t.nested.value, u.nested.value);
    } else if u.nested.Some? {
      assert WellFormedTerm(u.nested.value.operand, Operand);
    }
  }

  lemma {:induction false} AliasesAreWellFormed(b: Body, c: Body)
    requires WellFormedBody(b) && AliasOfBody(b, c)
    ensures WellFormedBody(c)
  {
    hide KNOWN_VARS;
    AliasTermsAreWellFormed(b.operand, c.operand, Operand);
    if b.expr.Default? || b.expr.Alt? {
      AliasTermsAreWellFormed(b.word, c.word, Word);
    }
  }

  predicate AliasOfNode(m: Node, n: Node) {
    m == n || (m.Expr? && n.Expr? && AliasOfBody(m.body, n.body))
  }

  predicate AliasOfNodes(m: seq<Node>, n: seq<Node>) {
    |m| == |n| && forall k :: 0 <= k < |m| ==> AliasOfNode(m[k], n[k])
  }

  lemma {:induction false} AliasNodesAreWellFormed(m: seq<Node>, n: seq<Node>)
    requires WellFormedNodes(m) && AliasOfNodes(m, n)
    ensures WellFormedNodes(n)
  {
    hide WellFormedBody, AliasOfBody;
    if m != [] {
      assert AliasOfNode(m[0], n[0]);
      AliasNodesAreWellFormed(m[1..], n[1..]);
      if m[0] != n[0] {
        AliasesAreWellFormed(m[0].body, n[0].body);
      }
    }
  }

  lemma {:induction false} AliasNodesRenderAlike(m: seq<Node>, n: seq<Node>, k: nat, group: string, version: string,
                                        kind: string, cm: CaseMap)
    requires AliasOfNodes(m, n) && k <= |m|
    ensures RenderUpTo(m, k, K8sVars(group, version, kind, cm), cm) ==
            RenderUpTo(n, k, K8sVars(group, version, kind, cm), cm)
  {
    hide K8sVars, KNOWN_VARS, RenderBody, AliasOfBody;
    if k > 0 {
      AliasNodesRenderAlike(m, n, k - 1, group, version, kind, cm);
      assert AliasOfNode(m[k - 1], n[k - 1]);
      if m[k - 1] != n[k - 1] {
        AliasesRenderAlike(m[k - 1].body, n[k - 1].body, group, version, kind, cm);
      }
    }
  }

  /** The same for whole templates, as texts: rewriting the legacy lower-case names of a
      printed template gives a template that parses and expands to the same URL. */
  lemma AliasTemplatesExpandAlike(m: seq<Node>, n: seq<Node>, p: Escaping, group: string, version: string,
                                  kind: string, cm: CaseMap)
    requires WellFormedNodes(m) && AliasOfNodes(m, n)
    ensures var vars := K8sVars(group, version, kind, cm);
            && Expand(PrintNodes(m, p), vars, cm).Some?
            && Expand(PrintNodes(m, p), vars, cm) == Expand(PrintNodes(n, p), vars, cm)
  {
    hide Expand, PrintNodes, K8sVars, KNOWN_VARS, WellFormedNodes, RenderUpTo;
    AliasNodesAreWellFormed(m, n);
    PrintedTemplateExpands(m, p, K8sVars(group, version, kind, cm), cm);
    PrintedTemplateExpands(n, p, K8sVars(group, version, kind, cm), cm);
    AliasNodesRenderAlike(m, n, |m|, group, version, kind, cm);
  }

  // --- the default template ---

  function DefaultNodes(): seq<Node> {
    [Text(HOST),
     Expr(Body(Default, Term(Operand, "group", None), Term(Word, "core", None), NoOperator)),
     Text("/"),
     Expr(LowerOf("kind")),
     Text("_"),
     Expr(LowerOf("version")),
     Text(".json")]
  }

  lemma HostNeedsNoEscape(p: Escaping)
    requires p == {'\\', '{', '}'}
    ensures Escape(HOST, p) == HOST
  {
    hide Escape;
    NothingToEscape(HOST, p);
  }

  lemma LowerReads(p: Escaping)
    requires p == {'\\', '{', '}'}
    ensures PrintBody(LowerOf("kind"), p) == "{kind@L}"
    ensures PrintBody(LowerOf("version"), p) == "{version@L}"
  {
    hide PrintBody;
    PrintedBodyReads(LowerOf("kind"), p);
    PrintedBodyReads(LowerOf("version"), p);
  }

  lemma GroupReads(p: Escaping)
    requires p == {'\\', '{', '}'}
    ensures PrintBody(DefaultNodes()[1].body, p) == "{group:-core}"
  {
    hide Escape, PrintBody;
    PrintedBodyReads(DefaultNodes()[1].body, p);
    NothingToEscape("core", p);
  }

  lemma TextsRead(p: Escaping)
    requires p == {'\\', '{', '}'}
    ensures Escape("/", p) == "/" && Escape("_", p) == "_" && Escape(".json", p) == ".json"
  {
    hide Escape;
    NothingToEscape("/", p);
    NothingToEscape("_", p);
    NothingToEscape(".json", p);
  }

  lemma DefaultPartsRead(p: Escaping)
    requires p == {'\\', '{', '}'}
    ensures PrintBody(DefaultNodes()[1].body, p) == "{group:-core}"
    ensures PrintBody(LowerOf("kind"), p) == "{kind@L}"
    ensures PrintBody(LowerOf("version"), p) == "{version@L}"
    ensures Escape("/", p) == "/" && Escape("_", p) == "_" && Escape(".json", p) == ".json"
  {
    hide Escape, PrintBody;
    LowerReads(p);
    GroupReads(p);
    TextsRead(p);
  }

  lemma PrintMore(nodes: seq<Node>, p: Escaping)
    requires nodes != []
    ensures PrintNodes(nodes, p) == PrintNode(nodes[0], p) + PrintNodes(nodes[1..], p)
  {
  }

  lemma DefaultEndReads(p: Escaping)
    requires p == {'\\', '{', '}'}
    ensures PrintNodes(DefaultNodes()[5..], p) == "{version@L}.json"
  {
    hide Escape, PrintBody, PrintNodes;
    DefaultPartsRead(p);
    var n := DefaultNodes();
    PrintMore(n[5..], p);
    PrintOne(n[6], p);
    assert n[6..] == [n[6]];
    assert n[5..][1..] == n[6..];
  }

  lemma DefaultTailReads(p: Escaping)
    requires p == {'\\', '{', '}'}
    ensures PrintNodes(DefaultNodes()[3..], p) == "{kind@L}_{version@L}.json"
  {
    hide Escape, PrintBody, PrintNodes;
    DefaultPartsRead(p);
    DefaultEndReads(p);
    var n := DefaultNodes();
    PrintMore(n[3..], p);
    PrintMore(n[4..], p);
    assert n[3..][1..] == n[4..] && n[4..][1..] == n[5..];
  }

  lemma DefaultRestReads(p: Escaping)
    requires p == {'\\', '{', '}'}
    ensures PrintNodes(DefaultNodes()[2..], p) == "/{kind@L}_{version@L}.json"
  {
    hide Escape, PrintBody, PrintNodes;
    DefaultPartsRead(p);
    DefaultTailReads(p);
    PrintMore(DefaultNodes()[2..], p);
    assert DefaultNodes()[2..][1..] == DefaultNodes()[3..];
  }

  lemma DefaultPathReads(p: Escaping)
    requires p == {'\\', '{', '}'}
    ensures PrintNodes(DefaultNodes()[1..], p) == "{group:-core}" + "/{kind@L}_{version@L}.json"
  {
    hide Escape, PrintBody, PrintNodes;
    DefaultPartsRead(p);
    DefaultRestReads(p);
    PrintMore(DefaultNodes()[1..], p);
    assert DefaultNodes()[1..][1..] == DefaultNodes()[2..];
  }

  lemma DefaultPathJoins()
    ensures "{group:-core}" + "/{kind@L}_{version@L}.json" == "{group:-core}/{kind@L}_{version@L}.json"
  {
  }

  lemma DefaultReads(p: Escaping)
    requires p == {'\\', '{', '}'}
    ensures PrintNodes(DefaultNodes(), p) == DEFAULT_URL
  {
    hide Escape, PrintBody, PrintNodes, HOST;
    HostNeedsNoEscape(p);
    DefaultPathReads(p);
    DefaultPathJoins();
    PrintMore(DefaultNodes(), p);
  }

  lemma DefaultValues(group: string, version: string, kind: string, cm: CaseMap)
    ensures var vars := K8sVars(group, version, kind, cm);
            && RenderBody(DefaultNodes()[1].body, vars, cm) == (if group != "" then group else "core")
            && RenderBody(LowerOf("kind"), vars, cm) == cm.lower(kind)
            && RenderBody(LowerOf("version"), vars, cm) == cm.lower(version)
  {
    var vars := K8sVars(group, version, kind, cm);
    assert RenderTerm(Term(Operand, "group", None), vars, cm) == group;
    assert RenderTerm(Term(Operand, "kind", None), vars, cm) == kind;
    assert RenderTerm(Term(Operand, "version", None), vars, cm) == version;
  }

  lemma DefaultRenders(group: string, version: string, kind: string, cm: CaseMap)
    ensures RenderAll(DefaultNodes(), K8sVars(group, version, kind, cm), cm)
         == HOST + (if group != "" then group else "core") + "/" + cm.lower(kind) + "_" + cm.lower(version) + ".json"
  {
    hide HOST, K8sVars, RenderBody;
    var vars, n := K8sVars(group, version, kind, cm), DefaultNodes();
    DefaultValues(group, version, kind, cm);
    assert RenderUpTo(n, 0, vars, cm) == "" && RenderUpTo(n, 1, vars, cm) == HOST;
    assert RenderUpTo(n, 2, vars, cm) == RenderUpTo(n, 1, vars, cm) + RenderNode(n[1], vars, cm);
    assert RenderUpTo(n, 3, vars, cm) == RenderUpTo(n, 2, vars, cm) + "/";
    assert RenderUpTo(n, 4, vars, cm) == RenderUpTo(n, 3, vars, cm) + RenderNode(n[3], vars, cm);
    assert RenderUpTo(n, 5, vars, cm) == RenderUpTo(n, 4, vars, cm) + "_";
    assert RenderUpTo(n, 6, vars, cm) == RenderUpTo(n, 5, vars, cm) + RenderNode(n[5], vars, cm);
    assert RenderUpTo(n, 7, vars, cm) == RenderUpTo(n, 6, vars, cm) + ".json";
  }

  lemma DefaultIsWellFormed()
    ensures WellFormedNodes(DefaultNodes())
  {
    var n := DefaultNodes();
    assert WellFormedNodes(n[6..]);
    assert n[5..][1..] == n[6..];
    assert WellFormedNodes(n[5..]);
    assert n[4..][1..] == n[5..];
    assert WellFormedNodes(n[4..]);
    assert n[3..][1..] == n[4..];
    assert WellFormedNodes(n[3..]);
    assert n[2..][1..] == n[3..];
    assert WellFormedNodes(n[2..]);
    assert n[1..][1..] == n[2..];
    assert WellFormedNodes(n[1..]);
  }

  /** An empty spec is the default template: it parses, and for every identifier triple it
      renders the documented URL, with "core" standing for the empty group. */
  lemma DefaultTemplate(group: string, version: string, kind: string, cm: CaseMap)
    requires version != "" && kind != "" && IsIdent(group, true) && IsIdent(version, false) && IsIdent(kind, false)
    ensures ParseK8sTemplate("").Ok?
    ensures Render(ParseK8sTemplate("").value, group, version, kind, cm)
         == HOST + (if group != "" then group else "core") + "/" + cm.lower(kind) + "_" + cm.lower(version) + ".json"
  {
    hide ParseSpec, PrintNodes, RenderAll, DefaultNodes, WellFormedNodes, IsIdent, HOST;
    var p: Escaping := {'\\', '{', '}'};
    DefaultIsWellFormed();
    DefaultReads(p);
    DefaultIsNotEmpty();
    ParserUndoesPrinter(DefaultNodes(), p);
    DefaultRenders(group, version, kind, cm);
  }

  lemma DefaultIsNotEmpty()
    ensures DefaultNodes() != [] && DEFAULT_URL != ""
  {
  }
}
