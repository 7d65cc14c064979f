/** The expression tree as the parser builds it, and the resolver rewriting it in place. */
module K8sTemplateTree {
  import opened K8sTemplate
  import opened Options

  /** An operand or word inside a tree node; a nested expression is a node of its own. */
  datatype TermCell = TermCell(kind: Kind, raw: string, nested: ExprBody?)

  class ExprBody {
    var expr: Expression
    var operand: TermCell
    var word: TermCell
    var op: Operator
    /** The nodes of the tree. */
    ghost var repr: set<ExprBody>

    ghost predicate Valid()
      reads this, repr
      decreases repr
    {
      && this in repr
      && (operand.nested != null ==> operand.nested in repr && operand.nested.repr < repr
                                     && this !in operand.nested.repr && operand.nested.Valid())
      && (word.nested != null ==> word.nested in repr && word.nested.repr < repr
                                  && this !in word.nested.repr && word.nested.Valid())
      && (operand.nested != null && word.nested != null ==> operand.nested.repr !! word.nested.repr)
    }

    /** The tree as a value. */
    ghost function Value(): Body
      requires Valid()
      reads this, repr
      decreases repr
    {
      Body(expr,
           Term(operand.kind, operand.raw, if operand.nested == null then None else Some(operand.nested.Value())),
           Term(word.kind, word.raw, if word.nested == null then None else Some(word.nested.Value())),
           op)
    }

    constructor (expr: Expression, operand: TermCell, word: TermCell)
      requires CellValid(operand) && CellValid(word)
      requires CellRepr(operand) !! CellRepr(word)
      ensures Valid() && fresh(repr - CellRepr(operand) - CellRepr(word))
      ensures Value() == Body(expr, CellValue(operand), CellValue(word), NoOperator)
    {
      this.expr := expr;
      this.operand := operand;
      this.word := word;
      this.op := NoOperator;
      this.repr := {this} + CellRepr(operand) + CellRepr(word);
    }
  }

  ghost function CellRepr(t: TermCell): set<ExprBody>
    reads if t.nested == null then {} else {t.nested}
  {
    if t.nested == null then {} else t.nested.repr
  }

  ghost predicate CellValid(t: TermCell)
    reads if t.nested == null then {} else {t.nested}
    reads CellRepr(t)
  {
    t.nested != null ==> t.nested.Valid()
  }

  ghost function CellValue(t: TermCell): Term
    requires CellValid(t)
    reads if t.nested == null then {} else {t.nested}
    reads CellRepr(t)
  {
    Term(t.kind, t.raw, if t.nested == null then None else Some(t.nested.Value()))
  }

  // --- building ---

  /** Parses an expression's text into a new tree. */
  method BuildBody(s: string) returns (eb: ExprBody?, err: Option<Error>)
    ensures match ParseBody(s)
            case Ok(b) => err == None && eb != null && eb.Valid() && fresh(eb.repr) && eb.Value() == b
            case Err(e) => err == Some(e) && eb == null
    decreases |s|, 2
  {
    hide ParseTerm, FindFrom, Separator, ExprBody.Valid, ExprBody.Value;
    var exp, idx := FindExpression(s);
    if exp == Bare {
      eb, err := BuildBare(s);
      return;
    }
    eb, err := BuildOperated(exp, s[..idx], s[idx + |Separator(exp)|..]);
  }

  method BuildBare(s: string) returns (eb: ExprBody?, err: Option<Error>)
    ensures match ParseTerm(s, Operand)
            case Ok(t) => err == None && eb != null && eb.Valid() && fresh(eb.repr)
                && eb.Value() == Body(Bare, t, NO_WORD, NoOperator)
            case Err(e) => err == Some(e) && eb == null
    decreases |s|, 1
  {
    hide ParseTerm, ExprBody.Valid, ExprBody.Value;
    var operand;
    operand, err := BuildTerm(s, Operand);
    if err.Some? {
      return null, err;
    }
    eb := new ExprBody(Bare, operand, TermCell(Operand, "", null));
  }

  method BuildOperated(exp: Expression, left: string, right: string) returns (eb: ExprBody?, err: Option<Error>)
    ensures match ParseTerm(left, Operand)
            case Err(e) => err == Some(e) && eb == null
            case Ok(t) =>
              match ParseTerm(right, Word)
              case Ok(u) => err == None && eb != null && eb.Valid() && fresh(eb.repr)
                  && eb.Value() == Body(exp, t, u, NoOperator)
              case Err(e) => err == Some(e) && eb == null
    decreases |left| + |right|, 1
  {
    hide ParseTerm, ExprBody.Valid, ExprBody.Value;
    var operand, word;
    operand, err := BuildTerm(left, Operand);
    if err.Some? {
      return null, err;
    }
    word, err := BuildTerm(right, Word);
    if err.Some? {
      return null, err;
    }
    eb := new ExprBody(exp, operand, word);
  }

  method BuildTerm(s: string, kind: Kind) returns (cell: TermCell, err: Option<Error>)
    ensures match ParseTerm(s, kind)
            case Ok(t) => err == None && CellValid(cell) && fresh(CellRepr(cell)) && CellValue(cell) == t
            case Err(e) => err == Some(e)
    decreases |s|, 0
  {
    if s != "" && s[0] == '{' {
      var end, ok := MatchBraces(s, 0);
      if ok && end == |s| {
        var nested;
        nested, err := BuildBody(s[1..|s| - 1]);
        cell := TermCell(kind, "", nested);
        return;
      }
      return TermCell(Operand, "", null), Some(UnbalancedNested);
    }
    return TermCell(kind, s, null), None;
  }

  // --- resolving ---

  /** Resolves the term's nested tree in place and returns the cell to store back. */
  method ResolveTermInPlace(t: TermCell) returns (cell: TermCell, err: Option<Error>)
    requires CellValid(t)
    modifies CellRepr(t)
    ensures CellValid(cell) && cell.nested == t.nested && CellRepr(cell) == old(CellRepr(t))
    ensures match ResolveTerm(old(CellValue(t)))
            case Ok(v) => err == None && CellValue(cell) == v
            case Err(e) => err == Some(e)
    decreases CellRepr(t), 3
  {
    cell := t;
    if t.nested != null {
      err := ResolveBodyInPlace(t.nested);
      return;
    }
    match t.kind
    case Operand =>
      err := if t.raw in KNOWN_VARS then None else Some(UnknownPlaceholder(t.raw));
    case Word =>
      cell := t.(raw := Unescape(t.raw));
      err := None;
  }

  method ResolveOperandOf(eb: ExprBody) returns (err: Option<Error>)
    requires eb.Valid()
    modifies eb.repr
    ensures eb.Valid() && eb.repr == old(eb.repr) && eb.expr == old(eb.expr) && eb.word.raw == old(eb.word.raw)
    ensures match ResolveTerm(old(eb.Value()).operand)
            case Ok(v) => err == None && eb.Value() == old(eb.Value()).(operand := v)
            case Err(e) => err == Some(e)
    decreases eb.repr, 1
  {
    hide KNOWN_VARS, ResolveTerm, ResolveBody;
    var operand;
    operand, err := ResolveTermInPlace(eb.operand);
    eb.operand := operand;
  }

  method ResolveWordOf(eb: ExprBody) returns (err: Option<Error>)
    requires eb.Valid()
    modifies eb.repr
    ensures eb.Valid() && eb.repr == old(eb.repr)
    ensures match ResolveTerm(old(eb.Value()).word)
            case Ok(v) => err == None && eb.Value() == old(eb.Value()).(word := v)
            case Err(e) => err == Some(e)
    decreases eb.repr, 1
  {
    hide KNOWN_VARS, ResolveTerm, ResolveBody;
    var word;
    word, err := ResolveTermInPlace(eb.word);
    eb.word := word;
  }

  /** Rewrites the tree into its resolved form; on an error the tree stays a tree. */
  method ResolveBodyInPlace(eb: ExprBody) returns (err: Option<Error>)
    requires eb.Valid()
    modifies eb.repr
    ensures eb.Valid() && eb.repr == old(eb.repr)
    ensures match ResolveBody(old(eb.Value()))
            case Ok(v) => err == None && eb.Value() == v
            case Err(e) => err == Some(e)
    decreases eb.repr, 2
  {
    hide KNOWN_VARS, ResolveTerm, Unescape;
    err := ResolveOperandOf(eb);
    if err.Some? {
      return;
    }
    match eb.expr
    case Bare =>
    case Default =>
      err := ResolveWordOf(eb);
    case Alt =>
      err := ResolveWordOf(eb);
    case Apply =>
      var op := ParseOperator(eb.word.raw);
      if op == NoOperator {
        return Some(UndefinedOperator(eb.word.raw));
      }
      eb.op := op;
  }

  // --- whole templates ---

  /** A node of a template; an expression is known by the root of its tree. */
  datatype LinkedNode = TextNode(s: string) | ExprNode(body: ExprBody)

  /** The trees of the nodes lie apart from each other, all within repr. */
  ghost predicate Linked(nodes: seq<LinkedNode>, repr: set<ExprBody>)
    reads repr
  {
    && (forall i :: 0 <= i < |nodes| && nodes[i].ExprNode? ==>
          nodes[i].body in repr && nodes[i].body.repr <= repr && nodes[i].body.Valid())
    && (forall i, j :: 0 <= i < j < |nodes| && nodes[i].ExprNode? && nodes[j].ExprNode? ==>
          nodes[i].body.repr !! nodes[j].body.repr)
  }

  ghost function NodeValue(n: LinkedNode): Node
    requires n.ExprNode? ==> n.body.Valid()
    reads if n.ExprNode? then {n.body} + n.body.repr else {}
  {
    match n
    case TextNode(s) => Text(s)
    case ExprNode(body) => Expr(body.Value())
  }

  /** The nodes as values. */
  ghost predicate Values(nodes: seq<LinkedNode>, repr: set<ExprBody>, values: seq<Node>)
    requires Linked(nodes, repr)
    reads repr
  {
    |values| == |nodes| && forall i :: 0 <= i < |nodes| ==> values[i] == NodeValue(nodes[i])
  }

  lemma AddText(nodes: seq<LinkedNode>, repr: set<ExprBody>, values: seq<Node>, text: string)
    requires Linked(nodes, repr) && Values(nodes, repr, values)
    ensures Linked(nodes + [TextNode(text)], repr) && Values(nodes + [TextNode(text)], repr, values + [Text(text)])
  {
  }

  lemma AddExpression(nodes: seq<LinkedNode>, repr: set<ExprBody>, values: seq<Node>, body: ExprBody)
    requires Linked(nodes, repr) && Values(nodes, repr, values) && body.Valid() && body.repr !! repr
    ensures Linked(nodes + [ExprNode(body)], repr + body.repr)
    ensures Values(nodes + [ExprNode(body)], repr + body.repr, values + [Expr(body.Value())])
  {
    hide ExprBody.Valid, ExprBody.Value;
    RootIsInTree(body);
  }

  lemma RootIsInTree(body: ExprBody)
    requires body.Valid()
    ensures body in body.repr
  {
  }

  /** Text that ends where an expression or the template does. */
  method Flushed(nodes: seq<LinkedNode>, text: string, ghost repr: set<ExprBody>, ghost values: seq<Node>)
      returns (more: seq<LinkedNode>)
    requires Linked(nodes, repr) && Values(nodes, repr, values)
    ensures Linked(more, repr) && Values(more, repr, values + Flush(text))
  {
    more := nodes;
    assert values + [] == values;
    if |text| > 0 {
      AddText(nodes, repr, values, text);
      more := more + [TextNode(text)];
    }
  }

  /** Parses a template into nodes whose expressions are new trees. */
  method ParseTemplate(t: string) returns (nodes: seq<LinkedNode>, ghost repr: set<ExprBody>, err: Option<Error>)
    ensures fresh(repr)
    ensures match ParseFrom(t, 0, "")
            case Ok(values) => err == None && Linked(nodes, repr) && Values(nodes, repr, values)
            case Err(e) => err == Some(e)
  {
    hide ExprBody.Valid, ExprBody.Value, ParseBody, MatchFrom;
    nodes, repr, err := [], {}, None;
    var b := "";
    var i := 0;
    ghost var values: seq<Node> := [];
    NothingBefore(ParseFrom(t, 0, ""));
    while i < |t|
      invariant err == None && fresh(repr) && Linked(nodes, repr) && Values(nodes, repr, values)
      invariant ParseFrom(t, 0, "") == Prepend(values, ParseFrom(t, i, b))
    {
      if t[i] == '\\' {
        if i + 1 < |t| {
          b := b + [t[i + 1]];
          i := i + 2;
        } else {
          i := i + 1;
        }
      } else if t[i] == '{' {
        nodes := Flushed(nodes, b, repr, values);
        var end, ok := MatchBraces(t, i);
        if !ok {
          err := Some(UnterminatedExpression);
          return;
        }
        var body;
        body, err := BuildBody(t[i + 1..end - 1]);
        if err.Some? {
          return;
        }
        ExpressionRead(t, i, b, values, end, body.Value());
        AddExpression(nodes, repr, values + Flush(b), body);
        values := values + Flush(b) + [Expr(body.Value())];
        nodes, repr := nodes + [ExprNode(body)], repr + body.repr;
        b := "";
        i := end;
      } else if t[i] == '}' {
        err := Some(UnexpectedBrace);
        return;
      } else {
        b := b + [t[i]];
        i := i + 1;
      }
    }
    nodes := Flushed(nodes, b, repr, values);
  }

  lemma NothingBefore(r: Result<seq<Node>>)
    ensures Prepend([], r) == r
  {
    match r
    case Ok(rest) => assert [] + rest == rest;
    case Err(_) =>
  }

  lemma ExpressionRead(t: string, i: nat, text: string, before: seq<Node>, end: nat, body: Body)
    requires i < |t| && t[i] == '{' && MatchFrom(t, i, 0) == Some(end)
    requires ParseBody(t[i + 1..end - 1]) == Ok(body)
    ensures Prepend(before, ParseFrom(t, i, text)) ==
            Prepend(before + Flush(text) + [Expr(body)], ParseFrom(t, end, ""))
  {
    hide ParseBody, MatchFrom;
    PrependTwice(before, Flush(text) + [Expr(body)], ParseFrom(t, end, ""));
    assert before + (Flush(text) + [Expr(body)]) == before + Flush(text) + [Expr(body)];
    assert ParseFrom(t, i, text) == Prepend(Flush(text) + [Expr(body)], ParseFrom(t, end, ""));
  }

  /** Resolves one expression in place; the other trees are not touched. */
  method ResolveNodeInPlace(nodes: seq<LinkedNode>, n: nat, ghost repr: set<ExprBody>, ghost values: seq<Node>)
      returns (err: Option<Error>)
    requires Linked(nodes, repr) && Values(nodes, repr, values) && n < |nodes| && nodes[n].ExprNode?
    modifies nodes[n].body.repr
    ensures Linked(nodes, repr)
    ensures match ResolveBody(values[n].body)
            case Ok(b) => err == None && Values(nodes, repr, values[n := Expr(b)])
            case Err(e) => err == Some(e)
  {
    hide ResolveBody;
    err := ResolveBodyInPlace(nodes[n].body);
  }

  /** Resolves the expressions in order, up to the first error. */
  method ResolveTemplate(nodes: seq<LinkedNode>, ghost repr: set<ExprBody>, ghost values: seq<Node>)
      returns (err: Option<Error>)
    requires Linked(nodes, repr) && Values(nodes, repr, values)
    modifies repr
    ensures Linked(nodes, repr)
    ensures match ResolveNodes(values)
            case Ok(resolved) => err == None && Values(nodes, repr, resolved)
            case Err(e) => err == Some(e)
  {
    hide ResolveBody, ExprBody.Valid, ExprBody.Value;
    ghost var now := values;
    err := None;
    NothingBefore(ResolveNodes(values));
    assert values[0..] == values;
    for n := 0 to |nodes|
      invariant err == None && Linked(nodes, repr) && Values(nodes, repr, now)
      invariant now[n..] == values[n..]
      invariant ResolveNodes(values) == Prepend(now[..n], ResolveNodes(values[n..]))
    {
      ResolveStep(now, values, n);
      if nodes[n].ExprNode? {
        err := ResolveNodeInPlace(nodes, n, repr, now);
        if err.Some? {
          return;
        }
        now := now[n := Expr(ResolveBody(values[n].body).value)];
      }
    }
    AllResolved(now, values);
  }

  /** What is left to resolve, after one more node. */
  lemma ResolveStep(now: seq<Node>, values: seq<Node>, n: nat)
    requires n < |values| == |now| && now[n..] == values[n..]
    ensures now[n] == values[n]
    ensures var left, rest := Prepend(now[..n], ResolveNodes(values[n..])), ResolveNodes(values[n + 1..]);
            match values[n]
            case Text(_) => left == Prepend(now[..n + 1], rest)
            case Expr(b) =>
              match ResolveBody(b)
              case Ok(v) => left == Prepend(now[n := Expr(v)][..n + 1], rest)
              case Err(e) => left == Err(e)
  {
    hide ResolveBody;
    assert now[n] == now[n..][0] == values[n..][0] == values[n];
    assert values[n..][1..] == values[n + 1..];
    var rest := ResolveNodes(values[n + 1..]);
    match values[n]
    case Text(_) =>
      PrependTwice(now[..n], [values[n]], rest);
      assert now[..n + 1] == now[..n] + [values[n]];
    case Expr(b) =>
      if ResolveBody(b).Ok? {
        var v := ResolveBody(b).value;
        PrependTwice(now[..n], [Expr(v)], rest);
        assert now[n := Expr(v)][..n + 1] == now[..n] + [Expr(v)];
      }
  }

  lemma AllResolved(now: seq<Node>, values: seq<Node>)
    requires |now| == |values|
    ensures Prepend(now[..|now|], ResolveNodes(values[|now|..])) == Ok(now)
  {
    assert now[..|now|] + [] == now;
  }

  /** Parses and resolves a template, the default one for an empty spec. */
  method ParseAndResolve(spec: string) returns (nodes: seq<LinkedNode>, ghost repr: set<ExprBody>, err: Option<Error>)
    ensures fresh(repr)
    ensures match ParseK8sTemplate(spec)
            case Ok(values) => err == None && Linked(nodes, repr) && Values(nodes, repr, values)
            case Err(e) => err == Some(e)
  {
    hide ExprBody.Valid, ExprBody.Value, ParseFrom, ResolveNodes;
    var t := if spec == "" then DEFAULT_URL else spec;
    nodes, repr, err := ParseTemplate(t);
    if err.None? {
      err := ResolveTemplate(nodes, repr, ParseFrom(t, 0, "").value);
    }
  }
}
