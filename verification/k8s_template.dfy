/** The schema URL template language: nested shell-like expansions of the parts of a
    Kubernetes group, version and kind. Strings are sequences of characters; the scans
    only ever test for ASCII characters. */
module K8sTemplate {
  import opened Options

  datatype Error =
    | UnterminatedExpression
    | UnexpectedBrace
    | UnbalancedNested
    | UnknownPlaceholder(name: string)
    | UndefinedOperator(name: string)

  datatype Result<+T> = Ok(value: T) | Err(error: Error) {
    predicate IsFailure() { Err? }
    function PropagateFailure<U>(): Result<U>
      requires Err?
    {
      Err(error)
    }
    function Extract(): T
      requires Ok?
    {
      value
    }
  }

  datatype Expression = Bare | Default | Alt | Apply

  datatype Operator = NoOperator | Upper | Lower

  datatype Kind = Operand | Word

  datatype Term = Term(kind: Kind, raw: string, nested: Option<Body>)

  datatype Body = Body(expr: Expression, operand: Term, word: Term, op: Operator)

  datatype Node = Text(s: string) | Expr(body: Body)

  /** The term of a body that has no word. */
  const NO_WORD := Term(Operand, "", None)

  const KNOWN_VARS := {"group", "groupSeg", "groupFirst", "groupFirstSeg", "kind", "kindLower", "version",
      "versionLower"}

  const HOST := "https://k8s-schemas.home-operations.com/"

  const DEFAULT_URL := HOST + "{group:-core}/{kind@L}_{version@L}.json"

  function Separator(e: Expression): string {
    match e
    case Bare => ""
    case Default => ":-"
    case Alt => ":+"
    case Apply => "@"
  }

  // --- scanning ---

  /** From i on, with depth braces open: the end of the brace that brings the depth to
      zero. A backslash hides the character after it. */
  function MatchFrom(s: string, i: nat, depth: int): (end: Option<nat>)
    ensures end.Some? ==> i < end.value <= |s| && s[end.value - 1] == '}'
    decreases |s| - i
  {
    if i >= |s| then None
    else if s[i] == '\\' then MatchFrom(s, i + 2, depth)
    else if s[i] == '{' then MatchFrom(s, i + 1, depth + 1)
    else if s[i] == '}' then if depth == 1 then Some(i + 1) else MatchFrom(s, i + 1, depth - 1)
    else MatchFrom(s, i + 1, depth)
  }

  method MatchBraces(s: string, start: nat) returns (end: nat, ok: bool)
    ensures ok == MatchFrom(s, start, 0).Some?
    ensures ok ==> end == MatchFrom(s, start, 0).value
  {
    var depth := 0;
    var i := start;
    while i < |s|
      invariant MatchFrom(s, start, 0) == MatchFrom(s, i, depth)
    {
      if s[i] == '\\' {
        i := i + 2;
        continue;
      }
      if s[i] == '{' {
        depth := depth + 1;
      } else if s[i] == '}' {
        depth := depth - 1;
        if depth == 0 {
          return i + 1, true;
        }
      }
      i := i + 1;
    }
    return 0, false;
  }

  datatype Found = Found(expr: Expression, at: nat)

  /** The first separator from i on outside escapes and nested expressions. */
  function FindFrom(s: string, i: nat): (f: Option<Found>)
    ensures f.Some? ==>
              && f.value.expr != Bare
              && i <= f.value.at && f.value.at + |Separator(f.value.expr)| <= |s|
    decreases |s| - i
  {
    if i >= |s| then None
    else if s[i] == '\\' then FindFrom(s, i + 2)
    else if s[i] == '{' then
      match MatchFrom(s, i, 0)
      case None => None
      case Some(end) => FindFrom(s, end)
    else if s[i] == ':' && i + 1 < |s| && s[i + 1] == '-' then Some(Found(Default, i))
    else if s[i] == ':' && i + 1 < |s| && s[i + 1] == '+' then Some(Found(Alt, i))
    else if s[i] == '@' then Some(Found(Apply, i))
    else FindFrom(s, i + 1)
  }

  method FindExpression(s: string) returns (expr: Expression, at: int)
    ensures match FindFrom(s, 0)
            case None => expr == Bare && at == -1
            case Some(f) => expr == f.expr && at == f.at
  {
    var i := 0;
    while i < |s|
      invariant FindFrom(s, 0) == FindFrom(s, i)
    {
      if s[i] == '\\' {
        i := i + 2;
        continue;
      }
      if s[i] == '{' {
        var end, ok := MatchBraces(s, i);
        if !ok {
          return Bare, -1;
        }
        i := end;
        continue;
      }
      if s[i] == ':' {
        if i + 1 < |s| && s[i + 1] == '-' {
          return Default, i;
        }
        if i + 1 < |s| && s[i + 1] == '+' {
          return Alt, i;
        }
      } else if s[i] == '@' {
        return Apply, i;
      }
      i := i + 1;
    }
    return Bare, -1;
  }

  function UnescapeFrom(s: string, i: nat): string
    decreases |s| - i
  {
    if i >= |s| then ""
    else if s[i] == '\\' then if i + 1 >= |s| then "" else [s[i + 1]] + UnescapeFrom(s, i + 2)
    else [s[i]] + UnescapeFrom(s, i + 1)
  }

  function Unescape(s: string): string { UnescapeFrom(s, 0) }

  method UnescapeWord(s: string) returns (r: string)
    ensures r == Unescape(s)
  {
    if '\\' !in s {
      UnescapePlain(s, 0);
      return s;
    }
    r := "";
    var i := 0;
    while i < |s|
      invariant Unescape(s) == r + UnescapeFrom(s, i)
    {
      if s[i] == '\\' {
        i := i + 1;
        if i < |s| {
          JoinTexts(r, [s[i]], UnescapeFrom(s, i + 1));
          r := r + [s[i]];
        }
      } else {
        JoinTexts(r, [s[i]], UnescapeFrom(s, i + 1));
        r := r + [s[i]];
      }
      i := i + 1;
    }
  }

  lemma JoinTexts(x: string, y: string, z: string)
    ensures x + y + z == x + (y + z)
  {
  }

  lemma {:induction false} UnescapePlain(s: string, i: nat)
    requires '\\' !in s && i <= |s|
    ensures UnescapeFrom(s, i) == s[i..]
    decreases |s| - i
  {
    if i < |s| {
      UnescapePlain(s, i + 1);
    }
  }

  // --- parsing ---

  function ParseBody(s: string): Result<Body>
    decreases |s|, 1
  {
    match FindFrom(s, 0)
    case None =>
      var operand :- ParseTerm(s, Operand);
      Ok(Body(Bare, operand, NO_WORD, NoOperator))
    case Some(f) =>
      var operand :- ParseTerm(s[..f.at], Operand);
      var word :- ParseTerm(s[f.at + |Separator(f.expr)|..], Word);
      Ok(Body(f.expr, operand, word, NoOperator))
  }

  function ParseTerm(s: string, kind: Kind): Result<Term>
    decreases |s|, 0
  {
    if s != "" && s[0] == '{' then
      if MatchFrom(s, 0, 0) == Some(|s|) then
        var nested :- ParseBody(s[1..|s| - 1]);
        Ok(Term(kind, "", Some(nested)))
      else Err(UnbalancedNested)
    else Ok(Term(kind, s, None))
  }

  function Flush(buf: string): seq<Node> {
    if buf == "" then [] else [Text(buf)]
  }

  /** The nodes from i on, buf being the text read since the last expression. */
  function ParseFrom(t: string, i: nat, buf: string): Result<seq<Node>>
    decreases |t| - i
  {
    if i >= |t| then Ok(Flush(buf))
    else if t[i] == '\\' then
      if i + 1 < |t| then ParseFrom(t, i + 2, buf + [t[i + 1]]) else ParseFrom(t, i + 1, buf)
    else if t[i] == '{' then
      match MatchFrom(t, i, 0)
      case None => Err(UnterminatedExpression)
      case Some(end) =>
        var body :- ParseBody(t[i + 1..end - 1]);
        var rest :- ParseFrom(t, end, "");
        Ok(Flush(buf) + [Expr(body)] + rest)
    else if t[i] == '}' then Err(UnexpectedBrace)
    else ParseFrom(t, i + 1, buf + [t[i]])
  }

  function Prepend(nodes: seq<Node>, r: Result<seq<Node>>): Result<seq<Node>> {
    match r
    case Ok(rest) => Ok(nodes + rest)
    case Err(e) => Err(e)
  }

  lemma PrependTwice(a: seq<Node>, b: seq<Node>, r: Result<seq<Node>>)
    ensures Prepend(a, Prepend(b, r)) == Prepend(a + b, r)
  {
    match r
    case Ok(rest) => assert a + (b + rest) == a + b + rest;
    case Err(_) =>
  }

  // --- resolving ---

  function ParseOperator(word: string): Operator {
    if word == "U" then Upper else if word == "L" then Lower else NoOperator
  }

  function ResolveBody(b: Body): Result<Body> {
    var operand :- ResolveTerm(b.operand);
    match b.expr
    case Bare => Ok(b.(operand := operand))
    case Default =>
      var word :- ResolveTerm(b.word);
      Ok(b.(operand := operand, word := word))
    case Alt =>
      var word :- ResolveTerm(b.word);
      Ok(b.(operand := operand, word := word))
    case Apply =>
      var op := ParseOperator(b.word.raw);
      if op.NoOperator? then Err(UndefinedOperator(b.word.raw)) else Ok(b.(operand := operand, op := op))
  }

  function ResolveTerm(t: Term): Result<Term> {
    match t.nested
    case Some(b) =>
      var nested :- ResolveBody(b);
      Ok(t.(nested := Some(nested)))
    case None =>
      match t.kind
      case Operand => if t.raw in KNOWN_VARS then Ok(t) else Err(UnknownPlaceholder(t.raw))
      case Word => Ok(t.(raw := Unescape(t.raw)))
  }

  function ResolveNodes(nodes: seq<Node>): Result<seq<Node>> {
    if nodes == [] then Ok([])
    else
      var first :- if nodes[0].Text? then Ok(nodes[0]) else ResolveExpr(nodes[0].body);
      var rest :- ResolveNodes(nodes[1..]);
      Ok([first] + rest)
  }

  function ResolveExpr(b: Body): Result<Node> {
    var body :- ResolveBody(b);
    Ok(Expr(body))
  }

  /** Parse and resolve, without the default for an empty spec. */
  function ParseSpec(spec: string): Result<seq<Node>> {
    var nodes :- ParseFrom(spec, 0, "");
    ResolveNodes(nodes)
  }

  function ParseK8sTemplate(spec: string): Result<seq<Node>> {
    ParseSpec(if spec == "" then DEFAULT_URL else spec)
  }

  // --- rendering ---

  /** Upper- and lower-casing, of which only this is used: they are functions. */
  datatype CaseMap = CaseMap(upper: string -> string, lower: string -> string)

  type Vars = map<string, string>

  function CutDot(s: string): string {
    if s == "" || s[0] == '.' then "" else [s[0]] + CutDot(s[1..])
  }

  function K8sVars(group: string, version: string, kind: string, cm: CaseMap): (vars: Vars)
    ensures vars.Keys == KNOWN_VARS
  {
    var groupFirst := CutDot(group);
    map[
      "group" := group,
      "groupSeg" := if group != "" then group + "/" else "",
      "groupFirst" := groupFirst,
      "groupFirstSeg" := if groupFirst != "" then groupFirst + "-" else "",
      "kind" := kind,
      "kindLower" := cm.lower(kind),
      "version" := version,
      "versionLower" := cm.lower(version)]
  }

  lemma {:induction false} CutDotIsLabel(s: string)
    ensures CutDot(s) <= s && '.' !in CutDot(s)
    ensures |CutDot(s)| < |s| ==> s[|CutDot(s)|] == '.'
  {
    if s != "" && s[0] != '.' {
      CutDotIsLabel(s[1..]);
      assert s == [s[0]] + s[1..];
    }
  }

  /** A part followed by its separator, both missing when the part is empty. */
  predicate WithSeparator(text: string, part: string, sep: char) {
    if part == "" then text == "" else text == part + [sep]
  }

  /** The names the documentation promises: the first label of the group is what precedes its
      first dot, and the segment forms carry their separator only when they are not empty. */
  lemma VarsMeanWhatTheySay(group: string, version: string, kind: string, cm: CaseMap)
    ensures var v := K8sVars(group, version, kind, cm);
            && v["group"] == group && v["kind"] == kind && v["version"] == version
            && v["kindLower"] == cm.lower(kind) && v["versionLower"] == cm.lower(version)
            && v["groupFirst"] <= group && '.' !in v["groupFirst"]
            && (v["groupFirst"] == group || group[|v["groupFirst"]|] == '.')
            && WithSeparator(v["groupSeg"], group, '/')
            && WithSeparator(v["groupFirstSeg"], v["groupFirst"], '-')
  {
    CutDotIsLabel(group);
  }

  function RenderBody(b: Body, vars: Vars, cm: CaseMap): string {
    match b.expr
    case Bare => RenderTerm(b.operand, vars, cm)
    case Default =>
      var val := RenderTerm(b.operand, vars, cm);
      if val != "" then val else RenderTerm(b.word, vars, cm)
    case Alt => if RenderTerm(b.operand, vars, cm) != "" then RenderTerm(b.word, vars, cm) else ""
    case Apply =>
      var val := RenderTerm(b.operand, vars, cm);
      if b.op.Upper? then cm.upper(val) else cm.lower(val)
  }

  /** A missing variable reads as the empty string. */
  function RenderTerm(t: Term, vars: Vars, cm: CaseMap): string {
    match t.nested
    case Some(b) => RenderBody(b, vars, cm)
    case None =>
      if t.kind.Word? then t.raw
      else if t.raw in vars then vars[t.raw] else ""
  }

  function RenderNode(n: Node, vars: Vars, cm: CaseMap): string {
    match n
    case Text(s) => s
    case Expr(b) => RenderBody(b, vars, cm)
  }

  /** The output of the first n nodes. */
  function RenderUpTo(nodes: seq<Node>, n: nat, vars: Vars, cm: CaseMap): string
    requires n <= |nodes|
  {
    if n == 0 then "" else RenderUpTo(nodes, n - 1, vars, cm) + RenderNode(nodes[n - 1], vars, cm)
  }

  function RenderAll(nodes: seq<Node>, vars: Vars, cm: CaseMap): string {
    RenderUpTo(nodes, |nodes|, vars, cm)
  }

  method RenderNodes(nodes: seq<Node>, vars: Vars, cm: CaseMap) returns (b: string)
    ensures b == RenderAll(nodes, vars, cm)
  {
    b := "";
    for n := 0 to |nodes|
      invariant b == RenderUpTo(nodes, n, vars, cm)
    {
      match nodes[n]
      case Text(s) => b := b + s;
      case Expr(body) => b := b + RenderBody(body, vars, cm);
    }
  }

  predicate IdentChar(c: char, dns: bool) {
    'a' <= c <= 'z' || 'A' <= c <= 'Z' || '0' <= c <= '9' || c == '.' || c == '-' || (c == '_' && !dns)
  }

  predicate IsIdent(s: string, dns: bool) {
    s != "." && !(".." <= s) && forall c <- s :: IdentChar(c, dns)
  }

  /** A part that is missing or not a plain identifier renders nothing at all. */
  function Render(nodes: seq<Node>, group: string, version: string, kind: string, cm: CaseMap): string {
    if version == "" || kind == "" || !IsIdent(group, true) || !IsIdent(version, false) || !IsIdent(kind, false) then ""
    else RenderAll(nodes, K8sVars(group, version, kind, cm), cm)
  }
}
