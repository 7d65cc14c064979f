/** What every text expands to, told by its characters: the first of them, the expression in
    braces it starts with, and the operand, separator and word of that expression. */
module K8sTemplateLaws {
  import opened K8sTemplate
  import opened K8sTemplateMeaning
  import opened K8sTemplateProofs
  import opened Options

  // --- braces ---

  /** Every brace has its partner, escapes aside. */
  ghost predicate Balanced(s: string)
    decreases |s|
  {
    || s == ""
    || (|s| >= 2 && s[0] == '\\' && Balanced(s[2..]))
    || (s[0] !in "\\{}" && Balanced(s[1..]))
    || (s[0] == '{' && exists n: nat :: n < |s| && s[n] == '}' && 0 < n && Balanced(s[1..n]) && Balanced(s[n + 1..]))
  }

  lemma PartOfPart(s: string, i: nat, j: nat, a: nat, b: nat)
    requires i <= j <= |s| && a <= b <= j - i
    ensures s[i..j][a..b] == s[i + a..i + b]
    ensures b == j - i ==> s[i..j][a..] == s[i + a..j]
  {
    var part := s[i..j];
    assert forall k :: a <= k < b ==> part[k] == s[i + k];
    assert part[a..b] == s[i + a..i + b];
  }

  lemma FirstGroup(s: string) returns (m: nat)
    requires Balanced(s) && s != "" && s[0] == '{'
    ensures 0 < m < |s| && s[m] == '}' && Balanced(s[1..m]) && Balanced(s[m + 1..])
  {
    m :| m < |s| && s[m] == '}' && 0 < m && Balanced(s[1..m]) && Balanced(s[m + 1..]);
  }

  lemma OneGroup(s: string, m: nat)
    requires 0 < m < |s| && s[0] == '{' && s[m] == '}' && Balanced(s[1..m]) && Balanced(s[m + 1..])
    ensures Balanced(s)
  {
  }

  lemma NoGroup(s: string)
    requires Balanced(s) && s != "" && s[0] != '{'
    ensures s[0] != '}'
    ensures s[0] == '\\' ==> |s| >= 2 && Balanced(s[2..])
    ensures s[0] != '\\' ==> Balanced(s[1..])
  {
  }

  /** What a balanced stretch starts with; n is where its first group closes. */
  lemma BalancedHead(s: string, i: nat, j: nat) returns (n: nat)
    requires i < j <= |s| && Balanced(s[i..j])
    ensures s[i] != '}'
    ensures s[i] == '\\' ==> i + 2 <= j && Balanced(s[i + 2..j])
    ensures s[i] == '{' ==> i < n < j && s[n] == '}' && Balanced(s[i + 1..n]) && Balanced(s[n + 1..j])
    ensures s[i] !in "\\{}" ==> Balanced(s[i + 1..j])
  {
    hide Balanced;
    n := 0;
    var part := s[i..j];
    assert part[0] == s[i];
    if s[i] == '{' {
      var m := FirstGroup(part);
      PartOfPart(s, i, j, 1, m);
      PartOfPart(s, i, j, m + 1, j - i);
      n := i + m;
    } else {
      NoGroup(part);
      PartOfPart(s, i, j, if s[i] == '\\' then 2 else 1, j - i);
    }
  }

  lemma {:induction false} BalancedIsSkipped(s: string, i: nat, j: nat, depth: int)
    requires i <= j <= |s| && depth >= 1 && Balanced(s[i..j])
    ensures MatchFrom(s, i, depth) == MatchFrom(s, j, depth)
    decreases j - i
  {
    hide Balanced;
    if i < j {
      var n := BalancedHead(s, i, j);
      if s[i] == '\\' {
        BalancedIsSkipped(s, i + 2, j, depth);
      } else if s[i] == '{' {
        BalancedIsSkipped(s, i + 1, n, depth + 1);
        BalancedIsSkipped(s, n + 1, j, depth);
      } else {
        BalancedIsSkipped(s, i + 1, j, depth);
      }
    }
  }

  lemma BalancedEscape(s: string, i: nat, j: nat)
    requires i + 2 <= j <= |s| && s[i] == '\\' && Balanced(s[i + 2..j])
    ensures Balanced(s[i..j])
  {
    PartOfPart(s, i, j, 2, j - i);
    assert s[i..j][0] == s[i];
  }

  lemma BalancedPlain(s: string, i: nat, j: nat)
    requires i < j <= |s| && s[i] != '\\' && s[i] != '{' && s[i] != '}' && Balanced(s[i + 1..j])
    ensures Balanced(s[i..j])
  {
    PartOfPart(s, i, j, 1, j - i);
    assert s[i..j][0] == s[i];
  }

  lemma NothingIsBalanced()
    ensures Balanced("")
  {
  }

  lemma BalancedGroup(s: string, i: nat, n: nat, j: nat)
    requires i < n < j <= |s|
    requires s[i] == '{' && s[n] == '}' && Balanced(s[i + 1..n]) && Balanced(s[n + 1..j])
    ensures Balanced(s[i..j])
  {
    hide Balanced;
    PartOfPart(s, i, j, 1, n - i);
    PartOfPart(s, i, j, n - i + 1, j - i);
    OneGroup(s[i..j], n - i);
  }

  /** The innermost open brace of those that the scan is in at i closes at j. */
  ghost predicate ClosedAt(s: string, i: nat, depth: int, j: nat) {
    && i <= j < |s| && s[j] == '}' && Balanced(s[i..j])
    && MatchFrom(s, i, depth) == if depth == 1 then Some(j + 1) else MatchFrom(s, j + 1, depth - 1)
  }

  lemma ClosedBehindCharacter(s: string, i: nat, depth: int, j: nat)
    requires i < |s| && depth >= 1 && s[i] != '{' && s[i] != '}'
    requires ClosedAt(s, if s[i] == '\\' then i + 2 else i + 1, depth, j)
    ensures ClosedAt(s, i, depth, j)
  {
    hide Balanced;
    if s[i] == '\\' {
      BalancedEscape(s, i, j);
    } else {
      BalancedPlain(s, i, j);
    }
  }

  lemma ClosedBehindGroup(s: string, i: nat, depth: int, n: nat, j: nat)
    requires i < |s| && depth >= 1 && s[i] == '{' && ClosedAt(s, i + 1, depth + 1, n) && ClosedAt(s, n + 1, depth, j)
    ensures ClosedAt(s, i, depth, j)
  {
    hide Balanced;
    BalancedGroup(s, i, n, j);
  }

  lemma ClosedHere(s: string, i: nat, depth: int)
    requires i < |s| && depth >= 1 && s[i] == '}'
    ensures ClosedAt(s, i, depth, i)
  {
    hide Balanced;
    NothingIsBalanced();
    assert s[i..i] == "";
  }

  lemma {:induction false} InnermostCloses(s: string, i: nat, depth: int) returns (j: nat)
    requires depth >= 1 && MatchFrom(s, i, depth).Some?
    ensures i <= j && ClosedAt(s, i, depth, j)
    decreases |s| - i
  {
    hide Balanced;
    if s[i] == '{' {
      var n := InnermostCloses(s, i + 1, depth + 1);
      j := InnermostCloses(s, n + 1, depth);
      ClosedBehindGroup(s, i, depth, n, j);
    } else if s[i] == '}' {
      j := i;
      ClosedHere(s, i, depth);
    } else {
      j := InnermostCloses(s, if s[i] == '\\' then i + 2 else i + 1, depth);
      ClosedBehindCharacter(s, i, depth, j);
    }
  }

  /** An opening brace is closed exactly by the brace that has a balanced text before it. */
  lemma BracesExactly(s: string, i: nat, end: nat)
    requires i < |s| && s[i] == '{'
    ensures MatchFrom(s, i, 0) == Some(end) <==> i + 2 <= end <= |s| && s[end - 1] == '}' && Balanced(s[i + 1..end - 1])
  {
    hide Balanced;
    assert MatchFrom(s, i, 0) == MatchFrom(s, i + 1, 1);
    if i + 2 <= end <= |s| && s[end - 1] == '}' && Balanced(s[i + 1..end - 1]) {
      BalancedIsSkipped(s, i + 1, end - 1, 1);
    }
    if MatchFrom(s, i, 0) == Some(end) {
      var j := InnermostCloses(s, i + 1, 1);
    }
  }

  lemma BracesClose(inner: string, rest: string)
    requires Balanced(inner)
    ensures MatchFrom("{" + inner + "}" + rest, 0, 0) == Some(|inner| + 2)
  {
    hide Balanced, MatchFrom;
    var s := "{" + inner + "}" + rest;
    assert s[1..|inner| + 1] == inner;
    assert s[|inner| + 1] == '}';
    BracesExactly(s, 0, |inner| + 2);
  }

  /** No balanced text with a closing brace behind it comes first. */
  ghost predicate NeverCloses(t: string) {
    forall inner: string, rest: string :: t == inner + "}" + rest ==> !Balanced(inner)
  }

  lemma NothingCloses(t: string)
    ensures MatchFrom("{" + t, 0, 0).None? <==> NeverCloses(t)
  {
    hide Balanced, MatchFrom;
    var s := "{" + t;
    var m := MatchFrom(s, 0, 0);
    if m.Some? {
      BracesExactly(s, 0, m.value);
      var inner, rest := t[..m.value - 2], t[m.value - 1..];
      assert s[1..m.value - 1] == inner;
      assert t == inner + "}" + rest;
    }
    forall inner: string, rest: string | t == inner + "}" + rest && Balanced(inner)
      ensures m.Some?
    {
      BracesClose(inner, rest);
      assert s == "{" + inner + "}" + rest;
    }
  }

  // --- reading on from the middle ---

  lemma {:induction false} MatchShift(a: string, t: string, i: nat, depth: int)
    ensures MatchFrom(a + t, |a| + i, depth) ==
            match MatchFrom(t, i, depth) case Some(e) => Some(|a| + e) case None => None
    decreases |t| - i
  {
    if i < |t| {
      assert (a + t)[|a| + i] == t[i];
      if t[i] == '\\' {
        MatchShift(a, t, i + 2, depth);
      } else {
        MatchShift(a, t, i + 1, if t[i] == '{' then depth + 1 else if t[i] == '}' then depth - 1 else depth);
      }
    }
  }

  lemma SliceShift(a: string, t: string, i: nat, j: nat)
    requires i <= j <= |t|
    ensures (a + t)[|a| + i..|a| + j] == t[i..j]
  {
  }

  lemma {:induction false} ParseShift(a: string, t: string, i: nat, buf: string)
    ensures ParseFrom(a + t, |a| + i, buf) == ParseFrom(t, i, buf)
    decreases |t| - i
  {
    hide ParseBody, MatchFrom;
    if i < |t| {
      assert (a + t)[|a| + i] == t[i];
      if t[i] == '\\' {
        if i + 1 < |t| {
          assert (a + t)[|a| + i + 1] == t[i + 1];
          ParseShift(a, t, i + 2, buf + [t[i + 1]]);
        } else {
          ParseShift(a, t, i + 1, buf);
        }
      } else if t[i] == '{' {
        MatchShift(a, t, i, 0);
        var m := MatchFrom(t, i, 0);
        if m.Some? {
          SliceShift(a, t, i + 1, m.value - 1);
          ParseShift(a, t, m.value, "");
        }
      } else if t[i] != '}' {
        ParseShift(a, t, i + 1, buf + [t[i]]);
      }
    }
  }

  // --- values ---

  /** One text after the other; nothing if one of them is missing. */
  function Both(a: Option<string>, b: Option<string>): Option<string> {
    if a.Some? && b.Some? then Some(a.value + b.value) else None
  }

  function Value(nodes: seq<Node>, vars: Vars, cm: CaseMap): Option<string> {
    match ResolveNodes(nodes)
    case Ok(r) => Some(RenderAll(r, vars, cm))
    case Err(_) => None
  }

  function BodyValue(b: Body, vars: Vars, cm: CaseMap): Option<string> {
    match ResolveBody(b)
    case Ok(r) => Some(RenderBody(r, vars, cm))
    case Err(_) => None
  }

  function TermValue(t: Term, vars: Vars, cm: CaseMap): Option<string> {
    match ResolveTerm(t)
    case Ok(r) => Some(RenderTerm(r, vars, cm))
    case Err(_) => None
  }

  function NodeValue(n: Node, vars: Vars, cm: CaseMap): Option<string> {
    match n
    case Text(s) => Some(s)
    case Expr(b) => BodyValue(b, vars, cm)
  }

  lemma {:induction false} RenderCons(n: Node, rest: seq<Node>, k: nat, vars: Vars, cm: CaseMap)
    requires k <= |rest|
    ensures RenderUpTo([n] + rest, k + 1, vars, cm) == RenderNode(n, vars, cm) + RenderUpTo(rest, k, vars, cm)
  {
    hide RenderNode;
    if k > 0 {
      RenderCons(n, rest, k - 1, vars, cm);
    } else {
      assert RenderUpTo([n] + rest, 0, vars, cm) == "";
    }
  }

  lemma ValueCons(n: Node, rest: seq<Node>, vars: Vars, cm: CaseMap)
    ensures Value([n] + rest, vars, cm) == Both(NodeValue(n, vars, cm), Value(rest, vars, cm))
  {
    hide ResolveBody, RenderBody, RenderUpTo;
    assert ([n] + rest)[1..] == rest;
    var r := ResolveNodes(rest);
    if r.Ok? {
      var first := if n.Text? then Ok(n) else ResolveExpr(n.body);
      if first.Ok? {
        RenderCons(first.value, r.value, |r.value|, vars, cm);
      }
    }
  }

  lemma NoValue(vars: Vars, cm: CaseMap)
    ensures Value([], vars, cm) == Some("")
  {
  }

  lemma ValueFlush(buf: string, nodes: seq<Node>, vars: Vars, cm: CaseMap)
    ensures Value(Flush(buf) + nodes, vars, cm) == Both(Some(buf), Value(nodes, vars, cm))
  {
    hide Value;
    if buf == "" {
      assert Flush(buf) + nodes == nodes;
      BothTwice("", "", Value(nodes, vars, cm));
    } else {
      ValueCons(Text(buf), nodes, vars, cm);
    }
  }

  lemma BothTwice(a: string, b: string, c: Option<string>)
    ensures Both(Some(a), Both(Some(b), c)) == Both(Some(a + b), c)
    ensures Both(Some(""), c) == c == Both(c, Some(""))
  {
    if c.Some? {
      assert a + (b + c.value) == a + b + c.value;
      assert "" + c.value == c.value == c.value + "";
    }
  }

  /** What the text from i on expands to behind what was read since the last expression. */
  function ReadFrom(t: string, i: nat, buf: string, vars: Vars, cm: CaseMap): Option<string> {
    match ParseFrom(t, i, buf)
    case Ok(nodes) => Value(nodes, vars, cm)
    case Err(_) => None
  }

  lemma ExpandReads(t: string, vars: Vars, cm: CaseMap)
    ensures Expand(t, vars, cm) == ReadFrom(t, 0, "", vars, cm)
  {
  }

  lemma ReadExpression(t: string, i: nat, buf: string, vars: Vars, cm: CaseMap)
    requires i < |t| && t[i] == '{'
    ensures ReadFrom(t, i, buf, vars, cm) ==
            match MatchFrom(t, i, 0)
            case None => None
            case Some(end) =>
              match ParseBody(t[i + 1..end - 1])
              case Ok(b) =>
                Both(Some(buf), Both(BodyValue(b, vars, cm), ReadFrom(t, end, "", vars, cm)))
              case Err(_) => None
  {
    hide ParseBody, MatchFrom, Value, BodyValue;
    var m := MatchFrom(t, i, 0);
    if m.Some? && ParseBody(t[i + 1..m.value - 1]).Ok? && ParseFrom(t, m.value, "").Ok? {
      var b, rest := ParseBody(t[i + 1..m.value - 1]).value, ParseFrom(t, m.value, "").value;
      assert Flush(buf) + [Expr(b)] + rest == Flush(buf) + ([Expr(b)] + rest);
      ValueFlush(buf, [Expr(b)] + rest, vars, cm);
      ValueCons(Expr(b), rest, vars, cm);
    }
  }

  lemma {:induction false} ReadBuffered(t: string, i: nat, buf: string, vars: Vars, cm: CaseMap)
    ensures ReadFrom(t, i, buf, vars, cm) == Both(Some(buf), ReadFrom(t, i, "", vars, cm))
    decreases |t| - i, 0
  {
    hide ParseBody, MatchFrom, Value, BodyValue;
    BothTwice("", "", ReadFrom(t, i, "", vars, cm));
    if i >= |t| {
      ValueFlush(buf, [], vars, cm);
      NoValue(vars, cm);
      assert Flush(buf) + [] == Flush(buf) && buf + "" == buf;
    } else if t[i] == '{' {
      ReadExpression(t, i, buf, vars, cm);
      ReadExpression(t, i, "", vars, cm);
      BothAssoc(buf, t, i, vars, cm);
    } else if t[i] == '\\' && i + 1 < |t| {
      ReadCharacter(t, i + 2, buf, t[i + 1], vars, cm);
    } else if t[i] == '\\' {
      ReadBuffered(t, i + 1, buf, vars, cm);
    } else if t[i] != '}' {
      ReadCharacter(t, i + 1, buf, t[i], vars, cm);
    }
  }

  lemma {:induction false} ReadCharacter(t: string, i: nat, buf: string, c: char, vars: Vars, cm: CaseMap)
    requires 0 < i <= |t|
    ensures ReadFrom(t, i, buf + [c], vars, cm) == Both(Some(buf), ReadFrom(t, i, "" + [c], vars, cm))
    decreases |t| - i, 1
  {
    hide ReadFrom, Both;
    assert "" + [c] == [c];
    ReadBuffered(t, i, buf + [c], vars, cm);
    ReadBuffered(t, i, [c], vars, cm);
    BothTwice(buf, [c], ReadFrom(t, i, "", vars, cm));
  }

  lemma BothAssoc(buf: string, t: string, i: nat, vars: Vars, cm: CaseMap)
    ensures forall x: Option<string> :: Both(Some(buf), Both(Some(""), x)) == Both(Some(buf), x)
  {
    forall x: Option<string>
      ensures Both(Some(buf), Both(Some(""), x)) == Both(Some(buf), x)
    {
      BothTwice("", "", x);
    }
  }

  // --- the first character ---

  /** Nothing, or a backslash at the very end, expands to nothing. */
  lemma EmptyLaw(vars: Vars, cm: CaseMap)
    ensures Expand("", vars, cm) == Some("") && Expand("\\", vars, cm) == Some("")
  {
    assert ParseFrom("\\", 1, "") == Ok([]);
  }

  /** A character of text stands for itself, and an escaped one too, whichever it is. */
  lemma CharacterLaw(c: char, t: string, vars: Vars, cm: CaseMap)
    ensures c !in "\\{}" ==> Expand([c] + t, vars, cm) == Both(Some([c]), Expand(t, vars, cm))
    ensures Expand("\\" + [c] + t, vars, cm) == Both(Some([c]), Expand(t, vars, cm))
  {
    hide Expand, Both, ParseBody, MatchFrom, Value;
    ExpandReads(t, vars, cm);
    ReadBuffered(t, 0, [c], vars, cm);
    assert "" + [c] == [c];
    var u := "\\" + [c] + t;
    ExpandReads(u, vars, cm);
    ParseShift("\\" + [c], t, 0, [c]);
    assert u[0] == '\\' && u[1] == c;
    if c !in "\\{}" {
      ExpandReads([c] + t, vars, cm);
      ParseShift([c], t, 0, [c]);
    }
  }

  /** Text may not hold a closing brace. */
  lemma StrayBraceLaw(t: string, vars: Vars, cm: CaseMap)
    ensures ParseSpec("}" + t) == Err(UnexpectedBrace) && Expand("}" + t, vars, cm) == None
  {
  }

  /** An expression in braces and the text behind it expand each on its own. */
  lemma ExpressionLaw(inner: string, t: string, vars: Vars, cm: CaseMap)
    requires Balanced(inner)
    ensures Expand("{" + inner + "}" + t, vars, cm) ==
            Both(Expand("{" + inner + "}", vars, cm), Expand(t, vars, cm))
  {
    hide Expand, Both, ParseBody, MatchFrom, BodyValue, Balanced, ReadFrom;
    InnerExpands(inner, t, vars, cm);
    InnerExpands(inner, "", vars, cm);
    assert "{" + inner + "}" + "" == "{" + inner + "}";
    EmptyLaw(vars, cm);
    var b := ParseBody(inner);
    if b.Ok? {
      BothTwice("", "", BodyValue(b.value, vars, cm));
    }
    NoneFirst(Expand(t, vars, cm));
  }

  lemma NoneFirst(b: Option<string>)
    ensures Both(None, b) == None
  {
  }

  lemma InnerExpands(inner: string, t: string, vars: Vars, cm: CaseMap)
    requires Balanced(inner)
    ensures Expand("{" + inner + "}" + t, vars, cm) ==
            match ParseBody(inner)
            case Ok(b) => Both(BodyValue(b, vars, cm), Expand(t, vars, cm))
            case Err(_) => None
  {
    hide Expand, ParseBody, MatchFrom, BodyValue, Balanced, ParseFrom, Value;
    var a := "{" + inner + "}";
    var u := a + t;
    ExpandReads(u, vars, cm);
    ExpandReads(t, vars, cm);
    BracesClose(inner, t);
    assert u[0] == '{' && u[1..|inner| + 1] == inner;
    ReadExpression(u, 0, "", vars, cm);
    ParseShift(a, t, 0, "");
    var b := ParseBody(inner);
    if b.Ok? {
      BothTwice("", "", Both(BodyValue(b.value, vars, cm), Expand(t, vars, cm)));
    }
  }

  /** An opening brace that is never closed. */
  lemma UnterminatedLaw(t: string, vars: Vars, cm: CaseMap)
    requires NeverCloses(t)
    ensures ParseSpec("{" + t) == Err(UnterminatedExpression) && Expand("{" + t, vars, cm) == None
  {
    NothingCloses(t);
  }

  // --- operand, separator and word ---

  /** A balanced text that no separator splits, escapes and nested expressions aside. */
  ghost predicate OneTerm(s: string)
    decreases |s|
  {
    || s == ""
    || (|s| >= 2 && s[0] == '\\' && OneTerm(s[2..]))
    || (s[0] !in "\\{}@" && !(":-" <= s) && !(":+" <= s) && OneTerm(s[1..]))
    || (s[0] == '{' && exists n: nat :: n < |s| && s[n] == '}' && 0 < n && Balanced(s[1..n]) && OneTerm(s[n + 1..]))
  }

  lemma FirstTermGroup(s: string) returns (m: nat)
    requires OneTerm(s) && s != "" && s[0] == '{'
    ensures 0 < m < |s| && s[m] == '}' && Balanced(s[1..m]) && OneTerm(s[m + 1..])
  {
    hide Balanced;
    m :| m < |s| && s[m] == '}' && 0 < m && Balanced(s[1..m]) && OneTerm(s[m + 1..]);
  }

  lemma NoTermGroup(s: string)
    requires OneTerm(s) && s != "" && s[0] != '{'
    ensures s[0] != '}'
    ensures s[0] == '\\' ==> |s| >= 2 && OneTerm(s[2..])
    ensures s[0] != '\\' ==> OneTerm(s[1..]) && s[0] != '@' && !(":-" <= s) && !(":+" <= s)
  {
    hide Balanced;
  }

  /** What a single term starts with; n is where its first group closes. */
  lemma TermHead(s: string, i: nat, j: nat) returns (n: nat)
    requires i < j <= |s| && OneTerm(s[i..j])
    ensures s[i] != '}'
    ensures s[i] == '\\' ==> i + 2 <= j && OneTerm(s[i + 2..j])
    ensures s[i] == '{' ==> i < n < j && s[n] == '}' && Balanced(s[i + 1..n]) && OneTerm(s[n + 1..j])
    ensures s[i] !in "\\{}" ==>
              && OneTerm(s[i + 1..j]) && s[i] != '@'
              && (s[i] == ':' && i + 1 < j ==> s[i + 1] != '-' && s[i + 1] != '+')
  {
    hide OneTerm, Balanced;
    n := 0;
    var part := s[i..j];
    assert part[0] == s[i] && (|part| > 1 ==> part[1] == s[i + 1]);
    if s[i] == '{' {
      var m := FirstTermGroup(part);
      PartOfPart(s, i, j, 1, m);
      PartOfPart(s, i, j, m + 1, j - i);
      n := i + m;
    } else {
      NoTermGroup(part);
      PartOfPart(s, i, j, if s[i] == '\\' then 2 else 1, j - i);
    }
  }

  /** The search passes over such a term, unless what follows makes a separator of its end. */
  lemma {:induction false} TermIsSkipped(s: string, i: nat, j: nat)
    requires i <= j <= |s| && OneTerm(s[i..j]) && (j < |s| ==> s[j] != '-' && s[j] != '+')
    ensures FindFrom(s, i) == FindFrom(s, j)
    decreases j - i
  {
    hide OneTerm, Balanced, MatchFrom;
    if i < j {
      var n := TermHead(s, i, j);
      if s[i] == '\\' {
        TermIsSkipped(s, i + 2, j);
      } else if s[i] == '{' {
        BracesExactly(s, i, n + 1);
        TermIsSkipped(s, n + 1, j);
      } else {
        TermIsSkipped(s, i + 1, j);
      }
    }
  }

  lemma WholeTerm(s: string)
    requires OneTerm(s)
    ensures FindFrom(s, 0).None?
  {
    hide OneTerm;
    assert s[0..|s|] == s;
    TermIsSkipped(s, 0, |s|);
  }

  lemma SeparatedTerm(o: string, e: Expression, w: string)
    requires OneTerm(o) && e != Bare
    ensures FindFrom(o + Separator(e) + w, 0) == Some(K8sTemplate.Found(e, |o|))
  {
    hide OneTerm, FindFrom;
    var s := o + Separator(e) + w;
    AtWhole(s);
    AtSplit3(s, 0, o, Separator(e), w);
    AtHead(s, |o|, Separator(e));
    assert s[0..|o|] == o;
    TermIsSkipped(s, 0, |o|);
    SeparatorIsFound(s, |o|, e);
  }

  lemma StartsAlike(s: string, i: nat, j: nat)
    requires i <= j <= |s|
    ensures ":-" <= s[i..j] ==> ":-" <= s[i..]
    ensures ":+" <= s[i..j] ==> ":+" <= s[i..]
  {
    assert s[i..j] <= s[i..];
  }

  /** Every balanced text is a single term, or a first term, a separator and a word. */
  lemma {:induction false} EveryBodyReads(s: string, i: nat) returns (j: nat)
    requires i <= |s| && Balanced(s[i..])
    ensures i <= j <= |s| && OneTerm(s[i..j]) && (j < |s| ==> s[j] == '@' || ":-" <= s[j..] || ":+" <= s[j..])
    decreases |s| - i
  {
    hide Balanced, OneTerm;
    assert s[i..|s|] == s[i..];
    if i == |s| || s[i] == '@' || ":-" <= s[i..] || ":+" <= s[i..] {
      j := i;
      TermStep(s, i, j);
    } else {
      var n := BalancedHead(s, i, |s|);
      if s[i] == '\\' {
        assert s[i + 2..|s|] == s[i + 2..];
        j := EveryBodyReads(s, i + 2);
        TermStep(s, i, j);
      } else if s[i] == '{' {
        assert s[n + 1..|s|] == s[n + 1..];
        j := EveryBodyReads(s, n + 1);
        TermGroup(s, i, n, j);
      } else {
        assert s[i + 1..|s|] == s[i + 1..];
        j := EveryBodyReads(s, i + 1);
        StartsAlike(s, i, j);
        TermStep(s, i, j);
      }
    }
  }

  lemma TermStep(s: string, i: nat, j: nat)
    requires i <= j <= |s|
    ensures i == j ==> OneTerm(s[i..j])
    ensures i + 2 <= j && s[i] == '\\' && OneTerm(s[i + 2..j]) ==> OneTerm(s[i..j])
    ensures i < j && s[i] !in "\\{}@" && !(":-" <= s[i..j]) && !(":+" <= s[i..j]) && OneTerm(s[i + 1..j]) ==>
              OneTerm(s[i..j])
  {
    if i < j {
      PartOfPart(s, i, j, 1, j - i);
    }
    if i + 2 <= j {
      PartOfPart(s, i, j, 2, j - i);
    }
  }

  lemma OneTermGroup(s: string, m: nat)
    requires 0 < m < |s| && s[0] == '{' && s[m] == '}' && Balanced(s[1..m]) && OneTerm(s[m + 1..])
    ensures OneTerm(s)
  {
    hide Balanced;
  }

  lemma TermGroup(s: string, i: nat, n: nat, j: nat)
    requires i < n < j <= |s|
    requires s[i] == '{' && s[n] == '}' && Balanced(s[i + 1..n]) && OneTerm(s[n + 1..j])
    ensures OneTerm(s[i..j])
  {
    hide OneTerm, Balanced;
    PartOfPart(s, i, j, 1, n - i);
    PartOfPart(s, i, j, n - i + 1, j - i);
    OneTermGroup(s[i..j], n - i);
  }

  // --- what an operand and a word stand for ---

  /** The text is an expression in braces, and nothing else. */
  ghost predicate InBraces(s: string) {
    |s| >= 2 && s[0] == '{' && s[|s| - 1] == '}' && Balanced(s[1..|s| - 1])
  }

  predicate IsVariable(name: string) {
    || name == "group" || name == "groupSeg" || name == "groupFirst" || name == "groupFirstSeg"
    || name == "kind" || name == "kindLower" || name == "version" || name == "versionLower"
  }

  /** An operand is an expression, or one of the eight names. */
  ghost function OperandValue(o: string, vars: Vars, cm: CaseMap): Option<string> {
    if o != "" && o[0] == '{' then if InBraces(o) then Expand(o, vars, cm) else None
    else if IsVariable(o) then Some(if o in vars then vars[o] else "") else None
  }

  /** A word is an expression, or text without its escapes. */
  ghost function WordValue(w: string, vars: Vars, cm: CaseMap): Option<string> {
    if w != "" && w[0] == '{' then if InBraces(w) then Expand(w, vars, cm) else None
    else Some(Unescape(w))
  }

  lemma VariablesAre(name: string)
    ensures name in KNOWN_VARS <==> IsVariable(name)
  {
  }

  /** Dropping escapes, character by character. */
  lemma UnescapeLaw(c: char, s: string)
    ensures Unescape("") == "" && Unescape("\\") == ""
    ensures c != '\\' ==> Unescape([c] + s) == [c] + Unescape(s)
    ensures Unescape("\\" + [c] + s) == [c] + Unescape(s)
  {
    UnescapeShift([c], s, 0);
    UnescapeShift("\\" + [c], s, 0);
    assert ("\\" + [c] + s)[1] == c;
  }

  lemma {:induction false} UnescapeShift(a: string, s: string, i: nat)
    ensures UnescapeFrom(a + s, |a| + i) == UnescapeFrom(s, i)
    decreases |s| - i
  {
    if i < |s| {
      assert (a + s)[|a| + i] == s[i];
      if s[i] == '\\' && i + 1 < |s| {
        assert (a + s)[|a| + i + 1] == s[i + 1];
        UnescapeShift(a, s, i + 2);
      } else {
        UnescapeShift(a, s, i + 1);
      }
    }
  }

  function ParsedValue(s: string, kind: Kind, vars: Vars, cm: CaseMap): Option<string> {
    match ParseTerm(s, kind)
    case Ok(t) => TermValue(t, vars, cm)
    case Err(_) => None
  }

  lemma WholeIsInBraces(s: string)
    requires s != "" && s[0] == '{'
    ensures MatchFrom(s, 0, 0) == Some(|s|) <==> InBraces(s)
  {
    hide MatchFrom, Balanced;
    BracesExactly(s, 0, |s|);
  }

  lemma ParsedValueIs(s: string, kind: Kind, vars: Vars, cm: CaseMap)
    ensures ParsedValue(s, kind, vars, cm) ==
            if kind.Operand? then OperandValue(s, vars, cm) else WordValue(s, vars, cm)
  {
    hide ParseBody, MatchFrom, Balanced, Expand, KNOWN_VARS, Unescape, ResolveBody, RenderBody, IsVariable;
    VariablesAre(s);
    if s != "" && s[0] == '{' {
      WholeIsInBraces(s);
      if InBraces(s) {
        var inner := s[1..|s| - 1];
        assert s == "{" + inner + "}";
        BracedExpands(inner, vars, cm);
      }
    }
  }

  lemma BracedExpands(inner: string, vars: Vars, cm: CaseMap)
    requires Balanced(inner)
    ensures Expand("{" + inner + "}", vars, cm) ==
            match ParseBody(inner)
            case Ok(b) => BodyValue(b, vars, cm)
            case Err(_) => None
  {
    hide Expand, ParseBody, BodyValue, Balanced;
    InnerExpands(inner, "", vars, cm);
    assert "{" + inner + "}" + "" == "{" + inner + "}";
    EmptyLaw(vars, cm);
    var b := ParseBody(inner);
    if b.Ok? {
      BothTwice("", "", BodyValue(b.value, vars, cm));
    }
  }

  // --- expressions ---

  /** An expression without a separator is its operand. */
  lemma BareLaw(o: string, vars: Vars, cm: CaseMap)
    requires OneTerm(o) && Balanced(o)
    ensures Expand("{" + o + "}", vars, cm) == OperandValue(o, vars, cm)
  {
    hide Expand, Balanced, OneTerm, FindFrom, ParseTerm, OperandValue, ResolveTerm, RenderTerm;
    BracedExpands(o, vars, cm);
    WholeTerm(o);
    ParsedValueIs(o, Operand, vars, cm);
  }

  /** And such an expression has no word and no operator. */
  lemma BareHasNoWord(o: string)
    requires OneTerm(o)
    ensures ParseBody(o).Ok? ==>
              ParseBody(o).value == Body(Bare, ParseBody(o).value.operand, Term(Operand, "", None), NoOperator)
  {
    hide OneTerm, FindFrom, ParseTerm;
    WholeTerm(o);
  }

  lemma SeparatedParses(o: string, e: Expression, w: string)
    requires OneTerm(o) && e != Bare
    ensures ParseBody(o + Separator(e) + w) ==
            match ParseTerm(o, Operand)
            case Err(x) => Err(x)
            case Ok(t) =>
              match ParseTerm(w, Word)
              case Ok(u) => Ok(Body(e, t, u, NoOperator))
              case Err(x) => Err(x)
  {
    hide OneTerm, FindFrom, ParseTerm, Separator;
    var s := o + Separator(e) + w;
    SeparatedTerm(o, e, w);
    assert s[..|o|] == o && s[|o| + |Separator(e)|..] == w;
  }

  /** {o:-w} is w where o is empty, else o; and nothing is if either is nothing. */
  lemma DefaultIs(o: string, w: string, vars: Vars, cm: CaseMap)
    requires OneTerm(o) && Balanced(o + ":-" + w)
    ensures var x, y := OperandValue(o, vars, cm), WordValue(w, vars, cm);
            Expand("{" + o + ":-" + w + "}", vars, cm) ==
            if x.None? || y.None? then None else if x == Some("") then y else x
  {
    hide Expand, Balanced, OneTerm, ParseBody, ParseTerm, OperandValue, WordValue, ResolveTerm, RenderTerm;
    BracedExpands(o + ":-" + w, vars, cm);
    assert "{" + (o + ":-" + w) + "}" == "{" + o + ":-" + w + "}";
    SeparatedParses(o, Default, w);
    ParsedValueIs(o, Operand, vars, cm);
    ParsedValueIs(w, Word, vars, cm);
  }

  /** {o:+w} is w where o is not empty, else the empty text. */
  lemma AltIs(o: string, w: string, vars: Vars, cm: CaseMap)
    requires OneTerm(o) && Balanced(o + ":+" + w)
    ensures var x, y := OperandValue(o, vars, cm), WordValue(w, vars, cm);
            Expand("{" + o + ":+" + w + "}", vars, cm) ==
            if x.None? || y.None? then None else if x == Some("") then x else y
  {
    hide Expand, Balanced, OneTerm, ParseBody, ParseTerm, OperandValue, WordValue, ResolveTerm, RenderTerm;
    BracedExpands(o + ":+" + w, vars, cm);
    assert "{" + (o + ":+" + w) + "}" == "{" + o + ":+" + w + "}";
    SeparatedParses(o, Alt, w);
    ParsedValueIs(o, Operand, vars, cm);
    ParsedValueIs(w, Word, vars, cm);
  }

  /** {o@U} and {o@L} are o in upper and lower case; another word makes nothing. */
  lemma CaseIs(o: string, w: string, vars: Vars, cm: CaseMap)
    requires OneTerm(o) && Balanced(o + "@" + w)
    ensures var x := OperandValue(o, vars, cm);
            Expand("{" + o + "@" + w + "}", vars, cm) ==
            if x.None? then None
            else if w == "U" then Some(cm.upper(x.value))
            else if w == "L" then Some(cm.lower(x.value)) else None
  {
    hide Expand, Balanced, OneTerm, ParseBody, ParseTerm, OperandValue, ResolveTerm, RenderTerm;
    BracedExpands(o + "@" + w, vars, cm);
    assert "{" + (o + "@" + w) + "}" == "{" + o + "@" + w + "}";
    SeparatedParses(o, Apply, w);
    ParsedValueIs(o, Operand, vars, cm);
    WordParses(w);
  }

  lemma WordParses(w: string)
    ensures var t := ParseTerm(w, Word);
            t.Ok? ==> (t.value.raw == w || (t.value.raw == "" && w != "" && w[0] == '{'))
    ensures w == "U" || w == "L" ==> ParseTerm(w, Word).Ok?
  {
    hide ParseBody, MatchFrom;
  }

  // --- which error ---

  /** The errors of the expressions: an unknown name, a nested expression with something behind
      it, an operator that is neither U nor L. */
  lemma ExpressionErrors(o: string, w: string)
    requires OneTerm(o) && Balanced(o)
    ensures (o == "" || o[0] != '{') && !IsVariable(o) ==> ParseSpec("{" + o + "}") == Err(UnknownPlaceholder(o))
    ensures o != "" && o[0] == '{' && !InBraces(o) ==> ParseSpec("{" + o + "}") == Err(UnbalancedNested)
    ensures IsVariable(o) && Balanced(o + "@" + w) && (w == "" || w[0] != '{') && w != "U" && w != "L" ==>
              ParseSpec("{" + o + "@" + w + "}") == Err(UndefinedOperator(w))
  {
    hide Balanced, OneTerm, MatchFrom, KNOWN_VARS, FindFrom, IsVariable, ParseFrom, ResolveNodes;
    VariablesAre(o);
    WholeTerm(o);
    BodyIsSpec(o);
    if o != "" && o[0] == '{' {
      WholeIsInBraces(o);
    }
    if Balanced(o + "@" + w) {
      assert "{" + (o + "@" + w) + "}" == "{" + o + "@" + w + "}";
      BodyIsSpec(o + "@" + w);
      SeparatedParses(o, Apply, w);
      VariableStarts(o);
    }
  }

  lemma VariableStarts(name: string)
    ensures IsVariable(name) ==> name != "" && name[0] != '{'
  {
  }

  lemma BodyIsSpec(inner: string)
    requires Balanced(inner)
    ensures var spec := ParseSpec("{" + inner + "}");
            match ParseBody(inner)
            case Err(e) => spec == Err(e)
            case Ok(b) =>
              match ResolveBody(b)
              case Err(e) => spec == Err(e)
              case Ok(r) => spec == Ok([Expr(r)])
  {
    hide Balanced, ParseBody, ResolveBody, MatchFrom;
    var s := "{" + inner + "}";
    BracesClose(inner, "");
    assert s + "" == s && s[1..|inner| + 1] == inner;
    assert ParseFrom(s, |inner| + 2, "") == Ok([]);
    var b := ParseBody(inner);
    if b.Ok? {
      assert Flush("") + [Expr(b.value)] + [] == [Expr(b.value)];
      OneResolves(b.value);
    }
  }

  lemma OneResolves(b: Body)
    ensures ResolveNodes([Expr(b)]) ==
            match ResolveBody(b)
            case Ok(r) => Ok([Expr(r)])
            case Err(e) => Err(e)
  {
    hide ResolveBody;
    assert [Expr(b)][1..] == [];
    assert ResolveNodes([]) == Ok([]);
    assert forall n: Node :: [n] + [] == [n];
  }

  /** The first error of the parser counts: what can be read before it makes no difference. */
  lemma ErrorBehind(c: char, inner: string, t: string, error: Error)
    requires ParseFrom(t, 0, "") == Err(error)
    ensures c !in "\\{}" ==> ParseSpec([c] + t) == Err(error)
    ensures ParseSpec("\\" + [c] + t) == Err(error)
    ensures Balanced(inner) && ParseBody(inner).Ok? ==> ParseSpec("{" + inner + "}" + t) == Err(error)
  {
    hide Balanced, ParseBody, MatchFrom;
    assert "" + [c] == [c];
    ErrorKept(t, 0, "", [c]);
    ParseShift([c], t, 0, [c]);
    ParseShift("\\" + [c], t, 0, [c]);
    assert ("\\" + [c] + t)[1] == c;
    if Balanced(inner) {
      BracesClose(inner, t);
      var a := "{" + inner + "}";
      assert (a + t)[1..|inner| + 1] == inner;
      ParseShift(a, t, 0, "");
    }
  }

  lemma {:induction false} ErrorKept(t: string, i: nat, a: string, b: string)
    ensures ParseFrom(t, i, a).Err? ==> ParseFrom(t, i, b) == ParseFrom(t, i, a)
    decreases |t| - i
  {
    hide ParseBody, MatchFrom;
    if i < |t| {
      if t[i] == '\\' && i + 1 < |t| {
        ErrorKept(t, i + 2, a + [t[i + 1]], b + [t[i + 1]]);
      } else if t[i] == '\\' {
        ErrorKept(t, i + 1, a, b);
      } else if t[i] != '{' && t[i] != '}' {
        ErrorKept(t, i + 1, a + [t[i]], b + [t[i]]);
      }
    }
  }

  // --- the identifiers ---

  predicate LetterOrDigit(c: char) { 'a' <= c <= 'z' || 'A' <= c <= 'Z' || '0' <= c <= '9' }

  /** Letters, digits, dots, dashes, and in versions and kinds underscores; no dot alone and no
      two dots in front. */
  ghost predicate Identifier(s: string, underscores: bool) {
    && (forall c <- s :: LetterOrDigit(c) || c == '.' || c == '-' || (underscores && c == '_'))
    && s != "."
    && (|s| >= 2 ==> s[0] != '.' || s[1] != '.')
  }

  /** With plain identifiers the template expands, with anything else nothing is rendered. */
  lemma RenderLaw(spec: string, nodes: seq<Node>, group: string, version: string, kind: string, cm: CaseMap)
    requires spec != "" && ParseK8sTemplate(spec) == Ok(nodes)
    ensures
      if version != "" && kind != "" && Identifier(group, false) && Identifier(version, true) && Identifier(kind, true)
      then Some(Render(nodes, group, version, kind, cm)) == Expand(spec, K8sVars(group, version, kind, cm), cm)
      else Render(nodes, group, version, kind, cm) == ""
  {
    hide ParseSpec, RenderAll, K8sVars;
  }

  /** An empty spec is the default one. */
  lemma DefaultSpec()
    ensures ParseK8sTemplate("") == ParseK8sTemplate(HOST + "{group:-core}/{kind@L}_{version@L}.json")
    ensures HOST == "https://k8s-schemas.home-operations.com/"
  {
    hide ParseSpec;
    assert DEFAULT_URL[|HOST|] == '{';
  }
}
