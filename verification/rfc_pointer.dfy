/** Looking a pointer up here, against evaluating it as RFC 6901 says: the pointers on which
    the two agree for every document, and the single steps on which they part. */
module RfcPointer {
  import opened JsonPointer
  import opened MergeSearch
  import opened Options
  import opened Strings

  // --- section 3: syntax ---

  predicate TildesEscape(s: string) {
    forall k :: 0 <= k < |s| && s[k] == '~' ==> k + 1 < |s| && (s[k + 1] == '0' || s[k + 1] == '1')
  }

  /** A pointer is empty, or tokens each after a slash; a tilde is followed by 0 or 1. */
  predicate PointerSyntax(ptr: string) {
    ptr == "" || (ptr[0] == '/' && TildesEscape(ptr))
  }

  /** A token read in one pass. */
  function Decode(s: string): string
    decreases |s|
  {
    if s == "" then ""
    else if "~1" <= s then "/" + Decode(s[2..])
    else if "~0" <= s then "~" + Decode(s[2..])
    else [s[0]] + Decode(s[1..])
  }

  function DecodeAll(parts: seq<string>): seq<string> {
    if parts == [] then [] else [Decode(parts[0])] + DecodeAll(parts[1..])
  }

  function Tokens(ptr: string): seq<string>
    requires PointerSyntax(ptr)
  {
    if ptr == "" then [] else DecodeAll(Split(ptr[1..]))
  }

  // --- section 4: evaluation ---

  predicate DecimalDigit(c: char) { '0' <= c <= '9' }

  /** A zero, or digits that do not start with one. */
  predicate ArrayIndex(s: string) {
    s != "" && (forall k :: 0 <= k < |s| ==> DecimalDigit(s[k])) && (|s| == 1 || s[0] != '0')
  }

  /** The member or the element a token refers to; None is an error. The members of a
      mapping are those of its YAML value, merged ones included. */
  function Referenced(g: Document, node: Option<Id>, token: string): (r: Option<Option<Id>>)
    requires g.Has(node)
    ensures r.Some? ==> g.Has(r.value)
  {
    var d := Followed(g, node);
    if d.out.None? then None
    else
      assert g.nodes[d.out.value] in g.nodes;
      match g.nodes[d.out.value]
      case Mapping(_) => MemberOf(g, d.out, token)
      case MappingValue(_) => MemberOf(g, d.out, token)
      case Sequence(items) =>
        if ArrayIndex(token) && Atoi(token).Some? && 0 <= Atoi(token).value < |items| then
          Some(items[Atoi(token).value])
        else None
      case _ => None
  }

  function MemberOf(g: Document, n: Option<Id>, token: string): (r: Option<Option<Id>>)
    requires g.Has(n)
    ensures r.Some? ==> g.Has(r.value)
  {
    HitsAreNodes(g, n, token, {});
    match Find(g, n, token, {}).hit
    case Some(hit) => Some(hit.value)
    case None => None
  }

  function Evaluated(g: Document, node: Option<Id>, tokens: seq<string>): Option<Option<Id>>
    requires g.Has(node)
    decreases |tokens|
  {
    if tokens == [] then Some(node)
    else
      match Referenced(g, node, tokens[0])
      case Some(next) => Evaluated(g, next, tokens[1..])
      case None => None
  }

  /** What the RFC has a pointer mean in a document; None is an error. */
  function RfcValue(g: Document, body: Id, ptr: string): Option<Option<Id>>
    requires body < |g.nodes|
  {
    if PointerSyntax(ptr) then Evaluated(g, Some(body), Tokens(ptr)) else None
  }

  /** What looking it up here yields; None is a segment that is missing. */
  function LookedUp(g: Document, body: Id, ptr: string): Option<Option<Id>>
    requires body < |g.nodes|
  {
    ValueOf(DescendAll(g, Some(body), None, Segments(ptr)))
  }

  function ValueOf(f: Found): Option<Option<Id>> {
    if f.ok then Some(f.node) else None
  }

  // --- tokens ---

  lemma ReplaceLone(rest: string, what: string, with: string)
    requires |what| == 2 && what[0] == '~' && (rest == "" || rest[0] != what[1])
    ensures ReplaceAll("~" + rest, what, with) == "~" + ReplaceAll(rest, what, with)
  {
    var s := "~" + rest;
    assert s[0] == '~' && s[1..] == rest;
    assert !(what <= s);
  }

  lemma FirstAfterReplacing(s: string)
    requires s == "" || (s[0] != '0' && s[0] != '1')
    ensures var r := ReplaceAll(s, "~1", "/"); r == "" || r[0] != '0'
  {
  }

  /** The two replacements, one after the other, read a token as one pass does. */
  lemma {:induction false} UnescapeIsDecode(s: string)
    ensures Unescape(s) == Decode(s)
    decreases |s|
  {
    hide ReplaceAll;
    if s == "" {
      ReplaceNothing("~1", "/");
      ReplaceNothing("~0", "~");
    } else if "~1" <= s {
      UnescapeIsDecode(s[2..]);
      assert s == "~1" + s[2..];
      ReplaceHead(s[2..], "~1", "/");
      ReplaceOther('/', ReplaceAll(s[2..], "~1", "/"), "~0", "~");
    } else if "~0" <= s {
      UnescapeIsDecode(s[2..]);
      assert s == ['~', '0'] + s[2..];
      ReplaceMiss('0', s[2..], "~1", "/");
      ReplaceHead(ReplaceAll(s[2..], "~1", "/"), "~0", "~");
      assert "~0" == ['~', '0'];
    } else {
      UnescapeIsDecode(s[1..]);
      assert s == [s[0]] + s[1..];
      if s[0] == '~' {
        LoneTilde(s);
        FirstAfterReplacing(s[1..]);
        ReplaceLone(s[1..], "~1", "/");
        ReplaceLone(ReplaceAll(s[1..], "~1", "/"), "~0", "~");
      } else {
        ReplaceOther(s[0], s[1..], "~1", "/");
        ReplaceOther(s[0], ReplaceAll(s[1..], "~1", "/"), "~0", "~");
      }
    }
  }

  lemma LoneTilde(s: string)
    requires s != "" && s[0] == '~' && !("~0" <= s) && !("~1" <= s)
    ensures |s| > 1 ==> s[1] != '0' && s[1] != '1'
  {
    if |s| > 1 {
      assert s[..2] == ['~', s[1]];
    }
  }

  lemma {:induction false} UnescapeAllIsDecodeAll(parts: seq<string>)
    ensures UnescapeAll(parts) == DecodeAll(parts)
  {
    hide Unescape, Decode;
    if parts != [] {
      UnescapeIsDecode(parts[0]);
      UnescapeAllIsDecodeAll(parts[1..]);
    }
  }

  /** A pointer in the RFC's syntax is read as the RFC's tokens, the single slash excepted. */
  lemma SegmentsAreTokens(ptr: string)
    requires PointerSyntax(ptr) && ptr != "/"
    ensures Segments(ptr) == Tokens(ptr)
  {
    if ptr != "" {
      UnescapeAllIsDecodeAll(Split(ptr[1..]));
    }
  }

  // --- indices ---

  lemma {:induction false} DigitsAreDecimal(s: string)
    ensures Digits(s).Some? <==> s != "" && forall k :: 0 <= k < |s| ==> DecimalDigit(s[k])
  {
    if |s| > 1 {
      DigitsAreDecimal(s[..|s| - 1]);
      assert forall k :: 0 <= k < |s| - 1 ==> s[..|s| - 1][k] == s[k];
    }
  }

  lemma {:induction false} NoLeadingZero(s: string)
    requires Digits(s).Some? && s != "" && s[0] != '0'
    ensures Digits(s).value >= 1
  {
    if |s| > 1 {
      NoLeadingZero(s[..|s| - 1]);
    }
  }

  lemma {:induction false} DecimalIsItoa(s: string)
    requires Digits(s).Some? && s != "" && (|s| == 1 || s[0] != '0')
    ensures s == Itoa(Digits(s).value)
  {
    if |s| > 1 {
      var init := s[..|s| - 1];
      NoLeadingZero(init);
      DecimalIsItoa(init);
      var m, n := Digits(init).value, Digits(s).value;
      assert n / 10 == m && s == init + [s[|s| - 1]];
      assert DigitChar(n % 10) == s[|s| - 1];
    }
  }

  lemma {:induction false} ItoaIsArrayIndex(n: nat)
    ensures ArrayIndex(Itoa(n)) && (n > 0 ==> Itoa(n)[0] != '0')
  {
    if n >= 10 {
      ItoaIsArrayIndex(n / 10);
    }
  }

  /** A segment that is read as an index is spelled as the RFC's exactly when it is that
      number in decimal: it starts with a digit, and with a zero only if it is one. */
  lemma IndexSpelling(s: string)
    requires Atoi(s).Some? && Atoi(s).value >= 0
    ensures s != ""
    ensures ArrayIndex(s) <==> s == Itoa(Atoi(s).value)
    ensures ArrayIndex(s) <==> '0' <= s[0] <= '9' && (|s| == 1 || s[0] != '0')
  {
    var n := Atoi(s).value;
    ItoaIsArrayIndex(n);
    DigitsAreDecimal(s);
    if '0' <= s[0] <= '9' && (|s| == 1 || s[0] != '0') {
      DecimalIsItoa(s);
    }
  }

  lemma ArrayIndexIsRead(s: string)
    requires ArrayIndex(s)
    ensures Atoi(s).Some? && Atoi(s).value >= 0
  {
    DigitsAreDecimal(s);
    assert DecimalDigit(s[0]);
  }

  // --- one step ---

  /** The segment is read as an index although the RFC's syntax has no such index. */
  predicate Lenient(seg: string) {
    Atoi(seg).Some? && Atoi(seg).value >= 0 && !ArrayIndex(seg)
  }

  /** Such segments: a sign or a zero before any index. */
  lemma SignedOrPaddedIsLenient(n: nat)
    ensures Lenient("+" + Itoa(n)) && Lenient("0" + Itoa(n)) && Lenient("-0")
  {
    LenientIndex(n);
    LenientIndex(0);
    assert Itoa(0) == "0" && "-" + "0" == "-0";
    assert ("+" + Itoa(n))[0] == '+' && ("0" + Itoa(n))[0] == '0' && "-0"[0] == '-';
  }

  /** The node is a list, and the segment leads into it only because indices are read
      leniently. */
  predicate LenientStep(g: Document, node: Option<Id>, seg: string)
    requires g.Has(node)
  {
    var n := Followed(g, node).out;
    n.Some? && g.nodes[n.value].Sequence? && Lenient(seg) && Atoi(seg).value < |g.nodes[n.value].items|
  }

  /** One segment leads where the RFC says, unless it is such a step; then it leads
      somewhere, and by the RFC it is an error. */
  lemma StepsAgree(g: Document, node: Option<Id>, seg: string)
    requires g.Has(node)
    ensures ValueOf(Descended(g, node, seg)) == Referenced(g, node, seg) <==> !LenientStep(g, node, seg)
    ensures LenientStep(g, node, seg) ==> Descended(g, node, seg).ok && Referenced(g, node, seg).None?
  {
    hide Find, Followed, Atoi, ArrayIndex;
    if ArrayIndex(seg) {
      ArrayIndexIsRead(seg);
    }
  }

  // --- whole pointers ---

  /** On the way down, as far as the RFC goes, every segment is read as the RFC reads it. */
  predicate NoLenientStep(g: Document, node: Option<Id>, segs: seq<string>)
    requires g.Has(node)
    decreases |segs|
  {
    segs == [] ||
    (!LenientStep(g, node, segs[0]) &&
     (Descended(g, node, segs[0]).ok ==> NoLenientStep(g, Descended(g, node, segs[0]).node, segs[1..])))
  }

  /** Descending agrees with evaluating exactly when it fails as well, or no segment is read
      leniently. */
  lemma {:induction false} DescentsAgree(g: Document, node: Option<Id>, via: Option<Id>, segs: seq<string>)
    requires g.Has(node)
    ensures ValueOf(DescendAll(g, node, via, segs)) == Evaluated(g, node, segs) <==>
            !DescendAll(g, node, via, segs).ok || NoLenientStep(g, node, segs)
    ensures !DescendAll(g, node, via, segs).ok ==> Evaluated(g, node, segs).None?
    decreases |segs|
  {
    hide Descended, Referenced, LenientStep;
    if segs != [] {
      StepsAgree(g, node, segs[0]);
      var next := Descended(g, node, segs[0]);
      if next.ok {
        DescentsAgree(g, next.node, if via.None? then next.via else via, segs[1..]);
      }
    }
  }

  /** In a given document, a pointer of the RFC's syntax other than the single slash is
      looked up as the RFC says, unless it is found with the help of a leniently read
      index. */
  lemma LookupInDocument(g: Document, body: Id, ptr: string)
    requires body < |g.nodes| && PointerSyntax(ptr) && ptr != "/"
    ensures LookedUp(g, body, ptr) == RfcValue(g, body, ptr) <==>
            LookedUp(g, body, ptr).None? || NoLenientStep(g, Some(body), Tokens(ptr))
  {
    hide Tokens, Segments, DescendAll, Evaluated, NoLenientStep;
    SegmentsAreTokens(ptr);
    DescentsAgree(g, Some(body), None, Tokens(ptr));
  }

  /** What a caller can see in the pointer alone. */
  predicate Conforming(ptr: string) {
    PointerSyntax(ptr) && ptr != "/" && forall t <- Tokens(ptr) :: !Lenient(t)
  }

  lemma {:induction false} NoLenientToken(g: Document, node: Option<Id>, segs: seq<string>)
    requires g.Has(node) && forall t <- segs :: !Lenient(t)
    ensures NoLenientStep(g, node, segs)
    decreases |segs|
  {
    hide Descended, Lenient;
    if segs != [] {
      NoLenientToken(g, node, []);
      if Descended(g, node, segs[0]).ok {
        NoLenientToken(g, Descended(g, node, segs[0]).node, segs[1..]);
      }
    }
  }

  // --- documents that tell the two apart ---

  /** Mappings, one inside the other, with the segments as their keys; the one at k is a
      list instead, long enough for its segment as an index. */
  function ChainNode(segs: seq<string>, k: int, i: nat): Node
    requires i <= |segs| && (i == k < |segs| ==> Lenient(segs[i]))
  {
    if i == |segs| then Leaf("")
    else if i == k then Sequence(seq(Atoi(segs[i]).value + 1, _ => Some(i + 1)))
    else Mapping([Entry(false, segs[i], i, Some(i + 1))])
  }

  function ChainGraph(segs: seq<string>, k: int): Graph
    requires 0 <= k < |segs| ==> Lenient(segs[k])
  {
    Graph(seq(|segs| + 1, i requires 0 <= i <= |segs| => ChainNode(segs, k, i)), map[])
  }

  lemma ChainIsClosed(segs: seq<string>, k: int)
    requires 0 <= k < |segs| ==> Lenient(segs[k])
    ensures ChainGraph(segs, k).Closed()
  {
  }

  lemma ChainFollowed(g: Document, i: Id)
    requires i < |g.nodes| && !g.nodes[i].Anchor? && !g.nodes[i].Alias?
    ensures Followed(g, Some(i)) == Deref(Some(i), None)
  {
  }

  lemma ChainMember(g: Document, i: Id, seg: string, next: Option<Id>)
    requires i < |g.nodes| && g.nodes[i] == Mapping([Entry(false, seg, i, next)])
    ensures Descended(g, Some(i), seg) == Found(next, None, true)
    ensures Referenced(g, Some(i), seg) == Some(next)
  {
    hide FindInSources;
    ChainFollowed(g, i);
    var entries := EntriesAt(g, i);
    assert entries == [Entry(false, seg, i, next)];
    assert Explicit(entries, seg) == Some(Hit(next, i, None));
    assert Find(g, Some(i), seg, {}).hit == Some(Hit(next, i, None));
  }

  lemma ChainElement(g: Document, i: Id, seg: string)
    requires i + 1 < |g.nodes| && Lenient(seg)
    requires g.nodes[i] == Sequence(seq(Atoi(seg).value + 1, _ => Some(i + 1)))
    ensures Descended(g, Some(i), seg) == Found(Some(i + 1), None, true)
    ensures Referenced(g, Some(i), seg) == None
  {
    ChainFollowed(g, i);
  }

  lemma {:induction false} ChainIsDescended(segs: seq<string>, k: int, i: nat)
    requires i <= |segs| && (0 <= k < |segs| ==> Lenient(segs[k]))
    ensures ChainGraph(segs, k).Closed()
    ensures DescendAll(ChainGraph(segs, k), Some(i), None, segs[i..]) == Found(Some(|segs|), None, true)
    ensures i <= k < |segs| ==> Evaluated(ChainGraph(segs, k), Some(i), segs[i..]).None?
    decreases |segs| - i
  {
    hide Descended, Referenced, Lenient, Atoi;
    ChainIsClosed(segs, k);
    var g: Document := ChainGraph(segs, k);
    if i < |segs| {
      ChainIsDescended(segs, k, i + 1);
      assert segs[i..][1..] == segs[i + 1..];
      if i == k {
        ChainElement(g, i, segs[i]);
      } else {
        ChainMember(g, i, segs[i], Some(i + 1));
      }
    }
  }

  ghost predicate AgreesWithRfc(ptr: string) {
    forall g: Document, body: Id :: body < |g.nodes| ==> LookedUp(g, body, ptr) == RfcValue(g, body, ptr)
  }

  lemma BadSyntaxIsFound(ptr: string)
    requires !PointerSyntax(ptr)
    ensures !AgreesWithRfc(ptr)
  {
    hide Segments, DescendAll, PointerSyntax;
    var segs := Segments(ptr);
    ChainIsDescended(segs, -1, 0);
    assert segs[0..] == segs;
    var g: Document := ChainGraph(segs, -1);
    assert LookedUp(g, 0, ptr) != RfcValue(g, 0, ptr);
  }

  lemma SlashDisagrees()
    ensures !AgreesWithRfc("/")
  {
    var g: Document := Graph([Leaf("")], map[]);
    ChainFollowed(g, 0);
    assert Tokens("/") == [""] by {
      assert "/"[1..] == "";
      assert DecodeAll([""]) == [""];
    }
    assert Referenced(g, Some(0), "") == None;
    assert Segments("/") == [];
    assert LookedUp(g, 0, "/") != RfcValue(g, 0, "/");
  }

  lemma LenientTokenIsFound(ptr: string, k: nat)
    requires PointerSyntax(ptr) && ptr != "/" && k < |Tokens(ptr)| && Lenient(Tokens(ptr)[k])
    ensures !AgreesWithRfc(ptr)
  {
    hide Segments, Tokens, DescendAll, PointerSyntax, Lenient, Evaluated;
    SegmentsAreTokens(ptr);
    var segs := Tokens(ptr);
    ChainIsDescended(segs, k, 0);
    assert segs[0..] == segs;
    var g: Document := ChainGraph(segs, k);
    assert LookedUp(g, 0, ptr) != RfcValue(g, 0, ptr);
  }

  /** Looking a pointer up is evaluating it as RFC 6901 says, in every document, exactly when
      the pointer has the RFC's syntax, is not the single slash, and spells every token that
      is read as an index as the RFC does. */
  lemma LookupIsRfc(ptr: string)
    ensures AgreesWithRfc(ptr) <==> Conforming(ptr)
  {
    hide PointerSyntax, Tokens, Lenient, LookedUp, RfcValue, NoLenientStep;
    if !PointerSyntax(ptr) {
      BadSyntaxIsFound(ptr);
    } else if ptr == "/" {
      SlashDisagrees();
    } else if k: nat :| k < |Tokens(ptr)| && Lenient(Tokens(ptr)[k]) {
      LenientTokenIsFound(ptr, k);
    } else {
      forall g: Document, body: Id | body < |g.nodes|
        ensures LookedUp(g, body, ptr) == RfcValue(g, body, ptr)
      {
        LookupInDocument(g, body, ptr);
        NoLenientToken(g, Some(body), Tokens(ptr));
      }
    }
  }
}
