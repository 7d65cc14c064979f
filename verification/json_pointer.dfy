/** JSON Pointers into a YAML document: how segments are written, and how a written pointer
    is followed. */
module JsonPointer {
  import MergeProofs
  import opened MergeSearch
  import opened Options
  import opened Strings

  // --- escaping ---

  function Escape(s: string): string {
    ReplaceAll(ReplaceAll(s, "~", "~0"), "/", "~1")
  }

  function Unescape(s: string): string {
    ReplaceAll(ReplaceAll(s, "~1", "/"), "~0", "~")
  }

  function EscapeChar(c: char): string {
    if c == '~' then "~0" else if c == '/' then "~1" else [c]
  }

  /** Escaping one character after the other. */
  function EscapeEach(s: string): string {
    if s == "" then "" else EscapeChar(s[0]) + EscapeEach(s[1..])
  }

  function TildesOnly(s: string): string {
    if s == "" then "" else (if s[0] == '~' then "~0" else [s[0]]) + TildesOnly(s[1..])
  }

  lemma ReplaceOther(c: char, rest: string, what: string, with: string)
    requires what != "" && what[0] != c
    ensures ReplaceAll([c] + rest, what, with) == [c] + ReplaceAll(rest, what, with)
  {
    var s := [c] + rest;
    assert s[0] == c && s[1..] == rest;
  }

  lemma ReplaceHead(rest: string, what: string, with: string)
    requires what != ""
    ensures ReplaceAll(what + rest, what, with) == with + ReplaceAll(rest, what, with)
  {
    assert (what + rest)[|what|..] == rest;
  }

  /** A tilde and something else than the pattern's second character stay. */
  lemma ReplaceMiss(d: char, rest: string, what: string, with: string)
    requires |what| == 2 && what[0] == '~' && what[1] != d && d != '~'
    ensures ReplaceAll(['~', d] + rest, what, with) == ['~', d] + ReplaceAll(rest, what, with)
  {
    var s := ['~', d] + rest;
    assert s[0] == '~' && s[1] == d && s[1..] == [d] + rest;
    assert !(what <= s);
    ReplaceOther(d, rest, what, with);
    assert ['~'] + ([d] + ReplaceAll(rest, what, with)) == ['~', d] + ReplaceAll(rest, what, with);
  }

  lemma {:induction false} ReplaceTildes(s: string)
    ensures ReplaceAll(s, "~", "~0") == TildesOnly(s)
  {
    if s != "" {
      ReplaceTildes(s[1..]);
      assert "~" <= s <==> s[0] == '~';
    }
  }

  lemma {:induction false} ReplaceSlashes(s: string)
    ensures ReplaceAll(TildesOnly(s), "/", "~1") == EscapeEach(s)
  {
    hide ReplaceAll;
    if s == "" {
      ReplaceNothing("/", "~1");
    } else {
      ReplaceSlashes(s[1..]);
      var rest := TildesOnly(s[1..]);
      if s[0] == '~' {
        assert "~0" + rest == ['~'] + (['0'] + rest);
        ReplaceOther('~', ['0'] + rest, "/", "~1");
        ReplaceOther('0', rest, "/", "~1");
        assert ['~'] + (['0'] + EscapeEach(s[1..])) == "~0" + EscapeEach(s[1..]);
      } else if s[0] == '/' {
        ReplaceHead(rest, "/", "~1");
      } else {
        ReplaceOther(s[0], rest, "/", "~1");
      }
    }
  }

  lemma ReplaceNothing(what: string, with: string)
    requires what != ""
    ensures ReplaceAll("", what, with) == ""
  {
  }

  /** The two replacements escape each character for itself. */
  lemma EscapesEach(s: string)
    ensures Escape(s) == EscapeEach(s)
  {
    ReplaceTildes(s);
    ReplaceSlashes(s);
  }

  lemma {:induction false} UnreplaceSlashes(s: string)
    ensures ReplaceAll(EscapeEach(s), "~1", "/") == TildesOnly(s)
  {
    hide ReplaceAll;
    if s == "" {
      ReplaceNothing("~1", "/");
    } else {
      UnreplaceSlashes(s[1..]);
      var rest := EscapeEach(s[1..]);
      if s[0] == '~' {
        ReplaceMiss('0', rest, "~1", "/");
      } else if s[0] == '/' {
        ReplaceHead(rest, "~1", "/");
      } else {
        ReplaceOther(s[0], rest, "~1", "/");
      }
    }
  }

  lemma {:induction false} UnreplaceTildes(s: string)
    ensures ReplaceAll(TildesOnly(s), "~0", "~") == s
  {
    hide ReplaceAll;
    if s == "" {
      ReplaceNothing("~0", "~");
    } else {
      UnreplaceTildes(s[1..]);
      var rest := TildesOnly(s[1..]);
      if s[0] == '~' {
        ReplaceHead(rest, "~0", "~");
      } else {
        ReplaceOther(s[0], rest, "~0", "~");
      }
      assert s == [s[0]] + s[1..];
    }
  }

  /** Unescaping undoes escaping, for every string. */
  lemma UnescapeUndoesEscape(s: string)
    ensures Unescape(Escape(s)) == s
  {
    EscapesEach(s);
    UnreplaceSlashes(s);
    UnreplaceTildes(s);
  }

  lemma {:induction false} EscapedHasNoSlash(s: string)
    ensures '/' !in Escape(s)
  {
    EscapesEach(s);
    if s != "" {
      EscapedHasNoSlash(s[1..]);
      EscapesEach(s[1..]);
    }
  }

  // --- writing a pointer ---

  function PointerUpTo(segs: seq<string>, n: nat): string
    requires n <= |segs|
  {
    if n == 0 then "" else PointerUpTo(segs, n - 1) + "/" + Escape(segs[n - 1])
  }

  function PointerTo(segs: seq<string>): string { PointerUpTo(segs, |segs|) }

  lemma PointerSnoc(segs: seq<string>, seg: string)
    ensures PointerTo(segs + [seg]) == PointerTo(segs) + "/" + Escape(seg)
  {
    hide Escape;
    var whole := segs + [seg];
    SamePointer(segs, whole, |segs|);
    assert whole[|segs|] == seg;
  }

  lemma {:induction false} SamePointer(a: seq<string>, b: seq<string>, n: nat)
    requires n <= |a| && n <= |b| && forall k :: 0 <= k < n ==> a[k] == b[k]
    ensures PointerUpTo(a, n) == PointerUpTo(b, n)
  {
    hide Escape;
    if n > 0 {
      SamePointer(a, b, n - 1);
    }
  }

  method Pointer(segs: seq<string>) returns (b: string)
    ensures b == PointerTo(segs)
  {
    b := "";
    for n := 0 to |segs|
      invariant b == PointerUpTo(segs, n)
    {
      b := b + "/";
      b := b + Escape(segs[n]);
    }
  }

  // --- following a pointer ---

  /** The text split at every slash. */
  function Split(t: string): (parts: seq<string>)
    ensures parts != []
  {
    if t == "" then [""]
    else
      var rest := Split(t[1..]);
      if t[0] == '/' then [""] + rest else [[t[0]] + rest[0]] + rest[1..]
  }

  /** A decimal integer with an optional sign, as sequence indices are read. */
  function Atoi(s: string): Option<int> {
    if s == "" then None
    else if s[0] == '-' then (match Digits(s[1..]) case Some(n) => Some(-n) case None => None)
    else if s[0] == '+' then Digits(s[1..])
    else Digits(s)
  }

  function Digits(s: string): (n: Option<int>)
    ensures n.Some? ==> n.value >= 0
  {
    if s == "" then None
    else
      var last := s[|s| - 1];
      if !('0' <= last <= '9') then None
      else
        var d := last as int - '0' as int;
        if |s| == 1 then Some(d)
        else match Digits(s[..|s| - 1]) case Some(n) => Some(10 * n + d) case None => None
  }

  function DigitChar(d: nat): char
    requires d < 10
  {
    ('0' as int + d) as char
  }

  function Itoa(n: nat): (s: string)
    ensures s != ""
  {
    if n < 10 then [DigitChar(n)] else Itoa(n / 10) + [DigitChar(n % 10)]
  }

  lemma {:induction false} DigitsOfItoa(n: nat)
    ensures Digits(Itoa(n)) == Some(n)
    ensures forall c <- Itoa(n) :: '0' <= c <= '9'
  {
    if n >= 10 {
      DigitsOfItoa(n / 10);
      var init := Itoa(n / 10);
      assert Itoa(n)[..|Itoa(n)| - 1] == init;
    }
  }

  /** A decimal number is read back as that index. */
  lemma IndexRoundTrip(n: nat)
    ensures Atoi(Itoa(n)) == Some(n)
  {
    DigitsOfItoa(n);
    assert Itoa(n)[0] in Itoa(n);
  }

  lemma {:induction false} LeadingZero(s: string)
    requires Digits(s).Some?
    ensures Digits("0" + s) == Digits(s)
  {
    var t := "0" + s;
    assert t[|t| - 1] == s[|s| - 1];
    if |s| == 1 {
      assert t[..|t| - 1] == "0";
      assert Digits("0") == Some(0);
    } else {
      assert t[..|t| - 1] == "0" + s[..|s| - 1];
      LeadingZero(s[..|s| - 1]);
    }
  }

  /** Unlike RFC 6901, section 4, signs and leading zeros are read as well. */
  lemma LenientIndex(n: nat)
    ensures Atoi("+" + Itoa(n)) == Some(n) && Atoi("0" + Itoa(n)) == Some(n)
    ensures Atoi("-" + Itoa(n)).Some? && Atoi("-" + Itoa(n)).value + n == 0
  {
    DigitsOfItoa(n);
    LeadingZero(Itoa(n));
    assert ("+" + Itoa(n))[1..] == Itoa(n) && ("-" + Itoa(n))[1..] == Itoa(n);
  }

  datatype Found = Found(node: Option<Id>, via: Option<Id>, ok: bool)

  /** One segment: a key of a mapping, or an index into a sequence. */
  function Descended(g: Document, node: Option<Id>, seg: string): (f: Found)
    requires g.Has(node)
    ensures f.ok ==> g.Has(f.node)
  {
    var d := Followed(g, node);
    if d.out.None? then Found(None, None, false)
    else
      assert g.nodes[d.out.value] in g.nodes;
      match g.nodes[d.out.value]
      case Mapping(_) => FoundField(g, d, seg)
      case MappingValue(_) => FoundField(g, d, seg)
      case Sequence(items) =>
        (match Atoi(seg)
         case Some(i) => if 0 <= i < |items| then Found(items[i], d.via, true) else Found(None, None, false)
         case None => Found(None, None, false))
      case _ => Found(None, None, false)
  }

  function FoundField(g: Document, d: Deref, seg: string): (f: Found)
    requires g.Has(d.out)
    ensures f.ok ==> g.Has(f.node)
  {
    var hit := Find(g, d.out, seg, {}).hit;
    if hit.None? then Found(None, d.via, false)
    else
      HitsAreNodes(g, d.out, seg, {});
      Found(hit.value.value, if d.via.Some? then d.via else hit.value.via, true)
  }

  lemma {:induction false} HitsAreNodes(g: Document, n: Option<Id>, seg: string, seen: set<Id>)
    requires g.Has(n)
    ensures Find(g, n, seg, seen).hit.Some? ==> g.Has(Find(g, n, seg, seen).hit.value.value)
    decreases |g.Ids() - seen|, 0
  {
    hide Explicit, EntriesAt, SourcesAt;
    if n.Some? && n.value !in seen {
      assert n.value in g.Ids() - seen;
      assert g.Ids() - (seen + {n.value}) == (g.Ids() - seen) - {n.value};
      var e := Explicit(EntriesAt(g, n.value), seg);
      if e.None? {
        SourceHitsAreNodes(g, SourcesAt(g, n.value), seg, seen + {n.value});
      }
    }
  }

  lemma {:induction false} SourceHitsAreNodes(g: Document, sources: seq<Option<Id>>, seg: string, seen: set<Id>)
    requires forall s <- sources :: g.Has(s)
    ensures FindInSources(g, sources, seg, seen).hit.Some? ==>
            g.Has(FindInSources(g, sources, seg, seen).hit.value.value)
    decreases |g.Ids() - seen|, |sources|
  {
    hide Followed;
    if sources != [] {
      var d := Followed(g, sources[0]);
      var o := Find(g, d.out, seg, seen);
      HitsAreNodes(g, d.out, seg, seen);
      SeenShrinks(g.Ids(), seen, o.seen);
      SourceHitsAreNodes(g, sources[1..], seg, o.seen);
    }
  }

  /** Raw segments, one after the other: where they lead, or the deepest node reached. */
  function DescendAll(g: Document, node: Option<Id>, via: Option<Id>, segs: seq<string>): Found
    requires g.Has(node)
    decreases |segs|
  {
    if segs == [] then Found(node, via, true)
    else
      var next := Descended(g, node, segs[0]);
      if !next.ok then Found(node, via, false)
      else DescendAll(g, next.node, if via.None? then next.via else via, segs[1..])
  }

  method Descend(g: Document, node: Option<Id>, seg: string) returns (next: Option<Id>, via: Option<Id>, ok: bool)
    requires g.Has(node)
    ensures Found(next, via, ok) == Descended(g, node, seg)
  {
    var n: Option<Id>;
    n, via := Dereference(g, node);
    if n.None? {
      return None, None, false;
    }
    match g.nodes[n.value] {
      case Mapping(_) =>
        var search := new Search(g);
        var hit := search.Field(n, seg);
        return (if hit.Some? then hit.value.value else None), (if via.None? && hit.Some? then hit.value.via else via),
            hit.Some?;
      case MappingValue(_) =>
        var search := new Search(g);
        var hit := search.Field(n, seg);
        return (if hit.Some? then hit.value.value else None), (if via.None? && hit.Some? then hit.value.via else via),
            hit.Some?;
      case Sequence(items) =>
        var i := Atoi(seg);
        if i.Some? && i.value >= 0 && i.value < |items| {
          return items[i.value], via, true;
        }
      case _ =>
    }
    return None, None, false;
  }

  /** In a list, a decimal segment leads to that element and no further than the last. */
  lemma DescendsToItem(g: Document, node: Option<Id>, i: nat)
    requires g.Has(node) && Followed(g, node).out.Some? && g.nodes[Followed(g, node).out.value].Sequence?
    ensures var items := g.nodes[Followed(g, node).out.value].items;
            Descended(g, node, Itoa(i)) ==
              if i < |items| then Found(items[i], Followed(g, node).via, true) else Found(None, None, false)
  {
    IndexRoundTrip(i);
  }

  /** In a mapping, a segment is found exactly when some mapping reachable through merges
      defines it as a key. */
  lemma DescendsToKey(g: Document, node: Option<Id>, seg: string)
    requires g.Has(node) && Followed(g, node).out.Some?
    requires g.nodes[Followed(g, node).out.value].Mapping? || g.nodes[Followed(g, node).out.value].MappingValue?
    ensures Descended(g, node, seg).ok <==>
              exists m :: MergeProofs.Reaches(g, Followed(g, node).out.value, m) && MergeProofs.Defines(g, m, seg)
  {
    hide Find, Followed;
    MergeProofs.SearchFindsReachable(g, Followed(g, node).out.value, seg);
  }

  function UnescapeAll(parts: seq<string>): (segs: seq<string>)
    ensures |segs| == |parts|
  {
    if parts == [] then [] else [Unescape(parts[0])] + UnescapeAll(parts[1..])
  }

  /** What a pointer stands for: nothing and a single slash mean the root. */
  function Segments(ptr: string): seq<string> {
    if ptr == "" || ptr == "/" then []
    else UnescapeAll(Split(if ptr[0] == '/' then ptr[1..] else ptr))
  }

  method Lookup(g: Document, body: Option<Id>, ptr: string) returns (node: Option<Id>, via: Option<Id>, ok: bool)
    requires g.Has(body)
    ensures body.None? ==> !ok && node == None && via == None
    ensures body.Some? ==> Found(node, via, ok) == DescendAll(g, body, None, Segments(ptr))
  {
    if body.None? {
      return None, None, false;
    }
    node, via := body, None;
    if ptr == "" || ptr == "/" {
      return node, None, true;
    }
    var parts := Split(if ptr[0] == '/' then ptr[1..] else ptr);
    assert parts[0..] == parts;
    for k := 0 to |parts|
      invariant g.Has(node)
      invariant DescendAll(g, body, None, Segments(ptr)) == DescendAll(g, node, via, UnescapeAll(parts[k..]))
    {
      assert parts[k..][1..] == parts[k + 1..];
      assert UnescapeAll(parts[k..])[1..] == UnescapeAll(parts[k + 1..]);
      var next, nvia, found := Descend(g, node, Unescape(parts[k]));
      if !found {
        return node, via, false;
      }
      node := next;
      if via.None? {
        via := nvia;
      }
    }
    return node, via, true;
  }

  // --- the round trip ---

  lemma {:induction false} SplitAfter(part: string, rest: string)
    requires '/' !in part
    ensures Split(part) == [part]
    ensures Split(part + "/" + rest) == [part] + Split(rest)
  {
    if part == "" {
      assert ("/" + rest)[1..] == rest;
      assert part + "/" + rest == "/" + rest;
    } else {
      SplitAfter(part[1..], rest);
      assert (part + "/" + rest)[1..] == part[1..] + "/" + rest;
      assert part == [part[0]] + part[1..];
    }
  }

  /** A pointer from its first segment on. */
  function Written(segs: seq<string>): string {
    if segs == [] then "" else "/" + Escape(segs[0]) + Written(segs[1..])
  }

  lemma {:induction false} PointerIsWritten(segs: seq<string>, n: nat)
    requires n <= |segs|
    ensures PointerTo(segs) == PointerUpTo(segs, n) + Written(segs[n..])
    decreases |segs| - n
  {
    hide Escape;
    if n < |segs| {
      PointerIsWritten(segs, n + 1);
      assert segs[n..][1..] == segs[n + 1..];
      assert segs[n..][0] == segs[n];
      assert PointerUpTo(segs, n) + ("/" + Escape(segs[n]) + Written(segs[n + 1..]))
          == PointerUpTo(segs, n) + "/" + Escape(segs[n]) + Written(segs[n + 1..]);
    } else {
      assert segs[n..] == [];
    }
  }

  lemma UnescapeFirst(first: string, rest: seq<string>)
    ensures UnescapeAll([first] + rest) == [Unescape(first)] + UnescapeAll(rest)
  {
    hide Unescape;
    assert ([first] + rest)[1..] == rest;
  }

  lemma OneSegmentSplits(seg: string)
    ensures UnescapeAll(Split(Escape(seg))) == [seg]
  {
    hide Escape, Unescape;
    EscapedHasNoSlash(seg);
    UnescapeUndoesEscape(seg);
    SplitAfter(Escape(seg), "");
    UnescapeFirst(Escape(seg), []);
    assert [Escape(seg)] + [] == [Escape(seg)];
  }

  lemma FirstSegmentSplits(seg: string, rest: string)
    requires rest != "" && rest[0] == '/'
    ensures UnescapeAll(Split(Escape(seg) + rest)) == [seg] + UnescapeAll(Split(rest[1..]))
  {
    hide Escape, Unescape, Split, UnescapeAll;
    var first := Escape(seg);
    EscapedHasNoSlash(seg);
    UnescapeUndoesEscape(seg);
    SplitAfter(first, rest[1..]);
    assert first + rest == first + "/" + rest[1..];
    UnescapeFirst(first, Split(rest[1..]));
  }

  lemma {:induction false} WrittenSplits(segs: seq<string>)
    requires segs != []
    ensures |Written(segs)| > 0 && Written(segs)[0] == '/'
    ensures UnescapeAll(Split(Written(segs)[1..])) == segs
  {
    hide Escape, Unescape, Split, UnescapeAll;
    var first, rest := Escape(segs[0]), Written(segs[1..]);
    assert Written(segs)[1..] == first + rest;
    assert segs == [segs[0]] + segs[1..];
    if |segs| == 1 {
      OneSegmentSplits(segs[0]);
      assert first + rest == first;
    } else {
      WrittenSplits(segs[1..]);
      FirstSegmentSplits(segs[0], rest);
    }
  }

  /** A written pointer stands for its segments, with one exception: the pointer to the
      empty key of the root is read as the root. */
  lemma PointerStandsForSegments(segs: seq<string>)
    ensures Segments(PointerTo(segs)) == if segs == [""] then [] else segs
  {
    hide Escape, Unescape, PointerUpTo, Split, UnescapeAll;
    PointerStart(segs);
    PointerIsWritten(segs, 0);
    assert segs[0..] == segs;
    assert PointerTo(segs) == Written(segs);
    if segs != [] {
      WrittenSplits(segs);
      OnlySlash(segs);
    }
  }

  lemma PointerStart(segs: seq<string>)
    ensures PointerUpTo(segs, 0) == ""
  {
  }

  lemma OnlySlash(segs: seq<string>)
    requires segs != []
    ensures Written(segs) == "/" <==> segs == [""]
  {
    EscapesEach(segs[0]);
    if |segs| > 1 {
      WrittenSplits(segs[1..]);
    }
  }

  /** Looking up the pointer of any segments is descending the raw segments one by one. */
  lemma LookupFollowsSegments(g: Document, body: Id, segs: seq<string>)
    requires body < |g.nodes| && segs != [""]
    ensures DescendAll(g, Some(body), None, Segments(PointerTo(segs))) == DescendAll(g, Some(body), None, segs)
  {
    PointerStandsForSegments(segs);
  }

  /** RFC 6901 reads "/" as the empty key of the root; here it is the root itself. */
  lemma SlashIsTheRoot(g: Document, body: Id)
    requires body < |g.nodes|
    ensures PointerTo([""]) == "/"
    ensures DescendAll(g, Some(body), None, Segments(PointerTo([""]))) == Found(Some(body), None, true)
  {
    PointerStandsForSegments([""]);
    assert PointerUpTo([""], 0) == "";
    assert Escape("") == "";
    assert PointerUpTo([""], 1) == "" + "/" + "" == "/";
  }
}
