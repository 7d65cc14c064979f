/** Pointers told by their characters: how a segment is written and read, where a text is cut,
    and what a decimal index is. */
module PointerLaws {
  import opened JsonPointer
  import opened MergeSearch
  import opened Options
  import opened RfcPointer
  import opened Strings

  /** Escaping, character by character. */
  lemma EscapeLaw(c: char, s: string)
    ensures Escape("") == ""
    ensures Escape([c] + s) == (if c == '~' then "~0" else if c == '/' then "~1" else [c]) + Escape(s)
  {
    hide Escape;
    EscapesEach("");
    EscapesEach([c] + s);
    EscapesEach(s);
    assert ([c] + s)[1..] == s;
  }

  /** Unescaping: `~0` and `~1` from the left, every other character for itself. */
  lemma UnescapeLaw(c: char, s: string)
    ensures Unescape("") == ""
    ensures Unescape("~0" + s) == "~" + Unescape(s) && Unescape("~1" + s) == "/" + Unescape(s)
    ensures c != '~' || s == "" || (s[0] != '0' && s[0] != '1') ==> Unescape([c] + s) == [c] + Unescape(s)
  {
    hide Unescape, Decode;
    UnescapeIsDecode("");
    UnescapeIsDecode(s);
    UnescapeIsDecode("~0" + s);
    UnescapeIsDecode("~1" + s);
    UnescapeIsDecode([c] + s);
    NothingDecodes();
    TildeDecodes(s);
    SlashDecodes(s);
    if c != '~' || s == "" || (s[0] != '0' && s[0] != '1') {
      OtherDecodes(c, s);
    }
  }

  lemma NothingDecodes()
    ensures Decode("") == ""
  {
  }

  lemma TildeDecodes(s: string)
    ensures Decode("~0" + s) == "~" + Decode(s)
  {
    assert ("~0" + s)[1] == '0' && ("~0" + s)[2..] == s;
  }

  lemma SlashDecodes(s: string)
    ensures Decode("~1" + s) == "/" + Decode(s)
  {
    assert ("~1" + s)[1] == '1' && ("~1" + s)[2..] == s;
  }

  lemma OtherDecodes(c: char, s: string)
    requires c != '~' || s == "" || (s[0] != '0' && s[0] != '1')
    ensures Decode([c] + s) == [c] + Decode(s)
  {
    var t := [c] + s;
    assert t[1..] == s && (s != "" ==> t[1] == s[0]);
  }

  /** A pointer grows by a slash and the escaped segment. */
  lemma PointerLaw(segs: seq<string>, seg: string)
    ensures PointerTo([]) == ""
    ensures PointerTo(segs + [seg]) == PointerTo(segs) + "/" + Escape(seg)
  {
    hide Escape;
    PointerSnoc(segs, seg);
  }

  /** The segments of a text: one without a slash is one segment, else it is cut at its first.
      A slash in front changes nothing, and nothing or a slash alone has no segments. */
  lemma SegmentsLaw(part: string, rest: string)
    requires '/' !in part
    ensures Segments("") == [] && Segments("/") == []
    ensures Segments("/" + part) == if part == "" then [] else [Unescape(part)]
    ensures Segments("/" + part + "/" + rest) == [Unescape(part)] + UnescapeAll(Split(rest))
    ensures rest != "" ==> Segments("/" + rest) == UnescapeAll(Split(rest))
    ensures part != "" ==> Segments(part) == Segments("/" + part)
    ensures part != "" ==> Segments(part + "/" + rest) == Segments("/" + part + "/" + rest)
  {
    hide Unescape, Split;
    SplitAfter(part, rest);
    assert ("/" + part)[1..] == part;
    assert ("/" + part + "/" + rest)[1..] == part + "/" + rest;
    assert ("/" + rest)[1..] == rest;
    UnescapeFirst(part, []);
    UnescapeFirst(part, Split(rest));
    assert [part] + [] == [part];
    if part != "" {
      assert part[0] in part;
      assert (part + "/" + rest)[0] == part[0];
    }
  }

  // --- indices ---

  /** Decimal digits and nothing else. */
  predicate Numeral(s: string) { s != "" && forall c <- s :: '0' <= c <= '9' }

  lemma {:induction false} NumeralsAreRead(s: string)
    ensures Digits(s).Some? <==> Numeral(s)
  {
    hide Digits, Numeral;
    if s == "" {
      NoNumeral();
    } else {
      var init, last := s[..|s| - 1], s[|s| - 1];
      assert s == init + [last];
      NumeralsAreRead(init);
      LastDigit(init, last);
      NumeralEnds(init, last);
    }
  }

  lemma NoNumeral()
    ensures Digits("") == None && !Numeral("")
  {
  }

  lemma LastDigit(init: string, last: char)
    ensures Digits(init + [last]).Some? <==> '0' <= last <= '9' && (init == "" || Digits(init).Some?)
  {
    assert (init + [last])[..|init|] == init;
  }

  lemma NumeralEnds(init: string, last: char)
    ensures Numeral(init + [last]) <==> '0' <= last <= '9' && (init == "" || Numeral(init))
  {
    assert last in init + [last];
    assert forall c :: c in init + [last] <==> c in init || c == last;
  }

  lemma AppendedDigit(s: string, c: char)
    requires Digits(s).Some? && '0' <= c <= '9'
    ensures Digits(s + [c]) == Some(10 * Digits(s).value + c as int - '0' as int)
  {
    assert (s + [c])[..|s|] == s;
  }

  /** Indices are decimal numerals with an optional sign, read digit by digit. */
  lemma IndexLaw(s: string, c: char)
    ensures Atoi(s).Some? <==> Numeral(s) || (s != "" && (s[0] == '+' || s[0] == '-') && Numeral(s[1..]))
    ensures '0' <= c <= '9' ==> Atoi([c]) == Some(c as int - '0' as int)
    ensures Numeral(s) && '0' <= c <= '9' ==> Atoi(s + [c]) == Some(10 * Atoi(s).value + c as int - '0' as int)
    ensures Numeral(s) ==> Atoi("+" + s) == Atoi(s) && Atoi("-" + s) == Some(0 - Atoi(s).value)
  {
    NumeralsAreRead(s);
    if s != "" {
      NumeralsAreRead(s[1..]);
      assert s[0] in s;
      assert ("+" + s)[1..] == s && ("-" + s)[1..] == s;
    }
    if Numeral(s) && '0' <= c <= '9' {
      AppendedDigit(s, c);
      assert (s + [c])[0] == s[0];
    }
  }

  // --- following segments ---

  /** One segment: the search's answer in a mapping, with the alias that led to the mapping
      before the one that led to the entry; an element of a sequence; nothing elsewhere. */
  lemma StepLaw(g: Document, node: Option<Id>, seg: string)
    requires g.Has(node)
    ensures
      var d, f := Followed(g, node), Descended(g, node, seg);
      match d.out
      case None => f == Found(None, None, false)
      case Some(n) =>
        match g.nodes[n]
        case Sequence(items) =>
          f == if Atoi(seg).Some? && 0 <= Atoi(seg).value < |items| then Found(items[Atoi(seg).value], d.via, true)
               else Found(None, None, false)
        case Leaf(_) => f == Found(None, None, false)
        case _ =>
          match Find(g, Some(n), seg, {}).hit
          case None => f == Found(None, d.via, false)
          case Some(hit) => f == Found(hit.value, if d.via.Some? then d.via else hit.via, true)
  {
    hide Find, DerefWithin, Atoi;
  }

  /** Segments are followed from the left: the last one against where the others lead, unless
      they led nowhere. The first alias crossed on the whole way is kept. */
  lemma {:induction false} WayLaw(g: Document, node: Option<Id>, via: Option<Id>, segs: seq<string>, seg: string)
    requires g.Has(node)
    ensures DescendAll(g, node, via, []) == Found(node, via, true)
    ensures var f := DescendAll(g, node, via, segs);
            && g.Has(f.node)
            && DescendAll(g, node, via, segs + [seg]) ==
               if f.ok && Descended(g, f.node, seg).ok
               then Found(Descended(g, f.node, seg).node,
                          if f.via.Some? then f.via else Descended(g, f.node, seg).via, true)
               else f.(ok := false)
    decreases |segs|
  {
    hide Descended;
    if segs == [] {
      assert segs + [seg] == [seg] && [seg][1..] == [];
    } else {
      assert (segs + [seg])[0] == segs[0] && (segs + [seg])[1..] == segs[1..] + [seg];
      var next := Descended(g, node, segs[0]);
      if next.ok {
        WayLaw(g, next.node, if via.None? then next.via else via, segs[1..], seg);
      }
    }
  }
}
