/** The open documents, and how editor changes become new texts. */
module DocumentStore {
  import opened Cursor
  import opened TextPositions

  datatype Document = Document(uri: string, languageID: string, version: int, text: string)

  datatype Change =
    | Ranged(start: Position, end: Position, text: string)
    | Whole(text: string)
    | Unsupported

  datatype Result<+T> = Ok(value: T) | NotOpen | UnsupportedChange

  /** How many characters lie in the first `offset` bytes. */
  function RuneAt(text: string, offset: nat): (k: nat)
    ensures k <= |text|
  {
    if text == "" || ByteLen(text) <= offset then |text| else RuneAt(text[..|text| - 1], offset)
  }

  lemma {:induction false} RuneAtBoundary(text: string, k: nat)
    requires k <= |text|
    ensures RuneAt(text, ByteLen(text[..k])) == k
  {
    if k == |text| {
      assert text[..k] == text;
    } else {
      assert text[..|text|] == text;
      UnitsGrow(text, k, |text|);
      assert text[..|text| - 1][..k] == text[..k];
      RuneAtBoundary(text[..|text| - 1], k);
    }
  }

  /** The text with everything between two points replaced. */
  function Replaced(text: string, p: nat, q: nat, inserted: string): string
    requires p <= |text| && q <= |text|
  {
    if p <= q then text[..p] + inserted + text[q..] else text[..q] + inserted + text[p..]
  }

  function Changed(text: string, c: Change): string
    requires c.Ranged?
  {
    PointInText(text, c.start);
    PointInText(text, c.end);
    Replaced(text, PointAt(text, c.start), PointAt(text, c.end), c.text)
  }

  lemma EncodeSlices(text: string, p: nat)
    requires p <= |text|
    ensures ByteLen(text[..p]) <= |Encode(text)|
    ensures Encode(text)[..ByteLen(text[..p])] == Encode(text[..p])
    ensures Encode(text)[ByteLen(text[..p])..] == Encode(text[p..])
  {
    assert text == text[..p] + text[p..];
    EncodeConcat(text[..p], text[p..]);
  }

  /** Replaces the bytes between two positions. No character is ever cut: the result is the
      text with the characters between the two points replaced. */
  method ApplyRangeChange(text: string, c: Change) returns (r: string)
    requires c.Ranged?
    ensures r == Changed(text, c)
    ensures var p, q := PointAt(text, c.start), PointAt(text, c.end);
            && p <= |text| && q <= |text|
            && var start, end := ByteLen(text[..if p <= q then p else q]), ByteLen(text[..if p <= q then q else p]);
               && start <= end <= |Encode(text)|
               && Encode(r) == Encode(text)[..start] + Encode(c.text) + Encode(text)[end..]
  {
    hide PointAt, Encode, RuneAt, ByteLen;
    var start := OffsetAt(text, c.start);
    var end := OffsetAt(text, c.end);
    ghost var p, q := PointAt(text, c.start), PointAt(text, c.end);
    RuneAtBoundary(text, p);
    RuneAtBoundary(text, q);
    EncodeSlices(text, p);
    EncodeSlices(text, q);
    if p < q {
      UnitsGrow(text, p, q);
    } else if q < p {
      UnitsGrow(text, q, p);
    }
    if start > end {
      start, end := end, start;
    }
    var head, tail := text[..RuneAt(text, start)], text[RuneAt(text, end)..];
    EncodeConcat(head + c.text, tail);
    EncodeConcat(head, c.text);
    r := head + c.text + tail;
  }

  /** One change event after the other; None once an event is of an unknown kind. */
  function Folded(text: string, changes: seq<Change>): Result<string>
    decreases |changes|
  {
    if changes == [] then Ok(text)
    else
      match changes[0]
      case Ranged(_, _, _) => Folded(Changed(text, changes[0]), changes[1..])
      case Whole(t) => Folded(t, changes[1..])
      case Unsupported => UnsupportedChange
  }

  /** Changes sent together leave the same text as the same changes sent apart, and an
      unknown event anywhere makes the whole batch fail. */
  lemma {:induction false} FoldedInParts(text: string, a: seq<Change>, b: seq<Change>)
    ensures Folded(text, a + b) == if Folded(text, a).Ok? then Folded(Folded(text, a).value, b) else UnsupportedChange
    ensures Folded(text, a).Ok? <==> Unsupported !in a
    decreases |a|
  {
    hide Changed;
    if a == [] {
      assert a + b == b;
    } else {
      assert (a + b)[1..] == a[1..] + b;
      assert a == [a[0]] + a[1..];
      match a[0]
      case Ranged(_, _, _) => FoldedInParts(Changed(text, a[0]), a[1..], b);
      case Whole(t) => FoldedInParts(t, a[1..], b);
      case Unsupported =>
    }
  }

  /** A batch without events leaves the text alone. */
  lemma NoChange(t: string)
    ensures Folded(t, []) == Ok(t)
  {
  }

  /** A whole change replaces the text. */
  lemma WholeChange(t: string, x: string)
    ensures Folded(t, [Whole(x)]) == Ok(x)
  {
    assert [Whole(x)][1..] == [];
    assert Folded(x, []) == Ok(x);
  }

  /** A ranged change replaces what lies between the two points, whichever comes first. */
  lemma RangedChange(t: string, s: Position, e: Position, x: string)
    ensures PointAt(t, s) <= |t| && PointAt(t, e) <= |t|
    ensures PointAt(t, s) <= PointAt(t, e) ==>
              Folded(t, [Ranged(s, e, x)]) == Ok(t[..PointAt(t, s)] + x + t[PointAt(t, e)..])
    ensures PointAt(t, e) <= PointAt(t, s) ==>
              Folded(t, [Ranged(s, e, x)]) == Ok(t[..PointAt(t, e)] + x + t[PointAt(t, s)..])
  {
    hide PointAt;
    PointInText(t, s);
    PointInText(t, e);
    var c := Ranged(s, e, x);
    assert [c][1..] == [];
    assert Folded(Changed(t, c), []) == Ok(Changed(t, c));
  }

  /** The texts a batch goes through, one event after the other. */
  ghost predicate GoesThrough(texts: seq<string>, changes: seq<Change>) {
    |texts| == |changes| + 1 && forall k :: 0 <= k < |changes| ==> Becomes(texts[k], changes[k], texts[k + 1])
  }

  /** What one event makes of a text. */
  ghost predicate Becomes(t: string, c: Change, u: string) {
    match c
    case Whole(x) => u == x
    case Ranged(s, e, x) =>
      exists p: nat, q: nat ::
        p <= q <= |t| && u == t[..p] + x + t[q..]
        && ((p == PointAt(t, s) && q == PointAt(t, e)) || (p == PointAt(t, e) && q == PointAt(t, s)))
    case Unsupported => false
  }

  lemma BecomesFolded(t: string, c: Change, u: string)
    ensures Becomes(t, c, u) <==> Folded(t, [c]) == Ok(u)
  {
    hide PointAt, Changed;
    match c
    case Whole(x) => WholeChange(t, x);
    case Ranged(s, e, x) =>
      RangedChange(t, s, e, x);
      if PointAt(t, s) <= PointAt(t, e) {
        var p, q := PointAt(t, s), PointAt(t, e);
        assert Folded(t, [c]) == Ok(t[..p] + x + t[q..]);
      } else {
        var p, q := PointAt(t, e), PointAt(t, s);
        assert Folded(t, [c]) == Ok(t[..p] + x + t[q..]);
      }
    case Unsupported =>
  }

  /** A batch makes of a text exactly what its events make of it one by one. */
  lemma {:induction false} FoldedOneByOne(t: string, changes: seq<Change>, u: string)
    ensures Folded(t, changes) == Ok(u) <==>
            exists texts: seq<string> :: GoesThrough(texts, changes) && texts[0] == t && texts[|changes|] == u
    decreases |changes|
  {
    hide Becomes, Changed, Folded;
    if changes == [] {
      NoChange(t);
      if t == u {
        assert GoesThrough([t], changes);
      }
    } else {
      var first, rest := changes[0], changes[1..];
      assert changes == [first] + rest;
      FoldedInParts(t, [first], rest);
      if Folded(t, changes) == Ok(u) {
        var v := Folded(t, [first]).value;
        FoldedOneByOne(v, rest, u);
        BecomesFolded(t, first, v);
        var texts: seq<string> :| GoesThrough(texts, rest) && texts[0] == v && texts[|rest|] == u;
        OneMoreText(t, first, texts, rest);
      }
      if texts: seq<string> :| GoesThrough(texts, changes) && texts[0] == t && texts[|changes|] == u {
        BecomesFolded(t, first, texts[1]);
        FoldedOneByOne(texts[1], rest, u);
        FewerTexts(texts, changes);
        assert texts[1..][|rest|] == u;
      }
    }
  }

  lemma OneMoreText(t: string, c: Change, texts: seq<string>, changes: seq<Change>)
    requires GoesThrough(texts, changes) && Becomes(t, c, texts[0])
    ensures GoesThrough([t] + texts, [c] + changes)
  {
    hide Becomes;
    forall k | 0 <= k < |changes| + 1
      ensures Becomes(([t] + texts)[k], ([c] + changes)[k], ([t] + texts)[k + 1])
    {
      if k > 0 {
        assert Becomes(texts[k - 1], changes[k - 1], texts[k]);
      }
    }
  }

  lemma FewerTexts(texts: seq<string>, changes: seq<Change>)
    requires changes != [] && GoesThrough(texts, changes)
    ensures Becomes(texts[0], changes[0], texts[1]) && GoesThrough(texts[1..], changes[1..])
  {
    hide Becomes;
    forall k | 0 <= k < |changes| - 1
      ensures Becomes(texts[1..][k], changes[1..][k], texts[1..][k + 1])
    {
      assert Becomes(texts[k + 1], changes[k + 1], texts[k + 2]);
    }
  }

  class Store {
    var docs: map<string, Document>

    constructor ()
      ensures docs == map[]
    {
      docs := map[];
    }

    method Open(uri: string, languageID: string, version: int, text: string) returns (d: Document)
      modifies this
      ensures d == Document(uri, languageID, version, text)
      ensures docs == old(docs)[uri := d]
    {
      d := Document(uri, languageID, version, text);
      docs := docs[uri := d];
    }

    method Close(uri: string)
      modifies this
      ensures docs == old(docs) - {uri}
    {
      docs := docs - {uri};
    }

    method Get(uri: string) returns (d: Result<Document>)
      ensures d == if uri in docs then Ok(docs[uri]) else NotOpen
    {
      return if uri in docs then Ok(docs[uri]) else NotOpen;
    }

    /** All changes or none: a failed batch leaves every document as it was. */
    method Apply(uri: string, version: int, changes: seq<Change>) returns (d: Result<Document>)
      modifies this
      ensures uri !in old(docs) ==> d == NotOpen
      ensures uri in old(docs) ==>
                match Folded(old(docs)[uri].text, changes)
                case Ok(text) => d == Ok(Document(uri, old(docs)[uri].languageID, version, text))
                case _ => d == UnsupportedChange
      ensures docs == if d.Ok? then old(docs)[uri := d.value] else old(docs)
      ensures uri in old(docs) && (forall c <- changes :: !c.Unsupported?) ==>
                && uri in docs && docs[uri].version == version
                && exists texts: seq<string> ::
                     GoesThrough(texts, changes) && texts[0] == old(docs)[uri].text
                      && texts[|changes|] == docs[uri].text
    {
      hide Becomes;
      if uri in docs {
        FoldedInParts(docs[uri].text, changes, []);
        if Folded(docs[uri].text, changes).Ok? {
          FoldedOneByOne(docs[uri].text, changes, Folded(docs[uri].text, changes).value);
        }
      }
      if uri !in docs {
        return NotOpen;
      }
      var cur := docs[uri];
      var text := cur.text;
      for k := 0 to |changes|
        invariant docs == old(docs)
        invariant Folded(cur.text, changes) == Folded(text, changes[k..])
      {
        assert changes[k..][1..] == changes[k + 1..];
        match changes[k] {
          case Ranged(_, _, _) =>
            text := ApplyRangeChange(text, changes[k]);
          case Whole(t) =>
            text := t;
          case Unsupported =>
            return UnsupportedChange;
        }
      }
      var next := Document(uri, cur.languageID, version, text);
      docs := docs[uri := next];
      return Ok(next);
    }
  }
}
