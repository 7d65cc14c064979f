/** Looking up a key in a YAML mapping through anchors, aliases and `<<` merge keys. The
    document is a graph: nodes name each other by index, and aliases and merges may form
    cycles. */
module MergeSearch {
  import opened Options

  type Id = nat

  /** A mapping entry: whether its key is the merge key, the key's text and node, and its
      value, which may be missing. */
  datatype Entry = Entry(merge: bool, keyText: string, key: Id, value: Option<Id>)

  datatype Node =
    | Mapping(entries: seq<Entry>)
    | MappingValue(entry: Entry)
    | Sequence(items: seq<Option<Id>>)
    | Anchor(target: Option<Id>)
    | Alias(name: string)
    | Leaf(text: string)

  /** The nodes and the table from anchor names to what they anchor. */
  datatype Graph = Graph(nodes: seq<Node>, anchors: map<string, Option<Id>>) {
    ghost predicate Has(n: Option<Id>) { n.Some? ==> n.value < |nodes| }

    /** Every reference leads to a node. */
    ghost predicate Closed() {
      && (forall name <- anchors :: Has(anchors[name]))
      && (forall n <- nodes ::
            && (n.Mapping? ==> forall e <- n.entries :: Has(e.value))
            && (n.MappingValue? ==> Has(n.entry.value))
            && (n.Sequence? ==> forall i <- n.items :: Has(i))
            && (n.Anchor? ==> Has(n.target)))
    }

    ghost function Ids(): set<Id> { IdsBelow(|nodes|) }
  }

  ghost function IdsBelow(n: nat): (ids: set<Id>)
    ensures forall i: Id :: i in ids <==> i < n
  {
    if n == 0 then {} else IdsBelow(n - 1) + {n - 1}
  }

  type Document = g: Graph | g.Closed() witness Graph([], map[])

  const MAX_ALIAS_DEPTH := 32

  datatype Deref = Deref(out: Option<Id>, via: Option<Id>)

  /** The node behind anchors and aliases, and the first alias crossed. */
  function DerefWithin(g: Document, n: Option<Id>, via: Option<Id>, steps: nat): (d: Deref)
    requires g.Has(n)
    ensures g.Has(d.out)
    ensures via.Some? ==> d.via == via
    ensures d.out.Some? ==> !g.nodes[d.out.value].Anchor? && !g.nodes[d.out.value].Alias?
    decreases steps
  {
    if steps == 0 then Deref(None, via)
    else if n.None? then Deref(None, via)
    else
      match g.nodes[n.value]
      case Anchor(target) =>
        assert g.nodes[n.value] in g.nodes;
        DerefWithin(g, target, via, steps - 1)
      case Alias(name) =>
        var first := if via.None? then n else via;
        if name in g.anchors && g.anchors[name].Some? then DerefWithin(g, g.anchors[name], first, steps - 1)
        else Deref(None, first)
      case _ => Deref(n, via)
  }

  function Followed(g: Document, n: Option<Id>): (d: Deref)
    requires g.Has(n)
    ensures g.Has(d.out)
  {
    DerefWithin(g, n, None, MAX_ALIAS_DEPTH)
  }

  lemma DerefStep(g: Document, n: Option<Id>, via: Option<Id>, steps: nat)
    requires g.Has(n)
    ensures steps == 0 || n.None? ==> DerefWithin(g, n, via, steps) == Deref(None, via)
    ensures steps > 0 && n.Some? && g.nodes[n.value].Anchor? ==>
              var target := g.nodes[n.value].target;
              g.Has(target) && DerefWithin(g, n, via, steps) == DerefWithin(g, target, via, steps - 1)
    ensures steps > 0 && n.Some? && g.nodes[n.value].Alias? ==>
              var name, first := g.nodes[n.value].name, if via.None? then n else via;
              DerefWithin(g, n, via, steps) ==
                if name in g.anchors && g.anchors[name].Some? then DerefWithin(g, g.anchors[name], first, steps - 1)
                else Deref(None, first)
    ensures steps > 0 && n.Some? && !g.nodes[n.value].Anchor? && !g.nodes[n.value].Alias? ==>
              DerefWithin(g, n, via, steps) == Deref(n, via)
  {
    if n.Some? {
      assert g.nodes[n.value] in g.nodes;
    }
  }

  method Dereference(g: Document, node: Option<Id>) returns (out: Option<Id>, via: Option<Id>)
    requires g.Has(node)
    ensures Deref(out, via) == Followed(g, node)
  {
    hide DerefWithin;
    var n := node;
    via := None;
    for k := 0 to MAX_ALIAS_DEPTH
      invariant g.Has(n)
      invariant Followed(g, node) == DerefWithin(g, n, via, MAX_ALIAS_DEPTH - k)
    {
      DerefStep(g, n, via, MAX_ALIAS_DEPTH - k);
      if n.None? {
        return None, via;
      }
      match g.nodes[n.value] {
        case Anchor(target) =>
          n := target;
        case Alias(name) =>
          if via.None? {
            via := n;
          }
          n := if name in g.anchors then g.anchors[name] else None;
          if n.None? {
            return None, via;
          }
        case _ =>
          return n, via;
      }
    }
    DerefStep(g, n, via, 0);
    return None, via;
  }

  // --- the search ---

  function EntriesOf(n: Node): seq<Entry> {
    match n
    case Mapping(entries) => entries
    case MappingValue(entry) => [entry]
    case _ => []
  }

  /** What a search found: the value, the key's node, and the alias that supplied it. */
  datatype Hit = Hit(value: Option<Id>, key: Id, via: Option<Id>)

  /** The first explicit entry for the key. */
  function Explicit(entries: seq<Entry>, seg: string): (hit: Option<Hit>)
    ensures hit.Some? ==> hit.value.via == None
    ensures hit.Some? <==> exists e :: e in entries && !e.merge && e.keyText == seg
    ensures hit.Some? ==>
              exists e :: e in entries && !e.merge && e.keyText == seg
                          && e.value == hit.value.value && e.key == hit.value.key
  {
    if entries == [] then None
    else if !entries[0].merge && entries[0].keyText == seg then
      assert entries[0] in entries;
      Some(Hit(entries[0].value, entries[0].key, None))
    else
      assert entries == [entries[0]] + entries[1..];
      Explicit(entries[1..], seg)
  }

  /** What a merge key's value merges: the elements of a sequence, or the value itself. */
  function MergedBy(g: Document, value: Option<Id>): (sources: seq<Option<Id>>)
    requires g.Has(value)
    ensures forall s <- sources :: g.Has(s)
  {
    if value.Some? && g.nodes[value.value].Sequence? then
      assert g.nodes[value.value] in g.nodes;
      g.nodes[value.value].items
    else [value]
  }

  /** The sources of all merge keys, in order. */
  function Sources(g: Document, entries: seq<Entry>): (sources: seq<Option<Id>>)
    requires forall e <- entries :: g.Has(e.value)
    ensures forall s <- sources :: g.Has(s)
  {
    if entries == [] then []
    else (if entries[0].merge then MergedBy(g, entries[0].value) else []) + Sources(g, entries[1..])
  }

  function EntriesAt(g: Document, n: Id): (entries: seq<Entry>)
    requires n < |g.nodes|
    ensures forall e <- entries :: g.Has(e.value)
  {
    assert g.nodes[n] in g.nodes;
    EntriesOf(g.nodes[n])
  }

  function SourcesAt(g: Document, n: Id): (sources: seq<Option<Id>>)
    requires n < |g.nodes|
    ensures forall s <- sources :: g.Has(s)
  {
    Sources(g, EntriesAt(g, n))
  }

  /** An alias on the way to a merged entry is what supplied it. */
  function Through(hit: Hit, site: Option<Id>): Hit {
    if site.Some? then hit.(via := site) else hit
  }

  datatype Outcome = Outcome(hit: Option<Hit>, seen: set<Id>)

  function Find(g: Document, n: Option<Id>, seg: string, seen: set<Id>): (o: Outcome)
    requires g.Has(n)
    ensures seen <= o.seen
    decreases |g.Ids() - seen|, 0
  {
    if n.None? || n.value in seen then Outcome(None, seen)
    else
      assert n.value in g.Ids() - seen;
      assert g.Ids() - (seen + {n.value}) == (g.Ids() - seen) - {n.value};
      var explicit := Explicit(EntriesAt(g, n.value), seg);
      if explicit.Some? then Outcome(explicit, seen + {n.value})
      else FindInSources(g, SourcesAt(g, n.value), seg, seen + {n.value})
  }

  function FindInSources(g: Document, sources: seq<Option<Id>>, seg: string, seen: set<Id>): (o: Outcome)
    requires forall s <- sources :: g.Has(s)
    ensures seen <= o.seen
    decreases |g.Ids() - seen|, |sources|
  {
    if sources == [] then Outcome(None, seen)
    else
      assert sources[0] in sources;
      var d := Followed(g, sources[0]);
      var o := Find(g, d.out, seg, seen);
      if o.hit.Some? then Outcome(Some(Through(o.hit.value, d.via)), o.seen)
      else
        SeenShrinks(g.Ids(), seen, o.seen);
        FindInSources(g, sources[1..], seg, o.seen)
  }

  lemma SeenShrinks(ids: set<Id>, a: set<Id>, b: set<Id>)
    requires a <= b
    ensures |ids - b| <= |ids - a|
  {
    assert ids - b <= ids - a;
    SubsetSize(ids - b, ids - a);
  }

  lemma {:induction false} SubsetSize(a: set<Id>, b: set<Id>)
    requires a <= b
    ensures |a| <= |b|
  {
    if a != {} {
      var x :| x in a;
      SubsetSize(a - {x}, b - {x});
    }
  }

  lemma ExplicitStep(entries: seq<Entry>, i: nat, seg: string)
    requires i < |entries|
    ensures Explicit(entries[i..], seg) ==
            if !entries[i].merge && entries[i].keyText == seg then Some(Hit(entries[i].value, entries[i].key, None))
            else Explicit(entries[i + 1..], seg)
  {
    assert entries[i..][1..] == entries[i + 1..];
  }

  lemma SourcesStep(g: Document, entries: seq<Entry>, i: nat)
    requires i < |entries| && forall e <- entries :: g.Has(e.value)
    ensures Sources(g, entries[i..]) ==
            (if entries[i].merge then MergedBy(g, entries[i].value) else []) + Sources(g, entries[i + 1..])
  {
    assert entries[i..][1..] == entries[i + 1..];
  }

  /** One source of a search, the others following. */
  lemma FindStep(g: Document, sources: seq<Option<Id>>, j: nat, rest: seq<Option<Id>>, seg: string, seen: set<Id>)
    requires j < |sources| && (forall s <- sources :: g.Has(s)) && (forall s <- rest :: g.Has(s))
    ensures var d := Followed(g, sources[j]);
            var o := Find(g, d.out, seg, seen);
            FindInSources(g, sources[j..] + rest, seg, seen) ==
              if o.hit.Some? then Outcome(Some(Through(o.hit.value, d.via)), o.seen)
              else FindInSources(g, sources[j + 1..] + rest, seg, o.seen)
  {
    hide Find, Followed;
    var whole := sources[j..] + rest;
    assert whole[0] == sources[j] && whole[1..] == sources[j + 1..] + rest;
  }

  /** A search in progress: the mappings already looked at are skipped. */
  class Search {
    const g: Document
    var seen: set<Id>

    constructor (g: Document)
      ensures this.g == g && seen == {}
    {
      this.g := g;
      seen := {};
    }

    method Field(n: Option<Id>, seg: string) returns (hit: Option<Hit>)
      requires g.Has(n)
      modifies this
      ensures Outcome(hit, seen) == Find(g, n, seg, old(seen))
      decreases |g.Ids() - seen|
    {
      hide Find, FindInSources, Explicit, Sources, Followed, EntriesAt, MergedBy, Through;
      if n.None? || n.value in seen {
        NoStep(g, n, seg, seen);
        return None;
      }
      FirstStep(g, n.value, seg, seen);
      seen := seen + {n.value};
      ghost var start := seen;
      var entries := EntriesAt(g, n.value);
      assert entries[0..] == entries;
      for i := 0 to |entries|
        invariant seen == start && Explicit(entries, seg) == Explicit(entries[i..], seg)
      {
        ExplicitStep(entries, i, seg);
        if !entries[i].merge && entries[i].keyText == seg {
          return Some(Hit(entries[i].value, entries[i].key, None));
        }
      }
      NothingLeft(g, seg);
      ghost var result := FindInSources(g, Sources(g, entries), seg, start);
      for i := 0 to |entries|
        invariant start <= seen
        invariant result == FindInSources(g, Sources(g, entries[i..]), seg, seen)
      {
        SourcesStep(g, entries, i);
        ghost var rest := Sources(g, entries[i + 1..]);
        if !entries[i].merge {
          assert [] + rest == rest;
          continue;
        }
        var sources := MergedBy(g, entries[i].value);
        assert sources[0..] == sources;
        for j := 0 to |sources|
          invariant start <= seen
          invariant result == FindInSources(g, sources[j..] + rest, seg, seen)
        {
          FindStep(g, sources, j, rest, seg, seen);
          SeenShrinks(g.Ids(), start, seen);
          var target, site := Dereference(g, sources[j]);
          var found := Field(target, seg);
          if found.None? {
            continue;
          }
          return Some(Through(found.value, site));
        }
        assert sources[|sources|..] + rest == rest;
      }
      return None;
    }
  }

  lemma FirstStep(g: Document, n: Id, seg: string, seen: set<Id>)
    requires n < |g.nodes| && n !in seen
    ensures |g.Ids() - (seen + {n})| < |g.Ids() - seen|
    ensures var explicit := Explicit(EntriesAt(g, n), seg);
            Find(g, Some(n), seg, seen) ==
              if explicit.Some? then Outcome(explicit, seen + {n})
              else FindInSources(g, SourcesAt(g, n), seg, seen + {n})
  {
    assert n in g.Ids() - seen;
    assert g.Ids() - (seen + {n}) == (g.Ids() - seen) - {n};
  }

  lemma NoStep(g: Document, n: Option<Id>, seg: string, seen: set<Id>)
    requires n.None? || n.value in seen
    ensures g.Has(n) ==> Find(g, n, seg, seen) == Outcome(None, seen)
  {
  }

  lemma NothingLeft(g: Document, seg: string)
    ensures Explicit([], seg) == None && Sources(g, []) == []
    ensures forall seen: set<Id> :: FindInSources(g, [], seg, seen) == Outcome(None, seen)
  {
  }
}
