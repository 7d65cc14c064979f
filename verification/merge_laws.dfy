/** Dereferencing and the merge rule, told by the nodes of the graph: chains of anchors and
    aliases, entries in their order, and the sources of merge keys in theirs. */
module MergeLaws {
  import opened MergeProofs
  import opened MergeSearch
  import opened Options

  // --- chains of anchors and aliases ---

  /** a is an anchor on b, or an alias of a name that anchors b. */
  ghost predicate LeadsTo(g: Document, a: Id, b: Id) {
    a < |g.nodes| && b < |g.nodes| &&
    (|| g.nodes[a] == Anchor(Some(b))
     || (exists name: string :: g.nodes[a] == Alias(name) && name in g.anchors && g.anchors[name] == Some(b)))
  }

  predicate IsAlias(g: Document, n: Id) { n < |g.nodes| && g.nodes[n].Alias? }

  predicate IsContent(g: Document, n: Id) { n < |g.nodes| && !g.nodes[n].Alias? && !g.nodes[n].Anchor? }

  /** From n to m, each node leading to the next, with at most `most` nodes. */
  ghost predicate Chain(g: Document, path: seq<Id>, n: Id, m: Id, most: int) {
    && 0 < |path| <= most && path[0] == n && path[|path| - 1] == m && m < |g.nodes|
    && forall k :: 0 <= k < |path| - 1 ==> LeadsTo(g, path[k], path[k + 1])
  }

  ghost predicate AliasFree(g: Document, path: seq<Id>) {
    forall k :: 0 <= k < |path| - 1 ==> !IsAlias(g, path[k])
  }

  lemma ChainTail(g: Document, path: seq<Id>, n: Id, m: Id, most: int)
    requires Chain(g, path, n, m, most) && |path| > 1
    ensures Chain(g, path[1..], path[1], m, most - 1) && LeadsTo(g, n, path[1])
    ensures AliasFree(g, path) <==> AliasFree(g, path[1..]) && !IsAlias(g, n)
  {
    hide LeadsTo, IsAlias;
    assert LeadsTo(g, path[0], path[1]);
    forall k | 0 <= k < |path[1..]| - 1
      ensures path[1..][k] == path[k + 1] && LeadsTo(g, path[1..][k], path[1..][k + 1])
    {
      assert LeadsTo(g, path[k + 1], path[k + 2]);
    }
    forall k | 0 < k < |path| - 1
      ensures path[k] == path[1..][k - 1]
    {
    }
  }

  lemma ChainMore(g: Document, path: seq<Id>, n: Id, t: Id, m: Id, most: int)
    requires Chain(g, path, t, m, most) && LeadsTo(g, n, t)
    ensures Chain(g, [n] + path, n, m, most + 1)
    ensures !IsAlias(g, n) && AliasFree(g, path) ==> AliasFree(g, [n] + path)
  {
    hide LeadsTo, IsAlias;
    forall k | 0 <= k < |path|
      ensures LeadsTo(g, ([n] + path)[k], ([n] + path)[k + 1])
    {
      if k > 0 {
        assert LeadsTo(g, path[k - 1], path[k]);
      }
    }
    forall k | 0 < k < |path|
      ensures ([n] + path)[k] == path[k - 1]
    {
    }
  }

  lemma {:induction false} ChainIsFollowed(g: Document, path: seq<Id>, n: Id, m: Id, via: Option<Id>, steps: nat)
    requires Chain(g, path, n, m, steps) && IsContent(g, m) && n < |g.nodes|
    ensures DerefWithin(g, Some(n), via, steps).out == Some(m)
    decreases steps
  {
    hide DerefWithin;
    DerefStep(g, Some(n), via, steps);
    if |path| > 1 {
      ChainTail(g, path, n, m, steps);
      ChainIsFollowed(g, path[1..], path[1], m, if IsAlias(g, n) && via.None? then Some(n) else via, steps - 1);
    }
  }

  lemma {:induction false} FollowedIsChain(g: Document, n: Id, via: Option<Id>, steps: nat) returns (path: seq<Id>)
    requires n < |g.nodes| && DerefWithin(g, Some(n), via, steps).out.Some?
    ensures var m := DerefWithin(g, Some(n), via, steps).out.value; IsContent(g, m) && Chain(g, path, n, m, steps)
    decreases steps
  {
    hide DerefWithin;
    DerefStep(g, Some(n), via, steps);
    DerefStep(g, None, via, steps - 1);
    path := [n];
    if !IsContent(g, n) {
      var first := if IsAlias(g, n) && via.None? then Some(n) else via;
      var t := if IsAlias(g, n) then g.anchors[g.nodes[n].name] else g.nodes[n].target;
      DerefStep(g, t, first, steps - 1);
      assert LeadsTo(g, n, t.value);
      var rest := FollowedIsChain(g, t.value, first, steps - 1);
      ChainMore(g, rest, n, t.value, DerefWithin(g, Some(n), via, steps).out.value, steps - 1);
      path := [n] + rest;
    }
  }

  lemma {:induction false} AliasIsVia(g: Document, path: seq<Id>, n: Id, a: Id, steps: nat)
    requires Chain(g, path, n, a, steps) && AliasFree(g, path) && IsAlias(g, a) && n < |g.nodes|
    ensures DerefWithin(g, Some(n), None, steps).via == Some(a)
    decreases steps
  {
    DerefStep(g, Some(n), None, steps);
    if |path| > 1 {
      ChainTail(g, path, n, a, steps);
      AliasIsVia(g, path[1..], path[1], a, steps - 1);
    }
  }

  lemma {:induction false} ViaIsAlias(g: Document, n: Id, steps: nat) returns (path: seq<Id>)
    requires n < |g.nodes| && DerefWithin(g, Some(n), None, steps).via.Some?
    ensures var a := DerefWithin(g, Some(n), None, steps).via.value;
            IsAlias(g, a) && Chain(g, path, n, a, steps) && AliasFree(g, path)
    decreases steps
  {
    DerefStep(g, Some(n), None, steps);
    path := [n];
    if !IsAlias(g, n) {
      var t := g.nodes[n].target;
      DerefStep(g, t, None, steps - 1);
      assert LeadsTo(g, n, t.value);
      var rest := ViaIsAlias(g, t.value, steps - 1);
      ChainMore(g, rest, n, t.value, DerefWithin(g, Some(n), None, steps).via.value, steps - 1);
      path := [n] + rest;
    }
  }

  ghost predicate ChainTo(g: Document, n: Id, m: Id) {
    IsContent(g, m) && exists path: seq<Id> :: Chain(g, path, n, m, 32)
  }

  ghost predicate FirstAlias(g: Document, n: Id, a: Id) {
    IsAlias(g, a) && exists path: seq<Id> :: Chain(g, path, n, a, 32) && AliasFree(g, path)
  }

  /** Dereferencing ends where a chain of at most 32 nodes leads, itself included; `via` is the
      first alias on the way, whether or not the way ends well. */
  lemma DereferenceIs(g: Document, n: Id, m: Id)
    requires n < |g.nodes|
    ensures Followed(g, Some(n)).out == Some(m) <==> ChainTo(g, n, m)
    ensures Followed(g, Some(n)).via == Some(m) <==> FirstAlias(g, n, m)
    ensures Followed(g, None) == Deref(None, None)
  {
    hide DerefWithin, IsContent, IsAlias, AliasFree, LeadsTo;
    DerefStep(g, None, None, MAX_ALIAS_DEPTH);
    if ChainTo(g, n, m) {
      var path: seq<Id> :| Chain(g, path, n, m, 32);
      ChainIsFollowed(g, path, n, m, None, 32);
    }
    if Followed(g, Some(n)).out == Some(m) {
      var path := FollowedIsChain(g, n, None, 32);
    }
    if FirstAlias(g, n, m) {
      var path: seq<Id> :| Chain(g, path, n, m, 32) && AliasFree(g, path);
      AliasIsVia(g, path, n, m, 32);
    }
    if Followed(g, Some(n)).via == Some(m) {
      var path := ViaIsAlias(g, n, 32);
    }
  }

  // --- the merge rule ---

  /** The entries of a mapping, or the only one of a mapping value; anything else has none. */
  predicate HasEntries(g: Document, n: Id, es: seq<Entry>) {
    n < |g.nodes| &&
    match g.nodes[n]
    case Mapping(entries) => es == entries
    case MappingValue(entry) => es == [entry]
    case _ => es == []
  }

  predicate Names(e: Entry, seg: string) { !e.merge && e.keyText == seg }

  /** The i-th source of entry k: the i-th item if its value is a sequence, else the value
      itself. */
  predicate MergeSource(g: Document, es: seq<Entry>, k: nat, i: nat, s: Option<Id>) {
    k < |es| && es[k].merge &&
    match es[k].value
    case None => i == 0 && s == None
    case Some(v) =>
      v < |g.nodes| &&
      match g.nodes[v]
      case Sequence(items) => i < |items| && s == items[i]
      case _ => i == 0 && s == Some(v)
  }

  /** What the search finds behind a source. */
  function FoundBehind(g: Document, s: Option<Id>, seg: string): Option<Hit>
    requires g.Has(s)
  {
    Find(g, Followed(g, s).out, seg, {}).hit
  }

  lemma {:induction false} FirstNamed(es: seq<Entry>, i: nat, seg: string)
    requires i < |es| && Names(es[i], seg) && forall k :: 0 <= k < i ==> !Names(es[k], seg)
    ensures Explicit(es, seg) == Some(Hit(es[i].value, es[i].key, None))
  {
    if i > 0 {
      assert !Names(es[0], seg);
      FirstNamed(es[1..], i - 1, seg);
    }
  }

  lemma {:induction false} NoneNamed(es: seq<Entry>, seg: string)
    requires forall k :: 0 <= k < |es| ==> !Names(es[k], seg)
    ensures Explicit(es, seg) == None
  {
  }

  lemma EntriesAre(g: Document, n: Id, es: seq<Entry>)
    requires HasEntries(g, n, es)
    ensures EntriesAt(g, n) == es
  {
  }

  /** The first entry of that name wins, whatever is merged, on any graph. */
  lemma ExplicitRule(g: Document, n: Id, es: seq<Entry>, i: nat, seg: string)
    requires HasEntries(g, n, es) && i < |es| && Names(es[i], seg) && forall k :: 0 <= k < i ==> !Names(es[k], seg)
    ensures Find(g, Some(n), seg, {}).hit == Some(Hit(es[i].value, es[i].key, None))
  {
    EntriesAre(g, n, es);
    FirstNamed(es, i, seg);
  }

  lemma {:induction false} SourcesJoin(g: Document, a: seq<Entry>, b: seq<Entry>)
    requires forall e <- a + b :: g.Has(e.value)
    ensures forall e :: e in a || e in b ==> g.Has(e.value)
    ensures Sources(g, a + b) == Sources(g, a) + Sources(g, b)
  {
    assert forall e :: e in a || e in b ==> e in a + b;
    if a == [] {
      assert a + b == b;
    } else {
      assert (a + b)[0] == a[0] && (a + b)[1..] == a[1..] + b;
      SourcesJoin(g, a[1..], b);
    }
  }

  lemma SourcesOfOne(g: Document, e: Entry)
    requires g.Has(e.value)
    ensures Sources(g, [e]) == if e.merge then MergedBy(g, e.value) else []
  {
    assert Sources(g, [e][1..]) == [];
  }

  lemma SourceNumber(g: Document, es: seq<Entry>, k: nat, i: nat, s: Option<Id>)
    requires k < |es| && g.Has(es[k].value)
    ensures MergeSource(g, es, k, i, s) <==>
              es[k].merge && i < |MergedBy(g, es[k].value)| && s == MergedBy(g, es[k].value)[i]
  {
  }

  lemma SourcesAround(g: Document, es: seq<Entry>, k: nat)
    requires k < |es| && es[k].merge && forall e <- es :: g.Has(e.value)
    ensures (forall e <- es[..k] :: g.Has(e.value)) && (forall e <- es[k + 1..] :: g.Has(e.value))
    ensures Sources(g, es) == Sources(g, es[..k]) + MergedBy(g, es[k].value) + Sources(g, es[k + 1..])
  {
    hide Sources, MergedBy;
    assert es == (es[..k] + [es[k]]) + es[k + 1..];
    SourcesJoin(g, es[..k] + [es[k]], es[k + 1..]);
    SourcesJoin(g, es[..k], [es[k]]);
    SourcesOfOne(g, es[k]);
  }

  /** A source of one of the first entries. */
  ghost predicate EarlierSource(g: Document, es: seq<Entry>, k: nat, s: Option<Id>) {
    exists j: nat, i: nat :: j < k && MergeSource(g, es, j, i, s)
  }

  lemma {:induction false} SourcesAreNumbered(g: Document, es: seq<Entry>, k: nat, s: Option<Id>)
    requires k <= |es| && forall e <- es :: g.Has(e.value)
    ensures forall e <- es[..k] :: g.Has(e.value)
    ensures s in Sources(g, es[..k]) ==> EarlierSource(g, es, k, s)
    decreases k
  {
    hide Sources, MergedBy, MergeSource;
    if k == 0 {
      NoSources(g, es[..k]);
    } else {
      var j: nat := k - 1;
      assert es[..k] == es[..j] + [es[j]];
      SourcesJoin(g, es[..j], [es[j]]);
      SourcesOfOne(g, es[j]);
      SourcesAreNumbered(g, es, j, s);
      var own := MergedBy(g, es[j].value);
      if es[j].merge && s in own {
        var i: nat :| i < |own| && own[i] == s;
        SourceNumber(g, es, j, i, s);
      }
    }
  }

  lemma NoSources(g: Document, es: seq<Entry>)
    requires es == []
    ensures Sources(g, es) == []
  {
  }

  lemma BehindIsPlain(g: Document, n: Id, s: Option<Id>, seg: string)
    requires n < |g.nodes| && Acyclic(g, n) && g.Has(s) && MergesInto(g, n, s)
    ensures Followed(g, s).out.Some? ==> Acyclic(g, Followed(g, s).out.value)
    ensures FoundBehind(g, s, seg) == Plain(g, Followed(g, s).out, seg)
  {
    hide Acyclic, Rank, Merges, Followed, Plain;
    SourceDrops(g, n, s);
    var t := Followed(g, s).out;
    if t.Some? {
      SearchIsPlain(g, t.value, seg);
    } else {
      NothingPlain(g, seg);
    }
  }

  lemma NothingPlain(g: Document, seg: string)
    ensures Plain(g, None, seg) == None && Find(g, None, seg, {}).hit == None
  {
  }

  lemma {:induction false} EmptySourcesSkipped(g: Document, n: Id, before: seq<Option<Id>>, rest: seq<Option<Id>>,
                                               seg: string)
    requires n < |g.nodes| && Acyclic(g, n) && forall s <- before + rest :: g.Has(s) && MergesInto(g, n, s)
    requires forall s <- before :: g.Has(s) && FoundBehind(g, s, seg).None?
    ensures forall s <- rest :: g.Has(s) && MergesInto(g, n, s)
    ensures PlainOfSources(g, n, before + rest, seg) == PlainOfSources(g, n, rest, seg)
    decreases |before|
  {
    hide Acyclic, Merges, Followed, Plain, FoundBehind, MergesInto;
    assert forall s <- rest :: s in before + rest;
    if before == [] {
      assert before + rest == rest;
    } else {
      assert before[0] in before + rest;
      BehindIsPlain(g, n, before[0], seg);
      assert (before + rest)[0] == before[0] && (before + rest)[1..] == before[1..] + rest;
      EmptySourcesSkipped(g, n, before[1..], rest, seg);
    }
  }

  lemma FirstSourceWins(g: Document, n: Id, before: seq<Option<Id>>, s: Option<Id>, after: seq<Option<Id>>,
                        seg: string)
    requires n < |g.nodes| && Acyclic(g, n) && forall x <- before + ([s] + after) :: g.Has(x) && MergesInto(g, n, x)
    requires forall x <- before :: g.Has(x) && FoundBehind(g, x, seg).None?
    requires g.Has(s) && FoundBehind(g, s, seg).Some?
    ensures PlainOfSources(g, n, before + ([s] + after), seg) ==
            Some(Through(FoundBehind(g, s, seg).value, Followed(g, s).via))
  {
    hide Acyclic, Merges, Followed, Plain, FoundBehind, MergesInto, Through;
    EmptySourcesSkipped(g, n, before, [s] + after, seg);
    assert s in [s] + after;
    BehindIsPlain(g, n, s, seg);
    assert ([s] + after)[0] == s;
  }

  lemma OnlyMerged(g: Document, n: Id, es: seq<Entry>, seg: string)
    requires HasEntries(g, n, es) && Acyclic(g, n) && forall k :: 0 <= k < |es| ==> !Names(es[k], seg)
    ensures forall e <- es :: g.Has(e.value)
    ensures forall s <- Sources(g, es) :: g.Has(s) && MergesInto(g, n, s)
    ensures Find(g, Some(n), seg, {}).hit == PlainOfSources(g, n, Sources(g, es), seg)
  {
    hide Acyclic, Find, PlainOfSources, Sources, Followed;
    EntriesAre(g, n, es);
    NoneNamed(es, seg);
    EverySourceMerges(g, n);
    SearchIsPlain(g, n, seg);
  }

  /** Without an entry of that name the earliest source that has the key wins: sources go by
      entry and then by place in its sequence. The alias that names the source is reported in
      place of any alias met inside it. */
  lemma MergeRule(g: Document, n: Id, es: seq<Entry>, k: nat, i: nat, s: Option<Id>, seg: string)
    requires HasEntries(g, n, es) && Acyclic(g, n) && forall j :: 0 <= j < |es| ==> !Names(es[j], seg)
    requires MergeSource(g, es, k, i, s)
    ensures g.Has(s)
    ensures
      var hit := FoundBehind(g, s, seg);
      hit.Some?
      && (forall j: nat, m: nat, x: Option<Id> ::
            MergeSource(g, es, j, m, x) && (j < k || (j == k && m < i)) ==> g.Has(x) && FoundBehind(g, x, seg).None?)
      ==> Find(g, Some(n), seg, {}).hit ==
          Some(Hit(hit.value.value, hit.value.key,
                   if Followed(g, s).via.Some? then Followed(g, s).via else hit.value.via))
  {
    hide Acyclic, Find, PlainOfSources, Sources, Followed, FoundBehind, MergedBy, MergesInto, MergeSource;
    OnlyMerged(g, n, es, seg);
    assert es[k] in es by { MergeSourceEntry(g, es, k, i, s); }
    SourceNumber(g, es, k, i, s);
    SourcesAround(g, es, k);
    var own := MergedBy(g, es[k].value);
    assert own[i] in own;
    if FoundBehind(g, s, seg).Some?
       && forall j: nat, m: nat, x: Option<Id> ::
            MergeSource(g, es, j, m, x) && (j < k || (j == k && m < i)) ==> g.Has(x) && FoundBehind(g, x, seg).None? {
      var before := Sources(g, es[..k]) + own[..i];
      forall x | x in before
        ensures g.Has(x) && FoundBehind(g, x, seg).None?
      {
        SourcesAreNumbered(g, es, k, x);
        if x in own[..i] {
          var m: nat :| m < i && own[..i][m] == x;
          SourceNumber(g, es, k, m, x);
        }
      }
      var after := own[i + 1..] + Sources(g, es[k + 1..]);
      assert own == own[..i] + [s] + own[i + 1..];
      assert Sources(g, es) == before + ([s] + after);
      FirstSourceWins(g, n, before, s, after, seg);
    }
  }

  lemma MergeSourceEntry(g: Document, es: seq<Entry>, k: nat, i: nat, s: Option<Id>)
    requires MergeSource(g, es, k, i, s)
    ensures k < |es| && es[k] in es && es[k].merge
  {
  }

  /** And without a source that has it, the key is not found. */
  lemma NothingMerged(g: Document, n: Id, es: seq<Entry>, seg: string)
    requires HasEntries(g, n, es) && Acyclic(g, n) && forall j :: 0 <= j < |es| ==> !Names(es[j], seg)
    requires forall j: nat, m: nat, x: Option<Id> ::
               MergeSource(g, es, j, m, x) ==> g.Has(x) && FoundBehind(g, x, seg).None?
    ensures Find(g, Some(n), seg, {}).hit == None
  {
    hide Acyclic, Find, PlainOfSources, Sources, Followed, FoundBehind, MergesInto, MergeSource;
    OnlyMerged(g, n, es, seg);
    assert es[..|es|] == es;
    var sources := Sources(g, es);
    forall x | x in sources
      ensures g.Has(x) && FoundBehind(g, x, seg).None?
    {
      SourcesAreNumbered(g, es, |es|, x);
    }
    assert sources + [] == sources;
    EmptySourcesSkipped(g, n, sources, [], seg);
    NoPlainSources(g, n, seg);
  }

  lemma NoPlainSources(g: Document, n: Id, seg: string)
    requires n < |g.nodes| && Acyclic(g, n)
    ensures PlainOfSources(g, n, [], seg) == None
  {
  }

  /** Which mappings a mapping merges, told by its entries. */
  lemma MergesAre(g: Document, n: Id, es: seq<Entry>, t: Id)
    requires HasEntries(g, n, es)
    ensures Merges(g, n, t) <==>
              exists k: nat, i: nat, s: Id :: MergeSource(g, es, k, i, Some(s)) && s < |g.nodes| && ChainTo(g, s, t)
  {
    hide Sources, Followed, MergedBy, MergeSource, ChainTo;
    EntriesAre(g, n, es);
    assert es[..|es|] == es;
    if Merges(g, n, t) {
      var s :| s in Sources(g, es) && Followed(g, s).out == Some(t);
      SourcesAreNumbered(g, es, |es|, s);
      FollowedSome(g, s);
      DereferenceIs(g, s.value, t);
      var j: nat, i: nat :| j < |es| && MergeSource(g, es, j, i, s);
      assert MergeSource(g, es, j, i, Some(s.value));
    }
    if k: nat, i: nat, s: Id :| MergeSource(g, es, k, i, Some(s)) && s < |g.nodes| && ChainTo(g, s, t) {
      MergeSourceEntry(g, es, k, i, Some(s));
      SourceNumber(g, es, k, i, Some(s));
      SourcesAround(g, es, k);
      assert Some(s) in MergedBy(g, es[k].value);
      assert Some(s) in Sources(g, es);
      DereferenceIs(g, s, t);
    }
  }

  lemma FollowedSome(g: Document, s: Option<Id>)
    requires g.Has(s) && Followed(g, s).out.Some?
    ensures s.Some?
  {
  }

  /** Which mappings define a key. */
  lemma DefinesIs(g: Document, n: Id, es: seq<Entry>, seg: string)
    requires HasEntries(g, n, es)
    ensures Defines(g, n, seg) <==> exists k: nat :: k < |es| && Names(es[k], seg)
  {
    EntriesAre(g, n, es);
  }
}
