/** The merge-key search is right on any graph, cyclic ones included: it finds a key exactly
    when some mapping it can reach defines it, and without cycles it is the plain recursion. */
module MergeProofs {
  import opened MergeSearch
  import opened Options

  // --- what can be reached through merges ---

  /** m merges t directly. */
  ghost predicate Merges(g: Document, m: Id, t: Id) {
    m < |g.nodes| && exists s :: s in SourcesAt(g, m) && Followed(g, s).out == Some(t)
  }

  ghost predicate MergePath(g: Document, path: seq<Id>) {
    && path != []
    && (forall n <- path :: n < |g.nodes|)
    && forall k :: 0 <= k < |path| - 1 ==> Merges(g, path[k], path[k + 1])
  }

  ghost predicate Reaches(g: Document, from: Id, to: Id) {
    exists path: seq<Id> :: MergePath(g, path) && path[0] == from && path[|path| - 1] == to
  }

  ghost predicate Defines(g: Document, m: Id, seg: string) {
    m < |g.nodes| && Explicit(EntriesAt(g, m), seg).Some?
  }

  lemma ReachesItself(g: Document, n: Id)
    requires n < |g.nodes|
    ensures Reaches(g, n, n)
  {
    assert MergePath(g, [n]);
  }

  lemma ReachesThrough(g: Document, n: Id, t: Id, m: Id)
    requires Merges(g, n, t) && Reaches(g, t, m)
    ensures Reaches(g, n, m)
  {
    hide Merges;
    MergesStays(g, n, t);
    var path: seq<Id> :| MergePath(g, path) && path[0] == t && path[|path| - 1] == m;
    var longer := [n] + path;
    forall k | 0 <= k < |longer| - 1
      ensures Merges(g, longer[k], longer[k + 1])
    {
      if k > 0 {
        assert Merges(g, path[k - 1], path[k]);
      }
    }
    assert MergePath(g, longer);
  }

  lemma MergesStays(g: Document, n: Id, t: Id)
    requires Merges(g, n, t)
    ensures n < |g.nodes| && t < |g.nodes|
  {
    var s :| s in SourcesAt(g, n) && Followed(g, s).out == Some(t);
    assert g.Has(Followed(g, s).out);
  }

  /** A hit's value and key are those of an explicit entry of that mapping. */
  ghost predicate HitFrom(g: Document, hit: Hit, m: Id, seg: string) {
    && Defines(g, m, seg)
    && var e := Explicit(EntriesAt(g, m), seg).value;
       hit.value == e.value && hit.key == e.key
  }

  // --- soundness ---

  lemma {:induction false} FoundIsReachable(g: Document, n: Option<Id>, seg: string, seen: set<Id>)
    requires g.Has(n) && Find(g, n, seg, seen).hit.Some?
    ensures n.Some? && exists m :: Reaches(g, n.value, m) && HitFrom(g, Find(g, n, seg, seen).hit.value, m, seg)
    decreases |g.Ids() - seen|, 0
  {
    hide Reaches, Merges;
    var hit := Find(g, n, seg, seen).hit.value;
    if Explicit(EntriesAt(g, n.value), seg).Some? {
      ReachesItself(g, n.value);
      assert HitFrom(g, hit, n.value, seg);
    } else {
      assert n.value in g.Ids() - seen;
      assert g.Ids() - (seen + {n.value}) == (g.Ids() - seen) - {n.value};
      EverySourceMerges(g, n.value);
      FoundInSourcesIsReachable(g, n.value, SourcesAt(g, n.value), seg, seen + {n.value});
    }
  }

  lemma EverySourceMerges(g: Document, n: Id)
    requires n < |g.nodes|
    ensures forall s <- SourcesAt(g, n) :: MergesInto(g, n, s)
  {
  }

  /** What a source leads to is merged by n. */
  ghost predicate MergesInto(g: Document, n: Id, s: Option<Id>)
    requires g.Has(s)
  {
    Followed(g, s).out.Some? ==> Merges(g, n, Followed(g, s).out.value)
  }

  lemma {:induction false} FoundInSourcesIsReachable(g: Document, n: Id, sources: seq<Option<Id>>, seg: string,
                                        seen: set<Id>)
    requires forall s <- sources :: g.Has(s) && MergesInto(g, n, s)
    requires FindInSources(g, sources, seg, seen).hit.Some?
    ensures exists m :: Reaches(g, n, m) && HitFrom(g, FindInSources(g, sources, seg, seen).hit.value, m, seg)
    decreases |g.Ids() - seen|, |sources|
  {
    hide Reaches, Merges, Followed;
    var d := Followed(g, sources[0]);
    assert MergesInto(g, n, sources[0]);
    var o := Find(g, d.out, seg, seen);
    if o.hit.Some? {
      FoundIsReachable(g, d.out, seg, seen);
      var m :| Reaches(g, d.out.value, m) && HitFrom(g, o.hit.value, m, seg);
      ReachesThrough(g, n, d.out.value, m);
      assert HitFrom(g, Through(o.hit.value, d.via), m, seg);
    } else {
      SeenShrinks(g.Ids(), seen, o.seen);
      FoundInSourcesIsReachable(g, n, sources[1..], seg, o.seen);
    }
  }

  // --- completeness: a failed search has left nothing out ---

  /** Every mapping added to the seen ones lacks the key and merges only seen ones. */
  ghost predicate Exhausted(g: Document, seg: string, before: set<Id>, after: set<Id>) {
    forall m :: m in after && m !in before ==> !Defines(g, m, seg) && MergesOnly(g, m, after)
  }

  ghost predicate MergesOnly(g: Document, m: Id, after: set<Id>) {
    forall t :: Merges(g, m, t) ==> t in after
  }

  lemma ExhaustedJoins(g: Document, seg: string, a: set<Id>, b: set<Id>, c: set<Id>)
    requires a <= b <= c && Exhausted(g, seg, a, b) && Exhausted(g, seg, b, c)
    ensures Exhausted(g, seg, a, c)
  {
    hide Defines, Merges;
    forall m | m in c && m !in a
      ensures !Defines(g, m, seg) && MergesOnly(g, m, c)
    {
      if m in b {
        assert MergesOnly(g, m, b);
      }
    }
  }

  lemma {:induction false} NotFoundIsExhausted(g: Document, n: Option<Id>, seg: string, seen: set<Id>)
    requires g.Has(n) && Find(g, n, seg, seen).hit.None?
    ensures Exhausted(g, seg, seen, Find(g, n, seg, seen).seen)
    ensures n.Some? ==> n.value in Find(g, n, seg, seen).seen
    decreases |g.Ids() - seen|, 0
  {
    hide Merges, MergesOnly;
    if n.Some? && n.value !in seen {
      assert n.value in g.Ids() - seen;
      assert g.Ids() - (seen + {n.value}) == (g.Ids() - seen) - {n.value};
      var sources := SourcesAt(g, n.value);
      NotFoundInSourcesIsExhausted(g, sources, seg, seen + {n.value});
      var after := Find(g, n, seg, seen).seen;
      SourcesCoverMerges(g, n.value, after);
    }
  }

  lemma SourcesCoverMerges(g: Document, n: Id, after: set<Id>)
    requires n < |g.nodes|
    requires forall s <- SourcesAt(g, n) :: LeadsInto(g, s, after)
    ensures MergesOnly(g, n, after)
  {
    hide Followed;
    forall t | Merges(g, n, t)
      ensures t in after
    {
      var s :| s in SourcesAt(g, n) && Followed(g, s).out == Some(t);
      assert LeadsInto(g, s, after);
    }
  }

  ghost predicate LeadsInto(g: Document, s: Option<Id>, after: set<Id>) {
    g.Has(s) && (Followed(g, s).out.Some? ==> Followed(g, s).out.value in after)
  }

  lemma {:induction false} NotFoundInSourcesIsExhausted(g: Document, sources: seq<Option<Id>>, seg: string,
                                        seen: set<Id>)
    requires forall s <- sources :: g.Has(s)
    requires FindInSources(g, sources, seg, seen).hit.None?
    ensures Exhausted(g, seg, seen, FindInSources(g, sources, seg, seen).seen)
    ensures forall s <- sources :: LeadsInto(g, s, FindInSources(g, sources, seg, seen).seen)
    decreases |g.Ids() - seen|, |sources|
  {
    hide Followed, Defines, MergesOnly;
    if sources != [] {
      var d := Followed(g, sources[0]);
      var o := Find(g, d.out, seg, seen);
      NotFoundIsExhausted(g, d.out, seg, seen);
      SeenShrinks(g.Ids(), seen, o.seen);
      NotFoundInSourcesIsExhausted(g, sources[1..], seg, o.seen);
      ExhaustedJoins(g, seg, seen, o.seen, FindInSources(g, sources[1..], seg, o.seen).seen);
      assert sources == [sources[0]] + sources[1..];
    }
  }

  lemma {:induction false} PathStaysInside(g: Document, path: seq<Id>, after: set<Id>, k: nat)
    requires MergePath(g, path) && k < |path| && path[0] in after
    requires forall m :: m in after ==> MergesOnly(g, m, after)
    ensures path[k] in after
  {
    hide Merges;
    if k > 0 {
      PathStaysInside(g, path, after, k - 1);
      assert Merges(g, path[k - 1], path[k]);
    }
  }

  /** Starting fresh, the search finds the key if and only if some mapping reachable through
      merges defines it explicitly, and what it returns is an entry of such a mapping. The
      graph may be cyclic. */
  lemma SearchFindsReachable(g: Document, n: Id, seg: string)
    requires n < |g.nodes|
    ensures var hit := Find(g, Some(n), seg, {}).hit;
            && (hit.Some? <==> exists m :: Reaches(g, n, m) && Defines(g, m, seg))
            && (hit.Some? ==> exists m :: Reaches(g, n, m) && HitFrom(g, hit.value, m, seg))
  {
    hide Find, Merges;
    var o := Find(g, Some(n), seg, {});
    if o.hit.Some? {
      FoundIsReachable(g, Some(n), seg, {});
    } else {
      NotFoundIsExhausted(g, Some(n), seg, {});
      forall m | Reaches(g, n, m)
        ensures !Defines(g, m, seg)
      {
        var path: seq<Id> :| MergePath(g, path) && path[0] == n && path[|path| - 1] == m;
        PathStaysInside(g, path, o.seen, |path| - 1);
      }
    }
  }

  // --- without cycles: the plain recursion ---

  /** No chain of merges from n comes back to a mapping it has been at. What n does not reach
      may be cyclic. */
  ghost predicate Acyclic(g: Document, n: Id) {
    forall path: seq<Id>, i: nat, j: nat ::
      MergePath(g, path) && path[0] == n && i < j < |path| ==> path[i] != path[j]
  }

  ghost function Reached(g: Document, n: Id): set<Id> {
    set m | m in g.Ids() && Reaches(g, n, m)
  }

  /** How many mappings n reaches, itself among them. */
  ghost function Rank(g: Document, n: Id): nat { |Reached(g, n)| }

  lemma PathsJoin(g: Document, p: seq<Id>, q: seq<Id>)
    requires MergePath(g, p) && MergePath(g, q) && Merges(g, p[|p| - 1], q[0])
    ensures MergePath(g, p + q)
  {
    hide Merges;
    forall k | 0 <= k < |p + q| - 1
      ensures Merges(g, (p + q)[k], (p + q)[k + 1])
    {
      if k < |p| - 1 {
        assert Merges(g, p[k], p[k + 1]);
      } else if k >= |p| {
        assert Merges(g, q[k - |p|], q[k - |p| + 1]);
      }
    }
  }

  lemma AcyclicBelow(g: Document, n: Id, t: Id)
    requires Acyclic(g, n) && Merges(g, n, t)
    ensures Acyclic(g, t)
  {
    hide Merges;
    MergesStays(g, n, t);
    forall path: seq<Id>, i: nat, j: nat | MergePath(g, path) && path[0] == t && i < j < |path|
      ensures path[i] != path[j]
    {
      PathsJoin(g, [n], path);
      assert ([n] + path)[i + 1] == path[i] && ([n] + path)[j + 1] == path[j];
    }
  }

  lemma NoWayBack(g: Document, n: Id, t: Id)
    requires Acyclic(g, n) && Merges(g, n, t)
    ensures !Reaches(g, t, n)
  {
    hide Merges;
    MergesStays(g, n, t);
    forall path: seq<Id> | MergePath(g, path) && path[0] == t
      ensures path[|path| - 1] != n
    {
      PathsJoin(g, [n], path);
      assert ([n] + path)[0] == n && ([n] + path)[|path|] == path[|path| - 1];
    }
  }

  /** Merges lead strictly downwards from a mapping without merge cycles. */
  lemma RankDrops(g: Document, n: Id, t: Id)
    requires Acyclic(g, n) && Merges(g, n, t)
    ensures t < |g.nodes| && Acyclic(g, t) && Rank(g, t) < Rank(g, n)
  {
    hide Merges, Reaches, Acyclic;
    MergesStays(g, n, t);
    AcyclicBelow(g, n, t);
    NoWayBack(g, n, t);
    ReachesItself(g, n);
    forall m | m in Reached(g, t)
      ensures m in Reached(g, n)
    {
      ReachesThrough(g, n, t, m);
    }
    assert n in Reached(g, n);
    SubsetSize(Reached(g, t), Reached(g, n) - {n});
  }

  /** The merge rule itself: an explicit entry wins, then the earliest source that has the
      key; no record of what was seen. */
  ghost function Plain(g: Document, n: Option<Id>, seg: string): Option<Hit>
    requires g.Has(n) && (n.Some? ==> Acyclic(g, n.value))
    decreases if n.Some? then Rank(g, n.value) + 1 else 0, 0
  {
    if n.None? then None
    else if Explicit(EntriesAt(g, n.value), seg).Some? then Explicit(EntriesAt(g, n.value), seg)
    else
      EverySourceMerges(g, n.value);
      PlainOfSources(g, n.value, SourcesAt(g, n.value), seg)
  }

  ghost function PlainOfSources(g: Document, n: Id, sources: seq<Option<Id>>, seg: string): Option<Hit>
    requires n < |g.nodes| && Acyclic(g, n)
    requires forall s <- sources :: g.Has(s) && MergesInto(g, n, s)
    decreases Rank(g, n), |sources| + 1
  {
    if sources == [] then None
    else
      var d := Followed(g, sources[0]);
      SourceDrops(g, n, sources[0]);
      var first := Plain(g, d.out, seg);
      if first.Some? then Some(Through(first.value, d.via)) else PlainOfSources(g, n, sources[1..], seg)
  }

  lemma SourceDrops(g: Document, n: Id, s: Option<Id>)
    requires n < |g.nodes| && Acyclic(g, n) && g.Has(s) && MergesInto(g, n, s)
    ensures var t := Followed(g, s).out; t.Some? ==> Acyclic(g, t.value) && Rank(g, t.value) < Rank(g, n)
  {
    hide Merges, Acyclic, Rank, Followed;
    if Followed(g, s).out.Some? {
      RankDrops(g, n, Followed(g, s).out.value);
    }
  }

  ghost predicate Lacks(g: Document, seg: string, m: Id) {
    m < |g.nodes| && Acyclic(g, m) && Plain(g, Some(m), seg).None?
  }

  /** What has been seen below rank r lacks the key; what is still being searched lies at
      r or above. */
  ghost predicate SeenBelow(g: Document, seg: string, seen: set<Id>, r: nat) {
    forall m :: m in seen && Acyclic(g, m) && Rank(g, m) < r ==> Lacks(g, seg, m)
  }

  ghost predicate NewLack(g: Document, seg: string, before: set<Id>, after: set<Id>) {
    forall m :: m in after && m !in before ==> Lacks(g, seg, m)
  }

  lemma {:induction false} SearchIsPlainFrom(g: Document, n: Option<Id>, seg: string, seen: set<Id>, r: nat)
    requires g.Has(n) && (n.Some? ==> Acyclic(g, n.value) && Rank(g, n.value) < r)
    requires SeenBelow(g, seg, seen, r)
    ensures Find(g, n, seg, seen).hit == Plain(g, n, seg)
    ensures Find(g, n, seg, seen).hit.None? ==> NewLack(g, seg, seen, Find(g, n, seg, seen).seen)
    decreases |g.Ids() - seen|, 0
  {
    hide Followed, SourcesAt, EntriesAt, Explicit, Merges, Acyclic, Rank, PlainOfSources, FindInSources;
    if n.Some? {
      if n.value !in seen {
        assert n.value in g.Ids() - seen;
        assert g.Ids() - (seen + {n.value}) == (g.Ids() - seen) - {n.value};
        EverySourceMerges(g, n.value);
        SourcesArePlain(g, n.value, SourcesAt(g, n.value), seg, seen + {n.value});
      } else {
        assert Lacks(g, seg, n.value);
      }
    }
  }

  lemma {:induction false} SourcesArePlain(g: Document, n: Id, sources: seq<Option<Id>>, seg: string, seen: set<Id>)
    requires n < |g.nodes| && Acyclic(g, n)
    requires forall s <- sources :: g.Has(s) && MergesInto(g, n, s)
    requires SeenBelow(g, seg, seen, Rank(g, n))
    ensures FindInSources(g, sources, seg, seen).hit == PlainOfSources(g, n, sources, seg)
    ensures FindInSources(g, sources, seg, seen).hit.None? ==>
              NewLack(g, seg, seen, FindInSources(g, sources, seg, seen).seen)
    decreases |g.Ids() - seen|, |sources|
  {
    hide Followed, MergesInto, Find, Plain, Acyclic, Rank;
    if sources != [] {
      var d := Followed(g, sources[0]);
      SourceDrops(g, n, sources[0]);
      var o := Find(g, d.out, seg, seen);
      SearchIsPlainFrom(g, d.out, seg, seen, Rank(g, n));
      SeenShrinks(g.Ids(), seen, o.seen);
      if o.hit.None? {
        SourcesArePlain(g, n, sources[1..], seg, o.seen);
      }
    }
  }

  /** Where no chain of merges from n closes on itself, the search returns what the merge rule
      says: the same value, the same key and the same alias. */
  lemma SearchIsPlain(g: Document, n: Id, seg: string)
    requires n < |g.nodes| && Acyclic(g, n)
    ensures Find(g, Some(n), seg, {}).hit == Plain(g, Some(n), seg)
  {
    SearchIsPlainFrom(g, Some(n), seg, {}, Rank(g, n) + 1);
  }
}
