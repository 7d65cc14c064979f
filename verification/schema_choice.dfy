/** Which configured schema a file gets: of all references with a matching glob, the one
    with the most specific glob, and of equally specific ones the first in order. */
module SchemaChoice {
  import opened Glob
  import opened Strings

  /** Path cleaning is a library's: any function of the path will do here. */
  type Clean = string -> string

  function Slashes(s: string): string { ReplaceAll(s, "\\", "/") }

  ghost predicate GlobAccepts(pattern: string, p: string, clean: Clean) {
    Accepts(Tokens(clean(Slashes(pattern))), clean(Slashes(p)))
  }

  method MatchGlob(pattern: string, p: string, clean: Clean) returns (ok: bool)
    ensures ok <==> GlobAccepts(pattern, p, clean)
  {
    ok := GlobMatch(clean(Slashes(pattern)), clean(Slashes(p)));
  }

  predicate StartsAnchored(g: string) { "/" <= g || "**" <= g }

  /** A glob that is not anchored also matches below any directory. */
  ghost predicate Matches(g: string, path: string, clean: Clean) {
    GlobAccepts(g, path, clean) || (!StartsAnchored(g) && GlobAccepts("**/" + g, path, clean))
  }

  /** How many characters of the glob are not stars. */
  function Specificity(g: string): nat {
    if g == "" then 0 else Specificity(g[..|g| - 1]) + if g[|g| - 1] != '*' then 1 else 0
  }

  method GlobSpecificity(g: string) returns (n: nat)
    ensures n == Specificity(g)
  {
    n := 0;
    for i := 0 to |g|
      invariant n == Specificity(g[..i])
    {
      assert g[..i + 1][..i] == g[..i];
      if g[i] != '*' {
        n := n + 1;
      }
    }
    assert g[..|g|] == g;
  }

  type Settings = map<string, seq<string>>

  ghost predicate Owns(schemas: Settings, ref: string, g: string, path: string, clean: Clean) {
    ref in schemas && g in schemas[ref] && Matches(g, path, clean)
  }

  ghost predicate OwnedBySome(schemas: Settings, path: string, clean: Clean) {
    exists ref, g :: Owns(schemas, ref, g, path, clean)
  }

  /** The reference owns a glob that is at least as specific as any that matches, and comes
      first among those that do. */
  ghost predicate Wins(schemas: Settings, ref: string, path: string, clean: Clean) {
    exists g :: Owns(schemas, ref, g, path, clean) &&
                forall r, h :: Owns(schemas, r, h, path, clean) ==>
                  Specificity(h) <= Specificity(g) && (Specificity(h) == Specificity(g) ==> NotAfter(ref, r))
  }

  ghost predicate Chosen(schemas: Settings, ref: string, path: string, clean: Clean) {
    if OwnedBySome(schemas, path, clean) then Wins(schemas, ref, path, clean) else ref == ""
  }

  /** The refs up to the k-th, and of its globs those up to the j-th, have been looked at,
      and (bestRef, bestScore) is the best of them. */
  ghost predicate BestSoFar(schemas: Settings, refs: seq<string>, k: nat, j: nat, path: string, clean: Clean,
                            bestRef: string, bestScore: int) {
    && (forall r <- refs :: r in schemas)
    && (forall a: nat, b: nat :: Looked(schemas, refs, k, j, a, b) && Matches(schemas[refs[a]][b], path, clean) ==>
          Specificity(schemas[refs[a]][b]) <= bestScore &&
          (Specificity(schemas[refs[a]][b]) == bestScore ==> NotAfter(bestRef, refs[a])))
    && (if bestScore == -1 then bestRef == ""
        else exists a: nat, b: nat :: Looked(schemas, refs, k, j, a, b) && refs[a] == bestRef
               && Matches(schemas[refs[a]][b], path, clean) && Specificity(schemas[refs[a]][b]) == bestScore)
  }

  ghost predicate Looked(schemas: Settings, refs: seq<string>, k: nat, j: nat, a: nat, b: nat) {
    && a < |refs| && refs[a] in schemas && b < |schemas[refs[a]]|
    && (a < k || (a == k && b < j))
  }

  lemma LookedNext(schemas: Settings, refs: seq<string>, k: nat, j: nat, a: nat, b: nat)
    requires k < |refs| && refs[k] in schemas && j < |schemas[refs[k]]|
    ensures Looked(schemas, refs, k, j + 1, a, b) <==> Looked(schemas, refs, k, j, a, b) || (a == k && b == j)
  {
  }

  lemma BestWithOneMore(schemas: Settings, refs: seq<string>, k: nat, j: nat, path: string, clean: Clean,
                        bestRef: string, bestScore: int)
    requires BestSoFar(schemas, refs, k, j, path, clean, bestRef, bestScore) && IsSorted(refs)
    requires k < |refs| && j < |schemas[refs[k]]|
    ensures var g := schemas[refs[k]][j];
            if Matches(g, path, clean) && Specificity(g) > bestScore
            then BestSoFar(schemas, refs, k, j + 1, path, clean, refs[k], Specificity(g))
            else BestSoFar(schemas, refs, k, j + 1, path, clean, bestRef, bestScore)
  {
    hide Matches, NotAfter, Specificity;
    var g := schemas[refs[k]][j];
    forall a: nat, b: nat
      ensures Looked(schemas, refs, k, j + 1, a, b) <==> Looked(schemas, refs, k, j, a, b) || (a == k && b == j)
    {
      LookedNext(schemas, refs, k, j, a, b);
    }
    NotAfterItself(refs[k]);
    if Matches(g, path, clean) && Specificity(g) > bestScore {
      assert Looked(schemas, refs, k, j + 1, k, j);
    } else if bestScore != -1 {
      var a: nat, b: nat :| Looked(schemas, refs, k, j, a, b) && refs[a] == bestRef
        && Matches(schemas[refs[a]][b], path, clean) && Specificity(schemas[refs[a]][b]) == bestScore;
      assert a < k ==> NotAfter(refs[a], refs[k]);
      assert Looked(schemas, refs, k, j + 1, a, b);
    }
  }

  lemma {:induction false} NotAfterItself(s: string)
    ensures NotAfter(s, s)
  {
    if s != "" {
      NotAfterItself(s[1..]);
    }
  }

  lemma NextRef(schemas: Settings, refs: seq<string>, k: nat, path: string, clean: Clean, bestRef: string,
                bestScore: int)
    requires k < |refs| && refs[k] in schemas
    requires BestSoFar(schemas, refs, k, |schemas[refs[k]]|, path, clean, bestRef, bestScore)
    ensures BestSoFar(schemas, refs, k + 1, 0, path, clean, bestRef, bestScore)
  {
    hide Matches, NotAfter, Specificity;
    forall a: nat, b: nat
      ensures Looked(schemas, refs, k + 1, 0, a, b) <==> Looked(schemas, refs, k, |schemas[refs[k]]|, a, b)
    {
    }
  }

  lemma BestIsChosen(schemas: Settings, refs: seq<string>, path: string, clean: Clean, bestRef: string, bestScore: int)
    requires BestSoFar(schemas, refs, |refs|, 0, path, clean, bestRef, bestScore)
    requires forall r <- schemas :: r in refs
    requires bestScore >= -1
    ensures Chosen(schemas, bestRef, path, clean)
  {
    hide Matches, NotAfter, Specificity;
    forall r, h | Owns(schemas, r, h, path, clean)
      ensures Specificity(h) <= bestScore && (Specificity(h) == bestScore ==> NotAfter(bestRef, r))
    {
      var a :| 0 <= a < |refs| && refs[a] == r;
      var b :| 0 <= b < |schemas[r]| && schemas[r][b] == h;
      assert Looked(schemas, refs, |refs|, 0, a, b);
    }
    if bestScore != -1 {
      var a: nat, b: nat :| Looked(schemas, refs, |refs|, 0, a, b) && refs[a] == bestRef
        && Matches(schemas[refs[a]][b], path, clean) && Specificity(schemas[refs[a]][b]) == bestScore;
      assert Owns(schemas, bestRef, schemas[refs[a]][b], path, clean);
    }
  }

  /** The references, collected in whatever order the settings are walked, in order. */
  method SortedRefs(schemas: Settings) returns (refs: seq<string>)
    ensures IsSorted(refs) && forall r :: r in refs <==> r in schemas
  {
    refs := [];
    var todo := schemas.Keys;
    while todo != {}
      invariant todo <= schemas.Keys
      invariant forall r :: r in refs <==> r in schemas.Keys - todo
    {
      var r :| r in todo;
      refs := refs + [r];
      todo := todo - {r};
    }
    SameElements(refs, Sorted(refs));
    refs := Sorted(refs);
  }

  /** Looks at the globs of one reference after those of the references before it. */
  method BestOfRef(schemas: Settings, refs: seq<string>, k: nat, norm: string, clean: Clean, bestRef: string,
                   bestScore: int)
    returns (ref: string, score: int)
    requires k < |refs| && IsSorted(refs) && bestScore >= -1
    requires BestSoFar(schemas, refs, k, 0, norm, clean, bestRef, bestScore)
    ensures score >= -1 && BestSoFar(schemas, refs, k + 1, 0, norm, clean, ref, score)
  {
    hide BestSoFar, Matches, Specificity, GlobAccepts;
    RefsAreSettings(schemas, refs, k, norm, clean, bestRef, bestScore);
    ref, score := bestRef, bestScore;
    var globs := schemas[refs[k]];
    for j := 0 to |globs|
      invariant score >= -1
      invariant BestSoFar(schemas, refs, k, j, norm, clean, ref, score)
    {
      BestWithOneMore(schemas, refs, k, j, norm, clean, ref, score);
      var matched := MatchesGlob(globs[j], norm, clean);
      if matched {
        var n := GlobSpecificity(globs[j]);
        if n > score {
          score := n;
          ref := refs[k];
        }
      }
    }
    NextRef(schemas, refs, k, norm, clean, ref, score);
  }

  lemma RefsAreSettings(schemas: Settings, refs: seq<string>, k: nat, norm: string, clean: Clean, bestRef: string,
                        bestScore: int)
    requires k < |refs| && BestSoFar(schemas, refs, k, 0, norm, clean, bestRef, bestScore)
    ensures refs[k] in schemas
  {
    assert refs[k] in refs;
  }

  method MatchesGlob(g: string, norm: string, clean: Clean) returns (matched: bool)
    ensures matched <==> Matches(g, norm, clean)
  {
    matched := MatchGlob(g, norm, clean);
    if !matched && !StartsAnchored(g) {
      matched := MatchGlob("**/" + g, norm, clean);
    }
  }

  method MatchSettings(schemas: Settings, docPath: string, sep: char, clean: Clean) returns (ref: string)
    ensures docPath == "" ==> ref == ""
    ensures docPath != "" ==> Chosen(schemas, ref, ReplaceAll(docPath, [sep], "/"), clean)
  {
    hide BestSoFar, Chosen;
    if docPath == "" {
      return "";
    }
    var norm := ReplaceAll(docPath, [sep], "/");
    var refs := SortedRefs(schemas);
    NothingLooked(schemas, refs, norm, clean);
    var bestRef: string, bestScore: int := "", -1;
    for k := 0 to |refs|
      invariant bestScore >= -1
      invariant BestSoFar(schemas, refs, k, 0, norm, clean, bestRef, bestScore)
    {
      bestRef, bestScore := BestOfRef(schemas, refs, k, norm, clean, bestRef, bestScore);
    }
    BestIsChosen(schemas, refs, norm, clean, bestRef, bestScore);
    return bestRef;
  }

  lemma NothingLooked(schemas: Settings, refs: seq<string>, norm: string, clean: Clean)
    requires forall r <- refs :: r in schemas
    ensures BestSoFar(schemas, refs, 0, 0, norm, clean, "", -1)
  {
  }

  lemma SameElements(a: seq<string>, b: seq<string>)
    requires multiset(a) == multiset(b)
    ensures forall x :: x in a <==> x in b
  {
    assert forall x :: x in a <==> x in multiset(a);
    assert forall x :: x in b <==> x in multiset(b);
  }

  /** There is one choice: in whatever order the settings are walked, the same reference is
      returned. */
  lemma ChoiceIsUnique(schemas: Settings, a: string, b: string, path: string, clean: Clean)
    requires Chosen(schemas, a, path, clean) && Chosen(schemas, b, path, clean)
    ensures a == b
  {
    hide Matches, NotAfter, Specificity;
    if OwnedBySome(schemas, path, clean) {
      var g :| Owns(schemas, a, g, path, clean) &&
               forall r, h :: Owns(schemas, r, h, path, clean) ==>
                 Specificity(h) <= Specificity(g) && (Specificity(h) == Specificity(g) ==> NotAfter(a, r));
      var k :| Owns(schemas, b, k, path, clean) &&
               forall r, h :: Owns(schemas, r, h, path, clean) ==>
                 Specificity(h) <= Specificity(k) && (Specificity(h) == Specificity(k) ==> NotAfter(b, r));
      NotAfterAntisymmetric(a, b);
    }
  }

  /** With no empty reference among the settings, an empty answer means that no glob
      matches, and the other way round. */
  lemma EmptyMeansNoMatch(schemas: Settings, ref: string, path: string, clean: Clean)
    requires "" !in schemas && Chosen(schemas, ref, path, clean)
    ensures ref == "" <==> !OwnedBySome(schemas, path, clean)
  {
  }
}
