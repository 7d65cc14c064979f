/** Globs and the choice among them, told by the characters of the globs. */
module ChoiceLaws {
  import opened Glob
  import opened SchemaChoice
  import opened Strings

  // --- patterns ---

  /** What a pattern accepts, by what it starts with: nothing; another character than a star; a
      star, which takes what has no slash; two stars, which take anything, with or without a
      slash behind them. */
  lemma PatternLaw(c: char, pat: string, s: string)
    ensures Accepts(Tokens(""), s) <==> s == ""
    ensures c != '*' ==> (Accepts(Tokens([c] + pat), s) <==> s != "" && s[0] == c && Accepts(Tokens(pat), s[1..]))
    ensures !("*" <= pat) ==>
              (Accepts(Tokens("*" + pat), s) <==>
                 exists i: nat :: i <= |s| && '/' !in s[..i] && Accepts(Tokens(pat), s[i..]))
    ensures Accepts(Tokens("**/" + pat), s) <==> exists i: nat :: i <= |s| && Accepts(Tokens(pat), s[i..])
    ensures !("/" <= pat) ==>
              (Accepts(Tokens("**" + pat), s) <==> exists i: nat :: i <= |s| && Accepts(Tokens(pat), s[i..]))
  {
    hide Accepts, Tokens;
    NoTokens();
    AcceptsNothing(s);
    DoubleStarPattern(pat, s);
    if c != '*' {
      assert ([c] + pat)[1..] == pat;
      TokensOf([c] + pat);
      AcceptsLiteral(c, Tokens(pat), s);
    }
    if !("*" <= pat) {
      OneStar(pat, s);
    }
    if !("/" <= pat) {
      TwoStars(pat, s);
    }
  }

  lemma OneStar(pat: string, s: string)
    requires !("*" <= pat)
    ensures Accepts(Tokens("*" + pat), s) <==>
              exists i: nat :: i <= |s| && '/' !in s[..i] && Accepts(Tokens(pat), s[i..])
  {
    hide Accepts, Tokens;
    var whole := "*" + pat;
    assert whole[1..] == pat && (|whole| > 1 ==> whole[1] == pat[0]);
    TokensOf(whole);
    AcceptsFirst(Star, Tokens(pat), s);
    forall i: nat | i <= |s|
      ensures Fits(Star, s[..i]) <==> '/' !in s[..i]
    {
    }
  }

  lemma TwoStars(pat: string, s: string)
    requires !("/" <= pat)
    ensures Accepts(Tokens("**" + pat), s) <==> exists i: nat :: i <= |s| && Accepts(Tokens(pat), s[i..])
  {
    hide Accepts, Tokens;
    var whole := "**" + pat;
    assert whole[2..] == pat;
    TokensOf(whole);
    AcceptsFirst(DoubleStar, Tokens(pat), s);
    forall i: nat | i <= |s|
      ensures Fits(DoubleStar, s[..i])
    {
    }
  }

  // --- slashes ---

  /** The same text with every `from` turned into a slash. */
  predicate Turned(s: string, from: char, t: string) {
    |t| == |s| && forall k :: 0 <= k < |s| ==> t[k] == if s[k] == from then '/' else s[k]
  }

  lemma {:induction false} SlashesAreTurned(s: string, from: char)
    ensures Turned(s, from, ReplaceAll(s, [from], "/"))
  {
    if s != "" {
      SlashesAreTurned(s[1..], from);
      assert [from] <= s <==> s[0] == from;
    }
  }

  lemma OneTurned(s: string, from: char, a: string, b: string)
    requires Turned(s, from, a) && Turned(s, from, b)
    ensures a == b
  {
  }

  // --- which globs match ---

  /** Not from the root and not from anywhere. */
  predicate Unanchored(g: string) {
    g == "" || (g[0] != '/' && (g[0] != '*' || |g| == 1 || g[1] != '*'))
  }

  /** The pattern accepts the path, both with backslashes turned and cleaned. */
  ghost predicate PatternHits(pattern: string, path: string, clean: Clean) {
    exists g: string, p: string ::
      Turned(pattern, '\\', g) && Turned(path, '\\', p) && Accepts(Tokens(clean(g)), clean(p))
  }

  ghost predicate Hits(g: string, path: string, clean: Clean) {
    PatternHits(g, path, clean) || (Unanchored(g) && PatternHits("**/" + g, path, clean))
  }

  lemma HitsAre(pattern: string, path: string, clean: Clean)
    ensures GlobAccepts(pattern, path, clean) <==> PatternHits(pattern, path, clean)
  {
    hide Accepts, Tokens, Turned;
    SlashesAreTurned(pattern, '\\');
    SlashesAreTurned(path, '\\');
    if g: string, p: string :|
        Turned(pattern, '\\', g) && Turned(path, '\\', p) && Accepts(Tokens(clean(g)), clean(p)) {
      OneTurned(pattern, '\\', g, Slashes(pattern));
      OneTurned(path, '\\', p, Slashes(path));
    }
  }

  lemma MatchesAre(g: string, path: string, clean: Clean)
    ensures Matches(g, path, clean) <==> Hits(g, path, clean)
  {
    hide GlobAccepts, PatternHits;
    HitsAre(g, path, clean);
    HitsAre("**/" + g, path, clean);
    assert StartsAnchored(g) <==> !Unanchored(g);
  }

  // --- which one is chosen ---

  /** How many characters are not stars. */
  ghost function Literals(g: string): int { |g| - multiset(g)['*'] }

  lemma {:induction false} SpecificityIsLiterals(g: string)
    ensures Specificity(g) == Literals(g)
  {
    if g != "" {
      var init, last := g[..|g| - 1], g[|g| - 1];
      SpecificityIsLiterals(init);
      assert g == init + [last];
      assert multiset(g) == multiset(init) + multiset{last};
    }
  }

  ghost predicate Candidate(schemas: Settings, ref: string, g: string, path: string, clean: Clean) {
    ref in schemas && g in schemas[ref] && Hits(g, path, clean)
  }

  /** A reference with a matching glob against which no matching glob has more literals, and
      none as many under an earlier reference. */
  ghost predicate Best(schemas: Settings, ref: string, path: string, clean: Clean) {
    exists g :: Candidate(schemas, ref, g, path, clean) &&
                forall r, h :: Candidate(schemas, r, h, path, clean) ==>
                  Literals(h) < Literals(g) || (Literals(h) == Literals(g) && NotAfter(ref, r))
  }

  /** What is returned: the best, or nothing when no glob matches. */
  lemma ChosenIs(schemas: Settings, ref: string, path: string, clean: Clean)
    ensures Chosen(schemas, ref, path, clean) <==>
              if exists r, h :: Candidate(schemas, r, h, path, clean) then Best(schemas, ref, path, clean)
              else ref == ""
  {
    hide Matches, Hits, Specificity, Literals, NotAfter;
    forall r, h
      ensures Owns(schemas, r, h, path, clean) <==> Candidate(schemas, r, h, path, clean)
    {
      MatchesAre(h, path, clean);
    }
    forall h: string
      ensures Specificity(h) == Literals(h)
    {
      SpecificityIsLiterals(h);
    }
  }
}
