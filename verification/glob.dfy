/** Glob matching: `*` runs up to the next slash, `**` runs over anything, and a slash right
    after `**` is optional. */
module Glob {
  datatype Token = Literal(c: char) | Star | DoubleStar

  /** The pattern as a sequence of tokens. */
  function Tokens(pat: string): seq<Token>
    decreases |pat|
  {
    if pat == "" then []
    else if "**" <= pat then
      [DoubleStar] + Tokens(if "/" <= pat[2..] then pat[3..] else pat[2..])
    else if pat[0] == '*' then [Star] + Tokens(pat[1..])
    else [Literal(pat[0])] + Tokens(pat[1..])
  }

  predicate Fits(token: Token, piece: string) {
    match token
    case Literal(c) => piece == [c]
    case Star => '/' !in piece
    case DoubleStar => true
  }

  function Concat(pieces: seq<string>): string {
    if pieces == [] then "" else pieces[0] + Concat(pieces[1..])
  }

  ghost predicate Splits(tokens: seq<Token>, pieces: seq<string>, s: string) {
    && |pieces| == |tokens|
    && Concat(pieces) == s
    && forall k :: 0 <= k < |tokens| ==> Fits(tokens[k], pieces[k])
  }

  /** The text splits into pieces, one for each token. */
  ghost predicate Accepts(tokens: seq<Token>, s: string) {
    exists pieces: seq<string> :: Splits(tokens, pieces, s)
  }

  lemma AcceptsNothing(s: string)
    ensures Accepts([], s) <==> s == ""
  {
    assert s == "" ==> Splits([], [], s);
  }

  /** The first token takes a piece off the front. */
  lemma AcceptsFirst(token: Token, rest: seq<Token>, s: string)
    ensures Accepts([token] + rest, s) <==> exists i: nat :: i <= |s| && Fits(token, s[..i]) && Accepts(rest, s[i..])
  {
    var tokens := [token] + rest;
    if Accepts(tokens, s) {
      var pieces: seq<string> :| Splits(tokens, pieces, s);
      var i := |pieces[0]|;
      assert Concat(pieces) == pieces[0] + Concat(pieces[1..]);
      assert s[..i] == pieces[0] && s[i..] == Concat(pieces[1..]);
      assert tokens[0] == token;
      forall k | 0 <= k < |rest|
        ensures Fits(rest[k], pieces[1..][k])
      {
        assert tokens[k + 1] == rest[k];
      }
      assert Splits(rest, pieces[1..], s[i..]);
    }
    if i: nat :| i <= |s| && Fits(token, s[..i]) && Accepts(rest, s[i..]) {
      var pieces: seq<string> :| Splits(rest, pieces, s[i..]);
      var whole := [s[..i]] + pieces;
      assert whole[1..] == pieces;
      assert s == s[..i] + s[i..];
      forall k | 0 <= k < |tokens|
        ensures Fits(tokens[k], whole[k])
      {
        assert k > 0 ==> tokens[k] == rest[k - 1] && whole[k] == pieces[k - 1];
      }
      assert Splits(tokens, whole, s);
    }
  }

  lemma AcceptsLiteral(c: char, rest: seq<Token>, s: string)
    ensures Accepts([Literal(c)] + rest, s) <==> s != "" && s[0] == c && Accepts(rest, s[1..])
  {
    hide Accepts;
    AcceptsFirst(Literal(c), rest, s);
    if s != "" && s[0] == c && Accepts(rest, s[1..]) {
      assert s[..1] == [c];
      assert Fits(Literal(c), s[..1]) && Accepts(rest, s[1..]);
    }
  }

  lemma AcceptsRest(s: string)
    ensures Accepts([DoubleStar], s)
  {
    assert Splits([DoubleStar], [s], s) by {
      assert Concat([s][1..]) == "";
    }
  }

  lemma TokensOf(pat: string)
    requires pat != ""
    ensures "**" <= pat ==> Tokens(pat) == [DoubleStar] + Tokens(if "/" <= pat[2..] then pat[3..] else pat[2..])
    ensures !("**" <= pat) && pat[0] == '*' ==> Tokens(pat) == [Star] + Tokens(pat[1..])
    ensures pat[0] != '*' ==> Tokens(pat) == [Literal(pat[0])] + Tokens(pat[1..])
  {
  }

  /** Accepts a text if and only if it splits into pieces that fit the pattern's tokens. */
  method GlobMatch(pattern: string, text: string) returns (ok: bool)
    ensures ok <==> Accepts(Tokens(pattern), text)
    decreases |pattern|
  {
    hide Accepts, Tokens;
    NoTokens();
    var pat, s := pattern, text;
    while true
      invariant |pat| <= |pattern|
      invariant Accepts(Tokens(pattern), text) <==> Accepts(Tokens(pat), s)
      decreases |pat|
    {
      if pat == "" {
        AcceptsNothing(s);
        return s == "";
      }
      TokensOf(pat);
      if "**" <= pat {
        var rest := pat[2..];
        if "/" <= rest {
          rest := rest[1..];
          assert pat[2..][1..] == pat[3..];
        }
        if rest == "" {
          AcceptsRest(s);
          assert Tokens(pat) == [DoubleStar];
          return true;
        }
        AcceptsFirst(DoubleStar, Tokens(rest), s);
        for i := 0 to |s| + 1
          invariant forall k :: 0 <= k < i ==> !Accepts(Tokens(rest), s[k..])
        {
          var matched := GlobMatch(rest, s[i..]);
          if matched {
            assert Fits(DoubleStar, s[..i]);
            return true;
          }
        }
        return false;
      }
      if pat[0] == '*' {
        var rest := pat[1..];
        AcceptsFirst(Star, Tokens(rest), s);
        for i := 0 to |s| + 1
          invariant '/' !in s[..if i == 0 then 0 else i - 1]
          invariant forall k :: 0 <= k < i ==> !Accepts(Tokens(rest), s[k..])
        {
          if i > 0 && s[i - 1] == '/' {
            StarStops(s, i);
            return false;
          }
          assert i > 0 ==> s[..i] == s[..i - 1] + [s[i - 1]];
          var matched := GlobMatch(rest, s[i..]);
          if matched {
            assert Fits(Star, s[..i]);
            return true;
          }
        }
        return false;
      }
      AcceptsLiteral(pat[0], Tokens(pat[1..]), s);
      if s == "" || pat[0] != s[0] {
        return false;
      }
      pat := pat[1..];
      s := s[1..];
    }
  }

  lemma NoTokens()
    ensures Tokens("") == []
  {
  }

  /** A star cannot take a piece that holds a slash. */
  lemma StarStops(s: string, i: nat)
    requires 0 < i <= |s| && s[i - 1] == '/'
    ensures forall k: nat :: i <= k <= |s| ==> !Fits(Star, s[..k])
  {
    forall k: nat | i <= k <= |s|
      ensures !Fits(Star, s[..k])
    {
      assert s[..k][i - 1] == '/';
    }
  }

  // --- what patterns mean ---

  /** A pattern without stars accepts itself alone. */
  lemma {:induction false} PlainPattern(pat: string, s: string)
    requires '*' !in pat
    ensures Accepts(Tokens(pat), s) <==> s == pat
  {
    hide Accepts, Tokens;
    if pat == "" {
      NoTokens();
      AcceptsNothing(s);
    } else {
      TokensOf(pat);
      AcceptsLiteral(pat[0], Tokens(pat[1..]), s);
      if s != "" {
        PlainPattern(pat[1..], s[1..]);
        assert s == [s[0]] + s[1..] && pat == [pat[0]] + pat[1..];
      }
    }
  }

  /** A leading `**` with its slash accepts whatever ends in something the rest accepts. */
  lemma DoubleStarPattern(pat: string, s: string)
    ensures Accepts(Tokens("**/" + pat), s) <==> exists i: nat :: i <= |s| && Accepts(Tokens(pat), s[i..])
  {
    hide Accepts, Tokens;
    var whole := "**/" + pat;
    assert whole[..2] == "**" && whole[2..] == "/" + pat && whole[2..][..1] == "/" && whole[3..] == pat;
    TokensOf(whole);
    AcceptsFirst(DoubleStar, Tokens(pat), s);
    forall i: nat | i <= |s|
      ensures Fits(DoubleStar, s[..i])
    {
    }
  }
}
