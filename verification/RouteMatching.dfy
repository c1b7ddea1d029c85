/** Exactly which request paths a route accepts, as texts. */
module RouteMatching {
  import opened Options
  import opened UriPaths
  import opened Templates
  import opened RequestRouter
  import opened PathRoundTrip

  /** A string that normalises to one rooted path has, or lacks, a slash at either end. */
  lemma NormalizedIff(p: string, body: string)
    requires body != "" && body[0] != '/' && body[|body| - 1] != '/'
    ensures NormalizeUriPath(Some(p)) == "/" + body <==>
            exists leading, trailing :: p == Framed(leading, body, trailing)
  {
    if NormalizeUriPath(Some(p)) == "/" + body {
      assert p != "";
      var trailing := p[|p| - 1] == '/';
      var stripped := if trailing then p[..|p| - 1] else p;
      var leading := stripped != "" && stripped[0] == '/';
      assert p == if trailing then stripped + "/" else stripped;
      assert stripped == if leading then "/" + body else body by {
        assert !leading ==> ("/" + stripped)[1..] == ("/" + body)[1..];
      }
      FrameIs(leading, body, trailing, stripped);
    }
    if leading, trailing :| p == Framed(leading, body, trailing) {
      NormalizedFrame(leading, body, trailing);
    }
  }

  lemma FrameIs(leading: bool, body: string, trailing: bool, start: string)
    requires start == if leading then "/" + body else body
    ensures Framed(leading, body, trailing) == if trailing then start + "/" else start
  {
    assert "" + body == body;
  }

  /**
   A route without parameters accepts its own text with or without a slash at either end, and
   nothing else.
   */
  lemma ExactAcceptsIff(a: seq<Segment>, path: string)
    requires AllWellFormed(a) && !HasParam(a)
    ensures Accepts(NewUriMatcher(FullPath(a)), path) <==> NormalizeUriPath(Some(path)) == FullPath(a)
    ensures Accepts(NewUriMatcher(FullPath(a)), path) <==>
            exists leading, trailing :: path == Framed(leading, Join(Texts(a)), trailing)
  {
    hide Join, JavaSplit, NormalizeUriPath, Framed;
    MatcherOf(a);
    TextsAreTokens(a);
    JoinEnds(Texts(a));
    NormalizedIff(path, Join(Texts(a)));
  }

  /**
   Any route text: with both braces in it, it is compared token by token, every token in braces
   standing for anything; otherwise the normalised path has to equal it.
   */
  lemma RouteAccepts(route: string, path: string)
    ensures '{' !in route || '}' !in route ==>
              (Accepts(NewUriMatcher(route), path) <==> NormalizeUriPath(Some(path)) == route)
    ensures '{' in route && '}' in route ==>
              (Accepts(NewUriMatcher(route), path) <==>
               && |JavaSplit(path)| == |JavaSplit(route)|
               && forall i | 0 <= i < |JavaSplit(route)| ::
                    var e := JavaSplit(route)[i];
                    e == JavaSplit(path)[i] || (e != "" && e[0] == '{' && e[|e| - 1] == '}'))
  {
  }

  // ---- Routes with parameters ----

  function Slashed(n: nat): string {
    seq(n, i => '/')
  }

  lemma {:induction false} TokensOfSlashed(s: string, n: nat)
    ensures Tokens(s + Slashed(n)) == Tokens(s) + Empties(n)
  {
    hide Tokens;
    if n == 0 {
      assert s + Slashed(0) == s && Tokens(s) + Empties(0) == Tokens(s);
    } else {
      TokensOfSlashed(s, n - 1);
      TokensOfTrailingSlash(s + Slashed(n - 1));
      assert s + Slashed(n) == s + Slashed(n - 1) + "/";
      assert Empties(n) == Empties(n - 1) + [""];
    }
  }

  lemma SameTokens(s: string, s': string)
    requires Tokens(s) == Tokens(s')
    ensures s == s'
  {
    JoinOfTokens(s);
    JoinOfTokens(s');
  }

  lemma {:induction false} DropEmpties(ts: seq<string>, n: nat)
    requires ts != [] && ts[|ts| - 1] != ""
    ensures DropTrailingEmpty(ts + Empties(n)) == ts
  {
    if n == 0 {
      assert ts + Empties(0) == ts;
    } else {
      DropEmpties(ts, n - 1);
      assert (ts + Empties(n))[..|ts + Empties(n)| - 1] == ts + Empties(n - 1);
    }
  }

  lemma SplitIsRooted(path: string, ts: seq<string>) returns (n: nat)
    requires ts != [] && SlashFree(ts) && JavaSplit(path) == [""] + ts
    ensures path == "/" + Join(ts) + Slashed(n)
  {
    n := SplitIs(path);
    hide Tokens, Join, Slashed, Empties, JavaSplit;
    assert |JavaSplit(path)| > 1;
    TokensOfRooted(ts);
    TokensOfSlashed("/" + Join(ts), n);
    SameTokens(path, "/" + Join(ts) + Slashed(n));
  }

  lemma SplitOfSlashed(start: string, ts: seq<string>, n: nat)
    requires start != "" && start[0] == '/' && Tokens(start) == ts && ts[|ts| - 1] != ""
    ensures JavaSplit(start + Slashed(n)) == ts
  {
    hide Tokens, Slashed, DropTrailingEmpty;
    TokensOfSlashed(start, n);
    DropEmpties(ts, n);
    assert (start + Slashed(n))[0] == '/';
  }

  lemma RootedSplits(ts: seq<string>, n: nat)
    requires ts != [] && SlashFree(ts) && ts[|ts| - 1] != ""
    ensures JavaSplit("/" + Join(ts) + Slashed(n)) == [""] + ts
  {
    hide Tokens, Join, Slashed, JavaSplit, SlashFree, DropTrailingEmpty, Empties;
    TokensOfRooted(ts);
    var (start, tokens) := ("/" + Join(ts), [""] + ts);
    assert start[0] == '/';
    assert tokens[|tokens| - 1] == ts[|ts| - 1];
    SplitOfSlashed(start, tokens, n);
  }

  /** The tokens stand at the route's segments: equal to its literals, and anything for its parameters. */
  ghost predicate Matches(a: seq<Segment>, ts: seq<string>) {
    && |ts| == |a| && SlashFree(ts) && (ts != [] ==> ts[|ts| - 1] != "")
    && forall i | 0 <= i < |a| :: a[i].Param? || (a[i].Literal? && ts[i] == a[i].text)
  }

  /**
   A route with parameters accepts exactly the rooted paths of tokens that stand at its segments,
   with any number of slashes behind; a parameter may stand for the empty token, unless it is last.
   */
  lemma DynamicAcceptsIff(a: seq<Segment>, path: string)
    requires AllWellFormed(a) && HasParam(a)
    ensures Accepts(NewUriMatcher(FullPath(a)), path) <==>
            exists ts, n :: Matches(a, ts) && path == "/" + Join(ts) + Slashed(n)
  {
    hide Tokens, Join, Slashed, JavaSplit, NewUriMatcher, Accepts;
    if Accepts(NewUriMatcher(FullPath(a)), path) {
      var ts := AcceptedMatches(a, path);
      var n := SplitIsRooted(path, ts);
    }
    if ts, n :| Matches(a, ts) && path == "/" + Join(ts) + Slashed(n) {
      RootedSplits(ts, n);
      MatchIsAccepted(a, ts, path);
    }
  }

  lemma AcceptedMatches(a: seq<Segment>, path: string) returns (ts: seq<string>)
    requires AllWellFormed(a) && HasParam(a) && Accepts(NewUriMatcher(FullPath(a)), path)
    ensures Matches(a, ts) && ts != [] && JavaSplit(path) == [""] + ts
  {
    hide Tokens, Join, DropTrailingEmpty;
    MatcherOf(a);
    AcceptedFits(a, path);
    var tokens := JavaSplit(path);
    var n := SplitIs(path);
    JoinOfTokens(path);
    ts := tokens[1..];
    assert Fits(([""] + Texts(a))[0], tokens[0]);
    forall t | t in ts ensures '/' !in t {
      assert t in Tokens(path);
    }
    forall i | 0 <= i < |a| ensures a[i].Param? || (a[i].Literal? && ts[i] == a[i].text) {
      assert a[i] in a;
      FitsSegment(a[i], ts[i]);
    }
  }

  lemma MatchIsAccepted(a: seq<Segment>, ts: seq<string>, path: string)
    requires AllWellFormed(a) && HasParam(a) && Matches(a, ts) && JavaSplit(path) == [""] + ts
    ensures Accepts(NewUriMatcher(FullPath(a)), path)
  {
    hide JavaSplit, Join;
    MatcherOf(a);
    forall i | 0 <= i < |a| ensures Fits(Texts(a)[i], ts[i]) {
      assert a[i] in a;
      FitsSegment(a[i], ts[i]);
    }
    RootedFits(Texts(a), ts);
  }
}
