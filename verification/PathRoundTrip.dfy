/** What the client prints the server parses: the laws that span both sides of a route. */
module PathRoundTrip {
  import opened Options
  import opened UriPaths
  import opened Templates
  import opened ProxyHandler
  import opened RequestRouter

  lemma RoutePathIsFull(link: Template, t: Template)
    requires link.WellFormed() && t.WellFormed()
    ensures RoutePath(link, t) == FullPath(link.segments + t.segments)
    ensures AllWellFormed(link.segments + t.segments)
  {
    BuiltPath(link, t);
  }

  // ---- Index alignment ----

  ghost predicate LastAt(tokens: seq<string>, token: string, i: int) {
    && 0 <= i < |tokens| && tokens[i] == token
    && forall j | i < j < |tokens| :: tokens[j] != token
  }

  /** The index map holds, for exactly the names that occur, the position of the last occurrence. */
  lemma {:induction false} IndexIsLast(tokens: seq<string>, name: string)
    ensures name in IndexTokens(tokens) <==> "{" + name + "}" in tokens
    ensures name in IndexTokens(tokens) ==> LastAt(tokens, "{" + name + "}", IndexTokens(tokens)[name])
  {
    if tokens != [] {
      var (front, last) := (tokens[..|tokens| - 1], tokens[|tokens| - 1]);
      IndexIsLast(front, name);
      assert tokens == front + [last];
      if |last| > 1 && IsParamToken(last) {
        assert last == "{" + last[1..|last| - 1] + "}";
        assert last[1..|last| - 1] == name <==> last == "{" + name + "}";
      }
    }
  }

  lemma TokenCharacters(s: string, t: string, c: char)
    requires t in JavaSplit(s) && c in t && c != '/'
    ensures c in s
  {
    if '/' in s {
      DropKeepsPrefix(Tokens(s));
      assert t in Tokens(s);
      JoinOfTokens(s);
      CharOfJoin(Tokens(s), c);
    }
  }

  /** Of any path, the index map has exactly the names that stand as whole tokens, each at its last place. */
  lemma ParamIndicesIs(uri: string, name: string)
    ensures ParamIndices(None) == map[]
    ensures name in ParamIndices(Some(uri)) <==> "{" + name + "}" in JavaSplit(uri)
    ensures name in ParamIndices(Some(uri)) ==>
              LastAt(JavaSplit(uri), "{" + name + "}", ParamIndices(Some(uri))[name])
  {
    hide JavaSplit, IndexTokens;
    IndexIsLast(JavaSplit(uri), name);
    var token := "{" + name + "}";
    assert token[0] == '{' && token[|token| - 1] == '}';
    if token in JavaSplit(uri) {
      TokenCharacters(uri, token, '{');
      TokenCharacters(uri, token, '}');
    }
  }

  lemma ParamsOfTemplate(t: Template, name: string)
    requires t.WellFormed() && '/' !in name && BraceFree(name)
    ensures var tokens := JavaSplit(t.Text());
            && (name in ParamIndices(Some(t.Text())) <==> Param(name) in t.segments)
            && (name in ParamIndices(Some(t.Text())) ==>
                  LastAt(tokens, "{" + name + "}", ParamIndices(Some(t.Text()))[name]))
  {
    var tokens := JavaSplit(t.Text());
    SplitText(t);
    IndexIsLast(tokens, name);
    ParamIsToken(t.segments, name);
    if Param(name) in t.segments {
      TextHasBraces(t);
    }
    assert "{" + name + "}" in tokens <==> "{" + name + "}" in Texts(t.segments);
  }

  /** Only the parameter itself has its text. */
  lemma TextOfParam(g: Segment, name: string)
    requires g.WellFormed() && BraceFree(name) && g.Text() == "{" + name + "}"
    ensures g == Param(name)
  {
    ParamTokens(g);
    assert g.Text()[1..|g.Text()| - 1] == name;
  }

  lemma ParamIsToken(segments: seq<Segment>, name: string)
    requires AllWellFormed(segments) && BraceFree(name)
    ensures Param(name) in segments <==> "{" + name + "}" in Texts(segments)
  {
    if Param(name) in segments {
      var i :| 0 <= i < |segments| && segments[i] == Param(name);
      assert Texts(segments)[i] == "{" + name + "}";
    }
    if "{" + name + "}" in Texts(segments) {
      var i :| 0 <= i < |segments| && Texts(segments)[i] == "{" + name + "}";
      assert segments[i] in segments;
      TextOfParam(segments[i], name);
    }
  }

  lemma TextHasBraces(t: Template)
    requires t.WellFormed() && HasParam(t.segments)
    ensures '{' in t.Text() && '}' in t.Text()
  {
    hide Join;
    BracesMeanParam(t.segments, '{');
    BracesMeanParam(t.segments, '}');
  }

  /** Where the server looks for a parameter: its index in the method's template plus the offset. */
  function Position(link: Template, t: Template, name: string): int {
    IndexOf(Some(t.Text()), name) + Offset(RoutePath(link, t), Some(t.Text()))
  }

  /** The last occurrence is the same one with or without tokens in front. */
  lemma LastBehind(front: seq<string>, tokens: seq<string>, token: string, i: int)
    requires 0 <= i < |tokens|
    ensures LastAt(front + tokens, token, |front| + i) <==> LastAt(tokens, token, i)
  {
    var all := front + tokens;
    assert forall j | |front| <= j < |all| :: all[j] == tokens[j - |front|];
    if LastAt(all, token, |front| + i) {
      forall j | i < j < |tokens| ensures tokens[j] != token {
        assert all[|front| + j] == tokens[j];
      }
    }
  }

  /** The last occurrence in the tokens of a template, seen from the tokens of the full path. */
  lemma LastIsShifted(lead: seq<string>, link: seq<string>, tokens: seq<string>, token: string, i: int)
    requires token != "" && LastAt(lead + tokens, token, i) && (lead == [""] || lead == [])
    ensures LastAt([""] + (link + tokens), token, i + |link| + 1 - |lead|)
    ensures LastAt(tokens, token, i - |lead|)
  {
    LastBehind(lead, tokens, token, i - |lead|);
    LastBehind([""] + link, tokens, token, i - |lead|);
    assert [""] + link + tokens == [""] + (link + tokens);
  }

  /**
   Index plus offset is the position of the parameter's last occurrence in the full path,
   whether or not the method's template starts or ends with a slash.
   */
  lemma IndexAlignment(link: Template, t: Template, name: string)
    requires link.WellFormed() && t.WellFormed() && Param(name) in t.segments
    ensures LastAt(JavaSplit(RoutePath(link, t)), "{" + name + "}", Position(link, t, name))
    ensures LastAt(Texts(t.segments), "{" + name + "}", Position(link, t, name) - |link.segments| - 1)
  {
    hide JavaSplit, Join, Tokens, Texts, IndexTokens, BuildUriPath, Template.Text;
    assert Param(name).WellFormed();
    ParamsOfTemplate(t, name);
    SplitText(t);
    BuiltPath(link, t);
    TextsAppend(link.segments, t.segments);
    var lead := if t.leading then [""] else [];
    LastIsShifted(lead, Texts(link.segments), Texts(t.segments), "{" + name + "}", ParamIndices(Some(t.Text()))[name]);
  }

  /** Every request a route accepts has a value for every parameter its template names. */
  lemma AcceptedHasValues(link: Template, t: Template, name: string, path: string)
    requires link.WellFormed() && t.WellFormed() && Param(name) in t.segments
    requires Accepts(NewUriMatcher(RoutePath(link, t)), path)
    ensures 0 <= Position(link, t, name) < |JavaSplit(path)|
    ensures Lookup(RoutePath(link, t), Some(t.Text()), name, path) ==
            Some(JavaSplit(path)[Position(link, t, name)])
  {
    hide JavaSplit, Join, Texts, BuildUriPath, Template.Text, Accepts, NormalizeUriPath, NewUriMatcher, LastAt;
    var all := link.segments + t.segments;
    RoutePathIsFull(link, t);
    IndexAlignment(link, t, name);
    PositionInBounds(link, t, name);
    assert Param(name) in all;
    AcceptedSplits(all, path);
  }

  lemma PositionInBounds(link: Template, t: Template, name: string)
    requires LastAt(Texts(t.segments), "{" + name + "}", Position(link, t, name) - |link.segments| - 1)
    ensures |link.segments| < Position(link, t, name) < 1 + |link.segments + t.segments|
  {
  }

  /** The segments of a route: the service link's, then the method's if it has a path of its own. */
  function RouteSegments(link: Template, t: Option<Template>): seq<Segment> {
    link.segments + (if t.Some? then t.value.segments else [])
  }

  lemma RouteIsFull(path: string, uriPath: Option<string>, link: Template, t: Option<Template>)
    requires IsRoute(path, uriPath, link, t)
    ensures path == FullPath(RouteSegments(link, t)) && AllWellFormed(RouteSegments(link, t))
  {
    hide JavaSplit, Join, Texts, Template.Text;
    if t.Some? {
      RoutePathIsFull(link, t.value);
    } else {
      NormalizedText(link);
      assert link.segments + [] == link.segments;
      assert FullPath(link.segments) + "" == FullPath(link.segments);
    }
  }

  /**
   A path parameter of the method that its path does not name never comes out null: it gets the
   last token of the service link, or the one before it when the method's path starts with a
   slash; below a link of one segment that is the empty token in front of it.
   */
  lemma UndeclaredIsNeverNull(routePath: string, uriPath: Option<string>, link: Template, t: Option<Template>,
                              name: string, path: string)
    requires IsRoute(routePath, uriPath, link, t)
    requires t.Some? ==> Param(name) !in t.value.segments && '/' !in name && BraceFree(name)
    requires Accepts(NewUriMatcher(routePath), path)
    ensures var (tokens, value) := (JavaSplit(NormalizeUriPath(Some(path))), Lookup(routePath, uriPath, name, path));
            && |tokens| == 1 + |RouteSegments(link, t)|
            && value == Some(tokens[LinkTokens(link, t) - 1])
            && (LinkTokens(link, t) == 1 ==> value == Some(""))
  {
    hide JavaSplit, Join, Texts, IndexTokens, BuildUriPath, Template.Text, Accepts, NormalizeUriPath, NewUriMatcher;
    RouteIsFull(routePath, uriPath, link, t);
    if t.Some? {
      ParamsOfTemplate(t.value, name);
    }
    AcceptedSplits(RouteSegments(link, t), path);
    AcceptedIsRooted(RouteSegments(link, t), path);
    OffsetOfRoute(routePath, uriPath, link, t);
  }

  // ---- The round trip ----

  /** The path the client requests: its base is the normalised service link. */
  function RequestPath(link: Template, t: Template, values: map<string, string>): string {
    BuildUriPath(Some(NormalizeUriPath(Some(link.Text()))), Some(t.Bind(values).Text()))
  }

  /** The client's path: built from the link and the template with its parameters substituted. */
  lemma RequestIsBuilt(link: Template, t: Template, params: seq<Parameter>)
    requires link.WellFormed() && t.WellFormed() && PlainParams(params)
    ensures var built := SubstituteAll(Some(t.Text()), params);
            && built.Built?
            && BuildUriPath(Some(NormalizeUriPath(Some(link.Text()))), built.uri) ==
               RequestPath(link, t, FirstValues(params))
  {
    PlainAtOnce(t, params);
  }

  lemma RequestTokens(link: Template, t: Template, values: map<string, string>)
    requires link.WellFormed() && t.WellFormed() && PlainValues(values)
    ensures RequestPath(link, t, values) == FullPath(link.segments + BindAll(t.segments, values))
    ensures AllWellFormed(link.segments + BindAll(t.segments, values))
  {
    var base := Template(true, link.segments, false);
    NormalizedText(link);
    assert base.Text() == NormalizeUriPath(Some(link.Text()));
    BoundIsWellFormed(t, values);
    RoutePathIsFull(base, t.Bind(values));
  }

  /** The route accepts what the client built. */
  lemma RequestIsAccepted(link: Template, t: Template, values: map<string, string>)
    requires link.WellFormed() && t.WellFormed() && PlainValues(values)
    ensures Accepts(NewUriMatcher(RoutePath(link, t)), RequestPath(link, t, values))
  {
    hide JavaSplit, Join, Tokens, Texts, NormalizeUriPath, BuildUriPath, NewUriMatcher, Template.Text;
    var (all, sent) := (link.segments + t.segments, link.segments + BindAll(t.segments, values));
    RoutePathIsFull(link, t);
    RequestTokens(link, t, values);
    if HasParam(all) {
      BoundFits(link.segments, t.segments, values);
      TextsAreTokens(sent);
      DynamicAccepts(all, Texts(sent));
    } else {
      forall i | 0 <= i < |t.segments| ensures t.segments[i].Bind(values) == t.segments[i] {
        assert t.segments[i] in all;
      }
      assert sent == all;
      MatcherOf(all);
      FullPathSplits(all);
    }
  }

  lemma BoundFits(link: seq<Segment>, segments: seq<Segment>, values: map<string, string>)
    requires AllWellFormed(link + segments)
    ensures var (all, sent) := (link + segments, Texts(link + BindAll(segments, values)));
            |sent| == |all| && forall i | 0 <= i < |all| :: Fits(all[i].Text(), sent[i])
  {
    var all := link + segments;
    forall i | 0 <= i < |all| ensures Fits(all[i].Text(), Texts(link + BindAll(segments, values))[i]) {
      assert all[i] in all;
      ParamTokens(all[i]);
    }
  }

  /**
   For every well-formed template, service link and plain values: the path the client builds
   by substituting its parameters one at a time is accepted by the server's matcher, and the
   server's lookup gives every parameter the template names the value the client passed for it.
   */
  lemma RoundTrip(link: Template, t: Template, params: seq<Parameter>, name: string)
    requires link.WellFormed() && t.WellFormed() && PlainParams(params)
    requires Param(name) in t.segments
    ensures var built := SubstituteAll(Some(t.Text()), params);
            && built.Built?
            && var path := BuildUriPath(Some(NormalizeUriPath(Some(link.Text()))), built.uri);
               && Accepts(NewUriMatcher(RoutePath(link, t)), path)
               && Lookup(RoutePath(link, t), Some(t.Text()), name, path) ==
                  Some(if name in FirstValues(params) then FirstValues(params)[name] else "{" + name + "}")
  {
    hide JavaSplit, Join, Texts, BuildUriPath, NormalizeUriPath, Lookup, SubstituteAll, Accepts;
    hide Template.Text, Position;
    var values := FirstValues(params);
    FirstValuesArePlain(params);
    RequestIsBuilt(link, t, params);
    RequestIsAccepted(link, t, values);
    AcceptedHasValues(link, t, name, RequestPath(link, t, values));
    RequestToken(link, t, values, name);
  }

  /** A method without a path of its own is reached at the service link itself. */
  lemma LinkIsAccepted(link: Template)
    requires link.WellFormed()
    ensures Accepts(NewUriMatcher(BuildUriPath(Some(link.Text()), None)),
                    BuildUriPath(Some(NormalizeUriPath(Some(link.Text()))), None))
  {
    hide JavaSplit, Join, Tokens, Template.Text;
    var path := FullPath(link.segments);
    NormalizedText(link);
    FullPathSplits(link.segments);
    assert path + "" == path;
    MatcherOf(link.segments);
  }

  /** The token the client sends at a parameter's position. */
  lemma RequestToken(link: Template, t: Template, values: map<string, string>, name: string)
    requires link.WellFormed() && t.WellFormed() && PlainValues(values) && Param(name) in t.segments
    ensures 0 <= Position(link, t, name) < |JavaSplit(RequestPath(link, t, values))|
    ensures JavaSplit(RequestPath(link, t, values))[Position(link, t, name)] ==
            if name in values then values[name] else "{" + name + "}"
  {
    hide JavaSplit, Join, BuildUriPath, Template.Text, Position, RequestPath, FullPath, Tokens;
    var sent := link.segments + BindAll(t.segments, values);
    RequestTokens(link, t, values);
    FullPathSplits(sent);
    IndexAlignment(link, t, name);
    var k := Position(link, t, name) - |link.segments| - 1;
    var g := t.segments[k];
    assert Texts(t.segments)[k] == g.Text();
    assert g in t.segments && BraceFree(name) by {
      assert Param(name).WellFormed();
    }
    TextOfParam(g, name);
    assert Texts(sent)[k + |link.segments|] == sent[k + |link.segments|].Text() == g.Bind(values).Text();
  }

  // ---- Route overlap ----

  ghost predicate Compatible(g: Segment, h: Segment) {
    g == h || g.Param? || h.Param?
  }

  function Shared(a: seq<Segment>, b: seq<Segment>): seq<string>
    requires |a| == |b|
  {
    seq(|a|, i requires 0 <= i < |a| =>
      if a[i].Literal? then a[i].text else if b[i].Literal? then b[i].text else "x")
  }

  lemma FitsSegment(g: Segment, token: string)
    requires g.WellFormed()
    ensures Fits(g.Text(), token) <==> g.Param? || g.Text() == token
  {
    ParamTokens(g);
  }

  lemma DynamicAccepts(a: seq<Segment>, tokens: seq<string>)
    requires AllWellFormed(a) && HasParam(a)
    requires |tokens| == |a| && NonEmpty(tokens) && SlashFree(tokens)
    requires forall i | 0 <= i < |a| :: Fits(a[i].Text(), tokens[i])
    ensures Accepts(NewUriMatcher(FullPath(a)), "/" + Join(tokens))
  {
    hide JavaSplit, Join, Tokens, NewUriMatcher;
    MatcherOf(a);
    TokensOfRooted(tokens);
    assert tokens[|tokens| - 1] in tokens;
    SplitOfTokens("/" + Join(tokens), [""] + tokens);
    RootedFits(Texts(a), tokens);
  }

  lemma RootedFits(expected: seq<string>, actual: seq<string>)
    requires |expected| == |actual| && forall i | 0 <= i < |actual| :: Fits(expected[i], actual[i])
    ensures var (e, a) := ([""] + expected, [""] + actual);
            forall i | 0 <= i < |a| :: Fits(e[i], a[i])
  {
  }

  lemma AcceptedFits(a: seq<Segment>, path: string)
    requires AllWellFormed(a) && HasParam(a) && Accepts(NewUriMatcher(FullPath(a)), path)
    ensures var tokens := JavaSplit(path);
            |tokens| == 1 + |a| && forall i | 0 <= i < |a| :: Fits(a[i].Text(), tokens[i + 1])
  {
    MatcherOf(a);
    hide JavaSplit, Join;
    var expected := [""] + Texts(a);
    forall i | 0 <= i < |a| ensures Fits(a[i].Text(), JavaSplit(path)[i + 1]) {
      assert Fits(expected[i + 1], JavaSplit(path)[i + 1]);
    }
  }

  /** Whatever a route accepts fits it token by token, once it is normalised. */
  lemma AcceptedTokensFit(a: seq<Segment>, path: string)
    requires AllWellFormed(a) && Accepts(NewUriMatcher(FullPath(a)), path)
    ensures var tokens := JavaSplit(NormalizeUriPath(Some(path)));
            |tokens| == 1 + |a| && forall i | 0 <= i < |a| :: Fits(a[i].Text(), tokens[i + 1])
  {
    hide JavaSplit, Join, NormalizeUriPath, Accepts, NewUriMatcher;
    AcceptedSplits(a, path);
    if HasParam(a) {
      AcceptedFits(a, path);
    }
  }

  /** A route, with or without parameters, accepts the path of any tokens that fit it. */
  lemma FittingIsAccepted(a: seq<Segment>, tokens: seq<string>)
    requires AllWellFormed(a) && |tokens| == |a| && NonEmpty(tokens) && SlashFree(tokens)
    requires forall i | 0 <= i < |a| :: Fits(a[i].Text(), tokens[i])
    ensures Accepts(NewUriMatcher(FullPath(a)), "/" + Join(tokens))
  {
    hide JavaSplit, Join, Tokens, NewUriMatcher, NormalizeUriPath;
    if HasParam(a) {
      DynamicAccepts(a, tokens);
    } else {
      forall i | 0 <= i < |a| ensures tokens[i] == Texts(a)[i] {
        assert a[i] in a;
        FitsSegment(a[i], tokens[i]);
      }
      assert tokens == Texts(a);
      MatcherOf(a);
      FullPathSplits(a);
    }
  }

  /**
   Two routes share a request path if and only if they have as many segments and, at each
   position, equal literals or at least one parameter.
   */
  lemma RouteOverlap(a: seq<Segment>, b: seq<Segment>)
    requires AllWellFormed(a) && AllWellFormed(b)
    ensures (exists path :: Accepts(NewUriMatcher(FullPath(a)), path) && Accepts(NewUriMatcher(FullPath(b)), path))
            <==> |a| == |b| && forall i | 0 <= i < |a| :: Compatible(a[i], b[i])
  {
    hide JavaSplit, Join, Accepts, NormalizeUriPath;
    if path :| Accepts(NewUriMatcher(FullPath(a)), path) && Accepts(NewUriMatcher(FullPath(b)), path) {
      AcceptedTokensFit(a, path);
      AcceptedTokensFit(b, path);
      var tokens := JavaSplit(NormalizeUriPath(Some(path)));
      forall i | 0 <= i < |a| ensures Compatible(a[i], b[i]) {
        assert a[i] in a && b[i] in b;
        FitsSegment(a[i], tokens[i + 1]);
        FitsSegment(b[i], tokens[i + 1]);
      }
    }
    if |a| == |b| && forall i | 0 <= i < |a| :: Compatible(a[i], b[i]) {
      SharedIsAccepted(a, b);
    }
  }

  lemma SharedIsAccepted(a: seq<Segment>, b: seq<Segment>)
    requires AllWellFormed(a) && AllWellFormed(b)
    requires |a| == |b| && forall i | 0 <= i < |a| :: Compatible(a[i], b[i])
    ensures Accepts(NewUriMatcher(FullPath(a)), "/" + Join(Shared(a, b)))
    ensures Accepts(NewUriMatcher(FullPath(b)), "/" + Join(Shared(a, b)))
  {
    var tokens := Shared(a, b);
    forall i | 0 <= i < |a|
      ensures tokens[i] != "" && '/' !in tokens[i] && Fits(a[i].Text(), tokens[i]) && Fits(b[i].Text(), tokens[i])
    {
      assert a[i] in a && b[i] in b && Compatible(a[i], b[i]);
      FitsSegment(a[i], tokens[i]);
      FitsSegment(b[i], tokens[i]);
    }
    FittingIsAccepted(a, tokens);
    FittingIsAccepted(b, tokens);
  }
}
