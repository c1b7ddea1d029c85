/** The server's matching of request paths, and the recovery of path parameters from them. */
module RequestRouter {
  import opened Options
  import opened UriPaths
  import opened Templates

  /** A path without parameters is matched whole; one with parameters token by token. */
  datatype Matcher = Exact(path: string) | Dynamic(expected: seq<string>)

  predicate IsParamToken(t: string) {
    |t| > 0 && t[0] == '{' && t[|t| - 1] == '}'
  }

  function NewUriMatcher(pathWithParams: string): Matcher {
    if '{' in pathWithParams && '}' in pathWithParams then Dynamic(JavaSplit(pathWithParams))
    else Exact(pathWithParams)
  }

  predicate Fits(expected: string, actual: string) {
    expected == actual || IsParamToken(expected)
  }

  predicate Accepts(m: Matcher, path: string) {
    match m
    case Exact(p) => NormalizeUriPath(Some(path)) == p
    case Dynamic(expected) =>
      var actual := JavaSplit(path);
      |actual| == |expected| && forall i | 0 <= i < |actual| :: Fits(expected[i], actual[i])
  }

  method Test(m: Matcher, path: string) returns (matches: bool)
    ensures matches == Accepts(m, path)
    ensures m.Exact? ==> matches == (NormalizeUriPath(Some(path)) == m.path)
    ensures m.Dynamic? ==>
              matches == (|JavaSplit(path)| == |m.expected| && forall i | 0 <= i < |m.expected| ::
                            var e := m.expected[i];
                            e == JavaSplit(path)[i] || (e != "" && e[0] == '{' && e[|e| - 1] == '}'))
  {
    if m.Exact? {
      return NormalizeUriPath(Some(path)) == m.path;
    }
    var actualTokens := JavaSplit(path);
    if |actualTokens| != |m.expected| {
      return false;
    }
    for i := 0 to |actualTokens|
      invariant forall j | 0 <= j < i :: Fits(m.expected[j], actualTokens[j])
    {
      var pathParam := m.expected[i];
      if pathParam != actualTokens[i] {
        if |pathParam| > 0 && pathParam[0] == '{' && pathParam[|pathParam| - 1] == '}' {
          continue;
        }
        return false;
      }
    }
    return true;
  }

  // ---- Where a parameter stands ----

  function IndexTokens(tokens: seq<string>): map<string, int> {
    if tokens == [] then map[]
    else
      var (front, last) := (tokens[..|tokens| - 1], tokens[|tokens| - 1]);
      if IsParamToken(last) then IndexTokens(front)[last[1..|last| - 1] := |front|] else IndexTokens(front)
  }

  function ParamIndices(uri: Option<string>): map<string, int> {
    if uri.Some? && '{' in uri.value && '}' in uri.value then IndexTokens(JavaSplit(uri.value)) else map[]
  }

  method ParsePathParams(uri: Option<string>) returns (pathParams: map<string, int>)
    ensures pathParams == ParamIndices(uri)
  {
    pathParams := map[];
    if uri.Some? && '{' in uri.value && '}' in uri.value {
      var tokens := JavaSplit(uri.value);
      for i := 0 to |tokens|
        invariant pathParams == IndexTokens(tokens[..i])
      {
        assert tokens[..i + 1][..i] == tokens[..i];
        var curToken := tokens[i];
        if |curToken| > 0 && curToken[0] == '{' && curToken[|curToken| - 1] == '}' {
          pathParams := pathParams[curToken[1..|curToken| - 1] := i];
        }
      }
      assert tokens[..|tokens|] == tokens;
    }
  }

  function Offset(path: string, uriPath: Option<string>): int {
    |JavaSplit(path)| - (if uriPath.None? then 0 else |JavaSplit(uriPath.value)|)
  }

  /** The path a route is registered with: the service link and the method's template below it. */
  function RoutePath(link: Template, t: Template): string {
    BuildUriPath(Some(link.Text()), Some(t.Text()))
  }

  /** A method's route below a service link; `t` is missing when the method has no path of its own. */
  ghost predicate IsRoute(path: string, uriPath: Option<string>, link: Template, t: Option<Template>) {
    && link.WellFormed() && (t.Some? ==> t.value.WellFormed())
    && uriPath == (if t.Some? then Some(t.value.Text()) else None)
    && path == BuildUriPath(Some(link.Text()), uriPath)
  }

  /** How many tokens of a request path the service link adds in front of the method's own. */
  function LinkTokens(link: Template, t: Option<Template>): int {
    |link.segments| + (if t.Some? && t.value.leading then 0 else 1)
  }

  lemma OffsetIsLinkTokens(link: Template, t: Template)
    requires link.WellFormed() && t.WellFormed()
    ensures Offset(RoutePath(link, t), Some(t.Text())) == LinkTokens(link, Some(t))
  {
    hide JavaSplit, BuildUriPath, Template.Text;
    BuiltPath(link, t);
    SplitText(t);
  }

  lemma OffsetOfLink(link: Template)
    requires link.WellFormed()
    ensures Offset(BuildUriPath(Some(link.Text()), None), None) == LinkTokens(link, None)
  {
    hide JavaSplit, Template.Text, Join, Tokens;
    NormalizedText(link);
    FullPathSplits(link.segments);
    var path := FullPath(link.segments);
    assert path + "" == path;
  }

  /**
   The offset is the number of tokens the service link adds: its segments and the leading empty
   token, unless the method's template already starts with that one.
   */
  lemma OffsetOfRoute(path: string, uriPath: Option<string>, link: Template, t: Option<Template>)
    requires IsRoute(path, uriPath, link, t)
    ensures Offset(path, uriPath) == LinkTokens(link, t)
  {
    if t.Some? {
      OffsetIsLinkTokens(link, t.value);
    } else {
      OffsetOfLink(link);
    }
  }

  function PathValues(requestPath: string): map<int, string> {
    var tokens := JavaSplit(NormalizeUriPath(Some(requestPath)));
    map i | 0 <= i < |tokens| :: tokens[i]
  }

  function IndexOf(uriPath: Option<string>, name: string): int {
    if name in ParamIndices(uriPath) then ParamIndices(uriPath)[name] else -1
  }

  /** The value a path parameter of the method gets from a request; null when there is none. */
  function Lookup(path: string, uriPath: Option<string>, name: string, requestPath: string): Option<string> {
    var i := IndexOf(uriPath, name) + Offset(path, uriPath);
    if i in PathValues(requestPath) then Some(PathValues(requestPath)[i]) else None
  }

  /** The handler of one route: it fixes the offset once and looks parameters up in each request. */
  class RoutingOperationHandler {
    const path: string
    const uriPath: Option<string>
    const pathParamsVsUriIndex: map<string, int>
    var resourcePathOffset: int

    constructor (path: string, uriPath: Option<string>, pathParamsVsUriIndex: map<string, int>)
      requires pathParamsVsUriIndex == ParamIndices(uriPath)
      ensures this.path == path && this.uriPath == uriPath
      ensures this.pathParamsVsUriIndex == pathParamsVsUriIndex
    {
      this.path, this.uriPath, this.pathParamsVsUriIndex := path, uriPath, pathParamsVsUriIndex;
    }

    method Init()
      modifies this
      ensures resourcePathOffset == Offset(path, uriPath)
      ensures forall link, t | IsRoute(path, uriPath, link, t) :: resourcePathOffset == LinkTokens(link, t)
    {
      resourcePathOffset :=
        |JavaSplit(path)| - (if uriPath.None? then 0 else |JavaSplit(uriPath.value)|);
      forall link, t | IsRoute(path, uriPath, link, t) ensures resourcePathOffset == LinkTokens(link, t) {
        OffsetOfRoute(path, uriPath, link, t);
      }
    }

    method ParsePathValues(requestPath: string) returns (pathValues: map<int, string>)
      ensures pathValues == PathValues(requestPath)
      ensures var tokens := JavaSplit(NormalizeUriPath(Some(requestPath)));
              && (forall i :: i in pathValues <==> 0 <= i < |tokens|)
              && (forall i | i in pathValues :: pathValues[i] == tokens[i])
    {
      pathValues := map[];
      var tokens := JavaSplit(NormalizeUriPath(Some(requestPath)));
      for i := 0 to |tokens|
        invariant pathValues == map j | 0 <= j < i :: tokens[j]
      {
        pathValues := pathValues[i := tokens[i]];
      }
    }

    method FindPathInput(name: string, requestPath: string) returns (value: Option<string>)
      requires resourcePathOffset == Offset(path, uriPath)
      requires pathParamsVsUriIndex == ParamIndices(uriPath)
      ensures value == Lookup(path, uriPath, name, requestPath)
      ensures var tokens := JavaSplit(NormalizeUriPath(Some(requestPath)));
              var i := (if name in pathParamsVsUriIndex then pathParamsVsUriIndex[name] else -1) + resourcePathOffset;
              value == if 0 <= i < |tokens| then Some(tokens[i]) else None
    {
      var pathValues := ParsePathValues(requestPath);
      var index := if name in pathParamsVsUriIndex then pathParamsVsUriIndex[name] else -1;
      var i := index + resourcePathOffset;
      value := if i in pathValues then Some(pathValues[i]) else None;
    }
  }

  // ---- The tokens of well-formed segments ----

  lemma ParamTokens(g: Segment)
    requires g.WellFormed()
    ensures IsParamToken(g.Text()) <==> g.Param?
    ensures g.Param? ==> g.Text()[1..|g.Text()| - 1] == g.name
  {
  }

  lemma {:induction false} CharOfJoin(ts: seq<string>, c: char)
    requires c != '/'
    ensures c in Join(ts) <==> exists t :: t in ts && c in t
  {
    if |ts| == 1 {
      assert ts[0] in ts;
    } else if |ts| > 1 {
      CharOfJoin(ts[1..], c);
      assert ts == [ts[0]] + ts[1..];
      assert forall t :: t in ts <==> t == ts[0] || t in ts[1..];
      assert Join(ts) == ts[0] + "/" + Join(ts[1..]);
    }
  }

  ghost predicate HasParam(segments: seq<Segment>) {
    exists g :: g in segments && g.Param?
  }

  /** A text has braces exactly when some segment is a parameter. */
  lemma BracesMeanParam(segments: seq<Segment>, c: char)
    requires AllWellFormed(segments) && (c == '{' || c == '}')
    ensures c in Join(Texts(segments)) <==> HasParam(segments)
  {
    CharOfJoin(Texts(segments), c);
    if HasParam(segments) {
      var g :| g in segments && g.Param?;
      var i :| 0 <= i < |segments| && segments[i] == g;
      assert Texts(segments)[i] == g.Text() && c in g.Text();
      assert g.Text() in Texts(segments);
    } else {
      forall t | t in Texts(segments) ensures c !in t {
        var i :| 0 <= i < |segments| && Texts(segments)[i] == t;
        assert segments[i] in segments && segments[i].Literal?;
      }
    }
  }

  function FullPath(segments: seq<Segment>): string {
    "/" + Join(Texts(segments))
  }

  lemma FullPathSplits(segments: seq<Segment>)
    requires AllWellFormed(segments)
    ensures JavaSplit(FullPath(segments)) == [""] + Texts(segments)
    ensures NormalizeUriPath(Some(FullPath(segments))) == FullPath(segments)
  {
    var t := Template(true, segments, false);
    assert t.Text() == FullPath(segments);
    SplitText(t);
    NormalizedText(t);
  }

  /** The matcher of a well-formed path is dynamic exactly when it has a parameter. */
  lemma MatcherOf(segments: seq<Segment>)
    requires AllWellFormed(segments)
    ensures NewUriMatcher(FullPath(segments)) ==
            if HasParam(segments) then Dynamic([""] + Texts(segments)) else Exact(FullPath(segments))
  {
    BracesMeanParam(segments, '{');
    BracesMeanParam(segments, '}');
    FullPathSplits(segments);
  }

  /** What a dynamic route accepts starts with a slash, so normalising it keeps its tokens. */
  lemma AcceptedSplits(segments: seq<Segment>, path: string)
    requires AllWellFormed(segments) && Accepts(NewUriMatcher(FullPath(segments)), path)
    ensures |JavaSplit(path)| == 1 + |segments| || !HasParam(segments)
    ensures JavaSplit(NormalizeUriPath(Some(path))) ==
            if HasParam(segments) then JavaSplit(path) else [""] + Texts(segments)
  {
    MatcherOf(segments);
    FullPathSplits(segments);
    if HasParam(segments) {
      var expected := [""] + Texts(segments);
      assert Fits(expected[0], JavaSplit(path)[0]);
      StartsWithSlash(path);
      NormalizeKeepsTokens(path);
    }
  }

  /** The split of an accepted, normalised path starts with the empty token. */
  lemma AcceptedIsRooted(segments: seq<Segment>, path: string)
    requires AllWellFormed(segments) && Accepts(NewUriMatcher(FullPath(segments)), path)
    ensures [""] <= JavaSplit(NormalizeUriPath(Some(path)))
  {
    hide JavaSplit, Join, Tokens, NormalizeUriPath;
    MatcherOf(segments);
    AcceptedSplits(segments, path);
    if HasParam(segments) {
      assert Fits(([""] + Texts(segments))[0], JavaSplit(path)[0]);
    }
  }

  lemma {:induction false} DropKeepsPrefix(ts: seq<string>)
    ensures DropTrailingEmpty(ts) <= ts
  {
    if ts != [] && ts[|ts| - 1] == "" {
      DropKeepsPrefix(ts[..|ts| - 1]);
    }
  }

  lemma StartsWithSlash(path: string)
    requires |JavaSplit(path)| > 1 && JavaSplit(path)[0] == ""
    ensures path != "" && path[0] == '/' && path != "/"
  {
    DropKeepsPrefix(Tokens(path));
    assert Tokens("/") == [""] + Tokens("/"[1..]) == ["", ""];
    assert DropTrailingEmpty(["", ""]) == DropTrailingEmpty(["", ""][..1]) == DropTrailingEmpty([""][..0]);
  }
}
