/** Well-formed path templates, their text, and the literal replacement of a parameter in it. */
module Templates {
  import opened Options
  import opened UriPaths

  datatype Segment = Literal(text: string) | Param(name: string) {
    function Text(): string {
      match this
      case Literal(text) => text
      case Param(name) => "{" + name + "}"
    }

    ghost predicate WellFormed() {
      match this
      case Literal(text) => text != "" && '/' !in text && BraceFree(text)
      case Param(name) => '/' !in name && BraceFree(name)
    }

    /** The segment once its parameter, if it has a value, is replaced by it. */
    function Bind(values: map<string, string>): Segment {
      if Param? && name in values then Literal(values[name]) else this
    }
  }

  predicate BraceFree(s: string) {
    '{' !in s && '}' !in s
  }

  /** A value that a path can carry as one token and that a replacement leaves as it is. */
  predicate Plain(v: string) {
    v != "" && BraceFree(v) && '/' !in v && '?' !in v && '$' !in v && '\\' !in v && v != "." && v != ".."
  }

  function Texts(segments: seq<Segment>): (texts: seq<string>)
    ensures |texts| == |segments|
  {
    seq(|segments|, i requires 0 <= i < |segments| => segments[i].Text())
  }

  lemma TextsAppend(a: seq<Segment>, b: seq<Segment>)
    ensures Texts(a + b) == Texts(a) + Texts(b)
  {
  }

  ghost predicate AllWellFormed(segments: seq<Segment>) {
    segments != [] && forall g | g in segments :: g.WellFormed()
  }

  /** A template with or without a leading slash, with or without one trailing slash. */
  datatype Template = Template(leading: bool, segments: seq<Segment>, trailing: bool) {
    function Text(): string {
      Framed(leading, Join(Texts(segments)), trailing)
    }

    ghost predicate WellFormed() {
      AllWellFormed(segments)
    }

    function Bind(values: map<string, string>): Template {
      this.(segments := BindAll(segments, values))
    }
  }

  function BindAll(segments: seq<Segment>, values: map<string, string>): seq<Segment> {
    seq(|segments|, i requires 0 <= i < |segments| => segments[i].Bind(values))
  }

  // ---- The tokens of a template ----

  lemma TextsAreTokens(segments: seq<Segment>)
    requires AllWellFormed(segments)
    ensures Texts(segments) != [] && SlashFree(Texts(segments)) && NonEmpty(Texts(segments))
  {
    forall i | 0 <= i < |segments| ensures '/' !in Texts(segments)[i] && Texts(segments)[i] != "" {
      assert segments[i] in segments;
    }
  }

  lemma {:induction false} JoinEnds(ts: seq<string>)
    requires ts != [] && SlashFree(ts) && NonEmpty(ts)
    ensures Join(ts) != "" && Join(ts)[0] != '/' && Join(ts)[|Join(ts)| - 1] != '/'
  {
    assert ts[0] in ts;
    if |ts| > 1 {
      assert forall t | t in ts[1..] :: t in ts;
      JoinEnds(ts[1..]);
    }
  }

  lemma TokensOfRooted(ts: seq<string>)
    requires ts != [] && SlashFree(ts)
    ensures Tokens("/" + Join(ts)) == [""] + ts
  {
    TokensOfJoin(ts);
    assert ("/" + Join(ts))[1..] == Join(ts);
  }

  /** A string between a leading slash and a trailing one, each of which may be missing. */
  function Framed(leading: bool, body: string, trailing: bool): string {
    (if leading then "/" else "") + body + (if trailing then "/" else "")
  }

  lemma NormalizedFrame(leading: bool, body: string, trailing: bool)
    requires body != "" && body[0] != '/' && body[|body| - 1] != '/'
    ensures NormalizeUriPath(Some(Framed(leading, body, trailing))) == "/" + body
  {
    var start := if leading then "/" + body else body;
    var text := if trailing then start + "/" else start;
    assert Framed(leading, body, trailing) == text;
    assert text[|text| - 1] == (if trailing then '/' else body[|body| - 1]);
    assert trailing ==> text[..|text| - 1] == start;
    assert start[0] == if leading then '/' else body[0];
  }

  /** A template normalises to its segments, each behind one slash. */
  lemma NormalizedText(t: Template)
    requires t.WellFormed()
    ensures NormalizeUriPath(Some(t.Text())) == "/" + Join(Texts(t.segments))
  {
    hide Join, Texts, NormalizeUriPath;
    TextsAreTokens(t.segments);
    JoinEnds(Texts(t.segments));
    NormalizedFrame(t.leading, Join(Texts(t.segments)), t.trailing);
  }

  lemma TokensOfFrame(leading: bool, ts: seq<string>, trailing: bool)
    requires ts != [] && SlashFree(ts)
    ensures Tokens(Framed(leading, Join(ts), trailing)) ==
            (if leading then [""] else []) + ts + (if trailing then [""] else [])
  {
    hide Join, Tokens;
    var start := (if leading then "/" else "") + Join(ts);
    var tokens := (if leading then [""] else []) + ts;
    if leading {
      TokensOfRooted(ts);
    } else {
      TokensOfJoin(ts);
      assert start == Join(ts) && tokens == ts;
    }
    assert Tokens(start) == tokens;
    if trailing {
      TokensOfTrailingSlash(start);
      assert Framed(leading, Join(ts), trailing) == start + "/";
    } else {
      assert Framed(leading, Join(ts), trailing) == start;
      assert tokens == tokens + [];
    }
  }

  /** The split of a template: its segments, behind an empty token if it starts with a slash. */
  lemma SplitText(t: Template)
    requires t.WellFormed()
    ensures JavaSplit(t.Text()) == (if t.leading then [""] else []) + Texts(t.segments)
  {
    hide Join, Tokens, JavaSplit, Texts;
    var ts := Texts(t.segments);
    TextsAreTokens(t.segments);
    TokensOfFrame(t.leading, ts, t.trailing);
    var tokens := (if t.leading then [""] else []) + ts;
    assert ts[|ts| - 1] in ts;
    assert tokens + [] == tokens;
    SplitOfTokens(t.Text(), tokens);
  }

  /** The path of a service link with a template below it. */
  lemma BuiltPath(link: Template, t: Template)
    requires link.WellFormed() && t.WellFormed()
    ensures BuildUriPath(Some(link.Text()), Some(t.Text())) == "/" + Join(Texts(link.segments + t.segments))
    ensures JavaSplit(BuildUriPath(Some(link.Text()), Some(t.Text()))) ==
            [""] + Texts(link.segments + t.segments)
  {
    hide Join, Tokens, NormalizeUriPath, JavaSplit;
    NormalizedText(link);
    NormalizedText(t);
    var (a, b) := (Texts(link.segments), Texts(t.segments));
    var ts := Texts(link.segments + t.segments);
    assert ts == a + b;
    JoinAppend(a, b);
    assert "/" + Join(a) + ("/" + Join(b)) == "/" + (Join(a) + "/" + Join(b));
    TextsAreTokens(link.segments + t.segments);
    TokensOfRooted(ts);
    assert ts[|ts| - 1] in ts;
    SplitOfTokens("/" + Join(ts), [""] + ts);
  }

  // ---- Replacement ----

  /** Replaces every occurrence of `pat`, from left to right. */
  function ReplaceLiteral(s: string, pat: string, v: string): string
    requires pat != ""
  {
    if |s| < |pat| then s
    else if s[..|pat|] == pat then v + ReplaceLiteral(s[|pat|..], pat, v)
    else [s[0]] + ReplaceLiteral(s[1..], pat, v)
  }

  lemma ReplaceSkipsOne(c: char, s: string, pat: string, v: string)
    requires pat != "" && pat[0] == '{' && c != '{'
    ensures ReplaceLiteral([c] + s, pat, v) == [c] + ReplaceLiteral(s, pat, v)
  {
    var t := [c] + s;
    assert t[1..] == s;
    if |t| >= |pat| {
      assert t[..|pat|][0] == c;
    }
  }

  /** Text in which no occurrence can begin is copied. */
  lemma {:induction false} ReplaceSkips(x: string, rest: string, pat: string, v: string)
    requires pat != "" && pat[0] == '{' && '{' !in x
    ensures ReplaceLiteral(x + rest, pat, v) == x + ReplaceLiteral(rest, pat, v)
  {
    hide ReplaceLiteral;
    if x == "" {
      assert x + rest == rest;
    } else {
      ReplaceSkips(x[1..], rest, pat, v);
      ReplaceSkipsOne(x[0], x[1..] + rest, pat, v);
      assert x + rest == [x[0]] + (x[1..] + rest);
      assert x == [x[0]] + x[1..];
    }
  }

  /** A parameter matches the pattern of its own name only. */
  lemma ParamMatches(n: string, name: string, rest: string)
    requires BraceFree(n) && BraceFree(name)
    requires var (s, pat) := ("{" + n + "}" + rest, "{" + name + "}"); pat <= s
    ensures n == name
  {
    var (s, pat) := ("{" + n + "}" + rest, "{" + name + "}");
    assert forall i | 0 <= i < |pat| :: s[i] == pat[i];
    assert forall i | 0 <= i < |name| :: name[i] != '}' && pat[i + 1] == name[i];
    assert forall i | 0 <= i < |n| :: n[i] != '}' && s[i + 1] == n[i];
    assert pat[|name| + 1] == '}' && s[|n| + 1] == '}';
    assert |n| == |name|;
  }

  /** Replacing a parameter in a segment followed by anything replaces it in that segment. */
  lemma ReplaceSegment(g: Segment, rest: string, name: string, v: string)
    requires g.WellFormed() && BraceFree(name)
    ensures var pat := "{" + name + "}";
            ReplaceLiteral(g.Text() + rest, pat, v) ==
            (if g == Param(name) then v else g.Text()) + ReplaceLiteral(rest, pat, v)
  {
    var pat := "{" + name + "}";
    match g {
      case Literal(text) => ReplaceSkips(text, rest, pat, v);
      case Param(n) =>
        if n == name {
          ReplaceHere(rest, pat, v);
        } else {
          ReplaceOther(n, name, rest, v);
        }
    }
  }

  lemma ReplaceHere(rest: string, pat: string, v: string)
    requires pat != ""
    ensures ReplaceLiteral(pat + rest, pat, v) == v + ReplaceLiteral(rest, pat, v)
  {
    assert (pat + rest)[..|pat|] == pat && (pat + rest)[|pat|..] == rest;
  }

  lemma ReplaceOther(n: string, name: string, rest: string, v: string)
    requires BraceFree(n) && BraceFree(name) && n != name
    ensures var pat := "{" + name + "}";
            ReplaceLiteral("{" + n + "}" + rest, pat, v) == "{" + n + "}" + ReplaceLiteral(rest, pat, v)
  {
    var (s, pat) := ("{" + n + "}" + rest, "{" + name + "}");
    var tail := n + "}";
    assert s == "{" + (tail + rest) && s[1..] == tail + rest;
    if pat <= s {
      ParamMatches(n, name, rest);
    }
    ReplaceSkips(tail, rest, pat, v);
    if |s| < |pat| {
      assert ReplaceLiteral(s, pat, v) == s && ReplaceLiteral(rest, pat, v) == rest;
    } else {
      assert s[..|pat|] != pat;
      assert ReplaceLiteral(s, pat, v) == "{" + ReplaceLiteral(tail + rest, pat, v);
    }
    assert "{" + (tail + ReplaceLiteral(rest, pat, v)) == "{" + n + "}" + ReplaceLiteral(rest, pat, v);
  }
}
