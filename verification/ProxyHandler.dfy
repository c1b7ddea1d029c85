/** The client: path parameters are substituted into the method's template one at a time. */
module ProxyHandler {
  import opened Options
  import opened UriPaths
  import opened Templates

  datatype Kind = PATH | QUERY | BODY | OPERATION | HEADER | COOKIE

  /** A parameter of the method with its argument as text; a null argument is skipped. */
  datatype Parameter = Parameter(kind: Kind, name: string, argument: Option<string>) {
    predicate Substitutes() {
      kind.PATH? && argument.Some?
    }
  }

  /** The method's template after substitution, or the exception that ended it. */
  datatype Substituted = Built(uri: Option<string>) | Thrown

  function SkipZeros(s: string): (r: string)
    ensures |r| <= |s|
  {
    if s != "" && s[0] == '0' then SkipZeros(s[1..]) else s
  }

  /**
   What `replaceAll` makes of its replacement for one match: a backslash quotes the next
   character, `$0` is the match, and any other group is an error, for the pattern has none.
   */
  function Expand(replacement: string, matched: string): Option<string>
    decreases |replacement|
  {
    if replacement == "" then Some("")
    else
      var (c, rest) := (replacement[0], replacement[1..]);
      if c == '\\' then
        if rest == "" then None else Prepend([rest[0]], Expand(rest[1..], matched))
      else if c == '$' then
        if rest == "" || rest[0] != '0' then None
        else Prepend(matched, Expand(SkipZeros(rest), matched))
      else Prepend([c], Expand(rest, matched))
  }

  function Prepend(s: string, t: Option<string>): Option<string> {
    if t.None? then None else Some(s + t.value)
  }

  /** Neither of the two characters that a replacement does not take as they are. */
  predicate Verbatim(v: string) {
    '$' !in v && '\\' !in v
  }

  predicate Occurs(s: string, pat: string) {
    exists i | 0 <= i <= |s| - |pat| :: pat <= s[i..]
  }

  /** `replaceAll` with a quoted pattern; nothing when it throws, which takes a match. */
  function ReplaceAll(s: string, pat: string, replacement: string): Option<string>
    requires pat != ""
  {
    if !Occurs(s, pat) then Some(s)
    else
      match Expand(replacement, pat)
      case None => None
      case Some(v) => Some(ReplaceLiteral(s, pat, v))
  }

  function Substitute(uri: Substituted, p: Parameter): Substituted {
    if uri.Thrown? || !p.Substitutes() then uri
    else if uri.uri.None? then Thrown
    else
      match ReplaceAll(uri.uri.value, "{" + p.name + "}", p.argument.value)
      case None => Thrown
      case Some(s) => Built(Some(s))
  }

  /** The parameters substituted one after the other. */
  function SubstituteAll(uri: Option<string>, params: seq<Parameter>): Substituted {
    if params == [] then Built(uri)
    else Substitute(SubstituteAll(uri, params[..|params| - 1]), params[|params| - 1])
  }

  /** The path of the request; nothing when building it throws. */
  method BuildOperation(methodUri: Option<string>, params: seq<Parameter>, baseUri: string)
    returns (path: Option<string>)
    ensures path == match SubstituteAll(methodUri, params)
                    case Thrown => None
                    case Built(uri) => Some(BuildUriPath(Some(baseUri), uri))
    ensures (forall p | p in params :: p.kind != PATH || p.argument == None) ==>
              path == Some(BuildUriPath(Some(baseUri), methodUri))
  {
    var uri := methodUri;
    for i := 0 to |params|
      invariant SubstituteAll(methodUri, params[..i]) == Built(uri)
    {
      assert params[..i + 1][..i] == params[..i];
      var p := params[i];
      if p.argument.None? {
        continue;
      }
      if p.kind.PATH? {
        if uri.None? {
          ThrownStays(methodUri, params, i + 1);
          assert p in params;
          return None;
        }
        var replaced := ReplaceAll(uri.value, "{" + p.name + "}", p.argument.value);
        if replaced.None? {
          ThrownStays(methodUri, params, i + 1);
          assert p in params;
          return None;
        }
        uri := replaced;
      }
    }
    if forall p | p in params :: p.kind != PATH || p.argument == None {
      NothingToSubstitute(methodUri, params);
    }
    assert params[..|params|] == params;
    path := Some(BuildUriPath(Some(baseUri), uri));
  }

  /** Parameters of other kinds, and path parameters without an argument, leave the path alone. */
  lemma OtherParameter(uri: Option<string>, params: seq<Parameter>, p: Parameter)
    requires p.kind != PATH || p.argument == None
    ensures SubstituteAll(uri, params + [p]) == SubstituteAll(uri, params)
  {
    assert (params + [p])[..|params|] == params;
  }

  lemma {:induction false} NothingToSubstitute(uri: Option<string>, params: seq<Parameter>)
    requires forall p | p in params :: p.kind != PATH || p.argument == None
    ensures SubstituteAll(uri, params) == Built(uri)
  {
    if params != [] {
      var (front, last) := (params[..|params| - 1], params[|params| - 1]);
      assert last in params;
      NothingToSubstitute(uri, front);
      OtherParameter(uri, front, last);
      assert params == front + [last];
    }
  }

  /** A path parameter with an argument replaces its pattern, and throws where there is no path. */
  lemma PathParameter(uri: Option<string>, params: seq<Parameter>, name: string, argument: string)
    ensures var (before, after) := (SubstituteAll(uri, params),
                                    SubstituteAll(uri, params + [Parameter(PATH, name, Some(argument))]));
            && (before == Thrown || before == Built(None) ==> after == Thrown)
            && forall s | before == Built(Some(s)) ::
                 after == if ReplaceAll(s, "{" + name + "}", argument) == None then Thrown
                          else Built(ReplaceAll(s, "{" + name + "}", argument))
  {
    var p := Parameter(PATH, name, Some(argument));
    assert (params + [p])[..|params|] == params;
  }

  lemma {:induction false} ThrownStays(uri: Option<string>, params: seq<Parameter>, i: nat)
    requires i <= |params| && SubstituteAll(uri, params[..i]).Thrown?
    ensures SubstituteAll(uri, params).Thrown?
  {
    if i < |params| {
      assert params[..|params| - 1][..i] == params[..i];
      ThrownStays(uri, params[..|params| - 1], i);
    } else {
      assert params[..i] == params;
    }
  }

  // ---- What a replacement means ----

  /** A backslash stands for the character after it, and must not be the last one. */
  lemma ExpandEscape(c: char, rest: string, matched: string)
    ensures Expand("\\", matched) == None
    ensures Expand(rest, matched) == None ==> Expand("\\" + [c] + rest, matched) == None
    ensures forall x | Expand(rest, matched) == Some(x) :: Expand("\\" + [c] + rest, matched) == Some([c] + x)
  {
    assert "\\" + [c] + rest == ['\\'] + ([c] + rest);
    assert (['\\'] + ([c] + rest))[1..] == [c] + rest && ([c] + rest)[1..] == rest;
  }

  /** `$0`, with any more zeros, stands for the match; every other group is an error. */
  lemma ExpandReference(c: char, rest: string, matched: string)
    ensures Expand("$", matched) == None
    ensures c != '0' ==> Expand("$" + [c] + rest, matched) == None
    ensures SkipZeros(rest) == rest && Expand(rest, matched) == None ==> Expand("$0" + rest, matched) == None
    ensures forall x | SkipZeros(rest) == rest && Expand(rest, matched) == Some(x) ::
              Expand("$0" + rest, matched) == Some(matched + x)
  {
    assert "$" + [c] + rest == ['$'] + ([c] + rest) && (['$'] + ([c] + rest))[1..] == [c] + rest;
    assert "$0" + rest == ['$'] + ("0" + rest) && (['$'] + ("0" + rest))[1..] == "0" + rest;
    assert ("0" + rest)[1..] == rest;
  }

  lemma MoreZeros(rest: string, matched: string)
    ensures SkipZeros(rest) == if rest != "" && rest[0] == '0' then SkipZeros(rest[1..]) else rest
    ensures Expand("$00" + rest, matched) == Expand("$0" + rest, matched)
  {
    assert ("$0" + rest)[1..] == "0" + rest && ("0" + rest)[1..] == rest;
    assert ("$00" + rest)[1..] == "00" + rest && ("00" + rest)[1..] == "0" + rest;
  }

  /** Every other character stands for itself. */
  lemma ExpandOrdinary(c: char, rest: string, matched: string)
    requires c != '$' && c != '\\'
    ensures Expand("", matched) == Some("")
    ensures Expand(rest, matched) == None ==> Expand([c] + rest, matched) == None
    ensures forall x | Expand(rest, matched) == Some(x) :: Expand([c] + rest, matched) == Some([c] + x)
  {
    assert ([c] + rest)[1..] == rest;
  }

  /** The argument with a backslash before each dollar sign and backslash. */
  function Quoted(v: string): string {
    if v == "" then "" else (if v[0] == '$' || v[0] == '\\' then "\\" + [v[0]] else [v[0]]) + Quoted(v[1..])
  }

  /** A quoted argument stands for itself: what the client would have to pass on. */
  lemma {:induction false} QuotedExpandsToItself(v: string, matched: string)
    ensures Expand(Quoted(v), matched) == Some(v)
  {
    if v != "" {
      QuotedExpandsToItself(v[1..], matched);
      if v[0] == '$' || v[0] == '\\' {
        ExpandEscape(v[0], Quoted(v[1..]), matched);
      } else {
        ExpandOrdinary(v[0], Quoted(v[1..]), matched);
      }
      assert v == [v[0]] + v[1..];
    }
  }

  // ---- One at a time is all at once ----

  lemma {:induction false} VerbatimExpandsToItself(v: string, matched: string)
    requires Verbatim(v)
    ensures Expand(v, matched) == Some(v)
  {
    if v != "" {
      VerbatimExpandsToItself(v[1..], matched);
      assert v == [v[0]] + v[1..];
    }
  }

  function Backslashes(k: nat): string {
    seq(k, i => '\\')
  }

  lemma {:induction false} NeverGainsBackslashes(w: string, k: nat, matched: string)
    requires k > 0 && matched != "" && matched[0] == '{'
    ensures Expand(w, matched) != Some(Backslashes(k) + w)
    decreases |w|
  {
    if |w| >= 2 && w[0] == '\\' && w[1] == '\\' {
      var w' := w[2..];
      NeverGainsBackslashes(w', k + 1, matched);
      assert w[1..][1..] == w';
      assert (Backslashes(k) + w)[1..] == Backslashes(k + 1) + w';
      if Expand(w', matched).Some? {
        assert ("\\" + Expand(w', matched).value)[1..] == Expand(w', matched).value;
      }
    } else if Expand(w, matched).Some? {
      assert Backslashes(k)[0] == '\\' && (Backslashes(k) + w)[0] == '\\';
    }
  }

  lemma {:induction false} SpecialNeverExpandsToItself(v: string, matched: string)
    requires matched != "" && matched[0] == '{'
    requires !Verbatim(v)
    ensures Expand(v, matched) != Some(v)
  {
    if v[0] == '\\' && |v| >= 2 {
      NeverGainsBackslashes(v[2..], 1, matched);
      assert v[1..][1..] == v[2..];
      if Expand(v[2..], matched).Some? {
        assert ([v[1]] + Expand(v[2..], matched).value)[1..] == Expand(v[2..], matched).value;
      }
      if v[1] == '\\' {
        assert v[1..] == Backslashes(1) + v[2..];
      }
    } else if v[0] != '$' && v[0] != '\\' {
      SpecialNeverExpandsToItself(v[1..], matched);
      if Expand(v[1..], matched).Some? {
        assert ([v[0]] + Expand(v[1..], matched).value)[1..] == Expand(v[1..], matched).value;
      }
    }
  }

  lemma ExpandsToItselfIff(v: string, name: string)
    ensures Expand(v, "{" + name + "}") == Some(v) <==> Verbatim(v)
  {
    if Verbatim(v) {
      VerbatimExpandsToItself(v, "{" + name + "}");
    } else {
      SpecialNeverExpandsToItself(v, "{" + name + "}");
    }
  }

  lemma {:induction false} NoOccurrenceNoChange(s: string, pat: string, v: string)
    requires pat != "" && !Occurs(s, pat)
    ensures ReplaceLiteral(s, pat, v) == s
  {
    if |s| >= |pat| {
      assert s[0..] == s;
      assert !(pat <= s);
      forall i | 0 <= i <= |s[1..]| - |pat| ensures !(pat <= s[1..][i..]) {
        assert s[1..][i..] == s[i + 1..];
      }
      NoOccurrenceNoChange(s[1..], pat, v);
      assert s == [s[0]] + s[1..];
    }
  }

  /** A longer replacement gives a longer text. */
  lemma {:induction false} LongerReplacement(s: string, pat: string, v: string, w: string)
    requires pat != "" && |v| <= |w|
    ensures |ReplaceLiteral(s, pat, v)| <= |ReplaceLiteral(s, pat, w)|
    ensures |v| < |w| && Occurs(s, pat) ==> |ReplaceLiteral(s, pat, v)| < |ReplaceLiteral(s, pat, w)|
  {
    if |s| >= |pat| {
      if s[..|pat|] == pat {
        LongerReplacement(s[|pat|..], pat, v, w);
      } else {
        LongerReplacement(s[1..], pat, v, w);
        OccursLater(s, pat);
      }
    }
  }

  lemma OccursLater(s: string, pat: string)
    requires 0 < |pat| <= |s| && s[..|pat|] != pat
    ensures Occurs(s, pat) ==> Occurs(s[1..], pat)
  {
    if i :| 0 <= i <= |s| - |pat| && pat <= s[i..] {
      assert s[0..] == s;
      assert s[1..][i - 1..] == s[i..];
    }
  }

  /** Where the pattern occurs, different replacements give different texts. */
  lemma {:induction false} ReplacementShows(s: string, pat: string, v: string, w: string)
    requires pat != "" && Occurs(s, pat) && v != w
    ensures ReplaceLiteral(s, pat, v) != ReplaceLiteral(s, pat, w)
  {
    if |v| != |w| {
      LongerReplacement(s, pat, if |v| < |w| then v else w, if |v| < |w| then w else v);
    } else if s[..|pat|] == pat {
      var rest := s[|pat|..];
      assert (v + ReplaceLiteral(rest, pat, v))[..|v|] == v;
      assert (w + ReplaceLiteral(rest, pat, w))[..|w|] == w;
    } else {
      OccursLater(s, pat);
      ReplacementShows(s[1..], pat, v, w);
      assert ([s[0]] + ReplaceLiteral(s[1..], pat, v))[1..] == ReplaceLiteral(s[1..], pat, v);
      assert ([s[0]] + ReplaceLiteral(s[1..], pat, w))[1..] == ReplaceLiteral(s[1..], pat, w);
    }
  }

  lemma VerbatimReplaceAll(s: string, pat: string, v: string)
    requires pat != "" && Verbatim(v)
    ensures ReplaceAll(s, pat, v) == Some(ReplaceLiteral(s, pat, v))
  {
    VerbatimExpandsToItself(v, pat);
    if !Occurs(s, pat) {
      NoOccurrenceNoChange(s, pat, v);
    }
  }

  /** Where a parameter occurs, `replaceAll` puts the value there as it is exactly when it is verbatim. */
  lemma ReplaceAllIsLiteralIff(s: string, name: string, v: string)
    requires Occurs(s, "{" + name + "}")
    ensures ReplaceAll(s, "{" + name + "}", v) == Some(ReplaceLiteral(s, "{" + name + "}", v)) <==> Verbatim(v)
  {
    var pat := "{" + name + "}";
    ExpandsToItselfIff(v, name);
    if Expand(v, pat).Some? && !Verbatim(v) {
      ReplacementShows(s, pat, v, Expand(v, pat).value);
    }
  }

  /** Replacing a parameter in the joined segments replaces it in each of them. */
  lemma {:induction false} ReplaceSegments(segments: seq<Segment>, rest: string, name: string, v: string)
    requires AllWellFormed(segments) && BraceFree(name)
    ensures ReplaceLiteral(Join(Texts(segments)) + rest, "{" + name + "}", v) ==
            Join(Texts(BindAll(segments, map[name := v]))) + ReplaceLiteral(rest, "{" + name + "}", v)
  {
    hide ReplaceLiteral, Join;
    var pat := "{" + name + "}";
    var bound := BindAll(segments, map[name := v]);
    var (g, more, g') := (segments[0], segments[1..], bound[0].Text());
    assert g in segments;
    assert g' == if g == Param(name) then v else g.Text();
    if |segments| == 1 {
      JoinOne(Texts(segments));
      JoinOne(Texts(bound));
      ReplaceSegment(g, rest, name, v);
    } else {
      assert forall h | h in more :: h in segments;
      assert Texts(segments)[1..] == Texts(more);
      assert Texts(bound)[1..] == Texts(BindAll(more, map[name := v]));
      var (tail, tail', rest') := (Join(Texts(more)), Join(Texts(bound)[1..]), ReplaceLiteral(rest, pat, v));
      JoinFirst(Texts(segments));
      JoinFirst(Texts(bound));
      ReplaceSegments(more, rest, name, v);
      ReplaceSkips("/", tail + rest, pat, v);
      ReplaceSegment(g, "/" + (tail + rest), name, v);
      Reassociate(g.Text(), "/", tail, rest);
      Reassociate(g', "/", tail', rest');
    }
  }

  lemma Reassociate(a: string, b: string, c: string, d: string)
    ensures a + b + c + d == a + (b + (c + d))
  {
  }

  lemma JoinOne(ts: seq<string>)
    requires |ts| == 1
    ensures Join(ts) == ts[0]
  {
  }

  lemma JoinFirst(ts: seq<string>)
    requires |ts| > 1
    ensures Join(ts) == ts[0] + "/" + Join(ts[1..])
  {
  }

  /** Replacing a parameter literally in the text of a template replaces it in its segments. */
  lemma ReplaceLiteralInTemplate(t: Template, name: string, v: string)
    requires t.WellFormed() && BraceFree(name)
    ensures ReplaceLiteral(t.Text(), "{" + name + "}", v) == t.Bind(map[name := v]).Text()
  {
    var pat := "{" + name + "}";
    assert ReplaceLiteral("", pat, v) == "";
    hide ReplaceLiteral, Join, Framed, Texts, BindAll;
    var (lead, trail) := (if t.leading then "/" else "", if t.trailing then "/" else "");
    var (body, body') := (Join(Texts(t.segments)), Join(Texts(BindAll(t.segments, map[name := v]))));
    ReplaceSkips(lead, body + trail, pat, v);
    ReplaceSegments(t.segments, trail, name, v);
    ReplaceSkips(trail, "", pat, v);
    assert trail + "" == trail;
    FrameParts(t.leading, body, t.trailing);
    FrameParts(t.leading, body', t.trailing);
  }

  lemma ReplaceInTemplate(t: Template, name: string, v: string)
    requires t.WellFormed() && BraceFree(name) && Plain(v)
    ensures ReplaceAll(t.Text(), "{" + name + "}", v) == Some(t.Bind(map[name := v]).Text())
  {
    VerbatimReplaceAll(t.Text(), "{" + name + "}", v);
    ReplaceLiteralInTemplate(t, name, v);
  }

  lemma {:induction false} OccursInJoin(ts: seq<string>, i: nat) returns (before: string, after: string)
    requires i < |ts|
    ensures Join(ts) == before + ts[i] + after
  {
    if |ts| == 1 {
      before, after := "", "";
    } else if i == 0 {
      before, after := "", "/" + Join(ts[1..]);
    } else {
      before, after := OccursInJoin(ts[1..], i - 1);
      before := ts[0] + "/" + before;
    }
  }

  lemma OccursBetween(before: string, pat: string, after: string)
    ensures Occurs(before + pat + after, pat)
  {
    assert (before + pat + after)[|before|..] == pat + after;
  }

  lemma Regroup(a: string, b: string, c: string, d: string, e: string)
    ensures a + (b + c + d + e) == a + b + c + (d + e)
  {
  }

  lemma OccursInTemplate(t: Template, name: string)
    requires Param(name) in t.segments
    ensures Occurs(t.Text(), "{" + name + "}")
  {
    hide Occurs, Join, Framed;
    var pat := "{" + name + "}";
    var i :| 0 <= i < |t.segments| && t.segments[i] == Param(name);
    assert Texts(t.segments)[i] == pat;
    var before, after := OccursInJoin(Texts(t.segments), i);
    var (lead, trail) := (if t.leading then "/" else "", if t.trailing then "/" else "");
    OccursBetween(lead + before, pat, after + trail);
    FrameParts(t.leading, Join(Texts(t.segments)), t.trailing);
    Regroup(lead, before, pat, after, trail);
  }

  /**
   The client takes a value for a pattern replacement. An argument, whatever its text, gets into
   the path of a template that names its parameter as it is exactly when it has no dollar sign
   and no backslash; any other is altered, or building the request throws.
   */
  lemma ArgumentReachesPathIff(t: Template, name: string, v: string)
    requires t.WellFormed() && Param(name) in t.segments
    ensures var path := Substitute(Built(Some(t.Text())), Parameter(PATH, name, Some(v)));
            path == Built(Some(t.Bind(map[name := v]).Text())) <==> Verbatim(v)
  {
    assert Param(name).WellFormed();
    OccursInTemplate(t, name);
    ReplaceAllIsLiteralIff(t.Text(), name, v);
    ReplaceLiteralInTemplate(t, name, v);
  }

  lemma FrameParts(leading: bool, body: string, trailing: bool)
    ensures Framed(leading, body, trailing) ==
            (if leading then "/" else "") + (body + (if trailing then "/" else ""))
  {
  }

  /** The value each parameter name gets: the first argument given for it. */
  function FirstValues(params: seq<Parameter>): map<string, string> {
    if params == [] then map[]
    else
      var (values, last) := (FirstValues(params[..|params| - 1]), params[|params| - 1]);
      if last.kind == PATH && last.argument != None && last.name !in values
      then values[last.name := last.argument.value]
      else values
  }

  ghost predicate PlainParams(params: seq<Parameter>) {
    forall p | p in params && p.Substitutes() :: BraceFree(p.name) && Plain(p.argument.value)
  }

  ghost predicate PlainValues(values: map<string, string>) {
    forall n | n in values :: Plain(values[n])
  }

  lemma {:induction false} FirstValuesArePlain(params: seq<Parameter>)
    requires PlainParams(params)
    ensures PlainValues(FirstValues(params))
  {
    if params != [] {
      FirstValuesArePlain(params[..|params| - 1]);
      assert params[|params| - 1] in params;
    }
  }

  lemma BoundIsWellFormed(t: Template, values: map<string, string>)
    requires t.WellFormed() && PlainValues(values)
    ensures t.Bind(values).WellFormed()
  {
    forall g | g in t.Bind(values).segments ensures g.WellFormed() {
      var i :| 0 <= i < |t.segments| && g == t.segments[i].Bind(values);
      assert t.segments[i] in t.segments;
    }
  }

  /** Binding one more name binds it where it had no value yet. */
  lemma BindAgain(segments: seq<Segment>, values: map<string, string>, name: string, v: string)
    ensures BindAll(BindAll(segments, values), map[name := v]) ==
            BindAll(segments, if name in values then values else values[name := v])
  {
  }

  /**
   Substituting plain values one at a time gives the template with every parameter segment
   replaced at once by the first value given for its name.
   */
  lemma {:induction false} PlainAtOnce(t: Template, params: seq<Parameter>)
    requires t.WellFormed() && PlainParams(params)
    ensures SubstituteAll(Some(t.Text()), params) == Built(Some(t.Bind(FirstValues(params)).Text()))
  {
    if params == [] {
      assert t.Bind(map[]).segments == t.segments;
    } else {
      var (front, last) := (params[..|params| - 1], params[|params| - 1]);
      assert last in params;
      PlainAtOnce(t, front);
      hide Join, ReplaceAll, BindAll, Texts, Framed;
      if last.Substitutes() {
        var values := FirstValues(front);
        FirstValuesArePlain(front);
        BoundIsWellFormed(t, values);
        ReplaceInTemplate(t.Bind(values), last.name, last.argument.value);
        BindAgain(t.segments, values, last.name, last.argument.value);
      }
    }
  }

  ghost predicate DistinctNames(params: seq<Parameter>) {
    forall i, j | 0 <= i < j < |params| && params[i].Substitutes() && params[j].Substitutes() ::
      params[i].name != params[j].name
  }

  lemma FirstValuesAppend(params: seq<Parameter>, p: Parameter)
    ensures FirstValues(params + [p]) ==
            if p.Substitutes() && p.name !in FirstValues(params) then FirstValues(params)[p.name := p.argument.value]
            else FirstValues(params)
  {
    assert (params + [p])[..|params|] == params;
  }

  lemma {:induction false} FirstValuesAreGiven(params: seq<Parameter>)
    ensures forall n | n in FirstValues(params) ::
              exists p :: p in params && p.Substitutes() && p.name == n && p.argument.value == FirstValues(params)[n]
  {
    if params != [] {
      var (front, last) := (params[..|params| - 1], params[|params| - 1]);
      FirstValuesAreGiven(front);
      assert last in params;
      assert forall p | p in front :: p in params;
    }
  }

  lemma NewNameIsDistinct(front: seq<Parameter>, last: Parameter)
    requires DistinctNames(front + [last]) && last.Substitutes()
    ensures DistinctNames(front) && forall p | p in front && p.Substitutes() :: p.name != last.name
  {
    var params := front + [last];
    assert params[|front|] == last;
    forall p | p in front && p.Substitutes() ensures p.name != last.name {
      var i :| 0 <= i < |front| && front[i] == p;
      assert params[i] == p;
    }
    assert forall i | 0 <= i < |front| :: params[i] == front[i];
  }

  lemma {:induction false} ArgumentsAreValues(params: seq<Parameter>, p: Parameter)
    requires DistinctNames(params) && p in params && p.Substitutes()
    ensures p.name in FirstValues(params) && FirstValues(params)[p.name] == p.argument.value
  {
    hide FirstValues;
    var (front, last) := (params[..|params| - 1], params[|params| - 1]);
    assert params == front + [last];
    FirstValuesAppend(front, last);
    if last.Substitutes() {
      NewNameIsDistinct(front, last);
      FirstValuesAreGiven(front);
    }
    if p in front {
      ArgumentsAreValues(front, p);
    }
  }

  /** With distinct names, the values are those of the arguments, wherever they stand. */
  lemma FirstValuesAreTheArguments(params: seq<Parameter>)
    requires DistinctNames(params)
    ensures forall p | p in params && p.Substitutes() ::
              p.name in FirstValues(params) && FirstValues(params)[p.name] == p.argument.value
    ensures forall n | n in FirstValues(params) :: exists p :: p in params && p.Substitutes() && p.name == n
  {
    hide FirstValues, DistinctNames;
    FirstValuesAreGiven(params);
    forall p | p in params && p.Substitutes()
      ensures p.name in FirstValues(params) && FirstValues(params)[p.name] == p.argument.value
    {
      ArgumentsAreValues(params, p);
    }
  }

  lemma {:induction false} Occurrences<T>(xs: seq<T>, x: T)
    ensures multiset(xs)[x] >= 2 <==> exists i, j :: 0 <= i < j < |xs| && xs[i] == xs[j] == x
  {
    if xs != [] {
      var (front, last) := (xs[..|xs| - 1], xs[|xs| - 1]);
      Occurrences(front, x);
      assert xs == front + [last];
      assert multiset(xs) == multiset(front) + multiset{last};
      if last == x && x in front {
        var i :| 0 <= i < |front| && front[i] == x;
        assert xs[i] == xs[|front|] == x;
      }
      if i, j :| 0 <= i < j < |front| && front[i] == front[j] == x {
        assert xs[i] == xs[j] == x;
      }
      if i, j :| 0 <= i < j < |xs| && xs[i] == xs[j] == x {
        assert front[i] == x && x in multiset(front);
      }
    }
  }

  /** Whether the names are distinct does not depend on the order. */
  lemma DistinctAnyOrder(params: seq<Parameter>, params': seq<Parameter>)
    requires DistinctNames(params) && multiset(params) == multiset(params')
    ensures DistinctNames(params')
  {
    forall i, j | 0 <= i < j < |params'| && params'[i].Substitutes() && params'[j].Substitutes()
      ensures params'[i].name != params'[j].name
    {
      var (p, q) := (params'[i], params'[j]);
      Occurrences(params, p);
      Occurrences(params', p);
      assert p in multiset(params') && q in multiset(params');
      assert p in params && q in params;
    }
  }

  /** The order of the parameters does not matter. */
  lemma ParameterOrderIsIrrelevant(t: Template, params: seq<Parameter>, params': seq<Parameter>)
    requires t.WellFormed() && PlainParams(params)
    requires DistinctNames(params) && multiset(params) == multiset(params')
    ensures SubstituteAll(Some(t.Text()), params) == SubstituteAll(Some(t.Text()), params')
  {
    assert forall p :: p in params <==> p in params' by {
      assert forall p :: p in params <==> p in multiset(params);
      assert forall p :: p in params' <==> p in multiset(params');
    }
    hide Substitute, SubstituteAll;
    DistinctAnyOrder(params, params');
    FirstValuesAreTheArguments(params);
    FirstValuesAreTheArguments(params');
    assert FirstValues(params) == FirstValues(params');
    PlainAtOnce(t, params);
    PlainAtOnce(t, params');
  }
}
