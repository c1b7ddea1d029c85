/**
 Substituting the parameters one after the other, compared with substituting them all at once,
 for arguments of any text: an argument may name a later parameter, or mean something to
 `replaceAll`.
 */
module SubstitutionOrder {
  import opened Options
  import opened UriPaths
  import opened Templates
  import opened ProxyHandler

  function Pattern(name: string): (pat: string)
    ensures pat != ""
  {
    "{" + name + "}"
  }

  ghost predicate IsName(name: string) {
    '/' !in name && BraceFree(name)
  }

  ghost predicate NamesWellFormed(params: seq<Parameter>) {
    forall p | p in params && p.Substitutes() :: IsName(p.name)
  }

  // ---- Replacement works on each segment by itself ----

  /** A pattern without slashes does not begin in one segment and end in another. */
  lemma BeginsInside(x: string, rest: string, pat: string)
    requires '/' !in pat
    ensures pat <= x + "/" + rest <==> pat <= x
  {
    var s := x + "/" + rest;
    assert s[|x|] == '/';
    if pat <= s {
      assert forall k | 0 <= k < |pat| :: s[k] == pat[k] && pat[k] != '/';
      assert pat == s[..|pat|] == x[..|pat|];
    }
  }

  lemma Shift(a: string, b: string, c: string, d: string)
    ensures a + b + c + d == a + (b + c + d)
  {
  }

  lemma SplitsAfterMatch(x: string, rest: string, pat: string, v: string)
    requires pat != ""
    requires ReplaceLiteral(x + "/" + rest, pat, v) == ReplaceLiteral(x, pat, v) + "/" + ReplaceLiteral(rest, pat, v)
    ensures ReplaceLiteral(pat + x + "/" + rest, pat, v) ==
            ReplaceLiteral(pat + x, pat, v) + "/" + ReplaceLiteral(rest, pat, v)
  {
    hide ReplaceLiteral;
    ReplaceHere(x + "/" + rest, pat, v);
    ReplaceHere(x, pat, v);
    Shift(v, ReplaceLiteral(x, pat, v), "/", ReplaceLiteral(rest, pat, v));
    Shift(pat, x, "/", rest);
  }

  lemma ReplaceMovesOn(c: char, s: string, pat: string, v: string)
    requires pat != "" && !(pat <= [c] + s)
    ensures ReplaceLiteral([c] + s, pat, v) == [c] + ReplaceLiteral(s, pat, v)
  {
    assert ([c] + s)[1..] == s;
  }

  lemma SplitsAfterMove(c: char, x: string, rest: string, pat: string, v: string)
    requires pat != "" && !(pat <= [c] + x) && !(pat <= [c] + x + "/" + rest)
    requires ReplaceLiteral(x + "/" + rest, pat, v) == ReplaceLiteral(x, pat, v) + "/" + ReplaceLiteral(rest, pat, v)
    ensures ReplaceLiteral([c] + x + "/" + rest, pat, v) ==
            ReplaceLiteral([c] + x, pat, v) + "/" + ReplaceLiteral(rest, pat, v)
  {
    hide ReplaceLiteral;
    Shift([c], x, "/", rest);
    ReplaceMovesOn(c, x + "/" + rest, pat, v);
    ReplaceMovesOn(c, x, pat, v);
    Shift([c], ReplaceLiteral(x, pat, v), "/", ReplaceLiteral(rest, pat, v));
  }

  lemma {:induction false} ReplaceSplits(x: string, rest: string, pat: string, v: string)
    requires pat != "" && '/' !in pat
    ensures ReplaceLiteral(x + "/" + rest, pat, v) == ReplaceLiteral(x, pat, v) + "/" + ReplaceLiteral(rest, pat, v)
  {
    assert ReplaceLiteral("", pat, v) == "";
    hide ReplaceLiteral;
    BeginsInside(x, rest, pat);
    if pat <= x {
      ReplaceSplits(x[|pat|..], rest, pat, v);
      SplitsAfterMatch(x[|pat|..], rest, pat, v);
      assert x == pat + x[|pat|..];
    } else if x == "" {
      assert "" + "/" + rest == ['/'] + rest;
      ReplaceMovesOn('/', rest, pat, v);
    } else {
      assert x == [x[0]] + x[1..];
      ReplaceSplits(x[1..], rest, pat, v);
      SplitsAfterMove(x[0], x[1..], rest, pat, v);
    }
  }

  function ReplaceEach(ts: seq<string>, pat: string, v: string): (r: seq<string>)
    requires pat != ""
    ensures |r| == |ts|
  {
    seq(|ts|, i requires 0 <= i < |ts| => ReplaceLiteral(ts[i], pat, v))
  }

  lemma {:induction false} ReplaceJoined(ts: seq<string>, pat: string, v: string)
    requires ts != [] && pat != "" && '/' !in pat
    ensures ReplaceLiteral(Join(ts), pat, v) == Join(ReplaceEach(ts, pat, v))
  {
    hide ReplaceLiteral;
    if |ts| > 1 {
      ReplaceSplits(ts[0], Join(ts[1..]), pat, v);
      ReplaceJoined(ts[1..], pat, v);
      assert ReplaceEach(ts, pat, v)[1..] == ReplaceEach(ts[1..], pat, v);
    }
  }

  lemma ReplaceBesideSlash(body: string, pat: string, v: string)
    requires pat != "" && '/' !in pat
    ensures ReplaceLiteral("/" + body, pat, v) == "/" + ReplaceLiteral(body, pat, v)
    ensures ReplaceLiteral(body + "/", pat, v) == ReplaceLiteral(body, pat, v) + "/"
  {
    assert ReplaceLiteral("", pat, v) == "";
    hide ReplaceLiteral;
    ReplaceSplits("", body, pat, v);
    assert "" + "/" + body == "/" + body;
    ReplaceSplits(body, "", pat, v);
    assert body + "/" + "" == body + "/";
  }

  lemma ReplaceFramed(leading: bool, body: string, trailing: bool, pat: string, v: string)
    requires pat != "" && '/' !in pat
    ensures ReplaceLiteral(Framed(leading, body, trailing), pat, v) ==
            Framed(leading, ReplaceLiteral(body, pat, v), trailing)
  {
    hide ReplaceLiteral, Framed;
    var body' := ReplaceLiteral(body, pat, v);
    ReplaceBesideSlash(body, pat, v);
    ReplaceBesideSlash("/" + body, pat, v);
    FramedCases(leading, body, trailing);
    FramedCases(leading, body', trailing);
  }

  lemma FramedCases(leading: bool, body: string, trailing: bool)
    ensures Framed(leading, body, trailing) ==
            if leading then if trailing then "/" + body + "/" else "/" + body
            else if trailing then body + "/" else body
  {
    assert "" + body == body && body + "" == body && "/" + body + "" == "/" + body;
  }

  /** The segments of a bound template after one more replacement. */
  function Replaced(segments: seq<Segment>, values: map<string, string>, name: string, w: string)
    : (pieces: seq<string>)
    ensures |pieces| == |segments|
  {
    ReplaceEach(Texts(BindAll(segments, values)), Pattern(name), w)
  }

  lemma ReplaceBound(t: Template, values: map<string, string>, name: string, w: string)
    requires t.WellFormed() && IsName(name)
    ensures ReplaceLiteral(t.Bind(values).Text(), Pattern(name), w) ==
            Framed(t.leading, Join(Replaced(t.segments, values, name, w)), t.trailing)
  {
    hide ReplaceLiteral, Join, Framed;
    var ts := Texts(BindAll(t.segments, values));
    ReplaceFramed(t.leading, Join(ts), t.trailing, Pattern(name), w);
    ReplaceJoined(ts, Pattern(name), w);
  }

  /** What a replacement does to one segment. */
  lemma ReplacedAt(segments: seq<Segment>, values: map<string, string>, name: string, w: string, i: nat)
    requires AllWellFormed(segments) && IsName(name) && i < |segments|
    ensures var g := segments[i];
            Replaced(segments, values, name, w)[i] ==
            if g.Param? && g.name in values then ReplaceLiteral(values[g.name], Pattern(name), w)
            else if g == Param(name) then w else g.Text()
  {
    var (g, pat) := (segments[i], Pattern(name));
    assert g in segments;
    if !(g.Param? && g.name in values) {
      ReplaceSegment(g, "", name, w);
      assert ReplaceLiteral("", pat, w) == "";
      assert g.Text() + "" == g.Text();
    }
  }

  lemma {:induction false} ReplaceByItself(s: string, pat: string)
    requires pat != ""
    ensures ReplaceLiteral(s, pat, pat) == s
  {
    if |s| >= |pat| {
      if s[..|pat|] == pat {
        ReplaceByItself(s[|pat|..], pat);
      } else {
        ReplaceByItself(s[1..], pat);
        assert s == [s[0]] + s[1..];
      }
    }
  }

  /** A replacement leaves a text as it is exactly when it finds nothing, or puts back what it finds. */
  lemma UnchangedIff(s: string, pat: string, w: string)
    requires pat != ""
    ensures ReplaceLiteral(s, pat, w) == s <==> !Occurs(s, pat) || w == pat
  {
    ReplaceByItself(s, pat);
    if !Occurs(s, pat) {
      NoOccurrenceNoChange(s, pat, w);
    } else if w != pat {
      ReplacementShows(s, pat, w, pat);
    }
  }

  // ---- Telling joined segments apart ----

  lemma FramedApart(leading: bool, a: string, b: string, trailing: bool)
    requires Framed(leading, a, trailing) == Framed(leading, b, trailing)
    ensures a == b
  {
    var lead := if leading then 1 else 0;
    assert Framed(leading, a, trailing)[lead..lead + |a|] == a;
    assert Framed(leading, b, trailing)[lead..lead + |b|] == b;
  }

  function Slashes(s: string): nat {
    multiset(s)['/']
  }

  lemma SlashesAdd(a: string, b: string)
    ensures Slashes(a + b) == Slashes(a) + Slashes(b)
  {
  }

  lemma SlashesFirst(s: string)
    requires s != ""
    ensures Slashes(s) == (if s[0] == '/' then 1 else 0) + Slashes(s[1..])
  {
    SlashesAdd([s[0]], s[1..]);
    assert s == [s[0]] + s[1..];
  }

  lemma {:induction false} TokensCount(s: string)
    ensures |Tokens(s)| == Slashes(s) + 1
  {
    if s != "" {
      TokensCount(s[1..]);
      SlashesFirst(s);
    }
  }

  lemma TokensCons(c: char, s: string)
    ensures Tokens([c] + s) == if c == '/' then [""] + Tokens(s) else [[c] + Tokens(s)[0]] + Tokens(s)[1..]
  {
    assert ([c] + s)[1..] == s;
  }

  lemma {:induction false} TokensOfBoth(a: string, b: string)
    ensures Tokens(a + "/" + b) == Tokens(a) + Tokens(b)
  {
    hide Tokens;
    if a == "" {
      TokensCons('/', b);
      TokensOfOne("");
      assert a + "/" + b == ['/'] + b;
    } else {
      var rest := a[1..];
      TokensOfBoth(rest, b);
      TokensCons(a[0], rest);
      TokensCons(a[0], rest + "/" + b);
      assert a == [a[0]] + rest && a + "/" + b == [a[0]] + (rest + "/" + b);
      assert (Tokens(rest) + Tokens(b))[1..] == Tokens(rest)[1..] + Tokens(b);
    }
  }

  ghost predicate NoFewerSlashes(xs: seq<string>, ys: seq<string>) {
    |xs| == |ys| && forall i | 0 <= i < |xs| :: Slashes(xs[i]) <= Slashes(ys[i])
  }

  lemma {:induction false} JoinSlashes(xs: seq<string>, ys: seq<string>)
    requires NoFewerSlashes(xs, ys)
    ensures Slashes(Join(xs)) <= Slashes(Join(ys))
  {
    if |xs| > 1 {
      JoinSlashes(xs[1..], ys[1..]);
      SlashesOfParts(xs);
      SlashesOfParts(ys);
    }
  }

  lemma SlashesOfParts(xs: seq<string>)
    requires |xs| > 1
    ensures Slashes(Join(xs)) == Slashes(xs[0]) + 1 + Slashes(Join(xs[1..]))
  {
    SlashesAdd(xs[0] + "/", Join(xs[1..]));
    SlashesAdd(xs[0], "/");
  }

  /**
   Equal texts come from equal segments, whatever slashes these have, as long as no segment of
   the one has fewer than that of the other: the slashes then fall on the same places.
   */
  lemma {:induction false} JoinedApart(xs: seq<string>, ys: seq<string>)
    requires NoFewerSlashes(xs, ys) && Join(xs) == Join(ys)
    ensures xs == ys
  {
    if |xs| == 1 {
      assert xs == [xs[0]] && ys == [ys[0]];
    } else if |xs| > 1 {
      JoinSlashes(xs[1..], ys[1..]);
      SlashesOfParts(xs);
      SlashesOfParts(ys);
      FirstApart(xs[0], Join(xs[1..]), ys[0], Join(ys[1..]));
      JoinedApart(xs[1..], ys[1..]);
      assert xs == [xs[0]] + xs[1..] && ys == [ys[0]] + ys[1..];
    }
  }

  lemma FirstApart(x: string, a: string, y: string, b: string)
    requires x + "/" + a == y + "/" + b && Slashes(x) == Slashes(y)
    ensures x == y && a == b
  {
    hide Tokens, Join, Slashes;
    TokensOfBoth(x, a);
    TokensOfBoth(y, b);
    TokensCount(x);
    TokensCount(y);
    assert Tokens(x) == (Tokens(x) + Tokens(a))[..|Tokens(x)|];
    assert Tokens(y) == (Tokens(y) + Tokens(b))[..|Tokens(y)|];
    JoinOfTokens(x);
    JoinOfTokens(y);
    assert a == (x + "/" + a)[|x| + 1..] && b == (y + "/" + b)[|y| + 1..];
  }

  // ---- One step ----

  /** A value already in place mentions the parameter that is replaced next. */
  ghost predicate Mentioned(segments: seq<Segment>, values: map<string, string>, name: string) {
    exists n :: n in values && Param(n) in segments && Occurs(values[n], Pattern(name))
  }

  /** What one replacement has to be for the template to end up with the value in its place only. */
  ghost predicate StepFits(segments: seq<Segment>, values: map<string, string>, name: string, v: string) {
    && (Param(name) in segments ==> Verbatim(v))
    && (Mentioned(segments, values, name) ==> Expand(v, Pattern(name)) == Some(Pattern(name)))
  }

  /** The segment at `i` ends up as it should when `w` is put in for `name`. */
  ghost predicate PieceFits(segments: seq<Segment>, values: map<string, string>, name: string, v: string, w: string,
                            i: nat)
    requires i < |segments|
  {
    var g := segments[i];
    && (g == Param(name) ==> w == v)
    && (g.Param? && g.name in values && Occurs(values[g.name], Pattern(name)) ==> w == Pattern(name))
  }

  lemma PieceAgreesIff(segments: seq<Segment>, values: map<string, string>, name: string, v: string, w: string,
                       i: nat)
    requires AllWellFormed(segments) && IsName(name) && name !in values && i < |segments|
    ensures Replaced(segments, values, name, w)[i] == segments[i].Bind(values[name := v]).Text() <==>
            PieceFits(segments, values, name, v, w, i)
  {
    hide ReplaceLiteral, Occurs, Replaced;
    ReplacedAt(segments, values, name, w, i);
    var g := segments[i];
    if g.Param? && g.name in values {
      UnchangedIff(values[g.name], Pattern(name), w);
    }
  }

  /** With `w` put in, the segments are as they should be if and only if `w` is right wherever it goes. */
  lemma PiecesAgreeIff(segments: seq<Segment>, values: map<string, string>, name: string, v: string, w: string)
    requires AllWellFormed(segments) && IsName(name) && name !in values
    ensures Replaced(segments, values, name, w) == Texts(BindAll(segments, values[name := v])) <==>
            (Param(name) in segments ==> w == v) && (Mentioned(segments, values, name) ==> w == Pattern(name))
  {
    hide ReplaceLiteral, Occurs, Replaced;
    var (xs, ys) := (Replaced(segments, values, name, w), Texts(BindAll(segments, values[name := v])));
    forall i | 0 <= i < |segments| ensures xs[i] == ys[i] <==> PieceFits(segments, values, name, v, w, i) {
      PieceAgreesIff(segments, values, name, v, w, i);
    }
    if xs == ys {
      if Param(name) in segments {
        var i :| 0 <= i < |segments| && segments[i] == Param(name);
        assert xs[i] == ys[i];
      }
      if Mentioned(segments, values, name) {
        var n :| n in values && Param(n) in segments && Occurs(values[n], Pattern(name));
        var i :| 0 <= i < |segments| && segments[i] == Param(n);
        assert xs[i] == ys[i];
      }
    }
    if (Param(name) in segments ==> w == v) && (Mentioned(segments, values, name) ==> w == Pattern(name)) {
      forall i | 0 <= i < |segments| ensures PieceFits(segments, values, name, v, w, i) {
        assert segments[i] in segments;
      }
      assert forall i | 0 <= i < |segments| :: xs[i] == ys[i];
    }
  }

  /** A later argument for a name that has its value already changes nothing unless it is mentioned. */
  lemma PiecesStay(segments: seq<Segment>, values: map<string, string>, name: string, w: string)
    requires AllWellFormed(segments) && IsName(name) && name in values && !Mentioned(segments, values, name)
    ensures Replaced(segments, values, name, w) == Texts(BindAll(segments, values))
  {
    hide ReplaceLiteral, Occurs, Replaced;
    forall i | 0 <= i < |segments|
      ensures Replaced(segments, values, name, w)[i] == segments[i].Bind(values).Text()
    {
      ReplacedAt(segments, values, name, w, i);
      assert segments[i] in segments;
      if segments[i].Param? && segments[i].name in values {
        UnchangedIff(values[segments[i].name], Pattern(name), w);
      }
    }
  }

  lemma {:induction false} ReplaceKeepsSlashes(s: string, pat: string, w: string)
    requires pat != "" && '/' !in pat
    ensures Slashes(s) <= Slashes(ReplaceLiteral(s, pat, w))
  {
    if |s| >= |pat| {
      if s[..|pat|] == pat {
        var rest := s[|pat|..];
        assert s == pat + rest;
        SlashesAdd(pat, rest);
        SlashesAdd(w, ReplaceLiteral(rest, pat, w));
        ReplaceKeepsSlashes(rest, pat, w);
      } else {
        SlashesFirst(s);
        SlashesFirst(ReplaceLiteral(s, pat, w));
        assert ReplaceLiteral(s, pat, w)[1..] == ReplaceLiteral(s[1..], pat, w);
        ReplaceKeepsSlashes(s[1..], pat, w);
      }
    }
  }

  /** A replacement takes no slash away: patterns have none. */
  lemma PiecesKeepSlashes(segments: seq<Segment>, values: map<string, string>, name: string, v: string, w: string)
    requires AllWellFormed(segments) && IsName(name) && name !in values && Slashes(v) == Slashes(w)
    ensures NoFewerSlashes(Texts(BindAll(segments, values[name := v])), Replaced(segments, values, name, w))
  {
    hide ReplaceLiteral, Occurs, Replaced, Slashes;
    var (xs, ys) := (Replaced(segments, values, name, w), Texts(BindAll(segments, values[name := v])));
    forall i | 0 <= i < |segments| ensures Slashes(ys[i]) <= Slashes(xs[i]) {
      ReplacedAt(segments, values, name, w, i);
      var g := segments[i];
      if g.Param? && g.name in values {
        ReplaceKeepsSlashes(values[g.name], Pattern(name), w);
      }
    }
  }

  // ---- Where a pattern occurs ----

  /** The pattern of a name without a value may stand for that parameter. */
  lemma PatternIsParam(segments: seq<Segment>, values: map<string, string>, name: string)
    requires name !in values
    ensures Texts(BindAll(segments, values[name := Pattern(name)])) == Texts(BindAll(segments, values))
  {
  }

  /** A bound template has the pattern of a name exactly when it has the parameter or a value mentions it. */
  lemma OccursIff(t: Template, values: map<string, string>, name: string)
    requires t.WellFormed() && IsName(name) && name !in values
    ensures Occurs(t.Bind(values).Text(), Pattern(name)) <==>
            Param(name) in t.segments || Mentioned(t.segments, values, name)
  {
    hide ReplaceLiteral, Occurs, Replaced, Join, Framed, Pattern, Mentioned;
    var (s, pat) := (t.Bind(values).Text(), Pattern(name));
    var w := pat + "x";
    var (xs, ys) := (Replaced(t.segments, values, name, w), Texts(BindAll(t.segments, values)));
    UnchangedIff(s, pat, w);
    ReplaceBound(t, values, name, w);
    PatternIsParam(t.segments, values, name);
    PiecesAgreeIff(t.segments, values, name, pat, w);
    SlashesAdd(pat, "x");
    PiecesKeepSlashes(t.segments, values, name, pat, w);
    if ReplaceLiteral(s, pat, w) == s {
      FramedApart(t.leading, Join(xs), Join(ys), t.trailing);
      JoinedApart(ys, xs);
    }
  }

  // ---- A whole step ----

  lemma {:induction false} SkipKeepsSlashes(s: string)
    ensures Slashes(SkipZeros(s)) == Slashes(s)
  {
    if s != "" && s[0] == '0' {
      SkipKeepsSlashes(s[1..]);
      SlashesFirst(s);
    }
  }

  /** What `replaceAll` makes of a replacement has the slashes the replacement has. */
  lemma {:induction false} ExpandKeepsSlashes(v: string, matched: string)
    requires '/' !in matched && Expand(v, matched).Some?
    ensures Slashes(Expand(v, matched).value) == Slashes(v)
    decreases |v|
  {
    if v != "" {
      SlashesFirst(v);
      var rest := v[1..];
      if v[0] == '\\' {
        SlashesFirst(rest);
        ExpandKeepsSlashes(rest[1..], matched);
        SlashesAdd([rest[0]], Expand(rest[1..], matched).value);
      } else if v[0] == '$' {
        SkipKeepsSlashes(rest);
        ExpandKeepsSlashes(SkipZeros(rest), matched);
        SlashesAdd(matched, Expand(SkipZeros(rest), matched).value);
      } else {
        ExpandKeepsSlashes(rest, matched);
        SlashesAdd([v[0]], Expand(rest, matched).value);
      }
    }
  }

  /** The texts of the replaced and of the expected segments are equal only if the segments are. */
  lemma PiecesApart(t: Template, values: map<string, string>, name: string, v: string, w: string)
    requires t.WellFormed() && IsName(name) && name !in values && Expand(v, Pattern(name)) == Some(w)
    requires ReplaceLiteral(t.Bind(values).Text(), Pattern(name), w) == t.Bind(values[name := v]).Text()
    ensures Replaced(t.segments, values, name, w) == Texts(BindAll(t.segments, values[name := v]))
  {
    hide ReplaceLiteral, Replaced, Join, Framed, Expand, Slashes;
    var (xs, ys) := (Replaced(t.segments, values, name, w), Texts(BindAll(t.segments, values[name := v])));
    ReplaceBound(t, values, name, w);
    FramedApart(t.leading, Join(xs), Join(ys), t.trailing);
    ExpandKeepsSlashes(v, Pattern(name));
    PiecesKeepSlashes(t.segments, values, name, v, w);
    JoinedApart(ys, xs);
  }

  /**
   One more argument ends up in its place and nowhere else if and only if it is verbatim, should
   the template name its parameter, and amounts to the parameter's pattern, should an earlier
   value mention it.
   */
  lemma StepIff(t: Template, values: map<string, string>, name: string, v: string)
    requires t.WellFormed() && IsName(name) && name !in values
    ensures var path := Substitute(Built(Some(t.Bind(values).Text())), Parameter(PATH, name, Some(v)));
            path == Built(Some(t.Bind(values[name := v]).Text())) <==> StepFits(t.segments, values, name, v)
  {
    hide ReplaceLiteral, Replaced, Join, Framed, Expand, Occurs, Mentioned, Verbatim;
    var (s, pat) := (t.Bind(values).Text(), Pattern(name));
    var found := Param(name) in t.segments || Mentioned(t.segments, values, name);
    OccursIff(t, values, name);
    ExpandsToItselfIff(v, name);
    if !found {
      NoOccurrenceNoChange(s, pat, v);
      ReplaceBound(t, values, name, v);
      PiecesAgreeIff(t.segments, values, name, v, v);
    } else if Expand(v, pat).Some? {
      var w := Expand(v, pat).value;
      ReplaceBound(t, values, name, w);
      PiecesAgreeIff(t.segments, values, name, v, w);
      if ReplaceLiteral(s, pat, w) == t.Bind(values[name := v]).Text() {
        PiecesApart(t, values, name, v, w);
      }
    }
  }

  /** A further argument for a name that has its value: nothing may mention it, or it must change nothing. */
  lemma RepeatedStepIff(t: Template, values: map<string, string>, name: string, v: string)
    requires t.WellFormed() && IsName(name) && name in values
    ensures var path := Substitute(Built(Some(t.Bind(values).Text())), Parameter(PATH, name, Some(v)));
            path == Built(Some(t.Bind(values).Text())) <==>
            (Mentioned(t.segments, values, name) ==> Expand(v, Pattern(name)) == Some(Pattern(name)))
  {
    hide ReplaceLiteral, Replaced, Join, Framed, Expand, Occurs;
    var (s, pat) := (t.Bind(values).Text(), Pattern(name));
    if Mentioned(t.segments, values, name) {
      MentionOccurs(t, values, name);
      if Expand(v, pat).Some? {
        UnchangedIff(s, pat, Expand(v, pat).value);
      }
    } else {
      ReplaceBound(t, values, name, pat + "x");
      PiecesStay(t.segments, values, name, pat + "x");
      UnchangedIff(s, pat, pat + "x");
    }
  }

  lemma MentionOccurs(t: Template, values: map<string, string>, name: string)
    requires Mentioned(t.segments, values, name)
    ensures Occurs(t.Bind(values).Text(), Pattern(name))
  {
    hide Join, Framed, Occurs, Pattern;
    var n :| n in values && Param(n) in t.segments && Occurs(values[n], Pattern(name));
    var i :| 0 <= i < |t.segments| && t.segments[i] == Param(n);
    var ts := Texts(BindAll(t.segments, values));
    assert ts[i] == values[n];
    var before, after := OccursInJoin(ts, i);
    var (lead, trail) := (if t.leading then "/" else "", if t.trailing then "/" else "");
    FrameParts(t.leading, Join(ts), t.trailing);
    Regroup(lead, before, values[n], after, trail);
    OccursWithin(lead + before, values[n], after + trail, Pattern(name));
  }

  lemma OccursWithin(before: string, s: string, after: string, pat: string)
    requires Occurs(s, pat)
    ensures Occurs(before + s + after, pat)
  {
    var i :| 0 <= i <= |s| - |pat| && pat <= s[i..];
    var all := before + s + after;
    assert all[|before| + i..] == s[i..] + after;
  }

  // ---- All the parameters ----

  /** The parameters so far have put the first value of each name in its place, and nothing else. */
  ghost predicate AtOnce(t: Template, params: seq<Parameter>) {
    SubstituteAll(Some(t.Text()), params) == Built(Some(t.Bind(FirstValues(params)).Text()))
  }

  ghost predicate AlwaysAtOnce(t: Template, params: seq<Parameter>) {
    forall n | 0 <= n <= |params| :: AtOnce(t, params[..n])
  }

  /**
   What an argument has to be, seen from those before it: verbatim, if it is the first for a
   parameter of the template, and a way to write its own parameter, if a value in the template
   mentions that one.
   */
  ghost predicate Fits(t: Template, params: seq<Parameter>, j: nat)
    requires j < |params|
  {
    var (values, p) := (FirstValues(params[..j]), params[j]);
    p.Substitutes() ==>
      && (p.name !in values && Param(p.name) in t.segments ==> Verbatim(p.argument.value))
      && (Mentioned(t.segments, values, p.name) ==>
            Expand(p.argument.value, Pattern(p.name)) == Some(Pattern(p.name)))
  }

  ghost predicate AllFit(t: Template, params: seq<Parameter>) {
    forall j | 0 <= j < |params| :: Fits(t, params, j)
  }

  ghost predicate VerbatimArguments(params: seq<Parameter>) {
    forall p | p in params && p.Substitutes() :: Verbatim(p.argument.value)
  }

  /** Where the parameters before the last are at once, the last one decides. */
  lemma LastDecides(t: Template, params: seq<Parameter>)
    requires t.WellFormed() && NamesWellFormed(params)
    requires params != [] && AtOnce(t, params[..|params| - 1])
    ensures AtOnce(t, params) <==> Fits(t, params, |params| - 1)
  {
    hide ReplaceLiteral, Join, Framed, Expand, Mentioned, Template.Text, Template.Bind, Template.WellFormed;
    var (front, p) := (params[..|params| - 1], params[|params| - 1]);
    assert p in params;
    if p.Substitutes() {
      var (values, v) := (FirstValues(front), p.argument.value);
      assert p == Parameter(PATH, p.name, Some(v));
      if p.name in values {
        RepeatedStepIff(t, values, p.name, v);
      } else {
        StepIff(t, values, p.name, v);
      }
    }
  }

  /**
   Substituting the parameters one at a time puts, at every point, the first argument of each name
   in the place of its parameter and changes nothing else, if and only if all arguments fit:
   for every template, and for arguments of any text.
   */
  lemma {:induction false} OneAtATimeIsAtOnce(t: Template, params: seq<Parameter>)
    requires t.WellFormed() && NamesWellFormed(params)
    ensures AlwaysAtOnce(t, params) <==> AllFit(t, params)
  {
    if params == [] {
      NothingToDo(t);
    } else {
      OneAtATimeIsAtOnce(t, params[..|params| - 1]);
      FitsPrefix(t, params);
      AtOncePrefix(t, params);
      hide AllFit, AlwaysAtOnce, AtOnce, Fits, Template.WellFormed;
      if AlwaysAtOnce(t, params[..|params| - 1]) {
        LastDecides(t, params);
      }
    }
  }

  lemma NothingToDo(t: Template)
    ensures AlwaysAtOnce(t, []) && AllFit(t, [])
  {
    hide Join, Framed;
    assert t.Bind(map[]).segments == t.segments;
    var none: seq<Parameter> := [];
    assert AtOnce(t, none);
    assert none[..0] == none;
  }

  lemma AtOncePrefix(t: Template, params: seq<Parameter>)
    requires params != []
    ensures AlwaysAtOnce(t, params) <==> AlwaysAtOnce(t, params[..|params| - 1]) && AtOnce(t, params)
    ensures AlwaysAtOnce(t, params[..|params| - 1]) ==> AtOnce(t, params[..|params| - 1])
  {
    hide AtOnce;
    var front := params[..|params| - 1];
    assert forall n | 0 <= n <= |front| :: params[..n] == front[..n];
    assert params[..|params|] == params && front[..|front|] == front;
  }

  lemma FitsPrefix(t: Template, params: seq<Parameter>)
    requires params != []
    ensures AllFit(t, params) <==> AllFit(t, params[..|params| - 1]) && Fits(t, params, |params| - 1)
  {
    hide Expand, Mentioned, FirstValues;
    var front := params[..|params| - 1];
    forall j | 0 <= j < |front| ensures Fits(t, params, j) <==> Fits(t, front, j) {
      assert params[..j] == front[..j];
    }
  }

  // ---- What that means for verbatim arguments ----

  /** No argument for a parameter of the template contains the pattern of another one. */
  ghost predicate Unmentioned(t: Template, params: seq<Parameter>) {
    forall p, q | p in params && q in params && p.Substitutes() && q.Substitutes() && p.name != q.name ::
      Param(p.name) in t.segments ==> !Occurs(p.argument.value, Pattern(q.name))
  }

  /** The sequence of an argument and a later one whose parameter it contains. */
  ghost predicate Mentions(t: Template, params: seq<Parameter>, i: nat, j: nat)
    requires i < j < |params|
  {
    && params[i].Substitutes() && params[j].Substitutes()
    && Param(params[i].name) in t.segments
    && Occurs(params[i].argument.value, Pattern(params[j].name))
  }

  /** A value that mentions a parameter was the argument of an earlier one. */
  lemma MentionHasSource(t: Template, params: seq<Parameter>, j: nat)
    requires j < |params| && params[j].Substitutes()
    requires Mentioned(t.segments, FirstValues(params[..j]), params[j].name)
    ensures exists i :: 0 <= i < j && Mentions(t, params, i, j)
  {
    hide Occurs, Pattern;
    var values := FirstValues(params[..j]);
    FirstValuesAreGiven(params[..j]);
    var n :| n in values && Param(n) in t.segments && Occurs(values[n], Pattern(params[j].name));
    var q :| q in params[..j] && q.Substitutes() && q.name == n && q.argument.value == values[n];
    var i :| 0 <= i < j && params[i] == q;
    assert Mentions(t, params, i, j);
  }

  lemma MentionIsFound(t: Template, params: seq<Parameter>, i: nat, j: nat)
    requires DistinctNames(params) && i < j < |params| && Mentions(t, params, i, j)
    ensures Mentioned(t.segments, FirstValues(params[..j]), params[j].name)
  {
    hide Occurs, Pattern, FirstValues;
    var front := params[..j];
    FirstValuesAreTheArguments(front);
    assert front[i] == params[i] && front[i] in front;
  }

  lemma NoMentionFits(t: Template, params: seq<Parameter>)
    requires NamesWellFormed(params) && VerbatimArguments(params)
    requires forall i, j | 0 <= i < j < |params| :: !Mentions(t, params, i, j)
    ensures AllFit(t, params)
  {
    hide Occurs, Expand, Pattern, Mentions, Mentioned, FirstValues;
    forall j | 0 <= j < |params| ensures Fits(t, params, j) {
      assert params[j] in params;
      if params[j].Substitutes() && Mentioned(t.segments, FirstValues(params[..j]), params[j].name) {
        MentionHasSource(t, params, j);
        assert false;
      }
    }
  }

  /** Verbatim arguments are substituted at once where none contains the parameter of a later one. */
  lemma UnmentionedIsAtOnce(t: Template, params: seq<Parameter>)
    requires t.WellFormed() && NamesWellFormed(params) && VerbatimArguments(params)
    requires forall i, j | 0 <= i < j < |params| :: !Mentions(t, params, i, j)
    ensures SubstituteAll(Some(t.Text()), params) == Built(Some(t.Bind(FirstValues(params)).Text()))
  {
    hide Template.WellFormed, AllFit, Mentions;
    NoMentionFits(t, params);
    OneAtATimeIsAtOnce(t, params);
    assert AtOnce(t, params[..|params|]) && params[..|params|] == params;
  }

  /** The whole condition for verbatim arguments with distinct names: a mention must be put back as it is. */
  lemma VerbatimAtOnceIff(t: Template, params: seq<Parameter>)
    requires t.WellFormed() && NamesWellFormed(params) && VerbatimArguments(params) && DistinctNames(params)
    ensures AlwaysAtOnce(t, params) <==>
            forall i, j | 0 <= i < j < |params| && Mentions(t, params, i, j) ::
              params[j].argument.value == Pattern(params[j].name)
  {
    hide AlwaysAtOnce, Occurs, Pattern, Fits;
    OneAtATimeIsAtOnce(t, params);
    forall j | 0 <= j < |params|
      ensures Fits(t, params, j) <==> forall i | 0 <= i < j && Mentions(t, params, i, j) ::
                                        params[j].argument.value == Pattern(params[j].name)
    {
      VerbatimFitsIff(t, params, j);
    }
  }

  lemma VerbatimFitsIff(t: Template, params: seq<Parameter>, j: nat)
    requires VerbatimArguments(params) && DistinctNames(params) && j < |params|
    ensures Fits(t, params, j) <==> forall i | 0 <= i < j && Mentions(t, params, i, j) ::
                                      params[j].argument.value == Pattern(params[j].name)
  {
    hide Expand, Pattern, Mentioned, FirstValues, Occurs;
    assert params[j] in params;
    if params[j].Substitutes() {
      VerbatimExpandsToItself(params[j].argument.value, Pattern(params[j].name));
      if Mentioned(t.segments, FirstValues(params[..j]), params[j].name) {
        MentionHasSource(t, params, j);
      }
      forall i | 0 <= i < j && Mentions(t, params, i, j)
        ensures Mentioned(t.segments, FirstValues(params[..j]), params[j].name)
      {
        MentionIsFound(t, params, i, j);
      }
    }
  }

  lemma TwoSegments(g: Segment, h: Segment)
    ensures Template(false, [g, h], false).Text() == g.Text() + "/" + h.Text()
  {
    assert Texts([g, h]) == [g.Text(), h.Text()];
    JoinTwo(g.Text(), h.Text());
    FramedCases(false, Join(Texts([g, h])), false);
  }

  lemma JoinTwo(x: string, y: string)
    ensures Join([x, y]) == x + "/" + y
  {
    assert [x, y][1..] == [y];
  }

  const ab := Template(false, [Param("a"), Param("b")], false)
  const bForA := Parameter(PATH, "a", Some("{b}"))
  const xForB := Parameter(PATH, "b", Some("x"))

  lemma ExampleIsVerbatim()
    ensures ab.WellFormed() && NamesWellFormed([bForA, xForB])
    ensures VerbatimArguments([bForA, xForB])
  {
  }

  lemma ExampleValues()
    ensures FirstValues([bForA]) == map["a" := "{b}"]
    ensures FirstValues([bForA, xForB]) == map["a" := "{b}", "b" := "x"]
  {
    FirstValuesAppend([], bForA);
    FirstValuesAppend([bForA], xForB);
    assert [] + [bForA] == [bForA] && [bForA] + [xForB] == [bForA, xForB];
  }

  /** An argument that names a later parameter is substituted again: `{a}/{b}` with `{b}` for a and `x` for b. */
  lemma ArgumentIsSubstitutedAgain()
    ensures VerbatimArguments([bForA, xForB])
    ensures SubstituteAll(Some(ab.Text()), [bForA, xForB]) == Built(Some("x/x"))
    ensures ab.Bind(FirstValues([bForA, xForB])).Text() == "{b}/x"
  {
    hide SubstituteAll, FirstValues, VerbatimArguments, Template.Text, Template.Bind;
    ExampleIsVerbatim();
    ExampleValues();
    ExampleEnds();
    ExampleExpected();
  }

  lemma ExampleExpected()
    ensures ab.Bind(map["a" := "{b}", "b" := "x"]).Text() == "{b}/x"
  {
    hide Template.Text;
    TwoSegments(Literal("{b}"), Literal("x"));
    assert ab.Bind(map["a" := "{b}", "b" := "x"]).segments == [Literal("{b}"), Literal("x")];
  }

  lemma ExampleEnds()
    ensures SubstituteAll(Some(ab.Text()), [bForA, xForB]) == Built(Some("x/x"))
  {
    hide ReplaceLiteral, Template.Text, Template.Bind, SubstituteAll, ReplaceAll, FirstValues, Mentions;
    ExampleIsVerbatim();
    ExampleValues();
    var s := ab.Bind(map["a" := "{b}"]).Text();
    UnmentionedIsAtOnce(ab, [bForA]);
    SubstituteAppend(Some(ab.Text()), [bForA], xForB);
    assert [bForA] + [xForB] == [bForA, xForB];
    SubstitutedAgain(ab, map["a" := "{b}"]);
    VerbatimReplaceAll(s, "{b}", "x");
    assert "{" + xForB.name + "}" == "{b}";
  }

  lemma SubstituteAppend(uri: Option<string>, params: seq<Parameter>, p: Parameter)
    ensures SubstituteAll(uri, params + [p]) == Substitute(SubstituteAll(uri, params), p)
  {
    assert (params + [p])[..|params|] == params;
  }

  lemma SubstitutedAgain(t: Template, values: map<string, string>)
    requires t == Template(false, [Param("a"), Param("b")], false) && values == map["a" := "{b}"]
    ensures ReplaceLiteral(t.Bind(values).Text(), "{b}", "x") == "x/x"
  {
    hide ReplaceLiteral, Replaced;
    assert Pattern("b") == "{b}";
    var pieces := Replaced(t.segments, values, "b", "x");
    ReplaceBound(t, values, "b", "x");
    ReplacedAt(t.segments, values, "b", "x", 0);
    ReplacedAt(t.segments, values, "b", "x", 1);
    ReplaceHere("", "{b}", "x");
    NoOccurrenceNoChange("", "{b}", "x");
    assert "{b}" + "" == "{b}" && "x" + "" == "x";
    assert pieces == ["x", "x"];
    JoinTwo("x", "x");
    FramedCases(false, Join(pieces), false);
  }

  /** Arguments that contain no parameter of each other may be substituted in any order. */
  lemma OrderIsIrrelevantUnlessMentioned(t: Template, params: seq<Parameter>, params': seq<Parameter>)
    requires t.WellFormed() && NamesWellFormed(params) && VerbatimArguments(params)
    requires DistinctNames(params) && Unmentioned(t, params) && multiset(params) == multiset(params')
    ensures SubstituteAll(Some(t.Text()), params) == SubstituteAll(Some(t.Text()), params')
  {
    hide Substitute, SubstituteAll, Occurs, Template.WellFormed;
    assert forall p :: p in params <==> p in params' by {
      assert forall p :: p in params <==> p in multiset(params);
      assert forall p :: p in params' <==> p in multiset(params');
    }
    DistinctAnyOrder(params, params');
    FirstValuesAreTheArguments(params);
    FirstValuesAreTheArguments(params');
    assert FirstValues(params) == FirstValues(params');
    NoneMentions(t, params);
    NoneMentions(t, params');
    UnmentionedIsAtOnce(t, params);
    UnmentionedIsAtOnce(t, params');
  }

  lemma NoneMentions(t: Template, params: seq<Parameter>)
    requires DistinctNames(params) && Unmentioned(t, params)
    ensures forall i, j | 0 <= i < j < |params| :: !Mentions(t, params, i, j)
  {
    hide Occurs;
    forall i, j | 0 <= i < j < |params| ensures !Mentions(t, params, i, j) {
      assert params[i] in params && params[j] in params;
    }
  }
}
