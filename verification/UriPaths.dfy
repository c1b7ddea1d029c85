/**
 The strings of URI paths: Java's `split("/")`, its inverse, and the host framework's two
 path helpers.
 */
module UriPaths {
  import opened Options

  /** All the pieces between slashes, empty ones included; never the empty list. */
  function Tokens(s: string): (ts: seq<string>)
    ensures |ts| >= 1
  {
    if s == "" then [""]
    else
      var rest := Tokens(s[1..]);
      if s[0] == '/' then [""] + rest else [[s[0]] + rest[0]] + rest[1..]
  }

  function DropTrailingEmpty(ts: seq<string>): seq<string> {
    if ts != [] && ts[|ts| - 1] == "" then DropTrailingEmpty(ts[..|ts| - 1]) else ts
  }

  /** Keeps a leading empty token, drops the trailing ones; without a slash, the whole string. */
  function JavaSplit(s: string): seq<string> {
    if '/' !in s then [s] else DropTrailingEmpty(Tokens(s))
  }

  function Join(ts: seq<string>): string {
    if ts == [] then ""
    else if |ts| == 1 then ts[0]
    else ts[0] + "/" + Join(ts[1..])
  }

  /** One leading slash, without one trailing slash; nothing stays nothing. */
  function NormalizeUriPath(path: Option<string>): string {
    if path.None? || path.value == "" then ""
    else
      var p := path.value;
      var stripped := if p[|p| - 1] == '/' then p[..|p| - 1] else p;
      if stripped != "" && stripped[0] == '/' then stripped else "/" + stripped
  }

  function BuildUriPath(parent: Option<string>, child: Option<string>): string {
    NormalizeUriPath(parent) + NormalizeUriPath(child)
  }

  ghost predicate SlashFree(ts: seq<string>) {
    forall t | t in ts :: '/' !in t
  }

  ghost predicate NonEmpty(ts: seq<string>) {
    forall t | t in ts :: t != ""
  }

  lemma {:induction false} TokensOfOne(x: string)
    requires '/' !in x
    ensures Tokens(x) == [x]
  {
    if x != "" {
      TokensOfOne(x[1..]);
      assert x == [x[0]] + x[1..];
    }
  }

  lemma {:induction false} TokensOfFirst(x: string, rest: string)
    requires '/' !in x
    ensures Tokens(x + "/" + rest) == [x] + Tokens(rest)
  {
    if x == "" {
      assert (x + "/" + rest)[1..] == rest;
    } else {
      TokensOfFirst(x[1..], rest);
      assert (x + "/" + rest)[1..] == x[1..] + "/" + rest;
      assert x == [x[0]] + x[1..];
    }
  }

  /** Splitting undoes joining. */
  lemma {:induction false} TokensOfJoin(ts: seq<string>)
    requires ts != [] && SlashFree(ts)
    ensures Tokens(Join(ts)) == ts
  {
    if |ts| == 1 {
      TokensOfOne(ts[0]);
    } else {
      TokensOfJoin(ts[1..]);
      TokensOfFirst(ts[0], Join(ts[1..]));
    }
  }

  /** Joining undoes splitting. */
  lemma {:induction false} JoinOfTokens(s: string)
    ensures Join(Tokens(s)) == s && SlashFree(Tokens(s))
  {
    if s != "" {
      var rest := Tokens(s[1..]);
      JoinOfTokens(s[1..]);
      if s[0] == '/' {
        assert ([""] + rest)[1..] == rest;
      } else if |rest| > 1 {
        assert ([[s[0]] + rest[0]] + rest[1..])[1..] == rest[1..];
      }
      assert s == [s[0]] + s[1..];
    }
  }

  lemma {:induction false} TokensOfTrailingSlash(s: string)
    ensures Tokens(s + "/") == Tokens(s) + [""]
  {
    if s != "" {
      TokensOfTrailingSlash(s[1..]);
      assert (s + "/")[1..] == s[1..] + "/";
    }
  }

  lemma {:induction false} JoinAppend(a: seq<string>, b: seq<string>)
    requires a != [] && b != []
    ensures Join(a + b) == Join(a) + "/" + Join(b)
  {
    if |a| == 1 {
      assert (a + b)[1..] == b;
    } else {
      JoinAppend(a[1..], b);
      assert (a + b)[1..] == a[1..] + b;
    }
  }

  lemma {:induction false} SlashesOfJoin(ts: seq<string>)
    requires SlashFree(ts)
    ensures '/' in Join(ts) <==> |ts| > 1
  {
    if |ts| > 1 {
      SlashesOfJoin(ts[1..]);
      assert Join(ts)[|ts[0]|] == '/';
    }
  }

  function Empties(n: nat): seq<string> {
    seq(n, i => "")
  }

  lemma {:induction false} DroppedAreEmpty(ts: seq<string>) returns (n: nat)
    ensures ts == DropTrailingEmpty(ts) + Empties(n)
    ensures DropTrailingEmpty(ts) != [] ==> DropTrailingEmpty(ts)[|DropTrailingEmpty(ts)| - 1] != ""
  {
    if ts != [] && ts[|ts| - 1] == "" {
      n := DroppedAreEmpty(ts[..|ts| - 1]);
      n := n + 1;
      assert Empties(n) == Empties(n - 1) + [""];
    } else {
      n := 0;
    }
  }

  /** A split leaves out the empty tokens at the end, and nothing else; without a slash it is the string. */
  lemma SplitIs(s: string) returns (n: nat)
    ensures '/' !in s ==> JavaSplit(s) == [s]
    ensures '/' in s ==> Tokens(s) == JavaSplit(s) + Empties(n)
    ensures '/' in s && JavaSplit(s) != [] ==> JavaSplit(s)[|JavaSplit(s)| - 1] != ""
  {
    n := DroppedAreEmpty(Tokens(s));
  }

  /** One trailing slash does not change a split. */
  lemma SplitOfTokens(s: string, ts: seq<string>)
    requires ts != [] && ts[|ts| - 1] != ""
    requires Tokens(s) == ts || Tokens(s) == ts + [""]
    ensures JavaSplit(s) == ts
  {
    if '/' !in s {
      TokensOfOne(s);
    } else {
      assert DropTrailingEmpty(ts) == ts;
      assert (ts + [""])[..|ts|] == ts && DropTrailingEmpty(ts + [""]) == ts;
    }
  }

  /** A path that starts with a slash splits the same before and after it is normalised. */
  lemma NormalizeKeepsTokens(p: string)
    requires p != "" && p[0] == '/' && p != "/"
    ensures JavaSplit(NormalizeUriPath(Some(p))) == JavaSplit(p)
  {
    if p[|p| - 1] == '/' {
      var q := p[..|p| - 1];
      assert p == q + "/" && q[0] == p[0];
      TokensOfTrailingSlash(q);
      assert (Tokens(q) + [""])[..|Tokens(q)|] == Tokens(q);
    }
  }
}
