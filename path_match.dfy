/**
 * Path exemption (`isIgnoredPath`). The request path gets a leading `/`
 * and every run of `/` is collapsed to one; each configured pattern has its
 * trailing `/`s stripped and matches the path itself or any sub-path of it.
 * The source's loop returns on its first iteration, so only the FIRST
 * configured pattern is ever consulted; `IsIgnoredPath` reproduces that,
 * and `IsIgnoredByAny` is the intent the settings comment documents (every
 * pattern consulted), kept as a reference to compare against.
 *
 * Patterns are matched as literal text: the source interpolates them into a
 * regular expression unescaped, and the model assumes they hold no regular
 * expression metacharacters. The path is assumed to hold no raw line feed,
 * which PCRE's `$` and `.` treat specially.
 */
module PathMatch {

  /** No `/` is immediately followed by another `/`. */
  predicate NoRepeatedSlash(s: string) {
    forall i :: 0 <= i < |s| - 1 ==> !(s[i] == '/' && s[i + 1] == '/')
  }

  /** `preg_replace("#/+#", "/", s)`: every run of `/` becomes a single `/`. */
  function CollapseSlashes(s: string): (r: string)
    ensures |r| <= |s|
    ensures |s| > 0 ==> |r| > 0 && r[0] == s[0] && r[|r| - 1] == s[|s| - 1]
  {
    if |s| < 2 then s
    else if s[0] == '/' && s[1] == '/' then CollapseSlashes(s[1..])
    else [s[0]] + CollapseSlashes(s[1..])
  }

  /** After collapsing, no two `/` are adjacent. */
  lemma {:induction false} CollapseHasNoRepeatedSlash(s: string)
    ensures NoRepeatedSlash(CollapseSlashes(s))
  {
    if |s| >= 2 {
      CollapseHasNoRepeatedSlash(s[1..]);
      if !(s[0] == '/' && s[1] == '/') {
        var rest := CollapseSlashes(s[1..]);
        var r := [s[0]] + rest;
        assert rest[0] == s[1];
        forall i | 0 <= i < |r| - 1
          ensures !(r[i] == '/' && r[i + 1] == '/')
        {
          if i > 0 {
            assert r[i] == rest[i - 1] && r[i + 1] == rest[i];
          }
        }
      }
    }
  }

  /** A string without repeated `/` is left as it is, so collapsing is idempotent. */
  lemma {:induction false} CollapseKeepsCollapsed(s: string)
    requires NoRepeatedSlash(s)
    ensures CollapseSlashes(s) == s
  {
    if |s| >= 2 {
      assert !(s[0] == '/' && s[1] == '/');
      assert NoRepeatedSlash(s[1..]) by {
        forall i | 0 <= i < |s[1..]| - 1
          ensures !(s[1..][i] == '/' && s[1..][i + 1] == '/')
        {
          assert s[1..][i] == s[i + 1] && s[1..][i + 1] == s[i + 2];
        }
      }
      CollapseKeepsCollapsed(s[1..]);
      assert [s[0]] + s[1..] == s;
    }
  }

  /** Collapsing the front of a string gives a prefix of collapsing the whole. */
  lemma {:induction false} CollapsePrefix(a: string, b: string)
    ensures CollapseSlashes(a) <= CollapseSlashes(a + b)
  {
    if |a| >= 2 {
      assert (a + b)[1..] == a[1..] + b;
      CollapsePrefix(a[1..], b);
    } else if |a| == 1 {
      assert (a + b)[0] == a[0];
      if |a + b| >= 2 {
        assert CollapseSlashes(a + b)[0] == a[0];
      }
    } else {
      assert a + b == b;
    }
  }

  /** Appending `/` and more to a string that does not end in `/` keeps that `/` after the collapsed front. */
  lemma {:induction false} CollapseSeparator(a: string, y: string)
    requires a != [] && a[|a| - 1] != '/'
    ensures CollapseSlashes(a) + "/" <= CollapseSlashes(a + "/" + y)
  {
    var s := a + "/" + y;
    assert s[0] == a[0];
    if |a| == 1 {
      assert s[1..] == "/" + y;
      assert CollapseSlashes(s) == [a[0]] + CollapseSlashes("/" + y);
      assert CollapseSlashes("/" + y)[0] == '/';
    } else {
      assert s[1] == a[1];
      assert s[1..] == a[1..] + "/" + y;
      CollapseSeparator(a[1..], y);
    }
  }

  /** The normalised request path: `/` prefixed, runs of `/` collapsed. */
  function Normalize(path: string): (uri: string)
    ensures |uri| > 0 && uri[0] == '/'
    ensures NoRepeatedSlash(uri)
  {
    CollapseHasNoRepeatedSlash("/" + path);
    CollapseSlashes("/" + path)
  }

  /** `rtrim(p, "/")`: the longest prefix of `p` that does not end in `/`. */
  function TrimTrailingSlashes(p: string): (t: string)
    ensures t <= p
    ensures t == [] || t[|t| - 1] != '/'
    ensures forall i :: |t| <= i < |p| ==> p[i] == '/'
  {
    if p != [] && p[|p| - 1] == '/' then TrimTrailingSlashes(p[..|p| - 1]) else p
  }

  /** `^pattern(/.*)?$` read literally: the path is the pattern or lies below it. */
  predicate Matches(pattern: string, uri: string)
    ensures Matches(pattern, uri) <==> pattern <= uri && (|uri| == |pattern| || uri[|pattern|] == '/')
  {
    assert pattern + "/" <= uri <==> pattern <= uri && |uri| > |pattern| && uri[|pattern|] == '/' by {
      if pattern <= uri && |uri| > |pattern| && uri[|pattern|] == '/' {
        assert uri[..|pattern| + 1] == pattern + "/";
      }
    }
    uri == pattern || pattern + "/" <= uri
  }

  /** `isIgnoredPath` as written: false for an empty list, otherwise the verdict of the first pattern alone. */
  predicate IsIgnoredPath(ignoredPaths: seq<string>, path: string)
    ensures ignoredPaths == [] ==> !IsIgnoredPath(ignoredPaths, path)
    ensures IsIgnoredPath(ignoredPaths, path) ==> TrimTrailingSlashes(ignoredPaths[0]) <= Normalize(path)
  {
    if ignoredPaths == [] then false
    else Matches(TrimTrailingSlashes(ignoredPaths[0]), Normalize(path))
  }

  /** The documented intent: a path is ignored when ANY configured pattern, on its own, would ignore it. */
  predicate IsIgnoredByAny(ignoredPaths: seq<string>, path: string)
    ensures IsIgnoredByAny(ignoredPaths, path)
        <==> exists i :: 0 <= i < |ignoredPaths| && IsIgnoredPath([ignoredPaths[i]], path)
  {
    exists i :: 0 <= i < |ignoredPaths| && Matches(TrimTrailingSlashes(ignoredPaths[i]), Normalize(path))
  }

  /** The verdict depends on the first pattern only: an empty list ignores nothing, and lists with the same first pattern agree. */
  lemma OnlyFirstPatternConsulted(ps: seq<string>, qs: seq<string>, path: string)
    requires ps != [] && qs != [] && ps[0] == qs[0]
    ensures IsIgnoredPath(ps, path) == IsIgnoredPath(qs, path) == IsIgnoredPath([ps[0]], path)
    ensures !IsIgnoredPath([], path)
  {
  }

  /** The code never ignores a path the documented behaviour would log, and it agrees with it for lists of at most one pattern. */
  lemma AsWrittenUnderApproximates(ps: seq<string>, path: string)
    ensures IsIgnoredPath(ps, path) ==> IsIgnoredByAny(ps, path)
    ensures |ps| <= 1 ==> (IsIgnoredPath(ps, path) <==> IsIgnoredByAny(ps, path))
  {
    if IsIgnoredPath(ps, path) {
      assert Matches(TrimTrailingSlashes(ps[0]), Normalize(path));
    }
  }

  /** A run of `n` slashes. */
  function Slashes(n: nat): (r: string)
    ensures |r| == n && forall i :: 0 <= i < n ==> r[i] == '/'
  {
    seq(n, _ => '/')
  }

  /** No character of `w` is `/`. */
  predicate SlashFree(w: string) {
    forall i :: 0 <= i < |w| ==> w[i] != '/'
  }

  /** A character other than `/` in front is kept, and the rest collapses on its own. */
  lemma CollapseCons(c: char, t: string)
    requires c != '/'
    ensures CollapseSlashes([c] + t) == [c] + CollapseSlashes(t)
  {
    var s := [c] + t;
    assert s[0] == c;
    if |s| >= 2 {
      assert s[1..] == t;
    } else {
      assert t == [];
    }
  }

  /** A slash-free word passes through collapsing unchanged. */
  lemma {:induction false} CollapseWord(w: string, rest: string)
    requires SlashFree(w)
    ensures CollapseSlashes(w + rest) == w + CollapseSlashes(rest)
  {
    if w == [] {
      assert w + rest == rest;
    } else {
      var tail := w[1..];
      assert SlashFree(tail) by {
        forall i | 0 <= i < |tail| ensures tail[i] != '/' {
          assert tail[i] == w[i + 1];
        }
      }
      assert w + rest == [w[0]] + (tail + rest);
      CollapseCons(w[0], tail + rest);
      CollapseWord(tail, rest);
      assert [w[0]] + (tail + CollapseSlashes(rest)) == w + CollapseSlashes(rest);
    }
  }

  /** A run of one or more slashes before a non-slash collapses to one slash. */
  lemma {:induction false} CollapseRun(n: nat, rest: string)
    requires n >= 1 && (rest == [] || rest[0] != '/')
    ensures CollapseSlashes(Slashes(n) + rest) == "/" + CollapseSlashes(rest)
  {
    var s := Slashes(n) + rest;
    if n == 1 {
      assert s == "/" + rest;
      if rest != [] {
        assert s[1..] == rest;
      }
    } else {
      assert s[0] == '/' && s[1] == '/';
      assert s[1..] == Slashes(n - 1) + rest;
      CollapseRun(n - 1, rest);
    }
  }

  /** A word behind any number of slashes normalises to `/word`. */
  lemma NormalizeWord(n: nat, w: string)
    requires w != [] && SlashFree(w)
    ensures Normalize(Slashes(n) + w) == "/" + w
  {
    assert "/" + (Slashes(n) + w) == Slashes(n + 1) + w;
    CollapseRun(n + 1, w);
    CollapseWord(w, "");
    assert w + "" == w;
  }

  /** `word` and `sub` separated by runs of slashes normalise to `/word/sub`. */
  lemma NormalizeWordPath(n: nat, w: string, m: nat, sub: string)
    requires w != [] && SlashFree(w) && SlashFree(sub) && m >= 1
    ensures Normalize(Slashes(n) + w + Slashes(m) + sub) == "/" + w + "/" + sub
  {
    var tail := Slashes(m) + sub;
    assert (w + tail)[0] == w[0];
    calc {
      Normalize(Slashes(n) + w + Slashes(m) + sub);
      { assert "/" + (Slashes(n) + w + Slashes(m) + sub) == Slashes(n + 1) + (w + tail); }
      CollapseSlashes(Slashes(n + 1) + (w + tail));
      { CollapseRun(n + 1, w + tail); }
      "/" + CollapseSlashes(w + tail);
      { CollapseWord(w, tail); }
      "/" + (w + CollapseSlashes(tail));
      { CollapseRun(m, sub); }
      "/" + (w + ("/" + CollapseSlashes(sub)));
      { CollapseWord(sub, ""); assert sub + "" == sub; }
      "/" + (w + ("/" + sub));
    }
  }

  /** The defect: a path that matches only the second configured pattern is still logged. */
  lemma SecondPatternNeverConsulted()
    ensures IsIgnoredByAny(["/health", "/authorize"], "/authorize/login")
    ensures !IsIgnoredPath(["/health", "/authorize"], "/authorize/login")
  {
    assert "/authorize/login" == Slashes(1) + "authorize" + Slashes(1) + "login";
    NormalizeWordPath(1, "authorize", 1, "login");
    var uri := Normalize("/authorize/login");
    assert TrimTrailingSlashes("/authorize") == "/authorize";
    assert TrimTrailingSlashes("/health") == "/health";
    assert Matches(TrimTrailingSlashes(["/health", "/authorize"][1]), uri);
    assert uri[1] == 'a';
  }

  /** The documented example: `/authorize` (with or without a trailing `/`) covers itself and its sub-paths, even with doubled slashes, but not `/auth`. */
  lemma AuthorizeExamples(pattern: string)
    requires pattern == "/authorize" || pattern == "/authorize/"
    ensures IsIgnoredPath([pattern], "/authorize")
    ensures IsIgnoredPath([pattern], "/authorize/")
    ensures IsIgnoredPath([pattern], "/authorize/login")
    ensures IsIgnoredPath([pattern], "//authorize///login")
    ensures !IsIgnoredPath([pattern], "/auth")
  {
    assert TrimTrailingSlashes(pattern) == "/authorize";
    AuthorizeNormalForms();
    DoubledSlashesNormalForm();
  }

  /** The normal forms of the example paths without doubled slashes. */
  lemma AuthorizeNormalForms()
    ensures Normalize("/authorize") == "/authorize"
    ensures Normalize("/authorize/") == "/authorize/"
    ensures Normalize("/authorize/login") == "/authorize/login"
    ensures Normalize("/auth") == "/auth"
  {
    var w := "authorize";
    assert "/authorize" == Slashes(1) + w;
    NormalizeWord(1, w);
    assert "/authorize/" == Slashes(1) + w + Slashes(1) + "";
    NormalizeWordPath(1, w, 1, "");
    assert "/authorize/login" == Slashes(1) + w + Slashes(1) + "login";
    NormalizeWordPath(1, w, 1, "login");
    assert "/auth" == Slashes(1) + "auth";
    NormalizeWord(1, "auth");
  }

  /** Doubled slashes before and after `authorize` collapse. */
  lemma DoubledSlashesNormalForm()
    ensures Normalize("//authorize///login") == "/authorize/login"
  {
    assert "//authorize///login" == Slashes(2) + "authorize" + Slashes(3) + "login";
    NormalizeWordPath(2, "authorize", 3, "login");
  }

  /** A pattern made only of `/` trims to nothing and so ignores every path. */
  lemma SlashOnlyPatternIgnoresEverything(ps: seq<string>, path: string)
    requires ps != [] && TrimTrailingSlashes(ps[0]) == ""
    ensures IsIgnoredPath(ps, path)
  {
    assert "/" <= Normalize(path);
  }

  /** Every sub-path of an ignored path is ignored too. */
  lemma SubPathOfIgnoredIsIgnored(ps: seq<string>, path: string, rest: string)
    requires IsIgnoredPath(ps, path)
    ensures IsIgnoredPath(ps, path + "/" + rest)
  {
    var t := TrimTrailingSlashes(ps[0]);
    var a := "/" + path;
    assert "/" + (path + "/" + rest) == a + ("/" + rest);
    assert a + ("/" + rest) == a + "/" + rest;
    CollapsePrefix(a, "/" + rest);
    if Normalize(path) == t {
      assert a[|a| - 1] == CollapseSlashes(a)[|CollapseSlashes(a)| - 1];
      CollapseSeparator(a, rest);
    }
  }
}
