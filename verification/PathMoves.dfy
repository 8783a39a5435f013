/** What the parts of a target do, one after the other: a name goes down, "." stays,
    ".." goes up one directory, and a path is its parts in turn. */
module PathMoves {
  import opened Options
  import opened PathNormal

  // ----- tokens of joined paths

  lemma ScanTail(p: string, b: string, i: nat, seps: bool)
    requires i <= |b|
    ensures Scan(p + b, "/", |p| + i, seps) == |p| + Scan(b, "/", i, seps)
  {
    hide Scan;
    var s, j := p + b, Scan(b, "/", i, seps);
    forall k | |p| + i <= k < |p| + j ensures (s[k] in "/") == seps { assert s[k] == b[k - |p|]; }
    if j < |b| { assert s[|p| + j] == b[j]; }
    ScanIs(s, "/", |p| + i, seps, |p| + j);
  }

  lemma TailSlice(p: string, b: string, a: nat, e: nat)
    requires a <= e <= |b|
    ensures (p + b)[|p| + a..|p| + e] == b[a..e]
  {
  }

  lemma {:induction false} TokensTail(p: string, b: string, i: nat)
    requires i <= |b|
    ensures TokensFrom(p + b, "/", |p| + i) == TokensFrom(b, "/", i)
    decreases |b| - i
  {
    hide Scan, TokensFrom;
    TokensStep(b, i);
    TokensStep(p + b, |p| + i);
    ScanTail(p, b, i, true);
    var a := Scan(b, "/", i, true);
    if a < |b| {
      ScanTail(p, b, a, false);
      var e := Scan(b, "/", a, false);
      TailSlice(p, b, a, e);
      if e < |b| { TokensTail(p, b, e + 1); }
    }
  }

  /** A scan that stops inside the first part does not see the second. */
  lemma ScanHead(a: string, rest: string, i: nat, seps: bool)
    requires i <= |a| && Scan(a, "/", i, seps) < |a|
    ensures Scan(a + rest, "/", i, seps) == Scan(a, "/", i, seps)
  {
    hide Scan;
    ScanIs(a + rest, "/", i, seps, Scan(a, "/", i, seps));
  }

  /** A token of the first part is the same in the joined path. */
  lemma TokenEnds(a: string, b: string, x: nat)
    requires x <= |a|
    ensures var e := Scan(a, "/", x, false); var s := a + ("/" + b);
      e <= |a| && Scan(s, "/", x, false) == e && s[x..e] == a[x..e]
  {
    hide Scan;
    var e := Scan(a, "/", x, false);
    var s := a + ("/" + b);
    if e < |a| {
      ScanHead(a, "/" + b, x, false);
    } else {
      ScanIs(s, "/", x, false, |a|);
    }
  }

  /** The tokens of a joined path are those of both parts. */
  lemma {:induction false} TokensJoin(a: string, b: string, i: nat)
    requires i <= |a|
    ensures TokensFrom(a + ("/" + b), "/", i) == TokensFrom(a, "/", i) + Tokens(b, "/")
    decreases |a| - i
  {
    hide Scan, TokensFrom;
    BehindSlash(a, b);
    TokensStep(a, i);
    var x := Scan(a, "/", i, true);
    if x == |a| {
      SeparatorsSkipped(a, b, i);
    } else {
      NextToken(a, b, i);
      var e := Scan(a, "/", x, false);
      if e < |a| { TokensJoin(a, b, e + 1); }
    }
  }

  lemma BehindSlash(a: string, b: string)
    ensures TokensFrom(a + ("/" + b), "/", |a| + 1) == Tokens(b, "/")
  {
    hide TokensFrom;
    assert a + ("/" + b) == (a + "/") + b;
    TokensTail(a + "/", b, 0);
  }

  /** The token of the first part is the joined path's, and what follows it is next. */
  lemma NextToken(a: string, b: string, i: nat)
    requires i <= |a| && Scan(a, "/", i, true) < |a|
    ensures var x := Scan(a, "/", i, true); var e := Scan(a, "/", x, false);
      TokensFrom(a + ("/" + b), "/", i) == [a[x..e]] + TokensFrom(a + ("/" + b), "/", e + 1)
  {
    hide Scan, TokensFrom;
    TokensStep(a + ("/" + b), i);
    ScanHead(a, "/" + b, i, true);
    TokenEnds(a, b, Scan(a, "/", i, true));
  }

  lemma SeparatorsSkipped(a: string, b: string, i: nat)
    requires i <= |a| && Scan(a, "/", i, true) == |a|
    ensures TokensFrom(a + ("/" + b), "/", i) == TokensFrom(a + ("/" + b), "/", |a| + 1)
  {
    hide Scan, TokensFrom;
    var s := a + ("/" + b);
    ScanIs(s, "/", i, true, Scan(s, "/", |a| + 1, true));
    TokensStep(s, i);
    TokensStep(s, |a| + 1);
  }

  lemma {:induction false} WalkJoin(comps: seq<string>, p: seq<string>, q: seq<string>)
    ensures Walk(comps, p + q) == Walk(Walk(comps, p), q)
    decreases |p|
  {
    hide Enter;
    if p == [] {
      assert p + q == q;
    } else {
      assert (p + q)[0] == p[0] && (p + q)[1..] == p[1..] + q;
      WalkJoin(Enter(comps, p[0]), p[1..], q);
    }
  }

  // ----- one move

  /** A path as an earlier `cd` wrote it. */
  ghost predicate Written(path: string, comps: seq<string>) {
    AllClean(comps) && |comps| <= 31 && Fits(comps) && path == Render(comps)
  }

  /** From such a PWD the components are its own and then the target's. */
  lemma FromWritten(target: string, path: string, comps: seq<string>)
    requires Written(path, comps) && !Absolute(target)
    ensures Components(target, Some(path)) == Walk(comps, Tokens(target, "/"))
  {
    hide Tokens, Render, Fits, Walk;
    NormalPwd(comps);
  }

  lemma OneToken(name: string)
    requires Plain(name)
    ensures Tokens(name, "/") == [name] && !Absolute(name)
  {
    hide Scan, TokensFrom;
    TokensStep(name, 0);
    ScanIs(name, "/", 0, true, 0);
    ScanIs(name, "/", 0, false, |name|);
    assert name[0..|name|] == name;
  }

  /** A shorter path fits. */
  lemma FitsBelow(comps: seq<string>, c: string)
    requires AllClean(comps + [c]) && Fits(comps + [c])
    ensures Fits(comps) && AllClean(comps) && Clean(c)
  {
    var all := comps + [c];
    assert all[..|comps|] == comps && all[|comps|] == c;
    assert forall i :: 0 <= i < |comps| ==> comps[i] == all[i];
    RenderNext(all, |comps|);
    assert all[..|comps| + 1] == all;
    if |comps| == 1 { assert Render(comps) == "/" + comps[0] && Clean(comps[0]); }
  }

  lemma OneStep(part: string, path: string, comps: seq<string>)
    requires Written(path, comps) && Plain(part)
    ensures Components(part, Some(path)) == Enter(comps, part)
  {
    hide Tokens, Render, Fits, Enter;
    OneToken(part);
    FromWritten(part, path, comps);
  }

  lemma Settles(part: string, path: string, comps: seq<string>)
    requires Fits(comps) && Components(part, Some(path)) == comps
    ensures Resolve(part, Some(path)) == Render(comps)
  {
    hide Components, Render, Fits, Resolve;
    ResolveIsStackExactly(part, Some(path));
  }

  /** ".." goes up exactly one directory. */
  lemma GoesUp(comps: seq<string>, c: string)
    requires AllClean(comps + [c]) && |comps| < 31 && Fits(comps + [c])
    ensures Resolve("..", Some(Render(comps + [c]))) == Render(comps)
  {
    hide Components, Render, Fits, Resolve;
    FitsBelow(comps, c);
    OneStep("..", Render(comps + [c]), comps + [c]);
    assert (comps + [c])[..|comps|] == comps;
    Settles("..", Render(comps + [c]), comps);
  }

  /** "." and nothing stay. */
  lemma Stays(comps: seq<string>)
    requires AllClean(comps) && |comps| <= 31 && Fits(comps)
    ensures Resolve(".", Some(Render(comps))) == Render(comps) == Resolve("", Some(Render(comps)))
  {
    hide Components, Render, Fits, Resolve, Tokens;
    OneStep(".", Render(comps), comps);
    Settles(".", Render(comps), comps);
    FromWritten("", Render(comps), comps);
    EmptyTokens();
    Settles("", Render(comps), comps);
  }

  /** A name goes down, while there are fewer than 31 components. */
  lemma GoesDown(comps: seq<string>, c: string)
    requires AllClean(comps) && Clean(c) && |comps| <= 31 && Fits(comps)
    ensures |comps| < 31 && Fits(comps + [c]) ==> Resolve(c, Some(Render(comps))) == Render(comps + [c])
    ensures |comps| == 31 ==> Resolve(c, Some(Render(comps))) == Render(comps)
  {
    hide Components, Render, Fits, Resolve;
    OneStep(c, Render(comps), comps);
    if |comps| < 31 {
      if Fits(comps + [c]) { Settles(c, Render(comps), comps + [c]); }
    } else {
      Settles(c, Render(comps), comps);
    }
  }

  /** A target that starts at the root is the rest of it seen from the root, whatever
      the PWD; no PWD is the root. */
  lemma FromRoot(target: string, pwd: Option<string>)
    requires !Absolute(target)
    ensures Resolve("/" + target, pwd) == Resolve(target, Some("/")) == Resolve(target, None)
  {
    hide TokensFrom, Walk, RenderFirst;
    RootTokens();
    TokensJoin("", target, 0);
    EmptyTokens();
    assert "" + ("/" + target) == "/" + target;
    assert Tokens("/" + target, "/") == Tokens(target, "/");
  }

  // ----- one move after the other

  predicate CleanPwd(pwd: Option<string>) {
    pwd.Some? ==> AllClean(FirstParts(Tokens(pwd.value, "/")))
  }

  /** Changing to "a/b" is changing to a and then to b. */
  lemma TwoMoves(a: string, b: string, pwd: Option<string>)
    requires a != "" && !Absolute(b) && CleanPwd(pwd) && Fits(Components(a, pwd))
    ensures Resolve(a + "/" + b, pwd) == Resolve(b, Some(Resolve(a, pwd)))
  {
    hide Tokens, Render, Fits, Walk, RenderFirst;
    var comps := Components(a, pwd);
    ComponentsPlain(a, pwd);
    ResolvedIsNormal(a, pwd, None);
    TokensOfBoth(a, b);
    var base := if Absolute(a) then [] else FirstParts(Tokens(if pwd.Some? then pwd.value else "/", "/"));
    WalkJoin(base, Tokens(a, "/"), Tokens(b, "/"));
    assert Absolute(a + "/" + b) == Absolute(a);
    assert Components(a + "/" + b, pwd) == Components(b, Some(Resolve(a, pwd)));
  }

  lemma TokensOfBoth(a: string, b: string)
    ensures Tokens(a + "/" + b, "/") == Tokens(a, "/") + Tokens(b, "/")
  {
    hide TokensFrom;
    assert a + "/" + b == a + ("/" + b);
    TokensJoin(a, b, 0);
  }

  /** The text before the last slash; the root for a name in the root. */
  function Parent(path: string): string
    decreases |path|
  {
    if |path| <= 1 then "/"
    else if path[|path| - 1] == '/' then path[..|path| - 1]
    else Parent(path[..|path| - 1])
  }

  lemma {:induction false} ParentDropsName(dir: string, c: string)
    requires '/' !in c && dir != "" && dir[|dir| - 1] == '/'
    ensures Parent(dir + c) == if |dir| == 1 then "/" else dir[..|dir| - 1]
    decreases |c|
  {
    var path := dir + c;
    if c == "" {
      assert path == dir;
    } else {
      assert path[|path| - 1] == c[|c| - 1];
      assert path[..|path| - 1] == dir + c[..|c| - 1];
      ParentDropsName(dir, c[..|c| - 1]);
    }
  }

  lemma ParentOfRender(comps: seq<string>, c: string)
    requires Clean(c)
    ensures Parent(Render(comps + [c])) == Render(comps) && Parent(Render([])) == "/"
  {
    var all := comps + [c];
    assert all[..|comps|] == comps && all[..|comps| + 1] == all;
    RenderNext(all, |comps|);
    if comps == [] {
      ParentDropsName("/", c);
    } else {
      assert Render(comps) + "/" + c == (Render(comps) + "/") + c;
      RenderNotEmpty(comps);
      ParentDropsName(Render(comps) + "/", c);
    }
  }

  lemma RenderNotEmpty(comps: seq<string>)
    ensures Render(comps) != ""
  {
  }

  /** A target with "/.." behind it resolves to the parent of what it resolves to. */
  lemma ParentOfTarget(target: string, pwd: Option<string>)
    requires target != "" && CleanPwd(pwd) && Fits(Components(target, pwd))
    ensures Resolve(target + "/..", pwd) == Parent(Resolve(target, pwd))
  {
    hide Components, Render, Fits, Resolve, Parent, Tokens;
    var comps := Components(target, pwd);
    TwoMoves(target, "..", pwd);
    assert target + "/" + ".." == target + "/..";
    CleanExactly(pwd);
    ComponentsPlain(target, pwd);
    ResolveIsStackExactly(target, pwd);
    if comps == [] {
      ParentOfRender(comps, "a");
      RootIs();
      OneStep("..", Render(comps), comps);
      assert Components("..", Some(Render(comps))) == comps;
      Settles("..", Render(comps), comps);
    } else {
      var n := |comps| - 1;
      assert comps == comps[..n] + [comps[n]] && Clean(comps[n]);
      GoesUp(comps[..n], comps[n]);
      ParentOfRender(comps[..n], comps[n]);
    }
  }

  lemma RootIs()
    ensures Render([]) == "/"
  {
  }

  // ----- the text

  /** No two slashes meet, and only the root ends in one. */
  predicate Canonical(path: string) {
    && path != "" && path[0] == '/' && (|path| > 1 ==> path[|path| - 1] != '/')
    && forall i :: 0 <= i < |path| - 1 ==> path[i] != '/' || path[i + 1] != '/'
  }

  lemma RenderCanonicalFew(comps: seq<string>)
    requires AllClean(comps) && |comps| <= 1
    ensures Canonical(Render(comps)) && (comps != [] ==> |Render(comps)| > 1)
  {
    if comps != [] {
      assert Clean(comps[0]);
      NameBehindSlash("", comps[0]);
      assert "" + "/" + comps[0] == Render(comps);
    }
  }

  lemma {:induction false} RenderCanonical(comps: seq<string>)
    requires AllClean(comps)
    ensures Canonical(Render(comps)) && (comps != [] ==> |Render(comps)| > 1)
    decreases |comps|
  {
    hide Canonical;
    if |comps| <= 1 {
      RenderCanonicalFew(comps);
    } else {
      var n := |comps| - 1;
      RenderCanonical(comps[..n]);
      assert Clean(comps[n]);
      NameBehindSlash(Render(comps[..n]), comps[n]);
    }
  }

  lemma NameBehindSlash(dir: string, c: string)
    requires Clean(c) && (dir == "" || (Canonical(dir) && |dir| > 1))
    ensures Canonical(dir + "/" + c)
  {
    var path := dir + "/" + c;
    forall i | 0 <= i < |path| - 1 ensures path[i] != '/' || path[i + 1] != '/' {
      if i < |dir| {
        assert path[i] == dir[i];
        if i + 1 < |dir| { assert path[i + 1] == dir[i + 1]; }
      } else {
        assert path[i + 1] == c[i - |dir|];
      }
    }
    assert path[|path| - 1] == c[|c| - 1];
  }

  /** What fits is written without empty parts, in less than 512 characters. */
  lemma ResolvedIsCanonical(target: string, pwd: Option<string>)
    requires CleanPwd(pwd) && Fits(Components(target, pwd))
    ensures Canonical(Resolve(target, pwd)) && |Resolve(target, pwd)| < 512
  {
    hide Components, Render, Resolve, Canonical, Tokens;
    CleanExactly(pwd);
    ResolveIsStackExactly(target, pwd);
    RenderCanonical(Components(target, pwd));
  }
}
