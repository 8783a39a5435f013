/** The shell's `cd`: tokens of a path, the component stack, and the canonical
    absolute path written out. */
module PathNormal {
  import opened Options

  const MAX_PARTS: nat := 31
  const MAX_PATH: nat := 512

  // ----- tokens

  /** The first position from `i` on that is, or is not, a separator. */
  function Scan(s: string, sep: string, i: nat, seps: bool): (j: nat)
    requires i <= |s|
    ensures i <= j <= |s| && (forall k :: i <= k < j ==> (s[k] in sep) == seps) && (j < |s| ==> (s[j] in sep) != seps)
    decreases |s| - i
  {
    if i == |s| || (s[i] in sep) != seps then i else Scan(s, sep, i + 1, seps)
  }

  /** What repeated `strtok` calls give from position `i` on. */
  function TokensFrom(s: string, sep: string, i: nat): seq<string>
    requires i <= |s|
    decreases |s| - i
  {
    var a := Scan(s, sep, i, true);
    if a == |s| then []
    else
      var e := Scan(s, sep, a, false);
      [s[a..e]] + if e == |s| then [] else TokensFrom(s, sep, e + 1)
  }

  /** `strsplit`. */
  function Tokens(s: string, sep: string): seq<string> {
    TokensFrom(s, sep, 0)
  }

  // ----- the component stack

  /** One component of the target: "." stays, ".." goes up, others are pushed while
      there is room. */
  function Enter(comps: seq<string>, part: string): seq<string> {
    if part == "." then comps
    else if part == ".." then if comps == [] then comps else comps[..|comps| - 1]
    else if |comps| < MAX_PARTS then comps + [part]
    else comps
  }

  function Walk(comps: seq<string>, parts: seq<string>): seq<string>
    decreases |parts|
  {
    if parts == [] then comps else Walk(Enter(comps, parts[0]), parts[1..])
  }

  predicate Absolute(target: string) {
    target != [] && target[0] == '/'
  }

  function FirstParts(parts: seq<string>): seq<string> {
    if |parts| <= MAX_PARTS then parts else parts[..MAX_PARTS]
  }

  /** The stack that `__builtin_cd__resolve` ends with; no PWD means the root. */
  function Components(target: string, pwd: Option<string>): seq<string> {
    var base := if Absolute(target) then [] else FirstParts(Tokens(if pwd.Some? then pwd.value else "/", "/"));
    Walk(base, Tokens(target, "/"))
  }

  // ----- writing out

  /** The path of a component list. */
  function Render(comps: seq<string>): string {
    if |comps| <= 1 then "/" + (if comps == [] then "" else comps[0])
    else Render(comps[..|comps| - 1]) + "/" + comps[|comps| - 1]
  }

  /** The output loop: a component that would not fit is left out. */
  function RenderFirst(comps: seq<string>, i: nat): string
    requires i <= |comps|
  {
    if i == 0 then "/"
    else
      var out := RenderFirst(comps, i - 1);
      if |out| + 1 + |comps[i - 1]| < MAX_PATH then out + (if i > 1 then "/" else "") + comps[i - 1] else out
  }

  function Resolve(target: string, pwd: Option<string>): string {
    RenderFirst(Components(target, pwd), |Components(target, pwd)|)
  }

  // ----- normal paths

  predicate Clean(part: string) {
    part != "" && part != "." && part != ".." && '/' !in part
  }

  predicate AllClean(parts: seq<string>) {
    forall i :: 0 <= i < |parts| ==> Clean(parts[i])
  }

  predicate Plain(part: string) {
    part != "" && '/' !in part
  }

  lemma {:induction false} TokensPlain(s: string, i: nat)
    requires i <= |s|
    ensures forall k :: 0 <= k < |TokensFrom(s, "/", i)| ==> Plain(TokensFrom(s, "/", i)[k])
    decreases |s| - i
  {
    var a := Scan(s, "/", i, true);
    if a < |s| {
      var e := Scan(s, "/", a, false);
      PlainSlice(s, a, e);
      if e < |s| { TokensPlain(s, e + 1); }
    }
  }

  lemma PlainSlice(s: string, a: nat, e: nat)
    requires a < e <= |s| && forall k :: a <= k < e ==> s[k] !in "/"
    ensures Plain(s[a..e])
  {
    forall k | 0 <= k < e - a ensures s[a..e][k] != '/' { assert s[a + k] !in "/"; }
  }

  lemma {:induction false} WalkClean(comps: seq<string>, parts: seq<string>)
    requires AllClean(comps) && forall i :: 0 <= i < |parts| ==> Plain(parts[i])
    ensures AllClean(Walk(comps, parts))
    decreases |parts|
  {
    if parts != [] {
      WalkClean(Enter(comps, parts[0]), parts[1..]);
    }
  }

  lemma {:induction false} WalkBounded(comps: seq<string>, parts: seq<string>)
    requires |comps| <= MAX_PARTS
    ensures |Walk(comps, parts)| <= MAX_PARTS
    decreases |parts|
  {
    if parts != [] {
      WalkBounded(Enter(comps, parts[0]), parts[1..]);
    }
  }

  /** Clean components are walked over unchanged. */
  lemma {:induction false} WalkAppends(comps: seq<string>, parts: seq<string>)
    requires AllClean(parts) && |comps| + |parts| <= MAX_PARTS
    ensures Walk(comps, parts) == comps + parts
    decreases |parts|
  {
    if parts != [] {
      assert Clean(parts[0]);
      WalkAppends(comps + [parts[0]], parts[1..]);
      assert comps + [parts[0]] + parts[1..] == comps + parts;
    } else {
      assert comps + parts == comps;
    }
  }

  /** Every result has only clean components exactly when the PWD it may start from
      has. */
  lemma CleanExactly(pwd: Option<string>)
    ensures (forall target: string :: AllClean(Components(target, pwd)))
            <==> pwd.None? || AllClean(FirstParts(Tokens(pwd.value, "/")))
  {
    hide Scan;
    RootTokens();
    var base := FirstParts(Tokens(if pwd.Some? then pwd.value else "/", "/"));
    if AllClean(base) {
      forall target: string ensures AllClean(Components(target, pwd)) {
        TokensPlain(target, 0);
        WalkClean(if Absolute(target) then [] else base, Tokens(target, "/"));
      }
    } else {
      assert Components("", pwd) == base by { EmptyTokens(); }
    }
  }

  lemma RootTokens()
    ensures Tokens("/", "/") == []
  {
  }

  lemma EmptyTokens()
    ensures Tokens("", "/") == []
  {
  }

  /** ".." at the root stays at the root. */
  lemma {:induction false} UpAtRoot(parts: seq<string>)
    requires forall i :: 0 <= i < |parts| ==> parts[i] == ".."
    ensures Walk([], parts) == []
    decreases |parts|
  {
    if parts != [] { UpAtRoot(parts[1..]); }
  }

  // ----- reading a written path back

  /** The components each behind its slash. */
  function Path(comps: seq<string>): string {
    if comps == [] then "" else "/" + comps[0] + Path(comps[1..])
  }

  lemma {:induction false} PathEnd(comps: seq<string>)
    requires comps != []
    ensures Path(comps) == Path(comps[..|comps| - 1]) + "/" + comps[|comps| - 1]
    decreases |comps|
  {
    if |comps| > 1 {
      PathEnd(comps[1..]);
      assert comps[1..][..|comps| - 2] == comps[..|comps| - 1][1..];
      assert Path(comps[..|comps| - 1]) == "/" + comps[0] + Path(comps[..|comps| - 1][1..]);
    } else {
      assert comps[1..] == [] && comps[..0] == [];
    }
  }

  lemma {:induction false} RenderIsPath(comps: seq<string>)
    ensures Render(comps) == if comps == [] then "/" else Path(comps)
    decreases |comps|
  {
    if |comps| > 1 {
      RenderIsPath(comps[..|comps| - 1]);
      PathEnd(comps);
    } else if |comps| == 1 {
      assert comps[1..] == [];
    }
  }

  lemma ScanIs(s: string, sep: string, i: nat, seps: bool, j: nat)
    requires i <= j <= |s| && (forall k :: i <= k < j ==> (s[k] in sep) == seps) && (j < |s| ==> (s[j] in sep) != seps)
    ensures Scan(s, sep, i, seps) == j
  {
    hide Scan;
  }

  lemma SkipOne(s: string, e: nat)
    requires e < |s| && s[e] == '/'
    ensures TokensFrom(s, "/", e) == TokensFrom(s, "/", e + 1)
  {
    hide Scan;
    ScanOne(s, e);
  }

  lemma ScanOne(s: string, e: nat)
    requires e < |s| && s[e] == '/'
    ensures Scan(s, "/", e, true) == Scan(s, "/", e + 1, true)
  {
    assert s[e] in "/";
  }

  lemma {:induction false} TokensOfPath(s: string, i: nat, comps: seq<string>)
    requires i <= |s| && s[i..] == Path(comps) && forall k :: 0 <= k < |comps| ==> Plain(comps[k])
    ensures TokensFrom(s, "/", i) == comps
    decreases |comps|
  {
    hide Scan, TokensFrom, Path;
    if comps == [] {
      PathNone(s, i);
    } else {
      var c, rest := comps[0], comps[1..];
      var a, e := i + 1, i + 1 + |c|;
      assert Plain(c);
      FirstToken(s, i, comps);
      ScanIs(s, "/", i, true, a);
      ScanIs(s, "/", a, false, e);
      TokensStep(s, i);
      TokensOfPath(s, e, rest);
      if rest != [] { SkipOne(s, e); }
      assert comps == [c] + rest;
    }
  }

  lemma PathNone(s: string, i: nat)
    requires i <= |s| && s[i..] == Path([])
    ensures TokensFrom(s, "/", i) == []
  {
  }

  lemma TokensStep(s: string, i: nat)
    requires i <= |s|
    ensures var a := Scan(s, "/", i, true);
      TokensFrom(s, "/", i)
      == if a == |s| then []
         else var e := Scan(s, "/", a, false);
           [s[a..e]] + if e == |s| then [] else TokensFrom(s, "/", e + 1)
  {
    hide Scan;
  }

  lemma PartsOf(c: string, rest: string)
    ensures (['/'] + c + rest)[1..1 + |c|] == c && (['/'] + c + rest)[1 + |c|..] == rest
  {
  }

  /** Where the pieces of a written path lie. */
  lemma FirstToken(s: string, i: nat, comps: seq<string>)
    requires i <= |s| && s[i..] == Path(comps) && comps != [] && Plain(comps[0])
    ensures var c := comps[0]; var e := i + 1 + |c|;
      && e <= |s| && s[i] == '/' && s[i + 1..e] == c && s[e..] == Path(comps[1..])
      && (forall k :: i + 1 <= k < e ==> s[k] !in "/") && (comps[1..] == [] <==> e == |s|) && (e < |s| ==> s[e] == '/')
  {
    var c, rest := comps[0], Path(comps[1..]);
    var e := i + 1 + |c|;
    var t := s[i..];
    assert t == ['/'] + c + rest;
    PartsOf(c, rest);
    assert s[i] == t[0];
    assert s[i + 1..e] == t[1..1 + |c|];
    assert s[e..] == t[1 + |c|..];
    forall k | i + 1 <= k < e ensures s[k] !in "/" { assert s[k] == c[k - i - 1]; }
    if e < |s| { assert s[e] == s[e..][0]; }
  }

  /** The tokens of a written path are its components. */
  lemma TokensOfRender(comps: seq<string>)
    requires forall k :: 0 <= k < |comps| ==> Plain(comps[k])
    ensures Tokens(Render(comps), "/") == comps && Absolute(Render(comps))
  {
    hide TokensFrom, Scan;
    RenderIsPath(comps);
    if comps == [] {
      RootTokens();
    } else {
      assert Render(comps)[0..] == Path(comps);
      TokensOfPath(Render(comps), 0, comps);
    }
  }

  // ----- the length limit

  /** The output fits: below 512 characters, and a single component below 510. */
  predicate Fits(comps: seq<string>) {
    |Render(comps)| < 512 && (|comps| == 1 ==> |comps[0]| < 510)
  }

  lemma {:induction false} RenderGrows(comps: seq<string>, i: nat)
    requires i <= |comps|
    ensures |Render(comps[..i])| <= |Render(comps)|
    decreases |comps|
  {
    if i < |comps| {
      RenderGrows(comps[..|comps| - 1], i);
      assert comps[..|comps| - 1][..i] == comps[..i];
    } else {
      assert comps[..i] == comps;
    }
  }

  predicate FitsAt(comps: seq<string>, j: nat)
    requires j < |comps|
  {
    |Render(comps[..j])| + 1 + |comps[j]| < MAX_PATH
  }

  lemma RenderNext(comps: seq<string>, j: nat)
    requires j < |comps|
    ensures Render(comps[..j + 1]) == Render(comps[..j]) + (if j > 0 then "/" else "") + comps[j]
  {
    if j > 0 {
      assert comps[..j + 1][..j] == comps[..j];
    } else {
      assert comps[..1] == [comps[0]] && comps[..0] == [];
    }
  }

  lemma RenderFirstNext(comps: seq<string>, i: nat)
    requires 0 < i <= |comps|
    ensures var out, add := RenderFirst(comps, i - 1), (if i > 1 then "/" else "") + comps[i - 1];
      RenderFirst(comps, i) == if |out| + 1 + |comps[i - 1]| < MAX_PATH then out + add else out
  {
    var out := RenderFirst(comps, i - 1);
    assert out + ((if i > 1 then "/" else "") + comps[i - 1]) == out + (if i > 1 then "/" else "") + comps[i - 1];
  }

  /** A text no longer than the whole, the whole exactly when as long, and exactly when
      everything fitted. */
  predicate SoFar(out: string, full: string, fitted: bool) {
    |out| <= |full| && (out == full <==> |out| == |full|) && (out == full <==> fitted)
  }

  lemma Extends(out: string, full: string, fitted: bool, add: string, taken: bool)
    requires SoFar(out, full, fitted) && add != ""
    ensures SoFar(if taken then out + add else out, full + add, fitted && taken)
  {
    if taken && |out| < |full| { assert |out + add| < |full + add|; }
  }

  predicate AllFit(comps: seq<string>, i: nat)
    requires i <= |comps|
  {
    forall j: nat :: j < i ==> FitsAt(comps, j)
  }

  /** The loop writes the whole path of the first `i` components exactly when each
      of them fitted, and otherwise a shorter one. */
  lemma {:induction false} RenderFirstIs(comps: seq<string>, i: nat)
    requires i <= |comps| && forall k :: 0 <= k < |comps| ==> Plain(comps[k])
    ensures SoFar(RenderFirst(comps, i), Render(comps[..i]), AllFit(comps, i))
  {
    if i == 0 {
      assert comps[..0] == [];
    } else {
      RenderFirstIs(comps, i - 1);
      RenderFirstStep(comps, i);
    }
  }

  lemma RenderFirstStep(comps: seq<string>, i: nat)
    requires 0 < i <= |comps| && Plain(comps[i - 1])
    requires SoFar(RenderFirst(comps, i - 1), Render(comps[..i - 1]), AllFit(comps, i - 1))
    ensures SoFar(RenderFirst(comps, i), Render(comps[..i]), AllFit(comps, i))
  {
    hide Render, RenderFirst, FitsAt;
    var out, full := RenderFirst(comps, i - 1), Render(comps[..i - 1]);
    var add := (if i > 1 then "/" else "") + comps[i - 1];
    RenderNext(comps, i - 1);
    RenderFirstNext(comps, i);
    FitsAtIs(comps, i - 1);
    assert AllFit(comps, i) <==> AllFit(comps, i - 1) && FitsAt(comps, i - 1);
    var taken := |out| + 1 + |comps[i - 1]| < MAX_PATH;
    Extends(out, full, AllFit(comps, i - 1), add, taken);
    assert Render(comps[..i]) == full + add;
    assert AllFit(comps, i) <==> AllFit(comps, i - 1) && taken;
  }

  lemma FitsAtIs(comps: seq<string>, j: nat)
    requires j < |comps|
    ensures FitsAt(comps, j) <==> |Render(comps[..j])| + 1 + |comps[j]| < MAX_PATH
  {
  }

  lemma FitsExactly(comps: seq<string>)
    requires forall k :: 0 <= k < |comps| ==> Plain(comps[k])
    ensures Fits(comps) <==> forall j: nat :: j < |comps| ==> FitsAt(comps, j)
  {
    hide Render;
    RenderEmpty();
    var n := |comps|;
    assert comps[..n] == comps && comps[..0] == [];
    forall j: nat | j < n ensures RenderLengths(comps, j) {
      RenderNext(comps, j);
      RenderGrows(comps, j + 1);
    }
    if n > 0 {
      assert RenderLengths(comps, n - 1) && RenderLengths(comps, 0);
      assert FitsAt(comps, n - 1) <==> |Render(comps[..n - 1])| + 1 + |comps[n - 1]| < MAX_PATH;
    }
    if n > 1 {
      assert RenderLengths(comps, 1) && Plain(comps[1]);
      forall j: nat | j < n ensures |Render(comps)| < MAX_PATH ==> FitsAt(comps, j) {
        assert RenderLengths(comps, j);
      }
    }
  }

  /** What component `j` adds, and that the whole is no shorter. */
  predicate RenderLengths(comps: seq<string>, j: nat)
    requires j < |comps|
  {
    && |Render(comps[..j + 1])| == |Render(comps[..j])| + (if j > 0 then 1 else 0) + |comps[j]|
    && |Render(comps[..j + 1])| <= |Render(comps)|
  }

  lemma RenderEmpty()
    ensures Render([]) == "/"
  {
  }

  /** There are components, and none of them fits behind the slash of the root. */
  predicate NoneFits(comps: seq<string>) {
    comps != [] && forall k :: 0 <= k < |comps| ==> |comps[k]| >= 510
  }

  /** The loop has written no more than the slash exactly when each component so far
      has 510 characters or more. */
  lemma {:induction false} OnlySlashExactly(comps: seq<string>, i: nat)
    requires i <= |comps| && forall k :: 0 <= k < |comps| ==> Plain(comps[k])
    ensures RenderFirst(comps, i) != "" && RenderFirst(comps, i)[0] == '/'
    ensures RenderFirst(comps, i) == "/" <==> forall k :: 0 <= k < i ==> |comps[k]| >= 510
  {
    if i > 0 {
      OnlySlashExactly(comps, i - 1);
      assert Plain(comps[i - 1]);
    }
  }

  /** A name of 510 characters, given directly, is such a component. */
  lemma LongNameFitsNot(pwd: Option<string>)
    ensures var name: string := seq(510, _ => 'a');
      && Tokens("/" + name, "/") == [name] && NoneFits(Components("/" + name, pwd)) && Resolve("/" + name, pwd) == "/"
  {
    hide Tokens, RenderFirst;
    var name: string := seq(510, _ => 'a');
    TokensOfRender([name]);
    AgainSame("/" + name, [name], pwd);
    OnlySlashExactly([name], 1);
  }

  /** From a PWD that is not clean, nothing typed leads to a path that is not. */
  lemma UncleanStays()
    ensures Tokens("..", "/") == [".."] && !AllClean(FirstParts(Tokens("..", "/")))
    ensures Resolve("", Some("..")) == "/.."
  {
    hide Scan;
    ScanIs("..", "/", 0, true, 0);
    ScanIs("..", "/", 0, false, 2);
    assert ".."[0..2] == "..";
    EmptyTokens();
    assert !Clean(FirstParts(Tokens("..", "/"))[0]);
    assert Components("", Some("..")) == [".."];
    assert RenderFirst([".."], 0) == "/" && "/" + "" + ".." == "/..";
  }

  // ----- the main results

  lemma ComponentsPlain(target: string, pwd: Option<string>)
    ensures forall k :: 0 <= k < |Components(target, pwd)| ==> Plain(Components(target, pwd)[k])
    ensures |Components(target, pwd)| <= MAX_PARTS
  {
    hide Tokens;
    TokensPlain0(target);
    var from := if pwd.Some? then pwd.value else "/";
    TokensPlain0(from);
    var base := if Absolute(target) then [] else FirstParts(Tokens(from, "/"));
    WalkPlain(base, Tokens(target, "/"));
    WalkBounded(base, Tokens(target, "/"));
  }

  lemma TokensPlain0(s: string)
    ensures forall k :: 0 <= k < |Tokens(s, "/")| ==> Plain(Tokens(s, "/")[k])
  {
    TokensPlain(s, 0);
  }

  lemma {:induction false} WalkPlain(comps: seq<string>, parts: seq<string>)
    requires forall i :: 0 <= i < |comps| ==> Plain(comps[i])
    requires forall i :: 0 <= i < |parts| ==> Plain(parts[i])
    ensures forall i :: 0 <= i < |Walk(comps, parts)| ==> Plain(Walk(comps, parts)[i])
    decreases |parts|
  {
    if parts != [] {
      WalkPlain(Enter(comps, parts[0]), parts[1..]);
    }
  }

  /** The path written is that of the component stack exactly when it fits. */
  lemma ResolveIsStackExactly(target: string, pwd: Option<string>)
    ensures Resolve(target, pwd) == Render(Components(target, pwd)) <==> Fits(Components(target, pwd))
  {
    hide Components, Render, RenderFirst;
    var comps := Components(target, pwd);
    ComponentsPlain(target, pwd);
    RenderFirstIs(comps, |comps|);
    FitsExactly(comps);
    assert comps[..|comps|] == comps;
  }

  /** A normal path: written from clean components that fit. */
  ghost predicate Normal(path: string) {
    exists comps: seq<string> :: AllClean(comps) && |comps| <= MAX_PARTS && Fits(comps) && path == Render(comps)
  }

  /** From a normal PWD, and when the result fits, the result is normal; and its own
      resolution, from any PWD, is itself. */
  lemma ResolvedIsNormal(target: string, pwd: Option<string>, other: Option<string>)
    requires pwd.Some? ==> AllClean(FirstParts(Tokens(pwd.value, "/")))
    requires Fits(Components(target, pwd))
    ensures Normal(Resolve(target, pwd))
    ensures Absolute(Resolve(target, pwd)) && Tokens(Resolve(target, pwd), "/") == Components(target, pwd)
    ensures Resolve(Resolve(target, pwd), other) == Resolve(target, pwd)
  {
    hide Components, Render, RenderFirst, Tokens, Fits, Resolve;
    var comps := Components(target, pwd);
    CleanExactly(pwd);
    ComponentsPlain(target, pwd);
    ResolveIsStackExactly(target, pwd);
    assert AllClean(comps);
    TokensOfRender(comps);
    var path := Resolve(target, pwd);
    AgainSame(path, comps, other);
    ResolveIsStackExactly(path, other);
  }

  lemma AgainSame(path: string, comps: seq<string>, other: Option<string>)
    requires AllClean(comps) && |comps| <= MAX_PARTS && Absolute(path) && Tokens(path, "/") == comps
    ensures Components(path, other) == comps
  {
    hide Tokens;
    WalkAppends([], comps);
    assert [] + comps == comps;
  }

  /** A PWD written by an earlier `cd` brings its own components back. */
  lemma NormalPwd(comps: seq<string>)
    requires AllClean(comps) && |comps| <= MAX_PARTS
    ensures FirstParts(Tokens(Render(comps), "/")) == comps
  {
    TokensOfRender(comps);
  }
}
