/** `strtok` with its saved position, `strsplit`, and the shell's path resolution,
    as loops over buffers. */
module WorkingDirectory {
  import opened Options
  import opened PathNormal

  const NUL: char := '\0'

  /** The copy that `strsplit` cuts up, and `__strtok_save` as a position in it. */
  class Tokenizer {
    const buf: array<char>
    var save: Option<nat>

    constructor (s: string)
      ensures fresh(buf) && buf[..] == s + [NUL] && save == None
    {
      var copy := s + [NUL];
      buf := new char[|copy|](k requires 0 <= k < |copy| => copy[k]);
      save := None;
    }

    /** From `i` on the buffer still reads as `s`. */
    predicate Rest(s: string, i: nat)
      reads this, buf
    {
      && buf.Length == |s| + 1 && i <= |s| && buf[|s|] == NUL
      && (forall k :: 0 <= k < |s| ==> s[k] != NUL) && (forall k :: i <= k < |s| ==> buf[k] == s[k])
    }

    /** `strtok`: on the buffer's start, or from the saved position. The token ends at
        a NUL put where its separator was. */
    method Next(ghost s: string, first: bool, sep: string) returns (token: Option<nat>)
      requires first ==> Rest(s, 0)
      requires !first && save.Some? ==> Rest(s, save.value)
      modifies this, buf
      ensures !first && old(save) == None ==> token == None && save == None
      ensures first || old(save).Some? ==>
                var i := if first then 0 else old(save).value;
                i <= |s| && var a := Scan(s, sep, i, true);
                  if a == |s| then token == None && save == None
                  else var e := Scan(s, sep, a, false);
                    && token == Some(a) && e < buf.Length && buf[a..e] == s[a..e] && buf[e] == NUL
                    && save == (if e == |s| then None else Some(e + 1)) && (e < |s| ==> Rest(s, e + 1))
    {
      if !first && save == None { return None; }
      var str := if first then 0 else save.value;
      ghost var i := str;
      while buf[str] != NUL && buf[str] in sep
        invariant i <= str <= |s| && Rest(s, str)
        invariant Scan(s, sep, i, true) == Scan(s, sep, str, true)
        decreases |s| - str
      {
        str := str + 1;
      }
      if buf[str] == NUL {
        save := None;
        return None;
      }
      var start := str;
      while buf[str] != NUL && buf[str] !in sep
        invariant start <= str <= |s| && Rest(s, start)
        invariant Scan(s, sep, start, false) == Scan(s, sep, str, false)
        decreases |s| - str
      {
        str := str + 1;
      }
      if buf[str] == NUL {
        save := None;
      } else {
        buf[str] := NUL;
        save := Some(str + 1);
      }
      return Some(start);
    }

    /** One round of `strsplit`: the next token, copied. */
    method NextPart(ghost s: string, first: bool, sep: string, ghost at: nat) returns (part: Option<string>)
      requires if first then at == 0 && Rest(s, 0) else save == None || (save == Some(at) && Rest(s, at))
      modifies this, buf
      ensures !first && old(save) == None ==> part == None
      ensures first || old(save).Some? ==>
                at <= |s| && var a := Scan(s, sep, at, true);
                  if a == |s| then part == None
                  else var e := Scan(s, sep, a, false);
                    part == Some(s[a..e]) && save == (if e == |s| then None else Some(e + 1)) && (e < |s|
                        ==> Rest(s, e + 1))
    {
      hide Scan;
      var t := Next(s, first, sep);
      if t == None { return None; }
      ghost var e := Scan(s, sep, t.value, false);
      SameChars(buf[..], s, t.value, e);
      var copy := Copy(t.value, e);
      return Some(copy);
    }

    /** `strdup` of the token at `a`. */
    method Copy(a: nat, ghost e: nat) returns (t: string)
      requires a <= e < buf.Length && buf[e] == NUL && forall k :: a <= k < e ==> buf[k] != NUL
      ensures t == buf[a..e]
    {
      t := "";
      var k := a;
      while buf[k] != NUL
        invariant a <= k <= e && t == buf[a..k]
        decreases e - k
      {
        t := t + [buf[k]];
        k := k + 1;
      }
    }
  }

  lemma SameChars(b: string, s: string, a: nat, e: nat)
    requires a <= e <= |b| && e <= |s| && b[a..e] == s[a..e]
    ensures forall k :: a <= k < e ==> b[k] == s[k]
  {
    forall k | a <= k < e ensures b[k] == s[k] { assert b[a..e][k - a] == s[a..e][k - a]; }
  }

  /** `strsplit`: the caller's array must hold all tokens; the code does not look. */
  method SplitInto(s: string, parts: array<string>, sep: string) returns (n: nat)
    requires NUL !in s && |Tokens(s, sep)| <= parts.Length
    modifies parts
    ensures n == |Tokens(s, sep)| && parts[..n] == Tokens(s, sep)
    ensures forall k :: n <= k < parts.Length ==> parts[k] == old(parts[k])
  {
    hide Scan, TokensFrom;
    var tok := new Tokenizer(s);
    n := 0;
    ghost var at: nat := 0;
    ghost var done := false;
    var first := true;
    assert tok.Rest(s, 0);
    while true
      invariant n <= parts.Length && fresh(tok) && fresh(tok.buf)
      invariant first ==> at == 0 && !done && tok.Rest(s, 0)
      invariant !first ==> (done <==> tok.save == None) && (!done ==> tok.save == Some(at) && tok.Rest(s, at))
      invariant at <= |s| && Tokens(s, sep) == parts[..n] + if done then [] else TokensFrom(s, sep, at)
      invariant forall k :: n <= k < parts.Length ==> parts[k] == old(parts[k])
      decreases if done then 0 else |s| + 1 - at
    {
      TokenStep(s, sep, at);
      var part := tok.NextPart(s, first, sep, at);
      if part == None { return; }
      ghost var e := Scan(s, sep, Scan(s, sep, at, true), false);
      parts[n] := part.value;
      n := n + 1;
      first := false;
      done := e == |s|;
      at := if e == |s| then |s| else e + 1;
    }
  }

  lemma TokenStep(s: string, sep: string, i: nat)
    requires i <= |s|
    ensures var a := Scan(s, sep, i, true);
      TokensFrom(s, sep, i)
      == if a == |s| then []
         else var e := Scan(s, sep, a, false);
           [s[a..e]] + if e == |s| then [] else TokensFrom(s, sep, e + 1)
  {
    hide Scan;
  }

  /** `__builtin_cd__resolve` into the shell's path buffer. When there are components
      and each has 510 characters or more, the buffer gets a slash and no end. */
  method ResolveInto(target: string, pwd: Option<string>, out: array<char>)
    requires NUL !in target && (pwd.Some? ==> NUL !in pwd.value) && out.Length == MAX_PATH
    requires |Tokens(target, "/")| <= MAX_PARTS
    requires !Absolute(target) && pwd.Some? ==> |Tokens(pwd.value, "/")| <= MAX_PARTS
    modifies out
    ensures var r := Resolve(target, pwd);
      && |r| < MAX_PATH && out[..|r|] == r
      && out[|r|] == if NoneFits(Components(target, pwd)) then old(out[1]) else NUL
  {
    hide Scan, TokensFrom, Components, RenderFirst, Resolve, Tokens, NoneFits;
    var comps := Stack(target, pwd);
    ComponentsPlain(target, pwd);
    ResolveIs(target, pwd);
    WriteOut(comps, out);
  }

  lemma ResolveIs(target: string, pwd: Option<string>)
    ensures Resolve(target, pwd) == RenderFirst(Components(target, pwd), |Components(target, pwd)|)
  {
    hide Components, RenderFirst;
  }

  /** The component array used as a stack. */
  method Stack(target: string, pwd: Option<string>) returns (comps: seq<string>)
    requires NUL !in target && (pwd.Some? ==> NUL !in pwd.value)
    requires |Tokens(target, "/")| <= MAX_PARTS
    requires !Absolute(target) && pwd.Some? ==> |Tokens(pwd.value, "/")| <= MAX_PARTS
    ensures comps == Components(target, pwd)
  {
    hide Scan, TokensFrom, Walk, Tokens, Enter;
    var comp := new string[MAX_PARTS](_ => "");
    var n := 0;
    RootParts();
    if target == "" || target[0] != '/' {
      n := SplitInto(if pwd.Some? then pwd.value else "/", comp, "/");
    }
    ghost var base := comp[..n];
    var tc := new string[MAX_PARTS](_ => "");
    var tn := SplitInto(target, tc, "/");
    ghost var parts := tc[..tn];
    WalkNone(base, parts);
    for i := 0 to tn
      invariant 0 <= n <= MAX_PARTS && tc[..tn] == parts && comp != tc && fresh(comp) && comp.Length == MAX_PARTS
      invariant Walk(base, parts) == Walk(comp[..n], parts[i..])
    {
      WalkAt(comp[..n], parts, i);
      n := EnterPart(comp, n, tc[i]);
    }
    WalkNone(comp[..n], parts[tn..]);
    comps := comp[..n];
  }

  method EnterPart(comp: array<string>, n: nat, part: string) returns (n': nat)
    requires n <= comp.Length == MAX_PARTS
    modifies comp
    ensures n' <= MAX_PARTS && comp[..n'] == Enter(old(comp[..n]), part)
  {
    n' := n;
    if part == "." {
    } else if part == ".." {
      if n > 0 {
        assert comp[..n][..n - 1] == comp[..n - 1];
        n' := n - 1;
      }
    } else if n < MAX_PARTS {
      comp[n] := part;
      n' := n + 1;
    }
  }

  lemma RootParts()
    ensures Tokens("/", "/") == []
  {
  }

  lemma WalkNone(comps: seq<string>, parts: seq<string>)
    ensures Walk(comps, parts[0..]) == Walk(comps, parts) && (parts == [] ==> Walk(comps, parts) == comps)
  {
    assert parts[0..] == parts;
  }

  lemma WalkAt(comps: seq<string>, parts: seq<string>, i: nat)
    requires i < |parts|
    ensures Walk(comps, parts[i..]) == Walk(Enter(comps, parts[i]), parts[i + 1..])
  {
    hide Walk, Enter;
    WalkStep(comps, parts[i..]);
    assert parts[i..][1..] == parts[i + 1..];
  }

  lemma WalkStep(comps: seq<string>, parts: seq<string>)
    ensures parts != [] ==> Walk(comps, parts) == Walk(Enter(comps, parts[0]), parts[1..])
  {
  }

  /** The output loops. */
  method WriteOut(comps: seq<string>, out: array<char>)
    requires out.Length == MAX_PATH && forall k :: 0 <= k < |comps| ==> Plain(comps[k])
    modifies out
    ensures var r := RenderFirst(comps, |comps|);
      && |r| < MAX_PATH && out[..|r|] == r && out[|r|] == if NoneFits(comps) then old(out[1]) else NUL
  {
    hide Plain;
    var used := 1;
    out[0] := '/';
    assert out[..1] == "/";
    var i := 0;
    while i < |comps|
      invariant i <= |comps| && 0 < used < MAX_PATH && out[..used] == RenderFirst(comps, i)
      invariant used == 1 ==> out[1] == old(out[1])
      invariant used > 1 ==> out[used] == NUL
    {
      RenderStep(comps, i);
      var len := |comps[i]|;
      if used + 1 + len < MAX_PATH {
        ghost var before := out[..used];
        if i > 0 {
          out[used] := '/';
          used := used + 1;
          assert out[..used] == before + "/";
        }
        used := Append(out, used, comps[i]);
        out[used] := NUL;
      }
      i := i + 1;
    }
    if |comps| == 0 {
      out[0], out[1] := '/', NUL;
    }
    RenderLength(comps, used);
  }

  lemma RenderStep(comps: seq<string>, i: nat)
    requires i < |comps| && forall k :: 0 <= k < |comps| ==> Plain(comps[k])
    ensures comps[i] != ""
    ensures var r := RenderFirst(comps, i);
      RenderFirst(comps, i + 1)
      == if |r| + 1 + |comps[i]| < MAX_PATH then r + (if i > 0 then "/" else "") + comps[i] else r
  {
    assert Plain(comps[i]);
  }

  lemma RenderLength(comps: seq<string>, used: nat)
    requires |RenderFirst(comps, |comps|)| == used && forall k :: 0 <= k < |comps| ==> Plain(comps[k])
    ensures comps == [] ==> used == 1
    ensures comps != [] ==> (NoneFits(comps) <==> used == 1)
  {
    hide RenderFirst, Plain;
    OnlySlashExactly(comps, |comps|);
  }

  method Append(out: array<char>, at: nat, s: string) returns (end: nat)
    requires at + |s| <= out.Length
    modifies out
    ensures end == at + |s| && out[..end] == old(out[..at]) + s
    ensures forall k :: end <= k < out.Length ==> out[k] == old(out[k])
  {
    for k := 0 to |s|
      invariant out[..at] == old(out[..at]) && out[at..at + k] == s[..k]
      invariant forall x :: at + k <= x < out.Length ==> out[x] == old(out[x])
    {
      out[at + k] := s[k];
    }
    end := at + |s|;
    assert out[..end] == out[..at] + out[at..end];
  }
}
