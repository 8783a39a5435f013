/** The kernel's string split and join, and how far each undoes the other. */
module SplitAndJoin {
  import opened GrowingArrays

  /** The first delimiter from `i` on; the length for none. */
  function NextDelim(s: string, d: char, i: nat): (j: nat)
    requires i <= |s|
    ensures i <= j <= |s| && (j < |s| ==> s[j] == d) && forall k :: i <= k < j ==> s[k] != d
    decreases |s| - i
  {
    if i == |s| || s[i] == d then i else NextDelim(s, d, i + 1)
  }

  /** The segments from `start` on: one for each delimiter, and a last one if it is
      not empty. */
  function SplitFrom(s: string, d: char, start: nat): seq<string>
    requires start <= |s|
    decreases |s| - start
  {
    if start == |s| then []
    else
      var j := NextDelim(s, d, start);
      if j == |s| then [s[start..]] else [s[start..j]] + SplitFrom(s, d, j + 1)
  }

  function Split(s: string, d: char): seq<string> {
    SplitFrom(s, d, 0)
  }

  function Join(parts: seq<string>, d: char): string {
    if parts == [] then [] else if |parts| == 1 then parts[0] else parts[0] + [d] + Join(parts[1..], d)
  }

  // ----- joining a split

  function WithoutLast(s: string, d: char): string {
    if s != [] && s[|s| - 1] == d then s[..|s| - 1] else s
  }

  lemma {:induction false} JoinSplitFrom(s: string, d: char, start: nat)
    requires start <= |s|
    ensures Join(SplitFrom(s, d, start), d) == WithoutLast(s[start..], d)
    decreases |s| - start
  {
    hide Join, NextDelim, WithoutLast, SplitFrom;
    if start == |s| {
      NothingLeft(s, d);
    } else {
      SplitStep(s, d, start);
      var j := NextDelim(s, d, start);
      if j == |s| {
        LastSegment(s, d, start);
      } else {
        JoinSplitFrom(s, d, j + 1);
        JoinIs(s[start..j], SplitFrom(s, d, j + 1), d);
        SplitTail(s, start, j, d);
        EmptyAtEnd(s, d, j + 1);
      }
    }
  }

  lemma NothingLeft(s: string, d: char)
    ensures SplitFrom(s, d, |s|) == [] && Join([], d) == [] && WithoutLast(s[|s|..], d) == []
  {
  }

  lemma LastSegment(s: string, d: char, start: nat)
    requires start <= |s| && forall k :: start <= k < |s| ==> s[k] != d
    ensures Join([s[start..]], d) == WithoutLast(s[start..], d)
  {
  }

  lemma EmptyAtEnd(s: string, d: char, i: nat)
    requires i <= |s|
    ensures SplitFrom(s, d, i) == [] <==> i == |s|
  {
    hide NextDelim;
  }

  lemma JoinIs(x: string, rest: seq<string>, d: char)
    ensures Join([], d) == [] && Join([x] + rest, d) == if rest == [] then x else x + [d] + Join(rest, d)
  {
    assert ([x] + rest)[1..] == rest;
  }

  /** What stands behind a delimiter at `j` decides the end. */
  lemma SplitTail(s: string, start: nat, j: nat, d: char)
    requires start <= j < |s| && s[j] == d
    ensures WithoutLast(s[start..], d)
            == if j + 1 == |s| then s[start..j] else s[start..j] + [d] + WithoutLast(s[j + 1..], d)
  {
    var front, tail := s[start..j] + [d], s[j + 1..];
    assert s[start..] == front + tail;
    if tail == [] {
      assert (front + tail)[..|front| - 1] == s[start..j];
    } else {
      TailOfSum(front, tail, d);
    }
  }

  lemma TailOfSum(front: string, tail: string, d: char)
    requires tail != []
    ensures WithoutLast(front + tail, d) == front + WithoutLast(tail, d)
  {
    assert (front + tail)[..|front + tail| - 1] == front + tail[..|tail| - 1];
  }

  /** Joining the segments of `s` gives `s` without at most one delimiter at its end. */
  lemma JoinUndoesSplit(s: string, d: char)
    ensures Join(Split(s, d), d) == WithoutLast(s, d)
  {
    JoinSplitFrom(s, d, 0);
    assert s[0..] == s;
  }

  // ----- splitting a join

  predicate Free(part: string, d: char) {
    d !in part
  }

  lemma {:induction false} SegmentsFree(s: string, d: char, start: nat)
    requires start <= |s|
    ensures forall i :: 0 <= i < |SplitFrom(s, d, start)| ==> Free(SplitFrom(s, d, start)[i], d)
    ensures SplitFrom(s, d, start) != [] && s[|s| - 1] != d ==>
              SplitFrom(s, d, start)[|SplitFrom(s, d, start)| - 1] != []
    decreases |s| - start
  {
    if start < |s| {
      var j := NextDelim(s, d, start);
      if j < |s| { SegmentsFree(s, d, j + 1); }
    }
  }

  predicate Behind(s: string, k: nat, t: string) {
    |s| == k + |t| && forall i :: 0 <= i < |t| ==> s[k + i] == t[i]
  }

  lemma {:induction false} DelimShift(s: string, t: string, d: char, k: nat, start: nat)
    requires start <= |t| && Behind(s, k, t)
    ensures NextDelim(s, d, k + start) == k + NextDelim(t, d, start)
    decreases |t| - start
  {
    if start < |t| { DelimShift(s, t, d, k, start + 1); }
  }

  lemma SliceShift(s: string, t: string, k: nat, i: nat, j: nat)
    requires i <= j <= |t| && Behind(s, k, t)
    ensures s[k + i..k + j] == t[i..j]
  {
  }

  lemma {:induction false} SplitShift(s: string, t: string, d: char, k: nat, start: nat)
    requires start <= |t| && Behind(s, k, t)
    ensures SplitFrom(s, d, k + start) == SplitFrom(t, d, start)
    decreases |t| - start
  {
    hide NextDelim, Behind;
    BehindLength(s, k, t);
    if start < |t| {
      DelimShift(s, t, d, k, start);
      var j := NextDelim(t, d, start);
      SliceShift(s, t, k, start, j);
      if j < |t| {
        SplitShift(s, t, d, k, j + 1);
      } else {
        assert t[start..] == t[start..j] && s[k + start..] == s[k + start..k + j];
      }
    }
  }

  lemma BehindLength(s: string, k: nat, t: string)
    requires Behind(s, k, t)
    ensures |s| == k + |t|
  {
  }

  /** A first part without the delimiter is split off. */
  lemma SplitHead(x: string, tail: string, d: char)
    requires Free(x, d)
    ensures Split(x + [d] + tail, d) == [x] + Split(tail, d)
  {
    var s := x + [d] + tail;
    Concat(x, d, tail);
    hide NextDelim, SplitFrom, Behind;
    DelimIs(s, d, 0, |x|);
    SplitStep(s, d, 0);
    SplitShift(s, tail, d, |x| + 1, 0);
  }

  lemma Concat(x: string, d: char, tail: string)
    ensures var s := x + [d] + tail; s[0..|x|] == x && s[|x|] == d && Behind(s, |x| + 1, tail)
    ensures forall i :: 0 <= i < |x| ==> (x + [d] + tail)[i] == x[i]
  {
  }

  /** One segment off. */
  lemma SplitStep(s: string, d: char, start: nat)
    requires start < |s|
    ensures var j := NextDelim(s, d, start);
      SplitFrom(s, d, start) == if j == |s| then [s[start..]] else [s[start..j]] + SplitFrom(s, d, j + 1)
  {
    hide NextDelim;
  }

  lemma SplitAlone(x: string, d: char)
    requires Free(x, d)
    ensures Split(x, d) == if x == [] then [] else [x]
  {
    hide NextDelim;
    DelimIs(x, d, 0, |x|);
  }

  /** The parts that splitting brings back: all but an empty last one. */
  function Kept(parts: seq<string>): seq<string> {
    if parts != [] && parts[|parts| - 1] == [] then parts[..|parts| - 1] else parts
  }

  /** Splitting a joined list segment by segment. */
  lemma {:induction false} SplitOfJoin(parts: seq<string>, d: char)
    requires forall i :: 0 <= i < |parts| ==> Free(parts[i], d)
    ensures Split(Join(parts, d), d) == Kept(parts)
    decreases |parts|
  {
    hide Join, Split, Free;
    JoinIs([], [], d);
    SplitNothing(d);
    if parts != [] {
      var x, rest := parts[0], parts[1..];
      assert parts == [x] + rest;
      JoinIs(x, rest, d);
      if rest == [] {
        SplitAlone(x, d);
      } else {
        SplitOfJoin(rest, d);
        SplitHead(x, Join(rest, d), d);
        KeptTail(x, rest);
      }
    }
  }

  lemma SplitNothing(d: char)
    ensures Split([], d) == []
  {
  }

  lemma KeptTail(x: string, rest: seq<string>)
    requires rest != []
    ensures Kept([x] + rest) == [x] + Kept(rest)
  {
    var parts := [x] + rest;
    assert parts[|parts| - 1] == rest[|rest| - 1];
    assert parts[..|parts| - 1] == [x] + rest[..|rest| - 1];
  }

  /** Splitting the join gives the parts back exactly when no part holds the
      delimiter and the last one is not empty. */
  lemma SplitUndoesJoinExactly(parts: seq<string>, d: char)
    ensures Split(Join(parts, d), d) == parts
            <==> (forall i :: 0 <= i < |parts| ==> Free(parts[i], d)) && (parts != [] ==> parts[|parts| - 1] != [])
  {
    if forall i :: 0 <= i < |parts| ==> Free(parts[i], d) {
      SplitOfJoin(parts, d);
    } else {
      SegmentsFree(Join(parts, d), d, 0);
    }
  }

  // ----- the loops

  /** `kstrsplit`. */
  method SplitLoop(s: string, d: char) returns (da: Dynarray<string>)
    ensures fresh(da) && fresh(da.data) && da.Valid() && da.Contents() == Split(s, d)
  {
    hide NextDelim, SplitFrom;
    da := new Dynarray<string>(8);
    var start := 0;
    var i := 0;
    EmptyAtEnd(s, d, |s|);
    while i < |s|
      invariant start <= i <= |s| && fresh(da) && fresh(da.data) && da.Valid()
      invariant forall k :: start <= k < i ==> s[k] != d
      invariant Split(s, d) == da.Contents() + SplitFrom(s, d, start)
    {
      if s[i] == d {
        DelimIs(s, d, start, i);
        SplitStep(s, d, start);
        da.Add(s[start..i]);
        start := i + 1;
      }
      i := i + 1;
    }
    if start < |s| {
      DelimIs(s, d, start, |s|);
      SplitStep(s, d, start);
      da.Add(s[start..]);
    }
  }

  lemma DelimIs(s: string, d: char, start: nat, j: nat)
    requires start <= j <= |s| && (j < |s| ==> s[j] == d) && forall k :: start <= k < j ==> s[k] != d
    ensures NextDelim(s, d, start) == j
  {
    hide NextDelim;
  }

  function Lengths(parts: seq<string>): nat {
    if parts == [] then 0 else Lengths(parts[..|parts| - 1]) + |parts[|parts| - 1]|
  }

  lemma {:induction false} LengthsStep(parts: seq<string>, d: char)
    ensures |Join(parts, d)| + 1 == Lengths(parts) + if parts == [] then 1 else |parts|
    decreases |parts|
  {
    if |parts| == 1 {
      assert parts[..0] == [];
    } else if |parts| > 1 {
      LengthsStep(parts[1..], d);
      LengthsFront(parts);
    }
  }

  lemma {:induction false} LengthsFront(parts: seq<string>)
    requires parts != []
    ensures Lengths(parts) == |parts[0]| + Lengths(parts[1..])
    decreases |parts|
  {
    if |parts| > 1 {
      LengthsFront(parts[..|parts| - 1]);
      assert parts[..|parts| - 1][1..] == parts[1..][..|parts| - 2];
    } else {
      assert parts[..0] == [];
    }
  }

  lemma {:induction false} JoinAppend(parts: seq<string>, i: nat, d: char)
    requires i < |parts|
    ensures Join(parts[..i + 1], d) == if i == 0 then parts[0] else Join(parts[..i], d) + [d] + parts[i]
    decreases |parts|
  {
    if i > 0 {
      var rest := parts[1..];
      JoinAppend(rest, i - 1, d);
      assert parts[..i + 1][1..] == rest[..i] && parts[..i][1..] == rest[..i - 1] && rest[i - 1] == parts[i];
      if i == 1 { assert parts[..1] == [parts[0]]; }
    }
  }

  /** `kstrjoin`: the bytes written, without the NUL behind them. The buffer has
      one byte for each character, and one for each part. */
  method JoinLoop(strs: Dynarray<string>, d: char) returns (result: array<char>, cursor: nat)
    requires strs.Valid()
    ensures fresh(result) && cursor <= result.Length && result[..cursor] == Join(strs.Contents(), d)
    ensures cursor < result.Length <==> strs.Contents() != []
  {
    hide Join, Lengths;
    ghost var parts := strs.Contents();
    var total := TotalLength(strs);
    LengthsStep(parts, d);
    JoinIs([], [], d);
    result := new char[total + strs.count](_ => ' ');
    cursor := 0;
    var i := 0;
    assert Joined(parts, 0, d) == [];
    while i < strs.count
      invariant i <= strs.count && strs.Valid() && strs.Contents() == parts && fresh(result)
      invariant cursor == |Joined(parts, i, d)| <= result.Length
      invariant result[..cursor] == Joined(parts, i, d)
      decreases strs.count - i
    {
      JoinedStep(parts, i, d);
      JoinedFits(parts, i + 1, d);
      cursor := CopyAt(result, cursor, strs.data[i]);
      if i < strs.count - 1 {
        result[cursor] := d;
        cursor := cursor + 1;
      }
      i := i + 1;
    }
    assert parts[..|parts|] == parts;
  }

  method TotalLength(strs: Dynarray<string>) returns (total: nat)
    requires strs.Valid()
    ensures total == Lengths(strs.Contents())
  {
    ghost var parts := strs.Contents();
    total := 0;
    for i := 0 to strs.count
      invariant strs.Valid() && strs.Contents() == parts && total == Lengths(parts[..i])
    {
      assert parts[..i + 1][..i] == parts[..i];
      total := total + |strs.data[i]|;
    }
    assert parts[..|parts|] == parts;
  }

  /** What is written after `i` parts. */
  function Joined(parts: seq<string>, i: nat, d: char): string
    requires i <= |parts|
  {
    Join(parts[..i], d) + if 0 < i < |parts| then [d] else []
  }

  lemma JoinedStep(parts: seq<string>, i: nat, d: char)
    requires i < |parts|
    ensures Joined(parts, i + 1, d) == Joined(parts, i, d) + parts[i] + if i + 1 < |parts| then [d] else []
  {
    hide Join;
    JoinIs([], [], d);
    JoinAppend(parts, i, d);
    if i == 0 { assert parts[..0] == []; }
  }

  lemma {:induction false} JoinedFits(parts: seq<string>, i: nat, d: char)
    requires i <= |parts|
    ensures |Joined(parts, i, d)| <= |Join(parts, d)|
    decreases |parts| - i
  {
    hide Join;
    if i < |parts| {
      JoinedStep(parts, i, d);
      JoinedFits(parts, i + 1, d);
    } else {
      assert parts[..i] == parts;
    }
  }

  method CopyAt(buf: array<char>, at: nat, s: string) returns (end: nat)
    requires at + |s| <= buf.Length
    modifies buf
    ensures end == at + |s| && buf[..end] == old(buf[..at]) + s
  {
    for k := 0 to |s|
      invariant buf[..at] == old(buf[..at]) && buf[at..at + k] == s[..k]
    {
      buf[at + k] := s[k];
    }
    end := at + |s|;
    assert buf[..end] == buf[..at] + buf[at..end];
  }
}
