/** A process that is killed while it reads: its line revives it, and what it does
    then reaches the parent that waits for it. */
module KilledReaders {
  import opened Bits
  import opened Options
  import opened Scheduling
  import opened WakeUps
  import opened ExitCodes

  /** The process at `j` waits for its child at `k`, which can run. */
  ghost predicate ChildMayRun(s: State, j: nat, k: nat) {
    && Distinct(s) && j < |s.procs| && k < |s.procs|
    && s.procs[j].status == Blocked && s.procs[j].waitingFor == s.procs[k].pid
    && s.procs[k].parent == s.procs[j].pid && 0 < s.procs[j].pid && Runnable(s.procs[k])
  }

  lemma NextWraps(head: nat, n: nat)
    requires n > 0
    ensures head % n < n && (head + 1) % n == (head % n + 1) % n
  {
    var q, r := head / n, head % n;
    SplitNumber(head, n);
    if r + 1 < n {
      DivUnique(head + 1, n, q, r + 1);
    } else {
      MulNext(n, q);
      DivUnique(head + 1, n, q + 1, 0);
    }
    Wraps(r + 1, n);
  }

  /** What a search finds whose first candidate is at `h`. */
  ghost function FoundFrom(procs: seq<Proc>, h: nat): nat
    requires h < |procs|
  {
    if !Runnable(procs[h]) && 1 < |procs| then PickFrom(procs, h, 1) else h
  }

  lemma PickUnfolds(procs: seq<Proc>, head: nat)
    requires procs != []
    ensures var h := (head + 1) % |procs|; h < |procs| && PickFrom(procs, head, 0) == FoundFrom(procs, h)
  {
  }

  lemma PickWraps(procs: seq<Proc>, head: nat)
    requires procs != []
    ensures head % |procs| < |procs| && PickFrom(procs, head, 0) == PickFrom(procs, head % |procs|, 0)
  {
    hide PickFrom, FoundFrom;
    NextWraps(head, |procs|);
    PickUnfolds(procs, head);
    PickUnfolds(procs, head % |procs|);
  }

  /** How many dispatches at most until the child at `k` runs. */
  ghost function Rounds(s: State, k: nat): nat
    requires k < |s.procs|
  {
    if CurrentAt(s) == k then 0 else
      PickWraps(s.procs, SearchFrom(s));
      Distance(SearchFrom(s) % |s.procs|, k, |s.procs|)
  }

  lemma TickNears(s: State, j: nat, k: nat)
    requires ChildMayRun(s, j, k) && CurrentAt(s) != k
    ensures var t := Core(s);
      && ChildMayRun(t, j, k) && SamePids(s.procs, t.procs) && Rounds(t, k) < Rounds(s, k)
  {
    hide Find, PickFrom, LaidOut, SearchFrom, Distance;
    var t := Core(s);
    var n := |s.procs|;
    PickWraps(s.procs, SearchFrom(s));
    PickNoneExactly(s.procs, SearchFrom(s) % n);
    PickApproaches(s.procs, SearchFrom(s) % n, k);
    var h := PickFrom(s.procs, SearchFrom(s), 0);
    assert Runnable(s.procs[h]) && h != j;
    assert t.procs == s.procs[h := Resumed(s.procs[h])] && t.head == h && t.current == Some(s.procs[h].pid);
    UpdateSame(s.procs, h, Resumed(s.procs[h]));
    FindOwn(s, h);
    SearchRunning(t, h);
  }

  /** The process that runs is where the next search starts. */
  lemma SearchRunning(t: State, h: nat)
    requires h < |t.procs| && CurrentAt(t) == h && t.procs[h].status == Ready && t.head == h
    ensures SearchFrom(t) == h && h % |t.procs| == h
  {
    DivUnique(h, |t.procs|, 0, h);
  }

  /** Its exit reaches the parent. */
  lemma ExitReaches(s: State, j: nat, k: nat)
    requires ChildMayRun(s, j, k) && CurrentAt(s) == k
    ensures var t := Exit(s, 0); SamePids(s.procs, t.procs) && t.procs[j].status == Ready
  {
    hide Find, Core, SamePids;
    var dead := s.procs[k].(status := Zombie, exitCode := 0);
    var gone := s.procs[k := dead];
    FindOwn(s, j);
    UpdateSame(s.procs, k, dead);
    var woken := gone[j].(status := Ready, waitingFor := 0);
    UpdateSame(gone, j, woken);
    CoreSame(s.(procs := gone[j := woken]), j);
    SameTrans(s.procs, gone, gone[j := woken]);
    SameTrans(s.procs, gone[j := woken], Exit(s, 0).procs);
  }

  lemma SameTrans(a: seq<Proc>, b: seq<Proc>, c: seq<Proc>)
    requires SamePids(a, b) && SamePids(b, c)
    ensures SamePids(a, c)
  {
  }

  /** A dispatch moves no process, and a ready one stays ready. */
  lemma CoreSame(s: State, j: nat)
    requires j < |s.procs| && s.procs[j].status == Ready
    ensures SamePids(s.procs, Core(s).procs) && Core(s).procs[j].status == Ready
  {
    hide Find, PickFrom, LaidOut, SearchFrom;
  }

  lemma {:induction false} RunToExit(s: State, j: nat, k: nat) returns (ops: seq<Op>, t: State)
    requires ChildMayRun(s, j, k)
    ensures Runs(s, ops, t) && SamePids(s.procs, t.procs) && t.procs[j].status == Ready
    ensures forall i :: 0 <= i < |ops| ==> !ops[i].KillOp?
    decreases Rounds(s, k)
  {
    hide Find, Core, Exit, Rounds, ChildMayRun;
    ChildThere(s, j, k);
    if CurrentAt(s) == k {
      ExitReaches(s, j, k);
      ops, t := [ExitOp(0)], Exit(s, 0);
    } else {
      TickNears(s, j, k);
      var rest;
      rest, t := RunToExit(Core(s), j, k);
      ops := [Tick] + rest;
    }
  }

  lemma ChildThere(s: State, j: nat, k: nat)
    requires ChildMayRun(s, j, k)
    ensures j < |s.procs| && k < |s.procs|
  {
  }

  /** The killed reader gets its line, runs, exits, and its parent is ready. */
  lemma KilledReaderFreesParent(s: State, pid: nat, v: nat) returns (ops: seq<Op>, t: State)
    requires Inv(s) && CurrentAt(s) < |s.procs| && Find(s.procs, v) < |s.procs| && s.reader == Some(v)
    requires var i := Find(s.procs, pid); i < |s.procs| && s.procs[i].status == Blocked && s.procs[i].waitingFor == v
    ensures Runs(Kill(s, v), ops, t) && KillOp(pid) !in ops
    ensures Find(t.procs, pid) < |t.procs| && t.procs[Find(t.procs, pid)].status == Ready
  {
    hide Find, Core, Runs, ChildMayRun;
    var u := Flush(Kill(s, v));
    var j, k := Find(s.procs, pid), Find(s.procs, v);
    ReaderRevived(s, pid, v);
    var rest;
    rest, t := RunToExit(u, j, k);
    ops := [FlushOp] + rest;
    FlushFirst(Kill(s, v), rest, t);
    FindSame(u.procs, t.procs, pid);
    FindSame(s.procs, u.procs, pid);
  }

  lemma FlushFirst(s: State, rest: seq<Op>, t: State)
    requires Runs(Flush(s), rest, t)
    ensures Runs(s, [FlushOp] + rest, t)
  {
    hide Flush;
    assert ([FlushOp] + rest)[1..] == rest;
  }

  lemma ReaderRevived(s: State, pid: nat, v: nat)
    requires Inv(s) && CurrentAt(s) < |s.procs| && Find(s.procs, v) < |s.procs| && s.reader == Some(v)
    requires var i := Find(s.procs, pid); i < |s.procs| && s.procs[i].status == Blocked && s.procs[i].waitingFor == v
    ensures var u := Flush(Kill(s, v));
      ChildMayRun(u, Find(s.procs, pid), Find(s.procs, v)) && SamePids(s.procs, u.procs)
  {
    hide Find, Core;
    var j, k := Find(s.procs, pid), Find(s.procs, v);
    assert WaitOk(s.procs, j);
    PidPositive(s, k);
    FindOwn(s, j);
    FindOwn(s, k);
    var dead := s.procs[k].(status := Zombie);
    UpdateSame(s.procs, k, dead);
    UpdateSame(s.procs[k := dead], k, dead.(status := Ready, input := true));
  }

  /** A parent that waits for the process killed stays blocked over every later run
      in which it is not killed itself, exactly when the victim is not the one
      recorded as reading. */
  lemma KilledChildStrandsExactly(s: State, pid: nat, v: nat)
    requires Inv(s) && CurrentAt(s) < |s.procs| && Find(s.procs, v) < |s.procs|
    requires var i := Find(s.procs, pid); i < |s.procs| && s.procs[i].status == Blocked && s.procs[i].waitingFor == v
    ensures (forall ops: seq<Op>, t: State :: Runs(Kill(s, v), ops, t) && KillOp(pid) !in ops ==> Waiting(t, pid, v))
            <==> s.reader != Some(v)
  {
    hide Find, Core, Runs, Kill;
    if s.reader == Some(v) {
      var ops, t := KilledReaderFreesParent(s, pid, v);
      assert !Waiting(t, pid, v);
    } else {
      forall ops: seq<Op>, t: State | Runs(Kill(s, v), ops, t) && KillOp(pid) !in ops ensures Waiting(t, pid, v) {
        KilledChildStrandsParent(s, pid, v, ops, t);
      }
    }
  }

  /** Process `pid` is blocked on `v`. */
  predicate Waiting(t: State, pid: nat, v: nat) {
    var i := Find(t.procs, pid);
    i < |t.procs| && t.procs[i].status == Blocked && t.procs[i].waitingFor == v
  }
}
