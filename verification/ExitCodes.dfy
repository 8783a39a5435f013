/** Exit codes: what a waiting parent gets, over every run, and what kill does to
    one. */
module ExitCodes {
  import opened Options
  import opened Scheduling
  import opened WakeUps
  import opened WakeUpLimits
  import opened Sequences

  /** A parent waiting for the process that exits is ready when the call ends. */
  lemma ExitWakesParent(s: State, code: int, j: nat)
    requires Inv(s) && CurrentAt(s) < |s.procs| && j < |s.procs|
    requires s.procs[j].status == Blocked && s.procs[j].waitingFor == s.procs[CurrentAt(s)].pid
    ensures var t := Exit(s, code); |t.procs| == |s.procs| && t.procs[j].status == Ready && t.procs[j].waitingFor == 0
  {
    hide Find, PickFrom, LaidOut;
    assert WaitOk(s.procs, j);
    FindOwn(s, j);
    FindOwn(s, CurrentAt(s));
    var dead := s.procs[CurrentAt(s)].(status := Zombie, exitCode := code);
    UpdateSame(s.procs, CurrentAt(s), dead);
  }

  // ----- a blocked waitpid, followed by pid

  /** Process `pid` is alive with EAX `result`, its child `child` is in the table, and
      it waits for it or the child is a zombie. */
  predicate Following(s: State, pid: nat, child: nat, result: int) {
    var i, c := Find(s.procs, pid), Find(s.procs, child);
    && i < |s.procs| && c < |s.procs| && i != c
    && s.procs[i].result == result && s.procs[i].status != Zombie && s.procs[c].parent == pid
    && (s.procs[c].status == Zombie || (s.procs[i].status == Blocked && s.procs[i].waitingFor == child))
  }

  /** What keeps `Following`: every record stays but for what a wake-up changes. */
  predicate Moved(p: Proc, q: Proc) {
    && q.pid == p.pid && q.parent == p.parent && q.result == p.result
    && (p.status == Zombie ==> q.status == Zombie)
  }

  lemma MovedFollows(s: State, t: State, pid: nat, child: nat, result: int)
    requires Following(s, pid, child, result) && |t.procs| == |s.procs|
    requires forall k: nat :: k < |s.procs| ==> Moved(s.procs[k], t.procs[k])
    requires var i, c := Find(s.procs, pid), Find(s.procs, child);
      && t.procs[i].status != Zombie
      && (t.procs[c].status == Zombie || t.procs[i] == s.procs[i])
    ensures Following(t, pid, child, result)
  {
    hide Find;
    FindSame(s.procs, t.procs, pid);
    FindSame(s.procs, t.procs, child);
  }

  lemma CoreFollows(s: State, pid: nat, child: nat, result: int)
    requires Following(s, pid, child, result)
    ensures Following(Core(s), pid, child, result)
  {
    hide Find, PickFrom, LaidOut;
    MovedFollows(s, Core(s), pid, child, result);
  }

  /** The death of the current process, another one: the parent it wakes is the
      waiting one only if it is the child. */
  lemma DeathFollows(s: State, dead: Proc, pid: nat, child: nat, result: int)
    requires Inv(s) && CurrentAt(s) < |s.procs| && s.procs[CurrentAt(s)].pid != pid
    requires dead == s.procs[CurrentAt(s)].(status := Zombie, exitCode := dead.exitCode)
    requires Following(s, pid, child, result)
    ensures Following(s.(procs := Notify(s.procs[CurrentAt(s) := dead], dead)), pid, child, result)
  {
    hide Find, Inv, TableOk, Notify;
    CurrentRuns(s);
    var k := CurrentAt(s);
    var i, c := Find(s.procs, pid), Find(s.procs, child);
    UpdateSame(s.procs, k, dead);
    NotifyIs(s.procs[k := dead], dead);
    MovedFollows(s, s.(procs := Notify(s.procs[k := dead], dead)), pid, child, result);
  }

  lemma AnsweredFollows(s: State, r: int, pid: nat, child: nat, result: int)
    requires Following(s, pid, child, result) && (CurrentAt(s) < |s.procs| ==> s.procs[CurrentAt(s)].pid != pid)
    ensures Following(Answered(s, r), pid, child, result)
  {
    hide Find;
    var t := Answered(s, r);
    if CurrentAt(s) < |s.procs| {
      assert SamePids(s.procs, t.procs);
      FindSame(s.procs, t.procs, pid);
      FindSame(s.procs, t.procs, child);
    }
  }

  lemma ExecFollows(s: State, program: Option<Program>, pid: nat, child: nat, result: int)
    requires Inv(s) && Following(s, pid, child, result) && s.current != Some(pid)
    ensures Following(Exec(s, program), pid, child, result)
  {
    hide Inv, TableOk, Find, Answered;
    CurrentIs(s);
    match program
    case None => AnsweredFollows(s, -1, pid, child, result);
    case Some(g) =>
      var t := Spawn(s, g);
      SpawnKeeps(s, g);
      CurrentIs(t);
      FindAppended(s.procs, NewProc(s, g), pid);
      FindAppended(s.procs, NewProc(s, g), child);
      AnsweredFollows(t, s.nextPid, pid, child, result);
  }

  lemma CurrentIs(s: State)
    ensures CurrentAt(s) < |s.procs| ==> s.current == Some(s.procs[CurrentAt(s)].pid)
  {
    hide Find;
  }

  lemma WaitFollows(s: State, x: nat, pid: nat, child: nat, result: int)
    requires Inv(s) && CurrentAt(s) < |s.procs| && Following(s, pid, child, result) && s.current != Some(pid)
    ensures Following(Waitpid(s, x), pid, child, result)
  {
    hide Inv, TableOk, Find, Core, Dropped, SetResult;
    CurrentIs(s);
    CurrentRuns(s);
    var k := CurrentAt(s);
    var c := Find(s.procs, x);
    SetFollows(s, -1, pid, child, result);
    SetFollows(s, -2, pid, child, result);
    if c < |s.procs| && s.procs[c].parent == s.procs[k].pid {
      if s.procs[c].status == Zombie {
        var r := s.procs[c].exitCode;
        SetFollows(s, r, pid, child, result);
        ResultIs(s, k, r);
        ResultKeeps(s, k, r);
        ZombieNotCurrent(s, c);
        ReapFollows(SetResult(s, k, r), c, pid, child, result);
      } else {
        var p := s.procs[k].(status := Blocked, waitingFor := x);
        MovedFollows(s, s.(procs := s.procs[k := p]), pid, child, result);
        CoreFollows(s.(procs := s.procs[k := p]), pid, child, result);
      }
    }
  }

  lemma SetFollows(s: State, r: int, pid: nat, child: nat, result: int)
    requires Following(s, pid, child, result) && CurrentAt(s) < |s.procs| && s.procs[CurrentAt(s)].pid != pid
    ensures Following(SetResult(s, CurrentAt(s), r), pid, child, result)
  {
    hide Find, SetResult;
    AnsweredFollows(s, r, pid, child, result);
    assert Answered(s, r) == SetResult(s, CurrentAt(s), r);
  }

  lemma ReapFollows(s: State, c: nat, pid: nat, child: nat, result: int)
    requires Following(s, pid, child, result) && c < |s.procs| && s.procs[c].status == Zombie
    requires s.procs[c].pid != child && s.procs[c].pid != pid
    ensures Following(s.(procs := Dropped(s.procs, c)), pid, child, result)
  {
    hide Find, Dropped;
    FindWithout(s.procs, c, pid);
    FindWithout(s.procs, c, child);
  }

  lemma StepFollows(s: State, op: Op, pid: nat, child: nat, result: int)
    requires Inv(s) && Allowed(s, op) && !op.KillOp? && Following(s, pid, child, result) && s.current != Some(pid)
    ensures Following(Step(s, op), pid, child, result)
  {
    hide Find, Core, PickFrom, Notify, Inv, Spawn, Dropped, SetResult, Exec, Waitpid;
    CurrentIs(s);
    CurrentRuns(s);
    match op {
      case ExecOp(program) => ExecFollows(s, program, pid, child, result);
      case ExitOp(code) =>
        var dead := s.procs[CurrentAt(s)].(status := Zombie, exitCode := code);
        DeathFollows(s, dead, pid, child, result);
        CoreFollows(s.(procs := Notify(s.procs[CurrentAt(s) := dead], dead)), pid, child, result);
      case SegfaultOp =>
        var dead := s.procs[CurrentAt(s)].(status := Zombie, exitCode := 139);
        DeathFollows(s, dead, pid, child, result);
        DeathKeeps(s, dead);
      case WaitpidOp(x) => WaitFollows(s, x, pid, child, result);
      case ReadOp =>
        var k := CurrentAt(s);
        var p := s.procs[k].(status := Blocked);
        MovedFollows(s, s.(procs := s.procs[k := p]), pid, child, result);
        CoreFollows(s.(procs := s.procs[k := p], reader := Some(p.pid)), pid, child, result);
      case FlushOp => FlushFollows(s, pid, child, result);
      case Tick => CoreFollows(s, pid, child, result);
    }
  }

  lemma FlushFollows(s: State, pid: nat, child: nat, result: int)
    requires Inv(s) && Following(s, pid, child, result)
    ensures Following(Flush(s), pid, child, result)
  {
    hide Find, WaitOk;
    if s.reader.Some? {
      PidPositive(s, Find(s.procs, child));
      MovedFollows(s, Flush(s), pid, child, result);
    }
  }

  /** A run of which no step is taken while `pid` is the current process. */
  ghost predicate RunsWithout(s: State, ops: seq<Op>, t: State, pid: nat)
    decreases |ops|
  {
    if ops == [] then t == s
    else
      && s.current != Some(pid) && Allowed(s, ops[0]) && !ops[0].KillOp?
      && RunsWithout(Step(s, ops[0]), ops[1..], t, pid)
  }

  lemma {:induction false} RunFollows(s: State, ops: seq<Op>, t: State, pid: nat, child: nat, result: int)
    requires Inv(s) && RunsWithout(s, ops, t, pid) && Following(s, pid, child, result)
    ensures Inv(t) && Following(t, pid, child, result)
    decreases |ops|
  {
    hide Inv, Allowed, Step, Following;
    if ops != [] {
      StepKeeps(s, ops[0]);
      StepFollows(s, ops[0], pid, child, result);
      RunFollows(Step(s, ops[0]), ops[1..], t, pid, child, result);
    }
  }

  /** The call blocks: the caller waits for its child, with the EAX it had. */
  lemma BlockedFollows(s: State, child: nat)
    requires Inv(s) && CurrentAt(s) < |s.procs|
    requires var c := Find(s.procs, child); c < |s.procs| && s.procs[c].status != Zombie
                                             && s.procs[c].parent == s.procs[CurrentAt(s)].pid
    ensures var i := CurrentAt(s); Following(Waitpid(s, child), s.procs[i].pid, child, s.procs[i].result)
  {
    hide Find, Core, TableOk;
    var i, c := CurrentAt(s), Find(s.procs, child);
    ParentIsOther(s, i, c);
    var p := s.procs[i].(status := Blocked, waitingFor := child);
    UpdateSame(s.procs, i, p);
    TableDistinct(s);
    FindOwn(s, i);
    CoreFollows(s.(procs := s.procs[i := p]), p.pid, child, p.result);
  }

  /** The call reaps: the caller runs on with the code, and the child is gone. */
  lemma ReapedAtOnce(s: State, child: nat)
    requires Inv(s) && CurrentAt(s) < |s.procs|
    requires var c := Find(s.procs, child); c < |s.procs| && s.procs[c].status == Zombie
                                             && s.procs[c].parent == s.procs[CurrentAt(s)].pid
    ensures var t := Waitpid(s, child); var pid := s.procs[CurrentAt(s)].pid; var i := Find(t.procs, pid);
      && t.current == Some(pid) && i < |t.procs| && t.procs[i].result == s.procs[Find(s.procs, child)].exitCode
      && Find(t.procs, child) == |t.procs|
  {
    hide Find, TableOk, Dropped, SetResult;
    var i, c := CurrentAt(s), Find(s.procs, child);
    var u := SetResult(s, i, s.procs[c].exitCode);
    CurrentIs(s);
    ResultKeeps(s, i, s.procs[c].exitCode);
    ResultSet(s, i, s.procs[c].exitCode);
    ZombieNotCurrent(s, c);
    TableDistinct(u);
    FindOwn(u, i);
    FindOwn(u, c);
    FindWithout(u.procs, c, s.procs[i].pid);
    GoneAfter(u, c);
  }

  lemma ResultSet(s: State, i: nat, r: int)
    requires i < |s.procs|
    ensures SetResult(s, i, r).procs[i].result == r && SetResult(s, i, r).current == s.current
    ensures |SetResult(s, i, r).procs| == |s.procs|
    ensures forall k: nat :: k < |s.procs| ==> SetResult(s, i, r).procs[k].pid == s.procs[k].pid
  {
  }

  /** Whether waitpid delivers. Follow the caller to the state in which it next runs,
      through whatever the others do: the child's exit code is in its EAX and the
      child has left the table exactly when the child was a zombie at the call.
      Otherwise the EAX is what it was and the child is in the table, a zombie that no
      one has reaped. */
  lemma WaitDeliversExactly(s: State, child: nat, ops: seq<Op>, t: State)
    requires Inv(s) && CurrentAt(s) < |s.procs|
    requires var c := Find(s.procs, child); c < |s.procs| && s.procs[c].parent == s.procs[CurrentAt(s)].pid
    requires RunsWithout(Waitpid(s, child), ops, t, s.procs[CurrentAt(s)].pid)
    requires t.current == Some(s.procs[CurrentAt(s)].pid)
    ensures var pid := s.procs[CurrentAt(s)].pid; var c := Find(s.procs, child); var i := Find(t.procs, pid);
      && i < |t.procs|
      && (s.procs[c].status == Zombie <==>
            t.procs[i].result == s.procs[c].exitCode && Find(t.procs, child) == |t.procs|)
      && (s.procs[c].status != Zombie ==>
            && t.procs[i].result == s.procs[CurrentAt(s)].result
            && Find(t.procs, child) < |t.procs| && t.procs[Find(t.procs, child)].status == Zombie)
  {
    hide Inv, Waitpid, Find, Step, Allowed;
    var pid, c := s.procs[CurrentAt(s)].pid, Find(s.procs, child);
    WaitpidKeeps(s, child);
    if s.procs[c].status == Zombie {
      ReapedAtOnce(s, child);
    } else {
      BlockedFollows(s, child);
      RunFollows(Waitpid(s, child), ops, t, pid, child, s.procs[CurrentAt(s)].result);
      CurrentIs(t);
      CurrentRuns(t);
      CurrentFound(t, pid);
    }
  }

  lemma CurrentFound(t: State, pid: nat)
    requires Inv(t) && t.current == Some(pid)
    ensures CurrentAt(t) == Find(t.procs, pid) < |t.procs| && t.procs[CurrentAt(t)].status != Blocked
  {
    hide Find, TableOk;
  }

  lemma ParentIsOther(s: State, i: nat, c: nat)
    requires Inv(s) && i < |s.procs| && c < |s.procs| && s.procs[c].parent == s.procs[i].pid
    ensures i != c
  {
  }

  // ----- a child that is killed

  /** Process `pid` is blocked on its child `v`, a zombie; neither runs, neither is
      the one recorded as reading. */
  ghost predicate Deserted(s: State, pid: nat, v: nat) {
    var i, j := Find(s.procs, pid), Find(s.procs, v);
    && Distinct(s) && i < |s.procs| && j < |s.procs|
    && s.procs[i].status == Blocked && s.procs[i].waitingFor == v
    && s.procs[j].status == Zombie && s.procs[j].parent == pid
    && s.reader != Some(pid) && s.reader != Some(v) && s.current != Some(pid) && s.current != Some(v)
  }

  /** Records that keep their place and what `Deserted` says of them. */
  predicate StillDeserted(p: Proc, q: Proc, pid: nat, v: nat) {
    && q.pid == p.pid && q.parent == p.parent
    && (p.pid == pid ==> q.status == p.status && q.waitingFor == p.waitingFor)
    && (p.pid == v ==> q.status == Zombie)
  }

  lemma TableStays(s: State, t: State, pid: nat, v: nat)
    requires Deserted(s, pid, v) && |t.procs| == |s.procs| && t.nextPid == s.nextPid
    requires forall k: nat :: k < |s.procs| ==> StillDeserted(s.procs[k], t.procs[k], pid, v)
    requires t.reader != Some(pid) && t.reader != Some(v) && t.current != Some(pid) && t.current != Some(v)
    ensures Deserted(t, pid, v)
  {
    hide Find;
    FindSame(s.procs, t.procs, pid);
    FindSame(s.procs, t.procs, v);
  }

  lemma CoreDeserts(s: State, pid: nat, v: nat)
    requires Deserted(s, pid, v)
    ensures Deserted(Core(s), pid, v)
  {
    hide Find, PickFrom, LaidOut;
    var t := Core(s);
    var h := t.head;
    TwoPlaces(s, pid, v, h);
    TableStays(s, t, pid, v);
  }

  /** A runnable process is neither of the two. */
  lemma TwoPlaces(s: State, pid: nat, v: nat, h: nat)
    requires Deserted(s, pid, v)
    ensures h < |s.procs| && Runnable(s.procs[h]) ==> s.procs[h].pid != pid && s.procs[h].pid != v
    ensures forall k: nat :: k < |s.procs| && s.procs[k].pid == v ==> s.procs[k].status == Zombie
  {
    hide Find;
    forall k: nat | k < |s.procs| ensures Find(s.procs, s.procs[k].pid) == k { FindOwn(s, k); }
  }

  lemma DeathDeserts(s: State, dead: Proc, pid: nat, v: nat)
    requires Deserted(s, pid, v) && CurrentAt(s) < |s.procs|
    requires dead == s.procs[CurrentAt(s)].(status := Zombie, exitCode := dead.exitCode)
    ensures Deserted(s.(procs := Notify(s.procs[CurrentAt(s) := dead], dead)), pid, v)
    ensures |Notify(s.procs[CurrentAt(s) := dead], dead)| == |s.procs|
    ensures Notify(Notify(s.procs[CurrentAt(s) := dead], dead), dead) == Notify(s.procs[CurrentAt(s) := dead], dead)
  {
    hide Find, Notify;
    CurrentIs(s);
    TwoPlaces(s, pid, v, 0);
    UpdateSame(s.procs, CurrentAt(s), dead);
    NotifyIs(s.procs[CurrentAt(s) := dead], dead);
    TableStays(s, s.(procs := Notify(s.procs[CurrentAt(s) := dead], dead)), pid, v);
  }

  lemma AnsweredDeserts(s: State, r: int, pid: nat, v: nat)
    requires Deserted(s, pid, v)
    ensures Deserted(Answered(s, r), pid, v)
  {
    hide Find;
    CurrentIs(s);
    TwoPlaces(s, pid, v, 0);
    TableStays(s, Answered(s, r), pid, v);
  }

  lemma SpawnDeserts(s: State, g: Program, pid: nat, v: nat)
    requires Deserted(s, pid, v) && (s.current.Some? ==> CurrentAt(s) < |s.procs|)
    ensures Deserted(Spawn(s, g), pid, v) && (s.current.Some? ==> CurrentAt(Spawn(s, g)) < |Spawn(s, g).procs|)
  {
    hide Find;
    FindAppended(s.procs, NewProc(s, g), pid);
    FindAppended(s.procs, NewProc(s, g), v);
    if s.current.Some? { FindAppended(s.procs, NewProc(s, g), s.current.value); }
  }

  lemma WaitDeserts(s: State, x: nat, pid: nat, v: nat)
    requires Deserted(s, pid, v) && CurrentAt(s) < |s.procs|
    ensures Deserted(Waitpid(s, x), pid, v)
  {
    hide Find, Core, Dropped, SetResult;
    CurrentIs(s);
    TwoPlaces(s, pid, v, 0);
    var k, c := CurrentAt(s), Find(s.procs, x);
    SetDeserts(s, -1, pid, v);
    SetDeserts(s, -2, pid, v);
    if c < |s.procs| && s.procs[c].parent == s.procs[k].pid {
      if s.procs[c].status == Zombie {
        SetDeserts(s, s.procs[c].exitCode, pid, v);
        ResultIs(s, k, s.procs[c].exitCode);
        ResultSet(s, k, s.procs[c].exitCode);
        ReapDeserts(SetResult(s, k, s.procs[c].exitCode), c, pid, v);
      } else {
        var p := s.procs[k].(status := Blocked, waitingFor := x);
        TableStays(s, s.(procs := s.procs[k := p]), pid, v);
        CoreDeserts(s.(procs := s.procs[k := p]), pid, v);
      }
    }
  }

  lemma SetDeserts(s: State, r: int, pid: nat, v: nat)
    requires Deserted(s, pid, v) && CurrentAt(s) < |s.procs|
    ensures Deserted(SetResult(s, CurrentAt(s), r), pid, v)
  {
    hide Find, SetResult, Deserted;
    AnsweredDeserts(s, r, pid, v);
    assert Answered(s, r) == SetResult(s, CurrentAt(s), r);
  }

  lemma ReapDeserts(s: State, c: nat, pid: nat, v: nat)
    requires Deserted(s, pid, v) && c < |s.procs| && s.procs[c].pid != v && s.procs[c].pid != pid
    ensures Deserted(s.(procs := Dropped(s.procs, c)), pid, v)
  {
    hide Find;
    FindWithout(s.procs, c, pid);
    FindWithout(s.procs, c, v);
    var w := Dropped(s.procs, c);
    forall k: nat | k < |w| ensures w[k] == s.procs[if k < c then k else k + 1] {
    }
  }

  /** No step but killing the parent itself takes it out of its wait. The current
      process, if any, is in the table. */
  lemma StepDeserts(s: State, op: Op, pid: nat, v: nat)
    requires Deserted(s, pid, v) && Allowed(s, op) && op != KillOp(pid)
             && (s.current.Some? ==> CurrentAt(s) < |s.procs|)
    ensures Deserted(Step(s, op), pid, v)
  {
    hide Find, Core, PickFrom, Notify, Spawn, Dropped, SetResult, Exec, Waitpid, LaidOut, Answered;
    CurrentIs(s);
    TwoPlaces(s, pid, v, 0);
    match op {
      case ExecOp(program) => ExecDeserts(s, program, pid, v);
      case ExitOp(code) =>
        var dead := s.procs[CurrentAt(s)].(status := Zombie, exitCode := code);
        DeathDeserts(s, dead, pid, v);
        CoreDeserts(s.(procs := Notify(s.procs[CurrentAt(s) := dead], dead)), pid, v);
      case SegfaultOp => SegfaultDeserts(s, pid, v);
      case WaitpidOp(x) => WaitDeserts(s, x, pid, v);
      case ReadOp =>
        var k := CurrentAt(s);
        var p := s.procs[k].(status := Blocked);
        TableStays(s, s.(procs := s.procs[k := p], reader := Some(p.pid)), pid, v);
        CoreDeserts(s.(procs := s.procs[k := p], reader := Some(p.pid)), pid, v);
      case FlushOp => FlushDeserts(s, pid, v);
      case Tick => CoreDeserts(s, pid, v);
      case KillOp(q) =>
        var k := Find(s.procs, q);
        var t := s.(procs := s.procs[k := s.procs[k].(status := Zombie)]);
        TableStays(s, t, pid, v);
        CoreDeserts(t, pid, v);
    }
  }

  lemma ExecDeserts(s: State, program: Option<Program>, pid: nat, v: nat)
    requires Deserted(s, pid, v) && (s.current.Some? ==> CurrentAt(s) < |s.procs|)
    ensures Deserted(Exec(s, program), pid, v)
  {
    hide Find, Spawn, Answered, Deserted;
    match program
    case None => AnsweredDeserts(s, -1, pid, v);
    case Some(g) =>
      SpawnDeserts(s, g, pid, v);
      AnsweredDeserts(Spawn(s, g), s.nextPid, pid, v);
  }

  lemma SegfaultDeserts(s: State, pid: nat, v: nat)
    requires Deserted(s, pid, v) && CurrentAt(s) < |s.procs|
    ensures Deserted(Segfault(s), pid, v)
  {
    hide Find, PickFrom, Notify;
    var dead := s.procs[CurrentAt(s)].(status := Zombie, exitCode := 139);
    DeathDeserts(s, dead, pid, v);
    var mid := s.(procs := Notify(s.procs[CurrentAt(s) := dead], dead));
    var t := Segfault(s);
    assert t.procs == mid.procs;
    TwoPlaces(mid, pid, v, t.head);
  }

  lemma FlushDeserts(s: State, pid: nat, v: nat)
    requires Deserted(s, pid, v)
    ensures Deserted(Flush(s), pid, v)
  {
    hide Find;
    TwoPlaces(s, pid, v, 0);
    TableStays(s, Flush(s), pid, v);
  }

  /** The current process stays in the table, also over kills. */
  lemma StepCurrent(s: State, op: Op, pid: nat, v: nat)
    requires Deserted(s, pid, v) && Allowed(s, op) && (s.current.Some? ==> CurrentAt(s) < |s.procs|)
    ensures var t := Step(s, op); t.current.Some? ==> CurrentAt(t) < |t.procs|
  {
    hide Find, PickFrom, LaidOut, Dropped;
    match op {
      case ExecOp(program) =>
        if program.Some? { SpawnDeserts(s, program.value, pid, v); }
        AnsweredCurrent(if program.Some? then Spawn(s, program.value) else s, if program.Some? then s.nextPid else -1);
      case WaitpidOp(x) => WaitCurrent(s, x);
      case SegfaultOp =>
        var t := Segfault(s);
        if t.current.Some? { HeadFound(t.procs, t.head); }
      case ExitOp(code) =>
        var dead := s.procs[CurrentAt(s)].(status := Zombie, exitCode := code);
        CoreCurrent(s.(procs := Notify(s.procs[CurrentAt(s) := dead], dead)));
      case ReadOp =>
        var k := CurrentAt(s);
        CoreCurrent(s.(procs := s.procs[k := s.procs[k].(status := Blocked)], reader := Some(s.procs[k].pid)));
      case FlushOp => FlushCurrent(s);
      case Tick => if s.procs != [] { CoreCurrent(s); }
      case KillOp(q) =>
        var k := Find(s.procs, q);
        var t := s.(procs := s.procs[k := s.procs[k].(status := Zombie)]);
        CoreCurrent(t);
        FindSame(s.procs, t.procs, s.current.value);
    }
  }

  lemma HeadFound(procs: seq<Proc>, h: nat)
    requires h < |procs|
    ensures Find(procs, procs[h].pid) < |procs|
  {
    hide Find;
  }

  lemma CoreCurrent(s: State)
    requires s.procs != []
    ensures var t := Core(s); t.current.Some? ==> CurrentAt(t) < |t.procs|
  {
    hide Find, PickFrom, LaidOut;
    var t := Core(s);
    if t.current.Some? { HeadFound(t.procs, t.head); }
  }

  lemma AnsweredCurrent(s: State, r: int)
    requires s.current.Some? ==> CurrentAt(s) < |s.procs|
    ensures var t := Answered(s, r); t.current.Some? ==> CurrentAt(t) < |t.procs|
  {
    hide Find;
    if s.current.Some? { FindSame(s.procs, Answered(s, r).procs, s.current.value); }
  }

  lemma FlushCurrent(s: State)
    requires s.current.Some? ==> CurrentAt(s) < |s.procs|
    ensures var t := Flush(s); t.current.Some? ==> CurrentAt(t) < |t.procs|
  {
    hide Find;
    if s.current.Some? { FindSame(s.procs, Flush(s).procs, s.current.value); }
  }

  lemma WaitCurrent(s: State, x: nat)
    requires Distinct(s) && CurrentAt(s) < |s.procs|
    ensures var t := Waitpid(s, x); t.current.Some? ==> CurrentAt(t) < |t.procs|
  {
    hide Find, Dropped, PickFrom, LaidOut;
    var i, c := CurrentAt(s), Find(s.procs, x);
    AnsweredCurrent(s, -1);
    AnsweredCurrent(s, -2);
    if c < |s.procs| && s.procs[c].parent == s.procs[i].pid {
      if s.procs[c].status == Zombie {
        var u := SetResult(s, i, s.procs[c].exitCode);
        AnsweredCurrent(s, s.procs[c].exitCode);
        FindWithout(u.procs, c, s.current.value);
      } else {
        CoreCurrent(s.(procs := s.procs[i := s.procs[i].(status := Blocked, waitingFor := x)]));
      }
    }
  }

  lemma {:induction false} RunDeserts(s: State, ops: seq<Op>, t: State, pid: nat, v: nat)
    requires Deserted(s, pid, v) && (s.current.Some? ==> CurrentAt(s) < |s.procs|)
    requires Runs(s, ops, t) && KillOp(pid) !in ops
    ensures Deserted(t, pid, v)
    decreases |ops|
  {
    hide Deserted, Allowed, Step, CurrentAt;
    if ops != [] {
      StepDeserts(s, ops[0], pid, v);
      StepCurrent(s, ops[0], pid, v);
      RunDeserts(Step(s, ops[0]), ops[1..], t, pid, v);
    }
  }

  /** A parent that waits for the process killed stays blocked over every later run,
      unless it is killed itself: nobody tells it, and only it could reap the child.
      (A victim recorded as reading may run again, see `KilledReaderRuns`.) */
  lemma KilledChildStrandsParent(s: State, pid: nat, v: nat, ops: seq<Op>, t: State)
    requires Inv(s) && CurrentAt(s) < |s.procs| && Find(s.procs, v) < |s.procs| && s.reader != Some(v)
    requires var i := Find(s.procs, pid); i < |s.procs| && s.procs[i].status == Blocked && s.procs[i].waitingFor == v
    requires Runs(Kill(s, v), ops, t) && KillOp(pid) !in ops
    ensures var i := Find(t.procs, pid); i < |t.procs| && t.procs[i].status == Blocked && t.procs[i].waitingFor == v
  {
    hide Find, Core, Runs;
    KillDeserts(s, pid, v);
    RunDeserts(Kill(s, v), ops, t, pid, v);
  }

  lemma KillDeserts(s: State, pid: nat, v: nat)
    requires Inv(s) && CurrentAt(s) < |s.procs| && Find(s.procs, v) < |s.procs| && s.reader != Some(v)
    requires var i := Find(s.procs, pid); i < |s.procs| && s.procs[i].status == Blocked && s.procs[i].waitingFor == v
    ensures var t := Kill(s, v); Deserted(t, pid, v) && (t.current.Some? ==> CurrentAt(t) < |t.procs|)
  {
    hide Find, PickFrom, LaidOut;
    var i, k := Find(s.procs, pid), Find(s.procs, v);
    assert WaitOk(s.procs, i);
    PidPositive(s, k);
    var t := s.(procs := s.procs[k := s.procs[k].(status := Zombie)]);
    UpdateSame(s.procs, k, s.procs[k].(status := Zombie));
    if k == CurrentAt(s) {
      CoreOfKilled(s, t, pid, v);
      CoreCurrent(t);
    } else {
      FindSameCurrent(s, t);
    }
  }

  lemma FindSameCurrent(s: State, t: State)
    requires SamePids(s.procs, t.procs) && t.current == s.current
    ensures CurrentAt(t) == CurrentAt(s)
  {
    hide Find;
    if s.current.Some? { FindSame(s.procs, t.procs, s.current.value); }
  }

  /** The killed process was the current one: the scheduler goes on with another. */
  lemma CoreOfKilled(s: State, t: State, pid: nat, v: nat)
    requires Distinct(s) && Find(s.procs, pid) < |s.procs| && Find(s.procs, v) < |s.procs| && pid != v
    requires t == s.(procs := s.procs[Find(s.procs, v) := s.procs[Find(s.procs, v)].(status := Zombie)])
    requires s.procs[Find(s.procs, pid)].status == Blocked && s.procs[Find(s.procs, pid)].waitingFor == v
    requires s.procs[Find(s.procs, v)].parent == pid && s.reader != Some(pid) && s.reader != Some(v)
    ensures Deserted(Core(t), pid, v)
  {
    hide Find, PickFrom, LaidOut;
    var k := Find(s.procs, v);
    UpdateSame(s.procs, k, s.procs[k].(status := Zombie));
    var idle := t.(current := None);
    assert Deserted(idle, pid, v);
    TwoPlaces(idle, pid, v, Core(t).head);
    TableStays(idle, Core(t), pid, v);
  }
}
