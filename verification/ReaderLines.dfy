/** The line a reader was woken with: when it is copied before the reader runs. */
module ReaderLines {
  import opened Options
  import opened Scheduling
  import opened WakeUps
  import opened ProcessStacks
  import opened Sequences

  /** A line waits only for a process that is ready, and the process that runs has had
      its own copied. */
  ghost predicate LinesOk(s: State) {
    && (forall i: nat :: i < |s.procs| && s.procs[i].input ==> s.procs[i].status == Ready)
    && Copied(s)
  }

  predicate Copied(s: State) {
    CurrentAt(s) < |s.procs| ==> !s.procs[CurrentAt(s)].input
  }

  /** Enter wakes the recorded reader with its line, and no one else. */
  lemma FlushGives(s: State)
    requires Inv(s) && s.reader.Some?
    ensures var t := Flush(s); var i := Find(s.procs, s.reader.value);
      && i < |s.procs| && s.procs[i].status == Blocked
      && t == s.(procs := s.procs[i := s.procs[i].(status := Ready, input := true)], reader := None)
  {
    hide Find, WaitOk;
  }

  lemma CoreCopies(s: State)
    requires Distinct(s) && s.procs != []
    requires forall i: nat :: i < |s.procs| && s.procs[i].input ==> s.procs[i].status == Ready
    ensures LinesOk(Core(s))
  {
    hide Find, PickFrom, SearchFrom, LaidOut;
    var t := Core(s);
    if t.current.Some? {
      UpdateSame(s.procs, t.head, t.procs[t.head]);
      FindOwn(s, t.head);
    }
  }

  lemma SameLines(s: State, t: State)
    requires LinesOk(s) && SamePids(s.procs, t.procs) && t.current == s.current
    requires forall i: nat :: i < |s.procs| ==>
               t.procs[i].input == s.procs[i].input && t.procs[i].status == s.procs[i].status
    ensures LinesOk(t)
  {
    hide Find;
    FindSameAll(s, t);
  }

  lemma AnsweredCopies(s: State, result: int)
    requires LinesOk(s)
    ensures LinesOk(Answered(s, result))
  {
    hide Find;
    SameLines(s, Answered(s, result));
  }

  lemma ExecCopies(s: State, program: Option<Program>)
    requires Inv(s) && LinesOk(s)
    ensures LinesOk(Exec(s, program))
  {
    hide Inv, Find, Answered;
    match program
    case None => AnsweredCopies(s, -1);
    case Some(g) =>
      SpawnKeeps(s, g);
      CurrentKnown(s);
      AnsweredCopies(Spawn(s, g), s.nextPid);
  }

  lemma DeathCopies(s: State, dead: Proc)
    requires Inv(s) && LinesOk(s) && CurrentAt(s) < |s.procs|
    requires dead == s.procs[CurrentAt(s)].(status := Zombie, exitCode := dead.exitCode)
    ensures var procs := Notify(s.procs[CurrentAt(s) := dead], dead);
      && |procs| == |s.procs|
      && forall i: nat :: i < |procs| ==>
           procs[i].input == s.procs[i].input && (procs[i].input ==> procs[i].status == Ready)
  {
    hide Find, TableOk;
  }

  lemma BlockCopies(s: State, p: Proc, reader: Option<nat>)
    requires Inv(s) && LinesOk(s) && CurrentAt(s) < |s.procs|
    requires p == s.procs[CurrentAt(s)].(status := Blocked, waitingFor := p.waitingFor)
    ensures LinesOk(Core(s.(procs := s.procs[CurrentAt(s) := p], reader := reader)))
  {
    hide Find, Core, WaitOk;
    var m := s.(procs := s.procs[CurrentAt(s) := p], reader := reader);
    UpdateSame(s.procs, CurrentAt(s), p);
    CoreCopies(m);
  }

  lemma ReapCopies(s: State, c: nat)
    requires Inv(s) && LinesOk(s) && c < |s.procs| && c != CurrentAt(s) && CurrentAt(s) < |s.procs|
    ensures LinesOk(s.(procs := Dropped(s.procs, c)))
  {
    hide Find, WaitOk;
    var t := s.(procs := Dropped(s.procs, c));
    FindOwn(s, c);
    FindWithout(s.procs, c, s.current.value);
    forall k: nat | k < |t.procs| && t.procs[k].input ensures t.procs[k].status == Ready {
      assert t.procs[k] == s.procs[if k < c then k else k + 1];
    }
  }

  lemma WaitCopies(s: State, child: nat)
    requires Inv(s) && LinesOk(s) && CurrentAt(s) < |s.procs|
    ensures LinesOk(Waitpid(s, child))
  {
    hide Inv, Find, Core, Dropped, LinesOk;
    var i, c := CurrentAt(s), Find(s.procs, child);
    ResultCopies(s, -1);
    ResultCopies(s, -2);
    if c < |s.procs| && s.procs[c].parent == s.procs[i].pid {
      if s.procs[c].status == Zombie {
        var r := s.procs[c].exitCode;
        ResultCopies(s, r);
        ResultKeeps(s, i, r);
        ResultIs(s, i, r);
        ZombieNotCurrent(s, c);
        ReapCopies(SetResult(s, i, r), c);
      } else {
        BlockCopies(s, s.procs[i].(status := Blocked, waitingFor := child), s.reader);
      }
    }
  }

  lemma ResultCopies(s: State, r: int)
    requires LinesOk(s) && CurrentAt(s) < |s.procs|
    ensures LinesOk(SetResult(s, CurrentAt(s), r))
  {
    hide Find, SetResult, LinesOk;
    AnsweredCopies(s, r);
    assert Answered(s, r) == SetResult(s, CurrentAt(s), r);
  }

  lemma FlushCopies(s: State)
    requires Inv(s) && LinesOk(s)
    ensures LinesOk(Flush(s))
  {
    hide Find, WaitOk;
    if s.reader.Some? {
      FlushGives(s);
      FindSameAll(s, Flush(s));
    }
  }

  /** The switch after a page fault copies nothing: the process switched to runs without
      its line exactly when one waits for it. */
  lemma FaultCopiesExactly(s: State)
    requires Inv(s) && LinesOk(s) && CurrentAt(s) < |s.procs|
    ensures LinesOk(Segfault(s)) <==> !s.procs[NextAfterFault(s)].input
    ensures s.procs[NextAfterFault(s)].input ==>
              var t := Segfault(s); CurrentAt(t) == NextAfterFault(s) < |t.procs| && t.procs[CurrentAt(t)].input
  {
    hide Find, TableOk, PickFrom, Notify, LinesOk;
    var dead := s.procs[CurrentAt(s)].(status := Zombie, exitCode := 139);
    DeathKeeps(s, dead);
    DeathCopies(s, dead);
    var t := Segfault(s);
    var h := NextAfterFault(s);
    SegfaultKeeps(s);
    TableDistinct(t);
    FindOwn(t, h);
    LinesIs(t);
    assert t.procs == Notify(s.procs[CurrentAt(s) := dead], dead) && t.head == h;
  }

  lemma LinesIs(t: State)
    ensures LinesOk(t)
            <==> (forall i: nat :: i < |t.procs| && t.procs[i].input ==> t.procs[i].status == Ready) && Copied(t)
  {
    hide Find;
  }

  /** Every step without kill leaves the process that runs with its line copied, but a
      fault that switches to a process whose line waits. */
  lemma StepCopies(s: State, op: Op)
    requires Inv(s) && LinesOk(s) && Allowed(s, op) && !op.KillOp?
    ensures LinesOk(Step(s, op)) <==> !(op.SegfaultOp? && s.procs[NextAfterFault(s)].input)
  {
    hide Inv, Find, Core, PickFrom, Notify, Exec, Waitpid, Flush, Segfault, NextAfterFault, LinesOk;
    match op {
      case ExecOp(program) => ExecCopies(s, program);
      case ExitOp(code) => ExitCopies(s, code);
      case SegfaultOp => FaultCopiesExactly(s);
      case WaitpidOp(child) => WaitCopies(s, child);
      case ReadOp =>
        var p := s.procs[CurrentAt(s)].(status := Blocked);
        BlockCopies(s, p, Some(p.pid));
      case FlushOp => FlushCopies(s);
      case Tick => TickCopies(s);
    }
  }

  lemma ExitCopies(s: State, code: int)
    requires Inv(s) && LinesOk(s) && CurrentAt(s) < |s.procs|
    ensures LinesOk(Exit(s, code))
  {
    hide Find, TableOk, Notify, Core, LinesOk;
    var dead := s.procs[CurrentAt(s)].(status := Zombie, exitCode := code);
    DeathKeeps(s, dead);
    DeathCopies(s, dead);
    var m := s.(procs := Notify(s.procs[CurrentAt(s) := dead], dead));
    TableDistinct(m);
    CoreCopies(m);
  }

  lemma TickCopies(s: State)
    requires Inv(s) && LinesOk(s)
    ensures LinesOk(Core(s))
  {
    hide Find, Core, WaitOk;
    if s.procs != [] { CoreCopies(s); } else { EmptyCore(s); }
  }

  lemma EmptyCore(s: State)
    requires s.procs == []
    ensures Core(s) == s
  {
  }

  /** No fault of the run switches to a process whose line waits. */
  ghost predicate FaultsCopied(s: State, ops: seq<Op>)
    decreases |ops|
  {
    ops != [] ==>
      && Allowed(s, ops[0])
      && (ops[0].SegfaultOp? ==> !s.procs[NextAfterFault(s)].input)
      && FaultsCopied(Step(s, ops[0]), ops[1..])
  }

  /** Over every run without kill and without such a fault the process that runs has
      had its line copied. */
  lemma {:induction false} EveryRunCopies(s: State, ops: seq<Op>, t: State)
    requires Inv(s) && LinesOk(s) && Runs(s, ops, t) && FaultsCopied(s, ops)
    requires forall i :: 0 <= i < |ops| ==> !ops[i].KillOp?
    ensures LinesOk(t)
    decreases |ops|
  {
    hide Inv, Allowed, Step, LinesOk, NextAfterFault;
    if ops != [] {
      StepKeeps(s, ops[0]);
      StepCopies(s, ops[0]);
      EveryRunCopies(Step(s, ops[0]), ops[1..], t);
    }
  }

  // ----- an input

  /** Two programs; the second reads, and its line is there while the first runs. */
  lemma LineWaits(g: Program) returns (m: State, s: State)
    ensures m == Core(Exec(Core(Exec(Start(), Some(g))), Some(g)))
    ensures CurrentAt(m) < |m.procs| && s == Flush(Read(m))
    ensures |s.procs| == 2 && s.head == 0 && s.current == Some(1)
    ensures s.procs[0].pid == 1 && s.procs[0].parent == 0
    ensures s.procs[1].pid == 2 && s.procs[1].status == Ready && s.procs[1].input
  {
    hide LaidOut;
    var s1 := TwoStarted(g);
    var a, b := s1.procs[0], s1.procs[1];
    assert s1.procs == [a, b];
    FirstRuns(g);
    m := Core(s1);
    assert PickFrom([a, b], 0, 0) == 1;
    assert m.procs == [a, Resumed(b)] && m.current == Some(2) && m.head == 1;
    assert m.procs[1].pid == 2 && m.procs[1].status == Ready;
    SecondReads(m, a);
    s := Flush(Read(m));
  }

  lemma FirstRuns(g: Program)
    ensures var s := Exec(Core(Exec(Start(), Some(g))), Some(g)); |s.procs| == 2 && s.procs[0].status == Ready
  {
    hide LaidOut;
    var s1 := Exec(Start(), Some(g));
    assert s1.procs == [NewProc(Start(), g)] && s1.current == None;
    var s2 := Core(s1);
    assert PickFrom(s1.procs, 0, 0) == 0;
    assert s2.procs == [Resumed(s1.procs[0])];
  }

  lemma SecondReads(s: State, a: Proc)
    requires |s.procs| == 2 && s.procs[0] == a && a.pid == 1 && a.status == Ready
    requires s.procs[1].pid == 2 && s.procs[1].status == Ready && s.current == Some(2) && s.head == 1
    ensures CurrentAt(s) == 1
    ensures var t := Flush(Read(s));
      && |t.procs| == 2 && t.head == 0 && t.current == Some(1) && t.procs[0].pid == 1 && t.procs[0].parent == a.parent
      && t.procs[1].pid == 2 && t.procs[1].status == Ready && t.procs[1].input
  {
    var p := s.procs[1].(status := Blocked);
    var m := s.(procs := s.procs[1 := p], reader := Some(2));
    assert m.procs == [a, p];
    assert PickFrom([a, p], 1, 0) == 0;
    assert Read(s).procs == [Resumed(a), p];
  }

  /** A fault of the first program then leads to the second running without its line. */
  lemma FaultSkipsLine(g: Program) returns (t: State)
    ensures Runs(Start(), [ExecOp(Some(g)), Tick, ExecOp(Some(g)), Tick, ReadOp, FlushOp, SegfaultOp], t)
    ensures CurrentAt(t) == 1 < |t.procs| && t.procs[1].input
  {
    hide Exec, Core, Segfault, Read, Flush, Start, Runs;
    var m, s := LineWaits(g);
    FaultTakesLine(s);
    t := Segfault(s);
    var s1 := Exec(Core(Exec(Start(), Some(g))), Some(g));
    assert [SegfaultOp] + [] == [SegfaultOp] && [FlushOp] + [SegfaultOp] == [FlushOp, SegfaultOp];
    assert [ReadOp] + [FlushOp, SegfaultOp] == [ReadOp, FlushOp, SegfaultOp];
    assert [Tick] + [ReadOp, FlushOp, SegfaultOp] == [Tick, ReadOp, FlushOp, SegfaultOp];
    assert [ExecOp(Some(g))] + [Tick, ReadOp, FlushOp, SegfaultOp]
        == [ExecOp(Some(g)), Tick, ReadOp, FlushOp, SegfaultOp];
    assert [Tick] + [ExecOp(Some(g)), Tick, ReadOp, FlushOp, SegfaultOp]
        == [Tick, ExecOp(Some(g)), Tick, ReadOp, FlushOp, SegfaultOp];
    assert [ExecOp(Some(g))] + [Tick, ExecOp(Some(g)), Tick, ReadOp, FlushOp, SegfaultOp]
        == [ExecOp(Some(g)), Tick, ExecOp(Some(g)), Tick, ReadOp, FlushOp, SegfaultOp];
    NoOps(t);
    RunOne(s, SegfaultOp, [], t);
    RunOne(Read(m), FlushOp, [SegfaultOp], t);
    RunOne(m, ReadOp, [FlushOp, SegfaultOp], t);
    RunOne(s1, Tick, [ReadOp, FlushOp, SegfaultOp], t);
    RunOne(Core(Exec(Start(), Some(g))), ExecOp(Some(g)), [Tick, ReadOp, FlushOp, SegfaultOp], t);
    RunOne(Exec(Start(), Some(g)), Tick, [ExecOp(Some(g)), Tick, ReadOp, FlushOp, SegfaultOp], t);
    RunOne(Start(), ExecOp(Some(g)), [Tick, ExecOp(Some(g)), Tick, ReadOp, FlushOp, SegfaultOp], t);
  }

  lemma FaultTakesLine(s: State)
    requires |s.procs| == 2 && s.head == 0 && s.current == Some(1)
    requires s.procs[0].pid == 1 && s.procs[0].parent == 0
    requires s.procs[1].status == Ready && s.procs[1].pid == 2 && s.procs[1].input
    ensures CurrentAt(s) == 0
    ensures var t := Segfault(s); CurrentAt(t) == 1 < |t.procs| && t.procs[1].input
  {
    var dead := s.procs[0].(status := Zombie, exitCode := 139);
    assert s.procs[0 := dead] == [dead, s.procs[1]];
    assert Notify([dead, s.procs[1]], dead) == [dead, s.procs[1]];
    assert PickFrom([dead, s.procs[1]], 0, 0) == 1;
  }
}
