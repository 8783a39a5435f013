/** The argument stack of a process: when it is there as the process runs. */
module ProcessStacks {
  import opened AddressMap
  import opened Options
  import opened Scheduling
  import opened WakeUps
  import opened Sequences

  /** The entry point of the program finds its arguments and its environment. */
  ghost predicate HasArguments(p: Proc) {
    && STACK_BOTTOM <= p.esp
    && var (argc, environ) := StackLayout.Start(p.stack, p.esp);
      && argc == |p.args.argv|
      && StackLayout.Finds(p.stack, p.esp, p.args.argv)
      && StackLayout.Finds(p.stack, environ, p.args.env)
  }

  /** The first word the entry point reads lies outside the stack. */
  predicate ReadsOutside(p: Proc) {
    !StackLayout.InStack(p.esp, 4)
  }

  lemma LaidOutHas(p: Proc)
    ensures HasArguments(LaidOut(p)) && LaidOut(p).args == p.args
  {
    hide StackLayout.Layout, StackLayout.Start, StackLayout.Finds, StackLayout.Need;
    StackLayout.LayoutRoundTrip(p.stack, p.args.argv, p.args.env);
  }

  lemma AtTopHasNone(p: Proc)
    requires p.esp == STACK_TOP
    ensures !HasArguments(p) && ReadsOutside(p)
  {
  }

  /** A process that has been dispatched and can run again has its arguments; a new
      one has its stack pointer at the top. */
  ghost predicate StackOk(p: Proc) {
    && (p.status == Ready || p.status == Blocked ==> HasArguments(p))
    && (p.status == Starting ==> p.esp == STACK_TOP)
  }

  ghost predicate StacksOk(procs: seq<Proc>) {
    forall i: nat :: i < |procs| ==> StackOk(procs[i])
  }

  /** The process that runs has its arguments. */
  ghost predicate CurrentHas(s: State) {
    CurrentAt(s) < |s.procs| ==> HasArguments(s.procs[CurrentAt(s)])
  }

  ghost predicate Prepared(s: State) {
    StacksOk(s.procs) && CurrentHas(s)
  }

  /** Same stack, same arguments, and no way back to the start. */
  predicate StackKept(p: Proc, q: Proc) {
    && q.args == p.args && q.esp == p.esp && q.stack == p.stack
    && (q.status == Starting ==> p.status == Starting)
    && (q.status == Ready || q.status == Blocked ==> p.status == Ready || p.status == Blocked)
  }

  lemma KeptOk(a: seq<Proc>, b: seq<Proc>)
    requires |a| == |b| && StacksOk(a) && forall i: nat :: i < |a| ==> StackKept(a[i], b[i])
    ensures StacksOk(b) && forall i: nat :: i < |a| ==> (HasArguments(b[i]) <==> HasArguments(a[i]))
  {
    hide StackLayout.Start, StackLayout.Finds;
    forall i: nat | i < |a| ensures StackOk(b[i]) && (HasArguments(b[i]) <==> HasArguments(a[i])) {
      assert StackKept(a[i], b[i]) && StackOk(a[i]);
    }
  }

  // ----- the scheduler core

  /** A process dispatched by the scheduler core finds its arguments, also the first
      time. */
  lemma CoreLaysOut(s: State)
    requires TableOk(s) && StacksOk(s.procs) && s.procs != []
    ensures Prepared(Core(s))
  {
    hide Find, PickFrom, WaitOk, HasArguments, LaidOut;
    var t := Core(s);
    forall i: nat | i < |s.procs| ensures StackOk(t.procs[i]) {
      assert StackOk(s.procs[i]);
      LaidOutHas(s.procs[i]);
      SamePlace(s.procs[i], Resumed(s.procs[i]));
    }
    if t.current.Some? {
      FindOwn(s, t.head);
      FindSame(s.procs, t.procs, t.current.value);
      assert StackOk(t.procs[t.head]);
    }
  }

  /** Pending input changes nothing about the stack. */
  lemma SamePlace(p: Proc, q: Proc)
    requires q == (if p.status == Starting then LaidOut(p) else p).(status := Ready, input := false)
    ensures p.status == Starting ==> (HasArguments(q) <==> HasArguments(LaidOut(p)))
    ensures p.status != Starting ==> (HasArguments(q) <==> HasArguments(p))
  {
    hide StackLayout.Start, StackLayout.Finds, LaidOut;
  }

  // ----- the switch after a fault

  /** Where the switch after a page fault goes, seen before it. */
  function NextAfterFault(s: State): (h: nat)
    requires CurrentAt(s) < |s.procs|
    ensures h < |s.procs|
  {
    var dead := s.procs[CurrentAt(s)].(status := Zombie, exitCode := 139);
    PickFrom(Notify(s.procs[CurrentAt(s) := dead], dead), s.head % |s.procs|, 0)
  }

  /** After a page fault the process switched to lacks its arguments exactly when it
      had never been dispatched: the switch lays nothing out. Its entry point then
      reads outside the stack. */
  lemma SegfaultLaysOutExactly(s: State)
    requires Inv(s) && Prepared(s) && CurrentAt(s) < |s.procs|
    ensures var h := NextAfterFault(s); var t := Segfault(s);
      && StacksOk(t.procs)
      && (CurrentHas(t) <==> s.procs[h].status != Starting)
      && (s.procs[h].status == Starting && h != CurrentAt(s) ==>
            CurrentAt(t) == h < |t.procs| && ReadsOutside(t.procs[h]) && t.procs[h].status == Starting)
  {
    hide Find, PickFrom, WaitOk, TableOk, Notify, HasArguments;
    var i := CurrentAt(s);
    var dead := s.procs[i].(status := Zombie, exitCode := 139);
    DeathKeeps(s, dead);
    SegfaultKeeps(s);
    DeathStacks(s, dead);
    var procs := Notify(s.procs[i := dead], dead);
    KeptOk(s.procs, procs);
    var t := Segfault(s);
    TableDistinct(t);
    var h := NextAfterFault(s);
    assert t.procs == procs && t.head == h;
    CurrentRan(s);
    if t.current.Some? {
      FindOwn(t, h);
      if t.procs[h].status == Starting { AtTopHasNone(t.procs[h]); }
    }
  }

  /** A running process that has its arguments is not about to start. */
  lemma CurrentRan(s: State)
    requires Prepared(s) && CurrentAt(s) < |s.procs|
    ensures s.procs[CurrentAt(s)].status != Starting
  {
    hide Find;
    assert StackOk(s.procs[CurrentAt(s)]);
  }

  lemma DeathStacks(s: State, dead: Proc)
    requires CurrentAt(s) < |s.procs| && dead == s.procs[CurrentAt(s)].(status := Zombie, exitCode := dead.exitCode)
    ensures var procs := Notify(s.procs[CurrentAt(s) := dead], dead);
      && (forall i: nat :: i < |procs| ==> StackKept(s.procs[i], procs[i]))
      && (forall i: nat :: i < |procs| ==>
            (procs[i].status == Starting <==> s.procs[i].status == Starting && i != CurrentAt(s)))
      && (forall i: nat :: i < |procs| && Runnable(s.procs[i]) && i != CurrentAt(s) ==> Runnable(procs[i]))
  {
  }

  // ----- every step and every run

  /** Every step without kill leaves the running process with its arguments, but a
      fault that switches to a process never dispatched before; the condition is on
      the state before the step. */
  lemma StepPrepares(s: State, op: Op)
    requires Inv(s) && Prepared(s) && Allowed(s, op) && !op.KillOp?
    ensures Prepared(Step(s, op)) <==> !(op.SegfaultOp? && s.procs[NextAfterFault(s)].status == Starting)
  {
    hide Find, Core, PickFrom, Notify, Inv, TableOk, Spawn, HasArguments, Dropped, SetResult, WaitOk, Segfault,
         NextAfterFault, StacksOk, CurrentHas;
    match op {
      case ExecOp(program) => ExecPrepares(s, program);
      case ExitOp(code) =>
        var dead := s.procs[CurrentAt(s)].(status := Zombie, exitCode := code);
        DeathKeeps(s, dead);
        DeathStacks(s, dead);
        var procs := Notify(s.procs[CurrentAt(s) := dead], dead);
        KeptOk(s.procs, procs);
        CoreLaysOut(s.(procs := procs));
      case SegfaultOp => SegfaultLaysOutExactly(s);
      case WaitpidOp(child) => WaitPrepares(s, child);
      case ReadOp =>
        var i := CurrentAt(s);
        var p := s.procs[i].(status := Blocked);
        BlockKeeps(s, 0, true);
        BlockStacks(s, p);
        InvTable(s);
        CoreLaysOut(s.(procs := s.procs[i := p], reader := Some(p.pid)));
      case FlushOp => FlushPrepares(s);
      case Tick => TickPrepares(s);
    }
  }

  lemma InvTable(s: State)
    requires Inv(s)
    ensures TableOk(s) && (CurrentAt(s) < |s.procs| ==> Runnable(s.procs[CurrentAt(s)]))
  {
    hide TableOk, Find;
  }

  lemma TickPrepares(s: State)
    requires Inv(s) && Prepared(s)
    ensures Prepared(Core(s))
  {
    hide TableOk, Find, PickFrom, HasArguments, LaidOut, StackOk;
    if s.procs != [] { CoreLaysOut(s); }
  }

  lemma BlockStacks(s: State, p: Proc)
    requires Prepared(s) && CurrentAt(s) < |s.procs|
    requires p == s.procs[CurrentAt(s)].(status := Blocked, waitingFor := p.waitingFor)
    ensures StacksOk(s.procs[CurrentAt(s) := p])
  {
    hide Find;
    CurrentRan(s);
    var procs := s.procs[CurrentAt(s) := p];
    forall i: nat | i < |procs| ensures StackOk(procs[i]) {
      assert StackOk(s.procs[i]);
    }
  }

  /** Only EAX or the table's length changed. */
  lemma AnsweredPrepares(s: State, result: int)
    requires Prepared(s)
    ensures Prepared(Answered(s, result))
  {
    hide Find, HasArguments;
    var t := Answered(s, result);
    if CurrentAt(s) < |s.procs| {
      FindSameAll(s, t);
      KeptOk(s.procs, t.procs);
    }
  }

  lemma FindSameAll(s: State, t: State)
    requires SamePids(s.procs, t.procs) && t.current == s.current
    ensures CurrentAt(t) == CurrentAt(s)
  {
    hide Find;
    if s.current.Some? { FindSame(s.procs, t.procs, s.current.value); }
  }

  lemma ExecPrepares(s: State, program: Option<Program>)
    requires Inv(s) && Prepared(s)
    ensures Prepared(Exec(s, program))
  {
    hide Inv, Find, Answered, HasArguments;
    match program
    case None => AnsweredPrepares(s, -1);
    case Some(g) =>
      var t := Spawn(s, g);
      SpawnKeeps(s, g);
      CurrentKnown(s);
      assert Prepared(t);
      AnsweredPrepares(t, s.nextPid);
  }

  lemma CurrentKnown(s: State)
    requires Inv(s)
    ensures s.current.Some? ==> CurrentAt(s) < |s.procs|
  {
    hide TableOk, Find;
  }

  lemma FlushPrepares(s: State)
    requires Inv(s) && Prepared(s)
    ensures Prepared(Flush(s))
  {
    hide Find, HasArguments, WaitOk;
    if s.reader.Some? {
      var t := Flush(s);
      FindSameAll(s, t);
      KeptOk(s.procs, t.procs);
    }
  }

  lemma WaitPrepares(s: State, child: nat)
    requires Inv(s) && Prepared(s) && CurrentAt(s) < |s.procs|
    ensures Prepared(Waitpid(s, child))
  {
    hide Inv, TableOk, Find, Core, Dropped, HasArguments, SetResult, StacksOk, CurrentHas;
    var i := CurrentAt(s);
    var c := Find(s.procs, child);
    SetPrepares(s, i, -1);
    SetPrepares(s, i, -2);
    if c < |s.procs| && s.procs[c].parent == s.procs[i].pid {
      if s.procs[c].status == Zombie {
        var r := s.procs[c].exitCode;
        SetPrepares(s, i, r);
        ResultKeeps(s, i, r);
        ResultIs(s, i, r);
        ZombieNotCurrent(s, c);
        ReapPrepares(SetResult(s, i, r), c);
      } else {
        PidPositive(s, c);
        BlockKeeps(s, child, false);
        var p := s.procs[i].(status := Blocked, waitingFor := child);
        BlockStacks(s, p);
        CoreLaysOut(s.(procs := s.procs[i := p]));
      }
    }
  }

  lemma SetPrepares(s: State, i: nat, r: int)
    requires Prepared(s) && i == CurrentAt(s) < |s.procs|
    ensures Prepared(SetResult(s, i, r))
  {
    hide Find, HasArguments, SetResult;
    AnsweredPrepares(s, r);
    assert Answered(s, r) == SetResult(s, i, r);
  }

  lemma ReapPrepares(s: State, c: nat)
    requires Inv(s) && Prepared(s) && c < |s.procs| && c != CurrentAt(s) && CurrentAt(s) < |s.procs|
    ensures Prepared(s.(procs := Dropped(s.procs, c)))
  {
    hide Find, HasArguments, WaitOk;
    var t := s.(procs := Dropped(s.procs, c));
    FindOwn(s, c);
    FindWithout(s.procs, c, s.current.value);
    forall k: nat | k < |t.procs| ensures StackOk(t.procs[k]) {
      assert t.procs[k] == s.procs[if k < c then k else k + 1];
    }
  }

  /** Each fault of the run switches to a process that has been dispatched before. */
  ghost predicate FaultsSafe(s: State, ops: seq<Op>)
    decreases |ops|
  {
    ops != [] ==>
      && Allowed(s, ops[0])
      && (ops[0].SegfaultOp? ==> s.procs[NextAfterFault(s)].status != Starting)
      && FaultsSafe(Step(s, ops[0]), ops[1..])
  }

  /** Over every run without kill from the empty table whose faults switch to
      processes dispatched before, the process that runs finds its arguments. */
  lemma {:induction false} EveryRunPrepares(s: State, ops: seq<Op>, t: State)
    requires Inv(s) && Prepared(s) && Runs(s, ops, t) && FaultsSafe(s, ops)
    requires forall i :: 0 <= i < |ops| ==> !ops[i].KillOp?
    ensures Prepared(t)
    decreases |ops|
  {
    hide Inv, Allowed, Step, Prepared, NextAfterFault;
    if ops != [] {
      StepKeeps(s, ops[0]);
      StepPrepares(s, ops[0]);
      EveryRunPrepares(Step(s, ops[0]), ops[1..], t);
    }
  }

  /** Two programs started, the first running, the second not dispatched yet. */
  lemma TwoStarted(g: Program) returns (s: State)
    ensures s == Exec(Core(Exec(Start(), Some(g))), Some(g))
    ensures |s.procs| == 2 && s.head == 0 && s.current == Some(1)
    ensures s.procs[0].pid == 1 && s.procs[0].parent == 0 && s.procs[1] == NewProc(s.(nextPid := 2), g)
  {
    hide LaidOut;
    var s1 := Exec(Start(), Some(g));
    assert s1.procs == [NewProc(Start(), g)] && s1.current == None && s1.nextPid == 2;
    var s2 := Core(s1);
    assert PickFrom(s1.procs, 0, 0) == 0;
    assert s2.procs == [Resumed(s1.procs[0])] && s2.current == Some(1) && s2.head == 0;
    assert CurrentAt(s2) == 0;
    s := Exec(s2, Some(g));
    assert s.procs == [s2.procs[0].(result := 2), NewProc(s2, g)];
  }

  lemma FaultSwitches(s: State)
    requires |s.procs| == 2 && s.head == 0 && s.current == Some(1)
    requires s.procs[0].pid == 1 && s.procs[0].parent == 0
    requires s.procs[1].status == Starting && s.procs[1].pid == 2 && s.procs[1].esp == STACK_TOP
    ensures CurrentAt(s) == 0
    ensures var t := Segfault(s); CurrentAt(t) == 1 < |t.procs| && ReadsOutside(t.procs[1])
  {
    var dead := s.procs[0].(status := Zombie, exitCode := 139);
    assert s.procs[0 := dead] == [dead, s.procs[1]];
    assert Notify([dead, s.procs[1]], dead) == [dead, s.procs[1]];
    assert PickFrom([dead, s.procs[1]], 0, 0) == 1;
  }

  /** A fault right after a program was started switches to it before it has its
      arguments. */
  lemma FaultBeforeStart(g: Program) returns (t: State)
    ensures Runs(Start(), [ExecOp(Some(g)), Tick, ExecOp(Some(g)), SegfaultOp], t)
    ensures CurrentAt(t) == 1 < |t.procs| && ReadsOutside(t.procs[1])
  {
    hide Exec, Core, Segfault, Start, Runs;
    var s := TwoStarted(g);
    FaultSwitches(s);
    t := Segfault(s);
    NoOps(t);
    RunOne(s, SegfaultOp, [], t);
    assert [SegfaultOp] + [] == [SegfaultOp];
    RunOne(Core(Exec(Start(), Some(g))), ExecOp(Some(g)), [SegfaultOp], t);
    assert [ExecOp(Some(g))] + [SegfaultOp] == [ExecOp(Some(g)), SegfaultOp];
    RunOne(Exec(Start(), Some(g)), Tick, [ExecOp(Some(g)), SegfaultOp], t);
    assert [Tick] + [ExecOp(Some(g)), SegfaultOp] == [Tick, ExecOp(Some(g)), SegfaultOp];
    RunOne(Start(), ExecOp(Some(g)), [Tick, ExecOp(Some(g)), SegfaultOp], t);
    assert [ExecOp(Some(g))] + [Tick, ExecOp(Some(g)), SegfaultOp]
        == [ExecOp(Some(g)), Tick, ExecOp(Some(g)), SegfaultOp];
  }

  lemma NoOps(s: State)
    ensures Runs(s, [], s)
  {
  }

  lemma RunOne(s: State, op: Op, rest: seq<Op>, t: State)
    requires Allowed(s, op) && Runs(Step(s, op), rest, t)
    ensures Runs(s, [op] + rest, t)
  {
    hide Allowed, Step;
    assert ([op] + rest)[1..] == rest;
  }
}
