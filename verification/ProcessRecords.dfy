/** What stays in a process's record, step by step: who started it and with what, and
    the code it died with. */
module ProcessRecords {
  import opened Options
  import opened Scheduling
  import opened WakeUps
  import opened WakeUpLimits
  import opened ExitCodes
  import opened ProcessStacks
  import opened Sequences

  /** The same process later: same parent and arguments, and a zombie keeps its code. */
  predicate Kin(p: Proc, q: Proc) {
    && q.pid == p.pid && q.parent == p.parent && q.args == p.args
    && (p.status == Zombie ==> q.status == Zombie && q.exitCode == p.exitCode)
  }

  /** Every process of `t` that is not new is one of `s`. */
  ghost predicate Continues(s: State, t: State) {
    && s.nextPid <= t.nextPid
    && forall pid: nat :: pid < s.nextPid ==> KinAt(s, t, pid)
  }

  predicate KinAt(s: State, t: State, pid: nat) {
    var i, j := Find(s.procs, pid), Find(t.procs, pid);
    j < |t.procs| ==> i < |s.procs| && Kin(s.procs[i], t.procs[j])
  }

  // ----- every step

  lemma SameTable(s: State, t: State)
    requires t.nextPid == s.nextPid && |t.procs| == |s.procs|
    requires forall i: nat :: i < |s.procs| ==> Kin(s.procs[i], t.procs[i])
    ensures Continues(s, t)
  {
    hide Find;
    forall pid: nat | pid < s.nextPid ensures KinAt(s, t, pid) { FindSame(s.procs, t.procs, pid); }
  }

  lemma ContinuesOn(s: State, m: State, t: State)
    requires Continues(s, m) && Continues(m, t)
    ensures Continues(s, t)
  {
    hide Find;
    forall pid: nat | pid < s.nextPid ensures KinAt(s, t, pid) { assert KinAt(s, m, pid) && KinAt(m, t, pid); }
  }

  lemma CoreContinues(s: State)
    ensures Continues(s, Core(s))
  {
    hide Find, PickFrom, SearchFrom, LaidOut;
    SameTable(s, Core(s));
  }

  lemma AnsweredContinues(s: State, result: int)
    ensures Continues(s, Answered(s, result))
  {
    hide Find;
    SameTable(s, Answered(s, result));
  }

  lemma SpawnContinues(s: State, g: Program)
    ensures Continues(s, Spawn(s, g))
  {
    hide Find;
    forall pid: nat | pid < s.nextPid ensures KinAt(s, Spawn(s, g), pid) { FindAppended(s.procs, NewProc(s, g), pid); }
  }

  lemma ExecContinues(s: State, program: Option<Program>)
    ensures Continues(s, Exec(s, program))
  {
    hide Continues, Spawn, Answered;
    match program
    case None => AnsweredContinues(s, -1);
    case Some(g) =>
      SpawnContinues(s, g);
      AnsweredContinues(Spawn(s, g), s.nextPid);
      ContinuesOn(s, Spawn(s, g), Exec(s, program));
  }

  lemma DeathContinues(s: State, dead: Proc)
    requires Inv(s) && CurrentAt(s) < |s.procs|
    requires dead == s.procs[CurrentAt(s)].(status := Zombie, exitCode := dead.exitCode)
    ensures Continues(s, s.(procs := Notify(s.procs[CurrentAt(s) := dead], dead)))
  {
    hide Find, TableOk, Notify;
    CurrentRuns(s);
    NotifyIs(s.procs[CurrentAt(s) := dead], dead);
    SameTable(s, s.(procs := Notify(s.procs[CurrentAt(s) := dead], dead)));
  }

  lemma BlockContinues(s: State, p: Proc, reader: Option<nat>)
    requires Inv(s) && CurrentAt(s) < |s.procs|
    requires p == s.procs[CurrentAt(s)].(status := Blocked, waitingFor := p.waitingFor)
    ensures Continues(s, Core(s.(procs := s.procs[CurrentAt(s) := p], reader := reader)))
  {
    hide Find, TableOk, Core;
    CurrentRuns(s);
    var m := s.(procs := s.procs[CurrentAt(s) := p], reader := reader);
    SameTable(s, m);
    CoreContinues(m);
    ContinuesOn(s, m, Core(m));
  }

  lemma ReapContinues(s: State, c: nat)
    requires Inv(s) && c < |s.procs|
    ensures Continues(s, s.(procs := Dropped(s.procs, c)))
  {
    hide Find, Inv;
    var t := s.(procs := Dropped(s.procs, c));
    forall pid: nat | pid < s.nextPid ensures KinAt(s, t, pid) {
      if pid == s.procs[c].pid { GoneAfter(s, c); } else { FindWithout(s.procs, c, pid); }
    }
  }

  lemma WaitContinues(s: State, child: nat)
    requires Inv(s) && CurrentAt(s) < |s.procs|
    ensures Continues(s, Waitpid(s, child))
  {
    hide Inv, Find, Core, Dropped, Continues;
    var i, c := CurrentAt(s), Find(s.procs, child);
    ResultContinues(s, -1);
    ResultContinues(s, -2);
    if c < |s.procs| && s.procs[c].parent == s.procs[i].pid {
      if s.procs[c].status == Zombie {
        var r := s.procs[c].exitCode;
        var m := SetResult(s, i, r);
        ResultContinues(s, r);
        ResultKeeps(s, i, r);
        ReapContinues(m, c);
        ContinuesOn(s, m, Waitpid(s, child));
      } else {
        BlockContinues(s, s.procs[i].(status := Blocked, waitingFor := child), s.reader);
      }
    }
  }

  lemma ResultContinues(s: State, r: int)
    requires CurrentAt(s) < |s.procs|
    ensures Continues(s, SetResult(s, CurrentAt(s), r))
  {
    hide Find, SetResult;
    AnsweredContinues(s, r);
    assert Answered(s, r) == SetResult(s, CurrentAt(s), r);
  }

  lemma FlushContinues(s: State)
    requires Inv(s)
    ensures Continues(s, Flush(s))
  {
    hide Find, WaitOk;
    SameTable(s, Flush(s));
  }

  /** Every step but kill: the processes that go on are who they were, and a zombie
      keeps the code it died with. */
  lemma StepContinues(s: State, op: Op)
    requires Inv(s) && Allowed(s, op) && !op.KillOp?
    ensures Continues(s, Step(s, op))
  {
    hide Inv, Find, Core, PickFrom, Notify, Exec, Waitpid, Flush, Continues;
    match op {
      case ExecOp(program) => ExecContinues(s, program);
      case ExitOp(code) =>
        var dead := s.procs[CurrentAt(s)].(status := Zombie, exitCode := code);
        var m := s.(procs := Notify(s.procs[CurrentAt(s) := dead], dead));
        DeathContinues(s, dead);
        CoreContinues(m);
        ContinuesOn(s, m, Core(m));
      case SegfaultOp => SegfaultContinues(s);
      case WaitpidOp(child) => WaitContinues(s, child);
      case ReadOp =>
        var p := s.procs[CurrentAt(s)].(status := Blocked);
        BlockContinues(s, p, Some(p.pid));
      case FlushOp => FlushContinues(s);
      case Tick => CoreContinues(s);
    }
  }

  lemma SegfaultContinues(s: State)
    requires Inv(s) && CurrentAt(s) < |s.procs|
    ensures Continues(s, Segfault(s))
  {
    hide Inv, Find, PickFrom, Notify, KinAt;
    var dead := s.procs[CurrentAt(s)].(status := Zombie, exitCode := 139);
    DeathContinues(s, dead);
    DeathKeeps(s, dead);
    var m := s.(procs := Notify(s.procs[CurrentAt(s) := dead], dead));
    assert Segfault(s).procs == m.procs && Segfault(s).nextPid == s.nextPid;
    forall pid: nat | pid < s.nextPid ensures KinAt(s, Segfault(s), pid) {
      assert KinAt(s, m, pid);
      SameProcs(s, m, Segfault(s), pid);
    }
  }

  lemma SameProcs(s: State, m: State, t: State, pid: nat)
    requires KinAt(s, m, pid) && t.procs == m.procs
    ensures KinAt(s, t, pid)
  {
  }

  lemma {:induction false} RunContinues(s: State, ops: seq<Op>, t: State)
    requires Inv(s) && Runs(s, ops, t) && forall i :: 0 <= i < |ops| ==> !ops[i].KillOp?
    ensures Inv(t) && Continues(s, t)
    decreases |ops|
  {
    hide Inv, Allowed, Step, Find, Kin;
    if ops != [] {
      StepKeeps(s, ops[0]);
      StepContinues(s, ops[0]);
      RunContinues(Step(s, ops[0]), ops[1..], t);
      ContinuesOn(s, Step(s, ops[0]), t);
    } else {
      SameState(s);
    }
  }

  lemma SameState(s: State)
    ensures Continues(s, s)
  {
    SameTable(s, s);
  }

  // ----- exec

  /** The current process is at the same place, with `result` in its EAX. */
  predicate AnswersWith(s: State, t: State, result: int) {
    t.current == s.current && CurrentAt(s) < |t.procs| && CurrentAt(t) == CurrentAt(s)
    && t.procs[CurrentAt(t)].result == result
  }

  /** exec adds one record, with the arguments given, the caller as its parent and the
      next pid, which the caller gets; all other records are as they were. */
  lemma ExecGives(s: State, g: Program)
    requires Inv(s)
    ensures var t := Exec(s, Some(g)); var i := Find(t.procs, s.nextPid);
      && |t.procs| == |s.procs| + 1 && i == |s.procs| && t.nextPid == s.nextPid + 1 && t.reader == s.reader
      && t.procs[i].args == g.args && t.procs[i].stack == g.stack && t.procs[i].status == Starting
      && t.procs[i].esp == 0x800_0000
      && t.procs[i].parent == (if s.current.Some? then s.current.value else 0)
      && (forall k: nat :: k < |s.procs| && k != CurrentAt(s) ==> t.procs[k] == s.procs[k])
      && (s.current.Some? ==>
            AnswersWith(s, t, s.nextPid) && t.procs[CurrentAt(s)] == s.procs[CurrentAt(s)].(result := s.nextPid))
  {
    hide Find, TableOk, SetResult;
    var m := Spawn(s, g);
    SpawnKeeps(s, g);
    CurrentKnown(s);
    FindNew(s, g);
    var t := Exec(s, Some(g));
    if s.current.Some? {
      ResultIs(m, CurrentAt(m), s.nextPid);
      ResultSets(m, CurrentAt(m), s.nextPid);
      ResultKeeps(m, CurrentAt(m), s.nextPid);
      FindSame(m.procs, t.procs, s.nextPid);
    }
  }

  lemma FindNew(s: State, g: Program)
    requires Inv(s)
    ensures Find(s.procs + [NewProc(s, g)], s.nextPid) == |s.procs|
  {
    hide Find, WaitOk;
    var procs := s.procs + [NewProc(s, g)];
    FindIs(procs, s.nextPid, |s.procs|);
  }

  lemma ResultSets(s: State, i: nat, r: int)
    requires i < |s.procs|
    ensures SetResult(s, i, r) == s.(procs := SetResult(s, i, r).procs)
    ensures |SetResult(s, i, r).procs| == |s.procs| && SetResult(s, i, r).procs[i] == s.procs[i].(result := r)
  {
  }

  /** exec of no program gives the caller -1 and changes nothing else. */
  lemma ExecFails(s: State)
    requires Inv(s) && s.current.Some?
    ensures var t := Exec(s, None);
      && AnswersWith(s, t, -1) && |t.procs| == |s.procs| && t == s.(procs := t.procs)
      && t.procs == s.procs[CurrentAt(s) := s.procs[CurrentAt(s)].(result := -1)]
  {
    hide Find, TableOk;
    CurrentKnown(s);
    ResultKeeps(s, CurrentAt(s), -1);
  }

  /** The entry point of a process finds exactly these strings. */
  ghost predicate Gets(p: Proc, args: Arguments) {
    && 0x7FF_C000 <= p.esp <= 0x800_0000
    && var (argc, environ) := StackLayout.Start(p.stack, p.esp);
      && argc == |args.argv| && environ == p.esp + 4 * (|args.argv| + 1)
      && StackLayout.Finds(p.stack, p.esp, args.argv) && StackLayout.Finds(p.stack, environ, args.env)
  }

  lemma GetsOwn(p: Proc)
    ensures HasArguments(p) <==> Gets(p, p.args)
  {
    hide StackLayout.CountFrom, StackLayout.WordAt, StackLayout.StringFrom;
  }

  /** The record of the process an exec started, at any later state it is still there. */
  lemma StartedRecord(s: State, g: Program, ops: seq<Op>, t: State)
    requires Inv(s) && Runs(Exec(s, Some(g)), ops, t) && forall i :: 0 <= i < |ops| ==> !ops[i].KillOp?
    ensures Inv(t)
    ensures var j := Find(t.procs, s.nextPid); j < |t.procs| ==>
              t.procs[j].args == g.args && t.procs[j].parent == (if s.current.Some? then s.current.value else 0)
  {
    hide Inv, Find, Exec, Runs, Gets;
    ExecKeeps(s, Some(g));
    ExecGives(s, g);
    RunContinues(Exec(s, Some(g)), ops, t);
    assert KinAt(Exec(s, Some(g)), t, s.nextPid);
  }

  /** exec passes its arguments on: after any run without kill, when the scheduler core
      dispatches the new process for the first time, its entry point finds the argument
      and environment strings given to exec. */
  lemma ExecPasses(s: State, g: Program, ops: seq<Op>, t: State)
    requires Inv(s) && Runs(Exec(s, Some(g)), ops, t) && forall i :: 0 <= i < |ops| ==> !ops[i].KillOp?
    requires var j := Find(t.procs, s.nextPid); j < |t.procs| && t.procs[j].status == Starting
    requires Core(t).current == Some(s.nextPid)
    ensures var u := Core(t);
      && CurrentAt(u) < |u.procs| && u.procs[CurrentAt(u)].pid == s.nextPid
      && Gets(u.procs[CurrentAt(u)], g.args)
  {
    hide Inv, Find, Exec, Runs, Gets, HasArguments;
    StartedRecord(s, g, ops, t);
    FirstDispatch(t, s.nextPid);
    var p := Core(t).procs[CurrentAt(Core(t))];
    GetsOwn(p);
  }

  lemma FirstDispatch(t: State, pid: nat)
    requires Inv(t) && Core(t).current == Some(pid)
    requires var j := Find(t.procs, pid); j < |t.procs| && t.procs[j].status == Starting
    ensures var u := Core(t); var j := Find(t.procs, pid);
      && CurrentAt(u) == j < |u.procs| && u.procs[j].pid == pid
      && HasArguments(u.procs[j]) && u.procs[j].args == t.procs[j].args
  {
    hide Find, PickFrom, SearchFrom, WaitOk, HasArguments, LaidOut;
    var u := Core(t);
    var j := Find(t.procs, pid);
    if t.procs != [] && u.current.Some? && u.head < |t.procs| {
      FindOwn(t, u.head);
      LaidOutHas(t.procs[j]);
      SamePlace(t.procs[j], Resumed(t.procs[j]));
      FindSame(t.procs, u.procs, pid);
    }
  }

  /** Whenever the new process runs, in a run without kill whose faults switch to
      processes dispatched before, it has them. */
  lemma RunningGets(s: State, g: Program, ops: seq<Op>, t: State)
    requires Inv(s) && Prepared(s) && forall i :: 0 <= i < |ops| ==> !ops[i].KillOp?
    requires Runs(Exec(s, Some(g)), ops, t) && FaultsSafe(Exec(s, Some(g)), ops) && t.current == Some(s.nextPid)
    ensures CurrentAt(t) < |t.procs| && Gets(t.procs[CurrentAt(t)], g.args)
  {
    hide Inv, Find, Exec, Runs, Gets, HasArguments, FaultsSafe, StacksOk;
    StartedRecord(s, g, ops, t);
    ExecKeeps(s, Some(g));
    ExecPrepares(s, Some(g));
    EveryRunPrepares(Exec(s, Some(g)), ops, t);
    CurrentFound(t, s.nextPid);
    GetsOwn(t.procs[CurrentAt(t)]);
  }

  // ----- exit codes

  /** exit leaves a zombie with the code given. */
  lemma ExitStores(s: State, code: int)
    requires Inv(s) && CurrentAt(s) < |s.procs|
    ensures var t := Exit(s, code); var p := s.procs[CurrentAt(s)];
      && |t.procs| == |s.procs| && Find(t.procs, p.pid) == CurrentAt(s) && Died(t.procs[CurrentAt(s)], p, code)
  {
    hide Inv, Find, Notify, Core;
    var dead := s.procs[CurrentAt(s)].(status := Zombie, exitCode := code);
    DeathDies(s, dead);
    var m := s.(procs := Notify(s.procs[CurrentAt(s) := dead], dead));
    CoreDies(m, CurrentAt(s));
    FindSame(m.procs, Core(m).procs, dead.pid);
  }

  /** So does a fault, with 139. */
  lemma SegfaultStores(s: State)
    requires Inv(s) && CurrentAt(s) < |s.procs|
    ensures var t := Segfault(s); var p := s.procs[CurrentAt(s)];
      && |t.procs| == |s.procs| && Find(t.procs, p.pid) == CurrentAt(s) && Died(t.procs[CurrentAt(s)], p, 139)
  {
    hide Inv, Find, Notify, PickFrom;
    var dead := s.procs[CurrentAt(s)].(status := Zombie, exitCode := 139);
    DeathDies(s, dead);
  }

  /** A zombie, with that code, that was `p`. */
  predicate Died(q: Proc, p: Proc, code: int) {
    q.status == Zombie && q.exitCode == code && q.pid == p.pid && q.parent == p.parent
  }

  lemma DeathDies(s: State, dead: Proc)
    requires Inv(s) && CurrentAt(s) < |s.procs|
    requires dead == s.procs[CurrentAt(s)].(status := Zombie, exitCode := dead.exitCode)
    ensures var procs := Notify(s.procs[CurrentAt(s) := dead], dead);
      && |procs| == |s.procs| && procs[CurrentAt(s)] == dead && Notify(procs, dead) == procs
      && Find(procs, dead.pid) == CurrentAt(s)
  {
    hide Find, TableOk, Notify;
    DeathKeeps(s, dead);
    TableDistinct(s);
    FindOwn(s, CurrentAt(s));
    FindSame(s.procs, Notify(s.procs[CurrentAt(s) := dead], dead), dead.pid);
  }

  lemma CoreDies(s: State, i: nat)
    requires i < |s.procs| && s.procs[i].status == Zombie
    ensures |Core(s).procs| == |s.procs| && Core(s).procs[i] == s.procs[i] && SamePids(s.procs, Core(s).procs)
  {
    hide Find, PickFrom, SearchFrom, LaidOut;
  }

  /** A zombie nobody reaps stays, with its code, over any run without kill. */
  lemma {:induction false} ZombieKept(s: State, ops: seq<Op>, t: State, z: nat)
    requires Inv(s) && z < |s.procs| && s.procs[z].status == Zombie
    requires Runs(s, ops, t) && (forall i :: 0 <= i < |ops| ==> !ops[i].KillOp?) && WaitpidOp(s.procs[z].pid) !in ops
    ensures Inv(t)
    ensures var j := Find(t.procs, s.procs[z].pid);
      j < |t.procs| && Died(t.procs[j], s.procs[z], s.procs[z].exitCode)
    decreases |ops|
  {
    hide Inv, Allowed, Step, Find;
    var pid := s.procs[z].pid;
    ParsedInv(s, z);
    if ops != [] {
      var m := Step(s, ops[0]);
      StepKeeps(s, ops[0]);
      ZombieUntilReaped(s, ops[0], z);
      StepContinues(s, ops[0]);
      assert KinAt(s, m, pid);
      ZombieKept(m, ops[1..], t, Find(m.procs, pid));
    }
  }

  /** What a zombie died with reaches its parent: any run without kill and without that
      waitpid later, the parent's waitpid puts the code in its EAX and takes the child
      out of the table. */
  lemma CodeReaches(s: State, z: nat, ops: seq<Op>, t: State)
    requires Inv(s) && z < |s.procs| && s.procs[z].status == Zombie
    requires Runs(s, ops, t) && (forall i :: 0 <= i < |ops| ==> !ops[i].KillOp?) && WaitpidOp(s.procs[z].pid) !in ops
    requires t.current == Some(s.procs[z].parent)
    ensures CurrentAt(t) < |t.procs|
    ensures var u := Waitpid(t, s.procs[z].pid); var i := Find(u.procs, s.procs[z].parent);
      && u.current == Some(s.procs[z].parent) && i < |u.procs| && u.procs[i].result == s.procs[z].exitCode
      && Find(u.procs, s.procs[z].pid) == |u.procs|
  {
    hide Inv, Find, Runs, Waitpid;
    ZombieKept(s, ops, t, z);
    CurrentFound(t, s.procs[z].parent);
    ReapedAtOnce(t, s.procs[z].pid);
  }

  /** exit(code) of a child, any such run, and the parent's waitpid gives `code`. */
  lemma ExitCodeDelivered(s: State, code: int, ops: seq<Op>, t: State)
    requires Inv(s) && CurrentAt(s) < |s.procs| && Runs(Exit(s, code), ops, t)
    requires var p := s.procs[CurrentAt(s)]; WaitpidOp(p.pid) !in ops && t.current == Some(p.parent)
    requires forall i :: 0 <= i < |ops| ==> !ops[i].KillOp?
    ensures CurrentAt(t) < |t.procs|
    ensures var p := s.procs[CurrentAt(s)]; var u := Waitpid(t, p.pid); var i := Find(u.procs, p.parent);
      && u.current == Some(p.parent) && i < |u.procs| && u.procs[i].result == code
      && Find(u.procs, p.pid) == |u.procs|
  {
    hide Inv, Find, Runs, Waitpid, Exit;
    ExitStores(s, code);
    ExitKeeps(s, code);
    CodeReaches(Exit(s, code), CurrentAt(s), ops, t);
  }

  /** After a fault it is 139. */
  lemma FaultCodeDelivered(s: State, ops: seq<Op>, t: State)
    requires Inv(s) && CurrentAt(s) < |s.procs| && Runs(Segfault(s), ops, t)
    requires var p := s.procs[CurrentAt(s)]; WaitpidOp(p.pid) !in ops && t.current == Some(p.parent)
    requires forall i :: 0 <= i < |ops| ==> !ops[i].KillOp?
    ensures CurrentAt(t) < |t.procs|
    ensures var p := s.procs[CurrentAt(s)]; var u := Waitpid(t, p.pid); var i := Find(u.procs, p.parent);
      && u.current == Some(p.parent) && i < |u.procs| && u.procs[i].result == 139
      && Find(u.procs, p.pid) == |u.procs|
  {
    hide Inv, Find, Runs, Waitpid, Segfault;
    SegfaultStores(s);
    SegfaultKeeps(s);
    CodeReaches(Segfault(s), CurrentAt(s), ops, t);
  }

  /** waitpid on no process gives -1, on another's child -2, and changes nothing else. */
  lemma WaitRefused(s: State, child: nat)
    requires Inv(s) && CurrentAt(s) < |s.procs|
    requires var c := Find(s.procs, child); c == |s.procs| || s.procs[c].parent != s.procs[CurrentAt(s)].pid
    ensures var t := Waitpid(s, child); var r := if Find(s.procs, child) == |s.procs| then -1 else -2;
      && AnswersWith(s, t, r) && t == s.(procs := t.procs)
      && t.procs == s.procs[CurrentAt(s) := s.procs[CurrentAt(s)].(result := r)]
  {
    hide Find, TableOk;
    ResultKeeps(s, CurrentAt(s), -1);
    ResultKeeps(s, CurrentAt(s), -2);
  }

  // ----- kill

  /** kill makes a zombie of the record and changes nothing else; when the caller is the
      victim the scheduler core goes on from there. */
  lemma KillGives(s: State, v: nat)
    requires CurrentAt(s) < |s.procs| && Find(s.procs, v) < |s.procs|
    ensures var z := Find(s.procs, v); var t := s.(procs := s.procs[z := s.procs[z].(status := Zombie)]);
      Kill(s, v) == if z == CurrentAt(s) then Core(t) else t
  {
    hide Find, Core;
  }

  /** Only the dead have an exit code. */
  ghost predicate CodesOk(s: State) {
    forall i: nat :: i < |s.procs| && s.procs[i].status != Zombie ==> s.procs[i].exitCode == 0
  }

  lemma CoreCodes(s: State)
    requires CodesOk(s)
    ensures CodesOk(Core(s))
  {
    hide Find, PickFrom, SearchFrom, LaidOut;
  }

  lemma DeathCodes(s: State, dead: Proc)
    requires CodesOk(s) && CurrentAt(s) < |s.procs| && dead.status == Zombie
    ensures CodesOk(s.(procs := Notify(s.procs[CurrentAt(s) := dead], dead)))
    ensures CodesOk(s.(procs := Notify(Notify(s.procs[CurrentAt(s) := dead], dead), dead)))
  {
    hide Find;
  }

  lemma AnsweredCodes(s: State, r: int)
    requires CodesOk(s)
    ensures CodesOk(Answered(s, r))
  {
    hide Find;
  }

  lemma WaitCodes(s: State, child: nat)
    requires CodesOk(s) && CurrentAt(s) < |s.procs| && Runnable(s.procs[CurrentAt(s)])
    ensures CodesOk(Waitpid(s, child))
  {
    hide Find, Core;
    var i, c := CurrentAt(s), Find(s.procs, child);
    if c < |s.procs| && s.procs[c].parent == s.procs[i].pid {
      if s.procs[c].status == Zombie {
        forall k: nat | k < |s.procs| - 1
          ensures Waitpid(s, child).procs[k].status != Zombie ==> Waitpid(s, child).procs[k].exitCode == 0
        {
        }
      } else {
        CoreCodes(s.(procs := s.procs[i := s.procs[i].(status := Blocked, waitingFor := child)]));
      }
    }
  }

  lemma StepCodes(s: State, op: Op)
    requires Inv(s) && CodesOk(s) && Allowed(s, op) && !op.KillOp?
    ensures CodesOk(Step(s, op))
  {
    hide Find, Core, PickFrom, Notify, Waitpid, TableOk;
    CurrentRuns(s);
    match op {
      case ExecOp(program) =>
        AnsweredCodes(if program.Some? then Spawn(s, program.value) else s, if program.Some? then s.nextPid else -1);
      case ExitOp(code) =>
        var dead := s.procs[CurrentAt(s)].(status := Zombie, exitCode := code);
        DeathCodes(s, dead);
        CoreCodes(s.(procs := Notify(s.procs[CurrentAt(s) := dead], dead)));
      case SegfaultOp => DeathCodes(s, s.procs[CurrentAt(s)].(status := Zombie, exitCode := 139));
      case WaitpidOp(child) => WaitCodes(s, child);
      case ReadOp =>
        var i := CurrentAt(s);
        CoreCodes(s.(procs := s.procs[i := s.procs[i].(status := Blocked)], reader := Some(s.procs[i].pid)));
      case FlushOp => FlushCodes(s);
      case Tick => CoreCodes(s);
    }
  }

  lemma FlushCodes(s: State)
    requires Inv(s) && CodesOk(s)
    ensures CodesOk(Flush(s))
  {
    hide Find, WaitOk;
  }

  lemma {:induction false} RunCodes(s: State, ops: seq<Op>, t: State)
    requires Inv(s) && CodesOk(s) && Runs(s, ops, t) && forall i :: 0 <= i < |ops| ==> !ops[i].KillOp?
    ensures CodesOk(t)
    decreases |ops|
  {
    hide Inv, CodesOk, Allowed, Step;
    if ops != [] {
      StepKeeps(s, ops[0]);
      StepCodes(s, ops[0]);
      RunCodes(Step(s, ops[0]), ops[1..], t);
    }
  }

  /** A process killed while nobody waits for it and it does not read: its parent's later
      waitpid gives 0. */
  lemma KilledGivesZero(s: State, v: nat, ops: seq<Op>, t: State)
    requires Inv(s) && CodesOk(s) && CurrentAt(s) < |s.procs| && Find(s.procs, v) < |s.procs| && Inv(Kill(s, v))
    requires s.procs[Find(s.procs, v)].status != Zombie
    requires Runs(Kill(s, v), ops, t) && (forall i :: 0 <= i < |ops| ==> !ops[i].KillOp?) && WaitpidOp(v) !in ops
    requires t.current == Some(s.procs[Find(s.procs, v)].parent)
    ensures CurrentAt(t) < |t.procs|
    ensures var parent := s.procs[Find(s.procs, v)].parent; var u := Waitpid(t, v); var i := Find(u.procs, parent);
      u.current == Some(parent) && i < |u.procs| && u.procs[i].result == 0 && Find(u.procs, v) == |u.procs|
  {
    hide Inv, Find, Runs, Waitpid, Core;
    var z := Find(s.procs, v);
    KillDies(s, v);
    CodeReaches(Kill(s, v), z, ops, t);
  }

  lemma KillDies(s: State, v: nat)
    requires CodesOk(s) && CurrentAt(s) < |s.procs| && Find(s.procs, v) < |s.procs|
    requires s.procs[Find(s.procs, v)].status != Zombie
    ensures var z := Find(s.procs, v); var t := Kill(s, v);
      |t.procs| == |s.procs| && t.procs[z] == s.procs[z].(status := Zombie) && t.procs[z].exitCode == 0
  {
    hide Find, Core;
    var z := Find(s.procs, v);
    CoreDies(s.(procs := s.procs[z := s.procs[z].(status := Zombie)]), z);
  }
}
