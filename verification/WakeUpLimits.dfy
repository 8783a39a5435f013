/** Where the scheduling code departs from what it is meant to do, each with the
    exact condition. */
module WakeUpLimits {
  import opened Options
  import opened Scheduling
  import opened Sequences
  import opened WakeUps

  // ----- kill

  /** Kill keeps the promises exactly when nobody waits for the victim and it is not
      the one recorded as reading. */
  lemma KillKeepsExactly(s: State, pid: nat)
    requires Inv(s) && CurrentAt(s) < |s.procs| && Find(s.procs, pid) < |s.procs|
    ensures Inv(Kill(s, pid))
            <==> s.reader != Some(pid)
                 && forall i: nat :: i < |s.procs| && s.procs[i].pid != pid && s.procs[i].status == Blocked ==>
                      s.procs[i].waitingFor != pid
  {
    hide Find, PickFrom, Core, WaitOk;
    var k := Find(s.procs, pid);
    var dead := s.procs[k].(status := Zombie);
    var t := s.(procs := s.procs[k := dead]);
    UpdateSame(s.procs, k, dead);
    FindOwn(s, k);
    KilledWaits(s, pid);
    if k == CurrentAt(s) {
      CoreTable(t);
      if TableOk(t) { CoreKeeps(t); }
    }
  }

  lemma KilledWaits(s: State, pid: nat)
    requires Inv(s) && Find(s.procs, pid) < |s.procs|
    ensures var k := Find(s.procs, pid);
      Waits(s.procs[k := s.procs[k].(status := Zombie)])
      <==> forall i: nat :: i < |s.procs| && s.procs[i].pid != pid && s.procs[i].status == Blocked ==>
                              s.procs[i].waitingFor != pid
  {
    hide Find;
    var k := Find(s.procs, pid);
    var dead := s.procs[k].(status := Zombie);
    var procs := s.procs[k := dead];
    UpdateSame(s.procs, k, dead);
    FindOwn(s, k);
    forall i: nat | i < |s.procs|
      ensures WaitOk(procs, i) <==>
                !(s.procs[i].pid != pid && s.procs[i].status == Blocked && s.procs[i].waitingFor == pid)
    {
      assert WaitOk(s.procs, i);
      FindOwn(s, i);
    }
  }

  /** A scheduler call cannot repair the table. */
  lemma CoreTable(s: State)
    requires Distinct(s)
    ensures TableOk(Core(s)) ==> TableOk(s)
  {
    hide Find, PickFrom, LaidOut;
    var t := Core(s);
    forall pid: nat ensures Find(t.procs, pid) == Find(s.procs, pid) { FindSame(s.procs, t.procs, pid); }
    if TableOk(t) {
      forall i: nat | i < |s.procs| ensures WaitOk(s.procs, i) {
        assert WaitOk(t.procs, i);
      }
      forall i: nat | i < |s.procs| && Runnable(s.procs[i]) ensures s.procs[i].waitingFor == 0 {
        assert Runnable(t.procs[i]);
      }
    }
  }

  // ----- stdin

  /** The stdin wake revives a zombie exactly when the record names one: it does not
      look at the state. */
  lemma FlushRevivesExactly(s: State, z: nat)
    requires Distinct(s) && z < |s.procs| && s.procs[z].status == Zombie
    ensures |Flush(s).procs| == |s.procs| && (Flush(s).procs[z].status != Zombie <==> s.reader == Some(s.procs[z].pid))
  {
    hide Find;
    FindOwn(s, z);
  }

  /** A reader that is killed and then gets its line runs again. */
  lemma KilledReaderRuns(s: State)
    requires Inv(s) && CurrentAt(s) < |s.procs| && s.reader.Some?
    ensures Find(s.procs, s.reader.value) < |s.procs|
    ensures var r := Find(s.procs, s.reader.value); var t := Kill(s, s.reader.value);
      |t.procs| == |s.procs| == |Flush(t).procs| && t.procs[r].status == Zombie && Flush(t).procs[r].status == Ready
  {
    hide Find, PickFrom, WaitOk;
    var k := Find(s.procs, s.reader.value);
    UpdateSame(s.procs, k, s.procs[k].(status := Zombie));
  }

  /** Process `j` is blocked on nothing and is not the one recorded as reading. */
  predicate Stranded(s: State, pid: nat) {
    var j := Find(s.procs, pid);
    j < |s.procs| && s.procs[j].status == Blocked && s.procs[j].waitingFor == 0 && s.reader != Some(pid)
  }

  /** There is room for one reader: a read strands exactly the process recorded
      before, if there is one, and never the caller. */
  lemma SecondReadStrands(s: State, pid: nat)
    requires Inv(s) && CurrentAt(s) < |s.procs| && !Stranded(s, pid)
    ensures Stranded(Read(s), pid) <==> s.reader == Some(pid)
    ensures s.reader != Some(s.procs[CurrentAt(s)].pid)
  {
    hide Find, PickFrom, WaitOk, LaidOut;
    var i := CurrentAt(s);
    FindSame(s.procs, Read(s).procs, pid);
    FindOwn(s, i);
  }

  lemma CoreStranded(s: State, pid: nat)
    requires Stranded(s, pid)
    ensures Stranded(Core(s), pid)
  {
    hide Find, PickFrom;
    FindSame(s.procs, Core(s).procs, pid);
  }

  /** Nothing wakes a stranded process. */
  lemma StrandedStays(s: State, op: Op, pid: nat)
    requires Inv(s) && Allowed(s, op) && !op.KillOp? && Stranded(s, pid)
    ensures Stranded(Step(s, op), pid)
  {
    hide Find, Core, PickFrom, Notify, Inv, Spawn, Dropped, SetResult;
    var j := Find(s.procs, pid);
    ParsedInv(s, j);
    CurrentRuns(s);
    match op {
      case ExecOp(program) => ExecStranded(s, program, pid);
      case ExitOp(code) =>
        var dead := s.procs[CurrentAt(s)].(status := Zombie, exitCode := code);
        DeathStranded(s, dead, pid);
        CoreStranded(s.(procs := Notify(s.procs[CurrentAt(s) := dead], dead)), pid);
      case SegfaultOp =>
        var dead := s.procs[CurrentAt(s)].(status := Zombie, exitCode := 139);
        DeathStranded(s, dead, pid);
        DeathKeeps(s, dead);
      case WaitpidOp(child) => WaitStranded(s, child, pid);
      case ReadOp =>
        var i := CurrentAt(s);
        var p := s.procs[i].(status := Blocked);
        UpdateSame(s.procs, i, p);
        ParsedInv(s, i);
        CoreStranded(s.(procs := s.procs[i := p], reader := Some(p.pid)), pid);
      case FlushOp =>
        if s.reader.Some? {
          var i := Find(s.procs, s.reader.value);
          UpdateSame(s.procs, i, s.procs[i].(status := Ready, input := true));
        }
      case Tick => CoreStranded(s, pid);
    }
  }

  lemma CurrentRuns(s: State)
    requires Inv(s)
    ensures CurrentAt(s) < |s.procs| ==> Runnable(s.procs[CurrentAt(s)])
    ensures forall i: nat :: i < |s.procs| ==> s.procs[i].pid > 0
  {
    hide Find, WaitOk;
  }

  lemma DeathStranded(s: State, dead: Proc, pid: nat)
    requires Inv(s) && CurrentAt(s) < |s.procs| && Stranded(s, pid)
    requires dead == s.procs[CurrentAt(s)].(status := Zombie, exitCode := dead.exitCode)
    ensures Stranded(s.(procs := Notify(s.procs[CurrentAt(s) := dead], dead)), pid)
  {
    hide Find, Inv, TableOk;
    CurrentRuns(s);
    DeathKeeps(s, dead);
    FindSame(s.procs, Notify(s.procs[CurrentAt(s) := dead], dead), pid);
  }

  lemma ExecStranded(s: State, program: Option<Program>, pid: nat)
    requires Inv(s) && Stranded(s, pid)
    ensures Stranded(Exec(s, program), pid)
  {
    hide Inv, TableOk, Find;
    CurrentRuns(s);
    var t := if program.Some? then Spawn(s, program.value) else s;
    if program.Some? {
      SpawnKeeps(s, program.value);
      FindAppended(s.procs, NewProc(s, program.value), pid);
    }
    var result := if program.Some? then s.nextPid else -1;
    AnsweredKeeps(t, result);
    FindSame(t.procs, Answered(t, result).procs, pid);
  }

  lemma WaitStranded(s: State, child: nat, pid: nat)
    requires Inv(s) && CurrentAt(s) < |s.procs| && Stranded(s, pid)
    ensures Stranded(Waitpid(s, child), pid)
  {
    hide Inv, TableOk, Find, Core, Dropped;
    var i := CurrentAt(s);
    var c := Find(s.procs, child);
    CurrentRuns(s);
    ResultKeeps(s, i, -1);
    ResultKeeps(s, i, -2);
    FindSame(s.procs, SetResult(s, i, -1).procs, pid);
    FindSame(s.procs, SetResult(s, i, -2).procs, pid);
    if c < |s.procs| && s.procs[c].parent == s.procs[i].pid {
      if s.procs[c].status == Zombie {
        var r := s.procs[c].exitCode;
        ResultKeeps(s, i, r);
        var t := SetResult(s, i, r);
        FindSame(s.procs, t.procs, pid);
        ZombieNotCurrent(s, c);
        if s.procs[c].pid != pid { FindWithout(t.procs, c, pid); } else { ParsedInv(s, c); }
      } else {
        var p := s.procs[i].(status := Blocked, waitingFor := child);
        UpdateSame(s.procs, i, p);
        CoreStranded(s.(procs := s.procs[i := p]), pid);
      }
    }
  }

  lemma {:induction false} StrandedForever(s: State, ops: seq<Op>, t: State, pid: nat)
    requires Inv(s) && Stranded(s, pid) && Runs(s, ops, t) && forall i :: 0 <= i < |ops| ==> !ops[i].KillOp?
    ensures Stranded(t, pid)
    decreases |ops|
  {
    hide Inv, Allowed, Step, Stranded;
    if ops != [] {
      StepKeeps(s, ops[0]);
      StrandedStays(s, ops[0], pid);
      StrandedForever(Step(s, ops[0]), ops[1..], t, pid);
    }
  }
}
