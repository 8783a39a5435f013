/** No wake-up is lost: what every scheduling step keeps, over every run, and the
    steps that are exceptions. */
module WakeUps {
  import opened Options
  import opened Scheduling
  import opened Sequences

  /** Pids count up, so a parent's is below its child's and no two are the same. */
  ghost predicate Distinct(s: State) {
    && 0 < s.nextPid
    && (forall i: nat :: i < |s.procs| ==> s.procs[i].parent < s.procs[i].pid < s.nextPid)
    && (forall i: nat, j: nat :: i < j < |s.procs| ==> s.procs[i].pid != s.procs[j].pid)
  }

  /** A process blocked on a child waits for a live child of its own. */
  predicate WaitOk(procs: seq<Proc>, i: nat)
    requires i < |procs|
  {
    procs[i].status == Blocked && procs[i].waitingFor != 0 ==>
      var c := Find(procs, procs[i].waitingFor);
      c < |procs| && procs[c].status != Zombie && procs[c].parent == procs[i].pid
  }

  ghost predicate Waits(procs: seq<Proc>) {
    && (forall i: nat :: i < |procs| ==> WaitOk(procs, i))
    && (forall i: nat :: i < |procs| && Runnable(procs[i]) ==> procs[i].waitingFor == 0)
  }

  /** The process recorded as reading is blocked, and on nothing else. */
  predicate ReaderOk(s: State) {
    s.reader.Some? ==>
      var i := Find(s.procs, s.reader.value);
      i < |s.procs| && s.procs[i].status == Blocked && s.procs[i].waitingFor == 0
  }

  predicate CurrentOk(s: State) {
    s.current.Some? ==> CurrentAt(s) < |s.procs| && Runnable(s.procs[CurrentAt(s)])
  }

  ghost predicate TableOk(s: State) {
    Distinct(s) && Waits(s.procs) && ReaderOk(s)
  }

  ghost predicate Inv(s: State) {
    TableOk(s) && CurrentOk(s)
  }

  // ----- looking up

  /** What makes a position the one `Find` gives. */
  lemma FindIs(procs: seq<Proc>, pid: nat, i: nat)
    requires i <= |procs| && (i < |procs| ==> procs[i].pid == pid)
    requires forall j: nat :: j < i ==> procs[j].pid != pid
    ensures Find(procs, pid) == i
  {
    hide Find;
  }

  lemma FindOwn(s: State, i: nat)
    requires Distinct(s) && i < |s.procs|
    ensures Find(s.procs, s.procs[i].pid) == i
  {
    FindIs(s.procs, s.procs[i].pid, i);
  }

  predicate SamePids(a: seq<Proc>, b: seq<Proc>) {
    |a| == |b| && forall i: nat :: i < |a| ==> b[i].pid == a[i].pid && b[i].parent == a[i].parent
  }

  lemma FindSame(a: seq<Proc>, b: seq<Proc>, pid: nat)
    requires SamePids(a, b)
    ensures Find(b, pid) == Find(a, pid)
  {
    hide Find;
    FindIs(b, pid, Find(a, pid));
  }

  lemma FindAppended(procs: seq<Proc>, p: Proc, pid: nat)
    ensures var i := Find(procs, pid);
      Find(procs + [p], pid) == if i < |procs| || p.pid == pid then i else |procs| + 1
  {
    hide Find;
    var i := Find(procs, pid);
    var q := procs + [p];
    assert forall k: nat :: k < |procs| ==> q[k] == procs[k];
    FindIs(q, pid, if i < |procs| || p.pid == pid then i else |procs| + 1);
  }

  function Shifted(i: nat, c: nat): nat {
    if i < c || i == 0 then i else i - 1
  }

  lemma FindWithout(procs: seq<Proc>, c: nat, pid: nat)
    requires c < |procs| && procs[c].pid != pid
    ensures var i := Find(procs, pid);
      && i != c && Find(Dropped(procs, c), pid) == Shifted(i, c)
      && (i < |procs| ==> Dropped(procs, c)[Shifted(i, c)] == procs[i])
  {
    hide Find;
    var w := Dropped(procs, c);
    var i := Find(procs, pid);
    assert i != c;
    forall k: nat | k < |w| ensures w[k] == procs[if k < c then k else k + 1] {
    }
    FindIs(w, pid, Shifted(i, c));
  }

  // ----- what a scheduler call keeps

  /** The table after one process changed, with its pid and parent kept. */
  lemma UpdateSame(procs: seq<Proc>, i: nat, p: Proc)
    requires i < |procs| && p.pid == procs[i].pid && p.parent == procs[i].parent
    ensures SamePids(procs, procs[i := p]) && forall pid: nat :: Find(procs[i := p], pid) == Find(procs, pid)
  {
    hide Find;
    forall pid: nat ensures Find(procs[i := p], pid) == Find(procs, pid) {
      FindSame(procs, procs[i := p], pid);
    }
  }

  /** Changing a runnable process into a runnable one. */
  lemma RunOneKeeps(s: State, h: nat, p: Proc, t: State)
    requires TableOk(s) && h < |s.procs| && Runnable(s.procs[h]) && Runnable(p)
    requires p.pid == s.procs[h].pid && p.parent == s.procs[h].parent && p.waitingFor == s.procs[h].waitingFor
    requires t.procs == s.procs[h := p] && t.reader == s.reader && t.nextPid == s.nextPid
    ensures TableOk(t)
  {
    hide Find;
    UpdateSame(s.procs, h, p);
    forall i: nat | i < |t.procs| ensures WaitOk(t.procs, i) {
      assert WaitOk(s.procs, i);
    }
  }

  lemma CoreKeeps(s: State)
    requires TableOk(s) && (s.procs == [] ==> s.current == None)
    ensures Inv(Core(s))
  {
    hide TableOk, Find, PickFrom, SearchFrom, LaidOut;
    if s.procs != [] {
      var h := PickFrom(s.procs, SearchFrom(s), 0);
      var p := s.procs[h];
      var t := Core(s);
      if Runnable(p) {
        var q := Resumed(p);
        RunOneKeeps(s, h, q, t);
        UpdateSame(s.procs, h, q);
        TableDistinct(s);
        FindOwn(s, h);
      } else {
        HeadFree(s, t);
      }
    }
  }

  lemma TableDistinct(s: State)
    requires TableOk(s)
    ensures Distinct(s)
  {
  }

  /** The table does not depend on the head or the current process. */
  lemma HeadFree(s: State, t: State)
    requires TableOk(s) && t == s.(head := t.head, current := t.current)
    ensures TableOk(t)
  {
    hide WaitOk, Find;
  }

  // ----- dying and telling the parent

  /** Telling the parent of a dead process: at most one record changes. */
  lemma NotifyIs(procs: seq<Proc>, dead: Proc)
    requires dead.status == Zombie
    ensures var r := Notify(procs, dead); var w := Find(procs, dead.parent);
      && SamePids(procs, r) && Notify(r, dead) == r
      && (forall pid: nat :: Find(r, pid) == Find(procs, pid))
      && (forall j: nat :: j < |procs| && j != w ==> r[j] == procs[j])
      && (w < |procs| && dead.parent != 0 && procs[w].status == Blocked && procs[w].waitingFor == dead.pid ==>
            r[w] == procs[w].(status := Ready, waitingFor := 0))
      && (w < |procs| && !(dead.parent != 0 && procs[w].status == Blocked && procs[w].waitingFor == dead.pid)
         ==> r[w] == procs[w])
  {
    hide Find;
    var w := Find(procs, dead.parent);
    var r := Notify(procs, dead);
    if w < |procs| { UpdateSame(procs, w, procs[w].(status := Ready, waitingFor := 0)); }
  }

  /** The current process dies and its parent is told: nobody is left waiting for it. */
  lemma DeathKeeps(s: State, dead: Proc)
    requires Inv(s) && CurrentAt(s) < |s.procs|
    requires dead == s.procs[CurrentAt(s)].(status := Zombie, exitCode := dead.exitCode)
    ensures var procs := Notify(s.procs[CurrentAt(s) := dead], dead);
      TableOk(s.(procs := procs)) && SamePids(s.procs, procs) && Notify(procs, dead) == procs
      && procs[CurrentAt(s)] == dead
  {
    hide Find, Notify, WaitOk;
    var i := CurrentAt(s);
    var mid := s.procs[i := dead];
    UpdateSame(s.procs, i, dead);
    NotifyIs(mid, dead);
    FindOwn(s, i);
    var procs := Notify(mid, dead);
    forall j: nat | j < |procs| ensures WaitOk(procs, j) {
      DeathWait(s, dead, j);
    }
  }

  lemma DeathWait(s: State, dead: Proc, j: nat)
    requires Inv(s) && CurrentAt(s) < |s.procs| && j < |s.procs|
    requires dead == s.procs[CurrentAt(s)].(status := Zombie, exitCode := dead.exitCode)
    ensures WaitOk(Notify(s.procs[CurrentAt(s) := dead], dead), j)
  {
    hide Find, Notify;
    var i := CurrentAt(s);
    UpdateSame(s.procs, i, dead);
    NotifyIs(s.procs[i := dead], dead);
    FindOwn(s, i);
    FindOwn(s, j);
    assert WaitOk(s.procs, j);
  }

  lemma ExitKeeps(s: State, code: int)
    requires Inv(s) && CurrentAt(s) < |s.procs|
    ensures Inv(Exit(s, code))
  {
    hide Inv, TableOk, Core, Find, Notify;
    var dead := s.procs[CurrentAt(s)].(status := Zombie, exitCode := code);
    DeathKeeps(s, dead);
    CoreKeeps(s.(procs := Notify(s.procs[CurrentAt(s) := dead], dead)));
  }

  lemma SegfaultKeeps(s: State)
    requires Inv(s) && CurrentAt(s) < |s.procs|
    ensures Inv(Segfault(s))
  {
    hide TableOk, Find, Notify, PickFrom;
    var dead := s.procs[CurrentAt(s)].(status := Zombie, exitCode := 139);
    DeathKeeps(s, dead);
    var procs := Notify(s.procs[CurrentAt(s) := dead], dead);
    var t := Segfault(s);
    HeadFree(s.(procs := procs), t);
    TableDistinct(t);
    FindOwn(t, t.head);
  }

  // ----- waiting

  lemma ResultKeeps(s: State, i: nat, r: int)
    requires Inv(s) && i < |s.procs|
    ensures Inv(SetResult(s, i, r)) && SamePids(s.procs, SetResult(s, i, r).procs)
    ensures CurrentAt(SetResult(s, i, r)) == CurrentAt(s)
  {
    hide Find;
    UpdateSame(s.procs, i, s.procs[i].(result := r));
    forall j: nat | j < |s.procs| ensures WaitOk(SetResult(s, i, r).procs, j) {
      assert WaitOk(s.procs, j);
    }
  }

  /** The current process blocks on a live child of its own, or on stdin. */
  lemma BlockKeeps(s: State, child: nat, onStdin: bool)
    requires Inv(s) && CurrentAt(s) < |s.procs|
    requires if onStdin then child == 0
             else var c := Find(s.procs, child); child != 0 && c < |s.procs| && s.procs[c].status != Zombie
                                                 && s.procs[c].parent == s.procs[CurrentAt(s)].pid
    ensures var i := CurrentAt(s);
      var p := s.procs[i].(status := Blocked, waitingFor := if onStdin then s.procs[i].waitingFor else child);
      TableOk(s.(procs := s.procs[i := p], reader := if onStdin then Some(p.pid) else s.reader))
  {
    hide Find;
    var i := CurrentAt(s);
    var p := s.procs[i].(status := Blocked, waitingFor := if onStdin then s.procs[i].waitingFor else child);
    var procs := s.procs[i := p];
    UpdateSame(s.procs, i, p);
    FindOwn(s, i);
    forall j: nat | j < |procs| ensures WaitOk(procs, j) {
      assert WaitOk(s.procs, j);
    }
  }

  lemma ReapKeeps(s: State, c: nat)
    requires Inv(s) && c < |s.procs| && s.procs[c].status == Zombie
    ensures Inv(s.(procs := Dropped(s.procs, c)))
  {
    hide Find, WaitOk;
    var t := s.(procs := Dropped(s.procs, c));
    FindOwn(s, c);
    forall j: nat | j < |t.procs| ensures t.procs[j] == s.procs[if j < c then j else j + 1] && WaitOk(t.procs, j) {
      ReapWaitOk(s, c, j);
    }
    if s.reader.Some? && s.reader.value != s.procs[c].pid { FindWithout(s.procs, c, s.reader.value); }
    if s.current.Some? && s.current.value != s.procs[c].pid { FindWithout(s.procs, c, s.current.value); }
  }

  lemma ReapWaitOk(s: State, c: nat, j: nat)
    requires Distinct(s) && Waits(s.procs) && c < |s.procs| && s.procs[c].status == Zombie && j < |s.procs| - 1
    ensures WaitOk(Dropped(s.procs, c), j)
  {
    hide Find;
    var k := if j < c then j else j + 1;
    assert WaitOk(s.procs, k);
    assert Dropped(s.procs, c)[j] == s.procs[k];
    if s.procs[k].status == Blocked && s.procs[k].waitingFor != 0 { ReapWait(s, c, k); }
  }

  lemma ReapWait(s: State, c: nat, k: nat)
    requires Distinct(s) && c < |s.procs| && s.procs[c].status == Zombie && k < |s.procs| && k != c
             && WaitOk(s.procs, k)
    requires s.procs[k].status == Blocked && s.procs[k].waitingFor != 0
    ensures s.procs[k].waitingFor != s.procs[c].pid
    ensures Find(Dropped(s.procs, c), s.procs[k].waitingFor) == Shifted(Find(s.procs, s.procs[k].waitingFor), c)
    ensures var f := Find(s.procs, s.procs[k].waitingFor);
      Dropped(s.procs, c)[Shifted(f, c)] == s.procs[f]
  {
    hide Find;
    FindOwn(s, c);
    FindWithout(s.procs, c, s.procs[k].waitingFor);
  }

  lemma WaitpidKeeps(s: State, child: nat)
    requires Inv(s) && CurrentAt(s) < |s.procs|
    ensures Inv(Waitpid(s, child))
  {
    hide Inv, TableOk, Core, Find, SetResult, Dropped;
    var i := CurrentAt(s);
    var c := Find(s.procs, child);
    ResultIs(s, i, -1);
    ResultKeeps(s, i, -1);
    ResultKeeps(s, i, -2);
    if c < |s.procs| && s.procs[c].parent == s.procs[i].pid {
      if s.procs[c].status == Zombie {
        var r := s.procs[c].exitCode;
        ResultKeeps(s, i, r);
        ResultIs(s, i, r);
        ZombieNotCurrent(s, c);
        ReapKeeps(SetResult(s, i, r), c);
      } else {
        PidPositive(s, c);
        BlockKeeps(s, child, false);
        CoreKeeps(s.(procs := s.procs[i := s.procs[i].(status := Blocked, waitingFor := child)]));
      }
    }
  }

  lemma ResultIs(s: State, i: nat, r: int)
    requires i < |s.procs|
    ensures |SetResult(s, i, r).procs| == |s.procs|
    ensures forall j: nat :: j < |s.procs| && j != i ==> SetResult(s, i, r).procs[j] == s.procs[j]
  {
  }

  lemma ZombieNotCurrent(s: State, c: nat)
    requires Inv(s) && c < |s.procs| && s.procs[c].status == Zombie
    ensures c != CurrentAt(s)
  {
    hide Find, WaitOk;
  }

  lemma PidPositive(s: State, c: nat)
    requires Inv(s) && c < |s.procs|
    ensures s.procs[c].pid > 0
  {
    hide Find, WaitOk;
  }

  lemma ReadKeeps(s: State)
    requires Inv(s) && CurrentAt(s) < |s.procs|
    ensures Inv(Read(s))
  {
    hide Inv, TableOk, Core, Find;
    var i := CurrentAt(s);
    BlockKeeps(s, 0, true);
    CoreKeeps(s.(procs := s.procs[i := s.procs[i].(status := Blocked)], reader := Some(s.procs[i].pid)));
  }

  lemma FlushKeeps(s: State)
    requires Inv(s)
    ensures Inv(Flush(s))
  {
    hide Find;
    if s.reader.Some? {
      var i := Find(s.procs, s.reader.value);
      var p := s.procs[i].(status := Ready, input := true);
      UpdateSame(s.procs, i, p);
      forall j: nat | j < |s.procs| ensures WaitOk(Flush(s).procs, j) {
        assert WaitOk(s.procs, j);
      }
    }
  }

  lemma SpawnKeeps(s: State, program: Program)
    requires Inv(s)
    ensures Inv(Spawn(s, program))
    ensures CurrentAt(Spawn(s, program)) == if s.current.Some? then CurrentAt(s) else |s.procs| + 1
  {
    hide Find;
    var t := Spawn(s, program);
    var p := t.procs[|s.procs|];
    forall pid: nat
      ensures Find(t.procs, pid)
              == if Find(s.procs, pid) < |s.procs| || p.pid == pid then Find(s.procs, pid) else |s.procs| + 1
    {
      FindAppended(s.procs, p, pid);
    }
    forall j: nat | j < |t.procs| ensures WaitOk(t.procs, j) {
      if j < |s.procs| { assert WaitOk(s.procs, j); }
    }
  }

  lemma AnsweredKeeps(s: State, result: int)
    requires Inv(s)
    ensures Inv(Answered(s, result)) && SamePids(s.procs, Answered(s, result).procs)
  {
    hide Inv, Find, SetResult;
    if CurrentAt(s) < |s.procs| { ResultKeeps(s, CurrentAt(s), result); }
  }

  lemma ExecKeeps(s: State, program: Option<Program>)
    requires Inv(s)
    ensures Inv(Exec(s, program))
  {
    hide Inv, Find, Spawn, Answered;
    match program
    case None => AnsweredKeeps(s, -1);
    case Some(g) =>
      SpawnKeeps(s, g);
      AnsweredKeeps(Spawn(s, g), s.nextPid);
  }

  // ----- every run

  datatype Op =
    | ExecOp(program: Option<Program>)
    | ExitOp(code: int)
    | SegfaultOp
    | WaitpidOp(child: nat)
    | ReadOp
    | FlushOp
    | Tick
    | KillOp(pid: nat)

  /** System calls and faults come from a current process; kill names one that
      exists. */
  predicate Allowed(s: State, op: Op) {
    match op
    case ExecOp(_) => true
    case FlushOp => true
    case Tick => true
    case KillOp(pid) => CurrentAt(s) < |s.procs| && Find(s.procs, pid) < |s.procs|
    case _ => CurrentAt(s) < |s.procs|
  }

  function Step(s: State, op: Op): State
    requires Allowed(s, op)
  {
    match op
    case ExecOp(program) => Exec(s, program)
    case ExitOp(code) => Exit(s, code)
    case SegfaultOp => Segfault(s)
    case WaitpidOp(child) => Waitpid(s, child)
    case ReadOp => Read(s)
    case FlushOp => Flush(s)
    case Tick => Core(s)
    case KillOp(pid) => Kill(s, pid)
  }

  lemma StepKeeps(s: State, op: Op)
    requires Inv(s) && Allowed(s, op) && !op.KillOp?
    ensures Inv(Step(s, op))
  {
    hide Inv, TableOk, Exec, Exit, Segfault, Waitpid, Read, Flush, Core;
    match op {
      case ExecOp(program) => ExecKeeps(s, program);
      case ExitOp(code) => ExitKeeps(s, code);
      case SegfaultOp => SegfaultKeeps(s);
      case WaitpidOp(child) => WaitpidKeeps(s, child);
      case ReadOp => ReadKeeps(s);
      case FlushOp => FlushKeeps(s);
      case Tick => TickKeeps(s);
    }
  }

  lemma TickKeeps(s: State)
    requires Inv(s)
    ensures Inv(Core(s))
  {
    hide Core, Find, WaitOk;
    CoreKeeps(s);
  }

  ghost predicate Runs(s: State, ops: seq<Op>, t: State)
    decreases |ops|
  {
    if ops == [] then t == s else Allowed(s, ops[0]) && Runs(Step(s, ops[0]), ops[1..], t)
  }

  function Start(): State {
    State([], 0, None, None, 1)
  }

  /** No lost wake-up: after any run without kill, a process blocked on a child
      waits for a child of its own that is in the table and not a zombie. */
  lemma {:induction false} EveryRunWakes(s: State, ops: seq<Op>, t: State)
    requires Inv(s) && Runs(s, ops, t) && forall i :: 0 <= i < |ops| ==> !ops[i].KillOp?
    ensures Inv(t)
    decreases |ops|
  {
    hide Inv, Allowed, Step;
    if ops != [] {
      StepKeeps(s, ops[0]);
      EveryRunWakes(Step(s, ops[0]), ops[1..], t);
    }
  }

  lemma NoLostWakeUp(ops: seq<Op>, t: State, i: nat)
    requires Runs(Start(), ops, t) && forall k :: 0 <= k < |ops| ==> !ops[k].KillOp?
    requires i < |t.procs| && t.procs[i].status == Blocked && t.procs[i].waitingFor != 0
    ensures var c := Find(t.procs, t.procs[i].waitingFor);
      c < |t.procs| && t.procs[c].status != Zombie && t.procs[c].parent == t.procs[i].pid
  {
    EveryRunWakes(Start(), ops, t);
    assert WaitOk(t.procs, i);
  }

  // ----- a zombie stays one

  /** Process `pid`, a zombie, is one still or has left the table. */
  predicate StillDead(t: State, pid: nat) {
    var j := Find(t.procs, pid);
    j == |t.procs| || t.procs[j].status == Zombie
  }

  lemma CoreDead(s: State, pid: nat)
    requires StillDead(s, pid)
    ensures StillDead(Core(s), pid) && |Core(s).procs| == |s.procs|
    ensures Find(Core(s).procs, pid) == Find(s.procs, pid)
  {
    hide Find, PickFrom;
    var t := Core(s);
    assert SamePids(s.procs, t.procs);
    FindSame(s.procs, t.procs, pid);
  }

  /** A zombie stays a zombie until its parent reaps it. */
  lemma ZombieUntilReaped(s: State, op: Op, z: nat)
    requires Inv(s) && Allowed(s, op) && !op.KillOp? && z < |s.procs| && s.procs[z].status == Zombie
    ensures var pid := s.procs[z].pid;
      && StillDead(Step(s, op), pid)
      && (Find(Step(s, op).procs, pid) == |Step(s, op).procs|
          <==> op == WaitpidOp(pid) && s.procs[z].parent == s.procs[CurrentAt(s)].pid)
  {
    hide Inv, TableOk, Find, Core, Notify, PickFrom, Dropped;
    var pid := s.procs[z].pid;
    ParsedInv(s, z);
    match op {
      case ExecOp(program) => ExecDead(s, program, z);
      case ExitOp(code) =>
        var dead := s.procs[CurrentAt(s)].(status := Zombie, exitCode := code);
        DeathDead(s, dead, z);
        CoreDead(s.(procs := Notify(s.procs[CurrentAt(s) := dead], dead)), pid);
      case SegfaultOp =>
        var dead := s.procs[CurrentAt(s)].(status := Zombie, exitCode := 139);
        DeathDead(s, dead, z);
      case WaitpidOp(child) => WaitpidDead(s, child, z);
      case ReadOp =>
        var i := CurrentAt(s);
        UpdateSame(s.procs, i, s.procs[i].(status := Blocked));
        CoreDead(s.(procs := s.procs[i := s.procs[i].(status := Blocked)], reader := Some(s.procs[i].pid)), pid);
      case FlushOp =>
        if s.reader.Some? {
          var i := Find(s.procs, s.reader.value);
          UpdateSame(s.procs, i, s.procs[i].(status := Ready, input := true));
        }
      case Tick => CoreDead(s, pid);
    }
  }

  lemma ParsedInv(s: State, z: nat)
    requires Inv(s) && z < |s.procs|
    ensures Find(s.procs, s.procs[z].pid) == z && s.procs[z].pid < s.nextPid
    ensures s.procs[z].status == Zombie ==> z != CurrentAt(s)
    ensures s.reader.Some? ==>
              Find(s.procs, s.reader.value) < |s.procs| && s.procs[Find(s.procs, s.reader.value)].status == Blocked
  {
    hide Find, WaitOk;
    FindOwn(s, z);
  }

  lemma DeathDead(s: State, dead: Proc, z: nat)
    requires Inv(s) && CurrentAt(s) < |s.procs| && z < |s.procs| && s.procs[z].status == Zombie
    requires dead == s.procs[CurrentAt(s)].(status := Zombie, exitCode := dead.exitCode)
    ensures var procs := Notify(s.procs[CurrentAt(s) := dead], dead);
      && |procs| == |s.procs| && procs[z] == s.procs[z] && Notify(procs, dead) == procs
      && Find(procs, s.procs[z].pid) == z
  {
    hide Inv, TableOk, Find;
    DeathKeeps(s, dead);
    ParsedInv(s, z);
    FindSame(s.procs, Notify(s.procs[CurrentAt(s) := dead], dead), s.procs[z].pid);
  }

  lemma ExecDead(s: State, program: Option<Program>, z: nat)
    requires Inv(s) && z < |s.procs| && s.procs[z].status == Zombie
    ensures var t := Exec(s, program); StillDead(t, s.procs[z].pid) && Find(t.procs, s.procs[z].pid) < |t.procs|
  {
    hide Inv, TableOk, Find;
    var pid := s.procs[z].pid;
    ParsedInv(s, z);
    var t := if program.Some? then Spawn(s, program.value) else s;
    if program.Some? {
      SpawnKeeps(s, program.value);
      FindAppended(s.procs, NewProc(s, program.value), pid);
    }
    var result := if program.Some? then s.nextPid else -1;
    AnsweredKeeps(t, result);
    FindSame(t.procs, Answered(t, result).procs, pid);
  }

  lemma WaitpidDead(s: State, child: nat, z: nat)
    requires Inv(s) && CurrentAt(s) < |s.procs| && z < |s.procs| && s.procs[z].status == Zombie
    ensures var pid := s.procs[z].pid; var t := Waitpid(s, child);
      && StillDead(t, pid)
      && (Find(t.procs, pid) == |t.procs| <==> child == pid && s.procs[z].parent == s.procs[CurrentAt(s)].pid)
  {
    hide Inv, TableOk, Find, Core, Dropped, SetResult;
    var i := CurrentAt(s);
    var pid := s.procs[z].pid;
    var c := Find(s.procs, child);
    ParsedInv(s, z);
    ResultIs(s, i, -1);
    ResultIs(s, i, -2);
    ResultKeeps(s, i, -1);
    ResultKeeps(s, i, -2);
    FindSame(s.procs, SetResult(s, i, -1).procs, pid);
    FindSame(s.procs, SetResult(s, i, -2).procs, pid);
    if c < |s.procs| && s.procs[c].parent == s.procs[i].pid {
      ParsedInv(s, c);
      if s.procs[c].status == Zombie {
        var r := s.procs[c].exitCode;
        ResultKeeps(s, i, r);
        ResultIs(s, i, r);
        var t := SetResult(s, i, r);
        FindSame(s.procs, t.procs, pid);
        if c != z { FindWithout(t.procs, c, pid); } else { GoneAfter(t, c); }
      } else {
        UpdateSame(s.procs, i, s.procs[i].(status := Blocked, waitingFor := child));
        CoreDead(s.(procs := s.procs[i := s.procs[i].(status := Blocked, waitingFor := child)]), pid);
      }
    }
  }

  lemma GoneAfter(s: State, c: nat)
    requires Inv(s) && c < |s.procs|
    ensures Find(Dropped(s.procs, c), s.procs[c].pid) == |s.procs| - 1
  {
    hide Find, WaitOk;
    var w := Dropped(s.procs, c);
    forall k: nat | k < |w| ensures w[k].pid != s.procs[c].pid {
      assert w[k] == s.procs[if k < c then k else k + 1];
    }
    FindIs(w, s.procs[c].pid, |w|);
  }
}
