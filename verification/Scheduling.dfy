/** Processes, the round-robin pick, and the calls that block and wake them. */
module Scheduling {
  import opened AddressMap
  import opened Bits
  import opened ByteBlocks
  import opened Options
  import StackLayout
  import opened Sequences

  datatype Status = Ready | Blocked | Zombie | Starting

  /** The argument and environment strings given to exec; they fit the user stack. */
  datatype Strings = Strings(argv: seq<StackLayout.CStr>, env: seq<StackLayout.CStr>)

  type Arguments = a: Strings | StackLayout.Need(a.argv, a.env) <= STACK_BYTES
    witness Strings([], [])

  /** The bytes of the user stack, from its lowest address on. */
  type UserStack = b: Block | |b| == STACK_BYTES
    witness seq(STACK_BYTES, _ => 0)

  /** What exec starts: its arguments, and whatever bytes the frames taken for its
      stack happen to hold. */
  datatype Program = Program(args: Arguments, stack: UserStack)

  /** `waitingFor` is 0 for none; `result` is the saved EAX, `input` a stdin buffer
      waiting to be copied; `esp` and `stack` are the user stack pointer and stack. */
  datatype Proc = Proc(pid: nat, status: Status, parent: nat, waitingFor: nat, exitCode: int, result: int,
                       input: bool, args: Arguments, esp: nat, stack: UserStack)

  /** The process table, the position of the last pick, the process running and the
      one recorded as waiting for stdin, both by pid, and the pid counter. */
  datatype State = State(procs: seq<Proc>, head: nat, current: Option<nat>, reader: Option<nat>, nextPid: nat)

  predicate Runnable(p: Proc) {
    p.status != Blocked && p.status != Zombie
  }

  /** `scheduler_get_proc`: the first position with that pid; the length for none. */
  function Find(procs: seq<Proc>, pid: nat): (i: nat)
    ensures i <= |procs| && (i < |procs| ==> procs[i].pid == pid)
    ensures forall j: nat :: j < i ==> procs[j].pid != pid
  {
    if procs == [] then 0 else if procs[0].pid == pid then 0 else 1 + Find(procs[1..], pid)
  }

  // ----- the round-robin pick

  /** The do-while loop of `pick_next_ready_proc`: where it stops. */
  function PickFrom(procs: seq<Proc>, head: nat, tried: nat): (h: nat)
    requires tried < |procs|
    ensures h < |procs|
    decreases |procs| - tried
  {
    var h := (head + 1) % |procs|;
    if !Runnable(procs[h]) && tried + 1 < |procs| then PickFrom(procs, h, tried + 1) else h
  }

  /** Position `d` steps behind `head`, cyclically. */
  function Ahead(head: nat, d: nat, n: nat): (i: nat)
    requires n > 0
    ensures i < n
  {
    (head + d) % n
  }

  lemma AheadStep(head: nat, d: nat, n: nat)
    requires n > 0
    ensures Ahead(Ahead(head, 1, n), d, n) == Ahead(head, d + 1, n)
  {
    ModOfMod(head + 1, d, n);
  }

  lemma ModOfMod(a: nat, d: nat, n: nat)
    requires n > 0
    ensures (a % n + d) % n == (a + d) % n
  {
    var q := a / n;
    assert a == n * q + a % n;
    ModShift(a % n + d, q, n);
  }

  lemma {:induction false} ModShift(x: nat, q: nat, n: nat)
    requires n > 0
    ensures (x + n * q) % n == x % n
  {
    if q > 0 {
      ModShift(x, q - 1, n);
      assert x + n * q == x + n * (q - 1) + n;
      ModOnce(x + n * (q - 1), n);
    }
  }

  lemma ModOnce(y: nat, n: nat)
    requires n > 0
    ensures (y + n) % n == y % n
  {
    SplitNumber(y, n);
    assert n * (y / n + 1) == n * (y / n) + n;
    DivUnique(y + n, n, y / n + 1, y % n);
  }

  /** The pick stops at the first runnable process behind `head`, cyclically: after
      `d` steps, every process passed on the way not runnable; or, when none is
      runnable, after a full round. */
  lemma {:induction false} PickStops(procs: seq<Proc>, head: nat, tried: nat) returns (d: nat)
    requires tried < |procs|
    ensures 1 <= d <= |procs| - tried && PickFrom(procs, head, tried) == Ahead(head, d, |procs|)
    ensures forall e: nat :: 1 <= e < d ==> !Runnable(procs[Ahead(head, e, |procs|)])
    ensures Runnable(procs[Ahead(head, d, |procs|)]) || d == |procs| - tried
    decreases |procs| - tried
  {
    var n := |procs|;
    var h := Ahead(head, 1, n);
    if !Runnable(procs[h]) && tried + 1 < n {
      var d1 := PickStops(procs, h, tried + 1);
      d := d1 + 1;
      AheadStep(head, d1, n);
      forall e: nat | 1 <= e < d ensures !Runnable(procs[Ahead(head, e, n)]) {
        if e > 1 { AheadStep(head, e - 1, n); }
      }
    } else {
      d := 1;
    }
  }

  /** How many steps from `head` to `j`: 1 to the table's length. */
  function Distance(head: nat, j: nat, n: nat): (d: nat)
    requires head < n && j < n
    ensures 1 <= d <= n && (d < n ==> j != head)
  {
    if j > head then j - head else j + n - head
  }

  lemma DistanceAhead(head: nat, j: nat, n: nat, d: nat)
    requires head < n && j < n && 1 <= d <= n
    ensures Ahead(head, Distance(head, j, n), n) == j
    ensures Ahead(head, d, n) == j <==> d == Distance(head, j, n)
    ensures d < Distance(head, j, n) ==> Distance(Ahead(head, d, n), j, n) == Distance(head, j, n) - d
  {
    Wraps(head + d, n);
    Wraps(head + Distance(head, j, n), n);
  }

  lemma Wraps(x: nat, n: nat)
    requires n > 0 && x < 2 * n
    ensures x % n == if x < n then x else x - n
  {
    if x < n { DivUnique(x, n, 0, x); } else { DivUnique(x, n, 1, x - n); }
  }

  /** The pick finds no one exactly when no process is runnable. */
  lemma PickNoneExactly(procs: seq<Proc>, head: nat)
    requires head < |procs|
    ensures Runnable(procs[PickFrom(procs, head, 0)]) <==> exists j: nat :: j < |procs| && Runnable(procs[j])
  {
    var d := PickStops(procs, head, 0);
    if exists j: nat :: j < |procs| && Runnable(procs[j]) {
      var j: nat :| j < |procs| && Runnable(procs[j]);
      DistanceAhead(head, j, |procs|, d);
    }
  }

  /** A runnable process at `j` is either picked or strictly nearer afterwards. */
  lemma PickApproaches(procs: seq<Proc>, head: nat, j: nat)
    requires head < |procs| && j < |procs| && Runnable(procs[j])
    ensures var h := PickFrom(procs, head, 0);
      h == j || Distance(h, j, |procs|) < Distance(head, j, |procs|)
  {
    var d := PickStops(procs, head, 0);
    DistanceAhead(head, j, |procs|, d);
  }

  /** Scheduler call `k` moves the head as the pick says. */
  predicate PickAt(tables: seq<seq<Proc>>, heads: seq<nat>, n: nat, k: nat)
    requires k < |tables| && |heads| == |tables| + 1
  {
    |tables[k]| == n && n > 0 && heads[k + 1] == PickFrom(tables[k], heads[k], 0)
  }

  /** A run of scheduler calls: the table at each, and the head around them. */
  predicate PickRun(tables: seq<seq<Proc>>, heads: seq<nat>, n: nat) {
    |heads| == |tables| + 1 && heads[0] < n && forall k: nat :: k < |tables| ==> PickAt(tables, heads, n, k)
  }

  /** Round robin: whatever happens to the others, a process that stays runnable in
      a table of `n` is picked within `n` scheduler calls. */
  lemma {:induction false} PickedInTime(tables: seq<seq<Proc>>, heads: seq<nat>, n: nat, j: nat) returns (k: nat)
    requires PickRun(tables, heads, n) && j < n && |tables| >= Distance(heads[0], j, n)
    requires forall i: nat :: i < |tables| ==> j < |tables[i]| && Runnable(tables[i][j])
    ensures k < Distance(heads[0], j, n) && heads[k + 1] == j
    decreases |tables|
  {
    assert PickAt(tables, heads, n, 0);
    PickApproaches(tables[0], heads[0], j);
    if heads[1] == j { return 0; }
    forall i: nat | i < |tables[1..]| ensures PickAt(tables[1..], heads[1..], n, i) && j < |tables[1..][i]|
        && Runnable(tables[1..][i][j]) {
      assert PickAt(tables, heads, n, i + 1);
    }
    var k1 := PickedInTime(tables[1..], heads[1..], n, j);
    k := k1 + 1;
  }

  // ----- the steps

  function CurrentAt(s: State): (i: nat)
    ensures i <= |s.procs|
  {
    if s.current.Some? then Find(s.procs, s.current.value) else |s.procs|
  }

  /** A new process gets its arguments on its stack. */
  function LaidOut(p: Proc): (r: Proc)
    ensures r == p.(esp := r.esp, stack := r.stack)
  {
    var (stack, esp) := StackLayout.Layout(p.stack, p.args.argv, p.args.env);
    p.(esp := esp, stack := stack)
  }

  /** A runnable process as it gets the processor. */
  function Resumed(p: Proc): Proc {
    (if p.status == Starting then LaidOut(p) else p).(status := Ready, input := false)
  }

  /** Where the search starts: the bound is taken when the current process is dead. */
  function SearchFrom(s: State): nat
    requires s.procs != []
  {
    if CurrentAt(s) < |s.procs| && s.procs[CurrentAt(s)].status == Zombie then s.head % |s.procs| else s.head
  }

  /** `__scheduler_core`: a STARTING process has its stack laid out, stdin input is
      copied; nobody runnable means the idle process. */
  function Core(s: State): State {
    if s.procs == [] then s
    else
      var h := PickFrom(s.procs, SearchFrom(s), 0);
      var p := s.procs[h];
      if !Runnable(p) then s.(head := h, current := None)
      else s.(procs := s.procs[h := Resumed(p)], head := h, current := Some(p.pid))
  }

  /** `scheduler_notify_parent`. */
  function Notify(procs: seq<Proc>, child: Proc): (r: seq<Proc>)
    ensures |r| == |procs|
  {
    var i := Find(procs, child.parent);
    if child.parent == 0 || i == |procs| then procs
    else if procs[i].status == Blocked && procs[i].waitingFor == child.pid then
      procs[i := procs[i].(status := Ready, waitingFor := 0)]
    else procs
  }

  /** A new record: the child of the current process, its stack pointer at the top. */
  function NewProc(s: State, program: Program): Proc {
    var parent := if s.current.Some? then s.current.value else 0;
    Proc(s.nextPid, Starting, parent, 0, 0, 0, false, program.args, STACK_TOP, program.stack)
  }

  /** `elf_load` as far as the table goes. */
  function Spawn(s: State, program: Program): State {
    s.(procs := s.procs + [NewProc(s, program)], nextPid := s.nextPid + 1)
  }

  /** The exec call gives the caller the child's pid, or -1 for no program. */
  function Exec(s: State, program: Option<Program>): State {
    match program
    case None => Answered(s, -1)
    case Some(g) => Answered(Spawn(s, g), s.nextPid)
  }

  /** The current process, if there is one, gets its EAX. */
  function Answered(s: State, result: int): State {
    var i := CurrentAt(s);
    if i < |s.procs| then SetResult(s, i, result) else s
  }

  /** exit: zombie, parent notified, and the yield at the end of the call. */
  function Exit(s: State, code: int): State
    requires CurrentAt(s) < |s.procs|
  {
    var i := CurrentAt(s);
    var dead := s.procs[i].(status := Zombie, exitCode := code);
    Core(s.(procs := Notify(s.procs[i := dead], dead)))
  }

  /** A page fault in user mode: the parent is notified twice, and the next process
      runs as it is. */
  function Segfault(s: State): State
    requires CurrentAt(s) < |s.procs|
  {
    var i := CurrentAt(s);
    var dead := s.procs[i].(status := Zombie, exitCode := 139);
    var procs := Notify(Notify(s.procs[i := dead], dead), dead);
    var h := PickFrom(procs, s.head % |procs|, 0);
    s.(procs := procs, head := h, current := if Runnable(procs[h]) then Some(procs[h].pid) else None)
  }

  function SetResult(s: State, i: nat, result: int): State
    requires i < |s.procs|
  {
    s.(procs := s.procs[i := s.procs[i].(result := result)])
  }

  function Waitpid(s: State, child: nat): State
    requires CurrentAt(s) < |s.procs|
  {
    var i := CurrentAt(s);
    var c := Find(s.procs, child);
    if c == |s.procs| then SetResult(s, i, -1)
    else if s.procs[c].parent != s.procs[i].pid then SetResult(s, i, -2)
    else if s.procs[c].status == Zombie then
      var t := SetResult(s, i, s.procs[c].exitCode);
      t.(procs := Dropped(t.procs, c))
    else Core(s.(procs := s.procs[i := s.procs[i].(status := Blocked, waitingFor := child)]))
  }

  function Read(s: State): State
    requires CurrentAt(s) < |s.procs|
  {
    var i := CurrentAt(s);
    Core(s.(procs := s.procs[i := s.procs[i].(status := Blocked)], reader := Some(s.procs[i].pid)))
  }

  /** `stdin_flush` with `scheduler_wake_stdin`: READY whatever the state was. A
      reader no longer in the table is freed memory; nothing in the table changes. */
  function Flush(s: State): State {
    if s.reader.None? then s
    else
      var i := Find(s.procs, s.reader.value);
      if i == |s.procs| then s.(reader := None)
      else s.(procs := s.procs[i := s.procs[i].(status := Ready, input := true)], reader := None)
  }

  /** kill sets the state and tells no one. */
  function Kill(s: State, pid: nat): State
    requires CurrentAt(s) < |s.procs| && Find(s.procs, pid) < |s.procs|
  {
    var k := Find(s.procs, pid);
    var t := s.(procs := s.procs[k := s.procs[k].(status := Zombie)]);
    if k == CurrentAt(s) then Core(t) else t
  }
}
