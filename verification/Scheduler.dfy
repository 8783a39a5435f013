/** The scheduler in its own form: process records behind pointers, a table of
    them, and the globals for the current process and the stdin reader. */
module Scheduler {
  import opened AddressMap
  import opened Options
  import opened Scheduling
  import opened Sequences

  class Process {
    const pid: nat
    const parent: nat
    const args: Arguments
    var status: Status
    var waitingFor: nat
    var exitCode: int
    var result: int
    var input: bool
    var esp: nat
    var stack: UserStack

    constructor (pid: nat, parent: nat, program: Program)
      ensures Now() == Proc(pid, Starting, parent, 0, 0, 0, false, program.args, STACK_TOP, program.stack)
    {
      this.pid, this.parent, this.args := pid, parent, program.args;
      status, waitingFor, exitCode, result, input, esp := Starting, 0, 0, 0, false, STACK_TOP;
      stack := program.stack;
    }

    /** A runnable process gets the processor: pending input is copied, the stack
        of a new one laid out. */
    method Resume()
      requires Runnable(Now())
      modifies this
      ensures Now() == Resumed(old(Now()))
    {
      hide StackLayout.Layout;
      input := false;
      if status == Starting {
        var bytes := new bv8[STACK_BYTES](i requires 0 <= i < |stack| reads this => stack[i]);
        assert bytes[..] == stack;
        esp := StackLayout.LayOut(bytes, args.argv, args.env);
        stack := bytes[..];
        status := Ready;
      }
    }

    function Now(): Proc
      reads this
    {
      Proc(pid, status, parent, waitingFor, exitCode, result, input, args, esp, stack)
    }
  }

  function Values(procs: seq<Process>): (r: seq<Proc>)
    reads procs
    ensures |r| == |procs| && forall i: nat :: i < |procs| ==> r[i] == procs[i].Now()
  {
    seq(|procs|, i requires 0 <= i < |procs| reads procs => procs[i].Now())
  }

  function PidOf(p: Process?): Option<nat> {
    if p == null then None else Some(p.pid)
  }

  class Table {
    var procs: seq<Process>
    var head: nat
    var current: Process?
    var reader: Process?
    var nextPid: nat

    function Now(): State
      reads this, procs
    {
      State(Values(procs), head, PidOf(current), PidOf(reader), nextPid)
    }

    /** Each process once, each with its own pid; the globals point into the table,
        or at a process that has left it. */
    ghost predicate Valid()
      reads this
    {
      && 0 < nextPid && (forall i: nat, j: nat :: i < j < |procs| ==> procs[i].pid != procs[j].pid)
      && (forall i: nat :: i < |procs| ==> procs[i].parent < procs[i].pid < nextPid)
      && (current != null ==> current in procs)
      && (reader != null ==>
            && reader.pid < nextPid
            && forall i: nat :: i < |procs| && procs[i].pid == reader.pid ==> procs[i] == reader)
    }

    constructor ()
      ensures Valid() && Now() == State([], 0, None, None, 1)
    {
      procs, head, current, reader, nextPid := [], 0, null, null, 1;
    }

    /** `scheduler_get_proc`. */
    method GetProc(pid: nat) returns (i: nat)
      ensures i == Find(Values(procs), pid)
    {
      i := 0;
      while i < |procs|
        invariant i <= |procs| && forall j: nat :: j < i ==> procs[j].pid != pid
      {
        if procs[i].pid == pid { break; }
        i := i + 1;
      }
      FindHere(Values(procs), pid, i);
    }

    /** `pick_next_ready_proc`: the position the loop stops at, and whether the
        process there can run. */
    method PickNext() returns (found: bool)
      requires procs != []
      modifies this`head
      ensures head == PickFrom(Values(procs), old(head), 0) && found == Runnable(procs[head].Now())
    {
      var tried := 0;
      ghost var start := head;
      head := (head + 1) % |procs|;
      tried := 1;
      while !Runnable(procs[head].Now()) && tried < |procs|
        invariant 1 <= tried <= |procs| && head < |procs|
        invariant PickFrom(Values(procs), start, 0)
                  == if !Runnable(procs[head].Now()) && tried < |procs|
                     then PickFrom(Values(procs), head, tried)
                     else head
        decreases |procs| - tried
      {
        head := (head + 1) % |procs|;
        tried := tried + 1;
      }
      return Runnable(procs[head].Now());
    }

    /** `__scheduler_core`. */
    method Dispatch()
      requires Valid()
      modifies this`head, this`current, procs
      ensures Valid() && Now() == Core(old(Now()))
    {
      hide Find, PickFrom, Core, Resumed, Runnable, SearchFrom;
      CoreIs(Now());
      if procs == [] { return; }
      DropDead();
      RunNext();
    }

    /** A dead process is not current any more. */
    method DropDead()
      requires Valid() && procs != []
      modifies this`head, this`current
      ensures Valid() && head == SearchFrom(old(Now()))
    {
      hide Find;
      CurrentPosition(this);
      if current != null && current.status == Zombie {
        current := null;
        head := head % |procs|;
      }
    }

    /** The pick and the switch to what it found. */
    method RunNext()
      requires Valid() && procs != []
      modifies this`head, this`current, procs
      ensures Valid() && head == PickFrom(old(Values(procs)), old(head), 0)
      ensures var p := old(Values(procs))[head];
        && PidOf(current) == (if Runnable(p) then Some(p.pid) else None)
        && Values(procs) == if Runnable(p) then old(Values(procs))[head := Resumed(p)] else old(Values(procs))
    {
      hide PickFrom;
      SwitchToNext();
      if current != null {
        ResumeAt(head);
      }
    }

    method ResumeAt(i: nat)
      requires Valid() && i < |procs| && Runnable(procs[i].Now())
      modifies procs
      ensures Values(procs) == old(Values(procs))[i := Resumed(old(procs[i].Now()))]
    {
      procs[i].Resume();
    }

    /** `scheduler_notify_parent`. */
    method NotifyParent(child: Process)
      requires Valid()
      modifies procs
      ensures Values(procs) == Notify(old(Values(procs)), old(child.Now()))
    {
      hide Find;
      if child.parent == 0 { return; }
      var i := GetProc(child.parent);
      if i == |procs| { return; }
      var parent := procs[i];
      if parent.status == Blocked && parent.waitingFor == child.pid {
        parent.status := Ready;
        parent.waitingFor := 0;
      }
    }

    /** The end of `elf_load`: a new record in the table. */
    method AddProc(program: Program)
      requires Valid()
      modifies this`procs, this`nextPid
      ensures Valid() && Now() == Spawn(old(Now()), program)
      ensures current == old(current)
    {
      hide Find, LaidOut, Resumed, Values;
      var p := new Process(nextPid, if current != null then current.pid else 0, program);
      ParentBelow(this);
      ValuesAdded(procs, p);
      procs := procs + [p];
      nextPid := nextPid + 1;
    }

    /** `__syscall_exec`: none is a file that is not there or no program. */
    method ExecCall(program: Option<Program>)
      requires Valid()
      modifies this`procs, this`nextPid, procs
      ensures Valid() && Now() == Exec(old(Now()), program)
    {
      hide Find, Spawn, SetResult;
      var result: int := -1;
      if program.Some? {
        result := nextPid;
        AddProc(program.value);
      }
      CurrentPosition(this);
      if current != null {
        Answer(result);
      }
    }

    /** `__syscall_exit` and the yield that follows it. */
    method ExitCall(code: int)
      requires Valid() && current != null
      modifies this`head, this`current, procs
      ensures CurrentAt(old(Now())) < |old(Now()).procs|
      ensures Valid() && Now() == Exit(old(Now()), code)
    {
      hide Find, Notify, Core;
      CurrentPosition(this);
      ghost var i := CurrentAt(Now());
      current.status := Zombie;
      current.exitCode := code;
      assert Values(procs) == old(Values(procs))[i := current.Now()];
      NotifyParent(current);
      Dispatch();
    }

    /** The page fault handler and `scheduler_on_segfault`. */
    method SegfaultCall()
      requires Valid() && current != null
      modifies this`head, this`current, procs
      ensures CurrentAt(old(Now())) < |old(Now()).procs|
      ensures Valid() && Now() == Segfault(old(Now()))
    {
      hide Find, Notify, PickFrom, Segfault;
      CurrentPosition(this);
      SegfaultIs(Now());
      var child := current;
      DieOf(child, 139);
      SwitchAfterDeath();
    }

    /** The rest of `scheduler_on_segfault`. */
    method SwitchAfterDeath()
      requires Valid() && procs != []
      modifies this`head, this`current
      ensures Valid() && head == PickFrom(Values(procs), old(head) % |procs|, 0)
      ensures PidOf(current) == if Runnable(Values(procs)[head]) then Some(Values(procs)[head].pid) else None
    {
      hide PickFrom;
      current := null;
      head := head % |procs|;
      SwitchToNext();
    }

    /** The pick, and the switch without anything else. */
    method SwitchToNext()
      requires Valid() && procs != []
      modifies this`head, this`current
      ensures Valid() && head == PickFrom(Values(procs), old(head), 0)
      ensures PidOf(current) == if Runnable(Values(procs)[head]) then Some(Values(procs)[head].pid) else None
    {
      hide PickFrom;
      var found := PickNext();
      if found {
        current := procs[head];
      } else {
        current := null;
      }
    }

    /** The current process becomes a zombie and its parent is told, twice. */
    method DieOf(child: Process, code: int)
      requires Valid() && child == current
      modifies procs
      ensures CurrentAt(old(Now())) < |old(Now()).procs|
      ensures var dead := old(child.Now()).(status := Zombie, exitCode := code);
        Values(procs) == Notify(Notify(old(Values(procs))[CurrentAt(old(Now())) := dead], dead), dead)
    {
      hide Find, Notify;
      CurrentPosition(this);
      ghost var i := CurrentAt(Now());
      child.status := Zombie;
      child.exitCode := code;
      ghost var dead := child.Now();
      assert Values(procs) == old(Values(procs))[i := dead];
      NotifyParent(child);
      NotifyKeepsDead(old(Values(procs))[i := dead], dead, i);
      assert child.Now() == dead by { assert Values(procs)[i] == dead; }
      NotifyParent(child);
    }

    /** `scheduler_reap_child`: the record leaves the table. */
    method ReapAt(c: nat)
      requires Valid() && c < |procs| && current != procs[c]
      modifies this`procs
      ensures Valid() && Now() == old(Now()).(procs := Dropped(old(Now()).procs, c))
    {
      WithoutNow(this, c);
      hide Dropped;
      var kept: seq<Process> := procs[..c];
      var i := c;
      while i < |procs| - 1
        invariant c <= i <= |procs| - 1 && kept == procs[..c] + procs[c + 1..i + 1]
      {
        kept := kept + [procs[i + 1]];
        i := i + 1;
      }
      assert kept == procs[..c] + procs[c + 1..];
      assert forall k: nat :: k < |kept| ==> kept[k] == procs[if k < c then k else k + 1];
      procs := kept;
    }

    /** `__syscall_waitpid`. */
    method WaitpidCall(child: nat)
      requires Valid() && current != null
      modifies this`head, this`current, this`procs, procs
      ensures CurrentAt(old(Now())) < |old(Now()).procs|
      ensures Valid() && Now() == Waitpid(old(Now()), child)
    {
      hide Find, Core, Dropped;
      CurrentPosition(this);
      ParentBelow(this);
      var c := GetProc(child);
      if c == |procs| {
        Answer(-1);
      } else if procs[c].parent != current.pid {
        Answer(-2);
      } else if procs[c].status == Zombie {
        Answer(procs[c].exitCode);
        ReapAt(c);
      } else {
        Block(child);
        Dispatch();
      }
    }

    /** EAX of the current process. */
    method Answer(result: int)
      requires Valid() && current != null
      modifies current
      ensures CurrentAt(old(Now())) < |old(Now()).procs|
      ensures Now() == SetResult(old(Now()), CurrentAt(old(Now())), result)
    {
      hide Find;
      CurrentPosition(this);
      ghost var i := CurrentAt(Now());
      current.result := result;
      assert Values(procs) == old(Values(procs))[i := current.Now()];
    }

    method Block(child: nat)
      requires Valid() && current != null
      modifies procs
      ensures CurrentAt(old(Now())) < |old(Now()).procs|
      ensures var i := CurrentAt(old(Now()));
        var p := old(Values(procs))[i].(status := Blocked, waitingFor := child);
        Now() == old(Now()).(procs := old(Values(procs))[i := p])
    {
      hide Find;
      CurrentPosition(this);
      ghost var i := CurrentAt(Now());
      current.status := Blocked;
      current.waitingFor := child;
      assert Values(procs) == old(Values(procs))[i := current.Now()];
    }

    /** `__syscall_read` with `stdin_wait`. */
    method ReadCall()
      requires Valid() && current != null
      modifies this`head, this`current, this`reader, procs
      ensures CurrentAt(old(Now())) < |old(Now()).procs|
      ensures Valid() && Now() == Read(old(Now()))
    {
      hide Find, Core;
      CurrentPosition(this);
      ghost var i := CurrentAt(Now());
      current.status := Blocked;
      reader := current;
      assert Values(procs) == old(Values(procs))[i := current.Now()];
      Dispatch();
    }

    /** `stdin_flush` with `scheduler_wake_stdin`. */
    method FlushStdin()
      requires Valid()
      modifies this`reader, reader, procs
      ensures Valid() && Now() == Flush(old(Now()))
    {
      hide Find;
      if reader == null { return; }
      ReaderPosition(this);
      ghost var i := Find(Values(procs), reader.pid);
      Wake(reader, i);
      reader := null;
    }

    /** `scheduler_wake_stdin`: READY whatever the state was. */
    method Wake(p: Process, ghost i: nat)
      requires Valid() && (if i < |procs| then procs[i] == p else p !in procs)
      modifies p
      ensures Values(procs) == if i < |procs|
                               then old(Values(procs))[i := old(p.Now()).(status := Ready, input := true)]
                               else old(Values(procs))
    {
      p.input := true;
      p.status := Ready;
    }

    /** `__syscall_kill`. */
    method KillCall(pid: nat)
      requires Valid() && current != null && Runnable(current.Now()) && Find(Values(procs), pid) < |procs|
      modifies this`head, this`current, procs
      ensures CurrentAt(old(Now())) < |old(Now()).procs|
      ensures Valid() && Now() == Kill(old(Now()), pid)
    {
      hide Find, Core;
      CurrentPosition(this);
      var k := GetProc(pid);
      var caller := current;
      procs[k].status := Zombie;
      assert Values(procs) == old(Values(procs))[k := procs[k].Now()];
      if caller.status == Blocked || caller.status == Zombie {
        Dispatch();
      }
    }
  }

  /** The current process has a pid below the counter. */
  lemma ValuesAdded(procs: seq<Process>, p: Process)
    ensures Values(procs + [p]) == Values(procs) + [p.Now()]
  {
  }

  lemma ParentBelow(t: Table)
    requires t.Valid()
    ensures t.current != null ==> t.current.pid < t.nextPid && t.current.parent < t.current.pid
  {
  }

  lemma NotifyKeepsDead(procs: seq<Proc>, dead: Proc, i: nat)
    requires i < |procs| && procs[i] == dead && dead.status == Zombie
    ensures Notify(procs, dead)[i] == dead
  {
  }

  lemma WithoutNow(t: Table, c: nat)
    requires c < |t.procs|
    ensures Dropped(Values(t.procs), c) == Values(t.procs[..c] + t.procs[c + 1..])
  {
    var w := t.procs[..c] + t.procs[c + 1..];
    forall k: nat | k < |w| ensures Dropped(Values(t.procs), c)[k] == Values(w)[k] {
      assert w[k] == t.procs[if k < c then k else k + 1];
    }
  }

  /** The reader, when in the table, is found at its own position. */
  lemma ReaderPosition(t: Table)
    requires t.Valid() && t.reader != null
    ensures var i := Find(Values(t.procs), t.reader.pid);
      if i < |t.procs| then t.procs[i] == t.reader else t.reader !in t.procs
  {
    hide Find;
    var i := Find(Values(t.procs), t.reader.pid);
    if i < |t.procs| {
      assert Values(t.procs)[i] == t.procs[i].Now();
    } else {
      forall j: nat | j < |t.procs| ensures t.procs[j] != t.reader {
        assert Values(t.procs)[j].pid != t.reader.pid;
      }
    }
  }

  lemma SegfaultIs(s: State)
    requires CurrentAt(s) < |s.procs|
    ensures var dead := s.procs[CurrentAt(s)].(status := Zombie, exitCode := 139);
      var procs := Notify(Notify(s.procs[CurrentAt(s) := dead], dead), dead);
      var h := PickFrom(procs, s.head % |procs|, 0);
      |procs| == |s.procs|
      && Segfault(s) == s.(procs := procs, head := h,
         current := if Runnable(procs[h]) then Some(procs[h].pid) else None)
  {
    hide Find, Notify, PickFrom;
  }

  /** The core step, case by case. */
  lemma CoreIs(s: State)
    ensures s.procs == [] ==> Core(s) == s
    ensures s.procs != [] ==>
              var h := PickFrom(s.procs, SearchFrom(s), 0);
              var p := s.procs[h];
              && (!Runnable(p) ==> Core(s) == s.(head := h, current := None))
              && (Runnable(p) ==>
                    Core(s) == s.(procs := s.procs[h := Resumed(p)], head := h, current := Some(p.pid)))
  {
    hide PickFrom, Find;
  }

  lemma FindHere(procs: seq<Proc>, pid: nat, i: nat)
    requires i <= |procs| && (i < |procs| ==> procs[i].pid == pid) && forall j: nat :: j < i ==> procs[j].pid != pid
    ensures Find(procs, pid) == i
  {
    hide Find;
  }

  /** The current process is found at its own position. */
  lemma CurrentPosition(t: Table)
    requires t.Valid()
    ensures t.current == null ==> CurrentAt(t.Now()) == |t.procs|
    ensures t.current != null ==> CurrentAt(t.Now()) < |t.procs| && t.procs[CurrentAt(t.Now())] == t.current
  {
    hide Find;
    if t.current != null {
      var i :| 0 <= i < |t.procs| && t.procs[i] == t.current;
      FindHere(Values(t.procs), t.current.pid, i);
    }
  }
}
