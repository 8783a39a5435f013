/** Descriptors: one global table of open files with reference counts, and each
    process's own table of numbers that name its slots. */
module FileDescriptors {
  import opened Options

  const MAX_FDS: nat := 16
  const FIRST_FD: nat := 3

  datatype OpenFile = OpenFile(node: nat, refs: nat, writeLock: bool)

  datatype Local = Local(slot: nat, flags: nat)

  type Fds = seq<Option<Local>>

  datatype State = State(slots: seq<Option<OpenFile>>, procs: seq<Fds>)

  // ----- counting

  function Names(fds: Fds, g: nat): nat {
    if fds == [] then 0 else Names(fds[..|fds| - 1], g) + if fds[|fds| - 1].Some?
        && fds[|fds| - 1].value.slot == g then 1 else 0
  }

  /** How many descriptors of all processes name slot `g`. */
  function AllNames(procs: seq<Fds>, g: nat): nat {
    if procs == [] then 0 else AllNames(procs[..|procs| - 1], g) + Names(procs[|procs| - 1], g)
  }

  function One(d: Option<Local>, g: nat): nat {
    if d.Some? && d.value.slot == g then 1 else 0
  }

  lemma {:induction false} NamesUpdated(fds: Fds, i: nat, d: Option<Local>, g: nat)
    requires i < |fds|
    ensures Names(fds[i := d], g) + One(fds[i], g) == Names(fds, g) + One(d, g)
    decreases |fds|
  {
    var n := |fds| - 1;
    if i < n {
      NamesUpdated(fds[..n], i, d, g);
      assert fds[i := d][..n] == fds[..n][i := d];
    } else {
      assert fds[i := d][..n] == fds[..n];
    }
  }

  lemma {:induction false} AllNamesUpdated(procs: seq<Fds>, p: nat, i: nat, d: Option<Local>, g: nat)
    requires p < |procs| && i < |procs[p]|
    ensures AllNames(procs[p := procs[p][i := d]], g) + One(procs[p][i], g) == AllNames(procs, g) + One(d, g)
    decreases |procs|
  {
    var n := |procs| - 1;
    if p < n {
      AllNamesUpdated(procs[..n], p, i, d, g);
      assert procs[p := procs[p][i := d]][..n] == procs[..n][p := procs[p][i := d]];
    } else {
      NamesUpdated(procs[p], i, d, g);
      assert procs[p := procs[p][i := d]][..n] == procs[..n];
    }
  }

  lemma {:induction false} NamedOnce(fds: Fds, i: nat, g: nat)
    requires i < |fds| && One(fds[i], g) == 1
    ensures Names(fds, g) >= 1
    decreases |fds|
  {
    if i < |fds| - 1 { NamedOnce(fds[..|fds| - 1], i, g); }
  }

  lemma {:induction false} NamedSomewhere(procs: seq<Fds>, p: nat, i: nat, g: nat)
    requires p < |procs| && i < |procs[p]| && One(procs[p][i], g) == 1
    ensures AllNames(procs, g) >= 1
    decreases |procs|
  {
    if p < |procs| - 1 { NamedSomewhere(procs[..|procs| - 1], p, i, g); } else { NamedOnce(procs[p], i, g); }
  }

  // ----- the invariant

  /** Slot `g`: its count is the number of descriptors naming it, and it is empty
      exactly when that number is 0. */
  predicate SlotOk(s: State, g: nat) {
    if g < |s.slots| && s.slots[g].Some? then s.slots[g].value.refs == AllNames(s.procs, g) > 0
    else AllNames(s.procs, g) == 0
  }

  ghost predicate Inv(s: State) {
    && (forall g: nat :: SlotOk(s, g))
    && (forall g: nat, h: nat :: g < h < |s.slots| && s.slots[g].Some? && s.slots[h].Some? ==>
          s.slots[g].value.node != s.slots[h].value.node)
    && (forall p: nat :: p < |s.procs| ==> |s.procs[p]| == MAX_FDS)
  }

  // ----- the operations

  /** `fd_find_by_node`; the length for none. */
  function FindNode(slots: seq<Option<OpenFile>>, node: nat, i: nat): (g: nat)
    requires i <= |slots|
    ensures i <= g <= |slots| && (g < |slots| ==> slots[g].Some? && slots[g].value.node == node)
    ensures forall j: nat :: i <= j < g ==> !(slots[j].Some? && slots[j].value.node == node)
    decreases |slots| - i
  {
    if i == |slots| || (slots[i].Some? && slots[i].value.node == node) then i else FindNode(slots, node, i + 1)
  }

  /** The first empty slot; the length for none. */
  function FirstEmpty(slots: seq<Option<OpenFile>>, i: nat): (g: nat)
    requires i <= |slots|
    ensures i <= g <= |slots| && (g < |slots| ==> slots[g] == None)
    ensures forall j: nat :: i <= j < g ==> slots[j].Some?
    decreases |slots| - i
  {
    if i == |slots| || slots[i] == None then i else FirstEmpty(slots, i + 1)
  }

  /** `fd_add`: into the first empty slot, or behind the last. */
  function AddSlot(slots: seq<Option<OpenFile>>, f: OpenFile): (r: (seq<Option<OpenFile>>, nat))
    ensures r.1 < |r.0| && r.0[r.1] == Some(f)
  {
    var g := FirstEmpty(slots, 0);
    (if g < |slots| then slots[g := Some(f)] else slots + [Some(f)], g)
  }

  /** The process's first free number from 3 on; 16 for none. */
  function FreeFd(fds: Fds, i: nat): (fd: nat)
    requires i <= MAX_FDS == |fds|
    ensures i <= fd <= MAX_FDS && (fd < MAX_FDS ==> fds[fd] == None)
    ensures forall j: nat :: i <= j < fd ==> fds[j].Some?
    decreases MAX_FDS - i
  {
    if i == MAX_FDS || fds[i] == None then i else FreeFd(fds, i + 1)
  }

  /** The slot a node is opened in, made if need be. */
  function SlotFor(slots: seq<Option<OpenFile>>, node: nat, readOnly: bool): (r: (seq<Option<OpenFile>>, nat))
    ensures r.1 < |r.0| && r.0[r.1].Some?
  {
    var g := FindNode(slots, node, 0);
    if g < |slots| then (slots, g) else AddSlot(slots, OpenFile(node, 0, !readOnly))
  }

  function WithRefs(slots: seq<Option<OpenFile>>, g: nat, refs: nat): (r: seq<Option<OpenFile>>)
    requires g < |slots| && slots[g].Some?
    ensures |r| == |slots|
  {
    slots[g := Some(slots[g].value.(refs := refs))]
  }

  /** `proc_alloc_fd`: the descriptor, or 16 where the code returns -1. */
  function Open(s: State, p: nat, node: nat, flags: nat): (r: (State, nat))
    requires p < |s.procs| && |s.procs[p]| == MAX_FDS
  {
    var fd := FreeFd(s.procs[p], FIRST_FD);
    if fd == MAX_FDS then (s, fd)
    else
      var (slots, g) := SlotFor(s.slots, node, flags % 2 == 1);
      (State(WithRefs(slots, g, slots[g].value.refs + 1), s.procs[p := s.procs[p][fd := Some(Local(g, flags))]]), fd)
  }

  /** `proc_close_fd` of an open descriptor. */
  function Close(s: State, p: nat, fd: nat): State
    requires p < |s.procs| && fd < |s.procs[p]| && s.procs[p][fd].Some?
  {
    var g := s.procs[p][fd].value.slot;
    if g >= |s.slots| || s.slots[g] == None then s
    else
      var refs := s.slots[g].value.refs;
      var slots := if refs == 1 then s.slots[g := None]
        else WithRefs(s.slots, g, if refs > 0 then refs - 1 else 0xFFFF_FFFF);
      State(slots, s.procs[p := s.procs[p][fd := None]])
  }

  function NewProcess(s: State): State {
    s.(procs := s.procs + [seq(MAX_FDS, _ => None)])
  }

  // ----- what they keep

  /** In the slots after `SlotFor` node `node` is at `g`, and only there; everything
      else is as before, a new slot with no references. */
  lemma SlotForIs(s: State, node: nat, readOnly: bool)
    requires Inv(s)
    ensures var (slots, g) := SlotFor(s.slots, node, readOnly);
      && slots[g].value.node == node && slots[g].value.refs == AllNames(s.procs, g)
      && |slots| >= |s.slots| && (g < |s.slots| && s.slots[g].Some? ==> slots[g] == s.slots[g])
      && (forall h: nat :: h != g ==> (h < |slots| <==> h < |s.slots|) && (h < |slots| ==> slots[h] == s.slots[h]))
      && (forall h: nat :: h < |slots| && h != g && slots[h].Some? ==> slots[h].value.node != node)
  {
    hide AllNames;
    var f := FindNode(s.slots, node, 0);
    if f < |s.slots| {
      assert SlotOk(s, f);
    } else {
      assert SlotOk(s, FirstEmpty(s.slots, 0));
    }
  }

  lemma OpenKeeps(s: State, p: nat, node: nat, flags: nat)
    requires Inv(s) && p < |s.procs|
    ensures var (t, fd) := Open(s, p, node, flags);
      && Inv(t) && (fd < MAX_FDS ==> FIRST_FD <= fd && t.procs[p][fd].Some? && s.procs[p][fd] == None)
      && (fd == MAX_FDS ==> t == s)
      && (fd < MAX_FDS ==>
            var g := t.procs[p][fd].value.slot;
            g < |t.slots| && t.slots[g].Some? && t.slots[g].value.node == node)
  {
    hide AllNames, SlotFor, FreeFd;
    var fd := FreeFd(s.procs[p], FIRST_FD);
    if fd < MAX_FDS {
      SlotForIs(s, node, flags % 2 == 1);
      var (t, _) := Open(s, p, node, flags);
      var g := SlotFor(s.slots, node, flags % 2 == 1).1;
      forall h: nat ensures SlotOk(t, h) {
        assert SlotOk(s, h);
        AllNamesUpdated(s.procs, p, fd, Some(Local(g, flags)), h);
      }
    }
  }

  lemma CloseKeeps(s: State, p: nat, fd: nat)
    requires Inv(s) && p < |s.procs| && fd < MAX_FDS && s.procs[p][fd].Some?
    ensures var t := Close(s, p, fd); Inv(t) && t.procs == s.procs[p := s.procs[p][fd := None]]
  {
    hide AllNames;
    var g := s.procs[p][fd].value.slot;
    NamedSomewhere(s.procs, p, fd, g);
    assert SlotOk(s, g);
    var t := Close(s, p, fd);
    forall h: nat ensures SlotOk(t, h) {
      assert SlotOk(s, h);
      AllNamesUpdated(s.procs, p, fd, None, h);
    }
  }

  lemma {:induction false} NoneNamed(n: nat, g: nat)
    ensures Names(seq(n, _ => None), g) == 0
  {
    if n > 0 {
      NoneNamed(n - 1, g);
      var fds: Fds := seq(n, _ => None);
      assert fds[..n - 1] == seq(n - 1, _ => None);
    }
  }

  lemma NewProcessKeeps(s: State)
    requires Inv(s)
    ensures Inv(NewProcess(s))
  {
    var t := NewProcess(s);
    forall g: nat ensures SlotOk(t, g) {
      assert SlotOk(s, g);
      NoneNamed(MAX_FDS, g);
      assert t.procs[..|t.procs| - 1] == s.procs;
    }
  }

  // ----- every run

  datatype Op = OpenOp(p: nat, node: nat, flags: nat) | CloseOp(p: nat, fd: nat) | NewOp

  predicate Allowed(s: State, op: Op) {
    match op
    case OpenOp(p, _, _) => p < |s.procs| && |s.procs[p]| == MAX_FDS
    case CloseOp(p, fd) => p < |s.procs| && fd < |s.procs[p]| && s.procs[p][fd].Some?
    case NewOp => true
  }

  function Step(s: State, op: Op): State
    requires Allowed(s, op)
  {
    match op
    case OpenOp(p, node, flags) => Open(s, p, node, flags).0
    case CloseOp(p, fd) => Close(s, p, fd)
    case NewOp => NewProcess(s)
  }

  ghost predicate Runs(s: State, ops: seq<Op>, t: State)
    decreases |ops|
  {
    if ops == [] then t == s else Allowed(s, ops[0]) && Runs(Step(s, ops[0]), ops[1..], t)
  }

  lemma {:induction false} EveryRunCounts(s: State, ops: seq<Op>, t: State)
    requires Inv(s) && Runs(s, ops, t)
    ensures Inv(t)
    decreases |ops|
  {
    hide AllNames, Names;
    if ops != [] {
      match ops[0] {
        case OpenOp(p, node, flags) => OpenKeeps(s, p, node, flags);
        case CloseOp(p, fd) => CloseKeeps(s, p, fd);
        case NewOp => NewProcessKeeps(s);
      }
      hide Inv, Step, Allowed;
      EveryRunCounts(Step(s, ops[0]), ops[1..], t);
    }
  }

  /** After any run of opens and closes from empty tables, each slot counts the
      descriptors that name it and is empty when there are none. */
  lemma ReferencesCounted(ops: seq<Op>, t: State, g: nat)
    requires Runs(State([], []), ops, t)
    ensures SlotOk(t, g)
  {
    forall h: nat ensures SlotOk(State([], []), h) {}
    EveryRunCounts(State([], []), ops, t);
  }

  // ----- opening and closing again

  /** Slot `g` holds the same file, or nothing, in both tables. */
  predicate SameSlot(a: seq<Option<OpenFile>>, b: seq<Option<OpenFile>>, g: nat) {
    (if g < |a| then a[g] else None) == (if g < |b| then b[g] else None)
  }

  /** Closing what was just opened undoes it; a table that grew keeps its length. */
  lemma CloseUndoesOpen(s: State, p: nat, node: nat, flags: nat)
    requires Inv(s) && p < |s.procs|
    ensures var (t, fd) := Open(s, p, node, flags);
      fd < MAX_FDS ==>
        && t.procs[p][fd].Some? && Close(t, p, fd).procs == s.procs
        && forall g: nat :: SameSlot(Close(t, p, fd).slots, s.slots, g)
  {
    hide AllNames, SlotFor, FreeFd;
    var (t, fd) := Open(s, p, node, flags);
    if fd < MAX_FDS {
      OpenKeeps(s, p, node, flags);
      SlotForIs(s, node, flags % 2 == 1);
      var g := t.procs[p][fd].value.slot;
      assert SlotOk(s, g);
      assert s.procs[p][fd := None] == s.procs[p];
      assert t.procs == s.procs[p := s.procs[p][fd := t.procs[p][fd]]];
      assert t.procs[p][fd := None] == s.procs[p][fd := None];
      assert t.procs[p := s.procs[p]] == s.procs;
      var (slots, at) := SlotFor(s.slots, node, flags % 2 == 1);
      assert g == at && t.slots == WithRefs(slots, at, slots[at].value.refs + 1);
      forall h: nat ensures SameSlot(Close(t, p, fd).slots, s.slots, h) {
        if h != g && h < |t.slots| { assert slots[h] == t.slots[h]; }
      }
    }
  }

  // ----- a process that goes

  /** One process, nothing open. */
  function OneProcess(): State {
    NewProcess(State([], []))
  }

  /** It opens a file and goes: the file's slot counts one descriptor that no process
      has, and stays taken. */
  lemma OpenFileOutlives(node: nat, flags: nat)
    ensures Inv(OneProcess())
    ensures var t := Open(OneProcess(), 0, node, flags).0;
      && t.slots != [] && t.slots[0].Some? && t.slots[0].value.refs == 1 && |t.procs| == 1
      && !Inv(State(t.slots, []))
  {
    var s := OneProcess();
    forall g: nat ensures SlotOk(s, g) { NoneNamed(MAX_FDS, g); }
    var t := Open(s, 0, node, flags).0;
    assert AllNames([], 0) == 0;
    assert !SlotOk(State(t.slots, []), 0);
  }

  /** `proc_destroy` releases no descriptor: the counts stay right exactly when the
      process had none open. */
  lemma DestroyKeepsExactly(s: State, p: nat)
    requires Inv(s) && p < |s.procs|
    ensures Inv(State(s.slots, s.procs[..p] + s.procs[p + 1..])) <==>
              forall i: nat :: i < MAX_FDS ==> s.procs[p][i] == None
  {
    var t := State(s.slots, s.procs[..p] + s.procs[p + 1..]);
    forall g: nat ensures AllNames(t.procs, g) + Names(s.procs[p], g) == AllNames(s.procs, g) {
      AllNamesWithout(s.procs, p, g);
    }
    if forall i: nat :: i < MAX_FDS ==> s.procs[p][i] == None {
      forall g: nat ensures SlotOk(t, g) {
        assert SlotOk(s, g);
        NoneNamed(MAX_FDS, g);
        assert s.procs[p] == seq(MAX_FDS, _ => None);
      }
    } else {
      var i: nat :| i < MAX_FDS && s.procs[p][i] != None;
      var g := s.procs[p][i].value.slot;
      NamedOnce(s.procs[p], i, g);
      assert SlotOk(s, g) && !SlotOk(t, g);
    }
  }

  lemma {:induction false} AllNamesWithout(procs: seq<Fds>, p: nat, g: nat)
    requires p < |procs|
    ensures AllNames(procs[..p] + procs[p + 1..], g) + Names(procs[p], g) == AllNames(procs, g)
    decreases |procs|
  {
    var n := |procs| - 1;
    var w := procs[..p] + procs[p + 1..];
    if p < n {
      AllNamesWithout(procs[..n], p, g);
      assert w[..|w| - 1] == procs[..n][..p] + procs[..n][p + 1..];
    } else {
      assert w == procs[..n];
    }
  }

  // ----- the tables in place

  class Entry {
    const node: nat
    const writeLock: bool
    var refs: nat

    constructor (node: nat, writeLock: bool)
      ensures this.node == node && this.writeLock == writeLock && refs == 0
    {
      this.node, this.writeLock, this.refs := node, writeLock, 0;
    }
  }

  function Values(slots: seq<Entry?>): (r: seq<Option<OpenFile>>)
    reads slots
    ensures |r| == |slots|
    ensures forall g: nat :: g < |slots| ==>
              r[g] == if slots[g] == null then None
                      else Some(OpenFile(slots[g].node, slots[g].refs, slots[g].writeLock))
  {
    seq(|slots|, g requires 0 <= g < |slots| reads slots =>
      if slots[g] == null then None else Some(OpenFile(slots[g].node, slots[g].refs, slots[g].writeLock)))
  }

  /** The global table `__fd_table`. */
  class Table {
    var slots: seq<Entry?>

    ghost predicate Valid()
      reads this
    {
      forall g: nat, h: nat :: g < h < |slots| && slots[g] != null ==> slots[g] != slots[h]
    }

    /** `fd_find_by_node`; the length for -1. */
    method FindByNode(node: nat) returns (g: nat)
      ensures g == FindNode(Values(slots), node, 0)
    {
      g := 0;
      while g < |slots|
        invariant g <= |slots| && FindNode(Values(slots), node, 0) == FindNode(Values(slots), node, g)
      {
        if slots[g] != null && slots[g].node == node { return; }
        g := g + 1;
      }
    }

    /** `fd_new` with `fd_add`. */
    method Add(node: nat, readOnly: bool) returns (g: nat)
      requires Valid()
      modifies this
      ensures Valid() && (Values(slots), g) == AddSlot(old(Values(slots)), OpenFile(node, 0, !readOnly))
      ensures fresh(slots[g])
    {
      var entry := new Entry(node, !readOnly);
      g := 0;
      while g < |slots|
        invariant g <= |slots| && FirstEmpty(Values(slots), 0) == FirstEmpty(Values(slots), g)
        invariant slots == old(slots) && Values(slots) == old(Values(slots))
      {
        if slots[g] == null {
          slots := slots[g := entry];
          assert Values(slots) == old(Values(slots))[g := Some(OpenFile(node, 0, !readOnly))];
          return;
        }
        g := g + 1;
      }
      slots := slots + [entry];
      assert Values(slots) == old(Values(slots)) + [Some(OpenFile(node, 0, !readOnly))];
    }

    /** The node's slot, found or made, gains a reference. */
    method Reference(node: nat, readOnly: bool) returns (g: nat)
      requires Valid()
      modifies this, slots
      ensures Valid()
      ensures var (s, at) := SlotFor(old(Values(slots)), node, readOnly);
        g == at && Values(slots) == WithRefs(s, at, s[at].value.refs + 1)
    {
      g := FindByNode(node);
      if g == |slots| { g := Add(node, readOnly); }
      ghost var s := Values(slots);
      slots[g].refs := slots[g].refs + 1;
      assert Values(slots) == WithRefs(s, g, s[g].value.refs + 1);
    }

    /** `proc_alloc_fd` on a process's own numbers; 16 for -1. */
    method OpenFd(fds: array<Option<Local>>, node: nat, flags: nat) returns (fd: nat)
      requires Valid() && fds.Length == MAX_FDS
      modifies this, slots, fds
      ensures Valid()
      ensures (State(Values(slots), [fds[..]]), fd) == Open(State(old(Values(slots)), [old(fds[..])]), 0, node, flags)
    {
      fd := FIRST_FD;
      while fd < MAX_FDS
        invariant FIRST_FD <= fd <= MAX_FDS && FreeFd(fds[..], FIRST_FD) == FreeFd(fds[..], fd)
        invariant slots == old(slots) && Values(slots) == old(Values(slots)) && fds[..] == old(fds[..]) && Valid()
        decreases MAX_FDS - fd
      {
        if fds[fd] == None {
          var g := Reference(node, flags % 2 == 1);
          fds[fd] := Some(Local(g, flags));
          assert [fds[..]] == [old(fds[..])][0 := old(fds[..])[fd := Some(Local(g, flags))]];
          return;
        }
        fd := fd + 1;
      }
    }

    /** `proc_close_fd` with `fd_remove`. */
    method CloseFd(fds: array<Option<Local>>, fd: nat)
      requires Valid() && fd < fds.Length && fds[fd].Some?
      modifies this, slots, fds
      ensures Valid()
      ensures State(Values(slots), [fds[..]]) == Close(State(old(Values(slots)), [old(fds[..])]), 0, fd)
    {
      var g := fds[fd].value.slot;
      if g >= |slots| || slots[g] == null { return; }
      var entry := slots[g];
      entry.refs := if entry.refs > 0 then entry.refs - 1 else 0xFFFF_FFFF;
      assert Values(slots) == WithRefs(old(Values(slots)), g, entry.refs);
      if entry.refs == 0 {
        slots := slots[g := null];
        assert Values(slots) == old(Values(slots))[g := None];
      }
      fds[fd] := None;
    }
  }
}
