/** What a descriptor lets its process do: the flags it was opened with decide, from
    the open to the close, whatever all processes open and close meanwhile. */
module DescriptorAccess {
  import opened Options
  import opened FileDescriptors

  /** Bit 0 is read only, bit 1 write only, bit 2 both. */
  predicate MayRead(flags: nat) {
    flags % 2 == 1 || flags / 4 % 2 == 1
  }

  predicate MayWrite(flags: nat) {
    flags / 2 % 2 == 1 || flags / 4 % 2 == 1
  }

  /** The node that `proc_fd_read_file` reads; none is its error return. */
  function ReadNode(s: State, p: nat, fd: nat): Option<nat>
    requires p < |s.procs| && fd < |s.procs[p]|
  {
    match s.procs[p][fd]
    case None => None
    case Some(d) => if MayRead(d.flags) then NodeAt(s.slots, d.slot) else None
  }

  /** The node that `proc_fd_write_file` writes. */
  function WriteNode(s: State, p: nat, fd: nat): Option<nat>
    requires p < |s.procs| && fd < |s.procs[p]|
  {
    match s.procs[p][fd]
    case None => None
    case Some(d) => if MayWrite(d.flags) then NodeAt(s.slots, d.slot) else None
  }

  function NodeAt(slots: seq<Option<OpenFile>>, g: nat): Option<nat> {
    if g < |slots| && slots[g].Some? then Some(slots[g].value.node) else None
  }

  /** Number `fd` of process `p` is open on `node` with `flags`. */
  predicate OpenOn(s: State, p: nat, fd: nat, node: nat, flags: nat) {
    && p < |s.procs| && fd < |s.procs[p]| && s.procs[p][fd].Some?
    && s.procs[p][fd].value.flags == flags && NodeAt(s.slots, s.procs[p][fd].value.slot) == Some(node)
  }

  /** open gives the lowest free number from 3 to 15, open on the node with the flags
      given, or none exactly when all are taken; a node nobody has open is write-locked
      unless the flags say read only. */
  lemma OpenGives(s: State, p: nat, node: nat, flags: nat)
    requires Inv(s) && p < |s.procs|
    ensures var (t, fd) := Open(s, p, node, flags);
      && (fd == 16 <==> forall i :: 3 <= i < 16 ==> s.procs[p][i].Some?)
      && (fd != 16 ==>
            && 3 <= fd < 16 && s.procs[p][fd] == None && (forall i :: 3 <= i < fd ==> s.procs[p][i].Some?)
            && OpenOn(t, p, fd, node, flags)
            && ((forall g: nat :: NodeAt(s.slots, g) != Some(node)) ==>
                  t.slots[t.procs[p][fd].value.slot].value == OpenFile(node, 1, flags % 2 == 0)))
  {
    hide AllNames, SlotFor, FreeFd;
    OpenKeeps(s, p, node, flags);
    var fd := FreeFd(s.procs[p], FIRST_FD);
    if fd < MAX_FDS && forall g: nat :: NodeAt(s.slots, g) != Some(node) {
      SlotMade(s, node, flags % 2 == 1);
    }
  }

  lemma SlotMade(s: State, node: nat, readOnly: bool)
    requires forall g: nat :: NodeAt(s.slots, g) != Some(node)
    ensures var (slots, g) := SlotFor(s.slots, node, readOnly); slots[g] == Some(OpenFile(node, 0, !readOnly))
  {
    var f := FindNode(s.slots, node, 0);
    assert f < |s.slots| ==> NodeAt(s.slots, f) == Some(node);
  }

  lemma OpenSpares(s: State, q: nat, other: nat, how: nat, p: nat, fd: nat, node: nat, flags: nat)
    requires Inv(s) && OpenOn(s, p, fd, node, flags) && q < |s.procs|
    ensures OpenOn(Open(s, q, other, how).0, p, fd, node, flags)
  {
    hide AllNames, SlotFor, FreeFd;
    OpenKeeps(s, q, other, how);
    SlotForIs(s, other, how % 2 == 1);
    var (t, n) := Open(s, q, other, how);
    var g := s.procs[p][fd].value.slot;
    if n < MAX_FDS {
      var (slots, at) := SlotFor(s.slots, other, how % 2 == 1);
      assert slots[g].Some? && slots[g].value.node == node;
      assert t.slots == WithRefs(slots, at, slots[at].value.refs + 1);
    }
  }

  lemma CloseSpares(s: State, q: nat, n: nat, p: nat, fd: nat, node: nat, flags: nat)
    requires Inv(s) && OpenOn(s, p, fd, node, flags) && q < |s.procs| && n < |s.procs[q]| && s.procs[q][n].Some?
    requires !(q == p && n == fd)
    ensures OpenOn(Close(s, q, n), p, fd, node, flags)
  {
    hide AllNames;
    CloseKeeps(s, q, n);
    var t := Close(s, q, n);
    var g := s.procs[p][fd].value.slot;
    assert t.procs[p][fd] == s.procs[p][fd];
    NamedSomewhere(t.procs, p, fd, g);
    assert SlotOk(t, g);
  }

  lemma NewSpares(s: State, p: nat, fd: nat, node: nat, flags: nat)
    requires OpenOn(s, p, fd, node, flags)
    ensures OpenOn(NewProcess(s), p, fd, node, flags)
  {
  }

  lemma {:induction false} StaysOpen(s: State, ops: seq<Op>, t: State, p: nat, fd: nat, node: nat, flags: nat)
    requires Inv(s) && Runs(s, ops, t) && OpenOn(s, p, fd, node, flags) && CloseOp(p, fd) !in ops
    ensures OpenOn(t, p, fd, node, flags)
    decreases |ops|
  {
    hide OpenOn, Inv, Open, Close, NewProcess;
    if ops != [] {
      var m := Step(s, ops[0]);
      ProcsOk(s);
      match ops[0] {
        case OpenOp(q, other, how) =>
          OpenKeeps(s, q, other, how);
          OpenSpares(s, q, other, how, p, fd, node, flags);
        case CloseOp(q, n) =>
          CloseKeeps(s, q, n);
          CloseSpares(s, q, n, p, fd, node, flags);
        case NewOp =>
          NewProcessKeeps(s);
          NewSpares(s, p, fd, node, flags);
      }
      StaysOpen(m, ops[1..], t, p, fd, node, flags);
    }
  }

  lemma ProcsOk(s: State)
    requires Inv(s)
    ensures forall p: nat :: p < |s.procs| ==> |s.procs[p]| == MAX_FDS
  {
    hide AllNames;
  }

  /** From an open on, over every run without its close, the number reads the node if
      and only if the flags given say so, and writes it likewise. */
  lemma FlagsDecide(s: State, p: nat, node: nat, flags: nat, ops: seq<Op>, t: State)
    requires Inv(s) && p < |s.procs| && Open(s, p, node, flags).1 != 16
    requires Runs(Open(s, p, node, flags).0, ops, t) && CloseOp(p, Open(s, p, node, flags).1) !in ops
    ensures var fd := Open(s, p, node, flags).1;
      && p < |t.procs| && fd < |t.procs[p]|
      && ReadNode(t, p, fd) == (if MayRead(flags) then Some(node) else None)
      && WriteNode(t, p, fd) == (if MayWrite(flags) then Some(node) else None)
  {
    hide Inv, Open, MayRead, MayWrite, NodeAt, Runs;
    ProcsOk(s);
    OpenGives(s, p, node, flags);
    OpenKeeps(s, p, node, flags);
    StaysOpen(Open(s, p, node, flags).0, ops, t, p, Open(s, p, node, flags).1, node, flags);
  }

  /** After its close it does neither. */
  lemma ClosedIsShut(s: State, p: nat, fd: nat)
    requires Inv(s) && p < |s.procs| && fd < 16 && s.procs[p][fd].Some?
    ensures var t := Close(s, p, fd);
      |t.procs| == |s.procs| && |t.procs[p]| == 16 && ReadNode(t, p, fd) == None == WriteNode(t, p, fd)
  {
    hide AllNames;
    CloseKeeps(s, p, fd);
  }
}
