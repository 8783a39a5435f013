/** The keyboard line buffer: editing, handing over on Enter, and the later copy
    out of the same buffer when the reader is dispatched. */
module StdinLines {
  import opened Options

  const STDIN_MAX: nat := 512

  datatype Key = Char(c: char) | Backspace

  /** The buffer, how much of it is the line being typed, whether someone reads, and
      the length handed over but not yet copied. */
  datatype State = State(buf: seq<char>, len: nat, reading: bool, handed: Option<nat>)

  predicate Valid(s: State) {
    |s.buf| == STDIN_MAX && s.len < STDIN_MAX && (s.handed.Some? ==> s.handed.value < STDIN_MAX)
  }

  /** `stdin_put` and `stdin_pop`. */
  function Press(s: State, key: Key): (t: State)
    requires Valid(s)
    ensures Valid(t)
  {
    match key
    case Char(c) => if s.len + 1 >= STDIN_MAX then s else s.(buf := s.buf[s.len := c], len := s.len + 1)
    case Backspace => if s.len == 0 then s else s.(len := s.len - 1)
  }

  function PressAll(s: State, keys: seq<Key>): (t: State)
    requires Valid(s)
    ensures Valid(t)
    decreases |keys|
  {
    if keys == [] then s else PressAll(Press(s, keys[0]), keys[1..])
  }

  /** `stdin_flush`: the reader gets the buffer's address and the length, which
      passes through eight bits. */
  function Enter(s: State): (t: State)
    requires Valid(s)
    ensures Valid(t)
  {
    if s.reading then s.(len := 0, reading := false, handed := Some(s.len % 256)) else s
  }

  /** `__sched_flush_proc_bufs` for the reader: what is copied to it. */
  function Deliver(s: State): (r: (State, Option<string>))
    requires Valid(s)
  {
    if s.handed.Some? then (s.(handed := None), Some(s.buf[..s.handed.value])) else (s, None)
  }

  function Line(s: State): string
    requires Valid(s)
  {
    s.buf[..s.len]
  }

  /** What a keyboard line should be: characters added at the end while there is
      room, Backspace taking the last away. */
  function Edited(line: string, keys: seq<Key>): string
    decreases |keys|
  {
    if keys == [] then line
    else
      var next := match keys[0]
        case Char(c) => if |line| + 1 >= 512 then line else line + [c]
        case Backspace => if line == "" then line else line[..|line| - 1];
      Edited(next, keys[1..])
  }

  lemma {:induction false} LineIsEdited(s: State, keys: seq<Key>)
    requires Valid(s)
    ensures Line(PressAll(s, keys)) == Edited(Line(s), keys)
    ensures PressAll(s, keys).handed == s.handed && PressAll(s, keys).reading == s.reading
    decreases |keys|
  {
    if keys != [] {
      var t := Press(s, keys[0]);
      LineIsEdited(t, keys[1..]);
      match keys[0] {
        case Char(c) => if s.len + 1 < STDIN_MAX { assert Line(t) == Line(s) + [c]; }
        case Backspace => if s.len > 0 { assert Line(t) == Line(s)[..|Line(s)| - 1]; }
      }
    }
  }

  /** With a reader waiting and no key between Enter and the copy, the reader gets
      the front of the edited line, characters typed before the read included; all
      of it exactly when it is below 256 long. The next line starts empty. */
  lemma EnterDelivers(s: State, keys: seq<Key>)
    requires Valid(s) && s.reading
    ensures var line, t := Edited(Line(s), keys), Enter(PressAll(s, keys));
      && Deliver(t).1 == Some(line[..|line| % 256])
      && (Deliver(t).1 == Some(line) <==> |line| < 256)
      && Line(Deliver(t).0) == ""
  {
    hide PressAll, Edited;
    LineIsEdited(s, keys);
    var t := PressAll(s, keys);
    Front(t.buf, t.len, t.len % 256);
    assert t.len % 256 == t.len <==> t.len < 256;
  }

  /** One Enter serves one read: until the next read Enter hands nothing over, and what
      is typed meanwhile is kept for it, Enter or not. */
  lemma EnterOnce(s: State, keys: seq<Key>)
    requires Valid(s) && s.reading
    ensures var t := Deliver(Enter(s)).0; var u := Enter(PressAll(t, keys));
      && Valid(t) && !t.reading && Line(t) == ""
      && Deliver(u).1 == None && Line(u) == Edited("", keys) && u == PressAll(t, keys)
  {
    hide PressAll, Edited;
    LineIsEdited(Deliver(Enter(s)).0, keys);
  }

  lemma Front(b: string, n: nat, k: nat)
    requires k <= n <= |b|
    ensures b[..n][..k] == b[..k] && (b[..k] == b[..n] <==> k == n)
  {
    if k < n { assert |b[..k]| != |b[..n]|; }
  }

  function Chars(cs: string): (keys: seq<Key>)
    ensures |keys| == |cs|
  {
    seq(|cs|, i requires 0 <= i < |cs| => Char(cs[i]))
  }

  lemma {:induction false} TypedOver(s: State, cs: string)
    requires Valid(s) && s.len + |cs| < STDIN_MAX
    ensures var t := PressAll(s, Chars(cs));
      t.buf == s.buf[..s.len] + cs + s.buf[s.len + |cs|..] && t.handed == s.handed
    decreases |cs|
  {
    if cs == "" {
      assert s.buf == s.buf[..s.len] + cs + s.buf[s.len..];
    } else {
      assert Chars(cs)[1..] == Chars(cs[1..]);
      TypedOver(Press(s, Char(cs[0])), cs[1..]);
      var b := s.buf[s.len := cs[0]];
      assert b[..s.len + 1] == s.buf[..s.len] + [cs[0]];
      assert b[s.len + |cs|..] == s.buf[s.len + |cs|..];
      assert cs == [cs[0]] + cs[1..];
    }
  }

  /** The part of the line that is handed over. */
  function Handed(s: State): string
    requires Valid(s)
  {
    Line(s)[..s.len % 256]
  }

  /** Keys typed between Enter and the reader's dispatch go into the very bytes it
      will be given: it still gets what was handed over exactly when what was typed
      agrees with that as far as both go. */
  lemma TypedAheadOverwritesExactly(s: State, cs: string)
    requires Valid(s) && s.reading && |cs| < STDIN_MAX
    ensures var n := if |cs| < |Handed(s)| then |cs| else |Handed(s)|;
      Deliver(PressAll(Enter(s), Chars(cs))).1 == Some(Handed(s)) <==> cs[..n] == Handed(s)[..n]
  {
    var line := Handed(s);
    var n := if |cs| < |line| then |cs| else |line|;
    TypedOver(Enter(s), cs);
    assert line == s.buf[..s.len % 256];
    var got := PressAll(Enter(s), Chars(cs)).buf[..|line|];
    assert got == cs[..n] + line[n..];
    assert line == line[..n] + line[n..];
    if got == line {
      assert got[..n] == cs[..n];
    }
  }

  class Stdin {
    const buf: array<char>
    var len: nat
    var reading: bool
    var handed: Option<nat>

    function Now(): State
      reads this, buf
    {
      State(buf[..], len, reading, handed)
    }

    constructor ()
      ensures Valid(Now()) && fresh(buf) && len == 0 && !reading && handed == None
    {
      buf := new char[STDIN_MAX](_ => ' ');
      len, reading, handed := 0, false, None;
    }

    method Put(c: char)
      requires Valid(Now())
      modifies this`len, buf
      ensures Now() == Press(old(Now()), Char(c))
    {
      if len + 1 >= STDIN_MAX { return; }
      buf[len] := c;
      len := len + 1;
    }

    method Pop()
      requires Valid(Now())
      modifies this`len
      ensures Now() == Press(old(Now()), Backspace)
    {
      if len == 0 { return; }
      len := len - 1;
    }

    method Flush()
      requires Valid(Now())
      modifies this
      ensures Now() == Enter(old(Now()))
    {
      if !reading { return; }
      handed := Some(len % 256);
      len := 0;
      reading := false;
    }

    /** The kernel's copy into the reader's buffer. */
    method CopyToReader() returns (r: Option<string>)
      requires Valid(Now())
      modifies this`handed
      ensures (Now(), r) == Deliver(old(Now()))
    {
      if handed == None { return None; }
      r := Some(buf[..handed.value]);
      handed := None;
    }
  }
}
