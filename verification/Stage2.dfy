/** The stage2 text monitor: its line editor, its string matcher and the command
    loop around them, over the 64 KiB segment they run in. */
module Stage2 {
  import opened Machine
  import opened Lib

  const SEGMENT: nat := 0x1_0000
  const BUFFER_SIZE: nat := 32
  const ENTER: Byte := 0x0d
  const BACKSPACE: Byte := 0x08

  const HELP: seq<Byte> := [0x68, 0x65, 0x6c, 0x70]
  const ABOUT: seq<Byte> := [0x61, 0x62, 0x6f, 0x75, 0x74]
  const CLEAR: seq<Byte> := [0x63, 0x6c, 0x65, 0x61, 0x72]
  const HALT: seq<Byte> := [0x68, 0x61, 0x6c, 0x74]
  const REBOOT: seq<Byte> := [0x72, 0x65, 0x62, 0x6f, 0x6f, 0x74]

  datatype Handler = ShowHelp | ShowAbout | ShowClear | HaltSystem | RebootSystem | Nothing | Unknown

  /** What one key other than Enter does to the line. */
  function Edit(line: seq<Byte>, key: Byte): seq<Byte> {
    if key == BACKSPACE then (if line == [] then [] else line[..|line| - 1])
    else if |line| < BUFFER_SIZE - 1 then line + [key]
    else line
  }

  function EditAll(line: seq<Byte>, keys: seq<Byte>): (r: seq<Byte>)
    ensures |line| < BUFFER_SIZE ==> |r| < BUFFER_SIZE
    decreases |keys|
  {
    if keys == [] then line else EditAll(Edit(line, keys[0]), keys[1..])
  }

  /** The handler a command text selects. */
  function Classify(text: seq<Byte>): Handler {
    if text == HELP then ShowHelp
    else if text == ABOUT then ShowAbout
    else if text == CLEAR then ShowClear
    else if text == HALT then HaltSystem
    else if text == REBOOT then RebootSystem
    else if text == [] then Nothing
    else Unknown
  }

  predicate Stops(h: Handler) {
    h == HaltSystem || h == RebootSystem
  }

  /** Where the first Enter is. */
  function EnterAt(keys: seq<Byte>): (r: Option<nat>)
    ensures r.Some? ==> r.value < |keys| && keys[r.value] == ENTER
    ensures forall i | 0 <= i < (if r.Some? then r.value else |keys|) :: keys[i] != ENTER
  {
    if keys == [] then None
    else if keys[0] == ENTER then Some(0)
    else match EnterAt(keys[1..]) case None => None case Some(i) => Some(1 + i)
  }

  /** The command a line of keys gives: what is left in the editor, up to a NUL. */
  function Command(keys: seq<Byte>): seq<Byte> {
    CString(EditAll([], keys) + [0])
  }

  /** The handlers a whole key sequence selects, one per Enter, until one stops the
      machine. It mentions no buffer: earlier lines leave nothing behind. */
  function Session(keys: seq<Byte>): seq<Handler>
    decreases |keys|
  {
    match EnterAt(keys)
    case None => []
    case Some(e) =>
      var h := Classify(Command(keys[..e]));
      if Stops(h) then [h] else [h] + Session(keys[e + 1..])
  }

  /** `mem` holds `text` and a NUL after it at address `at`. */
  predicate Holds(mem: seq<Byte>, at: nat, text: seq<Byte>) {
    at + |text| < |mem| && mem[at + |text|] == 0 &&
    forall i | 0 <= i < |text| :: mem[at + i] == text[i] && text[i] != 0
  }

  lemma {:induction false} EditAllSnoc(line: seq<Byte>, keys: seq<Byte>, key: Byte)
    ensures EditAll(line, keys + [key]) == Edit(EditAll(line, keys), key)
    decreases |keys|
  {
    if keys == [] {
      assert [key][1..] == [];
    } else {
      assert (keys + [key])[1..] == keys[1..] + [key];
      EditAllSnoc(Edit(line, keys[0]), keys[1..], key);
    }
  }

  predicate NoEnter(keys: seq<Byte>, first: nat, next: nat)
    requires first <= next <= |keys|
  {
    forall i | first <= i < next :: keys[i] != ENTER
  }

  lemma EnterFound(keys: seq<Byte>, first: nat, e: nat)
    requires first <= e < |keys| && keys[e] == ENTER && NoEnter(keys, first, e)
    ensures EnterAt(keys[first..]) == Some(e - first)
  {
    var s := keys[first..];
    assert s[e - first] == ENTER;
    assert forall i | 0 <= i < e - first :: s[i] == keys[first + i];
  }

  lemma EnterNotFound(keys: seq<Byte>, first: nat)
    requires first <= |keys| && NoEnter(keys, first, |keys|)
    ensures EnterAt(keys[first..]).None?
  {
    assert forall i | 0 <= i < |keys| - first :: keys[first..][i] == keys[first + i];
  }

  lemma OneMoreKey(keys: seq<Byte>, first: nat, next: nat)
    requires first <= next < |keys|
    ensures EditAll([], keys[first..next + 1]) == Edit(EditAll([], keys[first..next]), keys[next])
  {
    assert keys[first..next + 1] == keys[first..next] + [keys[next]];
    EditAllSnoc([], keys[first..next], keys[next]);
  }

  lemma SessionUnfolds(keys: seq<Byte>)
    requires EnterAt(keys).Some?
    ensures var e := EnterAt(keys).value;
            var h := Classify(Command(keys[..e]));
            Session(keys) == [h] + if Stops(h) then [] else Session(keys[e + 1..])
  {
    hide Classify, Command, EnterAt;
  }

  lemma SessionStep(keys: seq<Byte>, first: nat, next: nat)
    requires first < next <= |keys| && EnterAt(keys[first..]) == Some(next - first - 1)
    ensures var h := Classify(Command(keys[first..next - 1]));
            Session(keys[first..]) == [h] + if Stops(h) then [] else Session(keys[next..])
  {
    hide Classify, Command, EnterAt, Session;
    SessionUnfolds(keys[first..]);
    assert keys[first..][..next - 1 - first] == keys[first..next - 1];
    assert keys[first..][next - first..] == keys[next..];
  }

  // ----- laws of the line and of the session, in terms of keys only

  lemma {:induction false} EditAllConcat(line: seq<Byte>, a: seq<Byte>, b: seq<Byte>)
    ensures EditAll(line, a + b) == EditAll(EditAll(line, a), b)
    decreases |a|
  {
    if a == [] {
      assert a + b == b;
    } else {
      assert (a + b)[1..] == a[1..] + b;
      EditAllConcat(Edit(line, a[0]), a[1..], b);
    }
  }

  /** A key that only adds a character: neither Backspace nor Enter. */
  predicate Plain(key: Byte) {
    key != BACKSPACE && key != ENTER
  }

  /** Where there is room, typing a character and Backspace changes nothing; on an
      empty line Backspace does nothing, and on a full line no character does. */
  lemma TypeAndErase(line: seq<Byte>, key: Byte)
    requires Plain(key)
    ensures |line| < 31 ==> EditAll(line, [key, BACKSPACE]) == line
    ensures EditAll([], [BACKSPACE]) == []
    ensures |line| >= 31 ==> EditAll(line, [key]) == line
  {
    assert [key, BACKSPACE][1..] == [BACKSPACE] && [BACKSPACE][1..] == [] && [key][1..] == [];
    assert EditAll(line, [key]) == EditAll(Edit(line, key), []);
    assert EditAll([], [BACKSPACE]) == EditAll(Edit([], BACKSPACE), []);
    assert EditAll(Edit(line, key), [BACKSPACE]) == EditAll(Edit(Edit(line, key), BACKSPACE), []);
    assert (line + [key])[..|line|] == line;
  }

  /** Without Backspace the line is what was typed, up to the first 31 characters. */
  lemma {:induction false} PlainTyping(keys: seq<Byte>)
    requires forall i | 0 <= i < |keys| :: Plain(keys[i])
    ensures EditAll([], keys) == keys[..Min(31, |keys|)]
    decreases |keys|
  {
    if keys == [] {
    } else {
      var n := |keys| - 1;
      PlainTyping(keys[..n]);
      assert keys == keys[..n] + [keys[n]];
      EditAllSnoc([], keys[..n], keys[n]);
      assert n < 31 ==> keys[..n][..n] + [keys[n]] == keys[..n + 1];
      assert n >= 31 ==> keys[..n][..31] == keys[..31];
    }
  }

  /** What is on the line after `keys`: everything since the last Enter. */
  function LineAfter(keys: seq<Byte>): seq<Byte>
    decreases |keys|
  {
    match EnterAt(keys)
    case None => EditAll([], keys)
    case Some(e) => LineAfter(keys[e + 1..])
  }

  lemma EnterUnfolds(keys: seq<Byte>)
    requires keys != []
    ensures EnterAt(keys) ==
            if keys[0] == ENTER then Some(0)
            else match EnterAt(keys[1..]) case None => None case Some(i) => Some(1 + i)
  {
  }

  lemma {:induction false} EnterInConcat(a: seq<Byte>, b: seq<Byte>)
    ensures EnterAt(a).Some? ==> EnterAt(a + b) == EnterAt(a)
    ensures EnterAt(a).None? && EnterAt(b).Some? ==> EnterAt(a + b) == Some(|a| + EnterAt(b).value)
    ensures EnterAt(a).None? && EnterAt(b).None? ==> EnterAt(a + b).None?
    decreases |a|
  {
    if a == [] {
      assert a + b == b;
    } else {
      var ab, tail := a + b, a[1..];
      assert ab[0] == a[0];
      assert ab[1..] == tail + b;
      hide EnterAt;
      EnterInConcat(tail, b);
      EnterUnfolds(ab);
      EnterUnfolds(a);
    }
  }

  /** A session goes on after its first line unless that line stopped the machine. */
  lemma SessionCut(a: seq<Byte>, b: seq<Byte>, e: nat)
    requires EnterAt(a) == Some(e)
    ensures var h := Classify(Command(a[..e]));
            Session(a + b) == [h] + if Stops(h) then [] else Session(a[e + 1..] + b)
  {
    hide Classify, Command, EnterAt, Session;
    EnterInConcat(a, b);
    SessionUnfolds(a + b);
    assert (a + b)[..e] == a[..e];
    assert (a + b)[e + 1..] == a[e + 1..] + b;
  }

  lemma ErasedOnLine(a: seq<Byte>, key: Byte, c: seq<Byte>)
    requires Plain(key) && |EditAll([], a)| < 31
    ensures EditAll([], a + ([key, BACKSPACE] + c)) == EditAll([], a + c)
  {
    var pair := [key, BACKSPACE];
    TypeAndErase(EditAll([], a), key);
    hide Edit, EditAll;
    EditAllConcat([], a, pair + c);
    EditAllConcat(EditAll([], a), pair, c);
    EditAllConcat([], a, c);
  }

  lemma Cut3(a: seq<Byte>, m: seq<Byte>, b: seq<Byte>, e: nat)
    requires e < |b|
    ensures (a + (m + b))[..|a| + (|m| + e)] == a + (m + b[..e])
    ensures (a + (m + b))[|a| + (|m| + e) + 1..] == b[e + 1..]
  {
  }

  lemma SessionEnds(keys: seq<Byte>)
    requires EnterAt(keys).None?
    ensures Session(keys) == []
  {
  }

  lemma FirstLineRuns(a: seq<Byte>, m: seq<Byte>, b: seq<Byte>)
    requires EnterAt(a).None? && EnterAt(m).None?
    ensures EnterAt(b).None? ==> Session(a + (m + b)) == []
    ensures EnterAt(b).Some? ==>
              var e := EnterAt(b).value;
              var h := Classify(Command(a + (m + b[..e])));
              Session(a + (m + b)) == [h] + if Stops(h) then [] else Session(b[e + 1..])
  {
    hide EditAll, EnterAt, Classify, Command, Session;
    EnterInConcat(m, b);
    EnterInConcat(a, m + b);
    if EnterAt(b).Some? {
      SessionUnfolds(a + (m + b));
      Cut3(a, m, b, EnterAt(b).value);
    } else {
      SessionEnds(a + (m + b));
    }
  }

  lemma ErasedInFirstLine(a: seq<Byte>, key: Byte, b: seq<Byte>)
    requires Plain(key) && EnterAt(a).None? && |EditAll([], a)| < 31
    ensures Session(a + ([key, BACKSPACE] + b)) == Session(a + b)
  {
    var pair := [key, BACKSPACE];
    assert EnterAt(pair).None? by { assert pair[0] != ENTER && pair[1] != ENTER; }
    assert EnterAt([]).None?;
    FirstLineRuns(a, pair, b);
    FirstLineRuns(a, [], b);
    assert [] + b == b;
    if EnterAt(b).Some? {
      var line := b[..EnterAt(b).value];
      assert [] + line == line;
      ErasedOnLine(a, key, line);
      hide EditAll, EnterAt, Classify, Session;
    }
  }

  /** Anywhere in a key sequence where the line has room, a character followed by
      Backspace can be left out: the session runs the same handlers. */
  lemma {:induction false} ErasedKeyIsInvisible(a: seq<Byte>, key: Byte, b: seq<Byte>)
    requires Plain(key) && |LineAfter(a)| < 31
    ensures Session(a + [key, BACKSPACE] + b) == Session(a + b)
    decreases |a|
  {
    var pair := [key, BACKSPACE];
    assert a + pair + b == a + (pair + b);
    match EnterAt(a)
    case None =>
      ErasedInFirstLine(a, key, b);
    case Some(e) =>
      var rest := a[e + 1..];
      ErasedKeyIsInvisible(rest, key, b);
      hide Session, Classify, Command;
      SessionCut(a, pair + b, e);
      SessionCut(a, b, e);
      assert rest + (pair + b) == rest + pair + b;
  }

  lemma NamesDiffer()
    ensures HELP != [] && ABOUT != [] && CLEAR != [] && HALT != [] && REBOOT != []
    ensures HELP != ABOUT && HELP != CLEAR && HELP != HALT && HELP != REBOOT && ABOUT != CLEAR
    ensures ABOUT != HALT && ABOUT != REBOOT && CLEAR != HALT && CLEAR != REBOOT && HALT != REBOOT
  {
    assert HELP[1] != HALT[1] && ABOUT[0] != CLEAR[0];
  }

  /** Typing a word and Enter runs its handler: the five names theirs, the empty word
      nothing, any other word the complaint. Only halt and reboot end the session. */
  lemma TypedWordRuns(word: seq<Byte>, rest: seq<Byte>)
    requires |word| <= 31 && forall i | 0 <= i < |word| :: Plain(word[i]) && word[i] != 0
    ensures var keys := word + [ENTER] + rest;
            && (word == HALT ==> Session(keys) == [HaltSystem])
            && (word == REBOOT ==> Session(keys) == [RebootSystem])
            && (word == HELP ==> Session(keys) == [ShowHelp] + Session(rest))
            && (word == ABOUT ==> Session(keys) == [ShowAbout] + Session(rest))
            && (word == CLEAR ==> Session(keys) == [ShowClear] + Session(rest))
            && (word == [] ==> Session(keys) == [Nothing] + Session(rest))
            && (word !in {HALT, REBOOT, HELP, ABOUT, CLEAR, []} ==> Session(keys) == [Unknown] + Session(rest))
  {
    var keys := word + [ENTER] + rest;
    assert keys[..|word|] == word && keys[|word|] == ENTER && keys[|word| + 1..] == rest;
    assert EnterAt(keys) == Some(|word|);
    PlainTyping(word);
    assert word[..Min(31, |word|)] == word;
    var stored := word + [0];
    assert StrLen(stored) == |word| && stored[..|word|] == word;
    assert Command(word) == word;
    SessionUnfolds(keys);
    NamesDiffer();
    hide HALT, REBOOT, HELP, ABOUT, CLEAR, Session, EnterAt, Command;
  }

  lemma Differ(mem: seq<Byte>, si: nat, di: nat, a: seq<Byte>, b: seq<Byte>, k: nat)
    requires Holds(mem, si, a) && Holds(mem, di, b) && k <= |a| && k <= |b|
    requires mem[si + k] != mem[di + k]
    ensures a != b
  {
    assert k < |a| ==> mem[si + k] == a[k] && a[k] != 0;
    assert k < |b| ==> mem[di + k] == b[k] && b[k] != 0;
  }

  lemma EndAt(mem: seq<Byte>, at: nat, text: seq<Byte>, k: nat)
    requires Holds(mem, at, text) && k <= |text|
    ensures mem[at + k] == 0 <==> k == |text|
  {
    assert k < |text| ==> mem[at + k] == text[k] && text[k] != 0;
  }

  /** The stored line is a string whose text ends at the first NUL typed, if any. */
  lemma HoldsCommand(mem: seq<Byte>, at: nat, line: seq<Byte>)
    requires at + |line| < |mem| && mem[at..at + |line| + 1] == line + [0]
    ensures Holds(mem, at, CString(line + [0]))
  {
    var stored := line + [0];
    assert forall i | 0 <= i < |stored| :: stored[i] == mem[at + i];
  }

  class Monitor {
    const mem: array<Byte>
    const buffer: nat
    const help: nat
    const about: nat
    const clear: nat
    const halt: nat
    const reboot: nat

    constructor (mem: array<Byte>, buffer: nat, help: nat, about: nat, clear: nat, halt: nat, reboot: nat)
      ensures this.mem == mem && this.buffer == buffer
      ensures (this.help, this.about, this.clear, this.halt, this.reboot) == (help, about, clear, halt, reboot)
    {
      this.mem := mem;
      this.buffer := buffer;
      this.help, this.about, this.clear, this.halt, this.reboot := help, about, clear, halt, reboot;
    }

    /** The command names lie below the buffer, as they are laid out in the image. */
    ghost predicate Valid()
      reads mem
    {
      && mem.Length == SEGMENT && buffer + BUFFER_SIZE <= SEGMENT
      && Holds(mem[..buffer], help, HELP)
      && Holds(mem[..buffer], about, ABOUT)
      && Holds(mem[..buffer], clear, CLEAR)
      && Holds(mem[..buffer], halt, HALT)
      && Holds(mem[..buffer], reboot, REBOOT)
    }

    /** Nothing outside the 32 bytes of the command buffer has changed. */
    twostate predicate OnlyBuffer()
      reads mem
    {
      forall a | 0 <= a < mem.Length && !(buffer <= a < buffer + BUFFER_SIZE) :: mem[a] == old(mem[a])
    }

    twostate lemma StaysValid()
      requires old(Valid()) && OnlyBuffer()
      ensures Valid()
    {
      assert mem[..buffer] == old(mem[..buffer]);
    }

    /** The line being edited is in the buffer. */
    ghost predicate Shows(line: seq<Byte>)
      reads mem
    {
      && mem.Length == SEGMENT && buffer + BUFFER_SIZE <= SEGMENT && |line| < BUFFER_SIZE
      && forall i | 0 <= i < |line| :: mem[buffer + i] == line[i]
    }

    /** One key other than Enter; `di` and `cx` are the registers. */
    method Key(al: Byte, di: nat, cx: nat, ghost line: seq<Byte>) returns (di': nat, cx': nat)
      requires Shows(line) && cx == |line| && di == buffer + cx
      modifies mem
      ensures Shows(Edit(line, al)) && cx' == |Edit(line, al)| && di' == buffer + cx'
      ensures OnlyBuffer()
    {
      di', cx' := di, cx;
      if al == BACKSPACE {
        if cx == 0 {
          return;
        }
        di' := di - 1;
        cx' := cx - 1;
      } else {
        if cx >= 31 {
          return;
        }
        mem[di] := al;
        di' := di + 1;
        cx' := cx + 1;
      }
    }

    /** Enter: terminates the line in the buffer. */
    method Terminate(di: nat, ghost line: seq<Byte>)
      requires Shows(line) && di == buffer + |line|
      modifies mem
      ensures OnlyBuffer() && buffer + BUFFER_SIZE <= mem.Length
      ensures mem[buffer..buffer + |line| + 1] == line + [0]
    {
      mem[di] := 0;
    }

    /** The `read_key` loop: handles keys up to the first Enter. */
    method TypeLine(keys: seq<Byte>, first: nat) returns (next: nat, di: nat, ghost line: seq<Byte>)
      requires mem.Length == SEGMENT && buffer + BUFFER_SIZE <= SEGMENT && first <= |keys|
      modifies mem
      ensures first <= next <= |keys| && NoEnter(keys, first, next)
      ensures next < |keys| ==> keys[next] == ENTER
      ensures line == EditAll([], keys[first..next]) && Shows(line) && di == buffer + |line|
      ensures OnlyBuffer()
    {
      var cx := 0;
      di, next, line := buffer, first, [];
      assert keys[first..first] == [];
      while next < |keys| && keys[next] != ENTER
        invariant first <= next <= |keys| && NoEnter(keys, first, next)
        invariant line == EditAll([], keys[first..next])
        invariant di == buffer + cx && cx == |line| && Shows(line)
        invariant OnlyBuffer()
      {
        OneMoreKey(keys, first, next);
        di, cx := Key(keys[next], di, cx, line);
        line := Edit(line, keys[next]);
        next := next + 1;
      }
    }

    /** From `read_key` to `finish_command`, with the keys from `first` on. When they
        run out before an Enter the editor is still waiting. */
    method ReadLine(keys: seq<Byte>, first: nat) returns (next: nat, entered: bool)
      requires Valid() && first <= |keys|
      modifies mem
      ensures Valid() && OnlyBuffer()
      ensures entered <==> EnterAt(keys[first..]).Some?
      ensures entered ==> next == first + EnterAt(keys[first..]).value + 1 <= |keys|
      ensures entered ==>
                var line := EditAll([], keys[first..next - 1]);
                mem[buffer..buffer + |line| + 1] == line + [0]
    {
      var di;
      ghost var line;
      next, di, line := TypeLine(keys, first);
      if next == |keys| {
        EnterNotFound(keys, first);
        entered := false;
      } else {
        EnterFound(keys, first, next);
        Terminate(di, line);
        next, entered := next + 1, true;
      }
      StaysValid();
    }

    /** `streq`: returns AL = 1 exactly when the two strings are equal. `last` is the
        index of the last byte pair it looked at, never beyond a terminator. */
    method StrEq(si: nat, di: nat, ghost a: seq<Byte>, ghost b: seq<Byte>) returns (al: Byte, ghost last: nat)
      requires Holds(mem[..], si, a) && Holds(mem[..], di, b)
      ensures al == if a == b then 1 else 0
      ensures last <= |a| && last <= |b|
      ensures a[..last] == b[..last]
      ensures last == |a| == |b| || mem[si + last] != mem[di + last]
    {
      var s, d := si, di;
      while true
        invariant si <= s && s - si == d - di <= |a| && d - di <= |b|
        invariant a[..s - si] == b[..s - si]
        decreases |a| - (s - si)
      {
        al := mem[s];
        var ah := mem[d];
        ghost var k := s - si;
        last := k;
        if al != ah {
          assert a != b by { Differ(mem[..], si, di, a, b, k); }
          return 0, last;
        }
        if al == 0 {
          assert k == |a| by { EndAt(mem[..], si, a, k); }
          assert k == |b| by { EndAt(mem[..], di, b, k); }
          assert a[..k] == a && b[..k] == b;
          return 1, last;
        }
        EndAt(mem[..], si, a, k);
        EndAt(mem[..], di, b, k);
        assert a[..k + 1] == a[..k] + [a[k]] && b[..k + 1] == b[..k] + [b[k]];
        s := s + 1;
        d := d + 1;
      }
    }

    /** `finish_command` after the line is stored. */
    method Finish(ghost text: seq<Byte>) returns (h: Handler)
      requires Valid() && Holds(mem[..], buffer, text)
      ensures h == Classify(text)
    {
      assert forall i | 0 <= i < buffer :: mem[..buffer][i] == mem[..][i];
      var al;
      ghost var last;
      al, last := StrEq(buffer, help, text, HELP);
      if al == 1 {
        return ShowHelp;
      }
      al, last := StrEq(buffer, about, text, ABOUT);
      if al == 1 {
        return ShowAbout;
      }
      al, last := StrEq(buffer, clear, text, CLEAR);
      if al == 1 {
        return ShowClear;
      }
      al, last := StrEq(buffer, halt, text, HALT);
      if al == 1 {
        return HaltSystem;
      }
      al, last := StrEq(buffer, reboot, text, REBOOT);
      if al == 1 {
        return RebootSystem;
      }
      assert text != [] ==> mem[buffer + 0] == text[0];
      if mem[buffer] == 0 {
        return Nothing;
      }
      h := Unknown;
    }

    /** `command_loop`: the handlers chosen for a key sequence, until the keys run
        out or the machine halts or reboots. */
    method CommandLoop(keys: seq<Byte>) returns (handled: seq<Handler>)
      requires Valid()
      modifies mem
      ensures Valid() && OnlyBuffer()
      ensures handled == Session(keys)
    {
      hide Classify, Session, EnterAt, EditAll;
      handled := [];
      var next := 0;
      assert keys[0..] == keys;
      while true
        invariant 0 <= next <= |keys|
        invariant Valid() && OnlyBuffer()
        invariant handled + Session(keys[next..]) == Session(keys)
        decreases |keys| - next
      {
        var from := next;
        var end, entered := ReadLine(keys, next);
        if !entered {
          SessionEnds(keys[from..]);
          return;
        }
        next := end;
        ghost var line := EditAll([], keys[from..next - 1]);
        SessionStep(keys, from, next);
        HoldsCommand(mem[..], buffer, line);
        var h := Finish(Command(keys[from..next - 1]));
        handled := handled + [h];
        if Stops(h) {
          return;
        }
      }
    }
  }

  /** No two commands share a name, so the order of the comparisons is immaterial:
      a handler other than the fallbacks is chosen exactly by its own name. */
  lemma HandlerByName(text: seq<Byte>)
    ensures Classify(text) == ShowHelp <==> text == HELP
    ensures Classify(text) == ShowAbout <==> text == ABOUT
    ensures Classify(text) == ShowClear <==> text == CLEAR
    ensures Classify(text) == HaltSystem <==> text == HALT
    ensures Classify(text) == RebootSystem <==> text == REBOOT
  {
    assert HALT[1] != HELP[1];
    assert ABOUT[0] != CLEAR[0];
  }
}
