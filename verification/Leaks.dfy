/** When a program runs out of descriptors. Reasoning happens on the abstract
    machine and is carried to the real one by the refinement. */
module Leaks {
  import opened Machine
  import opened Lib
  import opened Fs
  import opened SyscallSpec
  import opened UserSpec
  import opened AbstractMachine
  import Refinement

  lemma {:induction false} OccupiedAfterUpdate(slots: seq<Option<Cursor>>, i: nat, c: Option<Cursor>)
    requires i < |slots|
    ensures Occupied(slots[i := c]) ==
            Occupied(slots) - (if slots[i].Some? then 1 else 0) + if c.Some? then 1 else 0
  {
    if i == 0 {
      assert slots[0 := c][1..] == slots[1..];
    } else {
      OccupiedAfterUpdate(slots[1..], i - 1, c);
      assert slots[i := c][1..] == slots[1..][i - 1 := c];
    }
  }

  lemma {:induction false} OccupiedBound(slots: seq<Option<Cursor>>, i: nat)
    requires i < |slots|
    ensures slots[i].None? ==> Occupied(slots) < |slots|
  {
    if i == 0 {
    } else {
      OccupiedBound(slots[1..], i - 1);
    }
  }

  /** An OPEN that, in state `a`, reaches the kernel through a filled slot. */
  predicate Overwrites(a: Abs, op: Op)
    requires |a.slots| == FD_SLOTS
  {
    op.opcode == OP_OPEN && op.fdSlot < FD_SLOTS && a.slots[op.fdSlot].Some?
  }

  /** How many times the run successfully opens into a slot that is still filled. */
  ghost function Overwritten(a: Abs, nodes: seq<Node>, ops: seq<Op>): nat
    requires AbsOk(a) && AllReadable(nodes)
    decreases |ops|
  {
    if ops == [] || a.exited then 0
    else
      var (a1, e) := Step(a, nodes, ops[0]);
      if e != UOk then 0
      else (if Overwrites(a, ops[0]) then 1 else 0) + Overwritten(a1, nodes, ops[1..])
  }

  /** No operation the run executes is an OPEN into a filled slot. */
  ghost predicate OpensOnlyIntoEmpty(a: Abs, nodes: seq<Node>, ops: seq<Op>)
    requires AbsOk(a) && AllReadable(nodes)
    decreases |ops|
  {
    ops == [] || a.exited ||
    (!Overwrites(a, ops[0]) &&
     var (a1, e) := Step(a, nodes, ops[0]);
     e == UOk ==> OpensOnlyIntoEmpty(a1, nodes, ops[1..]))
  }

  /** Slots and leaks after one operation: only OPEN and CLOSE change how many
      descriptors are in use, and only overwriting leaks. */
  lemma StepBalance(a: Abs, nodes: seq<Node>, op: Op)
    requires AbsOk(a) && AllReadable(nodes)
    ensures var (a1, e) := Step(a, nodes, op);
            && a1.leaked == a.leaked + (if e == UOk && Overwrites(a, op) then 1 else 0)
            && Occupied(a1.slots) + a1.leaked == Occupied(a.slots) + a.leaked +
                 (if e == UOk && op.opcode == OP_OPEN then 1 else if e == UOk && op.opcode == OP_CLOSE then -1 else 0)
  {
    var (a1, e) := Step(a, nodes, op);
    if e == UOk && op.opcode in {OP_OPEN, OP_READ, OP_CLOSE} {
      OccupiedAfterUpdate(a.slots, op.fdSlot, a1.slots[op.fdSlot]);
    }
  }

  /** Leaked descriptors are never recovered: a run adds exactly one for every
      successful OPEN into a filled slot, and nothing takes one away. */
  lemma {:induction false} LeaksAreExact(a: Abs, nodes: seq<Node>, ops: seq<Op>)
    requires AbsOk(a) && AllReadable(nodes)
    ensures AbstractMachine.RunOps(a, nodes, ops).0.leaked == a.leaked + Overwritten(a, nodes, ops)
    decreases |ops|
  {
    if ops == [] || a.exited {
    } else {
      StepBalance(a, nodes, ops[0]);
      var (a1, e) := Step(a, nodes, ops[0]);
      if e == UOk {
        LeaksAreExact(a1, nodes, ops[1..]);
      }
    }
  }

  /** Descriptors run out only after leaks: an OPEN answered EMFILE found the path,
      and at least one descriptor had leaked; two, if its slot was empty. */
  lemma EmfileNeedsLeaks(a: Abs, nodes: seq<Node>, op: Op)
    requires AbsOk(a) && AllReadable(nodes)
    ensures var (a1, e) := Step(a, nodes, op);
            e == USyscall && a1.lastSyscallError == EMFILE <==>
              && op.opcode == OP_OPEN && op.fdSlot < FD_SLOTS && InMemory(op.offset, op.len)
              && Find(nodes, a.mem[op.offset..op.offset + op.len]).Some?
              && Occupied(a.slots) + a.leaked == CAPACITY
    ensures var (a1, e) := Step(a, nodes, op);
            e == USyscall && a1.lastSyscallError == EMFILE ==>
              a.leaked >= if Overwrites(a, op) then 1 else 2
  {
    if op.fdSlot < FD_SLOTS {
      OccupiedBound(a.slots, op.fdSlot);
    }
  }

  /** A program that only ever opens into empty slots neither leaks a descriptor
      nor is ever answered EMFILE. */
  lemma {:induction false} NoOverwriteNoEmfile(a: Abs, nodes: seq<Node>, ops: seq<Op>)
    requires AbsOk(a) && AllReadable(nodes)
    requires a.leaked <= 1 && a.lastSyscallError != EMFILE && OpensOnlyIntoEmpty(a, nodes, ops)
    ensures AbstractMachine.RunOps(a, nodes, ops).0.leaked == a.leaked
    ensures AbstractMachine.RunOps(a, nodes, ops).0.lastSyscallError != EMFILE
    decreases |ops|
  {
    if ops == [] || a.exited {
    } else {
      StepBalance(a, nodes, ops[0]);
      EmfileNeedsLeaks(a, nodes, ops[0]);
      var (a1, e) := Step(a, nodes, ops[0]);
      if e == UOk {
        NoOverwriteNoEmfile(a1, nodes, ops[1..]);
      }
    }
  }

  /** The same condition over a whole history of runs. */
  ghost predicate CarefulHistory(a: Abs, progs: seq<Program>)
    requires AbsOk(a) && forall i | 0 <= i < |progs| :: ProgramOk(progs[i])
    decreases |progs|
  {
    progs == [] ||
    ((!Refuses(progs[0]) ==> OpensOnlyIntoEmpty(Load(a, progs[0]), Files(progs[0]), progs[0].ops)) &&
     CarefulHistory(AbstractMachine.Run(a, progs[0]).0, progs[1..]))
  }

  lemma {:induction false} CarefulHistoryNeverLeaks(a: Abs, progs: seq<Program>)
    requires AbsOk(a) && forall i | 0 <= i < |progs| :: ProgramOk(progs[i])
    requires a.leaked == 0 && a.lastSyscallError != EMFILE && CarefulHistory(a, progs)
    ensures AbstractMachine.RunAll(a, progs).0.leaked == 0
    ensures AbstractMachine.RunAll(a, progs).0.lastSyscallError != EMFILE
    decreases |progs|
  {
    if progs == [] {
    } else {
      if !Refuses(progs[0]) {
        NoOverwriteNoEmfile(Load(a, progs[0]), Files(progs[0]), progs[0].ops);
      }
      CarefulHistoryNeverLeaks(AbstractMachine.Run(a, progs[0]).0, progs[1..]);
    }
  }

  /** Every beginning of a careful history is careful. */
  lemma {:induction false} CarefulPrefix(a: Abs, progs: seq<Program>, k: nat)
    requires AbsOk(a) && forall i | 0 <= i < |progs| :: ProgramOk(progs[i])
    requires CarefulHistory(a, progs) && k <= |progs|
    ensures CarefulHistory(a, progs[..k])
    decreases k
  {
    if k == 0 {
    } else {
      CarefulPrefix(AbstractMachine.Run(a, progs[0]).0, progs[1..], k - 1);
      assert progs[..k][1..] == progs[1..][..k - 1];
    }
  }

  lemma CarefulPrefixNeverLeaks(sink: seq<Byte>, progs: seq<Program>, k: nat)
    requires forall i | 0 <= i < |progs| :: ProgramOk(progs[i])
    requires CarefulHistory(Fresh(sink), progs) && k <= |progs|
    ensures var a := AbstractMachine.RunAll(Fresh(sink), progs[..k]).0;
            a.leaked == 0 && a.lastSyscallError != EMFILE
  {
    CarefulPrefix(Fresh(sink), progs, k);
    CarefulHistoryNeverLeaks(Fresh(sink), progs[..k]);
  }

  lemma LeakedIsObserved(p: Proc)
    requires Refinement.Coupled(p)
    ensures Refinement.Abstract(p).leaked == Refinement.Leaked(p.task.files, p.slots)
    ensures Refinement.Abstract(p).lastSyscallError == p.lastSyscallError
  {
    hide Refinement.Leaked, Refinement.Cursors, Refinement.TableOk;
  }

  /** The capacity theorem for the real stack: however many programs a freshly
      initialised process runs and however each one ends, as long as no executed
      OPEN names a slot that is still filled, none of its runs gets EMFILE and no
      descriptor is ever leaked. `k` is the number of runs done so far. */
  lemma CarefulProcessNeverEmfile(ram: seq<Byte>, base: Word, pid: Word32, sink: seq<Byte>,
                                  progs: seq<Program>, k: nat)
    requires 0 < base && base + MEMORY_SIZE < WORD && base + MEMORY_SIZE <= |ram| <= WORD
    requires forall i | 0 <= i < |progs| :: ProgramOk(progs[i])
    requires CarefulHistory(Fresh(sink), progs) && k <= |progs|
    ensures var p := UserSpec.RunAll(InitProc(ram, base, pid, sink), progs[..k]).0;
            p.lastSyscallError != EMFILE && Refinement.Leaked(p.task.files, p.slots) == 0
  {
    hide *;
    CarefulPrefixNeverLeaks(sink, progs, k);
    Refinement.FreshHistoryRefines(ram, base, pid, sink, progs[..k]);
    LeakedIsObserved(UserSpec.RunAll(InitProc(ram, base, pid, sink), progs[..k]).0);
  }

  // ----- the leak is real

  function Repeat(op: Op, n: nat): seq<Op> {
    if n == 0 then [] else [op] + Repeat(op, n - 1)
  }

  /** Opening the same existing file into the same slot `n` times: the first five
      descriptors are handed out, four of them leak, the sixth OPEN gets EMFILE. */
  lemma {:induction false} ReopeningExhausts(a: Abs, nodes: seq<Node>, op: Op, n: nat)
    requires AbsOk(a) && AllReadable(nodes) && !a.exited
    requires op.opcode == OP_OPEN && op.fdSlot < FD_SLOTS && InMemory(op.offset, op.len)
    requires Find(nodes, a.mem[op.offset..op.offset + op.len]).Some?
    requires Occupied(a.slots) + a.leaked <= CAPACITY
    ensures var (a1, e) := AbstractMachine.RunOps(a, nodes, Repeat(op, n));
            if Occupied(a.slots) + a.leaked + n <= CAPACITY then
              e == UOk && Occupied(a1.slots) + a1.leaked == Occupied(a.slots) + a.leaked + n
            else
              e == USyscall && a1.lastSyscallError == EMFILE
    decreases n
  {
    if n == 0 {
    } else {
      assert Repeat(op, n)[1..] == Repeat(op, n - 1);
      var (a1, e) := Step(a, nodes, op);
      StepBalance(a, nodes, op);
      if e == UOk {
        ReopeningExhausts(a1, nodes, op, n - 1);
      }
    }
  }

  /** One empty file named "/a". */
  const A_FILE := Node(Some([0x2f, 0x61, 0]), None, 0, MODE_FILE)

  /** A program that opens "/a" into slot 0 `n` times. */
  function Reopen(n: nat): Program {
    Program(Some([0x2f, 0x61]), 2, Repeat(Op(OP_OPEN, 0, 0, 2, 0, 0), n), Some([A_FILE]), 1)
  }

  lemma ReopenFindsFile()
    ensures Readable(A_FILE) && AllReadable([A_FILE]) && Find([A_FILE], [0x2f, 0x61]) == Some(A_FILE)
  {
    var text := A_FILE.path.value;
    assert text[2] == 0 && 0 in text;
    assert StrLen(text) == 2;
    assert CString(text) == [0x2f, 0x61];
  }

  lemma {:induction false} NoneOccupied(slots: seq<Option<Cursor>>)
    requires forall i | 0 <= i < |slots| :: slots[i].None?
    ensures Occupied(slots) == 0
  {
    if slots == [] {
    } else {
      NoneOccupied(slots[1..]);
    }
  }

  lemma ReopenOnFresh(sink: seq<Byte>, n: nat)
    ensures ProgramOk(Reopen(n)) && AbsOk(Fresh(sink))
    ensures var (a, e) := AbstractMachine.Run(Fresh(sink), Reopen(n));
            if n <= CAPACITY then e == UOk else e == USyscall && a.lastSyscallError == EMFILE
  {
    ReopenFindsFile();
    var prog := Reopen(n);
    assert Files(prog) == [A_FILE];
    var a := Load(Fresh(sink), prog);
    assert a.mem[0..2] == [0x2f, 0x61];
    assert forall i | 0 <= i < FD_SLOTS :: a.slots[i].None?;
    NoneOccupied(a.slots);
    ReopeningExhausts(a, [A_FILE], Op(OP_OPEN, 0, 0, 2, 0, 0), n);
  }

  /** The failure at an input: on the real stack, a freshly initialised process that
      opens one existing file into one slot five times succeeds, six times ends in
      EMFILE. */
  lemma SixOpensEndInEmfile(ram: seq<Byte>, base: Word, pid: Word32, sink: seq<Byte>)
    requires 0 < base && base + MEMORY_SIZE < WORD && base + MEMORY_SIZE <= |ram| <= WORD
    ensures ProgramOk(Reopen(5)) && ProgramOk(Reopen(6))
    ensures UserSpec.Run(InitProc(ram, base, pid, sink), Reopen(5)).1 == UOk
    ensures var (p, e) := UserSpec.Run(InitProc(ram, base, pid, sink), Reopen(6));
            e == USyscall && p.lastSyscallError == EMFILE
  {
    ReopenFindsFile();
    assert Visible(Some([A_FILE]), 1) == [A_FILE];
    Refinement.InitRefines(ram, base, pid, sink);
    ReopenOnFresh(sink, 5);
    ReopenOnFresh(sink, 6);
    Refinement.RunRefines(InitProc(ram, base, pid, sink), Reopen(5));
    Refinement.RunRefines(InitProc(ram, base, pid, sink), Reopen(6));
  }
}
