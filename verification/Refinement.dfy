/** The interpreter, trap boundary, dispatcher and descriptor table together
    behave as the abstract machine, over every run. */
module Refinement {
  import opened Machine
  import opened Fs
  import opened SyscallSpec
  import opened UserSpec
  import A = AbstractMachine

  function OwnedFds(slots: seq<int>): (fds: set<int>)
    ensures forall fd :: fd in fds <==> fd >= 0 && fd in slots
  {
    if slots == [] then {}
    else
      var rest := OwnedFds(slots[1..]);
      if slots[0] >= 0 then rest + {slots[0]} else rest
  }

  /** A used table entry refers to a valid file, and its cursor is inside it. */
  predicate EntryOk(f: File) {
    f.used ==> f.node.Some? && IsValid(f.node.value) && Readable(f.node.value) && f.offset <= f.node.value.size
  }

  predicate Distinct(slots: seq<int>) {
    forall i, j | 0 <= i < j < |slots| :: slots[i] >= 0 ==> slots[i] != slots[j]
  }

  predicate SlotOk(files: seq<File>, fd: int)
    requires |files| == MAX_FILES
  {
    fd >= 0 ==> FD_FIRST_FILE <= fd < MAX_FILES && files[fd].used
  }

  /** The coupling between the two naming layers: every filled slot names a used
      descriptor in 3..7, no two slots name the same one, and every used
      descriptor refers to a valid file with its cursor inside it. */
  ghost predicate TableOk(files: seq<File>, slots: seq<int>) {
    && |files| == MAX_FILES
    && (forall fd | 0 <= fd < MAX_FILES :: EntryOk(files[fd]))
    && (forall fd | 0 <= fd < FD_FIRST_FILE :: !files[fd].used)
    && (forall i | 0 <= i < |slots| :: SlotOk(files, slots[i]))
    && Distinct(slots)
  }

  ghost predicate Coupled(p: Proc) {
    ProcOk(p) && TableOk(p.task.files, p.slots)
  }

  function CursorOf(f: File): A.Cursor
    requires f.used && EntryOk(f)
  {
    A.Cursor(f.node.value, f.offset)
  }

  ghost function Cursors(files: seq<File>, slots: seq<int>): (views: seq<Option<A.Cursor>>)
    requires TableOk(files, slots)
    ensures |views| == |slots|
  {
    seq(|slots|, i requires 0 <= i < |slots| =>
      if slots[i] < 0 then None else assert SlotOk(files, slots[i]); Some(CursorOf(files[slots[i]])))
  }

  ghost function Leaked(files: seq<File>, slots: seq<int>): nat {
    |UsedFds(files) - OwnedFds(slots)|
  }

  /** What the user program can observe of a process. */
  ghost function Abstract(p: Proc): (a: A.Abs)
    requires Coupled(p)
    ensures A.AbsOk(a)
  {
    A.Abs(Memory(p), Cursors(p.task.files, p.slots), Leaked(p.task.files, p.slots), p.task.out,
          p.exited, p.exitStatus, p.lastError, p.lastSyscallError)
  }

  // ----- counting descriptors

  lemma {:induction false} OwnedCount(slots: seq<int>, views: seq<Option<A.Cursor>>)
    requires |slots| == |views| && Distinct(slots)
    requires forall i | 0 <= i < |slots| :: slots[i] >= 0 <==> views[i].Some?
    ensures |OwnedFds(slots)| == A.Occupied(views)
  {
    if slots == [] {
    } else {
      OwnedCount(slots[1..], views[1..]);
    }
  }

  lemma SubsetSize(a: set<int>, b: set<int>)
    requires a <= b
    ensures |a| <= |b|
  {
    assert b == a + (b - a);
  }

  lemma FullTable(files: seq<File>)
    requires |files| == MAX_FILES
    requires forall fd | 0 <= fd < FD_FIRST_FILE :: !files[fd].used
    ensures |UsedFds(files)| <= A.CAPACITY
    ensures LeastFree(files, FD_FIRST_FILE).None? <==> |UsedFds(files)| == A.CAPACITY
  {
    var used, all := UsedFds(files), {3, 4, 5, 6, 7};
    match LeastFree(files, FD_FIRST_FILE)
    case None =>
      assert used == all;
    case Some(fd) =>
      SubsetSize(used, all - {fd as int});
  }

  lemma OwnedAreUsed(files: seq<File>, slots: seq<int>)
    requires TableOk(files, slots)
    ensures OwnedFds(slots) <= UsedFds(files)
    ensures |UsedFds(files)| == |OwnedFds(slots)| + Leaked(files, slots)
  {
    var used, owned := UsedFds(files), OwnedFds(slots);
    assert forall i | 0 <= i < |slots| :: SlotOk(files, slots[i]);
    assert used == owned + (used - owned);
  }

  /** Every used descriptor is either in exactly one slot or leaked, and the table
      is full exactly when `CAPACITY` descriptors are used. */
  lemma DescriptorsAccountedFor(files: seq<File>, slots: seq<int>)
    requires TableOk(files, slots)
    ensures |UsedFds(files)| == A.Occupied(Cursors(files, slots)) + Leaked(files, slots) <= A.CAPACITY
    ensures LeastFree(files, FD_FIRST_FILE).None? <==> |UsedFds(files)| == A.CAPACITY
  {
    FullTable(files);
    OwnedAreUsed(files, slots);
    OwnedCount(slots, Cursors(files, slots));
  }

  lemma TableOkAfterOpen(files: seq<File>, slots: seq<int>, fd: nat, node: Node, i: nat)
    requires TableOk(files, slots) && i < |slots|
    requires FD_FIRST_FILE <= fd < MAX_FILES && !files[fd].used && IsValid(node) && Readable(node)
    ensures var files', slots' := files[fd := File(Some(node), 0, true)], slots[i := fd];
            && TableOk(files', slots')
            && Cursors(files', slots') == Cursors(files, slots)[i := Some(A.Cursor(node, 0))]
  {
    var files', slots' := files[fd := File(Some(node), 0, true)], slots[i := fd];
    forall k | 0 <= k < |slots| && k != i
      ensures slots'[k] == slots[k] != fd && SlotOk(files', slots[k])
    {
      assert SlotOk(files, slots[k]);
    }
    assert TableOk(files', slots');
    forall k | 0 <= k < |slots|
      ensures Cursors(files', slots')[k] == Cursors(files, slots)[i := Some(A.Cursor(node, 0))][k]
    {
      assert SlotOk(files, slots[k]);
    }
  }

  lemma LeakedSize(used: set<int>, owned: set<int>, before: int, fd: int)
    requires owned <= used && fd !in used && fd >= 0
    requires before in owned <==> before >= 0
    ensures |(used + {fd}) - (owned - {before} + {fd})| == |used - owned| + if before >= 0 then 1 else 0
  {
    var after := (used + {fd}) - (owned - {before} + {fd});
    if before >= 0 {
      assert after == (used - owned) + {before};
    } else {
      assert after == used - owned;
    }
  }

  lemma OwnedAfterUpdate(slots: seq<int>, i: nat, fd: int)
    requires Distinct(slots) && i < |slots| && fd !in OwnedFds(slots)
    ensures OwnedFds(slots[i := fd]) == OwnedFds(slots) - {slots[i]} + if fd >= 0 then {fd} else {}
  {
    var slots' := slots[i := fd];
    forall x | x in slots && x >= 0 && x != slots[i]
      ensures x in slots'
    {
      var k :| 0 <= k < |slots| && slots[k] == x;
      assert slots'[k] == x;
    }
    assert slots'[i] == fd;
  }

  lemma LeakedAfterOpen(files: seq<File>, slots: seq<int>, fd: nat, f: File, i: nat)
    requires OwnedFds(slots) <= UsedFds(files) && Distinct(slots) && i < |slots|
    requires fd < |files| && !files[fd].used && f.used
    ensures Leaked(files[fd := f], slots[i := fd]) == Leaked(files, slots) + if slots[i] >= 0 then 1 else 0
  {
    hide Distinct;
    var used, owned := UsedFds(files), OwnedFds(slots);
    OwnedAfterUpdate(slots, i, fd);
    assert UsedFds(files[fd := f]) == used + {fd as int};
    assert slots[i] >= 0 ==> slots[i] in owned;
    LeakedSize(used, owned, slots[i], fd);
  }

  /** Filling a slot with a descriptor that was free leaks what the slot held. */
  lemma TableOpen(files: seq<File>, slots: seq<int>, fd: nat, node: Node, i: nat)
    requires TableOk(files, slots) && i < |slots|
    requires FD_FIRST_FILE <= fd < MAX_FILES && !files[fd].used && IsValid(node) && Readable(node)
    ensures var files', slots' := files[fd := File(Some(node), 0, true)], slots[i := fd];
            && TableOk(files', slots')
            && Cursors(files', slots') == Cursors(files, slots)[i := Some(A.Cursor(node, 0))]
            && Leaked(files', slots') == Leaked(files, slots) + if slots[i] >= 0 then 1 else 0
  {
    hide Leaked, Cursors;
    TableOkAfterOpen(files, slots, fd, node, i);
    OwnedAreUsed(files, slots);
    LeakedAfterOpen(files, slots, fd, File(Some(node), 0, true), i);
  }

  /** Moving a descriptor's cursor moves the cursor of the one slot that names it. */
  lemma TableAdvance(files: seq<File>, slots: seq<int>, i: nat, offset: nat)
    requires TableOk(files, slots) && i < |slots| && slots[i] >= 0
    requires SlotOk(files, slots[i]) && offset <= files[slots[i]].node.value.size
    ensures var f := files[slots[i]].(offset := offset);
            var files' := files[slots[i] := f];
            && TableOk(files', slots)
            && Cursors(files', slots) == Cursors(files, slots)[i := Some(CursorOf(f))]
            && Leaked(files', slots) == Leaked(files, slots)
  {
    var files' := files[slots[i] := files[slots[i]].(offset := offset)];
    assert forall k | 0 <= k < |slots| :: SlotOk(files, slots[k]) && SlotOk(files', slots[k]);
    assert UsedFds(files') == UsedFds(files);
  }

  /** Closing through a slot frees exactly the descriptor the slot names. */
  lemma TableClose(files: seq<File>, slots: seq<int>, i: nat)
    requires TableOk(files, slots) && i < |slots| && slots[i] >= 0
    requires SlotOk(files, slots[i])
    ensures var files', slots' := files[slots[i] := FREE], slots[i := -1];
            && TableOk(files', slots')
            && Cursors(files', slots') == Cursors(files, slots)[i := None]
            && Leaked(files', slots') == Leaked(files, slots)
  {
    var files', slots' := files[slots[i] := FREE], slots[i := -1];
    assert forall k | 0 <= k < |slots| && k != i :: SlotOk(files, slots[k]) && slots'[k] == slots[k];
    OwnedAfterUpdate(slots, i, -1);
    assert UsedFds(files') - OwnedFds(slots') == UsedFds(files) - OwnedFds(slots);
  }

  // ----- the two range checks

  /** The interpreter's 32-bit check is the integer one; on non-empty ranges it
      agrees with the kernel's 64-bit address check, and what it lets through names
      the same bytes. */
  lemma RangeChecksAgree(p: Proc, offset: Word32, len: Word32)
    requires ProcOk(p)
    ensures UserRangeOk(offset, len) <==> A.InMemory(offset, len)
    ensures UserRangeOk(offset, len) ==>
              InUserRange(p.task, p.task.base + offset, len) &&
              Fetch(p.task.ram, p.task.base + offset, len) == Memory(p)[offset..offset + len]
    ensures len > 0 && p.task.base + offset < WORD ==>
              (UserRangeOk(offset, len) <==> InUserRange(p.task, p.task.base + offset, len))
  {
    if UserRangeOk(offset, len) {
      var here := Memory(p)[offset..offset + len];
      assert forall i | 0 <= i < len :: here[i] == p.task.ram[p.task.base + offset + i];
      assert Fetch(p.task.ram, p.task.base + offset, len) == here;
    }
  }

  /** `p` with `bytes` stored at `offset` in its memory. */
  ghost function Store(p: Proc, offset: nat, bytes: seq<Byte>): (p': Proc)
    requires ProcOk(p) && offset + |bytes| <= MEMORY_SIZE
    ensures ProcOk(p')
  {
    p.(task := p.task.(ram := Splice(p.task.ram, p.task.base + offset, bytes)))
  }

  /** Storing inside the window of the address space is storing in process memory. */
  lemma StoreIsSplice(p: Proc, offset: nat, bytes: seq<Byte>)
    requires ProcOk(p) && offset + |bytes| <= MEMORY_SIZE
    ensures Memory(Store(p, offset, bytes)) == Splice(Memory(p), offset, bytes)
  {
  }

  // ----- one operation, in terms of process memory

  ghost function Stopped(p: Proc, e: Errno): (Proc, UserError) {
    (p.(lastError := USyscall, lastSyscallError := e), USyscall)
  }

  lemma StepOpen(p: Proc, nodes: seq<Node>, op: Op)
    requires ProcOk(p) && AllReadable(nodes) && op.opcode == OP_OPEN
    requires op.fdSlot < FD_SLOTS && A.InMemory(op.offset, op.len)
    ensures StepOp(p, nodes, op) ==
            var node := Find(nodes, Memory(p)[op.offset..op.offset + op.len]);
            var fd := LeastFree(p.task.files, FD_FIRST_FILE);
            if node.None? then Stopped(p, ENOENT)
            else if fd.None? then Stopped(p, EMFILE)
            else (p.(task := p.task.(files := p.task.files[fd.value := File(node, 0, true)]),
                     slots := p.slots[op.fdSlot := fd.value], lastSyscallError := OK), UOk)
  {
    RangeChecksAgree(p, op.offset, op.len);
  }

  /** `p` after `bytes` were delivered at `offset` through slot `i`. */
  ghost function Deliver(p: Proc, i: nat, offset: nat, bytes: seq<Byte>): (p': Proc)
    requires ProcOk(p) && i < FD_SLOTS && 0 <= p.slots[i] < MAX_FILES
    requires offset + |bytes| <= MEMORY_SIZE
    ensures ProcOk(p')
  {
    var fd := p.slots[i];
    var f := p.task.files[fd];
    var stored := Store(p, offset, bytes);
    assert FileReadable(f);
    stored.(task := stored.task.(files := p.task.files[fd := f.(offset := f.offset + |bytes|)]),
            lastSyscallError := OK)
  }

  ghost function Incoming(p: Proc, i: nat, len: nat): (bytes: seq<Byte>)
    requires ProcOk(p) && i < FD_SLOTS && 0 <= p.slots[i] < MAX_FILES
    ensures |bytes| <= len
  {
    var f := p.task.files[p.slots[i]];
    assert FileReadable(f);
    ReadBytes(f.node, f.offset, len)
  }

  lemma StepRead(p: Proc, nodes: seq<Node>, op: Op)
    requires ProcOk(p) && AllReadable(nodes) && op.opcode == OP_READ
    requires op.fdSlot < FD_SLOTS && A.InMemory(op.offset, op.len)
    requires p.slots[op.fdSlot] >= 0 && IsOpen(p.task, p.slots[op.fdSlot])
    ensures StepOp(p, nodes, op) ==
            (Deliver(p, op.fdSlot, op.offset, Incoming(p, op.fdSlot, op.len)), UOk)
  {
    RangeChecksAgree(p, op.offset, op.len);
  }

  lemma StepClose(p: Proc, nodes: seq<Node>, op: Op)
    requires ProcOk(p) && AllReadable(nodes) && op.opcode == OP_CLOSE && op.fdSlot < FD_SLOTS
    requires p.slots[op.fdSlot] >= 0 && IsOpen(p.task, p.slots[op.fdSlot])
    ensures StepOp(p, nodes, op) ==
            (p.(task := p.task.(files := p.task.files[p.slots[op.fdSlot] := FREE]),
                slots := p.slots[op.fdSlot := -1], lastSyscallError := OK), UOk)
  {
  }

  lemma StepWrite(p: Proc, nodes: seq<Node>, op: Op)
    requires ProcOk(p) && AllReadable(nodes) && op.opcode == OP_WRITE && A.InMemory(op.offset, op.len)
    ensures StepOp(p, nodes, op) ==
            (p.(task := p.task.(out := p.task.out + Memory(p)[op.offset..op.offset + op.len]),
                lastSyscallError := OK), UOk)
  {
    RangeChecksAgree(p, op.offset, op.len);
  }

  lemma StepStat(p: Proc, nodes: seq<Node>, op: Op)
    requires ProcOk(p) && AllReadable(nodes) && op.opcode == OP_STAT
    requires A.InMemory(op.offset, op.len) && A.InMemory(op.auxOffset, STAT_SIZE)
    ensures StepOp(p, nodes, op) ==
            var node := Find(nodes, Memory(p)[op.offset..op.offset + op.len]);
            if node.None? then Stopped(p, ENOENT)
            else (Store(p, op.auxOffset, StatImage(node.value.size, MODE_FILE, true)).(lastSyscallError := OK), UOk)
  {
    hide StatImage, Splice, Find, InUserRange, UserRangeOk, Fetch, Memory;
    RangeChecksAgree(p, op.offset, op.len);
    RangeChecksAgree(p, op.auxOffset, STAT_SIZE);
    var regs := Regs(NR_STAT, p.task.base + op.offset, op.len, p.task.base + op.auxOffset, 0, 0, 0);
    assert Prepare(p, op) == Trap(regs);
    assert Dispatch(p.task, nodes, regs) == SysStat(p.task, nodes, regs.arg0, regs.arg1, regs.arg2);
    hide Prepare, Dispatch;
  }

  /** EXIT carries a negative status through the 64-bit register unchanged. */
  lemma StepExit(p: Proc, nodes: seq<Node>, op: Op)
    requires ProcOk(p) && AllReadable(nodes) && op.opcode == OP_EXIT
    ensures StepOp(p, nodes, op) ==
            (p.(exited := true, exitStatus := op.exitStatus, lastSyscallError := OK), UOk)
  {
    assert ToInt32(ToWord(op.exitStatus)) == op.exitStatus;
  }

  /** Operations the interpreter itself refuses. */
  predicate Refusable(p: Proc, op: Op)
    requires |p.slots| == FD_SLOTS
  {
    var slotBad := op.fdSlot >= FD_SLOTS;
    var rangeBad := !A.InMemory(op.offset, op.len);
    if op.opcode == OP_WRITE then rangeBad
    else if op.opcode == OP_OPEN then slotBad || rangeBad
    else if op.opcode == OP_READ then slotBad || p.slots[op.fdSlot] < 0 || rangeBad
    else if op.opcode == OP_CLOSE then slotBad || p.slots[op.fdSlot] < 0
    else if op.opcode == OP_STAT then rangeBad || !A.InMemory(op.auxOffset, STAT_SIZE)
    else op.opcode != OP_EXIT
  }

  function Reason(op: Op): UserError {
    if op.opcode in {OP_WRITE, OP_OPEN, OP_STAT} then UFault
    else if op.opcode in {OP_READ, OP_CLOSE} then UBadFd
    else UInval
  }

  lemma StepRefused(p: Proc, nodes: seq<Node>, op: Op)
    requires ProcOk(p) && AllReadable(nodes)
    ensures Prepare(p, op).Refuse? <==> Refusable(p, op)
    ensures Refusable(p, op) ==> StepOp(p, nodes, op) == (p.(lastError := Reason(op)), Reason(op))
  {
  }

  // ----- the simulation

  ghost predicate Simulates(p: Proc, nodes: seq<Node>, op: Op)
    requires Coupled(p) && AllReadable(nodes)
  {
    var (p', e) := StepOp(p, nodes, op);
    Coupled(p') && (Abstract(p'), e) == A.Step(Abstract(p), nodes, op)
  }

  lemma SimulateRefused(p: Proc, nodes: seq<Node>, op: Op)
    requires Coupled(p) && AllReadable(nodes) && Refusable(p, op)
    ensures Simulates(p, nodes, op)
  {
    StepRefused(p, nodes, op);
  }

  lemma AbstractOpen(p: Proc, node: Node, fd: nat, i: nat)
    requires Coupled(p) && i < FD_SLOTS && IsValid(node) && Readable(node)
    requires FD_FIRST_FILE <= fd < MAX_FILES && !p.task.files[fd].used
    ensures var p' := p.(task := p.task.(files := p.task.files[fd := File(Some(node), 0, true)]),
                         slots := p.slots[i := fd], lastSyscallError := OK);
            && Coupled(p')
            && Abstract(p') == Abstract(p).(
                 slots := Abstract(p).slots[i := Some(A.Cursor(node, 0))],
                 leaked := Abstract(p).leaked + if Abstract(p).slots[i].Some? then 1 else 0,
                 lastSyscallError := OK)
  {
    hide Leaked, OwnedFds, UsedFds;
    TableOpen(p.task.files, p.slots, fd, node, i);
  }

  lemma SimulateOpen(p: Proc, nodes: seq<Node>, op: Op)
    requires Coupled(p) && AllReadable(nodes) && op.opcode == OP_OPEN && !Refusable(p, op)
    ensures Simulates(p, nodes, op)
  {
    hide Leaked, Cursors, TableOk, LeastFree, Find, Dispatch, Prepare, UsedFds, OwnedFds;
    StepOpen(p, nodes, op);
    DescriptorsAccountedFor(p.task.files, p.slots);
    var node := Find(nodes, Memory(p)[op.offset..op.offset + op.len]);
    var fd := LeastFree(p.task.files, FD_FIRST_FILE);
    if node.Some? && fd.Some? {
      AbstractOpen(p, node.value, fd.value, op.fdSlot);
    }
  }

  lemma CursorAt(files: seq<File>, slots: seq<int>, i: nat)
    requires TableOk(files, slots) && i < |slots| && slots[i] >= 0 && SlotOk(files, slots[i])
    ensures Cursors(files, slots)[i] == Some(CursorOf(files[slots[i]]))
  {
  }

  lemma IncomingIsSlice(p: Proc, i: nat, len: nat)
    requires ProcOk(p) && i < FD_SLOTS && 0 <= p.slots[i] < MAX_FILES
    requires p.task.files[p.slots[i]].used && EntryOk(p.task.files[p.slots[i]])
    ensures var c := CursorOf(p.task.files[p.slots[i]]);
            Incoming(p, i, len) == Contents(c.node)[c.offset..Min(c.offset + len, c.node.size)]
  {
  }

  lemma AbstractRead(p: Proc, i: nat, offset: nat, len: nat)
    requires Coupled(p) && i < FD_SLOTS && p.slots[i] >= 0 && SlotOk(p.task.files, p.slots[i])
    requires offset + len <= MEMORY_SIZE
    ensures var p' := Deliver(p, i, offset, Incoming(p, i, len));
            var c := CursorOf(p.task.files[p.slots[i]]);
            var end := Min(c.offset + len, c.node.size);
            && Coupled(p')
            && Abstract(p).slots[i] == Some(c)
            && Abstract(p') == Abstract(p).(
                 mem := Splice(Memory(p), offset, Contents(c.node)[c.offset..end]),
                 slots := Abstract(p).slots[i := Some(c.(offset := end))], lastSyscallError := OK)
  {
    hide Leaked, Cursors, Splice;
    var f := p.task.files[p.slots[i]];
    var bytes := Incoming(p, i, len);
    IncomingIsSlice(p, i, len);
    StoreIsSplice(p, offset, bytes);
    TableAdvance(p.task.files, p.slots, i, f.offset + |bytes|);
    assert Abstract(p).slots[i] == Some(CursorOf(f)) by { CursorAt(p.task.files, p.slots, i); }
  }

  lemma SimulateRead(p: Proc, nodes: seq<Node>, op: Op)
    requires Coupled(p) && AllReadable(nodes) && op.opcode == OP_READ && !Refusable(p, op)
    ensures Simulates(p, nodes, op)
  {
    hide Leaked, Cursors;
    assert SlotOk(p.task.files, p.slots[op.fdSlot]);
    StepRead(p, nodes, op);
    AbstractRead(p, op.fdSlot, op.offset, op.len);
  }

  lemma AbstractClose(p: Proc, i: nat)
    requires Coupled(p) && i < FD_SLOTS && p.slots[i] >= 0 && SlotOk(p.task.files, p.slots[i])
    ensures var p' := p.(task := p.task.(files := p.task.files[p.slots[i] := FREE]),
                         slots := p.slots[i := -1], lastSyscallError := OK);
            && Coupled(p')
            && Abstract(p').slots == Abstract(p).slots[i := None]
            && Abstract(p') == Abstract(p).(slots := Abstract(p).slots[i := None], lastSyscallError := OK)
  {
    hide Leaked, OwnedFds, UsedFds;
    TableClose(p.task.files, p.slots, i);
  }

  lemma SimulateClose(p: Proc, nodes: seq<Node>, op: Op)
    requires Coupled(p) && AllReadable(nodes) && op.opcode == OP_CLOSE && !Refusable(p, op)
    ensures Simulates(p, nodes, op)
  {
    hide Leaked, Cursors;
    assert SlotOk(p.task.files, p.slots[op.fdSlot]);
    StepClose(p, nodes, op);
    CursorAt(p.task.files, p.slots, op.fdSlot);
    AbstractClose(p, op.fdSlot);
  }

  lemma SimulateStat(p: Proc, nodes: seq<Node>, op: Op)
    requires Coupled(p) && AllReadable(nodes) && op.opcode == OP_STAT && !Refusable(p, op)
    ensures Simulates(p, nodes, op)
  {
    hide StepOp, Leaked, Cursors, Splice, StatImage, Find;
    StepStat(p, nodes, op);
    var node := Find(nodes, Memory(p)[op.offset..op.offset + op.len]);
    if node.Some? {
      StoreIsSplice(p, op.auxOffset, StatImage(node.value.size, MODE_FILE, true));
    }
  }

  lemma SimulateWriteOrExit(p: Proc, nodes: seq<Node>, op: Op)
    requires Coupled(p) && AllReadable(nodes) && op.opcode in {OP_WRITE, OP_EXIT} && !Refusable(p, op)
    ensures Simulates(p, nodes, op)
  {
    hide Leaked, Cursors;
    if op.opcode == OP_WRITE {
      StepWrite(p, nodes, op);
    } else {
      StepExit(p, nodes, op);
    }
  }

  lemma SimulateStep(p: Proc, nodes: seq<Node>, op: Op)
    requires Coupled(p) && AllReadable(nodes)
    ensures Simulates(p, nodes, op)
  {
    hide Simulates, TableOk;
    if Refusable(p, op) {
      SimulateRefused(p, nodes, op);
    } else if op.opcode == OP_OPEN {
      SimulateOpen(p, nodes, op);
    } else if op.opcode == OP_READ {
      SimulateRead(p, nodes, op);
    } else if op.opcode == OP_CLOSE {
      SimulateClose(p, nodes, op);
    } else if op.opcode == OP_STAT {
      SimulateStat(p, nodes, op);
    } else {
      SimulateWriteOrExit(p, nodes, op);
    }
  }

  // ----- whole runs

  lemma {:induction false} SimulateOps(p: Proc, nodes: seq<Node>, ops: seq<Op>)
    requires Coupled(p) && AllReadable(nodes)
    ensures Coupled(RunOps(p, nodes, ops).0)
    ensures (Abstract(RunOps(p, nodes, ops).0), RunOps(p, nodes, ops).1) == A.RunOps(Abstract(p), nodes, ops)
    decreases |ops|
  {
    if ops == [] || p.exited {
    } else {
      SimulateStep(p, nodes, ops[0]);
      var (p1, e) := StepOp(p, nodes, ops[0]);
      if e == UOk {
        SimulateOps(p1, nodes, ops[1..]);
      }
    }
  }

  lemma LoadRefines(p: Proc, prog: Program)
    requires Coupled(p) && ProgramOk(prog) && Loads(prog)
    ensures Coupled(LoadProgram(p, prog))
    ensures !A.Refuses(prog) && Abstract(LoadProgram(p, prog)) == A.Load(Abstract(p), prog)
  {
    hide Leaked, Cursors, TableOk;
    var image := if prog.initialLen == 0 then [] else prog.initial.value[..prog.initialLen];
    StoreIsSplice(p, 0, image);
    assert LoadProgram(p, prog) == Store(p, 0, image).(lastError := UOk, lastSyscallError := OK);
    assert Splice(Memory(p), 0, image) == image + Memory(p)[|image|..];
  }

  /** Running any program from any coupled process keeps the coupling and gives
      the abstract machine's return code, memory, output, exit state and errors. */
  lemma RunRefines(p: Proc, prog: Program)
    requires Coupled(p) && ProgramOk(prog)
    ensures Coupled(Run(p, prog).0)
    ensures (Abstract(Run(p, prog).0), Run(p, prog).1) == A.Run(Abstract(p), prog)
  {
    assert Visible(prog.fsNodes, prog.fsCount) == A.Files(prog);
    assert A.Refuses(prog) <==> !Loads(prog);
    hide LoadProgram, Abstract, Coupled, A.Load, A.Files, A.Refuses, Loads, Visible;
    if Loads(prog) {
      LoadRefines(p, prog);
      SimulateOps(LoadProgram(p, prog), A.Files(prog), prog.ops);
    }
  }

  /** The load step on the program's own fields. A program whose image is too long, or
      missing though not empty, leaves the process as it was; every other program,
      also one without any image, starts with its image at the front of memory, the
      rest of memory as it was, and both error fields cleared. */
  lemma LoadExactly(p: Proc, prog: Program)
    requires ProcOk(p) && ProgramOk(prog) && prog.ops == []
    ensures var (p', e) := Run(p, prog);
            if prog.initialLen > 512 || (prog.initialLen > 0 && prog.initial.None?) then
              e == UFault && p' == p
            else
              && e == UOk
              && p' == p.(task := p.task.(ram := p'.task.ram), lastError := UOk, lastSyscallError := OK)
              && Memory(p') == (if prog.initialLen == 0 then Memory(p)
                                else prog.initial.value[..prog.initialLen] + Memory(p)[prog.initialLen..])
  {
    if prog.initialLen <= 512 && (prog.initialLen == 0 || prog.initial.Some?) {
      var image := if prog.initialLen == 0 then [] else prog.initial.value[..prog.initialLen];
      StoreIsSplice(p, 0, image);
      assert Splice(Memory(p), 0, image) == image + Memory(p)[|image|..];
    }
  }

  lemma InitRefines(ram: seq<Byte>, base: Word, pid: Word32, sink: seq<Byte>)
    requires 0 < base && base + MEMORY_SIZE < WORD && base + MEMORY_SIZE <= |ram| <= WORD
    ensures Coupled(InitProc(ram, base, pid, sink))
    ensures Abstract(InitProc(ram, base, pid, sink)) == A.Fresh(sink)
  {
    var p := InitProc(ram, base, pid, sink);
    assert UsedFds(p.task.files) == {};
    assert Memory(p) == A.Fresh(sink).mem;
    assert Abstract(p).slots == A.Fresh(sink).slots;
  }

  /** Safety over every history: after any number of runs from a coupled process,
      successful or stopped by an error, the coupling holds, every run returned the
      abstract machine's code, and the abstract machine describes everything the
      programs can observe. */
  lemma {:induction false} HistoryRefines(p: Proc, progs: seq<Program>)
    requires Coupled(p) && forall i | 0 <= i < |progs| :: ProgramOk(progs[i])
    ensures Coupled(RunAll(p, progs).0)
    ensures (Abstract(RunAll(p, progs).0), RunAll(p, progs).1) == A.RunAll(Abstract(p), progs)
    decreases |progs|
  {
    hide Leaked, Cursors, TableOk, Run, A.Run;
    if progs == [] {
    } else {
      RunRefines(p, progs[0]);
      HistoryRefines(Run(p, progs[0]).0, progs[1..]);
    }
  }

  /** In particular from initialisation on, over any address space. */
  lemma FreshHistoryRefines(ram: seq<Byte>, base: Word, pid: Word32, sink: seq<Byte>, progs: seq<Program>)
    requires 0 < base && base + MEMORY_SIZE < WORD && base + MEMORY_SIZE <= |ram| <= WORD
    requires forall i | 0 <= i < |progs| :: ProgramOk(progs[i])
    ensures var (p, codes) := RunAll(InitProc(ram, base, pid, sink), progs);
            Coupled(p) && (Abstract(p), codes) == A.RunAll(A.Fresh(sink), progs)
  {
    hide Coupled, InitProc, Abstract, ProgramOk;
    InitRefines(ram, base, pid, sink);
    HistoryRefines(InitProc(ram, base, pid, sink), progs);
  }

  /** The kernel only ever refuses an interpreted operation with ENOENT, because
      no such file is mounted, or EMFILE. In particular a READ or CLOSE the
      interpreter issues is never answered EBADF. */
  lemma OnlyTwoKernelErrors(p: Proc, nodes: seq<Node>, op: Op)
    requires Coupled(p) && AllReadable(nodes) && Prepare(p, op).Trap?
    ensures var r := Dispatch(p.task, nodes, Prepare(p, op).regs).1;
            && (op.opcode == OP_OPEN ==> r.error in {OK, ENOENT, EMFILE})
            && (op.opcode == OP_STAT ==> r.error in {OK, ENOENT})
            && (op.opcode != OP_OPEN && op.opcode != OP_STAT ==> r.error == OK)
  {
    hide Leaked, Cursors, TableOk;
    SimulateStep(p, nodes, op);
    RangeChecksAgree(p, op.offset, op.len);
    RangeChecksAgree(p, op.auxOffset, STAT_SIZE);
  }
}
