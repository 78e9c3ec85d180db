/** The user-program interpreter, as functions on values. */
module UserSpec {
  import opened Machine
  import opened Fs
  import opened SyscallSpec

  const MEMORY_SIZE: nat := 512
  const FD_SLOTS: nat := 4

  const OP_WRITE: Word32 := 1
  const OP_OPEN: Word32 := 2
  const OP_READ: Word32 := 3
  const OP_CLOSE: Word32 := 4
  const OP_STAT: Word32 := 5
  const OP_EXIT: Word32 := 6

  datatype UserError = UOk | UFault | USyscall | UBadFd | UInval

  datatype Op = Op(opcode: Word32, fdSlot: Word32, offset: Word32, len: Word32, auxOffset: Word32, exitStatus: Int32)

  datatype Program = Program(initial: Option<seq<Byte>>, initialLen: Word, ops: seq<Op>,
                             fsNodes: Option<seq<Node>>, fsCount: nat)

  /** A process: its task, and the runtime's own fields. A slot holds a kernel
      descriptor or -1. */
  datatype Proc = Proc(task: TaskState, slots: seq<Int32>, exited: bool, exitStatus: Int32,
                       lastError: UserError, lastSyscallError: Errno)

  predicate UserRangeOk(offset: Word32, len: Word32) {
    offset <= MEMORY_SIZE && len <= MEMORY_SIZE - offset
  }

  ghost predicate ProgramOk(prog: Program) {
    && (prog.initial.Some? ==> prog.initialLen <= |prog.initial.value|)
    && (prog.fsNodes.Some? ==> prog.fsCount <= |prog.fsNodes.value|)
    && AllReadable(Visible(prog.fsNodes, prog.fsCount))
  }

  /** The task's window is the process memory: 512 bytes of a C object, which
      therefore end below 2^64. */
  ghost predicate ProcOk(p: Proc) {
    && WellFormed(p.task)
    && p.task.len == MEMORY_SIZE && p.task.base + MEMORY_SIZE < WORD
    && |p.slots| == FD_SLOTS
  }

  ghost function Memory(p: Proc): seq<Byte>
    requires ProcOk(p)
  {
    p.task.ram[p.task.base..p.task.base + MEMORY_SIZE]
  }

  /** Either the interpreter refuses the operation, or it traps with registers. */
  datatype Prepared = Refuse(error: UserError) | Trap(regs: Regs)

  function Call(nr: Word, arg0: Word, arg1: Word, arg2: Word): Prepared {
    Trap(Regs(nr, arg0, arg1, arg2, 0, 0, 0))
  }

  ghost function Prepare(p: Proc, op: Op): Prepared
    requires ProcOk(p)
  {
    var base := p.task.base;
    if op.opcode == OP_WRITE then
      if !UserRangeOk(op.offset, op.len) then Refuse(UFault)
      else Call(NR_WRITE, FD_STDOUT, base + op.offset, op.len)
    else if op.opcode == OP_OPEN then
      if op.fdSlot >= FD_SLOTS || !UserRangeOk(op.offset, op.len) then Refuse(UFault)
      else Call(NR_OPEN, base + op.offset, op.len, 0)
    else if op.opcode == OP_READ then
      if op.fdSlot >= FD_SLOTS || p.slots[op.fdSlot] < 0 || !UserRangeOk(op.offset, op.len) then Refuse(UBadFd)
      else Call(NR_READ, p.slots[op.fdSlot], base + op.offset, op.len)
    else if op.opcode == OP_CLOSE then
      if op.fdSlot >= FD_SLOTS || p.slots[op.fdSlot] < 0 then Refuse(UBadFd)
      else Call(NR_CLOSE, p.slots[op.fdSlot], 0, 0)
    else if op.opcode == OP_STAT then
      if !UserRangeOk(op.offset, op.len) || !UserRangeOk(op.auxOffset, STAT_SIZE) then Refuse(UFault)
      else Call(NR_STAT, base + op.offset, op.len, base + op.auxOffset)
    else if op.opcode == OP_EXIT then Call(NR_EXIT, ToWord(op.exitStatus), 0, 0)
    else Refuse(UInval)
  }

  /** Effect of one operation, and the error that stops the run, if any. */
  ghost function StepOp(p: Proc, nodes: seq<Node>, op: Op): (Proc, UserError)
    requires ProcOk(p) && AllReadable(nodes)
  {
    match Prepare(p, op)
    case Refuse(e) => (p.(lastError := e), e)
    case Trap(regs) =>
      var (t, r) := Dispatch(p.task, nodes, regs);
      var p := p.(task := t, lastSyscallError := r.error);
      if r.error != OK then (p.(lastError := USyscall), USyscall)
      else
        var p := if r.shouldExit then p.(exited := true, exitStatus := r.exitStatus) else p;
        if op.opcode == OP_OPEN then (p.(slots := p.slots[op.fdSlot := ToInt32(ToWord(r.value))]), UOk)
        else if op.opcode == OP_CLOSE then (p.(slots := p.slots[op.fdSlot := -1]), UOk)
        else (p, UOk)
  }

  lemma StepOpOk(p: Proc, nodes: seq<Node>, op: Op)
    requires ProcOk(p) && AllReadable(nodes)
    ensures ProcOk(StepOp(p, nodes, op).0)
  {
    match Prepare(p, op)
    case Refuse(e) =>
    case Trap(regs) => DispatchWellFormed(p.task, nodes, regs);
  }

  ghost function RunOps(p: Proc, nodes: seq<Node>, ops: seq<Op>): (r: (Proc, UserError))
    requires ProcOk(p) && AllReadable(nodes)
    ensures ProcOk(r.0)
    decreases |ops|
  {
    if ops == [] || p.exited then (p, UOk)
    else
      StepOpOk(p, nodes, ops[0]);
      var (p1, e) := StepOp(p, nodes, ops[0]);
      if e != UOk then (p1, e) else RunOps(p1, nodes, ops[1..])
  }

  /** Whether the initial memory image can be copied in. */
  predicate Loads(prog: Program) {
    prog.initialLen <= MEMORY_SIZE && (prog.initialLen == 0 || prog.initial.Some?)
  }

  ghost function LoadProgram(p: Proc, prog: Program): Proc
    requires ProcOk(p) && ProgramOk(prog) && Loads(prog)
  {
    var image := if prog.initialLen == 0 then [] else prog.initial.value[..prog.initialLen];
    p.(task := p.task.(ram := Splice(p.task.ram, p.task.base, image)),
       lastError := UOk, lastSyscallError := OK)
  }

  /** `kuser_run`. A program that does not load leaves the process as it was. */
  ghost function Run(p: Proc, prog: Program): (r: (Proc, UserError))
    requires ProcOk(p) && ProgramOk(prog)
    ensures ProcOk(r.0)
  {
    if !Loads(prog) then (p, UFault)
    else RunOps(LoadProgram(p, prog), Visible(prog.fsNodes, prog.fsCount), prog.ops)
  }

  /** Any number of runs, one after the other, whatever each returned: the final
      process and the return codes. */
  ghost function RunAll(p: Proc, progs: seq<Program>): (r: (Proc, seq<UserError>))
    requires ProcOk(p) && forall i | 0 <= i < |progs| :: ProgramOk(progs[i])
    ensures ProcOk(r.0) && |r.1| == |progs|
    decreases |progs|
  {
    if progs == [] then (p, [])
    else
      var (p1, e) := Run(p, progs[0]);
      var (p2, es) := RunAll(p1, progs[1..]);
      (p2, [e] + es)
  }

  /** `kuser_init_process` over an address space: the 512 bytes are zeroed. `sink` is
      what the given output callback has already received. */
  ghost function InitProc(ram: seq<Byte>, base: Word, pid: Word32, sink: seq<Byte>): (p: Proc)
    requires 0 < base && base + MEMORY_SIZE < WORD && base + MEMORY_SIZE <= |ram| <= WORD
    ensures ProcOk(p)
  {
    var zeroed := Splice(ram, base, seq(MEMORY_SIZE, _ => 0));
    Proc(TaskState(pid, base, MEMORY_SIZE, zeroed, seq(MAX_FILES, _ => FREE), sink),
         seq(FD_SLOTS, _ => -1), false, 0, UOk, OK)
  }
}
