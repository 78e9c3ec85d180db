/** The reference machine a user program sees: 512 bytes of memory and four
    slots, each empty or holding a file and a cursor. It has no descriptor table,
    no addresses and no system call numbers; of the kernel's table it knows only
    how many open files no slot reaches any more. */
module AbstractMachine {
  import opened Machine
  import opened Fs
  import opened SyscallSpec
  import opened UserSpec

  /** Open files a task can have. */
  const CAPACITY: nat := 5

  datatype Cursor = Cursor(node: Node, offset: nat)

  datatype Abs = Abs(mem: seq<Byte>, slots: seq<Option<Cursor>>, leaked: nat, out: seq<Byte>,
                     exited: bool, exitStatus: Int32, lastError: UserError, lastSyscallError: Errno)

  ghost predicate AbsOk(a: Abs) {
    && |a.mem| == MEMORY_SIZE && |a.slots| == FD_SLOTS
    && forall i | 0 <= i < FD_SLOTS :: a.slots[i].Some? ==>
         var c := a.slots[i].value;
         IsValid(c.node) && Readable(c.node) && c.offset <= c.node.size
  }

  function Occupied(slots: seq<Option<Cursor>>): (n: nat)
    ensures n <= |slots|
  {
    if slots == [] then 0 else (if slots[0].Some? then 1 else 0) + Occupied(slots[1..])
  }

  /** A range of process memory, over the integers. */
  predicate InMemory(offset: nat, len: nat) {
    offset + len <= MEMORY_SIZE
  }

  function Refused(a: Abs, e: UserError): (Abs, UserError) {
    (a.(lastError := e), e)
  }

  function Failed(a: Abs, e: Errno): (Abs, UserError) {
    (a.(lastError := USyscall, lastSyscallError := e), USyscall)
  }

  function Done(a: Abs): (Abs, UserError) {
    (a.(lastSyscallError := OK), UOk)
  }

  ghost function StepOpen(a: Abs, nodes: seq<Node>, op: Op): (Abs, UserError)
    requires AbsOk(a) && AllReadable(nodes)
  {
    if op.fdSlot >= FD_SLOTS || !InMemory(op.offset, op.len) then Refused(a, UFault)
    else
      var node := Find(nodes, a.mem[op.offset..op.offset + op.len]);
      if node.None? then Failed(a, ENOENT)
      else if Occupied(a.slots) + a.leaked == CAPACITY then Failed(a, EMFILE)
      else Done(a.(slots := a.slots[op.fdSlot := Some(Cursor(node.value, 0))],
                   leaked := a.leaked + if a.slots[op.fdSlot].Some? then 1 else 0))
  }

  ghost function StepRead(a: Abs, op: Op): (Abs, UserError)
    requires AbsOk(a)
  {
    if op.fdSlot >= FD_SLOTS || a.slots[op.fdSlot].None? || !InMemory(op.offset, op.len) then Refused(a, UBadFd)
    else
      var c := a.slots[op.fdSlot].value;
      var end := Min(c.offset + op.len, c.node.size);
      Done(a.(mem := Splice(a.mem, op.offset, Contents(c.node)[c.offset..end]),
              slots := a.slots[op.fdSlot := Some(c.(offset := end))]))
  }

  ghost function StepClose(a: Abs, op: Op): (Abs, UserError)
    requires AbsOk(a)
  {
    if op.fdSlot >= FD_SLOTS || a.slots[op.fdSlot].None? then Refused(a, UBadFd)
    else Done(a.(slots := a.slots[op.fdSlot := None]))
  }

  ghost function StepStat(a: Abs, nodes: seq<Node>, op: Op): (Abs, UserError)
    requires AbsOk(a) && AllReadable(nodes)
  {
    if !InMemory(op.offset, op.len) || !InMemory(op.auxOffset, STAT_SIZE) then Refused(a, UFault)
    else
      var node := Find(nodes, a.mem[op.offset..op.offset + op.len]);
      if node.None? then Failed(a, ENOENT)
      else Done(a.(mem := Splice(a.mem, op.auxOffset, StatImage(node.value.size, MODE_FILE, true))))
  }

  ghost function Step(a: Abs, nodes: seq<Node>, op: Op): (r: (Abs, UserError))
    requires AbsOk(a) && AllReadable(nodes)
    ensures AbsOk(r.0)
  {
    if op.opcode == OP_WRITE then
      if !InMemory(op.offset, op.len) then Refused(a, UFault)
      else Done(a.(out := a.out + a.mem[op.offset..op.offset + op.len]))
    else if op.opcode == OP_OPEN then StepOpen(a, nodes, op)
    else if op.opcode == OP_READ then StepRead(a, op)
    else if op.opcode == OP_CLOSE then StepClose(a, op)
    else if op.opcode == OP_STAT then StepStat(a, nodes, op)
    else if op.opcode == OP_EXIT then Done(a.(exited := true, exitStatus := op.exitStatus))
    else Refused(a, UInval)
  }

  ghost function RunOps(a: Abs, nodes: seq<Node>, ops: seq<Op>): (r: (Abs, UserError))
    requires AbsOk(a) && AllReadable(nodes)
    ensures AbsOk(r.0)
    decreases |ops|
  {
    if ops == [] || a.exited then (a, UOk)
    else
      var (a1, e) := Step(a, nodes, ops[0]);
      if e != UOk then (a1, e) else RunOps(a1, nodes, ops[1..])
  }

  /** Programs that do not load: an image that is too long, or missing though not empty. */
  predicate Refuses(prog: Program) {
    prog.initialLen > MEMORY_SIZE || (prog.initialLen > 0 && prog.initial.None?)
  }

  /** The files a program can open. */
  function Files(prog: Program): seq<Node>
    requires prog.fsNodes.Some? ==> prog.fsCount <= |prog.fsNodes.value|
  {
    if prog.fsNodes.None? then [] else prog.fsNodes.value[..prog.fsCount]
  }

  ghost function Load(a: Abs, prog: Program): (r: Abs)
    requires AbsOk(a) && ProgramOk(prog) && !Refuses(prog)
    ensures AbsOk(r)
  {
    var image := if prog.initialLen == 0 then [] else prog.initial.value[..prog.initialLen];
    a.(mem := image + a.mem[|image|..], lastError := UOk, lastSyscallError := OK)
  }

  ghost function Run(a: Abs, prog: Program): (r: (Abs, UserError))
    requires AbsOk(a) && ProgramOk(prog)
    ensures AbsOk(r.0)
  {
    if Refuses(prog) then (a, UFault)
    else RunOps(Load(a, prog), Files(prog), prog.ops)
  }

  ghost function RunAll(a: Abs, progs: seq<Program>): (r: (Abs, seq<UserError>))
    requires AbsOk(a) && forall i | 0 <= i < |progs| :: ProgramOk(progs[i])
    ensures AbsOk(r.0) && |r.1| == |progs|
    decreases |progs|
  {
    if progs == [] then (a, [])
    else
      var (a1, e) := Run(a, progs[0]);
      var (a2, es) := RunAll(a1, progs[1..]);
      (a2, [e] + es)
  }

  /** A process fresh from initialisation, writing to a sink that holds `sink`. */
  function Fresh(sink: seq<Byte>): Abs {
    Abs(seq(MEMORY_SIZE, _ => 0), seq(FD_SLOTS, _ => None), 0, sink, false, 0, UOk, OK)
  }
}
