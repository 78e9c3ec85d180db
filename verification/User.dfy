/** The user-program interpreter, working in place on a process. */
module User {
  import opened Machine
  import opened Lib
  import opened Fs
  import opened SyscallSpec
  import opened Syscall
  import opened SyscallEntry
  import opened UserSpec

  class Process {
    const task: Task
    const slots: array<Int32>
    var exited: bool
    var exitStatus: Int32
    var lastError: UserError
    var lastSyscallError: Errno

    /** A process object whose memory is to live in `ram`. */
    constructor (ram: array<Byte>)
      ensures task.ram == ram && slots.Length == FD_SLOTS && task.files.Length == MAX_FILES
      ensures fresh(task) && fresh(task.files) && fresh(slots)
    {
      task := new Task(ram);
      slots := new Int32[FD_SLOTS](_ => 0);
      exited, exitStatus, lastError, lastSyscallError := false, 0, UOk, OK;
    }

    ghost function View(): Proc
      reads this, task, task.ram, task.files, slots
    {
      Proc(task.View(), slots[..], exited, exitStatus, lastError, lastSyscallError)
    }

    ghost predicate Valid()
      reads this, task, task.ram, task.files, slots
    {
      ProcOk(View())
    }

    /** `kuser_init_process`: everything is zeroed, whatever it held, then the
        task is pointed at the process memory and the slots are emptied. `sink` is
        what the output callback it is given has already received. */
    method Init(base: Word, pid: Word32, sink: seq<Byte>)
      requires slots.Length == FD_SLOTS && task.files.Length == MAX_FILES
      requires 0 < base && base + MEMORY_SIZE < WORD && base + MEMORY_SIZE <= task.ram.Length <= WORD
      modifies this, task, task.ram, task.files, slots
      ensures Valid() && View() == InitProc(old(task.ram[..]), base, pid, sink)
      ensures (task.pid, task.userBase, task.userLen, task.out) == (pid, base, 512, sink)
      ensures forall a | 0 <= a < task.ram.Length ::
                task.ram[a] == if base <= a < base + 512 then 0 else old(task.ram[a])
      ensures forall fd | 0 <= fd < MAX_FILES :: !task.files[fd].used && task.files[fd].node.None?
      ensures forall i | 0 <= i < FD_SLOTS :: slots[i] == -1
      ensures !exited && exitStatus == 0 && lastError == UOk && lastSyscallError == OK
    {
      KMemset(task.ram, base, 0, MEMORY_SIZE);
      forall fd | 0 <= fd < MAX_FILES {
        task.files[fd] := FREE;
      }
      exited, exitStatus, lastError, lastSyscallError := false, 0, UOk, OK;
      task.pid := pid;
      task.userBase := base;
      task.userLen := MEMORY_SIZE;
      task.out := sink;
      for i := 0 to FD_SLOTS
        invariant forall k | 0 <= k < i :: slots[k] == -1
        invariant task.View() == InitProc(old(task.ram[..]), base, pid, sink).task
        invariant (exited, exitStatus, lastError, lastSyscallError) == (false, 0, UOk, OK)
      {
        slots[i] := -1;
      }
      assert slots[..] == InitProc(old(task.ram[..]), base, pid, sink).slots;
    }

    function UserPtr(offset: Word32): (ptr: Word)
      requires Valid() && offset <= MEMORY_SIZE
      reads this, task, task.ram, task.files, slots
      ensures ptr == task.View().base + offset
    {
      task.userBase + offset
    }

    /** `run_frame` */
    method RunFrame(fs: FileSystem, frame: TrapFrame) returns (e: UserError)
      requires Valid() && fs.Valid()
      modifies this, task`out, task.ram, task.files, frame
      ensures task.Valid() && slots[..] == old(slots[..]) && lastError == old(lastError)
      ensures (task.View(), frame.Outcome()) == Dispatch(old(task.View()), fs.Mounted(), old(frame.Args()))
      ensures lastSyscallError == frame.error
      ensures e == if frame.error == OK then UOk else USyscall
      ensures exited == if e == UOk && frame.shouldExit then true else old(exited)
      ensures exitStatus == if e == UOk && frame.shouldExit then frame.exitStatus else old(exitStatus)
    {
      Enter(task, fs, frame);
      lastSyscallError := frame.error;
      if frame.error != OK {
        return USyscall;
      }
      if frame.shouldExit {
        exited := true;
        exitStatus := frame.exitStatus;
      }
      e := UOk;
    }

    /** The `switch` of the interpreter loop: fills the frame or refuses. */
    method PrepareFrame(op: Op, frame: TrapFrame) returns (e: UserError)
      requires Valid()
      requires frame.Args() == Regs(0, 0, 0, 0, 0, 0, 0)
      modifies frame, this`lastError
      ensures match Prepare(old(View()), op)
              case Refuse(why) => e == why && View() == old(View()).(lastError := why)
              case Trap(regs) => e == UOk && View() == old(View()) && frame.Args() == regs
    {
      if op.opcode == OP_WRITE {
        if !UserRangeOk(op.offset, op.len) {
          lastError := UFault;
          return UFault;
        }
        frame.rax := NR_WRITE;
        frame.rdi := FD_STDOUT;
        frame.rsi := UserPtr(op.offset);
        frame.rdx := op.len;
      } else if op.opcode == OP_OPEN {
        if op.fdSlot >= FD_SLOTS || !UserRangeOk(op.offset, op.len) {
          lastError := UFault;
          return UFault;
        }
        frame.rax := NR_OPEN;
        frame.rdi := UserPtr(op.offset);
        frame.rsi := op.len;
      } else if op.opcode == OP_READ {
        if op.fdSlot >= FD_SLOTS || slots[op.fdSlot] < 0 || !UserRangeOk(op.offset, op.len) {
          lastError := UBadFd;
          return UBadFd;
        }
        frame.rax := NR_READ;
        frame.rdi := slots[op.fdSlot];
        frame.rsi := UserPtr(op.offset);
        frame.rdx := op.len;
      } else if op.opcode == OP_CLOSE {
        if op.fdSlot >= FD_SLOTS || slots[op.fdSlot] < 0 {
          lastError := UBadFd;
          return UBadFd;
        }
        frame.rax := NR_CLOSE;
        frame.rdi := slots[op.fdSlot];
      } else if op.opcode == OP_STAT {
        if !UserRangeOk(op.offset, op.len) || !UserRangeOk(op.auxOffset, STAT_SIZE) {
          lastError := UFault;
          return UFault;
        }
        frame.rax := NR_STAT;
        frame.rdi := UserPtr(op.offset);
        frame.rsi := op.len;
        frame.rdx := UserPtr(op.auxOffset);
      } else if op.opcode == OP_EXIT {
        frame.rax := NR_EXIT;
        frame.rdi := ToWord(op.exitStatus);
      } else {
        lastError := UInval;
        return UInval;
      }
      e := UOk;
    }

    /** One turn of the interpreter loop. */
    method Step(fs: FileSystem, op: Op) returns (e: UserError)
      requires Valid() && fs.Valid()
      modifies this, task`out, task.ram, task.files, slots
      ensures Valid()
      ensures (View(), e) == StepOp(old(View()), fs.Mounted(), op)
    {
      var frame := new TrapFrame();
      e := PrepareFrame(op, frame);
      if e != UOk {
        return;
      }
      e := RunFrame(fs, frame);
      if e != UOk {
        lastError := e;
        return;
      }
      if op.opcode == OP_OPEN {
        slots[op.fdSlot] := ToInt32(ToWord(frame.result));
      } else if op.opcode == OP_CLOSE {
        slots[op.fdSlot] := -1;
      }
    }

    /** `kuser_run`. The filesystem is remounted only when the program loads. */
    method Run(fs: FileSystem, prog: Program) returns (e: UserError)
      requires Valid() && fs.Valid() && ProgramOk(prog)
      modifies this, task`out, task.ram, task.files, slots, fs
      ensures Valid() && fs.Valid()
      ensures (View(), e) == UserSpec.Run(old(View()), prog)
      ensures fs.Mounted() ==
              if prog.initialLen > MEMORY_SIZE || (prog.initialLen > 0 && prog.initial.None?) then old(fs.Mounted())
              else if prog.fsNodes.Some? then prog.fsNodes.value[..prog.fsCount]
              else []
    {
      if prog.initialLen > MEMORY_SIZE {
        return UFault;
      }
      var copied := KMemcpyChecked(task.ram, task.userBase, MEMORY_SIZE, prog.initial, prog.initialLen);
      if !copied {
        return UFault;
      }
      fs.Mount(prog.fsNodes, prog.fsCount);
      lastError := UOk;
      lastSyscallError := OK;
      assert View() == LoadProgram(old(View()), prog);
      hide StepOp, LoadProgram;

      var ip := 0;
      while ip < |prog.ops| && !exited
        invariant ip <= |prog.ops|
        invariant Valid() && fs.Valid()
        invariant fs.Mounted() == Visible(prog.fsNodes, prog.fsCount)
        invariant RunOps(View(), fs.Mounted(), prog.ops[ip..]) == UserSpec.Run(old(View()), prog)
      {
        var op := prog.ops[ip];
        assert prog.ops[ip..][0] == op && prog.ops[ip..][1..] == prog.ops[ip + 1..];
        e := Step(fs, op);
        if e != UOk {
          return;
        }
        ip := ip + 1;
      }
      e := UOk;
    }
  }
}
