/** The trap boundary: registers in, result fields out. */
module SyscallEntry {
  import opened Machine
  import opened Fs
  import opened SyscallSpec
  import opened Syscall

  class TrapFrame {
    var rax: Word
    var rdi: Word
    var rsi: Word
    var rdx: Word
    var r10: Word
    var r8: Word
    var r9: Word
    var result: Int64
    var error: Errno
    var shouldExit: bool
    var exitStatus: Int32

    constructor ()
      ensures Args() == Regs(0, 0, 0, 0, 0, 0, 0)
    {
      rax, rdi, rsi, rdx, r10, r8, r9 := 0, 0, 0, 0, 0, 0, 0;
      result, error, shouldExit, exitStatus := 0, OK, false, 0;
    }

    /** The System V argument order of the `syscall` instruction. */
    ghost function Args(): Regs
      reads this
    {
      Regs(rax, rdi, rsi, rdx, r10, r8, r9)
    }

    ghost function Outcome(): SysResult
      reads this
    {
      SysResult(result, error, shouldExit, exitStatus)
    }
  }

  /** Runs the call the frame describes. Only the result fields and `rax` of the
      frame change, and `rax` holds the result as an unsigned register. */
  method Enter(task: Task, fs: FileSystem, frame: TrapFrame)
    requires task.Valid() && fs.Valid()
    modifies task`out, task.ram, task.files, frame
    ensures task.Valid()
    ensures var (t, r) := Dispatch(old(task.View()), fs.Mounted(),
                                   Regs(old(frame.rax), old(frame.rdi), old(frame.rsi), old(frame.rdx),
                                        old(frame.r10), old(frame.r8), old(frame.r9)));
            && task.View() == t
            && frame.result == r.value && frame.error == r.error
            && frame.shouldExit == r.shouldExit && frame.exitStatus == r.exitStatus
            && frame.rax == ToWord(r.value)
    ensures (frame.rdi, frame.rsi, frame.rdx, frame.r10, frame.r8, frame.r9) ==
            old((frame.rdi, frame.rsi, frame.rdx, frame.r10, frame.r8, frame.r9))
  {
    var regs := Regs(frame.rax, frame.rdi, frame.rsi, frame.rdx, frame.r10, frame.r8, frame.r9);
    var r := task.Dispatch(fs, regs);
    frame.rax := ToWord(r.value);
    frame.result := r.value;
    frame.error := r.error;
    frame.shouldExit := r.shouldExit;
    frame.exitStatus := r.exitStatus;
  }
}
