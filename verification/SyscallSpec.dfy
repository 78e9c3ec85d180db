/** What each system call does to a task, as functions on values. */
module SyscallSpec {
  import opened Machine
  import opened Fs

  const MAX_FILES: nat := 8
  const FD_STDOUT: Word := 1
  const FD_STDERR: Word := 2
  const FD_FIRST_FILE: nat := 3

  const NR_READ: Word32 := 0
  const NR_WRITE: Word32 := 1
  const NR_OPEN: Word32 := 2
  const NR_CLOSE: Word32 := 3
  const NR_STAT: Word32 := 4
  const NR_GETPID: Word32 := 5
  const NR_EXIT: Word32 := 6

  datatype Errno = OK | ENOENT | EBADF | EFAULT | EINVAL | EMFILE | ENOSYS

  datatype File = File(node: Option<Node>, offset: nat, used: bool)
  const FREE := File(None, 0, false)

  /** `ram` is the address space user pointers refer to; the task may touch
      addresses `base` up to `base + len`. `out` is what `write_byte` received. */
  datatype TaskState = TaskState(pid: Word32, base: Word, len: Word, ram: seq<Byte>, files: seq<File>, out: seq<Byte>)

  datatype Regs = Regs(nr: Word, arg0: Word, arg1: Word, arg2: Word, arg3: Word, arg4: Word, arg5: Word)

  datatype SysResult = SysResult(value: Int64, error: Errno, shouldExit: bool, exitStatus: Int32)

  predicate FileReadable(f: File) {
    f.node.Some? ==> Readable(f.node.value)
  }

  /** The task's window is mapped, does not start at the null address, and every
      node the descriptor table points to can be read. */
  ghost predicate WellFormed(t: TaskState) {
    && 0 < t.base && t.base + t.len <= |t.ram| <= WORD
    && |t.files| == MAX_FILES
    && forall fd | 0 <= fd < MAX_FILES :: FileReadable(t.files[fd])
  }

  function Ok(value: Word): SysResult {
    SysResult(ToInt64(value), OK, false, 0)
  }

  function Fail(e: Errno): SysResult {
    SysResult(-1, e, false, 0)
  }

  predicate AddOverflows(a: Word, b: Word) {
    a + b >= WORD
  }

  predicate InUserRange(t: TaskState, ptr: Word, len: Word) {
    len == 0 ||
    (!AddOverflows(ptr, len) && !AddOverflows(t.base, t.len) && ptr >= t.base && ptr + len <= t.base + t.len)
  }

  predicate Owns(t: TaskState, a: int) {
    t.base <= a < t.base + t.len
  }

  /** The check accepts exactly the empty ranges and, when the window ends below
      2^64, the ranges whose every address lies in the window. */
  lemma InUserRangeExact(t: TaskState, ptr: Word, len: Word)
    ensures InUserRange(t, ptr, len) <==>
              len == 0 || (t.base + t.len < WORD && forall a | ptr <= a < ptr + len :: Owns(t, a))
  {
    if len > 0 && forall a | ptr <= a < ptr + len :: Owns(t, a) {
      assert Owns(t, ptr) && Owns(t, ptr + len - 1);
    }
  }

  function LeastFree(files: seq<File>, from: nat): (r: Option<nat>)
    requires from <= |files|
    ensures r.Some? ==> from <= r.value < |files| && !files[r.value].used &&
                        forall fd | from <= fd < r.value :: files[fd].used
    ensures r.None? ==> forall fd | from <= fd < |files| :: files[fd].used
    decreases |files| - from
  {
    if from == |files| then None
    else if !files[from].used then Some(from)
    else LeastFree(files, from + 1)
  }

  ghost function UsedFds(files: seq<File>): (fds: set<int>)
    ensures forall fd :: fd in fds <==> 0 <= fd < |files| && files[fd].used
  {
    set fd | 0 <= fd < |files| && files[fd].used
  }

  predicate IsOpen(t: TaskState, fd: Word)
    requires |t.files| == MAX_FILES
  {
    FD_FIRST_FILE <= fd < MAX_FILES && t.files[fd].used
  }

  ghost function SysWrite(t: TaskState, fd: Word, ptr: Word, len: Word): (TaskState, SysResult)
    requires WellFormed(t)
  {
    if fd != FD_STDOUT && fd != FD_STDERR then (t, Fail(EBADF))
    else if !InUserRange(t, ptr, len) then (t, Fail(EFAULT))
    else (t.(out := t.out + Fetch(t.ram, ptr, len)), Ok(len))
  }

  ghost function SysOpen(t: TaskState, nodes: seq<Node>, ptr: Word, len: Word): (TaskState, SysResult)
    requires WellFormed(t) && AllReadable(nodes)
  {
    if !InUserRange(t, ptr, len) then (t, Fail(EFAULT))
    else
      var node := Find(nodes, Fetch(t.ram, ptr, len));
      var slot := LeastFree(t.files, FD_FIRST_FILE);
      if node.None? then (t, Fail(ENOENT))
      else if slot.None? then (t, Fail(EMFILE))
      else (t.(files := t.files[slot.value := File(node, 0, true)]), Ok(slot.value))
  }

  ghost function SysClose(t: TaskState, fd: Word): (TaskState, SysResult)
    requires WellFormed(t)
  {
    if !IsOpen(t, fd) then (t, Fail(EBADF))
    else (t.(files := t.files[fd := FREE]), Ok(0))
  }

  ghost function SysRead(t: TaskState, fd: Word, dst: Word, len: Word): (TaskState, SysResult)
    requires WellFormed(t)
  {
    if !IsOpen(t, fd) then (t, Fail(EBADF))
    else if !InUserRange(t, dst, len) then (t, Fail(EFAULT))
    else
      var f := t.files[fd];
      var bytes := ReadBytes(f.node, f.offset, len);
      (t.(ram := Splice(t.ram, dst, bytes), files := t.files[fd := f.(offset := f.offset + |bytes|)]),
       Ok(|bytes|))
  }

  ghost function SysStat(t: TaskState, nodes: seq<Node>, ptr: Word, len: Word, at: Word): (TaskState, SysResult)
    requires WellFormed(t) && AllReadable(nodes)
  {
    if !InUserRange(t, ptr, len) || !InUserRange(t, at, STAT_SIZE) then (t, Fail(EFAULT))
    else
      var node := Find(nodes, Fetch(t.ram, ptr, len));
      if node.None? then (t, Fail(ENOENT))
      else (t.(ram := Splice(t.ram, at, StatImage(node.value.size, MODE_FILE, true))), Ok(0))
  }

  function SysGetpid(pid: Word32): SysResult {
    if pid == 0 then Fail(EINVAL) else Ok(pid)
  }

  function SysExit(status: Int32): SysResult {
    SysResult(0, OK, true, status)
  }

  ghost function Dispatch(t: TaskState, nodes: seq<Node>, regs: Regs): (TaskState, SysResult)
    requires WellFormed(t) && AllReadable(nodes)
  {
    var nr := Low32(regs.nr);
    if nr == NR_READ then SysRead(t, regs.arg0, regs.arg1, regs.arg2)
    else if nr == NR_WRITE then SysWrite(t, regs.arg0, regs.arg1, regs.arg2)
    else if nr == NR_OPEN then SysOpen(t, nodes, regs.arg0, regs.arg1)
    else if nr == NR_CLOSE then SysClose(t, regs.arg0)
    else if nr == NR_STAT then SysStat(t, nodes, regs.arg0, regs.arg1, regs.arg2)
    else if nr == NR_GETPID then (t, SysGetpid(t.pid))
    else if nr == NR_EXIT then (t, SysExit(ToInt32(regs.arg0)))
    else (t, Fail(ENOSYS))
  }

  lemma DispatchWellFormed(t: TaskState, nodes: seq<Node>, regs: Regs)
    requires WellFormed(t) && AllReadable(nodes)
    ensures WellFormed(Dispatch(t, nodes, regs).0)
  {
  }
}
