/** What holds of the system call layer over every sequence of calls with
    arbitrary register contents, interleaved with remounts. */
module KernelTraces {
  import opened Machine
  import opened Lib
  import opened Fs
  import opened SyscallSpec

  datatype Event = Call(regs: Regs) | Remount(nodes: seq<Node>)

  datatype Kernel = Kernel(task: TaskState, nodes: seq<Node>)

  ghost predicate KernelOk(k: Kernel) {
    WellFormed(k.task) && AllReadable(k.nodes)
  }

  ghost predicate EventOk(ev: Event) {
    ev.Remount? ==> AllReadable(ev.nodes)
  }

  ghost predicate AllOk(evs: seq<Event>) {
    forall i | 0 <= i < |evs| :: EventOk(evs[i])
  }

  ghost function Step(k: Kernel, ev: Event): (k': Kernel)
    requires KernelOk(k) && EventOk(ev)
    ensures KernelOk(k')
  {
    match ev
    case Call(regs) => DispatchWellFormed(k.task, k.nodes, regs); k.(task := Dispatch(k.task, k.nodes, regs).0)
    case Remount(nodes) => k.(nodes := nodes)
  }

  ghost function Exec(k: Kernel, evs: seq<Event>): (k': Kernel)
    requires KernelOk(k) && AllOk(evs)
    ensures KernelOk(k')
    decreases |evs|
  {
    if evs == [] then k else Exec(Step(k, evs[0]), evs[1..])
  }

  // ----- single calls

  /** Where a call may store: READ as many bytes as it reports in `rax`, STAT its record. */
  function StoreWindow(regs: Regs, r: SysResult): (w: (int, int)) {
    if Low32(regs.nr) == NR_READ then (regs.arg1, regs.arg1 + ToWord(r.value))
    else if Low32(regs.nr) == NR_STAT then (regs.arg2, regs.arg2 + 13)
    else (0, 0)
  }

  /** A count survives the trip through the signed result into the register. */
  lemma RegisterHoldsCount(n: Word)
    ensures ToWord(ToInt64(n)) == n
  {
  }

  /** Confinement: a successful call changes no byte outside the window of its own
      arguments, that window lies in the user range, and no call touches memory
      outside the user range. A call that reports an error changes nothing at all. */
  lemma Confined(t: TaskState, nodes: seq<Node>, regs: Regs, a: int)
    requires WellFormed(t) && AllReadable(nodes) && 0 <= a < |t.ram|
    ensures var (t', r) := Dispatch(t, nodes, regs);
            && |t'.ram| == |t.ram|
            && (t'.ram[a] != t.ram[a] ==>
                  Owns(t, a) && r.error == OK && StoreWindow(regs, r).0 <= a < StoreWindow(regs, r).1)
            && (t'.pid, t'.base, t'.len) == (t.pid, t.base, t.len)
            && (r.error != OK ==> t' == t)
  {
    var nr := Low32(regs.nr);
    if nr == NR_READ && IsOpen(t, regs.arg0) {
      var f := t.files[regs.arg0];
      assert FileReadable(f);
      var bytes := ReadBytes(f.node, f.offset, regs.arg2);
      assert |bytes| <= regs.arg2;
      RegisterHoldsCount(|bytes|);
    }
  }

  ghost predicate StoresAt(k: Kernel, ev: Event, a: int)
    requires KernelOk(k)
  {
    ev.Call? &&
    var r := Dispatch(k.task, k.nodes, ev.regs).1;
    r.error == OK && StoreWindow(ev.regs, r).0 <= a < StoreWindow(ev.regs, r).1
  }

  /** Some successful READ or STAT of the trace has `a` in its window. */
  ghost predicate Stored(k: Kernel, evs: seq<Event>, a: int)
    requires KernelOk(k) && AllOk(evs)
    decreases |evs|
  {
    evs != [] && (StoresAt(k, evs[0], a) || Stored(Step(k, evs[0]), evs[1..], a))
  }

  lemma StepConfined(k: Kernel, ev: Event, a: int)
    requires KernelOk(k) && EventOk(ev) && 0 <= a < |k.task.ram|
    ensures var t' := Step(k, ev).task;
            && |t'.ram| == |k.task.ram|
            && (t'.ram[a] != k.task.ram[a] ==> Owns(k.task, a) && StoresAt(k, ev, a))
            && (Owns(t', a) <==> Owns(k.task, a))
  {
    if ev.Call? {
      Confined(k.task, k.nodes, ev.regs, a);
    }
  }

  /** Over a whole trace, a byte changes only if it lies in the user range and in the
      window of some successful READ or STAT. A task whose user range is disjoint is
      not affected. */
  lemma {:induction false} TraceConfined(k: Kernel, evs: seq<Event>, a: int)
    requires KernelOk(k) && AllOk(evs) && 0 <= a < |k.task.ram|
    ensures |Exec(k, evs).task.ram| == |k.task.ram|
    ensures Exec(k, evs).task.ram[a] != k.task.ram[a] ==> Owns(k.task, a) && Stored(k, evs, a)
    decreases |evs|
  {
    if evs == [] {
    } else {
      StepConfined(k, evs[0], a);
      hide Step, StoresAt, KernelOk;
      TraceConfined(Step(k, evs[0]), evs[1..], a);
    }
  }

  lemma ReadValue(t: TaskState, fd: Word, addr: Word, len: Word)
    requires WellFormed(t)
    ensures var r := SysRead(t, fd, addr, len).1;
            && (r.value == -1 <==> r.error != OK)
            && (r.error == OK ==> ToWord(r.value) <= len)
            && !r.shouldExit && r.exitStatus == 0
  {
    hide Splice;
    if IsOpen(t, fd) {
      var f := t.files[fd];
      assert FileReadable(f);
      var bytes := ReadBytes(f.node, f.offset, len);
      assert |bytes| <= len;
      RegisterHoldsCount(|bytes|);
    }
  }

  lemma WriteValue(t: TaskState, fd: Word, ptr: Word, len: Word)
    requires WellFormed(t)
    ensures var r := SysWrite(t, fd, ptr, len).1;
            && (r.value == -1 <==> r.error != OK)
            && (r.error == OK ==> ToWord(r.value) == len)
            && !r.shouldExit && r.exitStatus == 0
  {
    RegisterHoldsCount(len);
  }

  /** What a call returns, for every register content: -1, all ones in `rax`, exactly on
      error; otherwise a length, a descriptor, the pid, or 0. The exit request and the
      status, the low 32 bits of its register, come from EXIT alone. */
  lemma ResultValues(t: TaskState, nodes: seq<Node>, regs: Regs)
    requires WellFormed(t) && AllReadable(nodes)
    ensures var r := Dispatch(t, nodes, regs).1;
            var nr := Low32(regs.nr);
            && (r.value == -1 <==> r.error != OK)
            && (ToWord(r.value) == 0xffff_ffff_ffff_ffff <==> r.error != OK)
            && (r.error == OK ==>
                  && (nr == NR_WRITE ==> ToWord(r.value) == regs.arg2)
                  && (nr == NR_READ ==> ToWord(r.value) <= regs.arg2)
                  && (nr == NR_OPEN ==> 3 <= r.value <= 7)
                  && (nr == NR_GETPID ==> r.value == t.pid)
                  && (nr in {NR_CLOSE, NR_STAT, NR_EXIT} ==> r.value == 0))
            && (r.shouldExit <==> nr == NR_EXIT)
            && (nr == NR_EXIT ==> r.error == OK && (r.exitStatus - regs.arg0) % HALF == 0)
            && (nr != NR_EXIT ==> r.exitStatus == 0)
  {
    hide Splice, Find, LeastFree, SysRead, SysWrite;
    if Low32(regs.nr) == NR_READ {
      ReadValue(t, regs.arg0, regs.arg1, regs.arg2);
    } else if Low32(regs.nr) == NR_WRITE {
      WriteValue(t, regs.arg0, regs.arg1, regs.arg2);
    }
  }

  /** Which error a call other than OPEN reports, for every input, and in what order the
      checks come: the descriptor before the range, both ranges before the lookup. */
  lemma ErrorsExactly(t: TaskState, nodes: seq<Node>, regs: Regs)
    requires WellFormed(t) && AllReadable(nodes)
    ensures var e := Dispatch(t, nodes, regs).1.error;
            var nr := Low32(regs.nr);
            var isOpen := 3 <= regs.arg0 <= 7 && t.files[regs.arg0].used;
            var inRange := InUserRange(t, regs.arg1, regs.arg2);
            var bothInRange := InUserRange(t, regs.arg0, regs.arg1) && InUserRange(t, regs.arg2, 16);
            && (nr == NR_WRITE ==> e == if regs.arg0 !in {1, 2} then EBADF else if !inRange then EFAULT else OK)
            && (nr == NR_READ ==> e == if !isOpen then EBADF else if !inRange then EFAULT else OK)
            && (nr == NR_CLOSE ==> e == if !isOpen then EBADF else OK)
            && (nr == NR_STAT ==> (e == EFAULT <==> !bothInRange) && e in {OK, EFAULT, ENOENT})
            && (nr == NR_STAT && bothInRange ==>
                  (e == OK <==> Find(nodes, Fetch(t.ram, regs.arg0, regs.arg1)).Some?))
            && (nr == NR_GETPID ==> e == if t.pid == 0 then EINVAL else OK)
            && (nr == NR_EXIT ==> e == OK)
  {
    hide Splice, Find, LeastFree, ReadBytes;
  }

  /** What a successful WRITE and CLOSE leave behind: the bytes at the user's address
      after the earlier output; a zeroed entry. Nothing else changes. */
  lemma WriteAndCloseEffects(t: TaskState, nodes: seq<Node>, regs: Regs)
    requires WellFormed(t) && AllReadable(nodes) && Dispatch(t, nodes, regs).1.error == OK
    ensures var t' := Dispatch(t, nodes, regs).0;
            && (Low32(regs.nr) == NR_WRITE ==>
                  && t' == t.(out := t'.out) && |t'.out| == |t.out| + regs.arg2 && t'.out[..|t.out|] == t.out
                  && forall a: int | regs.arg1 <= a < regs.arg1 + regs.arg2 ::
                       0 <= a < |t.ram| && t.ram[a] == t'.out[|t.out| + a - regs.arg1])
            && (Low32(regs.nr) == NR_CLOSE ==>
                  && 3 <= regs.arg0 <= 7
                  && t' == t.(files := t.files[regs.arg0 := File(None, 0, false)]))
  {
    hide Splice, Find, LeastFree, ReadBytes;
  }

  /** OPEN, completely: its error for every input, and on success the least free
      descriptor from 3 up, open at the start of the file the path names. */
  lemma OpenOutcome(t: TaskState, nodes: seq<Node>, regs: Regs)
    requires WellFormed(t) && AllReadable(nodes) && Low32(regs.nr) == NR_OPEN
    ensures var (t', r) := Dispatch(t, nodes, regs);
            var inRange := InUserRange(t, regs.arg0, regs.arg1);
            && (r.error == EFAULT <==> !inRange)
            && (r.error == ENOENT <==> inRange && Find(nodes, Fetch(t.ram, regs.arg0, regs.arg1)).None?)
            && (r.error == EMFILE <==>
                  inRange && Find(nodes, Fetch(t.ram, regs.arg0, regs.arg1)).Some? &&
                  forall fd | FD_FIRST_FILE <= fd < MAX_FILES :: t.files[fd].used)
            && (r.error == OK ==>
                  && FD_FIRST_FILE <= r.value < MAX_FILES && !t.files[r.value].used
                  && (forall fd | FD_FIRST_FILE <= fd < r.value :: t.files[fd].used)
                  && t'.files[r.value] == File(Find(nodes, Fetch(t.ram, regs.arg0, regs.arg1)), 0, true)
                  && forall fd | 0 <= fd < MAX_FILES && fd != r.value :: t'.files[fd] == t.files[fd])
            && r.error in {OK, EFAULT, ENOENT, EMFILE}
  {
  }

  ghost function StatError(t: TaskState, nodes: seq<Node>, regs: Regs): Errno
    requires WellFormed(t) && AllReadable(nodes)
  {
    if !InUserRange(t, regs.arg0, regs.arg1) || !InUserRange(t, regs.arg2, STAT_SIZE) then EFAULT
    else if Find(nodes, Fetch(t.ram, regs.arg0, regs.arg1)).None? then ENOENT
    else OK
  }

  /** Error table of the other calls, used below, for every register content. Reads and
      closes need a used descriptor in 3..7, writes one of the two output
      descriptors; nothing else about the descriptor matters. */
  lemma ErrorTable(t: TaskState, nodes: seq<Node>, regs: Regs)
    requires WellFormed(t) && AllReadable(nodes)
    ensures var (t', r) := Dispatch(t, nodes, regs);
            var nr, fd := Low32(regs.nr), regs.arg0;
            var known := fd in {3, 4, 5, 6, 7} && t.files[fd].used;
            var buffer := InUserRange(t, regs.arg1, regs.arg2);
            && (nr == NR_READ ==> r.error == (if !known then EBADF else if buffer then OK else EFAULT))
            && (nr == NR_WRITE ==> r.error == (if fd !in {1, 2} then EBADF else if buffer then OK else EFAULT))
            && (nr == NR_CLOSE ==> r.error == (if known then OK else EBADF))
            && (nr == NR_STAT ==> r.error == StatError(t, nodes, regs))
            && (nr == NR_GETPID ==> r.error == (if t.pid == 0 then EINVAL else OK))
            && (t'.out != t.out ==> nr == NR_WRITE && r.error == OK)
            && (nr == NR_WRITE && r.error == OK ==> t'.out == t.out + Fetch(t.ram, regs.arg1, regs.arg2))
            && (nr == NR_CLOSE && r.error == OK ==> t'.files == t.files[fd := FREE])
            && (r.shouldExit <==> nr == NR_EXIT)
  {
  }

  /** The pointer-and-length OPEN agrees with `kfs_open` on the C string stored at
      the same place: with the string's own length it finds the same file, and with
      a longer one, which takes in the NUL, it finds nothing. */
  lemma OpenAgreesWithCString(t: TaskState, nodes: seq<Node>, regs: Regs)
    requires WellFormed(t) && AllReadable(nodes) && Low32(regs.nr) == NR_OPEN
    requires regs.arg0 < |t.ram| && 0 in t.ram[regs.arg0..]
    requires InUserRange(t, regs.arg0, regs.arg1)
    ensures var (t', r) := Dispatch(t, nodes, regs);
            var text := t.ram[regs.arg0..];
            && (regs.arg1 == StrLen(text) ==>
                  && (r.error == ENOENT <==> Find(nodes, CString(text)).None?)
                  && (r.error == OK ==> t'.files[r.value].node == Find(nodes, CString(text))))
            && (regs.arg1 > StrLen(text) ==> r.error == ENOENT)
  {
    OpenOutcome(t, nodes, regs);
    var text := t.ram[regs.arg0..];
    var path := Fetch(t.ram, regs.arg0, regs.arg1);
    if regs.arg1 == StrLen(text) {
      assert path == CString(text);
    } else if regs.arg1 > StrLen(text) {
      assert path[StrLen(text)] == 0;
      FindExact(nodes, path);
    }
  }

  /** STAT with a string's own length stores the record `kfs_stat` stores for that
      string; for a missing file it changes nothing, where `kfs_stat` stores zeros. */
  lemma StatAgreesWithCString(t: TaskState, nodes: seq<Node>, regs: Regs)
    requires WellFormed(t) && AllReadable(nodes) && Low32(regs.nr) == NR_STAT
    requires regs.arg0 < |t.ram| && 0 in t.ram[regs.arg0..] && regs.arg1 == StrLen(t.ram[regs.arg0..])
    requires InUserRange(t, regs.arg0, regs.arg1) && InUserRange(t, regs.arg2, STAT_SIZE)
    ensures regs.arg2 + STAT_SIZE <= |t.ram|
    ensures var (t', r) := Dispatch(t, nodes, regs);
            var text := t.ram[regs.arg0..];
            if Find(nodes, CString(text)).Some? then
              r.error == OK && t' == t.(ram := Splice(t.ram, regs.arg2, StatRecord(nodes, text)))
            else
              r.error == ENOENT && t' == t && StatRecord(nodes, text) == StatImage(0, 0, false)
  {
    assert Fetch(t.ram, regs.arg0, regs.arg1) == CString(t.ram[regs.arg0..]);
  }

  /** READ through a descriptor leaves in memory, and in the cursor, what `kfs_read`
      leaves from a handle with the same node and cursor, and reports as many bytes. */
  lemma ReadAgreesWithHandle(t: TaskState, nodes: seq<Node>, regs: Regs)
    requires WellFormed(t) && AllReadable(nodes) && Low32(regs.nr) == NR_READ
    requires IsOpen(t, regs.arg0) && InUserRange(t, regs.arg1, regs.arg2)
    ensures FileReadable(t.files[regs.arg0])
    ensures var (t', r) := Dispatch(t, nodes, regs);
            var (before, after) := (t.files[regs.arg0], t'.files[regs.arg0]);
            && r.error == OK
            && (t'.ram, after.offset) == HandleRead(t.ram, before.node, before.offset, regs.arg1, regs.arg2)
            && after.node == before.node
            && ToWord(r.value) == after.offset - before.offset
  {
    var f := t.files[regs.arg0];
    assert FileReadable(f);
    var bytes := ReadBytes(f.node, f.offset, regs.arg2);
    assert |bytes| <= regs.arg2;
    RegisterHoldsCount(|bytes|);
  }

  /** After a successful STAT the three fields read back from user memory are the
      file's size, the file mode and true. */
  lemma StatReadsBack(t: TaskState, nodes: seq<Node>, regs: Regs)
    requires WellFormed(t) && AllReadable(nodes) && Low32(regs.nr) == NR_STAT
    requires Dispatch(t, nodes, regs).1.error == OK
    ensures var t' := Dispatch(t, nodes, regs).0;
            var at := regs.arg2;
            var node := Find(nodes, Fetch(t.ram, regs.arg0, regs.arg1));
            && node.Some? && at + STAT_SIZE <= |t'.ram|
            && FromLittleEndian(t'.ram[at..at + 8]) == node.value.size
            && FromLittleEndian(t'.ram[at + 8..at + 12]) == MODE_FILE
            && t'.ram[at + 12] == 1
  {
    var t' := Dispatch(t, nodes, regs).0;
    var node := Find(nodes, Fetch(t.ram, regs.arg0, regs.arg1)).value;
    var image := StatImage(node.size, MODE_FILE, true);
    var at := regs.arg2;
    assert t'.ram == Splice(t.ram, at, image);
    hide Dispatch, StatImage, Find, FromLittleEndian;
    assert t'.ram[at..at + 8] == image[..8];
    assert t'.ram[at + 8..at + 12] == image[8..12];
    StatImageRoundTrip(node.size, MODE_FILE, true);
  }

  /** Only the low half of the call number selects the call, and the unknown ones
      are those whose low half exceeds 6. */
  lemma SelectorIsLowHalf(t: TaskState, nodes: seq<Node>, regs: Regs)
    requires WellFormed(t) && AllReadable(nodes)
    ensures Dispatch(t, nodes, regs) == Dispatch(t, nodes, regs.(nr := Low32(regs.nr)))
    ensures Dispatch(t, nodes, regs).1.error == ENOSYS <==> Low32(regs.nr) > NR_EXIT
  {
    assert Low32(Low32(regs.nr)) == Low32(regs.nr);
  }

  /** A call number above 6 that is not an unknown call: 2^32 is a READ. */
  lemma TwoToThe32IsRead(t: TaskState, nodes: seq<Node>, regs: Regs)
    requires WellFormed(t) && AllReadable(nodes) && regs.nr == 0x1_0000_0000
    ensures Dispatch(t, nodes, regs) == Dispatch(t, nodes, regs.(nr := NR_READ))
    ensures Dispatch(t, nodes, regs).1.error in {OK, EBADF, EFAULT}
  {
    SelectorIsLowHalf(t, nodes, regs);
  }

  /** A task whose one-byte window is the last byte of the address space. */
  ghost function TopTask(): TaskState {
    TaskState(1, WORD - 1, 1, seq(WORD, _ => 0), seq(MAX_FILES, _ => FREE), [])
  }

  /** Writing that byte, which the task owns, is refused: the end of the range does
      not fit in 64 bits. */
  lemma LastByteRefused(nodes: seq<Node>)
    requires AllReadable(nodes)
    ensures WellFormed(TopTask()) && Owns(TopTask(), WORD - 1)
    ensures Dispatch(TopTask(), nodes, Regs(NR_WRITE, FD_STDOUT, WORD - 1, 1, 0, 0, 0)) == (TopTask(), Fail(EFAULT))
  {
    assert forall fd | 0 <= fd < MAX_FILES :: FileReadable(TopTask().files[fd]);
  }

  // ----- descriptor conservation

  ghost predicate Succeeds(k: Kernel, ev: Event, nr: Word32)
    requires KernelOk(k)
  {
    ev.Call? && Low32(ev.regs.nr) == nr && Dispatch(k.task, k.nodes, ev.regs).1.error == OK
  }

  ghost function Successes(k: Kernel, evs: seq<Event>, nr: Word32): nat
    requires KernelOk(k) && AllOk(evs)
    decreases |evs|
  {
    if evs == [] then 0
    else (if Succeeds(k, evs[0], nr) then 1 else 0) + Successes(Step(k, evs[0]), evs[1..], nr)
  }

  lemma UpdateCount(files: seq<File>, fd: nat, f: File)
    requires fd < |files|
    ensures |UsedFds(files[fd := f])| ==
            |UsedFds(files)| - (if files[fd].used then 1 else 0) + if f.used then 1 else 0
  {
    var others := UsedFds(files) - {fd as int};
    assert UsedFds(files) == others + if files[fd].used then {fd as int} else {};
    assert UsedFds(files[fd := f]) == others + if f.used then {fd as int} else {};
  }

  lemma StepCount(k: Kernel, ev: Event)
    requires KernelOk(k) && EventOk(ev)
    ensures |UsedFds(Step(k, ev).task.files)| ==
            |UsedFds(k.task.files)| + (if Succeeds(k, ev, NR_OPEN) then 1 else 0) - if Succeeds(k, ev, NR_CLOSE) then 1 else 0
    ensures forall fd | 0 <= fd < FD_FIRST_FILE :: Step(k, ev).task.files[fd] == k.task.files[fd]
  {
    if ev.Call? {
      var (t', r) := Dispatch(k.task, k.nodes, ev.regs);
      var nr := Low32(ev.regs.nr);
      if r.error == OK && nr in {NR_OPEN, NR_CLOSE, NR_READ} {
        var fd: nat := if nr == NR_OPEN then r.value else ev.regs.arg0;
        UpdateCount(k.task.files, fd, t'.files[fd]);
        assert t'.files == k.task.files[fd := t'.files[fd]];
      }
    }
  }

  /** Used entries move only with successful opens and closes, one for one, and the
      standard descriptors' entries never change. */
  lemma {:induction false} DescriptorsConserved(k: Kernel, evs: seq<Event>)
    requires KernelOk(k) && AllOk(evs)
    ensures |UsedFds(Exec(k, evs).task.files)| ==
            |UsedFds(k.task.files)| + Successes(k, evs, NR_OPEN) - Successes(k, evs, NR_CLOSE)
    ensures forall fd | 0 <= fd < FD_FIRST_FILE :: Exec(k, evs).task.files[fd] == k.task.files[fd]
    decreases |evs|
  {
    if evs == [] {
    } else {
      StepCount(k, evs[0]);
      DescriptorsConserved(Step(k, evs[0]), evs[1..]);
    }
  }

  // ----- which descriptors are bad

  ghost predicate OpensFd(k: Kernel, ev: Event, fd: int)
    requires KernelOk(k)
  {
    Succeeds(k, ev, NR_OPEN) && Dispatch(k.task, k.nodes, ev.regs).1.value == fd
  }

  ghost predicate ReleasesFd(k: Kernel, ev: Event, fd: int)
    requires KernelOk(k)
  {
    Succeeds(k, ev, NR_CLOSE) && ev.regs.arg0 == fd
  }

  /** How often the trace successfully opened `fd`, minus how often it closed it. */
  ghost function Balance(k: Kernel, evs: seq<Event>, fd: int): int
    requires KernelOk(k) && AllOk(evs)
    decreases |evs|
  {
    if evs == [] then 0
    else
      (if OpensFd(k, evs[0], fd) then 1 else 0) - (if ReleasesFd(k, evs[0], fd) then 1 else 0) +
      Balance(Step(k, evs[0]), evs[1..], fd)
  }

  ghost predicate IsUsed(k: Kernel, fd: int)
    requires KernelOk(k)
  {
    0 <= fd < MAX_FILES && k.task.files[fd].used
  }

  lemma StepBalances(k: Kernel, ev: Event, fd: int)
    requires KernelOk(k) && EventOk(ev)
    ensures (if IsUsed(Step(k, ev), fd) then 1 else 0) ==
            (if IsUsed(k, fd) then 1 else 0) + (if OpensFd(k, ev, fd) then 1 else 0) - if ReleasesFd(k, ev, fd) then 1 else 0
  {
    if ev.Call? && Low32(ev.regs.nr) == NR_OPEN {
      OpenOutcome(k.task, k.nodes, ev.regs);
    }
  }

  lemma {:induction false} TraceBalances(k: Kernel, evs: seq<Event>, fd: int)
    requires KernelOk(k) && AllOk(evs)
    ensures (if IsUsed(Exec(k, evs), fd) then 1 else 0) == (if IsUsed(k, fd) then 1 else 0) + Balance(k, evs, fd)
    decreases |evs|
  {
    if evs == [] {
    } else {
      StepBalances(k, evs[0], fd);
      hide Step, IsUsed, OpensFd, ReleasesFd, KernelOk;
      TraceBalances(Step(k, evs[0]), evs[1..], fd);
    }
  }

  /** From a zeroed descriptor table, whatever has been called since: a READ or CLOSE
      is answered EBADF exactly when the trace has closed that descriptor as often as
      it has opened it, and otherwise it has opened it exactly once more. */
  lemma BadFdExactly(k: Kernel, evs: seq<Event>, regs: Regs)
    requires KernelOk(k) && AllOk(evs) && Low32(regs.nr) in {NR_READ, NR_CLOSE}
    requires forall fd | 0 <= fd < MAX_FILES :: !k.task.files[fd].used
    ensures var end := Exec(k, evs);
            Dispatch(end.task, end.nodes, regs).1.error == EBADF <==> Balance(k, evs, regs.arg0) == 0
    ensures Balance(k, evs, regs.arg0) in {0, 1}
  {
    var end := Exec(k, evs);
    TraceBalances(k, evs, regs.arg0);
    DescriptorsConserved(k, evs);
    ErrorTable(end.task, end.nodes, regs);
  }

  // ----- chunking independence

  ghost predicate ReadsFrom(k: Kernel, ev: Event, fd: nat)
    requires KernelOk(k)
  {
    Succeeds(k, ev, NR_READ) && ev.regs.arg0 == fd
  }

  predicate ClosesFd(ev: Event, fd: nat) {
    ev.Call? && Low32(ev.regs.nr) == NR_CLOSE && ev.regs.arg0 == fd
  }

  ghost function Chunk(k: Kernel, regs: Regs): seq<Byte>
    requires KernelOk(k) && Succeeds(k, Call(regs), NR_READ)
  {
    var (t', r) := Dispatch(k.task, k.nodes, regs);
    var f := k.task.files[regs.arg0];
    assert FileReadable(f);
    var n := |ReadBytes(f.node, f.offset, regs.arg2)|;
    assert n <= regs.arg2 && InUserRange(k.task, regs.arg1, regs.arg2);
    RegisterHoldsCount(n);
    assert ToWord(r.value) == n;
    Fetch(t'.ram, regs.arg1, ToWord(r.value))
  }

  /** The bytes that successful READs on `fd` left in user memory, in order. */
  ghost function Delivered(k: Kernel, evs: seq<Event>, fd: nat): seq<Byte>
    requires KernelOk(k) && AllOk(evs)
    decreases |evs|
  {
    if evs == [] then []
    else
      var k' := Step(k, evs[0]);
      (if ReadsFrom(k, evs[0], fd) then Chunk(k, evs[0].regs) else []) + Delivered(k', evs[1..], fd)
  }

  ghost function Requested(k: Kernel, evs: seq<Event>, fd: nat): nat
    requires KernelOk(k) && AllOk(evs)
    decreases |evs|
  {
    if evs == [] then 0
    else
      (if ReadsFrom(k, evs[0], fd) then evs[0].regs.arg2 as nat else 0) + Requested(Step(k, evs[0]), evs[1..], fd)
  }

  /** Position of the cursor after `n` bytes were asked for from position `c`. */
  function Advance(node: Node, c: nat, n: nat): nat {
    Min(c + n, node.size)
  }

  ghost predicate OpenAt(k: Kernel, fd: nat, node: Node, c: nat)
    requires KernelOk(k)
  {
    && FD_FIRST_FILE <= fd < MAX_FILES && IsValid(node) && Readable(node) && c <= node.size
    && k.task.files[fd] == File(Some(node), c, true)
  }

  lemma OtherCallsKeepCursor(k: Kernel, ev: Event, fd: nat, node: Node, c: nat)
    requires KernelOk(k) && EventOk(ev) && OpenAt(k, fd, node, c)
    requires !ClosesFd(ev, fd) && !ReadsFrom(k, ev, fd)
    ensures OpenAt(Step(k, ev), fd, node, c)
  {
  }

  lemma SliceOfFile(node: Node, c: nat, len: nat)
    requires IsValid(node) && Readable(node) && c <= node.size
    ensures ReadBytes(Some(node), c, len) == Contents(node)[c..Advance(node, c, len)]
  {
  }

  lemma FetchSpliced(ram: seq<Byte>, at: nat, bytes: seq<Byte>)
    requires bytes != [] ==> at + |bytes| <= |ram|
    ensures Fetch(Splice(ram, at, bytes), at, |bytes|) == bytes
  {
  }

  lemma ReadEffect(t: TaskState, nodes: seq<Node>, regs: Regs, node: Node, c: nat)
    requires WellFormed(t) && AllReadable(nodes) && Low32(regs.nr) == NR_READ
    requires IsOpen(t, regs.arg0) && t.files[regs.arg0] == File(Some(node), c, true) && Readable(node)
    requires Dispatch(t, nodes, regs).1.error == OK
    ensures var bytes := ReadBytes(Some(node), c, regs.arg2);
            && |bytes| < WORD && (bytes != [] ==> regs.arg1 + |bytes| <= |t.ram|)
            && Dispatch(t, nodes, regs) ==
                 (t.(ram := Splice(t.ram, regs.arg1, bytes),
                     files := t.files[regs.arg0 := File(Some(node), c + |bytes|, true)]), Ok(|bytes|))
  {
    hide Splice, Find, ReadBytes, LeastFree;
    assert |ReadBytes(Some(node), c, regs.arg2)| <= regs.arg2;
  }

  lemma ReadAdvancesCursor(k: Kernel, regs: Regs, fd: nat, node: Node, c: nat)
    requires KernelOk(k) && OpenAt(k, fd, node, c) && ReadsFrom(k, Call(regs), fd)
    ensures OpenAt(Step(k, Call(regs)), fd, node, Advance(node, c, regs.arg2))
    ensures Chunk(k, regs) == Contents(node)[c..Advance(node, c, regs.arg2)]
  {
    var bytes := ReadBytes(Some(node), c, regs.arg2);
    ReadEffect(k.task, k.nodes, regs, node, c);
    SliceOfFile(node, c, regs.arg2);
    FetchSpliced(k.task.ram, regs.arg1, bytes);
    RegisterHoldsCount(|bytes|);
    hide Dispatch, Splice, Find, ReadBytes, Contents, Fetch, WellFormed, ToWord, ToInt64;
  }

  lemma TwoReads(node: Node, c: nat, n: nat, m: nat)
    requires IsValid(node) && Readable(node) && c <= node.size
    ensures var mid := Advance(node, c, n);
            var end := Advance(node, c, n + m);
            && Advance(node, mid, m) == end
            && Contents(node)[c..mid] + Contents(node)[mid..end] == Contents(node)[c..end]
  {
  }

  /** Between an open and its close, whatever else happens on other descriptors, to
      memory or to the mount table, the bytes delivered depend only on how many
      were asked for in total, and the cursor stays inside the file. */
  lemma {:induction false} ReadsConcatenate(k: Kernel, evs: seq<Event>, fd: nat, node: Node, c: nat)
    requires KernelOk(k) && AllOk(evs) && OpenAt(k, fd, node, c)
    requires forall i | 0 <= i < |evs| :: !ClosesFd(evs[i], fd)
    ensures var end := Advance(node, c, Requested(k, evs, fd));
            && OpenAt(Exec(k, evs), fd, node, end)
            && Delivered(k, evs, fd) == Contents(node)[c..end]
    decreases |evs|
  {
    if evs == [] {
      assert Contents(node)[c..c] == [];
    } else {
      var ev, evs' := evs[0], evs[1..];
      var k' := Step(k, ev);
      assert c <= node.size;
      if ReadsFrom(k, ev, fd) {
        var m := Advance(node, c, ev.regs.arg2);
        ReadAdvancesCursor(k, ev.regs, fd, node, c);
        hide Step, Dispatch, Contents, Chunk, ReadsFrom, KernelOk, OpenAt;
        ReadsConcatenate(k', evs', fd, node, m);
        TwoReads(node, c, ev.regs.arg2, Requested(k', evs', fd));
      } else {
        OtherCallsKeepCursor(k, ev, fd, node, c);
        hide Step, Dispatch, Contents, Chunk, ReadsFrom, KernelOk, OpenAt;
        ReadsConcatenate(k', evs', fd, node, c);
      }
    }
  }

  /** From a successful OPEN on: the reads deliver the first bytes of the file the
      path named when it was opened, however they are split. */
  lemma ReadsAfterOpen(k: Kernel, regs: Regs, evs: seq<Event>)
    requires KernelOk(k) && AllOk(evs) && Succeeds(k, Call(regs), NR_OPEN)
    requires var fd := Dispatch(k.task, k.nodes, regs).1.value;
             forall i | 0 <= i < |evs| :: fd >= 0 && !ClosesFd(evs[i], fd)
    ensures InUserRange(k.task, regs.arg0, regs.arg1)
    ensures var fd := Dispatch(k.task, k.nodes, regs).1.value;
            var node := Find(k.nodes, Fetch(k.task.ram, regs.arg0, regs.arg1));
            && fd >= 0 && node.Some?
            && Delivered(Step(k, Call(regs)), evs, fd)
               == Contents(node.value)[..Min(Requested(Step(k, Call(regs)), evs, fd), node.value.size)]
  {
    OpenOutcome(k.task, k.nodes, regs);
    var fd := Dispatch(k.task, k.nodes, regs).1.value;
    var node := Find(k.nodes, Fetch(k.task.ram, regs.arg0, regs.arg1)).value;
    ReadsConcatenate(Step(k, Call(regs)), evs, fd, node, 0);
  }
}
