# Verified model of the mini isolation lab

A Dafny model of the parts of the repository that hold state, and proofs of what
they promise:

- **The mini-kernel system call stack.** `Lib`, `Fs`, `Syscall`, `SyscallEntry` and
  `User` follow the C files: classes with the C fields, methods with the C loops,
  arrays for the user memory, the descriptor table and the slots. `SyscallSpec` and
  `UserSpec` say on values what every call and every interpreted operation does, and
  each method is proved to do exactly that. User memory is a window of one flat
  address space, so both range checks appear as they are written: over 32-bit
  offsets in the interpreter and over 64-bit addresses in the dispatcher.
- **The reference machine.** `AbstractMachine` is what a user program can observe:
  512 bytes and four slots that are empty or hold a file and a cursor. It has no
  descriptors, addresses or call numbers, only a count of descriptors no slot
  reaches any more. `Refinement` proves that the stack behaves as this machine over
  every history of runs; `Leaks`, `KernelTraces` and `Isolation` draw consequences.
- **The documentation panel refresher.** `Html` and `Panels` model the scanner the
  regular expression denotes and the rewriting pass.
- **The microVM guest and its monitor.** `MicroVm` interprets the guest's bytes and
  runs them under the exit loop, with signals arriving at arbitrary moments.
- **Three smaller cores.** `Stage2` is the boot monitor's line editor, string matcher
  and command loop on registers and memory; `Barrier` is the pipe barrier of parts
  07 and 12 over all interleavings and failures; `Descriptors` packs GDT and IDT
  entries and reads them back by the bit positions of the Intel SDM, Vol. 3A,
  sections 3.4.5, 3.5.1 and 6.14.1.

`dafny verify dfyconfig.toml` checks everything.

## Results worth knowing

- A slot that is opened again while it is filled leaks its descriptor, permanently:
  a run leaks exactly as many descriptors as it overwrites slots
  (`Leaks.LeaksAreExact`). Opening one file into one slot of a fresh process six times
  ends in EMFILE, five times does not (`Leaks.SixOpensEndInEmfile`). EMFILE comes
  exactly when the path exists and five descriptors are in use
  (`Leaks.EmfileNeedsLeaks`); a process that opens only into empty slots never gets it
  in any of its runs (`Leaks.CarefulProcessNeverEmfile`).
- The dispatcher looks only at the low 32 bits of the call number, so a number above
  6 is not always an unknown call: 2^32 is a READ (`KernelTraces.TwoToThe32IsRead`).
  Unknown are exactly the numbers whose low half exceeds 6
  (`KernelTraces.SelectorIsLowHalf`).
- A user range ending exactly at 2^64 is rejected although all its bytes lie in the
  window (`KernelTraces.LastByteRefused`). The check is exact if and only if the window
  ends below 2^64 (`SyscallSpec.InUserRangeExact`).
- In parts 07 and 12 the child prints a message for the case that the parent closed
  the pipe first. That case cannot arise: the child inherits a copy of the write end
  and never closes it (`Barrier.BarrierIsSafe`). A parent killed right after clone
  leaves the child waiting for good (`Barrier.KilledParentOrphansChild`); without the
  inherited copy it would have been told (`Barrier.WithoutItsCopyTheChildIsTold`). A waiting
  child can still get through if and only if its parent is still there or has released
  it (`Barrier.WaitingChildCanPass`).
- A program may come without an initial image if its length is 0: it runs on the
  memory as it is. Only a missing image of positive length is refused
  (`Refinement.LoadExactly`).

## Conventions

- A null `char *` or data pointer inside a node is `None`. A node pointer is the node
  itself: nodes are immutable and outlive the descriptors that name them.
- The process window does not start at address 0 and, being a C object, ends below
  2^64. General tasks may end at 2^64.
- `write_byte` appends to the sequence `out`.
- Records and integers have their x86_64 layout: 64-bit `size_t`, little-endian,
  16-byte `struct kfs_stat` whose three padding bytes are not written.
- Enumerations without arithmetic (error codes) are datatypes; call numbers and
  opcodes are the numbers of the headers.
- The address space, the descriptor table and the filesystem's nodes do not overlap.

## Model

| member | source | states |
|---|---|---|
| Lib.KStrlen | mini-kernel/kernel/lib/string.c:3-16 | the loop stops at the first NUL, which lies inside the buffer |
| Lib.KMemEqual | mini-kernel/kernel/lib/string.c:18-38 | true exactly when the first `len` bytes agree |
| Lib.KMemset | mini-kernel/kernel/lib/mem.c:3-16 | stores the value in exactly the given range of the buffer |
| Lib.KMemcpy | mini-kernel/kernel/lib/mem.c:18-36 | copies exactly the given bytes and touches nothing else |
| Lib.KMemcpyChecked | mini-kernel/kernel/lib/mem.c:38-45 | copies iff the source fits and is there; otherwise changes nothing |
| Fs.FindExact | mini-kernel/kernel/fs.c:27-41 | lookup gives the least-index valid node of exactly that name, nothing iff there is none or the path is empty; a path with an embedded NUL names nothing |
| Fs.InvalidNodesNeverShadow | mini-kernel/kernel/fs.c:8-19 | removing all invalid nodes from the table never changes a lookup |
| Fs.StatImageRoundTrip | mini-kernel/kernel/fs.c:63-73 | the stored stat record reads back as the size, mode and flag that were stored |
| Fs.StatRecordExact | mini-kernel/kernel/fs.c:75-92 | the record of a missing file is thirteen zero bytes; that of a file reads back its size and ends with true |
| Fs.ReadNode | mini-kernel/kernel/fs.c:94-109 | copies the requested part of the file, cut at its end, to the destination and nothing else |
| Fs.StatNode | mini-kernel/kernel/fs.c:63-73 | stores the record of a valid node, refuses an invalid one without storing |
| Fs.FileSystem.Mount | mini-kernel/kernel/fs.c:21-25 | from now on lookups see the given table |
| Fs.FileSystem.Lookup | mini-kernel/kernel/fs.c:27-41 | the search loop with its string helpers finds what `Find` names |
| Fs.FileSystem.Open | mini-kernel/kernel/fs.c:43-61 | the handle holds the file the C string names, at its start, or nothing with ENOENT |
| Fs.FileSystem.Read | mini-kernel/kernel/fs.c:111-135 | delivers the bytes at the cursor and advances it by as many; EINVAL without a valid node |
| Fs.FileSystem.Stat | mini-kernel/kernel/fs.c:75-92 | stores the file's record, or an all-zero record with ENOENT |
| SyscallSpec.InUserRangeExact | mini-kernel/kernel/syscall.c:29-51 | the overflow-checked comparison accepts exactly the empty ranges and the ranges inside a window that ends below 2^64 |
| SyscallSpec.LeastFree | mini-kernel/kernel/syscall.c:92-101 | the first unused entry from the given descriptor up, nothing iff all are used |
| Syscall.Task.ContainsUserRange | mini-kernel/kernel/syscall.c:29-51 | decides the range check on the task's own window |
| Syscall.Task.Write | mini-kernel/kernel/syscall.c:53-77 | new task state and result are those of `SysWrite` |
| Syscall.Task.Open | mini-kernel/kernel/syscall.c:79-102 | new task state and result are those of `SysOpen` |
| Syscall.Task.Close | mini-kernel/kernel/syscall.c:104-112 | new task state and result are those of `SysClose` |
| Syscall.Task.Read | mini-kernel/kernel/syscall.c:114-136 | new task state and result are those of `SysRead` |
| Syscall.Task.Stat | mini-kernel/kernel/syscall.c:138-163 | new task state and result are those of `SysStat` |
| Syscall.Task.Dispatch | mini-kernel/kernel/syscall.c:184-210 | new task state and result are those of the specified call, for every register content |
| SyscallEntry.Enter | mini-kernel/kernel/syscall_entry.c:3-28 | registers reach the dispatcher in order, the outcome reaches the frame, `rax` holds the unsigned result, the other argument registers are kept |
| User.Process.Init | mini-kernel/kernel/user.c:15-32 | whatever the process held, it becomes the zeroed process with empty slots and the given output sink; the address space outside its memory is untouched |
| User.Process.RunFrame | mini-kernel/kernel/user.c:34-49 | records the kernel's error, turns it into a return code, and records exit only on success |
| User.Process.PrepareFrame | mini-kernel/kernel/user.c:75-131 | refuses with the right error and no other change, or fills the frame with the registers of the call |
| User.Process.Step | mini-kernel/kernel/user.c:70-144 | one turn of the loop has exactly the specified effect and result |
| User.Process.Run | mini-kernel/kernel/user.c:51-147 | the whole run has exactly the specified effect, return code and mount |
| Refinement.LoadExactly | mini-kernel/kernel/user.c:51-66 | on the program's own fields: UFault and no change exactly when the image is longer than 512 or missing though not empty; otherwise the image stands before the old bytes and both error fields are cleared, also without any image |
| Refinement.DescriptorsAccountedFor | mini-kernel/kernel/user.c:139-143 | used descriptors are the filled slots plus the leaked ones, at most five, and the table is full exactly at five |
| Refinement.TableOpen | mini-kernel/kernel/user.c:139-140 | filling a slot with a fresh descriptor keeps the coupling, shows the new file in that slot only, and leaks what the slot held |
| Refinement.TableAdvance | mini-kernel/kernel/syscall.c:131-133 | moving a descriptor's cursor moves the cursor of the one slot that names it |
| Refinement.TableClose | mini-kernel/kernel/user.c:141-143 | closing through a slot empties that slot only and leaks nothing |
| Refinement.RangeChecksAgree | mini-kernel/kernel/user.c:5-13 | the 32-bit check is `offset + len <= 512` over the integers; on non-empty ranges it accepts exactly what the 64-bit address check accepts |
| Refinement.StoreIsSplice | mini-kernel/kernel/user.c:10-13 | storing through a user address is storing at the offset of process memory |
| Refinement.StepExit | mini-kernel/kernel/user.c:124-127 | an exit status, negative ones included, survives the trip through the 64-bit register |
| Refinement.SimulateStep | mini-kernel/kernel/user.c:70-144 | every operation keeps the coupling of slots and descriptors and has the reference machine's effect and return code |
| Refinement.SimulateOps | mini-kernel/kernel/user.c:70-146 | so does every operation list, also when it stops early |
| Refinement.RunRefines | mini-kernel/kernel/user.c:51-147 | any program run from a coupled process gives the reference machine's return code, memory, output, exit state and errors |
| Refinement.InitRefines | mini-kernel/kernel/user.c:15-32 | an initialised process is coupled and looks like the fresh reference machine |
| Refinement.HistoryRefines | mini-kernel/kernel/user.c:51-147 | the same over any number of runs: the sequence of return codes and the final state are the reference machine's |
| Refinement.FreshHistoryRefines | mini-kernel/kernel/user.c:15-147 | the same from initialisation, over any address space and any output sink |
| Refinement.OnlyTwoKernelErrors | mini-kernel/kernel/user.c:95-123 | the kernel answers an interpreted operation only OK, ENOENT or (for OPEN) EMFILE; READ and CLOSE never get EBADF |
| Leaks.LeaksAreExact | mini-kernel/kernel/user.c:139-140 | over a run, leaked descriptors grow by exactly the number of successful opens into filled slots and never shrink |
| Leaks.StepBalance | mini-kernel/kernel/user.c:133-143 | an operation changes the descriptors in use by one up for OPEN, one down for CLOSE, and otherwise not |
| Leaks.EmfileNeedsLeaks | mini-kernel/kernel/syscall.c:92-101 | EMFILE exactly when the path exists and five descriptors are in use, which takes one leak, or two for an empty slot |
| Leaks.NoOverwriteNoEmfile | mini-kernel/kernel/user.c:86-94 | with at most one leak before it, a run that never opens into a filled slot leaks nothing and never gets EMFILE |
| Leaks.CarefulProcessNeverEmfile | mini-kernel/kernel/user.c:51-147 | after each of any number of runs, a freshly initialised process that never opened into a filled slot has not got EMFILE in that run and has leaked nothing |
| Leaks.ReopeningExhausts | mini-kernel/kernel/user.c:139-140 | repeating one OPEN uses up one descriptor each time and ends in EMFILE exactly when the capacity is exceeded |
| Leaks.SixOpensEndInEmfile | mini-kernel/kernel/user.c:51-147 | on the real stack, opening one file into one slot of a fresh process succeeds five times and ends in EMFILE at six |
| KernelTraces.Confined | mini-kernel/kernel/syscall.c:53-163 | a call changes no byte outside the user range and its own argument window, READ only as many as it reports; a failing call changes nothing at all |
| KernelTraces.TraceConfined | mini-kernel/kernel/syscall.c:184-210 | over every sequence of calls and remounts a byte changes only if it is in the user range and in the window of some successful READ or STAT |
| KernelTraces.ResultValues | mini-kernel/kernel/syscall.c:17-27 | for every register content: -1, all ones in `rax`, exactly on error; otherwise the length, the descriptor, the pid or 0 of the call; exit request and status come from EXIT alone |
| KernelTraces.ErrorsExactly | mini-kernel/kernel/syscall.c:53-182 | the error of every call but OPEN for every input, with the order of its checks |
| KernelTraces.WriteAndCloseEffects | mini-kernel/kernel/syscall.c:53-112 | WRITE appends exactly the bytes at the user's address, CLOSE zeroes exactly its entry, and nothing else changes |
| KernelTraces.OpenOutcome | mini-kernel/kernel/syscall.c:79-102 | OPEN's error for every input, and on success the least free descriptor from 3 up, holding the named file at its start, with all other entries kept |
| KernelTraces.OpenAgreesWithCString | mini-kernel/kernel/fs.c:43-61 | the pointer-and-length OPEN finds what the C-string open finds, and nothing if the length takes in the NUL |
| KernelTraces.StatAgreesWithCString | mini-kernel/kernel/fs.c:75-92 | STAT with a string's own length stores the record `kfs_stat` stores for it; for a missing file it changes nothing, where `kfs_stat` stores zeros |
| KernelTraces.ReadAgreesWithHandle | mini-kernel/kernel/fs.c:111-135 | READ through a descriptor leaves the memory and cursor `kfs_read` leaves from a handle with the same node and cursor, and reports the same count |
| KernelTraces.StatReadsBack | mini-kernel/kernel/syscall.c:138-163 | after a successful STAT the user reads back the size of the named file, the file mode and true |
| KernelTraces.SelectorIsLowHalf | mini-kernel/kernel/syscall.c:192-208 | calls are selected by the number modulo 2^32; ENOSYS exactly when that exceeds 6 |
| KernelTraces.TwoToThe32IsRead | mini-kernel/kernel/syscall.c:192-194 | the call number 2^32 is a READ, never ENOSYS |
| KernelTraces.LastByteRefused | mini-kernel/kernel/syscall.c:42-50 | a concrete task that owns the last byte of the address space is refused a write of that byte |
| KernelTraces.DescriptorsConserved | mini-kernel/kernel/syscall.c:79-112 | over every trace, used entries grow by successful opens minus successful closes, and entries 0 to 2 never change |
| KernelTraces.TraceBalances | mini-kernel/kernel/syscall.c:79-112 | over every trace, whether a descriptor is used is its initial use plus its successful opens minus its successful closes |
| KernelTraces.BadFdExactly | mini-kernel/kernel/syscall.c:104-125 | from a zeroed table, READ or CLOSE on any number is EBADF exactly when the trace closed it as often as it opened it; otherwise it opened it once more |
| KernelTraces.ReadsConcatenate | mini-kernel/kernel/syscall.c:114-136 | however reads on an open descriptor are split and interleaved with other calls and remounts, the delivered bytes are the next min(total, rest) bytes of the file and the cursor stays inside it |
| KernelTraces.ReadsAfterOpen | mini-kernel/kernel/syscall.c:79-136 | the same from the open on: the first min(total, size) bytes of the file the path named then |
| Isolation.HistoryFollows | mini-kernel/kernel/user.c:51-147 | over any number of runs a process changes no byte outside its 512, keeps its window and pid, and its output only grows |
| Isolation.DisjointProcessesDoNotInterfere | mini-kernel/kernel/user.c:51-147 | with disjoint windows, nothing one process runs changes the memory of another |
| Isolation.InterleavingIsInvisible | mini-kernel/kernel/user.c:51-147 | however the runs of two processes with disjoint windows are interleaved, each ends as, and gets the return codes of, the reference machine running its own programs alone |
| Html.EscapeIsPerChar | scripts/check_docs_sources.py:31-33 | the three successive replacements are one pass character by character |
| Html.EscapedHasNoMarkup | scripts/check_docs_sources.py:31-33 | escaped text holds no `<` and no `>` |
| Html.UnescapeInverts | scripts/check_docs_sources.py:31-33 | unescaping gives the text back |
| Html.EscapeInjective | scripts/check_docs_sources.py:68-70 | two texts have the same encoding exactly when they are equal |
| Panels.MatchComplete | scripts/check_docs_sources.py:16-20 | every text of the pattern's shape, with the shortest body, is matched with its own opening, path and body |
| Panels.MatchSound | scripts/check_docs_sources.py:16-20 | whatever is matched has the pattern's shape with the shortest body |
| Panels.ScanKeepsText | scripts/check_docs_sources.py:77 | cutting a document into panels and text loses and changes nothing |
| Panels.ScanIsLeftmost | scripts/check_docs_sources.py:77 | at the position of every piece of the scan the pattern was tried and the piece is what it makes of the text there, so no panel is skipped |
| Panels.HeadLocal | scripts/check_docs_sources.py:16-20 | a match attempt before an opening is decided by the text before that opening |
| Panels.NoMatchStays | scripts/check_docs_sources.py:60-77 | a position that starts no match starts none after later bodies were rewritten |
| Panels.MatchStays | scripts/check_docs_sources.py:60-77 | a rewritten panel is matched again with the same opening and path and exactly the new body |
| Panels.ScanAfterRefresh | scripts/check_docs_sources.py:55-80 | a refreshed document scans to the same text, panels, order, openings and paths, with the rewritten bodies |
| Panels.RefreshIsFixpoint | scripts/check_docs_sources.py:55-80 | a second pass changes nothing, reports no drift, and reports exactly the same missing sources |
| Panels.DriftIsExact | scripts/check_docs_sources.py:63-71 | after a refresh a panel is later reported stale exactly when its source exists and has changed |
| Panels.ReportIsExact | scripts/check_docs_sources.py:60-75 | the problems are one for each panel whose source is missing or differs, in the order of the document, of the right kind and path |
| Panels.ReportedExactly | scripts/check_docs_sources.py:60-75 | a path is reported as drifted, or as missing, exactly when some panel names it and the source differs, or does not exist; nothing is reported exactly when every panel is the encoding of its source |
| Panels.CheckSourcePanels | scripts/check_docs_sources.py:55-80 | reports exactly the panels whose source is missing or differs, in order, and nothing exactly when there is none; leaves the refreshed document with `write`, the original without |
| Panels.Replace | scripts/check_docs_sources.py:60-75 | the callback's text and change flag, and its report: missing, drifted, or none, decided on the panel's path and code |
| MicroVm.HandleIo | src/part-09-microvm/mini_firecracker.c:111-128 | prints all data bytes of a one-byte OUT to port 0xe9 and refuses every other access |
| MicroVm.KvmRun | src/part-09-microvm/mini_firecracker.c:193-198 | a run call stops at an exit or, if a signal came first, at EINTR with the guest state after exactly the signal's number of instructions |
| MicroVm.RunLoop | src/part-09-microvm/mini_firecracker.c:192-220 | for any guest that stops and any signals, the exit loop ends as the uninterrupted run does |
| MicroVm.OtherPortFails | src/part-09-microvm/mini_firecracker.c:111-121 | a guest that writes to another port fails at once with nothing more printed |
| MicroVm.UnknownInstructionFails | src/part-09-microvm/mini_firecracker.c:216-218 | so does one that reaches an instruction outside the seven |
| MicroVm.OneTurn | src/part-09-microvm/mini_firecracker.c:72-79 | five instructions print one byte and return to the head of the guest's loop |
| MicroVm.GuestPrintsMessage | src/part-09-microvm/mini_firecracker.c:72-86 | the machine bytes print exactly the message with one I/O exit a byte and halt after exactly 5n + 5 instructions, never failing |
| MicroVm.ImageLoads | src/part-09-microvm/mini_firecracker.c:72-161 | the copied image puts code, message and NUL where the guest expects them |
| MicroVm.RunMicroVm | src/part-09-microvm/mini_firecracker.c:152-220 | for every message that fits and all signals, the monitor prints the message and sees the guest halt |
| Stage2.Monitor.Key | mini-kernel/boot/stage2.S:31-49 | one key edits the line in the buffer, keeps DI at buffer plus CX, and stores nowhere outside the 32 bytes |
| Stage2.Monitor.TypeLine | mini-kernel/boot/stage2.S:21-49 | up to the first Enter the buffer holds the fold of the keys |
| Stage2.Monitor.ReadLine | mini-kernel/boot/stage2.S:21-52 | at Enter the buffer holds the fold of the line's keys and a NUL; outside the buffer nothing changes |
| Stage2.Monitor.StrEq | mini-kernel/boot/stage2.S:119-143 | 1 exactly when the two strings are equal; the last byte pair looked at is their first difference or their common terminator, never beyond either terminator |
| Stage2.Monitor.Finish | mini-kernel/boot/stage2.S:51-91 | the handler chosen depends only on the text up to the first NUL |
| Stage2.Monitor.CommandLoop | mini-kernel/boot/stage2.S:18-117 | the handlers run are those of `Session`, a function of the keys alone, so bytes left from earlier lines never matter |
| Stage2.TypeAndErase | mini-kernel/boot/stage2.S:31-49 | a character and Backspace leave a line with room unchanged; Backspace on an empty line and a character on a full one do nothing |
| Stage2.PlainTyping | mini-kernel/boot/stage2.S:31-49 | without Backspace the line is the first min(31, n) characters typed |
| Stage2.ErasedKeyIsInvisible | mini-kernel/boot/stage2.S:18-117 | anywhere in a key sequence where the line has room, a character and Backspace can be left out without changing the handlers run |
| Stage2.TypedWordRuns | mini-kernel/boot/stage2.S:24-117 | a typed word runs the handler of its name, the empty word nothing, any other word the complaint; only halt and reboot end the session |
| Barrier.NextKeepsInv | src/part-12-userns/userns_map.c:127-186 | every action of either process or the environment keeps the barrier invariant |
| Barrier.BarrierIsSafe | src/part-12-userns/userns_map.c:93-186 | in every interleaving with every failure, whatever the child does comes after the complete set-up in order and the release; it never sees end of file |
| Barrier.UsernsBarrier | src/part-12-userns/userns_map.c:93-110 | the child passes only after uid_map was written, then setgroups denied or found absent, then gid_map written |
| Barrier.ContainerBarrier | src/part-07-container/mini_container.c:95-171 | exec comes only after the cgroup step returned and after the child's own six steps in order |
| Barrier.OrphanBlocks | src/part-12-userns/userns_map.c:127-139 | a child whose parent ended before the release can only stop on a read error or from outside |
| Barrier.OrphanNeverPasses | src/part-07-container/mini_container.c:82-93 | once the parent ended without releasing, no continuation lets the child do anything |
| Barrier.WaitingChildCanPass | src/part-12-userns/userns_map.c:127-186 | from every reachable state with a waiting child, some continuation lets it through if and only if the parent is still there or has released it |
| Barrier.KilledParentOrphansChild | src/part-12-userns/userns_map.c:170-186 | a parent killed right after clone leaves a child that no continuation lets through |
| Barrier.WithoutItsCopyTheChildIsTold | src/part-12-userns/userns_map.c:135-138 | had the child closed its copy of the write end, it would see end of file when the parent is killed |
| Barrier.StepOutcomes | src/part-12-userns/userns_map.c:64-91 | a step ends its process exactly when its outcome is one it does not accept, and otherwise is recorded and followed by the next |
| Barrier.ScriptOutcomes | src/part-07-container/mini_container.c:54-129 | the accepted outcomes of the two scripts, step by step |
| Barrier.SendOutcome | src/part-12-userns/userns_map.c:183-185 | in every state the invariant allows, the release succeeds exactly when the write does and the child is still reading |
| Barrier.ReadOutcome | src/part-12-userns/userns_map.c:131-139 | the read gives a byte exactly when there is one, end of file exactly when there is none and nobody holds the write end, and otherwise waits |
| Barrier.ReleasedChildCanFinish | src/part-07-container/mini_container.c:95-129 | from every reachable state with the child past the barrier, some continuation takes it through its last step, in part 07 exec |
| Barrier.AcceptedRunFinishes | src/part-07-container/mini_container.c:95-171 | for any script and any accepted outcomes there is a run that logs the whole set-up, the release, the pass and the whole body with just these outcomes |
| Barrier.ContainerRunsDespiteWarnings | src/part-07-container/mini_container.c:54-129 | exec is reached whatever came of the cgroup step, also when /proc was there |
| Barrier.UsernsPassesWithoutSetgroups | src/part-12-userns/userns_map.c:64-91 | the child passes also on a kernel without the setgroups file |
| Descriptors.EntryRoundTrip | mini-kernel/kernel/arch/x86_64/gdt.c:8-25 | the packed bytes decode to the base, the limit mod 2^20, the access byte and the flags mod 16 |
| Descriptors.SegmentBuilders | mini-kernel/kernel/arch/x86_64/gdt.c:33-54 | the builders give flat present code and data segments of level `dpl` mod 4 with the intended type and flag bits |
| Descriptors.EntrySet | mini-kernel/kernel/arch/x86_64/gdt.c:8-25 | writing the six fields one by one gives the packed entry and leaves other entries alone |
| Descriptors.DefaultTable | mini-kernel/kernel/arch/x86_64/gdt.c:56-67 | fills the five default entries, or nothing if they do not fit |
| Descriptors.DefaultTableBits | mini-kernel/kernel/arch/x86_64/gdt.c:56-67 | the 64 bits of each default entry: null, kernel code and data, user code and data |
| Descriptors.SelectorsMatchTable | mini-kernel/kernel/include/kernel/arch.h:21-24 | each selector constant points at an entry of its own privilege level, the code selectors at code and the data selectors at data segments |
| Descriptors.TableLimitExact | mini-kernel/kernel/arch/x86_64/gdt.c:69-79 | the 16-bit limit covers exactly the table's entries if and only if they take at most 65536 bytes; it is always the size minus one modulo 2^16, and 0 for no entries |
| Descriptors.GateRoundTrip | mini-kernel/kernel/arch/x86_64/idt.c:8-27 | the packed bytes decode to the full handler, selector, ist mod 8, type mod 16 and dpl mod 4, present, with reserved bits zero |
| Descriptors.GateBuilders | mini-kernel/kernel/arch/x86_64/idt.c:29-41 | the builders give present interrupt gates of level 0 and trap gates of level `dpl` mod 4 at the full handler, on no interrupt stack |
| Descriptors.GateSet | mini-kernel/kernel/arch/x86_64/idt.c:8-27 | writing the fields one by one gives the packed gate and leaves other gates alone |
| Descriptors.IdtClear | mini-kernel/kernel/arch/x86_64/idt.c:43-52 | clears exactly the first `count` gates |
| Descriptors.ClearedGateIsZero | mini-kernel/kernel/arch/x86_64/idt.c:43-52 | a cleared gate is sixteen zero bytes, so it is not present |

## Left out

- Null arguments (`task`, `regs`, `frame`, `process`, `program`, `ops`, `path`, destination buffers): the model's objects are never null.
- `KFS_EINVAL` from `kfs_stat_node` inside STAT: a node that lookup found is valid, so the branch cannot be reached.
- The built-in init program (`user.c:150-187`): one fixed run.
- The identity of node pointers: two equal nodes are not told apart.
- Overlap of user memory with kernel structures or node data.
- `read_text`, `write_text`, newline translation, and paths that name directories: documents and sources are strings, and the source tree is a map.
- `check_references` and `check_local_links`: independent searches that change nothing.
- HTML entities other than the three that escaping produces: `Unescape` reads back only those.
- Guest instructions other than the seven used: any other byte is an unhandled exit, and the direction flag and segment bases are zero throughout.
- KVM set-up calls, their failures, and KVM_RUN errors other than EINTR.
- BIOS services of stage2: keys are an input sequence, the screen is not modelled; a reboot ends the session.
- What mounting, chroot, cgroup files and id maps mean: only the order and outcome of the steps.
- Waiting for and reporting the child's exit status in parts 07 and 12, beyond the wait itself.
- The `base` field of the table registers and the null-table case of their builders: copied values.
- Parts 01 to 06, 08, 10, 11, 13 and 14, boot sector, linker scripts, serial, panic and logging: straight-line calls without a state machine.
