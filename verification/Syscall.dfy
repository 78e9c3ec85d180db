/** The system call dispatcher, working in place on a task. */
module Syscall {
  import opened Machine
  import opened Fs
  import opened SyscallSpec

  class Task {
    var pid: Word32
    var userBase: Word
    var userLen: Word
    var out: seq<Byte>
    const ram: array<Byte>
    const files: array<File>

    constructor (ram: array<Byte>)
      ensures this.ram == ram && fresh(files) && files.Length == MAX_FILES
      ensures userBase == userLen == 0
    {
      this.ram := ram;
      pid, userBase, userLen, out := 0, 0, 0, [];
      files := new File[MAX_FILES](_ => FREE);
    }

    ghost function View(): TaskState
      reads this, ram, files
    {
      TaskState(pid, userBase, userLen, ram[..], files[..], out)
    }

    ghost predicate Valid()
      reads this, ram, files
    {
      WellFormed(View())
    }

    method ContainsUserRange(ptr: Word, len: Word) returns (ok: bool)
      requires Valid()
      ensures ok == InUserRange(View(), ptr, len)
    {
      if len == 0 {
        return true;
      }
      if AddOverflows(ptr, len) {
        return false;
      }
      if AddOverflows(userBase, userLen) {
        return false;
      }
      return ptr >= userBase && ptr + len <= userBase + userLen;
    }

    method Write(fd: Word, ptr: Word, len: Word) returns (r: SysResult)
      requires Valid()
      modifies this`out
      ensures Valid()
      ensures (View(), r) == SysWrite(old(View()), fd, ptr, len)
    {
      if fd != FD_STDOUT && fd != FD_STDERR {
        return Fail(EBADF);
      }
      var ok := ContainsUserRange(ptr, len);
      if !ok {
        return Fail(EFAULT);
      }
      ghost var bytes := Fetch(ram[..], ptr, len);
      for i := 0 to len
        invariant out == old(out) + bytes[..i]
        invariant Valid() && View() == old(View()).(out := out)
      {
        out := out + [ram[ptr + i]];
      }
      assert bytes[..len] == bytes;
      r := Ok(len);
    }

    method Open(fs: FileSystem, ptr: Word, len: Word) returns (r: SysResult)
      requires Valid() && fs.Valid()
      modifies files
      ensures Valid()
      ensures (View(), r) == SysOpen(old(View()), fs.Mounted(), ptr, len)
    {
      var ok := ContainsUserRange(ptr, len);
      if !ok {
        return Fail(EFAULT);
      }
      var path := if len == 0 then [] else ram[ptr..ptr + len];
      assert path == Fetch(ram[..], ptr, len);
      var node := fs.Lookup(path);
      if node.None? {
        return Fail(ENOENT);
      }
      for fd := FD_FIRST_FILE to MAX_FILES
        invariant LeastFree(files[..], FD_FIRST_FILE) == LeastFree(files[..], fd)
        invariant Valid() && View() == old(View())
      {
        if !files[fd].used {
          files[fd] := File(node, 0, true);
          return Ok(fd);
        }
      }
      r := Fail(EMFILE);
    }

    method Close(fd: Word) returns (r: SysResult)
      requires Valid()
      modifies files
      ensures Valid()
      ensures (View(), r) == SysClose(old(View()), fd)
    {
      if fd < FD_FIRST_FILE || fd >= MAX_FILES || !files[fd].used {
        return Fail(EBADF);
      }
      files[fd] := FREE;
      r := Ok(0);
    }

    method Read(fd: Word, dst: Word, len: Word) returns (r: SysResult)
      requires Valid()
      modifies ram, files
      ensures Valid()
      ensures (View(), r) == SysRead(old(View()), fd, dst, len)
    {
      if fd < FD_FIRST_FILE || fd >= MAX_FILES || !files[fd].used {
        return Fail(EBADF);
      }
      var ok := ContainsUserRange(dst, len);
      if !ok {
        return Fail(EFAULT);
      }
      var file := files[fd];
      var copied := ReadNode(file.node, file.offset, ram, dst, len);
      files[fd] := file.(offset := file.offset + copied);
      r := Ok(copied);
    }

    method Stat(fs: FileSystem, ptr: Word, len: Word, at: Word) returns (r: SysResult)
      requires Valid() && fs.Valid()
      modifies ram
      ensures Valid()
      ensures (View(), r) == SysStat(old(View()), fs.Mounted(), ptr, len, at)
    {
      var pathOk := ContainsUserRange(ptr, len);
      var statOk := ContainsUserRange(at, STAT_SIZE);
      if !pathOk || !statOk {
        return Fail(EFAULT);
      }
      var path := if len == 0 then [] else ram[ptr..ptr + len];
      assert path == Fetch(ram[..], ptr, len);
      var node := fs.Lookup(path);
      if node.None? {
        return Fail(ENOENT);
      }
      // A node found by lookup is valid, so the record is always stored.
      var e := StatNode(node.value, ram, at);
      r := Ok(0);
    }

    method Dispatch(fs: FileSystem, regs: Regs) returns (r: SysResult)
      requires Valid() && fs.Valid()
      modifies this`out, ram, files
      ensures Valid()
      ensures (View(), r) == SyscallSpec.Dispatch(old(View()), fs.Mounted(), regs)
    {
      var nr := Low32(regs.nr);
      if nr == NR_READ {
        r := Read(regs.arg0, regs.arg1, regs.arg2);
      } else if nr == NR_WRITE {
        r := Write(regs.arg0, regs.arg1, regs.arg2);
      } else if nr == NR_OPEN {
        r := Open(fs, regs.arg0, regs.arg1);
      } else if nr == NR_CLOSE {
        r := Close(regs.arg0);
      } else if nr == NR_STAT {
        r := Stat(fs, regs.arg0, regs.arg1, regs.arg2);
      } else if nr == NR_GETPID {
        r := SysGetpid(pid);
      } else if nr == NR_EXIT {
        r := SysExit(ToInt32(regs.arg0));
      } else {
        r := Fail(ENOSYS);
      }
    }
  }
}
