/** The 16-bit guest program, the seven instructions it is made of, and the
    exit loop of the virtual machine monitor that runs it. */
module MicroVm {
  import opened Machine

  const MEM_SIZE: nat := 0x20_0000
  const ENTRY: nat := 0x1000
  const MESSAGE: nat := 0x100e
  const DEBUG_PORT: Byte := 0xe9

  type Word16 = w: int | 0 <= w < 0x1_0000

  /** mov si, MESSAGE; loop: lodsb; test al, al; jz done; out DEBUG_PORT, al; jmp loop; done: hlt */
  const CODE: seq<Byte> :=
    [0xbe, 0x0e, 0x10, 0xac, 0x84, 0xc0, 0x74, 0x04, 0xe6, 0xe9, 0xeb, 0xf7, 0xf4]

  /** Real-mode registers the program uses; segment bases and the direction flag are 0. */
  datatype Cpu = Cpu(ip: Word16, si: Word16, al: Byte, zf: bool)

  /** Why KVM_RUN came back. */
  datatype Exit = Io(isOut: bool, size: nat, port: nat, data: seq<Byte>) | Hlt | Other

  function Wrap(a: int): Word16 {
    a % 0x1_0000
  }

  function Signed8(b: Byte): int {
    if b < 0x80 then b else b - 0x100
  }

  function At(mem: seq<Byte>, a: int): Byte
    requires |mem| == MEM_SIZE
  {
    mem[Wrap(a)]
  }

  /** One instruction, after the Intel SDM Vol. 2 entries for MOV, LODS, TEST, Jcc,
      OUT, JMP and HLT. Any other instruction leaves the model as `Other`. */
  function Step(mem: seq<Byte>, c: Cpu): (Cpu, Option<Exit>)
    requires |mem| == MEM_SIZE
  {
    var op, b1 := At(mem, c.ip), At(mem, c.ip + 1);
    if op == 0xbe then (c.(si := b1 + 0x100 * At(mem, c.ip + 2), ip := Wrap(c.ip + 3)), None)
    else if op == 0xac then (c.(al := At(mem, c.si), si := Wrap(c.si + 1), ip := Wrap(c.ip + 1)), None)
    else if op == 0x84 && b1 == 0xc0 then (c.(zf := c.al == 0, ip := Wrap(c.ip + 2)), None)
    else if op == 0x74 then (c.(ip := Wrap(c.ip + 2 + if c.zf then Signed8(b1) else 0)), None)
    else if op == 0xe6 then (c.(ip := Wrap(c.ip + 2)), Some(Io(true, 1, b1, [c.al])))
    else if op == 0xeb then (c.(ip := Wrap(c.ip + 2 + Signed8(b1))), None)
    else if op == 0xf4 then (c.(ip := Wrap(c.ip + 1)), Some(Hlt))
    else (c, Some(Other))
  }

  datatype Status = Running | Halted | Failed

  /** Guest and monitor together. */
  datatype Vm = Vm(cpu: Cpu, out: seq<Byte>, ioExits: nat, status: Status)

  /** State after reset: `setup_real_mode`. */
  function Boot(): Vm {
    Vm(Cpu(ENTRY, 0, 0, false), [], 0, Running)
  }

  predicate IsDebugOut(e: Exit) {
    e.Io? && e.isOut && e.size == 1 && e.port == DEBUG_PORT
  }

  /** What the monitor makes of an exit. */
  function Handle(vm: Vm, e: Exit): Vm {
    if IsDebugOut(e) then vm.(out := vm.out + e.data, ioExits := vm.ioExits + 1)
    else if e.Hlt? then vm.(status := Halted)
    else vm.(status := Failed)
  }

  /** One instruction and, if it exits, its handling. */
  function Advance(mem: seq<Byte>, vm: Vm): Vm
    requires |mem| == MEM_SIZE
  {
    if vm.status != Running then vm
    else
      match Step(mem, vm.cpu)
      case (c, None) => vm.(cpu := c)
      case (c, Some(e)) => Handle(vm.(cpu := c), e)
  }

  /** The uninterrupted run. */
  function Exec(mem: seq<Byte>, vm: Vm, n: nat): Vm
    requires |mem| == MEM_SIZE
    decreases n
  {
    if n == 0 then vm else Exec(mem, Advance(mem, vm), n - 1)
  }

  lemma {:induction false} ExecAdds(mem: seq<Byte>, vm: Vm, m: nat, n: nat)
    requires |mem| == MEM_SIZE
    ensures Exec(mem, vm, m + n) == Exec(mem, Exec(mem, vm, m), n)
    decreases m
  {
    if m == 0 {
    } else {
      ExecAdds(mem, Advance(mem, vm), m - 1, n);
    }
  }

  lemma {:induction false} StoppedStays(mem: seq<Byte>, vm: Vm, n: nat)
    requires |mem| == MEM_SIZE && vm.status != Running
    ensures Exec(mem, vm, n) == vm
  {
    if n == 0 {
    } else {
      StoppedStays(mem, vm, n - 1);
    }
  }

  /** `vm` stops after exactly `n` instructions. */
  ghost predicate StopsAfter(mem: seq<Byte>, vm: Vm, n: nat)
    requires |mem| == MEM_SIZE
  {
    Exec(mem, vm, n).status != Running && forall k | 0 <= k < n :: Exec(mem, vm, k).status == Running
  }

  /** An access to any other port stops the monitor with nothing more printed. */
  lemma OtherPortFails(mem: seq<Byte>, vm: Vm)
    requires |mem| == MEM_SIZE && vm.status == Running
    requires At(mem, vm.cpu.ip) == 0xe6 && At(mem, vm.cpu.ip + 1) != 0xe9
    ensures StopsAfter(mem, vm, 1)
    ensures var end := Exec(mem, vm, 1);
            end.status == Failed && end.out == vm.out && end.ioExits == vm.ioExits
  {
    assert Exec(mem, vm, 1) == Exec(mem, Advance(mem, vm), 0);
  }

  /** So does any exit that is neither I/O nor HLT, as for an unknown instruction. */
  lemma UnknownInstructionFails(mem: seq<Byte>, vm: Vm)
    requires |mem| == MEM_SIZE && vm.status == Running
    requires At(mem, vm.cpu.ip) !in {0xbe, 0xac, 0x84, 0x74, 0xe6, 0xeb, 0xf4}
    ensures StopsAfter(mem, vm, 1)
    ensures var end := Exec(mem, vm, 1);
            end.status == Failed && end.out == vm.out && end.ioExits == vm.ioExits
  {
    assert Exec(mem, vm, 1) == Exec(mem, Advance(mem, vm), 0);
  }

  // ----- the monitor

  /** `handle_io_exit`: prints the data bytes of an access to the debug port. */
  method HandleIo(e: Exit, out: seq<Byte>) returns (ok: bool, out': seq<Byte>)
    requires e.Io?
    ensures ok <==> e.isOut && e.size == 1 && e.port == 0xe9
    ensures out' == if ok then out + e.data else out
  {
    out' := out;
    if !e.isOut || e.size != 1 || e.port != DEBUG_PORT {
      return false, out';
    }
    for i := 0 to |e.data|
      invariant out' == out + e.data[..i]
    {
      out' := out' + [e.data[i]];
    }
    assert e.data[..|e.data|] == e.data;
    ok := true;
  }

  /** One KVM_RUN: executes until an exit, or until a signal arrives after
      `signal` instructions, in which case it returns EINTR (`None`). */
  method KvmRun(mem: seq<Byte>, vm: Vm, signal: Option<nat>, ghost bound: nat)
    returns (cpu: Cpu, e: Option<Exit>, ghost steps: nat)
    requires |mem| == MEM_SIZE && vm.status == Running
    requires Exec(mem, vm, bound).status != Running
    ensures e.None? ==> signal.Some? && steps == signal.value && Exec(mem, vm, steps) == vm.(cpu := cpu)
    ensures e.Some? && signal.Some? ==> steps <= signal.value
    ensures e.Some? ==> steps > 0 && Exec(mem, vm, steps) == Handle(vm.(cpu := cpu), e.value)
    ensures e.Some? ==> exists c :: Exec(mem, vm, steps - 1) == vm.(cpu := c)
    ensures steps <= bound
  {
    cpu, e, steps := vm.cpu, None, 0;
    var left := signal;
    while left.None? || left.value != 0
      invariant Exec(mem, vm, steps) == vm.(cpu := cpu)
      invariant steps <= bound
      invariant e.None? && (left.Some? <==> signal.Some?)
      invariant signal.Some? ==> steps <= signal.value && left.value == signal.value - steps
      decreases bound - steps
    {
      ghost var now := vm.(cpu := cpu);
      if steps == bound {
        assert false;
      }
      ExecAdds(mem, vm, steps, 1);
      assert Exec(mem, now, 1) == Exec(mem, Advance(mem, now), 0);
      var r := Step(mem, cpu);
      cpu, e, steps := r.0, r.1, steps + 1;
      if e.Some? {
        return;
      }
      left := if left.Some? then Some(left.value - 1) else None;
    }
  }

  /** The exit loop of `main`. Call number `i` of KVM_RUN is hit by a signal after
      `signals[i]` instructions, unless the guest exits first; later calls are not
      interrupted. Whatever the signals, the outcome is that of the uninterrupted
      run. The bound only says that the guest stops at all. */
  method RunLoop(mem: seq<Byte>, boot: Vm, signals: seq<nat>, ghost bound: nat) returns (end: Vm)
    requires |mem| == MEM_SIZE && boot.status == Running
    requires StopsAfter(mem, boot, bound)
    ensures end == Exec(mem, boot, bound)
  {
    var cpu, out, ioExits, call := boot.cpu, boot.out, boot.ioExits, 0;
    ghost var done := 0;
    while true
      invariant 0 <= done <= bound && 0 <= call <= |signals|
      invariant Exec(mem, boot, done) == Vm(cpu, out, ioExits, Running)
      decreases bound - done + |signals| - call
    {
      var vm := Vm(cpu, out, ioExits, Running);
      var signal := None;
      if call < |signals| {
        signal := Some(signals[call]);
      }
      if done == bound {
        assert false;
      }
      ExecAdds(mem, boot, done, bound - done);
      var c, e, steps := KvmRun(mem, vm, signal, bound - done);
      ExecAdds(mem, boot, done, steps);
      done := done + steps;
      cpu := c;
      call := if call < |signals| then call + 1 else call;
      if e.None? {
        continue;
      }
      if e.value.Io? {
        var ok, out' := HandleIo(e.value, out);
        if !ok {
          end := Vm(cpu, out, ioExits, Failed);
          StoppedStays(mem, end, bound - done);
          ExecAdds(mem, boot, done, bound - done);
          return;
        }
        out, ioExits := out', ioExits + 1;
      } else {
        end := Vm(cpu, out, ioExits, if e.value.Hlt? then Halted else Failed);
        StoppedStays(mem, end, bound - done);
        ExecAdds(mem, boot, done, bound - done);
        return;
      }
    }
  }

  // ----- the guest program

  /** The program at its entry point, a NUL-free message after it, and the NUL that
      ends the message still within reach of the 16-bit SI. */
  ghost predicate Loaded(mem: seq<Byte>, msg: seq<Byte>) {
    && |mem| == MEM_SIZE && MESSAGE + |msg| < 0x1_0000
    && 0 !in msg
    && (forall i | 0 <= i < |CODE| :: mem[ENTRY + i] == CODE[i])
    && (forall i | 0 <= i < |msg| :: mem[MESSAGE + i] == msg[i])
    && mem[MESSAGE + |msg|] == 0
  }

  /** The head of the guest's loop with `i` bytes printed. */
  function Head(msg: seq<Byte>, i: nat, al: Byte, zf: bool): Vm
    requires i <= |msg| && MESSAGE + |msg| < 0x1_0000
  {
    Vm(Cpu(0x1003, MESSAGE + i, al, zf), msg[..i], i, Running)
  }

  lemma FetchCode(mem: seq<Byte>, msg: seq<Byte>)
    requires Loaded(mem, msg)
    ensures At(mem, 0x1000) == 0xbe && At(mem, 0x1001) == 0x0e && At(mem, 0x1002) == 0x10
    ensures At(mem, 0x1003) == 0xac && At(mem, 0x1004) == 0x84 && At(mem, 0x1005) == 0xc0
    ensures At(mem, 0x1006) == 0x74 && At(mem, 0x1007) == 0x04 && At(mem, 0x1008) == 0xe6
    ensures At(mem, 0x1009) == 0xe9 && At(mem, 0x100a) == 0xeb && At(mem, 0x100b) == 0xf7
    ensures At(mem, 0x100c) == 0xf4
  {
    assert forall i | 0 <= i < |CODE| :: At(mem, ENTRY + i) == CODE[i];
    assert At(mem, ENTRY + 0) == CODE[0] && At(mem, ENTRY + 1) == CODE[1] && At(mem, ENTRY + 2) == CODE[2];
    assert At(mem, ENTRY + 3) == CODE[3] && At(mem, ENTRY + 4) == CODE[4] && At(mem, ENTRY + 5) == CODE[5];
    assert At(mem, ENTRY + 6) == CODE[6] && At(mem, ENTRY + 7) == CODE[7] && At(mem, ENTRY + 8) == CODE[8];
    assert At(mem, ENTRY + 9) == CODE[9] && At(mem, ENTRY + 10) == CODE[10] && At(mem, ENTRY + 11) == CODE[11];
    assert At(mem, ENTRY + 12) == CODE[12];
  }

  lemma Unroll(mem: seq<Byte>, vm: Vm)
    requires |mem| == MEM_SIZE
    ensures var v3 := Advance(mem, Advance(mem, Advance(mem, vm)));
            Exec(mem, vm, 3) == v3 && Exec(mem, vm, 4) == Advance(mem, v3) &&
            Exec(mem, vm, 5) == Advance(mem, Advance(mem, v3))
  {
    var v1 := Advance(mem, vm);
    var v2 := Advance(mem, v1);
    var v3 := Advance(mem, v2);
    var v4 := Advance(mem, v3);
    assert Exec(mem, v2, 1) == Exec(mem, v3, 0);
    assert Exec(mem, v1, 2) == Exec(mem, v2, 1);
    assert Exec(mem, v3, 1) == Exec(mem, v4, 0);
    assert Exec(mem, v2, 2) == Exec(mem, v3, 1);
    assert Exec(mem, v4, 1) == Exec(mem, Advance(mem, v4), 0);
    assert Exec(mem, v3, 2) == Exec(mem, v4, 1);
    assert Exec(mem, v2, 3) == Exec(mem, v3, 2);
    assert Exec(mem, v1, 3) == Exec(mem, v2, 2);
    assert Exec(mem, v1, 4) == Exec(mem, v2, 3);
  }

  /** One turn of the guest's loop prints one byte in five instructions. */
  lemma OneTurn(mem: seq<Byte>, msg: seq<Byte>, i: nat, al: Byte, zf: bool)
    requires Loaded(mem, msg) && i < |msg|
    ensures Exec(mem, Head(msg, i, al, zf), 5) == Head(msg, i + 1, msg[i], false)
  {
    hide Exec;
    FetchCode(mem, msg);
    assert msg[i] in msg && At(mem, MESSAGE + i) == msg[i];
    var v0 := Head(msg, i, al, zf);
    var v1 := v0.(cpu := Cpu(0x1004, MESSAGE + i + 1, msg[i], zf));
    var v2 := v0.(cpu := Cpu(0x1006, MESSAGE + i + 1, msg[i], false));
    var v3 := v0.(cpu := Cpu(0x1008, MESSAGE + i + 1, msg[i], false));
    var v4 := Vm(Cpu(0x100a, MESSAGE + i + 1, msg[i], false), msg[..i] + [msg[i]], i + 1, Running);
    assert Advance(mem, v0) == v1;
    assert Advance(mem, v1) == v2;
    assert Advance(mem, v2) == v3;
    assert Advance(mem, v3) == v4;
    assert msg[..i] + [msg[i]] == msg[..i + 1];
    assert Advance(mem, v4) == Head(msg, i + 1, msg[i], false);
    Unroll(mem, v0);
  }

  /** At the NUL the guest leaves the loop: three more instructions, then HLT. */
  lemma LastTurn(mem: seq<Byte>, msg: seq<Byte>, al: Byte, zf: bool)
    requires Loaded(mem, msg)
    ensures Exec(mem, Head(msg, |msg|, al, zf), 3).status == Running
    ensures var end := Exec(mem, Head(msg, |msg|, al, zf), 4);
            end.status == Halted && end.out == msg && end.ioExits == |msg|
  {
    hide Exec;
    FetchCode(mem, msg);
    var n := |msg|;
    assert At(mem, MESSAGE + n) == 0 && msg[..n] == msg;
    var v0 := Head(msg, n, al, zf);
    var v1 := v0.(cpu := Cpu(0x1004, Wrap(MESSAGE + n + 1), 0, zf));
    var v2 := v1.(cpu := v1.cpu.(ip := 0x1006, zf := true));
    var v3 := v2.(cpu := v2.cpu.(ip := 0x100c));
    assert Advance(mem, v0) == v1;
    assert Advance(mem, v1) == v2;
    assert Advance(mem, v2) == v3;
    Unroll(mem, v0);
  }

  lemma {:induction false} Turns(mem: seq<Byte>, msg: seq<Byte>, i: nat) returns (al: Byte, zf: bool)
    requires Loaded(mem, msg) && i <= |msg|
    ensures Exec(mem, Boot(), 5 * i + 1) == Head(msg, i, al, zf)
  {
    if i == 0 {
      FetchCode(mem, msg);
      assert Advance(mem, Boot()) == Head(msg, 0, 0, false);
      assert Exec(mem, Boot(), 1) == Exec(mem, Advance(mem, Boot()), 0);
      al, zf := 0, false;
    } else {
      var al0, zf0 := Turns(mem, msg, i - 1);
      OneTurn(mem, msg, i - 1, al0, zf0);
      ExecAdds(mem, Boot(), 5 * (i - 1) + 1, 5);
      al, zf := msg[i - 1], false;
    }
  }

  lemma RunningBefore(mem: seq<Byte>, vm: Vm, k: nat, n: nat)
    requires |mem| == MEM_SIZE && k <= n && Exec(mem, vm, n).status == Running
    ensures Exec(mem, vm, k).status == Running
  {
    if Exec(mem, vm, k).status != Running {
      StoppedStays(mem, Exec(mem, vm, k), n - k);
      ExecAdds(mem, vm, k, n - k);
    }
  }

  /** The machine bytes print exactly the message, one I/O exit a byte, and halt
      after exactly 5n + 5 instructions; no unhandled exit is ever taken. */
  lemma GuestPrintsMessage(mem: seq<Byte>, msg: seq<Byte>)
    requires Loaded(mem, msg)
    ensures StopsAfter(mem, Boot(), 5 * |msg| + 5)
    ensures var end := Exec(mem, Boot(), 5 * |msg| + 5);
            end.status == Halted && end.out == msg && end.ioExits == |msg|
  {
    var n := 5 * |msg| + 1;
    var al, zf := Turns(mem, msg, |msg|);
    LastTurn(mem, msg, al, zf);
    ExecAdds(mem, Boot(), n, 3);
    ExecAdds(mem, Boot(), n, 4);
    forall k | 0 <= k < n + 4
      ensures Exec(mem, Boot(), k).status == Running
    {
      RunningBefore(mem, Boot(), k, n + 3);
    }
  }

  /** `guest_code` for a message: the program, one byte of padding, the message, NUL. */
  function Image(msg: seq<Byte>): seq<Byte> {
    CODE + [0] + msg + [0]
  }

  lemma ImageLoads(ram: seq<Byte>, msg: seq<Byte>)
    requires |ram| == MEM_SIZE && 0 !in msg && MESSAGE + |msg| < 0x1_0000
    ensures Loaded(Splice(ram, ENTRY, Image(msg)), msg)
  {
    var image := Image(msg);
    assert |CODE| == 13;
    assert forall i | 0 <= i < 13 :: image[i] == CODE[i];
    assert forall i | 0 <= i < |msg| :: image[14 + i] == msg[i];
    assert image[14 + |msg|] == 0;
  }

  /** The whole of `main`: loads the image into zeroed guest memory and runs it. */
  method RunMicroVm(msg: seq<Byte>, signals: seq<nat>) returns (status: Status, out: seq<Byte>, ioExits: nat)
    requires 0 !in msg && MESSAGE + |msg| < 0x1_0000
    ensures status == Halted && out == msg && ioExits == |msg|
  {
    var zeroed: seq<Byte> := seq(MEM_SIZE, _ => 0);
    var mem := Splice(zeroed, ENTRY, Image(msg));
    assert Loaded(mem, msg) by { ImageLoads(zeroed, msg); }
    GuestPrintsMessage(mem, msg);
    var end := RunLoop(mem, Boot(), signals, 5 * |msg| + 5);
    status, out, ioExits := end.status, end.out, end.ioExits;
  }
}
