/** What a process may do to the address space it shares with others. */
module Isolation {
  import opened Machine
  import opened Fs
  import opened SyscallSpec
  import opened UserSpec
  import KernelTraces
  import Refinement
  import A = AbstractMachine

  /** Later states of a process over the same address space: its window and pid are
      fixed, its output only grows, and no byte outside its window changes. */
  ghost predicate Follows(p: Proc, p': Proc) {
    && |p'.task.ram| == |p.task.ram|
    && (p'.task.pid, p'.task.base, p'.task.len) == (p.task.pid, p.task.base, p.task.len)
    && p.task.out <= p'.task.out
    && forall a | 0 <= a < |p.task.ram| && !Owns(p.task, a) :: p'.task.ram[a] == p.task.ram[a]
  }

  lemma OutputGrows(t: TaskState, nodes: seq<Node>, regs: Regs)
    requires WellFormed(t) && AllReadable(nodes)
    ensures t.out <= Dispatch(t, nodes, regs).0.out
  {
  }

  lemma StepFollows(p: Proc, nodes: seq<Node>, op: Op)
    requires ProcOk(p) && AllReadable(nodes)
    ensures Follows(p, StepOp(p, nodes, op).0)
  {
    match Prepare(p, op)
    case Refuse(_) =>
    case Trap(regs) =>
      OutputGrows(p.task, nodes, regs);
      forall a | 0 <= a < |p.task.ram|
        ensures |Dispatch(p.task, nodes, regs).0.ram| == |p.task.ram|
        ensures !Owns(p.task, a) ==> Dispatch(p.task, nodes, regs).0.ram[a] == p.task.ram[a]
      {
        KernelTraces.Confined(p.task, nodes, regs, a);
      }
      KernelTraces.Confined(p.task, nodes, regs, p.task.base);
      hide Dispatch, Prepare, WellFormed;
  }

  lemma FollowsTransitive(p: Proc, q: Proc, r: Proc)
    requires Follows(p, q) && Follows(q, r)
    ensures Follows(p, r)
  {
    assert forall a :: Owns(p.task, a) <==> Owns(q.task, a);
  }

  lemma FollowsSelf(p: Proc)
    ensures Follows(p, p)
  {
  }

  lemma {:induction false} OpsFollow(p: Proc, nodes: seq<Node>, ops: seq<Op>)
    requires ProcOk(p) && AllReadable(nodes)
    ensures Follows(p, RunOps(p, nodes, ops).0)
    decreases |ops|
  {
    hide StepOp, Follows, WellFormed;
    if ops == [] || p.exited {
      FollowsSelf(p);
    } else {
      StepOpOk(p, nodes, ops[0]);
      StepFollows(p, nodes, ops[0]);
      var (p1, e) := StepOp(p, nodes, ops[0]);
      if e == UOk {
        OpsFollow(p1, nodes, ops[1..]);
        FollowsTransitive(p, p1, RunOps(p1, nodes, ops[1..]).0);
      }
    }
  }

  lemma LoadFollows(p: Proc, prog: Program)
    requires ProcOk(p) && ProgramOk(prog) && Loads(prog)
    ensures Follows(p, LoadProgram(p, prog))
  {
  }

  lemma RunFollows(p: Proc, prog: Program)
    requires ProcOk(p) && ProgramOk(prog)
    ensures Follows(p, Run(p, prog).0)
  {
    hide RunOps, Follows;
    if Loads(prog) {
      LoadFollows(p, prog);
      OpsFollow(LoadProgram(p, prog), Visible(prog.fsNodes, prog.fsCount), prog.ops);
      FollowsTransitive(p, LoadProgram(p, prog), Run(p, prog).0);
    } else {
      FollowsSelf(p);
    }
  }

  /** Confinement over a whole history: whatever programs a process runs, and
      however they end, it never changes a byte outside its 512-byte window and
      never takes back output. */
  lemma {:induction false} HistoryFollows(p: Proc, progs: seq<Program>)
    requires ProcOk(p) && forall i | 0 <= i < |progs| :: ProgramOk(progs[i])
    ensures Follows(p, RunAll(p, progs).0)
    decreases |progs|
  {
    hide Run, Follows, ProcOk, ProgramOk;
    if progs == [] {
      FollowsSelf(p);
    } else {
      var p1 := Run(p, progs[0]).0;
      RunFollows(p, progs[0]);
      HistoryFollows(p1, progs[1..]);
      FollowsTransitive(p, p1, RunAll(p1, progs[1..]).0);
    }
  }

  predicate Disjoint(p: Proc, q: Proc) {
    p.task.base + p.task.len <= q.task.base || q.task.base + q.task.len <= p.task.base
  }

  /** `q` seen in the address space another process has left behind. */
  ghost function InSpace(q: Proc, ram: seq<Byte>): Proc {
    q.(task := q.task.(ram := ram))
  }

  lemma FollowerSpares(p: Proc, p': Proc, q: Proc)
    requires ProcOk(p) && ProcOk(q) && q.task.ram == p.task.ram && Disjoint(p, q) && Follows(p, p')
    ensures ProcOk(InSpace(q, p'.task.ram)) && Memory(InSpace(q, p'.task.ram)) == Memory(q)
  {
    var after := p'.task.ram;
    assert forall a | q.task.base <= a < q.task.base + q.task.len :: !Owns(p.task, a) && after[a] == p.task.ram[a];
    assert after[q.task.base..q.task.base + MEMORY_SIZE] == q.task.ram[q.task.base..q.task.base + MEMORY_SIZE];
  }

  /** Two processes in one address space with disjoint windows: nothing one of them
      runs changes the other's memory. */
  lemma DisjointProcessesDoNotInterfere(p: Proc, q: Proc, progs: seq<Program>)
    requires ProcOk(p) && ProcOk(q) && forall i | 0 <= i < |progs| :: ProgramOk(progs[i])
    requires q.task.ram == p.task.ram && Disjoint(p, q)
    ensures var q' := InSpace(q, RunAll(p, progs).0.task.ram);
            ProcOk(q') && Memory(q') == Memory(q)
  {
    HistoryFollows(p, progs);
    FollowerSpares(p, RunAll(p, progs).0, q);
  }

  // ----- two processes taking turns

  /** Which of the two processes runs, and what. */
  datatype Turn = Turn(first: bool, prog: Program)

  datatype Pair = Pair(p: Proc, q: Proc, pCodes: seq<UserError>, qCodes: seq<UserError>)

  ghost predicate TurnsOk(turns: seq<Turn>) {
    forall i | 0 <= i < |turns| :: ProgramOk(turns[i].prog)
  }

  ghost predicate Sharing(p: Proc, q: Proc) {
    ProcOk(p) && ProcOk(q) && p.task.ram == q.task.ram && Disjoint(p, q)
  }

  lemma TurnKeepsSharing(p: Proc, q: Proc, prog: Program)
    requires Sharing(p, q) && ProgramOk(prog)
    ensures Sharing(Run(p, prog).0, InSpace(q, Run(p, prog).0.task.ram))
    ensures Memory(InSpace(q, Run(p, prog).0.task.ram)) == Memory(q)
  {
    hide Run;
    RunFollows(p, prog);
    FollowerSpares(p, Run(p, prog).0, q);
  }

  /** The two processes run programs in the given order over their one address space. */
  ghost function Interleave(p: Proc, q: Proc, turns: seq<Turn>): (r: Pair)
    requires Sharing(p, q) && TurnsOk(turns)
    ensures Sharing(r.p, r.q)
    decreases |turns|
  {
    if turns == [] then Pair(p, q, [], [])
    else if turns[0].first then
      TurnKeepsSharing(p, q, turns[0].prog);
      var (p1, e) := Run(p, turns[0].prog);
      var r := Interleave(p1, InSpace(q, p1.task.ram), turns[1..]);
      r.(pCodes := [e] + r.pCodes)
    else
      TurnKeepsSharing(q, p, turns[0].prog);
      var (q1, e) := Run(q, turns[0].prog);
      var r := Interleave(InSpace(p, q1.task.ram), q1, turns[1..]);
      r.(qCodes := [e] + r.qCodes)
  }

  /** The programs one of the two processes runs. */
  function Programs(turns: seq<Turn>, first: bool): seq<Program> {
    if turns == [] then []
    else (if turns[0].first == first then [turns[0].prog] else []) + Programs(turns[1..], first)
  }

  lemma SameView(q: Proc, ram: seq<Byte>)
    requires Refinement.Coupled(q) && ProcOk(InSpace(q, ram)) && Memory(InSpace(q, ram)) == Memory(q)
    ensures Refinement.Coupled(InSpace(q, ram))
    ensures Refinement.Abstract(InSpace(q, ram)) == Refinement.Abstract(q)
  {
    hide Refinement.Cursors, Refinement.Leaked, Refinement.TableOk;
  }

  lemma RunAllCons(a: A.Abs, prog: Program, progs: seq<Program>)
    requires A.AbsOk(a) && ProgramOk(prog) && forall i | 0 <= i < |progs| :: ProgramOk(progs[i])
    ensures var (a1, e) := A.Run(a, prog);
            var (a2, es) := A.RunAll(a1, progs);
            A.RunAll(a, [prog] + progs) == (a2, [e] + es)
  {
    hide A.Run;
    assert ([prog] + progs)[1..] == progs;
  }

  /** From `a`, the abstract machine running `progs` alone ends in `end` with `codes`. */
  ghost predicate Agrees(a: A.Abs, progs: seq<Program>, end: A.Abs, codes: seq<UserError>)
    requires A.AbsOk(a)
  {
    (forall i | 0 <= i < |progs| :: ProgramOk(progs[i])) && A.RunAll(a, progs) == (end, codes)
  }

  lemma AgreesEmpty(a: A.Abs)
    requires A.AbsOk(a)
    ensures Agrees(a, [], a, [])
  {
  }

  lemma AgreesCons(a: A.Abs, prog: Program, progs: seq<Program>, end: A.Abs, codes: seq<UserError>)
    requires A.AbsOk(a) && ProgramOk(prog) && Agrees(A.Run(a, prog).0, progs, end, codes)
    ensures Agrees(a, [prog] + progs, end, [A.Run(a, prog).1] + codes)
  {
    hide A.Run;
    RunAllCons(a, prog, progs);
  }

  /** Independence: however the runs of two coupled processes with disjoint windows
      are interleaved, each process ends as, and got the return codes of, the
      abstract machine that runs its own programs alone. */
  lemma {:induction false} InterleavingIsInvisible(p: Proc, q: Proc, turns: seq<Turn>)
    requires Refinement.Coupled(p) && Refinement.Coupled(q) && Sharing(p, q) && TurnsOk(turns)
    ensures var r := Interleave(p, q, turns);
            && Refinement.Coupled(r.p) && Refinement.Coupled(r.q)
            && Agrees(Refinement.Abstract(p), Programs(turns, true), Refinement.Abstract(r.p), r.pCodes)
            && Agrees(Refinement.Abstract(q), Programs(turns, false), Refinement.Abstract(r.q), r.qCodes)
    decreases |turns|
  {
    hide Refinement.Abstract, Refinement.Coupled, Run, A.Run, A.RunAll, ProgramOk;
    if turns == [] {
      AgreesEmpty(Refinement.Abstract(p));
      AgreesEmpty(Refinement.Abstract(q));
    } else {
      var prog, rest := turns[0].prog, turns[1..];
      assert forall b :: Programs(turns, b) == if turns[0].first == b then [prog] + Programs(rest, b) else Programs(rest, b);
      if turns[0].first {
        var (p1, e) := Run(p, prog);
        TurnKeepsSharing(p, q, prog);
        Refinement.RunRefines(p, prog);
        SameView(q, p1.task.ram);
        InterleavingIsInvisible(p1, InSpace(q, p1.task.ram), rest);
        AgreesCons(Refinement.Abstract(p), prog, Programs(rest, true),
                   Refinement.Abstract(Interleave(p, q, turns).p), Interleave(p, q, turns).pCodes[1..]);
      } else {
        var (q1, e) := Run(q, prog);
        TurnKeepsSharing(q, p, prog);
        Refinement.RunRefines(q, prog);
        SameView(p, q1.task.ram);
        InterleavingIsInvisible(InSpace(p, q1.task.ram), q1, rest);
        AgreesCons(Refinement.Abstract(q), prog, Programs(rest, false),
                   Refinement.Abstract(Interleave(p, q, turns).q), Interleave(p, q, turns).qCodes[1..]);
      }
    }
  }
}
