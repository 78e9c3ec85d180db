/** The pipe barrier between a parent that prepares a namespace and a child that
    waits for it: two processes, their four pipe ends, every interleaving and
    every failure. */
module Barrier {
  import opened Machine

  /** How a step reacts to its own failure: `Tolerant` steps accept one particular
      error, `BestEffort` steps only warn. */
  datatype Kind = Required | Tolerant | BestEffort

  datatype Outcome = Success | Tolerated | Failure

  predicate Proceeds(kind: Kind, o: Outcome) {
    o == Success || kind == BestEffort || (kind == Tolerant && o == Tolerated)
  }

  /** What the parent does before it releases the child, and the child afterwards. */
  datatype Script = Script(setup: seq<Kind>, body: seq<Kind>)

  /** uid_map, setgroups (missing on old kernels), gid_map. */
  const USERNS := Script([Required, Tolerant, Required], [])

  /** The cgroup step; then hostname, private mounts, chroot, chdir, mkdir /proc
      (which may exist), mount /proc, exec. */
  const CONTAINER :=
    Script([BestEffort], [Required, Required, Required, Required, Tolerant, Required, Required])

  datatype ParentPc = CloseRead | Setup(k: nat) | Send | CloseWrite | Wait | ParentGone
  datatype ChildPc = Reading | Body(k: nat) | ChildGone

  datatype Event =
    | Did(k: nat, o: Outcome)
    | Sent
    | Passed
    | SawEof
    | ChildDid(k: nat, o: Outcome)

  /** `pr`, `pw`, `cr`, `cw`: which process still holds which end of the pipe. */
  datatype State = State(parent: ParentPc, child: ChildPc, pr: bool, pw: bool, cr: bool, cw: bool,
                         bytes: nat, log: seq<Event>)

  /** What the scheduler and the environment may choose. A process can also be
      ended from outside at any moment. */
  datatype Action =
    | ParentStep(o: Outcome)
    | ParentEnds
    | ChildRead(fails: bool)
    | ChildStep(o: Outcome)
    | ChildEnds

  /** Right after clone: both processes hold both ends. */
  function Start(): State {
    State(CloseRead, Reading, true, true, true, true, 0, [])
  }

  function EndParent(s: State): State {
    s.(parent := ParentGone, pr := false, pw := false)
  }

  function EndChild(s: State): State {
    s.(child := ChildGone, cr := false, cw := false)
  }

  function Log(s: State, e: Event): State {
    s.(log := s.log + [e])
  }

  function StepParent(sc: Script, s: State, o: Outcome): Option<State> {
    match s.parent
    case CloseRead => Some(s.(pr := false, parent := Setup(0)))
    case Setup(k) =>
      if k >= |sc.setup| then Some(s.(parent := Send))
      else if !Proceeds(sc.setup[k], o) then Some(EndParent(s))
      else Some(Log(s.(parent := Setup(k + 1)), Did(k, o)))
    case Send =>
      // A write nobody can read any more kills the writer.
      if o != Success || (!s.pr && !s.cr) then Some(EndParent(s))
      else Some(Log(s.(bytes := s.bytes + 1, parent := CloseWrite), Sent))
    case CloseWrite => Some(s.(pw := false, parent := Wait))
    case Wait => if s.child == ChildGone then Some(EndParent(s)) else None
    case ParentGone => None
  }

  /** A read takes a byte if there is one, reports end of file if nobody holds the
      write end, and otherwise blocks. */
  function ReadPipe(s: State, fails: bool): Option<State> {
    if s.child != Reading then None
    else if fails then Some(EndChild(s))
    else if s.bytes > 0 then Some(Log(s.(bytes := s.bytes - 1, child := Body(0), cr := false), Passed))
    else if !s.pw && !s.cw then Some(EndChild(Log(s, SawEof)))
    else None
  }

  function StepChild(sc: Script, s: State, o: Outcome): Option<State> {
    match s.child
    case Body(k) =>
      if k >= |sc.body| then Some(EndChild(s))
      else if !Proceeds(sc.body[k], o) then Some(EndChild(s))
      else Some(Log(s.(child := Body(k + 1)), ChildDid(k, o)))
    case _ => None
  }

  /** The state after an action, or nothing when the action cannot happen. */
  function Next(sc: Script, s: State, a: Action): Option<State> {
    match a
    case ParentStep(o) => StepParent(sc, s, o)
    case ParentEnds => if s.parent == ParentGone then None else Some(EndParent(s))
    case ChildRead(fails) => ReadPipe(s, fails)
    case ChildStep(o) => StepChild(sc, s, o)
    case ChildEnds => if s.child == ChildGone then None else Some(EndChild(s))
  }

  function Run(sc: Script, s: State, actions: seq<Action>): Option<State>
    decreases |actions|
  {
    if actions == [] then Some(s)
    else
      match Next(sc, s, actions[0])
      case None => None
      case Some(s') => Run(sc, s', actions[1..])
  }

  // ----- what the log says

  function ParentTrace(log: seq<Event>): seq<Event> {
    if log == [] then []
    else
      var e := log[|log| - 1];
      ParentTrace(log[..|log| - 1]) + if e.Did? || e.Sent? then [e] else []
  }

  function ChildTrace(log: seq<Event>): seq<Event> {
    if log == [] then []
    else
      var e := log[|log| - 1];
      ChildTrace(log[..|log| - 1]) + if e.Did? || e.Sent? then [] else [e]
  }

  /** `trace` is the first `n` steps of the set-up, in order, each with an outcome
      its kind accepts. */
  predicate SetupDone(sc: Script, trace: seq<Event>, n: nat) {
    |trace| == n <= |sc.setup| &&
    forall k | 0 <= k < n :: trace[k].Did? && trace[k].k == k && Proceeds(sc.setup[k], trace[k].o)
  }

  /** The whole set-up, in order, and then the release. */
  predicate Released(sc: Script, trace: seq<Event>) {
    |trace| == |sc.setup| + 1 && trace[|sc.setup|] == Sent && SetupDone(sc, trace[..|sc.setup|], |sc.setup|)
  }

  /** The child passed the barrier and has since done the first `n` steps in order. */
  predicate BodyDone(sc: Script, trace: seq<Event>, n: nat) {
    |trace| == n + 1 <= |sc.body| + 1 && trace[0] == Passed &&
    forall j | 1 <= j <= n :: trace[j].ChildDid? && trace[j].k == j - 1 && Proceeds(sc.body[j - 1], trace[j].o)
  }

  /** What must have happened before event `i`: whatever the child does comes after
      a complete set-up and its release, and after the child's own earlier steps. */
  predicate EventOk(sc: Script, log: seq<Event>, i: nat)
    requires i < |log|
  {
    match log[i]
    case Did(_, _) => true
    case Sent => true
    case Passed => Released(sc, ParentTrace(log[..i])) && ChildTrace(log[..i]) == []
    case SawEof => false
    case ChildDid(k, _) => Released(sc, ParentTrace(log[..i])) && BodyDone(sc, ChildTrace(log[..i]), k)
  }

  predicate LogOk(sc: Script, log: seq<Event>) {
    forall i | 0 <= i < |log| :: EventOk(sc, log, i)
  }

  /** Where the parent is agrees with what it has done so far. */
  predicate ParentOk(sc: Script, pc: ParentPc, trace: seq<Event>) {
    var sent := |trace| == |sc.setup| + 1;
    && (if sent then Released(sc, trace) else SetupDone(sc, trace, |trace|))
    && match pc
       case CloseRead => trace == []
       case Setup(k) => !sent && |trace| == k
       case Send => |trace| == |sc.setup|
       case CloseWrite => sent
       case Wait => sent
       case ParentGone => true
  }

  /** Where the child is agrees with what it has done, and it got there through a
      released barrier. */
  predicate ChildOk(sc: Script, pc: ChildPc, trace: seq<Event>, released: bool) {
    match pc
    case Reading => trace == []
    case Body(k) => released && BodyDone(sc, trace, k)
    case ChildGone => true
  }

  /** The invariant of every interleaving. */
  predicate Inv(sc: Script, s: State) {
    var released := |ParentTrace(s.log)| == |sc.setup| + 1;
    && LogOk(sc, s.log)
    && ParentOk(sc, s.parent, ParentTrace(s.log))
    && ChildOk(sc, s.child, ChildTrace(s.log), released)
    && (s.child != ChildGone ==> s.cw)
    && (s.child == Reading <==> s.cr)
    && (s.parent != CloseRead ==> !s.pr)
    && (s.child == Reading ==> (s.bytes > 0 <==> released))
    && (s.bytes > 0 ==> released)
  }

  lemma TraceSnoc(log: seq<Event>, e: Event)
    ensures ParentTrace(log + [e]) == ParentTrace(log) + if e.Did? || e.Sent? then [e] else []
    ensures ChildTrace(log + [e]) == ChildTrace(log) + if e.Did? || e.Sent? then [] else [e]
  {
    assert (log + [e])[..|log|] == log;
  }

  /** Extending a good log by an event that is justified by what precedes it. */
  lemma LogSnoc(sc: Script, log: seq<Event>, e: Event)
    requires LogOk(sc, log)
    requires match e
             case Did(_, _) => true
             case Sent => true
             case Passed => Released(sc, ParentTrace(log)) && ChildTrace(log) == []
             case SawEof => false
             case ChildDid(k, _) => Released(sc, ParentTrace(log)) && BodyDone(sc, ChildTrace(log), k)
    ensures LogOk(sc, log + [e])
  {
    hide Released, BodyDone, ParentTrace, ChildTrace;
    assert (log + [e])[..|log|] == log;
    forall i | 0 <= i < |log|
      ensures EventOk(sc, log + [e], i)
    {
      assert EventOk(sc, log, i);
      assert (log + [e])[..i] == log[..i];
    }
  }

  lemma DidKeeps(sc: Script, trace: seq<Event>, k: nat, o: Outcome)
    requires ParentOk(sc, Setup(k), trace) && k < |sc.setup| && Proceeds(sc.setup[k], o)
    ensures ParentOk(sc, Setup(k + 1), trace + [Did(k, o)])
  {
  }

  lemma SentKeeps(sc: Script, trace: seq<Event>)
    requires ParentOk(sc, Send, trace)
    ensures ParentOk(sc, CloseWrite, trace + [Sent])
  {
    assert (trace + [Sent])[..|trace|] == trace;
  }

  lemma ParentKeepsInv(sc: Script, s: State, o: Outcome)
    requires Inv(sc, s) && StepParent(sc, s, o).Some?
    ensures Inv(sc, StepParent(sc, s, o).value)
  {
    hide LogOk, ParentTrace, ChildTrace, BodyDone;
    var trace := ParentTrace(s.log);
    match s.parent
    case Setup(k) =>
      if k < |sc.setup| && Proceeds(sc.setup[k], o) {
        TraceSnoc(s.log, Did(k, o));
        LogSnoc(sc, s.log, Did(k, o));
        DidKeeps(sc, trace, k, o);
      }
    case Send =>
      TraceSnoc(s.log, Sent);
      LogSnoc(sc, s.log, Sent);
      SentKeeps(sc, trace);
    case _ =>
  }

  lemma ReadKeepsInv(sc: Script, s: State, fails: bool)
    requires Inv(sc, s) && ReadPipe(s, fails).Some?
    ensures Inv(sc, ReadPipe(s, fails).value)
  {
    hide LogOk, ParentTrace, ChildTrace, Released, SetupDone;
    if !fails && s.bytes > 0 {
      TraceSnoc(s.log, Passed);
      assert ParentTrace(s.log) + [] == ParentTrace(s.log);
      LogSnoc(sc, s.log, Passed);
    }
  }

  lemma ChildDidKeeps(sc: Script, trace: seq<Event>, k: nat, o: Outcome)
    requires BodyDone(sc, trace, k) && k < |sc.body| && Proceeds(sc.body[k], o)
    ensures BodyDone(sc, trace + [ChildDid(k, o)], k + 1)
  {
    var after := trace + [ChildDid(k, o)];
    assert forall j | 0 <= j <= k :: after[j] == trace[j];
    assert after[k + 1] == ChildDid(k, o);
  }

  lemma ChildKeepsInv(sc: Script, s: State, o: Outcome)
    requires Inv(sc, s) && StepChild(sc, s, o).Some?
    ensures Inv(sc, StepChild(sc, s, o).value)
  {
    hide LogOk, ParentTrace, ChildTrace, Released, SetupDone, BodyDone;
    var k := s.child.k;
    if k < |sc.body| && Proceeds(sc.body[k], o) {
      TraceSnoc(s.log, ChildDid(k, o));
      assert ParentTrace(s.log) + [] == ParentTrace(s.log);
      LogSnoc(sc, s.log, ChildDid(k, o));
      ChildDidKeeps(sc, ChildTrace(s.log), k, o);
    }
  }

  lemma NextKeepsInv(sc: Script, s: State, a: Action)
    requires Inv(sc, s) && Next(sc, s, a).Some?
    ensures Inv(sc, Next(sc, s, a).value)
  {
    hide LogOk, ParentTrace, ChildTrace, Released, SetupDone, BodyDone, StepParent, ReadPipe, StepChild;
    match a
    case ParentStep(o) => ParentKeepsInv(sc, s, o);
    case ChildRead(fails) => ReadKeepsInv(sc, s, fails);
    case ChildStep(o) => ChildKeepsInv(sc, s, o);
    case _ =>
  }

  lemma {:induction false} RunKeepsInv(sc: Script, s: State, actions: seq<Action>)
    requires Inv(sc, s) && Run(sc, s, actions).Some?
    ensures Inv(sc, Run(sc, s, actions).value)
    decreases |actions|
  {
    if actions == [] {
    } else {
      NextKeepsInv(sc, s, actions[0]);
      RunKeepsInv(sc, Next(sc, s, actions[0]).value, actions[1..]);
    }
  }

  /** Barrier safety, for every script, interleaving and failure: each thing the
      child does after waiting comes after the complete set-up, in order, and the
      release. The child never sees end of file: its own copy of the write end
      keeps the pipe open while it waits. */
  lemma BarrierIsSafe(sc: Script, actions: seq<Action>)
    requires Run(sc, Start(), actions).Some?
    ensures var log := Run(sc, Start(), actions).value.log;
            && (forall i | 0 <= i < |log| :: EventOk(sc, log, i))
            && SawEof !in log
  {
    RunKeepsInv(sc, Start(), actions);
    var log := Run(sc, Start(), actions).value.log;
    forall i | 0 <= i < |log|
      ensures EventOk(sc, log, i) && log[i] != SawEof
    {
    }
  }

  /** Part 12: the child passes only after uid_map was written, then setgroups was
      denied or absent, then gid_map was written. */
  lemma UsernsBarrier(actions: seq<Action>, i: nat)
    requires Run(USERNS, Start(), actions).Some?
    requires i < |Run(USERNS, Start(), actions).value.log|
    requires Run(USERNS, Start(), actions).value.log[i] == Passed
    ensures var before := ParentTrace(Run(USERNS, Start(), actions).value.log[..i]);
            before in {[Did(0, Success), Did(1, Success), Did(2, Success), Sent],
                       [Did(0, Success), Did(1, Tolerated), Did(2, Success), Sent]}
  {
    BarrierIsSafe(USERNS, actions);
    var log := Run(USERNS, Start(), actions).value.log;
    assert EventOk(USERNS, log, i);
    var before := ParentTrace(log[..i]);
    var setup := before[..3];
    assert forall k | 0 <= k < 3 :: setup[k] == before[k];
    assert before == [before[0], before[1], before[2], before[3]];
  }

  /** Part 07: exec, the child's last step, comes only after the cgroup step
      returned and after every earlier step of the child, in order. */
  lemma ContainerBarrier(actions: seq<Action>, i: nat)
    requires Run(CONTAINER, Start(), actions).Some?
    requires i < |Run(CONTAINER, Start(), actions).value.log|
    requires Run(CONTAINER, Start(), actions).value.log[i].ChildDid?
    requires Run(CONTAINER, Start(), actions).value.log[i].k == 6
    ensures var log := Run(CONTAINER, Start(), actions).value.log;
            && |ParentTrace(log[..i])| == 2 && ParentTrace(log[..i])[0].Did? && ParentTrace(log[..i])[1] == Sent
            && BodyDone(CONTAINER, ChildTrace(log[..i]), 6)
  {
    BarrierIsSafe(CONTAINER, actions);
    var log := Run(CONTAINER, Start(), actions).value.log;
    assert EventOk(CONTAINER, log, i);
    var before := ParentTrace(log[..i]);
    assert before[..1][0] == before[0];
  }

  // ----- when a waiting child can still get through

  /** A parent that ended before the release has left the child waiting for good. */
  predicate Orphaned(sc: Script, s: State) {
    s.parent == ParentGone && |ParentTrace(s.log)| <= |sc.setup| && s.child == Reading
  }

  /** An orphaned child cannot pass and is not told so: its read blocks, and only a
      read error or an outside signal ends it. */
  lemma OrphanBlocks(sc: Script, s: State, a: Action)
    requires Inv(sc, s) && Orphaned(sc, s)
    ensures Next(sc, s, a).Some? <==> a == ChildRead(true) || a == ChildEnds
    ensures Next(sc, s, a).Some? ==> Next(sc, s, a).value == EndChild(s)
  {
  }

  /** Once the parent is gone without releasing, no continuation lets the child do anything. */
  lemma {:induction false} OrphanNeverPasses(sc: Script, s: State, actions: seq<Action>)
    requires Inv(sc, s) && Run(sc, s, actions).Some?
    requires s.parent == ParentGone && |ParentTrace(s.log)| <= |sc.setup|
    ensures Run(sc, s, actions).value.log == s.log
    decreases |actions|
  {
    hide LogOk, ParentTrace, ChildTrace, Released, SetupDone, BodyDone;
    if actions == [] {
    } else {
      var s' := Next(sc, s, actions[0]).value;
      NextKeepsInv(sc, s, actions[0]);
      assert s'.log == s.log;
      OrphanNeverPasses(sc, s', actions[1..]);
    }
  }

  /** Some continuation of `s` lets the child through. */
  ghost predicate CanPass(sc: Script, s: State) {
    exists actions :: Run(sc, s, actions).Some? && Passed in Run(sc, s, actions).value.log
  }

  lemma CanPassAfter(sc: Script, s: State, a: Action)
    requires Next(sc, s, a).Some? && CanPass(sc, Next(sc, s, a).value)
    ensures CanPass(sc, s)
  {
    var rest :| Run(sc, Next(sc, s, a).value, rest).Some? && Passed in Run(sc, Next(sc, s, a).value, rest).value.log;
    var actions := [a] + rest;
    assert actions[1..] == rest;
    assert Run(sc, s, actions) == Run(sc, Next(sc, s, a).value, rest);
  }

  lemma PassesNow(sc: Script, s: State)
    requires s.child == Reading && s.bytes > 0
    ensures CanPass(sc, s)
  {
    var actions := [ChildRead(false)];
    var s' := Next(sc, s, actions[0]).value;
    assert actions[1..] == [];
    assert Run(sc, s, actions) == Some(s');
    assert s'.log[|s.log|] == Passed;
  }

  /** How many steps a living parent is from the release. */
  function StepsToRelease(sc: Script, pc: ParentPc): nat {
    match pc
    case CloseRead => |sc.setup| + 3
    case Setup(k) => if k <= |sc.setup| then |sc.setup| - k + 2 else 2
    case Send => 1
    case _ => 0
  }

  /** A parent that is still there can finish the set-up and release the child. */
  lemma {:induction false} LivingParentReleases(sc: Script, s: State)
    requires Inv(sc, s) && s.child == Reading && s.parent != ParentGone
    ensures CanPass(sc, s)
    decreases StepsToRelease(sc, s.parent)
  {
    if s.bytes > 0 {
      PassesNow(sc, s);
    } else {
      var a := ParentStep(Success);
      NextKeepsInv(sc, s, a);
      hide LogOk, ParentTrace, ChildTrace, Released, SetupDone, BodyDone, CanPass;
      LivingParentReleases(sc, Next(sc, s, a).value);
      CanPassAfter(sc, s, a);
    }
  }

  lemma {:induction false} PassedIsTraced(log: seq<Event>, i: nat)
    requires i < |log| && log[i] == Passed
    ensures ChildTrace(log) != []
  {
    if i == |log| - 1 {
    } else {
      PassedIsTraced(log[..|log| - 1], i);
    }
  }

  lemma OrphanCannotPass(sc: Script, s: State)
    requires Inv(sc, s) && Orphaned(sc, s)
    ensures !CanPass(sc, s)
  {
    forall actions | Run(sc, s, actions).Some?
      ensures Passed !in Run(sc, s, actions).value.log
    {
      OrphanNeverPasses(sc, s, actions);
      if Passed in s.log {
        var i :| 0 <= i < |s.log| && s.log[i] == Passed;
        PassedIsTraced(s.log, i);
      }
    }
  }

  /** The exact condition, from every state any run can reach: a waiting child can
      still get through if and only if its parent is still there or has released it. */
  lemma WaitingChildCanPass(sc: Script, actions: seq<Action>)
    requires Run(sc, Start(), actions).Some? && Run(sc, Start(), actions).value.child == Reading
    ensures var s := Run(sc, Start(), actions).value;
            CanPass(sc, s) <==> !(s.parent == ParentGone && |ParentTrace(s.log)| <= |sc.setup|)
  {
    RunKeepsInv(sc, Start(), actions);
    var s := Run(sc, Start(), actions).value;
    if Orphaned(sc, s) {
      OrphanCannotPass(sc, s);
    } else if s.parent == ParentGone {
      PassesNow(sc, s);
    } else {
      LivingParentReleases(sc, s);
    }
  }

  /** The failure at an input: the parent is killed right after clone. The child waits
      for good, and is never told. */
  lemma KilledParentOrphansChild(sc: Script)
    ensures var s := Run(sc, Start(), [ParentEnds]);
            s.Some? && Orphaned(sc, s.value) && !CanPass(sc, s.value)
  {
    var s := EndParent(Start());
    assert [ParentEnds][1..] == [];
    assert Run(sc, Start(), [ParentEnds]) == Some(s);
    RunKeepsInv(sc, Start(), [ParentEnds]);
    OrphanCannotPass(sc, s);
  }

  // ----- progress and the meaning of outcomes

  /** What a step does with the outcome of its own action, said without `Proceeds`: a
      process ends exactly when the outcome is one the step does not accept, and
      otherwise records the step and goes on to the next. */
  lemma StepOutcomes(sc: Script, s: State, k: nat, o: Outcome)
    ensures s.parent == Setup(k) && k < |sc.setup| ==>
              StepParent(sc, s, o) ==
              if o == Success || sc.setup[k] == BestEffort || (sc.setup[k] == Tolerant && o == Tolerated)
              then Some(Log(s.(parent := Setup(k + 1)), Did(k, o)))
              else Some(s.(parent := ParentGone, pr := false, pw := false))
    ensures s.child == Body(k) && k < |sc.body| ==>
              StepChild(sc, s, o) ==
              if o == Success || sc.body[k] == BestEffort || (sc.body[k] == Tolerant && o == Tolerated)
              then Some(Log(s.(child := Body(k + 1)), ChildDid(k, o)))
              else Some(s.(child := ChildGone, cr := false, cw := false))
  {
  }

  /** The two scripts, step by step. Part 12 gives up on any failure but a missing
      setgroups file; part 07 never gives up on the cgroup step, and its child gives up
      on any failure but an existing /proc directory. */
  lemma ScriptOutcomes(s: State, k: nat, o: Outcome)
    ensures s.parent == Setup(k) && k < 3 ==>
              (StepParent(USERNS, s, o).value.parent == Setup(k + 1) <==> o == Success || (k == 1 && o == Tolerated))
    ensures s.parent == Setup(0) ==> StepParent(CONTAINER, s, o).value.parent == Setup(1)
    ensures s.child == Body(k) && k < 7 ==>
              (StepChild(CONTAINER, s, o).value.child == Body(k + 1) <==> o == Success || (k == 4 && o == Tolerated))
    ensures |USERNS.setup| == 3 && |CONTAINER.setup| == 1 && |CONTAINER.body| == 7
  {
  }

  /** The release succeeds exactly when the write does and the child is there to read. */
  lemma SendOutcome(sc: Script, s: State, o: Outcome)
    requires Inv(sc, s) && s.parent == Send
    ensures StepParent(sc, s, o) ==
            if o == Success && s.child == Reading then
              Some(Log(s.(bytes := s.bytes + 1, parent := CloseWrite), Sent))
            else Some(s.(parent := ParentGone, pr := false, pw := false))
  {
  }

  /** Reading the pipe, in any state: a byte if there is one, end of file if there is
      none and nobody holds the write end, otherwise waiting. */
  lemma ReadOutcome(s: State)
    requires s.child == Reading
    ensures ReadPipe(s, false).None? <==> s.bytes == 0 && (s.pw || s.cw)
    ensures s.bytes > 0 <==> ReadPipe(s, false).Some? && ReadPipe(s, false).value.log == s.log + [Passed]
    ensures s.bytes == 0 && !s.pw && !s.cw <==>
              ReadPipe(s, false).Some? && ReadPipe(s, false).value.log == s.log + [SawEof]
  {
    assert (s.log + [Passed])[|s.log|] != (s.log + [SawEof])[|s.log|];
  }

  /** The inherited write end is the cause: a child that had closed its copy would be
      told that its parent is gone. */
  lemma WithoutItsCopyTheChildIsTold(sc: Script)
    ensures var s := Run(sc, Start().(cw := false), [ParentEnds, ChildRead(false)]);
            s.Some? && s.value.log == [SawEof] && s.value.child == ChildGone
  {
    var s0 := Start().(cw := false);
    var s1 := EndParent(s0);
    var actions := [ParentEnds, ChildRead(false)];
    assert actions[1..] == [ChildRead(false)] && [ChildRead(false)][1..] == [];
    assert Run(sc, s0, actions) == Run(sc, s1, [ChildRead(false)]);
    var s2 := EndChild(Log(s1, SawEof));
    assert Run(sc, s1, [ChildRead(false)]) == Run(sc, s2, []);
  }

  /** The log holds the child's last step. */
  predicate Finished(sc: Script, log: seq<Event>) {
    exists i | 0 <= i < |log| :: log[i].ChildDid? && log[i].k == |sc.body| - 1
  }

  /** Some continuation of `s` takes the child through its last step. */
  ghost predicate CanFinish(sc: Script, s: State) {
    exists actions :: Run(sc, s, actions).Some? && Finished(sc, Run(sc, s, actions).value.log)
  }

  lemma CanFinishAfter(sc: Script, s: State, a: Action)
    requires Next(sc, s, a).Some? && CanFinish(sc, Next(sc, s, a).value)
    ensures CanFinish(sc, s)
  {
    var s' := Next(sc, s, a).value;
    var rest :| Run(sc, s', rest).Some? && Finished(sc, Run(sc, s', rest).value.log);
    var actions := [a] + rest;
    assert actions[1..] == rest;
    assert Run(sc, s, actions) == Run(sc, s', rest);
  }

  lemma {:induction false} BodyCanFinish(sc: Script, s: State)
    requires s.child.Body? && s.child.k < |sc.body|
    ensures CanFinish(sc, s)
    decreases |sc.body| - s.child.k
  {
    var k := s.child.k;
    var a := ChildStep(Success);
    var s' := Next(sc, s, a).value;
    assert s'.log[|s.log|] == ChildDid(k, Success);
    if k == |sc.body| - 1 {
      assert Run(sc, s', []) == Some(s') && Finished(sc, s'.log);
    } else {
      BodyCanFinish(sc, s');
    }
    hide CanFinish;
    CanFinishAfter(sc, s, a);
  }

  /** Progress: from every reachable state with the child past the barrier and not yet
      done, some continuation takes it through its last step; in part 07 that is exec. */
  lemma ReleasedChildCanFinish(sc: Script, actions: seq<Action>)
    requires Run(sc, Start(), actions).Some?
    requires var s := Run(sc, Start(), actions).value; s.child.Body? && s.child.k < |sc.body|
    ensures CanFinish(sc, Run(sc, Start(), actions).value)
  {
    BodyCanFinish(sc, Run(sc, Start(), actions).value);
  }

  lemma RunCons(sc: Script, s: State, a: Action, rest: seq<Action>)
    requires Next(sc, s, a).Some?
    ensures Run(sc, s, [a] + rest) == Run(sc, Next(sc, s, a).value, rest)
  {
    assert ([a] + rest)[1..] == rest;
  }

  /** The outcomes are ones that the steps from the first one on accept. */
  predicate Accepted(kinds: seq<Kind>, outs: seq<Outcome>) {
    |outs| == |kinds| &&
    forall i | 0 <= i < |outs| ::
      outs[i] == Success || kinds[i] == BestEffort || (kinds[i] == Tolerant && outs[i] == Tolerated)
  }

  function SetupSteps(outs: seq<Outcome>, rest: seq<Action>): seq<Action> {
    if outs == [] then rest else [ParentStep(outs[0])] + SetupSteps(outs[1..], rest)
  }

  function BodySteps(outs: seq<Outcome>): seq<Action> {
    if outs == [] then [] else [ChildStep(outs[0])] + BodySteps(outs[1..])
  }

  /** What the steps from number `k` on leave in the log. */
  function SetupLog(k: nat, outs: seq<Outcome>): seq<Event> {
    seq(|outs|, i requires 0 <= i < |outs| => Did(k + i, outs[i]))
  }

  function BodyLog(k: nat, outs: seq<Outcome>): seq<Event> {
    seq(|outs|, i requires 0 <= i < |outs| => ChildDid(k + i, outs[i]))
  }

  lemma {:induction false} SetupRuns(sc: Script, s: State, k: nat, outs: seq<Outcome>, rest: seq<Action>)
    requires s.parent == Setup(k) && k <= |sc.setup| && Accepted(sc.setup[k..], outs)
    ensures Run(sc, s, SetupSteps(outs, rest)) ==
            Run(sc, s.(parent := Setup(|sc.setup|), log := s.log + SetupLog(k, outs)), rest)
    decreases |outs|
  {
    if outs == [] {
      assert s.log + SetupLog(k, outs) == s.log;
    } else {
      var s' := Log(s.(parent := Setup(k + 1)), Did(k, outs[0]));
      assert sc.setup[k] == sc.setup[k..][0];
      assert Next(sc, s, ParentStep(outs[0])) == Some(s');
      assert sc.setup[k..][1..] == sc.setup[k + 1..];
      assert SetupLog(k, outs) == [Did(k, outs[0])] + SetupLog(k + 1, outs[1..]);
      hide Next, Run, Start;
      SetupRuns(sc, s', k + 1, outs[1..], rest);
      RunCons(sc, s, ParentStep(outs[0]), SetupSteps(outs[1..], rest));
      assert s'.log + SetupLog(k + 1, outs[1..]) == s.log + SetupLog(k, outs);
    }
  }

  lemma {:induction false} BodyRuns(sc: Script, s: State, k: nat, outs: seq<Outcome>)
    requires s.child == Body(k) && k <= |sc.body| && Accepted(sc.body[k..], outs)
    ensures Run(sc, s, BodySteps(outs)) == Some(s.(child := Body(|sc.body|), log := s.log + BodyLog(k, outs)))
    decreases |outs|
  {
    if outs == [] {
      assert s.log + BodyLog(k, outs) == s.log;
    } else {
      var s' := Log(s.(child := Body(k + 1)), ChildDid(k, outs[0]));
      assert sc.body[k] == sc.body[k..][0];
      assert Next(sc, s, ChildStep(outs[0])) == Some(s');
      assert sc.body[k..][1..] == sc.body[k + 1..];
      assert BodyLog(k, outs) == [ChildDid(k, outs[0])] + BodyLog(k + 1, outs[1..]);
      hide Next, Run, Start;
      BodyRuns(sc, s', k + 1, outs[1..]);
      RunCons(sc, s, ChildStep(outs[0]), BodySteps(outs[1..]));
      assert s'.log + BodyLog(k + 1, outs[1..]) == s.log + BodyLog(k, outs);
    }
  }

  /** The parent's whole set-up with these outcomes, the release, the child's read and
      the child's whole script with those. */
  function WholeRun(setup: seq<Outcome>, body: seq<Outcome>): seq<Action> {
    [ParentStep(Success)] + SetupSteps(setup,
      [ParentStep(Success)] + ([ParentStep(Success)] + ([ChildRead(false)] + BodySteps(body))))
  }

  /** Whatever accepted outcomes the steps have, the whole of both scripts happens. */
  lemma AcceptedRunFinishes(sc: Script, setup: seq<Outcome>, body: seq<Outcome>)
    requires Accepted(sc.setup, setup) && Accepted(sc.body, body)
    ensures var s := Run(sc, Start(), WholeRun(setup, body));
            && s.Some? && s.value.child == Body(|sc.body|)
            && s.value.log == SetupLog(0, setup) + [Sent, Passed] + BodyLog(0, body)
  {
    var s0 := Start();
    var s1 := s0.(pr := false, parent := Setup(0));
    var s2 := s1.(parent := Setup(|sc.setup|), log := s1.log + SetupLog(0, setup));
    var s3 := s2.(parent := Send);
    var s4 := Log(s3.(bytes := 1, parent := CloseWrite), Sent);
    var s5 := Log(s4.(bytes := 0, child := Body(0), cr := false), Passed);
    assert Next(sc, s0, ParentStep(Success)) == Some(s1);
    assert Next(sc, s2, ParentStep(Success)) == Some(s3);
    assert Next(sc, s3, ParentStep(Success)) == Some(s4);
    assert Next(sc, s4, ChildRead(false)) == Some(s5);
    assert s1.log + SetupLog(0, setup) == SetupLog(0, setup);
    assert s5.log == SetupLog(0, setup) + [Sent, Passed];
    assert sc.setup[0..] == sc.setup && sc.body[0..] == sc.body;
    var r3 := [ChildRead(false)] + BodySteps(body);
    var r2 := [ParentStep(Success)] + r3;
    var r1 := [ParentStep(Success)] + r2;
    hide Next, Run, Accepted, SetupSteps, BodySteps, SetupLog, BodyLog;
    RunCons(sc, s0, ParentStep(Success), SetupSteps(setup, r1));
    SetupRuns(sc, s1, 0, setup, r1);
    RunCons(sc, s2, ParentStep(Success), r2);
    RunCons(sc, s3, ParentStep(Success), r3);
    RunCons(sc, s4, ChildRead(false), BodySteps(body));
    BodyRuns(sc, s5, 0, body);
  }

  /** Part 07 reaches exec whatever came of the cgroup step, also when /proc was there. */
  lemma ContainerRunsDespiteWarnings(o: Outcome)
    ensures var s := Run(CONTAINER, Start(),
                         WholeRun([o], [Success, Success, Success, Success, Tolerated, Success, Success]));
            s.Some? && s.value.log == [Did(0, o), Sent, Passed] +
                                      [ChildDid(0, Success), ChildDid(1, Success), ChildDid(2, Success),
                                       ChildDid(3, Success), ChildDid(4, Tolerated), ChildDid(5, Success),
                                       ChildDid(6, Success)]
  {
    hide Run, WholeRun;
    AcceptedRunFinishes(CONTAINER, [o], [Success, Success, Success, Success, Tolerated, Success, Success]);
  }

  /** Part 12 passes also on a kernel without the setgroups file. */
  lemma UsernsPassesWithoutSetgroups()
    ensures var s := Run(USERNS, Start(), WholeRun([Success, Tolerated, Success], []));
            s.Some? && s.value.log == [Did(0, Success), Did(1, Tolerated), Did(2, Success), Sent, Passed]
  {
    hide Run, WholeRun;
    AcceptedRunFinishes(USERNS, [Success, Tolerated, Success], []);
  }
}
