/** The lifecycle of an application runtime. Code between two awaits runs undisturbed, so a close is
    four steps, each ending where it waits for a resource. A close runs under the close lock; the
    cleanup of a failed start runs the same code under the start lock, so the two may overlap. */
module RuntimeLifecycle {

  datatype Phase = CREATED | STARTING | RUNNING | CLOSING | CLOSED

  function Rank(p: Phase): nat {
    match p case CREATED => 0 case STARTING => 1 case RUNNING => 2 case CLOSING => 3 case CLOSED => 4
  }

  /** Where a close waits. */
  datatype Wait = Idle | OnTasks | OnGraph | OnPool

  /** Who runs the closing code: the holder of the close lock, or a failed start. */
  datatype Actor = Closer | Cleanup

  datatype Runtime = Runtime(
    phase: Phase, tasksDrained: bool, hasGraph: bool, ownsPool: bool, poolClosed: bool, closer: Wait, cleanup: Wait)

  datatype Step =
    | Start(ok: bool)
    | BeginClose
    | TasksAnswer(who: Actor, ok: bool)
    | GraphAnswer(who: Actor, ok: bool)
    | PoolAnswer(who: Actor, ok: bool)
    | Abandon(who: Actor)

  function At(r: Runtime, a: Actor): Wait { if a == Closer then r.closer else r.cleanup }

  function Moved(r: Runtime, a: Actor, w: Wait): Runtime {
    if a == Closer then r.(closer := w) else r.(cleanup := w)
  }

  /** A lock is held by one at a time. A registry without tasks that takes no more cannot time out; a
      pool or graph answer may be late, when another has closed it meanwhile. */
  predicate Enabled(r: Runtime, s: Step) {
    match s
    case Start(_) => r.cleanup == Idle
    case BeginClose => r.closer == Idle
    case TasksAnswer(a, ok) => At(r, a) == OnTasks && (r.tasksDrained ==> ok)
    case GraphAnswer(a, _) => At(r, a) == OnGraph
    case PoolAnswer(a, _) => At(r, a) == OnPool
    case Abandon(a) => At(r, a) != Idle
  }

  /** The beginning of the closing code, up to the first await. */
  function Begun(r: Runtime, a: Actor): Runtime {
    if r.phase == CLOSED then r else Moved(r.(phase := CLOSING), a, OnTasks)
  }

  /** From behind the graph to the next await or to the end. */
  function PastGraph(r: Runtime, a: Actor): Runtime {
    if r.ownsPool && !r.poolClosed then Moved(r, a, OnPool) else Moved(r.(phase := CLOSED), a, Idle)
  }

  function TimedOut(r: Runtime, a: Actor): Runtime { Moved(r.(phase := CLOSING), a, Idle) }

  function Next(r: Runtime, s: Step): Runtime {
    match s
    case Start(ok) =>
      if r.phase == RUNNING || r.phase == CLOSING || r.phase == CLOSED then r
      else if ok then r.(phase := RUNNING, hasGraph := true)
      else Begun(r.(phase := STARTING), Cleanup)
    case BeginClose => Begun(r, Closer)
    case TasksAnswer(a, ok) =>
      if !ok then TimedOut(r, a)
      else
        var d := r.(tasksDrained := true);
        if d.hasGraph then Moved(d, a, OnGraph) else PastGraph(d, a)
    case GraphAnswer(a, ok) => if !ok then TimedOut(r, a) else PastGraph(r.(hasGraph := false), a)
    case PoolAnswer(a, ok) => if !ok then TimedOut(r, a) else Moved(r.(poolClosed := true, phase := CLOSED), a, Idle)
    case Abandon(a) => Moved(r, a, Idle)
  }

  // ---------- what every interleaving keeps ----------

  predicate Released(r: Runtime) { r.tasksDrained && !r.hasGraph && (r.ownsPool ==> r.poolClosed) }

  predicate WaitOk(r: Runtime, a: Actor) {
    match At(r, a)
    case Idle => true
    case OnTasks => true
    case OnGraph => r.tasksDrained
    case OnPool => r.tasksDrained && !r.hasGraph
  }

  /** Closed means closed: every owned resource is released. */
  predicate Ok(r: Runtime) {
    && (r.phase == CLOSED ==> Released(r))
    && WaitOk(r, Closer) && WaitOk(r, Cleanup)
    && (Rank(r.phase) < 3 ==> r.closer == Idle && r.cleanup == Idle)
    && (r.hasGraph ==> r.phase == RUNNING || r.phase == CLOSING)
    && (r.phase == RUNNING ==> r.hasGraph)
    && r.phase != STARTING
  }

  /** Nothing released comes back, and behind the start no graph appears. */
  predicate NoReopening(r: Runtime, s: Runtime) {
    && (r.tasksDrained ==> s.tasksDrained) && (r.poolClosed ==> s.poolClosed) && r.ownsPool == s.ownsPool
    && (Rank(r.phase) >= 3 && s.hasGraph ==> r.hasGraph)
    && (Rank(r.phase) >= 3 ==> Rank(s.phase) >= 3)
  }

  /** A failing answer that comes in when the runtime is closed already. */
  predicate LateFailure(r: Runtime, s: Step) {
    r.phase == CLOSED && (s.TasksAnswer? || s.GraphAnswer? || s.PoolAnswer?) && !s.ok
  }

  /** MAIN: in every interleaving closed means released, nothing reopens, and the phase goes backward
      exactly on a failing answer after the runtime has been closed. */
  lemma StepKeepsOk(r: Runtime, s: Step)
    requires Ok(r) && Enabled(r, s)
    ensures Ok(Next(r, s)) && NoReopening(r, Next(r, s))
    ensures Rank(Next(r, s).phase) < Rank(r.phase) <==> LateFailure(r, s)
  {
    match s {
      case Start(ok) =>
      case BeginClose =>
      case TasksAnswer(a, ok) => TasksAnswerKeepsOk(r, a, ok);
      case GraphAnswer(a, ok) => GraphAnswerKeepsOk(r, a, ok);
      case PoolAnswer(a, ok) =>
      case Abandon(a) =>
    }
  }

  lemma TasksAnswerKeepsOk(r: Runtime, a: Actor, ok: bool)
    requires Ok(r) && Enabled(r, TasksAnswer(a, ok))
    ensures var s := TasksAnswer(a, ok);
            Ok(Next(r, s)) && NoReopening(r, Next(r, s)) && (Rank(Next(r, s).phase) < Rank(r.phase) <==> LateFailure(r, s))
  {
    if a == Closer {} else {}
  }

  lemma GraphAnswerKeepsOk(r: Runtime, a: Actor, ok: bool)
    requires Ok(r) && Enabled(r, GraphAnswer(a, ok))
    ensures var s := GraphAnswer(a, ok);
            Ok(Next(r, s)) && NoReopening(r, Next(r, s)) && (Rank(Next(r, s).phase) < Rank(r.phase) <==> LateFailure(r, s))
  {
    if a == Closer {} else {}
  }

  predicate CanRun(r: Runtime, steps: seq<Step>)
    decreases |steps|
  {
    steps == [] || (Enabled(r, steps[0]) && CanRun(Next(r, steps[0]), steps[1..]))
  }

  function After(r: Runtime, steps: seq<Step>): Runtime
    decreases |steps|
  {
    if steps == [] then r else After(Next(r, steps[0]), steps[1..])
  }

  /** MAIN: so over whole runs, whatever overlaps. */
  lemma {:induction false} RunsKeepOk(r: Runtime, steps: seq<Step>)
    requires Ok(r) && CanRun(r, steps)
    ensures Ok(After(r, steps)) && NoReopening(r, After(r, steps))
    decreases |steps|
  {
    hide Ok, Next, Enabled;
    if steps != [] {
      StepKeepsOk(r, steps[0]);
      RunsKeepOk(Next(r, steps[0]), steps[1..]);
    }
  }

  // ---------- without overlap ----------

  /** No close begins while the cleanup of a failed start is under way. */
  predicate NoOverlap(r: Runtime, steps: seq<Step>)
    decreases |steps|
  {
    steps == [] || ((steps[0].BeginClose? ==> r.cleanup == Idle) && NoOverlap(Next(r, steps[0]), steps[1..]))
  }

  /** One at most is closing, and none once the runtime is closed. */
  predicate Alone(r: Runtime) {
    (r.closer == Idle || r.cleanup == Idle) && (r.phase == CLOSED ==> r.closer == Idle && r.cleanup == Idle)
  }

  /** MAIN: then the phase never moves backward, and closed is for ever. */
  lemma {:induction false} PhaseIsMonotone(r: Runtime, steps: seq<Step>)
    requires Ok(r) && Alone(r) && CanRun(r, steps) && NoOverlap(r, steps)
    ensures Rank(r.phase) <= Rank(After(r, steps).phase) && Alone(After(r, steps))
    ensures r.phase == CLOSED ==> After(r, steps) == r
    decreases |steps|
  {
    if steps != [] {
      StepKeepsOk(r, steps[0]);
      AloneStays(r, steps[0]);
      PhaseIsMonotone(Next(r, steps[0]), steps[1..]);
    }
  }

  lemma AloneStays(r: Runtime, s: Step)
    requires Ok(r) && Alone(r) && Enabled(r, s) && (s.BeginClose? ==> r.cleanup == Idle)
    ensures Alone(Next(r, s)) && !LateFailure(r, s)
    ensures r.phase == CLOSED ==> Next(r, s) == r
  {
    match s {
      case Start(ok) =>
      case BeginClose =>
      case TasksAnswer(a, ok) =>
      case GraphAnswer(a, ok) =>
      case PoolAnswer(a, ok) =>
      case Abandon(a) =>
    }
  }

  const NEW_RUNTIME := Runtime(CREATED, false, false, true, false, Idle, Idle)

  /** With overlap it does: a start fails; its cleanup waits for the pool when a close begins, passes
      it and closes the runtime; then the cleanup's deadline expires, and the runtime is closing again. */
  lemma OverlapMovesBackward()
    ensures var steps := [Start(false), TasksAnswer(Cleanup, true), BeginClose, TasksAnswer(Closer, true), PoolAnswer(Closer, true)];
            && CanRun(NEW_RUNTIME, steps) && After(NEW_RUNTIME, steps).phase == CLOSED
            && LateFailure(After(NEW_RUNTIME, steps), PoolAnswer(Cleanup, false))
            && Enabled(After(NEW_RUNTIME, steps), PoolAnswer(Cleanup, false))
            && Next(After(NEW_RUNTIME, steps), PoolAnswer(Cleanup, false)).phase == CLOSING
  {
    var steps := [Start(false), TasksAnswer(Cleanup, true), BeginClose, TasksAnswer(Closer, true), PoolAnswer(Closer, true)];
    Unfold(NEW_RUNTIME, steps);
    Unfold(Next(NEW_RUNTIME, steps[0]), steps[1..]);
    Unfold(Next(Next(NEW_RUNTIME, steps[0]), steps[1]), steps[2..]);
  }

  lemma Unfold(r: Runtime, steps: seq<Step>)
    requires steps != []
    ensures After(r, steps) == After(Next(r, steps[0]), steps[1..])
    ensures CanRun(r, steps) == (Enabled(r, steps[0]) && CanRun(Next(r, steps[0]), steps[1..]))
  {
  }

  // ---------- repeated closes ----------

  /** The answers a close gets, from the tasks, the graph and the pool, as far as it asks. */
  datatype Answers = Answers(tasks: bool, graph: bool, pool: bool)

  /** One close from beginning to end, undisturbed: `_close_unlocked`. */
  function CloseAll(r: Runtime, a: Answers): Runtime {
    if r.phase == CLOSED then r
    else
      var tasks := a.tasks || r.tasksDrained;
      if !tasks then r.(phase := CLOSING)
      else if r.hasGraph && !a.graph then r.(phase := CLOSING, tasksDrained := true)
      else if r.ownsPool && !r.poolClosed && !a.pool then r.(phase := CLOSING, tasksDrained := true, hasGraph := false)
      else r.(phase := CLOSED, tasksDrained := true, hasGraph := false, poolClosed := r.poolClosed || r.ownsPool)
  }

  function Unreleased(r: Runtime): nat {
    (if r.tasksDrained then 0 else 1) + (if r.hasGraph then 1 else 0) + (if r.ownsPool && !r.poolClosed then 1 else 0)
  }

  /** The first resource that is still to be released answers in time. */
  predicate Proceeds(r: Runtime, a: Answers) {
    if !r.tasksDrained then a.tasks else if r.hasGraph then a.graph else if r.ownsPool && !r.poolClosed then a.pool else true
  }

  function CloseTimes(r: Runtime, all: seq<Answers>): Runtime {
    if all == [] then r else CloseAll(CloseTimes(r, all[..|all| - 1]), all[|all| - 1])
  }

  /** How many of the closes got one resource further. */
  function Useful(r: Runtime, all: seq<Answers>): nat {
    if all == [] then 0
    else Useful(r, all[..|all| - 1]) + if Proceeds(CloseTimes(r, all[..|all| - 1]), all[|all| - 1]) then 1 else 0
  }

  /** The undisturbed close takes the steps. */
  lemma CloseTakesSteps(r: Runtime, a: Answers) returns (steps: seq<Step>)
    requires Ok(r) && r.closer == Idle
    ensures CanRun(r, steps) && After(r, steps) == CloseAll(r, a)
  {
    steps := [];
    if r.phase != CLOSED {
      var one := Next(r, BeginClose);
      var t := TasksAnswer(Closer, a.tasks || r.tasksDrained);
      var two := Next(one, t);
      var more := [];
      if two.closer == OnGraph {
        var g := GraphAnswer(Closer, a.graph);
        var three := Next(two, g);
        more := [g];
        if three.closer == OnPool {
          var last := PoolAnswer(Closer, a.pool);
          more := [g, last];
          TwoSteps(two, g, last);
        } else {
          OneStep(two, g);
        }
      } else if two.closer == OnPool {
        more := [PoolAnswer(Closer, a.pool)];
        OneStep(two, more[0]);
      }
      steps := [BeginClose, t] + more;
      assert steps[1..] == [t] + more && steps[1..][1..] == more;
      Unfold(r, steps);
      Unfold(one, steps[1..]);
    }
  }

  lemma OneStep(r: Runtime, s: Step)
    ensures After(r, [s]) == Next(r, s) && CanRun(r, [s]) == Enabled(r, s)
  {
    assert [s][1..] == [];
  }

  lemma TwoSteps(r: Runtime, s: Step, t: Step)
    ensures After(r, [s, t]) == Next(Next(r, s), t) && CanRun(r, [s, t]) == (Enabled(r, s) && Enabled(Next(r, s), t))
  {
    assert [s, t][1..] == [t];
    OneStep(Next(r, s), t);
  }

  /** MAIN: a close that times out leaves the runtime closing and keeps what it released; and a
      runtime is closed after any closes of which as many got further as resources were left. */
  lemma {:induction false} RepeatedClosesFinish(r: Runtime, all: seq<Answers>)
    requires Ok(r)
    ensures var s := CloseTimes(r, all);
            && Ok(s) && NoReopening(r, s)
            && (all != [] ==> s.phase == CLOSED || (s.phase == CLOSING && Unreleased(s) > 0))
            && (s.phase == CLOSED || Unreleased(s) + Useful(r, all) <= Unreleased(r))
    ensures all != [] && Useful(r, all) >= Unreleased(r) ==> CloseTimes(r, all).phase == CLOSED
  {
    if all != [] {
      RepeatedClosesFinish(r, all[..|all| - 1]);
      CloseAllKeeps(CloseTimes(r, all[..|all| - 1]), all[|all| - 1]);
    }
  }

  lemma CloseAllKeeps(r: Runtime, a: Answers)
    requires Ok(r)
    ensures var s := CloseAll(r, a);
            && Ok(s) && NoReopening(r, s) && Unreleased(s) <= Unreleased(r)
            && (s.phase == CLOSED || (s.phase == CLOSING && Unreleased(s) > 0))
            && (Proceeds(r, a) ==> s.phase == CLOSED || Unreleased(s) < Unreleased(r))
  {
  }
}
