/** The runtime object: starting, closing and refusing work, with the answers of the owned resources
    as parameters. */
module ApplicationRuntime {
  import opened RuntimeLifecycle

  class Application {
    var phase: Phase
    var tasksDrained: bool
    var hasGraph: bool
    const ownsPool: bool
    var poolClosed: bool

    constructor (ownsPool: bool, poolClosed: bool)
      ensures State() == Runtime(CREATED, false, false, ownsPool, poolClosed, Idle, Idle)
    {
      phase, tasksDrained, hasGraph := CREATED, false, false;
      this.ownsPool, this.poolClosed := ownsPool, poolClosed;
    }

    /** The runtime while nobody is closing it. */
    function State(): Runtime
      reads this
    {
      Runtime(phase, tasksDrained, hasGraph, ownsPool, poolClosed, Idle, Idle)
    }

    /** `require_open`: work is accepted exactly while the runtime is running, and then finds a graph. */
    method RequireOpen() returns (accepted: bool)
      requires Ok(State())
      ensures accepted <==> phase == RUNNING
      ensures accepted ==> hasGraph && !Released(State())
    {
      accepted := phase == RUNNING;
    }

    /** Initialisation succeeds or fails as `works` says; a failed start closes what it owns. */
    method Start(works: bool, answers: Answers) returns (running: bool)
      requires Ok(State())
      modifies this
      ensures Ok(State())
      ensures running <==> phase == RUNNING
      ensures State() == if old(phase) == CREATED then
                           if works then old(State()).(phase := RUNNING, hasGraph := true)
                           else CloseAll(old(State()).(phase := STARTING), answers)
                         else old(State())
    {
      if phase == RUNNING { return true; }
      if phase == CLOSING || phase == CLOSED { return false; }
      phase := STARTING;
      if works {
        hasGraph := true;
        phase := RUNNING;
        return true;
      }
      var done := CloseUnlocked(answers);
      return false;
    }

    method Close(answers: Answers) returns (done: bool)
      requires Ok(State())
      modifies this
      ensures Ok(State()) && NoReopening(old(State()), State())
      ensures State() == CloseAll(old(State()), answers)
      ensures done <==> phase == CLOSED
      ensures !done ==> phase == CLOSING
    {
      CloseAllKeeps(State(), answers);
      done := CloseUnlocked(answers);
    }

    /** `_close_unlocked`: tasks, then graph, then pool; a timeout leaves the rest for a later close. */
    method CloseUnlocked(answers: Answers) returns (done: bool)
      modifies this
      ensures State() == CloseAll(old(State()), answers)
      ensures done <==> phase == CLOSED
    {
      if phase == CLOSED { return true; }
      phase := CLOSING;
      if !answers.tasks && !tasksDrained { return false; }
      tasksDrained := true;
      if hasGraph {
        if !answers.graph { return false; }
        hasGraph := false;
      }
      if ownsPool && !poolClosed {
        if !answers.pool { return false; }
        poolClosed := true;
      }
      phase := CLOSED;
      return true;
    }
  }
}
