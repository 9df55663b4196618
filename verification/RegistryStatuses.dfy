/** What the statuses of runs and jobs mean: which changes are allowed, that finished attempts are final,
    when a run may complete and how it ends, and what exactly a start changes. */
module RegistryStatuses {
  import opened Options
  import opened Registry

  const JOB_MOVES := {(Pending, Running), (Pending, Cancelled), (Pending, Skipped),
                      (Running, Completed), (Running, Failed), (Running, Cancelled)}

  const RUN_MOVES := {(RunPending, RunActive), (RunPending, RunCancelled), (RunActive, RunCompleted), (RunActive, RunFailed),
                      (RunActive, RunCancelled), (RunActive, RunPartial), (RunCancelled, RunActive)}

  /** A job changes its status exactly along these moves, and nothing else changes. */
  lemma JobMoves(t: Tables, id: string, s: JobStatus)
    ensures var u := TransitionJob(t, id, s);
            && (u.Some? <==> id in t.jobs && (t.jobs[id].status == s || (t.jobs[id].status, s) in JOB_MOVES))
            && (u.Some? ==> u.value == t.(jobs := t.jobs[id := t.jobs[id].(status := s)]))
  {
  }

  /** Every task of the run whose latest attempt is mandatory is completed or skipped. */
  predicate TasksDone(t: Tables, run: string) {
    forall k :: k in t.jobs && t.jobs[k].run == run && t.jobs[k].mandatory && LatestOf(t, k) ==>
      t.jobs[k].status == Completed || t.jobs[k].status == Skipped
  }

  predicate LatestOf(t: Tables, k: string)
    requires k in t.jobs
  {
    forall l :: l in t.jobs && t.jobs[l].run == t.jobs[k].run && t.jobs[l].task == t.jobs[k].task ==>
      t.jobs[l].attempt <= t.jobs[k].attempt
  }

  /** An optional task whose latest attempt failed or was cancelled. */
  predicate OptionalLost(t: Tables, run: string) {
    exists k :: k in t.jobs && t.jobs[k].run == run && !t.jobs[k].mandatory && LatestOf(t, k)
      && (t.jobs[k].status == Failed || t.jobs[k].status == Cancelled)
  }

  lemma LatestIs(t: Tables, k: string)
    requires k in t.jobs
    ensures IsLatest(t, t.jobs[k].run, t.jobs[k].task, k) <==> LatestOf(t, k)
  {
  }

  lemma CompletingIs(t: Tables, run: string)
    ensures CanComplete(t, run) <==> TasksDone(t, run)
  {
    forall k | k in t.jobs ensures IsLatest(t, t.jobs[k].run, t.jobs[k].task, k) <==> LatestOf(t, k) { LatestIs(t, k); }
    hide IsLatest, LatestOf;
    if TasksDone(t, run) {
      forall k | k in t.jobs && t.jobs[k].run == run && IsLatest(t, run, t.jobs[k].task, k) ensures !Blocks(t.jobs[k]) {}
    }
    if CanComplete(t, run) {
      forall k | k in t.jobs && t.jobs[k].run == run && t.jobs[k].mandatory && LatestOf(t, k)
        ensures t.jobs[k].status == Completed || t.jobs[k].status == Skipped
      {
        assert !Blocks(t.jobs[k]);
      }
    }
  }

  /** MAIN: a run changes its status exactly along the moves, and completes only when every mandatory
      task is completed or skipped. */
  lemma RunMoves(t: Tables, run: string, s: RunStatus)
    requires Owned(t)
    ensures var u := TransitionRun(t, run, s);
            && (u.Some? <==> run in t.runs && (t.runs[run].status == s || (t.runs[run].status, s) in RUN_MOVES)
                             && (s == RunCompleted ==> TasksDone(t, run)))
            && (u.Some? ==> u.value == t.(runs := t.runs[run := t.runs[run].(status := s)]))
  {
    CompletingIs(t, run);
    hide CanComplete, TasksDone;
  }

  /** MAIN: cancelling a run cancels its pending and running jobs, also when the run itself has ended and
      stays as it is; nothing else changes. */
  lemma CancelChanges(t: Tables, run: string)
    ensures var (u, returns_) := CancelRun(t, run);
            && u.jobs.Keys == t.jobs.Keys
            && (forall k :: k in t.jobs ==>
                  u.jobs[k] == if run in t.runs && t.jobs[k].run == run && t.jobs[k].status in {Pending, Running}
                               then t.jobs[k].(status := Cancelled) else t.jobs[k])
            && (returns_ <==> run in t.runs && t.runs[run].status in {RunPending, RunActive, RunCancelled})
            && u.runs == if returns_ then t.runs[run := t.runs[run].(status := RunCancelled)] else t.runs
  {
  }

  /** A new run is pending and belongs to a client; a run is never saved for another client, and saving one
      that is not there changes nothing. */
  lemma RunRowsAre(t: Tables, run: string, row: RunRow)
    requires Owned(t)
    ensures var u := CreateRun(t, run, row.client);
            && (u.None? <==> run in t.runs || row.client == "")
            && (u.Some? ==> u.value == t.(runs := t.runs[run := RunRow(row.client, RunPending)]))
    ensures var u := SaveRun(t, run, row);
            && (u.None? <==> row.client == "" || (run in t.runs && t.runs[run].client != row.client))
            && (u.Some? ==> u.value == if run in t.runs then t.(runs := t.runs[run := row]) else t)
  {
  }

  /** MAIN: how a run ends: failed when a mandatory task is not done, partial when only optional ones are
      lost, completed otherwise. */
  lemma TerminalIs(t: Tables, run: string)
    ensures Terminal(t, run) == if !TasksDone(t, run) then RunFailed else if OptionalLost(t, run) then RunPartial else RunCompleted
  {
    CompletingIs(t, run);
    forall k | k in t.jobs ensures IsLatest(t, t.jobs[k].run, t.jobs[k].task, k) <==> LatestOf(t, k) { LatestIs(t, k); }
    hide CanComplete, TasksDone, IsLatest, LatestOf;
    if OptionalLost(t, run) {
      var k :| k in t.jobs && t.jobs[k].run == run && !t.jobs[k].mandatory && LatestOf(t, k)
        && (t.jobs[k].status == Failed || t.jobs[k].status == Cancelled);
      assert IsLatest(t, run, t.jobs[k].task, k) && Spoils(t.jobs[k]);
    }
    if k :| k in t.jobs && t.jobs[k].run == run && IsLatest(t, run, t.jobs[k].task, k) && Spoils(t.jobs[k]) {
      assert LatestOf(t, k);
    }
  }

  // ---------- what exactly a start changes ----------

  /** MAIN: a pending latest attempt is started itself, unless a new one is asked for; otherwise one new
      attempt with the next number is created and started, and a running one cancelled. No other job
      changes. */
  lemma StartChanges(t: Tables, run: string, task: string, fresh_: bool, mandatory: bool, id: string)
    requires Ok(t) && id !in t.jobs && run in t.runs
    ensures StartAttempt(t, run, task, fresh_, mandatory, id).Some?
    ensures var jobs := StartAttempt(t, run, task, fresh_, mandatory, id).value.jobs;
            match LatestId(t, run, task)
            case None => jobs == t.jobs[id := Job(run, task, 1, Running, mandatory)]
            case Some(last) =>
              var old_ := t.jobs[last];
              if old_.status == Pending && !fresh_ then jobs == t.jobs[last := old_.(status := Running)]
              else
                jobs == t.jobs[last := if old_.status == Running then old_.(status := Cancelled) else old_]
                              [id := Job(run, task, old_.attempt + 1, Running, mandatory)]
  {
    hide Constrained, Gapless, OnlyLatestRuns, Owned;
    match LatestId(t, run, task)
    case None =>
    case Some(last) =>
      if t.jobs[last].status == Running {
        var cleared := WithStatus(t, last, Cancelled);
        TransitionKeepsOk(t, last, Cancelled);
        StillLatest(t, cleared, run, task, last);
        hide LatestId;
      }
  }

  lemma StillLatest(t: Tables, cleared: Tables, run: string, task: string, last: string)
    requires Ok(t) && LatestId(t, run, task) == Some(last) && cleared == WithStatus(t, last, Cancelled) && Ok(cleared)
    ensures LatestId(cleared, run, task) == Some(last)
  {
    StatusOnly(t, cleared);
    LatestIsUnique(cleared, run, task, last);
  }

  // ---------- finished attempts ----------

  predicate Finished(j: Job) { j.status != Pending && j.status != Running }

  lemma FinishedStays(t: Tables, op: Op, k: string)
    requires Ok(t) && Allowed(t, op) && k in t.jobs && Finished(t.jobs[k])
    ensures k in Apply(t, op).jobs && Apply(t, op).jobs[k] == t.jobs[k]
  {
    hide Constrained, Gapless, OnlyLatestRuns, Owned, StartAttempt, LatestId, NextAttempt, CanComplete, TransitionJob, CancelRun;
    match op {
      case Start(run, task, f, m, id) => StartLeaves(t, run, task, f, m, id, k);
      case Finish(id, s) => JobMoves(t, id, s);
      case Cancel(run) => CancelChanges(t, run);
      case _ =>
    }
  }

  lemma StartLeaves(t: Tables, run: string, task: string, fresh_: bool, mandatory: bool, id: string, k: string)
    requires Ok(t) && id !in t.jobs && k in t.jobs && Finished(t.jobs[k])
    ensures var u := Either(StartAttempt(t, run, task, fresh_, mandatory, id), t); k in u.jobs && u.jobs[k] == t.jobs[k]
  {
    hide StartAttempt, LatestId, Ok;
    StartKeepsOk(t, run, task, fresh_, mandatory, id);
    if run in t.runs { StartChanges(t, run, task, fresh_, mandatory, id); }
  }

  /** MAIN: whatever is done later, an attempt that has completed, failed, been cancelled or skipped
      stays as it is. */
  lemma {:induction false} FinishedIsFinal(t: Tables, ops: seq<Op>, k: string)
    requires Ok(t) && CanApply(t, ops) && k in t.jobs && Finished(t.jobs[k])
    ensures k in ApplyAll(t, ops).jobs && ApplyAll(t, ops).jobs[k] == t.jobs[k]
    decreases |ops|
  {
    hide Ok, Apply, Allowed;
    if ops != [] {
      FinishedStays(t, ops[0], k);
      ApplyKeepsOk(t, ops[0]);
      FinishedIsFinal(Apply(t, ops[0]), ops[1..], k);
    }
  }
}
