/** The registry object: every operation on its tables, proved against the table functions. */
module AuditRegistry {
  import opened Options
  import opened Registry

  /** Of the jobs named in `seen`, `latest` holds the latest of every task of the run. */
  ghost predicate Latests(jobs: map<string, Job>, seen: set<string>, run: string, latest: map<string, string>) {
    && seen <= jobs.Keys
    && (forall task :: task in latest ==> latest[task] in seen && jobs[latest[task]].run == run && jobs[latest[task]].task == task)
    && (forall k :: k in seen && jobs[k].run == run ==>
          jobs[k].task in latest && latest[jobs[k].task] in jobs && jobs[k].attempt <= jobs[latest[jobs[k].task]].attempt)
  }

  lemma NothingSeen(jobs: map<string, Job>, run: string)
    ensures Latests(jobs, {}, run, map[])
  {
  }

  lemma LatestsHold(jobs: map<string, Job>, seen: set<string>, run: string, latest: map<string, string>)
    requires Latests(jobs, seen, run, latest)
    ensures forall task :: task in latest ==> latest[task] in jobs
  {
  }

  lemma LatestsStep(jobs: map<string, Job>, seen: set<string>, run: string, latest: map<string, string>, k: string)
    requires Latests(jobs, seen, run, latest) && k in jobs
    ensures var j := jobs[k];
            Latests(jobs, seen + {k}, run,
                    if j.run == run && (j.task !in latest || j.attempt > jobs[latest[j.task]].attempt) then latest[j.task := k]
                    else latest)
  {
  }

  lemma LatestsAll(t: Tables, run: string, latest: map<string, string>)
    requires Constrained(t) && Latests(t.jobs, t.jobs.Keys, run, latest)
    ensures forall task :: task in latest ==> IsLatest(t, run, task, latest[task])
    ensures forall k :: k in t.jobs && t.jobs[k].run == run && IsLatest(t, run, t.jobs[k].task, k) ==>
              t.jobs[k].task in latest && latest[t.jobs[k].task] == k
  {
  }

  class Registrar {
    var runs: map<string, RunRow>
    var jobs: map<string, Job>

    function T(): Tables
      reads this
    {
      Tables(runs, jobs)
    }

    constructor ()
      ensures T() == Tables(map[], map[])
    {
      runs, jobs := map[], map[];
    }

    method CreateRun(run: string, client: string) returns (ok: bool)
      modifies this
      ensures ok == Registry.CreateRun(old(T()), run, client).Some?
      ensures T() == Either(Registry.CreateRun(old(T()), run, client), old(T()))
    {
      if client == "" || run in runs { return false; }
      runs := runs[run := RunRow(client, RunPending)];
      return true;
    }

    method SaveRun(run: string, row: RunRow) returns (ok: bool)
      modifies this
      ensures ok == Registry.SaveRun(old(T()), run, row).Some?
      ensures T() == Either(Registry.SaveRun(old(T()), run, row), old(T()))
    {
      if row.client == "" { return false; }
      if run in runs {
        if runs[run].client != "" && runs[run].client != row.client { return false; }
        runs := runs[run := row];
      }
      return true;
    }

    method LatestJobs(run: string) returns (latest: map<string, string>)
      requires Constrained(T())
      ensures forall task :: task in latest ==> IsLatest(T(), run, task, latest[task])
      ensures forall k :: k in jobs && jobs[k].run == run && IsLatest(T(), run, jobs[k].task, k) ==>
                jobs[k].task in latest && latest[jobs[k].task] == k
    {
      latest := map[];
      var todo := jobs.Keys;
      hide Latests, Constrained;
      assert Latests(jobs, jobs.Keys - todo, run, latest) by { NothingSeen(jobs, run); assert jobs.Keys - todo == {}; }
      while todo != {}
        invariant todo <= jobs.Keys && Latests(jobs, jobs.Keys - todo, run, latest)
        decreases |todo|
      {
        var k :| k in todo;
        LatestsStep(jobs, jobs.Keys - todo, run, latest, k);
        LatestsHold(jobs, jobs.Keys - todo, run, latest);
        assert jobs.Keys - (todo - {k}) == (jobs.Keys - todo) + {k};
        todo := todo - {k};
        var job := jobs[k];
        if job.run == run && (job.task !in latest || job.attempt > jobs[latest[job.task]].attempt) {
          latest := latest[job.task := k];
        }
      }
      assert jobs.Keys - todo == jobs.Keys;
      LatestsAll(T(), run, latest);
    }

    method CanCompleteRun(run: string) returns (ok: bool)
      requires Constrained(T())
      ensures ok == CanComplete(T(), run)
    {
      var latest := LatestJobs(run);
      var todo := latest.Keys;
      hide Constrained, IsLatest;
      while todo != {}
        invariant todo <= latest.Keys
        invariant forall task :: task in latest && task !in todo ==> !Blocks(jobs[latest[task]])
        decreases |todo|
      {
        var task :| task in todo;
        todo := todo - {task};
        if Blocks(jobs[latest[task]]) { return false; }
      }
      return true;
    }

    method TransitionRun(run: string, status: RunStatus) returns (ok: bool)
      requires Constrained(T())
      modifies this
      ensures ok == Registry.TransitionRun(old(T()), run, status).Some?
      ensures T() == Either(Registry.TransitionRun(old(T()), run, status), old(T()))
    {
      hide CanComplete;
      if run !in runs { return false; }
      if status == RunCompleted {
        var can := CanCompleteRun(run);
        if !can { return false; }
      }
      if !RunMayBecome(runs[run].status, status) { return false; }
      ok := SaveRun(run, runs[run].(status := status));
    }

    method FinalizeRun(run: string) returns (ok: bool)
      requires Constrained(T())
      modifies this
      ensures ok == Registry.TransitionRun(old(T()), run, Terminal(old(T()), run)).Some?
      ensures T() == Either(Registry.TransitionRun(old(T()), run, Terminal(old(T()), run)), old(T()))
    {
      if run !in runs { return false; }
      var status := RunCompleted;
      var can := CanCompleteRun(run);
      if !can {
        status := RunFailed;
      } else {
        var spoilt := SomeSpoils(run);
        if spoilt { status := RunPartial; }
      }
      hide CanComplete, IsLatest;
      if !RunMayBecome(runs[run].status, status) { return false; }
      ok := SaveRun(run, runs[run].(status := status));
    }

    method SomeSpoils(run: string) returns (found: bool)
      requires Constrained(T())
      ensures found <==> exists k :: k in jobs && jobs[k].run == run && IsLatest(T(), run, jobs[k].task, k) && Spoils(jobs[k])
    {
      var latest := LatestJobs(run);
      var todo := latest.Keys;
      while todo != {}
        invariant todo <= latest.Keys
        invariant forall task :: task in latest && task !in todo ==> !Spoils(jobs[latest[task]])
        decreases |todo|
      {
        var task :| task in todo;
        todo := todo - {task};
        if Spoils(jobs[latest[task]]) {
          assert IsLatest(T(), run, task, latest[task]);
          return true;
        }
      }
      return false;
    }

    method LatestJobForTask(run: string, task: string) returns (latest: Option<string>)
      requires Constrained(T())
      ensures latest == LatestId(T(), run, task)
    {
      var all := LatestJobs(run);
      latest := if task in all then Some(all[task]) else None;
      assert LatestId(T(), run, task).Some? ==> IsLatest(T(), run, task, LatestId(T(), run, task).value) && task in all;
      if latest.Some? { LatestIsUnique(T(), run, task, latest.value); }
    }

    method CreateJob(run: string, task: string, mandatory: bool, id: string) returns (ok: bool)
      requires Constrained(T()) && id !in jobs
      modifies `jobs
      ensures ok == Registry.CreateJob(old(T()), run, task, mandatory, id).Some?
      ensures T() == Either(Registry.CreateJob(old(T()), run, task, mandatory, id), old(T()))
    {
      if run !in runs { return false; }
      var latest := LatestJobForTask(run, task);
      var attempt := match latest case None => 1 case Some(k) => jobs[k].attempt + 1;
      jobs := jobs[id := Job(run, task, attempt, Pending, mandatory)];
      return true;
    }

    method TransitionJob(id: string, status: JobStatus) returns (ok: bool)
      modifies `jobs
      ensures ok == Registry.TransitionJob(old(T()), id, status).Some?
      ensures T() == Either(Registry.TransitionJob(old(T()), id, status), old(T()))
    {
      if id !in jobs || !JobMayBecome(jobs[id].status, status) { return false; }
      jobs := jobs[id := jobs[id].(status := status)];
      return true;
    }

    method StartJobAttempt(run: string, task: string, newAttempt: bool, mandatory: bool, id: string) returns (ok: bool)
      requires Ok(T()) && id !in jobs
      modifies `jobs
      ensures ok == (run in runs)
      ensures T() == Either(StartAttempt(old(T()), run, task, newAttempt, mandatory, id), old(T()))
      ensures Ok(T())
    {
      StartKeepsOk(T(), run, task, newAttempt, mandatory, id);
      var latest := LatestJobForTask(run, task);
      if newAttempt || latest == None || jobs[latest.value].status != Pending {
        if latest.Some? && jobs[latest.value].status == Running {
          TransitionKeepsOk(T(), latest.value, Cancelled);
          jobs := jobs[latest.value := jobs[latest.value].(status := Cancelled)];
        }
        assert latest.Some? ==> run in runs;
        hide Ok, LatestId;
        ok := CreateJob(run, task, mandatory, id);
        if !ok { return; }
        ok := TransitionJob(id, Running);
      } else {
        hide Ok, LatestId;
        ok := TransitionJob(latest.value, Running);
      }
    }

    method CancelRun(run: string) returns (ok: bool)
      requires Constrained(T())
      modifies this
      ensures (T(), ok) == Registry.CancelRun(old(T()), run)
    {
      if run !in runs { return false; }
      CancelJobs(run);
      hide CancelOpen, Constrained;
      if runs[run].status == RunCancelled {
        assert runs[run := runs[run].(status := RunCancelled)] == runs;
        return true;
      }
      if !RunMayBecome(runs[run].status, RunCancelled) { return false; }
      runs := runs[run := runs[run].(status := RunCancelled)];
      return true;
    }

    method CancelJobs(run: string)
      modifies `jobs
      ensures T() == CancelOpen(old(T()), run)
    {
      var todo := jobs.Keys;
      ghost var before, after := jobs, CancelOpen(T(), run).jobs;
      assert forall k :: k in before ==> before[k] == after[k] || (before[k].run == run && Open(before[k].status)
                                                                   && after[k] == before[k].(status := Cancelled));
      assert forall k :: k in before && before[k].run == run && Open(before[k].status) ==>
          after[k] == before[k].(status := Cancelled) && JobMayBecome(before[k].status, Cancelled);
      hide CancelOpen, JobMayBecome;
      while todo != {}
        invariant jobs.Keys == before.Keys == after.Keys && todo <= jobs.Keys
        invariant forall k :: k in jobs ==> jobs[k] == if k in todo then before[k] else after[k]
        decreases |todo|
      {
        var k :| k in todo;
        todo := todo - {k};
        if jobs[k].run == run && Open(jobs[k].status) {
          var moved := TransitionJob(k, Cancelled);
        }
      }
      assert jobs == after;
    }
  }
}
