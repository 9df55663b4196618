/** Audit runs and the attempts of their jobs: what the registry's operations do to the tables, and
    what every sequence of operations keeps. */
module Registry {
  import opened Options

  datatype RunStatus = RunPending | RunActive | RunCompleted | RunFailed | RunCancelled | RunPartial

  datatype JobStatus = Pending | Running | Completed | Failed | Cancelled | Skipped

  predicate RunMayBecome(from: RunStatus, next: RunStatus) {
    from == next || match from
    case RunPending => next in {RunActive, RunCancelled}
    case RunActive => next in {RunCompleted, RunFailed, RunCancelled, RunPartial}
    case RunCancelled => next == RunActive
    case _ => false
  }

  predicate JobMayBecome(from: JobStatus, next: JobStatus) {
    from == next || match from
    case Pending => next in {Running, Cancelled, Skipped}
    case Running => next in {Completed, Failed, Cancelled}
    case _ => false
  }

  predicate Open(s: JobStatus) { s == Pending || s == Running }

  datatype RunRow = RunRow(client: string, status: RunStatus)

  datatype Job = Job(run: string, task: string, attempt: nat, status: JobStatus, mandatory: bool)

  datatype Tables = Tables(runs: map<string, RunRow>, jobs: map<string, Job>)

  // ---------- the constraints of the tables ----------

  predicate SameTask(a: Job, b: Job) { a.run == b.run && a.task == b.task }

  /** The uniqueness of (run, task, attempt) and the reference from jobs to runs. */
  ghost predicate Constrained(t: Tables) {
    && (forall k, l :: k in t.jobs && l in t.jobs && SameTask(t.jobs[k], t.jobs[l]) && t.jobs[k].attempt == t.jobs[l].attempt
          ==> k == l)
    && (forall k :: k in t.jobs ==> t.jobs[k].run in t.runs)
  }

  predicate IsLatest(t: Tables, run: string, task: string, id: string) {
    && id in t.jobs && t.jobs[id].run == run && t.jobs[id].task == task
    && forall k :: k in t.jobs && SameTask(t.jobs[k], t.jobs[id]) ==> t.jobs[k].attempt <= t.jobs[id].attempt
  }

  ghost predicate NoneOf(t: Tables, run: string, task: string) {
    forall k :: k in t.jobs ==> t.jobs[k].run != run || t.jobs[k].task != task
  }

  /** `latest_job_for_task`. */
  ghost function LatestId(t: Tables, run: string, task: string): (r: Option<string>)
    ensures r.Some? ==> IsLatest(t, run, task, r.value)
    ensures r.None? <==> NoneOf(t, run, task)
  {
    if NoneOf(t, run, task) then None
    else
      assert exists id :: IsLatest(t, run, task, id) by { var id := SomeLatest(t, run, task); }
      var id :| IsLatest(t, run, task, id);
      Some(id)
  }

  lemma {:induction false} SomeLatest(t: Tables, run: string, task: string) returns (id: string)
    requires !NoneOf(t, run, task)
    ensures IsLatest(t, run, task, id)
    decreases |t.jobs|
  {
    var one :| one in t.jobs && t.jobs[one].run == run && t.jobs[one].task == task;
    var rest := Tables(t.runs, t.jobs - {one});
    id := one;
    assert forall k :: k in t.jobs && k != one ==> k in rest.jobs && rest.jobs[k] == t.jobs[k];
    if !NoneOf(rest, run, task) {
      var other := SomeLatest(rest, run, task);
      if t.jobs[other].attempt > t.jobs[one].attempt { id := other; }
    }
  }

  lemma LatestIsUnique(t: Tables, run: string, task: string, id: string)
    requires Constrained(t) && IsLatest(t, run, task, id)
    ensures LatestId(t, run, task) == Some(id)
  {
  }

  // ---------- the operations ----------

  ghost function NextAttempt(t: Tables, run: string, task: string): nat {
    match LatestId(t, run, task)
    case None => 1
    case Some(id) => t.jobs[id].attempt + 1
  }

  function WithStatus(t: Tables, id: string, s: JobStatus): Tables
    requires id in t.jobs
  {
    t.(jobs := t.jobs[id := t.jobs[id].(status := s)])
  }

  ghost function CreateJob(t: Tables, run: string, task: string, mandatory: bool, id: string): Option<Tables> {
    if run !in t.runs then None
    else Some(t.(jobs := t.jobs[id := Job(run, task, NextAttempt(t, run, task), Pending, mandatory)]))
  }

  function TransitionJob(t: Tables, id: string, s: JobStatus): Option<Tables> {
    if id !in t.jobs || !JobMayBecome(t.jobs[id].status, s) then None else Some(WithStatus(t, id, s))
  }

  /** `start_job_attempt`: a pending latest attempt is started; otherwise, or when a new attempt is
      asked for, a running one is cancelled and a new one created and started. `id` is the new job's. */
  ghost function StartAttempt(t: Tables, run: string, task: string, fresh_: bool, mandatory: bool, id: string): Option<Tables> {
    match LatestId(t, run, task)
    case None => Started(CreateJob(t, run, task, mandatory, id), id)
    case Some(last) =>
      if t.jobs[last].status == Pending && !fresh_ then TransitionJob(t, last, Running)
      else
        var cleared := if t.jobs[last].status == Running then WithStatus(t, last, Cancelled) else t;
        Started(CreateJob(cleared, run, task, mandatory, id), id)
  }

  function Started(t: Option<Tables>, id: string): Option<Tables> {
    match t case None => None case Some(u) => TransitionJob(u, id, Running)
  }

  function CancelOpen(t: Tables, run: string): Tables {
    t.(jobs := map k | k in t.jobs ::
      if t.jobs[k].run == run && Open(t.jobs[k].status) then t.jobs[k].(status := Cancelled) else t.jobs[k])
  }

  /** `cancel_run`; the flag says whether it returns or raises. Open jobs are cancelled first, so they
      are cancelled even when the run itself may not be. */
  function CancelRun(t: Tables, run: string): (Tables, bool) {
    if run !in t.runs then (t, false)
    else
      var u := CancelOpen(t, run);
      if RunMayBecome(t.runs[run].status, RunCancelled) then (WithRunStatus(u, run, RunCancelled), true) else (u, false)
  }

  function WithRunStatus(t: Tables, run: string, s: RunStatus): Tables
    requires run in t.runs
  {
    t.(runs := t.runs[run := t.runs[run].(status := s)])
  }

  function CreateRun(t: Tables, run: string, client: string): Option<Tables> {
    if run in t.runs || client == "" then None else Some(t.(runs := t.runs[run := RunRow(client, RunPending)]))
  }

  /** `save_run`: another client is refused, an unknown run is left out silently. */
  function SaveRun(t: Tables, run: string, row: RunRow): Option<Tables> {
    if row.client == "" || (run in t.runs && t.runs[run].client != "" && t.runs[run].client != row.client) then None
    else if run !in t.runs then Some(t)
    else Some(t.(runs := t.runs[run := row]))
  }

  /** A mandatory job that keeps its run from completing. */
  predicate Blocks(j: Job) { j.mandatory && j.status != Completed && j.status != Skipped }

  /** `can_complete_run`: no latest attempt blocks. */
  predicate CanComplete(t: Tables, run: string) {
    forall k :: k in t.jobs && t.jobs[k].run == run && IsLatest(t, run, t.jobs[k].task, k) ==> !Blocks(t.jobs[k])
  }

  /** `resolve_terminal_run_status`, over the latest attempts. */
  function Terminal(t: Tables, run: string): RunStatus {
    if !CanComplete(t, run) then RunFailed
    else if exists k :: k in t.jobs && t.jobs[k].run == run && IsLatest(t, run, t.jobs[k].task, k) && Spoils(t.jobs[k]) then RunPartial
    else RunCompleted
  }

  /** An optional job that did not come to its end. */
  predicate Spoils(j: Job) { !j.mandatory && (j.status == Failed || j.status == Cancelled) }

  function TransitionRun(t: Tables, run: string, s: RunStatus): Option<Tables> {
    if run !in t.runs || (s == RunCompleted && !CanComplete(t, run)) || !RunMayBecome(t.runs[run].status, s) then None
    else SaveRun(t, run, t.runs[run].(status := s))
  }

  // ---------- what is kept ----------

  /** The attempts of every task are exactly 1..n. */
  ghost predicate Gapless(t: Tables) {
    && (forall k :: k in t.jobs ==> 1 <= t.jobs[k].attempt)
    && (forall k, a: nat :: k in t.jobs && 1 <= a <= t.jobs[k].attempt ==> HasAttempt(t, t.jobs[k].run, t.jobs[k].task, a))
  }

  ghost predicate HasAttempt(t: Tables, run: string, task: string, a: nat) {
    exists l :: l in t.jobs && t.jobs[l].run == run && t.jobs[l].task == task && t.jobs[l].attempt == a
  }

  /** Only the latest attempt of a task may be running. */
  ghost predicate OnlyLatestRuns(t: Tables) {
    forall k :: k in t.jobs && t.jobs[k].status == Running ==> IsLatest(t, t.jobs[k].run, t.jobs[k].task, k)
  }

  ghost predicate Owned(t: Tables) { forall r :: r in t.runs ==> t.runs[r].client != "" }

  ghost predicate Ok(t: Tables) { Constrained(t) && Gapless(t) && OnlyLatestRuns(t) && Owned(t) }

  /** No run disappears, and no run changes its client. */
  ghost predicate KeepsClients(t: Tables, u: Tables) {
    forall r :: r in t.runs ==> r in u.runs && u.runs[r].client == t.runs[r].client
  }

  /** Of every task at most one attempt runs. */
  ghost predicate OneRuns(t: Tables) {
    forall k, l | k in t.jobs && l in t.jobs && SameTask(t.jobs[k], t.jobs[l]) ::
      t.jobs[k].status == Running && t.jobs[l].status == Running ==> k == l
  }

  /** The attempts change at most in status: everything but `OnlyLatestRuns` is kept. */
  lemma StatusOnly(t: Tables, u: Tables)
    requires Ok(t) && t.runs.Keys == u.runs.Keys && t.jobs.Keys == u.jobs.Keys && Owned(u)
    requires forall k :: k in t.jobs ==> u.jobs[k] == t.jobs[k].(status := u.jobs[k].status)
    ensures Constrained(u) && Gapless(u)
    ensures forall run, task, k :: IsLatest(u, run, task, k) <==> IsLatest(t, run, task, k)
  {
    forall run, task, a: nat | HasAttempt(t, run, task, a) ensures HasAttempt(u, run, task, a) {
      var l :| l in t.jobs && t.jobs[l].run == run && t.jobs[l].task == task && t.jobs[l].attempt == a;
      assert u.jobs[l].attempt == a;
    }
  }

  /** MAIN: a status change keeps the promises exactly if it does not start an attempt that is not
      the latest. */
  lemma TransitionKeepsOk(t: Tables, id: string, s: JobStatus)
    requires Ok(t) && TransitionJob(t, id, s).Some?
    ensures Ok(TransitionJob(t, id, s).value) <==> (s == Running ==> IsLatest(t, t.jobs[id].run, t.jobs[id].task, id))
    ensures TransitionJob(t, id, s).value.runs == t.runs
  {
    var u := TransitionJob(t, id, s).value;
    StatusOnly(t, u);
    hide Constrained, Gapless, IsLatest;
    assert u.jobs[id].status == s;
    assert forall k :: k in t.jobs && k != id ==> u.jobs[k] == t.jobs[k];
  }

  ghost predicate LatestRuns(t: Tables, run: string, task: string) {
    exists k :: IsLatest(t, run, task, k) && t.jobs[k].status == Running
  }

  lemma CreateIsNext(t: Tables, run: string, task: string, mandatory: bool, id: string)
    requires Ok(t) && id !in t.jobs && run in t.runs
    ensures var u := CreateJob(t, run, task, mandatory, id).value;
            && Constrained(u) && Gapless(u) && IsLatest(u, run, task, id)
            && (forall r, s, k :: (r != run || s != task) ==> (IsLatest(u, r, s, k) <==> IsLatest(t, r, s, k)))
            && (forall k :: IsLatest(u, run, task, k) ==> k == id)
  {
    CreateIsGapless(t, run, task, mandatory, id);
    NextIsLarger(t, run, task);
    CreateIsLatest(t, run, task, id, Job(run, task, NextAttempt(t, run, task), Pending, mandatory));
    hide LatestId, Gapless, NextAttempt, IsLatest;
  }

  /** A job whose attempt is larger than those of its task. */
  lemma CreateIsLatest(t: Tables, run: string, task: string, id: string, j: Job)
    requires Constrained(t) && id !in t.jobs && run in t.runs && j.run == run && j.task == task
    requires forall k :: k in t.jobs && t.jobs[k].run == run && t.jobs[k].task == task ==> t.jobs[k].attempt < j.attempt
    ensures var u := t.(jobs := t.jobs[id := j]);
            && Constrained(u) && IsLatest(u, run, task, id)
            && (forall r, s, k :: (r != run || s != task) ==> (IsLatest(u, r, s, k) <==> IsLatest(t, r, s, k)))
            && (forall k :: IsLatest(u, run, task, k) ==> k == id)
  {
    var u := t.(jobs := t.jobs[id := j]);
    assert forall k :: k in t.jobs ==> u.jobs[k] == t.jobs[k];
    assert u.jobs[id] == j;
  }

  lemma NextIsLarger(t: Tables, run: string, task: string)
    ensures forall k :: k in t.jobs && t.jobs[k].run == run && t.jobs[k].task == task ==>
              t.jobs[k].attempt < NextAttempt(t, run, task)
  {
    if LatestId(t, run, task).Some? { assert IsLatest(t, run, task, LatestId(t, run, task).value); }
  }

  lemma CreateIsGapless(t: Tables, run: string, task: string, mandatory: bool, id: string)
    requires Ok(t) && id !in t.jobs && run in t.runs
    ensures Gapless(CreateJob(t, run, task, mandatory, id).value)
  {
    var u := CreateJob(t, run, task, mandatory, id).value;
    var n := NextAttempt(t, run, task);
    assert u.jobs[id].attempt == n;
    forall r, s, a: nat | HasAttempt(t, r, s, a) ensures HasAttempt(u, r, s, a) {
      var l :| l in t.jobs && t.jobs[l].run == r && t.jobs[l].task == s && t.jobs[l].attempt == a;
      assert u.jobs[l] == t.jobs[l];
    }
    var last := LatestId(t, run, task);
    assert last.Some? ==> forall a: nat :: 1 <= a < n ==> HasAttempt(t, run, task, a);
    assert HasAttempt(u, run, task, n);
    hide LatestId, HasAttempt, NextAttempt;
  }

  /** MAIN: creating a job directly keeps the promises exactly if the latest attempt is not running. */
  lemma CreateKeepsOk(t: Tables, run: string, task: string, mandatory: bool, id: string)
    requires Ok(t) && id !in t.jobs && run in t.runs
    ensures Ok(CreateJob(t, run, task, mandatory, id).value) <==> !LatestRuns(t, run, task)
    ensures CreateJob(t, run, task, mandatory, id).value.runs == t.runs
  {
    var u := CreateJob(t, run, task, mandatory, id).value;
    CreateIsNext(t, run, task, mandatory, id);
    assert forall k :: k in t.jobs ==> u.jobs[k] == t.jobs[k];
    forall k | k in t.jobs && IsLatest(t, run, task, k) ensures k != id && !IsLatest(u, run, task, k) {}
    hide Constrained, Gapless, NextAttempt;
  }

  /** MAIN: starting or retrying always keeps the promises, and leaves the started attempt running. */
  lemma StartKeepsOk(t: Tables, run: string, task: string, fresh_: bool, mandatory: bool, id: string)
    requires Ok(t) && id !in t.jobs
    ensures StartAttempt(t, run, task, fresh_, mandatory, id).Some? <==> run in t.runs
    ensures run in t.runs ==>
              var u := StartAttempt(t, run, task, fresh_, mandatory, id).value;
              Ok(u) && u.runs == t.runs && LatestRuns(u, run, task)
  {
    if run in t.runs {
      match LatestId(t, run, task) {
        case None => StartNew(t, run, task, mandatory, id);
        case Some(last) =>
          hide Ok, CreateJob, IsLatest, LatestRuns, Started, TransitionJob;
          if t.jobs[last].status == Pending && !fresh_ {
            StartPending(t, run, task, last);
          } else if t.jobs[last].status == Running {
            Restart(t, run, task, last, mandatory, id);
          } else {
            StartNew(t, run, task, mandatory, id);
          }
      }
    }
  }

  lemma StartPending(t: Tables, run: string, task: string, last: string)
    requires Ok(t) && LatestId(t, run, task) == Some(last) && t.jobs[last].status == Pending
    ensures var u := TransitionJob(t, last, Running); u.Some? && Ok(u.value) && u.value.runs == t.runs && LatestRuns(u.value, run, task)
  {
    hide Constrained, Gapless, OnlyLatestRuns, Owned;
    TransitionKeepsOk(t, last, Running);
    var u := TransitionJob(t, last, Running).value;
    StatusOnly(t, u);
    assert IsLatest(u, run, task, last) && u.jobs[last].status == Running;
  }

  lemma Restart(t: Tables, run: string, task: string, last: string, mandatory: bool, id: string)
    requires Ok(t) && id !in t.jobs && run in t.runs && LatestId(t, run, task) == Some(last) && t.jobs[last].status == Running
    ensures var u := Started(CreateJob(WithStatus(t, last, Cancelled), run, task, mandatory, id), id);
            u.Some? && Ok(u.value) && u.value.runs == t.runs && LatestRuns(u.value, run, task)
  {
    hide Constrained, Gapless, OnlyLatestRuns, Owned, CreateJob, Started;
    var cleared := WithStatus(t, last, Cancelled);
    TransitionKeepsOk(t, last, Cancelled);
    StatusOnly(t, cleared);
    LatestIsUnique(cleared, run, task, last);
    StartNew(cleared, run, task, mandatory, id);
  }

  lemma StartNew(t: Tables, run: string, task: string, mandatory: bool, id: string)
    requires Ok(t) && id !in t.jobs && run in t.runs
    requires LatestId(t, run, task).Some? ==> t.jobs[LatestId(t, run, task).value].status != Running
    ensures var u := Started(CreateJob(t, run, task, mandatory, id), id);
            u.Some? && Ok(u.value) && u.value.runs == t.runs && LatestRuns(u.value, run, task)
  {
    var c := CreateJob(t, run, task, mandatory, id).value;
    if LatestRuns(t, run, task) {
      var k :| IsLatest(t, run, task, k) && t.jobs[k].status == Running;
      LatestIsUnique(t, run, task, k);
    }
    CreateKeepsOk(t, run, task, mandatory, id);
    CreateIsNext(t, run, task, mandatory, id);
    TransitionKeepsOk(c, id, Running);
    var u := TransitionJob(c, id, Running).value;
    StatusOnly(c, u);
    assert IsLatest(u, run, task, id) && u.jobs[id].status == Running;
  }

  /** MAIN: cancelling a run leaves it without open jobs, whether it returns or raises, touches no
      other run's jobs, and returns exactly for a run that is pending, active or cancelled already. */
  lemma CancelKeepsOk(t: Tables, run: string)
    requires Ok(t)
    ensures var (u, returns_) := CancelRun(t, run);
            && Ok(u) && KeepsClients(t, u) && u.jobs.Keys == t.jobs.Keys
            && (run in t.runs ==> forall k :: k in u.jobs && u.jobs[k].run == run ==> !Open(u.jobs[k].status))
            && (forall k :: k in t.jobs && (t.jobs[k].run != run || !Open(t.jobs[k].status)) ==> u.jobs[k] == t.jobs[k])
            && (returns_ <==> run in t.runs && t.runs[run].status in {RunPending, RunActive, RunCancelled})
            && (returns_ ==> u.runs[run].status == RunCancelled)
  {
    hide Constrained, Gapless, OnlyLatestRuns, Owned, CancelOpen;
    if run in t.runs {
      CancelOpenKeeps(t, run);
      RunStatusKeeps(CancelOpen(t, run), run, RunCancelled);
    }
  }

  lemma CancelOpenKeeps(t: Tables, run: string)
    requires Ok(t)
    ensures var u := CancelOpen(t, run);
            && Ok(u) && u.runs == t.runs && u.jobs.Keys == t.jobs.Keys
            && (forall k :: k in u.jobs && u.jobs[k].run == run ==> !Open(u.jobs[k].status))
            && (forall k :: k in t.jobs && (t.jobs[k].run != run || !Open(t.jobs[k].status)) ==> u.jobs[k] == t.jobs[k])
  {
    var u := CancelOpen(t, run);
    StatusOnly(t, u);
    hide Constrained, Gapless, IsLatest;
    assert forall k :: k in u.jobs && u.jobs[k].status == Running ==> t.jobs[k].status == Running;
  }

  lemma RunStatusKeeps(t: Tables, run: string, s: RunStatus)
    requires Ok(t) && run in t.runs
    ensures Ok(WithRunStatus(t, run, s))
  {
    StatusOnly(t, WithRunStatus(t, run, s));
    hide Constrained, Gapless, IsLatest;
  }

  /** MAIN: the run table's operations keep the promises; a run never changes its client. */
  lemma RunTableKeepsOk(t: Tables, run: string, row: RunRow, s: RunStatus)
    requires Ok(t)
    ensures SaveRun(t, run, row).Some? ==> Ok(SaveRun(t, run, row).value) && KeepsClients(t, SaveRun(t, run, row).value)
    ensures TransitionRun(t, run, s).Some? ==> Ok(TransitionRun(t, run, s).value) && KeepsClients(t, TransitionRun(t, run, s).value)
    ensures CreateRun(t, run, row.client).Some? ==>
              Ok(CreateRun(t, run, row.client).value) && KeepsClients(t, CreateRun(t, run, row.client).value)
  {
    var same := SaveRun(t, run, row);
    if same.Some? { StatusOnly(t, same.value); }
    var moved := TransitionRun(t, run, s);
    if moved.Some? { StatusOnly(t, moved.value); }
    if CreateRun(t, run, row.client).Some? { RunAdded(t, run, row.client); }
    hide Constrained, Gapless, IsLatest;
  }

  lemma RunAdded(t: Tables, run: string, client: string)
    requires Ok(t) && CreateRun(t, run, client).Some?
    ensures Ok(CreateRun(t, run, client).value) && KeepsClients(t, CreateRun(t, run, client).value)
  {
    var u := CreateRun(t, run, client).value;
    forall r, task, a: nat | HasAttempt(t, r, task, a) ensures HasAttempt(u, r, task, a) {}
  }

  // ---------- whole sequences ----------

  datatype Op =
    | NewRun(run: string, client: string)
    | Save(run: string, row: RunRow)
    | MoveRun(run: string, status: RunStatus)
    | Start(run: string, task: string, newAttempt: bool, mandatory: bool, id: string)
    | Finish(id: string, outcome: JobStatus)
    | Plan(run: string, task: string, id: string)
    | Cancel(run: string)

  /** What the callers of the registry do: new job ids are new, a job is planned only for a task
      without one, and outside `Start` no attempt is set running. */
  ghost predicate Allowed(t: Tables, op: Op) {
    match op
    case Start(_, _, _, _, id) => id !in t.jobs
    case Finish(_, outcome) => outcome != Running
    case Plan(run, task, id) => id !in t.jobs && NoneOf(t, run, task)
    case _ => true
  }

  /** The tables after an operation; a refused one changes nothing. */
  ghost function Apply(t: Tables, op: Op): Tables {
    match op
    case NewRun(run, client) => Either(CreateRun(t, run, client), t)
    case Save(run, row) => Either(SaveRun(t, run, row), t)
    case MoveRun(run, s) => Either(TransitionRun(t, run, s), t)
    case Start(run, task, f, m, id) => Either(StartAttempt(t, run, task, f, m, id), t)
    case Finish(id, s) => Either(TransitionJob(t, id, s), t)
    case Plan(run, task, id) => Either(CreateJob(t, run, task, true, id), t)
    case Cancel(run) => CancelRun(t, run).0
  }

  function Either(u: Option<Tables>, t: Tables): Tables { if u.Some? then u.value else t }

  lemma ApplyKeepsOk(t: Tables, op: Op)
    requires Ok(t) && Allowed(t, op)
    ensures Ok(Apply(t, op)) && KeepsClients(t, Apply(t, op))
  {
    hide Ok, CreateRun, SaveRun, TransitionRun, StartAttempt, TransitionJob, CreateJob, CancelRun;
    match op {
      case NewRun(run, client) => RunTableKeepsOk(t, run, RunRow(client, RunPending), RunPending);
      case Save(run, row) => RunTableKeepsOk(t, run, row, RunPending);
      case MoveRun(run, s) => RunTableKeepsOk(t, run, RunRow("", RunPending), s);
      case Start(run, task, f, m, id) => StartKeepsOk(t, run, task, f, m, id);
      case Finish(id, s) => if TransitionJob(t, id, s).Some? { TransitionKeepsOk(t, id, s); }
      case Plan(run, task, id) => PlanKeepsOk(t, run, task, id);
      case Cancel(run) => CancelKeepsOk(t, run);
    }
  }

  lemma PlanKeepsOk(t: Tables, run: string, task: string, id: string)
    requires Ok(t) && id !in t.jobs && NoneOf(t, run, task)
    ensures var u := Either(CreateJob(t, run, task, true, id), t); Ok(u) && u.runs == t.runs
  {
    if run in t.runs { CreateKeepsOk(t, run, task, true, id); }
  }

  ghost predicate CanApply(t: Tables, ops: seq<Op>)
    decreases |ops|
  {
    ops == [] || (Allowed(t, ops[0]) && CanApply(Apply(t, ops[0]), ops[1..]))
  }

  ghost function ApplyAll(t: Tables, ops: seq<Op>): Tables
    decreases |ops|
  {
    if ops == [] then t else ApplyAll(Apply(t, ops[0]), ops[1..])
  }

  /** MAIN: after every sequence of operations the attempts of each task are 1..n, only the latest may
      run, so at most one does, and no run has changed its client. */
  lemma {:induction false} SequencesKeepOk(t: Tables, ops: seq<Op>)
    requires Ok(t) && CanApply(t, ops)
    ensures Ok(ApplyAll(t, ops)) && OneRuns(ApplyAll(t, ops)) && KeepsClients(t, ApplyAll(t, ops))
    decreases |ops|
  {
    OnlyOne(ApplyAll(t, ops));
    hide Ok, OneRuns, Apply, Allowed;
    if ops != [] {
      ApplyKeepsOk(t, ops[0]);
      SequencesKeepOk(Apply(t, ops[0]), ops[1..]);
    }
  }

  lemma OnlyOne(t: Tables)
    ensures Ok(t) ==> OneRuns(t)
  {
  }

  // ---------- single steps of several callers ----------

  /** What a start does, step by step; looking up the latest attempt changes nothing. */
  datatype Micro =
    | Create(run: string, task: string, mandatory: bool, id: string)
    | Change(id: string, status: JobStatus)

  ghost function Step(t: Tables, m: Micro): Tables {
    match m
    case Create(run, task, mandatory, id) => Either(CreateJob(t, run, task, mandatory, id), t)
    case Change(id, s) => Either(TransitionJob(t, id, s), t)
  }

  /** A job is created only when the latest attempt is not running, and only the latest is started. */
  ghost predicate Safe(t: Tables, m: Micro) {
    match m
    case Create(run, task, _, _) => run in t.runs ==> !LatestRuns(t, run, task)
    case Change(id, s) => TransitionJob(t, id, s).Some? && s == Running ==> IsLatest(t, t.jobs[id].run, t.jobs[id].task, id)
  }

  ghost predicate NewIds(t: Tables, ms: seq<Micro>)
    decreases |ms|
  {
    ms == [] || ((ms[0].Create? ==> ms[0].id !in t.jobs) && NewIds(Step(t, ms[0]), ms[1..]))
  }

  ghost predicate AllSafe(t: Tables, ms: seq<Micro>)
    decreases |ms|
  {
    ms == [] || (Safe(t, ms[0]) && AllSafe(Step(t, ms[0]), ms[1..]))
  }

  ghost predicate AlwaysOk(t: Tables, ms: seq<Micro>)
    decreases |ms|
  {
    Ok(t) && (ms == [] || AlwaysOk(Step(t, ms[0]), ms[1..]))
  }

  lemma StepIsSafe(t: Tables, m: Micro)
    requires Ok(t) && (m.Create? ==> m.id !in t.jobs)
    ensures Ok(Step(t, m)) <==> Safe(t, m)
  {
    match m {
      case Create(run, task, mandatory, id) => if run in t.runs { CreateKeepsOk(t, run, task, mandatory, id); }
      case Change(id, s) => if TransitionJob(t, id, s).Some? { TransitionKeepsOk(t, id, s); }
    }
    hide Constrained, Gapless, OnlyLatestRuns, Owned, LatestRuns, IsLatest;
  }

  /** MAIN: however the single steps of any callers interleave, the tables stay in order throughout
      exactly if no job is created beside a running latest attempt and only latest attempts are started. */
  lemma {:induction false} StepsStayInOrder(t: Tables, ms: seq<Micro>)
    requires Ok(t) && NewIds(t, ms)
    ensures AlwaysOk(t, ms) <==> AllSafe(t, ms)
    decreases |ms|
  {
    hide Ok, Step, Safe;
    if ms != [] {
      StepIsSafe(t, ms[0]);
      if Ok(Step(t, ms[0])) { StepsStayInOrder(Step(t, ms[0]), ms[1..]); }
    }
  }

  /** Two callers that both looked for the latest attempt before either created one leave two attempts
      of the same task running. */
  lemma InterleavedStartsBothRun(run: string, task: string, client: string, a: string, b: string)
    requires a != b && client != ""
    ensures var t := Tables(map[run := RunRow(client, RunActive)], map[]);
            && Ok(t) && LatestId(t, run, task) == None
            && var one := CreateJob(t, run, task, true, a).value;
            var two := CreateJob(one, run, task, true, b).value;
            var u := Started(Started(Some(two), a), b);
            u.Some? && u.value.jobs[a].status == Running && u.value.jobs[b].status == Running && !Ok(u.value)
  {
    var t := Tables(map[run := RunRow(client, RunActive)], map[]);
    var one := CreateJob(t, run, task, true, a).value;
    var two := CreateJob(one, run, task, true, b).value;
    var u := Started(Started(Some(two), a), b).value;
    assert SameTask(u.jobs[a], u.jobs[b]);
    OnlyOne(u);
  }
}
