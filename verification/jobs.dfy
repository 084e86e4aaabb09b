/** The in-memory job store of the asynchronous path and the lifecycle of one
    job: submitted as pending, moved to processing by the background run, and
    finished as completed (with the response) or failed (with the error text).

    The store is a map from job id to job record, passed through pure
    transition functions; each transition is one atomic step. Fresh job ids
    are chosen by the caller, which must pick one not already in the store. */
module Jobs {
  import opened Common
  import opened LoanFiles
  import opened LoanProcessing

  datatype Status = Pending | Processing | Completed | Failed

  /** The status as the API spells it. */
  function Label(s: Status): string
  {
    match s
    case Pending => "pending"
    case Processing => "processing"
    case Completed => "completed"
    case Failed => "failed"
  }

  /** Position of a status along the lifecycle. */
  function Rank(s: Status): nat
  {
    match s
    case Pending => 0
    case Processing => 1
    case Completed => 2
    case Failed => 2
  }

  predicate Terminal(s: Status)
  {
    s == Completed || s == Failed
  }

  /** One job record. `result` holds the response of a completed run, `error`
      the message of a failed one; `completedAt` is stamped when it ends. */
  datatype Job = Job(
    jobId: string,
    loanId: string,
    status: Status,
    result: Option<ProcessResponse>,
    error: Option<string>,
    createdAt: string,
    completedAt: Option<string>)

  type Store = map<string, Job>

  /** The lifecycle invariant of a record: nothing is filled in before the
      job ends, and an ended job carries exactly one of result and error,
      matching its status, and its completion time. */
  predicate WellFormed(j: Job)
  {
    match j.status
    case Pending => j.result.None? && j.error.None? && j.completedAt.None?
    case Processing => j.result.None? && j.error.None? && j.completedAt.None?
    case Completed => j.result.Some? && j.error.None? && j.completedAt.Some?
    case Failed => j.result.None? && j.error.Some? && j.completedAt.Some?
  }

  /** Every record is filed under its own id and is well formed. */
  predicate Consistent(store: Store)
  {
    forall id :: id in store ==> store[id].jobId == id && WellFormed(store[id])
  }

  // ---------------------------------------------------------------------------
  // Submission and lookup
  // ---------------------------------------------------------------------------

  const SubmittedMessage: string := "Job submitted. Poll /api/v1/jobs/{job_id} for status."

  datatype AsyncResponse = AsyncResponse(jobId: string, loanId: string, status: string, message: string)

  /** The store after a submission, and the response to the submitter. */
  datatype Submission = Submission(store: Store, response: Result<AsyncResponse>)

  /** A newly submitted job: pending, with nothing filled in yet. */
  function NewJob(jobId: string, loanId: string, createdAt: string): Job
  {
    Job(jobId, loanId, Pending, None, None, createdAt, None)
  }

  /** Submits a loan for asynchronous processing. The loan's file must
      resolve; otherwise the submission fails with 404 before the store is
      touched. On success exactly one pending record is added, under the
      fresh id, and the response reports it as pending. */
  function SubmitAsync(loansRoot: string, loans: Dir, store: Store, loanId: string, freshId: string, now: string)
    : (s: Submission)
    requires freshId !in store
    ensures s.response.Err? <==> ResolveLoanPath(loansRoot, loans, loanId).Err?
    ensures s.response.Err? ==>
              s.store == store && s.response.error == NotFound(LoanNotFoundDetail(loanId))
    ensures s.response.Ok? ==>
              && s.store.Keys == store.Keys + {freshId}
              && |s.store| == |store| + 1
              && (forall id :: id in store ==> s.store[id] == store[id])
              && s.store[freshId].jobId == freshId
              && s.store[freshId].loanId == loanId
              && s.store[freshId].status == Pending
              && s.store[freshId].result.None?
              && s.store[freshId].error.None?
              && s.store[freshId].completedAt.None?
              && s.store[freshId].createdAt == now
              && s.response.value == AsyncResponse(freshId, loanId, Label(Pending), SubmittedMessage)
  {
    match ResolveLoanPath(loansRoot, loans, loanId)
    case Err(e) => Submission(store, Err(e))
    case Ok(_) =>
      Submission(store[freshId := NewJob(freshId, loanId, now)],
                 Ok(AsyncResponse(freshId, loanId, Label(Pending), SubmittedMessage)))
  }

  function JobNotFoundDetail(jobId: string): string
  {
    "Job not found: " + jobId
  }

  /** Looks a job up: the stored record as it is, or 404 for an unknown id. */
  function GetJobStatus(store: Store, jobId: string): (r: Result<Job>)
    ensures r.Err? <==> jobId !in store
    ensures r.Ok? ==> r.value == store[jobId]
    ensures r.Err? ==> r.error == NotFound(JobNotFoundDetail(jobId)) && StatusCode(r.error) == 404
  {
    if jobId in store then Ok(store[jobId]) else Err(NotFound(JobNotFoundDetail(jobId)))
  }

  // ---------------------------------------------------------------------------
  // The background run
  // ---------------------------------------------------------------------------

  /** First step of the background run: the job's status becomes processing.
      An id missing from the store makes the run stop without effect. */
  function MarkProcessing(store: Store, jobId: string): (s: Store)
    ensures s.Keys == store.Keys
    ensures forall id :: id in store && id != jobId ==> s[id] == store[id]
    ensures jobId in store ==> s[jobId] == store[jobId].(status := Processing)
  {
    if jobId in store then store[jobId := store[jobId].(status := Processing)] else store
  }

  /** Last step of the background run: a successful run completes the job
      with its response, a failed one fails it with the error text; both stamp
      the completion time and leave the other field as it was. */
  function RecordOutcome(store: Store, jobId: string, outcome: Result<ProcessResponse>, finishedAt: string)
    : (s: Store)
    ensures s.Keys == store.Keys
    ensures forall id :: id in store && id != jobId ==> s[id] == store[id]
    ensures jobId in store && outcome.Ok? ==>
              s[jobId] == store[jobId].(status := Completed, result := Some(outcome.value),
                                        completedAt := Some(finishedAt))
    ensures jobId in store && outcome.Err? ==>
              s[jobId] == store[jobId].(status := Failed, error := Some(Describe(outcome.error)),
                                        completedAt := Some(finishedAt))
  {
    if jobId !in store then store
    else
      var j := store[jobId];
      match outcome
      case Ok(response) =>
        store[jobId := j.(status := Completed, result := Some(response), completedAt := Some(finishedAt))]
      case Err(e) =>
        store[jobId := j.(status := Failed, error := Some(Describe(e)), completedAt := Some(finishedAt))]
  }

  /** The whole background run of a job: mark it processing, process the loan
      synchronously, and record the outcome. Only the job's own record
      changes; it ends completed exactly when every step of the run succeeds. */
  function RunInBackground(env: Env, store: Store, jobId: string, loanId: string, verbose: bool,
                           timing: Timing, finishedAt: string): (s: Store)
    ensures s.Keys == store.Keys
    ensures forall id :: id in store && id != jobId ==> s[id] == store[id]
    ensures jobId in store ==>
              && s[jobId].jobId == store[jobId].jobId
              && s[jobId].loanId == store[jobId].loanId
              && s[jobId].createdAt == store[jobId].createdAt
              && s[jobId].completedAt == Some(finishedAt)
              && (s[jobId].status == Completed <==> RunsToCompletion(env, loanId, verbose, timing))
              && (s[jobId].status == Failed <==> !RunsToCompletion(env, loanId, verbose, timing))
    ensures jobId in store && RunsToCompletion(env, loanId, verbose, timing) ==>
              s[jobId].result == Some(ProcessLoan(env, loanId, verbose, timing).value)
              && s[jobId].result.value.status == CompletedLabel
              && s[jobId].error == store[jobId].error
    ensures jobId in store && !RunsToCompletion(env, loanId, verbose, timing) ==>
              s[jobId].error == Some(Describe(ProcessLoan(env, loanId, verbose, timing).error))
              && s[jobId].result == store[jobId].result
  {
    RecordOutcome(MarkProcessing(store, jobId), jobId, ProcessLoan(env, loanId, verbose, timing), finishedAt)
  }

  // ---------------------------------------------------------------------------
  // The lifecycle invariant
  // ---------------------------------------------------------------------------

  /** A submission keeps the store consistent. */
  lemma SubmitKeepsConsistent(loansRoot: string, loans: Dir, store: Store, loanId: string, freshId: string, now: string)
    requires freshId !in store
    requires Consistent(store)
    ensures Consistent(SubmitAsync(loansRoot, loans, store, loanId, freshId, now).store)
  {
  }

  /** A background run of a pending job keeps the store consistent and ends
      the job: completed with a result and no error, or failed with an error
      and no result. */
  lemma BackgroundEndsPendingJob(env: Env, store: Store, jobId: string, loanId: string, verbose: bool,
                                 timing: Timing, finishedAt: string)
    requires Consistent(store)
    requires jobId in store && store[jobId].status == Pending
    ensures var s := RunInBackground(env, store, jobId, loanId, verbose, timing, finishedAt);
            && Consistent(s)
            && Terminal(s[jobId].status)
            && (s[jobId].result.Some? <==> s[jobId].status == Completed)
            && (s[jobId].error.Some? <==> s[jobId].status == Failed)
  {
  }

  // ---------------------------------------------------------------------------
  // Runs of the whole store
  // ---------------------------------------------------------------------------

  /** One atomic step on the store. A submission is taken with the directory
      as it is at that moment; a finish carries what the synchronous run gave. */
  datatype Event =
    | Submit(loansRoot: string, loans: Dir, loanId: string, freshId: string, at: string)
    | Start(jobId: string)
    | Finish(jobId: string, outcome: Result<ProcessResponse>, at: string)

  /** When a step can happen: submissions use fresh ids, and the executor runs
      each job once, starting it while pending and finishing it while
      processing. */
  predicate Enabled(store: Store, e: Event)
  {
    match e
    case Submit(_, _, _, freshId, _) => freshId !in store
    case Start(jobId) => jobId in store && store[jobId].status == Pending
    case Finish(jobId, _, _) => jobId in store && store[jobId].status == Processing
  }

  function Apply(store: Store, e: Event): Store
    requires Enabled(store, e)
  {
    match e
    case Submit(loansRoot, loans, loanId, freshId, at) => SubmitAsync(loansRoot, loans, store, loanId, freshId, at).store
    case Start(jobId) => MarkProcessing(store, jobId)
    case Finish(jobId, outcome, at) => RecordOutcome(store, jobId, outcome, at)
  }

  /** Every step of the sequence is enabled when it is taken. */
  predicate ValidTrace(store: Store, events: seq<Event>)
    decreases |events|
  {
    events == [] || (Enabled(store, events[0]) && ValidTrace(Apply(store, events[0]), events[1..]))
  }

  function Replay(store: Store, events: seq<Event>): Store
    requires ValidTrace(store, events)
    decreases |events|
  {
    if events == [] then store else Replay(Apply(store, events[0]), events[1..])
  }

  /** From `a` to `b` no record is lost, identity fields stay fixed, statuses
      never move backwards, and an ended record never changes again. */
  predicate Progressed(a: Store, b: Store)
  {
    forall id :: id in a ==>
      && id in b
      && b[id].jobId == a[id].jobId
      && b[id].loanId == a[id].loanId
      && b[id].createdAt == a[id].createdAt
      && Rank(a[id].status) <= Rank(b[id].status)
      && (Terminal(a[id].status) ==> b[id] == a[id])
  }

  /** Progress composes: a store that progressed twice progressed from the
      first to the last. */
  lemma ProgressedTransitive(a: Store, b: Store, c: Store)
    requires Progressed(a, b) && Progressed(b, c)
    ensures Progressed(a, c)
  {
  }

  /** Starting a pending job changes only its status, one step forward. */
  lemma StartKeepsConsistent(store: Store, jobId: string)
    requires Consistent(store) && jobId in store && store[jobId].status == Pending
    ensures Consistent(MarkProcessing(store, jobId))
    ensures Progressed(store, MarkProcessing(store, jobId))
  {
  }

  /** Finishing a processing job ends it, completed or failed, and touches no
      other record. */
  lemma FinishKeepsConsistent(store: Store, jobId: string, outcome: Result<ProcessResponse>, at: string)
    requires Consistent(store) && jobId in store && store[jobId].status == Processing
    ensures Consistent(RecordOutcome(store, jobId, outcome, at))
    ensures Progressed(store, RecordOutcome(store, jobId, outcome, at))
  {
  }

  /** One enabled step keeps the store consistent and makes progress. */
  lemma StepKeepsConsistent(store: Store, e: Event)
    requires Consistent(store) && Enabled(store, e)
    ensures Consistent(Apply(store, e))
    ensures Progressed(store, Apply(store, e))
  {
    match e
    case Submit(loansRoot, loans, loanId, freshId, at) =>
      SubmitKeepsConsistent(loansRoot, loans, store, loanId, freshId, at);
    case Start(jobId) =>
      StartKeepsConsistent(store, jobId);
    case Finish(jobId, outcome, at) =>
      FinishKeepsConsistent(store, jobId, outcome, at);
  }

  /** Any run of enabled steps keeps the store consistent, and every record
      present at the start is still there, in the same or a later state. */
  lemma {:induction false} ReplayKeepsConsistent(store: Store, events: seq<Event>)
    requires Consistent(store) && ValidTrace(store, events)
    ensures Consistent(Replay(store, events))
    ensures Progressed(store, Replay(store, events))
    decreases |events|
  {
    if events != [] {
      var next := Apply(store, events[0]);
      StepKeepsConsistent(store, events[0]);
      ReplayKeepsConsistent(next, events[1..]);
      ProgressedTransitive(store, next, Replay(next, events[1..]));
    }
  }

  /** The number of submissions in a run that are accepted: their loan file
      resolves in the directory they see. */
  function AcceptedSubmissions(events: seq<Event>): nat
  {
    if events == [] then 0
    else
      var e := events[0];
      (if e.Submit? && ResolveLoanPath(e.loansRoot, e.loans, e.loanId).Ok? then 1 else 0)
      + AcceptedSubmissions(events[1..])
  }

  /** Records are never removed: a run only adds one record per accepted
      submission, each under a distinct id, so N accepted submissions give N
      more records. */
  lemma {:induction false} ReplayAddsOneRecordPerSubmission(store: Store, events: seq<Event>)
    requires ValidTrace(store, events)
    ensures store.Keys <= Replay(store, events).Keys
    ensures |Replay(store, events)| == |store| + AcceptedSubmissions(events)
    decreases |events|
  {
    if events != [] {
      ReplayAddsOneRecordPerSubmission(Apply(store, events[0]), events[1..]);
    }
  }

  /** Every accepted submission of a run leaves its job in the store at the
      end, where a status read finds it. */
  lemma {:induction false} AcceptedJobsRemain(store: Store, events: seq<Event>, i: nat)
    requires ValidTrace(store, events)
    requires i < |events| && events[i].Submit?
    requires ResolveLoanPath(events[i].loansRoot, events[i].loans, events[i].loanId).Ok?
    ensures events[i].freshId in Replay(store, events)
    ensures GetJobStatus(Replay(store, events), events[i].freshId).Ok?
    decreases |events|
  {
    var next := Apply(store, events[0]);
    if i == 0 {
      ReplayAddsOneRecordPerSubmission(next, events[1..]);
    } else {
      AcceptedJobsRemain(next, events[1..], i - 1);
    }
  }

  /** A status read right after an accepted submission finds the new job
      pending, for the requested loan, with nothing filled in. */
  lemma ReadAfterSubmitIsPending(loansRoot: string, loans: Dir, store: Store, loanId: string, freshId: string, now: string)
    requires freshId !in store
    requires ResolveLoanPath(loansRoot, loans, loanId).Ok?
    ensures GetJobStatus(SubmitAsync(loansRoot, loans, store, loanId, freshId, now).store, freshId)
            == Ok(Job(freshId, loanId, Pending, None, None, now, None))
  {
  }

  /** The background run of a pending job is its start step followed by its
      finish step with the outcome of the synchronous run. */
  lemma BackgroundIsStartThenFinish(env: Env, store: Store, jobId: string, loanId: string, verbose: bool,
                                    timing: Timing, finishedAt: string)
    requires jobId in store && store[jobId].status == Pending
    ensures var events := [Start(jobId), Finish(jobId, ProcessLoan(env, loanId, verbose, timing), finishedAt)];
            && ValidTrace(store, events)
            && Replay(store, events) == RunInBackground(env, store, jobId, loanId, verbose, timing, finishedAt)
  {
    var outcome := ProcessLoan(env, loanId, verbose, timing);
    var events := [Start(jobId), Finish(jobId, outcome, finishedAt)];
    var mid := MarkProcessing(store, jobId);
    assert events[1..] == [Finish(jobId, outcome, finishedAt)];
    assert events[1..][1..] == [];
    assert ValidTrace(mid, events[1..]);
    calc {
      Replay(store, events);
      Replay(mid, events[1..]);
      Replay(RecordOutcome(mid, jobId, outcome, finishedAt), []);
    }
  }

  /** The asynchronous endpoint rejects a loan id exactly when the synchronous
      endpoint answers 404 for it against the same directory, and then with
      the same error. */
  lemma SubmitRejectsIffSyncNotFound(env: Env, store: Store, loanId: string, freshId: string,
                                     verbose: bool, timing: Timing, now: string)
    requires freshId !in store
    ensures var sub := SubmitAsync(env.loansRoot, env.loans, store, loanId, freshId, now);
            var sync := ProcessLoan(env, loanId, verbose, timing);
            && (sub.response.Err? <==> sync.Err? && sync.error.NotFound?)
            && (sub.response.Err? ==> sub.response.error == sync.error)
  {
  }
}
