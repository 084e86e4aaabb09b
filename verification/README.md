# AgenticLoanOperations API core, modelled in Dafny

This project models the job orchestration and loan-file handling of the
AgenticLoanOperations REST API (`src/api/main.py`). The API runs a multi-agent
"loan operations" workflow on a loan file. It has two paths:

- a synchronous path, which runs the workflow and returns a response;
- an asynchronous path, which records a job in an in-memory store, runs the
  workflow in the background, and lets clients poll the job.

The model is functional. Everything the API reads from outside is a value or a
total function passed in:

- the sample-loans directory is `Dir` (missing, or present with its entry names
  in listing order);
- the loan parser is `Parser`, from a path to a loan or the message of the
  exception it raised;
- the workflow is `Workflow`, from a loan and the verbose flag to
  `Success(body)` or `Failure(message)`;
- the report writer is `Writer`, from a path and a text to an optional error;
- the clock readings are `Timing`, already rounded and formatted.

Raised exceptions become `Result` values. `NotFound` stands for the 404
`HTTPException`, and `Raised` for any other exception.

Modules:

- `Common` (`common.dfy`): `Option`, `Result`, `Error`, and string predicates.
- `LoanFiles` (`loan_files.dfy`): loan-id to path resolution, the health-check
  count, the loan listing, and the loan detail lookup.
- `LoanProcessing` (`processing.dfy`): the synchronous run. This covers summary
  truncation, the report path and text, and the response.
- `Jobs` (`jobs.dfy`): the job store (`map<string, Job>`), submission, lookup,
  the background run and the lifecycle invariant. It also models runs of the
  store as sequences of atomic `Submit`/`Start`/`Finish` steps.

Where the code departs from the documented design of the service, the model
follows the code:

- The background run sets `processing`, `completed` or `failed` without checking
  the record's current status. `MarkProcessing` and `RecordOutcome` do the same.
  The lifecycle lemmas hold because the executor runs each submitted job once,
  at some point after its submission, starting it before finishing it. The
  executor has three workers, so a job may wait in its queue while other jobs
  run, and steps of different jobs interleave. That discipline is the enabling
  condition of each step (`Jobs.Enabled`).
- The health count counts every entry the `*.json` glob matches, including files
  that do not parse. Only the listing skips unparseable files.
- The synchronous response and its report file are keyed by the `loan_id` read
  from the parsed file. The id in the request is not used for either, so the two
  can differ.
- A failed job's error text is `str(e)`. For the 404 exception raised when the
  file no longer resolves at run time, the web framework renders `str(e)` as
  `"404: "` followed by the detail (`Common.Describe`).

## Model

| member | source | states |
|---|---|---|
| LoanFiles.ResolveLoanPath | src/api/main.py:142-154 | `<id>.json` is preferred when it exists, then `<id>`; otherwise it fails with 404 and the detail `Loan file not found: <id>`. Any returned path is the directory joined with an existing candidate name. |
| LoanFiles.FirstExistingIsFirst | src/api/main.py:142-154 | The reference lookup in preference order finds a name exactly when one exists, and every name before the one it finds does not exist. |
| LoanFiles.ResolveIsFirstCandidate | src/api/main.py:142-154 | Resolution equals the first existing name of `[<id>.json, <id>]`, joined to the directory; it succeeds exactly when that lookup finds one. |
| LoanFiles.JsonCount | src/api/main.py:213 | The number of glob matches is at most the number of entries, and is 0 when no entry ends in `.json`. |
| LoanFiles.JsonCountIsNameCount | src/api/main.py:212-213 | For a listing without repeated names, the count equals the number of distinct entry names ending in `.json`. |
| LoanFiles.HealthCount | src/api/main.py:212-213 | The count is 0 for a missing directory, and otherwise, for a listing without repeated names, the number of distinct `.json` entry names. |
| LoanFiles.HealthCheck | src/api/main.py:209-220 | The response is always `healthy`, with version `1.0.0`, the current time, and the `.json` file count (0 when the directory is missing; for a listing without repeated names, the number of distinct `.json` entry names). |
| LoanFiles.ListSpec | src/api/main.py:226-245 | The reference listing never has more entries than the health count, because it skips non-json and unparseable entries. |
| LoanFiles.ListedIffParsed | src/api/main.py:230-245 | A summary is listed exactly when some `.json` entry parses to a loan with that summary. |
| LoanFiles.ListLoans | src/api/main.py:223-245 | The listing loop builds the reference listing in directory order, gives `[]` for a missing directory, and has at most as many entries as the health count. |
| LoanFiles.GetLoan | src/api/main.py:248-261 | The detail lookup gives 404 exactly when the id does not resolve. A file that does not parse fails with the reader's exception (a 500). It succeeds exactly when the file resolves and parses, and then returns that loan's summary. |
| LoanFiles.GetLoanIsListed | src/api/main.py:248-261 | A loan the detail lookup finds through its `<id>.json` file is also in the listing of the same directory. |
| LoanProcessing.ResultSummary | src/api/main.py:185 | A body of at most 500 characters is returned unchanged. A longer body gives 503 characters: its first 500, then `...`. The result is never longer than 503. |
| LoanProcessing.SummaryIdempotent | src/api/main.py:185 | Summarizing a summary changes nothing. |
| LoanProcessing.SummaryUnchangedIff | src/api/main.py:185 | The summary equals the body exactly when the body has at most 500 characters, or is 503 characters long and ends in `...`. |
| LoanProcessing.OutputFileInjective | src/api/main.py:170-171 | Two loans share a report path `OUTPUT_DIR/<loan_id>_operations_report.md` exactly when their ids are equal. |
| LoanProcessing.ReportContent | src/api/main.py:173-178 | The report starts with the title line naming the loan, then the `**Generated:**` line with the end time and the `**Processing Time:** … seconds` line, and ends with the `---` rule followed by the full result body. Its length is the header's plus the rule-and-body's, so nothing lies between them. |
| LoanProcessing.ReportReadBack | src/api/main.py:173-178 | Given the loan and the timing, the body is read back from a fixed offset of the report, so two reports for the same loan and timing are equal exactly when their bodies are. |
| LoanProcessing.ProcessLoanSync | src/api/main.py:157-187 | The run fails with 404 exactly when the id does not resolve. A parse failure, a workflow failure and a report-write failure each fail with that exception's message (a 500). The run succeeds exactly when resolve, parse, run and write all succeed. On success the status is `completed`, the loan id and report path come from the parsed loan, the summary is the truncated body, and the report written is the header, the rule and the whole body. |
| LoanProcessing.ProcessLoan | src/api/main.py:264-272 | The synchronous endpoint succeeds exactly when the run completes, and then returns the run's response unchanged, with status `completed` and an output file. Otherwise it returns the run's error. |
| LoanProcessing.SyncAgreesWithDetail | src/api/main.py:157-162 | When the detail lookup fails, the synchronous run fails with the same error. When the run succeeds, the detail lookup succeeds and reports the same loan id. |
| Jobs.SubmitAsync | src/api/main.py:275-301 | An unknown loan gives 404 and leaves the store unchanged. A known loan adds exactly one record under the fresh id and leaves all other records as they were. The new record is pending for the requested loan, with no result, error or completion time. The response says `pending`. |
| Jobs.GetJobStatus | src/api/main.py:304-310 | The lookup gives 404 exactly when the id is not in the store. Otherwise it returns the stored record unchanged. |
| Jobs.MarkProcessing | src/api/main.py:192 | Only the job's own status changes, to processing. No record is added or removed. |
| Jobs.RecordOutcome | src/api/main.py:194-202 | On success the job becomes completed, with the response as result and the completion time set. On failure it becomes failed, with `str(e)` as error and the completion time set. Only the job's own record changes. |
| Jobs.RunInBackground | src/api/main.py:190-202 | Only the job's own record changes, and its id, loan and creation time stay the same. It ends completed exactly when the synchronous run succeeds, and failed otherwise, with the result or the error text and the completion time. |
| Jobs.SubmitKeepsConsistent | src/api/main.py:285-291 | A submission keeps every record filed under its own id and well formed. |
| Jobs.BackgroundEndsPendingJob | src/api/main.py:190-202 | A background run of a pending job leaves the store consistent and the job terminal. The result is present exactly when it completed, and the error exactly when it failed. |
| Jobs.StartKeepsConsistent | src/api/main.py:192 | Moving a pending job to processing keeps the store consistent and makes progress. |
| Jobs.FinishKeepsConsistent | src/api/main.py:194-202 | Finishing a processing job keeps the store consistent and makes progress. |
| Jobs.StepKeepsConsistent | src/api/main.py:190-202 | Every enabled submit, start or finish step keeps the store consistent and makes progress. |
| Jobs.ReplayKeepsConsistent | src/api/main.py:190-202 | Over any run of enabled steps, no record is lost, ids, loans and creation times stay fixed, statuses never move backwards, and ended records never change. |
| Jobs.ReplayAddsOneRecordPerSubmission | src/api/main.py:283-291 | No record is ever removed, and N accepted submissions add exactly N records. |
| Jobs.AcceptedJobsRemain | src/api/main.py:285-291 | Every accepted submission of a run is still in the store at the end, and a status read finds it. |
| Jobs.ReadAfterSubmitIsPending | src/api/main.py:286-291 | A status read right after an accepted submission returns the new pending record, with nothing filled in. |
| Jobs.SubmitRejectsIffSyncNotFound | src/api/main.py:282-283 | Async submission is rejected exactly when the synchronous endpoint answers 404 for the same id and directory, and then with the same error. |
| Jobs.BackgroundIsStartThenFinish | src/api/main.py:190-202 | The background run of a pending job equals a start step followed by a finish step that carries the synchronous outcome. |

The NotFound behaviour of `SubmitAsync` and `GetJobStatus` is also what
`tests/test_api.py` lines 52-84 check; `Jobs.SubmitRejectsIffSyncNotFound` ties
the synchronous and asynchronous 404 answers together.

## Left out

- HTTP routing, CORS, the lifespan hook and server startup (`main.py` lines
  106-135 and 317-319): transport plumbing with no logic of the core.
- The `ThreadPoolExecutor` with three workers, and thread interleavings. Each
  transition is one atomic step. The source writes status, result and
  completion time as separate assignments, so a concurrent reader could see a
  partly updated record. That interleaving is not modelled.
- `LoanOperationsCrew.run` and `LoanFile.from_json` are outside this model. They
  are the uninterpreted `Workflow` and `Parser` parameters.
- Clock readings, ISO and `strftime` formatting, float duration arithmetic and
  `round`/`:.1f`. `Timing` carries these values already computed, so nothing is
  proved about them (for example, that the duration is not negative).
- The report is modelled as a path and a text passed to an abstract `Writer`.
  The file system effect and the creation of the output directory at startup
  are not modelled.
- UUID generation: the caller supplies the job id, with the precondition that
  it is not already in the store.
- LoanFiles.ResolveLoanPath: the directory is a list of plain entry names.
  pathlib's handling of ids that are empty, `.` or `..`, or that contain `/`
  (which would name the directory itself or other paths) is not modelled.
  Existence is a membership test that never fails. `Path.exists()` re-raises
  stat errors other than "no such file" (a name longer than the 255-byte limit,
  a permission error); the source then answers 500 and files no job, where the
  model answers 404. A dangling symbolic link is counted by the glob but does
  not exist for `exists()`; the model treats every entry as existing. Neither
  is modelled.
- LoanFiles.GetLoan: its 404-exactly-when-unresolved claim carries the
  limits of `ResolveLoanPath` above (stat errors and dangling links).
- Jobs.SubmitAsync: its 404 claim carries the same limits of
  `ResolveLoanPath`.
- LoanFiles.JsonCount: the glob is modelled as "name ends in `.json`", matched
  case-sensitively over the directory entries. File kinds (file or
  sub-directory) are not distinguished.
- LoanProcessing.OutputFileInjective: the report path is modelled as the
  output directory, `/`, and the file name, joined as strings. The source joins
  them with pathlib, using the id read from the loan file. pathlib drops `.`
  components and repeated slashes, and an absolute id replaces the output
  directory. So the claim holds only for loan ids that contain no `/`: `./L1`
  and `L1` write the same file, and `/tmp/x` writes outside the output
  directory.
- LoanProcessing.ProcessLoanSync: the `outputFile` it states is the string join
  above. It equals the path pathlib builds only for a normalized output
  directory and loan ids without `/`: pathlib drops a trailing `/` or a
  leading `./` of the output directory, which the join keeps (`output/` gives
  `output//L1_operations_report.md`). Its 404 claim carries the limits of
  `ResolveLoanPath` above (stat errors and dangling links).
- The `verbose` flag is only passed through to the workflow.
- `run_test.py` calls the external workflow and prints its output. It has no
  logic to model.
