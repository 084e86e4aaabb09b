/** Synchronous processing of one loan: resolve its file, parse it, run the
    operations workflow on it, write the report, and build the response.

    The parser, the workflow and the report writer are outside collaborators and
    are passed in as total functions; the clock readings of a run are passed in
    already formatted, since date and float formatting are not modelled. */
module LoanProcessing {
  import opened Common
  import opened LoanFiles

  /** Longest result body the response carries unabridged. */
  const SummaryLimit: nat := 500

  /** Appended to a result body cut down to `SummaryLimit` characters. */
  const TruncationMarker: string := "..."

  /** Status label of every response the synchronous path returns. */
  const CompletedLabel: string := "completed"

  /** Appended to the loan id to name its report file. */
  const ReportSuffix: string := "_operations_report.md"

  /** What one run of the workflow gives: the text of its result, or the
      message of the exception it raised. */
  datatype Outcome = Success(body: string) | Failure(message: string)

  /** The workflow, run on a parsed loan with the verbose flag. */
  type Workflow = (Loan, bool) -> Outcome

  /** Writes a report to a path; gives the exception message when it fails. */
  type Writer = (string, string) -> Option<string>

  /** The collaborators and configuration one run sees. */
  datatype Env = Env(
    loansRoot: string,
    outputRoot: string,
    loans: Dir,
    parse: Parser,
    run: Workflow,
    write: Writer)

  /** Clock readings of a run, already rounded and formatted: the duration in
      seconds, the end time as shown in the report header, the duration as
      shown there, and the end time in ISO form. */
  datatype Timing = Timing(
    durationSeconds: real,
    generatedText: string,
    durationText: string,
    processedAt: string)

  datatype ProcessResponse = ProcessResponse(
    loanId: string,
    status: string,
    durationSeconds: real,
    outputFile: Option<string>,
    resultSummary: string,
    processedAt: string)

  /** A report file as written: where, and what. */
  datatype Report = Report(path: string, content: string)

  /** A successful synchronous run: the response and the report it wrote. */
  datatype Processed = Processed(response: ProcessResponse, report: Report)

  /** The excerpt of a result body the response carries: the body itself when
      it is short enough, otherwise its first `SummaryLimit` characters
      followed by the truncation marker. */
  function ResultSummary(body: string): (s: string)
    ensures |body| <= SummaryLimit ==> s == body
    ensures |body| > SummaryLimit ==>
              |s| == SummaryLimit + |TruncationMarker|
              && StartsWith(s, body[..SummaryLimit])
              && EndsWith(s, TruncationMarker)
    ensures |s| <= SummaryLimit + |TruncationMarker|
  {
    if |body| > SummaryLimit then body[..SummaryLimit] + TruncationMarker else body
  }

  /** Summarizing a summary changes nothing: a truncated excerpt is longer than
      the limit, and cutting it again yields the same excerpt. */
  lemma SummaryIdempotent(body: string)
    ensures ResultSummary(ResultSummary(body)) == ResultSummary(body)
  {
    if |body| > SummaryLimit {
      var s := ResultSummary(body);
      assert s[..SummaryLimit] == body[..SummaryLimit];
    }
  }

  /** The excerpt equals the body exactly when the body is within the limit,
      or is already a truncated excerpt (limit plus marker long, ending in
      the marker). */
  lemma SummaryUnchangedIff(body: string)
    ensures ResultSummary(body) == body <==>
              |body| <= SummaryLimit
              || (|body| == SummaryLimit + |TruncationMarker| && EndsWith(body, TruncationMarker))
  {
    if |body| > SummaryLimit && |body| == SummaryLimit + |TruncationMarker| && EndsWith(body, TruncationMarker) {
      assert body == body[..SummaryLimit] + body[SummaryLimit..];
    }
  }

  /** The path of the report for a loan, keyed by the loan's id. */
  function OutputFileFor(outputRoot: string, loanId: string): string
  {
    Join(outputRoot, loanId + ReportSuffix)
  }

  /** Two loans share a report file exactly when they have the same id. */
  lemma OutputFileInjective(outputRoot: string, a: string, b: string)
    ensures OutputFileFor(outputRoot, a) == OutputFileFor(outputRoot, b) <==> a == b
  {
    var p := outputRoot + "/";
    var x := OutputFileFor(outputRoot, a);
    var y := OutputFileFor(outputRoot, b);
    assert x == p + a + ReportSuffix;
    assert y == p + b + ReportSuffix;
    if x == y {
      assert |a| == |b|;
      assert a == x[|p|..|p| + |a|];
      assert b == y[|p|..|p| + |b|];
    }
  }

  const ReportTitle: string := "# Loan Operations Report: "
  const GeneratedLabel: string := "**Generated:** "
  const DurationLabel: string := "**Processing Time:** "
  const DurationUnit: string := " seconds"
  const ReportRule: string := "---\n\n"

  /** The header of a report: the title line naming the loan, then the
      generation time and the duration, each on its own line. */
  function ReportHeader(loanId: string, timing: Timing): string
  {
    ReportTitle + loanId + "\n\n"
    + GeneratedLabel + timing.generatedText + "\n"
    + DurationLabel + timing.durationText + DurationUnit + "\n\n"
  }

  /** The text of a report: its header, a rule, and then the full result body,
      with nothing in between. */
  function ReportContent(loanId: string, timing: Timing, body: string): (c: string)
    ensures StartsWith(c, ReportHeader(loanId, timing))
    ensures EndsWith(c, ReportRule + body)
    ensures |c| == |ReportHeader(loanId, timing)| + |ReportRule + body|
  {
    var lines := ReportHeader(loanId, timing);
    var tail := ReportRule + body;
    assert (lines + tail)[..|lines|] == lines;
    assert (lines + tail)[|lines|..] == tail;
    lines + tail
  }

  /** Given the loan and the timing, the body is read back from a fixed offset
      of the report, so two reports for the same loan and timing are equal
      exactly when their bodies are. */
  lemma ReportReadBack(loanId: string, timing: Timing, body: string, other: string)
    ensures var c := ReportContent(loanId, timing, body);
            c[|ReportHeader(loanId, timing)| + |ReportRule|..] == body
    ensures ReportContent(loanId, timing, body) == ReportContent(loanId, timing, other) <==> body == other
  {
    var h := |ReportHeader(loanId, timing)| + |ReportRule|;
    var c := ReportContent(loanId, timing, body);
    var d := ReportContent(loanId, timing, other);
    assert c[h..] == body;
    if c == d {
      assert d[h..] == other;
    }
  }

  /** Every collaborator of a synchronous run succeeds for this loan id: the
      file resolves, it parses, the workflow succeeds, and the report write
      raises nothing. */
  predicate RunsToCompletion(env: Env, loanId: string, verbose: bool, timing: Timing)
  {
    var path := ResolveLoanPath(env.loansRoot, env.loans, loanId);
    && path.Ok?
    && env.parse(path.value).Parsed?
    && var loan := env.parse(path.value).loan;
    && env.run(loan, verbose).Success?
    && env.write(OutputFileFor(env.outputRoot, loan.loanId),
                 ReportContent(loan.loanId, timing, env.run(loan, verbose).body)).None?
  }

  /** Processes a loan synchronously. Each step's failure stops the run and is
      returned as the error; on success the response is labelled completed,
      names the parsed loan and its report file, and carries the summary of
      the result body, which the report holds in full. */
  function ProcessLoanSync(env: Env, loanId: string, verbose: bool, timing: Timing): (r: Result<Processed>)
    ensures ResolveLoanPath(env.loansRoot, env.loans, loanId).Err? ==>
              r == Err(NotFound(LoanNotFoundDetail(loanId)))
    ensures r.Ok? <==> RunsToCompletion(env, loanId, verbose, timing)
    ensures r.Ok? ==>
              var loan := env.parse(ResolveLoanPath(env.loansRoot, env.loans, loanId).value).loan;
              var body := env.run(loan, verbose).body;
              && r.value.response.loanId == loan.loanId
              && r.value.response.status == CompletedLabel
              && r.value.response.outputFile == Some(OutputFileFor(env.outputRoot, loan.loanId))
              && r.value.response.resultSummary == ResultSummary(body)
              && r.value.response.durationSeconds == timing.durationSeconds
              && r.value.response.processedAt == timing.processedAt
              && r.value.report.path == OutputFileFor(env.outputRoot, loan.loanId)
              && EndsWith(r.value.report.content, ReportRule + body)
              && r.value.report.content == ReportContent(loan.loanId, timing, body)
    ensures ResolveLoanPath(env.loansRoot, env.loans, loanId).Ok? ==>
              var path := ResolveLoanPath(env.loansRoot, env.loans, loanId).value;
              && (env.parse(path).Unparsable? ==> r == Err(Raised(env.parse(path).message)))
              && (env.parse(path).Parsed? && env.run(env.parse(path).loan, verbose).Failure? ==>
                    r == Err(Raised(env.run(env.parse(path).loan, verbose).message)))
              && (env.parse(path).Parsed? && env.run(env.parse(path).loan, verbose).Success? ==>
                    var loan := env.parse(path).loan;
                    var written := env.write(OutputFileFor(env.outputRoot, loan.loanId),
                                             ReportContent(loan.loanId, timing, env.run(loan, verbose).body));
                    written.Some? ==> r == Err(Raised(written.value)))
    ensures r.Err? && r.error.NotFound? <==> ResolveLoanPath(env.loansRoot, env.loans, loanId).Err?
  {
    match ResolveLoanPath(env.loansRoot, env.loans, loanId)
    case Err(e) => Err(e)
    case Ok(path) =>
      match env.parse(path)
      case Unparsable(message) => Err(Raised(message))
      case Parsed(loan) =>
        match env.run(loan, verbose)
        case Failure(message) => Err(Raised(message))
        case Success(body) =>
          var outputFile := OutputFileFor(env.outputRoot, loan.loanId);
          var content := ReportContent(loan.loanId, timing, body);
          match env.write(outputFile, content)
          case Some(message) => Err(Raised(message))
          case None =>
            Ok(Processed(
                 ProcessResponse(
                   loan.loanId,
                   CompletedLabel,
                   timing.durationSeconds,
                   Some(outputFile),
                   ResultSummary(body),
                   timing.processedAt),
                 Report(outputFile, content)))
  }

  /** The synchronous endpoint returns the response of a successful run and
      nothing else: its report is written, its status is completed. */
  function ProcessLoan(env: Env, loanId: string, verbose: bool, timing: Timing): (r: Result<ProcessResponse>)
    ensures r.Ok? <==> RunsToCompletion(env, loanId, verbose, timing)
    ensures r.Ok? ==> r.value.status == CompletedLabel && r.value.outputFile.Some?
    ensures r.Ok? ==> r.value == ProcessLoanSync(env, loanId, verbose, timing).value.response
    ensures r.Err? ==> r.error == ProcessLoanSync(env, loanId, verbose, timing).error
  {
    match ProcessLoanSync(env, loanId, verbose, timing)
    case Err(e) => Err(e)
    case Ok(p) => Ok(p.response)
  }

  /** The synchronous run and the detail endpoint agree: the run stops with
      the detail endpoint's error when that one fails, and otherwise reports
      the same loan id. */
  lemma SyncAgreesWithDetail(env: Env, loanId: string, verbose: bool, timing: Timing)
    ensures GetLoan(env.loansRoot, env.loans, env.parse, loanId).Err? ==>
              ProcessLoanSync(env, loanId, verbose, timing)
              == Err(GetLoan(env.loansRoot, env.loans, env.parse, loanId).error)
    ensures ProcessLoanSync(env, loanId, verbose, timing).Ok? ==>
              GetLoan(env.loansRoot, env.loans, env.parse, loanId).Ok?
              && ProcessLoanSync(env, loanId, verbose, timing).value.response.loanId
                 == GetLoan(env.loansRoot, env.loans, env.parse, loanId).value.loanId
  {
  }
}
