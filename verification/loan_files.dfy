/** The directory of sample loan files: resolving a loan id to a file, counting
    the files for the health check, and listing or reading loan summaries.

    The directory is a value: either missing, or present with the names of its
    entries in the order the file system lists them. Parsing a loan file is an
    outside collaborator, passed in as a total function from a path to either a
    loan or the exception the parser raised. */
module LoanFiles {
  import opened Common

  /** Extension tried first when resolving a loan id, and matched by the
      `*.json` glob of the health check and the listing. */
  const JsonSuffix: string := ".json"

  /** The sample-loans directory as seen at one moment. */
  datatype Dir = Missing | Present(entries: seq<string>)

  /** True when `<root>/<name>` exists, for a plain entry name. */
  predicate Exists(dir: Dir, name: string)
  {
    dir.Present? && name in dir.entries
  }

  /** The path `<root>/<name>` as a string. */
  function Join(root: string, name: string): string
  {
    root + "/" + name
  }

  /** A parsed loan file: the fields of it the API reads. */
  datatype Loan = Loan(
    loanId: string,
    borrowerName: string,
    loanType: string,
    loanAmount: real,
    fundingStatus: string,
    approvalDate: Option<string>)

  /** What the listing and the detail endpoint return for one loan. */
  datatype LoanSummary = LoanSummary(
    loanId: string,
    borrowerName: string,
    loanType: string,
    loanAmount: real,
    fundingStatus: string,
    approvalDate: Option<string>)

  /** What reading a loan file gives: the loan, or the message of the
      exception the reader raised (a malformed or unreadable file). */
  datatype ParseResult = Parsed(loan: Loan) | Unparsable(message: string)

  /** Reads the loan file at a path. */
  type Parser = string -> ParseResult

  function Summarize(loan: Loan): LoanSummary
  {
    LoanSummary(loan.loanId, loan.borrowerName, loan.loanType,
                loan.loanAmount, loan.fundingStatus, loan.approvalDate)
  }

  // ---------------------------------------------------------------------------
  // Path resolution
  // ---------------------------------------------------------------------------

  /** The names tried for a loan id, in the order they are tried. */
  function Candidates(loanId: string): seq<string>
  {
    [loanId + JsonSuffix, loanId]
  }

  function LoanNotFoundDetail(loanId: string): string
  {
    "Loan file not found: " + loanId
  }

  /** Resolves a loan id to the path of its file: `<id>.json` when that exists,
      otherwise `<id>` when that exists, otherwise a 404 failure. */
  function ResolveLoanPath(root: string, dir: Dir, loanId: string): (r: Result<string>)
    ensures r.Ok? <==> Exists(dir, loanId + JsonSuffix) || Exists(dir, loanId)
    ensures Exists(dir, loanId + JsonSuffix) ==> r == Ok(Join(root, loanId + JsonSuffix))
    ensures !Exists(dir, loanId + JsonSuffix) && Exists(dir, loanId) ==> r == Ok(Join(root, loanId))
    ensures r.Ok? ==> exists n :: n in Candidates(loanId) && Exists(dir, n) && r.value == Join(root, n)
    ensures r.Err? ==> r.error == NotFound(LoanNotFoundDetail(loanId)) && StatusCode(r.error) == 404
  {
    if Exists(dir, loanId + JsonSuffix) then
      assert loanId + JsonSuffix in Candidates(loanId);
      Ok(Join(root, loanId + JsonSuffix))
    else if Exists(dir, loanId) then
      assert loanId in Candidates(loanId);
      Ok(Join(root, loanId))
    else
      Err(NotFound(LoanNotFoundDetail(loanId)))
  }

  /** Reference definition of a lookup in preference order: the first of
      `names` that exists. */
  function FirstExisting(dir: Dir, names: seq<string>): Option<string>
  {
    if names == [] then None
    else if Exists(dir, names[0]) then Some(names[0])
    else FirstExisting(dir, names[1..])
  }

  /** `FirstExisting` finds an existing name exactly when there is one, and
      every name before the one it finds does not exist. */
  lemma {:induction false} FirstExistingIsFirst(dir: Dir, names: seq<string>)
    ensures FirstExisting(dir, names).None? <==> forall i :: 0 <= i < |names| ==> !Exists(dir, names[i])
    ensures FirstExisting(dir, names).Some? ==>
              exists k :: 0 <= k < |names| && names[k] == FirstExisting(dir, names).value
                          && Exists(dir, names[k])
                          && forall i :: 0 <= i < k ==> !Exists(dir, names[i])
    decreases |names|
  {
    if names != [] && !Exists(dir, names[0]) {
      FirstExistingIsFirst(dir, names[1..]);
      if FirstExisting(dir, names[1..]).Some? {
        var k :| 0 <= k < |names[1..]| && names[1..][k] == FirstExisting(dir, names[1..]).value
                 && Exists(dir, names[1..][k])
                 && forall i :: 0 <= i < k ==> !Exists(dir, names[1..][i]);
        assert names[k + 1] == names[1..][k];
        assert forall i :: 0 <= i < k + 1 ==> !Exists(dir, names[i]) by {
          forall i | 0 <= i < k + 1
            ensures !Exists(dir, names[i])
          {
            if i > 0 {
              assert names[i] == names[1..][i - 1];
            }
          }
        }
      } else {
        forall i | 0 <= i < |names|
          ensures !Exists(dir, names[i])
        {
          if i > 0 {
            assert names[i] == names[1..][i - 1];
          }
        }
      }
    } else if names != [] {
      assert names[0] == FirstExisting(dir, names).value;
    }
  }

  /** Path resolution is the first-existing lookup over the candidate names,
      joined to the directory path. */
  lemma ResolveIsFirstCandidate(root: string, dir: Dir, loanId: string)
    ensures ResolveLoanPath(root, dir, loanId).Ok?
            <==> FirstExisting(dir, Candidates(loanId)).Some?
    ensures FirstExisting(dir, Candidates(loanId)).Some? ==>
              ResolveLoanPath(root, dir, loanId).value
              == Join(root, FirstExisting(dir, Candidates(loanId)).value)
  {
    var c := Candidates(loanId);
    assert c[0] == loanId + JsonSuffix;
    assert c[1..] == [loanId];
    assert c[1..][1..] == [];
    assert FirstExisting(dir, c[1..][1..]) == None;
    assert FirstExisting(dir, c[1..]) == if Exists(dir, loanId) then Some(loanId) else None;
  }

  // ---------------------------------------------------------------------------
  // Counting loan files for the health check
  // ---------------------------------------------------------------------------

  /** True when the `*.json` glob matches the entry name. */
  predicate IsJson(name: string)
  {
    EndsWith(name, JsonSuffix)
  }

  /** Number of listed entries the `*.json` glob matches. */
  function JsonCount(entries: seq<string>): (n: nat)
    ensures n <= |entries|
    ensures n == 0 <== forall i :: 0 <= i < |entries| ==> !IsJson(entries[i])
  {
    if entries == [] then 0
    else JsonCount(entries[..|entries| - 1]) + (if IsJson(entries[|entries| - 1]) then 1 else 0)
  }

  /** The set of json entry names in a listing. */
  function JsonNames(entries: seq<string>): set<string>
  {
    set e | e in entries && IsJson(e)
  }

  /** In a listing without repeated names (as a directory listing is), the
      count is the number of distinct json entry names. */
  lemma {:induction false} JsonCountIsNameCount(entries: seq<string>)
    requires Distinct(entries)
    ensures JsonCount(entries) == |JsonNames(entries)|
    decreases |entries|
  {
    if entries != [] {
      var init := entries[..|entries| - 1];
      var last := entries[|entries| - 1];
      assert entries == init + [last];
      assert Distinct(init);
      JsonCountIsNameCount(init);
      assert last !in init;
      if IsJson(last) {
        assert JsonNames(entries) == JsonNames(init) + {last};
        assert last !in JsonNames(init);
      } else {
        assert JsonNames(entries) == JsonNames(init);
      }
    }
  }

  /** Number of loan files the health check reports. */
  function HealthCount(dir: Dir): (n: nat)
    ensures dir.Missing? ==> n == 0
    ensures dir.Present? && Distinct(dir.entries) ==> n == |JsonNames(dir.entries)|
  {
    match dir
    case Missing => 0
    case Present(entries) =>
      JsonCountWhenDistinct(entries);
      JsonCount(entries)
  }

  /** The count-equals-names fact for any listing, conditional on the listing
      having no repeated names; `HealthCount` uses it for its contract. */
  lemma JsonCountWhenDistinct(entries: seq<string>)
    ensures Distinct(entries) ==> JsonCount(entries) == |JsonNames(entries)|
  {
    if Distinct(entries) {
      JsonCountIsNameCount(entries);
    }
  }

  const HealthyLabel: string := "healthy"
  const ApiVersion: string := "1.0.0"

  datatype HealthResponse = HealthResponse(
    status: string, timestamp: string, version: string, sampleLoansAvailable: nat)

  /** The health endpoint: always healthy, with the fixed API version and the
      number of json files in the sample directory. `now` is the clock
      reading, formatted elsewhere. */
  function HealthCheck(dir: Dir, now: string): (h: HealthResponse)
    ensures h.status == HealthyLabel && h.version == ApiVersion && h.timestamp == now
    ensures dir.Missing? ==> h.sampleLoansAvailable == 0
    ensures dir.Present? && Distinct(dir.entries) ==>
              h.sampleLoansAvailable == |JsonNames(dir.entries)|
  {
    HealthResponse(HealthyLabel, now, ApiVersion, HealthCount(dir))
  }

  // ---------------------------------------------------------------------------
  // Listing and reading loans
  // ---------------------------------------------------------------------------

  /** The listing's contribution of one entry: its summary when it is a json
      file that parses, nothing otherwise. */
  function EntrySummary(root: string, parse: Parser, name: string): seq<LoanSummary>
  {
    if IsJson(name) && parse(Join(root, name)).Parsed? then [Summarize(parse(Join(root, name)).loan)]
    else []
  }

  /** Reference definition of the listing of a present directory. */
  function ListSpec(root: string, parse: Parser, entries: seq<string>): (r: seq<LoanSummary>)
    ensures |r| <= JsonCount(entries)
  {
    if entries == [] then []
    else ListSpec(root, parse, entries[..|entries| - 1]) + EntrySummary(root, parse, entries[|entries| - 1])
  }

  /** A summary is listed exactly when some json entry parses to a loan with
      that summary. */
  lemma {:induction false} ListedIffParsed(root: string, parse: Parser, entries: seq<string>, s: LoanSummary)
    ensures s in ListSpec(root, parse, entries) <==>
              exists e :: e in entries && IsJson(e) && parse(Join(root, e)).Parsed?
                          && s == Summarize(parse(Join(root, e)).loan)
    decreases |entries|
  {
    if entries != [] {
      var init := entries[..|entries| - 1];
      var last := entries[|entries| - 1];
      assert entries == init + [last];
      ListedIffParsed(root, parse, init, s);
      if s in ListSpec(root, parse, entries) {
        if s !in ListSpec(root, parse, init) {
          assert s in EntrySummary(root, parse, last);
          assert last in entries;
        } else {
          var e :| e in init && IsJson(e) && parse(Join(root, e)).Parsed?
                   && s == Summarize(parse(Join(root, e)).loan);
          assert e in entries;
        }
      }
      if exists e :: e in entries && IsJson(e) && parse(Join(root, e)).Parsed?
                     && s == Summarize(parse(Join(root, e)).loan) {
        var e :| e in entries && IsJson(e) && parse(Join(root, e)).Parsed?
                 && s == Summarize(parse(Join(root, e)).loan);
        if e != last {
          assert e in init;
        }
      }
    }
  }

  /** The listing endpoint: the summaries of the json files that parse, in
      directory order; an empty list when the directory is missing. */
  method ListLoans(root: string, dir: Dir, parse: Parser) returns (loans: seq<LoanSummary>)
    ensures dir.Missing? ==> loans == []
    ensures dir.Present? ==> loans == ListSpec(root, parse, dir.entries)
    ensures |loans| <= HealthCount(dir)
  {
    if dir.Missing? {
      return [];
    }
    var entries := dir.entries;
    loans := [];
    var i := 0;
    while i < |entries|
      invariant 0 <= i <= |entries|
      invariant loans == ListSpec(root, parse, entries[..i])
    {
      assert entries[..i + 1][..i] == entries[..i];
      var path := Join(root, entries[i]);
      if IsJson(entries[i]) {
        var parsed := parse(path);
        if parsed.Parsed? {
          loans := loans + [Summarize(parsed.loan)];
        }
      }
      i := i + 1;
    }
    assert entries[..i] == entries;
  }

  /** The detail endpoint: resolve the id, parse the file, summarize it. It
      answers 404 exactly when the id does not resolve; a file that does not
      parse fails with the reader's exception. */
  function GetLoan(root: string, dir: Dir, parse: Parser, loanId: string): (r: Result<LoanSummary>)
    ensures ResolveLoanPath(root, dir, loanId).Err? ==> r == Err(NotFound(LoanNotFoundDetail(loanId)))
    ensures r.Err? && r.error.NotFound? <==> ResolveLoanPath(root, dir, loanId).Err?
    ensures r.Ok? <==> ResolveLoanPath(root, dir, loanId).Ok?
                       && parse(ResolveLoanPath(root, dir, loanId).value).Parsed?
    ensures r.Ok? ==> r.value == Summarize(parse(ResolveLoanPath(root, dir, loanId).value).loan)
    ensures ResolveLoanPath(root, dir, loanId).Ok?
            && parse(ResolveLoanPath(root, dir, loanId).value).Unparsable? ==>
              r == Err(Raised(parse(ResolveLoanPath(root, dir, loanId).value).message))
              && StatusCode(r.error) == 500
  {
    match ResolveLoanPath(root, dir, loanId)
    case Err(e) => Err(e)
    case Ok(path) =>
      match parse(path)
      case Unparsable(message) => Err(Raised(message))
      case Parsed(loan) => Ok(Summarize(loan))
  }

  /** A loan the detail endpoint finds through its `<id>.json` file is also in
      the listing of the same directory. */
  lemma GetLoanIsListed(root: string, dir: Dir, parse: Parser, loanId: string)
    requires Exists(dir, loanId + JsonSuffix)
    requires GetLoan(root, dir, parse, loanId).Ok?
    ensures GetLoan(root, dir, parse, loanId).value in ListSpec(root, parse, dir.entries)
  {
    var e := loanId + JsonSuffix;
    assert e[|e| - |JsonSuffix|..] == JsonSuffix;
    assert IsJson(e);
    ListedIffParsed(root, parse, dir.entries, GetLoan(root, dir, parse, loanId).value);
  }
}
