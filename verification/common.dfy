/** Failure-carrying values shared by every part of the loan-operations API model.

    The API signals errors by raising exceptions; here every operation that can
    fail returns a `Result`, whose `Err` arm names the kind of failure. */
module Common {

  /** An optional value, standing for a Python `Optional[...]` field. */
  datatype Option<+T> = None | Some(value: T)

  /** The two kinds of failure the API distinguishes.
      - `NotFound`: an `HTTPException` with status 404 and the given detail text.
      - `Raised`: any other exception escaping a collaborator, with its message. */
  datatype Error = NotFound(detail: string) | Raised(message: string)

  /** Either a value or the failure that prevented it. */
  datatype Result<+T> = Ok(value: T) | Err(error: Error)

  /** The HTTP status code with which the failure reaches a client. */
  function StatusCode(e: Error): nat
  {
    match e
    case NotFound(_) => 404
    case Raised(_) => 500
  }

  /** The text `str(e)` gives for the exception: the web framework renders an
      HTTP exception as its status code, a colon, and its detail. */
  function Describe(e: Error): string
  {
    match e
    case NotFound(d) => "404: " + d
    case Raised(m) => m
  }

  /** True when `suffix` is a suffix of `s`. */
  predicate EndsWith(s: string, suffix: string)
  {
    |suffix| <= |s| && s[|s| - |suffix|..] == suffix
  }

  /** True when `prefix` is a prefix of `s`. */
  predicate StartsWith(s: string, prefix: string)
  {
    |prefix| <= |s| && s[..|prefix|] == prefix
  }

  /** True when no element of `s` occurs twice. */
  predicate Distinct<T(==)>(s: seq<T>)
  {
    forall i, j :: 0 <= i < j < |s| ==> s[i] != s[j]
  }
}
