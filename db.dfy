/** The database helper: normalising a backend query response into a tagged
    `DbResult`, and unwrapping such a result into its data or a thrown error.
    The awaited query is modelled as the response value it resolves to. */
module Db {
  import opened Wrappers
  import opened JsString

  /** A backend (PostgREST) error record; `None` in `details`/`hint` is `null`. */
  datatype BackendError = BackendError(code: string, message: string, details: Option<string>, hint: Option<string>)

  /** The awaited `{ data, error }` response; `error == None` is `error: null`.
      A failed response's `data` is never read, so its value is arbitrary. */
  datatype Response<T> = Response(data: T, error: Option<BackendError>)

  /** `DbFailure`: the backend error tagged with the caller's operation label;
      `None` in `details`/`hint` is a property whose value is `undefined`. */
  datatype DbFailure = DbFailure(code: string, message: string, details: Option<string>, hint: Option<string>, operation: string)

  /** `DbResult<T>`: success carries the data, failure carries a `DbFailure`. */
  datatype DbResult<T> = Success(data: T) | Failure(error: DbFailure) {

    /** The success payload, `None` on the failure variant. A success whose
        payload is itself `null` (a query returning no row) still has
        `Some` here: the variants are told apart by `error` alone. */
    function DataField(): (r: Option<T>)
      ensures r.Some? <==> Success?
      ensures Success? ==> r.value == data
    {
      match this
      case Success(d) => Some(d)
      case Failure(_) => None
    }

    /** The `error` property as a caller sees it: `None` is `null`. */
    function ErrorField(): (r: Option<DbFailure>)
      ensures r.Some? <==> Failure?
      ensures Failure? ==> r.value == error
    {
      match this
      case Success(_) => None
      case Failure(e) => Some(e)
    }
  }

  /** Exactly one variant holds: the payload is there exactly when `error`
      is `null`, and `error` is non-null exactly on failure. */
  lemma ExactlyOneField<T>(r: DbResult<T>)
    ensures r.DataField().Some? != r.ErrorField().Some?
    ensures r.ErrorField().Some? <==> r.Failure?
  {
  }

  /** `normalizeDbError(operation, error)`: code and message copied, a `null`
      details or hint becomes `undefined`, and the operation label attached. */
  function NormalizeDbError(operation: string, e: BackendError): (f: DbFailure)
    ensures f.code == e.code && f.message == e.message
    ensures f.details == e.details && f.hint == e.hint
    ensures f.operation == operation
  {
    DbFailure(e.code, e.message, e.details, e.hint, operation)
  }

  /** The backend error a failure was made from. */
  function BackendErrorOf(f: DbFailure): BackendError {
    BackendError(f.code, f.message, f.details, f.hint)
  }

  /** Normalising loses nothing: the backend error and the label can be
      recovered, and every failure is the normalisation of its own parts. */
  lemma NormalizeDbErrorRoundTrip(operation: string, e: BackendError, f: DbFailure)
    ensures BackendErrorOf(NormalizeDbError(operation, e)) == e
    ensures NormalizeDbError(operation, e).operation == operation
    ensures NormalizeDbError(f.operation, BackendErrorOf(f)) == f
  {
  }

  /** `runDb(operation, query)` on the awaited response: a response with an
      error becomes a failure tagged with `operation`; otherwise the data is
      passed through unchanged. */
  function RunDb<T>(operation: string, response: Response<T>): (r: DbResult<T>)
    ensures r.Failure? <==> response.error.Some?
    ensures r.Failure? ==> r.DataField() == None && r.error == NormalizeDbError(operation, response.error.value)
    ensures r.Success? ==> r.data == response.data && r.ErrorField() == None
  {
    if response.error.Some? then Failure(NormalizeDbError(operation, response.error.value))
    else Success(response.data)
  }

  /** A failure produced by `runDb` carries exactly the caller's label and
      the backend's code and message. */
  lemma RunDbLabelsFailure<T>(operation: string, response: Response<T>)
    requires response.error.Some?
    ensures RunDb(operation, response).ErrorField().Some?
    ensures var f := RunDb(operation, response).ErrorField().value;
            f.operation == operation && BackendErrorOf(f) == response.error.value
  {
  }

  /** The ` (code: …)` suffix of an unwrapped error, empty when the code is. */
  function CodeSuffix(code: string): string {
    if code != "" then " (code: " + code + ")" else ""
  }

  /** The message thrown by `unwrapDb` for a failure. */
  function FailureMessage(f: DbFailure): string {
    "[" + f.operation + "] " + f.message + CodeSuffix(f.code)
  }

  /** `unwrapDb(result)`: the data itself on success; on failure, a thrown
      error with the message `[operation] message`, followed by
      ` (code: code)` when the code is non-empty. */
  function UnwrapDb<T>(result: DbResult<T>): (r: Result<T, string>)
    ensures r.Ok? <==> result.Success?
    ensures r.Ok? ==> r.value == result.data
    ensures r.Err? ==> r.error == FailureMessage(result.error)
  {
    match result
    case Success(d) => Ok(d)
    case Failure(f) => Err(FailureMessage(f))
  }

  /** Shape of the message: it starts with `[operation] message`, and the
      code suffix is appended if and only if the code is non-empty. */
  lemma FailureMessageShape(f: DbFailure)
    ensures var head := "[" + f.operation + "] " + f.message;
            var m := FailureMessage(f);
            && |head| <= |m| && m[..|head|] == head
            && (m == head <==> f.code == "")
            && (f.code != "" ==> m == head + " (code: " + f.code + ")")
  {
    var head := "[" + f.operation + "] " + f.message;
    var m := FailureMessage(f);
    assert m == head + CodeSuffix(f.code);
    if f.code != "" {
      assert |m| > |head|;
    }
  }

  /** The label between the leading `[` and the first `]` of a message. */
  function LabelOf(m: string): (r: Option<string>)
    ensures r.Some? ==> |r.value| + 2 <= |m| && m[0] == '[' && m[|r.value| + 1] == ']'
    ensures r.Some? ==> ']' !in r.value && r.value == m[1..|r.value| + 1]
  {
    if m != [] && m[0] == '[' then
      var n := LabelLength(m[1..]);
      if n < |m| - 1 then Some(m[1..n + 1]) else None
    else None
  }

  /** How many characters of `s` come before its first `]` (`|s|` if none). */
  function LabelLength(s: string): (n: nat)
    ensures n <= |s|
    ensures forall i :: 0 <= i < n ==> s[i] != ']'
    ensures n < |s| ==> s[n] == ']'
  {
    if s == [] || s[0] == ']' then 0 else 1 + LabelLength(s[1..])
  }

  /** `LabelLength` finds the end of a label that has no `]` of its own. */
  lemma {:induction false} LabelLengthOfLabel(op: string, rest: string)
    requires ']' !in op
    ensures LabelLength(op + "]" + rest) == |op|
  {
    if op != [] {
      assert (op + "]" + rest)[1..] == op[1..] + "]" + rest;
      LabelLengthOfLabel(op[1..], rest);
    }
  }

  /** The thrown message identifies the call site: the label of any
      operation with no `]` in it is read back from the message. */
  lemma FailureMessageNamesOperation(f: DbFailure)
    requires ']' !in f.operation
    ensures LabelOf(FailureMessage(f)) == Some(f.operation)
  {
    var m := FailureMessage(f);
    var rest := " " + f.message + CodeSuffix(f.code);
    assert m[1..] == f.operation + "]" + rest;
    LabelLengthOfLabel(f.operation, rest);
    assert m[0] == '[' && |f.operation| < |m| - 1;
    assert m[1..|f.operation| + 1] == f.operation;
  }

  /** A failing response, run and unwrapped, throws a message that starts
      with `[operation] ` and contains the backend message. */
  lemma RunThenUnwrapFailure<T>(operation: string, response: Response<T>)
    requires response.error.Some?
    ensures UnwrapDb(RunDb(operation, response)).Err?
    ensures var m := UnwrapDb(RunDb(operation, response)).error;
            var p := "[" + operation + "] ";
            |p| <= |m| && m[..|p|] == p && Contains(m, response.error.value.message)
  {
    var e := response.error.value;
    var p := "[" + operation + "] ";
    ContainsConcatMiddle(p, e.message, CodeSuffix(e.code));
    assert FailureMessage(NormalizeDbError(operation, e)) == p + e.message + CodeSuffix(e.code);
  }

  /** A successful response, run and unwrapped, returns its data unchanged. */
  lemma RunThenUnwrapSuccess<T>(operation: string, response: Response<T>)
    requires response.error.None?
    ensures UnwrapDb(RunDb(operation, response)) == Ok(response.data)
  {
  }
}
