/** The row loop of MapRows and the single-row reduction of MapRow, over a
    cursor given as the sequence of what each `Next`/`Scan` step yields
    followed by the cursor's final error. */
module Mapping {
  import opened Wrappers
  import opened Values
  import opened RowMaps

  /** One step of the cursor: the scanned values of a row, or a Scan error. */
  datatype Step = Scanned(values: seq<Value>) | ScanFailed(reason: string)

  /** The columns of the result, its steps in order, and what `rows.Err`
      reports once `Next` returns false. */
  datatype Cursor = Cursor(columns: seq<string>, steps: seq<Step>, finalErr: Option<string>)

  datatype MapError =
    | ScanError(reason: string)
    | MapperError(reason: string)
    | CursorError(reason: string)

  datatype MapRowError =
    | RowMapperFailed(cause: MapError)
    | TooManyRows(count: nat)

  /** Scan fills one value per column. */
  predicate WellShaped(c: Cursor) {
    forall i :: 0 <= i < |c.steps| && c.steps[i].Scanned? ==> |c.steps[i].values| == |c.columns|
  }

  /** Step i scans and the mapper accepts its row map. */
  predicate RowOk<T>(c: Cursor, f: RowMap -> Result<T, string>, i: nat)
    requires WellShaped(c)
    requires i < |c.steps|
  {
    c.steps[i].Scanned? && f(ToMap(c.columns, c.steps[i].values)).Success?
  }

  /** The error step i stops the loop with. */
  function StepError<T>(c: Cursor, f: RowMap -> Result<T, string>, i: nat): MapError
    requires WellShaped(c)
    requires i < |c.steps| && !RowOk(c, f, i)
  {
    match c.steps[i]
    case ScanFailed(reason) => ScanError(reason)
    case Scanned(values) => MapperError(f(ToMap(c.columns, values)).error)
  }

  /** The mapped value of step i. */
  function MappedAt<T>(c: Cursor, f: RowMap -> Result<T, string>, i: nat): T
    requires WellShaped(c)
    requires i < |c.steps| && RowOk(c, f, i)
  {
    f(ToMap(c.columns, c.steps[i].values)).value
  }

  predicate AllRowsOk<T>(c: Cursor, f: RowMap -> Result<T, string>)
    requires WellShaped(c)
  {
    forall i :: 0 <= i < |c.steps| ==> RowOk(c, f, i)
  }

  /** The whole cursor maps: every step does and `rows.Err` is nil. */
  predicate Completes<T>(c: Cursor, f: RowMap -> Result<T, string>)
    requires WellShaped(c)
  {
    AllRowsOk(c, f) && c.finalErr.None?
  }

  /** Step i is the first whose row does not map. */
  predicate FirstFailing<T>(c: Cursor, f: RowMap -> Result<T, string>, i: nat)
    requires WellShaped(c)
  {
    i < |c.steps| && !RowOk(c, f, i) && forall j :: 0 <= j < i ==> RowOk(c, f, j)
  }

  /** The fail-fast loop of MapRows: scan each row, build its row map and
      map it; the first Scan or mapper error aborts with no partial results,
      and after the last row the cursor's own error is reported. */
  method MapRows<T>(c: Cursor, f: RowMap -> Result<T, string>) returns (r: Result<seq<T>, MapError>)
    requires WellShaped(c)
    ensures r.Success? <==> Completes(c, f)
    ensures r.Success? ==> |r.value| == |c.steps| && forall i :: 0 <= i < |c.steps| ==> r.value[i] == MappedAt(c, f, i)
    ensures r.Failure? && !AllRowsOk(c, f) ==>
              exists i :: FirstFailing(c, f, i) && r.error == StepError(c, f, i)
    ensures r.Failure? && AllRowsOk(c, f) ==> r.error == CursorError(c.finalErr.value)
  {
    var results: seq<T> := [];
    var i := 0;
    while i < |c.steps|
      invariant 0 <= i <= |c.steps|
      invariant |results| == i
      invariant forall j :: 0 <= j < i ==> RowOk(c, f, j) && results[j] == MappedAt(c, f, j)
    {
      match c.steps[i] {
        case ScanFailed(reason) =>
          assert FirstFailing(c, f, i);
          return Failure(ScanError(reason));
        case Scanned(values) =>
          var row := ToMap(c.columns, values);
          match f(row) {
            case Failure(e) =>
              assert FirstFailing(c, f, i);
              return Failure(MapperError(e));
            case Success(t) =>
              results := results + [t];
          }
      }
      i := i + 1;
    }
    match c.finalErr
    case Some(e) =>
      return Failure(CursorError(e));
    case None =>
      return Success(results);
  }

  /** MapRow: the rows of MapRows reduced to at most one. An error from
      MapRows is wrapped; more than one row is an error naming the count;
      no row is a nil result with a nil error. */
  method MapRow<T>(c: Cursor, f: RowMap -> Result<T, string>) returns (r: Result<Option<T>, MapRowError>)
    requires WellShaped(c)
    ensures r.Success? <==> Completes(c, f) && |c.steps| <= 1
    ensures r == Success(None) <==> Completes(c, f) && |c.steps| == 0
    ensures r.Success? && r.value.Some? ==> |c.steps| == 1 && r.value.value == MappedAt(c, f, 0)
    ensures Completes(c, f) && |c.steps| > 1 ==> r == Failure(TooManyRows(|c.steps|))
    ensures !AllRowsOk(c, f) ==>
              r.Failure? && r.error.RowMapperFailed? &&
              exists i :: FirstFailing(c, f, i) && r.error.cause == StepError(c, f, i)
    ensures AllRowsOk(c, f) && c.finalErr.Some? ==> r == Failure(RowMapperFailed(CursorError(c.finalErr.value)))
  {
    var rows := MapRows(c, f);
    match rows
    case Failure(e) =>
      return Failure(RowMapperFailed(e));
    case Success(results) =>
      if |results| > 1 {
        return Failure(TooManyRows(|results|));
      }
      if |results| == 0 {
        return Success(None);
      }
      return Success(Some(results[0]));
  }
}
