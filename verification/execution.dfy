/** Execute as a state machine over the outcomes of the driver calls it
    makes: begin a transaction, run the statement, roll back or commit,
    then read the two result counters. */
module Execution {
  import opened Wrappers

  /** What the driver answers to each call of one run. The counters are
      reported only when the statement ran. */
  datatype Driver = Driver(
    begin: Option<string>,
    exec: Result<Counters, string>,
    commit: Option<string>)

  /** `sql.Result`: each counter read may fail on its own. */
  datatype Counters = Counters(rowsAffected: Result<int, string>, lastInsertId: Result<int, string>)

  datatype Action = Begin | Exec | Rollback | Commit | ReadRowsAffected | ReadLastInsertId

  datatype ExecError =
    | BeginFailed(reason: string)
    | ExecFailed(reason: string)
    | CommitFailed(reason: string)
    | RowsAffectedFailed(reason: string)
    | LastInsertIdFailed(reason: string)

  /** The returned `Result` struct. */
  datatype Summary = Summary(lastInsertId: int, rowsAffected: int)

  datatype Outcome = Outcome(summary: Summary, err: Option<ExecError>, trace: seq<Action>)

  /** One run of Execute. A failed counter read sets that counter to -1;
      the error returned is the LastInsertId error if that read failed, else
      the RowsAffected error if that one did. */
  function Execute(d: Driver): (o: Outcome)
    // the transaction ends exactly once when it was begun
    ensures Commit in o.trace ==> Rollback !in o.trace
    ensures Rollback in o.trace <==> d.begin.None? && d.exec.Failure?
    ensures Commit in o.trace <==> d.begin.None? && d.exec.Success?
    // a failure up to and including the commit returns the zero summary
    ensures d.begin.Some? ==> o == Outcome(Summary(0, 0), Some(BeginFailed(d.begin.value)), [Begin])
    ensures d.begin.None? && d.exec.Failure? ==>
              o.summary == Summary(0, 0) && o.err == Some(ExecFailed(d.exec.error))
    ensures d.begin.None? && d.exec.Success? && d.commit.Some? ==>
              o.summary == Summary(0, 0) && o.err == Some(CommitFailed(d.commit.value))
    // after a successful commit both counters are read
    ensures d.begin.None? && d.exec.Success? && d.commit.None? ==>
              var c := d.exec.value;
              && o.trace == [Begin, Exec, Commit, ReadRowsAffected, ReadLastInsertId]
              && (o.summary.rowsAffected == if c.rowsAffected.Success? then c.rowsAffected.value else -1)
              && (o.summary.lastInsertId == if c.lastInsertId.Success? then c.lastInsertId.value else -1)
              && (c.lastInsertId.Failure? ==> o.err == Some(LastInsertIdFailed(c.lastInsertId.error)))
              && (c.lastInsertId.Success? && c.rowsAffected.Failure? ==> o.err == Some(RowsAffectedFailed(c.rowsAffected.error)))
              && (c.lastInsertId.Success? && c.rowsAffected.Success? ==> o.err.None?)
  {
    if d.begin.Some? then Outcome(Summary(0, 0), Some(BeginFailed(d.begin.value)), [Begin])
    else match d.exec
      case Failure(e) => Outcome(Summary(0, 0), Some(ExecFailed(e)), [Begin, Exec, Rollback])
      case Success(c) =>
        if d.commit.Some? then Outcome(Summary(0, 0), Some(CommitFailed(d.commit.value)), [Begin, Exec, Commit])
        else
          var rowsAffected := if c.rowsAffected.Success? then c.rowsAffected.value else -1;
          var rerr := if c.rowsAffected.Failure? then Some(RowsAffectedFailed(c.rowsAffected.error)) else None;
          var lastInsertId := if c.lastInsertId.Success? then c.lastInsertId.value else -1;
          var err := if c.lastInsertId.Failure? then Some(LastInsertIdFailed(c.lastInsertId.error)) else rerr;
          Outcome(Summary(lastInsertId, rowsAffected), err, [Begin, Exec, Commit, ReadRowsAffected, ReadLastInsertId])
  }
}
