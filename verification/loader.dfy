/**
 The loading run of `Main.main` as a pure fold: the directory entries are
 visited in listing order, every regular file's rows are read, the header
 row is skipped, and each data row is bound, inserted and audit-logged. The
 result is the trace of inserts and log lines together with how the run
 ended. The first fault ends the run and is reported by the catch clause
 that handles it.
 */
module Loader {
  import opened Wrappers
  import opened Faults
  import opened Records

  /** One element of `dir.listFiles()`, as far as the run can tell. */
  datatype Entry =
    | Directory                         // isFile() is false: skipped
    | Unopenable(msg: string)           // new FileReader(file) throws FileNotFoundException
    | Unreadable(msg: string)           // reader.readAll() throws
    | Regular(rows: seq<seq<string>>)   // reader.readAll() returns these rows

  /** What loading the driver, connecting and preparing the insert statement gave. */
  datatype Connection = Connected | NoDriver(msg: string) | Refused(msg: string)

  /** What `executeUpdate` did: inserted the row, or raised an SQL error with this message. */
  datatype UpdateResult = Updated | UpdateError(msg: string)

  /** The libraries a data row goes through. */
  datatype Services = Services(
    parseDate: string -> Option<Timestamp>,            // the "MM/dd/yyyy hh:mm:ss a" format; None on ParseException
    execute: (seq<Record>, Record) -> UpdateResult)    // executeUpdate after the given inserts

  /** Everything the run learns from outside. */
  datatype Env = Env(
    connect: string -> Connection,                     // given the decrypted password
    listing: Option<seq<Entry>>,                       // None when listFiles() returns null
    services: Services)

  /** The state of the run's one connection and its prepared statement. */
  datatype Conn = Open | Closed

  datatype Event =
    | Log(level: Level, msg: string)
    | Insert(record: Record)
    | Report(level: Level, prefix: string, fault: Fault)  // the catch clause's line: prefix, then the exception message

  datatype Outcome = Finished | Aborted(fault: Fault)

  datatype Run = Run(trace: seq<Event>, conn: Conn, outcome: Outcome)

  /** What one data row adds to the trace, and the fault it raised if any. */
  datatype Step = Step(events: seq<Event>, fault: Option<Fault>)

  const ExecutingMsg: string := "Executing DB update"
  // Written as two literals so that the verifier can unfold its first character.
  const ClosingMsg: string := "All records inserted successfully. " + "Closing DB connection.."
  const ClosedMsg: string := "DB connection closed"

  /** The records inserted, in trace order. */
  function Inserts(trace: seq<Event>): seq<Record> {
    if |trace| == 0 then []
    else Inserts(trace[..|trace| - 1]) + (if trace[|trace| - 1].Insert? then [trace[|trace| - 1].record] else [])
  }

  /** `trace` starts with `before`: nothing already logged or inserted is lost. */
  predicate Extends(trace: seq<Event>, before: seq<Event>) {
    |before| <= |trace| && trace[..|before|] == before
  }

  predicate ReportFree(trace: seq<Event>) {
    forall i :: 0 <= i < |trace| ==> !trace[i].Report?
  }

  /**
   One data row (Main.java lines 96-139): parse, bind (which fails on a
   closed statement), log, execute, then write the audit line.
   */
  function RowStep(svc: Services, conn: Conn, history: seq<Record>, values: seq<string>): (s: Step)
    ensures ReportFree(s.events)
    ensures s.fault.None? ==> |s.events| == 3 && s.events[1].Insert?
    ensures s.fault.Some? ==> forall k :: 0 <= k < |s.events| ==> !s.events[k].Insert?
  {
    match ParseRow(svc.parseDate, values)
    case Err(f) => Step([], Some(f))
    case Ok(rec) =>
      if conn == Closed then Step([], Some(StatementClosed))
      else
        match svc.execute(history, rec)
        case UpdateError(msg) => Step([Log(Info, ExecutingMsg)], Some(UpdateFailed(msg)))
        case Updated => Step([Log(Info, ExecutingMsg), Insert(rec), Log(Info, Audit(values))], None)
  }

  /**
   The row loop of one file (lines 85-140). `i` is the source's counter: it
   is 0 only for the first row, which is skipped, and stays 1 afterwards.
   */
  function LoadRows(svc: Services, conn: Conn, rows: seq<seq<string>>, i: nat, trace: seq<Event>): (r: Run)
    ensures r.conn == conn
    ensures Extends(r.trace, trace)
    ensures ReportFree(trace) ==> ReportFree(r.trace)
    decreases |rows|
  {
    if |rows| == 0 then Run(trace, conn, Finished)
    else if i == 0 then LoadRows(svc, conn, rows[1..], i + 1, trace)
    else
      var step := RowStep(svc, conn, Inserts(trace), rows[0]);
      match step.fault
      case Some(f) => Run(trace + step.events, conn, Aborted(f))
      case None => LoadRows(svc, conn, rows[1..], i, trace + step.events)
  }

  /**
   One regular file (lines 83-145): its rows, then the two closing log lines;
   the statement and connection are closed afterwards whatever state they
   were in, since closing a closed JDBC object does nothing.
   */
  function LoadFile(svc: Services, conn: Conn, rows: seq<seq<string>>, trace: seq<Event>): (r: Run)
    ensures r.outcome.Finished? ==> r.conn == Closed
    ensures r.outcome.Aborted? ==> r.conn == conn
    ensures Extends(r.trace, trace)
    ensures ReportFree(trace) ==> ReportFree(r.trace)
  {
    var body := LoadRows(svc, conn, rows, 0, trace);
    if body.outcome.Aborted? then body
    else Run(body.trace + [Log(Info, ClosingMsg), Log(Info, ClosedMsg)], Closed, Finished)
  }

  /** The directory loop (lines 80-147). */
  function LoadEntries(svc: Services, conn: Conn, entries: seq<Entry>, trace: seq<Event>): (r: Run)
    ensures Extends(r.trace, trace)
    ensures ReportFree(trace) ==> ReportFree(r.trace)
    ensures conn == Closed ==> r.conn == Closed
    decreases |entries|
  {
    if |entries| == 0 then Run(trace, conn, Finished)
    else
      match entries[0]
      case Directory => LoadEntries(svc, conn, entries[1..], trace)
      case Unopenable(msg) => Run(trace, conn, Aborted(FileMissing(msg)))
      case Unreadable(msg) => Run(trace, conn, Aborted(ReadFailed(msg)))
      case Regular(rows) =>
        var file := LoadFile(svc, conn, rows, trace);
        if file.outcome.Aborted? then file
        else LoadEntries(svc, file.conn, entries[1..], file.trace)
  }

  /**
   The body of the `try` (lines 54-150): connect, then iterate the listing.
   A null listing is only noticed when the loop starts, after connecting.
   `Closed` after a failed connection means only that there is no usable
   statement: a connection opened before `prepareStatement` failed is
   left open, which the model does not track.
   */
  function LoadBody(env: Env, password: string): Run {
    match env.connect(password)
    case NoDriver(msg) => Run([], Closed, Aborted(DriverMissing(msg)))
    case Refused(msg) => Run([], Closed, Aborted(ConnectFailed(msg)))
    case Connected =>
      match env.listing
      case None => Run([], Open, Aborted(NullListing))
      case Some(entries) => LoadEntries(env.services, Open, entries, [])
  }

  /** The whole run: the body, then the one line written by the catch clause that handles its fault. */
  function LoadRun(env: Env, password: string): Run {
    var body := LoadBody(env, password);
    match body.outcome
    case Finished => body
    case Aborted(f) =>
      var h := Handle(f);
      Run(body.trace + [Report(h.level, h.prefix, f)], body.conn, body.outcome)
  }
}
