/**
 The order of the run's log: an insert is always announced by the
 "Executing DB update" line and followed by its audit line, and an audit
 line is only ever written directly after an insert.
 */
module LogOrder {
  import opened Faults
  import opened Records
  import opened Loader

  /** An informational line that starts like an audit line. */
  predicate IsAuditLine(e: Event) {
    e.Log? && e.level == Info && AuditPrefix <= e.msg
  }

  predicate InsertsAnnounced(t: seq<Event>) {
    forall q :: 0 <= q < |t| && t[q].Insert? ==>
      0 < q < |t| - 1 && t[q - 1] == Log(Info, ExecutingMsg) && IsAuditLine(t[q + 1])
  }

  predicate AuditsFollowInserts(t: seq<Event>) {
    forall q :: 0 <= q < |t| && IsAuditLine(t[q]) ==> 0 < q && t[q - 1].Insert?
  }

  predicate Ordered(t: seq<Event>) {
    InsertsAnnounced(t) && AuditsFollowInserts(t)
  }

  /** Two ordered pieces of log make an ordered log. */
  lemma OrderedAppend(a: seq<Event>, b: seq<Event>)
    requires Ordered(a) && Ordered(b)
    ensures Ordered(a + b)
  {
    var t := a + b;
    forall q | 0 <= q < |t| && t[q].Insert?
      ensures 0 < q < |t| - 1 && t[q - 1] == Log(Info, ExecutingMsg) && IsAuditLine(t[q + 1])
    {
      if q < |a| {
        assert a[q].Insert?;
      } else {
        assert b[q - |a|].Insert?;
      }
    }
    forall q | 0 <= q < |t| && IsAuditLine(t[q])
      ensures 0 < q && t[q - 1].Insert?
    {
      if q < |a| {
        assert IsAuditLine(a[q]);
      } else {
        assert IsAuditLine(b[q - |a|]);
      }
    }
  }

  /** None of the fixed informational lines can be mistaken for an audit line. */
  lemma FixedLinesAreNotAudits()
    ensures !IsAuditLine(Log(Info, ExecutingMsg))
    ensures !IsAuditLine(Log(Info, ClosingMsg))
    ensures !IsAuditLine(Log(Info, ClosedMsg))
  {
    assert AuditPrefix[0] == 'I';
    assert ExecutingMsg[0] == 'E';
    assert ClosingMsg[0] == 'A';
    assert ClosedMsg[0] == 'D';
  }

  lemma RowStepOrdered(svc: Services, conn: Conn, history: seq<Record>, values: seq<string>)
    ensures Ordered(RowStep(svc, conn, history, values).events)
  {
    FixedLinesAreNotAudits();
    assert AuditPrefix <= Audit(values);
  }

  lemma {:induction false} RowsOrdered(svc: Services, conn: Conn, rows: seq<seq<string>>, i: nat, trace: seq<Event>)
    requires Ordered(trace)
    ensures Ordered(LoadRows(svc, conn, rows, i, trace).trace)
    decreases |rows|
  {
    if |rows| > 0 {
      if i == 0 {
        RowsOrdered(svc, conn, rows[1..], i + 1, trace);
      } else {
        var step := RowStep(svc, conn, Inserts(trace), rows[0]);
        RowStepOrdered(svc, conn, Inserts(trace), rows[0]);
        OrderedAppend(trace, step.events);
        if step.fault.None? {
          RowsOrdered(svc, conn, rows[1..], i, trace + step.events);
        }
      }
    }
  }

  lemma FileOrdered(svc: Services, conn: Conn, rows: seq<seq<string>>, trace: seq<Event>)
    requires Ordered(trace)
    ensures Ordered(LoadFile(svc, conn, rows, trace).trace)
  {
    var body := LoadRows(svc, conn, rows, 0, trace);
    RowsOrdered(svc, conn, rows, 0, trace);
    if body.outcome.Finished? {
      FixedLinesAreNotAudits();
      OrderedAppend(body.trace, [Log(Info, ClosingMsg), Log(Info, ClosedMsg)]);
    }
  }

  lemma {:induction false} EntriesOrdered(svc: Services, conn: Conn, entries: seq<Entry>, trace: seq<Event>)
    requires Ordered(trace)
    ensures Ordered(LoadEntries(svc, conn, entries, trace).trace)
    decreases |entries|
  {
    if |entries| > 0 {
      match entries[0]
      case Directory =>
        EntriesOrdered(svc, conn, entries[1..], trace);
      case Unopenable(_) =>
      case Unreadable(_) =>
      case Regular(rows) =>
        var file := LoadFile(svc, conn, rows, trace);
        FileOrdered(svc, conn, rows, trace);
        if file.outcome.Finished? {
          EntriesOrdered(svc, file.conn, entries[1..], file.trace);
        }
    }
  }

  /**
   In every run, each insert at position q comes directly after the
   "Executing DB update" line and directly before an audit line, and every
   informational line that starts with "Inserted record: " comes directly
   after an insert: the audit line is only written once executeUpdate has
   succeeded.
   */
  lemma AuditFollowsInsert(env: Env, password: string)
    ensures var t := LoadRun(env, password).trace;
      forall q :: 0 <= q < |t| && t[q].Insert? ==>
        0 < q < |t| - 1 && t[q - 1] == Log(Info, ExecutingMsg)
        && t[q + 1].Log? && t[q + 1].level == Info && AuditPrefix <= t[q + 1].msg
    ensures var t := LoadRun(env, password).trace;
      forall q :: 0 <= q < |t| && t[q].Log? && t[q].level == Info && AuditPrefix <= t[q].msg ==>
        0 < q && t[q - 1].Insert?
  {
    var body := LoadBody(env, password);
    if env.connect(password).Connected? && env.listing.Some? {
      EntriesOrdered(env.services, Open, env.listing.value, []);
    }
    assert Ordered(body.trace);
    if body.outcome.Aborted? {
      var f := body.outcome.fault;
      OrderedAppend(body.trace, [Report(Handle(f).level, Handle(f).prefix, f)]);
    }
    assert Ordered(LoadRun(env, password).trace);
  }
}
