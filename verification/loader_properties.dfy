/** What the loading run guarantees, stated over every environment. */
module LoaderProperties {
  import opened Wrappers
  import opened Faults
  import opened Records
  import opened Loader

  lemma {:induction false} InsertsAppend(a: seq<Event>, b: seq<Event>)
    ensures Inserts(a + b) == Inserts(a) + Inserts(b)
    decreases |b|
  {
    if |b| == 0 {
      assert a + b == a;
    } else {
      assert (a + b)[..|a + b| - 1] == a + b[..|b| - 1];
      InsertsAppend(a, b[..|b| - 1]);
    }
  }

  lemma {:induction false} InsertsOfInsertFree(trace: seq<Event>)
    requires forall k :: 0 <= k < |trace| ==> !trace[k].Insert?
    ensures Inserts(trace) == []
    decreases |trace|
  {
    if |trace| > 0 {
      InsertsOfInsertFree(trace[..|trace| - 1]);
    }
  }

  /** `trace` split at the end of `before`: the inserts already made, then the new ones. */
  lemma InsertsSplit(trace: seq<Event>, before: seq<Event>)
    requires Extends(trace, before)
    ensures Inserts(trace) == Inserts(before) + Inserts(trace[|before|..])
  {
    assert trace == before + trace[|before|..];
    InsertsAppend(before, trace[|before|..]);
  }

  /** A data row inserts exactly its parsed record when it succeeds, and nothing when it faults. */
  lemma RowStepInserts(svc: Services, conn: Conn, history: seq<Record>, values: seq<string>)
    ensures var s := RowStep(svc, conn, history, values);
      s.fault.None? ==>
        conn == Open && ParseRow(svc.parseDate, values).Ok? && Inserts(s.events) == [ParseRow(svc.parseDate, values).value]
    ensures RowStep(svc, conn, history, values).fault.Some? ==> Inserts(RowStep(svc, conn, history, values).events) == []
  {
    var s := RowStep(svc, conn, history, values);
    if s.fault.Some? {
      InsertsOfInsertFree(s.events);
    } else {
      var rec := ParseRow(svc.parseDate, values).value;
      assert s.events == [Log(Info, ExecutingMsg), Insert(rec), Log(Info, Audit(values))];
      var first := [Log(Info, ExecutingMsg)];
      var two := [Log(Info, ExecutingMsg), Insert(rec)];
      assert first[..0] == [];
      assert Inserts(first) == [];
      assert two[..1] == first;
      assert Inserts(two) == [rec];
      assert s.events[..2] == two;
    }
  }

  /** The rows a row loop treats as data: all of them, except the first when the counter is still 0. */
  function DataRows(rows: seq<seq<string>>, i: nat): seq<seq<string>> {
    if i == 0 && |rows| > 0 then rows[1..] else rows
  }

  /** `added` are the parsed records of the first `|added|` data rows, in order. */
  ghost predicate ParsedPrefix(svc: Services, added: seq<Record>, data: seq<seq<string>>) {
    |added| <= |data| && forall k :: 0 <= k < |added| ==> ParseRow(svc.parseDate, data[k]) == Ok(added[k])
  }

  lemma ParsedPrefixCons(svc: Services, rec: Record, added: seq<Record>, row: seq<string>, data: seq<seq<string>>)
    requires ParseRow(svc.parseDate, row) == Ok(rec) && ParsedPrefix(svc, added, data)
    ensures ParsedPrefix(svc, [rec] + added, [row] + data)
  {
    forall k | 0 <= k < |added| + 1
      ensures ParseRow(svc.parseDate, ([row] + data)[k]) == Ok(([rec] + added)[k])
    {
      if k > 0 {
        assert ([row] + data)[k] == data[k - 1];
      }
    }
  }

  /** What `RowsInsertDataRows` promises about one row loop that added `added` and ended with `outcome`. */
  ghost predicate FollowsRows(svc: Services, conn: Conn, data: seq<seq<string>>, added: seq<Record>, outcome: Outcome) {
    && ParsedPrefix(svc, added, data)
    && (outcome.Finished? && conn == Open ==> |added| == |data|)
    && (conn == Closed ==> added == [])
  }

  /**
   The inserts a row loop adds are the records of its data rows, in order
   and one per row. A loop that finishes on an open statement inserted
   every data row; on a closed one it inserts nothing.
   */
  lemma {:induction false} RowsInsertDataRows(svc: Services, conn: Conn, rows: seq<seq<string>>, i: nat, trace: seq<Event>)
    ensures FollowsRows(svc, conn, DataRows(rows, i),
      Inserts(LoadRows(svc, conn, rows, i, trace).trace[|trace|..]), LoadRows(svc, conn, rows, i, trace).outcome)
    decreases |rows|, 1
  {
    var r := LoadRows(svc, conn, rows, i, trace);
    if |rows| == 0 {
      assert r.trace[|trace|..] == [];
    } else if i == 0 {
      RowsInsertDataRows(svc, conn, rows[1..], i + 1, trace);
    } else {
      var step := RowStep(svc, conn, Inserts(trace), rows[0]);
      RowStepInserts(svc, conn, Inserts(trace), rows[0]);
      if step.fault.Some? {
        assert r.trace[|trace|..] == step.events;
      } else {
        InsertsAfterGoodRow(svc, conn, rows, i, trace);
      }
    }
  }

  /** A data row that succeeded hands the loop on to the next row. */
  lemma GoodRowContinues(svc: Services, conn: Conn, rows: seq<seq<string>>, i: nat, trace: seq<Event>)
    requires |rows| > 0 && i > 0
    requires RowStep(svc, conn, Inserts(trace), rows[0]).fault.None?
    ensures LoadRows(svc, conn, rows, i, trace)
      == LoadRows(svc, conn, rows[1..], i, trace + RowStep(svc, conn, Inserts(trace), rows[0]).events)
  {
  }

  /** Putting one successful row's insert in front of the inserts of the rows after it. */
  lemma ParsedPrefixStep(svc: Services, rec: Record, row: seq<string>, data: seq<seq<string>>, events: seq<Event>, later: seq<Event>)
    requires ParseRow(svc.parseDate, row) == Ok(rec) && Inserts(events) == [rec]
    requires ParsedPrefix(svc, Inserts(later), data)
    ensures ParsedPrefix(svc, Inserts(events + later), [row] + data)
    ensures |Inserts(events + later)| == |Inserts(later)| + 1
  {
    InsertsAppend(events, later);
    ParsedPrefixCons(svc, rec, Inserts(later), row, data);
  }

  lemma SliceAfter(t: seq<Event>, trace: seq<Event>, events: seq<Event>)
    requires Extends(t, trace + events)
    ensures t[|trace|..] == events + t[|trace + events|..]
  {
  }

  /** The inductive step of `RowsInsertDataRows`: a data row that succeeded. */
  lemma {:induction false} InsertsAfterGoodRow(svc: Services, conn: Conn, rows: seq<seq<string>>, i: nat, trace: seq<Event>)
    requires |rows| > 0 && i > 0
    requires RowStep(svc, conn, Inserts(trace), rows[0]).fault.None?
    ensures FollowsRows(svc, conn, DataRows(rows, i),
      Inserts(LoadRows(svc, conn, rows, i, trace).trace[|trace|..]), LoadRows(svc, conn, rows, i, trace).outcome)
    decreases |rows|, 0
  {
    var events := RowStep(svc, conn, Inserts(trace), rows[0]).events;
    RowStepInserts(svc, conn, Inserts(trace), rows[0]);
    var rec := ParseRow(svc.parseDate, rows[0]).value;
    var mid := trace + events;
    GoodRowContinues(svc, conn, rows, i, trace);
    var r := LoadRows(svc, conn, rows[1..], i, mid);
    RowsInsertDataRows(svc, conn, rows[1..], i, mid);
    var later := r.trace[|mid|..];
    SliceAfter(r.trace, trace, events);
    ParsedPrefixStep(svc, rec, rows[0], rows[1..], events, later);
    assert [rows[0]] + rows[1..] == rows;
  }

  /** Replacing a file's header row by anything leaves that file's processing unchanged. */
  lemma FileHeaderIgnored(svc: Services, conn: Conn, rows: seq<seq<string>>, header: seq<string>, trace: seq<Event>)
    requires |rows| > 0
    ensures LoadFile(svc, conn, [header] + rows[1..], trace) == LoadFile(svc, conn, rows, trace)
  {
    assert ([header] + rows[1..])[1..] == rows[1..];
  }

  /** The listing with the header row of the regular file at `j` replaced. */
  function WithHeader(entries: seq<Entry>, j: nat, header: seq<string>): (r: seq<Entry>)
    requires j < |entries| && entries[j].Regular? && |entries[j].rows| > 0
    ensures |r| == |entries| && r[j].Regular? && |r[j].rows| > 0 && r[j].rows[0] == header
    ensures forall k :: 0 <= k < |entries| && k != j ==> r[k] == entries[k]
  {
    entries[j := Regular([header] + entries[j].rows[1..])]
  }

  /**
   Row 0 of every regular file is never bound, inserted or audit-logged:
   whatever it holds, the whole run comes out the same.
   */
  lemma {:induction false} HeaderNeverRead(svc: Services, conn: Conn, entries: seq<Entry>, j: nat, header: seq<string>, trace: seq<Event>)
    requires j < |entries| && entries[j].Regular? && |entries[j].rows| > 0
    ensures LoadEntries(svc, conn, WithHeader(entries, j, header), trace) == LoadEntries(svc, conn, entries, trace)
    decreases j
  {
    var changed := WithHeader(entries, j, header);
    if j == 0 {
      FileHeaderIgnored(svc, conn, entries[0].rows, header, trace);
      assert changed[1..] == entries[1..];
    } else {
      assert changed[1..] == WithHeader(entries[1..], j - 1, header);
      match entries[0]
      case Directory =>
        HeaderNeverRead(svc, conn, entries[1..], j - 1, header, trace);
      case Unopenable(_) =>
      case Unreadable(_) =>
      case Regular(rows) =>
        var file := LoadFile(svc, conn, rows, trace);
        if file.outcome.Finished? {
          HeaderNeverRead(svc, file.conn, entries[1..], j - 1, header, file.trace);
        }
    }
  }

  /** The same at the level of a whole run. */
  lemma HeaderNeverReadInRun(env: Env, password: string, j: nat, header: seq<string>)
    requires env.listing.Some?
    requires j < |env.listing.value| && env.listing.value[j].Regular? && |env.listing.value[j].rows| > 0
    ensures LoadRun(env.(listing := Some(WithHeader(env.listing.value, j, header))), password) == LoadRun(env, password)
  {
    HeaderNeverRead(env.services, Open, env.listing.value, j, header, []);
  }

  /** Fail-fast inside a file: once a row faults, later rows change nothing. */
  lemma {:induction false} RowsStopAtFault(svc: Services, conn: Conn, rows: seq<seq<string>>, more: seq<seq<string>>, i: nat, trace: seq<Event>)
    requires LoadRows(svc, conn, rows, i, trace).outcome.Aborted?
    ensures LoadRows(svc, conn, rows + more, i, trace) == LoadRows(svc, conn, rows, i, trace)
    decreases |rows|
  {
    assert (rows + more)[0] == rows[0];
    assert (rows + more)[1..] == rows[1..] + more;
    if i == 0 {
      RowsStopAtFault(svc, conn, rows[1..], more, i + 1, trace);
    } else {
      var step := RowStep(svc, conn, Inserts(trace), rows[0]);
      if step.fault.None? {
        RowsStopAtFault(svc, conn, rows[1..], more, i, trace + step.events);
      }
    }
  }

  /** Fail-fast across files: once the run faults, later entries change nothing. */
  lemma {:induction false} EntriesStopAtFault(svc: Services, conn: Conn, entries: seq<Entry>, more: seq<Entry>, trace: seq<Event>)
    requires LoadEntries(svc, conn, entries, trace).outcome.Aborted?
    ensures LoadEntries(svc, conn, entries + more, trace) == LoadEntries(svc, conn, entries, trace)
    decreases |entries|
  {
    assert (entries + more)[0] == entries[0];
    assert (entries + more)[1..] == entries[1..] + more;
    match entries[0]
    case Directory =>
      EntriesStopAtFault(svc, conn, entries[1..], more, trace);
    case Unopenable(_) =>
    case Unreadable(_) =>
    case Regular(rows) =>
      var file := LoadFile(svc, conn, rows, trace);
      if file.outcome.Finished? {
        EntriesStopAtFault(svc, file.conn, entries[1..], more, file.trace);
      }
  }

  /** The listing without its non-file entries. */
  function FilesOnly(entries: seq<Entry>): (r: seq<Entry>)
    ensures |r| <= |entries|
    ensures forall k :: 0 <= k < |r| ==> !r[k].Directory?
  {
    if |entries| == 0 then []
    else if entries[0].Directory? then FilesOnly(entries[1..])
    else [entries[0]] + FilesOnly(entries[1..])
  }

  /** Entries that are not regular files are skipped without reads, inserts or log lines. */
  lemma {:induction false} DirectoriesSkipped(svc: Services, conn: Conn, entries: seq<Entry>, trace: seq<Event>)
    ensures LoadEntries(svc, conn, FilesOnly(entries), trace) == LoadEntries(svc, conn, entries, trace)
    decreases |entries|
  {
    if |entries| > 0 {
      var rest := FilesOnly(entries[1..]);
      if !entries[0].Directory? {
        assert ([entries[0]] + rest)[1..] == rest;
        match entries[0]
        case Unopenable(_) =>
        case Unreadable(_) =>
        case Regular(rows) =>
          var file := LoadFile(svc, conn, rows, trace);
          if file.outcome.Finished? {
            DirectoriesSkipped(svc, file.conn, entries[1..], file.trace);
          }
      } else {
        DirectoriesSkipped(svc, conn, entries[1..], trace);
      }
    }
  }

  /**
   A failed connection ends the run before any entry is examined, with the
   one line its catch clause writes; a null listing ends it the same way
   once connected.
   */
  lemma ConnectionAndListingFailures(env: Env, password: string)
    ensures env.connect(password).NoDriver? ==>
      LoadRun(env, password).trace == [Report(Severe, "Error inserting records: ", DriverMissing(env.connect(password).msg))]
    ensures env.connect(password).Refused? ==>
      LoadRun(env, password).trace == [Report(Warning, "", ConnectFailed(env.connect(password).msg))]
    ensures env.connect(password).Connected? && env.listing.None? ==>
      LoadRun(env, password).trace == [Report(Warning, "Bad File Path ", NullListing)]
  {
    match env.connect(password)
    case NoDriver(msg) => Classification(DriverMissing(msg));
    case Refused(msg) => Classification(ConnectFailed(msg));
    case Connected => Classification(NullListing);
  }

  /**
   Exactly one error line per failed run, as its last event, from the catch
   clause that handles the fault; a run that finishes logs none.
   */
  lemma ReportedOnce(env: Env, password: string)
    ensures var r := LoadRun(env, password);
      r.outcome.Finished? ==> ReportFree(r.trace)
    ensures var r := LoadRun(env, password);
      r.outcome.Aborted? ==>
        && |r.trace| > 0
        && ReportFree(r.trace[..|r.trace| - 1])
        && r.trace[|r.trace| - 1] == Report(Handle(r.outcome.fault).level, Handle(r.outcome.fault).prefix, r.outcome.fault)
  {
    var body := LoadBody(env, password);
    assert ReportFree(body.trace);
    if body.outcome.Aborted? {
      var r := LoadRun(env, password);
      assert r.trace[..|r.trace| - 1] == body.trace;
    }
  }

  /** The two closing log lines hold no insert. */
  lemma ClosingInsertsNothing(before: seq<Event>)
    ensures Inserts(before + [Log(Info, ClosingMsg), Log(Info, ClosedMsg)]) == Inserts(before)
  {
    InsertsOfInsertFree([Log(Info, ClosingMsg), Log(Info, ClosedMsg)]);
    InsertsAppend(before, [Log(Info, ClosingMsg), Log(Info, ClosedMsg)]);
  }

  /** A file's inserts are those of its row loop. */
  lemma FileInserts(svc: Services, conn: Conn, rows: seq<seq<string>>, trace: seq<Event>)
    ensures Inserts(LoadFile(svc, conn, rows, trace).trace) == Inserts(LoadRows(svc, conn, rows, 0, trace).trace)
  {
    var body := LoadRows(svc, conn, rows, 0, trace);
    if body.outcome.Finished? {
      ClosingInsertsNothing(body.trace);
    }
  }

  /** Once the statement is closed, no entry inserts anything more. */
  lemma {:induction false} ClosedInsertsNothing(svc: Services, entries: seq<Entry>, trace: seq<Event>)
    ensures Inserts(LoadEntries(svc, Closed, entries, trace).trace) == Inserts(trace)
    decreases |entries|
  {
    if |entries| > 0 {
      match entries[0]
      case Directory =>
        ClosedInsertsNothing(svc, entries[1..], trace);
      case Unopenable(_) =>
      case Unreadable(_) =>
      case Regular(rows) =>
        var body := LoadRows(svc, Closed, rows, 0, trace);
        RowsInsertDataRows(svc, Closed, rows, 0, trace);
        InsertsSplit(body.trace, trace);
        FileInserts(svc, Closed, rows, trace);
        var file := LoadFile(svc, Closed, rows, trace);
        if file.outcome.Finished? {
          ClosedInsertsNothing(svc, entries[1..], file.trace);
        }
    }
  }

  /**
   A regular file met after the statement was closed, with at least one
   data row, ends the run at that row without logging anything: with the
   row's own parse fault when a check fails first, otherwise with the SQL
   error of binding on the closed statement.
   */
  lemma LaterFileFails(svc: Services, rows: seq<seq<string>>, rest: seq<Entry>, trace: seq<Event>)
    requires |rows| >= 2
    ensures LoadEntries(svc, Closed, [Regular(rows)] + rest, trace) ==
      Run(trace, Closed, Aborted(
        match ParseRow(svc.parseDate, rows[1])
        case Err(e) => e
        case Ok(_) => StatementClosed))
  {
    assert rows[1..][0] == rows[1];
    assert LoadRows(svc, Closed, rows, 0, trace) == LoadRows(svc, Closed, rows[1..], 1, trace);
    assert ([Regular(rows)] + rest)[0] == Regular(rows);
  }

  lemma {:induction false} SkippedPrefix(svc: Services, conn: Conn, skipped: seq<Entry>, entries: seq<Entry>, trace: seq<Event>)
    requires forall k :: 0 <= k < |skipped| ==> skipped[k].Directory?
    ensures LoadEntries(svc, conn, skipped + entries, trace) == LoadEntries(svc, conn, entries, trace)
    decreases |skipped|
  {
    if |skipped| == 0 {
      assert skipped + entries == entries;
    } else {
      assert (skipped + entries)[1..] == skipped[1..] + entries;
      SkippedPrefix(svc, conn, skipped[1..], entries, trace);
    }
  }

  /** Within the entry loop, every insert comes from the first regular file. */
  lemma FirstFileEntries(svc: Services, rows: seq<seq<string>>, rest: seq<Entry>)
    ensures ParsedPrefix(svc, Inserts(LoadEntries(svc, Open, [Regular(rows)] + rest, []).trace), DataRows(rows, 0))
  {
    var body := LoadRows(svc, Open, rows, 0, []);
    RowsInsertDataRows(svc, Open, rows, 0, []);
    assert body.trace[0..] == body.trace;
    FileInserts(svc, Open, rows, []);
    var file := LoadFile(svc, Open, rows, []);
    var entries := [Regular(rows)] + rest;
    assert entries[0] == Regular(rows) && entries[1..] == rest;
    if file.outcome.Finished? {
      ClosedInsertsNothing(svc, rest, file.trace);
    }
  }

  /** The catch clause's line inserts nothing: a run's inserts are those of its body. */
  lemma RunInserts(env: Env, password: string)
    ensures Inserts(LoadRun(env, password).trace) == Inserts(LoadBody(env, password).trace)
  {
    var body := LoadBody(env, password);
    if body.outcome.Aborted? {
      var f := body.outcome.fault;
      var line := [Report(Handle(f).level, Handle(f).prefix, f)];
      InsertsAppend(body.trace, line);
      InsertsOfInsertFree(line);
    }
  }

  /**
   Every insert of a run comes from the first regular file in the listing:
   the k-th insert is the parsed row k + 1 of that file.
   */
  lemma InsertsOnlyFromFirstFile(env: Env, password: string, skipped: seq<Entry>, rows: seq<seq<string>>, rest: seq<Entry>)
    requires env.connect(password) == Connected
    requires env.listing == Some(skipped + [Regular(rows)] + rest)
    requires forall k :: 0 <= k < |skipped| ==> skipped[k].Directory?
    ensures var inserted := Inserts(LoadRun(env, password).trace);
      forall k :: 0 <= k < |inserted| ==> k + 1 < |rows| && ParseRow(env.services.parseDate, rows[k + 1]) == Ok(inserted[k])
  {
    var svc := env.services;
    assert skipped + [Regular(rows)] + rest == skipped + ([Regular(rows)] + rest);
    SkippedPrefix(svc, Open, skipped, [Regular(rows)] + rest, []);
    FirstFileEntries(svc, rows, rest);
    RunInserts(env, password);
    var inserted := Inserts(LoadRun(env, password).trace);
    assert ParsedPrefix(svc, inserted, DataRows(rows, 0));
    forall k | 0 <= k < |inserted|
      ensures k + 1 < |rows| && ParseRow(svc.parseDate, rows[k + 1]) == Ok(inserted[k])
    {
      assert DataRows(rows, 0)[k] == rows[k + 1];
    }
  }

  /**
   Fail-fast at a bad data row: when the rows before position m went through
   and row m fails a check, the row loop ends right there with that row's
   own fault, adding nothing for it.
   */
  lemma {:induction false} RowsAbortAtBadRow(svc: Services, conn: Conn, rows: seq<seq<string>>, m: nat, i: nat, trace: seq<Event>)
    requires i > 0 && m < |rows| && ParseRow(svc.parseDate, rows[m]).Err?
    requires LoadRows(svc, conn, rows[..m], i, trace).outcome.Finished?
    ensures LoadRows(svc, conn, rows, i, trace)
      == Run(LoadRows(svc, conn, rows[..m], i, trace).trace, conn, Aborted(ParseRow(svc.parseDate, rows[m]).error))
    decreases m
  {
    if m == 0 {
      assert trace + [] == trace;
    } else {
      var step := RowStep(svc, conn, Inserts(trace), rows[0]);
      assert rows[..m][0] == rows[0];
      assert rows[..m][1..] == rows[1..][..m - 1];
      RowsAbortAtBadRow(svc, conn, rows[1..], m - 1, i, trace + step.events);
    }
  }

  /** The same for a whole file, whose row m >= 1 is the first data row to fail a check. */
  lemma FileAbortsAtBadRow(svc: Services, conn: Conn, rows: seq<seq<string>>, m: nat, trace: seq<Event>)
    requires 0 < m < |rows| && ParseRow(svc.parseDate, rows[m]).Err?
    requires LoadRows(svc, conn, rows[1..m], 1, trace).outcome.Finished?
    ensures LoadFile(svc, conn, rows, trace)
      == Run(LoadRows(svc, conn, rows[1..m], 1, trace).trace, conn, Aborted(ParseRow(svc.parseDate, rows[m]).error))
  {
    assert rows[1..][..m - 1] == rows[1..m];
    assert rows[1..][m - 1] == rows[m];
    RowsAbortAtBadRow(svc, conn, rows[1..], m - 1, 1, trace);
  }

  /**
   The fatal-on-bad-row promise for a whole run: when row m of the first
   regular file is the first data row to fail a check, the run inserts the
   rows before it, then ends with that row's fault, reported on the severe
   "Error inserting records: " line, and without the closing lines.
   */
  lemma RunAbortsAtBadRow(env: Env, password: string, skipped: seq<Entry>, rows: seq<seq<string>>, rest: seq<Entry>, m: nat)
    requires env.connect(password) == Connected
    requires env.listing == Some(skipped + [Regular(rows)] + rest)
    requires forall k :: 0 <= k < |skipped| ==> skipped[k].Directory?
    requires 0 < m < |rows| && ParseRow(env.services.parseDate, rows[m]).Err?
    requires LoadRows(env.services, Open, rows[1..m], 1, []).outcome.Finished?
    ensures var f := ParseRow(env.services.parseDate, rows[m]).error;
      LoadRun(env, password) == Run(LoadRows(env.services, Open, rows[1..m], 1, []).trace
        + [Report(Severe, "Error inserting records: ", f)], Open, Aborted(f))
  {
    var svc := env.services;
    var f := ParseRow(svc.parseDate, rows[m]).error;
    assert skipped + [Regular(rows)] + rest == skipped + ([Regular(rows)] + rest);
    SkippedPrefix(svc, Open, skipped, [Regular(rows)] + rest, []);
    FileAbortsAtBadRow(svc, Open, rows, m, []);
    assert ([Regular(rows)] + rest)[0] == Regular(rows);
    ParseRowChecks(svc.parseDate, rows[m]);
    Classification(f);
  }

  /**
   A first file entry that cannot be opened or read ends the run before any
   insert, with the one line of the clause that catches it.
   */
  lemma FirstFileUnusable(env: Env, password: string, skipped: seq<Entry>, bad: Entry, rest: seq<Entry>)
    requires env.connect(password) == Connected
    requires env.listing == Some(skipped + [bad] + rest)
    requires forall k :: 0 <= k < |skipped| ==> skipped[k].Directory?
    ensures bad.Unopenable? ==>
      LoadRun(env, password) == Run([Report(Warning, "File not found ", FileMissing(bad.msg))], Open, Aborted(FileMissing(bad.msg)))
    ensures bad.Unreadable? ==>
      LoadRun(env, password) == Run([Report(Severe, "Error inserting records: ", ReadFailed(bad.msg))], Open, Aborted(ReadFailed(bad.msg)))
  {
    assert skipped + [bad] + rest == skipped + ([bad] + rest);
    SkippedPrefix(env.services, Open, skipped, [bad] + rest, []);
    assert ([bad] + rest)[0] == bad;
    match bad
    case Unopenable(msg) => Classification(FileMissing(msg));
    case Unreadable(msg) => Classification(ReadFailed(msg));
    case Directory =>
    case Regular(_) =>
  }
}
