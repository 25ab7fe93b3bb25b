/**
 A concrete run: one file whose header is followed by a valid row and by a
 row whose quantity is "abc".
 */
module Scenarios {
  import opened Wrappers
  import opened Faults
  import opened Records
  import opened Loader
  import JavaInt

  const Header: seq<string> :=
    ["TERMINAL", "DEPARTMENT", "DATE_TIME", "EMP_NUMBER", "LAST_NAME",
     "FIRST_NAME", "GCT_PART_NUMBER", "ITEM_ID", "ITEM_NAME", "QUANTITY"]
  const GoodRow: seq<string> := ["a", "b", "t", "c", "d", "e", "f", "g", "x,y", "5"]
  const BadRow: seq<string> := ["a", "b", "t", "c", "d", "e", "f", "g", "x,y", "abc"]

  /** A date format that knows this one timestamp, taken as UTC. */
  function ScenarioDate(text: string): Option<Timestamp> {
    if text == "t" then Some(1678786200000) else None
  }

  /** A database that accepts every insert. */
  function AcceptAll(history: seq<Record>, rec: Record): UpdateResult {
    Updated
  }

  function ScenarioEnv(): Env {
    Env(_ => Connected, Some([Regular([Header, GoodRow, BadRow])]), Services(ScenarioDate, AcceptAll))
  }

  const GoodRecord: Record :=
    Record("a", "b", 1678786200000, "c", "d", "e", "f", "g", "xy", 5)
  lemma QuantitiesParsed()
    ensures JavaInt.ParseInt("5") == Some(5)
    ensures JavaInt.ParseInt("abc") == None
  {
    assert JavaInt.AllDigits("5");
    assert "5"[..0] == [];
    assert !JavaInt.IsDigit("abc"[0]);
  }

  lemma NameStripped()
    ensures StripCommas("x,y") == "xy"
  {
    assert "x,y"[1..] == ",y" && ",y"[1..] == "y" && "y"[1..] == "";
    assert StripCommas("y") == "y";
    assert StripCommas(",y") == "y";
  }

  lemma GoodRowParsed()
    ensures ParseRow(ScenarioDate, GoodRow) == Ok(GoodRecord)
  {
    QuantitiesParsed();
    NameStripped();
  }

  lemma BadRowRejected()
    ensures ParseRow(ScenarioDate, BadRow) == Err(BadQuantity("abc"))
  {
    QuantitiesParsed();
  }

  const GoodEvents: seq<Event> := [Log(Info, ExecutingMsg), Insert(GoodRecord), Log(Info, Audit(GoodRow))]

  lemma RowSteps(history: seq<Record>)
    ensures RowStep(ScenarioEnv().services, Open, [], GoodRow) == Step(GoodEvents, None)
    ensures RowStep(ScenarioEnv().services, Open, history, BadRow) == Step([], Some(BadQuantity("abc")))
  {
    GoodRowParsed();
    BadRowRejected();
  }

  lemma RowsRun()
    ensures LoadRows(ScenarioEnv().services, Open, [GoodRow, BadRow], 1, [])
      == Run(GoodEvents, Open, Aborted(BadQuantity("abc")))
  {
    var svc := ScenarioEnv().services;
    RowSteps(Inserts(GoodEvents));
    assert [GoodRow, BadRow][1..] == [BadRow];
    assert LoadRows(svc, Open, [BadRow], 1, GoodEvents) == Run(GoodEvents, Open, Aborted(BadQuantity("abc")));
  }

  lemma FileRun()
    ensures LoadEntries(ScenarioEnv().services, Open, [Regular([Header, GoodRow, BadRow])], [])
      == Run(GoodEvents, Open, Aborted(BadQuantity("abc")))
  {
    var svc := ScenarioEnv().services;
    RowsRun();
    var rows := [Header, GoodRow, BadRow];
    assert rows[1..] == [GoodRow, BadRow];
    assert LoadRows(svc, Open, rows, 0, []) == Run(GoodEvents, Open, Aborted(BadQuantity("abc")));
  }

  /**
   Exactly one record is inserted and audit-logged, with its item name
   stripped of the comma in the record (the audit line keeps it, as
   `AuditLayout` shows for every row); then the
   bad quantity ends the run with the severe line, and the closing lines
   are never written.
   */
  lemma OneInsertThenBadQuantity()
    ensures LoadRun(ScenarioEnv(), "secret") == Run(
      GoodEvents + [Report(Severe, "Error inserting records: ", BadQuantity("abc"))],
      Open,
      Aborted(BadQuantity("abc")))
  {
    FileRun();
    Classification(BadQuantity("abc"));
  }
}
