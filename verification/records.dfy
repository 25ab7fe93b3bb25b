/**
 One CSV data row turned into the ten parameters of the insert statement,
 and the audit line written for it.
 */
module Records {
  import opened Wrappers
  import opened Faults
  import JavaInt

  /** `Date.getTime()` of the parsed event time, in milliseconds. */
  type Timestamp = int

  /**
   The ten parameters bound to `INSERT INTO PPE_DATA (...)`, in the order of
   its column list: TERMINAL, DEPARTMENT, DATE_TIME, EMP_NUMBER, LAST_NAME,
   FIRST_NAME, GCT_PART_NUMBER, ITEM_ID, ITEM_NAME, QUANTITY.
   */
  datatype Record = Record(
    terminal: string,
    department: string,
    dateTime: Timestamp,
    empNumber: string,
    lastName: string,
    firstName: string,
    partNumber: string,
    itemId: string,
    itemName: string,
    quantity: int)

  predicate NoComma(s: string) {
    forall i :: 0 <= i < |s| ==> s[i] != ','
  }

  /** `s.replaceAll(",", "")`: the regular expression "," matches the comma character only. */
  function StripCommas(s: string): string {
    if |s| == 0 then ""
    else (if s[0] == ',' then "" else [s[0]]) + StripCommas(s[1..])
  }

  /** The stripped name holds no comma and every other character of the input, as often as the input does. */
  lemma {:induction false} StripCommasSpec(s: string)
    ensures NoComma(StripCommas(s))
    ensures |StripCommas(s)| <= |s|
    ensures forall c :: c != ',' ==> multiset(StripCommas(s))[c] == multiset(s)[c]
  {
    if |s| > 0 {
      StripCommasSpec(s[1..]);
      assert s == [s[0]] + s[1..];
    }
  }

  /** Stripping works piece by piece, so the order of the kept characters is the input's. */
  lemma {:induction false} StripCommasAppend(a: string, b: string)
    ensures StripCommas(a + b) == StripCommas(a) + StripCommas(b)
  {
    if |a| > 0 {
      assert (a + b)[1..] == a[1..] + b;
      StripCommasAppend(a[1..], b);
    } else {
      assert a + b == b;
    }
  }

  /** A name without commas is stored unchanged; hence stripping is idempotent. */
  lemma {:induction false} StripCommasKeepsCommaFree(s: string)
    requires NoComma(s)
    ensures StripCommas(s) == s
  {
    if |s| > 0 {
      StripCommasKeepsCommaFree(s[1..]);
    }
  }

  /**
   One data row made into a record (Main.java lines 96-114): `values[8]`
   must exist, `values[2]` must parse as a date, `values[9]` must exist and
   must parse as a 32-bit integer, checked in that order; the first that
   fails is the row's fault.
   */
  function ParseRow(parseDate: string -> Option<Timestamp>, values: seq<string>): Result<Record, Fault> {
    if |values| <= 8 then Err(FieldMissing(8, |values|))
    else
      var itemName := StripCommas(values[8]);
      match parseDate(values[2])
      case None => Err(DateUnparseable(values[2]))
      case Some(time) =>
        if |values| <= 9 then Err(FieldMissing(9, |values|))
        else
          match JavaInt.ParseInt(values[9])
          case None => Err(BadQuantity(values[9]))
          case Some(qty) =>
            Ok(Record(values[0], values[1], time, values[3], values[4], values[5],
                      values[6], values[7], itemName, qty))
  }

  /**
   The row checks and their order: a row shorter than nine fields, a date
   the format rejects, a row of exactly nine fields, a quantity that is not
   a 32-bit integer, each stops the row with its own fault; a row passing
   all four yields the record whose parameters 1-10 are fields 0-7 verbatim
   except field 2 parsed, the comma-free field 8 and the parsed field 9.
   */
  lemma ParseRowChecks(parseDate: string -> Option<Timestamp>, values: seq<string>)
    ensures |values| < 9 ==> ParseRow(parseDate, values) == Err(FieldMissing(8, |values|))
    ensures |values| >= 9 && parseDate(values[2]).None? ==>
      ParseRow(parseDate, values) == Err(DateUnparseable(values[2]))
    ensures |values| == 9 && parseDate(values[2]).Some? ==> ParseRow(parseDate, values) == Err(FieldMissing(9, 9))
    ensures |values| >= 10 && parseDate(values[2]).Some? && JavaInt.ParseInt(values[9]).None? ==>
      ParseRow(parseDate, values) == Err(BadQuantity(values[9]))
    ensures ParseRow(parseDate, values).Ok? <==>
      |values| >= 10 && parseDate(values[2]).Some? && JavaInt.ParseInt(values[9]).Some?
    ensures ParseRow(parseDate, values).Ok? ==>
      var rec := ParseRow(parseDate, values).value;
      && rec.terminal == values[0] && rec.department == values[1]
      && rec.dateTime == parseDate(values[2]).value
      && rec.empNumber == values[3] && rec.lastName == values[4] && rec.firstName == values[5]
      && rec.partNumber == values[6] && rec.itemId == values[7]
      && NoComma(rec.itemName) && rec.itemName == StripCommas(values[8])
      && JavaInt.InRange(rec.quantity) && JavaInt.ParseInt(values[9]) == Some(rec.quantity)
  {
    if |values| >= 10 {
      StripCommasSpec(values[8]);
      JavaInt.ParseIntAccepts(values[9]);
    }
  }

  /** Fields from index 10 on are never bound: the row's outcome depends only on its first ten. */
  lemma ParseRowIgnoresExtraFields(parseDate: string -> Option<Timestamp>, values: seq<string>)
    requires |values| >= 10
    ensures ParseRow(parseDate, values) == ParseRow(parseDate, values[..10])
  {
  }

  /** The stored item name never holds a comma, and equals the raw field when that had none. */
  lemma StoredItemName(parseDate: string -> Option<Timestamp>, values: seq<string>)
    requires ParseRow(parseDate, values).Ok?
    ensures NoComma(ParseRow(parseDate, values).value.itemName)
    ensures NoComma(values[8]) ==> ParseRow(parseDate, values).value.itemName == values[8]
  {
    ParseRowChecks(parseDate, values);
    if NoComma(values[8]) {
      StripCommasKeepsCommaFree(values[8]);
    }
  }

  /** All fields run together with no delimiter. */
  function Flatten(fields: seq<string>): string {
    if |fields| == 0 then "" else Flatten(fields[..|fields| - 1]) + fields[|fields| - 1]
  }

  /** Flattening a prefix one field longer appends that field. */
  lemma FlattenSnoc(fields: seq<string>, k: nat)
    requires k < |fields|
    ensures Flatten(fields[..k + 1]) == Flatten(fields[..k]) + fields[k]
  {
    assert fields[..k + 1][..k] == fields[..k];
  }

  lemma {:induction false} FlattenAppend(a: seq<string>, b: seq<string>)
    ensures Flatten(a + b) == Flatten(a) + Flatten(b)
    decreases |b|
  {
    if |b| > 0 {
      assert (a + b)[..|a + b| - 1] == a + b[..|b| - 1];
      FlattenAppend(a, b[..|b| - 1]);
    } else {
      assert a + b == a;
    }
  }

  const AuditPrefix: string := "Inserted record: "

  /** The audit text for a row: the prefix, then every field of the row. */
  function Audit(values: seq<string>): string {
    AuditPrefix + Flatten(values)
  }

  /**
   The audit line carries the raw `values[8]`, commas included, at the
   position after the first eight fields, and every field past the tenth
   after the quantity text.
   */
  lemma AuditLayout(values: seq<string>)
    requires |values| >= 10
    ensures Audit(values) ==
      AuditPrefix + Flatten(values[..8]) + values[8] + values[9] + Flatten(values[10..])
  {
    FlattenSnoc(values, 8);
    FlattenSnoc(values, 9);
    assert values[..10] + values[10..] == values;
    FlattenAppend(values[..10], values[10..]);
  }

  /**
   The StringBuilder loop of Main.java lines 123-139. The `k == 9` branch
   appends `String.valueOf(value)`, which for a String is the value itself,
   so every field is appended as is.
   */
  method BuildAuditLine(values: seq<string>) returns (line: string)
    ensures line == Audit(values)
  {
    var k := 0;
    line := AuditPrefix;
    while k < |values|
      invariant 0 <= k <= |values|
      invariant line == AuditPrefix + Flatten(values[..k])
    {
      FlattenSnoc(values, k);
      if k == 9 {
        var strQty := values[k];
        line := line + strQty;
      } else {
        line := line + values[k];
      }
      k := k + 1;
    }
    assert values[..k] == values;
  }
}
