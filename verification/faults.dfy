/**
 The exceptions a run can raise and the top-level catch clauses of
 `Main.main` that turn each one into a single log line. A clause catches an
 exception when the exception's class is the clause's class or inherits from
 it, and the first matching clause wins.
 */
module Faults {
  import opened Wrappers

  datatype Level = Info | Warning | Severe

  /** The Java exception classes involved, named as in the JDK. */
  datatype ExcClass =
    | Exception
    | IOException
    | FileNotFoundException
    | RuntimeException
    | NullPointerException
    | IndexOutOfBoundsException
    | ArrayIndexOutOfBoundsException
    | IllegalArgumentException
    | NumberFormatException
    | ParseException
    | SQLException
    | ReflectiveOperationException
    | ClassNotFoundException

  /**
   The class itself and every class it inherits from, as in the JDK class
   tree. Every class descends from `Exception`, so the last clause of
   `Handlers` catches anything the others miss.
   */
  function Ancestors(c: ExcClass): (a: set<ExcClass>)
    ensures c in a && Exception in a
  {
    match c
    case Exception => {Exception}
    case IOException => {IOException, Exception}
    case FileNotFoundException => {FileNotFoundException, IOException, Exception}
    case RuntimeException => {RuntimeException, Exception}
    case NullPointerException => {NullPointerException, RuntimeException, Exception}
    case IndexOutOfBoundsException => {IndexOutOfBoundsException, RuntimeException, Exception}
    case ArrayIndexOutOfBoundsException =>
      {ArrayIndexOutOfBoundsException, IndexOutOfBoundsException, RuntimeException, Exception}
    case IllegalArgumentException => {IllegalArgumentException, RuntimeException, Exception}
    case NumberFormatException =>
      {NumberFormatException, IllegalArgumentException, RuntimeException, Exception}
    case ParseException => {ParseException, Exception}
    case SQLException => {SQLException, Exception}
    case ReflectiveOperationException => {ReflectiveOperationException, Exception}
    case ClassNotFoundException => {ClassNotFoundException, ReflectiveOperationException, Exception}
  }

  /** `c` is `d` or a subclass of `d`: what Java's `catch (d e)` tests. */
  predicate IsA(c: ExcClass, d: ExcClass) {
    d in Ancestors(c)
  }

  /** One `catch` clause: the class it names and the log line it writes. */
  datatype Handler = Handler(catches: ExcClass, level: Level, prefix: string)

  /** The catch clauses of `Main.main`, in source order. */
  const Handlers: seq<Handler> := [
    Handler(FileNotFoundException, Warning, "File not found "),
    Handler(NullPointerException, Warning, "Bad File Path "),
    Handler(SQLException, Warning, ""),
    Handler(Exception, Severe, "Error inserting records: ")
  ]

  /** The first clause of `hs`, from index `from` on, that catches an exception of class `c`. */
  function FirstCatch(c: ExcClass, hs: seq<Handler>, from: nat): (r: Option<nat>)
    requires from <= |hs|
    ensures r.Some? ==> from <= r.value < |hs| && IsA(c, hs[r.value].catches)
    ensures r.Some? ==> forall k :: from <= k < r.value ==> !IsA(c, hs[k].catches)
    ensures r.None? ==> forall k :: from <= k < |hs| ==> !IsA(c, hs[k].catches)
    decreases |hs| - from
  {
    if from == |hs| then None
    else if IsA(c, hs[from].catches) then Some(from)
    else FirstCatch(c, hs, from + 1)
  }

  /** Why a run stopped, with the detail the exception message would carry. */
  datatype Fault =
    | DriverMissing(msg: string)             // Class.forName cannot load the driver
    | ConnectFailed(msg: string)             // getConnection or prepareStatement failed
    | NullListing                            // the directory listing was null
    | FileMissing(msg: string)               // a regular file could not be opened
    | ReadFailed(msg: string)                // the CSV reader failed while reading
    | FieldMissing(index: nat, length: nat)  // values[index] on a shorter row
    | DateUnparseable(text: string)          // values[2] rejected by the date format
    | BadQuantity(text: string)              // values[9] rejected by Integer.parseInt
    | StatementClosed                        // binding on the statement closed after a file
    | UpdateFailed(msg: string)              // executeUpdate raised an SQL error

  function ClassOf(f: Fault): ExcClass {
    match f
    case DriverMissing(_) => ClassNotFoundException
    case ConnectFailed(_) => SQLException
    case NullListing => NullPointerException
    case FileMissing(_) => FileNotFoundException
    case ReadFailed(_) => IOException
    case FieldMissing(_, _) => ArrayIndexOutOfBoundsException
    case DateUnparseable(_) => ParseException
    case BadQuantity(_) => NumberFormatException
    case StatementClosed => SQLException
    case UpdateFailed(_) => SQLException
  }

  /** The clause that handles a fault; some clause always does. */
  function Handle(f: Fault): (h: Handler)
    ensures h in Handlers && IsA(ClassOf(f), h.catches)
  {
    assert IsA(ClassOf(f), Handlers[3].catches);
    var k := FirstCatch(ClassOf(f), Handlers, 0);
    assert k.Some?;
    Handlers[k.value]
  }

  /**
   Which clause catches each class, read off the class tree by hand: the
   reference table that `FirstCatch` must agree with.
   */
  function ExpectedClause(c: ExcClass): nat {
    match c
    case FileNotFoundException => 0
    case NullPointerException => 1
    case SQLException => 2
    case _ => 3
  }

  /** No class in the tree inherits from FileNotFoundException, NullPointerException or SQLException. */
  lemma LeafHandlers(c: ExcClass)
    ensures IsA(c, FileNotFoundException) <==> c == FileNotFoundException
    ensures IsA(c, NullPointerException) <==> c == NullPointerException
    ensures IsA(c, SQLException) <==> c == SQLException
  {
  }

  lemma CatchOrder(c: ExcClass)
    ensures FirstCatch(c, Handlers, 0) == Some(ExpectedClause(c))
  {
    LeafHandlers(c);
    var hs := Handlers;
    assert hs[0].catches == FileNotFoundException && hs[1].catches == NullPointerException;
    assert hs[2].catches == SQLException && hs[3].catches == Exception;
    assert IsA(c, Exception);
  }

  /**
   Catch order as the run reports it: missing files and null listings are
   warnings with their own prefixes, every SQL failure is a warning with the
   bare message, and the row, date, number, read and driver failures fall
   through to the severe "Error inserting records: " line.
   */
  lemma Classification(f: Fault)
    ensures f.FileMissing? ==> Handle(f) == Handler(FileNotFoundException, Warning, "File not found ")
    ensures f.NullListing? ==> Handle(f) == Handler(NullPointerException, Warning, "Bad File Path ")
    ensures f.ConnectFailed? || f.StatementClosed? || f.UpdateFailed? ==> Handle(f) == Handler(SQLException, Warning, "")
    ensures f.DriverMissing? || f.ReadFailed? || f.FieldMissing? || f.DateUnparseable? || f.BadQuantity?
      ==> Handle(f) == Handler(Exception, Severe, "Error inserting records: ")
  {
    CatchOrder(ClassOf(f));
  }
}
