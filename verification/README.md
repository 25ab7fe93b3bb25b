# ReadCsvApp loading run and password encryptor, in Dafny

ReadCsvApp is a small Java ETL program. It reads the regular files of a
configured directory as CSV, with no check on the file extension. It is
meant to insert every data row into the `PPE_DATA` table of a PostgreSQL
database through a prepared statement, and it logs one audit line per
inserted row. As written, only the rows of the first regular file are
inserted. The statement and connection are closed after that file, so a
later file's first data row ends the run with its parse fault or an SQL
error (see below). It also keeps the database password in
`config.properties` AES-encrypted and Base64-encoded, re-encrypting it
only when it does not already decrypt.

This project models the two pieces of decision logic in that program:

- **The loading run of `Main.main`**, as a pure fold. Its inputs are the
  connection outcome, the directory listing (null, or a sequence of
  entries), the date parser and the database's answer to each
  `executeUpdate`. Its output is a trace of `Insert` and `Log` events and
  the outcome of the run. The fold covers the per-file header skip, the
  row-to-record transform, the audit line and fail-fast termination. It
  also covers the choice of catch clause by class hierarchy and catch
  order, and the connection/statement state, which is closed after the
  first regular file.
- **`PasswordEncryptor.encrypt`/`decrypt`**, over an abstract cipher and
  codec. It comes with the credential steps of `main` that write
  `encrypt(configured)` back and connect with its decryption.

Layout:

| file | module | contents |
|---|---|---|
| wrappers.dfy | `Wrappers` | `Option`, `Result` |
| java_int.dfy | `JavaInt` | `Integer.parseInt` (decimal) and `Integer.toString`, round trip |
| faults.dfy | `Faults` | exception classes, the catch clauses of `main`, the faults of a run |
| records.dfy | `Records` | `Record`, comma stripping, `ParseRow`, the audit line |
| password_encryptor.dfy | `PasswordEncryptor` | `Crypto` laws, `Decrypt`, `Encrypt`, idempotence and round trips |
| loader.dfy | `Loader` | `RowStep`, `LoadRows`, `LoadFile`, `LoadEntries`, `LoadRun` |
| loader_properties.dfy | `LoaderProperties` | header skip, insert order, fail-fast, classification, closed statement |
| log_order.dfy | `LogOrder` | where inserts and audit lines sit in the log |
| startup.dfy | `Startup` | lines 41-45 of `main` followed by the run; stability of the stored password |
| scenarios.dfy | `Scenarios` | a header, a good row and a row with quantity "abc" |

Behaviour of `Main.java` that is easy to misread:

- The code writes no final completion line. The last informational lines
  of a successful run are the per-file "All records inserted successfully.
  Closing DB connection.." and "DB connection closed".
- The audit line concatenates every field of the row, including fields
  past the tenth and the raw `values[8]` with its commas.
- The row checks run in source order: `values[8]`, then the date in
  `values[2]`, then `values[9]`, then `Integer.parseInt`. A nine-field row
  with a bad date therefore fails on the date.
- The quantity is a 32-bit `int`, so a quantity outside that range is a
  `NumberFormatException`.
- After the first regular file the statement is closed, but a later row
  is still parsed before anything is bound. A later data row that fails a
  check therefore ends the run with its own parse fault (SEVERE). Only a
  well-formed row reaches the SQL error of the closed statement (WARNING).
- A later file with no data rows does not fail: closing an already closed
  JDBC statement or connection does nothing, so it logs the two closing
  lines again.
- A missing directory gives a null listing. The resulting
  `NullPointerException` is raised by the `for` loop, after the
  connection is made, so a connection failure takes precedence over it.
- `encrypt` round-trips only for passwords that do not already decrypt.
  A password that already decrypts is stored as is, and the connection
  receives its decryption.

## Model

| member | source | states |
|---|---|---|
| `JavaInt.ParseIntAccepts` | src/Main.java:102 | an accepted quantity text is a 32-bit value made of digits with at most one leading `+` or `-`, which must be followed by a digit; every negative value has the `-` |
| `JavaInt.ParseIntComplete` | src/Main.java:102 | conversely, every text of an optional `+` or `-` followed by digits is accepted when its value fits in 32 bits, with that value, so "+5", "007" and "-0" are read as Java reads them |
| `JavaInt.ParseFormatRoundTrip` | src/Main.java:102 | every 32-bit integer is read back from its decimal spelling |
| `JavaInt.ParseRejectsOverflow` | src/Main.java:102 | the decimal spelling `FormatInt(n)` of a value n outside 32 bits is rejected |
| `JavaInt.ParseRejectsNonDigit` | src/Main.java:102 | a character that is neither a digit nor a leading sign makes the text unparseable |
| `Faults.FirstCatch` | src/Main.java:152-166 | the clause chosen is the first, in source order, whose class the exception's class inherits from |
| `Faults.Handle` | src/Main.java:152-166 | every fault is caught by some clause of `main`, which matches its class |
| `Faults.CatchOrder` | src/Main.java:152-166 | the first matching clause is the FileNotFoundException, NullPointerException or SQLException clause for exactly those classes, and the `Exception` clause for every other class |
| `Faults.Classification` | src/Main.java:152-166 | a missing file gives WARNING "File not found ", a null listing WARNING "Bad File Path ", every SQL failure WARNING with the bare message, and row, date, number, read and driver failures SEVERE "Error inserting records: " |
| `Records.StripCommasSpec` | src/Main.java:97 | the stored item name holds no comma, is no longer than the field, and keeps every other character as often as the field has it |
| `Records.StripCommasAppend` | src/Main.java:97 | stripping works piece by piece, so the kept characters stay in their original order |
| `Records.StripCommasKeepsCommaFree` | src/Main.java:97 | a comma-free name is stored unchanged, so stripping is idempotent |
| `Records.ParseRowChecks` | src/Main.java:96-114 | the four row checks fail in source order with their own faults; a passing row binds fields 0-7 verbatim except the parsed date in parameter 3, the stripped `values[8]` in parameter 9 and the parsed `values[9]` in parameter 10 |
| `Records.ParseRowIgnoresExtraFields` | src/Main.java:96-114 | fields from index 10 on never influence the bound record or the row's fault |
| `Records.StoredItemName` | src/Main.java:97-113 | the ITEM_NAME parameter of an inserted row has no comma and equals the raw field when that had none |
| `Records.AuditLayout` | src/Main.java:123-139 | the audit line is "Inserted record: " followed by fields 0-7, the raw field 8, field 9 and every later field, without delimiters |
| `Records.BuildAuditLine` | src/Main.java:123-139 | the StringBuilder loop, including its `k == 9` branch, yields exactly the prefix followed by all fields run together |
| `PasswordEncryptor.KeyBytes` | src/PasswordEncryptor.java:11 | the fixed key is sixteen bytes, an AES-128 key |
| `PasswordEncryptor.Decrypt` | src/PasswordEncryptor.java:31-38 | decrypt fails on text that is not Base64 and on bytes that do not decrypt under the fixed key; it succeeds only when both steps do |
| `PasswordEncryptor.SealDecrypts` | src/PasswordEncryptor.java:24-37 | given only the Base64 and AES inverse laws, freshly sealed text always decrypts, to the platform charset's reading of the password's bytes |
| `PasswordEncryptor.SealRoundTrip` | src/PasswordEncryptor.java:24-37 | freshly sealed text decrypts to the password it sealed, whenever the platform charset gives that password back from its bytes |
| `PasswordEncryptor.EncryptedDecrypts` | src/PasswordEncryptor.java:13-29 | given only the Base64 and AES inverse laws, whatever encrypt returns decrypts, on any platform charset |
| `PasswordEncryptor.EncryptIdempotent` | src/PasswordEncryptor.java:13-29 | given only the Base64 and AES inverse laws, encrypting an encrypted password returns it unchanged, on any platform charset |
| `PasswordEncryptor.EncryptRoundTrip` | src/PasswordEncryptor.java:15-37 | decrypt undoes encrypt for a password that did not decrypt and that the charset gives back; for one that did, decrypt of the result is that earlier decryption |
| `PasswordEncryptor.FalsePositive` | src/PasswordEncryptor.java:15-18 | a plaintext that happens to decrypt to other text is stored as is and does not round-trip |
| `Loader.RowStep` | src/Main.java:96-139 | a successful row emits three events with the insert in the middle; a failed row emits no insert |
| `Loader.LoadRows` | src/Main.java:85-140 | the row loop never changes the connection state, never drops what the trace already held, and writes no error line |
| `Loader.LoadFile` | src/Main.java:83-145 | a file that completes leaves the statement and connection closed; a failing one leaves them as they were |
| `Loader.LoadEntries` | src/Main.java:80-147 | the entry loop only appends to the trace, writes no error line, and never reopens a closed connection |
| `LogOrder.AuditFollowsInsert` | src/Main.java:116-139 | in every run's log, each insert comes directly after an "Executing DB update" line and directly before an informational line starting "Inserted record: ", and every such line comes directly after an insert, so an audit line is written only once executeUpdate has succeeded |
| `LoaderProperties.RowStepInserts` | src/Main.java:96-139 | a row inserts exactly its parsed record when it succeeds, on an open statement, and nothing when it faults |
| `LoaderProperties.RowsInsertDataRows` | src/Main.java:85-140 | the k-th insert of a file is its parsed k-th data row; a file that completes on an open statement inserted every data row; a closed statement inserts nothing |
| `LoaderProperties.FileHeaderIgnored` | src/Main.java:85-94 | replacing a file's first row leaves the file's processing unchanged |
| `LoaderProperties.HeaderNeverRead` | src/Main.java:80-94 | the first row of every regular file is never bound, inserted or logged: replacing it changes nothing in the run |
| `LoaderProperties.HeaderNeverReadInRun` | src/Main.java:57-94 | the same for a whole run from the listing on |
| `LoaderProperties.RowsStopAtFault` | src/Main.java:89-140 | after a faulting row, no later row of the file is processed and the trace so far is kept |
| `LoaderProperties.RowsAbortAtBadRow` | src/Main.java:89-140 | when the data rows before row m went through and row m fails a check, the row loop ends at row m with that row's own fault, keeping the trace so far and adding nothing for the row |
| `LoaderProperties.FileAbortsAtBadRow` | src/Main.java:83-145 | the same for a file: its first data row to fail a check ends the file with that fault, before the closing lines |
| `LoaderProperties.RunAbortsAtBadRow` | src/Main.java:80-165 | when the first regular file's row m is the first data row to fail a check, the run is the inserts and audit lines of the rows before it, then the severe "Error inserting records: " line with that row's fault, with the connection left open |
| `LoaderProperties.FirstFileUnusable` | src/Main.java:80-165 | a first file that cannot be opened gives only the "File not found " warning, and one that cannot be read gives only the severe line, with no insert |
| `LoaderProperties.EntriesStopAtFault` | src/Main.java:80-166 | after a fault, no later entry is processed and the inserts already made remain |
| `LoaderProperties.DirectoriesSkipped` | src/Main.java:80-81 | entries that are not regular files are skipped without reads, inserts or log lines |
| `LoaderProperties.ConnectionAndListingFailures` | src/Main.java:57-80 | a connection failure ends the run before any entry is examined, and a null listing ends it at the loop, each with the one line its catch clause writes |
| `LoaderProperties.ReportedOnce` | src/Main.java:152-166 | a failed run logs exactly one error line, last, from the clause handling its fault; a finished run logs none |
| `LoaderProperties.ClosedInsertsNothing` | src/Main.java:141-145 | once the statement is closed, no later entry inserts anything |
| `LoaderProperties.LaterFileFails` | src/Main.java:97-119 | a regular file met after the close, with a data row, ends the run at that row with no insert: with the row's parse fault, or with the SQL error of the closed statement |
| `LoaderProperties.InsertsOnlyFromFirstFile` | src/Main.java:80-145 | every insert of a run comes from the first regular file: the k-th insert is its parsed row k + 1 |
| `LoaderProperties.RunInserts` | src/Main.java:152-166 | the error line written by a catch clause inserts nothing |
| `Startup.ExecutionStarts` | src/Main.java:41-45 | the decrypt on line 43 never throws, and the stored password is encrypt of the configured one |
| `Startup.PlaintextIsProtected` | src/Main.java:41-75 | a plaintext password that the charset gives back is stored as different text that decrypts to it, and the database receives the plaintext |
| `Startup.CiphertextIsKept` | src/Main.java:41-75 | a configured value that decrypts is stored unchanged, and its decryption is what the database receives |
| `Startup.StoredPasswordIsStable` | src/Main.java:41-45 | a second execution leaves the stored password and the connection password unchanged |
| `Scenarios.OneInsertThenBadQuantity` | src/Main.java:85-165 | a header, a good row and a row with quantity "abc": one insert with the comma stripped, one audit line, then the SEVERE number-format line and no closing lines |

## Left out

- Reading and writing `config.properties`, the `printStackTrace` branches, and the logger, FileHandler and log-file naming (src/Main.java:25-51, 61-71). These are file I/O and global logger state. The stored password is what `main` passes to `props.setProperty`.
- A null `CSV_FILE_PATH` or `JDBC_PASSWORD` is excluded, because Dafny strings are never null. The directory listing itself can still be null.
- Loading the driver, `getConnection` and `prepareStatement` are one input, `Env.connect`, which gives connected, no driver or refused for the decrypted password.
- `executeUpdate` is an input function of the inserts made so far and the new record. It either succeeds or raises an SQL error with a message. Autocommit and table contents are not modelled.
- opencsv parsing and quoting: a regular file is given as its already split rows. A read failure is one entry kind, with no detail of opencsv's exceptions.
- `SimpleDateFormat("MM/dd/yyyy hh:mm:ss a")` is an input partial function from text to milliseconds. Its lenient parsing and time zone are not modelled.
- JavaInt.ParseInt: accepts ASCII digits only, while Java's `Character.digit` also accepts other Unicode decimal digits. The 32-bit overflow check is made on the whole value rather than digit by digit, which accepts and rejects the same texts.
- AES with the JCA default mode and padding, the Base64 basic codec (RFC 4648 section 4) and the platform charset are the functions of a `Crypto` value. Proofs rely only on the inverse laws of `SealOpens`: Base64 decode undoes encode, and AES decryption undoes encryption under the same 16-byte key. The round trips also need `Recovers`, which says the charset gives that one password back from its bytes. Exceptions from `Cipher.getInstance`/`init` are not modelled, because the algorithm and key are fixed.
- PasswordEncryptor.KeyBytes: the key's bytes are the ASCII codes of its 16 characters. The source uses the platform charset, as it does for the password. Every ASCII-compatible charset gives the same bytes for this all-ASCII key.
- PasswordEncryptor.Recovers: a charset that cannot encode some character, such as windows-1252, gives '?' back for it. So the round-trip lemmas (`SealRoundTrip`, `EncryptRoundTrip`, `Startup.PlaintextIsProtected`) do not apply to a password containing such a character. Idempotence, the decrypt after encrypt, and the stability of the stored password need no charset law.
- Exception messages (`getMessage()`) are not modelled. An error event carries the level, the clause's prefix and the fault, and the fault keeps the detail it came from.
- Closing the CSV reader, and leaking it on failure paths, are not modelled. Neither is process termination.
