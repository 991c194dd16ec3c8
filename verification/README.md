# Arrow ADBC drivers: a verified model

This project models the parts of Arrow ADBC in which a mistake is hard to see by reading
one function, and proves what they promise:

- **Flight SQL record reader** (`RecordReader*.dfy`). One goroutine per endpoint, a bounded
  channel each, a closer goroutine and one consumer, as a transition system. The theorems
  quantify over every run, that is, over every interleaving: delivery in endpoint order
  without loss or duplication, the first error published before the end is seen, no double
  close, reference conservation, no deadlock, termination of Next and of the last Release.
- **SQLite reader and binder** (`Sqlite*.dfy`). The one-pass column builder that upcasts its
  buffers in place refines a two-pass specification of the column; batching conserves rows
  and their meaning; the binder flattens batches; bulk ingest inserts what it was given and
  counts it.
- **PostgreSQL COPY reader and parameter binding** (`Pg*.dfy`). Decoding undoes the server's
  encoding, with the exact condition under which the cursor stays on field boundaries; each
  row reaches the server exactly, whatever the reused buffers held before.
- **Flight SQL metadata and transactions** (`LikePattern.dfy`, `ObjectTree.dfy`,
  `ObjectListing.dfy`, `GetObjects.dfy`, `Transactions.dfy`). Pattern compilation preserves
  meaning; the map-indexed builder equals a nested-loop join, the one tree that shows every
  listed row in its place; over any calls transactions end, and statements take effect, as
  the calls mean it.
- **Driver manager** (`DriverManager.dfy`, `ManagerSession.dfy`, `Ownership.dfy`,
  `ManagerBalance.dfy`, `ManagerRuns.dfy`). Over any calls on any number of database and
  connection handles, an untyped pointer that changes owner is never misread, everything is
  freed once, and whatever is created in a driver is released in it.
- **DB-API shared database** (`SharedDatabase.dfy`). The reference count, and the database's
  own count of its connections, under concurrent clone and close.

`Bytes.dfy`, `Bits.dfy`, `VarLength.dfy` and `Wrappers.dfy` hold byte orders, bitmaps,
Arrow's variable-length layout and `Option`.

## How to read it

Code that changes state step by step is a class or a method with loops, proved against a
function or predicate on values; protocols between threads are transition systems. What a
library or server does is a parameter: conversions of doubles are function-valued fields of
an `Env`, failures of remote calls are boolean arguments, a driver's conduct is a
`Behaviour`. Every theorem holds for all values of these.

Where the code does not do what one would expect, the model follows the code and a lemma
gives the exact condition:

- `RecordReaderWiring.FaithfulExactly`: without a schema from the server and with two or
  more endpoints, endpoints sit one slot early and the last slot is nil, so that Next never
  returns false (`UnfaithfulNeverEnds`) and the closer goroutine panics when it closes that
  slot (`PanicsExactly`). The transition system covers the remaining cases
  (`ValidConfigIsFaithful`).
- `RecordReaderTruncation.TruncatesExactly`: a reader can end early with a nil error, through
  a cancelled parent context and only so, exactly when every endpoint opens, those without
  records have a stream that ends well, and some endpoint has a record. `NextFalseMeansDone`
  and `ErrsExactly` therefore ask for an uncancelled parent.
- `PgTuple.CopyExactly`, `PgTuple.TupleExactly`: COPY tuples are rebuilt exactly when every
  field is non-null and not int2, except that the last one may be an int2 value or an int8
  null. `PgTuple.Int2BeforeInt4Faults` is a family of counterexamples. These two count every
  read outside a message as a failure. In memory libpq puts one zero byte behind a message:
  with it a null bool in the last column is stored too (`PgCopy.LastFieldTerminated`,
  `PgTuple.TerminatedTupleExactly`), and an earlier null bool can go unnoticed when the bytes
  happen to agree (`PgTuple.NullBoolBeforeZero`). `PgTuple.RebuiltExactly` gives the condition
  on the bytes of any buffer.
- `SqliteReader.PhasesAgree`: a number in a text column is printed by the driver in the first
  batch and by SQLite in later ones; every other value reads the same in both.
- `SqliteColumn.ColumnBuilder.Finalize`, `PgTuple.CopyReadsBack`: a text column is readable
  exactly while the texts of its values, placeholders of early nulls included, come to less
  than 2^31 bytes, because the builders let int32 offsets wrap.
- `LikePattern.MeaningOnAllStrings`: the dot does not match a newline, so a pattern means
  the same on all strings exactly when it has no wildcard.
- `ObjectTree.DepthTruncates`: the depth law fails exactly when no catalog is reported and
  the pattern admits the empty name that deeper requests stand in for it.
- `DriverManager.Database.Init`: kept options are lost exactly when the driver's
  DatabaseNew fails, and the handle is then misread later exactly when that call had set
  private_data.
- `SharedDatabase.PassedCheckExactly`: the database is released once in every interleaving,
  but no connection is live on the released database exactly when the closing check did not
  pass while a clone was in flight; `ClosingTheSourceReleasesEarly` is a run in which it does.
  Closing never raises if no connection is closed before its clones are finished
  (`ClosingNeverRaises`); `ClosingTheSourceRaises` shows what happens otherwise.

## Model

| member | source | states |
|---|---|---|
| RecordReader.MoveFacts | go/adbc/driver/flightsql/record_reader.go:121-150 | a goroutine's step keeps its channel equal to the records sent and not yet received, closes the channel once on return unless it is the last, and stops cleanly early only under cancellation |
| RecordReader.StepKeepsInv | go/adbc/driver/flightsql/record_reader.go:95-202 | every step of every goroutine, of the error group, the closer and the consumer keeps the reader's invariant |
| RecordReader.RunKeepsInv | go/adbc/driver/flightsql/record_reader.go:95-202 | so does every run |
| RecordReader.DeliveredInEndpointOrder | go/adbc/driver/flightsql/record_reader.go:121-202 | in every interleaving the delivered records are prefixes of the endpoints' records, concatenated in endpoint order; passed endpoints gave everything they sent, later ones nothing |
| RecordReader.NextFalseMeansDone | go/adbc/driver/flightsql/record_reader.go:125-202 | when Next has returned false every goroutine has ended and the group's error is published; with a nil error and an uncancelled parent everything of every endpoint was delivered |
| RecordReader.ChannelsNeverPanic | go/adbc/driver/flightsql/record_reader.go:125-157 | no channel is closed twice and no send meets a closed channel |
| RecordReader.ReferencesConserved | go/adbc/driver/flightsql/record_reader.go:142-202 | each retained record is in a goroutine's hand, in a channel, current, or released; once the reader is freed each was released exactly once |
| RecordReaderProgress.WaitingMeansProgress | go/adbc/driver/flightsql/record_reader.go:108-202 | whenever the consumer waits in Next or drains in Release some step of the program is enabled |
| RecordReaderProgress.InternalStepDecreases | go/adbc/driver/flightsql/record_reader.go:121-202 | every step that is not a fresh call makes a measure of unsent records, running goroutines and open channels smaller |
| RecordReaderProgress.InternalRunsAreBounded | go/adbc/driver/flightsql/record_reader.go:121-202 | under every schedule at most that many steps separate two calls of the application |
| RecordReaderProgress.ReleaseTerminates | go/adbc/driver/flightsql/record_reader.go:166-178 | the last Release ends after boundedly many steps with every goroutine ended and every channel closed |
| RecordReaderProgress.NextTerminates | go/adbc/driver/flightsql/record_reader.go:184-202 | Next ends after boundedly many steps with a result |
| RecordReaderTruncation.TruncatesExactly | go/adbc/driver/flightsql/record_reader.go:121-202 | Next can return false with a nil Err and records missing exactly when every endpoint opens, matching the schema where one was given, every endpoint without records has no stream error, and some endpoint has a record; and only after the parent was cancelled |
| RecordReaderTruncation.ErrsExactly | go/adbc/driver/flightsql/record_reader.go:121-202 | with an uncancelled parent, once Next has returned false Err is nil exactly when every endpoint opens and no stream ends in an error, in whatever order the goroutines ran |
| RecordReaderTruncation.CancelledParentCanTruncateSilently | go/adbc/driver/flightsql/record_reader.go:142-157 | an instance: one endpoint, one record |
| RecordReaderErrors.FirstErrorKept | go/adbc/driver/flightsql/record_reader.go:70-157 | in every run the group holds the first error a goroutine reported to it |
| RecordReaderErrors.ErrIsTheFirst | go/adbc/driver/flightsql/record_reader.go:125-202 | once Next has returned false Err is that first error; with an uncancelled parent it is what went wrong at an endpoint by itself, never an effect of the cancellation |
| RecordReaderErrors.NextAnswers | go/adbc/driver/flightsql/record_reader.go:184-202 | in every run true comes with a current record, the last delivered, and false comes, and keeps coming, exactly when all channels have been passed |
| RecordReaderErrors.CancelledTakesNothing | go/adbc/driver/flightsql/record_reader.go:142-148 | once the context is cancelled no goroutine takes another record |
| RecordReaderErrors.RefCountExact | go/adbc/driver/flightsql/record_reader.go:160-178 | the reference count is one plus the Retains less the Releases, and the channels are drained exactly when it has come to zero |
| RecordReaderWiring.Wire | go/adbc/driver/flightsql/record_reader.go:69-150 | which goroutine writes to which channel, which slot of the reader's table holds it, and who closes it |
| RecordReaderWiring.ValidConfigIsFaithful | go/adbc/driver/flightsql/record_reader.go:69-150 | the readers of the transition system are those whose table is wired faithfully |
| RecordReaderWiring.UnfaithfulNeverEnds | go/adbc/driver/flightsql/record_reader.go:89-202 | on the other tables Next never returns false |
| RecordReaderWiring.PanicsExactly | go/adbc/driver/flightsql/record_reader.go:103-157 | the closer goroutine closes a nil channel exactly on those tables |
| RecordReaderWiring.FaithfulExactly | go/adbc/driver/flightsql/record_reader.go:89-150 | the table gives the reader the endpoints in order exactly when a schema was given or there is one endpoint; otherwise it says which slots are wrong |
| SqliteInfer.DecimalFits | c/driver/sqlite/statement_reader.c:578-604 | every int64 prints in at most 20 characters |
| SqliteInfer.DecimalExact | c/driver/sqlite/statement_reader.c:578-604 | the printed text has a sign exactly for negative numbers and denotes the number |
| SqliteInfer.FirstText | c/driver/sqlite/statement_reader.c:690-811 | the first TEXT value of a column, where the specification splits it |
| SqliteInfer.ColumnMeans | c/driver/sqlite/statement_reader.c:690-811 | the specified column in terms of its values: the least type that holds them, nulls as nulls, numbers as themselves or converted, texts as themselves, and how a number in a text column is printed |
| SqliteInfer.StoredTextAppend | c/driver/sqlite/statement_reader.c:774-804 | once a column is text, later values change nothing about the stored text of its entries |
| SqliteInfer.StoredTextAtFirst | c/driver/sqlite/statement_reader.c:774-804 | the first TEXT value decides how all earlier entries, nulls included, are printed: through the joined type of the prefix |
| SqliteColumn.AppendInt64ToBinary | c/driver/sqlite/statement_reader.c:578-609 | appends the decimal text and its end offset within reserved room, without a second attempt at printing |
| SqliteColumn.AppendDoubleToBinary | c/driver/sqlite/statement_reader.c:611-639 | the same for a double |
| SqliteColumn.UpcastInt64ToDouble | c/driver/sqlite/statement_reader.c:561-576 | every entry converted in place of the old one, within the capacity already there |
| SqliteColumn.UpcastInt64ToBinary | c/driver/sqlite/statement_reader.c:641-663 | offsets and text of every entry; the offsets fit the room the numbers had |
| SqliteColumn.UpcastDoubleToBinary | c/driver/sqlite/statement_reader.c:665-687 | the same from doubles |
| SqliteColumn.ColumnBuilder.constructor | c/driver/sqlite/statement_reader.c:498-513 | an empty int64 column with room for the rows to infer |
| SqliteColumn.ColumnBuilder.InferOneValue | c/driver/sqlite/statement_reader.c:690-811 | refuses a BLOB before changing anything; otherwise the buffers are those of the two-pass specification of all values seen |
| SqliteColumn.ColumnBuilder.AppendNumber | c/driver/sqlite/statement_reader.c:690-770 | eight more bytes, within the reserved bitmap and data |
| SqliteColumn.ColumnBuilder.BecomeString | c/driver/sqlite/statement_reader.c:774-795 | whatever the column was, it now holds the specified text of every entry |
| SqliteColumn.ColumnBuilder.Finalize | c/driver/sqlite/statement_reader.c:516-558 | the "no backing buffer" error is unreachable; the array has the joined type, its text is as long as the values say, it is well-formed exactly when that is below 2^31 bytes, and then reads as the specified column |
| SqliteColumn.StringsReadBack | c/driver/sqlite/statement_reader.c:516-558 | a consumer of a text column reads the specified cells, nulls as null |
| SqliteColumn.NumbersReadBack | c/driver/sqlite/statement_reader.c:516-558 | a consumer of a numeric column reads the specified cells, nulls as null |
| SqliteReader.ConvertAcceptsUpToType | c/driver/sqlite/statement_reader.c:260-361 | after inference a value is accepted exactly when its class is at or below the column's type, and the inferred type accepts all values it was inferred from |
| SqliteReader.PhasesAgree | c/driver/sqlite/statement_reader.c:260-361 | a value converted to the inferred type is the cell the inference specifies; in a text column for nulls and texts, and other values are as SQLite prints them |
| SqliteReader.FittingPrefix | c/driver/sqlite/statement_reader.c:400-424 | how many rows convert before the first that does not |
| SqliteReader.StatementReader.GetNext | c/driver/sqlite/statement_reader.c:363-438 | the inferred batch first and once; then up to a batch of converted rows; an error at the first row that does not fit; a permanent end of stream |
| SqliteReader.AppendRow | c/driver/sqlite/statement_reader.c:416-422 | a row is appended to every column or reported as not fitting |
| SqliteReader.InferRow | c/driver/sqlite/statement_reader.c:861-866 | a row goes to all builders unless it has a BLOB |
| SqliteReader.InferRows | c/driver/sqlite/statement_reader.c:840-868 | the first rows, up to a batch, reach the builders; fails exactly on a BLOB or a failing step among them |
| SqliteReader.InferFinalize | c/driver/sqlite/statement_reader.c:516-558 | every column's array and type are the specified ones, readable exactly when the column's texts come to less than 2^31 bytes |
| SqliteReader.ExportReader | c/driver/sqlite/statement_reader.c:813-888 | succeeds exactly on a clean first batch and leaves a reader holding it, standing right behind it |
| SqliteReader.ReadAll | c/driver/sqlite/statement_reader.c:363-438 | reading to the end succeeds exactly when the statement finishes and later rows fit; then every row came once, in order, in full batches but the last, only the first possibly empty; and every readable column says what the statement yielded |
| SqliteReader.StreamSays | c/driver/sqlite/statement_reader.c:363-438 | over the whole stream a numeric column is the specified column of all rows, as if all had been inferred; a text column has every null and every text, and other values as inferred or as SQLite prints them |
| SqliteBinder.BindRow | c/driver/sqlite/statement_reader.c:145-208 | every column's parameter, which says the row again, exactly when every cell is representable and taken; otherwise the error of the first that is not |
| SqliteBinder.CellReadsBack | c/driver/sqlite/statement_reader.c:145-208 | what is bound says the cell again, a double after its passage through int64; a cell binds exactly when it is representable and taken, and each failure has its own error |
| SqliteBinder.RowReadsBack | c/driver/sqlite/statement_reader.c:145-208 | a bound row says the row again |
| SqliteBinder.BoundDistinguishes | c/driver/sqlite/statement_reader.c:145-208 | rows without floating-point columns that are bound alike are alike |
| SqliteBinder.Binder.Refill | c/driver/sqlite/statement_reader.c:97-135 | passes over empty batches; rows still ahead are unchanged; finished exactly when none is left; an array that does not match the schema is INTERNAL, a failing stream IO |
| SqliteBinder.Binder.BindNext | c/driver/sqlite/statement_reader.c:92-213 | binds the next row of the flattened stream, so that what is bound says it again, or finishes exactly after the last; a row that fails stays next; the errors of Refill in its place |
| SqliteBinder.Binder.Release | c/driver/sqlite/statement_reader.c:216-231 | the binder is empty |
| SqliteBinder.IngestRows | c/driver/sqlite/sqlite.c:1288-1307 | inserts the bound rows in order up to the first that does not get through; the table says those rows again |
| SqliteBinder.ExecuteIngest | c/driver/sqlite/sqlite.c:1277-1313 | rows_affected is left alone without a bound stream and is the number of rows inserted in every other outcome; the table says the first rows of the stream again, cell by cell, exactly if no column is floating-point; success exactly when everything got through; the binder is not asked after it finished |
| SqliteBinder.IngestsExactly | c/driver/sqlite/sqlite.c:1288-1307 | a row gets through exactly when every cell is representable and SQLite takes it, resets and executes |
| Bytes.LERoundTrip | c/driver/sqlite/statement_reader.c:561-576 | host-order bytes read back |
| Bytes.LEWeights | c/driver/sqlite/statement_reader.c:561-576 | byte k counts multiples of 256^k |
| Bytes.BERoundTrip | c/driver/postgresql/util.h:129-157 | network-order bytes read back |
| Bytes.BEInverse | c/driver/postgresql/util.h:129-157 | and bytes come back from the number they denote |
| Bytes.BEWeights | c/driver/postgresql/util.h:129-157 | byte k of n counts multiples of 256^(n-1-k) |
| Bits.PutBitReads | c/driver/postgresql/statement.cc:536-541 | setting a bit changes that bit only, also when the bitmap grows |
| Bits.BitIs | c/driver/postgresql/statement.cc:536-541 | bit j counts multiples of 2^j |
| VarLength.ProperExactly | c/driver/postgresql/statement.cc:591-611 | offsets are proper exactly when the pieces come to less than 2^31 bytes, and then every piece reads back |
| PgCopy.InStepExactly | c/driver/postgresql/statement.cc:513-621 | a decoded field ends at the server's boundary exactly when it is neither null nor int2 |
| PgCopy.FieldStored | c/driver/postgresql/statement.cc:513-621 | a field that is in step, or an int2 value or int8 null that nothing follows, is stored as the server meant it |
| PgCopy.LastFieldExactly | c/driver/postgresql/statement.cc:513-621 | at the end of a message these are exactly the fields stored faithfully without a read outside it |
| PgCopy.LastFieldTerminated | c/driver/postgresql/statement.cc:513-621 | with libpq's zero byte behind the message these and a null bool are |
| PgCopy.StoresExactly | c/driver/postgresql/statement.cc:513-621 | wherever the cursor is, a value is stored faithfully exactly when the bytes there pass for it, and the cursor then moves by the value's stride |
| PgCopy.HeldBefore | c/driver/postgresql/statement.cc:513-621 | wherever the cursor is, a column that holds a value more after decoding held the others before; a text value was read with its own length |
| PgCopy.StoredAdvances | c/driver/postgresql/statement.cc:513-621 | wherever the cursor is, a field stored faithfully fits the message and moves the cursor by its encoding if in step, by one byte more if it is a null bool, and by two or more bytes more otherwise |
| PgCopy.ColumnReadsBack | c/driver/postgresql/statement.cc:513-621 | an Arrow consumer reads the held values; readable exactly when they come to less than 2^31 bytes |
| PgTuple.StaysInStepExactly | c/driver/postgresql/statement.cc:494-621 | over a whole tuple the cursor agrees with every boundary exactly when no field is null and no column is int2 |
| PgTuple.TupleExactly | c/driver/postgresql/statement.cc:494-621 | AppendNext on a message with one tuple adds exactly that tuple if and only if it is decodable: no null, no int2, but for an int2 value or an int8 null in the last column; a read outside the message counts as failure |
| PgTuple.RebuiltExactly | c/driver/postgresql/statement.cc:494-621 | in any buffer a tuple is added exactly when the bytes at the decoder's own cursor pass for each of its fields |
| PgTuple.TerminatedTupleExactly | c/driver/postgresql/statement.cc:494-621 | with the zero byte behind the message, and no null bool before the last column, AppendNext adds exactly the tuple if and only if it is decodable or ends in a null bool after fields in step |
| PgTuple.NullBoolBeforeZero | c/driver/postgresql/statement.cc:536-573 | with that byte a null bool followed by an int4 zero is rebuilt, although the cursor is out of step |
| PgTuple.TupleAppended | c/driver/postgresql/statement.cc:494-621 | one AppendNext adds one tuple to the columns and one to the row count |
| PgTuple.TrailerAppended | c/driver/postgresql/statement.cc:499-509 | the trailer adds nothing and is no error |
| PgTuple.HeaderParsed | c/driver/postgresql/statement.cc:402-427 | the first tuple is found behind a header extension of any length |
| PgTuple.CopyRoundTrip | c/driver/postgresql/statement.cc:361-470 | decoding what the server framed rebuilds exactly its tuples, column by column, and their number; a failed command is EIO all the same, an array that cannot be finished its own error |
| PgTuple.CopyExactly | c/driver/postgresql/statement.cc:361-470 | the whole stream is rebuilt if and only if every tuple is decodable; a read outside a message counts as failure |
| PgTuple.CopyReadsBack | c/driver/postgresql/statement.cc:361-470 | a consumer can read a column exactly when the server's fields in it come to less than 2^31 bytes, and then reads those fields |
| PgTuple.Int2BeforeInt4Faults | c/driver/postgresql/statement.cc:567-573 | every tuple of an int2 and an int4 column makes the decoder read past its message |
| PgOutcomes.AppendFails | c/driver/postgresql/statement.cc:494-621 | EIO is exactly a field count that is neither the schema's nor -1, EINVAL exactly a bool byte above 1 reached by the cursor; a failure adds no row |
| PgOutcomes.HeaderExactly | c/driver/postgresql/statement.cc:402-427 | a header is accepted, with the first tuple at a position, exactly when the bytes before that position are a header with an extension of the announced length |
| PgOutcomes.WrongColumnCount | c/driver/postgresql/statement.cc:361-470 | a server that sends another number of columns is refused with EIO, or with the error of finishing the array, and no row |
| PgReader.Batch.AppendNext | c/driver/postgresql/statement.cc:494-621 | the loop over the columns with its moving cursor computes the specified columns, count and error |
| PgReader.Connection.GetCopyData | c/driver/postgresql/statement.cc:407-443 | messages in order, then none |
| PgReader.TupleReader.GetNext | c/driver/postgresql/statement.cc:361-470 | the first call drains the connection as specified; every later call is end of stream and leaves the connection alone |
| PgTypes.TypeMapping.Insert | c/driver/postgresql/type.cc:23-37 | records the type of an OID if known, and canonical OIDs for int8 and text only |
| PgTypes.ReceiversExact | c/driver/postgresql/type.cc:23-37 | a receive function resolves to a type exactly when it is one of that type's |
| PgTypes.LoadTypes | c/driver/postgresql/database.cc:44-65 | each OID resolves by its last usable row; canonical OIDs are those of the last int8 and text rows and 0 for every other type |
| PgBind.SlotsDisjoint | c/driver/postgresql/statement.cc:252-258 | slots follow one another without overlap |
| PgBind.BindStream.SetParamTypes | c/driver/postgresql/statement.cc:209-259 | succeeds exactly when every field is int64 or string and the server has int8 or text for it; then the server is told that type and slots tile the buffer |
| PgBind.BindStream.FillCell | c/driver/postgresql/statement.cc:299-327 | lays out one cell without disturbing the columns before it |
| PgBind.BindStream.FillRow | c/driver/postgresql/statement.cc:298-327 | every column stands for its cell of this row, whatever earlier rows left behind |
| PgBind.BindStream.ExecuteRow | c/driver/postgresql/statement.cc:298-342 | the server receives exactly the row |
| PgBind.BindStream.Execute | c/driver/postgresql/statement.cc:275-346 | the server receives a prefix of the stream's rows in order; on success all, each accepted, and rows_affected is their number; otherwise it counts completed batches; a batch that does not match the schema ends it |
| PgBind.BindStream.ExecutePrepared | c/driver/postgresql/statement.cc:752-773 | the unsupported-type branch of Execute is unreachable: the only such error comes from setting up parameters; the server receives the cells of a prefix of the rows, nulls as nothing, texts as their bytes, integers as eight bytes that denote them |
| PgBind.IntReadsBack | c/driver/postgresql/util.h:155-161 | the server reads the integer that was bound |
| PgBind.SentConveys | c/driver/postgresql/statement.cc:298-342 | nothing is sent for a null, exactly its bytes for a text, and eight bytes, most significant first, for an integer |
| PgBind.SentDistinguishes | c/driver/postgresql/statement.cc:298-342 | rows that reach the server alike are alike |
| LikePattern.CompiledParses | go/adbc/driver/flightsql/flightsql_adbc.go:1130-1159 | the emitted text, metacharacters quoted, parses to the anchored token sequence of the pattern |
| LikePattern.AnchoredMeans | go/adbc/driver/flightsql/flightsql_adbc.go:1130-1159 | on every string the regular expression matches exactly when the SQL pattern does with wildcards that stop at newlines |
| LikePattern.CompilationPreservesMeaning | go/adbc/driver/flightsql/flightsql_adbc.go:1130-1159 | on newline-free strings the regular expression matches exactly when the SQL pattern does |
| LikePattern.MeaningOnAllStrings | go/adbc/driver/flightsql/flightsql_adbc.go:1130-1159 | on all strings this holds exactly for patterns without a wildcard |
| LikePattern.PatternToRegexp | go/adbc/driver/flightsql/flightsql_adbc.go:1130-1159 | no pattern gives no filter; any pattern compiles, to a filter with its meaning |
| ObjectTree.DepthTruncates | go/adbc/driver/flightsql/flightsql_adbc.go:880-895 | a shallower result is the full one with deeper lists null, exactly unless a catalog-depth request meets a server without catalogs whose empty name the pattern admits |
| ObjectListing.JoinShows | go/adbc/driver/flightsql/flightsql_adbc.go:861-902 | the join shows the listings row by row: under each kept catalog its schemas, under each schema its tables, with the row's own name and type, and the kept columns with their positions, all in the server's order |
| ObjectListing.ShowsExactly | go/adbc/driver/flightsql/flightsql_adbc.go:861-902 | a tree shows the listings exactly when it is their join |
| GetObjects.NewList | go/adbc/driver/flightsql/flightsql_adbc.go:1040-1044 | appending a list or a null leaves the other lists as they read |
| GetObjects.NewItems | go/adbc/driver/flightsql/flightsql_adbc.go:1046-1048 | appended items extend the last list only |
| GetObjects.IndexSchemas | go/adbc/driver/flightsql/flightsql_adbc.go:1162-1199 | looking a catalog up gives its schemas in the server's order, null catalogs under the empty name |
| GetObjects.IndexTables | go/adbc/driver/flightsql/flightsql_adbc.go:1210-1285 | the same for tables by catalog and schema; fails exactly when a requested table schema does not decode |
| GetObjects.Builder.AppendTableInfo | go/adbc/driver/flightsql/flightsql_adbc.go:1069-1109 | the decoded tables gain this table with its columns that pass the filter, at their original positions |
| GetObjects.Builder.AppendDbSchema | go/adbc/driver/flightsql/flightsql_adbc.go:1051-1067 | the decoded schemas gain this schema with its tables |
| GetObjects.Builder.AppendCatalog | go/adbc/driver/flightsql/flightsql_adbc.go:1034-1049 | the decoded catalogs gain this catalog with its schemas if the filter admits it |
| GetObjects.LookupIsJoin | go/adbc/driver/flightsql/flightsql_adbc.go:1034-1109 | looking up in the maps is joining the listings |
| GetObjects.PassesExactly | go/adbc/driver/flightsql/flightsql_adbc.go:1035-1037 | the compiled filter passes exactly the names that match the SQL pattern |
| GetObjects.GetObjects | go/adbc/driver/flightsql/flightsql_adbc.go:861-902 | fails exactly when a listing the depth needs fails; otherwise the decoded record is the nested-loop join of the listings, filtered by the SQL patterns, and shows every row in its place |
| Transactions.Conservation | go/adbc/driver/flightsql/flightsql_adbc.go:611-655 | begun minus ended transactions is one while one is open and zero otherwise |
| Transactions.EndedOnce | go/adbc/driver/flightsql/flightsql_adbc.go:1362-1416 | every transaction but the open one was ended exactly once |
| Transactions.Connection.SetAutocommit | go/adbc/driver/flightsql/flightsql_adbc.go:611-655 | the exact server traffic of switching autocommit, that it succeeds exactly when the value is known, transactions are supported where needed, and the calls it makes succeed, and that the connection holds the open transaction afterwards |
| Transactions.Connection.Commit | go/adbc/driver/flightsql/flightsql_adbc.go:1362-1385 | commits and begins anew; the no-support error is unreachable |
| Transactions.Connection.Rollback | go/adbc/driver/flightsql/flightsql_adbc.go:1393-1416 | rolls back and begins anew; the no-support error is unreachable |
| Transactions.Connection.Execute | go/adbc/driver/flightsql/flightsql_adbc.go:1430-1476 | dispatches through the open transaction |
| Transactions.TrafficObserved | go/adbc/driver/flightsql/flightsql_adbc.go:1362-1416 | ending and beginning, as the server's log shows it: which way the transaction ended, and what became of its statements |
| Transactions.Perform | go/adbc/driver/flightsql/flightsql_adbc.go:611-655 | each call changes what the log shows as the call means it, and reports the status due |
| Transactions.Session | go/adbc/driver/flightsql/flightsql_adbc.go:1362-1476 | after any sequence of calls with any failures: conservation, the connection holds the open transaction, the server saw exactly the statements asked for, in order, each in the transaction open at its time; transactions ended the way the calls say (Commit and SetAutocommit commit, Rollback rolls back), the statements that took effect and those still waiting are those the calls mean, and every status is the one due |
| DriverManager.World.DropTable | c/driver_manager/adbc_driver_manager.cc:105-128 | a table's driver callback is called once if it has one, the manager's state goes with the table, and the table is freed; all counts stay exact |
| DriverManager.DroppedStillCounted | c/driver_manager/adbc_driver_manager.cc:105-128 | over the whole log every callback was called once for each table that is gone and had one, never before |
| DriverManager.World.ReplayOptions | c/driver_manager/adbc_driver_manager.cc:316-333 | each kept option is delivered at most once, all of them exactly unless one is refused, then nothing after it |
| DriverManager.Database.New | c/driver_manager/adbc_driver_manager.cc:236-241 | fresh kept options |
| DriverManager.Database.SetOption | c/driver_manager/adbc_driver_manager.cc:243-258 | kept before Init, passed to the driver after it |
| DriverManager.Database.SetInitFunc | c/driver_manager/adbc_driver_manager.cc:260-270 | kept before Init, refused after it |
| DriverManager.Database.Load | c/driver_manager/adbc_driver_manager.cc:751-770 | a new table for the driver that was set or named; a driver found by name gets the manager's release wrapper and state |
| DriverManager.Database.Init | c/driver_manager/adbc_driver_manager.cc:272-336 | on every path the exact log and who owns the kept options, the table and the state; succeeds exactly when a driver was chosen, loads, and takes New, every option and Init; well-typed exactly unless a failing DatabaseNew set private_data |
| DriverManager.Database.HandOver | c/driver_manager/adbc_driver_manager.cc:316-335 | kept options are freed once on both outcomes, and a refusing driver is released and detached without a trace |
| DriverManager.Database.Release | c/driver_manager/adbc_driver_manager.cc:338-357 | frees what the handle holds, zeroes it, and passes the driver's status on |
| ManagerSession.Connection.New | c/driver_manager/adbc_driver_manager.cc:440-448 | fresh kept options |
| ManagerSession.Connection.SetOption | c/driver_manager/adbc_driver_manager.cc:486-499 | refused on a null handle, kept before Init, passed on after it |
| ManagerSession.Connection.Init | c/driver_manager/adbc_driver_manager.cc:413-438 | kept options are freed on every path that reaches the driver; the exact log; succeeds exactly when the driver takes New, every option and Init; well-typed exactly unless a failing ConnectionNew set private_data |
| ManagerSession.Connection.Release | c/driver_manager/adbc_driver_manager.cc:462-476 | frees what the handle holds and passes the driver's status on; well-typed afterwards exactly when the driver cleared private_data |
| ManagerSession.LastWriteWins | c/driver_manager/adbc_driver_manager.cc:249-256 | a key is kept for the driver exactly when it was written and is not the manager's own, with the last value written |
| ManagerSession.ManagerKeysKept | c/driver_manager/adbc_driver_manager.cc:249-270 | what is kept for the manager is the last value of "driver" and of "entrypoint", empty if never written, and whether an init function was set |
| ManagerSession.ReplayTells | c/driver_manager/adbc_driver_manager.cc:316-333 | replaying the kept options tells the driver each such key once, with its last value |
| Ownership.TakesTemp | c/driver_manager/adbc_driver_manager.cc:236-241 | pointing a zeroed handle to new options keeps single ownership of everything alive, over any number of handles |
| Ownership.DropsTemp | c/driver_manager/adbc_driver_manager.cc:338-347 | so does freeing a handle's options with its pointer |
| Ownership.Attaches | c/driver_manager/adbc_driver_manager.cc:272-336 | so does giving a database a new function table and the manager's state for it |
| Ownership.Detaches | c/driver_manager/adbc_driver_manager.cc:338-357 | so does freeing both again, as long as no connection uses that table |
| Ownership.Joins | c/driver_manager/adbc_driver_manager.cc:413-438 | so does letting a connection use a database's table |
| Ownership.Leaves | c/driver_manager/adbc_driver_manager.cc:462-476 | so does zeroing the connection again |
| Ownership.NothingLeft | c/driver_manager/adbc_driver_manager.cc:236-476 | when every handle is zero no options, table or state is alive |
| ManagerBalance.StartBalance | c/driver_manager/adbc_driver_manager.cc:307-336 | starting a database creates it in the driver and, if an option is refused, releases it again |
| ManagerBalance.ConnectBalance | c/driver_manager/adbc_driver_manager.cc:413-438 | starting a connection creates it in the driver once, whatever becomes of its options |
| ManagerBalance.EvenExactly | c/driver_manager/adbc_driver_manager.cc:236-476 | with every handle zero and no table alive, the books balance exactly when every database and connection created in a driver was released in it |
| ManagerRuns.DatabaseInitialised | c/driver_manager/adbc_driver_manager.cc:272-336 | every outcome of a database's Init keeps single ownership |
| ManagerRuns.ConnectionInitialised | c/driver_manager/adbc_driver_manager.cc:413-438 | every outcome of a connection's Init does |
| ManagerRuns.Session.InitDatabase | c/driver_manager/adbc_driver_manager.cc:272-336 | refused exactly on a zeroed handle, and when neither an init function was set nor a non-empty driver named last; whatever is loaded is what was chosen last; a success, and only that, is a handshake: between DatabaseNew and DatabaseInit the driver received each key written since New that is not the manager's exactly once, with its last value |
| ManagerRuns.Session.InitConnection | c/driver_manager/adbc_driver_manager.cc:413-438 | the same between ConnectionNew and ConnectionInit |
| ManagerRuns.Session.Perform | c/driver_manager/adbc_driver_manager.cc:236-499 | any legal call on any handle keeps single ownership, leaves what the other handles keep as written, and adds a handshake exactly when it is a successful Init |
| ManagerRuns.Session.Run | c/driver_manager/adbc_driver_manager.cc:236-499 | after any legal calls on any number of database and connection handles, with drivers whose New succeeds and whose ConnectionRelease clears private_data: every object is owned by one handle or was freed exactly once, each driver's callback was called once for each table gone, nothing is left when all handles are zero, here or in the drivers, and there is one handshake for every successful Init |
| SharedDatabase.CountersExact | python/adbc_driver_manager/adbc_driver_manager/dbapi.py:209-232 | in every interleaving the reference count is the number of connections counted and not yet discounted, and the database's count of children is the number of registered connections, so that it never underflows |
| SharedDatabase.ReleasedOnce | python/adbc_driver_manager/adbc_driver_manager/dbapi.py:209-317 | in every interleaving the database is released at most once, and exactly once when every connection is done |
| SharedDatabase.SafeExactly | python/adbc_driver_manager/adbc_driver_manager/_lib.pyx:522-584 | no connection is ever live on a released database exactly when no release happens under a live connection: none comes to life afterwards |
| SharedDatabase.ReleasedLast | python/adbc_driver_manager/adbc_driver_manager/_lib.pyx:420-533 | that is so in every interleaving in which no closing check passes while a clone is in flight |
| SharedDatabase.PassedCheckExactly | python/adbc_driver_manager/adbc_driver_manager/_lib.pyx:420-533 | after a closing check has passed, every continuation is safe if and only if no clone was in flight |
| SharedDatabase.DatabaseOutlivesConnections | python/adbc_driver_manager/adbc_driver_manager/dbapi.py:209-288 | so it is, with one release, if no connection is closed while it is being cloned |
| SharedDatabase.ClosingTheSourceReleasesEarly | python/adbc_driver_manager/adbc_driver_manager/dbapi.py:308-317 | closing the source of a clone between its creation and its registration releases the database under it |
| SharedDatabase.ClosingNeverRaises | python/adbc_driver_manager/adbc_driver_manager/_lib.pyx:420-425 | closing never raises if no connection is closed before its clones are counted |
| SharedDatabase.ClosingTheSourceRaises | python/adbc_driver_manager/adbc_driver_manager/dbapi.py:308-317 | closing the source of a clone between its registration and its being counted raises |

## Left out

- Allocation failures, error messages and `AdbcError` ownership throughout.
- Language bindings, validation suites, build scripts, TLS, credentials, timeouts and the client cache: plumbing without hard logic.
- `removeSchemaMetadata` in the record reader: endpoint schemas enter as "matches or not".
- The record reader without a schema and with several endpoints, beyond `FaithfulExactly`, `UnfaithfulNeverEnds` and `PanicsExactly`.
- SqliteReader.StatementReader.GetNext: does not model a bound parameter stream inside the reader, where an inner status variable hides the binder's failures.
- SqliteBinder.BindRow: a FLOAT or DOUBLE parameter is bound after passing through an int64, an uninterpreted function here, so nothing says that bound doubles are preserved.
- SqliteColumn.AppendDoubleToBinary: that "%e" prints fewer than 64 characters is part of the type of the uninterpreted formatting function.
- The one-shot streams around a single batch in `utils.c` and `statement.cc`: a stream of one batch in the model.
- PgTuple.TerminatedTupleExactly: a null bool before the last column is outside, since the outcome then depends on the bytes that follow; `RebuiltExactly` gives the condition on the bytes.
- SqliteBinder.Binder.BindNext: a binder is not asked again after an array that did not match its schema.
- PgTuple.CopyExactly: tables of 2^15 columns and more are outside, since the format's field count cannot express them.
- PgReader.TupleReader.GetNext: columns after a failure are left open, and what makes finishing the array fail is not modelled; a connection that yields no message at all is the out-of-bounds outcome, since the code would read through a null pointer.
- PgBind.BindStream.Execute: a batch is a list of rows; a batch that passes nanoarrow's check fits the schema.
- LikePattern.Parse: regular-expression syntax is limited to anchors, characters, escapes, the dot and the star, which covers all that is emitted; strings are sequences of characters, so invalid UTF-8 is outside.
- GetObjects.GetObjects: the sixteen remaining column fields are one all-null field; constraints are an empty list, as in the code; filters on schema, table name and table type are the server's.
- Transactions.Server.EndTransaction: a failed call has no effect on the server.
- ManagerRuns.Session.Legal: New only on a zeroed handle, Init only before a driver is attached, database options are set only between New and Release, a database is released only when no connection uses its driver, a driver whose New succeeds and whose ConnectionRelease clears private_data; the paths outside are covered by the contracts of Init and Release.
- The driver function table entry by entry, the statement functions of the driver manager and shared-library name guessing.
- SQLite's own GetObjects, the SQLite string builder's growth rule, DB-API row iteration and `database/sql` parameters.
