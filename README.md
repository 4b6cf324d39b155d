# Cloud Spanner `database/sql` driver of kine, modelled in Dafny

kine is an etcd shim for Kubernetes. It stores the key-value log in a SQL database, and this
project models the small `database/sql` driver kine carries for Cloud Spanner, together with
the backend constructor that sits over it. The model covers:

- **Statement compiler** (`statement.go`). A single left-to-right byte scan rewrites the
  placeholders `?` and `$N` into Spanner's named parameters `@param_N`. A backslash copies the
  next byte verbatim. A NUL byte is dropped. Positional arguments are then bound to the
  parameter names. The scan is specified by three mutually recursive functions
  (`Continue`, `Handle`, `AfterErrorByte`). The Go loop over a `strings.Reader` and a
  `statmentBuilder` is a `method`, proved to compute that specification. Besides the
  specification's own lemmas there is an independent token-level reference semantics, and
  the compiler is proved against it.
- **Connection string** (`dsn.go`). `DSN.String` and `DSN.Instance` are built with
  `path.Join` (modelled with `path.Clean`). The path regular expression is a matcher,
  proved to accept exactly the paths the expression describes, with the same captures.
  `ParseConnectionURI` has its three error paths and its query-parameter loop. Take names
  that are plain (non-empty, no slash, not `.` or `..`) and free of `%`. If `url.Parse`
  hands over the printed DSN as the path, parsing it back gives the DSN again; that holds
  when the names are also free of `?`, `#` and control bytes. The path may come bare or
  rooted without a scheme, or rooted after `spanner://`.
- **Result sets** (`rows.go`). `convert` maps a column to a value by its type code.
  `decodeValues` fills the caller's `dest` array in place with first-error semantics. The
  `Rows` cursor has a one-row lookahead in front of a row iterator. The `SubRows` cursor runs
  over a decoded STRUCT array.
- **Transactions** (`transaction.go`). The goroutine, its channels and its `select` become a
  sequential state machine. The operations, the closed op channel and the rollback signal
  are a sequence of events. The loop `runTx` is a method that folds that sequence into the
  outcome. The once guard of the read-write callback is a class.
- **Connection** (`connection.go`). `BeginTx` has a single transaction slot. `exec` and
  `query` are routed either through the running transaction or straight to the client.
  `query` looks one row ahead. `Result` and the statement methods that lead here are included.
- **Backend** (`spanner.go`). `New` parses the connection string before anything is opened.
  The dialect's error classifiers are `TranslateErr` (an already-exists status becomes the
  store's key-exists error) and `Retry` (deadline, cancellation and abort are retried).

Behaviours of the source that the model keeps as written:

- `$0` panics with an index out of range.
- A `$` whose digits do not form a usable number (none, or more than the int64 maximum) writes
  nothing. The byte after it is handled, and then the scan stops. The exception is a second
  `$`, which starts argument parsing again.
- A trailing backslash copies the zero byte that reading past the end returns.
- `$N` leaves unnamed slots in the parameter list. They keep the empty name, and
  `NumInput` still counts them. So a statement using only `$2` takes two arguments.
- `url.PathUnescape`'s error is discarded, so a bad escape makes that name empty.
- `SubRows.Next` has no bounds check. With no valid row ahead, it runs off the end of its
  slice, and the model reports that panic.
- An operation sent to a transaction whose loop has already returned is never taken up. The
  same holds when the loop never ran because the client failed a read-write transaction
  before calling its callback. The caller then waits forever; the model reports this as
  `Blocked`.

Values from the Spanner client are inputs of the model. These are:

- the count and error of `Update`;
- the error `ReadWriteTransaction` returns;
- how many times the client invokes a read-write transaction's callback (possibly never);
- the rows and errors of a row iterator;
- the decoding result of a column.

The result of `url.Parse` is an input too: `None` for a string it rejects, else the
lower-cased scheme, the decoded path and the query values.

## Model

| member | source | states |
|---|---|---|
| StatementCompiler.ParamNameInjective | pkg/drivers/spanner/driver/statement.go:19-21 | different placeholder numbers get different parameter names |
| StatementCompiler.NumInput | pkg/drivers/spanner/driver/statement.go:127-129 | the number of parameter slots, unnamed gaps included; `SpannerStatement` accepts exactly this many arguments |
| StatementCompiler.Put | pkg/drivers/spanner/driver/statement.go:38-45 | the name list grows to `p` slots only when it is shorter; slot `p-1` then holds `param_p`; every other slot keeps its name, and new slots are empty |
| StatementCompiler.PutWellShaped | pkg/drivers/spanner/driver/statement.go:38-47 | writing a parameter keeps every slot either empty or named after its own index, with the last slot named |
| StatementCompiler.ParseInt | pkg/drivers/spanner/driver/statement.go:102-106 | a run of digits parses exactly when it is non-empty and at most the int64 maximum, to its decimal value |
| StatementCompiler.Reader.ReadByte | pkg/drivers/spanner/driver/statement.go:62 | the next byte, or the zero byte with EOF at the end; the unread input loses its first byte |
| StatementCompiler.StatementBuilder.WriteByte | pkg/drivers/spanner/driver/statement.go:29-31 | appends the byte to the SQL and changes nothing else |
| StatementCompiler.StatementBuilder.WriteParam | pkg/drivers/spanner/driver/statement.go:38-47 | leaves the `?` counter alone, puts `param_p` in slot `p-1` of the grown name list, and appends `@param_p` |
| StatementCompiler.StatementBuilder.AutoParam | pkg/drivers/spanner/driver/statement.go:33-36 | increments the `?` counter and writes the parameter with the new count |
| StatementCompiler.StatementBuilder.Finish | pkg/drivers/spanner/driver/statement.go:49-54 | the statement holds the builder's SQL and name list |
| StatementCompiler.ReadDigits | pkg/drivers/spanner/driver/statement.go:91-102 | reads the longest run of digits and the byte after it; at the end of input it returns the zero byte with EOF |
| StatementCompiler.ParseArg | pkg/drivers/spanner/driver/statement.go:90-109 | returns the byte after the digits, and the number's parse error, which replaces the read error; the parameter is written only for a number from 1 up; for 0 it reports the panic |
| StatementCompiler.DollarResume | pkg/drivers/spanner/driver/statement.go:73-75 | the state `parseArg` hands back continues the way the specification's `$` case does, or panics for 0 |
| StatementCompiler.RunIsResume | pkg/drivers/spanner/driver/statement.go:63-86 | from every loop-top state, the loop iterated to its end reaches what the recursive specification computes |
| StatementCompiler.Iterate | pkg/drivers/spanner/driver/statement.go:64-85 | one pass of the loop body: it stops, panics, or reaches a loop-top state of smaller measure from which the loop ends the same way |
| StatementCompiler.ParseStatement | pkg/drivers/spanner/driver/statement.go:56-88 | the byte loop computes `Compile(q)`: the rewritten statement, or the index panic |
| StatementCompiler.Compile | pkg/drivers/spanner/driver/statement.go:56-88 | the specification of `parseStatement` over the remaining input; computed by `ParseStatement`, characterised by the `StatementProperties` lemmas |
| StatementCompiler.SpannerStatement | pkg/drivers/spanner/driver/statement.go:111-121 | fails with the argument-count error exactly when the counts differ; otherwise the SQL with every argument bound to its ordinal's slot name, in order |
| StatementCompiler.NamedArgs | pkg/drivers/spanner/driver/statement.go:132-138 | argument `i` gets ordinal `i+1` and keeps its value |
| StatementCompiler.BindAllKeys | pkg/drivers/spanner/driver/statement.go:116-119 | the parameter names bound are exactly the slot names the arguments' ordinals select |
| StatementCompiler.BindAllUnique | pkg/drivers/spanner/driver/statement.go:116-119 | an argument whose slot name no other argument selects is bound to its own value, since later arguments overwrite earlier ones |
| StatementCompiler.BindPositional | pkg/drivers/spanner/driver/statement.go:131-158 | for a compiled statement with positional ordinals, every named slot `param_{i+1}` receives the i-th value |
| StatementProperties.CompileWellShaped | pkg/drivers/spanner/driver/statement.go:56-88 | every compiled name list has slot `i` empty or `param_{i+1}`, and its last slot named |
| StatementProperties.NulDropped | pkg/drivers/spanner/driver/statement.go:69-70 | a NUL byte writes nothing |
| StatementProperties.EscapedByte | pkg/drivers/spanner/driver/statement.go:64-72 | the byte after a backslash is copied verbatim, whatever it is; the backslash itself is not |
| StatementProperties.TrailingBackslash | pkg/drivers/spanner/driver/statement.go:62-72 | a backslash at the end of input writes the zero byte |
| StatementProperties.QuestionMark | pkg/drivers/spanner/driver/statement.go:76-77 | a `?` takes the next positional index and writes `@param_<index>` |
| StatementProperties.DollarNumber | pkg/drivers/spanner/driver/statement.go:73-75 | `$N` for N from 1 to the int64 maximum becomes `@param_N`, and the byte after the digits is handled normally |
| StatementProperties.DollarZero | pkg/drivers/spanner/driver/statement.go:107 | digits with value 0 after `$` lead to the index-out-of-range panic |
| StatementProperties.CompileDollarZero | pkg/drivers/spanner/driver/statement.go:107 | the query `$0` panics |
| StatementProperties.DollarOverflow | pkg/drivers/spanner/driver/statement.go:103-105 | digits above the int64 maximum are dropped, and the `$` then acts as a bare `$` |
| StatementProperties.BareDollarAtEnd | pkg/drivers/spanner/driver/statement.go:103-105 | a `$` at the end of input writes nothing |
| StatementProperties.BareDollarStops | pkg/drivers/spanner/driver/statement.go:74-83 | after a bare `$`, the next byte (not a digit and not `$`) is handled and the scan stops |
| StatementProperties.DollarDollar | pkg/drivers/spanner/driver/statement.go:73-75 | a `$` right after a bare `$` starts argument parsing again |
| StatementProperties.CompilePlain | pkg/drivers/spanner/driver/statement.go:78-79 | a query with no backslash, `$`, `?` or NUL compiles to itself with no parameters |
| StatementProperties.CompileEscaped | pkg/drivers/spanner/driver/statement.go:64-72 | escaping every byte makes the compiler copy the text verbatim: escaping is its right inverse |
| StatementProperties.CompileEscapedTrailingBackslash | pkg/drivers/spanner/driver/statement.go:62-72 | an escaped text followed by a lone backslash compiles to the text plus a zero byte |
| StatementProperties.ContinueTokens | pkg/drivers/spanner/driver/statement.go:56-109 | on the text of a well-formed token sequence, the scan ends as the token-by-token rendering does |
| StatementProperties.RenderSql | pkg/drivers/spanner/driver/statement.go:33-47 | the rendered SQL is the reference SQL, where `?` counts positions and `$N` does not |
| StatementProperties.RenderArgs | pkg/drivers/spanner/driver/statement.go:33-47 | the rendered name list is as long as the largest index used, and slot `i` is named exactly when index `i+1` is used |
| StatementProperties.CompileTokens | pkg/drivers/spanner/driver/statement.go:56-88 | the compiler agrees with the token-level reference semantics: the SQL, the length of the name list and each slot |
| StatementProperties.DollarThenQuestionCompiles | pkg/drivers/spanner/driver/statement_test.go:13-19 | plain text, `$2`, plain text, `?` compiles with `$2` as `@param_2` and the `?` as `@param_1`, names `param_1, param_2` |
| StatementProperties.UnitTestExample | pkg/drivers/spanner/driver/statement_test.go:13-19 | the `UPDATE balances` query of the unit test compiles to the expected SQL and names |
| Text.DecimalRoundTrip | pkg/drivers/spanner/driver/statement.go:20 | reading back the decimal digits that formatting writes gives the number again |
| Text.DigitRun | pkg/drivers/spanner/driver/statement.go:94-101 | the length of the longest run of leading digits: those are digits and the byte after them is not |
| Dsn.SegmentsJoin | pkg/drivers/spanner/driver/dsn.go:22-24 | splitting at slashes undoes joining slash-free parts |
| Dsn.JoinSegments | pkg/drivers/spanner/driver/dsn.go:22-24 | joining undoes splitting, and every part is slash-free |
| Dsn.JoinPlain | pkg/drivers/spanner/driver/dsn.go:18-24 | `path.Join` of parts that are non-empty, slash-free and not `.` or `..` is those parts joined with slashes |
| Dsn.Clean | pkg/drivers/spanner/driver/dsn.go:19 | `path.Clean`: empty parts and `.` dropped, `..` cancelling the part before it; `JoinPlain` states what it leaves of plain parts |
| Dsn.Join | pkg/drivers/spanner/driver/dsn.go:19 | `path.Join`: leading empty elements skipped and the rest joined and cleaned; `JoinPlain` |
| Dsn.Instance | pkg/drivers/spanner/driver/dsn.go:18-20 | the instance path; `StringPlain` states its printed form |
| Dsn.String | pkg/drivers/spanner/driver/dsn.go:22-24 | the database path; `StringPlain` and `RoundTrip` state its form and that it parses back |
| Dsn.StringPlain | pkg/drivers/spanner/driver/dsn.go:18-24 | for plain names, `String` is `projects/P/instances/I/databases/D` and `Instance` is `projects/P/instances/I` |
| Dsn.MatchPathSound | pkg/drivers/spanner/driver/dsn.go:26 | what the matcher accepts has the shape of the regular expression, with those captures |
| Dsn.MatchPathComplete | pkg/drivers/spanner/driver/dsn.go:26 | every path the regular expression describes is accepted, with its captures |
| Dsn.MatchPathIff | pkg/drivers/spanner/driver/dsn.go:26 | the matcher returns these captures if and only if the path has the expression's shape with them |
| Dsn.MatchPath | pkg/drivers/spanner/driver/dsn.go:26 | the regular expression as a matcher; `MatchPathIff` proves it equivalent to the expression's shape |
| Dsn.UnescapePercentFree | pkg/drivers/spanner/driver/dsn.go:44-46 | a name without `%` is unchanged by unescaping |
| Dsn.BadEscapeEmpties | pkg/drivers/spanner/driver/dsn.go:44-46 | a first `%` not followed by two hex digits makes the unescaped name empty, because the error is discarded |
| Dsn.PathUnescape | pkg/drivers/spanner/driver/dsn.go:44-46 | percent-decoding with the error discarded; `UnescapePercentFree` and `BadEscapeEmpties` state both outcomes |
| Dsn.ParseConnectionURI | pkg/drivers/spanner/driver/dsn.go:28-58 | the method, with its loop over the query map, computes `Parse(u)` |
| Dsn.Parse | pkg/drivers/spanner/driver/dsn.go:28-58 | what `ParseConnectionURI` returns; `ParseFails`, `ParseSucceeds`, `ParseRejectsPath` and `RoundTrip` state its cases |
| Dsn.ParseFails | pkg/drivers/spanner/driver/dsn.go:29-43 | parsing fails exactly on an unparsable string, a scheme other than none or `spanner`, or a path the matcher rejects, with the matching error |
| Dsn.ParseSucceeds | pkg/drivers/spanner/driver/dsn.go:44-57 | on a matching path, the unescaped captures are the project, instance and database, and each query key with values maps to its last value |
| Dsn.ParseRejectsPath | pkg/drivers/spanner/driver/dsn.go:40-43 | a path the regular expression does not describe gives the invalid-path error |
| Dsn.RoundTrip | pkg/drivers/spanner/driver/dsn_test.go:11-17 | for names that are plain and free of `%`, a path that is the printed DSN, bare or rooted without a scheme or rooted after `spanner`, parses back to the DSN, with the query's last values |
| ResultSets.ConvertNullable | pkg/drivers/spanner/driver/rows.go:73-126 | for the six nullable types, the result is nil exactly for NULL and otherwise the decoded value |
| ResultSets.ConvertBytes | pkg/drivers/spanner/driver/rows.go:127-130 | BYTES always gives a byte slice, possibly a nil one, and never nil itself |
| ResultSets.ConvertStruct | pkg/drivers/spanner/driver/rows.go:131-142 | a STRUCT array is nil exactly when it is NULL or empty, and otherwise a cursor over its elements with the first element's column names |
| ResultSets.ConvertErrors | pkg/drivers/spanner/driver/rows.go:71-145 | conversion fails exactly for a code without a case (operation unsupported) or a decoding error, which is returned as it is |
| ResultSets.Convert | pkg/drivers/spanner/driver/rows.go:71-145 | `convert` by type code; its cases are stated by the four `Convert…` lemmas |
| ResultSets.ColumnAt | pkg/drivers/spanner/driver/rows.go:59 | the i-th column exactly when `i` is in range, else the client's index error |
| ResultSets.FirstFailure | pkg/drivers/spanner/driver/rows.go:57-65 | the first column from `i` on that does not convert: every one before it converts |
| ResultSets.DecodeFromFirstError | pkg/drivers/spanner/driver/rows.go:56-69 | the entries before the first failing column get the converted values, the rest keep their old contents, and the error is that column's |
| ResultSets.DecodeValues | pkg/drivers/spanner/driver/rows.go:56-69 | the loop over `dest` leaves exactly the contents and the error the decoding function gives |
| ResultSets.RowIterator.Next | pkg/drivers/spanner/driver/rows.go:41 | returns the iterator's next result, and advances only while rows remain and it is not stopped |
| ResultSets.RowIterator.Stop | pkg/drivers/spanner/driver/rows.go:26 | marks the iterator stopped and leaves its position |
| ResultSets.Rows.Columns | pkg/drivers/spanner/driver/rows.go:20-22 | the column names the cursor was created with |
| ResultSets.Rows.Close | pkg/drivers/spanner/driver/rows.go:24-29 | stops the iterator if there is one, and never fails |
| ResultSets.Rows.Empty | pkg/drivers/spanner/driver/connection.go:125 | the zero `Rows{}`: no columns, no lookahead row, no iterator |
| ResultSets.Rows.Next | pkg/drivers/spanner/driver/rows.go:31-50 | EOF with nothing written when there is neither a lookahead row nor an iterator; else the lookahead row is decoded and cleared; else the iterator's next row is decoded; iterator exhaustion becomes EOF and any other error passes |
| ResultSets.NextOnEmpty | pkg/drivers/spanner/driver/rows.go:31-34 | an exhausted cursor returns EOF again and writes nothing |
| ResultSets.SubRows.constructor | pkg/drivers/spanner/driver/rows.go:139-142 | the cursor starts at index 0 over the array's elements, with the first element's columns |
| ResultSets.SubRows.Next | pkg/drivers/spanner/driver/rows.go:162-169 | skips invalid elements and decodes the next valid one, leaving the index just past it; it panics exactly when no valid element is ahead |
| ResultSets.SubRows.Columns | pkg/drivers/spanner/driver/rows.go:154-156 | the column names fixed at construction |
| ResultSets.SubRows.Close | pkg/drivers/spanner/driver/rows.go:158-160 | never fails |
| ResultSets.SkipInvalid | pkg/drivers/spanner/driver/rows.go:163-165 | skipping the invalid elements lands on the first valid one |
| Transactions.RunTx | pkg/drivers/spanner/driver/transaction.go:89-104 | the loop returns exactly when a terminal event arrives, with that event's result; it consumes the events up to that one |
| Transactions.TxLoop | pkg/drivers/spanner/driver/transaction.go:89-104 | what `runTx` returns after the given events, or that it still waits; `RunTx` computes it |
| Transactions.FirstTerminalDecides | pkg/drivers/spanner/driver/transaction.go:91-103 | the first event that is not a successful operation decides the outcome, and nothing after it is taken |
| Transactions.WaitingIff | pkg/drivers/spanner/driver/transaction.go:91-103 | the loop is still waiting exactly when every event so far is a successful operation |
| Transactions.DoneIsFinal | pkg/drivers/spanner/driver/transaction.go:94-101 | once the loop has returned, later events change neither the outcome nor what was consumed |
| Transactions.StepWaiting | pkg/drivers/spanner/driver/transaction.go:92-102 | one more event for a waiting loop ends it exactly when the event is terminal |
| Transactions.OnceGuard.Call | pkg/drivers/spanner/driver/transaction.go:75-81 | the first call runs the loop; every later call reports the retry error |
| Transactions.OnlyFirstCallRuns | pkg/drivers/spanner/driver/transaction.go:74-80 | of the callback's invocations only the first runs the loop; every retry is refused |
| Transactions.Transaction.constructor | pkg/drivers/spanner/driver/transaction.go:10-18 | a new transaction is running, not failed, with the rollback channel open, and its loop has seen nothing; it keeps its mode and its client oracles |
| Transactions.Transaction.Submit | pkg/drivers/spanner/driver/connection.go:54-63 | sending an operation adds it to the events sent; it runs exactly when the loop runs at all (read-only, or a client that calls the callback) and has not yet returned |
| Transactions.Transaction.Run | pkg/drivers/spanner/driver/transaction.go:67-87 | read-only delivers the loop's result; read-write delivers the client's error, or nil, given the results of every callback invocation, only the first running the loop, none if the client never calls it |
| Transactions.Delivered | pkg/drivers/spanner/driver/transaction.go:67-87 | what `run` sends on the result channel; `ReadOnlyOutcome`, `ReadWriteSuccess` and `UnservedOutcome` state its cases |
| Transactions.Transaction.Running | pkg/drivers/spanner/driver/transaction.go:31-36 | the op channel is still set |
| Transactions.Transaction.Failed | pkg/drivers/spanner/driver/transaction.go:38-40 | an outcome error is recorded; `RunningNeverFailed` |
| Transactions.RunningOf | pkg/drivers/spanner/driver/transaction.go:31-36 | `running` on a possibly nil transaction: false for nil |
| Transactions.Transaction.Finish | pkg/drivers/spanner/driver/transaction.go:42-47 | the loop sees the closing event, and the delivered outcome is stored; afterwards no channel is open |
| Transactions.Transaction.Commit | pkg/drivers/spanner/driver/transaction.go:49-56 | finishes with the closed op channel, leaves the rollback channel as it was, and reports the failure error exactly when the outcome is an error |
| Transactions.Transaction.Rollback | pkg/drivers/spanner/driver/transaction.go:58-65 | closes the rollback channel and finishes; a rollback outcome is reported as nil and any other outcome as itself |
| Transactions.RunningNeverFailed | pkg/drivers/spanner/driver/transaction.go:38-47 | a running transaction has not failed; a finished one has failed exactly when its delivered outcome is an error |
| Transactions.ReadWriteSuccess | pkg/drivers/spanner/driver/transaction.go:82-86 | a read-write transaction whose client succeeds has a nil outcome, whatever the loop returned |
| Transactions.ReadOnlyOutcome | pkg/drivers/spanner/driver/transaction.go:70-72 | a read-only transaction delivers exactly what the loop returned |
| Transactions.UnservedOutcome | pkg/drivers/spanner/driver/transaction.go:74-85 | a read-write transaction whose client never calls the callback ends with the client's error, whatever was sent to it |
| Connection.RowsAffected | pkg/drivers/spanner/driver/connection.go:85-90 | the error with count 0 when there is an error, else the count and no error |
| Connection.LastInsertId | pkg/drivers/spanner/driver/connection.go:81-83 | always the unsupported-operation error |
| Connection.Update | pkg/drivers/spanner/driver/connection.go:92-100 | a result exactly when `Update` succeeds, carrying its count with no error; otherwise its error |
| Connection.Conn.BeginTx | pkg/drivers/spanner/driver/connection.go:35-44 | refused, with the slot unchanged, while the held transaction runs; otherwise a fresh running transaction fills the slot, with the requested mode, the given client oracles, no events and the rollback channel open |
| Connection.Conn.TxnRunning | pkg/drivers/spanner/driver/connection.go:137-144 | false without a transaction, else whether it runs |
| Connection.Conn.Exec | pkg/drivers/spanner/driver/connection.go:46-74 | in a failed transaction, the failure error; otherwise the operation goes to the loop (read-only: the error is read-only and the operation succeeds; read-write: `Update`'s result, whose error also ends the loop) and blocks when the loop has returned or never runs; outside a transaction, the implicit transaction's error wins over `Update`'s result and the held transaction's events are kept; the channel flags, the error and the rollback signal never change, so a valid transaction stays valid |
| Connection.Conn.Query | pkg/drivers/spanner/driver/connection.go:102-135 | in a failed transaction, the failure error; otherwise a successful operation opens the read-only or read-write iterator, blocking as `Exec` does; outside a transaction, the single-use iterator; then the lookahead, which advances only the chosen iterator (the others are unchanged, and nothing changes on failure or blocking); a returned cursor is fresh and valid, the iterators stay valid, and the transaction frame is kept as in `Exec` |
| Connection.Lookahead | pkg/drivers/spanner/driver/connection.go:122-134 | immediate exhaustion gives an empty cursor and no error; another error stops the iterator and is returned; else the cursor holds the first row's column names, the row and the iterator; the iterator moves past the result it yielded and is stopped exactly when that result was an error other than `Done` |
| Connection.StatementExec | pkg/drivers/spanner/driver/statement.go:131-158 | an argument-count mismatch fails before the connection is used; otherwise, with or without a running transaction, the outcome, events and transaction frame that `Conn.Exec` states |
| Connection.StatementQuery | pkg/drivers/spanner/driver/statement.go:142-166 | an argument-count mismatch fails before the connection is used; otherwise, with or without a running transaction, the outcome, events, iterator states and transaction frame that `Conn.Query` states; on a mismatch no iterator changes |
| Spanner.ErrCode | pkg/drivers/spanner/spanner.go:27 | OK for no error, a client error's status code, and Unknown for anything else |
| Spanner.TranslateErr | pkg/drivers/spanner/spanner.go:26-34 | an already-exists status becomes the key-exists error; every other error passes unchanged |
| Spanner.Retry | pkg/drivers/spanner/spanner.go:35-47 | true exactly for a deadline, cancellation or abort status |
| Spanner.UncodedErrors | pkg/drivers/spanner/spanner.go:26-47 | an error without a status code is neither translated nor retried |
| Spanner.ClassifiersDisjoint | pkg/drivers/spanner/spanner.go:26-47 | only the already-exists status is translated, and a retried error is never translated |
| Spanner.New | pkg/drivers/spanner/spanner.go:16-24 | a connection string that does not parse is refused before anything is opened; otherwise the canonical DSN string is opened and the opener's error returned; for canonical names (plain, free of `%`, `?`, `#` and control bytes) that string, parsed again without scheme or query, gives the DSN `New` parsed |
| Spanner.NewOpensCanonical | pkg/drivers/spanner/spanner.go:17-21 | the printed form of a DSN with canonical names (plain, free of `%`, `?`, `#` and control bytes), parsed as a scheme-less connection string with no query, gives that DSN back |

## Left out

- Goroutines, channels, `select` and the connection's read-write mutex are modelled sequentially. The loop's view is the sequence of events it was handed. When a still-waiting loop sees both the closed op channel and the rollback signal, the `select` choice between them is the parameter `rollbackWins` of `Transaction.Rollback`.
- A goroutine blocked forever on the op channel, because the loop already returned, is the `Blocked` reply; the deadlock itself is not modelled.
- Timing and cancellation through `context.Context` are not modelled.
- The Spanner client is not modelled: `Update`, `ReadWriteTransaction`, `ReadOnlyTransaction`, `Single`, `Query` and column decoding are inputs, as listed above.
- `url.Parse` is an input, already split into scheme, decoded path and query values, with the scheme lower-cased; its failure is `None`.
- The messages of `fmt.Errorf` are not modelled. The three errors of `ParseConnectionURI` and the argument-count error of `spannerStatement` are distinct error constants instead.
- A row iterator after `Stop` returns a fixed error of its own choosing, because the client's behaviour there is not part of this model.
- The payloads of BOOL, INT64, FLOAT64, TIMESTAMP, DATE and STRING columns are opaque numbers. Floating point, time zones (DATE's conversion to UTC) and the contents of strings and byte slices are not modelled.
- `Connection.RowsAffected`: the count is an unbounded integer; the int64 width of `Result.Count` is not modelled.
- `Transactions.Transaction.Commit` leaves out the `fmt.Println` of the error, which is output only.
- `Transactions.Transaction.Commit` and `Transactions.Transaction.Rollback` require a running transaction. A second `Commit` would close the op channel, already set to nil, and panic; a second `Rollback` would panic earlier, closing the rollback channel a second time. `database/sql` never makes either call.
- Memory exhaustion from allocating a name list for a huge `$N` is not modelled.
- `StatementCompiler.SpannerStatement` requires, when the counts match, that every ordinal lies between 1 and the count. The index panic an ordinal out of range would cause is not modelled, because the driver's callers number arguments 1, 2, … (`NamedArgs`).
- `Statement.Close`, `conn.Prepare`, `conn.Close`, `conn.Begin`, `NewConnection` and the driver registration and `Open` of `driver.go` are not part of this model. They only construct objects or return nil.
- `generic.Open`, `setupDB` and the log-structured store that `New` wraps around the dialect are not part of this model. Opening is an input error, and `New` records the data source name it opens.
- `Dsn.RoundTrip`: only names that are plain and free of `%` are covered. Other names are changed by `path.Clean` or by unescaping, so they cannot round-trip. The lemma also assumes that `url.Parse` hands over the printed DSN as the path. That holds only for names that are also free of `?` (which starts the query), `#` (which starts the fragment) and control bytes (which make `url.Parse` fail). `url.Parse` is not modelled, so this condition is not stated in Dafny.
- `Spanner.New`: its re-parse clause feeds the opened string to `Dsn.Parse` as the path `url.Parse` would return for it, with no scheme and no query. `url.Parse` is not modelled; `Canonical` therefore also demands names free of `?`, `#` and control bytes, the names for which `url.Parse` returns the string unchanged as the path.
- `Spanner.NewOpensCanonical`: the same; the lemma starts from the path `url.Parse` returns, for names free of `?`, `#` and control bytes, and does not model `url.Parse` itself.
