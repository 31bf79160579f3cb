# DopeDB verification

A Dafny model of the parts of DopeDB whose correctness is not visible from reading one function: the MCP
tool-call scheduler and its line reader, the SQL lexical gate for analysis articles, catalog
canonicalization with schema diff and paging, planned SQL reads, control framing, workspace sync, two validators, and three
algorithms of the desktop crate. Code that updates state is modelled as classes and loops, each proved
against a specification function; the laws are proved about those functions, for all inputs and all runs.

`dafny verify dfyconfig.toml` checks everything.

## What is modelled

- **Scheduler** (`ToolServer*.dfy`). The event loop of `serve` as a state machine over messages, parse and read
  errors, end of input, completions, task steps and write failures. A task may post its completion at any
  time before its abort takes effect. Answers are conserved for every client; for ids used once this is
  exactly-once delivery, with reused ids it fails, and the exact condition is proved over the events
  (`ToolServerReuse.dfy`). Each result on the wire is traced back to the task that posted it (`ToolServerResults.dfy`),
  and the end of a session to its cause (`ToolServerEnds.dfy`).
- **Line reader** (`LineReader.dfy`). The chunked buffer loop, against a specification over the whole stream.
- **SQL gate** (`SqlTokens.dfy`, `SqlLaws.dfy`, `SqlScripts.dfy`, `SqlLiterals.dfy`). The byte scanner over UTF-8 (`Utf8.dfy`), its
  compositional law, what texts made of words, literals and comments scan to, and where exactly the text of a literal can matter.
- **Catalogs** (`Catalog*.dfy`, `JsonValue.dfy`, `JsonReader.dfy`, `Ordering.dfy`). Entries are serialized to JSON text, which a
  reader of RFC 8259 reads back, and JSON values are read by the derived readers; `CatalogShape.dfy` says exactly which
  are read as what. SHA-256 is a parameter: a function to 32 bytes. No theorem assumes it injective; where it matters, the hypothesis is that it does not collide on the two texts at hand.
- **Schema diff and paging** (`BTree.dfy`, `TypeSpelling.dfy`, `SchemaDiff*.dfy`, `Paging*.dfy`).
  `SchemaDiffMeaning.NoDifferenceMeans` states equality on the relations themselves. `Paging.ChainIsLossless`
  joins all three files: pages are cut from diffs of catalogs that are reloaded for every page, and only the
  fingerprints connect them.
- **Reads** (`QueryRead*.dfy`). The broker is an arbitrary function of the history of requests.
- **Framing** (`JsonLimits.dfy`, `Frame.dfy`, `Response.dfy`). The JSON text codec is a parameter; a round trip assumes only
  that the codec reads the message at hand back from its own text.
- **Workspace sync** (`SyncCursor.dfy`, `SyncServer.dfy`, `SyncClient.dfy`, `SyncLaws.dfy`, `SyncRestore.dfy`). The page contract over whole runs, the
  route that makes pages from the event log, the desktop's pull loop, and what they guarantee together: the local copy
  of the connections is never older than the stored cursor.
- **Validators** (`Base64.dfy`, `ExternalAgent.dfy`) and **desktop algorithms** (`ProcessTree.dfy`,
  `ProfileBlock.dfy`, `ProfileMeaning.dfy`, `FileCompare.dfy`).

Where the code does less than one would expect, or than its documentation says, the model follows the code, a
lemma names the input, and the exact condition is proved:

- Configuring the shell profile twice is not always a no-op: the append may push the file over its size limit,
  and the next call then refuses it (`ProfileBlock.TwiceIsOnce`, `ProfileBlock.FullProfileIsRefusedAfterwards`).
- Comparing two files read by read takes a short read of one of them for a difference (`FileCompare.EqualMeans`).
- Cancelling an id that several calls share answers once for all of them, and the other answers never come
  (`ToolServerReuse.AnsweredIffNoneFoundSeveral`, `ToolServerReuse.ReusedIdLosesAnAnswer`).
- Index keys are joined by commas before they are compared, so a comma inside an expression can hide a difference
  (`SchemaDiffMeaning.CommaHidesKeys`, `SchemaDiffMeaning.IndexesAgree`).
- The sync route is meant to rebase clients of a restored server, but sees the restore only while the head is behind the
  client's cursor or far ahead of it (`SyncRestore.RestoreIsNoticedIff`, `SyncRestore.RestoreGoesUnnoticed`).
- Behind text that scans, the text of an SQL literal matters exactly if a line comment is still open there
  (`SqlLiterals.LiteralsInertIff`).

`char::to_lowercase` is a parameter from characters to strings; what is needed of it is that lowering a
character other than a quote yields no quote. Rust's `sort_by` and `BTreeMap` are modelled by a stable
insertion sort and by maps with an ascending walk over their keys. `v & 0x3` and `v & 0xf` on six-bit values are written
as remainders.

## Model

| member | source | states |
|---|---|---|
| `ToolServer.Server.constructor` | dopedb-cli/src/agent_mcp.rs:315-317 | a session starts with nothing queued, active, posted or written |
| `ToolServer.Server.StartToolCalls` | dopedb-cli/src/agent_mcp.rs:393-428 | calls leave the queue from the front and become active until four are; the new state is the recursive `Start` of the old one |
| `ToolServer.Server.FindActive` | dopedb-cli/src/agent_mcp.rs:354 | the index of the first active call with an id, or none |
| `ToolServer.Server.RemoveCalls` | dopedb-cli/src/agent_mcp.rs:456-475 | cancelling removes every queued call with the id and at most one active call, and says how many there were |
| `ToolServer.Server.HandleCancelled` | dopedb-cli/src/agent_mcp.rs:452-482 | one error response exactly when something was removed; removed calls beyond the first get no answer |
| `ToolServer.Server.HandleReaderMessage` | dopedb-cli/src/agent_mcp.rs:430-506 | the whole effect of one message, for every JSON value: no object, no method, no id, unknown method, and each known method |
| `ToolServer.Server.TakeCompletion` | dopedb-cli/src/agent_mcp.rs:350-358 | a completion answers the first active call with its id and is dropped when there is none |
| `ToolServer.Server.Serve` | dopedb-cli/src/agent_mcp.rs:319-360 | under any schedule of messages, completions, task steps, read errors and write failures the loop is in the state `Run` defines |
| `ToolServerLaws.AnswersAreConserved` | dopedb-cli/src/agent_mcp.rs:319-360 | over every run and for any client: per id, requests owed a response = queued + active + answered + swallowed by a cancellation that found several calls; only a failed session forgets any |
| `ToolServerRuns.NeverIdle` | dopedb-cli/src/agent_mcp.rs:319-360 | at most four calls are active; with calls waiting, four are; the select is never reached with both branches disabled |
| `ToolServerRuns.ReceivedWasAsked` | dopedb-cli/src/agent_mcp.rs:430-506 | at most every request that was sent, and exactly every one if each event can be handled when its turn comes, reaches the loop as a call |
| `ToolServerRuns.OwesWhatItReceived` | dopedb-cli/src/agent_mcp.rs:484-506 | over every run a response is owed under an id exactly as often as a call under it was received, and the calls accepted are the calls received, in order |
| `ToolServerRuns.ExactlyOneAnswer` | dopedb-cli/src/agent_mcp.rs:319-360 | a request whose id is used once is never answered twice, is in exactly one of queue, active set and answers until the session fails, and has exactly one response once `serve` returned Ok |
| `ToolServerReuse.AnsweredIffNoneFoundSeveral` | dopedb-cli/src/agent_mcp.rs:452-482 | for clients that reuse ids: a session that returned Ok answered an id as often as it was received exactly if no cancellation found two or more calls under it when it was handled |
| `ToolServerReuse.LostForGood` | dopedb-cli/src/agent_mcp.rs:452-482 | after such a cancellation no continuation of the session brings the answers up to the requests |
| `ToolServerReuse.RunningSessionCanFinish` | dopedb-cli/src/agent_mcp.rs:319-360 | from every running state some continuation makes `serve` return Ok |
| `ToolServerReuse.ReusedIdLosesAnAnswer` | dopedb-cli/src/agent_mcp.rs:452-482 | under any id: five calls and a cancellation make a session that can return Ok with fewer answers than requests, and cannot in any continuation make up for it |
| `ToolServerRuns.ResultsAnswerTheirOwnCall` | dopedb-cli/src/agent_mcp.rs:354-357 | the call a completion is used for has the id it was posted under, and for an id used once it is the very call of the task |
| `ToolServerResults.ChannelIsFifo` | dopedb-cli/src/agent_mcp.rs:350-358 | over every run the completion channel holds what the tasks posted and the loop has not taken, in order |
| `ToolServerResults.EveryAnswerHasItsCause` | dopedb-cli/src/agent_mcp.rs:319-360 | over every run each answer on the wire was written by one event and is what that event calls for: the first completion in the channel with its result, the reply to that message under its id, the error of a parse error or a cancellation; texts, codes and the negotiated version included |
| `ToolServerResults.ResultsComeFromTheirTask` | dopedb-cli/src/agent_mcp.rs:319-360 | over every run each tool result on the wire is, unchanged and under its own id, what a task posted that was started for a call of this id and with the parameters of that call; for an id used once it is the task of that very call |
| `ToolServerResults.ResultsKeepPostingOrder` | dopedb-cli/src/agent_mcp.rs:350-358 | results go out in the order in which they were posted, each at most once |
| `ToolServerResults.CallsMean` | dopedb-cli/src/agent_mcp.rs:430-451 | exactly the `tools/call` messages with an id are calls, under that id and with their own parameters or an empty object |
| `ToolServerResults.CancellationsMean` | dopedb-cli/src/agent_mcp.rs:452-482 | exactly the cancellation messages that name a request cancel it |
| `ToolServerResults.RequestsMean` | dopedb-cli/src/agent_mcp.rs:484-506 | every message with a method and an id is owed an answer under it, but for the two notifications |
| `ToolServerEnds.FailedMeans` | dopedb-cli/src/agent_mcp.rs:319-360 | over every run `serve` has failed exactly if the reader failed or an answer that was due could not be written, and its input is closed exactly if its end was seen |
| `ToolServerEnds.StepEnds` | dopedb-cli/src/agent_mcp.rs:319-360 | a step ends the session with an error exactly if it breaks it; a failed write leaves nothing on the wire |
| `ToolServerEnds.ReturnedMeans` | dopedb-cli/src/agent_mcp.rs:319-360 | `serve` has returned Ok exactly if the end of input was seen, nothing broke, and no call waits or is active |
| `ToolServerEnds.BranchesMean` | dopedb-cli/src/agent_mcp.rs:326-360 | which branches of the select can fire in a state, and that a task told to stop may still post |
| `ToolServerEnds.AbortedMeans` | dopedb-cli/src/agent_mcp.rs:340-358 | over every run: of the tasks still there exactly those are aborted whose call is no longer active although no completion was taken for it, that is, whose call was cancelled or active when the reader failed |
| `ToolServerRuns.StaleCompletionWritesNothing` | dopedb-cli/src/agent_mcp.rs:350-358 | a completion posted by a task whose call was cancelled meanwhile changes neither output nor active calls |
| `ToolServerOrder.CallsStartInOrder` | dopedb-cli/src/agent_mcp.rs:393-428 | over every run calls start in arrival order; a call that was received has started, still waits, or was named by a cancellation that found it waiting, and the last excludes the others |
| `ToolServerOrder.DroppedMeans` | dopedb-cli/src/agent_mcp.rs:456-475 | a call is dropped from the queue exactly if an earlier message cancelled its id while it waited |
| `ToolServerOrder.ClosedSessionIsNeverStuck` | dopedb-cli/src/agent_mcp.rs:319-360 | after end of input, while the session runs, a task can post or a completion can be taken |
| `ToolServerOrder.ClosedSessionDrains` | dopedb-cli/src/agent_mcp.rs:319-360 | after end of input any further run is bounded by the work left, so `serve` returns |
| `LineReader.BufReader.ReadMessage` | dopedb-cli/src/agent_mcp.rs:508-542 | the buffer loop returns exactly the next message of the remaining stream, whatever the sizes of the chunks it is fed |
| `LineReader.BufReader.ReadAll` | dopedb-cli/src/agent_mcp.rs:363-391 | reading to the end yields the session of the whole stream, independent of chunking |
| `LineReader.SessionIsSplit` | dopedb-cli/src/agent_mcp.rs:508-542 | that session is: the newline-separated pieces, each without trailing carriage returns, blanks skipped, a non-empty unterminated tail unchanged, and an error exactly at the first piece over the limit |
| `LineReader.PiecesJoin` | dopedb-cli/src/agent_mcp.rs:522-524 | the pieces put together with newlines are the stream, and no piece holds a newline |
| `SqlTokens.ScanQuoted` | dopedb-protocol/src/analysis_article_sql.rs:48-70 | the quote loop finds the end of a quoted run with doubled quotes and backslashes, or reports it unclosed |
| `SqlTokens.ScanNext` | dopedb-protocol/src/analysis_article_sql.rs:31-108 | one pass of the outer loop does what the lexeme function says, in every branch |
| `SqlTokens.Scan` | dopedb-protocol/src/analysis_article_sql.rs:27-110 | the scanner returns exactly `Tokens` of every UTF-8 text and needs no other assumption |
| `SqlTokens.LexStopsOnBoundary` | dopedb-protocol/src/analysis_article_sql.rs:31-108 | every pass moves forward and stops on a character boundary inside the text, also after a backslash before a multi-byte character |
| `SqlLaws.LinesCompose` | dopedb-protocol/src/analysis_article_sql.rs:27-110 | if a text scans, a newline and a second text after it add exactly the tokens of the second text, or make the scan fail when the second fails |
| `SqlLaws.WordsRoundTrip` | dopedb-protocol/src/analysis_article_sql.rs:93-107 | joining words in any letter case and semicolons with newlines and scanning returns the list with ASCII capitals lowered by code point and every other byte as it was |
| `SqlScripts.ScriptScans` | dopedb-protocol/src/analysis_article_sql.rs:27-110 | a text put together from words in any case, blanks, punctuation, quoted literals with doubled quotes and backslashes, line comments, block comments and dollar-quoted texts scans to exactly its folded words and semicolons |
| `SqlScripts.ScriptVerdict` | dopedb-protocol/src/analysis_article_sql.rs:4-25 | such a text is accepted exactly if its first word, folded, is one of the three reading words, none is prohibited, and a semicolon comes only last |
| `SqlScripts.CaseDoesNotMatter` | dopedb-protocol/src/analysis_article_sql.rs:101 | two such texts whose words differ only in ASCII letter case get the same tokens and the same verdict, whatever their literals and comments hold |
| `SqlScripts.OpenLiteralIsRefused` | dopedb-protocol/src/analysis_article_sql.rs:48-70 | a literal that is never closed makes the text refused, whatever comes before and after |
| `SqlScripts.OpenBlockIsRefused` | dopedb-protocol/src/analysis_article_sql.rs:46-47 | so does a block comment that is never closed |
| `SqlScripts.OpenDollarIsRefused` | dopedb-protocol/src/analysis_article_sql.rs:71-92 | so does a dollar-quoted text whose tag never comes again |
| `SqlScripts.ParameterHidesNothing` | dopedb-protocol/src/analysis_article_sql.rs:71-92 | a dollar that opens no tag, as in a numbered parameter, hides nothing of what follows |
| `SqlLiterals.LiteralInside` | dopedb-protocol/src/analysis_article_sql.rs:48-70 | a quoted literal of any text adds no token wherever it stands outside a line comment, also right beside another literal in the same quotes |
| `SqlLiterals.LiteralsInertIff` | dopedb-protocol/src/analysis_article_sql.rs:40-70 | every literal is inert behind a complete text exactly if that text does not end inside a line comment |
| `SqlLiterals.LineFeedEndsComment` | dopedb-protocol/src/analysis_article_sql.rs:40-45 | a line feed behind a complete text ends any open comment and adds nothing |
| `SqlLaws.AcceptedMeansOneStatement` | dopedb-protocol/src/analysis_article_sql.rs:4-25 | a text is accepted exactly if it scans, starts with a reading word, has no prohibited word, and any semicolon is its last token |
| `SqlLaws.StackedStatementIsRefused` | dopedb-protocol/src/analysis_article_sql.rs:4-25 | after a finished statement anything but blank text makes the whole text refused |
| `SqlLiterals.VerdictIgnoresLiterals` | dopedb-protocol/src/analysis_article_sql.rs:4-25 | replacing the text of a literal that stands outside a line comment never changes tokens or verdict |
| `SqlLaws.ReadOnly` | dopedb-protocol/src/analysis_article_sql.rs:4-25 | for every text of characters: the scan over its UTF-8 bytes and the checks behind it decide exactly as specified |
| `JsonReader.WriteReads` | dopedb-protocol/src/catalog.rs:272-273 | the compact JSON text of every value, read by the grammar of RFC 8259, is that value again |
| `JsonReader.WriteInjective` | dopedb-protocol/src/catalog.rs:272-273 | so the text determines the value |
| `JsonReader.EscapesAreShort` | dopedb-protocol/src/catalog.rs:272-273 | only quotes, backslashes and control characters are escaped, in the short form where there is one, with lower-case digits otherwise |
| `CatalogEncoding.MembersInjective` | dopedb-protocol/src/catalog.rs:231-243 | a struct with absent members skipped can be read back member by member |
| `CatalogEncoding.RelationPayloadsApart` | dopedb-protocol/src/catalog.rs:231-255 | relation payloads are equal exactly when the relations are equal but for the row estimate |
| `CatalogEncoding.PayloadsApart` | dopedb-protocol/src/catalog.rs:257-273 | the fingerprint payload determines engine, namespaces, routines, other objects and the list of relation payloads |
| `Ordering.SortSorts` | dopedb-protocol/src/catalog.rs:287-326 | sorting yields a sorted rearrangement of the list |
| `Ordering.SortIsStable` | dopedb-protocol/src/catalog.rs:287-326 | items with equal keys keep their order |
| `Ordering.SortIgnoresOrder` | dopedb-protocol/src/catalog.rs:287-326 | with keys that tell items apart every rearrangement sorts to the same list |
| `CatalogCanon.MutableContents.Canonicalize` | dopedb-protocol/src/catalog.rs:287-326 | the in-place sorts leave exactly the canonical form of the old contents |
| `CatalogOrder.CanonicalAscends` | dopedb-protocol/src/catalog.rs:287-351 | read off the entries: in a canonical catalog namespaces ascend by name and comment, relations, routines and other objects by catalog, namespace, name, kind and native id, columns by ordinal and name, constraints by kind and name, indexes by name, and partition children like relations; the serialized form decides ties |
| `CatalogOrder.CanonicalRearranges` | dopedb-protocol/src/catalog.rs:287-326 | canonicalizing adds and loses nothing: every list is a rearrangement, and every relation keeps its row estimate |
| `CatalogOrder.CanonicalColumnOrder` | dopedb-protocol/src/catalog.rs:293-297 | canonical columns ascend by ordinal, then by name |
| `CatalogOrder.CanonicalConstraintOrder` | dopedb-protocol/src/catalog.rs:298-302 | canonical constraints come as primary, unique, foreign and check, by name within a kind |
| `CatalogCanon.RelationOrderPayload` | dopedb-protocol/src/catalog.rs:310-317 | relations share a sort key exactly when they are fingerprinted alike |
| `CatalogCanon.CanonPayloadMeans` | dopedb-protocol/src/catalog.rs:245-255 | after canonicalization two relations are fingerprinted alike exactly if they differ only in row estimate and in the order inside their four lists |
| `CatalogCanon.ReorderingKeepsText` | dopedb-protocol/src/catalog.rs:181-190 | reordering namespaces, relations, columns, constraints, indexes, partition children, routines or other objects and changing row estimates leaves the fingerprinted text unchanged |
| `CatalogCanon.TextIdentifiesSchema` | dopedb-protocol/src/catalog.rs:257-275 | and conversely: equal texts mean the same engine and the same schema up to exactly these freedoms |
| `CatalogCanon.CanonicalIdempotent` | dopedb-protocol/src/catalog.rs:287-326 | canonicalizing twice is canonicalizing once |
| `CatalogSnapshot.LowerHex` | dopedb-protocol/src/catalog.rs:277-285 | the loop writes two lower-case digits per byte |
| `CatalogSnapshot.HexInjective` | dopedb-protocol/src/catalog.rs:277-285 | the hexadecimal text determines the bytes |
| `CatalogSnapshot.DigestIsFingerprint` | dopedb-protocol/src/catalog.rs:213-218 | the text of every 32-byte digest passes the fingerprint check |
| `CatalogSnapshot.CaptureIsValid` | dopedb-protocol/src/catalog.rs:66-86 | capturing fails only on a blank database name; otherwise the snapshot keeps what it was given, validates, is canonical and has the fingerprint of its contents |
| `CatalogSnapshot.CaptureKeepsSchema` | dopedb-protocol/src/catalog.rs:66-86 | a captured snapshot holds the schema it was captured from |
| `CatalogSnapshot.NewChecksFingerprint` | dopedb-protocol/src/catalog.rs:88-107 | a given fingerprint is accepted exactly when it is the one of the contents, with the same result as capturing; which error is reported otherwise |
| `CatalogSnapshot.ReadSnapshotsAreCanonical` | dopedb-protocol/src/catalog.rs:394-421 | a wire record is read exactly if its version is 2, its database name is not blank and its fingerprint is that of its contents; the result is the record in canonical form, and reads back as itself |
| `CatalogReader.RowMeans` | dopedb-protocol/src/catalog.rs:423-623 | an object gives no struct exactly if a member is unknown or repeated; otherwise each field is the one member under its name, wherever it stands, or absent |
| `CatalogReader.RowOfStruct` | dopedb-protocol/src/catalog.rs:423-623 | a struct written with absent members skipped reads back member by member |
| `CatalogWire.SnapshotReadsBack` | dopedb-protocol/src/catalog.rs:22-39 | every snapshot is read back from its JSON form: skipped options, lists, nested entries, enum names and signed row estimates |
| `CatalogWire.SnapshotTextTells` | dopedb-protocol/src/catalog.rs:22-39 | the JSON text of a snapshot determines the snapshot |
| `CatalogWire.CaptureSurvivesJson` | dopedb-protocol/src/catalog.rs:394-421 | a captured snapshot deserializes from its JSON form to itself, also when its entries were written in the order they were captured in |
| `CatalogWire.AcceptedJsonIsStable` | dopedb-protocol/src/catalog.rs:394-421 | whatever JSON is accepted gives a genuine snapshot, and writing that and reading it again changes nothing |
| `CatalogShape.PayloadShape` | dopedb-protocol/src/catalog.rs:220-273 | the fingerprinted value: which members, under which names, in which order, from which parts of the contents, with version 2 |
| `CatalogShape.FingerprintShape` | dopedb-protocol/src/catalog.rs:231-255 | what is fingerprinted of a relation: every member under its name, absent options left out, and no row estimate |
| `CatalogShape.FingerprintIs` | dopedb-protocol/src/catalog.rs:257-275 | the fingerprint is the lower-case hexadecimal text of the hash of the UTF-8 text of that value |
| `CatalogShape.HexDigits` | dopedb-protocol/src/catalog.rs:277-285 | two digits stand for each byte, the high one first |
| `CatalogShape.FingerprintMeans` | dopedb-protocol/src/catalog.rs:213-218 | the fingerprint check accepts exactly the texts of 64 lower-case hexadecimal digits |
| `CatalogShape.EngineNames` | dopedb-protocol/src/catalog.rs:12-20 | the serialized name of each engine, which is read back as that engine and no other text is |
| `CatalogShape.KindNames` | dopedb-protocol/src/catalog.rs:431-442 | the same for object kinds |
| `CatalogShape.FamilyNames` | dopedb-protocol/src/catalog.rs:457-474 | the serialized names of type families |
| `CatalogShape.FamilyNamesRead` | dopedb-protocol/src/catalog.rs:457-474 | a text is read as a type family exactly if it is its name |
| `CatalogShape.ConstraintNames` | dopedb-protocol/src/catalog.rs:504-511 | the same for constraint kinds |
| `CatalogShape.DirectionNames` | dopedb-protocol/src/catalog.rs:534-539 | the same for sort directions |
| `CatalogShape.ObjectRefShape` | dopedb-protocol/src/catalog.rs:444-455 | the JSON written for an object reference: its members by their names, in this order, absent options left out |
| `CatalogShape.NamespaceShape` | dopedb-protocol/src/catalog.rs:423-429 | the JSON written for a namespace: its members by their names, in this order, absent options left out |
| `CatalogShape.ColumnShape` | dopedb-protocol/src/catalog.rs:476-502 | the JSON written for a column: its members by their names, in this order, absent options left out |
| `CatalogShape.ConstraintShape` | dopedb-protocol/src/catalog.rs:513-532 | the JSON written for a constraint: its members by their names, in this order, absent options left out |
| `CatalogShape.IndexKeyShape` | dopedb-protocol/src/catalog.rs:541-550 | the JSON written for an index key: its members by their names, in this order, absent options left out |
| `CatalogShape.IndexShape` | dopedb-protocol/src/catalog.rs:552-566 | the JSON written for an index: its members by their names, in this order, absent options left out |
| `CatalogShape.RelationShape` | dopedb-protocol/src/catalog.rs:568-586 | the JSON written for a relation: its members by their names, in this order, absent options left out |
| `CatalogShape.RoutineShape` | dopedb-protocol/src/catalog.rs:588-609 | the JSON written for a routine: its members by their names, in this order, absent options left out |
| `CatalogShape.DatabaseObjectShape` | dopedb-protocol/src/catalog.rs:611-623 | the JSON written for another object: its members by their names, in this order, absent options left out |
| `CatalogShape.SnapshotShape` | dopedb-protocol/src/catalog.rs:22-39 | the JSON written for a snapshot: its members by their names, in this order, absent options left out |
| `CatalogShape.ObjectRefReads` | dopedb-protocol/src/catalog.rs:444-455 | exactly which JSON is read as which object reference: required, optional and refused members |
| `CatalogShape.NamespaceReads` | dopedb-protocol/src/catalog.rs:423-429 | the same for namespaces |
| `CatalogShape.ColumnReads` | dopedb-protocol/src/catalog.rs:476-502 | the same for columns, all fifteen members |
| `CatalogShape.ConstraintReads` | dopedb-protocol/src/catalog.rs:513-532 | the same for constraints, lists that may be absent included |
| `CatalogShape.IndexKeyReads` | dopedb-protocol/src/catalog.rs:541-550 | the same for index keys |
| `CatalogShape.IndexReads` | dopedb-protocol/src/catalog.rs:552-566 | the same for indexes |
| `CatalogShape.RelationReads` | dopedb-protocol/src/catalog.rs:568-586 | the same for relations, nested entries included |
| `CatalogShape.RoutineReads` | dopedb-protocol/src/catalog.rs:588-609 | the same for routines |
| `CatalogShape.DatabaseObjectReads` | dopedb-protocol/src/catalog.rs:611-623 | the same for other objects |
| `CatalogShape.SnapshotReads` | dopedb-protocol/src/catalog.rs:375-392 | the same for whole snapshots, before they are checked |
| `CatalogShape.IntReads` | dopedb-protocol/src/catalog.rs:574 | row estimates are read with an optional minus sign, but not minus zero |
| `CatalogShape.DeserializeMeans` | dopedb-protocol/src/catalog.rs:394-421 | JSON of another form is refused as such; a snapshot is checked, and the check decides which error is reported |
| `CatalogSnapshot.ReorderedSnapshotIsAccepted` | dopedb-protocol/src/catalog.rs:394-421 | a snapshot stays valid under any reordering of entries and any change of row estimates |
| `CatalogSnapshot.FingerprintIdentifiesSchema` | dopedb-protocol/src/catalog.rs:257-275 | fingerprints are equal exactly for the same schema of the same engine, unless the hash collides on the two texts |
| `Strings.TrimMeans` | dopedb-protocol/src/catalog.rs:146 | trimming removes white space at both ends, and all of it |
| `TypeSpelling.Sign` | dopedb-protocol/src/schema_diff.rs:322-341 | the character loop computes the signature function |
| `TypeSpelling.SameSignature` | dopedb-protocol/src/schema_diff.rs:318-341 | two types have one signature exactly if, trimmed, they agree to the letter inside quotes and up to lower-casing outside |
| `TypeSpelling.ColumnSignatureApart` | dopedb-protocol/src/schema_diff.rs:355-359 | column signatures are equal exactly if type signature, nullability and primary-key flag are |
| `SchemaDiff.ForeignKeysOf` | dopedb-protocol/src/schema_diff.rs:435-466 | the grouping and sorting loops compute the sorted targets of each column |
| `SchemaDiff.Comparison.CompareNamed` | dopedb-protocol/src/schema_diff.rs:393-433 | appends exactly the named differences |
| `SchemaDiff.Comparison.CompareColumnKeys` | dopedb-protocol/src/schema_diff.rs:481-518 | appends exactly the foreign-key differences of one column |
| `SchemaDiff.Comparison.CompareForeignKeys` | dopedb-protocol/src/schema_diff.rs:468-520 | appends the foreign-key differences of all columns in name order |
| `SchemaDiff.Comparison.CompareRelation` | dopedb-protocol/src/schema_diff.rs:227-253 | appends kind, column, index and foreign-key differences of one relation |
| `SchemaDiff.Comparison.CompareRelations` | dopedb-protocol/src/schema_diff.rs:202-272 | appends the differences of two catalogs, last duplicate of a relation key counting |
| `SchemaDiff.Tally` | dopedb-protocol/src/schema_diff.rs:273-280 | counts the differences by status |
| `SchemaDiff.CompareSchemaCatalogs` | dopedb-protocol/src/schema_diff.rs:192-291 | returns the specified result or the specified error |
| `BTree.AscendingVisits` | dopedb-protocol/src/schema_diff.rs:217-221 | iterating a key set visits every key once in strictly ascending order |
| `BTree.CollectLast` | dopedb-protocol/src/schema_diff.rs:202-216 | collecting into a map keeps the value of the last item with a key |
| `SchemaDiffLaws.KeyEntryEmpty` | dopedb-protocol/src/schema_diff.rs:481-518 | a column is reported exactly if its foreign-key targets differ as multisets |
| `SchemaDiffLaws.KeyReports` | dopedb-protocol/src/schema_diff.rs:481-518 | one changed target is one change; otherwise the added and missing entries are the two exact multiset differences |
| `SchemaDiffLaws.NamedReports` | dopedb-protocol/src/schema_diff.rs:405-431 | a column or index entry is reported exactly if its status tells the truth about both sides, with both values shown |
| `SchemaDiffLaws.LinkReports` | dopedb-protocol/src/schema_diff.rs:468-520 | a foreign-key entry is reported exactly if its column links to the target more often on the side it names, or its one link moved |
| `SchemaDiffLaws.DifferencesTell` | dopedb-protocol/src/schema_diff.rs:192-291 | an object is in the whole diff exactly if it tells the truth about some relation: on one side only, of another kind, or, where both sides have it, about a column, an index or a foreign key |
| `SchemaDiffLaws.DifferencesEmpty` | dopedb-protocol/src/schema_diff.rs:192-291 | no difference is reported exactly if relation keys, kinds, column signatures, index texts and per-column target multisets all agree |
| `SchemaDiffLaws.DiffIsExact` | dopedb-protocol/src/schema_diff.rs:192-291 | a diff exists exactly for one relational engine; its total is zero exactly if the projections agree; the counts sum to the total |
| `SchemaDiffLaws.ColumnsAgree` | dopedb-protocol/src/schema_diff.rs:343-369 | columns compare equal exactly if names, type signatures, nullability and primary-key membership agree |
| `SchemaDiffLaws.ForeignKeysMean` | dopedb-protocol/src/schema_diff.rs:435-466 | the targets of a column are those of all foreign keys it takes part in |
| `SchemaDiffMeaning.IndexesAgree` | dopedb-protocol/src/schema_diff.rs:371-391 | the indexes of two relations compare equal exactly if the same names stand for indexes of the same uniqueness and number of keys which agree key by key in their column or else their expression; for keys with a text without commas, an only key not being empty |
| `SchemaDiffMeaning.IndexSignatures` | dopedb-protocol/src/schema_diff.rs:371-391 | the same for two indexes |
| `SchemaDiffMeaning.CommaHidesKeys` | dopedb-protocol/src/schema_diff.rs:382-390 | with a comma in an expression it fails: one key `a, b` and the two keys `a` and `b` compare equal |
| `SchemaDiffMeaning.BlankKeyHides` | dopedb-protocol/src/schema_diff.rs:382-390 | and so do an index whose only key is an empty text and one without keys |
| `SchemaDiffMeaning.TablesAgree` | dopedb-protocol/src/schema_diff.rs:343-369 | columns compare equal exactly if the same names stand for columns that agree in type spelling, nullability and in being named by a primary-key constraint |
| `SchemaDiffMeaning.ColumnShown` | dopedb-protocol/src/schema_diff.rs:361-367 | what a column entry shows: the type as written, its nullability, and the primary key |
| `SchemaDiffMeaning.ReferencesListed` | dopedb-protocol/src/schema_diff.rs:435-466 | each reference is listed under its column as often as foreign keys make it, with the text of its namespace, table and column |
| `SchemaDiffMeaning.ReferencesAscend` | dopedb-protocol/src/schema_diff.rs:461-464 | the references of a column are listed in text order |
| `SchemaDiffMeaning.ReferencesAgree` | dopedb-protocol/src/schema_diff.rs:468-520 | foreign keys compare equal exactly if every column refers everywhere equally often on both sides |
| `SchemaDiffMeaning.NoDifferenceMeans` | dopedb-protocol/src/schema_diff.rs:192-291 | read off the relations alone: nothing is reported exactly if both catalogs name the same relations, and the last relations of each name agree in kind, columns, indexes and references |
| `SchemaDiffMeaning.LabelsShown` | dopedb-protocol/src/schema_diff.rs:293-316 | how relations and their kinds are shown, and under which type a relation entry is filed |
| `SchemaDiffMeaning.ResultMeans` | dopedb-protocol/src/schema_diff.rs:192-291 | which catalogs can be compared, what is said otherwise, and that version, engine, both sources, total and the count of each status are those of the inputs and of the objects listed |
| `SchemaDiffLaws.SameTextSameDiff` | dopedb-protocol/src/schema_diff.rs:192-291 | catalogs fingerprinted alike are compared alike |
| `SchemaDiffMirror.DifferencesMirror` | dopedb-protocol/src/schema_diff.rs:219-272 | swapping the sides mirrors the entries as multisets, but for the relation type a change of kind is filed under |
| `SchemaDiffMirror.CountsMirror` | dopedb-protocol/src/schema_diff.rs:273-288 | added and missing counts exchange; changed and total stay |
| `SchemaDiffOrder.ObjectsInOrder` | dopedb-protocol/src/schema_diff.rs:219-272 | objects come by relation key, then relation, column, index and foreign-key entries, each by name |
| `SchemaDiffOrder.ObjectsAscend` | dopedb-protocol/src/schema_diff.rs:219-272 | read off the objects: by namespace, none first, and name of their relation, then relation, column, index and foreign-key entries, each by name |
| `SchemaDiffOrder.ColumnEntriesAscend` | dopedb-protocol/src/schema_diff.rs:494-518 | several foreign-key entries of one column: the added ones in text order, then the missing ones in text order |
| `Paging.FillPage` | dopedb-cli/src/agent_mcp_dispatch.rs:596-610 | the loop takes the longest prefix within the count and byte budgets, or reports a first object that does not fit |
| `Paging.SchemaDiffPage` | dopedb-cli/src/agent_mcp_dispatch.rs:555-619 | the whole tool call: argument checks, fingerprint check, offset check and page |
| `Paging.PageKeepsBudgets` | dopedb-cli/src/agent_mcp_dispatch.rs:596-618 | a page is a slice of the diff within both budgets, stops early only where the next object would break one, and is non-empty unless it is the end |
| `Paging.StuckOnlyOnHugeObject` | dopedb-cli/src/agent_mcp_dispatch.rs:558-610 | on an unchanged diff a well-formed request fails exactly if the object at its offset alone exceeds the byte budget |
| `Paging.ChainIsLossless` | dopedb-cli/src/agent_mcp_dispatch.rs:555-619 | following `nextOffset` with any limits while the fingerprints match lists the first page's diff exactly, although every page reloads both catalogs |
| `Paging.ChainEnds` | dopedb-cli/src/agent_mcp_dispatch.rs:611-617 | a chain has at most one page more than there are differences |
| `PagingSizes.MembersOf` | dopedb-protocol/src/schema_diff.rs:65-75 | the JSON object of a difference has exactly six members, with these names and values |
| `PagingSizes.TextTells` | dopedb-cli/src/agent_mcp_dispatch.rs:597-600 | the text a difference is measured by determines all six fields of it |
| `PagingSizes.SizeCountsTexts` | dopedb-cli/src/agent_mcp_dispatch.rs:597-600 | the size of a difference is at least the bytes of its table, name and both values together |
| `PagingSizes.PageIsBounded` | dopedb-cli/src/agent_mcp_dispatch.rs:558-611 | so the names and values on one page take at most 262144 bytes, and a page has at most 200 entries, and 100 if no limit was given |
| `PagingSizes.HugeIsRefused` | dopedb-cli/src/agent_mcp_dispatch.rs:600-605 | a difference whose names and values take more than that is never on a page |
| `PagingSizes.AnswerMeans` | dopedb-cli/src/agent_mcp_dispatch.rs:555-619 | every answer: each refusal with its text and in its order, otherwise the next stretch of differences, as long as the limit and 262144 bytes of JSON allow |
| `QueryRead.ToolTask.RequestWithHints` | dopedb-cli/src/agent_mcp_dispatch.rs:312-344 | the retry loop computes the recursive exchange |
| `QueryRead.ToolTask.PlanAndRunRead` | dopedb-cli/src/agent_mcp_dispatch.rs:441-496 | plan, set the cancellation target, run under a deadline, cancel on timeout, clear the target |
| `QueryRead.ToolTask.RunBatch` | dopedb-cli/src/agent_mcp_dispatch.rs:398-428 | the batch loop computes the recursive batch |
| `QueryRead.ToolTask.QueryReadCall` | dopedb-cli/src/agent_mcp_dispatch.rs:346-438 | the whole tool with its argument checks and reply |
| `QueryReadLaws.ExchangeRepeats` | dopedb-cli/src/agent_mcp_dispatch.rs:320-342 | a request is sent again only right after the broker refused it as temporarily unavailable, at most 61 times in all |
| `QueryReadLaws.ToolNeverReplays` | dopedb-cli/src/agent_mcp_dispatch.rs:338-341 | over a whole call no run is sent twice unless the broker refused it for now or handed its plan out again in between; every run and cancel is sent while exactly its plan is the cancellation target; none is left; the number of requests is bounded |
| `QueryReadLaws.FreshTaskIsOrderly` | dopedb-cli/src/agent_mcp_dispatch.rs:346-438 | so for a new task, from an empty history |
| `QueryReadLaws.BatchShape` | dopedb-cli/src/agent_mcp_dispatch.rs:394-428 | one entry per read: results, then at most one failure, then only skipped reads |
| `QueryReadLaws.ResultsAreEarned` | dopedb-cli/src/agent_mcp_dispatch.rs:440-478 | every result was run under an executable plan made for that very read |
| `QueryReadLaws.SkippedReadsAreNotPlanned` | dopedb-cli/src/agent_mcp_dispatch.rs:400-406 | nothing is planned for a skipped read |
| `QueryReadLaws.TimeoutCancels` | dopedb-cli/src/agent_mcp_dispatch.rs:475-494 | a run that outlived its deadline, and no other, is cancelled, by the last request sent |
| `QueryReadReplies.ExchangeEnds` | dopedb-cli/src/agent_mcp_dispatch.rs:312-344 | how an exchange ends and why: an answer, a refusal with its error or policy hint, or giving up, after so many refusals for now |
| `QueryReadReplies.ReadsFailForAReason` | dopedb-cli/src/agent_mcp_dispatch.rs:441-496 | a read gives rows exactly as earned, and every error it gives is that of an answer the broker gave to a request of this read |
| `QueryReadReplies.ReadsMean` | dopedb-cli/src/agent_mcp_dispatch.rs:346-393 | which arguments are good, and which reads they ask for: the SQL and the row limit of each, its own or else the common one |
| `QueryReadReplies.ToolReplies` | dopedb-cli/src/agent_mcp_dispatch.rs:346-438 | what the tool replies: bad arguments are refused; one read gives its rows, earned by this SQL and row limit, or its error; a batch gives as many entries as it has reads, each result earned by its own read, each failure with its reason, and fails as a whole exactly if its first read does |
| `JsonLimits.ValidateJsonLimits` | dopedb-protocol/src/frame.rs:160-192 | the explicit-stack loop computes the visit, and succeeds exactly within the limits |
| `JsonLimits.CheckMeans` | dopedb-protocol/src/frame.rs:160-215 | the check accepts a value exactly if depth, number of values and every string, key and collection length are within limits |
| `JsonLimits.RefusalTells` | dopedb-protocol/src/frame.rs:160-215 | a refusal names a limit that the value does break: more than 32 deep, more than 10000 values, or a text, key or collection of the stated size in it beyond 262144 bytes or 10000 members |
| `JsonLimits.TopDecides` | dopedb-protocol/src/frame.rs:160-192 | the walk is in document order: a refusal met in what is visited first does not depend on what comes later |
| `JsonLimits.FirstTextDecides` | dopedb-protocol/src/frame.rs:160-192 | so a first list item that is too long a text is what a list is refused for |
| `JsonLimits.LastKeyDecides` | dopedb-protocol/src/frame.rs:181-189 | keys are checked before values, from the last one |
| `JsonLimits.Expands` | dopedb-protocol/src/frame.rs:175-189 | visiting one value trades it for its children: the pending work shrinks by one |
| `Frame.PrefixRoundTrip` | dopedb-protocol/src/frame.rs:45 | the four big-endian bytes give the number back |
| `Frame.PrefixMeans` | dopedb-protocol/src/frame.rs:45 | the prefix is read with the most significant byte first |
| `Frame.BoundedWriter.Write` | dopedb-protocol/src/frame.rs:143-153 | what is kept is always a prefix of what was offered, within the limit, and the flag is set exactly if the limit was exceeded |
| `Frame.BoundedWriter.WriteAll` | dopedb-protocol/src/frame.rs:68-78 | writing piece by piece succeeds exactly if the whole text fits |
| `Frame.EncodeFrame` | dopedb-protocol/src/frame.rs:59-94 | returns the specified frame or error |
| `Frame.EncodedIff` | dopedb-protocol/src/frame.rs:59-94 | a frame can be built exactly if the preflight passes, the text is non-empty, within the maximum, parses, and is within the limits |
| `Frame.FrameParts` | dopedb-protocol/src/frame.rs:40-56 | a frame is its prefix and its payload, and the prefix parses to the payload length |
| `Frame.FrameRoundTrip` | dopedb-protocol/src/frame.rs:96-114 | every frame that could be built decodes to its message under the same maximum |
| `Frame.DecodedIff` | dopedb-protocol/src/frame.rs:96-114 | a frame decodes exactly if its prefix gives the length of the rest, which is allowed, parses, is within the limits and has the type |
| `Frame.DecodeRefusals` | dopedb-protocol/src/frame.rs:40-114 | which error a frame is refused with, in the order of the checks, and the message otherwise |
| `Frame.EncodeRefusals` | dopedb-protocol/src/frame.rs:59-94 | which error stops a frame from being built, in the order of the checks |
| `Frame.StreamRoundTrip` | dopedb-protocol/src/frame.rs:96-114 | concatenated frames decode to the original messages in order |
| `Response.RestoredIsWritten` | dopedb-protocol/src/response.rs:106-123 | the typed result, for which absent and null are one, and the presence flag together give the member as written |
| `Response.PresenceMattersForNull` | dopedb-protocol/src/response.rs:102-123 | of the envelopes that decode, the typed fields alone would fail validation exactly for those with a null result |
| `Response.DecodedIsValid` | dopedb-protocol/src/response.rs:98-132 | whatever decodes has exactly one of result and error, matching `ok`, and its result is the member as written, null included |
| `Response.DecodesIff` | dopedb-protocol/src/response.rs:98-132 | exactly which response an envelope decodes to: version up to 65535, id, flag, result and error as its members say, no other member, and exactly one of result and error, the one that matches |
| `Response.RefusedBecause` | dopedb-protocol/src/response.rs:98-132 | what is said about an envelope that does not decode |
| `Response.PreflightMeans` | dopedb-protocol/src/frame.rs:249-262 | before a response is written its result must be within the limits and its error text within 262144 bytes |
| `Response.EnvelopeRoundTrip` | dopedb-protocol/src/response.rs:98-132 | valid envelopes survive serialization, null results included |
| `Response.MadeResponsesSurvive` | dopedb-protocol/src/response.rs:25-51 | every response made by `success` or `failure` validates and survives serialization, a null result included |
| `Response.ResponseFrameRoundTrip` | dopedb-protocol/src/response.rs:98-132 | also through a frame |
| `Base64.ExactIsEncoding` | dopedb-protocol/src/direct_access.rs:420-434 | a text that passes the test is the encoding of its bytes |
| `Base64.EncodingIsExact` | dopedb-protocol/src/direct_access.rs:420-434 | every padded encoding passes the test for its number of bytes |
| `Base64.ExactMeans` | dopedb-protocol/src/direct_access.rs:419-434 | the test holds exactly of the padded encodings of n bytes, each of which encodes exactly one byte string |
| `Base64.AlphabetMeans` | dopedb-protocol/src/direct_access.rs:408-418 | the sixty-four characters are upper case, lower case, digits, plus and slash in this order, and the padding is the equals sign |
| `Base64.ScramPrefixText` | dopedb-protocol/src/direct_access.rs:388 | the bytes a SCRAM verifier begins with are the text of its mechanism and iteration count |
| `Base64.Sha2PrefixText` | dopedb-protocol/src/direct_access.rs:399-400 | so are those of the other kind, and the delimiters |
| `Base64.CryptMeans` | dopedb-protocol/src/direct_access.rs:399-404 | which characters the other kind may hold |
| `Base64.ScramSplitsUniquely` | dopedb-protocol/src/direct_access.rs:385-398 | a SCRAM verifier is accepted exactly if it is the text of a 16-byte salt and two 32-byte keys, and these are unique |
| `Base64.VerifiersAreTellable` | dopedb-protocol/src/direct_access.rs:385-404 | every accepted verifier has the length of its kind and only characters that no JSON or SQL literal escapes, and no text is accepted as both kinds |
| `ExternalAgent.ElementsCount` | dopedb-protocol/src/external_agent.rs:47-49 | a list has as many elements as entries exactly if it repeats none |
| `ExternalAgent.FlatNoRepeats` | dopedb-protocol/src/external_agent.rs:84-93 | a concatenation repeats nothing exactly if no list does and no two lists share anything |
| `ExternalAgent.CountsMean` | dopedb-protocol/src/external_agent.rs:94-108 | the single counting equation holds exactly if connection lists and source lists are each repetition-free and pairwise disjoint across scopes |
| `ExternalAgent.AcceptedMeansSeparated` | dopedb-protocol/src/external_agent.rs:68-113 | a configuration is accepted exactly if it is well formed, environments differ, no resource is listed twice or shared, and a write target lies in exactly one scope |
| `SyncCursor.ChainRises` | dopedb-protocol/src/control_plane.rs:277-291 | pages that promise more raise the cursor by at least one each |
| `SyncCursor.ChainEnds` | dopedb-protocol/src/control_plane.rs:18-27 | so such a chain is bounded by what is left below 2^53 - 1 |
| `SyncCursor.NeverFallsWithoutReset` | dopedb-protocol/src/control_plane.rs:285 | without a reset the cursor never falls |
| `SyncCursor.FallMeansReset` | dopedb-protocol/src/control_plane.rs:285-290 | whenever the cursor is lower later than earlier, a reset page lies between: it refreshed both collections, moved the cursor and promised no continuation |
| `SyncCursor.QuietStretch` | dopedb-protocol/src/control_plane.rs:285-291 | a stretch without a reset that ends at the cursor it began with stood still on every page of it, and no page promised more |
| `SyncCursor.NothingStaysOwed` | dopedb-protocol/src/control_plane.rs:288-293 | over every run: only a client that has had no page yet has a collection that was reset, deleted from or never fetched and not refreshed since |
| `SyncServer.ContractsAgree` | workspace-cloud/lib/control-plane-contracts.ts:143-197 | the check the server makes of a page and the one the client makes for its request accept the same pages |
| `SyncServer.ServePage` | workspace-cloud/app/api/v1/workspaces/[workspaceId]/sync/route.ts:40-132 | the row loop builds the specified page, and neither of its errors can occur on a log numbered without gaps |
| `SyncServer.ServedPageIsValid` | workspace-cloud/app/api/v1/workspaces/[workspaceId]/sync/route.ts:80-132 | for every log and every cursor the page served is one the client accepts |
| `SyncServer.ServedPageTells` | workspace-cloud/app/api/v1/workspaces/[workspaceId]/sync/route.ts:76-132 | what every page says, read off the log: where it ends, whether more follows, which collections must be refreshed and in which something was deleted; 128 events a page and 1024 to replay at most |
| `SyncClient.Workspace.Commit` | src-tauri/src/store/repositories/workspaces/sync.rs:32-99 | the cursor moves to the page exactly if it still is the expected one, no check refuses and the store succeeds; otherwise it stays |
| `SyncClient.Workspace.PullPage` | src-tauri/src/features/workspaces/application/navigation.rs:134-173 | one pass: request, validation, refresh, and only then the cursor |
| `SyncClient.Workspace.SyncResources` | src-tauri/src/features/workspaces/application/navigation.rs:124-178 | the bounded loop computes the recursive replay, in every way it can end |
| `SyncLaws.CommitChecksAgain` | src-tauri/src/store/repositories/workspaces/sync.rs:32-60 | the checks made again before the cursor is stored refuse exactly the pages that were not valid for the request, but let a reset page through that moves the cursor up and promises more |
| `SyncLaws.LifeIsRun` | src-tauri/src/features/workspaces/application/navigation.rs:124-178 | over a client's life, any number of syncs against any server, the committed pages are one run, so the laws above hold of them |
| `SyncLaws.SyncStaysFresh` | src-tauri/src/features/workspaces/application/navigation.rs:121-178 | against the real route and a growing log: however a sync ends, the copy of the connections reflects every relevant event up to the stored cursor; when it is done, also everything logged before it began |
| `SyncLaws.LifeStaysFresh` | src-tauri/src/features/workspaces/application/navigation.rs:121-178 | the same at every moment of a client's life, through failures and pauses |
| `SyncLaws.FailureHasCause` | src-tauri/src/features/workspaces/application/navigation.rs:124-178 | a sync fails exactly if one of the calls it makes itself fails, which is then its last: no page of the real route is refused by the client or by the store |
| `SyncLaws.WindowMeansGrowth` | src-tauri/src/features/workspaces/application/navigation.rs:134-177 | the 64-page window is exceeded only if the log grew by more than 7168 events during the sync |
| `SyncLaws.QuietSyncCompletes` | src-tauri/src/features/workspaces/application/navigation.rs:124-178 | a sync whose own calls are all answered while nothing is logged ends at the head with everything covered, from any cursor |
| `SyncRestore.SyncCuresIff` | src-tauri/src/features/workspaces/application/navigation.rs:124-178 | whatever copy a client holds and however the log grows meanwhile: a sync that is done leaves a good copy exactly if it began without a cursor, one of its pages was a rebase, an event between the cursors is relevant, or the copy was good up to the first cursor |
| `SyncRestore.RestoreIsNoticedIff` | workspace-cloud/app/api/v1/workspaces/[workspaceId]/sync/route.ts:80-90 | over a whole sync after the log was replaced by one that stands still: the copy becomes good exactly if there was no cursor, the new head is behind it or over 1024 ahead, the new log has a relevant event beyond it, or the copy agrees below it anyway |
| `SyncRestore.RestoreGoesUnnoticed` | workspace-cloud/app/api/v1/workspaces/[workspaceId]/sync/route.ts:80-90 | a replaced log that has caught up with the cursor leaves the client with the old copy and a sync that is done |
| `ProcessTree.Pass` | src-tauri/src/packaged_benchmark_metrics.rs:180-185 | one pass keeps only reachable ids, and when it adds none the set is closed |
| `ProcessTree.Descendants` | src-tauri/src/packaged_benchmark_metrics.rs:177-189 | the fixpoint loop ends for every table, cycles and duplicate ids included, with exactly the ids reachable from the root |
| `ProcessTree.SumAny` | src-tauri/src/packaged_benchmark_metrics.rs:192-207 | any element of a set may be added first |
| `ProcessTree.Total` | src-tauri/src/packaged_benchmark_metrics.rs:192-208 | in whatever order the set is walked the total is the true sum cut off at the largest 64-bit number, and none for zero |
| `ProcessTree.ProcessTreeBytes` | src-tauri/src/packaged_benchmark_metrics.rs:177-208 | both together |
| `ProfileBlock.ShellProfile.Configure` | src-tauri/src/cli_install.rs:498-547 | the whole effect of configuring on the profile, with every refusal |
| `ProfileBlock.OneMatch` | src-tauri/src/cli_install.rs:565-566 | a text that occurs at one place is matched once |
| `ProfileBlock.AssembledMatches` | src-tauri/src/cli_install.rs:569 | behind a text with neither marker, the block and both markers are matched exactly once: none straddles the join |
| `ProfileBlock.AppendIsCurrent` | src-tauri/src/cli_install.rs:539-544 | appending to a profile without the block makes its state current and keeps the old contents in front |
| `ProfileBlock.ConfigureKeepsContents` | src-tauri/src/cli_install.rs:498-547 | nothing but an append to a profile without the block is ever done |
| `ProfileBlock.SecondCall` | src-tauri/src/cli_install.rs:508-520 | a second call changes nothing, and succeeds exactly if the file is still within the size limit |
| `ProfileBlock.TwiceIsOnce` | src-tauri/src/cli_install.rs:498-547 | exactly when the appended text leaves the file within the limit is the second call a no-op |
| `ProfileMeaning.StateMeans` | src-tauri/src/cli_install.rs:563-576 | read off the text: the block is missing exactly if neither marker occurs, and current exactly if each marker occurs at one place and the block where the first one does |
| `ProfileMeaning.ConfigureMeans` | src-tauri/src/cli_install.rs:498-547 | every outcome: what is refused and with which error, what is left alone, and the text a profile has afterwards |
| `ProfileMeaning.BodyLines` | src-tauri/src/cli_install.rs:550-562 | the lines that are written between the markers, for fish and for other shells |
| `ProfileMeaning.BlockLines` | src-tauri/src/cli_install.rs:562 | the markers around them |
| `FileCompare.Reader.Read` | src-tauri/src/cli_install.rs:304-305 | one read fills a prefix of the buffer and leaves the rest of it alone |
| `FileCompare.FilesEqual` | src-tauri/src/cli_install.rs:290-313 | the buffer loop computes the comparison function |
| `FileCompare.EqualMeans` | src-tauri/src/cli_install.rs:303-312 | files are reported equal exactly if they are equal regular files that happen to be read in the same steps |
| `FileCompare.FullReadsCompareContents` | src-tauri/src/cli_install.rs:303-312 | with reads that fill the buffer the answer is the equality of the files |
| `FileCompare.ShortReadHidesEquality` | src-tauri/src/cli_install.rs:304-308 | one short read is enough for a file to be found different from itself |
| `ProfileBlock.FullProfileIsRefusedAfterwards` | src-tauri/src/cli_install.rs:508-515 | a full profile gets its block once and is refused as too large from then on |

## Left out

- Sockets, pipes, file permissions, process spawning, signals and every other operating-system call.
- JSON text parsing, SHA-256, UUID and time formats: parameters, or strings without inner structure.
- The command sent to the broker when an active call is cancelled, and the constant parts of the replies to `initialize` and
  `tools/list`: an answer says which reply it is, and which protocol version was negotiated.
- Partial writes: a response is written whole or the session fails.
- The choice of connection and database in `query_read`, and the preview of its rows: a result is the rows the broker returned.
- The bodies of the other tools, `table_describe` and the compact rendering of results.
- ToolServerOrder.ClosedSessionIsNeverStuck: panics inside a tool task are not modelled: a task that was not aborted can always still post, where a panicked one never would and its call would stay active.
- ToolServer.Position: ids are compared member by member in order; `serde_json` compares objects without regard to the order of members. Parsed objects keep their members sorted, so the two agree on messages that were read.
- ToolServer.Server.HandleCancelled: the wait of up to two seconds for the broker's cancel reply is not modelled; code between awaits is atomic.
- QueryRead.ToolTask.RequestWithHints: the broker's answers are a function of the history of requests, so a request that is never delivered is one answered by a client error; pauses and deadlines are counted, not timed.
- QueryRead.QueryReadTool: the different argument errors are one error here.
- Paging.ChainIsLossless: offsets are unbounded here and 32-bit in the tool's arguments, so a diff of more than 2^32 - 1 objects could not be continued past that point.
- CatalogSnapshot.FingerprintIdentifiesSchema: that the two texts at hand do not collide under the hash is a hypothesis.
- Frame.FrameRoundTrip: that the JSON codec reads the message back from its own text is a hypothesis on that message.
- Frame.EncodeFrame: line and column of a JSON error are not modelled, and the test of the payload length after the bounded write, which can no longer fail, is left away.
- Response.EnvelopeRoundTrip: the request id is any text; its UUID form is not checked.
- CatalogReader.ColumnOf: ordinals, lengths, precisions, row estimates and versions are unbounded here, where the program refuses numbers beyond their integer widths; a struct given as a JSON array, which serde also reads, is refused here.
- SyncServer.ServePage: the log is numbered from one without gaps, as the database trigger numbers it; authorization and the format of the request are not modelled.
- SyncLaws.SyncStaysFresh: the connection collection is represented by the log it was fetched from; that it changes only with an event of another type than `analysis_article` is how the route reads the log, and is not proved of the other routes.
- SyncClient.Workspace.SyncResources: the lock that makes syncs run one at a time, the secrets deleted along the way and the forced refresh of connections outside a sync are not modelled.
- The scope lists of a schema diff, which are constants.
- The Windows side of the profile code, and the choice of the profile file from the environment.
- The other validators of `direct_access.rs` and `control_plane.rs`: facts of one expression each.
