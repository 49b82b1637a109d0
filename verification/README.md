# Desktop backend and locale scripts: a verified model

This project models the stateful algorithms of a desktop coding assistant whose
backend is written in Rust (`src-tauri/src`) and whose locale pipeline is a
handful of TypeScript scripts (`scripts/i18n`), and proves what those algorithms
are for. Each module stands beside one component of the repository.

- **Event sink** (`EventQueues`, `EventSink`, `EventGuarantees`, `EventOrder`).
  Events of many workspaces are queued and flushed in batches by a task; terminal
  events push their workspace's queue out ahead of themselves, urgent events go
  past it. The queue state is a class with its methods; two locks, the flush task
  and any number of emitting tasks are a step system over those methods' effects.
- **Language-server sessions** (`SessionEvictions`, `SessionRegistry`,
  `SessionProtocol`, `SessionProgress`, `SessionFreshness`). A bounded registry with
  idle, dead and least-recently-used eviction, and one initializer per key that the
  registry holds only weakly, under any number of concurrent callers.
- **Language-server requests** (`PendingRequests`, `RequestGuarantees`). Callers that
  send, wait, time out or fail to write, and one reader that settles, fails or exits.
- **Language-server wire format** (`LspFraming`, `LspHeaders`, `PercentPaths`,
  `PercentForms`). Frames with a length header, and file URIs.
- **Code intelligence** (`RenameClosure`, `YamlKeys`, `YamlTexts`, `Lines`). The files
  a rename chain connects, the parents of YAML keys, and the line and column of an
  offset.
- **Fast forms of simple reads** (`Jsonl`, `JsonlTexts`, `JsonlConsumer`, `ScanCache`,
  `ClientStore`, `ClientRestart`). Incremental reading against full parsing, a cache
  against its computation, a cached patch store against one that always reads and
  writes.
- **Migration** (`FileTree`, `MigrationCopy`, `AppPaths`, `AppDataMigration`). A
  recursive copy in place on a disk, proved to be the overlay of two trees, and
  the two start-up migrations built on it.
- **Agents** (`FreshIds`, `AgentImport`, `AgentImportLaws`, `AgentReports`). Importing
  agents with three ways to resolve a conflict.
- **Locales** (`Placeholders`, `PlaceholderLaws`, `Locales`, `LocaleEnds`,
  `LocaleRoundTrip`, `LocaleComplaints`, `Chunks`). Flattening the English texts,
  chunking and merging the flat file, building a locale.
- Shared: `Wrappers`, `Sequences`, `Runs`, `Text`, `Utf8`, `Decimal`.

Where a property that one might expect does not hold, the model keeps what the
code does, shows where it fails, and proves exactly when it holds:

- an offset search finds a line after the end of a text whose last line lacks its
  newline (`Lines.PhantomLine`);
- a request inserted after the reader has exited is never answered
  (`RequestGuarantees.ExitMissesLateRequest`, `LateRequestNeverAnswered`): a request is
  answered by the exit exactly if, when it was inserted, the reader had not yet emptied
  the table for the last time (`RequestGuarantees.AnsweredIffInserted`);
- a JSONL cursor inside a line reads that line's two halves as two lines
  (`JsonlConsumer.HalfLineReadWrong`); it does no harm exactly if the appended part is
  not JSON, so that all is read again, or if the halves give what the whole line gives
  (`JsonlConsumer.HalfLineAgreesIff`);
- a JSONL file rewritten in place and not shortened is read right exactly if the part
  behind the cursor is not JSON, or if the text up to the end of the cursor's line
  parses to what was held and what is read of that line
  (`JsonlConsumer.RewriteAgreesIff`); from a cursor at a line end the state named
  `CorruptFallback` is never reported, since the full read meets the same bad line
  and fails (`JsonlConsumer.ReadKeepsInStep`);
- a client-store write that fails stays in the cache: commands see it, the file keeps
  what its path had when it was last written, and the two agree exactly if the path has
  the fields it had then (`ClientStore.RunAsIfWritten`, `FileIsOfLastWrite`,
  `InSyncIffAsLastWritten`); a patch whose write failed is never written by trying it
  again (`ClientStore.RetriesDoNotWrite`);
- importing a list twice with Overwrite loses the creation time that the first
  import filled in (`AgentImportLaws.OverwriteTwiceIff`);
- the first start fails and the second takes what it copied for the home exactly if no
  sentinel fits into the legacy home, which is a plain file or has a directory named
  `.migration.json` (`AppPaths.FailedCopyTakenForHome`, `FileTakenForHome`);
- taking over application data does not take while an invalid file of the marker's
  name is in the way, so it is done at every start (`AppDataMigration.TookExactlyIf`,
  `AppTookExactlyIf`);
- a locale key with a dot can share a path with a nested key, and then a text is lost
  (`LocaleRoundTrip.DottedKeyLosesText`, `RebuiltExactlyIfOnePerPath`);
- an invalidated scan-cache entry can come back without another look exactly if a scan
  for it was already under way (`ScanCache.InvalidationHoldsIff`, `BackOnlyAfterLook`,
  `InvalidationIsNoBarrier`);
- the script that cuts chunks ends exactly if its size is positive or no number, or
  there is nothing to cut (`Chunks.LoopEndsExactlyIf`);
- a file URI gives a path back exactly if it starts with a slash and has no backslash
  (`PercentPaths.FileUriRoundTrip`).

Verify with `dafny verify dfyconfig.toml`.

## Model

| member | source | states |
|---|---|---|
| EventQueues.BatchedEventState.Submit | src-tauri/src/event_sink.rs:252-264 | An event joins the end of its workspace's queue, a new workspace the end of the order, and the byte counter saturates; the order stays duplicate-free and lists exactly the queues, none empty |
| EventQueues.BatchedEventState.TakeWorkspaceBatch | src-tauri/src/event_sink.rs:266-273 | Exactly one workspace's queue and its place in the order are removed, and the queue is the batch |
| EventQueues.BatchedEventState.DrainAllWorkspaceBatches | src-tauri/src/event_sink.rs:282-306 | Every queue leaves, whole, as one batch per workspace in first-seen order, and the counters are those of empty queues |
| EventQueues.BatchedEventState.CriticalBypassBatch | src-tauri/src/event_sink.rs:324-331 | An urgent event travels alone and every queue stays as it was |
| EventQueues.BatchedEventState.TerminalBarrierBatch | src-tauri/src/event_sink.rs:333-347 | A terminal event goes last in a batch that holds its workspace's whole queue; other queues stay |
| EventQueues.SubmitBytes | src-tauri/src/event_sink.rs:252-264 | The byte counter never exceeds what is queued, and an exact counter stays exact if and only if the total still fits |
| EventQueues.BarrierBytes | src-tauri/src/event_sink.rs:333-347 | A barrier keeps an exact counter exact and a saturated one from over-reporting |
| EventQueues.DrainBytes | src-tauri/src/event_sink.rs:282-306 | A full drain brings even a saturated counter back to the exact zero |
| EventGuarantees.NothingLostOrReordered | src-tauri/src/event_sink.rs:185-245 | In every reachable state, per workspace, emitted then drained-but-unsent then queued is the submission order; urgent events keep their own order |
| EventGuarantees.EveryEventAccountedFor | src-tauri/src/event_sink.rs:400-437 | Copies emitted, in flight and queued add up to copies submitted: nothing lost, nothing duplicated, in every interleaving |
| EventGuarantees.TerminalNeverOvertakes | src-tauri/src/event_sink.rs:400-437 | When a terminal event is on the channel, what stands before it from its workspace is exactly what was submitted before it |
| EventGuarantees.CriticalCallReturnsDelivered | src-tauri/src/event_sink.rs:400-437 | When a critical call is about to return, its event and all it had to wait for have been emitted |
| EventGuarantees.UrgentOvertakesExactlyTheQueue | src-tauri/src/event_sink.rs:324-331 | An urgent event arrives in submission order if and only if nothing of its workspace is queued; otherwise it overtakes exactly that queue |
| EventGuarantees.FlushCountIsBatches | src-tauri/src/event_sink.rs:282-347 | The flush counter is the number of batches produced, capped at the largest u64, in every reachable state |
| EventGuarantees.QueuedBytesExact | src-tauri/src/event_sink.rs:248-347 | Over every run whose queued total always fitted the counter, the counter is that total |
| EventGuarantees.SomeTaskCanStep | src-tauri/src/event_sink.rs:201-224 | The two locks never deadlock: while any task is under way, some task can take its next step |
| EventGuarantees.SubmittedOnlyGrows | src-tauri/src/event_sink.rs:400-437 | Submissions and emissions are never taken back or renumbered along a run |
| EventOrder.FirstSeenFirst | src-tauri/src/event_sink.rs:248-306 | In every run the workspaces stand in the order, and are flushed, in the order in which their queues last stopped being empty |
| EventOrder.WaitsSinceSome | src-tauri/src/event_sink.rs:252-264 | And every queued workspace has such a moment |
| EventOrder.CriticalCountersExact | src-tauri/src/event_sink.rs:319-347 | In every run both critical counters are the number of critical events that went through the lock, capped at the largest u64 |
| EventOrder.LastFlushSizeExact | src-tauri/src/event_sink.rs:282-347 | In every run the last flush size is the size of exactly what last left the queues |
| SessionEvictions.EvictionDecision | src-tauri/src/code_intel_lsp.rs:434-463 | Every dead or idle entry is evicted; a live one only to make room, never the requested key, at most one, and one that no survivor is older than |
| SessionEvictions.EvictionMakesRoom | src-tauri/src/code_intel_lsp.rs:434-463 | What is evicted was in the registry, each once, and after it a new session fits the bound |
| SessionRegistry.SessionTable.SessionFacts | src-tauri/src/code_intel_lsp.rs:605-614 | The snapshot lists each entry once, whatever order the map yields |
| SessionRegistry.SessionTable.RemoveAll | src-tauri/src/code_intel_lsp.rs:615-619 | Exactly the named entries leave, and exactly their sessions are returned to be stopped |
| SessionRegistry.SessionTable.Lookup | src-tauri/src/code_intel_lsp.rs:603-625 | First critical section: evictions leave, a surviving entry of the key is refreshed and returned |
| SessionRegistry.SessionTable.Enter | src-tauri/src/code_intel_lsp.rs:634-660 | Second critical section: evictions leave, the new session stands under its key |
| SessionRegistry.SessionTable.RemoveFailed | src-tauri/src/code_intel_lsp.rs:667-687 | Only the very session that failed is removed, never a successor under its key |
| SessionProtocol.SameKeySameInitializer | src-tauri/src/code_intel_lsp.rs:494-503 | In every run, active callers hold the same initializer if and only if they asked for the same key, although the map holds it weakly |
| SessionProtocol.AtMostOneSpawning | src-tauri/src/code_intel_lsp.rs:594-665 | In every run at most one caller is between lookup and entry for a key |
| SessionProtocol.InsertNeverOverwrites | src-tauri/src/code_intel_lsp.rs:634-660 | In every run the final insert meets no entry under its key |
| SessionProtocol.RegistryBounded | src-tauri/src/code_intel_lsp.rs:604-660 | In every run the registry has at most six entries |
| SessionProtocol.NoSessionLeaks | src-tauri/src/code_intel_lsp.rs:594-698 | In every run each spawned session is registered, with its creator, handed to stop or stopped, and a registered one is neither handed to stop nor stopped |
| SessionProtocol.OneLiveSessionPerKey | src-tauri/src/code_intel_lsp.rs:594-665 | In every run a key has at most one session that is still wanted |
| SessionProtocol.ResultsAreForTheKey | src-tauri/src/code_intel_lsp.rs:594-665 | A caller is only ever given a session spawned for its own key |
| SessionProtocol.CachedSessionIsAlive | src-tauri/src/code_intel_lsp.rs:602-631 | A session found by lookup is running, registered and not on its way to stop |
| SessionProgress.NoCallerIsStuck | src-tauri/src/code_intel_lsp.rs:494-665 | No deadlock: in every run a caller under way can take its next step, or the holder of the one lock it waits for can |
| SessionProgress.CallNearsItsEnd | src-tauri/src/code_intel_lsp.rs:594-698 | Every call ends: each step of a run leaves it alone or lowers a bound on its own steps, however many sessions it has to stop |
| SessionFreshness.UseStamps | src-tauri/src/code_intel_lsp.rs:603-660 | A lookup that finds a session, and a registration, stamp its entry with their own time |
| SessionFreshness.UnusedKeeps | src-tauri/src/code_intel_lsp.rs:603-687 | No other step changes an entry that stays |
| SessionFreshness.StampIsLastUse | src-tauri/src/code_intel_lsp.rs:603-660 | So in every run an entry's stamp is the time of the last step that found or registered its session |
| SessionFreshness.EntryHasLastUse | src-tauri/src/code_intel_lsp.rs:603-660 | And every entry has such a step |
| SessionFreshness.StaleIsEvicted | src-tauri/src/code_intel_lsp.rs:434-463 | In every run the next decision evicts a session whose server died or that nobody used for the whole timeout |
| SessionFreshness.FreshGoesOnlyForRoom | src-tauri/src/code_intel_lsp.rs:434-463 | In every run a running session used within the timeout is evicted only if the registry is full of such sessions, the requested key is not among them, and none was last used earlier |
| SessionFreshness.FreshIsFound | src-tauri/src/code_intel_lsp.rs:603-631 | Whoever looks up a running session within the timeout of its last use is given that session |
| RequestGuarantees.IdsAreUsedOnce | src-tauri/src/code_intel_lsp.rs:301-344 | In every run an id belongs to one call, and no call ends twice |
| RequestGuarantees.EveryIdAccountedFor | src-tauri/src/code_intel_lsp.rs:301-344 | And none is lost: the call of every id handed out is under way or has its outcome |
| RequestGuarantees.EveryCallEnds | src-tauri/src/code_intel_lsp.rs:301-344 | A call under way always has a next step of its own, and each step of a run leaves it alone or brings it nearer its end |
| RequestGuarantees.ReturnedIsNotPending | src-tauri/src/code_intel_lsp.rs:301-344 | From the moment a call has its outcome its id is not pending, for good |
| RequestGuarantees.RepliesAreOwn | src-tauri/src/code_intel_lsp.rs:871-927 | A reply that a caller returns is what a response to its very id, received earlier in the run, tells (its result, or null, or its error's text, or the default text), or it is the reason for which the reader gave up |
| RequestGuarantees.OnlyOwnResponseSettles | src-tauri/src/code_intel_lsp.rs:896-927 | In every run a pending request leaves the table only by a response to its very id, by the reader giving up on all, or by its own caller; server requests and other responses settle nothing |
| RequestGuarantees.DeliveredOnlyFromHand | src-tauri/src/code_intel_lsp.rs:896-927 | In every run a reply reaches a mailbox only from the reader's hand, and a delivered one never changes |
| RequestGuarantees.WaitingIsAnswerable | src-tauri/src/code_intel_lsp.rs:871-927 | While a caller waits, its sender is in the table, in the reader's hand, or used: nothing it needs is lost |
| RequestGuarantees.NeverCanceled | src-tauri/src/code_intel_lsp.rs:301-344 | The arm for a dropped sender is never taken in any run |
| RequestGuarantees.ExitMissesLateRequest | src-tauri/src/code_intel_lsp.rs:871-894 | A run in which a request inserted after the exit is left pending |
| RequestGuarantees.AnsweredIffInserted | src-tauri/src/code_intel_lsp.rs:871-894 | In every run, once the reader has exited, a caller still waiting has its reply if and only if its request was inserted before the reader emptied the table for the last time |
| RequestGuarantees.LateRequestNeverAnswered | src-tauri/src/code_intel_lsp.rs:995-1000 | Whatever is pending once the reader has exited is never answered in any continuation |
| LspFraming.Reader.ReadLine | src-tauri/src/code_intel_lsp.rs:1002-1013 | Takes the bytes up to and including the first line feed off the stream |
| LspFraming.Reader.ReadLspMessage | src-tauri/src/code_intel_lsp.rs:1002-1042 | The header loop computes the specified reading of one message and leaves the rest of the stream, errors included |
| LspFraming.ReadFrame | src-tauri/src/code_intel_lsp.rs:282-298 | Reading a written frame gives its payload and leaves what follows, whatever follows |
| LspFraming.StreamRoundTrip | src-tauri/src/code_intel_lsp.rs:1002-1042 | Any list of written frames reads back as exactly those messages in order, then a clean end of stream |
| LspFraming.ReadCutFrame | src-tauri/src/code_intel_lsp.rs:1002-1042 | A frame cut anywhere yields no message |
| LspFraming.CutStreamReadsWholeFrames | src-tauri/src/code_intel_lsp.rs:1002-1042 | A stream cut anywhere yields exactly the messages whole before the cut, none altered or added |
| LspHeaders.ReadHeadedFrame | src-tauri/src/code_intel_lsp.rs:1002-1042 | A frame with any other header fields before and after its length reads back all the same |
| LspHeaders.LengthCounts | src-tauri/src/code_intel_lsp.rs:1022-1029 | A length field, with or without a plus sign, replaces any length read before, or is an error if it is too large |
| LspHeaders.BadLengthFails | src-tauri/src/code_intel_lsp.rs:1022-1029 | A length that is not a number is an error |
| LspHeaders.NoLengthFails | src-tauri/src/code_intel_lsp.rs:1002-1032 | A header without a length is an error, whatever else it holds |
| Decimal.ParsePrint | src-tauri/src/code_intel_lsp.rs:282-298 | Decimal lengths print and parse back |
| PercentPaths.PercentEncodePath | src-tauri/src/code_intel_lsp.rs:1054-1064 | The loop writes every byte of the path's UTF-8 form, plain or as percent and two hex digits |
| PercentPaths.PercentDecodePath | src-tauri/src/code_intel_lsp.rs:1078-1094 | The index loop computes the specified decoding, including its failures |
| PercentPaths.DecodeEncodedPath | src-tauri/src/code_intel_lsp.rs:1054-1094 | Decoding an encoded path gives the path back, for every path |
| PercentPaths.EncodingInjective | src-tauri/src/code_intel_lsp.rs:1054-1064 | Different paths have different encodings |
| PercentPaths.EncodedCharacters | src-tauri/src/code_intel_lsp.rs:1054-1064 | An encoding holds only characters that a URI path may hold |
| PercentForms.EncodedSpells | src-tauri/src/code_intel_lsp.rs:1054-1064 | Each byte is spelled as itself if it is unreserved, a slash or a colon, and otherwise by a percent sign and two upper-case hex digits of its value |
| PercentForms.PlainKept | src-tauri/src/code_intel_lsp.rs:1054-1064 | A path that needs no escape is its own encoding |
| PercentForms.EscapeRead | src-tauri/src/code_intel_lsp.rs:1078-1104 | An escape in either case of digits is read as its byte |
| PercentForms.BrokenEscape | src-tauri/src/code_intel_lsp.rs:1078-1104 | An escape sign without two hex digits behind it cannot be read |
| PercentPaths.PathToFileUri | src-tauri/src/code_intel_lsp.rs:1044-1052 | Backslashes are turned, a missing leading slash is added, the rest is encoded |
| PercentPaths.FileUriRead | src-tauri/src/code_intel_lsp.rs:1044-1076 | What comes back from a path's URI is that path with backslashes turned and a slash in front |
| PercentPaths.FileUriRoundTrip | src-tauri/src/code_intel_lsp.rs:1044-1076 | A path survives the trip if and only if it starts with a slash and has no backslash |
| Utf8.DecodeEncode | src-tauri/src/code_intel_lsp.rs:1078-1094 | UTF-8 text decodes to what was encoded |
| Utf8.EncodeDecode | src-tauri/src/code_intel_lsp.rs:1078-1094 | Only bytes that some text encodes to are decoded |
| RenameClosure.ConnectedPaths | src-tauri/src/git_utils.rs:441-454 | The fixpoint loop ends and its set is the connected component of the target in the undirected rename graph |
| RenameClosure.DiffPathsForFile | src-tauri/src/git_utils.rs:410-471 | The list is duplicate-free with exactly the component's paths, or the target alone when it was never renamed or the status is unreadable |
| RenameClosure.ListingIsComponent | src-tauri/src/git_utils.rs:456-470 | Listing the pairs' ends inside the component lists that component, each path once |
| RenameClosure.SameListForWholeComponent | src-tauri/src/git_utils.rs:410-471 | Any member of a component gives the identical list; different components share no path |
| YamlKeys.ParseYamlPropertyEntries | src-tauri/src/code_intel.rs:295-386 | The stack scan gives every key line the dotted name of its declared parents, its line and its columns, in order |
| YamlKeys.ScanKeys | src-tauri/src/code_intel.rs:295-386 | The one-pass stack equals the declared parent relation for every list of read lines |
| YamlKeys.PlaceKey | src-tauri/src/code_intel.rs:348-382 | Popping to the parent leaves exactly the enclosing keys on the stack, and pushing keeps exactly the open ones |
| YamlKeys.ParentIs | src-tauri/src/code_intel.rs:348-360 | A key's parent is the latest earlier opening key that it and all keys between are deeper than |
| YamlKeys.IndentsIncrease | src-tauri/src/code_intel.rs:348-354 | The indents on the scan's own stack strictly increase |
| YamlKeys.ColumnsSpellTheKey | src-tauri/src/code_intel.rs:300-367 | The byte columns of a key cut exactly the key out of its line |
| YamlTexts.WrittenKeyRead | src-tauri/src/code_intel.rs:300-382 | Spaces, perhaps a dash, a key with or without quotes, a colon and a value are read as that key at that indent and those columns, opening a block exactly if the value is empty, a comment or one of the two block signs |
| YamlTexts.NoColonNoKey | src-tauri/src/code_intel.rs:318-320 | A line without a colon is no key |
| YamlTexts.CommentNoKey | src-tauri/src/code_intel.rs:308-316 | A comment is no key, also behind a dash |
| YamlTexts.OddZoneNoKey | src-tauri/src/code_intel.rs:321-346 | Nor is a line whose text in front of the colon has any character a key cannot have |
| YamlTexts.CarriageReturnIgnored | src-tauri/src/code_intel.rs:300-300 | A carriage return at the end of a line makes no difference |
| YamlTexts.EntriesAreKeyLines | src-tauri/src/code_intel.rs:295-386 | The entries of a text are its key lines, in order, with their numbers and columns |
| YamlTexts.KeyLinesHaveEntries | src-tauri/src/code_intel.rs:295-386 | And every key line has its entry |
| YamlTexts.NamedUnderParent | src-tauri/src/code_intel.rs:348-360 | A key is named under the latest line that opens a block it is in |
| YamlTexts.NamedAlone | src-tauri/src/code_intel.rs:348-360 | A key in no block is named alone |
| YamlTexts.TwoKeys | src-tauri/src/code_intel.rs:295-386 | Of two key lines the second has the first's name in front exactly if the first opens a block and the second is deeper |
| Lines.FindLineBounds | src-tauri/src/code_intel.rs:202-223 | The bounds are those of the asked line in bytes, for every line the text has |
| Lines.OffsetToLineCharacter | src-tauri/src/code_intel.rs:225-240 | The line is the number of newlines before the offset, the column the characters since the last one |
| Lines.LineContains | src-tauri/src/code_intel.rs:202-240 | The line an offset is counted to be in contains it and starts column characters before it |
| Lines.LocateMatch | src-tauri/src/code_intel.rs:533-541 | For every match start the line is found, the slice is in range, and the relative start cuts exactly the characters in front of the match |
| Lines.PhantomLine | src-tauri/src/code_intel.rs:218-222 | The line after the last is found, empty, if and only if the text lacks its final newline |
| Jsonl.ReadJsonl | src-tauri/src/backend_budget.rs:302-363 | The reading loop and its fallback, which terminates, compute the specified read for every file and cursor |
| Jsonl.ParseConcat | src-tauri/src/backend_budget.rs:329-348 | Parsing splits at a line end, up to the first bad line |
| JsonlTexts.TextRead | src-tauri/src/backend_budget.rs:302-363 | Read without a cursor, any lines, ended by LF or CR LF, with or without an unterminated last one, give exactly their records in order, or the error of the first line that is neither blank nor a record |
| JsonlTexts.GoodOrFirstBad | src-tauri/src/backend_budget.rs:329-348 | One of the two is always the case |
| JsonlConsumer.ReadKeepsInStep | src-tauri/src/backend_budget.rs:280-363 | After an append of complete lines, a shrink below the cursor or a replacement, a read fails exactly as a full read fails, otherwise leaves the consumer with the full parse, and never falls back |
| JsonlConsumer.RunKeepsInStep | src-tauri/src/backend_budget.rs:280-363 | Over every such run the consumer holds the records of what it read last |
| JsonlConsumer.HoldsFullParse | src-tauri/src/backend_budget.rs:302-363 | After every further read incremental and full reading cannot be told apart |
| JsonlConsumer.RewriteAgreesIff | src-tauri/src/backend_budget.rs:280-363 | Any file rewritten in place and not shortened is read right if and only if the part behind the cursor is not JSON, or the text up to the end of the cursor's line parses to what was held and what is read of that line |
| JsonlConsumer.HalfLineAgreesIff | src-tauri/src/backend_budget.rs:302-363 | With the cursor inside a line, the consumer is right if and only if the appended part is not JSON or the two halves give the whole line's records |
| JsonlConsumer.HalfLineReadWrong | src-tauri/src/backend_budget.rs:302-363 | A file and an append for which it is wrong |
| ScanCache.Cache.GetOrCompute | src-tauri/src/backend_budget.rs:88-138 | Alone, a caller gets a hit exactly on a matching entry and otherwise scans and stores |
| ScanCache.Cache.Invalidate | src-tauri/src/backend_budget.rs:197-199 | Removes one entry and says whether it was there |
| ScanCache.Cache.InvalidateMatching | src-tauri/src/backend_budget.rs:201-209 | Removes exactly the matching entries and counts them |
| ScanCache.ReturnsTheScan | src-tauri/src/backend_budget.rs:88-138 | In every interleaving a call returns what its own scan would have given |
| ScanCache.ReportsWhatItSaw | src-tauri/src/backend_budget.rs:103-125 | In every run a hit, a miss or an invalidation is reported exactly if a matching, no, or another entry was there when the call looked |
| ScanCache.BackOnlyAfterLook | src-tauri/src/backend_budget.rs:88-209 | In every run an entry invalidated while no call for it was past its look is back only after another call has looked |
| ScanCache.InvalidationHoldsIff | src-tauri/src/backend_budget.rs:88-209 | After an invalidation the entry can come back without another look if and only if a call for it was scanning or storing |
| ScanCache.InvalidationIsNoBarrier | src-tauri/src/backend_budget.rs:126-137 | A run in which an entry is back right after its invalidation |
| ClientStore.CachedStore.ReadStore | src-tauri/src/client_storage.rs:165-177 | A read answers from the cache, or from the file and then caches it |
| ClientStore.CachedStore.WriteStore | src-tauri/src/client_storage.rs:179-192 | The cache takes the value even when the file cannot be written |
| ClientStore.CachedStore.PatchStore | src-tauri/src/client_storage.rs:194-226 | The key loop computes the overlay, and the file is written exactly when some key changed |
| ClientStore.RunAsIfWritten | src-tauri/src/client_storage.rs:165-226 | Over every session, whatever fails, reads and all commands whose write does not fail answer as a plain store would whose writes all succeed |
| ClientStore.RunRefines | src-tauri/src/client_storage.rs:165-226 | Over every session whose writes succeed, each answer is that of a store that always reads, overlays and writes its file |
| ClientStore.RunKeepsInSync | src-tauri/src/client_storage.rs:165-226 | Over every such session cache and files agree, non-objects counting as the empty object |
| ClientStore.FilesMatchPlain | src-tauri/src/client_storage.rs:194-226 | Skipping unchanged writes loses nothing: each file has the fields of the plain store's file |
| ClientStore.FileIsOfLastWrite | src-tauri/src/client_storage.rs:179-226 | Over every session each file holds what its path had in that plain store when the file was last written, and stays so until the next command that writes it |
| ClientStore.InSyncIffAsLastWritten | src-tauri/src/client_storage.rs:179-226 | Over every session cache and file agree if and only if the path has the fields it had when the file was last written; so any command that writes brings them together |
| ClientStore.RetriesDoNotWrite | src-tauri/src/client_storage.rs:194-226 | A patch whose write failed is never written by retries: in every session that only reads its path or retries, each try that gets the lock succeeds and the file stays |
| ClientRestart.FirstRead | src-tauri/src/client_storage.rs:157-177 | A new store reads a missing file as null, a JSON file as its value, and any other file not at all |
| ClientRestart.FirstPatch | src-tauri/src/client_storage.rs:194-226 | A first patch leaves the patch's entries and the file's other fields, creates a missing file, and leaves a file alone that is not JSON |
| ClientRestart.WrittenIsReadAgain | src-tauri/src/client_storage.rs:165-192 | What a write left is what a store started afterwards reads |
| FileTree.Disk.CreateDirAll | src-tauri/src/app_paths.rs:189-189 | A directory and what is missing above it appear, unless a file is in the way |
| MigrationCopy.CopyFile | src-tauri/src/app_paths.rs:222-232 | An existing destination stays; otherwise the file and its missing parents appear; nothing else changes |
| MigrationCopy.CopyDirRecursive | src-tauri/src/app_paths.rs:183-220 | Succeeds if and only if no file is in its way, and then is the overlay in place; success or not, nothing outside the destination changes, so neither does the source |
| MigrationCopy.PartialAll | src-tauri/src/app_paths.rs:190-217 | The order in which a directory is listed makes no difference |
| MigrationCopy.OverlayShape | src-tauri/src/app_paths.rs:183-232 | At every path the destination wins and the source fills the gaps |
| MigrationCopy.OverlayNothing | src-tauri/src/app_paths.rs:183-220 | Copying to where nothing is copies exactly |
| MigrationCopy.OverlayTwice | src-tauri/src/app_paths.rs:183-220 | Copying again meets no obstacle and changes nothing |
| AppPaths.WriteMigrationSentinel | src-tauri/src/app_paths.rs:234-249 | The sentinel file stands in the directory and all else stays |
| AppPaths.EnsureDataDir | src-tauri/src/app_paths.rs:103-119 | Nothing happens if the home is there or no legacy home is; otherwise the first legacy home is copied and marked |
| AppPaths.ProjectLocalDataDir | src-tauri/src/app_paths.rs:61-96 | The same for project data under the three legacy names, with no requirement on the disk |
| AppPaths.FirstHomeTaken | src-tauri/src/app_paths.rs:103-119 | Of several legacy homes the first in the list is taken: the new home has its entries and the sentinel |
| AppPaths.SecondEnsureChangesNothing | src-tauri/src/app_paths.rs:103-119 | A second call changes nothing and succeeds, unless a file blocks the way |
| AppPaths.FailedCopyTakenForHome | src-tauri/src/app_paths.rs:103-119 | The first call fails and the second succeeds without a sentinel if and only if none fits into the legacy home; the home is a file exactly if that is one |
| AppPaths.FileTakenForHome | src-tauri/src/app_paths.rs:103-119 | A plain file as legacy home is such a case |
| AppDataMigration.HasExistingAppData | src-tauri/src/app_paths.rs:156-169 | True exactly if some marker file is valid JSON or some marker directory exists |
| AppDataMigration.PrepareAppDataDir | src-tauri/src/app_paths.rs:131-154 | Nothing happens if there is data or no legacy data; otherwise the first legacy directory with data is overlaid and marked; siblings are untouched |
| AppDataMigration.PrepareAppDataDirFromPath | src-tauri/src/app_paths.rs:131-181 | The same with the application's own names and markers |
| AppDataMigration.AppDataIs | src-tauri/src/app_paths.rs:156-181 | The application's data are two files, if valid JSON, or two directories |
| AppDataMigration.FirstDataTaken | src-tauri/src/app_paths.rs:131-154 | Of several legacy directories with data the first in the list is taken, and its entries fill the gaps |
| AppDataMigration.TookExactlyIf | src-tauri/src/app_paths.rs:131-169 | After a take-over there is data if and only if some valid legacy marker had a name not yet present |
| AppDataMigration.AppTookExactlyIf | src-tauri/src/app_paths.rs:131-181 | The same for the application's own directories and markers, none of which is the sentinel |
| AppDataMigration.SecondPrepare | src-tauri/src/app_paths.rs:131-154 | After a call that succeeded a second one changes nothing, or nothing but the sentinel |
| FreshIds.GenerateUniqueId | src-tauri/src/agents.rs:204-212 | The search ends within one probe more than there are ids and returns the first free candidate |
| FreshIds.TakenFit | src-tauri/src/agents.rs:204-212 | So many different candidates can be taken only if there are so many ids |
| FreshIds.CandidatesDiffer | src-tauri/src/agents.rs:204-212 | Different suffixes give different candidates |
| FreshIds.FreshIsNext | src-tauri/src/agents.rs:204-212 | The fresh id is the base, a dash and the first number that is free |
| AgentImport.SanitizeTwice | src-tauri/src/agents.rs:178-187 | Cleaning an agent up once is enough |
| AgentReports.CheckedExactly | src-tauri/src/agents.rs:154-187 | An agent is accepted exactly if its trimmed texts have the right lengths, with the first fault reported, and then only those texts are changed |
| Text.TrimIs | src-tauri/src/agents.rs:178-187 | Trimming takes away blanks at both ends, all of them and nothing else |
| AgentImport.AgentStore.ImportApply | src-tauri/src/agents.rs:441-500 | The whole import: the new store and the report are the specified fold, and a failed write imports nothing |
| AgentImport.ImportNext | src-tauri/src/agents.rs:453-490 | One agent: skipped, replaced, entered under its own or a fresh id, with the right counter |
| AgentImportLaws.CountsAddUp | src-tauri/src/agents.rs:441-500 | imported + updated + skipped is the input length, the store grows by exactly imported, no id disappears |
| AgentReports.ReportExactly | src-tauri/src/agents.rs:441-500 | The report lists every complaint in order, and its counters are those of the invalid agents and of the agents whose id was there before |
| AgentImportLaws.OldEntriesKept | src-tauri/src/agents.rs:463-490 | Skip and Duplicate leave every old entry as it was |
| AgentImportLaws.IdsStayKeys | src-tauri/src/agents.rs:453-490 | Every entry keeps standing under its own id |
| AgentImportLaws.EveryIdPresent | src-tauri/src/agents.rs:453-490 | After an import every valid agent's id is in the store |
| AgentImportLaws.SkipTwice | src-tauri/src/agents.rs:463-467 | Importing the same list again with Skip changes nothing |
| AgentImportLaws.EveryAgentDuplicated | src-tauri/src/agents.rs:472-490 | With Duplicate every valid agent ends as an entry of its own, with its own content, under an id that was free when it came |
| AgentImportLaws.DuplicatesApart | src-tauri/src/agents.rs:472-490 | And no two agents end under one id |
| AgentImportLaws.NothingElseDuplicated | src-tauri/src/agents.rs:472-490 | And the store holds nothing else but its old entries |
| AgentImportLaws.OverwriteUntouched | src-tauri/src/agents.rs:468-471 | Overwrite touches no entry that no valid agent has the id of |
| AgentImportLaws.LastWins | src-tauri/src/agents.rs:468-471 | With Overwrite the last valid agent of an id wins, stamped only if the id was new to it |
| AgentImportLaws.OverwriteTwiceIff | src-tauri/src/agents.rs:468-490 | Importing again with Overwrite changes nothing if and only if no agent loses the creation time filled in the first time |
| Placeholders.SamePlaceholdersIsMultisetEquality | scripts/i18n/build-locale.ts:28-45 | Comparing sorted, joined placeholders compares multisets, although a placeholder may hold the separator |
| Placeholders.PlaceholderAt | scripts/i18n/build-locale.ts:28-29 | Finds a placeholder at the start of a text if and only if there is one |
| Placeholders.JoinedInjective | scripts/i18n/build-locale.ts:44-45 | Joining placeholders loses nothing |
| PlaceholderLaws.FindIsLeftmost | scripts/i18n/build-locale.ts:28-29 | The search finds the leftmost placeholders that do not overlap, and none begins between them |
| PlaceholderLaws.LeftmostUnique | scripts/i18n/build-locale.ts:28-29 | A text has only one such list |
| PlaceholderLaws.NothingFound | scripts/i18n/build-locale.ts:28-29 | A text without a placeholder has none found |
| PlaceholderLaws.FoundBehind | scripts/i18n/build-locale.ts:28-29 | A placeholder behind text without an opening brace is found, and the search goes on behind it |
| PlaceholderLaws.OnePlaceholderKept | scripts/i18n/build-locale.ts:43-45 | A text with one placeholder compares equal exactly with the texts that have it once and no other |
| PlaceholderLaws.LeafAccepted | scripts/i18n/build-locale.ts:35-77 | A file for an English leaf with one placeholder is accepted exactly if its text has that placeholder once and no other |
| Locales.Extraction.Flatten | scripts/i18n/extract.ts:12-26 | The recursion writes every end of the tree at its dotted path and lists the dotted keys |
| Locales.Builder.Build | scripts/i18n/build-locale.ts:35-56 | The recursion builds the translated tree and keeps book of seen paths, missing texts and bad placeholders |
| Locales.BuildLocale | scripts/i18n/build-locale.ts:61-77 | One build per namespace, put together, or all complaints |
| LocaleComplaints.ComplaintsNameFaults | scripts/i18n/build-locale.ts:35-77 | A refused build names exactly the paths that lack a text, that the tree does not have, and whose placeholders differ, each in its list |
| LocaleRoundTrip.AcceptedExactlyIfFits | scripts/i18n/build-locale.ts:35-77 | A flat file is accepted if and only if it has exactly the leaf paths, each with a text of the same placeholder multiset |
| LocaleRoundTrip.BuiltFlattensBack | scripts/i18n/build-locale.ts:35-67 | Flattening an accepted locale gives back its flat file, even with dotted keys |
| LocaleRoundTrip.RebuiltExactlyIfOnePerPath | scripts/i18n/extract.ts:12-26 | Extracting and building gives the same tree if and only if no path has two texts |
| LocaleEnds.PlainPathsDistinct | scripts/i18n/extract.ts:12-26 | With non-empty dot-free keys every value has a path of its own |
| LocaleRoundTrip.PlainTreeRebuilt | scripts/i18n/build-locale.ts:35-56 | So every tree of texts with such keys is rebuilt from its own flat form |
| LocaleRoundTrip.DottedKeyLosesText | scripts/i18n/extract.ts:18-21 | A tree with a dotted key that is not |
| LocaleRoundTrip.NoDottedKeys | scripts/i18n/extract.ts:18-21 | The list of dotted keys is empty if and only if no key anywhere has a dot |
| LocaleRoundTrip.TwoLevels | scripts/i18n/extract.ts:12-26 | What nested entries are written as, at which path, what stands for a value that is no text, and which keys are listed as dotted |
| LocaleRoundTrip.OwnFlatAcceptedIfAllText | scripts/i18n/extract.ts:12-26 | With plain keys a tree is accepted with its own flat form if and only if it holds nothing but texts |
| Chunks.Chunk | scripts/i18n/chunk.ts:7-23 | For every size with which the script ends: a positive one writes the consecutive slices, each under the name of its number; one that is no number writes a single empty chunk; no entries write nothing |
| Chunks.LoopEndsExactlyIf | scripts/i18n/chunk.ts:17-23 | The counting loop ends if and only if there are no entries or the size is positive or no number |
| Chunks.SliceIs | scripts/i18n/chunk.ts:18-19 | Slice number k is the run of entries that begins at k times the size |
| Chunks.TwoDigits | scripts/i18n/chunk.ts:20-20 | Up to a hundred chunks all names have two digits |
| Chunks.ChunkNamesDiffer | scripts/i18n/chunk.ts:20-20 | No chunk file overwrites another, also beyond two digits |
| Chunks.Merge | scripts/i18n/merge.ts:16-19 | The two loops compute the right-biased union in reading order |
| Chunks.MergeOfChunks | scripts/i18n/merge.ts:16-19 | Chunk files merge to the flat file they were cut from, whatever order they are read in |
| Chunks.TranslatedChunksKeepKeys | scripts/i18n/merge.ts:16-19 | Translating the values of every chunk neither loses nor adds a key of the merged file |
| Chunks.PipelineIdentity | scripts/i18n/merge.ts:16-19 | Extract, chunk, merge and build give the tree they started from |

## Left out

- Event sink: the statistics task and the durations it reports (clock), the sink that emits single events, the observers, and the drain methods compiled only for tests.
- Event sink: sums of event sizes within one drain are unbounded; only the queued total saturates, as in the code.
- Event sink and sessions: workspace ids and session keys are numbers, since only their equality matters; event payloads are opaque.
- Sessions: process spawn, initialization and kill are single steps with a free outcome; lifecycle flags, document synchronisation and the cancel notification are not modelled.
- Sessions and requests: a call that is dropped half-way by its caller is not modelled.
- Requests: ids do not wrap around.
- LspFraming: JSON is an opaque partial function on payloads; allocating a buffer of the announced length always succeeds.
- PercentPaths: a path is its text (bytes that are not UTF-8 are replaced before); the drive-letter branch of Windows is not modelled.
- RenameClosure: reading the repository status is a parameter (the rename pairs, or that they cannot be read).
- Lines and YamlKeys: lines and columns are unbounded; the casts to 32 bits are not modelled.
- Lines.LocateMatch: the pattern search that supplies the match starts, and the later filters, are not modelled.
- Jsonl: a read is one snapshot of the file; UTF-8 and JSON of a line are one opaque function; errors of the disk other than a missing file are not modelled.
- Jsonl.ReadJsonl: models the cursor test of Unix systems, which ignores the modification time; the test of other systems is not modelled.
- ScanCache: the variant that takes its signatures from the stored value is not modelled; a scan is a function of key and signature.
- ClientStore: each command is one step (the gap in a read between looking into the cache and filling it is not modelled); other processes do not edit the files; the take-over of a stale lock is not modelled.
- MigrationCopy.CopyDirRecursive: source and destination do not lie inside each other, as for all its callers; symbolic links and disk errors are not modelled, and after a failure only what lies outside the destination is described.
- AppPaths: a path is a list of names; the sentinel's text (time and source name) is a parameter; the check that a relative path has no special components is not modelled.
- AgentImport: parsing the strategy's name, reading the import file and the JSON of the store are not modelled; the clock is a function of the position in the list; integers are unbounded.
- Locales: the order of namespaces in the barrel file, the special object key `__proto__` and the reordering of keys that look like integers are not modelled; complaints are paths, without their wording.
- Locales.BuildLocale: requires the English root to be an object, which it is by its declaration.
- Placeholders: texts are compared character by character in the order of code points, where the scripts order UTF-16 units; only whether two sorted lists are equal depends on it.
- Chunks.Chunk: a run of the script that does not end (zero or a negative size) is only described by its counter; a size with a fraction is not modelled.
- User interface, HTTP and socket plumbing, provider tables, catalogue validators, symbol search by patterns and quota code are not modelled.
