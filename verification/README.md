# Verified model of the DroidBridge runtime core

A Dafny model of the parts of this repository that carry algorithms, state machines and step protocols,
with proofs about every input and every run. `dafny verify dfyconfig.toml` checks all of it.

Code that changes things step by step is modelled as methods, most of them on classes with the source's
fields, and each method is proved against a specification function or a stated property; the properties the
source promises are lemmas about those functions and about runs. What the file system, the clock, the
process table and the network answer is a parameter, so a theorem for all parameters covers every failure.
A run is a sequence of steps, and the interleavings of threads are the orders of those steps.

| module | what it models |
|---|---|
| `ContentListing`, `ContentTree` | the content provider's directory traversal: a work stack under depth and entry budgets, and the tree it lists |
| `ContentRows`, `ContentOutput` | splitting printed query rows into columns, and query output into rows |
| `ContentUri`, `ContentUriTexts`, `ContentUtf8` | percent-encoding and document URIs (section 2.1 of RFC 3986), their spellings, and UTF-8 (section 3 of RFC 3629) |
| `ReleaseJson`, `ReleaseParser`, `ReleaseReader`, `ReleaseShortest` | the release tool's JSON writer, its grammar, its cursor parser, the canonical-bytes check, and which text the writer chooses |
| `GuardFrames` | the byte form of a guard proof, torn writes included, and its classification |
| `GuardCapacity`, `GuardScope`, `GuardRuns`, `GuardExecutions` | the capacity gate, the owner of the proofs, every run of owner and guard processes together, and what the owner's answers say of an execution |
| `GuardStreams`, `GuardRecovery` | bounded drains, the reap loop, and carrying out a recovery plan |
| `Dedup` | the retained-request index |
| `Routes`, `RowBudget` | route words and masks, longest-prefix match (section 5.1 of RFC 4632), and one row budget over several tables |
| `ShizukuRegistry`, `ShizukuOutcomes`, `DirectoryPaging` | the registry of Shizuku guards, what its callers are answered over a run, and cookie paging of directories |
| `Ingress`, `IngressEffects`, `HostFacts` | the MCP listener and tunnel under committed settings, what each operation does, and the facts a Magisk host publishes |
| `HostCalls`, `CanonicalPayload`, `PayloadText` | host-call slots, the canonical form of a payload, and the text it is hashed as |

## Results about the code

Where the expected property does not hold, the model keeps the code as it is and a lemma says exactly when it does.

- Ingress: a commit writes the file, renames it and then syncs the directory (`rust/crates/daemon/src/settings.rs:198-223`).
  When only the sync fails the new settings are in force on disk and the operation still answers with a failure and
  reconciles nothing. `Ingress.StepIsTrue` gives the exact family of steps after which something runs on settings
  that are not the committed ones; reconciling or attaching ends it.
- Host facts: the registry ignores a registration whose generation is not larger and says so only in a result the host
  discards. `HostFacts.RunIsSound` proves that this never happens. A refresh can close the guards and end before it has
  registered them: `HostFacts.RootFollowsTheGuards` says exactly when, and root then stays registered as available until a
  change of the module (`HostFacts.RefreshIsSound`).
- Host facts: losing the wake alarm advances the generation without renewing the executor's fence, which then lags by one
  until something else is published (`HostFacts.FenceIsCurrent`).
- Guards: a settlement that ends in an error does not quarantine. `GuardRuns.SettlementQuarantinesExactly` gives both
  conditions on what could be read and removed.
- Guards: a verified answer removes a proof; it does not stop a guard. `GuardExecutions.AbortIsSafeExactly` and
  `GuardExecutions.SettlementIsSafeExactly` say exactly when a process can still follow, over all guards the execution ever
  had. For an execution prepared once a verified settlement is final.
- Content rows: a successful split is the only reading of its row. The converse fails: a document whose display name ends
  in `, _size=` has one reading and is refused (`ContentRows.OneReadingMayBeRefused`); what is accepted is exact in
  `ContentRows.SplitIsExact`.
- URIs: the decoder also takes a sign for the first digit of an escape, and nothing else besides
  (`ContentUri.SignedEscapesAreTheOnlyOthers`). A children URI built for an empty document id names the document
  `children`.
- Release manifest: the canonical check fixes the order of the top level and of nothing below it. A negative long is
  written and cannot be read back (`ReleaseParser.DocumentRoundTrip`).
- Shizuku: a guard whose wait itself fails keeps its slot for good, and its owner can start no other guard
  (`ShizukuRegistry.ReportFreesExactly`).

## Model

| member | source | states |
|---|---|---|
| ContentListing.ListTree | rust/crates/daemon/src/content.rs:160-205 | for every provider, cyclic or not, the work-stack loop terminates and gives exactly the budgeted listing: children of a directory, then each nested directory in provider order; `ContentTree` proves what that listing holds |
| ContentListing.ListRows | rust/crates/daemon/src/content.rs:166-201 | one directory against the budget: entries in row order, the nested directories to visit, the first failing row, and truncation exactly when a row meets a full budget |
| ContentListing.PushReversed | rust/crates/daemon/src/content.rs:201-203 | pushing the nested directories in reverse makes the stack pop them in provider order, before everything that was pending, and bounds the remaining work |
| ContentListing.StackRefinesListing | rust/crates/daemon/src/content.rs:160-205 | without failing rows the result is exactly the first `max_entries` of the recursive listing, and `truncated` holds if and only if that listing is longer |
| ContentListing.BudgetTakesPrefix | rust/crates/daemon/src/content.rs:166-170 | the same for any events and any entries already taken |
| ContentListing.FirstErrorDecides | rust/crates/daemon/src/content.rs:162-199 | the first failing event decides the result, and only if the budget reaches it; a failing query needs no room in the budget, a failing row does |
| ContentListing.ListingIsShallow | rust/crates/daemon/src/content.rs:180-199 | in the listing of any directory no entry lies deeper than `max_depth` |
| ContentListing.ListedWithinDepth | rust/crates/daemon/src/content.rs:180-199 | no listed name has more components than `max_depth`, whatever the provider answers |
| ContentListing.Inspect | rust/crates/daemon/src/content.rs:129-214 | the four outcomes of an inspection: invalid bounds, a file, a directory that is no tree, and a tree with its listing |
| ContentTree.ListedExactlyByChains | rust/crates/daemon/src/content.rs:160-205 | with no failing row and room for all, an entry is listed if and only if a chain of rows leads to it: the first answers the query of the root, each next one the query of the directory before it by its document id, and there are at most `max_depth` of them, or one when not recursive; its name joins all their names, its kind, size and time are those of the last row |
| ContentTree.TraversalIsTheTree | rust/crates/daemon/src/content.rs:160-205 | the traversal meets no failure if and only if every query within the depth succeeds and every row there has a safe name, and an id if it is opened; then the answer is the first `max_entries` of the tree level by level, truncated if and only if there are more |
| ContentTree.LevelMembers | rust/crates/daemon/src/content.rs:164-199 | a directory with some levels left lists exactly the entries of the chains no longer than that |
| ContentTree.PlaceIsLevel | rust/crates/daemon/src/content.rs:162-203 | the listing of every directory of the traversal is the tree below it, counted in levels left |
| ContentRows.SplitRow | rust/crates/daemon/src/content.rs:362-381 | the moving slice computes the recursive splitter, with a literal NULL read as no value |
| ContentRows.SplitIsExact | rust/crates/daemon/src/content.rs:362-381 | when no boundary overlaps itself the splitter gives a tuple if and only if the text is that tuple printed and each boundary occurs once in what follows the column before it |
| ContentRows.SplitIsTheOnlyReading | rust/crates/daemon/src/content.rs:362-381 | a successful split joins back to exactly the row, and no other tuple of values prints as that row |
| ContentRows.OneDecomposition | rust/crates/daemon/src/content.rs:369-376 | a text in which every boundary occurs once has one decomposition |
| ContentRows.NoOverlap | rust/crates/daemon/src/content.rs:370-373 | two matches of a boundary that does not overlap itself are apart, so scanning by non-overlapping matches misses none |
| ContentRows.CommaFreeIsSeparable | rust/crates/daemon/src/content.rs:28-35 | no boundary of a comma-free column overlaps itself, so none of the projections in use does |
| ContentRows.ColumnIsExact | rust/crates/daemon/src/content.rs:369-376 | one column is split off exactly at a boundary that occurs once |
| ContentRows.SplitWidth | rust/crates/daemon/src/content.rs:362-381 | a successful split has one value for each column |
| ContentRows.OneReadingMayBeRefused | rust/crates/daemon/src/content.rs:370-375 | a result about the code, for the document projection: a document whose display name ends in `, _size=` has exactly one reading, and its row is refused as ambiguous |
| ContentRows.TrailingBoundaryIsRefused | rust/crates/daemon/src/content.rs:362-381 | the same for any three or more different plain column names, any comma-free values, and a last value that ends in the first boundary |
| ContentRows.CutsOnceExactly | rust/crates/daemon/src/content.rs:369-376 | the scan cuts only where there is one way to cut, for every text, if and only if the boundary does not overlap itself |
| ContentOutput.ParseRows | rust/crates/daemon/src/content.rs:340-360 | the loop over lines and rows computes trimming, header recognition, continuation joining and splitting as specified; bytes that are not UTF-8 are refused |
| ContentOutput.SplitRows | rust/crates/daemon/src/content.rs:355-359 | every collected row is split, and the first failure is returned |
| ContentOutput.RowsRoundTrip | rust/crates/daemon/src/content.rs:345-354 | reading the printed rows gives the rows back if and only if no continuation line begins with the header of the next row |
| ContentOutput.FalseHeaderLosesTheRow | rust/crates/daemon/src/content.rs:346-352 | a continuation line that looks like the next header loses the row whatever follows |
| ContentOutput.SplitAllPrints | rust/crates/daemon/src/content.rs:355-381 | rows that split into a table are that table printed |
| ContentOutput.SplitAllIsExact | rust/crates/daemon/src/content.rs:355-381 | the printed rows split into the table if and only if every row is unambiguous |
| ContentOutput.TableRoundTrip | rust/crates/daemon/src/content.rs:340-381 | for any number of rows, none included, and multi-line values, printing and parsing gives the table back if and only if no continuation line begins with the next header and every row is unambiguous |
| ContentOutput.CellsRoundTrip | rust/crates/daemon/src/content.rs:340-385 | a printed table of values and nulls is read back as those cells if and only if its texts are, and no value is the word NULL |
| ContentOutput.HeaderNumber | rust/crates/daemon/src/content.rs:346-347 | the row number in a header is decimal, without leading zeros |
| ContentUri.PercentEncode | rust/crates/daemon/src/content.rs:511-521 | the loop encodes byte by byte |
| ContentUri.PercentDecode | rust/crates/daemon/src/content.rs:523-542 | the index loop decodes exactly what the recursive decoder does, including its refusals |
| ContentUri.DecodeUndoesEncode | rust/crates/daemon/src/content.rs:511-542 | decoding an encoded text gives the text back, for every UTF-8 string; for other bytes it is refused |
| ContentUri.EncodeIsCanonical | rust/crates/daemon/src/content.rs:511-521 | what is encoded uses upper-case escapes, and only for bytes that need them |
| ContentUri.EncodeUndoesDecode | rust/crates/daemon/src/content.rs:511-542 | re-encoding a decoded text is the identity exactly on the canonical texts |
| ContentUri.DecoderReadsExactly | rust/crates/daemon/src/content.rs:523-542 | a text is decoded to bytes if and only if every percent sign is followed by a digit or a plus sign and then by a digit |
| ContentUri.SignedEscapesAreTheOnlyOthers | rust/crates/daemon/src/content.rs:530-536 | a result about the code: a text has only the escapes of section 2.1 of RFC 3986 if and only if the decoder reads it and no escape has a sign |
| ContentUri.ParsedIsWellFormed | rust/crates/daemon/src/content.rs:445-467 | a parsed URI keeps its text and has a non-empty authority and non-empty UTF-8 segments |
| ContentUri.PathRoundTrip | rust/crates/daemon/src/content.rs:459-465 | a path spelled from UTF-8 segments reads back as those segments, except that empty ones vanish |
| ContentUri.TreeDocumentUriRoundTrip | rust/crates/daemon/src/content.rs:488-495 | the tree document URI parses back to the same authority, tree segment and document id, exactly within the URI bound; `ContentUriTexts` says which id that is |
| ContentUri.ChildrenUriRoundTrip | rust/crates/daemon/src/content.rs:497-508 | the children URI parses back to the same authority, tree segment and document id for every non-empty id within the bound; an empty id is lost |
| ContentUri.ListingNamesItsDocument | rust/crates/daemon/src/content.rs:478-508 | the document id read from a children URI is the id it was built for, or the word `children` when that id was empty |
| ContentUriTexts.TreeTextNamesItsTree | rust/crates/daemon/src/content.rs:469-495 | the text content://, authority, /tree/, encoded id parses within the bound to a tree whose document id is that id, and its tree document URI appends /document/ and the same id |
| ContentUriTexts.DocumentTextNamesItsDocument | rust/crates/daemon/src/content.rs:469-495 | the same text with /document/ and another encoded id names that other id, and its tree document URI is the text itself |
| ContentUriTexts.SingleDocumentText | rust/crates/daemon/src/content.rs:473-486 | the text content://, authority, /document/, encoded id is a document and no tree, and has no tree document id |
| ContentUriTexts.QueryIsIgnored | rust/crates/daemon/src/content.rs:453-467 | a query or fragment changes neither authority nor segments |
| ContentUtf8.ValidExactly | rust/crates/daemon/src/content.rs:541-541 | bytes are taken as text if and only if they encode a sequence of Unicode scalar values |
| ReleaseJson.JsonWriter.WriteString | tools/ReleaseTool.java:668-682 | the appending loop adds exactly the printed string to the buffer; `ReleaseShortest` says which of the possible texts that is |
| ReleaseJson.JsonWriter.WriteJson | tools/ReleaseTool.java:647-666 | the writer fails exactly on an unsupported value and otherwise appends exactly the printed tree |
| ReleaseJson.JsonWriter.WriteMembers | tools/ReleaseTool.java:650-660 | the loop over map entries, with its first flag, appends the members separated by commas |
| ReleaseParser.StringRoundTrip | tools/ReleaseTool.java:668-751 | the string reader undoes the string writer for every sequence of 16-bit units, whatever follows |
| ReleaseParser.IntegerRoundTrip | tools/ReleaseTool.java:753-760 | a printed non-negative long is read back when no digit, point or exponent follows |
| ReleaseParser.ValueRoundTrip | tools/ReleaseTool.java:699-760 | reading takes exactly the printed value off the front of the text, whatever follows |
| ReleaseParser.DocumentRoundTrip | tools/ReleaseTool.java:688-697 | a tree is read back from its own print if and only if it has distinct keys at every level and only non-negative longs |
| ReleaseParser.PrintIsInjective | tools/ReleaseTool.java:647-682 | two well-formed trees with one print are one tree |
| ReleaseParser.ReprintIsFixedPoint | tools/ReleaseTool.java:647-775 | re-printing any accepted text gives a text accepted as the same tree, which prints as itself |
| ReleaseParser.ReadIsWellFormed | tools/ReleaseTool.java:708-760 | whatever is accepted has distinct keys at every level and only non-negative longs |
| ReleaseShortest.UnitIsShortest | tools/ReleaseTool.java:668-682 | what is written for a unit is no longer than any text the reader takes for it, and among the texts of that length the only one with lower-case hexadecimal digits |
| ReleaseShortest.PlainIsWrittenAsItself | tools/ReleaseTool.java:668-682 | a string without quotes, backslashes and control units is written as itself between quotes |
| ReleaseShortest.AcceptedIntegerIsWritten | tools/ReleaseTool.java:753-760 | an integer in ASCII digits is accepted in one spelling only, the one that is written |
| ReleaseShortest.PrintIsShortest | tools/ReleaseTool.java:647-682 | no text the reader takes for a value is shorter than the text written for it |
| ReleaseReader.JsonParser.ParseString | tools/ReleaseTool.java:727-751 | the cursor takes exactly what the grammar takes, with the same failures |
| ReleaseReader.JsonParser.ParseInteger | tools/ReleaseTool.java:753-760 | the digit loop takes the whole run of digits and refuses a leading zero, a fraction, an exponent and an overflow |
| ReleaseReader.JsonParser.ParseValue | tools/ReleaseTool.java:699-706 | the cursor form refines the grammar on values and always advances |
| ReleaseReader.JsonParser.ParseObject | tools/ReleaseTool.java:708-725 | the entry loop, with duplicate keys refused as they appear, refines the recursive grammar |
| ReleaseReader.JsonParser.ParseDocument | tools/ReleaseTool.java:688-697 | a document is one value, at most one line break, and nothing else |
| ReleaseReader.ObjectOf | tools/ReleaseTool.java:634-645 | an object with exactly the wanted keys comes back in the wanted order, its nested values untouched |
| ReleaseReader.OrderedIsIdentity | tools/ReleaseTool.java:640-644 | members already in the wanted order are left alone |
| ReleaseReader.VerifyCanonical | tools/ReleaseTool.java:464-476 | the release check passes if and only if the text is the print of a well-formed object with these keys in this order, and one line break |
| ReleaseReader.NestedOrderIsFree | tools/ReleaseTool.java:634-645 | a result about the code, for any key list: reordering the members of a nested object of any canonical text gives another canonical text |
| ReleaseReader.TopOrderIsFixed | tools/ReleaseTool.java:634-645 | reordering the top level of a canonical text never gives another one |
| GuardFrames.DecodeFrames | rust/crates/persistence/src/recovery.rs:681-698 | the cursor loop computes the recursive decoder |
| GuardFrames.DecodeIsExact | rust/crates/persistence/src/recovery.rs:681-698 | whatever decodes is exactly the concatenation of its frames |
| GuardFrames.DecodeUndoesConcatenated | rust/crates/persistence/src/recovery.rs:558-573 | any sequence of encoded frames decodes to that sequence |
| GuardFrames.TornWrite | rust/crates/persistence/src/recovery.rs:681-698 | a proof cut at any byte decodes, if at all, to the frames that were complete before the cut |
| GuardFrames.OnlyTheWholeScriptIsClean | rust/crates/persistence/src/recovery.rs:575-623 | of all prefixes a guard may have written, only the complete script classifies as clean, and with the record the guard wrote |
| GuardFrames.OnlyTheStartAsksTheProcessTable | rust/crates/persistence/src/recovery.rs:603-623 | of all prefixes a guard may have written, an unreadable process table makes the classification fail for exactly one: identity and start, and nothing more |
| GuardFrames.ClassifiedExactly | rust/crates/persistence/src/recovery.rs:575-623 | a proof is clean, live, or in need of the process table if and only if its frames are of the expected identity, a start and, for clean, a clean record |
| GuardFrames.LengthsAreOrderedAsBytes | rust/crates/persistence/src/recovery.rs:558-573 | a frame length is written most significant byte first |
| GuardCapacity.CapacityAvailable | rust/crates/daemon/src/magisk_guard_recovery.rs:300-347 | the nested counting loops admit exactly when every entry is readable and one more full proof fits both bounds, with counter overflow refused |
| GuardCapacity.CountBoot | rust/crates/daemon/src/magisk_guard_recovery.rs:312-341 | one directory adds its proofs and bytes, or rejects the whole tree |
| GuardCapacity.ReportsTotal | rust/crates/daemon/src/magisk_guard_recovery.rs:325-341 | a listing that names every proof once has as many lengths as there are proofs and the same total |
| GuardCapacity.HonestGate | rust/crates/daemon/src/magisk_guard_recovery.rs:343-347 | on an honest look the gate admits exactly when the proofs themselves leave room |
| GuardCapacity.TotalBound | rust/crates/daemon/src/magisk_guard_recovery.rs:18-19 | proofs within a size each are within count times size together |
| GuardScope.GuardScope.Prepare | rust/crates/app_native/src/guard.rs:237-269 | prepare refuses under quarantine or without capacity, creates the header proof, and on a failed header write tries to remove it |
| GuardScope.GuardScope.Settle | rust/crates/app_native/src/guard.rs:271-315 | the polling loop, while the guard appends between polls, ends in the settlement of the state at its last look, and stops early only for a settled or failed verdict or the deadline |
| GuardScope.GuardScope.Abort | rust/crates/app_native/src/guard.rs:317-331 | abort removes an untouched header only; the root edition answers a missing proof with an unverified result, the App with an error |
| GuardScope.GuardScope.Unstarted | rust/crates/app_native/src/guard.rs:543-554 | a failure before the start is verified by an abort, or by the settlement at the poll where the loop stopped |
| GuardScope.VerifiedSettlement | rust/crates/app_native/src/guard.rs:271-315 | a verified settlement removes that one proof, changes nothing else, and came from three frames of the expected identity whose clean record it reports |
| GuardScope.PreparedExactly | rust/crates/app_native/src/guard.rs:237-269 | prepare succeeds if and only if nothing forbids it and the header is written, and then adds the bare header; a failed write leaves nothing, or the written part of the header if that cannot be removed |
| GuardScope.SettlementRemovesExactly | rust/crates/app_native/src/guard.rs:271-315 | a settlement removes the proof if and only if it was read as clean and could be removed, is verified if that was synced too, and leaves quarantine alone when it ends in an error |
| GuardScope.AbortedExactly | rust/crates/app_native/src/guard.rs:317-331 | an abort is verified if and only if the proof is the bare header and is removed for good; a missing proof is unverified for root and an error for the App |
| GuardRuns.StepPreserves | rust/crates/app_native/src/guard.rs:237-331 | every step of owner and guards keeps the invariant: each proof on disk is the prefix of its guard's script that the guard has written |
| GuardRuns.RunPreserves | rust/crates/app_native/src/guard.rs:237-331 | the same for every run in which a look at the proof tree reports what is there |
| GuardRuns.CapacityHolds | rust/crates/daemon/src/command.rs:159-197 | in every run there are at most 384 proofs of at most 4096 bytes and 1,572,864 bytes together, although admitted proofs keep growing |
| GuardRuns.VerdictIsTrue | rust/crates/persistence/src/recovery.rs:575-623 | in every reachable state a proof is judged clean if and only if its guard has finished |
| GuardRuns.SettlementIsExact | rust/crates/app_native/src/guard.rs:271-315 | in every run a settlement reports verified cleanup if and only if the proof could be read and removed and its guard finished, with the code and cause that guard recorded |
| GuardRuns.VerdictErrsExactly | rust/crates/persistence/src/recovery.rs:575-623 | in every reachable state the verdict is an error if and only if the guard recorded its start and nothing more, and the process table cannot be read |
| GuardRuns.SettlementQuarantinesExactly | rust/crates/app_native/src/guard.rs:271-313 | in every reachable state a settlement quarantines if and only if the proof, and the process table if it is asked, could be read and the guard had not finished; it ends in an error exactly for an unreadable proof, an unreadable process table that is asked, or a finished guard whose proof cannot be removed |
| GuardRuns.SettledGuardIsGone | rust/crates/app_native/src/guard.rs:271-313 | after a verified settlement the guard that held the proof has cleaned up, then and ever after |
| GuardRuns.CleanedStays | rust/crates/app_native/src/bin/droidbridge_exec_guard.rs:72-140 | a guard that has cleaned its process group up never runs one again |
| GuardRuns.QuarantineStays | rust/crates/app_native/src/guard.rs:296-315 | quarantine is never cleared |
| GuardRuns.UnverifiedClosesAdmission | rust/crates/app_native/src/guard.rs:237-246 | after an unverified settlement every later prepare is rejected and changes nothing |
| GuardRuns.ErrorLeavesAdmissionOpen | rust/crates/daemon/src/command.rs:201-252 | a result about the code: after any settlement that ends in an error, without quarantine before, the next prepare is refused for capacity alone |
| GuardRuns.AbortEndsTheProof | rust/crates/app_native/src/guard.rs:317-331 | after a verified abort no new guard of that execution is launched until it is prepared again |
| GuardExecutions.WithoutAProof | rust/crates/app_native/src/bin/droidbridge_exec_guard.rs:72-140 | without a proof on its path, and without another prepare, a process of the execution runs in some later run if and only if one of its guards runs it now, or lives and has room to record its start |
| GuardExecutions.AbortIsSafeExactly | rust/crates/app_native/src/guard.rs:317-329 | a result about the code: a verified abort is followed by a process of the execution, without another prepare, if and only if one of its guards may still run it |
| GuardExecutions.SettlementIsSafeExactly | rust/crates/app_native/src/guard.rs:271-313 | the same for a verified settlement |
| GuardExecutions.PreparedOnceHasOneGuard | rust/crates/app_native/src/guard.rs:237-331 | an execution that is prepared once has one guard at most |
| GuardExecutions.VerifiedMeansGone | rust/crates/app_native/src/guard.rs:271-313 | for an execution prepared once, a verified settlement means that no process of it runs, in that state and every later one without another prepare |
| GuardExecutions.AbortFindsNoProcess | rust/crates/app_native/src/guard.rs:317-329 | for an execution prepared once, a verified abort found the bare header and no process running, and a process follows if and only if a guard had been launched, lives and has room to record its start |
| GuardExecutions.SecondPrepareIsNotCovered | rust/crates/app_native/src/guard.rs:317-329 | why one prepare: a run in which a second abort of an execution is verified while the guard of its first prepare runs |
| GuardExecutions.UnreadProofLeavesAdmissionOpen | rust/crates/app_native/src/guard.rs:271-313 | a prepared and launched execution whose settlement cannot read the proof, after which the next prepare succeeds |
| GuardStreams.Drain | rust/crates/daemon/src/command.rs:960-1020 | however a stream is cut, a drain keeps exactly the first `limit` bytes of what was delivered before its ending turn, truncated if and only if there was more |
| GuardStreams.DrainToFile | rust/crates/daemon/src/command.rs:1022-1105 | the file receives the same prefix with the same flag; a failed write leaves some part of its chunk, and a failed write, flush or sync is an error |
| GuardStreams.Reap | rust/crates/app_native/src/guard.rs:481-538 | the guard gets one stop signal, at the first look that is due, and is killed only when still alive a full settle budget later; the timeout flag names the deadline |
| GuardStreams.FirstDueUnique | rust/crates/app_native/src/guard.rs:490-505 | that first look is unique |
| GuardRecovery.Mechanics.Finalize | rust/crates/daemon/src/magisk_guard_recovery.rs:72-110 | one record is finalized exactly when every operation it needs succeeds; only its own proof goes, after its task is cleaned up |
| GuardRecovery.Mechanics.Finish | rust/crates/daemon/src/magisk_guard_recovery.rs:112-134 | exactly the touched directories that are empty and can be removed are removed; it fails if one cannot be read or removed |
| GuardRecovery.Mechanics.Execute | rust/crates/daemon/src/magisk_guard_recovery.rs:30-53 | nothing is touched unless every guard is clean; then exactly the proofs go that some record takes, whatever failed for the records before it, and a task is cleared exactly if a record clears it; verification means every proof of the plan is gone and no directory of theirs left empty |
| GuardRecovery.EntitledThrough | rust/crates/daemon/src/magisk_guard_recovery.rs:37-44 | finalizing one more record keeps it true that only entitled proofs have gone |
| Dedup.DedupIndex.DecideAndReserve | rust/crates/domain/src/dedup.rs:31-77 | purge, lookup, capacity and reservation as one step, in place on the entries |
| Dedup.DedupIndex.Settle | rust/crates/domain/src/dedup.rs:79-99 | an entry's expiry is set once, and settling again returns it |
| Dedup.PurgeKeeps | rust/crates/domain/src/dedup.rs:40-45 | a purge keeps exactly the unexpired entries |
| Dedup.RunKeepsInv | rust/crates/domain/src/dedup.rs:31-77 | in every run retained ids are distinct and at most 4096 are held |
| Dedup.AdmittedExactly | rust/crates/domain/src/dedup.rs:31-77 | in every run a deciding call is admitted if and only if every earlier admission of its id was released by a purge, its own included, and fewer than 4096 admissions are still held; it is refused for capacity if and only if only the second fails |
| Dedup.OthersPassBy | rust/crates/domain/src/dedup.rs:31-45 | exactly a task cancel passes by and exactly a bad hash is refused as such, and neither changes anything |
| Dedup.HashSpellsADigest | rust/crates/domain/src/dedup.rs:34-39 | a hash is valid if and only if it spells 32 bytes in lower-case hexadecimal |
| Dedup.NothingToSettle | rust/crates/domain/src/dedup.rs:79-87 | a settlement finds nothing if and only if every admission of the id was released |
| Dedup.SettledExactly | rust/crates/domain/src/dedup.rs:79-99 | else it answers with the end of the window of the held request, the one started now or the one started before, and fails only when the time overflows |
| Dedup.HeldUntilReleased | rust/crates/domain/src/dedup.rs:31-99 | at every point of every run the index holds exactly the admitted requests that no purge has released, in the order of admission, with the end of the window that the first settlement started |
| Dedup.RepeatIsReplayOrRefused | rust/crates/domain/src/dedup.rs:46-62 | until an admitted request is released a repeat is a replay when its content is equal and refused when it differs |
| Dedup.AdmissionsAreSeparated | rust/crates/domain/src/dedup.rs:31-99 | two admissions of one request id are separated by a settlement at some t and a deciding call at t + 86,400,000 ms or later |
| Dedup.ExpiryNeverChanges | rust/crates/domain/src/dedup.rs:79-99 | an expiry, once set, stays as long as the entry is held; only a new admission after a purge replaces it |
| Routes.ContiguousIsExact | rust/crates/app_native/src/network.rs:884-887 | a mask has a prefix length if and only if it is the mask of that length |
| Routes.MaskingComparesPrefixes | rust/crates/app_native/src/network.rs:707-714 | masking two words and comparing them compares their first bits |
| Routes.ContainsIsAPrefixMatch | rust/crates/app_native/src/network.rs:691-714 | containment is agreement on the first `prefix` bits of addresses of one family |
| Routes.ReadRouteAcceptsMasks | rust/crates/app_native/src/network.rs:741-747 | a row is accepted if and only if its mask, byte-swapped, is contiguous |
| Routes.SwapReversesBytes | rust/crates/app_native/src/network.rs:859-861 | the bytes of a printed word are read in the opposite order, and the bits of each byte in their own |
| Routes.ReadRouteKeepsMatching | rust/crates/app_native/src/network.rs:738-755 | an accepted row's CIDR contains an address if and only if the raw words agree under the raw mask |
| Routes.LongestPrefixMatch | rust/crates/app_native/src/network.rs:660-674 | the loop returns the earliest matching entry of the greatest prefix length, and none exactly when none matches |
| Routes.BestIsUnique | rust/crates/app_native/src/network.rs:660-674 | there is only one such entry |
| Routes.BestIsNested | rust/crates/app_native/src/network.rs:660-674 | every address the best entry matches is matched by every shorter match |
| RowBudget.AppendRows | rust/crates/app_native/src/network.rs:718-834 | a table's rows go in while there is room; it fails exactly when a row within the budget is malformed, and a row left out sets the flag unread |
| RowBudget.Supplement | rust/crates/app_native/src/network.rs:418-465 | the result is the first `limit` data rows of all readable tables, truncated exactly when a table was cut or a row left out; unknown exactly when no table is readable; an error names the first table that failed |
| RowBudget.CollectedTable | rust/crates/app_native/src/network.rs:431-441 | appending one more table to a correct collection collects the tables together |
| RowBudget.FailsNowhere | rust/crates/app_native/src/network.rs:418-465 | no table fails exactly when none is cancelled and all rows within the budget are well formed |
| RowBudget.FailureIsUnique | rust/crates/app_native/src/network.rs:418-465 | at most one table is the first to fail, and its error is decided |
| RowBudget.ReadIPv4 | rust/crates/app_native/src/network.rs:724-755 | a row of the IPv4 table is read exactly when it has eight columns, two readable words and a contiguous mask; interface, destination, gateway, metric and prefix come from columns 0, 1, 2, 6 and 7, and a gateway without a set bit is none |
| RowBudget.HeadingsAreSkipped | rust/crates/app_native/src/network.rs:724-730 | headings and blank lines of the IPv4 table change nothing wherever they stand, and every other line is a row |
| ShizukuRegistry.Registry.Start | rust/crates/app_native/src/lib.rs:2469-2571 | the refusals in their order, then the next handle, with both maps updated |
| ShizukuRegistry.Registry.Take | rust/crates/app_native/src/lib.rs:2730-2747 | the first half of a wait: a stale handle, a child already taken, or the child |
| ShizukuRegistry.Registry.Report | rust/crates/app_native/src/lib.rs:2747-2765 | the second half: the entry and its owner go only if the entry is still the one awaited; a failed wait removes nothing |
| ShizukuRegistry.Registry.Signal | rust/crates/app_native/src/lib.rs:2660-2669 | signalling takes the lifetime writer and answers with the kill's result, for the owner only |
| ShizukuRegistry.Registry.CloseLifetime | rust/crates/app_native/src/lib.rs:2626-2634 | closing succeeds exactly when the owner's writer was still there |
| ShizukuRegistry.Registry.CloseClient | rust/crates/app_native/src/lib.rs:2682-2703 | the loop takes the writer of every guard of one client and of no other |
| ShizukuRegistry.StepKeepsInv | rust/crates/app_native/src/lib.rs:2469-2571 | every step keeps owners and entries inverse, at most 64 entries, handles below the next, and each waiter on the registered guard |
| ShizukuRegistry.RunKeepsInv | rust/crates/app_native/src/lib.rs:2469-2765 | the same in every interleaving of starts, waits, signals and closes |
| ShizukuRegistry.HandlesAreNeverReused | rust/crates/app_native/src/lib.rs:2512-2518 | no two starts of a run give out one handle |
| ShizukuRegistry.ChildIsAwaitedOnce | rust/crates/app_native/src/lib.rs:2738-2747 | in every run a guard's child is taken at most once |
| ShizukuRegistry.LifetimeIsClosedOnce | rust/crates/app_native/src/lib.rs:2626-2634 | closing a lifetime succeeds at most once for a handle |
| ShizukuRegistry.SlotsAreConserved | rust/crates/app_native/src/lib.rs:2469-2765 | live guards are exactly those started and not yet reported as ended, so a report always finds its own entry |
| ShizukuRegistry.FailedWaitKeepsTheSlot | rust/crates/app_native/src/lib.rs:2747-2747 | a result about the code: when waiting itself fails the guard keeps its slot for the rest of the run and its owner can start no other |
| ShizukuRegistry.ReportFreesExactly | rust/crates/app_native/src/lib.rs:2747-2765 | after a report the handle is gone for the rest of the run, and its owner free at once, if and only if the status is known |
| ShizukuOutcomes.StartedExactly | rust/crates/app_native/src/lib.rs:2469-2571 | in every run a guard is started if and only if its launch and the launcher are good, fewer than 64 guards are live, its owner has none that is not over, a handle is left and the process is spawned; its handle is the number of the start |
| ShizukuOutcomes.TakenExactly | rust/crates/app_native/src/lib.rs:2730-2747 | in every run a child is taken if and only if its guard was started by the caller, is not over, and no one took it before |
| ShizukuOutcomes.ClosedExactly | rust/crates/app_native/src/lib.rs:2626-2634 | in every run closing succeeds if and only if the guard was started by the caller, is not over, and was not closed before |
| ShizukuOutcomes.GuardInRun | rust/crates/app_native/src/lib.rs:2469-2765 | from its start a guard is registered for its owner until it is reported as ended, with its child and its writer until they are taken |
| ShizukuOutcomes.ClientClosesEachGuard | rust/crates/app_native/src/lib.rs:2682-2703 | closing a client is closing the lifetime of each of its guards, in any order and however often |
| ShizukuOutcomes.ReportAnswers | rust/crates/app_native/src/lib.rs:2747-2765 | a waiter is told the code of a child that exited, 128 more than the signal of one that was killed, 255 for neither, and an error exactly when waiting failed |
| DirectoryPaging.ReadPage | rust/crates/app_native/src/lib.rs:2162-2198 | the scan computes the page: the first names after the position, and the position of the last one exactly when another name follows |
| DirectoryPaging.ListDirectory | rust/crates/runtime/src/filesystem.rs:2740-2763 | going from page to page ends whatever is answered, and gives the pages together |
| DirectoryPaging.HonestPageIsAccepted | rust/crates/app_native/src/lib.rs:482-509 | no page of an honest directory is rejected by the consumer |
| DirectoryPaging.PagingIsFaithful | rust/crates/app_native/src/lib.rs:2162-2198 | even when the directory changes between pages: names in order without repetition, each there at some request, and none missed that was there at every request |
| DirectoryPaging.PagingIsExact | rust/crates/app_native/src/lib.rs:2162-2198 | an unchanging directory is listed exactly: every name but the dots, in order, each once, for every allowed limit |
| DirectoryPaging.PagesAreFull | rust/crates/app_native/src/lib.rs:2162-2198 | a page that is not the last is full, and the last one holds all that is left |
| DirectoryPaging.AcceptedExactly | rust/crates/app_native/src/lib.rs:482-509 | a page is accepted if and only if the limit is allowed, it is no longer than that, it goes onward, and every name on it is one path component |
| DirectoryPaging.FailsExactly | rust/crates/runtime/src/filesystem.rs:2740-2763 | whatever is answered, the listing fails if and only if some request on the way is answered with a page that is refused |
| DirectoryPaging.ListedNamesAreSafe | rust/crates/runtime/src/filesystem.rs:2740-2763 | whatever is answered, a listing that succeeds holds path components only |
| Ingress.DaemonIngress.BringListener | rust/crates/daemon/src/ingress.rs:246-275 | the listener reconciler: stop, retoken, restart or start, with the failure flag |
| Ingress.DaemonIngress.BringTunnel | rust/crates/daemon/src/ingress.rs:277-306 | the tunnel reconciler: keep a tunnel with the same credentials that is not refused, else replace it |
| Ingress.DaemonIngress.SetMcpEnabled | rust/crates/daemon/src/ingress.rs:62-74 | commit when changed, then reconcile, then answer; `IngressEffects.EnablingDoesAsAsked` says what that does |
| Ingress.DaemonIngress.RotateMcp | rust/crates/daemon/src/ingress.rs:76-89 | a fresh token is committed before it is used |
| Ingress.DaemonIngress.ConfigureTunnel | rust/crates/daemon/src/ingress.rs:106-126 | credentials are checked before anything is committed, and the enabled flag is kept |
| Ingress.DaemonIngress.SetTunnelEnabled | rust/crates/daemon/src/ingress.rs:128-142 | commit when changed, then reconcile, then answer |
| Ingress.DaemonIngress.ClearTunnel | rust/crates/daemon/src/ingress.rs:144-150 | the tunnel stops before its file goes |
| Ingress.DaemonIngress.AttachHost | rust/crates/daemon/src/ingress.rs:41-46 | both stop before the host is replaced and reconciled |
| Ingress.ReconcilingRestores | rust/crates/daemon/src/ingress.rs:48-53 | reconciling brings both to the committed settings, whatever they were running on |
| Ingress.AttachingRestores | rust/crates/daemon/src/ingress.rs:41-46 | attaching does so from any state at all |
| Ingress.StepIsTrue | rust/crates/daemon/src/ingress.rs:41-150 | after every operation a running listener has the committed token and MCP is committed enabled, and a held tunnel has the committed id and key and is enabled, if and only if the step is not one of the stale family: a commit that took effect and was reported as failed while something was running on other settings |
| Ingress.RunIsTrue | rust/crates/daemon/src/ingress.rs:246-306 | the same over every run up to its first stale step; with atomic commits there is none |
| Ingress.DetachedHostsAreNotServed | rust/crates/daemon/src/ingress.rs:41-46 | in every run, whatever the commits do, a listener or tunnel serves the host last attached and no other |
| Ingress.AnswersWithTheCommittedState | rust/crates/daemon/src/ingress.rs:152-244 | every status answer agrees with the committed settings and with what is running when it returns |
| Ingress.FirstCallIsKept | rust/crates/daemon/src/ingress.rs:184-199 | the first call through a tunnel stays remembered until it is configured anew or cleared |
| Ingress.ReadingKeeps | rust/crates/daemon/src/settings.rs:76-101 | a first read may commit disabled settings and otherwise reading changes nothing |
| IngressEffects.EnablingDoesAsAsked | rust/crates/daemon/src/ingress.rs:62-74 | enabling fails if and only if the settings cannot be read or a needed commit fails; else the committed settings are the old ones with exactly the flag changed, the answer says so, and the listener serves the committed token if it is enabled, has a host, and takes the token or can be started |
| IngressEffects.RotatingDoesAsAsked | rust/crates/daemon/src/ingress.rs:76-89 | rotating commits exactly the drawn token, keeps whether MCP is enabled, and the listener serves that token under the same conditions |
| IngressEffects.FailedCommitLeaves | rust/crates/daemon/src/ingress.rs:62-89 | a failed commit leaves the settings found, or the new ones if they were written after all |
| IngressEffects.ConfiguringDoesAsAsked | rust/crates/daemon/src/ingress.rs:106-126 | configuring answers each refusal in its order; else the committed settings have the new id and key, the old flag and the first call started over, and a tunnel with these credentials is held if it is enabled, has a host, and is kept or connects |
| IngressEffects.TunnelEnablingDoesAsAsked | rust/crates/daemon/src/ingress.rs:128-142 | enabling a tunnel changes exactly its flag, and the tunnel is held under the same conditions |
| IngressEffects.ClearingClears | rust/crates/daemon/src/ingress.rs:144-150 | clearing stops the tunnel whatever happens and succeeds if and only if its file is gone for good |
| IngressEffects.BothAreRestored | rust/crates/daemon/src/ingress.rs:41-53 | reconciling and attaching leave listener and tunnel serving the committed settings of the attached host, when they can be served, and stopped when these cannot be read; a new host is served afresh |
| IngressEffects.AskingChangesNothingElse | rust/crates/daemon/src/ingress.rs:55-60 | asking changes nothing but the first settings and the first call, and fails exactly when it cannot read |
| HostFacts.MagiskHost.RefreshRuntimeFacts | rust/crates/daemon/src/magisk_host.rs:561-672 | the four parts in order, each ending the refresh when it fails |
| HostFacts.MagiskHost.CheckHelper | rust/crates/daemon/src/magisk_host.rs:626-672 | the three cases of a live, a lost and a missing helper |
| HostFacts.MagiskHost.RegisterEach | rust/crates/runtime/src/vertical.rs:118-155 | registering keys one after the other gives each its status exactly where the generation is larger |
| HostFacts.ActivateEstablishes | rust/crates/daemon/src/magisk_host.rs:265-327 | a host starts with true registrations, and with guards ready only when recovery was carried out |
| HostFacts.RefreshKeepsInv | rust/crates/daemon/src/magisk_host.rs:561-709 | a refresh that succeeds leaves root available if and only if guards and module are ready, the helper keys true of the helper and its probes, the executor holding a helper generation if and only if a helper is held, and no registration dropped |
| HostFacts.RunIsTrue | rust/crates/daemon/src/magisk_host.rs:561-709 | the same over every run of succeeding refreshes, and under the current fence the privileged family is authorized exactly while a helper is held |
| HostFacts.RefreshObserves | rust/crates/daemon/src/magisk_host.rs:561-624 | after a refresh that succeeds the module is as observed, the guards are ready if and only if they were, are not flagged and did not lose the module, and alarms if and only if they were and the scheduler met no fault |
| HostFacts.HelperIsKeptOrStarted | rust/crates/daemon/src/magisk_host.rs:626-672 | such a refresh keeps a live helper, lets a dead one go, and starts one at the next generation if and only if the module and ready guards are there, the device has booted and the helper starts |
| HostFacts.FamiliesAreProbedAgain | rust/crates/daemon/src/lib.rs:74-100 | while a helper lives a family is probed again if and only if it was denied, or had failed and it is time, and what the probe finds is registered |
| HostFacts.FirstProbesAreRegistered | rust/crates/daemon/src/magisk_host.rs:655-672 | the families of a new helper are registered as its first probes found them |
| HostFacts.ReasonsFit | rust/crates/daemon/src/magisk_host.rs:561-709 | whatever fails, a key is registered as unavailable only for a reason of its own |
| HostFacts.ConditionNamesTheCause | rust/crates/daemon/src/magisk_host.rs:579-624 | the condition shown is a module just lost, else guards this refresh was the first to close, else what it was |
| HostFacts.RefreshGoesOnward | rust/crates/daemon/src/magisk_host.rs:561-709 | succeeding or not, a refresh never makes guards ready again and re-registers a key only at a strictly larger generation |
| HostFacts.RunGoesOnward | rust/crates/daemon/src/magisk_host.rs:561-709 | the same between any two states of a run |
| HostFacts.RefreshIsSound | rust/crates/daemon/src/magisk_host.rs:561-709 | succeeding or not, a refresh drops no registration, and root is withdrawn after it if and only if it was or this refresh gets as far as registering closed guards or a change of the module |
| HostFacts.RunIsSound | rust/crates/daemon/src/magisk_host.rs:561-709 | in every run, whatever fails, no registration is dropped and root is withdrawn only when the guards are closed |
| HostFacts.RootNeverReturns | rust/crates/daemon/src/magisk_host.rs:590-624 | in every run, whatever fails, root once withdrawn never becomes available again, even when the module returns |
| HostFacts.RootFollowsTheGuards | rust/crates/daemon/src/magisk_host.rs:579-624 | a result about the code: after a refresh, succeeding or not, root is registered as guards and module are, except if and only if the closing got stuck between the alarm and the registry for want of a lock or a generation; then root stays available |
| HostFacts.RootIsNotRevisited | rust/crates/daemon/src/magisk_host.rs:579-624 | without guards only a change of the module touches root again |
| HostFacts.ChangeMakesAuthorityStale | rust/crates/daemon/src/lib.rs:176-194 | after any change of what is registered, but for the alarm, an operation admitted under the earlier fence is refused |
| HostFacts.FenceIsCurrent | rust/crates/daemon/src/magisk_host.rs:570-585 | a result about the code: after a succeeding refresh the executor holds the current generation if and only if something but the alarm was published, or it held it before and the alarm was not lost; else it lags by one |
| HostFacts.LosingTheAlarmLags | rust/crates/daemon/src/magisk_host.rs:570-585 | such a lag: a new host that loses only its alarm |
| CanonicalPayload.CanonicalizeIsFaithful | rust/crates/contract/src/envelope.rs:50-62 | the canonical form is sorted at every depth and means the same |
| CanonicalPayload.LessExactly | rust/crates/contract/src/envelope.rs:50-62 | keys are sorted by the first character in which they differ, a prefix first |
| CanonicalPayload.CanonicalIsDetermined | rust/crates/contract/src/envelope.rs:50-62 | there is one canonical value of each meaning |
| CanonicalPayload.CanonicalFormsAgree | rust/crates/contract/src/envelope.rs:50-62 | two values have one canonical form if and only if they differ at most in object key order at any depth |
| CanonicalPayload.CanonicalizeIsIdempotent | rust/crates/contract/src/envelope.rs:50-62 | canonicalizing twice is canonicalizing once, and the fixed points are exactly the sorted values |
| CanonicalPayload.SwappedMembersAgree | rust/crates/contract/src/envelope.rs:50-62 | swapping two members of different keys does not change the canonical form |
| PayloadText.WriteIsInjective | rust/crates/contract/src/envelope.rs:64-67 | the compact JSON text of a value determines the value, for all strings, numerals and nestings |
| PayloadText.PayloadTextsAgree | rust/crates/contract/src/envelope.rs:64-67 | the text that is hashed agrees for two payloads if and only if they differ at most in key order at any depth |
| PayloadText.EscapedIsShortest | rust/crates/contract/src/envelope.rs:64-67 | of all the spellings that section 7 of RFC 8259 has for a character below 65536, the shortest is written, with lower-case digits |
| PayloadText.TextIsCompact | rust/crates/contract/src/envelope.rs:64-67 | between the parts of a value no white space is written |
| HostCalls.KotlinMcpHost.Admit | rust/crates/app_native/src/mcp_listener.rs:44-76 | a waiting call takes a slot and a thread, and the slot is free again when no thread starts |
| HostCalls.KotlinMcpHost.End | rust/crates/app_native/src/mcp_listener.rs:68-82 | the thread answers a client that is still there and frees the slot |
| HostCalls.SlotsAreConserved | rust/crates/app_native/src/mcp_listener.rs:44-84 | in every interleaving free slots and running calls are 16 together |
| HostCalls.AnswersAreFinal | rust/crates/app_native/src/mcp_listener.rs:64-84 | a call is answered at most once |
| HostCalls.DepartedCallsKeepTheirSlot | rust/crates/app_native/src/mcp_listener.rs:69-73 | a call whose client left keeps its slot until it finishes |
| HostCalls.WaitingEndsExactly | rust/crates/app_native/src/mcp_listener.rs:44-76 | a waiting call goes on waiting until it is given up, its client leaves, or there is a slot; it is answered as busy exactly when given up, as failed exactly when a slot came and no thread started, and else runs |
| HostCalls.RunningKnowsItsClient | rust/crates/app_native/src/mcp_listener.rs:68-82 | from its admission until it finishes a call runs, with a client that is there if and only if it did not leave since |
| HostCalls.FinishAnswersWhoStayed | rust/crates/app_native/src/mcp_listener.rs:68-82 | when a call finishes, a client that stayed gets its own result and one that left gets no answer |
| HostCalls.AnswersHaveTheirCause | rust/crates/app_native/src/mcp_listener.rs:44-84 | every answer comes from the step that ended its call |

## Left out

- JNI entry points, descriptor passing, sockets, timers and process launching: foreign calls; their outcomes are parameters.
- Cancellation checkpoints inside the content traversal, the drains of the daemon and the route readers end an operation early with an error; only the row budget models them.
- Guard payloads: the JSON that serde writes into a frame is an abstract codec; `Faithful` in `GuardFrames` lists all that is assumed of it.
- GuardRuns.CapacityHolds: admission and creation of a proof are one step, because nothing in the source serializes two concurrent prepares and the bound is stated for admission as one step.
- GuardExecutions.VerifiedMeansGone: for an execution prepared once, as each command has an execution id of its own; what holds without that is `GuardExecutions.SettlementIsSafeExactly`.
- GuardRuns.RunPreserves: a look at the proof tree is taken to report what is there; a look that fails is refused by the gate.
- GuardScope.GuardScope.Settle: sleeping between polls is a parameter of monotone ticks and of the bytes that arrive meanwhile.
- GuardRecovery.Mechanics.Execute: task cleanup in the store is one outcome per record; building the plan (`rust/crates/persistence/src/recovery.rs:295-556`) is not part of this model.
- GuardStreams.Drain: a stream is the sequence of its events, so the 8 KiB buffer and `poll` are not modelled; `collect_streams` and the composition of a command's outcome are left out.
- ContentListing.ListTree: a provider is a function from document id to its answer, so a provider that changes its answer between two queries of one document is not covered.
- ContentListing.Inspect: reading a size and a modification time from their texts are parameters.
- ContentOutput.ParseRows: text that is not UTF-8 is one outcome; a decoded text is a sequence of characters.
- ContentUri.TreeDocumentUriRoundTrip: texts are sequences of bytes, and UTF-8 validity is the byte-level predicate of the module.
- ReleaseReader.VerifyCanonical: works on the decoded text, so the byte-order mark and the bytes of UTF-8 are not modelled; signatures, hashes and archives are left out.
- Routes.ReadRouteKeepsMatching: hexadecimal columns and the text forms of addresses are the words and addresses they spell.
- RowBudget.Supplement: a table is a test for data rows and a reader of one row; the readers of the IPv6 and socket tables are not spelled out, the IPv4 reader is.
- ShizukuRegistry.RunKeepsInv: descriptors, arguments and the launcher check are one answer each; the identity of an entry is a serial number; waiting for a closed client to drain is left out.
- DirectoryPaging.PagingIsFaithful: assumes that a directory's positions grow from entry to entry, and that seeking to a position shows the entries after it.
- Ingress.AnswersWithTheCommittedState: the endpoint, protocol version and last error in an answer are left out.
- HostFacts.RootFollowsTheGuards: a lock of the registry works or fails for a whole refresh; that an unavailable key has no executor holds by construction and is not a field.
- HostFacts.ActivateEstablishes: everything activation does besides its registrations is left out.
- PayloadText.PayloadTextsAgree: the text is a sequence of characters, so UTF-8 and the hash over its bytes are left out, and so is how a number becomes its numeral; typed payloads are the values they serialize to.
- HostCalls.SlotsAreConserved: slots belong to one listener; a replaced listener starts with slots of its own. Waiting order is not modelled.
- The mapping of provider failures, opening a document for reading, visual capture, Android primitives and the tunnel client: input and output around calls into other systems.
- Capability folds, serde types and static tables: they would add only easy members.
