# Verified models of ghostycode

A Dafny 4.11 model of the parts of ghostycode that carry promises over whole runs or over all
inputs, with proofs of those promises. `dafny verify dfyconfig.toml` checks the project.

| files | what they model |
|---|---|
| `Frontier.dfy`, `FrontierWeight.dfy`, `SourceScan.dfy`, `Lexer.dfy` | the command-migration gate: which frontier of pending groups and slices may follow which, how long that can go on, how a frontier is compared with the Rust sources, and the scanner that blanks comments and literals |
| `EventStream.dfy` | the runtime SDK's reader of server-sent events |
| `Session.dfy`, `SessionResults.dfy`, `Synchrony.dfy` | the account session of the CLI: request, 401, refresh, save, retry, `me`, key calls, logout; what each call returns; and the same against a server that rotates tokens |
| `Budget.dfy`, `BudgetSample.dfy` | the one-way runtime contract budget, and a receipt of the kind it accepts |
| `Graphs.dfy`, `Boundaries.dfy`, `PublishOrder.dfy` | the crate boundary search and the crate publication order |
| `TelemetrySchema.dfy`, `TelemetryShape.dfy`, `TelemetryPatterns.dfy`, `TelemetryRows.dfy`, `TelemetryIngest.dfy` | the telemetry worker: the closed validator, the shape of what it accepts and the grammars of its fields, the positional rows, the bounded reader and the handler |
| `Highlight.dfy` | case-insensitive highlighting with a position map |
| `Filing.dfy`, `Drafts.dfy`, `DraftPlatform.dfy` | the watcher's draft identities, keys and store, and a platform of the kind they assume |
| `Text.dfy`, `Json.dfy` | names, lists, `indexOf`, JSON values |

Loops and updates in place are methods proved against specification functions; the promises are
lemmas about those functions, or the methods' own contracts.

Promises that do not hold of the code as they are written down, with the exact condition under
which they do:

- The gate's frontiers are one-way, no name returns, and a group never sits beside its own slice,
  if and only if no slice name is also a group name or a slice of another group
  (`Frontier.ReachabilityExact`, `Frontier.IrreversibleExactly`, `Frontier.NoReturnExactly`). The
  gate does not check this: `Frontier.ClashingNamesBreakPromises` has a document that it accepts, and
  `SourceScan.ClashUndoesMigration` a run of the whole gate that undoes a migration.
  Group names without a colon suffice (`Frontier.ColonFreeRootsAreDisjoint`).
- The gate's comments say that a pending slice without a handler is stale and rejected, and that a
  split group's handlers are covered by its slices. Neither is enforced everywhere:
  `SourceScan.StaleSliceAccepted`, `SourceScan.StaleSliceExactly`,
  `SourceScan.SplitCoverageExactly`.
- The scanner's branch for raw strings looks for a hash where the quote is, so it is never taken, its
  comment depth never exceeds one, and it knows no character escape longer than two characters:
  `Lexer.RawStringLeaks`, `Lexer.NestedCommentLeaks`, `Lexer.LongEscapeLeaks`, with the exact
  conditions in `Lexer.LiteralEndsAtItsQuote`, `Lexer.CommentEndsAtItsCloser` and
  `Lexer.CharEndsAtItsTick`.
- The session store follows the server over a whole session exactly as long as no refresh reply is
  lost, the secret store takes what a refresh gives it, and no logout fails to delete it
  (`Synchrony.SessionSynchrony`); `Synchrony.LostReplyDrifts` has a rotating server and a call that
  ends out of step.
- The telemetry handler says that nothing is written when it answers 500. That holds exactly when
  the exception came before the write or at its first row (`TelemetryIngest.Fetch`); otherwise the
  rows that fit stay. `TelemetryIngest.CutShort` has this for every batch with more events than the
  dataset has room for, `TelemetryIngest.OneOfTwo` for a batch of two.
- The highlighter says that it takes the whole of a character in which a match ends. It does so
  exactly when the match also begins there (`Highlight.CoversExactly`, `Highlight.LaterCharacterLost`).
- A changed finding gets a new draft id unless the first 63 characters of the slug and the first 16
  digits of the digest agree (`Drafts.SameIdExactly`).

## Model

| member | source | states |
|---|---|---|
| Frontier.TransitionIsStep | scripts/check-command-migration-manifest.py:342-387 | the gate accepts a transition exactly when it removes names or replaces one pending group by all its slices |
| Frontier.ValidFrontierAscending | scripts/check-command-migration-manifest.py:324-339 | the sortedness test on a frontier means: strictly ascending, so a frontier is determined by its set of names |
| Text.LeqExactly | scripts/check-command-migration-manifest.py:329-330 | the order of names is that of Python: a prefix, or smaller at the first difference |
| Frontier.ChildrenCount | scripts/check-command-migration-manifest.py:390-456 | in a valid topology a group has as many children as it lists slices |
| Frontier.RunTopology | scripts/check-command-migration-manifest.py:514-551 | along an accepted run of revisions the topology never changes |
| Frontier.RunIsChain | scripts/check-command-migration-manifest.py:514-551 | every accepted run of documents is a chain of steps between sets of names |
| Frontier.ChainIsRun | scripts/check-command-migration-manifest.py:514-551 | every chain of steps is realized by an accepted run of valid documents |
| Frontier.ReachableIsAdmissible | scripts/check-command-migration-manifest.py:314-387 | with disjoint names, whatever is reached from all groups lists declared names only and no group beside one of its slices |
| Frontier.AdmissibleIsReachable | scripts/check-command-migration-manifest.py:314-387 | every such set of names is reached, by a run that is constructed |
| Frontier.ClashReachesBadFrontier | scripts/check-command-migration-manifest.py:360-387 | with clashing names an accepted run reaches a group beside its own slice |
| Frontier.ReachabilityExact | scripts/check-command-migration-manifest.py:314-387 | reachable from all groups is the same as admissible, if and only if the declared names are disjoint |
| Frontier.ColonFreeRootsAreDisjoint | scripts/check-command-migration-manifest.py:440-450 | the slice-prefix rule makes all names disjoint once group names have no colon |
| Frontier.OutstandingNeverGrows | scripts/check-command-migration-manifest.py:342-387 | with disjoint names, a name that is neither pending nor below a pending group stays so for the rest of the run |
| Frontier.StepSpends | scripts/check-command-migration-manifest.py:342-387 | with disjoint names, each changing revision uses up at least one outstanding name |
| Frontier.NoNameReturns | scripts/check-command-migration-manifest.py:342-387 | with disjoint names, over a whole run no name enters the frontier a second time |
| Frontier.ClashReturns | scripts/check-command-migration-manifest.py:342-387 | with clashing names some name is pending, leaves and is pending again in an accepted run |
| Frontier.NoReturnExactly | scripts/check-command-migration-manifest.py:342-387 | no name returns over all accepted runs if and only if the declared names are disjoint |
| Frontier.StrictRunBounded | scripts/check-command-migration-manifest.py:342-387 | with disjoint names, a run of changing revisions has at most as many changes as there are groups and slices |
| Frontier.StrictRunOfFullLength | scripts/check-command-migration-manifest.py:342-387 | that bound is reached by some accepted run |
| FrontierWeight.WeightIs | scripts/check-command-migration-manifest.py:314-357 | the weight of a name is one plus the weights of its slices, on every valid topology |
| FrontierWeight.SplitSpendsOne | scripts/check-command-migration-manifest.py:342-357 | a split lowers the weight of the frontier by exactly one, clashing names or not |
| FrontierWeight.StepLightens | scripts/check-command-migration-manifest.py:342-387 | every changing step lowers the weight of the frontier |
| FrontierWeight.StrictRunEnds | scripts/check-command-migration-manifest.py:342-387 | on every valid topology a run of changing revisions makes at most as many changes as the groups weigh |
| FrontierWeight.LongestRun | scripts/check-command-migration-manifest.py:342-387 | on every valid topology some accepted run makes exactly that many changes |
| FrontierWeight.DisjointWeight | scripts/check-command-migration-manifest.py:342-387 | with disjoint names the groups weigh as much as there are groups and slices |
| Frontier.MigratedStays | scripts/check-command-migration-manifest.py:360-387 | with disjoint names, a group that has left with all its slices never comes back |
| Frontier.ClashRegresses | scripts/check-command-migration-manifest.py:360-387 | with clashing names an accepted run brings a migrated group back |
| Frontier.IrreversibleExactly | scripts/check-command-migration-manifest.py:360-387 | migration is irreversible over every accepted run if and only if the declared names are disjoint |
| Frontier.ClashingNamesValid | scripts/check-command-migration-manifest.py:390-456 | a topology with a group named like another group's slice passes validation |
| Frontier.ClashingNamesBreakPromises | scripts/check-command-migration-manifest.py:360-456 | on that topology an accepted run lists a group beside its slice, and another brings a migrated group back |
| SourceScan.ScanLeafHandlers | scripts/check-command-migration-manifest.py:1030-1051 | the scan of a scope collects exactly the concrete-App handlers of its files and the problem of every missing file |
| SourceScan.CheckSlice | scripts/check-command-migration-manifest.py:1054-1131 | the branch for one slice reports what the agreement of that slice with its sources requires |
| SourceScan.CheckSplit | scripts/check-command-migration-manifest.py:1054-1131 | the branch for a split group reports exactly its specified problems, in order |
| SourceScan.CheckGroup | scripts/check-command-migration-manifest.py:1054-1131 | the case distinction over pending, split and migrated groups |
| SourceScan.CheckSourceFrontier | scripts/check-command-migration-manifest.py:1054-1131 | the loop over all groups reports the problems of each group in the dictionary's order |
| SourceScan.GroupProblemsExactly | scripts/check-command-migration-manifest.py:1054-1131 | a group gives no problem if and only if its frontier status agrees with its source files |
| SourceScan.AllProblemsExactly | scripts/check-command-migration-manifest.py:1054-1131 | the whole check is silent if and only if every group agrees |
| SourceScan.ScanProblemsAre | scripts/check-command-migration-manifest.py:1030-1051 | which files the scan of a scope reports, and as what |
| SourceScan.SliceProblemsAre | scripts/check-command-migration-manifest.py:1054-1131 | which violations a pending slice gives, from its files and selectors |
| SourceScan.GroupProblemsAre | scripts/check-command-migration-manifest.py:1054-1131 | which violations a pending, split, partly split or migrated group gives |
| SourceScan.AllProblemsAre | scripts/check-command-migration-manifest.py:1054-1131 | the whole check reports exactly the violations of its groups |
| SourceScan.MigrationIsFinal | scripts/check-command-migration-manifest.py:1144-1181 | with disjoint names, once a group and its slices have left, no later accepted revision has a concrete-App handler in its files |
| SourceScan.ClashUndoesMigration | scripts/check-command-migration-manifest.py:1144-1181 | without disjoint names, a run of the whole gate in which a migrated group has a handler again |
| SourceScan.StaleSliceAccepted | scripts/check-command-migration-manifest.py:1054-1131 | a pending slice without handlers can be accepted |
| SourceScan.StaleSliceExactly | scripts/check-command-migration-manifest.py:1054-1131 | pending slices of an accepted revision are live if the group has a handler or no slice is pending, and only then when slice scopes lie inside the group's |
| SourceScan.SplitCoverageExactly | scripts/check-command-migration-manifest.py:1054-1131 | slice scopes that contain the group's scope cover its handlers in every source; when the slices' selectors resolve, as without selectors they always do, accepted sources are covered only then |
| Lexer.ScanPrints | scripts/check-command-migration-manifest.py:615-692 | every text is the concatenation of well-formed tokens |
| Lexer.ScanRecovers | scripts/check-command-migration-manifest.py:615-692 | the token grammar is unambiguous: scanning printed tokens gives them back |
| Lexer.NormalForm | scripts/check-command-migration-manifest.py:615-692 | blanking keeps the length, only replaces by spaces, leaves no quote and no comment opener, is idempotent, and fixes exactly the clean texts |
| Lexer.AheadIsBlanked | scripts/check-command-migration-manifest.py:615-692 | the mode-by-mode scan computes the blanked token list |
| Lexer.BlankedLineComment | scripts/check-command-migration-manifest.py:625-632 | a line comment becomes spaces up to its newline, which stays |
| Lexer.BlankedBlockComment | scripts/check-command-migration-manifest.py:633-651 | a block comment becomes spaces up to and with its closer |
| Lexer.BlankedString | scripts/check-command-migration-manifest.py:652-671 | a string becomes spaces with both its quotes |
| Lexer.BlankedChar | scripts/check-command-migration-manifest.py:672-690 | a character literal becomes spaces with both its ticks |
| Lexer.BlankedCode | scripts/check-command-migration-manifest.py:615-692 | any other character stays |
| Lexer.StripCommentsAndStrings | scripts/check-command-migration-manifest.py:615-692 | the in-place scan leaves the blanked text of the tokens |
| Lexer.LiteralEndsAtItsQuote | scripts/check-command-migration-manifest.py:652-671 | a literal is blanked up to its own closing quote exactly when its body reads as plain characters and escapes, raw or not |
| Lexer.CommentEndsAtItsCloser | scripts/check-command-migration-manifest.py:633-651 | a block comment is blanked up to its own closer exactly when no closer comes earlier |
| Lexer.CharEndsAtItsTick | scripts/check-command-migration-manifest.py:672-690 | a character literal is blanked up to its own closing tick exactly when its body is one character or a backslash and one |
| Lexer.RawStringLeaks | scripts/check-command-migration-manifest.py:652-671 | a raw string with an inner quote leaks the character behind the quote |
| Lexer.NestedCommentLeaks | scripts/check-command-migration-manifest.py:633-651 | a nested block comment leaks what follows the inner closer |
| Lexer.LongEscapeLeaks | scripts/check-command-migration-manifest.py:672-690 | a hexadecimal escape leaks its digits and swallows the code character behind it |
| EventStream.BoundaryIsFirst | npm/runtime-sdk/index.js:230-240 | the boundary is the first position at which either separator starts, with that separator's length |
| EventStream.BoundaryStable | npm/runtime-sdk/index.js:230-240 | a boundary found in a prefix is the boundary of every extension |
| EventStream.FrameAppend | npm/runtime-sdk/index.js:208-228 | framing can be interrupted anywhere and resumed with the rest |
| EventStream.FrameReassembles | npm/runtime-sdk/index.js:208-228 | frames and separators concatenate back to the text |
| EventStream.FramesAreWhole | npm/runtime-sdk/index.js:208-240 | no frame contains a separator |
| EventStream.FrameUnique | npm/runtime-sdk/index.js:208-240 | there is only one way to cut a text into such frames |
| EventStream.FrameFlush | npm/runtime-sdk/index.js:208-228 | what the text decoder still holds at the end cannot complete a separator |
| EventStream.DrainFrames | npm/runtime-sdk/index.js:213-221 | the inner loop delivers the events of the complete frames up to the first that throws, and keeps the rest |
| EventStream.ParseEventStream | npm/runtime-sdk/index.js:208-228 | events and failure depend on the whole text alone, for every way of cutting it into chunks |
| EventStream.PrintedFrames | npm/runtime-sdk/index.js:208-240 | printed messages are framed into their bodies with nothing left over, with LF or CRLF chosen per message |
| EventStream.ReadPrinted | npm/runtime-sdk/index.js:242-269 | reading a printed body gives back its event name, its id and its data, whose lines split into those that were sent |
| EventStream.AnnotateExactly | npm/runtime-sdk/index.js:258-268 | an object gets the event name under `event` and the id under `cursor`, each where it has no such key and the value is not empty; anything else stays |
| EventStream.FieldExactly | npm/runtime-sdk/index.js:244-251 | the first line with the prefix decides the event name or id, without its leading white space; none when there is no such line |
| EventStream.FieldsJoin | npm/runtime-sdk/index.js:252-255 | the data lines of a text are those of its parts |
| EventStream.FrameDecodes | npm/runtime-sdk/index.js:242-269 | what one frame adds to the events: nothing, a failure, or its value with the defaults |
| EventStream.PrintedIsDecoded | npm/runtime-sdk/index.js:208-269 | decoding the whole printed text gives exactly the sent messages, up to bad JSON |
| EventStream.PrintedIsRecovered | npm/runtime-sdk/index.js:208-269 | the chunked reader gives exactly the sent messages, whatever pieces they arrive in |
| Session.CloudClient.constructor | crates/cli/src/cloud.rs:357-373 | a client starts from the stored slot and the server's state, with an empty request log |
| Session.CloudClient.LoadAuth | crates/secrets/src/account.rs:229-242 | loading tells a failing store and an absent, an unreadable and a valid session apart and changes nothing |
| Session.CloudClient.SaveAuth | crates/secrets/src/account.rs:245-255 | an invalid bundle or a failing store is an error that keeps the slot; otherwise the slot holds the bundle and loads it |
| Session.CloudClient.ClearAuth | crates/secrets/src/account.rs:258-261 | the slot is emptied, or the deletion fails and it is as before |
| Session.CloudClient.Execute | crates/cli/src/cloud.rs:436-489 | one request goes to the server and into the log |
| Session.CloudClient.ExecuteAuthenticated | crates/cli/src/cloud.rs:436-489 | the call takes the store, the server and the log through exactly the specified protocol step |
| Session.CloudClient.RefreshAndRetry | crates/cli/src/cloud.rs:455-489 | the part after a 401: refresh, save or clear, and one retry |
| Session.CloudClient.FetchMe | crates/cli/src/cloud.rs:375-386 | `me` as a transition of the whole state |
| Session.CloudClient.ChangeKey | crates/cli/src/cloud.rs:388-402 | setting and removing a key as transitions of the whole state |
| Session.CloudClient.SetKey | crates/cli/src/cloud.rs:388-396 | setting a key is a PUT to the provider's path that must be answered 200 or 201 |
| Session.CloudClient.RemoveKey | crates/cli/src/cloud.rs:398-402 | removing a key is a DELETE on that path that must be answered 200 or 204 |
| Session.CloudClient.SignOut | crates/cli/src/cloud.rs:404-434 | logout as a transition of the whole state |
| Session.RetryDiscipline | crates/cli/src/cloud.rs:436-489 | at most three requests; refresh only after a 401; the repeated request has the same path and body and the new token; a 401 is never returned |
| SessionResults.CallResult | crates/cli/src/cloud.rs:436-489 | which result or error each branch of a call gives, read off the requests that it sent and their replies |
| SessionResults.CallSucceedsExactly | crates/cli/src/cloud.rs:436-489 | a call succeeds exactly when the store holds a session and its first or third request is answered with a status other than 401, and returns that answer |
| SessionResults.RefreshResult | crates/cli/src/cloud.rs:455-489 | the same for the part after a 401 |
| SessionResults.SlotAfterCall | crates/cli/src/cloud.rs:436-489 | a call without a 401 leaves the slot alone; with one, the slot is what the refresh part leaves |
| SessionResults.SlotAfterRefresh | crates/cli/src/cloud.rs:455-489 | the refresh part leaves the slot alone, empties it after a 401, or stores exactly the granted bundle, with the old account where that has none |
| SessionResults.MeResult | crates/cli/src/cloud.rs:375-386 | `me` succeeds exactly on a 200 with an account that has an id and can be cached, and which error each other outcome gives |
| SessionResults.SlotAfterMe | crates/cli/src/cloud.rs:375-386 | `me` replaces the account in the stored session when it succeeds and changes nothing else |
| SessionResults.KeyResult | crates/cli/src/cloud.rs:388-402 | a key call succeeds exactly when its call is answered with a listed status |
| SessionResults.CallsAre | crates/cli/src/cloud.rs:375-434 | the requests as they go out: method, path, token and body |
| SessionResults.HeldExactly | crates/secrets/src/account.rs:229-242 | what a stored record loads as, for every schema, origin and bundle |
| SessionResults.BearerInAnyCase | crates/secrets/src/account.rs:313-331 | the token type is the word bearer in any case |
| SessionResults.AsciiTokenExactly | crates/secrets/src/account.rs:313-331 | an ASCII token is valid exactly when it has 1 to 65536 characters, all visible |
| SessionResults.Utf8LengthIs | crates/secrets/src/account.rs:313-331 | the length of a token in bytes |
| Session.RefreshDiscipline | crates/cli/src/cloud.rs:455-489 | after a 401: one refresh with the stored token and at most one retry, with the granted token |
| Session.RefreshKeepsUser | crates/cli/src/cloud.rs:455-489 | a refresh that omits the account keeps the stored one |
| Session.MeKeepsTokens | crates/cli/src/cloud.rs:375-386 | `me` writes back the tokens that its own call left in the store and caches the account it returns |
| Session.LogoutClears | crates/cli/src/cloud.rs:404-434 | logout succeeds exactly when the slot can be deleted, then leaves it empty in every branch, and reports a revocation exactly when the server confirmed one |
| Synchrony.RefreshSynchrony | crates/cli/src/cloud.rs:455-489 | the refresh part ends in sync exactly when the store did not miss what the refresh changed |
| Synchrony.RetrySynchrony | crates/cli/src/cloud.rs:471-489 | the retry leaves from a state in sync and keeps it |
| Synchrony.CallSynchrony | crates/cli/src/cloud.rs:436-489 | each request of a call leaves from a state in sync, and the call ends in sync exactly when no refresh reply was lost and the store could be written or cleared |
| Synchrony.CommandSynchrony | crates/cli/src/cloud.rs:375-434 | each request of a command leaves from a state in sync, and `me`, key calls and logout end in sync exactly when the call missed no refresh, or the logout could delete the slot or changed nothing at the server |
| Synchrony.CommandStarts | crates/cli/src/cloud.rs:375-434 | a command sends its own first request exactly when the store holds a session |
| Synchrony.SessionSynchrony | crates/cli/src/cloud.rs:375-489 | over every sequence of commands the store is empty or holds the token that the server accepts after each command exactly when no command drifts, and then at every request and at the end too |
| Synchrony.ReliableNeverDrifts | crates/cli/src/cloud.rs:375-489 | where no refresh reply is lost and the store takes what it is given, no session drifts |
| Synchrony.StaleStoreOnlyClears | crates/cli/src/cloud.rs:436-489 | a store that missed a rotation is never refreshed from: it is left alone or, after a 401 to the refresh, cleared if it can be |
| Synchrony.TurnServerRotates | crates/cli/src/cloud.rs:436-489 | a server that rotates single-use tokens meets the assumptions of the synchrony theorems |
| Synchrony.LostReplyDrifts | crates/cli/src/cloud.rs:455-463 | against a rotating server, one lost refresh reply leaves a token in the store that the server no longer accepts |
| Budget.RequiredValue | scripts/check-runtime-contract-budget.py:190-197 | the loop reads the value at a nested path, or reports that it is missing |
| Budget.SetExactlyWhenOpen | scripts/check-runtime-contract-budget.py:338-342 | a nested write succeeds exactly when no value other than an object is in the way |
| Budget.GetAfterSet | scripts/check-runtime-contract-budget.py:338-342 | what was written at a path is read there |
| Budget.GetElsewhere | scripts/check-runtime-contract-budget.py:338-342 | a path that is neither a prefix nor an extension of the written one keeps its value |
| Budget.OpenAfterSet | scripts/check-runtime-contract-budget.py:338-342 | a write keeps every path open that does not lead through it |
| Budget.CopyReadsBack | scripts/check-runtime-contract-budget.py:345-368 | copying prefix-free paths reads back exactly what the receipt holds |
| Budget.CopyElsewhere | scripts/check-runtime-contract-budget.py:345-368 | copying leaves unrelated paths alone |
| Budget.LayoutExists | scripts/check-runtime-contract-budget.py:54-152 | the tracked paths can be listed without repetition |
| Budget.TrackedPrefixFree | scripts/check-runtime-contract-budget.py:54-152 | no tracked path is a prefix of another, and none meets the budget's header |
| Budget.IdentitiesTransfer | scripts/check-runtime-contract-budget.py:204-245 | documents that agree on the tracked paths pass or fail the identity check together |
| Budget.BudgetFromReceipt | scripts/check-runtime-contract-budget.py:345-368 | the two loops build the specified budget or fail where a metric is missing |
| Budget.BudgetReadsBack | scripts/check-runtime-contract-budget.py:279-368 | a budget is built from exactly the valid receipts with all metrics, passes `validate_budget` and reads back every tracked path |
| Budget.SameIdentities | scripts/check-runtime-contract-budget.py:311-324 | the loop finds exactly whether all identities agree |
| Budget.MetricExactly | scripts/check-runtime-contract-budget.py:295-302 | a metric is read exactly where a non-negative integer stands at its path |
| Budget.FindingsExactly | scripts/check-runtime-contract-budget.py:325-335 | a path is reported with the two numbers in the documents exactly when it is listed and the measured one is above, or below, the ceiling |
| Budget.NamesExactly | scripts/check-runtime-contract-budget.py:204-245 | tool names are read exactly from lists of non-empty strings |
| Budget.SurfaceExactly | scripts/check-runtime-contract-budget.py:212-238 | a tool surface is valid exactly when it has a strictly ascending list of non-empty names with its length and digest |
| Budget.Sha256Exactly | scripts/check-runtime-contract-budget.py:239-245 | a digest is 64 lower-case hexadecimal digits |
| Budget.DocumentsExactly | scripts/check-runtime-contract-budget.py:248-293 | what the header, fixture and flags of a receipt and of a budget must be |
| Budget.CompareMetrics | scripts/check-runtime-contract-budget.py:325-335 | the loop lists the increases and the decreases, in order, and fails on a missing metric |
| Budget.Compare | scripts/check-runtime-contract-budget.py:305-335 | comparison fails or lists the findings as specified |
| Budget.OwnBudgetIsExact | scripts/check-runtime-contract-budget.py:305-368 | a receipt compared with its own budget shows neither increase nor decrease |
| Budget.UpdateTightens | scripts/check-runtime-contract-budget.py:644-665 | an accepted update cannot fail, lowers or keeps every ceiling, keeps every identity and leaves a valid budget |
| Budget.TighterAcceptsLess | scripts/check-runtime-contract-budget.py:305-335 | what a tighter budget accepts, the wider one accepts |
| Budget.RunTightens | scripts/check-runtime-contract-budget.py:644-665 | along a run each later budget is tighter than each earlier one |
| Budget.Ratchet | scripts/check-runtime-contract-budget.py:644-665 | over any run no ceiling rises, no identity changes, and what a later budget accepts every earlier one accepts |
| Budget.DecreasesAccount | scripts/check-runtime-contract-budget.py:305-335 | the reported decreases add up to the slack between ceilings and measured values |
| Budget.TighteningsBounded | scripts/check-runtime-contract-budget.py:644-665 | the ceilings lowered over a run are at most what the initial ceilings add up to beyond the final ones |
| BudgetSample.ReceiptIsValid | scripts/check-runtime-contract-budget.py:248-276 | a receipt that is valid and carries all metrics exists, whatever the digest |
| Boundaries.DependencyGraph | scripts/check-command-crate-boundaries.py:89-107 | the graph has a node for each package and an edge for exactly its normal dependencies |
| Boundaries.EdgesExactly | scripts/check-command-crate-boundaries.py:89-107 | the edges of a package are its named dependencies without a kind |
| Boundaries.LastExists | scripts/check-command-crate-boundaries.py:89-107 | each name has one package that decides its edges, the last |
| Boundaries.ReachesTui | scripts/check-command-crate-boundaries.py:110-122 | on every graph, cyclic or not, the search ends and finds the TUI package exactly when a path of at least one edge leads to it |
| Boundaries.CheckDependencyGraph | scripts/check-command-crate-boundaries.py:125-143 | no violation exactly when the contract crate is present and does not reach the TUI package |
| Graphs.ClosedContains | scripts/check-command-crate-boundaries.py:110-122 | a closed set with all direct dependencies contains all that is reached |
| Graphs.OrderExists | scripts/release/validate-crate-publish-order.py:146-168 | an acyclic graph can be listed with every dependency first |
| PublishOrder.ByNameExact | scripts/release/validate-crate-publish-order.py:103-103 | with distinct names each package is found under its own name and nothing else is found |
| PublishOrder.EdgesExactly | scripts/release/validate-crate-publish-order.py:122-144 | a crate needs exactly the workspace packages that it has a path dependency of a kind other than dev on |
| PublishOrder.ReleaseExactly | scripts/release/validate-crate-publish-order.py:104-106 | the release crates are the workspace packages whose name starts with the prefix |
| PublishOrder.SoundExactly | scripts/release/validate-crate-publish-order.py:122-144 | the metadata is sound exactly when every need of a release crate is a release crate |
| PublishOrder.ValidateOrder | scripts/release/validate-crate-publish-order.py:81-168 | accepts exactly the duplicate-free orders of exactly the release crates, of one version and with all non-dev workspace dependencies inside and earlier; reports which crates have any |
| PublishOrder.CheckRelease | scripts/release/validate-crate-publish-order.py:104-168 | the part after the version check decides soundness, coverage and direction of all edges |
| PublishOrder.CollectEdges | scripts/release/validate-crate-publish-order.py:120-144 | the loop over the release collects the edges and flags, and fails on a dependency outside |
| PublishOrder.InsideIsReleasable | scripts/release/validate-crate-publish-order.py:120-144 | no failure exactly when every need lies inside the release |
| PublishOrder.EdgesTopological | scripts/release/validate-crate-publish-order.py:146-168 | comparing positions decides whether every edge points backwards |
| PublishOrder.AcceptedOrderIsSafe | scripts/release/validate-crate-publish-order.py:81-168 | every prefix of an accepted order contains all that its crates need, directly or not, and the graph has no cycle |
| PublishOrder.AcceptedOrderExists | scripts/release/validate-crate-publish-order.py:81-168 | sound metadata has an accepted order if and only if its graph has no cycle |
| TelemetrySchema.KeysExactly | telemetry-ingest/src/schema.ts:301-317 | counting keys and looking each up decides equality with the expected key set |
| TelemetrySchema.SameSize | telemetry-ingest/src/schema.ts:301-317 | a subset with as many elements is the whole set |
| TelemetrySchema.ReadCounts | telemetry-ingest/src/schema.ts:330-350 | accepts exactly the objects of these counts, each a u32 |
| TelemetrySchema.ReadProviders | telemetry-ingest/src/schema.ts:352-442 | accepts exactly the strictly ascending lists of well-formed provider ids |
| TelemetrySchema.ValidateEvent | telemetry-ingest/src/schema.ts:352-442 | accepts exactly the JSON of valid events |
| TelemetrySchema.ValidateEvents | telemetry-ingest/src/schema.ts:451-503 | accepts exactly the lists of JSON of valid events |
| TelemetrySchema.ValidateBatch | telemetry-ingest/src/schema.ts:451-503 | accepts exactly the JSON of valid batches, so any missing, extra or wrong key anywhere rejects |
| TelemetryShape.EventShapeExactly | telemetry-ingest/src/schema.ts:352-442 | the JSON of valid events is exactly the objects with the keys and values of one of the four shapes |
| TelemetryShape.BatchShapeExactly | telemetry-ingest/src/schema.ts:451-503 | the JSON of valid batches is exactly the objects with these eleven keys, values in these sets, and at most 200 such events |
| TelemetryShape.AcceptsShape | telemetry-ingest/src/schema.ts:451-503 | the validator accepts exactly these objects |
| TelemetryPatterns.VersionExactly | telemetry-ingest/src/schema.ts:227-228 | a version is three numbers with dots between them and maybe a dash with letters, digits and dots, of at most 64 characters |
| TelemetryPatterns.SiteExactly | telemetry-ingest/src/schema.ts:233-234 | a panic site is the literal for dependencies, or a crate path ending in .rs with a line and a column, of at most 256 characters |
| TelemetryPatterns.ProviderExactly | telemetry-ingest/src/schema.ts:249-249 | a provider id is one lower-case letter or digit, or two with up to thirty such characters or dashes between them |
| TelemetryPatterns.SentAtExactly | telemetry-ingest/src/schema.ts:212-212 | a timestamp has digits and separators in these places |
| TelemetryPatterns.InstallIdExactly | telemetry-ingest/src/schema.ts:224-225 | an install id is a lower-case UUID of version 4 |
| TelemetryPatterns.GitShaExactly | telemetry-ingest/src/schema.ts:231-231 | a commit is twelve hexadecimal digits |
| TelemetrySchema.EventInjective | telemetry-ingest/src/schema.ts:352-442 | different events have different JSON |
| TelemetrySchema.BatchInjective | telemetry-ingest/src/schema.ts:451-503 | different batches have different JSON |
| TelemetryRows.ToDataPoint | telemetry-ingest/src/datapoint.ts:87-134 | filling the columns in place gives the positional row of the batch and event |
| TelemetryRows.ToDataPoints | telemetry-ingest/src/datapoint.ts:83-85 | one row for each event, in order |
| TelemetryRows.EnvelopeLayout | telemetry-ingest/src/datapoint.ts:50-98 | what stands in the nine columns that all rows have |
| TelemetryRows.EventLayout | telemetry-ingest/src/datapoint.ts:50-123 | what stands in the eight columns of the single events, empty for the others |
| TelemetryRows.DoublesLayout | telemetry-ingest/src/datapoint.ts:70-79 | which count stands in each of the twenty double columns |
| TelemetryRows.SplitJoined | telemetry-ingest/src/datapoint.ts:87-134 | the comma-joined list splits into the same provider ids |
| TelemetryRows.CountsReadBack | telemetry-ingest/src/datapoint.ts:49-80 | the counts are read back from their positions |
| TelemetryRows.EventReadsBack | telemetry-ingest/src/datapoint.ts:87-134 | every event is read back from its row |
| TelemetryRows.EnvelopeReadsBack | telemetry-ingest/src/datapoint.ts:87-134 | the envelope is read back from any row, absent and empty values kept apart |
| TelemetryRows.RowsReadBack | telemetry-ingest/src/datapoint.ts:83-134 | a valid batch with an event is read back from its rows |
| TelemetryRows.RowsDetermineBody | telemetry-ingest/src/datapoint.ts:83-134 | accepted bodies with an event and equal rows are the same JSON value |
| TelemetryRows.DoublesAreU32 | telemetry-ingest/src/datapoint.ts:49-80 | every double written is a u32 |
| TelemetryIngest.ReadBounded | telemetry-ingest/src/index.ts:91-121 | the result depends on the concatenated body alone: null exactly when it is absent or over the limit, an exception exactly when it breaks off within the limit or cannot be cancelled over it |
| TelemetryIngest.JoinChunks | telemetry-ingest/src/index.ts:91-121 | copying chunk after chunk into one array gives their concatenation |
| TelemetryIngest.Sink.WriteDataPoint | telemetry-ingest/src/datapoint.ts:137-143 | a write appends one row or throws and leaves the dataset alone |
| TelemetryIngest.WriteBatch | telemetry-ingest/src/datapoint.ts:137-143 | the rows are written in order up to the point where the dataset throws |
| TelemetryIngest.Screen | telemetry-ingest/src/index.ts:123-186 | exactly when each refusal applies, when something throws, and which batch the request carries otherwise |
| TelemetryIngest.Judge | telemetry-ingest/src/index.ts:152-180 | the same from the bytes on: decoding, parsing, validation and the rate limiter |
| TelemetryIngest.TooLargeExactly | telemetry-ingest/src/index.ts:138-150 | 413 exactly when the declared length is no number or over 73728, or the body is absent or longer than that |
| TelemetryIngest.JsonTypeExactly | telemetry-ingest/src/index.ts:133-137 | the content type must begin with application/json in any case |
| TelemetryIngest.Fetch | telemetry-ingest/src/index.ts:123-199 | 204 exactly for an allowed conforming batch that fits, 500 exactly for one that does not fit or an exception before the write, each refusal its own status; only an allowed conforming batch is written, as far as there is room; a 500 leaves the dataset alone exactly when something threw before the write or there was no room |
| TelemetryIngest.CutShort | telemetry-ingest/src/index.ts:182-199 | every batch with more events than the dataset has room for is answered 500 with the rows that fit written |
| TelemetryIngest.OneOfTwo | telemetry-ingest/src/index.ts:182-199 | a batch of two session starts, room for one row: 500 and one row |
| TelemetryIngest.CarriesOne | telemetry-ingest/src/index.ts:123-186 | a request carries at most one batch |
| TelemetryIngest.RowsWithinLimits | telemetry-ingest/src/datapoint.ts:49-134 | at most 200 rows, each with one index, 17 blobs and 20 u32 doubles |
| Highlight.FoldWithMaps | web/lib/search-utils.ts:93-107 | the loop builds the fold of all characters with the start and end of each unit's character |
| Highlight.MapsLocate | web/lib/search-utils.ts:93-107 | each unit of the fold lies inside the fold of the character that the maps name |
| Highlight.BoundaryExactly | web/lib/search-utils.ts:97-107 | the character boundaries are the positions that do not part a surrogate pair |
| Highlight.CharacterFolds | web/lib/search-utils.ts:97-107 | a single character folds as a whole |
| Highlight.MapBack | web/lib/search-utils.ts:109-116 | the cuts are character boundaries around the characters of the hit, ending as specified |
| Highlight.HighlightSpan | web/lib/search-utils.ts:89-123 | null exactly when the trimmed, lowered query is empty or absent from the folded text; otherwise the pieces reassemble the text around a non-empty match at the first hit |
| Highlight.TrimSplits | web/lib/search-utils.ts:55-57 | trimming the query cuts off white space at both ends and nothing else |
| Highlight.CoversExactly | web/lib/search-utils.ts:109-116 | the match covers the whole hit exactly when the hit ends between characters or in the character it begins in |
| Highlight.LaterCharacterLost | web/lib/search-utils.ts:114-116 | a hit that ends inside a later character loses that character |
| Highlight.SpanUnique | web/lib/search-utils.ts:89-123 | with non-empty folds only one span meets the specification |
| Highlight.MatchFoldsToHit | web/lib/search-utils.ts:75-123 | when the hit ends at any character boundary, the match folds to a text that ends in the query |
| Highlight.EndsWithHit | web/lib/search-utils.ts:109-116 | when the hit ends at any character boundary, the span ends with the hit |
| Highlight.PlainSpan | web/lib/search-utils.ts:75-123 | with one unit per character and length-preserving folds the span is the naive slice |
| Filing.FileAllKeeps | web/lib/content-watch.ts:127-145 | an open entry is never overwritten, and only keys of findings are written |
| Filing.FirstFiled | web/lib/content-watch.ts:127-145 | under a finding's key is the entry open before, or else the text of the first finding with that key |
| Filing.AllOpen | web/lib/content-watch.ts:127-145 | afterwards every finding's key holds an open entry |
| Filing.NothingToFile | web/lib/content-watch.ts:127-145 | findings that are all open change nothing |
| Filing.EntriesSurvive | web/lib/content-watch.ts:112-145 | an open entry survives every later run unchanged |
| Filing.EveryItemOpen | web/lib/content-watch.ts:112-145 | every key of any run's findings holds an open entry at the end |
| Filing.EntriesGood | web/lib/content-watch.ts:112-145 | a property that holds of an open entry and of every text filed under its key holds after any runs |
| Filing.RepeatedRoundIdle | web/lib/content-watch.ts:112-145 | a run without a new key changes nothing but its summary |
| Drafts.SlugShape | web/lib/content-watch.ts:41-43 | a slug has lower-case letters, digits and single inner dashes only |
| Drafts.SlugFixed | web/lib/content-watch.ts:41-43 | the texts that are their own slug are exactly those |
| Drafts.SlugIsWords | web/lib/content-watch.ts:41-43 | a slug is the maximal runs of ASCII letters and digits, in order, joined by dashes and lowered |
| Drafts.ValidIdExactly | web/lib/community-agent.ts:61-61 | the id pattern, character by character |
| Drafts.WatchIdValid | web/lib/content-watch.ts:33-49 | every generated id is at most 80 characters long and follows the id pattern |
| Drafts.SameIdExactly | web/lib/content-watch.ts:26-49 | two findings share an id exactly when the cut slugs and the cut digests agree |
| Drafts.KeyParsesExactly | web/lib/community-agent.ts:61-76 | building and parsing keys are inverse in both directions |
| Drafts.KeysDiffer | web/lib/community-agent.ts:63-68 | different drafts have different keys |
| Drafts.KeyTextIs | web/lib/community-agent.ts:63-68 | the keys as they are spelled, for each type |
| Drafts.ReadDraftExactly | web/lib/community-agent.ts:78-97 | a value is recognized as a given draft exactly when its fields hold that draft |
| Drafts.DraftReadsBack | web/lib/community-agent.ts:78-97 | a draft is recognized in its own JSON exactly when it is valid |
| Drafts.StoredIsFiled | web/lib/community-agent.ts:287-301 | what is found under a key is a valid draft whose own key that is |
| Drafts.FoundExactly | web/lib/community-agent.ts:287-301 | an entry is found as a draft exactly when its text parses as that draft and the key is the draft's own |
| Drafts.SafeIntegersExact | web/lib/community-agent.ts:272-276 | safe integers are values of doubles, and so is the next integer but not the one after |
| Drafts.SavedIsFound | web/lib/community-agent.ts:272-301 | a saved draft is found again, unchanged, when its target number is the value of a double |
| Drafts.Store.Put | web/lib/community-agent.ts:272-276 | exactly one entry changes |
| Drafts.GetDraft | web/lib/community-agent.ts:287-301 | the lookup in a store that may be missing, malformed entries included |
| Drafts.SaveDraft | web/lib/community-agent.ts:272-276 | an id outside the pattern is an error and writes nothing; otherwise one entry under the draft's key |
| Drafts.FileBroken | web/lib/content-watch.ts:127-145 | the loop files the broken links one after the other |
| Drafts.RunLinkCheck | web/lib/content-watch.ts:112-148 | a check writes its summary and then files the broken links; without a store it does nothing |
| Drafts.CheckFiles | web/lib/content-watch.ts:127-145 | after a check each broken link's key holds the draft open before, or else the draft of the first such link |
| Drafts.LinkKeysExactly | web/lib/content-watch.ts:120-145 | two links share a key exactly when the cut slugs and the cut digests of their urls agree |
| Drafts.BrokenJoin | web/lib/content-watch.ts:112-126 | the broken links of a list are those of its parts |
| Drafts.DraftsSurvive | web/lib/content-watch.ts:112-145 | an open draft survives every later check, character for character |
| Drafts.EveryBrokenLinkFlagged | web/lib/content-watch.ts:112-145 | every link that any check found broken has an open draft at the end |
| Drafts.OwnDraftAtTheEnd | web/lib/content-watch.ts:112-145 | a broken link whose key no other link uses ends, after any checks, with an open draft that names its own url |
| Drafts.RepeatedCheckIdle | web/lib/content-watch.ts:112-145 | a check whose broken links were all found before changes nothing but its summary |
| DraftPlatform.SampleIsValid | web/lib/community-agent.ts:272-301 | the law assumed of JSON text, that drafts read back from their own text, can be met |

## Left out

- The gate's field-by-field validation of selectors, type nodes and unknown keys, and the Rust item
  parser: a source file is the list of handlers that it declares. Selector resolution is a function
  parameter of the source check.
- Git, cargo, files, subprocesses and command-line handling of the scripts: their results are inputs.
- Texts of messages and errors: a violation is a constructor with the names it mentions.
- The budget's nested dictionaries are values: aliasing between the receipt and the budget does not
  arise in the model. Atomic writing of the budget file is not modelled. Dictionary keys of the
  budget and telemetry documents are constructors, one for each known name and one for any other.
- SHA-256, JSON text, dates and case folding are function parameters with the one law that each
  proof needs. The regular expressions of single fields are predicates on strings. Decoding UTF-8 is taken to be independent of
  chunks.
- Whether the secret store works is a function of the world outside, which only requests change; an operation of it that fails leaves the slot as it was.
- Device login, URL checks, the HTTP transport, prompts and printing of the CLI.
- Boundaries.ReachesTui: iterates over a Python set in an arbitrary order, so nothing is stated about the order of visits.
- The textual check of the contract crate's source in the boundary script.
- The rate limiter of the telemetry worker is a parameter that allows, denies or fails; prototype keys of JavaScript objects are not modelled.
- Highlight.HighlightSpan: lowering a whole query and folding one character are two function parameters, with no law between them.
- Expiry of stored entries, listing and deleting drafts, probing links, and the semantic drift watcher.
- Drafts.SavedIsFound: target numbers are integers here, and the law about JSON text is assumed for those that are values of doubles, as all numbers in JavaScript are.
- Drafts.RunLinkCheck: takes the texts and times of the drafts as part of each probe result, and the summary as a text.
- The terminal UI, the agent, the app server, the web pages and the packaging scripts are not part of this model.
