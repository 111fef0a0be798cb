# Patches, routing and canonical forms, verified

This project models three parts of the repository and proves what they promise.

**The patch engine** (`apply-patch`). A patch text is parsed into hunks; the chunks of an update are
located in a file by a four-tier fuzzy search; the resulting replacements are sorted and spliced into the
file's lines from the back; hunks are applied to the files one after the other, after a verification pass
has announced the changes.

- `Text` - the string operations of Rust's standard library the engine uses
- `SeekSequence` - the search, as four passes and as "leftmost match at the strictest tier that has one"
- `Patch`, `Replacements`, `Splicing` - placing chunks, the sorted list, the in-place application
- `Contents` - lines, terminators and the text of a patched file
- `PatchParser`, `PatchPrinter`, `PatchGrammar` - the parser, a printer for the grammar, and the proof that the
  parser takes exactly what the grammar writes
- `PatchNormalForm` - writing parsed patches again, and here-documents
- `ReportedLines` - which line of a patch text a reported number belongs to
- `PatchFiles`, `PatchEffects`, `PatchedText` - the file system as a map, verification against application,
  what a patch leaves in each file, and the way from patch text to file text

**The app-server** (`app-server`). Transports, the processor task and the outbound router task are one
system of steps over bounded queues (`AppServer`), each step told client by client (`AppServerSteps`), with
invariants over all runs (`AppServerSafety`, `AppServerRuns`, `AppServerReplies`). `RequestIds` and `OutgoingRouting` hold the request ids, the route table and the router's
loops. `Approvals` models the callback table for requests to clients and the tasks that turn answers into
decisions. The id obligation is that of section 5 (Response object) of the JSON-RPC 2.0 Specification.

**The schema tools** (`app-server-protocol`). `TopLevelSplit` and `TopLevelScan` are the quote- and
bracket-aware splitter behind the TypeScript filters, `CanonicalJson` and `CanonicalOrder` the canonical form of
JSON schemas.

Code that runs loops over changing variables is written as methods with loops and classes with fields, each
proved equal to a function of its inputs or old state; the properties are lemmas about those functions.

## What the proofs brought out

- An end-of-file chunk is tried at one place only, whatever the cursor. The comment at
  code-rs/apply-patch/src/seek_sequence.rs:4-6 promises a second search from the start position; the code has
  none (`SeekSequence.PromisedFallbackIsMissing`), and `SeekSequence.DocumentedIff` says exactly when that makes
  no difference. Such a chunk can land on lines already replaced (`Contents.EndOfFileChunkLandsBeforeCursor`),
  and on its own context line (`Replacements.EndOfFileChunkOnItsContext`), although
  code-rs/apply-patch/src/parser.rs:96-97 asks for old lines strictly after it.
  `Replacements.StandsBehindContextIff` says exactly when a chunk does stand behind its context: when it is
  not marked end-of-file, or has no more lines than the file has from there on.
- In a file that ends in a blank line, a pure addition together with a chunk that replaces that line loses the
  addition (`Contents.AdditionBeforeBlankLineIsLost`). For every chunk list, `Replacements.DisjointIff` says
  exactly when regions overlap: when a pure addition meets a region over the final blank line, or an
  end-of-file chunk, counted from the end, reaches back over an earlier region.
- A patch that only restates lines of a file drops the last newline of a file that ends in a blank line
  (`Contents.RestatingPatchIsIdentityIff`).
- A patch without hunks verifies, announcing nothing, and is then refused
  (`PatchFiles.EmptyPatchVerifiesAndIsRefused`).
- A file moved onto itself is announced as updated and is deleted (`PatchFiles.MoveOntoItselfDeletes`).
- Reported line numbers are off in two ways. They count from the first marker of the patch, so each blank line
  that trimming drops, and the opening of a here-document, makes them one too low
  (`ReportedLines.HeredocNumberIsTooLow`). And for an update whose first chunk has neither a context marker nor
  a diff line to begin with they are one too high (`ReportedLines.BadUpdateIsReportedOneOff`).
  `ReportedLines.ReportedNumberIff` says exactly how much a number is off, and that it is right if and only if
  the two make up for each other.
- Splitting loses parts for every delimiter that is a quote or an opening bracket, and for no other
  (`TopLevelSplit.PartsKeptIffNeutral`).
- An update whose first chunk has no "@@" and begins with an empty context line loses that line: it is taken
  for a blank line in front of the chunk (`PatchPrinter.SkipBlanks`). So the grammar the parser really has, for
  which `PatchGrammar.ParsesIffWritten` holds, lets such a chunk begin with other lines only.
- The grammar in code-rs/apply-patch/src/parser.rs:6-21 asks for at least one hunk and for non-empty texts; the
  parser also takes a patch without hunks and empty lines.

## Model

| member | source | states |
|---|---|---|
| SeekSequence.SeekSequence | code-rs/apply-patch/src/seek_sequence.rs:12-110 | the search returns the one answer the specification allows |
| SeekSequence.SearchTier | code-rs/apply-patch/src/seek_sequence.rs:41-52 | one pass finds the leftmost index in range that matches at its tier, or none does |
| SeekSequence.Seek | code-rs/apply-patch/src/seek_sequence.rs:12-110 | the answer is the leftmost match at the strictest tier that has any, None only if nothing matches after normalisation |
| SeekSequence.SoughtIsUnique | code-rs/apply-patch/src/seek_sequence.rs:34-109 | no two answers meet that description |
| SeekSequence.SoughtSomeIff | code-rs/apply-patch/src/seek_sequence.rs:96-109 | something is found exactly when an index in range matches at the most forgiving tier |
| SeekSequence.NoMatchNarrows | code-rs/apply-patch/src/seek_sequence.rs:34-107 | each tier matches everything the stricter ones match |
| SeekSequence.MatchingLines | code-rs/apply-patch/src/seek_sequence.rs:34-107 | what two lines have in common at each tier: all, all but trailing whitespace, all but whitespace at both ends, the same up to characters that look alike |
| SeekSequence.SameCharacterIff | code-rs/apply-patch/src/seek_sequence.rs:76-94 | exactly the listed dashes, quotes and spaces are taken for each other |
| SeekSequence.EofHasNoFallback | code-rs/apply-patch/src/seek_sequence.rs:29-33 | with eof set only the end of the file is tried |
| SeekSequence.DocumentedIff | code-rs/apply-patch/src/seek_sequence.rs:4-6 | the search does what its comment promises for end-of-file chunks if and only if the lines are at the end of the file, or nowhere from the start position on |
| SeekSequence.PromisedFallbackIsMissing | code-rs/apply-patch/src/seek_sequence.rs:29-33 | lines on which it does not |
| SeekSequence.ExactMatchWins | code-rs/apply-patch/src/seek_sequence.rs:34-39 | the leftmost exact match is taken even if a fuzzy one lies further left |
| Replacements.FindOldLines | code-rs/apply-patch/src/lib.rs:839-881 | old lines are searched, and once more without a final blank one |
| Replacements.ComputeReplacements | code-rs/apply-patch/src/lib.rs:783-887 | the loop yields the sorted plan, or the error of the first chunk that has no place |
| Replacements.ChunkIsPlaced | code-rs/apply-patch/src/lib.rs:792-881 | the search for a chunk begins behind its context; it lands on lines that match its old lines, with its new lines put in; it fails only if context or lines are nowhere |
| Replacements.PlacementIff | code-rs/apply-patch/src/lib.rs:792-881 | which region, new lines and next search position each chunk gets, for pure additions, located chunks and the retry without a final blank line |
| Replacements.PlanIff | code-rs/apply-patch/src/lib.rs:788-882 | the plan is what goes from chunk to chunk that way |
| Replacements.StandsBehindContextIff | code-rs/apply-patch/src/lib.rs:792-826 | a chunk stands behind its context if and only if it is not marked end-of-file or the file has enough lines left there; a pure addition, unless the search has passed a final blank line |
| Replacements.EndOfFileChunkOnItsContext | code-rs/apply-patch/src/seek_sequence.rs:29-33 | an end-of-file chunk placed on its own context line, on concrete lines |
| Replacements.PlanStaysInFile | code-rs/apply-patch/src/lib.rs:788-886 | for every chunk list no region leaves the file |
| Replacements.PlaceChunkBounds | code-rs/apply-patch/src/lib.rs:788-882 | the cursor never moves back or out of the file; only an end-of-file chunk can start before it |
| Replacements.SortedDisjointIff | code-rs/apply-patch/src/lib.rs:884 | the sorted list is disjoint if and only if the planned regions are pairwise compatible |
| Replacements.ClashNeedsGuard | code-rs/apply-patch/src/lib.rs:811-852 | two regions clash only if the later one is an end-of-file chunk's, or one is an addition before a final blank line |
| Replacements.DisjointIff | code-rs/apply-patch/src/lib.rs:811-852 | for every chunk list: disjoint if and only if no pure addition meets a region over the final blank line and no end-of-file chunk reaches back over an earlier region |
| Splicing.ReplaceRegion | code-rs/apply-patch/src/lib.rs:897-912 | removing and inserting line by line replaces the region, cut short at the end of the file |
| Splicing.ApplyOneAt | code-rs/apply-patch/src/lib.rs:897-912 | each line of the result: what was in front, the new lines, what was behind, be that nothing |
| Splicing.ApplyReplacements | code-rs/apply-patch/src/lib.rs:891-915 | the back-to-front loop stays in range for every sorted list, overlapping ones included |
| Splicing.BackwardsIsSplice | code-rs/apply-patch/src/lib.rs:895-912 | on disjoint regions it equals the one-pass left-to-right splice |
| Splicing.UntouchedLineSurvives | code-rs/apply-patch/src/lib.rs:891-915 | every line outside the regions survives, moved by the growth of the regions before it |
| Splicing.NewLinesArePlaced | code-rs/apply-patch/src/lib.rs:908-911 | the new lines of every region are in the result, whole and in place |
| Splicing.PositionIsShiftedStart | code-rs/apply-patch/src/lib.rs:908-911 | that place is the region's start moved by the growth before it |
| Splicing.SpliceLength | code-rs/apply-patch/src/lib.rs:891-915 | new length = old length - removed + inserted |
| Contents.DeriveNewContents | code-rs/apply-patch/src/lib.rs:741-778 | the new text is a function of the old text and the chunks |
| Contents.FileLinesOfTerminated | code-rs/apply-patch/src/lib.rs:755-764 | the lines of a file are its terminated lines and an unterminated rest, without carriage returns at their ends |
| Contents.DetectIff | code-rs/apply-patch/src/lib.rs:718-739 | one CRLF anywhere makes a CRLF file |
| Contents.DisjointPatchSplices | code-rs/apply-patch/src/lib.rs:755-773 | with disjoint regions that text is the rendered splice of the file's lines |
| Contents.OrdinaryPatchSplices | code-rs/apply-patch/src/lib.rs:755-886 | so for every patch in which neither of the two clashes occurs |
| Contents.AdditionBeforeBlankLineIsLost | code-rs/apply-patch/src/lib.rs:811-826 | an addition that is lost, on a concrete file |
| Contents.EndOfFileChunkLandsBeforeCursor | code-rs/apply-patch/src/seek_sequence.rs:29-33 | an end-of-file chunk that overwrites and is overwritten, on a concrete file |
| Contents.NewContentsEndTerminated | code-rs/apply-patch/src/lib.rs:770-773 | rewritten text is empty or ends with the detected terminator |
| Contents.CrlfFileStaysCrlf | code-rs/apply-patch/src/lib.rs:718-778 | a file with any CRLF has no bare newline afterwards |
| Contents.RenderUndoesFileLinesIff | code-rs/apply-patch/src/lib.rs:755-773 | reading lines and writing them gives back the file if and only if it is empty or uniformly terminated with a last line that is not blank |
| Contents.RestatingPatchIsIdentityIff | code-rs/apply-patch/src/lib.rs:741-778 | a context-only patch whose lines are found exactly applies, and leaves unchanged exactly the empty and the uniformly terminated files whose last line is not blank |
| Replacements.RestatedLinesComeBack | code-rs/apply-patch/src/lib.rs:839-874 | context-only chunks found exactly all have a place, and put back the lines they take out |
| Replacements.StandInOrderIsRestated | code-rs/apply-patch/src/lib.rs:788-874 | chunks that stand in the file one after the other are all found, though the search is greedy |
| PatchParser.ParseUpdateFileChunk | code-rs/apply-patch/src/parser.rs:340-431 | the chunk loop computes the chunk, its line count or its error |
| PatchParser.ParseUpdateHunk | code-rs/apply-patch/src/parser.rs:276-330 | the loop over an update's chunks, blank lines skipped |
| PatchParser.ParseOneHunk | code-rs/apply-patch/src/parser.rs:245-338 | a hunk, its line count or its error |
| PatchParser.ParsePatchText | code-rs/apply-patch/src/parser.rs:154-183 | the hunks of a patch text in either mode, and the text without a here-document |
| PatchParser.ChunkProgress | code-rs/apply-patch/src/parser.rs:381-430 | a parsed chunk takes at least one line and at most all |
| PatchParser.HunkProgress | code-rs/apply-patch/src/parser.rs:166-176 | a parsed hunk takes at least one line and at most all, so the hunk loop ends having used up the body |
| PatchPrinter.HunksReadBack | code-rs/apply-patch/src/parser.rs:245-431 | line by line, every well-formed list of hunks written by the grammar is parsed as what it means: with empty context lines, a first chunk without "@@", blank lines and indented headers where they may be |
| PatchPrinter.PatchReadsBack | code-rs/apply-patch/src/parser.rs:154-183 | the same for the text, with either line ending, any whitespace around it and in either mode |
| PatchGrammar.ParsesIffWritten | code-rs/apply-patch/src/parser.rs:245-431 | the parser takes exactly the lines the grammar writes, for exactly what they mean |
| PatchGrammar.TextParsesIffWritten | code-rs/apply-patch/src/parser.rs:154-183 | so for texts |
| PatchGrammar.BoundariesIff | code-rs/apply-patch/src/parser.rs:186-242 | which lines are taken for those of the patch: all, or in lenient mode those in a here-document |
| PatchGrammar.BoundaryError | code-rs/apply-patch/src/parser.rs:186-242 | what is wrong with other lines: the first one, or else the last one, of those looked at |
| PatchNormalForm.ReprintingIsStable | code-rs/apply-patch/src/parser.rs:245-431 | whatever lines are accepted, writing the hunks found and parsing again gives the same hunks |
| PatchNormalForm.ParserYieldsThePrintable | code-rs/apply-patch/src/parser.rs:245-431 | the hunk lists the parser can yield are exactly the printable ones |
| PatchNormalForm.HeredocIsTransparent | code-rs/apply-patch/src/parser.rs:203-224 | a trimmed patch in a here-document is in lenient mode what it is bare in strict mode |
| ReportedLines.ChunkErrorLineIff | code-rs/apply-patch/src/parser.rs:340-420 | for a chunk the number is that of the line at fault if and only if it is not the first of its update, or has a context marker, or begins with a diff line |
| ReportedLines.ErrorLineIff | code-rs/apply-patch/src/parser.rs:170-176 | among the parsed lines the number is right if and only if the failing hunk is no update beginning that way, and else one too high |
| ReportedLines.ReportedNumberIff | code-rs/apply-patch/src/parser.rs:154-176 | against the text passed in: the number and the lines in front of the patch add up to the line at fault, or to one more for such an update; so it is right if and only if those two agree |
| ReportedLines.HeredocNumberIsTooLow | code-rs/apply-patch/src/parser.rs:203-224 | in a here-document the bad third line of the text is reported as the second |
| ReportedLines.BadUpdateIsReportedOneOff | code-rs/apply-patch/src/parser.rs:412-420 | for every such update, with or without a new path, blank lines and anything behind, the number is one too high |
| PatchFiles.FileSystem.RemoveFile | code-rs/apply-patch/src/lib.rs:668-669 | removing a file fails exactly if there is none |
| PatchFiles.ApplyHunkToFiles | code-rs/apply-patch/src/lib.rs:654-698 | one hunk changes the files as specified, or not at all |
| PatchFiles.ApplyHunksToFiles | code-rs/apply-patch/src/lib.rs:645-705 | the run of all hunks and its summary; an empty patch is refused |
| PatchFiles.VerifyHunks | code-rs/apply-patch/src/lib.rs:331-374 | the announced changes are those against the files before any hunk is applied |
| PatchFiles.AppliedAsAnnounced | code-rs/apply-patch/src/lib.rs:254-262 | with pairwise distinct paths a patch applies if and only if it verifies and has a hunk, and changes the files by exactly what was announced |
| PatchEffects.AppliedIffEffect | code-rs/apply-patch/src/lib.rs:654-698 | a hunk is applied exactly with the effect it describes: contents added, file gone, or the patched text at the old or new path, all else as it was |
| PatchEffects.FailsIff | code-rs/apply-patch/src/lib.rs:654-698 | it fails exactly if there is no file to delete or update, or a chunk has no place in it |
| PatchEffects.RunHasCourse | code-rs/apply-patch/src/lib.rs:653-699 | hunks are applied one after the other, each to what the ones before have left |
| PatchEffects.DistinctRunShows | code-rs/apply-patch/src/lib.rs:645-705 | with pairwise distinct paths every hunk's file ends up with the text the hunk gives to it, read against the files as they were, and no other file changes |
| PatchEffects.UpdateWritesSplice | code-rs/apply-patch/src/lib.rs:677-696 | an update writes the rendered splice of the file's lines, unless regions clash |
| PatchEffects.AnnouncedIff | code-rs/apply-patch/src/lib.rs:331-374 | what is announced for a hunk: the contents added or deleted, or the patched text and the new path |
| PatchEffects.AnnouncementFailsIff | code-rs/apply-patch/src/lib.rs:331-374 | there is nothing to announce exactly if there is no file to read, or a chunk has no place in it |
| PatchEffects.AnnouncementCovers | code-rs/apply-patch/src/lib.rs:331-374 | every path a hunk is for is announced, with the last hunk for it, against the files as they are |
| PatchEffects.AnnouncementFails | code-rs/apply-patch/src/lib.rs:331-374 | verification fails with the first hunk for which there is nothing to announce |
| PatchFiles.EmptyPatchVerifiesAndIsRefused | code-rs/apply-patch/src/lib.rs:645-648 | a patch without hunks verifies and is refused, with no file changed |
| PatchFiles.UpdatedByIsUnique | code-rs/apply-patch/src/lib.rs:254-262 | the announcement determines the resulting files |
| PatchFiles.MoveOntoItselfDeletes | code-rs/apply-patch/src/lib.rs:679-691 | a move onto itself deletes the file, against the announcement |
| PatchFiles.OneHunkAsAnnouncedIff | code-rs/apply-patch/src/lib.rs:672-696 | a single hunk does what was announced if and only if it does not move a file onto itself |
| PatchFiles.FailureKeepsEarlierHunks | code-rs/apply-patch/src/lib.rs:653-699 | a failing run leaves exactly the hunks before the failing one applied |
| PatchFiles.SummaryListsEveryHunk | code-rs/apply-patch/src/lib.rs:650-704 | the three lists are the hunks' paths of their kind, in order, a moved file under its new path |
| PatchedText.ParsedPatchKeepsLineEndings | code-rs/apply-patch/src/lib.rs:718-778 | for every parsed patch: CRLF files keep their line endings, and every file ends terminated |
| RequestIds.InternalIdIsInjective | code-rs/app-server/src/lib.rs:312-317 | internal ids differ for different connections or ordinals |
| OutgoingRouting.RequestRoutes.RewriteResponseRouting | code-rs/app-server/src/lib.rs:377-438 | a reply gets its client's id and address back and uses up its route |
| AppServerSteps.NotificationIsBroadcast | code-rs/app-server/src/transport.rs:500-526 | a notification goes to exactly the clients that are known, initialised, have not opted out and can be written to, as the last entry of their queues |
| AppServerSteps.RequestIsBroadcast | code-rs/app-server/src/transport.rs:500-526 | a broadcast request goes to all that are initialised |
| AppServerSteps.MessageIsAddressed | code-rs/app-server/src/transport.rs:483-499 | an addressed message goes to its connection only, initialised or not, unless it is a notification opted out of |
| AppServerSteps.ReplyGoesHome | code-rs/app-server/src/lib.rs:381-396 | a reply with a route goes to the route's connection only, under the request's own id, and uses up that route only |
| AppServerSteps.ReplyWithoutRoute | code-rs/app-server/src/lib.rs:398-434 | one without goes nowhere if its id is internal, else to all that are initialised |
| OutgoingRouting.RequestRoutes.RemoveForConnection | code-rs/app-server/src/lib.rs:444-450 | exactly the routes of a connection are removed |
| OutgoingRouting.OutboundRouter.RouteOutgoingEnvelope | code-rs/app-server/src/transport.rs:477-528 | the router's loop sends to all targets and returns, without repeats, the connections it dropped |
| OutgoingRouting.OutboundRouter.SendToAll | code-rs/app-server/src/transport.rs:516-524 | the broadcast loop, in any order of the targets |
| OutgoingRouting.RoutedPointwise | code-rs/app-server/src/transport.rs:477-553 | a connection is dropped iff it is a target that cannot be written to; a remaining target gains exactly the message; others stay |
| OutgoingRouting.WebsocketsNeverWait | code-rs/app-server/src/transport.rs:539-547 | a full websocket queue never makes the router wait |
| AppServer.Processor.HandleEvent | code-rs/app-server/src/lib.rs:235-353 | one iteration of the processor loop, and the id handed to the handler |
| AppServer.ClosingTwice | code-rs/app-server/src/lib.rs:267-301 | handling a connection's end twice is handling it once |
| AppServerSteps.RequestIsTakenOrRefused | code-rs/app-server/src/transport.rs:418-446 | a request is queued if there is room, else its client is told of the overload and the request goes no further |
| AppServerSteps.RequestGetsRoute | code-rs/app-server/src/lib.rs:302-343 | a request from a known connection gets the next internal id and a route back, one from an unknown connection nothing |
| AppServerSteps.EndIsHandled | code-rs/app-server/src/lib.rs:267-301 | a connection's end is handled at once with websockets, put off with stdio |
| AppServerSteps.EndIsFinished | code-rs/app-server/src/lib.rs:268-301 | with stdio it is handled when none of the connection's routes is left |
| AppServerSteps.NoticeIsFollowed | code-rs/app-server/src/lib.rs:158-183 | the router knows a connection from its opening notice to its closing notice |
| AppServerSafety.NewKeyIsNew | code-rs/app-server/src/lib.rs:312-328 | inserting a route never overwrites one |
| AppServerSafety.PipelineKept | code-rs/app-server/src/lib.rs:302-343 | every step keeps queued requests, routes and ordinals consistent |
| AppServerSafety.LogsKept | code-rs/app-server/src/lib.rs:377-438 | every step keeps each client's queue to replies of its own requests, one each |
| AppServerRuns.LifecycleKept | code-rs/app-server/src/lib.rs:153-196 | every step keeps processor and router agreed on which connections are open |
| AppServerRuns.InvHolds | code-rs/app-server/src/lib.rs:149-359 | the invariant holds at the end of every run |
| AppServerRuns.OneReplyPerRequest | code-rs/app-server/src/lib.rs:306-438 | in every run, whatever handlers send, each client request gets at most one reply in its place, to its own connection and under its own id; a reply in no request's place carries no internal id |
| AppServerReplies.RepliesAreCounted | code-rs/app-server/src/lib.rs:306-438 | when handlers reply only under ids the server made up, each client is sent at most as many replies under an id as it has sent requests under it |
| AppServerRuns.LateReplyIsDropped | code-rs/app-server/src/lib.rs:397-430 | second replies and replies after the connection closed reach nobody |
| AppServerRuns.RequestTable | code-rs/app-server/src/lib.rs:228-328 | in every run routes name open connections under ids given out before |
| AppServerRuns.RunProgress | code-rs/app-server/src/transport.rs:418-444 | a request refused as overload is never accepted later, an answered one never answered again |
| AppServerRuns.EndOfInputLosesNoReply | code-rs/app-server/src/lib.rs:268-296 | with stdio, when a connection is done all accepted requests are answered and the answers queued, unless the writer is gone |
| AppServerReplies.EndOfInputAnswersAll | code-rs/app-server/src/lib.rs:268-296 | with stdio, when a client's end of input has been dealt with each of its requests has been refused as overload or answered into its queue, unless its writer is gone |
| AppServerRuns.StdioFailuresKept | code-rs/app-server/src/transport.rs:530-552 | with stdio the router gives up only connections whose writer is gone, never one that is slow |
| AppServerRuns.CloseNoticeComesLast | code-rs/app-server/src/lib.rs:282-290 | the router hears of a connection's end only then |
| AppServerRuns.QueuesStayBounded | code-rs/app-server/src/transport.rs:41-42 | no queue exceeds its capacity in any run |
| AppServerRuns.RequestIsAnswered | code-rs/app-server/src/lib.rs:306-395 | the normal course of a request, from connecting to the answer under its own id |
| Approvals.FromWire | code-rs/app-server/src/code_message_processor.rs:1865-1875 | a decision approves exactly if the client's does |
| Approvals.DecisionIff | code-rs/app-server/src/code_message_processor.rs:1822-1875 | which outcomes of a wait lead to which decision |
| Approvals.OutgoingMessageSender.SendRequest | code-rs/app-server/src/outgoing_message.rs:94-137 | a request is issued under a new id with its owner, and given up if it cannot be queued |
| Approvals.OutgoingMessageSender.NotifyClientResponse | code-rs/app-server/src/outgoing_message.rs:144-181 | a response settles a callback only for a connection that may use it |
| Approvals.OutgoingMessageSender.NotifyClientError | code-rs/app-server/src/outgoing_message.rs:187-222 | an error drops the callback under the same condition |
| Approvals.OutgoingMessageSender.ClearCallbacks | code-rs/app-server/src/outgoing_message.rs:224-231 | exactly the callbacks of a connection are dropped |
| Approvals.OnApprovalResponse | code-rs/app-server/src/code_message_processor.rs:1815-1863 | one operation is submitted, for the call and turn that asked, with the decision that the answer, its absence or its malformedness leads to |
| Approvals.DecisionsAreAsSent | code-rs/app-server/src/code_message_processor.rs:1865-1875 | in every run a decision for the session, one to abort and one for this once is submitted only if the asked connection sent just such a one for that request |
| Approvals.AnswerIsSubmitted | code-rs/app-server/src/code_message_processor.rs:1815-1863 | an answer to a pending question ends the wait and is submitted, once |
| Approvals.ApprovalIsSubmitted | code-rs/app-server/src/code_message_processor.rs:1463-1538 | the normal course of an approval, from the question to the operation |
| Approvals.SettlingEndsOne | code-rs/app-server/src/outgoing_message.rs:144-222 | which callback a message settles, and that it touches no other |
| Approvals.ClearingEndsOwn | code-rs/app-server/src/outgoing_message.rs:224-231 | a connection's end gives up its own callbacks and no other |
| Approvals.IssuingAddsOne | code-rs/app-server/src/outgoing_message.rs:94-137 | a request adds one callback under the next id, pending if it was queued |
| Approvals.ApprovalComesFromItsOwner | code-rs/app-server/src/code_message_processor.rs:1463-1538 | in every run an approval is submitted only if the asked connection itself sent that approving result for that request |
| Approvals.OneDecisionPerRequest | code-rs/app-server/src/code_message_processor.rs:1652-1692 | in every run no request leads to two decisions, and each goes to its call |
| Approvals.OthersChangeNothing | code-rs/app-server/src/outgoing_message.rs:150-166 | messages of other connections change no callback |
| Approvals.EverythingElseDenies | code-rs/app-server/src/code_message_processor.rs:1822-1851 | errors, cleared callbacks and malformed results end in a denial |
| Approvals.OutcomeIsFinal | code-rs/app-server/src/outgoing_message.rs:150-181 | a settled wait keeps its outcome for the rest of every run |
| TopLevelSplit.ScanState.Observe | code-rs/app-server-protocol/src/export.rs:804-839 | one character moves the scanner as specified |
| TopLevelScan.DepthIsBalance | code-rs/app-server-protocol/src/export.rs:804-858 | outside strings, the depth of each of the four kinds of bracket is the number opened less the number closed |
| TopLevelScan.StringIsSkipped | code-rs/app-server-protocol/src/export.rs:804-858 | a string in either kind of quotes is passed over whole, escaped quotes and brackets included |
| TopLevelSplit.SplitTopLevelMulti | code-rs/app-server-protocol/src/export.rs:675-694 | the loop yields the trimmed, non-blank pieces between top-level delimiters |
| TopLevelScan.PiecesRebuildText | code-rs/app-server-protocol/src/export.rs:675-694 | the pieces with delimiters put back between them are the text |
| TopLevelScan.PartsOfConcat | code-rs/app-server-protocol/src/export.rs:675-694 | the parts are taken from the pieces one by one, in order |
| TopLevelScan.PartsOfPiece | code-rs/app-server-protocol/src/export.rs:680-693 | a piece gives its text without the whitespace around it, or nothing if it is blank |
| TopLevelSplit.SplitYieldsPartList | code-rs/app-server-protocol/src/export.rs:675-694 | every part has no top-level delimiter, and all but the last close their brackets and strings |
| TopLevelSplit.KeptPartsSplitAgain | code-rs/app-server-protocol/src/export.rs:239-247 | any parts kept in order, joined by a padded delimiter, split into themselves again |
| TopLevelSplit.FilterIsExactAndStable | code-rs/app-server-protocol/src/export.rs:297-306 | the filters drop exactly the parts they are meant to, and a second run changes nothing |
| TopLevelSplit.UsedFiltersAreExactAndStable | code-rs/app-server-protocol/src/export.rs:239-306 | the same for the arms and the fields filter with their own delimiters and joiners |
| TopLevelSplit.PartsKeptIffNeutral | code-rs/app-server-protocol/src/export.rs:680-687 | kept parts split into themselves, for all texts and paddings, if and only if no delimiter is a quote or an opening bracket |
| TopLevelSplit.DelimiterThatOpens | code-rs/app-server-protocol/src/export.rs:680-687 | each such delimiter, doubled, is a part, and alone is none |
| CanonicalJson.CanonicalizeJson | code-rs/app-server-protocol/src/schema_fixtures.rs:94-150 | the recursion with its loops computes the canonical form |
| CanonicalOrder.CanonicalArray | code-rs/app-server-protocol/src/schema_fixtures.rs:94-134 | an array is sorted exactly if all its elements are scalars or objects with a reference or title: booleans, numbers, null, references, strings, titles, each by its text and then as serialised; any other keeps its order |
| CanonicalOrder.CanonicalObject | code-rs/app-server-protocol/src/schema_fixtures.rs:135-143 | an object's members stand in ascending order of their keys |
| CanonicalOrder.CanonicalStrings | code-rs/app-server-protocol/src/schema_fixtures.rs:94-134 | an array of strings is its ascending rearrangement |
| CanonicalOrder.KeyedIffSortable | code-rs/app-server-protocol/src/schema_fixtures.rs:152-169 | which elements have a sort key |
| CanonicalOrder.LessIffAscending | code-rs/app-server-protocol/src/schema_fixtures.rs:117-125 | ascending means a proper beginning, or the smaller character at the first difference |
| CanonicalJson.SortKeyOfCanonical | code-rs/app-server-protocol/src/schema_fixtures.rs:152-169 | a value's sort key is that of its canonical form |
| CanonicalJson.SameCanonicalIff | code-rs/app-server-protocol/src/schema_fixtures.rs:94-150 | two values have the same canonical form if and only if they differ only by the order of members and of arrays whose elements all have a key |
| CanonicalJson.CanonicalIsStable | code-rs/app-server-protocol/src/schema_fixtures.rs:94-150 | canonicalising twice is canonicalising once |

## Left out

- PatchFiles.AppliedAsAnnounced: asks for pairwise distinct paths; when a path is named twice it depends on the contents whether announcement and result still agree, so there the exact condition is given for single hunks only.
- TopLevelSplit.FilterIsExactAndStable: is about the text that is split, not the file around it; the import pruning and the recognition of methods and property names, which decide what to keep, are not part of this model.
- PatchFiles.VerifyHunks: announces the new contents without the unified diff, which rests on a foreign library.
- AppServer.Processor.HandleEvent: stops where the handler is called, and does not clear the callbacks of a closed connection; Approvals models that as a step of its own.
- CanonicalJson.SameCanonicalIff: takes serialisation as an injective function of the value instead of modelling its text.
- Numbers: ordinals, request ids, line numbers and bracket depths are unbounded; the 64- and 32-bit counters of the program would wrap.
- Real files: errors other than a missing file, directories, permissions and differently written paths to one file; the file system is a map from resolved path to text, and the process is taken to run in the directory the paths are resolved against.
- The extraction of a patch from a shell script: it rests on a foreign library.
- AppServer: sockets, serialisation, scheduling and timeouts; one loop iteration is one step, so a router waiting for room in a stdio queue is a step that is not yet enabled. The processor's exit after the last stdio connection is not a step; the model only has more runs for it.
- AppServer: handlers may send any reply to any id at any time, any number of times, save where a statement limits the ids; what they compute is not modelled. Messages to clients carry a result text or an error code, no further data.
- Approvals: tool calls and user input requests share the callback table, their answers are not modelled further. The table and the routes of client requests are separate systems of steps, as they share no state but the queue to the router.
- Config edits on TOML trees, the schema bundle, authentication, rate limits and the remaining mappers: they would only add easier members.
