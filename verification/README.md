# Verified models of pr-review-go

This project models, in Dafny, the protocols and algorithms of the pull request review service that are hard to get
right, and proves what they are for. Code that updates state step by step is a class or a method with loops, proved
against a specification function; the promises are lemmas about that specification, over every input or every run.

- **Diffs.** `Text` and `TextLaws` (string operations, and what they mean character by character), `Diff` (the stateful
  parser), `FileHeaders` (what it knows of a file), `Engine` (the second, independent reader of added lines), `AddedLines`
  (which lines both report), `Agreement` and `Deletions` (when the two readers agree), `Pieces`, `Windows`, `WindowLaws`,
  `Packing` and `Completeness` (the next-fit packer, the windows it returns, and what it keeps), `RoundTrip` (a window
  parses back to itself), `Coverage` and `CoverageSafety` (the ledger, and what a Full verdict means).
- **Durable publication.** `OwnedComments` (the paged absence scan), `Publication` (the store, the remote comments and
  the log of events), `Publisher` (`ReconcileOutput` and `PublishStatus`; a crash may follow every step, and a remote
  write may take effect while its response is lost), `Decisions` (the at-most-once ledger of review decisions).
- **Resources.** `RequestGate` (permits and spaced starts), `RetryBudget` (the budget operations share), `Retry`
  (classification, delays, the bounded loop), `Sweep` (fairness of the resumable maintenance sweep), `Maintenance` (its safety, and reclamation).
- **Algorithms.** `TreeListing` (breadth first against depth first), `FindingMatch` (prior findings), `History`
  (UTF-8-safe compression), `Changelog` (insertion into the Unreleased section).

## Where the code and what is said of it differ

Each of these is proved: a family of inputs in which it happens, and the condition under which it does not.

- The engine counts the `+++ /dev/null` line of a deleted file as an added line of the file named before it. On
  well-formed diffs with each file named once and ascending hunks the readers agree exactly when no such line follows a
  hunk without a `+++ b/` line in between, and exactly then no suggestion is posted on a line no hunk adds
  (`Deletions.AgreeIffNoDeletionAfterHunk`, `Deletions.SuggestionsOnAddedIff`, `Deletions.DeletedFileDisagrees`).
- `Windows` drops the omissions recorded after its last window, and files without hunks, without setting `Truncated`,
  contrary to the comment on `Window` (`Completeness.SilentLossIff`, `Completeness.CompleteUnflaggedIff`,
  `Packing.OversizedLastHunkIsLostSilently`, `Completeness.RenameIsDropped`).
- A comment deleted while a scan is between two pages can hide an owned comment, so `absent` is no proof then
  (`OwnedComments.AbsentIsWrongIff`); with more than 2000 comments before the owned one a scan never decides (`OwnedComments.StillScanDecides`).
- A decision claimed for a host with surrounding white space is filed under the trimmed host but recorded under the
  host as given, so it is posted and stays claimed for good (`Decisions.HeldForGoodIff`, `Decisions.UntrimmedHostNeverSettles`).
  No caller in the repository gives such a host: `MakePRKey` trims it (pkg/server/store.go:68) and is called with the
  constant `github.com` (pkg/server/server.go:482 and 646, pkg/server/dashboard.go:177).
- A server error reported only as text repeats a write when its text names a rate limit, as `429` anywhere in it does
  (`Retry.WriteRetriedIff` is the exact condition, `Retry.ServerErrorTextRepeatsWrite` the family);
  a Retry-After beyond 9223372036 seconds overflows (`Retry.AskedWaitKeptIff`), and a negative wait is exactly what lets
  operations sleep more than their budget (`RetryBudget.ExceededIffNegative`, `Retry.OverflowRefundsBudget`).
- Maintenance does not treat an intent in status `superseding` as unfinished (`Maintenance.UnfinishedIntentLostIff`,
  `Maintenance.SupersedingIntentLost`).
- A colon in a file name can give two different findings one identity (`FindingMatch.CanShareIff`,
  `FindingMatch.ColonMixesIdentities`).
- Saving the ID of a status comment overwrites the job row with the caller's copy when the read of the row fails, which
  the comment above it means to avoid (`Publisher.OnlyIDPatchedIff`, `Publisher.StaleCopyRequeues`).

## Assumptions

- bbolt transactions are atomic map updates; `CommitPublicationOutcome` and `CommitSupersededOutcome` are single ones.
- At most one `ReconcileOutput` runs per marker. A remote create has been applied or not by the time the call ends.
- Digests do not collide, and marker and key formatting is injective.
- Only the service writes, edits or deletes comments as its actor, other comments of that actor do not carry the
  marker, no comment is deleted during a scan, and the remote stores bodies as they are sent.
- Only the service touches the job row and the saved intent of its marker, and the body of a review intent is saved
  once: a saved body is reconciled instead of generated again (pkg/server/jobs.go:230-238).
- Retry-budget totals are at most half an int64, about 146 years; pkg/config/config.go:177-179 caps them at 30 minutes.
  Base delays up to MAX/1024 and longest delays up to MAX/2 nanoseconds are `Sane`; the configuration allows 10 seconds
  and 5 minutes. `Do` itself is stated for every policy.
- Of a job row maintenance sees status and times only; that `Maintenance.RecoverReview` and `Maintenance.DenyJob` apply
  to a running review and to an explicit command is for the caller to see to.
- No two job rows share an ID, or the comment that asked for them, where `Maintenance.RecentJobKept` is about them.
- The gate's clock is monotone and its timer never early.
- A tree name always stands for the same tree.

## Model

| member | source | states |
|---|---|---|
| Text.SplitJoin | pkg/diff/diff.go:137 | splitting the joined text of any non-empty list of newline-free lines gives those lines back: the two directions of the line model every reader of diffs uses |
| Diff.Parse | pkg/diff/diff.go:110-378 | the line loop computes the fold of the line step over the text, cut at the byte cap; caps, malformed headers and truncation included. What that fold yields is said of the text itself by `AddedLines.ParsedAdds`, `AddedLines.ParserAdds`, `FileHeaders.ParsedFilesTold` and `CoverageSafety.ParseAccounts` |
| Diff.ResolveOptions | pkg/diff/diff.go:92-107 | whatever the options, every cap is positive, so no text is parsed without a bound; a positive cap is kept, and without options they are 2 MiB, 2000 files and 20000 hunks |
| Diff.ParseLinesConcat | pkg/diff/diff.go:137-378 | parsing is compositional: the state after two stretches of lines is the state after the first, carried through the second |
| Diff.LastNewline | pkg/diff/diff.go:129-134 | the last newline before the byte cap, where the cut snaps to: none follows it, and without one there is no newline at all |
| Diff.CutIs | pkg/diff/diff.go:120-136 | a text over the byte cap is read up to its last newline within the cap, the very first character aside, and up to the cap if there is none |
| TextLaws.AtoiItoa | pkg/diff/diff.go:408-426 | reading undoes writing for every number an int64 holds, with either sign, and nothing larger is read; the decimal text of a number is fixed by the place values of its digits (`TextLaws.ItoaIs`) |
| TextLaws.DigitsAre | pkg/diff/diff.go:408-426 | exactly the texts of decimal digits are read as numbers, and each as the sum of its digits by their places |
| TextLaws.AtoiReadsDigits | pkg/diff/diff.go:408-426 | whatever is read as a number is an optional sign and at least one digit, and the value is that of the digits |
| TextLaws.IndexIsFirst | pkg/diff/diff.go:387-391 | a search yields the first place where the text sought stands, and none only if it stands nowhere |
| TextLaws.FoldsIff | pkg/github/client.go:671-676 | two logins are equal when folded exactly if, letter by letter, they are the same or the two cases of one letter |
| TextLaws.TrimSpaceIs | pkg/changelog/changelog.go:136 | trimming takes away the white space on both sides of a text, and nothing else |
| TextLaws.SpaceIs | pkg/changelog/changelog.go:136 | white space is the space and the five control characters from tab to carriage return |
| TextLaws.LowerIs | pkg/reviewer/decision.go:45-48 | lower case changes nothing but the case of letters, and leaves no capital |
| FileHeaders.ParsedFilesTold | pkg/diff/diff.go:176-298 | every file of every parsed inventory is what its header lines say: new, deleted, renamed or binary exactly if a line of that kind is among them; named by the last line that names it, else by its first; with the modes of the last lines that give them; a mere mode change exactly with both modes, no hunk and no binary content |
| FileHeaders.GitLineNames | pkg/diff/diff.go:176-206 | the first line of a file gives its name, and its old name if that differs |
| FileHeaders.OldNameRead | pkg/diff/diff.go:278-288 | the line of the old side gives a file an old name exactly if it has none, is named, and the line names another |
| FileHeaders.SimilarityRead | pkg/diff/diff.go:253-260 | the percentage of a similarity line is the number written in it |
| FileHeaders.ParsedHunksNumbered | pkg/diff/diff.go:329-345 | in every parsed inventory the hunks of a file have its path and their place as ID, so no two of them share one |
| Engine.ChangedPRLines | pkg/reviewer/engine.go:662-702 | the engine's own reader of added lines computes the fold of its line step; `AddedLines.EngineAdds` says of every text which lines that reports |
| Engine.BuildInlineSuggestions | pkg/reviewer/engine.go:648-660 | the suggestions are exactly those of the findings that may be posted, in order |
| Engine.SuggestionsArePostable | pkg/reviewer/engine.go:646-660 | a suggestion is made exactly for each finding that stands on a line of the map in use and whose code is not blank and holds no fence, whatever the map |
| Engine.SuggestionIs | pkg/reviewer/engine.go:648-660 | a finding is posted exactly if, without the white space around it, its code is not empty and holds no fence, and it stands on a line of the map; the suggestion carries its path and line, and that code in a fence |
| AddedLines.HeaderReads | pkg/diff/diff.go:380-428 | both readers take from a hunk header exactly the decimal numbers written in it, a count that is not written being one, as far as 64 bits go |
| AddedLines.HeaderNeedsSigns | pkg/diff/diff.go:394-398 | the parser reads no hunk header whose ranges lack their signs |
| AddedLines.BodyAdds | pkg/diff/diff.go:345-366 | of the lines of a hunk that starts at c, line l is added if and only if some line starts with `+` and exactly l - c of the lines before it are on the new side |
| AddedLines.ParsedAdds | pkg/diff/diff.go:300-366 | for every hunk of every parsed inventory, by the number c written in its header: its added lines are exactly those, and its four numbers are those of the header |
| AddedLines.FilesMerged | pkg/diff/diff.go:431-446 | a line of a file is in the map exactly if it is an added line of a hunk of a file with that path |
| AddedLines.EngineAdds | pkg/reviewer/engine.go:662-702 | for every text: the engine reports line l of file p if and only if a line of the text that starts with `+` stands under the last `+++ b/p` line and in the hunk a header opens at c, with exactly l - c lines counted between them |
| AddedLines.ParserAdds | pkg/diff/diff.go:110-378 | on every well-formed diff within the caps that deletes no file, the parser's added lines are exactly the same lines of the text |
| Agreement.ChangedPRLines | pkg/diff/diff.go:431-446 | the parser's map of added lines is the merge of the added lines of all hunks |
| Agreement.HeadersAgree | pkg/diff/diff.go:380-428 | both readers take the same start from a canonical hunk header |
| Agreement.StepAgrees | pkg/reviewer/engine.go:667-700 | one line of a well-formed diff keeps the engine's lines equal to the parser's lines plus the strays so far |
| Agreement.ReadersAgreeUpToStrays | pkg/reviewer/engine.go:662-702 | on every well-formed diff within the caps the engine reports exactly the parser's added lines and, besides, one stray for each deleted file that follows a hunk |
| Agreement.ReadersAgree | pkg/reviewer/engine.go:662-702 | without a deleted file the engine and the parser agree on every well-formed diff within the caps |
| Deletions.AgreeIffNoDeletionAfterHunk | pkg/reviewer/engine.go:662-702 | of a well-formed diff within the caps, with each file named once and the hunks of a file ascending: the two readers agree if and only if no `+++ /dev/null` header line follows a hunk without a `+++ b/` line in between; a condition on the lines of the text alone |
| Deletions.StraysIff | pkg/reviewer/engine.go:667-700 | the engine records a line the parser does not see exactly when there is such a `+++ /dev/null` line |
| Deletions.SuggestionsOnAddedIff | pkg/reviewer/engine.go:646-702 | under the same conditions: whatever the findings, every suggestion targets a line some hunk of the diff adds, if and only if there is no such `+++ /dev/null` line |
| Deletions.StrayPastAdded | pkg/reviewer/engine.go:667-700 | the stray is filed under the file named last, and when the last hunk belongs to that file it lies past all its added lines, so it cannot be an added line by chance |
| Deletions.WithinCaps | pkg/diff/diff.go:110-378 | a text within the byte cap, with no more lines than files and hunks allowed, is never truncated |
| Deletions.DeletedFileDisagrees | pkg/reviewer/engine.go:646-702 | the family of whole diffs on which the readers differ and a suggestion can be posted on a line no hunk adds: any file with one hunk, then any deleted file with one hunk |
| Deletions.SmallestDisagreement | pkg/reviewer/engine.go:646-702 | one such diff of eleven lines, under the default options |
| Windows.Windows | pkg/diff/diff.go:480-615 | the window loop computes the windows of the packing specification. Of the windows returned: each has its position as index, a size that is that of its content and within the budget, and a truncation flag exactly if the inventory is truncated, there are several windows, or it has omissions; its content is, line by line, the whole file headers and hunks of its files and hunks in order; over all windows the hunks are those of files with text minus dropped ones, which do not fit beside their header; with distinct paths each file header stands once, right before the first hunk kept; and a window that starts at a file header parses back to its own hunk headers and added lines |
| Windows.PackOneFile | pkg/diff/diff.go:516-590 | one file's pass of the loop is one step of the packing specification |
| Windows.PackOneHunk | pkg/diff/diff.go:543-589 | one hunk is placed, opens a new window, or is rejected as oversized, as specified |
| WindowLaws.WindowsLaidOut | pkg/diff/diff.go:480-615 | the windows of the specification have all these properties, for every inventory and budget |
| WindowLaws.PackFilesHead | pkg/diff/diff.go:539-586 | with distinct paths, each file header is written once: right before the first of its hunks that is kept, whatever windows it is spread over |
| Packing.WindowsSound | pkg/diff/diff.go:480-615 | for every inventory and budget: each window's content is within the budget; the windows' hunks in order are the hunks with text minus exactly the rejected ones; a rejected hunk really does not fit and is recorded, a placed one fits; binary and mode-only files are recorded |
| Packing.NextFit | pkg/diff/diff.go:543-592 | if every hunk fits with its file header, two consecutive windows together exceed the budget, which bounds the number of windows by the bytes they hold |
| Packing.OmissionsConserved | pkg/diff/diff.go:511-604 | the omissions of the returned windows followed by the lost tail are all omissions in order |
| Packing.OversizedLastHunkIsLostSilently | pkg/diff/diff.go:562-632 | a family in which omissions are lost: an oversized hunk after the last window was closed is dropped without any flag, contrary to the comment on Window |
| Completeness.LostIffLastRejected | pkg/diff/diff.go:562-604 | omissions are lost if and only if the last hunk offered was rejected as oversized and some earlier hunk was placed |
| Completeness.LastHunkDecides | pkg/diff/diff.go:562-577 | said of sizes, against the guard: a last hunk larger than the budget is lost if any hunk fits with its file header; a last hunk that fits with its file header loses nothing |
| Completeness.CompleteUnflaggedIff | pkg/diff/diff.go:480-632 | the windows hold every hunk, list every file and carry no truncation flag if and only if the inventory is not truncated and has no omission, every file has text, all of it fits into one window, and every path is that of a file with hunks |
| Completeness.SilentLossIff | pkg/diff/diff.go:480-632 | something is missing and no flag says so if and only if the inventory is whole and one of two things holds: at some hunk, all files before it have text and everything before it fits into one window, while the hunk fits neither there nor with its file header in a window of its own, and no later hunk fits with the header it would get; or all of it fits into one window and some path has no hunk. Both are about inventory and budget alone |
| Completeness.DistinctNamed | pkg/diff/diff.go:529-531 | with distinct paths the last condition says that every file has hunks |
| Completeness.RenameIsDropped | pkg/diff/diff.go:529-531 | the family of parsed diffs in which a file is dropped: a pure rename parses to one file without an omission, and its only window is empty, lists no file and carries no flag |
| Completeness.OneWindowSize | pkg/diff/diff.go:535-560 | with distinct paths, that whole text is as long as the file headers of the files with hunks and all hunks together |
| RoundTrip.ParsedHunksWell | pkg/diff/diff.go:300-378 | every hunk of every parsed inventory keeps its header line, lines that are lines of a hunk body, and the added lines those lines give |
| RoundTrip.SplitTerminated | pkg/diff/diff.go:535-544 | lines each ended by a newline split into these lines and one empty line |
| RoundTrip.GroupedTextReadsBack | pkg/diff/diff.go:110-378 | the text of hunks standing under their own file headers parses back to their headers in order and, file by file, their added lines, in spite of the trailing empty line |
| RoundTrip.WindowReadsBack | pkg/diff/diff.go:480-615 | for every inventory of well-formed hunks with distinct paths, as every parsed one is by `RoundTrip.ParsedHunksWell`: a window that does not start in the middle of a file parses back to its own hunk headers and added lines |
| Coverage.CoverageLedger.constructor | pkg/diff/diff.go:658-728 | the new ledger lists a skipped entry per hunk, per file without hunks and per omission, indexed by ID and by file |
| Coverage.CoverageLedger.AddFiles | pkg/diff/diff.go:663-712 | the entries of all files are appended and indexed |
| Coverage.CoverageLedger.AddOmissions | pkg/diff/diff.go:714-726 | the entries of all omissions are appended and indexed |
| Coverage.CoverageLedger.AddEntry | pkg/diff/diff.go:730-737 | an added entry is appended, becomes the latest of its ID and is listed for its file |
| Coverage.EntriesAre | pkg/diff/diff.go:671-726 | what a new ledger says of a file without text or hunks, and of an omission: ID, file and reason |
| Coverage.OmissionsApart | pkg/diff/diff.go:714-726 | two omissions that name no hunk never share an ID, so neither hides the other from the index |
| Coverage.CoverageLedger.MarkExamined | pkg/diff/diff.go:739-747 | exactly the latest entry of the ID becomes examined |
| Coverage.CoverageLedger.MarkFileExamined | pkg/diff/diff.go:749-760 | exactly the file's entries that are no omissions become examined, every other entry stays |
| Coverage.CoverageLedger.MarkSkipped | pkg/diff/diff.go:762-770 | exactly the latest entry of the ID becomes skipped with the reason |
| Coverage.CoverageLedger.MarkFileSkipped | pkg/diff/diff.go:772-780 | exactly the file's entries become skipped with the reason |
| Coverage.CoverageLedger.Counts | pkg/diff/diff.go:827-858 | the numbers of all, examined and other entries |
| Coverage.CoverageLedger.IsComplete | pkg/diff/diff.go:860-873 | complete if and only if every entry is examined |
| Coverage.AllExaminedByCount | pkg/reviewer/types.go:103-106 | every entry is examined if and only if the examined entries are as many as all entries |
| Coverage.CoverageFromLedger | pkg/reviewer/types.go:95-138 | Full if and only if every entry is examined; the examined IDs in order; the skipped and the omitted items are exactly the unexamined entries with their file and reason, told apart by the text of the ID |
| Coverage.OmissionEntryIff | pkg/reviewer/types.go:140-170 | an entry is listed as an omission exactly if its ID is empty, starts with `omission` and goes on, or holds one of four marks |
| Coverage.ReportAccountsForAll | pkg/reviewer/types.go:108-137 | the three lists of a report together have one item per ledger entry |
| CoverageSafety.ParseAccounts | pkg/diff/diff.go:110-378 | for every text and every options: totals are within the caps and count the files and hunks; hunks are a prefix of the good hunk headers of the text; unless the file or the hunk cap was reached (which an omission then names) every good header of the text read is a hunk and every malformed one an omission, also when the byte cap cut the text; a truncated inventory has an omission |
| CoverageSafety.StartsSkipped | pkg/diff/diff.go:658-728 | no entry of a new ledger is examined |
| CoverageSafety.MarksFlip | pkg/diff/diff.go:749-760 | after any sequence of file marks an entry is examined if and only if it was, or its file was marked and its ID is no omission's |
| CoverageSafety.CompleteIff | pkg/reviewer/types.go:95-106 | after any sequence of file marks all entries are examined if and only if there is no omission and every file is covered by its mark |
| CoverageSafety.FullCoverage | pkg/reviewer/types.go:95-138 | end to end: Full if and only if parsing left no omission and every file is covered; and then nothing was cut, every `@@` line of the text is a hunk and none was malformed |
| OwnedComments.FindOwnedComment | pkg/github/client.go:637-701 | the paged loop computes the scan of the lists seen at the page reads; and by user ID, login and body alone: it finds the first comment shown, a hundred to a page and at most twenty pages, that is by the actor and carries the marker; it is absent exactly if a list ends with none shown, and otherwise undecided. A comment of anyone else is never found, whatever its body |
| OwnedComments.OwnsIff | pkg/github/client.go:663-681 | a comment is owned exactly if its user has the actor's positive ID or a login that folds to the actor's non-empty login, and the marker stands in its body |
| OwnedComments.StillVerdict | pkg/github/client.go:637-701 | on a list that does not change: absent exactly if it holds at most 2000 comments and none is ours, and its first comment of ours is found if it is among the first 2000 |
| OwnedComments.AbsentIsWrongIff | pkg/github/client.go:653-701 | while comments are deleted, a decided scan misses an owned comment if and only if deletions carry it back across a page boundary between two page reads |
| OwnedComments.OneDeletionHidesComment | pkg/github/client.go:637-701 | a single deletion suffices |
| OwnedComments.ScanSound | pkg/github/client.go:637-701 | while others only append and edit, `absent` proves that no owned comment exists, and a comment found is owned, still there and shown as it is |
| OwnedComments.StillScanDecides | pkg/github/client.go:620-643 | on a list that does not change, the scan is undecided if and only if more than 2000 comments stand before any owned one: such a list never converges |
| Publication.MineEdited | pkg/server/publication.go:451-453 | editing an owned comment keeps the owned comments one and the same, with the new body |
| Publication.CreatedMine | pkg/server/publication.go:416-419 | a created comment is the one owned comment when there was none |
| Publication.MineIff | pkg/server/publication.go:65-99 | the owned comments are those by the actor that carry the marker, each as often as it is listed, and a stranger's comment is never one of them |
| Publication.MarkerAdded | pkg/server/publication.go:148-152 | the text posted is the text given, if the marker stands in it, and otherwise the text with the marker after a blank line |
| Publication.AtMostOneCreate | pkg/server/publication.go:361-427 | a good log holds at most one create that takes effect, the step from which `Publisher.Service.Live` promises the same of every run |
| Publication.LogGrows | pkg/server/publication.go:279-488 | a log stays good when an entry is added that is good at its place |
| Publisher.Service.constructor | pkg/server/publication.go:29-39 | a service starts with an empty log in a world without an owned comment |
| Publisher.Service.FindOwned | pkg/github/client.go:607-702 | the scan of the lists at its page reads, with a failed read reported as undecided |
| Publisher.Service.CreateComment | pkg/server/publication.go:416-419 | whatever is reported, even after a crash, exactly one owned comment was appended or nothing was; it is only reached where the log allows a create |
| Publisher.Service.EditComment | pkg/server/publication.go:451-453 | whatever is reported, even after a crash, exactly the owned comment's body was replaced or nothing was |
| Publisher.Service.SaveIntent | pkg/server/publication.go:380-382 | a saved intent keeps the body of a review output, and a superseded text once it is saved |
| Publisher.Service.UpdateJob | pkg/server/publication.go:107-117 | whatever is reported, the job row is replaced or kept; on failure it is kept |
| Publisher.Service.Commit | pkg/server/publication.go:400-413 | intent, job and pull request state change together or not at all, even when the process crashes |
| Publisher.Service.MarkUncertain | pkg/server/publication.go:326-335 | the result is uncertain with the comment ID in hand; even after a crash the store is as before, or holds the intent in hand with body, digest and comment ID, marked uncertain, and the job uncertain and unfinished |
| Publisher.Service.CheckKnown | pkg/server/publication.go:345-359 | a known ID is used only if the comment is proven owned; the body it then shows is always one the saved intent allows, so `refusing to adopt` is never reached |
| Publisher.Service.Search | pkg/server/publication.go:361-385 | a found comment is saved in the intent before it is used, and its body is always allowed; no comment in hand means a complete scan found none |
| Publisher.Service.Locate | pkg/server/publication.go:337-385 | locating ends with an owned comment or with a complete absent scan as the last event |
| Publisher.Service.Post | pkg/server/publication.go:387-427 | a comment is created only after an absent scan, a read of the exact head and a generation that has not moved, else the report is discarded |
| Publisher.Service.CreateReport | pkg/server/publication.go:414-427 | after the create the ID is saved before it is used; nothing else of the record changes |
| Publisher.Service.Discard | pkg/server/publication.go:400-413 | an outdated report with no comment is committed as superseded with no comment left behind; the pull request record reserves a review of the head read exactly if the job is automatic and the head moved, and is as before otherwise |
| Publisher.Service.WriteSuperseded | pkg/server/publication.go:441-453 | the superseded text is durable before it is written over the comment |
| Publisher.Service.Supersede | pkg/server/publication.go:441-466 | a superseded outcome with a comment leaves the superseded text on it; in calm weather the pull request record afterwards names the head read, reserves a review of it and has the next generation, exactly if the job is automatic, and is as before if it is not |
| Publisher.Service.Settle | pkg/server/publication.go:429-488 | completed only with the exact head and generation just read and the owned comment in place; else superseded or uncertain. In calm weather the verdict follows from head, generation and job alone, and so does the pull request record: a job that is not automatic leaves no successor |
| Publisher.Service.Complete | pkg/server/publication.go:468-488 | the terminal commit is made only with head and generation just read, and refused when the generation has moved on since |
| Publisher.Service.Publish | pkg/server/publication.go:337-488 | every terminal result is the one in the store and on the comment |
| Publisher.Service.ReconcileOutput | pkg/server/publication.go:279-488 | from every reachable state, in any weather and with a crash after any step: the log stays good, and a result says what store and comment show; a commit that supersedes reserves a successor for an automatic job only, under the next generation. In calm weather it predicts the result and the pull request record from the world alone |
| Publisher.VerdictIs | pkg/server/publication.go:429-488 | the verdict in calm weather, in plain fields of the live head, the generation and the job |
| Publisher.Service.RecordedID | pkg/server/publication.go:138-147 | the status comment ID on record, in the order caller, job row, intent |
| Publisher.Service.SaveStatusCommentID | pkg/server/publication.go:107-117 | the row saved is `PatchedRow` of the row in the store, the caller's row and whether the read succeeded; on failure the row is kept, and after a crash it is one of the two |
| Publisher.OnlyIDPatchedIff | pkg/server/publication.go:107-117 | nothing but the comment ID of the row changes if and only if the read succeeded or the caller's copy is current |
| Publisher.StaleCopyRequeues | pkg/server/publication.go:95-117 | for every queued job claimed after the copy was read: after a failed read the save makes the running job queued again, after a successful one it runs on |
| Publisher.Service.EditOwned | pkg/server/publication.go:193-209 | a status edit writes the body that was made durable just before |
| Publisher.Service.CreateStatus | pkg/server/publication.go:245-264 | a status comment is created only after an absent scan and a durable intent |
| Publisher.Service.ScanForStatus | pkg/server/publication.go:223-264 | the complete scan decides between edit and create; an undecided scan authorizes no write |
| Publisher.Service.PublishStatus | pkg/server/publication.go:124-264 | the log stays good, and a returned ID is the owned comment with the text just published |
| Publisher.Service.Live | pkg/server/publication.go:279-488 | every run of saves and reconciliations, in any weather and with any crashes, keeps the log good and the world consistent: at most one comment is ever created, only after an absent scan; the body and the superseded text saved at any point are still saved at the end, and so is the ID of a comment that was owned, as long as every intent given named no comment or the one on record |
| Publisher.Service.LiveStatus | pkg/server/publication.go:124-264 | every run of status publications, in any weather and with any crashes, creates at most one comment |
| Publisher.Service.StateAfter | pkg/server/publication.go:124-264 | after any such run, one status published in calm weather is the text of the owned comment if and only if the comment can be located |
| Publisher.Service.RecoverAfter | pkg/server/publication.go:279-488 | after any run, one calm reconciliation ends completed or superseded if and only if the live head is a commit ID and the comment can be located; completed only if head and generation have not moved |
| Publisher.LocatableIff | pkg/github/client.go:620-643 | what `can be located` means: the recorded comment is still owned, or the paged scan of the present list decides |
| Publisher.LookupDecides | pkg/server/publication.go:81-105 | the ownership check tells an owned comment from one that is deleted or foreign, which is settled by user ID, login and marker |
| Publisher.MineAllowed | pkg/server/publication.go:317-324 | the body of an owned comment is always the intended text, with or without the marker added, or the text whose digest was saved as superseded |
| Publisher.ScanFindsMine | pkg/github/client.go:637-701 | in a consistent world the scan finds the owned comment or proves that there is none |
| Publisher.ReadyCreate | pkg/server/publication.go:387-427 | the reads before a create make it a good log entry |
| Publisher.ReadyEdit | pkg/server/publication.go:441-453 | the save before an edit makes it a good log entry |
| Publisher.ReadyCommit | pkg/server/publication.go:468-488 | the reads before a terminal commit make it a good log entry |
| Decisions.DecisionLedger.ClaimDecision | pkg/server/decision_ledger.go:83-157 | refused, duplicate or new; a claim is written only where no record is, under the trimmed host |
| Decisions.ClaimIs | pkg/server/decision_ledger.go:83-157 | by host and event without the white space around them: refused unless they name a pull request, a commit of 40 or 64 hexadecimal digits and, in any case of letters, one of the two verdicts; a duplicate if a record is under that host, request and commit; otherwise the record filed, field by field |
| Decisions.DecisionLedger.RecordPublished | pkg/server/decision_ledger.go:160-197 | a record becomes published under the host as given, if it is found there, with review ID and time, and keeps event and job |
| Decisions.DecisionLedger.MarkUncertain | pkg/server/decision_ledger.go:200-234 | a record becomes uncertain under the host as given, if it is found there, with the reason, and keeps everything else |
| Decisions.DecisionLedger.PruneTerminalDecisions | pkg/server/decision_ledger.go:271-305 | deletes exactly the first expired published records in key order, at most the limit; every record that is not published, or not before the cutoff, stays as it is, and all others go unless the limit is reached |
| Decisions.PruneTakesOld | pkg/server/decision_ledger.go:281-302 | only records published before the cutoff are chosen, and all of them unless the limit is reached |
| Decisions.RecentDecisionStays | pkg/server/decision_ledger.go:83-305 | over every run: a published record stays as it is as long as no prune has a later cutoff |
| Decisions.PruneStepIs | pkg/server/decision_ledger.go:271-305 | the prune of the state machine does what the prune of the ledger does |
| Decisions.DecisionLedger.PublishDecision | pkg/server/decision_ledger.go:327-383 | one call, uninterrupted, posts at most once, and never for a duplicate |
| Decisions.AloneRecords | pkg/server/decision_ledger.go:327-383 | that call is a run of the state machine's steps |
| Decisions.PostsBounded | pkg/server/decision_ledger.go:83-383 | under any interleaving of concurrent, crashing calls and prunes, the POSTs for a pull request and head never exceed its prunes plus one if a record exists |
| Decisions.RecordsMove | pkg/server/decision_ledger.go:110-305 | records move only from absent to claimed to published or uncertain, and only published ones return to absent |
| Decisions.PublishedIffHostTrimmed | pkg/server/decision_ledger.go:88-197 | the step that records a posted decision files it as published if and only if its host carries no surrounding white space |
| Decisions.ClaimStaysIff | pkg/server/decision_ledger.go:83-383 | after any run, a claimed record stays claimed in every continuation if and only if no call in flight can still file an outcome under its key |
| Decisions.HeldForGoodIff | pkg/server/decision_ledger.go:327-383 | after any run, the claim a call holds stays claimed in every continuation if and only if its host carries surrounding white space or its POST was refused; then every later decision for that head is a duplicate |
| Decisions.UntrimmedHostNeverSettles | pkg/server/decision_ledger.go:88-197 | any claimable request whose host carries surrounding white space reaches that: the review is posted and its claim stays claimed whatever follows |
| RequestGate.GateSafe | pkg/llm/client.go:111-163 | for any interleaving of acquires, cancellations, releases and time: free plus held permits are the concurrency, free plus held start tokens are one, and granted starts are at least the interval apart |
| RequestGate.StartsInSpan | pkg/llm/client.go:139-154 | a span of length T holds at most T/minInterval + 1 starts |
| RequestGate.NextConserves | pkg/llm/client.go:116-163 | every step conserves permits and the token |
| RequestGate.NextSpaces | pkg/llm/client.go:139-154 | only the holder of the token moves the next start time, so a start is never early |
| RequestGate.Gate.constructor | pkg/llm/client.go:71-105 | a new gate has all permits, the token, and a first start one interval ahead |
| RequestGate.NewRequestGate | pkg/llm/client.go:71-105 | a gate exactly if concurrency, interval and response size are within their bounds, given as numbers; with all permits, the token, and a first start one interval ahead |
| RequestGate.Gate.Acquire | pkg/llm/client.go:111-163 | with the steps of all others in between, a granted call is running; a cancelled one has waited for all the turns it was ready to wait and holds neither permit nor token |
| RequestGate.Gate.AwaitToken | pkg/llm/client.go:131-137 | a call that waits for the token ends with it or has returned its permit |
| RequestGate.Gate.AwaitTime | pkg/llm/client.go:139-152 | a call that waits for its start time ends ready, or has returned first the token and then the permit |
| RequestGate.ReadyWhenDue | pkg/llm/client.go:139-152 | a call that holds the token starts at once if the next start is due, and otherwise as soon as the time has passed and not before |
| Retry.WriteRetriedIff | pkg/retry/retry.go:195-279 | a write is repeated if and only if its failure is a rate limit and no timeout or network failure; what is repeated for a write is repeated for a read |
| Retry.StatusDecides | pkg/retry/retry.go:212-246 | whatever the text: after a server error other than 501 a read is worth repeating and a write may have been applied; 401, 404, 422 and 501 are final |
| Retry.LimitDecides | pkg/retry/retry.go:222-237 | a 403 is a rate limit exactly if a header says when to come back or that no request is left, or the text names one; a 429 exactly if the text names no exhausted quota |
| Retry.TextDecides | pkg/retry/retry.go:259-276 | without a status, by the words of the text: an exhausted quota is final, a rate limit is not, a server error leaves open whether a write was applied, anything else is final |
| Retry.TimeoutIff | pkg/retry/retry.go:289-310 | what counts as a timeout or network failure: one found in the error chain, or one of five words in the text |
| Retry.StatusRead | pkg/retry/retry.go:337-374 | the status in an error text is the number between the first `status ` and the bracket after it |
| Retry.ServerErrorTextRepeatsWrite | pkg/retry/retry.go:262-276 | every server error known only by its text, naming no timeout, network failure, quota or status, is taken for a rate limit when `429` occurs in the text, and the write is repeated although it may have been applied |
| Retry.ServerErrorExample | pkg/retry/retry.go:262-276 | such texts exist: `500 429` |
| Retry.AskedWaitKeptIff | pkg/retry/retry.go:376-411 | against the wait in unbounded arithmetic (Retry-After, section 10.2.3 of RFC 9110): the function returns it if and only if it fits an int64 of nanoseconds; a date too far away is cut, and only seconds beyond 9223372036 become another wait |
| Retry.BackoffPositive | pkg/retry/retry.go:432-450 | the backoff of a sane policy neither overflows nor vanishes |
| Retry.BackoffGrows | pkg/retry/retry.go:432-450 | a later attempt never waits less, jitter aside |
| Retry.BackoffDoubles | pkg/retry/retry.go:432-450 | the first backoff is the base, each of the next ten doubles the one before up to the maximum, and then it stays; the defaults are a second and half a minute |
| Retry.DelayBounded | pkg/retry/retry.go:414-470 | an accepted delay is within the longest wait of the policy, not negative unless the header overflows or the policy is beyond what the configuration allows (such a policy can also panic), and the backoff plus a draw from zero to a quarter of it when the server asks for none |
| RetryBudget.SleepsWithinBudget | pkg/retry/retry.go:107-119 | however the two looks and the deduction of each of any number of operations interleave, if no wait asked for is negative the time slept never exceeds the total |
| RetryBudget.ExceededIffNegative | pkg/retry/retry.go:95-119 | exact: with a total of up to half an int64, some interleaving of looks and deductions sleeps more than the total if and only if a negative wait may be asked for |
| RetryBudget.RefundAlone | pkg/retry/retry.go:95-119 | even one operation alone at the budget then sleeps nearly twice the total: a wait, a negative wait that gives it back, and the whole total |
| RetryBudget.NextKeepsInv | pkg/retry/retry.go:95-119 | every look and every deduction keeps what was slept within what is spent, and that within the total |
| Retry.OverflowRefundsBudget | pkg/retry/retry.go:376-388 | a Retry-After of 9223372037 seconds, parsed as the code does, is such a negative wait: a run of one operation's looks and deductions with it sleeps more than the total |
| RetryBudget.Budget.constructor | pkg/retry/retry.go:85-93 | a new budget has spent nothing |
| RetryBudget.Budget.Remaining | pkg/retry/retry.go:95-105 | what is left, or nothing once the total is spent |
| RetryBudget.Budget.Deduct | pkg/retry/retry.go:107-119 | a wait within the total is added and recorded; any other exhausts the budget |
| RetryBudget.Budget.Spend | pkg/retry/retry.go:530-538 | two looks at the budget and a deduction, with deductions of others in between, grant exactly this wait or none |
| Retry.Pause | pkg/retry/retry.go:522-538 | the wait after a failure fits the policy and is granted once |
| Retry.Do | pkg/retry/retry.go:473-548 | for every policy: the function is called at most the allowed number of times (five by default), each time but the last failing in a way that is repeated; the result says how the last call ended; the waits begun are exactly the grants of this operation and fit the policy, at most one fewer than the attempts |
| Retry.SleepsWithinPolicy | pkg/retry/retry.go:473-548 | one operation sleeps at most (attempts - 1) times the longest wait |
| Retry.SleepsWithinShared | pkg/retry/retry.go:107-119 | what Do leaves on the books of a shared budget: all waits of one operation are within what all operations slept, and that within the total as long as no wait asked for was negative |
| Retry.AsksNonNegative | pkg/retry/retry.go:376-470 | and a wait that Do asks for is negative only if its Retry-After overflows |
| Sweep.ExaminesNext | pkg/server/store_maintenance.go:59-111 | a call examines the next records of the cyclic order jobs-then-deliveries, the limit or up to the end of the second bucket |
| Sweep.ExaminedOnce | pkg/server/store_maintenance.go:71-98 | none twice in one call, and all exist |
| Sweep.RestComesFirst | pkg/server/store_maintenance.go:100-108 | what a call did not examine comes first, in order, in the next cyclic order |
| Sweep.NearerByOne | pkg/server/store_maintenance.go:59-111 | a call examines the record at a place or brings it a turn nearer |
| Sweep.EveryRecordExamined | pkg/server/store_maintenance.go:59-111 | with no insertions each of N records is examined within ceil(N/limit) + 1 calls, from any cursor |
| Maintenance.BoltStore.MaintainTerminalRecords | pkg/server/store_maintenance.go:23-49 | one pass examines the specified records, maintains them in order, counts them and moves the cursor; a closed store is left alone. On the fields of the rows: a job goes exactly if it is examined, finished, dated, at least the retention time old and has no intent that is pending, in progress or uncertain |
| Maintenance.BoltStore.MaintainInTx | pkg/server/store_maintenance.go:51-112 | the two-bucket loop performs exactly the specified pass |
| Maintenance.BoltStore.MaintainBucket | pkg/server/store_maintenance.go:62-108 | one bucket: scanned from the cursor on, maintained, and the cursor left at the first key not scanned |
| Maintenance.BoltStore.Scan | pkg/server/store_maintenance.go:71-88 | the scan collects the next keys in order, as many as there is room for |
| Maintenance.BoltStore.MaintainJobRecord | pkg/server/store_maintenance.go:114-221 | the store after a job row's maintenance, and the counters; the row goes exactly if its own fields and its two intents say that it is finished, old enough and at rest |
| Maintenance.BoltStore.Reclaim | pkg/server/store_maintenance.go:177-220 | an expired job's row, comment key and both intents are gone, and counted |
| Maintenance.BoltStore.ClearReferences | pkg/server/store_maintenance.go:139-160 | only references of the job's own PR to this job are cleared |
| Maintenance.BoltStore.MaintainDeliveryRecord | pkg/server/store_maintenance.go:223-278 | the store after a receipt's maintenance, and the counters |
| Maintenance.BoltStore.FindJob | pkg/server/store_maintenance.go:250-263 | the first row in key order with this ID |
| Maintenance.JobKeepsRefs | pkg/server/store_maintenance.go:139-160 | PR states go on pointing at existing jobs of their own PR |
| Maintenance.PassesKeep | pkg/server/store_maintenance.go:23-278 | over any sequence of passes: every queued, running, uncertain or needs_attention job and every intent in flight is kept as it was, nothing is added or altered, references stay good |
| Maintenance.PassesKeepActiveReceipt | pkg/server/store_maintenance.go:248-277 | over any sequence of passes a receipt is kept as long as it names an active job |
| Maintenance.RecentJobKept | pkg/server/store_maintenance.go:114-221 | over any sequence of passes: a job that at every call is unfinished, or finished less than the retention time ago, is kept as it was, and so are its comment key, both its intents and the PR references to it |
| Maintenance.PassTakesSpent | pkg/server/store_maintenance.go:114-221 | a pass takes exactly the jobs it examines that are finished, old enough and at rest, with their comment key and intents |
| Maintenance.RecentReceiptKept | pkg/server/store_maintenance.go:223-247 | over any sequence of passes: a receipt younger than the retention time at every call is kept as it was, and so is one that names no job |
| Maintenance.CallTakesReceipt | pkg/server/store_maintenance.go:248-278 | the call that examines an old receipt deletes it if no job with an ID it names is queued, running or waiting |
| Maintenance.PassBalances | pkg/server/store_maintenance.go:13-49 | the counters of a pass balance: every record scanned is pinned or gone, the deletions counted are all rows, intents and comment keys gone from the store, and the releases all jobs gone that held reservations |
| Maintenance.PassSteps | pkg/server/store_maintenance.go:51-112 | a pass is a step of the sweep: only records it examined are gone after it |
| Maintenance.ReclaimedInTime | pkg/server/store_maintenance.go:21-221 | a job that can be deleted is gone after ceil(N/limit) + 1 passes |
| Maintenance.PassesTakeJobIff | pkg/server/store_maintenance.go:23-221 | over any sequence of passes, at any times: a job goes if and only if some call examines it when it is terminal and expired and no intent of its own is in flight; with it go its comment key and both intents |
| Maintenance.PinnedJobKept | pkg/server/store_maintenance.go:162-175 | over any sequence of passes a job is kept while an intent of its own is in flight |
| Maintenance.UnfinishedIntentLostIff | pkg/server/store_maintenance.go:162-175 | a job holding an unfinished intent is deleted with it if and only if the job is expired, none of its intents is in flight and one is `superseding`: that status, which publication writes (pkg/server/publication.go:447), does not pin |
| Maintenance.SupersedingIntentLost | pkg/server/jobs.go:75-89 | a run that gets there: publication saves `superseding` and the process dies before the edit; recovery queues the running review again (pkg/server/store.go:1126-1143), it is claimed (pkg/server/store.go:1658), and reauthorization fails the job without looking at its intents; a sweep after the retention time deletes the job and the intent |
| TreeListing.TraverseTreeNonRecursive | pkg/sandbox/api_snapshot.go:335-380 | fails if and only if some directory that names lead to is too deep, cannot be fetched or is truncated, or there are too many files, and then the error says truly which and where; otherwise returns, as a multiset, the files of the depth-first listing with full paths; terminates |
| TreeListing.BrokenIff | pkg/sandbox/api_snapshot.go:341-355 | a directory breaks the listing exactly if names lead from it, through whole listings, to one that is too deep, cannot be fetched or is truncated |
| TreeListing.ListingIsPaths | pkg/sandbox/api_snapshot.go:335-380 | if every directory can be listed, the listing holds exactly the files that some names lead to from the root, each with the full path of those names |
| TreeListing.PathIsSlashed | pkg/sandbox/api_snapshot.go:357-363 | a full path is the names on the way joined by slashes |
| TreeListing.Enter | pkg/sandbox/api_snapshot.go:357-376 | entering a directory queues its subdirectories and adds its files while there is room |
| TreeListing.PopKeeps | pkg/sandbox/api_snapshot.go:341-376 | replacing a directory by its subdirectories keeps the files the queue stands for and its brokenness, and lowers the number of directories by one |
| TreeListing.ExpandListing | pkg/sandbox/api_snapshot.go:357-376 | the depth-first listing of a directory is its files and the listings of its subdirectories |
| FindingMatch.ClassifyAgainstPrior | pkg/reviewer/decision.go:61-117 | the persisting and new findings in order; the fixed findings are the rows no finding was matched with, each with title, file, severity and head of its row; matched and fixed rows are the prior rows as a multiset |
| FindingMatch.MatchedPerIdentity | pkg/reviewer/decision.go:79-101 | per identity the k-th finding is matched with the k-th row: the first min(current, prior) findings persist, the others are new |
| FindingMatch.PersistingNamesItsRow | pkg/reviewer/decision.go:90-97 | each persisting finding carries file, line and head of the row it was matched with, and that row has its identity |
| FindingMatch.CurrentPartitioned | pkg/reviewer/decision.go:79-101 | persisting and new findings woven together are the current findings in order |
| FindingMatch.PriorPartitioned | pkg/reviewer/decision.go:103-114 | matched rows and rows left over are the prior rows as a multiset |
| FindingMatch.BuildTable | pkg/reviewer/decision.go:69-77 | the table holds, per identity, its rows in order, none matched |
| FindingMatch.MatchAll | pkg/reviewer/decision.go:79-101 | the flags the loop sets are those of the first rows of each identity |
| FindingMatch.CollectFixed | pkg/reviewer/decision.go:103-114 | the rows left over, whatever order the map is walked in |
| FindingMatch.SameIdentityIff | pkg/reviewer/decision.go:45-56 | for severities without a colon (pkg/reviewer/engine.go:630 admits three words): two findings have one identity if and only if their severities are equal and either file and normalized title are, or one file is the other, a colon and a rest with which the other title begins |
| FindingMatch.MatchesIff | pkg/reviewer/decision.go:45-101 | the same of a finding and a prior row, field by field |
| FindingMatch.CanShareIff | pkg/reviewer/decision.go:45-56 | exact on files: findings of two different trimmed files can share an identity if and only if one file is the other, a colon and a rest that, with a colon after it, is its own normalized title |
| FindingMatch.ColonMixesIdentities | pkg/reviewer/decision.go:50-56 | the family in which different findings share an identity: a colon in a file name |
| History.SummarizeGatedHistory | pkg/assistant/edit.go:396-431 | unchanged up to 24000 bytes or within the tail to keep (12000 bytes by default); otherwise head, marker and tail at the nearest character boundaries |
| History.SummaryValid | pkg/assistant/edit.go:396-431 | of valid UTF-8 (section 4 of RFC 3629) the head, the marker, the tail and the whole are valid; head, dropped bytes and tail add up to the input; the length is at most 2000 + tail + marker |
| History.MarkerText | pkg/assistant/edit.go:426-430 | the text between head and tail, with the number of bytes dropped |
| History.CutsClose | pkg/assistant/edit.go:408-424 | of valid UTF-8 at most three bytes more than asked are dropped at either end |
| History.CutValid | pkg/assistant/edit.go:411-424 | a valid text cut at a byte that starts a character gives two valid texts |
| History.BoundaryIff | pkg/assistant/edit.go:411-424 | exactly the starting bytes of a valid text, and its end, have a valid text in front of them |
| History.ValidIffEncoded | pkg/assistant/edit.go:411-424 | a text is valid exactly if it is the UTF-8 encoding of some code points without surrogates, one after the other (section 3 of RFC 3629) |
| Changelog.InsertUnreleasedEntry | pkg/changelog/changelog.go:132-171 | the three refusals, and otherwise the text with the entry's lines inserted at their place |
| Changelog.EntryAcceptedIff | pkg/changelog/changelog.go:136-139 | an entry is accepted exactly if the text between the white space around it is not empty, starts with neither `#` nor `-` and holds no line break |
| Changelog.InsertLines | pkg/changelog/changelog.go:173-179 | the joined lines with the new ones in between |
| Changelog.RemovalRestores | pkg/changelog/changelog.go:132-179 | the inserted lines are lines of the result, and without them it is the original text exactly |
| Changelog.EntryInSection | pkg/changelog/changelog.go:152-170 | the entry stands inside the Unreleased section under the heading of its category, with only blank lines in between |
| Changelog.NewestFirst | pkg/changelog/changelog.go:160-170 | a second insertion into the same category adds no heading and puts the newer entry right before the older |

## Left out

- HTTP, GitHub and model clients, JSON and bbolt internals, dashboard, webhooks, the command line, process isolation:
  input, output and wiring.
- `JobStore`, scheduler and executor bodies: only the calls the modelled code makes appear.
- Bytes against characters: outside `History` a character stands for a byte, and only ASCII white space and letter case
  are modelled.
- Machine integers: line counters of the diff readers are unbounded; int64 overflow is modelled where durations and
  parsed numbers reach it, but not inside `time.Unix` of an X-Ratelimit-Reset beyond the year 292 billion.
- Diff.Parse: does not model the configuration lookup behind the options.
- Publisher.Service.ReconcileOutput: does not model the actor name and digest fields a record carries, nor an error text
  beyond its cause; `Publisher.Service.Live` runs one marker at a time.
- Publisher.Service.Live: does not promise that the recorded comment ID survives an intent given with another ID, because
  the code puts that ID in its place before any lookup (pkg/server/publication.go:296-335).
- Publisher.Service.PublishStatus: does not model several `Publication` instances, whose marker locks are separate, nor
  a claim of the job between the two steps of saving the comment ID.
- OwnedComments.FindOwnedComment: does not model the optional digest filter, which no modelled caller sets.
- Decisions.DecisionLedger.ClaimDecision: does not model rows that do not decode.
- RequestGate.Gate.Acquire: fairness among waiting calls is up to the channels and is not stated.
- Retry.Do: does not model a caller's own jitter function; the clock and the random draw are arbitrary.
- Sweep.EveryRecordExamined: keys are places in byte order, so insertions between calls are excluded, as the bound needs.
- Maintenance.BoltStore.MaintainTerminalRecords: does not model a missing bucket, or writes that fail inside a transaction.
- TreeListing.TraverseTreeNonRecursive: does not model cancellation; an entry keeps path, kind, mode and name only.
- FindingMatch.ClassifyAgainstPrior: the storage of findings and fingerprints is not part of this model.
- History.SummarizeGatedHistory: the edit loop around it is not part of this model.
- Changelog.InsertUnreleasedEntry: generation and commit of the entry are not part of this model.
- Range checks of the configuration, exit codes, keyword tables, mount and argument builders: one branch settles each.
