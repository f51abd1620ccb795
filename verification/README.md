# Pantograf, modelled and proved in Dafny

Pantograf (`pgf`) gives one interface to many services. Most of it forwards calls; this project models the
parts that hold algorithms or protocols and proves what they promise. Each imperative function is a
method over the same state, proved against a specification, and the lemmas say what that
specification means.

- **Streaming grep** (`Grep`, `GrepPass`, `GrepScan`, `LineText`, `Search`, `SearchResults`). `scanFile` keeps a
  rolling window, a queue of heap-allocated matches compacted over its own array, a byte offset and a cap. It refines
  a declarative result: one record per matching line with its context windows. A search over a tree finds exactly the
  matching lines of the files that no option excludes and that can be scanned; with a cap it returns the first M of
  these exactly when the cap ends no scan ahead of an error.
- **Mail parts** (`Mime`, `MimeWalk`, `MimeMeaning`). One walk numbers and sizes attachments; a second one finds a part
  again from its number while sibling turns append into one shared backing array. Both are proved against the same
  numbering of the leaves, so what the first lists the second finds, with the listed size. What is listed, and which
  texts become the bodies, is said in terms of each part's own fields.
- **Cursor protocols** (`Telegram*`, `Rss*`, `Matrix*`). Poll, emit, persist, with a script that decides every
  arrival, reply, failure and death. Telegram never loses an update, repeats at most 100 for each death, and after a
  save that worked repeats no earlier id exactly when none lies above the last one emitted. RSS loses no item that was
  due exactly when no poll that works without a watermark passes over one: not after a failed load, a failed first
  save, or a first poll of an empty feed. Matrix is at-least-once exactly when no failed load of the token jumps over
  events not yet emitted, and exactly-once across restarts while loads, saves and emits work.
- **Session cache** (`SessionCache`, `SessionRuns`, `SessionOutcomes`). Atomic sections of any number of calls in any
  order: every opened session is in exactly one place (cached, held by one call, closed once), and a call fails exactly
  when its own open does.
- **File store** (`FileStore`). Two files per key, tmp and rename; with errors and crashes at any operation it
  refines a map.
- **Web cache** (`WebCache`), **paths** (`Paths`), **command-line parameters** (`Params`), **invoice amounts**
  (`Amounts`), a **fixed-buffer integer printer** (`BufferItoa`), **back-off and retry** (`Retry`) and **sealing of
  secrets** (`Secrets`).

`Wrappers`, `Order`, `Text`, `Decimal` and `Sets` hold what the others share: result shapes, minimum and maximum, Go's
`strings.Split` and `strings.Join`, decimal numerals, and a cardinality fact.

An endless loop is a method that runs until its script of environment choices ends, so a lemma about all scripts is
a lemma about every finite run. Where a claim fails in general, the model keeps the code's behaviour, a lemma gives an
input on which it fails, and the claim is proved with its exact condition.

Where the code and its comments differ, the model follows the code:

- `connectors/telegram/updates.go:209` says that a crash may deliver the batch in flight again. Under the model's server
  an id of an earlier batch can come again too, even after a working save: a poll after a restart may return less than
  was fetched before (`TelegramResume.SavedIdRepeats`, `TelegramSaved.RepeatsExactly`).
- `Match.Before` is in file order, oldest first; `connectors/file/driver.go:27` says newest first.
- `ByteOffset` counts one terminator byte per line; `connectors/file/driver.go:30` calls it the start of the line.
  It is that exactly when no earlier line ended in CR LF (`LineText.ByteOffsetExact`,
  `LineText.CarriageReturnShifts`).
- `round2` moves a negative whole number of cents up by one cent, although it is described as rounding to cents
  (`Amounts.Round2OfCents`).
- `SealValues` takes any text that begins with the marker for a sealed one, so such a secret is stored as it is and
  does not come back (`Secrets.OpenUndoesSeal`, `Secrets.MarkedSecretIsLost`).
- A poll of the RSS trigger that finds no watermark takes itself for the first run and skips what it sees, although
  `connectors/rss/trigger.go:92` speaks of the very first poll. An empty feed at the first poll, or a first save that
  fails, therefore loses items published since, with nothing reported (`RssRuns.EmptyFeedLosesItem`,
  `RssRuns.FailedSaveLosesItem`).
- `Backoff` applies its cap only from the second delay on (`Retry.CappedThroughout`).

Checking the whole project: `dafny verify dfyconfig.toml`.

## Model

| member | source | states |
|---|---|---|
| Grep.HitsAreTheMatches | connectors/file/local.go:363-399 | the hits are the matching line numbers, each once, increasing |
| Grep.UncappedScan | connectors/file/local.go:324-416 | without a cap a scan returns one record for every matching line and no other, in line order, each with the last min(B, i) lines before in file order, the next A lines clipped at the end, and the running offset; negative sizes act as 0 |
| Grep.RecordMeans | connectors/file/local.go:380-408 | a record carries its line number and text, the last min(B, i) lines before it in file order, the next A lines clipped at the lines read, and the running offset, all as slices of the lines |
| Grep.ScanMeans | connectors/file/local.go:363-416 | a scan, capped or not, returns in order, for each matching line it read and no other, a match with its text, both contexts and offset, and stops short of the end only behind the match that fills the cap |
| Grep.LinesReadCapped | connectors/file/local.go:396-398 | a capped scan stops with exactly min(M, all) hits |
| Grep.CappedScan | connectors/file/local.go:396-398 | a capped scan returns the first M uncapped records, each After a prefix of the full one and all else equal |
| GrepPass.DrainStep | connectors/file/local.go:366-378 | draining a line keeps queue and result the records of all hits in order, and at most the front of the queue becomes full |
| GrepPass.PassInvariant | connectors/file/local.go:363-408 | after any number of lines the finished and the queued matches are, in order, the records of all hits so far, and exactly the complete ones are finished |
| GrepPass.PassMeaning | connectors/file/local.go:363-408 | finished followed by queued equals the declarative records after the lines read |
| GrepPass.BufferStep | connectors/file/local.go:401-406 | dropping the oldest and appending keeps the buffer the last min(B, i) lines |
| GrepScan.Drain | connectors/file/local.go:366-369 | through the shared pointers every queued match, and nothing else, gains the line |
| GrepScan.Compact | connectors/file/local.go:370-378 | compacting the queue over its own array moves the full front match to the result and keeps the others in order |
| GrepScan.Enqueue | connectors/file/local.go:390-392 | append keeps the queue's objects and adds one, in place or in a new array |
| GrepScan.Advance | connectors/file/local.go:366-378 | drain and compact together have the effect of the specification's drain |
| GrepScan.RecordHit | connectors/file/local.go:380-395 | a hit joins the queue when After lines are wanted, otherwise the result |
| GrepScan.QueueLine | connectors/file/local.go:366-395 | one line changes queue and result as the specification's step does |
| GrepScan.Remember | connectors/file/local.go:401-407 | window and offset stay in step with the lines read |
| GrepScan.FlushQueued | connectors/file/local.go:356-361 | the matches still waiting follow the finished ones, in order |
| GrepScan.ReadLine | connectors/file/local.go:363-408 | one turn of the loop keeps the pass's meaning, and stops exactly when the cap is reached |
| GrepScan.ScanPass | connectors/file/local.go:342-416 | the loop with its buffer, queue and result computes the declarative scan and stops early exactly at the cap |
| GrepScan.ScanLines | connectors/file/local.go:342-416 | the streaming pass returns exactly the declarative scan, stops early exactly when the cap was reached, and has then read the lines up to the last hit it took |
| LineText.RawLineStart | connectors/file/local.go:342-343 | the sum of raw lengths plus terminators is where a raw line begins and ends in the bytes |
| LineText.OffsetDrift | connectors/file/local.go:407 | the offset falls short of the true one by the number of carriage returns dropped before it |
| LineText.ByteOffsetExact | connectors/file/local.go:401-407 | ByteOffset is the true start of its line if and only if no earlier line ended in CR LF |
| LineText.CarriageReturnShifts | connectors/file/driver.go:30 | in a text of a CR LF line and another line the second has offset 2 and starts at 3 |
| LineText.ByteOffsetInPlainText | connectors/file/driver.go:24-31 | in text without CR every delivered line starts at its ByteOffset and ends at a line feed or the end |
| LineText.RawLinesAreBytes | connectors/file/local.go:342-363 | the raw lines with their terminators are all the bytes, and none holds a line feed |
| LineText.LinesMean | connectors/file/local.go:342-365 | a delivered line is its raw line without one carriage return at the end, and shorter than a mebibyte |
| LineText.MatchesStandInFile | connectors/file/local.go:382-387 | every match of a scan of a file stands, as a whole line, at its offset plus the carriage returns dropped before it; in CR-free text its own text stands at its offset |
| Search.PercentAbove30 | connectors/file/local.go:430 | the rounded-down percentage exceeds 30 if and only if the share is at least 31 percent |
| Search.IsLikelyBinary | connectors/file/local.go:420-431 | true exactly for a NUL or at least 31 percent non-printable bytes |
| Search.ScanFile | connectors/file/local.go:324-416 | open failure, binary skip, scan and scanner error give matches, scanned and error as specified; a scan that stops at the cap reports an error only if it had to look past an unterminated last line to deliver it |
| Search.Keep | connectors/file/local.go:264-285 | a file is kept exactly when it passes include, exclude, a readable size and the size limit |
| Search.WalkFiles | connectors/file/local.go:254-288 | the walk collects the selected files in walk order and counts every other file it reaches as skipped |
| Search.TakeMatches | connectors/file/local.go:310-316 | matches are appended up to the cap, the count being the length |
| Search.AddFile | connectors/file/local.go:300-316 | one file adds what its scan contributes up to the cap and is counted as scanned or skipped |
| Search.ScanFiles | connectors/file/local.go:293-317 | the result is the capped concatenation of the contributions of the files scanned; scanned plus skipped is their number; files remain unscanned only after the cap or cancellation |
| Search.Search | connectors/file/local.go:226-319 | the same for the whole search, walk included |
| Search.ContributionClips | connectors/file/local.go:396-416 | a file contributes the first M of its uncapped matches, unless the cap hides an error not yet met: then it fills the cap where the uncapped scan drops the file |
| Search.FirstMatches | connectors/file/local.go:293-318 | while no file with a hidden error finds room, the capped list is the first M of the uncapped one, each After perhaps shorter |
| Search.SwallowBreaks | connectors/file/local.go:293-318 | a file the cap keeps and the uncapped scan drops makes the capped list differ from the front of the uncapped one |
| Search.CappedExactly | connectors/file/local.go:293-318 | over scans with distinct keys the capped list is the first M of the uncapped one if and only if no file that only the cap keeps is reached while there is room |
| Search.ScansClip | connectors/file/local.go:396-416 | the files a capped scan keeps and an uncapped one drops are exactly those whose scan would meet an error after the cap stopped it |
| Search.CapHidesReadError | connectors/file/local.go:396-416 | a matching line with its line feed, then a failing read, hides the error under a cap of one; without the line feed the scan fails |
| Search.SearchMeaning | connectors/file/local.go:251-318 | without cancellation Count = len(Matches) and never exceeds the cap, and without a cap Scanned + Skipped is the number of files walked |
| Search.CappedSearchResult | connectors/file/local.go:226-319 | two searches of one tree whose files have distinct keys, capped and uncapped, neither cancelled: the capped result is the first M of the other if and only if the cap hides no error, that is, ends no scan with room left before it meets one |
| SearchResults.NonPrintableMeans | connectors/file/local.go:424-429 | the count is the number of positions whose byte is below 9 or between 14 and 31 |
| SearchResults.BinaryMeans | connectors/file/local.go:418-431 | a sample is binary if and only if it holds a zero byte or more than 30 percent, rounded down, of such bytes |
| SearchResults.FileMeans | connectors/file/local.go:324-416 | a file that opens is scanned if and only if it is empty or its first 512 bytes are not binary; without a cap its scan fails if and only if reading fails or a line reaches a mebibyte |
| SearchResults.FilesPlaced | connectors/file/local.go:254-288 | without cancellation the files are exactly the entries that no walk error, directory, glob, failing stat or size limit excludes, in walk order |
| SearchResults.SearchFinds | connectors/file/local.go:226-319 | without a cap and not cancelled a search of a tree finds exactly the matching lines of those files that can be scanned, in walk and line order, each carrying its number, text, contexts and offset |
| SearchResults.CountersMean | connectors/file/local.go:251-318 | Scanned is the number of those files and Scanned + Skipped the number of all files in the tree |
| SearchResults.EmptyResults | connectors/file/local.go:244-250 | a missing base gives the zero result, and so does a cancelled search of one file |
| SearchResults.SingleFileMeans | connectors/file/local.go:289-318 | a single file as base is scanned whatever its name and size |
| Mime.LeavesInOrder | connectors/email/parse.go:71-87 | part numbers are in document order, so no two leaves share one |
| Mime.DottedInjective | connectors/email/parse.go:80-84 | dotted numbers determine the index path |
| Mime.LookupFinds | connectors/email/parse.go:221-252 | looking up a leaf's number finds that leaf |
| Mime.LookupSound | connectors/email/parse.go:221-252 | a lookup succeeds only for the number of some leaf |
| Mime.AttachmentsFromLeaves | connectors/email/parse.go:90-129 | the attachments are exactly the readable leaves with attachment disposition or a filename |
| MimeWalk.OneLeaf | connectors/email/parse.go:100-128 | a leaf adds nothing, itself as an attachment, or its text if no earlier text of its kind was chosen |
| MimeWalk.WalkMultipart | connectors/email/parse.go:66-88 | walking siblings leaves the message as the leaves below them say, and without a boundary leaves it alone |
| MimeWalk.ProcessPart | connectors/email/parse.go:90-129 | one part, container or leaf, changes the message as its leaves say |
| MimeWalk.ParseMessage | connectors/email/parse.go:39-62 | the parsed message is the first non-blank texts and all attachments of the leaves, with both fallbacks |
| MimeWalk.Append | connectors/email/parse.go:236 | append may write into spare shared capacity and still leaves the contents of the prefix alone |
| MimeWalk.EqualIDs | connectors/email/parse.go:254-264 | compares the slice's contents with the target |
| MimeWalk.TryPart | connectors/email/parse.go:235-250 | one sibling is looked up among its leaves, the shared prefix staying intact |
| MimeWalk.WalkForPart | connectors/email/parse.go:221-252 | the second walk returns the first leaf with the wanted number although siblings overwrite one backing cell |
| MimeWalk.ExtractAttachmentBytes | connectors/email/parse.go:208-219 | the decoded bytes of the leaf with that number, or nothing |
| MimeWalk.PartIDValid | connectors/email/parse.go:172-185 | true exactly for non-empty dotted numbers that fit an int |
| MimeWalk.ImapPartSpec | connectors/email/parse.go:190-204 | the numbers of the fields, or nothing for the empty text or a field that is no number |
| MimeWalk.DottedParses | connectors/email/parse.go:172-204 | every number the walk forms is valid and parses back to its index path |
| MimeWalk.ListedPartsAreFound | connectors/email/parse.go:66-264 | every listed attachment is found under its PartID with decoded bytes of exactly the listed size, its number valid and parsing to its index path |
| MimeWalk.ExtractedExactly | connectors/email/parse.go:208-252 | the second walk finds something if and only if the text is the dotted number of a leaf |
| MimeWalk.PartIDsInOrder | connectors/email/parse.go:71-124 | listed PartIDs are pairwise distinct and in document order |
| MimeMeaning.HoldsLeaf | connectors/email/parse.go:66-98 | the leaves are exactly the parts that are no containers, each under its path of positions |
| MimeMeaning.ListedExactly | connectors/email/parse.go:100-118 | a part is listed under its number if and only if it can be read and its disposition is attachment or its filename or name is not empty; the entry has the decoded filename, else name, the media type and the decoded size |
| MimeMeaning.ListedIsHeld | connectors/email/parse.go:66-124 | every listed attachment is a part of the message under its number |
| MimeMeaning.ExtractsPart | connectors/email/parse.go:208-252 | a part of the message is found under its number with its decoded bytes |
| MimeMeaning.FirstTextMeans | connectors/email/parse.go:119-128 | the text of a kind is that of the first leaf that can be read, is no attachment, is of that kind and is not blank, if there is one |
| MimeMeaning.BodiesMean | connectors/email/parse.go:56-62 | the bodies of a multipart message are the first text/plain and the first text/html text among its leaves |
| MimeMeaning.SinglePartMeans | connectors/email/parse.go:39-62 | any other message has no attachments and one body, HTML exactly for text/html; one that does not parse is its raw text |
| Telegram.EmitBatch | connectors/telegram/updates.go:193-207 | emitting a batch follows the transition system, the offset passing each id |
| Telegram.Save | connectors/telegram/updates.go:211-213 | saving follows the transition system, a failure being ignored |
| Telegram.Subscribe | connectors/telegram/updates.go:164-214 | a run of Subscribe, from its start to its death or the script's end, is a run of the transition system |
| Telegram.Serve | connectors/telegram/updates.go:149-214 | a supervisor restarting Subscribe produces the world of the whole run |
| TelegramRuns.ConfirmKeeps | connectors/telegram/updates.go:178 | polling with an offset makes the server drop only emitted ids |
| TelegramRuns.EmitCovers | connectors/telegram/updates.go:193-207 | after an emit every queued id below the new offset has been emitted |
| TelegramRuns.StepKeeps | connectors/telegram/updates.go:171-214 | every arrival, poll, lost reply, emit, failure, save and death keeps the invariant |
| TelegramRuns.NoLoss | connectors/telegram/updates.go:164-214 | in every run each update ever queued has been emitted or is still held by the server |
| TelegramRuns.OffsetMonotone | connectors/telegram/updates.go:171-214 | between two points of a run with no death in between the offset does not decrease |
| TelegramRepeats.StepRecorded | connectors/telegram/updates.go:171-214 | every step keeps the account of fetched, emitted and repeated ids |
| TelegramRepeats.IncarnationIncreases | connectors/telegram/updates.go:193-207 | ids emitted by one incarnation strictly increase, and the next one, which a failing emit may still deliver, lies above them all |
| TelegramRepeats.RepeatsWereAtRisk | connectors/telegram/updates.go:208-214 | an update that comes again was among the at most 100 fetched ids the server still held at the last death; before any death nothing comes twice |
| TelegramRepeats.RepeatsBounded | connectors/telegram/updates.go:208-214 | a run with d deaths delivers at most 100 d more emissions than there are distinct ids |
| TelegramRepeats.FrontsAreBatches | connectors/telegram/updates.go:178 | all along a run what was fetched and is still held is the end of the batch last fetched, if and only if each poll returns at least the ids fetched before that the server still holds |
| TelegramRepeats.DeathRisksLastBatch | connectors/telegram/updates.go:178-212 | in such a run what a death puts at risk is the end of the single batch last fetched |
| TelegramRepeats.FullPollsRefetch | connectors/telegram/updates.go:178 | polls that return as much as they may are such polls |
| TelegramRepeats.ShortPollWidensRisk | connectors/telegram/updates.go:178-212 | a run with a shorter poll after a restart, in which a death puts at risk an emitted update that is not in the batch last fetched |
| TelegramResume.RoundDelivers | connectors/telegram/updates.go:178-213 | an undisturbed round emits in order what the poll returned of the updates held at or above the offset, at most 100, and saves one past the last |
| TelegramResume.ResumesPastSaved | connectors/telegram/updates.go:164-167 | after the last working save and a death, a start whose load works resumes one past the last id emitted before that save |
| TelegramResume.StartsAtZero | connectors/telegram/updates.go:164-167 | without a working save, or when the load fails, a start begins at offset 0 |
| TelegramResume.OnlyHigherAfterSave | connectors/telegram/updates.go:164-213 | once a save worked, and while no later start fails to load, only ids above the last one emitted before it are emitted, whatever else fails |
| TelegramResume.SavedNeverRepeats | connectors/telegram/updates.go:164-213 | if moreover polls return at least what was fetched and is still held, no id emitted up to the save is emitted again |
| TelegramResume.SavedIdRepeats | connectors/telegram/updates.go:178-212 | a run with a shorter poll, in which an id emitted before a working save is emitted again after it |
| TelegramSaved.RepeatsExactly | connectors/telegram/updates.go:164-213 | after a save that worked, no continuation whose loads work emits an id emitted before, if and only if none of those lies above the last one emitted |
| TelegramSaved.HigherComesAgain | connectors/telegram/updates.go:178-213 | an id above the last one emitted before the save is emitted again in a continuation without any failure |
| TelegramResume.FailingEmitStops | connectors/telegram/updates.go:201-203 | a failing emit ends the subscription and saves and confirms nothing |
| Rss.DiffItems | connectors/rss/diff.go:18-45 | the items before the first one with the watermark's id, and the new watermark, in every branch |
| Rss.DiffOnWindow | connectors/rss/diff.go:18-45 | on a newest-first window of an append-only log the difference is exactly the unseen part of the window and the new watermark names its newest entry |
| Rss.EmitOldestFirst | connectors/rss/trigger.go:75-88 | what reaches the sink is the unseen items oldest first, or a front of that when an emit fails |
| Rss.PollOnce | connectors/rss/trigger.go:72-93 | one poll, from loading to saving, is one step of the transition system |
| Rss.Subscribe | connectors/rss/trigger.go:29-95 | every run under a supervisor is a run of the transition system |
| RssRuns.PollEmits | connectors/rss/trigger.go:72-91 | a poll emits the unseen part of the window in log order, all or a front, and moves the watermark to the window's end only if it completes and saves |
| RssRuns.StepKeeps | connectors/rss/trigger.go:47-94 | every step keeps the record of positions in step with the state, and the watermark does not move back |
| RssRuns.StepCovers | connectors/rss/trigger.go:72-91 | a step loses nothing that was due if and only if it is not a poll that works without a watermark (failed load, no save so far, or only empty windows), leaves the backlog out and stores the end of a window in which an item after the backlog was never emitted |
| RssRuns.NoLossExactly | connectors/rss/trigger.go:47-94 | over a run, everything the watermark passes was emitted or missed, if and only if every step is harmless in that sense |
| RssRuns.MissedMeans | connectors/rss/diff.go:18-45 | a missed position had left the window when the watermark passed it, or lies before the end of the first completed poll's window and was passed without a watermark |
| RssRuns.FirstMeans | connectors/rss/trigger.go:49-57 | the end of the backlog is the end of the window of the first poll that completed |
| RssRuns.AtLeastOnce | connectors/rss/trigger.go:47-94 | in runs of harmless steps, with failing emits, saves, fetches, loads and deaths, every entry below the watermark was emitted, or had left the window or was backlog when the watermark passed it |
| RssRuns.WatermarkMonotone | connectors/rss/actions.go:18-39 | the persisted watermark always names a position of the log and never moves back |
| RssRuns.SavedNeverRepeats | connectors/rss/trigger.go:72-91 | a poll whose load works emits only positions from the watermark on, and everything emitted before the last save lies below it |
| RssRuns.SmoothHarm | connectors/rss/trigger.go:72-93 | while nothing fails, a poll does harm if and only if it is the first to find items, leaves the backlog out, follows a completed poll of an empty window, and sees an item published after that poll |
| RssRuns.SmoothRunsEmitOnce | connectors/rss/trigger.go:47-94 | while nothing fails, items are emitted in log order and none twice, and each entry below the watermark is either emitted or missed if and only if every step is harmless |
| RssRuns.FailedLoadEmitsNothing | connectors/rss/trigger.go:72-91 | after a failed load a completed poll moves the watermark to the window's end and emits nothing |
| RssRuns.LoadErrorLosesItem | connectors/rss/trigger.go:72-91 | a run of five choices in which a failed load makes the watermark pass an item neither emitted nor missed |
| RssRuns.FailedSaveLosesItem | connectors/rss/trigger.go:72-91 | the same without a failed load: the first poll's save fails |
| RssRuns.EmptyFeedLosesItem | connectors/rss/diff.go:18-30 | the same with nothing failing: the first poll finds an empty feed |
| RssBacklog.FlagMeans | connectors/rss/trigger.go:29-93 | the flag is what the subscription was started with until its first completed poll, and then off for as long as it lives |
| RssBacklog.BacklogMeans | connectors/rss/trigger.go:72-93 | a poll without a watermark emits its whole window, oldest first, if the subscription includes the backlog and no poll of it has completed, and nothing otherwise |
| RssBacklog.MarkMeans | connectors/rss/trigger.go:72-88 | a poll with a watermark emits the entries of its window behind the entry the watermark names, whatever the flag |
| RssList.RunListNew | connectors/rss/actions.go:91-117 | list-new saves before it returns, and returns nothing when loading or saving fails |
| RssList.ListedMeans | connectors/rss/actions.go:98-116 | a call returns the unseen part of the window only if the watermark has moved past it |
| RssList.NeverTwice | connectors/rss/actions.go:91-117 | whatever loads, saves and processes fail, no item is ever returned twice |
| Matrix.EmitRoom | connectors/matrix/trigger.go:103-123 | one room's passing events reach the sink in timeline order, or a front of them |
| Matrix.EmitAll | connectors/matrix/trigger.go:102-124 | all rooms in the order visited, or a front when an emit fails |
| Matrix.SyncOnce | connectors/matrix/trigger.go:88-127 | one turn of the loop is one step of the transition system |
| Matrix.Subscribe | connectors/matrix/trigger.go:65-128 | every run under a supervisor is a run of the transition system |
| MatrixRuns.RoomOrder | connectors/matrix/trigger.go:102-124 | whatever order the map of rooms is visited in, each room's part of the output is its passing events in timeline order |
| MatrixRuns.AllEmitted | connectors/matrix/trigger.go:102-124 | every passing event of a response is emitted |
| MatrixRuns.ResponseEmittedOnce | connectors/matrix/trigger.go:102-124 | a response emits exactly its passing events, each as often as it occurs |
| MatrixRuns.StepCovers | connectors/matrix/trigger.go:65-127 | a step keeps both tokens behind what was emitted if and only if it does not seed past a token that failed to load while passing events wait there |
| MatrixRuns.NoLossExactly | connectors/matrix/trigger.go:65-128 | over a run, neither token is ever ahead of what was emitted if and only if every step is harmless in that sense |
| MatrixRuns.AtLeastOnce | connectors/matrix/trigger.go:65-128 | with failing emits, saves, syncs, harmless loads and deaths, every passing event between the first persisted token and the current one was emitted |
| MatrixRuns.LoadErrorSkips | connectors/matrix/trigger.go:65-78 | a run in which a failed load passes over an event that is never emitted |
| MatrixRuns.SmoothRunsEmitOnce | connectors/matrix/trigger.go:81-128 | without failures a live loop emits exactly the passing events between its old and its new token |
| MatrixFilter.TimelineMeans | connectors/matrix/trigger.go:102-103 | a room's timeline is the events of that room, in order |
| MatrixFilter.EmissionsMean | connectors/matrix/trigger.go:102-124 | a response emits each event as often as it occurs there if the filter is empty or names its kind, and never otherwise |
| MatrixFilter.EmitResponse | connectors/matrix/trigger.go:102-124 | the same of the loop over the rooms: it appends exactly those events |
| MatrixFilter.OnlyKindsAskedFor | connectors/matrix/trigger.go:104-106 | in every run only events of the server and of a kind asked for are emitted |
| MatrixFilter.EveryKindAskedFor | connectors/matrix/trigger.go:65-128 | in every harmless run each event of a kind asked for between the first persisted token and the current one was emitted |
| MatrixFilter.SmoothCounts | connectors/matrix/trigger.go:81-128 | without failures a live loop emits each event between its old and new token as often as it stands there if its kind is asked for, and nothing else |
| MatrixResume.NothingBeforeToken | connectors/matrix/trigger.go:65-128 | in every run, once a token is persisted, nothing that stands before it in the log is emitted again, and the token never moves back |
| MatrixResume.StartsAt | connectors/matrix/trigger.go:65-79 | a start goes on at the persisted token; without one, or when it fails to load, behind everything the server holds; when the seed fails too it does not start |
| MatrixResume.CleanRunsEmitOnce | connectors/matrix/trigger.go:65-128 | while loads, saves and emits work, whatever deaths and restarts, each event between the tokens is emitted as often as it stands there if its kind is asked for, and nothing else |
| SessionCache.RpcServer.CloseEvery | cmd/pgf/serve.go:143-152 | closes every cached session in the order visited and empties the cache |
| SessionCache.RpcServer.SessionFor | cmd/pgf/serve.go:277-313 | undisturbed, a call returns the cached session or caches the one it opens, and closes nothing |
| SessionCache.Serve | cmd/pgf/serve.go:277-313 | any interleaving of the atomic sections is a run of the transition system |
| SessionRuns.CommitPlaced | cmd/pgf/serve.go:304-313 | committing caches the session its call held, or leaves it held when another call was faster, and moves no other session |
| SessionRuns.DiscardPlaced | cmd/pgf/serve.go:305-309 | the loser's session becomes closed, and no other session moves |
| SessionRuns.CloseAllPlaced | cmd/pgf/serve.go:143-152 | closing everything turns each cached place into one close and keeps the rest |
| SessionRuns.StepPlaced | cmd/pgf/serve.go:277-313 | every atomic section keeps each opened session in exactly its recorded place |
| SessionRuns.ExactlyOnePlace | cmd/pgf/serve.go:277-313 | in every interleaving each opened session is in exactly one place: cached under one key, held by one call, or closed once |
| SessionRuns.SameSession | cmd/pgf/serve.go:277-313 | before closeAll all successful calls for a key return the same session, which is not closed |
| SessionRuns.CloseAllClosesEverything | cmd/pgf/serve.go:141-152 | if closeAll runs with no call in flight every session ever opened has been closed exactly once |
| SessionRuns.ClosedUnlessHeld | cmd/pgf/serve.go:141-152 | after closeAll an opened session is closed if and only if no call still holds it |
| SessionRuns.LateCommitStaysOpen | cmd/pgf/serve.go:304-312 | a call that commits after closeAll leaves its session cached and open |
| SessionOutcomes.FailsExactly | cmd/pgf/serve.go:286-302 | in every interleaving a finished call ended with an error if and only if its own open failed |
| SessionOutcomes.ReturnsCached | cmd/pgf/serve.go:277-313 | before closeAll every finished call whose open did not fail returned the session cached for its key, losers of a race included |
| SessionOutcomes.KeepsKey | cmd/pgf/serve.go:277-284 | a call is about the key it was made for |
| SessionOutcomes.RaceResolved | cmd/pgf/serve.go:304-313 | two racing calls both get the first one's session, and the second one's own is closed |
| FileStore.Store.Get | state/fsstore/fsstore.go:86-96 | absence is no error, any other failing read is; otherwise the stored value |
| FileStore.Store.Put | state/fsstore/fsstore.go:98-114 | wherever it stops, the key has its complete old or new value, the new one after success, and all other keys keep theirs |
| FileStore.Store.Delete | state/fsstore/fsstore.go:116-124 | wherever it stops, the key has its old value or none, none after success, and all other keys keep theirs |
| FileStore.Store.Keys | state/fsstore/fsstore.go:126-149 | no keys for an absent directory, an error for an unlistable one, otherwise the contents of the readable sidecars that begin with the prefix, in listing order |
| FileStore.NamesApart | state/fsstore/fsstore.go:78-82 | value, sidecar and temporary files of all keys never collide, and only sidecars end in .key |
| FileStore.PutIsAtomic | state/fsstore/fsstore.go:98-114 | wherever a Put stops, Get returns the complete old or the complete new value, the new one after success, and no other key changes |
| FileStore.DeleteIsAtomic | state/fsstore/fsstore.go:116-124 | wherever a Delete stops, Get returns the old value or nothing, nothing after success, and no other key changes |
| FileStore.StoreRefinesMap | state/fsstore/fsstore.go:86-124 | after any operations with errors and crashes anywhere, Get answers as a map does |
| FileStore.CleanRunPaired | state/fsstore/fsstore.go:98-124 | while nothing fails, values and sidecars come in pairs and each sidecar holds its key |
| FileStore.KeysListStoredKeys | state/fsstore/fsstore.go:126-149 | while no operation and no read fails, Keys lists exactly the stored keys with the prefix, once each |
| FileStore.KeysExactly | state/fsstore/fsstore.go:98-149 | after any failures and crashes that tear no sidecar, Keys lists exactly the stored keys with the prefix, once each, if and only if each of them has its sidecar and none of those is orphaned |
| FileStore.TornSidecarLies | state/fsstore/fsstore.go:112-113 | a torn write leaves a sidecar that holds a proper prefix of its key |
| FileStore.CrashHidesKey | state/fsstore/fsstore.go:109-113 | a crash between rename and sidecar leaves a key that Get finds and Keys cannot list |
| WebCache.PreimageInjective | connectors/web/cache.go:26-38 | for URLs without NUL the hashed text determines URL, mode and user agent |
| WebCache.NulCollision | connectors/web/cache.go:26-38 | the key function alone gives two different requests one key when a URL holds a NUL |
| WebCache.KeysApart | connectors/web/cache.go:26-38 | keys are equal if and only if URL, mode and user agent are |
| WebCache.Session.ReadCache | connectors/web/cache.go:43-59 | a hit exactly when the cache is on, readable and the entry no older than the limit |
| WebCache.Session.WriteCache | connectors/web/cache.go:61-70 | stores the entry under its key, or nothing |
| WebCache.Session.FetchOrCache | connectors/web/fetch.go:67-91 | the effective user agent, hit, miss, error and store as specified |
| WebCache.RunFaithful | connectors/web/fetch.go:67-91 | after any calls the store holds, for each URL, mode and agent, the entry most recently stored by a real fetch |
| WebCache.CacheAgreesWithFetching | connectors/web/fetch.go:67-91 | a reply comes from the cache if and only if that latest entry is within the caller's limit, and it is then that entry |
| WebCache.CachedAge | connectors/web/cache.go:55-57 | with a clock that does not run backwards a cached reply is between 0 and the limit old |
| WebCache.WaitForIsIgnored | connectors/web/fetch.go:75-79 | the selector to wait for is not part of the key, so one selector's page answers a request for another |
| WebCache.MissFetches | connectors/web/fetch.go:67-91 | a reply not from the cache is that of a fetch under the request's user agent, else the configured one, else the default: an error if it fails, the fetched page otherwise; a cached reply changes nothing |
| WebCache.FetchedThenCached | connectors/web/fetch.go:67-91 | a page just fetched and stored is the reply to the same request at once after it, within the limit |
| Paths.SegmentsOfRender | connectors/file/local.go:50-51 | writing segments as a clean path and reading them back is the identity |
| Paths.JoinWalks | connectors/file/local.go:50-51 | joining a key to a root is walking along the key from the root |
| Paths.RelEscapes | connectors/file/local.go:55-61 | the relative path begins with .. if and only if the root's segments are not a prefix of the target's |
| Paths.ResolveExactly | connectors/file/local.go:45-63 | a key is accepted if and only if the path it leads to has the root as a segment prefix, and that path is returned |
| Paths.KeyRoundTrip | connectors/file/local.go:45-73 | resolving the key of an accepted path gives the path back |
| Paths.NormalForm | connectors/file/local.go:180-206 | naming after resolving is idempotent, so Put reports the entry it wrote |
| Paths.FieldsMean | connectors/file/local.go:50-51 | empty fields and dots stay, a name goes down, dot-dot undoes it and does nothing at the top |
| Paths.PlainKeys | connectors/file/local.go:45-63 | a key of plain names leads there below the root, with or without a leading slash |
| Paths.UpAndDown | connectors/file/local.go:50-61 | a key that goes up n levels and down again is refused if and only if it does not come back through the root's own last n names |
| Paths.UnderRootExactly | cmd/pgf/paths.go:49-58 | the string test holds if and only if the root's segments are a prefix of the path's, for the root / and names sharing a string prefix too |
| Paths.PathUnderAny | cmd/pgf/paths.go:40-61 | true if and only if some allowed root is a segment prefix of the path |
| Params.AddParam | cmd/pgf/main.go:399-410 | whatever values the overrides held for a key, they then hold those and the new one, as a text if it is the only one and a list otherwise; other keys keep theirs |
| Params.ParamFolds | cmd/pgf/main.go:390-410 | one more -p keeps every override the promotion of the values given so far, in order |
| Params.InputFolds | cmd/pgf/main.go:378-389 | one more --input keeps every base entry the last --input binding |
| Params.ParseParams | cmd/pgf/main.go:369-420 | succeeds exactly on well-formed pairs; a key given once by -p is that text, given more often the list in order, and any other key its last --input binding |
| Params.PairMeans | cmd/pgf/main.go:374-415 | a pair is accepted if and only if it is -p or --param with an equals sign in its argument, or --input or -i with a readable one, and means key and value around the first equals sign, or the object read |
| Params.ItemMeans | cmd/pgf/main.go:376-410 | one more -p adds its value to its key's list only; one more --input rebinds the keys it holds |
| Params.ItemsByKind | cmd/pgf/main.go:374-415 | an argument list is accepted if and only if its -p pairs and its --input pairs are, each kind on its own |
| Params.InterleavingIrrelevant | cmd/pgf/main.go:362-372 | rearranging an accepted argument list so that each kind of pair keeps its order gives an accepted list that binds every key alike |
| Params.CutAtFirst | cmd/pgf/main.go:395 | key and value are separated at the first equals sign |
| Amounts.Round2Near | connectors/lexoffice/write.go:30 | a non-negative amount moves by at most half a cent |
| Amounts.Round2Monotone | connectors/lexoffice/write.go:30 | rounding keeps order on non-negative amounts |
| Amounts.Round2OfCents | connectors/lexoffice/write.go:30 | a whole number of cents is kept if and only if it is not negative |
| Amounts.Round2Idempotent | connectors/lexoffice/write.go:30 | rounding a non-negative amount twice is rounding it once |
| Amounts.CentsExactly | connectors/lexoffice/write.go:30 | a non-negative amount gives the nearest number of cents, halves up; a negative one is cut toward zero after the half is added |
| Amounts.TripleMeans | connectors/lexoffice/write.go:49-57 | given amounts are kept; a missing net is the one the rate brings to the gross, a missing tax the rate's share of the net, a missing gross their sum |
| Amounts.FillIn | connectors/lexoffice/write.go:49-58 | net from gross, tax from net, gross from both, each only where not given, and all rounded |
| Amounts.ComputeAmounts | connectors/lexoffice/write.go:38-59 | reverse charge gives gross = net and tax 0; otherwise the missing amounts are derived from the given ones and all three rounded, a rate of 0 meaning 19 percent; no amounts exactly for a gross amount at -100 percent |
| Amounts.ExactAddsUp | connectors/lexoffice/write.go:49-57 | from only net, only gross or net with tax, the unrounded net and tax add up to the gross |
| Amounts.WithinACent | connectors/lexoffice/write.go:49-58 | each returned amount is within half a cent of its exact value, and net plus tax misses gross by at most one cent |
| BufferItoa.FillDigits | connectors/jina/helpers.go:40-44 | the digits of a number that fits before the first cell end up at the end of the buffer, leaving a cell free for the sign |
| BufferItoa.Print | connectors/jina/helpers.go:30-50 | every 64-bit number but the minimum prints as its decimal numeral without leaving the buffer; the minimum prints as a lone sign |
| BufferItoa.ParsesBack | connectors/jina/helpers.go:30-50 | the text parses, and to the same number, if and only if the number is not the minimum |
| BufferItoa.NoLeadingZeros | connectors/jina/helpers.go:30-50 | no printed number but 0 begins with a zero |
| Retry.DelayIsCapped | transport/http/retry.go:28-35 | from an initial delay within the cap the k-th delay is min(initial * 2^k, max) |
| Retry.CappedThroughout | transport/http/retry.go:22-35 | every delay is min(initial * 2^k, max) if and only if the initial delay is within the cap |
| Retry.Backoff.constructor | transport/http/retry.go:22-24 | starts with no step taken |
| Retry.Backoff.Next | transport/http/retry.go:28-35 | returns the delay of the current step count and takes a step |
| Retry.Backoff.Reset | transport/http/retry.go:38 | returns to step 0 with the same bounds |
| Retry.Replay | transport/http/retry.go:15-38 | in every interleaving the delay of a Next depends only on how many Next calls follow the last Reset |
| Retry.RetryOn | transport/http/retry.go:51-86 | stops at the first success or other error or after five calls, returns that outcome, and has slept 600 (2^r - 1) ms after r retryable failures; cancellation ends it at the next sleep |
| Secrets.OpenOfSealed | secrets/vault.go:111-146 | opening a sealed text gives the text back |
| Secrets.SealValues | secrets/values.go:11-35 | the loop is the fold of the per-field step, failing as soon as a step fails |
| Secrets.OpenValues | secrets/values.go:39-63 | the loop is the fold of the per-field step, failing as soon as a step fails |
| Secrets.SealsSecrets | secrets/values.go:11-35 | sealing keeps the keys, seals exactly the non-empty unsealed texts of secret fields, and leaves every other entry alone |
| Secrets.SealedEntries | secrets/values.go:11-35 | an unmarked text under the name of a secret field becomes a marked text that opens to it; every other entry is as before |
| Secrets.WithoutVault | secrets/values.go:28-31 | without a vault sealing fails if and only if some secret field holds an unmarked text, and else changes nothing |
| Secrets.SealFailsExactly | secrets/values.go:28-31 | with a vault it fails if and only if no nonce can be had for a field that is the first to ask for its entry |
| Secrets.OpensExactly | secrets/values.go:39-63 | where secret fields name different entries, opening fails if and only if some secret text does not open, and else replaces exactly the secret texts by what they open to |
| Secrets.OpenUndoesSeal | secrets/values.go:9-63 | opening after sealing is the identity if and only if no secret text begins with the marker, repeated fields included |
| Secrets.MarkedSecretIsLost | secrets/values.go:24-27 | a secret that begins with the marker is stored as it is and does not come back |
| Secrets.SealIdempotent | secrets/values.go:9-10 | sealing what is sealed changes nothing and needs neither vault nor nonce |
| Secrets.OthersUntouched | secrets/values.go:44-61 | opening leaves non-secret, empty, nil and non-string entries alone |
| Decimal.AtoiOfFormatInt | connectors/email/parse.go:172-204 | parsing undoes printing on all 64-bit numbers |
| Decimal.AtoiMeans | connectors/email/parse.go:172-204 | a text parses if and only if it is at most one sign and then digits, and fits 64 bits |
| Text.SplitOfJoin | connectors/email/parse.go:217 | splitting a joined number gives back its fields |

## Left out

- Connector actions that only build JSON and call HTTP: request plumbing without an invariant of its own.
- Networks, IMAP, S3, browsers and feeds: their answers are parameters or choices of the environment.
- Regular expressions, glob matching, hashing, base64, secretbox, JSON, transfer and encoded-word decoding: parameters,
  with injectivity or inverses required where a lemma needs them.
- The byte-level multipart parser: the parsed tree is the input, and malformed input is a shorter list of parts.
- Symbolic links, Windows separators and operating-system path errors: the resolved absolute path is the input.
- Float64: amounts are exact reals.
- Amounts.ComputeAmounts: for a gross amount at a rate of -100 percent, a division by zero, the model says only that no
  amounts come of it; what the conversion of an infinity to an integer gives is up to the platform.
- 64-bit overflow of Telegram offsets, of file offsets and of back-off durations.
- Telegram's start_offset of -1 or above 0 and its allowed_updates filter: they skip or confirm unseen updates on purpose.
- Telegram's server: ids are positive and grow, and a poll with a positive offset drops what is below it.
- RSS mark-seen and reset, feeds that reorder or reuse item ids, and the second key list-new stores (the time of the
  fetch).
- Matrix responses with an empty token or a truncated timeline.
- WebCache.NulCollision: is about the key function only; `connectors/web/fetch.go:42` turns such URLs away before, which
  is why the other cache lemmas ask for URLs without NUL.
- FileStore.KeysExactly: leaves out sidecars torn in the middle (FileStore.TornSidecarLies) and unreadable ones.
- FileStore.Store.Keys: takes the directory listing and which sidecars can be read as parameters; after a crash it may
  miss a key (FileStore.CrashHidesKey), and concurrent stores on one directory are not modelled.
- Search.ScanFile: a file that opens but cannot be repositioned after the first look at it.
- SessionRuns.CloseAllClosesEverything: needs that no call is in flight; SessionRuns.ClosedUnlessHeld says what
  holds otherwise, and SessionRuns.LateCommitStaysOpen that a later commit stays open.
- Search.Search: starts after the pattern compiled and the prefix resolved; cancellation is a number of context checks
  that still succeed.
- Paths.PathUnderAny: takes the roots in clean form, as allowedPaths produces them.
- Mutexes, goroutines and Go's memory model beyond the atomic sections of the session cache.
- parseTTL, allowedPaths, the wizard, flag parsing, printing, webhooks, the registry, schemas and storage/yamlstore: user
  interface or easy variants of what is here.
