# A verified model of Gossiper

Gossiper receives mail, looks up the jobs of its recipients and calls their webhooks. This project
models the parts of it whose correctness spans several functions, goroutines or runs, in Dafny, and
proves what they promise.

| files | what they model |
|---|---|
| `TagIndex.dfy` | the tag index of the in-memory cache: two nested maps, changed in place |
| `CacheStore.dfy` | cache keys, and the cache store one client operation at a time |
| `CacheInterleaving.dfy` | overlapping `set` and `flush`, evictions, late deletion notifications |
| `WebSocketWorker.dfy` | the websocket worker: reader, channels, select loop, wait group, shutdown |
| `Processing.dfy`, `RequestHeaders.dfy` | recipients, jobs, results, webhook calls and their headers |
| `Intake.dfy`, `Poller.dfy` | the message table, one SMTP session, one poll and repeated polls |
| `Pipeline.dfy`, `PollRun.dfy`, `PollOrder.dfy` | overlapping sessions and a poller as one step system; a poll as a run of it; oldest first |
| `Text.dfy`, `Html.dfy`, `MailText.dfy` | string functions, the tag stripper, the mail printer and parser |
| `Pager.dfy` | the pager, with its floating-point page count |
| `PageCache.dfy` | rendering, caching and serving pages |
| `PasswordTokens.dfy` | password reset tokens and the reset |
| `TaskQueue.dfy`, `TaskInterleaving.dfy` | saving tasks through pooled buffers, alone and overlapping |
| `Common.dfy` | shared definitions |

Code that changes objects in place is a class whose methods are proved against specification
functions; goroutines and overlapping calls are step systems, where a run is any sequence of enabled
steps. Libraries, the database, the network, the clock and randomness are parameters or free choices
of a step: every answer they may give is covered.

Some promises hold only under a condition. Where that is so, the condition is proved to be exact:

* A second `set` of a live key may lose its tags: the deletion listener hears that the value was replaced, and
  nothing orders that notification and `setTags`. The key carries the given tags exactly when it was not live
  before or no such notification came after the tagging (`Set`, `StoredTags`), and a later flush by one of these
  tags misses it otherwise (`FlushAfterSet`). Over whole runs, a key-tag pair is indexed exactly when some
  `setTags` added it and no notification or purge naming its key or tag came later (`IndexedPairs`,
  `PairSurvives`); `ReplacementUntagsLiveKey` and `LateNotificationUntagsLiveKey` are concrete runs.
* A `set` that tags its key after the key was stored, evicted and reported leaves a dead key in the tag
  index. `TracksStep` shows that this is the only harmful step; once all is quiet, every indexed key is live
  exactly when no key was tagged dead and then neither stored nor flushed (`QuietIndexIsLive`);
  `DeadKeyCanStayIndexed` is a concrete run. The comment on `tagIndex` that everything is kept in sync holds only without these runs.
* `setTags` without a tag leaves an empty row for a new key (`SetTagsPairs`).
* A printed reply reads back as the same subject exactly when nothing visible follows a line feed in the
  subject, and as the same body exactly when the body opens with a line feed, has no two adjacent ones, or has nothing
  visible before the first two (`SubjectRoundTrip`, `BodyRoundTrip`).
* The page count is exact for all counts up to n exactly when n is at most 2^53, and at one item per page it is
  exact for the item counts that are doubles (`FloatCeilingIsExact`, `ExactUpTo`, `OnePerPage`).
* A queued message is spoiled by an overlapping save exactly when that save writes a piece of an encoding in
  place into the message's array and the piece differs from the message there (`SpoiledExactlyByOverwriting`,
  `SentUnlessOverwritten`); it happens between any two saves (`MixedMessageIsSent`, `MixedThoughItDidNotFit`).
* The headers of a webhook call depend on the iteration order of a map exactly when two given names with one
  canonical form are sent with different values (`HeadersAreDetermined`).
* A poll with failures leaves processed messages no newer than waiting ones exactly when it fails on no message
  older than one it marks (`PollKeepsOrder`); over runs, `OrderBrokenOnlyBy` names the only steps that do harm.
* A reset leaves the user without a usable token exactly when both its queries succeeded or there was none. One
  whose token deletion fails has changed the password and kept the tokens (`ResetClosesExactlyIf`,
  `PasswordsAreLatestResets`).

## Model

| member | source | states |
|---|---|---|
| TagIndexing.TagIndex.SetTags | pkg/services/cache.go:294-309 | the two maps after the nested inserts are those of the specification |
| TagIndexing.TagIndex.PurgeTags | pkg/services/cache.go:311-333 | both maps and the returned keys, with multiplicity, whatever the map iteration order |
| TagIndexing.TagIndex.PurgeKeys | pkg/services/cache.go:335-351 | the two maps after the named keys are gone, whatever the map iteration order |
| TagIndexing.SetTagsPairs | pkg/services/cache.go:294-309 | setTags adds exactly the given key-tag pairs; no empty row arises iff a tag was given or the key was already tagged |
| TagIndexing.PurgeTagsPairs | pkg/services/cache.go:311-333 | purgeTags removes exactly the pairs of the given tags and keeps the maps mirror images without empty rows |
| TagIndexing.PurgeKeysPairs | pkg/services/cache.go:335-351 | purgeKeys removes exactly the pairs of the given keys and keeps the maps mirror images without empty rows |
| TagIndexing.PurgedMultiplicity | pkg/services/cache.go:311-333 | purgeTags returns each key once per distinct given tag it carried |
| TagIndexing.RelationDeterminesIndex | pkg/services/cache.go:54-58 | a well-formed index is determined by its key-tag relation |
| TagIndexing.BothSidesCountPairs | pkg/services/cache.go:54-58 | both maps hold as many entries as there are key-tag pairs |
| CacheKeys.KeyParts | pkg/services/cache.go:116-121 | group, two colons and key, or the key alone |
| CacheKeys.GroupsCollide | pkg/services/cache.go:116-121 | two groups can share a cache key iff one group + "::" is a prefix of the other |
| CacheKeys.KeyIsInjective | pkg/services/cache.go:116-121 | over colon-free non-empty groups the cache key determines group and key |
| CacheStore.InMemoryCacheStore.Set | pkg/services/cache.go:217-261 | a successful set refines a map update of (value, tags) for every moment at which a replacement may be notified; the given tags are kept iff the key was not live or that moment was not after the tagging; after a refused set every indexed key is live iff it had no tags or the key was live |
| CacheStore.InMemoryCacheStore.Flush | pkg/services/cache.go:263-281 | a flush removes exactly the named key and the entries under one of the tags, and leaves all other entries and index rows |
| CacheStore.InMemoryCacheStore.StoreDelete | pkg/services/cache.go:217-221 | a deleted key leaves store and index together, by way of the deletion listener |
| CacheStore.NamedKeys | pkg/services/cache.go:270-272 | the keys a flush collects from its tags are those carrying at least one of them |
| CacheStore.StoredTags | pkg/services/cache.go:243-261 | the tags of a key just set, for every moment of a replacement's notification: all of the given ones iff none came after the tagging; other entries are untouched |
| CacheStore.FlushAfterSet | pkg/services/cache.go:243-281 | a flush removes an entry just set iff it names its key or one of its tags; by a tag that was given it misses iff a late notification had untagged the key; flushing twice is flushing once |
| CacheInterleaving.EveryInterleavingKeepsTheIndex | pkg/services/cache.go:219-351 | in every interleaving the index is symmetric, canonical and a function of its relation |
| CacheInterleaving.LiveKeys | pkg/services/cache.go:243-281 | after every run a key is live iff some set stored it and nothing evicted or deleted it after that |
| CacheInterleaving.EveryLifeIsReportedOnce | pkg/services/cache.go:217-221 | over every run each life of a key, and each replacement to be reported, is reported once: delivered, waiting, or still live |
| CacheInterleaving.SetTagsWhatItWasGiven | pkg/services/cache.go:252-254 | whatever happens in between, a set given tags comes to its setTags, which indexes its key under all of them |
| CacheInterleaving.FlushUntags | pkg/services/cache.go:270-272 | whatever happens in between, purgeTags returns exactly the keys that carry one of the tags of the flush by then |
| CacheInterleaving.FlushedKeysAreGone | pkg/services/cache.go:263-281 | at the end of a flush no key it named or its purgeTags returned is live unless stored again after its deletion, and none is indexed |
| CacheInterleaving.FlushTouchesNoOther | pkg/services/cache.go:263-281 | a flush deletes and unindexes no key but those |
| CacheInterleaving.ClientIsNeverStuck | pkg/services/cache.go:243-281 | in every reachable state a client in the middle of a set or flush has a next step |
| CacheInterleaving.TracksStep | pkg/services/cache.go:243-281 | a step keeps every indexed key live or on its way out iff it is not a setTags for a dead key |
| CacheInterleaving.QuietIndexIsLive | pkg/services/cache.go:243-281 | over every run, once all is quiet, every indexed key is live iff no key was tagged dead and neither stored nor flushed after that |
| CacheInterleaving.PairStep | pkg/services/cache.go:219-351 | after a step a pair is indexed iff the step added it, or it was there and the step is no notification or purge naming its key or tag |
| CacheInterleaving.IndexedPairs | pkg/services/cache.go:219-351 | after every run from the start a pair is indexed iff some setTags added it and no later step removed it |
| CacheInterleaving.PairSurvives | pkg/services/cache.go:219-351 | a pair survives a further run that does not add it again iff no notification about its key and no purge by its key or tag occurs |
| CacheInterleaving.DeadKeyCanStayIndexed | pkg/services/cache.go:243-261 | a run after which all is quiet and a dead key is still indexed |
| CacheInterleaving.LateNotificationUntagsLiveKey | pkg/services/cache.go:219-221 | a run after which all is quiet and a live, tagged key has lost its tag |
| CacheInterleaving.ReplacementUntagsLiveKey | pkg/services/cache.go:219-256 | the same for one client that sets a key twice, without any eviction |
| WebSocketWorker.NothingLostOrReordered | pkg/worker/client.go:34-61 | read = dispatched, buffered, in hand, dropped, in that order; the buffer keeps its capacity; at most one drop, after a cancellation |
| WebSocketWorker.ChannelDiscipline | pkg/worker/client.go:35-50 | each channel is closed once and after the last send; at most one error is sent and that send never blocks; any number of Shutdown calls closes once |
| WebSocketWorker.ReturnsWhatItTook | pkg/worker/worker.go:64-93 | Start is on its way out iff its select took a case that returns, with what that case says: a received error, a shutdown, the closed messages, a cancellation drained or timed out |
| WebSocketWorker.TrafficFollowsSteps | pkg/worker/worker.go:81-92 | what was read, parsed, spawned and finished over a run is what its steps did; live goroutines are those spawned and not finished |
| WebSocketWorker.SignalsFollowSteps | pkg/worker/client.go:38-60 | errors sent and received, failed reads, shutdown calls and cancellation are those of the steps; a failed read ends the reading, and else only a done work context does |
| WebSocketWorker.SelectSeesEverything | pkg/worker/worker.go:64-84 | in its select Start can take each case exactly when that case has something to see |
| WebSocketWorker.ReturnsAreJustified | pkg/worker/worker.go:45-143 | the wait group counts the live goroutines; every return has its cause; a drained cancellation leaves none live |
| WebSocketWorker.ReaderExits | pkg/worker/client.go:38-60 | after Start has returned the reader is never blocked and takes at most a fixed number of steps |
| WebSocketWorker.ReturnDisconnects | pkg/worker/worker.go:52-58 | from every reachable return, at most four reader steps follow |
| WebSocketWorker.StartIsNeverStuck | pkg/worker/worker.go:64-93 | until it returns, Start can move or waits for a reader that can |
| Processing.OnlyAnglesGo | pkg/smtp/server.go:66 | trimming takes off exactly the angle brackets at both ends |
| Processing.SameRecipientsAccepted | pkg/worker/processor.go:93-102 | isValidEmail holds exactly for the addresses that end in "@hostname", as the test of Rcpt does |
| Processing.ParseRawMessage | pkg/worker/processor.go:42-90 | equals fetching first and then keeping the valid recipients in order; fetches iff there is a valid recipient |
| Processing.MessagesAre | pkg/worker/processor.go:63-90 | one message for each valid recipient, in order, with the sender, subject and body of the mail |
| Processing.ProcessMessage | pkg/worker/processor.go:104-137 | one result per matching job, in order, with its payload or its error; a failed lookup fails |
| Processing.ResultsAre | pkg/worker/processor.go:112-134 | one result for each job whose pattern matches the sender, in order, with the job's fields and the generated payload, or failed and without one |
| Processing.AttemptsAre | pkg/worker/webhook.go:31-62 | one attempt for each such job whose payload is generated and whose request can be built, in order, with that payload |
| Processing.SendWebhook | pkg/worker/webhook.go:31-62 | an attempt is made iff the result has no error and a request can be built; the answer fails iff there was none or it was not answered |
| Processing.SendWebhooks | pkg/worker/webhook.go:81-90 | one attempt per sendable result and one answer per result, in order |
| RequestHeaders.BuildHeaders | pkg/worker/webhook.go:70-76 | the request carries exactly the job's headers, and a content type in any case |
| RequestHeaders.HeadersAreDetermined | pkg/worker/webhook.go:70-76 | the headers sent do not depend on the map iteration order iff names with one canonical form are sent with one value |
| Intake.Session.Rcpt | pkg/smtp/server.go:64-81 | a recipient is accepted iff it is local once its angle brackets are gone |
| Intake.Session.Data | pkg/smtp/server.go:84-114 | stores one row per recipient in order up to the first failure, which fails the command; each with its recipient, the sender and the parsed subject and body |
| Intake.Session.Reset | pkg/smtp/server.go:117-120 | sender and recipients are forgotten |
| Poller.SMTPMessagePoller.PollAndProcess | pkg/worker/poller.go:61-125 | which rows are marked, which attempts are made and which replies are sent, for every batch and every answer |
| Poller.MessageIsDone | pkg/worker/poller.go:84-117 | what the poll of one message attempts and replies, job by job and result by result |
| Poller.RepliesAre | pkg/worker/poller.go:100-112 | one auto-reply, to the sender of the message, for each result that was sent, answered and has a reply text, in order |
| Poller.PollIsDoneInTurn | pkg/worker/poller.go:82-121 | attempts and replies of a poll are those of its messages, one after the other |
| Poller.BatchExists | pkg/worker/poller.go:65-69 | for every table there is a batch the query can answer |
| Poller.MarkedIs | pkg/worker/poller.go:82-121 | a poll changes only marks, and marks exactly the messages whose lookup and save succeeded |
| Poller.FailureFreePoll | pkg/worker/poller.go:61-125 | without failures a poll marks min(10, n) of n waiting messages |
| Poller.PollProgress | pkg/worker/poller.go:93-121 | a poll makes progress iff lookup and save both succeed for some message of its batch |
| Poller.QuietQueueDrains | pkg/worker/poller.go:37-58 | a quiet queue of n is empty after the k-th poll iff k >= ceil(n/10) |
| Poller.PollKeepsOrder | pkg/worker/poller.go:65-121 | a poll with any failures leaves every processed message no newer than any unprocessed one iff it fails on none older than one it marks |
| PollOrder.OldestFirstAlways | pkg/worker/poller.go:61-125 | over every run without failures, with mail arriving at non-decreasing times at any moment, also during a poll, no processed message is ever newer than an unprocessed one |
| PollOrder.OrderBrokenOnlyBy | pkg/worker/poller.go:65-121 | in any run a step breaks that order iff it marks a message while an older one waits, or stores one older than a processed one |
| Pipeline.MailIsConserved | pkg/smtp/server.go:57-120 | over all overlapping sessions and polls, only local rows; a DATA that succeeded has one per RCPT accepted since the last reset, in order, with the sender of its MAIL and the subject and body of its text; one that failed a proper prefix |
| Pipeline.RowsAreAsAsked | pkg/smtp/server.go:84-114 | row by row: the recipient whose turn it was, the sender of the session, subject and body of the text of its DATA |
| Pipeline.SessionsFollowCommands | pkg/smtp/server.go:57-120 | over every run each session has the sender, recipients and phase that its own commands gave it |
| Pipeline.DecidedOnceStored | pkg/smtp/server.go:84-114 | a DATA is undecided exactly while a session is storing its rows |
| Pipeline.LogFollowsSteps | pkg/worker/poller.go:91-121 | one round per successful lookup with its jobs, one failed save or one mark per save |
| Pipeline.RoundOwes | pkg/worker/processor.go:112-134 | the attempts a round owes, job by job |
| Pipeline.PollIsNeverStuck | pkg/worker/poller.go:82-121 | in the middle of a poll the poller always has a next step |
| Pipeline.RowsKeepTheirOrigin | pkg/worker/poller.go:82-121 | a row keeps origin, content and creation time through to processed, and is never unprocessed again |
| Pipeline.PollerAccounts | pkg/worker/poller.go:82-121 | successful lookups = failed saves + 1 if processed; the attempts are exactly those owed by these rounds |
| Pipeline.ExactlyOnceWithoutFailedSaves | pkg/worker/poller.go:91-121 | a processed message without a failed save has one round, and was attempted once for each job of it that matches and can be sent |
| Pipeline.OneAttemptPerJob | pkg/worker/processor.go:112-134 | in a round each job is attempted once iff it matches and its payload and request can be built |
| PollRun.PollIsARun | pkg/worker/poller.go:61-125 | an uninterrupted poll is a run of the step system with the table and attempts of PollAndProcess |
| Html.StripBasicHTML | pkg/worker/fetcher.go:80-105 | the four replacements, the loop and the trim equal one single pass and a trim |
| Text.ReplaceAllIs | pkg/worker/fetcher.go:82-85 | a replacement keeps the parts between the leftmost occurrences and puts its text in their place |
| Html.LoopKeepsOutside | pkg/worker/fetcher.go:87-102 | the loop keeps exactly the characters outside of tags, in order, where every '<' before is closed by a later '>' |
| Html.MergePass | pkg/worker/fetcher.go:82-85 | a replacement pass followed by a pass with the remaining rules is one pass with all of them |
| Html.FourPassesInOne | pkg/worker/fetcher.go:82-102 | replacements and tag dropping equal the single pass on every text |
| Html.StripIsIdempotent | pkg/worker/fetcher.go:80-105 | the result has no angle bracket and no outer white space; stripping twice is stripping once |
| MailText.SendReply | pkg/worker/replier.go:31-41 | no mail for an empty body, and otherwise the printed message |
| MailText.LinesPrinted | pkg/worker/replier.go:36-41 | the printed message line by line |
| MailText.SubjectOfAnyMessage | pkg/smtp/server.go:128-137 | for every message: the subject is that of the first line that names one in any case, without the prefix when it is spelled "Subject:" |
| MailText.BodyOfAnyMessage | pkg/smtp/server.go:140-154 | for every message: the body begins behind the first two adjacent line feeds, else behind the first blank line, else is all of it |
| MailText.SubjectRoundTrip | pkg/smtp/server.go:128-137 | what the parser finds as the printed subject, and exactly when that is all of it |
| MailText.ReplyToStoredSubject | pkg/worker/poller.go:108 | a reply to a stored message always reads back as "Re: " and its subject |
| MailText.BodyCut | pkg/smtp/server.go:140-154 | where the parser cuts a printed message |
| MailText.BodyRoundTrip | pkg/smtp/server.go:140-154 | exactly when the parser gives the printed body back |
| MailText.CuttingSpace | pkg/smtp/server.go:144-151 | cutting a piece off a text leaves its TrimSpace alone iff the piece is white space |
| Doubles.FloatCeilingIsExact | pkg/page/pager.go:56 | the floating-point page count is the integer ceiling up to 2^53, for every rounding to nearest |
| Doubles.OnePerPage | pkg/page/pager.go:56 | at one item per page the page count is exact iff the item count is a double |
| Doubles.ExactUpTo | pkg/page/pager.go:56 | the page count is exact for all counts up to n iff n is at most 2^53 |
| Doubles.FloatCeilingFailsBeyond | pkg/page/pager.go:56 | at 2^53 + 1 items it is wrong for every rounding to nearest |
| Doubles.CeilDivIs | pkg/page/pager.go:51-56 | the ceiling is the least number of pages that holds the items |
| Paging.Pager.constructor | pkg/page/pager.go:34-49 | the page comes from a positive number in the query and is 1 otherwise |
| Paging.Pager.SetItems | pkg/page/pager.go:54-61 | items, page count and clamped page |
| Paging.ClampedPageIsValid | pkg/page/pager.go:54-80 | with items the page exists and its offset is inside them |
| Paging.WindowsPartition | pkg/page/pager.go:73-80 | each item lies in the window of exactly one of the pages 1..Pages |
| Paging.BeginningAndEnd | pkg/page/pager.go:64-71 | a page is the beginning iff nothing comes before it and the end iff nothing comes after |
| PageCache.TemplateRenderer.RenderPage | pkg/services/template_renderer.go:99-166 | status, headers and body of the response, and the step of the cache it performs, for every outcome |
| PageCache.ResponseParts | pkg/services/template_renderer.go:150-166 | status, body, and where each header of a response comes from |
| PageCache.TemplateRenderer.CachePage | pkg/services/template_renderer.go:169-212 | nothing is cached for an authenticated page or with caching off |
| PageCache.TemplateRenderer.GetCachedPage | pkg/services/template_renderer.go:215-227 | the page stored for the URL, if any |
| PageCache.ServeCachedPage | pkg/middleware/cache.go:19-61 | serves what the cache answers, iff it answers; otherwise leaves the response untouched |
| PageCache.HitReplaysTheResponse | pkg/middleware/cache.go:49-58 | what was stored of a response replays its status, body and exactly its single-valued headers |
| PageCache.PagesAreLatestSaves | pkg/services/template_renderer.go:169-203 | over every run the cache has an entry for a URL iff a save for it stands, and the entry is the snapshot of the response rendered then |
| PageCache.ServedIsLatestSave | pkg/middleware/cache.go:19-61 | over every run a request is served iff it is an unauthenticated GET for whose URL a save stands; the response replays the one of the latest save, which answered an unauthenticated request |
| PageCache.Site.Handle | pkg/middleware/cache.go:19-61 | middleware and renderer together perform these events, and the cached value always is a page |
| PasswordTokens.AuthClient.GeneratePasswordResetToken | pkg/services/auth.go:129-150 | the row that is stored |
| PasswordTokens.AuthClient.GetValidPasswordToken | pkg/services/auth.go:155-181 | valid iff id, user, age and hash agree |
| PasswordTokens.AuthClient.DeletePasswordTokens | pkg/services/auth.go:185-191 | exactly the user's tokens are deleted |
| PasswordTokens.AuthHandler.ResetPasswordSubmit | pkg/handlers/auth.go:358-398 | the password first, the tokens only after it succeeded |
| PasswordTokens.ValidTokens | pkg/services/auth.go:129-191 | over every run a token validates iff issued to that user with that secret, not expired, and not deleted since |
| PasswordTokens.ResetInvalidates | pkg/handlers/auth.go:375-393 | a successful reset invalidates all earlier tokens of the user |
| PasswordTokens.InvalidStaysInvalid | pkg/services/auth.go:155-181 | an invalid token does not become valid again |
| PasswordTokens.ResetClosesExactlyIf | pkg/handlers/auth.go:380-393 | after a reset no token of the user validates iff both queries succeeded or no issued token was still usable; the password is the new one whenever its update succeeded |
| PasswordTokens.PasswordsAreLatestResets | pkg/handlers/auth.go:380-393 | over every run the password is that of the latest reset whose update succeeded, whatever became of the tokens |
| TaskQueue.SavedTaskIsReceived | pkg/services/tasks.go:196-204 | the message of a save decodes to the saved task under its name |
| TaskQueue.Buffer.Write | pkg/services/tasks.go:146 | appends, in place or in a new array |
| TaskQueue.TaskClient.Save | pkg/services/tasks.go:138-178 | in every serial run the queue receives the task's message and the pool holds empty, separate buffers |
| TaskInterleaving.PoolStaysClean | pkg/services/tasks.go:167-171 | in every interleaving pooled buffers are empty and no buffer is shared |
| TaskInterleaving.LostOnlyByFailing | pkg/services/tasks.go:144-172 | a buffer leaves pool and saves exactly when a save that owns it fails |
| TaskInterleaving.BuffersAreKept | pkg/services/tasks.go:144-172 | without failing encodings every buffer ever made is in the pool or in use |
| TaskInterleaving.UntakenMessageIsSent | pkg/services/tasks.go:167-178 | the right message is sent when no other save takes the buffer between put and send |
| TaskInterleaving.SpoiledExactlyByOverwriting | pkg/services/tasks.go:145-178 | a step of another save spoils a waiting message iff it writes a piece of an encoding, in place, behind what the buffer holds, and that piece differs from the message there |
| TaskInterleaving.SentUnlessOverwritten | pkg/services/tasks.go:167-178 | over every run from put to send the message stays intact iff no step overwrites it, and then the queue receives it |
| TaskInterleaving.SaveIsNeverStuck | pkg/services/tasks.go:138-172 | from every state a save under way can go on by itself to the point where it sends the message of its task |
| TaskInterleaving.MixedMessageIsSent | pkg/services/tasks.go:138-178 | for any two saves a run from the start in which the queue receives the first piece of one task, of any length, over the message of the other, which is wrong iff the piece is no prefix of it |
| TaskInterleaving.MixedThoughItDidNotFit | pkg/services/tasks.go:138-178 | the same in a run where the whole other task is written before the send although it does not fit |

## Left out

* Routing, Echo contexts, HTMX requests, templates, flash messages, logging, configuration, sessions and
  login: plumbing or user interface.
* SQL, the cache library, the task queue, gob, bcrypt, JWT, regular expressions, html/template, the
  HTML-to-markdown converter and the SMTP, HTTP and websocket libraries: parameters or free outcomes.
* The eviction policy and expiry times of the cache library: any entry may go at any step.
* Several pollers on one table: the query takes no lock, and the model has one poller.
* Strings that are not valid UTF-8: a string is the sequence of its Unicode scalar values.
* The 64-bit range of `int` in the pager: offsets stay below the item count.
* OnePerPage: beyond 2^53 items the exact condition is proved for one item per page only.
* FloatCeilingIsExact: leaves out overflow and underflow, which quotients of counts up to 2^53 do not reach.
* SubjectRoundTrip: requires addresses without a line feed, since a line feed there starts a header of its own.
* BodyRoundTrip: requires header values without a line feed for the same reason.
* HitReplaysTheResponse: takes header names in canonical form, each with at least one value, as the Set and Add
  of an HTTP header leave them.
* GetValidPasswordToken: failed and cancelled queries are not modelled; they never make a token valid.
* ServeCachedPage: cache errors other than a miss do not occur with the in-memory store and are not modelled.
* `GetMessageBody`, the fake search, the contact form, `RandomToken` and the option setters: only easy members.
