# A verified model of the a2a-mcp-bridge core

The bridge lets agents on one host exchange messages and files through a shared
SQLite database, a directory of signal files and a staging directory, optionally
behind an HTTP façade. Any number of processes work on these at once and nothing
coordinates them but short transactions and atomic renames. This project models
that core and proves what it keeps over every run.

Where the source computes a value the model is a function; where it changes
something step by step the model is a method of a class with the same fields,
proved against such a function; where several processes meet it is a transition
system whose steps are the source's atomic actions, and the theorems hold in every
reachable state.

| file | models |
|---|---|
| `MailStore.dfy` | the repository: agents, messages, its transactions, purge and dry run |
| `Signals.dfy`, `Subscribe.dfy` | signal files, the polling wait, one long poll from end to end |
| `Bus.dfy` | senders, consumers, purges and signal files, interleaved |
| `SlidingWindow.dfy`, `RateBounds.dfy`, `Routes.dfy` | the limiter with its shared lists, its bounds, the layered middleware |
| `Staging.dfy`, `TransferDir.dfy`, `StagingQuota.dfy` | staging with crashes and uploads, count and sweep, the local quota |
| `TransferStore.dfy`, `Quota.dfy` | the façade's table, its quota under overlapping uploads |
| `WakerCache.dfy`, `Migration.dfy` | the two double-check protocols |
| `Remote.dfy`, `Disposition.dfy` | the HTTP client against the local store, the download header |

## Reading the model

- Time is a whole number of microseconds. Wall-clock instants count from
  0001-01-01T00:00:00Z and stop at the end of year 9999. Every clock reading is an
  input and readings never go back. New ids are inputs too, and fresh.
- A `BEGIN IMMEDIATE` block is one atomic step or an abort that changes nothing.
  SQLite compares TEXT byte by byte; where `ORDER BY` ties, any order is allowed.
- On the bus `notify`, `clear` and `remove` do what they are asked. Losing, keeping or
  forging signal files is the event `Noise`; only the wake-up theorems exclude it.
- A crash is the death of a process between two steps. The incremental hash is
  abstract: feeding two pieces is feeding their concatenation. That the digest does
  not collide is not assumed.
- The bus assumes every registered id matches the agent id pattern and all metadata is
  an object or null. Rows become
  messages after the commit, so a row the model class rejects raises with the batch
  already marked read, and a send to such a recipient raises with the message stored
  and no signal raised; `MailStore.Store.ReadUnread` and `MailStore.Store.SendMessage`
  state exactly when.
- Local stagings and façade uploads share one tree (facade.py:406-408), and so do they
  in `Staging`. What a `meta.json` of arbitrary bytes reads as is a parameter.

## What the code does that its documentation does not say

- The purge compares `isoformat()` text with SQLite text, which has a space where the
  other has a `T`. It therefore deletes by UTC date, not by age (store.py:497-511):
  a message a little older than N days survives until the date changes.
- The dry run uses another cutoff than the purge and does not refuse fewer than one
  day (cli.py:298-315). The flag called `unread_only` keeps unread messages: it
  deletes only read ones.
- A transfer row at the very instant of its expiry is neither pending nor listed as
  expired (transfer_store.py:230-257). A directory whose staging died before its
  manifest appeared stays for ever (transfers.py:336-338): `Staging.AbandonedStays`.
- An upload keeps its file's base name in its own directory of the shared tree
  (facade.py:435-437). Named `meta.json` it is read as a manifest: it can be swept while
  its row lives, or make counts and sweeps raise (transfers.py:151-163, 333-348).
  `Staging.PlacedMetaIsRead` is the run and `Staging.ManifestsSoundIff` the condition.
- Fetching a staged file raises exactly when its name holds a control character, which
  the path test refuses (transfers.py:88-90, 296-298): `Staging.FetchYieldsCopiedBytes`,
  and `Staging.AnyNameCanBeStaged` for the run.
- Metadata may be sent as JSON text of any kind (store.py:359-367), but reading it back
  raises unless it is an object or null (models.py:58-66).
- `create` promises to refuse `..`, but the base name of `..` is itself, so only a
  slash is refused (transfer_store.py:114-120).
- ADR-002 section 5.3 downgrades unknown intents to triage; the code to execute
  (models.py:68-83).
- The clear after a read is described as safe for later sends (tools.py:179-188).
  It is not when another consumer of the agent takes signals away:
  `Bus.SiblingErasesSignal` is the run and `Bus.CanLoseIff` the condition.
- The agent id pattern ends in `$`, which also matches before a final newline
  (models.py:13-30).
- From rpm 2 on `allow` can admit rpm + 1 requests in a minute, because a sweep takes its
  own clock reading and may drop the list the caller is about to append to
  (rate_limit.py:73-101): `RateBounds.BoundIsReached` is the run for each rpm,
  `RateBounds.LimitKeptIffLossless` the condition. At rpm 1 the limit holds.
- A quota of at least one is exceeded by overlapping uploads, by up to their number less
  one (facade.py:395-453): `Quota.QuotaExact`.
- A starting time in the `Z` form leaves out messages of its own second or instant
  (store.py:564-569): `MailStore.SinceMeansTime`.
- The remote client reads as empty what it could not read: a batch is marked read and
  lost when the response is (bus_store.py:326-331): `Remote.LostIffDropped`.

## Model

| member | source | states |
|---|---|---|
| `IsoText.DigitsOrder` | src/a2a_mcp_bridge/store.py:404 | zero-padded fields of equal width compare as their numbers, and are equal only for equal numbers |
| `IsoText.TailOrder` | src/a2a_mcp_bridge/store.py:404 | an omitted fraction sorts before every printed one, since `+` is below `.`; otherwise fractions order the tails |
| `IsoText.TextOrderIsTimeOrder` | src/a2a_mcp_bridge/store.py:288-297 | for all UTC instants, fraction printed or omitted on either side, byte order of the text is time order and equal text means equal instants |
| `IsoText.IsoAgainstSqliteText` | src/a2a_mcp_bridge/store.py:500-504 | against `datetime()` text an `isoformat()` text is smaller exactly when its UTC date is earlier |
| `IsoText.IsoAgainstZ` | src/a2a_mcp_bridge/store.py:564-569 | against text in the `Z` form an `isoformat()` text is smaller exactly when its instant is not later, or, if that text has no fraction, falls before the next second |
| `IsoText.IsoRoundTrip` | src/a2a_mcp_bridge/bus_store.py:156-162 | parsing the printed text gives back the instant, for every instant |
| `IsoText.ParsedIsPrinted` | src/a2a_mcp_bridge/bus_store.py:156-162 | of the two shapes read here only the printed text of an instant parses to it, or that text with its omitted fraction written as zeros |
| `IsoText.IsoEnds` | src/a2a_mcp_bridge/store.py:404 | the texts of the first and the last instant, the years 1 and 9999 |
| `IsoText.FormsDiffer` | src/a2a_mcp_bridge/store.py:500-504 | the three forms of one instant differ in offset, `T` and fraction only |
| `MailStore.SelectFirst` | src/a2a_mcp_bridge/store.py:426-437 | the ordered, limited selection: distinct rows, ascending, none left out below one taken, and all rows when the limit allows |
| `MailStore.BatchIsFull` | src/a2a_mcp_bridge/store.py:421-437 | a selection holds as many rows as the smaller of limit and table |
| `MailStore.ReadTakes` | src/a2a_mcp_bridge/store.py:421-444 | a consuming read under a limit from 1 to 100 takes that many of the oldest unread, or all there are, others counting as the nearer end, and sets their read mark and nothing else |
| `MailStore.AgentIdPattern` | src/a2a_mcp_bridge/models.py:13-30 | the ids admitted, by code points: a letter or digit, up to 63 more of these, dash or underscore, and perhaps a final newline |
| `MailStore.Utf8RoundTrip` | src/a2a_mcp_bridge/store.py:321 | the bytes that sizes are measured in give back the code points of every text |
| `MailStore.PurgeByDate` | src/a2a_mcp_bridge/store.py:497-511 | a row is deleted if and only if its UTC date is before the date N days ago, and it is read when only read rows may go |
| `MailStore.PurgeSandwich` | src/a2a_mcp_bridge/store.py:497-511 | nothing aged N days or less goes, everything aged N + 1 days or more does, and read-only mode spares all unread rows |
| `MailStore.DryRunAgainstPurge` | src/a2a_mcp_bridge/cli.py:298-315 | at one instant every victim is counted, and the surplus is exactly the rows on the cutoff date older than N days |
| `MailStore.Store.UpsertAgent` | src/a2a_mcp_bridge/store.py:276-285 | first sight is kept, last sight is now, other agents are untouched |
| `MailStore.Store.ListAgents` | src/a2a_mcp_bridge/store.py:287-307 | exactly the agents seen within the given days as instants, each once, latest first; raises exactly on an unrepresentable cutoff or an agent in range with an invalid id |
| `MailStore.Store.SendMessage` | src/a2a_mcp_bridge/store.py:311-413 | commits exactly under the source's size, intent, session, metadata, self and registration rules, for metadata of any kind, then adding one unread row with every column as sent and the session id taken from the metadata, otherwise changing nothing; each error only for its own reason; returns exactly when it committed and the recipient id is valid, raising after the commit otherwise |
| `MailStore.Store.ReadUnread` | src/a2a_mcp_bridge/store.py:415-475 | marks exactly the oldest unread, as many as the limit clamped to 1 to 100 and the mailbox allow, and returns them column by column in order; raises exactly when a marked row is not readable, which takes an invalid registered id or metadata that is neither object nor null |
| `MailStore.Store.ReadAll` | src/a2a_mcp_bridge/store.py:461-475 | the latest rows of the recipient column by column, up to the limit clamped to 1 to 100, read or not, with nothing marked; raises exactly on a row that is not readable |
| `MailStore.Store.PeekInbox` | src/a2a_mcp_bridge/store.py:543-571 | the latest rows, or the first rows not below any given starting text, column by column, up to the limit clamped to 1 to 200; raises exactly on a row that is not readable; nothing changes |
| `MailStore.SinceMeansTime` | src/a2a_mcp_bridge/store.py:564-569 | a starting text in the `+00:00` form selects exactly the messages from its instant on; in the `Z` form exactly those after it, or from the next second on if it has no fraction |
| `MailStore.Store.PurgeOldMessages` | src/a2a_mcp_bridge/store.py:497-511 | refuses fewer than one day; else keeps exactly the rows the date rule keeps and returns how many went |
| `MailStore.Store.DryRunPurge` | src/a2a_mcp_bridge/cli.py:298-315 | counts exactly the rows strictly older than N days, read ones only if asked; changes nothing |
| `Signals.SignalDir.Notify` | src/a2a_mcp_bridge/signals.py:45-52 | the agent's signal is present and no other changes; nothing changes if the file cannot be written |
| `Signals.SignalDir.Clear` | src/a2a_mcp_bridge/signals.py:54-71 | the agent's signal is absent and no other changes; nothing changes if the file cannot be removed |
| `Signals.SignalDir.Wait` | src/a2a_mcp_bridge/signals.py:73-105 | fires if and only if the file is there at once or at some poll begun before the deadline, stops at the first such poll and takes the file if it can be removed; a timeout means the deadline was reached |
| `Subscribe.Subscriber.Subscribe` | src/a2a_mcp_bridge/store.py:577-620 | mail pending: the oldest of it at once, message by message and up to the limit, and the signal cleared; none and no signal directory: raises; otherwise times out empty exactly when no poll within the timeout, at most 55 s, fires, and a fired wait returns what the mailbox then holds in the same way; raises otherwise exactly on an unreadable row |
| `Subscribe.EmptyIffNoneUnread` | src/a2a_mcp_bridge/store.py:426-438 | a consuming read under any limit is empty if and only if nothing is unread, and then changes nothing |
| `Bus.StepKeepsExactlyOnce` | src/a2a_mcp_bridge/store.py:380-475 | every step keeps the exactly-once account |
| `Bus.ExactlyOnceAlways` | src/a2a_mcp_bridge/store.py:380-475 | in every reachable state each committed message is exactly one of unread, delivered once, or purged unread, with unaltered contents, under any readers, purges, aborts and any change of signal files |
| `Bus.StepKeepsOrdered` | src/a2a_mcp_bridge/store.py:421-457 | every step keeps deliveries in order and ahead of what is still unread |
| `Bus.FifoAlways` | src/a2a_mcp_bridge/store.py:380-457 | per recipient the consuming batches of all readers, laid end to end, never go back in creation time, and no unread message is older than a delivered one |
| `Bus.RowsChangeOnlyBy` | src/a2a_mcp_bridge/store.py:380-511 | a row comes only by a commit, goes only by a purge when old enough, and changes only by a read of its recipient, in the read mark |
| `Bus.AlwaysAddressed` | src/a2a_mcp_bridge/store.py:319-409 | in every reachable state messages go between two registered agents, and a sender in the gap is about to signal the recipient of its own message |
| `Bus.StepKeepsCovered` | src/a2a_mcp_bridge/tools.py:103-129 | every step keeps the waiting consumer covered, except signal noise and another consumer's taking the signal away |
| `Bus.NoLostWakeUp` | src/a2a_mcp_bridge/store.py:596-620 | in every run with any senders and any other readers that take no signals away, while a consumer waits each unread message of its agent has its signal or a sender still between commit and notify |
| `Bus.SignalsChangeOnlyBy` | src/a2a_mcp_bridge/signals.py:45-105 | a signal appears only by a sender's notice to its target and disappears only by a clear or remove of the agent's own consumer |
| `Bus.ConsumersMove` | src/a2a_mcp_bridge/store.py:599-620 | each move of a consumer, with the event, the batch and the look at the signal it takes |
| `Bus.FiredOnSignal` | src/a2a_mcp_bridge/signals.py:91-104 | in every run a consumer that has fired looked before and found its signal |
| `Bus.PolledInVain` | src/a2a_mcp_bridge/signals.py:99-105 | in every run a consumer still polling looked before and found none |
| `Bus.MailStays` | src/a2a_mcp_bridge/signals.py:89-105 | between firing and the second read pending mail stays pending unless purged |
| `Bus.WakeUpFires` | src/a2a_mcp_bridge/signals.py:99-105 | a poll with mail pending and no sender in the gap fires, under the same condition |
| `Bus.WakeUpDelivers` | src/a2a_mcp_bridge/signals.py:99-105 | for an only consumer the read after such a poll returns the oldest unread mail, unless a purge took that message |
| `Bus.SiblingErasesSignal` | src/a2a_mcp_bridge/tools.py:178-190 | from every fresh state with a sender and a second consumer, a run in which that consumer's clear leaves the first waiting on unread mail with no signal and no sender in the gap |
| `Bus.CanLoseIff` | src/a2a_mcp_bridge/store.py:600-620 | from a fresh state a consumer can lose a wake-up if and only if there is a sender and another consumer of its agent that may take signals away |
| `Bus.OutsideEvents` | src/a2a_mcp_bridge/store.py:477-511 | what others may do in every state: register, abort, purge by any age and kind, change signal files |
| `Bus.SenderEvents` | src/a2a_mcp_bridge/store.py:319-413 | in every state an idle sender may commit any fresh message between two registered agents, and one in the gap may notify |
| `Bus.ReadEvents` | src/a2a_mcp_bridge/store.py:421-475 | in every state a consumer outside a call, or fired, may read under any limit |
| `Bus.ConsumerEvents` | src/a2a_mcp_bridge/store.py:599-620 | at every other point of a call a consumer has its next step |
| `SlidingWindow.RateLimiter.Refresh` | src/a2a_mcp_bridge/rate_limit.py:73-83 | replaces the caller's list by a new object holding its hits of the last minute; sets the first sweep mark |
| `SlidingWindow.RateLimiter.SweepIfDue` | src/a2a_mcp_bridge/rate_limit.py:90-95 | sweeps exactly when there are too many keys or a minute has passed, with the sweep's own reading |
| `SlidingWindow.RateLimiter.Push` | src/a2a_mcp_bridge/rate_limit.py:100 | appends to the caller's list object, which shows in the table only if the table still holds that object |
| `SlidingWindow.RateLimiter.Allow` | src/a2a_mcp_bridge/rate_limit.py:65-101 | the answer and the whole new state are those of the value-level limiter, for any two readings; a disabled limiter admits and changes nothing |
| `SlidingWindow.RateLimiter.PruneStale` | src/a2a_mcp_bridge/rate_limit.py:103-127 | drops exactly the non-empty lists with no hit in the window, keeps the other list objects, returns how many went |
| `SlidingWindow.PrunedKeys` | src/a2a_mcp_bridge/rate_limit.py:113-120 | a sweep keeps, unaltered, exactly the lists that are empty or hold a time less than 60 s old |
| `SlidingWindow.RateLimiter.Reset` | src/a2a_mcp_bridge/rate_limit.py:140-142 | forgets one key only |
| `RateBounds.AgreesDetached` | src/a2a_mcp_bridge/rate_limit.py:94-100 | if the caller's list is dropped by the sweep, its reading is later than the call's and the table then lacks at most the oldest hit of the window |
| `RateBounds.NextSound` | src/a2a_mcp_bridge/rate_limit.py:65-127 | every call, prune and reset keeps each list equal to the key's history within the window, short of at most its oldest hit, and of none if no call was lossy |
| `RateBounds.SpacedCount` | src/a2a_mcp_bridge/rate_limit.py:76-98 | an ascending history whose hits n apart are a minute apart has at most n hits in any half-open minute |
| `RateBounds.RateBound` | src/a2a_mcp_bridge/rate_limit.py:65-142 | over every run with non-decreasing readings any half-open window of 60 s holds at most rpm + 1 hits admitted for a key since its last reset, at most rpm if no call was lossy |
| `RateBounds.ExactTail` | src/a2a_mcp_bridge/rate_limit.py:73-114 | calls with equal readings are never lossy |
| `RateBounds.LossExceeds` | src/a2a_mcp_bridge/rate_limit.py:90-101 | after any lossy call, rpm calls at the reading of its sweep put rpm + 1 hits in the window that starts with the lost one |
| `RateBounds.LimitKeptIffLossless` | src/a2a_mcp_bridge/rate_limit.py:65-127 | for every run: the limit of rpm is kept, at every point and under any further calls with equal readings, if and only if no call of the run is lossy |
| `RateBounds.BoundIsReached` | src/a2a_mcp_bridge/rate_limit.py:94-101 | for every rpm of at least 2, a run of rpm + 3 calls with rpm + 1 admitted hits in one window |
| `RateBounds.LimitHoldsIffOne` | src/a2a_mcp_bridge/rate_limit.py:90-101 | all runs keep to rpm if and only if rpm is 1 |
| `RateBounds.RefinesSimple` | src/a2a_mcp_bridge/rate_limit.py:76-127 | without a lossy call, so with equal readings, every answer and the admitted history equal those of a limiter that keeps all hits and never prunes, after any calls, sweeps, prunes and resets |
| `RateBounds.AlwaysTidy` | src/a2a_mcp_bridge/rate_limit.py:82-120 | in every run each list is non-empty, ascending, at most rpm long, and ends in an admitted hit less than a minute before the last sweep or later |
| `RateBounds.BoundedMemory` | src/a2a_mcp_bridge/rate_limit.py:82-120 | after every call each retained key has a list of that kind ending in an admitted hit younger than 120 s |
| `RateBounds.KeysAreYoung` | src/a2a_mcp_bridge/rate_limit.py:82-120 | so the retained keys are among those admitted in the last two minutes, and no more in number |
| `Routes.SlashIgnored` | src/a2a_mcp_bridge/rate_limit.py:177-189 | any number of trailing slashes changes neither a route's bucket nor its exemption |
| `Routes.RouteNames` | src/a2a_mcp_bridge/rate_limit.py:177-241 | with any number of trailing slashes, exactly `/health` and `/ping` are exempt, exactly `/send`, `/inbox` or `/inbox_peek`, and `/register` have buckets |
| `Routes.MiddlewareCalls` | src/a2a_mcp_bridge/rate_limit.py:280-304 | what each limiter receives from a request: the global one all but exempt routes, one bucket only those that passed it; let through exactly when all asked admit |
| `Routes.MiddlewareKeepsInv` | src/a2a_mcp_bridge/rate_limit.py:280-304 | every request keeps the limiters sound and the let-through requests within what they admitted |
| `Routes.PruneAllKeepsInv` | src/a2a_mcp_bridge/rate_limit.py:191-204 | so does a sweep of all four limiters |
| `Routes.LayeredBound` | src/a2a_mcp_bridge/rate_limit.py:280-304 | over every run of requests and outside sweeps, the requests let through for one address in any 60 s window, by route name: all but `/health` and `/ping` within the global limit, `/send` within its own, `/inbox` and `/inbox_peek` together within theirs, `/register` within its own, if both readings of each call are equal; with any non-decreasing readings within one more |
| `Routes.OrderMeans` | src/a2a_mcp_bridge/rate_limit.py:73-113 | which runs the bound is about: all in which no reading goes back |
| `Routes.ExemptAndRefused` | src/a2a_mcp_bridge/rate_limit.py:285-302 | exempt routes pass and change no limiter; a bucket's refusal has already spent a hit of the global budget |
| `Routes.FacadeRateLimiters.constructor` | src/a2a_mcp_bridge/rate_limit.py:207-218 | four separate limiters in the initial state the bounds start from |
| `Routes.FacadeRateLimiters.Dispatch` | src/a2a_mcp_bridge/rate_limit.py:280-304 | the objects under any four readings: who is asked, in which order, and every resulting state |
| `Routes.FacadeRateLimiters.DispatchOn` | src/a2a_mcp_bridge/rate_limit.py:280-304 | the objects follow the middleware on values under any readings, so its bounds are theirs |
| `Routes.FacadeRateLimiters.PruneStale` | src/a2a_mcp_bridge/rate_limit.py:191-204 | each limiter is swept at its own reading, and the result counts what went |
| `Routes.FacadeRateLimiters.PruneOn` | src/a2a_mcp_bridge/rate_limit.py:191-204 | the objects follow the sweep on values |
| `Staging.HashAndCopy` | src/a2a_mcp_bridge/transfers.py:115-139 | what is written is the concatenation of the chunks, the size is its length and the digest its hash |
| `Staging.ReceiveUpload` | src/a2a_mcp_bridge/facade.py:410-433 | refuses exactly the uploads larger than the limit; else keeps all bytes with their size and hash |
| `Staging.HashFile` | src/a2a_mcp_bridge/tools.py:898-903 | hashing in 64 KiB pieces gives the digest of the whole file |
| `Staging.NamesDiffer` | src/a2a_mcp_bridge/transfers.py:66-73 | copy, staging, final and manifest names never coincide, whatever the file is called |
| `Staging.JobStep` | src/a2a_mcp_bridge/transfers.py:218-248 | each step of a staging takes its directory from exactly one expected content to the next |
| `Staging.StepKeepsInv` | src/a2a_mcp_bridge/transfers.py:205-351 | every staging step, crash, sweep, deletion and façade upload step keeps the staging invariant |
| `Staging.AlwaysInv` | src/a2a_mcp_bridge/transfers.py:205-351 | in every reachable state a staged transfer that shows a manifest has a well-formed one, naming a file in its own directory that holds exactly the copied bytes with their size and hash, and expires within the maximum TTL; running stagings find their directories intact |
| `Staging.ManifestStatesOrder` | src/a2a_mcp_bridge/transfers.py:208-241 | over every run the manifest of a staging states its id, sender, recipient, file name and creation as begun, and expires the requested TTL after that, or the default one, no later than the maximum |
| `Staging.GoneOnlyIf` | src/a2a_mcp_bridge/transfers.py:302-351 | over every run a staging's directory goes only by a sweep at or after that expiry or by a deletion its sender or recipient asked for |
| `Staging.ManifestsSoundIff` | src/a2a_mcp_bridge/facade.py:406-437 | over every run: all visible manifests are such, at every moment, if and only if no upload of the run is named `meta.json` |
| `Staging.PassIsExact` | src/a2a_mcp_bridge/transfers.py:142-163 | without such uploads no count and no sweep raises, a sweep takes exactly the finished expired transfers and a count exactly the finished live ones of the sender |
| `Staging.PlacedMetaIsRead` | src/a2a_mcp_bridge/facade.py:435-437 | for any bytes, the run that uploads them as `meta.json`: passes read them as a manifest; a count and a sweep raise if they break them, and a sweep removes the live upload if they read as due or corrupt |
| `Staging.SweepRemovesExpired` | src/a2a_mcp_bridge/transfers.py:333-348 | over every run, what a sweep removes is finished and expired, or an upload that was named `meta.json`; no staging is at work there |
| `Staging.SweepKeepsPending` | src/a2a_mcp_bridge/transfers.py:333-348 | over every run, uploads of any name included, a directory removed by a sweep changes no sender's pending set at the sweep's time |
| `Staging.FinishedIsFrozen` | src/a2a_mcp_bridge/transfers.py:243-248 | a staged directory with a manifest never changes and, once gone, never returns |
| `Staging.StaysFrozen` | src/a2a_mcp_bridge/transfers.py:243-248 | the same over any stretch of a run |
| `Staging.AbandonedStays` | src/a2a_mcp_bridge/transfers.py:333-338 | over any stretch of a run, a staging directory with no manifest and no process at work stays as it is |
| `Staging.CanFinish` | src/a2a_mcp_bridge/transfers.py:218-248 | from any moment of a run a staging at work can go on to a manifest with its id, sender, recipient, file name, creation and expiry |
| `Staging.StagingEvents` | src/a2a_mcp_bridge/transfers.py:205-248 | in every reachable state a staging may begin under a fresh id with any request and copy any chunk |
| `Staging.QuietEvents` | src/a2a_mcp_bridge/transfers.py:319-351 | in every state crashes, clocks and pending removals go on |
| `Staging.SweepHappens` | src/a2a_mcp_bridge/transfers.py:333-348 | in every state a sweep may pick whatever a pass at that or an earlier time finds due or corrupt |
| `Staging.DeleteHappens` | src/a2a_mcp_bridge/transfers.py:302-316 | in every state sender and recipient may delete what shows their manifest |
| `Staging.UploadGoes` | src/a2a_mcp_bridge/facade.py:414-437 | in every state what is being received may grow, be refused, or be placed under any bare name |
| `Staging.CanVanishIff` | src/a2a_mcp_bridge/transfers.py:302-348 | at any moment of a run a staged directory can still disappear in some continuation if and only if it is not abandoned |
| `Staging.CrashAbandons` | src/a2a_mcp_bridge/transfers.py:205-221 | from any moment of a run a new staging and a crash leave an abandoned directory |
| `Staging.FetchYieldsCopiedBytes` | src/a2a_mcp_bridge/tools.py:883-914 | the outcome of a verified fetch of a staged transfer, with anything between its steps: not found without a manifest, denied to all but sender and recipient, refused to them exactly when the file name holds a control character, else gone or exactly the copied bytes; a hash mismatch cannot happen |
| `Staging.FoundIsVerified` | src/a2a_mcp_bridge/tools.py:898-914 | whatever the files have become, a verified fetch hands out only bytes whose digest is that of the manifest |
| `Staging.ControlFromName` | src/a2a_mcp_bridge/transfers.py:66-73 | a locator name holds a control character if and only if the file name does |
| `Staging.AnyNameCanBeStaged` | src/a2a_mcp_bridge/transfers.py:282-299 | for every file name, a continuation of any run in which the staged file's recipient is refused if the name holds a control character and served otherwise |
| `TransferDir.ExpiryOf` | src/a2a_mcp_bridge/transfers.py:208-216 | no expiry exceeds creation plus the maximum TTL, and a shorter request is honoured |
| `TransferDir.StagingDir.CountPending` | src/a2a_mcp_bridge/transfers.py:142-163 | the number of manifests of the sender that expire after now; raises exactly when an entry breaks the pass |
| `TransferDir.StagingDir.Sweep` | src/a2a_mcp_bridge/transfers.py:319-351 | removes exactly the corrupt and the expired entries and returns their number; raises exactly when an entry breaks the pass, having removed only some of those |
| `TransferDir.TotalIsUnion` | src/a2a_mcp_bridge/transfers.py:151-163 | pending counts summed over any set of senders count each of their pending manifests once |
| `TransferDir.ManifestsSplit` | src/a2a_mcp_bridge/transfers.py:333-348 | at one instant the manifests are the expired, the sum of all senders' pending counts, and those that name no sender or compare with no time |
| `TransferDir.SweepConserves` | src/a2a_mcp_bridge/transfers.py:333-348 | whatever part of its victims a sweep has removed, no sender's pending set changes; a whole pass leaves only undue manifests and touches nothing still being staged |
| `StagingQuota.StagingQuotaBound` | src/a2a_mcp_bridge/transfers.py:196-203 | over every run without uploads named `meta.json`, if at most k stagings of a sender are ever between check and manifest, pending transfers and those stagings together never exceed max + k - 1 |
| `StagingQuota.ChecksHappen` | src/a2a_mcp_bridge/transfers.py:196-203 | in every state a process may check unless its count raises, and passes exactly when the count is below the quota |
| `StagingQuota.MetaAddsUnchecked` | src/a2a_mcp_bridge/facade.py:435-437 | an upload named `meta.json` that carries a sender's id adds to its pending transfers even at a quota of zero |
| `TransferStore.RowConditions` | src/a2a_mcp_bridge/transfer_store.py:229-257 | the two text conditions on rows mean strict order of instants |
| `TransferStore.PendingOrExpired` | src/a2a_mcp_bridge/transfer_store.py:229-257 | a live row is never both pending and expired, and neither exactly at its expiry instant |
| `TransferStore.TransferTable.Create` | src/a2a_mcp_bridge/transfer_store.py:84-155 | refuses names with a slash and ids in use, changing nothing; else adds the row, not fetched, not deleted |
| `TransferStore.TransferTable.MarkFetched` | src/a2a_mcp_bridge/transfer_store.py:174-194 | stamps the row if there is one and says so; nothing else changes |
| `TransferStore.TransferTable.Delete` | src/a2a_mcp_bridge/transfer_store.py:196-218 | marks the row deleted if there is one and says so; nothing else changes |
| `TransferStore.TransferTable.ListExpired` | src/a2a_mcp_bridge/transfer_store.py:220-237 | exactly the undeleted rows whose expiry is before now |
| `TransferStore.TransferTable.CountPending` | src/a2a_mcp_bridge/transfer_store.py:239-258 | the number of undeleted rows of the sender whose expiry is after now |
| `TransferStore.TransferTable.SweepRows` | src/a2a_mcp_bridge/facade.py:278-286 | soft-deletes exactly the expired rows, each at its own reading, and removes exactly their directories; every row stays and no other changes |
| `Quota.StepBound` | src/a2a_mcp_bridge/facade.py:395-453 | pending plus uploads in the gap grows only at a check that found room |
| `Quota.QuotaBound` | src/a2a_mcp_bridge/facade.py:395-453 | if at most k uploads of a sender are ever between check and creation, it never has more than max + k - 1 pending transfers; sequential uploads keep to max |
| `Quota.UploadChecked` | src/a2a_mcp_bridge/facade.py:395-404 | over every run each upload past the check found its sender below the quota |
| `Quota.PendingUntil` | src/a2a_mcp_bridge/transfer_store.py:239-258 | over every run a created transfer is pending for its uploader, and nobody else, exactly until its expiry or deletion |
| `Quota.EventsHappen` | src/a2a_mcp_bridge/facade.py:395-453 | in every state anyone may check, finish, give up, and rows may be deleted |
| `Quota.BoundIsReached` | src/a2a_mcp_bridge/facade.py:395-453 | for every quota and every k of at least one, a run with at most k uploads in the gap that reaches max + k - 1 |
| `Quota.QuotaExact` | src/a2a_mcp_bridge/facade.py:395-453 | the least bound on pending transfers over all runs with at most k uploads in the gap is max + k - 1, or zero if the quota leaves no room |
| `Quota.QuotaKeptIff` | src/a2a_mcp_bridge/facade.py:395-453 | those runs keep to the quota if and only if k is 1 or the quota leaves no room |
| `WakerCache.Registry.LoadIfStale` | src/a2a_mcp_bridge/server.py:139-175 | a hit returns the cached waker and changes nothing, a miss loads and stores it under the time of the stat, a failed stat clears the cache and loads |
| `WakerCache.CacheCoherent` | src/a2a_mcp_bridge/server.py:151-175 | over every run with fresh modification times, whenever the cached time is the file's current one the cached waker is what the current contents load to, wherever writes fall between stat and load |
| `WakerCache.EventsHappen` | src/a2a_mcp_bridge/server.py:151-175 | in every state a fresh write or a removal may come and every call has its next step |
| `WakerCache.HitIsCurrent` | src/a2a_mcp_bridge/server.py:162-165 | a hit while the file is as at the stat returns what its contents load to |
| `WakerCache.CallAlone` | src/a2a_mcp_bridge/server.py:151-175 | the steps of one call with nobody between end as the method does |
| `WakerCache.FileChangesOnlyBy` | src/a2a_mcp_bridge/server.py:151-175 | the file changes only by a write under a fresh time or its removal |
| `Migration.StepKeepsInv` | src/a2a_mcp_bridge/store.py:213-240 | every probe, lock, re-probe, alter, commit, retry, rollback and insert keeps the migration invariant |
| `Migration.MigrationSafe` | src/a2a_mcp_bridge/store.py:152-240 | with any number of processes no ALTER meets its column, a finished process sees both columns, the session column before the intent, old rows keep all fields and gain NULL or 'triage', and a process gives up after its third attempt at a column |
| `Migration.SchemaChangesOnlyBy` | src/a2a_mcp_bridge/store.py:222-240 | the schema changes only when the holder of the lock commits |
| `Migration.EventsHappen` | src/a2a_mcp_bridge/store.py:213-240 | in every reachable state each process that has not ended has its next step, turned away only by a held lock |
| `Migration.RerunChangesNothing` | src/a2a_mcp_bridge/store.py:213-220 | once both columns are there, migrating again takes no lock and leaves schema and rows as they are |
| `Remote.WireRoundTrip` | src/a2a_mcp_bridge/bus_store.py:165-183 | parsing the façade's form of a message gives it back if and only if the Message model admits it |
| `Remote.OldNamesParse` | src/a2a_mcp_bridge/bus_store.py:172-180 | a message under the older field names parses to the same message |
| `Remote.NoIntentParses` | src/a2a_mcp_bridge/bus_store.py:182 | a message without an intent parses as triage |
| `Remote.ParsedMeans` | src/a2a_mcp_bridge/bus_store.py:165-183 | whatever parses has the parts of the message it parses to, and nothing the Message model rejects |
| `Remote.ParseAllRoundTrip` | src/a2a_mcp_bridge/facade.py:84-100 | a whole response of admitted messages parses back in order |
| `Remote.RemoteRefinesLocal` | src/a2a_mcp_bridge/bus_store.py:312-331 | within limits and with nothing dropped the remote read, consuming or not, is the local one in answer and table, for every batch that is readable and free of NaN and infinities; on any other the remote answer is empty where the local read raises or returns the batch |
| `Remote.RemotePeekRefinesLocal` | src/a2a_mcp_bridge/bus_store.py:333-352 | the same for peeking, from any starting text and for its own limits |
| `Remote.FiniteIff` | src/a2a_mcp_bridge/facade.py:187-194 | a value can be carried in a response exactly when no path into it leads to a NaN or an infinity |
| `Remote.OutOfRangeAgrees` | src/a2a_mcp_bridge/facade.py:58-61 | outside the limits the remote read changes nothing, and agrees with the clamping local one exactly when nothing is unread |
| `Remote.AtMostOnce` | src/a2a_mcp_bridge/bus_store.py:312-331 | however requests and responses are lost, and whatever others do to the table, the client sees no id twice and only ids its own reads have marked |
| `Remote.OthersHappen` | src/a2a_mcp_bridge/bus_store.py:312-331 | others may leave any table with new rows under unused ids only and no mark undone |
| `Remote.LostIffDropped` | src/a2a_mcp_bridge/bus_store.py:326-331 | over every run, a message marked by a read of the client is missing from what it got if and only if that answer was lost or could not be built |
| `Disposition.PlainName` | src/a2a_mcp_bridge/tools.py:448-457 | a printed name without a semicolon is read back less its outer quotes, then less outer spaces |
| `Disposition.CutName` | src/a2a_mcp_bridge/tools.py:448-457 | a printed name with a semicolon is read back as some name without one |
| `Disposition.SpaceCodes` | src/a2a_mcp_bridge/tools.py:454-456 | the characters that stripping removes, by code point |
| `Disposition.FirstNameIs` | src/a2a_mcp_bridge/tools.py:453-457 | of any header the first part that starts with the key is the one taken, and none if there is none |
| `Disposition.HeaderRoundTrip` | src/a2a_mcp_bridge/facade.py:499 | the parser recovers the name from the printed text if and only if it has no semicolon and neither starts nor ends with a quote or whitespace |
| `Disposition.ParsersAgree` | src/a2a_mcp_bridge/bus_store.py:480-488 | both client parsers read the same name from every printed header |

## Left out

- MailStore.SinceMeansTime: starting texts in other forms select by byte order, as `MailStore.Store.PeekInbox` states, but are given no instant.
- MailStore.Store.SendMessage: text that UTF-8 cannot encode is not modelled; the encoding of a dict is an input beside its fields, and the value of a JSON text beside the text.
- MailStore.PurgeByDate: `datetime()` results outside the years 0001 to 9999 are taken to sort below every stored text.
- Bus.NoLostWakeUp: a signal file that cannot be written is excluded, since the source then only logs; so are files removed by others and ids outside the pattern.
- Signals.SignalDir.Wait: the poll interval only shows in the clock readings.
- RateBounds.RateBound: a reset forgets the key's history, so hits before it do not count.
- Routes.LayeredBound: requests are handled one after the other, as the event loop runs them.
- SlidingWindow.RateLimiter.Allow: clock readings are whole microseconds, not floats.
- Staging.AlwaysInv: directories are created unconditionally and renames succeed; symbolic links, permissions, fsync, power loss and a half-removed directory are not modelled.
- Staging.FetchYieldsCopiedBytes: uploads named `meta.json`, the remote paths of the file tools and the download handler are not modelled; the staging directory's own path holds no control character.
- Staging.ReceiveUpload: an upload without a usable base name is not modelled.
- TransferStore.TransferTable.SweepRows: a row or directory whose removal fails is not modelled.
- Remote.RemoteRefinesLocal: send, list and subscribe over HTTP are not modelled; nor is a failure other than a lost request or response.
- StagingQuota.StagingQuotaBound: a count looks at the whole tree at one moment, while the source walks it entry by entry.
- Disposition.HeaderRoundTrip: holds of the printed text. Headers travel as Latin-1, so a name with other characters cannot be sent at all.
- Disposition.ParsersAgree: holds of the printed text. For a name outside ASCII the two HTTP libraries may decode the header's bytes differently.
- HTTP routing, authentication, the MCP server, the command line and webhook delivery: library plumbing with no shared state of their own.
- Threads sharing the façade's one connection: the store is documented as one per process or thread (store.py:89).
- JSON text, UUIDs and SHA-256 themselves: encodings, fresh ids and an abstract hash stand in.
- Capability registration and queries, tool parameter checks, logging and exception classes: plain filters and single branches.
- ADR-004 sessions and ADR-005 skills: described in documents but not implemented.
