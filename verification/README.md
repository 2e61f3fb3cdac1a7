# Verified model of the outbox URL shortener, the Baby-Rabbit queue and two text transformations

Three parts of the repository are modelled and proved here.

**The URL shortener's event pipeline** (`Assignments/Assignment03/url-shortener`). Command
handlers write a link's row and its events in one Postgres transaction; a relay polls the
outbox, publishes to JetStream and marks rows; a projector consumes with at-least-once
delivery, keeps a durable click counter and a disposable Redis read model, and rebuilds Redis
at start-up. The repository promises that events are not lost, that clicks are not counted
twice, that the read model can be rebuilt, and that the write side and the event log cannot
diverge.

**Baby-Rabbit** (`Assignments/Assignment02/Baby-Rabbit`): bounded queues on a circular array
with lazy expiry and a background sweep, and the manager over them.

**Two text transformations**: the word statistics of
`Assignments/Assignment05/codes/Q7-pipeline` and mini-nginx's `escapeHTML`.

## How the pipeline is modelled

The pipeline appears twice, and lemmas connect the two.

- As a transition system. `WriteSteps` interleaves sessions that load an aggregate, open a
  transaction (which draws a seq number), and commit or roll back later. `RelaySteps`
  interleaves fetch, publish, mark and crash; a publish may be stored and still report an
  error, and a duplicate may be dropped. `ProjectorSteps` interleaves Bootstrap, deliveries in
  any order, writes that fail or succeed unseen, acknowledgements that get lost, crashes and
  Redis wipes. `Pipeline` puts them together; its invariant is proved of every run, and
  `Guarantees`, `Restart`, `CommitOrder` and `Disabling` draw the theorems from it. `Scenarios` holds
  concrete runs that break a promise made without its condition.
- As the code is written. `LinkDomain`, `Postgres`, `Commands`, `Relay` and `Projector` are
  classes whose methods have the source's loops, branches and error returns. Each method is
  proved against a function in `Tables`, `Serde` or its own module, and
  `Atomicity.SaveIsSteps`, `Atomicity.AppendIsSteps`, `Relay.TickIsRun`,
  `Projector.BootstrapIsRun` and `Projector.HandleIsSteps` show that those functions are runs
  of the transition system's steps. Lemmas such as `Atomicity.SaveExact`, `Relay.SendExact` and
  `Commands.CreateExact` say in plain terms what those functions compute.

`RingBuffer` is the circular array as a class; it is proved against operations on sequences
(`Queue`), and `QueueRuns` reasons about whole runs of those. `Broker` is all queues together
as one value and its whole runs; `QueueManager` is the manager, the use cases and the sweep as
objects that serve the broker's requests.

## What is assumed

- There is one relay process and one projector that handles one message at a time.
- Ids that are minted are new. A handler does not save the same aggregate twice
  (`Atomicity.RetryExact` says what happens otherwise).
- Marshalling an envelope succeeds: the payload column is `jsonb`.
- A stored URL passes validation again unchanged when a row is loaded.
- Seq order in the stream needs commits in seq order; this is a parameter of every run
  (`ordered`), and `CommitOrder.SeqOrderExact` gives the exact condition without it.
- `Guarantees.ReplayEqualsRebuild` and `Restart.RestartAfterRun` are of a broker that does not
  drop a duplicate LinkDisabled behind a duplicate LinkCreated; this is the other parameter
  (`safeDrops`), and `RelaySteps.SettledExact` says that it is the exact condition on a drop.
  `Guarantees.DrainedReplayExact` and `Restart.RestartUnderLoad` give the exact conditions for
  any broker, and counting and no-loss hold for arbitrary drops of duplicates.
- Read-model convergence after a restart is stated for consumption in stream order; naks and
  lost acknowledgements are allowed. Without that order `Guarantees.LinkKeysExact` gives the
  exact condition.
- Baby-Rabbit's clock does not go back, and a queue that is swept has a capacity above 0 (the
  use case rejects others; `RemoveExpired` divides by the capacity).
- Lower-casing is a character map that is idempotent and keeps letters and digits letters and
  digits. Strings are sequences of code points, whose order agrees with Go's byte order on
  valid UTF-8. `strings.FieldsFunc`, `strings.TrimSpace` and `strings.ReplaceAll` are written
  out as functions; `sort.Slice` as a method with the library's contract.

## Where code and documentation differ

The model follows the code.

- The design document calls the `version` column optimistic concurrency. No statement checks
  it. Status and URL are safe all the same, because the only update is one-way
  (`Guarantees.LinkLifecycle`), but the promise of `link.go` that a disabled link cannot be
  disabled again fails between sessions: both of two racing disables can succeed
  (`Scenarios.DisabledTwice`). `Disabling.DisabledOnceExact` says exactly when it holds.
- `link.go` says events are drained in the same transaction as the state. They are drained
  before it starts, so a failed Save empties the aggregate.
- `relay.go` says that stopping the batch preserves ordering. It does within a batch; across
  transactions seq order depends on commit order (`Scenarios.OvertakenClick`). Causal order of
  a link's creation and its disabling holds regardless.
- `message.go` says a TTL of 0 means "never expires"; the code says so of every TTL of 0 or
  below.

## Model

| member | source | states |
|---|---|---|
| `Pipeline.RunKeepsInv` | Assignments/Assignment03/url-shortener/internal/infrastructure/relay/relay.go:43-80 | One inductive invariant over write side, relay, broker and projector holds in every state of every interleaved run, crashes, lost acknowledgements, naks and wipes included |
| `Pipeline.RunExtends` | Assignments/Assignment03/url-shortener/internal/infrastructure/persistence/postgres/link_repository.go:25-52 | Along any run committed rows stay, links keep code and URL, a disabled link stays disabled, the stream is append-only, processed ids and counters only grow |
| `Guarantees.EventLogDeterminesState` | Assignments/Assignment03/url-shortener/internal/domain/link/repository.go:5-11 | However create and disable handlers interleave, folding the committed events in seq order gives exactly the map from code to URL of the active links: table and log cannot diverge |
| `Guarantees.LinkLifecycle` | Assignments/Assignment03/url-shortener/internal/domain/link/link.go:62-75 | Every link is (active, version 1) or (disabled, version 2), has exactly one LinkCreated row, below all its LinkDisabled rows, and has at least one of those if and only if it is disabled, although no version is checked |
| `Disabling.DisabledOnceExact` | Assignments/Assignment03/url-shortener/internal/domain/link/link.go:62-66 | "A disabled link cannot be disabled again": along every run no code gets two LinkDisabled rows if and only if every LinkDisabled that committed found its link still active in the table, which is what a version check would ask |
| `Scenarios.DisabledTwice` | Assignments/Assignment03/url-shortener/internal/application/command/disable_link.go:35-46 | Two sessions that loaded the same active row both disable it and both commit: the link has two LinkDisabled rows |
| `Guarantees.DisabledForever` | Assignments/Assignment03/url-shortener/internal/application/command/disable_link.go:29-50 | Between any two states of a run a link keeps its code and URL, and the row of a disabled link is not altered any more |
| `Guarantees.NothingMarkedIsMissing` | Assignments/Assignment03/url-shortener/internal/infrastructure/relay/relay.go:40-42 | A marked row is always in the stream, and the stream holds only committed events: a crash means redelivery, never loss |
| `Guarantees.CausalOrder` | Assignments/Assignment03/url-shortener/internal/infrastructure/relay/relay.go:52-71 | Whatever order transactions commit in, no LinkDisabled is in the stream without its code's LinkCreated before it |
| `Guarantees.RelayPrefix` | Assignments/Assignment03/url-shortener/internal/infrastructure/persistence/postgres/outbox.go:45-80 | If transactions commit in seq order: marked rows form a prefix of the committed rows, the rows in the stream a prefix at least as long, and first occurrences are in seq order, publishes that fail after being stored included |
| `Guarantees.NoDoubleCounting` | Assignments/Assignment03/url-shortener/internal/infrastructure/persistence/postgres/analytics.go:26-67 | Under reordering, duplication, naks, lost acknowledgements, crashes and deliveries that were on their way when an acknowledgement arrived, a counter is the number of distinct processed clicks of its code, never above the clicks committed |
| `Guarantees.ExactlyOnce` | Assignments/Assignment03/url-shortener/internal/infrastructure/messaging/jetstream/jetstream.go:84-104 | Once every row is marked and every message acknowledged, the counter equals the number of committed clicks of the code |
| `Guarantees.SelfHealingMirror` | Assignments/Assignment03/url-shortener/internal/infrastructure/projector/projector.go:107-125 | A Redis counter never exceeds the durable one, and after a Bootstrap that wrote every counter since the last wipe it equals the durable one whenever every recorded click of the code has been acknowledged, whatever SetClicks failed |
| `Guarantees.MirrorNeverFalls` | Assignments/Assignment03/url-shortener/internal/infrastructure/persistence/redis/read_model.go:81-84 | Along any run without a wipe no Redis counter decreases |
| `Guarantees.DrainedReplayExact` | Assignments/Assignment03/url-shortener/internal/infrastructure/relay/relay.go:66-69 | Replaying a drained stream gives the active links if and only if no LinkCreated of a disabled link is left without a LinkDisabled behind it |
| `Guarantees.ReplayEqualsRebuild` | Assignments/Assignment03/url-shortener/internal/infrastructure/projector/projector.go:32-50 | If the broker drops a duplicate LinkDisabled only while it is the last word on its code, a drained stream replayed from nothing and Bootstrap on an empty Redis give the same map, the active links |
| `Guarantees.RebuildIsActive` | Assignments/Assignment03/url-shortener/internal/infrastructure/projector/projector.go:35-50 | What Bootstrap makes of an empty Redis is exactly the active links of its snapshot |
| `Guarantees.RestartConverges` | Assignments/Assignment03/url-shortener/cmd/projector/main.go:57-62 | Bootstrap from a snapshot with sessions going on, then the rest of the stream: the active links if and only if every key Redis held is a link's code by the end and the rest leaves no LinkCreated of a disabled link last, whatever the broker drops |
| `Guarantees.LinkKeysExact` | Assignments/Assignment03/url-shortener/internal/infrastructure/projector/projector.go:91-105 | In every reachable state, wipes included, the link keys are the active links if and only if what was applied since the last wipe announces every active link and leaves no LinkCreated of a disabled link last |
| `Guarantees.SettledKeysExact` | Assignments/Assignment03/url-shortener/internal/infrastructure/projector/projector.go:91-105 | Without a wipe, once all is marked and acknowledged, only the order is left to ask for |
| `Restart.RestartUnderLoad` | Assignments/Assignment03/url-shortener/internal/infrastructure/projector/projector.go:35-64 | The same of whole runs, step by step: projector stopped anywhere, any keys in Redis, any broker, restarted under load with naks and lost acknowledgements, consumption in stream order; it ends with the active links if and only if each of those keys is a link's code by then and the unacknowledged stream leaves no LinkCreated of a disabled link last |
| `Restart.RestartAfterRun` | Assignments/Assignment03/url-shortener/cmd/projector/main.go:57-65 | With a broker that drops safely both conditions hold of keys the projector itself has left: such a restart always ends with the active links |
| `CommitOrder.SeqOrderExact` | Assignments/Assignment03/url-shortener/internal/infrastructure/relay/relay.go:66-69 | The stream is in seq order if and only if no commit and no publish of the run overtook a row; a stop at a failed publish alone does not give that |
| `CommitOrder.OrderedCommitsStayInTurn` | Assignments/Assignment03/url-shortener/internal/infrastructure/persistence/postgres/models.go:25-28 | Commits in seq order are enough: nothing is ever overtaken |
| `Scenarios.OvertakenClick` | Assignments/Assignment03/url-shortener/internal/infrastructure/persistence/postgres/outbox.go:45-51 | A run of two clicks in which the larger seq number commits and is published first, so seq order in the stream fails |
| `Scenarios.RevivedByDedup` | Assignments/Assignment03/url-shortener/internal/infrastructure/messaging/jetstream/jetstream.go:15-20 | A drained run whose stream is C, D, C: the broker has forgotten the LinkCreated and still drops the LinkDisabled, and replay brings back a disabled link |
| `Scenarios.RevivedByNak` | Assignments/Assignment03/url-shortener/internal/infrastructure/messaging/jetstream/jetstream.go:92-96 | A run in which a nacked LinkCreated is redelivered after the LinkDisabled: all is marked and acknowledged, and a disabled link resolves |
| `WriteSteps.WriteStepKeepsInv` | Assignments/Assignment03/url-shortener/internal/infrastructure/persistence/postgres/link_repository.go:36-51 | Every step of racing sessions (load, open a transaction, commit, roll back, with stale aggregates) keeps unique codes, unique event ids, one LinkCreated per code, row and status in agreement |
| `WriteSteps.WriteStepExtends` | Assignments/Assignment03/url-shortener/internal/application/command/disable_link.go:35-46 | A stale aggregate written back never changes code or URL and never turns disabled into active |
| `Replay.LogDeterminesState` | Assignments/Assignment03/url-shortener/internal/domain/link/repository.go:8-11 | In every state that satisfies the write side's invariant, the fold of the committed rows is the active-link map |
| `Replay.ReplayExact` | Assignments/Assignment03/url-shortener/internal/infrastructure/projector/projector.go:91-105 | For any sound and complete log, applying it gives the active links if and only if the log leaves no LinkCreated of a disabled link last |
| `Replay.ConsumeByLast` | Assignments/Assignment03/url-shortener/internal/infrastructure/persistence/redis/read_model.go:71-79 | The last lifecycle event of a code alone decides the code's key, whatever the map held |
| `Atomicity.SaveIsSteps` | Assignments/Assignment03/url-shortener/internal/infrastructure/persistence/postgres/link_repository.go:25-52 | A Save is Begin and Commit of the write-side steps; a failed one is Begin and Rollback exactly if the event insert had drawn its number, nothing if the upsert was refused or failed or the insert was what failed; so what holds of all interleavings holds of the repository |
| `Atomicity.SaveKeepsInv` | Assignments/Assignment03/url-shortener/internal/infrastructure/persistence/postgres/link_repository.go:25-52 | Saving a new link or a loaded one just disabled keeps the write side's invariant, whichever statement fails |
| `Atomicity.AppendIsSteps` | Assignments/Assignment03/url-shortener/internal/infrastructure/persistence/postgres/outbox.go:26-42 | Appending a click is Begin and Commit; one that fails at its insert is nothing, one that fails at the commit Begin and Rollback; all keep the invariant |
| `Atomicity.RetryExact` | Assignments/Assignment03/url-shortener/internal/infrastructure/persistence/postgres/link_repository.go:34 | Because the aggregate is drained before the transaction, saving it again after a failed Save keeps table and log in agreement if and only if the table already shows the row's status |
| `LinkDomain.ShortCodeExact` | Assignments/Assignment03/url-shortener/internal/domain/link/short_code.go:9-32 | A short code is seven characters, each of `0`-`9`, `A`-`Z` or `a`-`z`, and nothing else is |
| `LinkDomain.NewLink` | Assignments/Assignment03/url-shortener/internal/domain/link/link.go:24-47 | Active, version 1, one pending LinkCreated of the same id, code and URL; an empty code is reported before an empty URL |
| `LinkDomain.Link.Reconstitute` | Assignments/Assignment03/url-shortener/internal/domain/link/link.go:51-60 | Rebuilds the aggregate from stored state with no pending event |
| `LinkDomain.Link.Disable` | Assignments/Assignment03/url-shortener/internal/domain/link/link.go:64-75 | Fails without any change exactly on a disabled link; otherwise disables it, raises the version by one and records one LinkDisabled |
| `LinkDomain.Link.PullEvents` | Assignments/Assignment03/url-shortener/internal/domain/link/link.go:79-83 | Hands over the pending events and leaves none |
| `Atomicity.SaveExact` | Assignments/Assignment03/url-shortener/internal/infrastructure/persistence/postgres/link_repository.go:25-52 | What a Save leaves, row by row: the link and one unpublished row per event, or the tables as they were but for one gap for each event inserted before the statement that failed; no gap when the code belongs to another link or the upsert failed |
| `Atomicity.AppendExact` | Assignments/Assignment03/url-shortener/internal/infrastructure/persistence/postgres/outbox.go:26-42 | The same of an Append |
| `Postgres.Store.Save` | Assignments/Assignment03/url-shortener/internal/infrastructure/persistence/postgres/link_repository.go:25-52 | All or nothing: upsert and one outbox row per event, or no row at all, for a fault at any statement or a taken code; seq numbers drawn by a failed Save are lost; a commit whose reply is lost reports failure; the aggregate is drained either way |
| `Postgres.Store.FindByShortCode` | Assignments/Assignment03/url-shortener/internal/infrastructure/persistence/postgres/link_repository.go:55-65 | A fresh aggregate without events that equals the stored row, not-found exactly when no row has the code, or a read error |
| `Postgres.Store.ExistsByShortCode` | Assignments/Assignment03/url-shortener/internal/infrastructure/persistence/postgres/link_repository.go:68-72 | True exactly when a row has the code |
| `Postgres.Store.ListLinks` | Assignments/Assignment03/url-shortener/internal/infrastructure/persistence/postgres/link_repository.go:75-89 | One snapshot of every row, each row once, in any order, or a read error |
| `Postgres.Store.Append` | Assignments/Assignment03/url-shortener/internal/infrastructure/persistence/postgres/outbox.go:26-42 | All events in order or none, with the drawn seq numbers lost; nothing for no events; a lost reply reports failure |
| `Postgres.FetchExact` | Assignments/Assignment03/url-shortener/internal/infrastructure/persistence/postgres/outbox.go:45-68 | A batch is the first unpublished rows in seq order: ascending, at most the limit, and a pending row is left out only behind a full batch |
| `Postgres.Store.FetchUnpublished` | Assignments/Assignment03/url-shortener/internal/infrastructure/persistence/postgres/outbox.go:45-68 | The first `limit` unpublished rows in seq order, each with its event's envelope, or a read error |
| `Postgres.Store.MarkPublished` | Assignments/Assignment03/url-shortener/internal/infrastructure/persistence/postgres/outbox.go:71-80 | Marks exactly the named rows, or on a failed update none; a lost reply reports failure with the rows marked |
| `Postgres.Store.RecordClick` | Assignments/Assignment03/url-shortener/internal/infrastructure/persistence/postgres/analytics.go:29-67 | Counts an event id once and reads back the total, 0 for a code never counted; a failed transaction changes nothing, a lost reply reports failure with the click counted |
| `Postgres.Store.ListCounts` | Assignments/Assignment03/url-shortener/internal/infrastructure/persistence/postgres/analytics.go:70-80 | Every counter once, in any order, or a read error |
| `Commands.CreateLinkHandler.Handle` | Assignments/Assignment03/url-shortener/internal/application/command/create_link.go:51-87 | An attempt is spent exactly if its code is taken at the check or its Save is not seen to succeed. Five spent attempts give ShortCodeExhausted and nothing else does; otherwise the first that is not spent decides: no code, unreadable check, empty code, empty URL, or a link saved and reported. For every URL parser, generator, fault and other sessions' transactions, with the tables as each case leaves them |
| `Commands.CreateExact` | Assignments/Assignment03/url-shortener/internal/application/command/create_link.go:58-87 | For any number of attempts: the run answers r and leaves the tables db' if and only if the attempts are spent one after the other up to the one that decides so, or to the last |
| `Commands.CreateLinkTrace` | Assignments/Assignment03/url-shortener/internal/application/command/create_link.go:47-87 | The loop as a log of transactions: at most five attempts; the handler's commits are one for each lost reply and, on success, one more, the last, of the returned code and URL with its LinkCreated as newest row |
| `Commands.OneLinkExactly` | Assignments/Assignment03/url-shortener/internal/application/command/create_link.go:75-80 | A create leaves exactly one link of its own if and only if it succeeds with no reply lost, or fails with exactly one lost |
| `Commands.LostReplyLeavesTwo` | Assignments/Assignment03/url-shortener/internal/application/command/create_link.go:75-80 | A create whose first commit's reply is lost reports the second link and leaves both |
| `Commands.RacesKeepCodesUnique` | Assignments/Assignment03/url-shortener/internal/infrastructure/persistence/postgres/models.go:16 | However transactions interleave, no two links share a code |
| `Commands.ExistingRowUntouched` | Assignments/Assignment03/url-shortener/internal/application/command/create_link.go:71-84 | A row no other session writes to is not altered by the handler, and the outbox only grows |
| `Commands.DisableLinkHandler.Handle` | Assignments/Assignment03/url-shortener/internal/application/command/disable_link.go:29-50 | Writes back the row as loaded, disabled and one version up, whatever committed since the load; each error leaves the tables alone or as the other sessions made them |
| `Commands.RecordClick` | Assignments/Assignment03/url-shortener/internal/application/command/record_click.go:28-34 | Appends one LinkClicked for a well-formed code and nothing for any other; the error says so except when the reply is lost |
| `Serde.WireFormat` | Assignments/Assignment03/url-shortener/internal/infrastructure/persistence/postgres/serde.go:13-45 | Field by field what an event becomes: its two ids, its type's name, and a payload with the short code and, only for a link created with a non-empty URL, the URL |
| `Serde.OutboxMessagesAreRead` | Assignments/Assignment03/url-shortener/internal/infrastructure/persistence/postgres/serde.go:13-38 | No message that came from the outbox is poison: the projector's dispatch reads in it exactly the code, URL and event id that were raised |
| `Relay.Bus.Publish` | Assignments/Assignment03/url-shortener/internal/infrastructure/messaging/jetstream/jetstream.go:76-80 | Stores the message unless nothing arrives or its id is remembered; the acknowledgement may be lost after storing |
| `Relay.ArriveExact` | Assignments/Assignment03/url-shortener/internal/infrastructure/messaging/jetstream/jetstream.go:76-80 | A message is appended to the stream unless nothing arrives, or its id is remembered and a stored message has it |
| `Relay.Publisher.PublishBatch` | Assignments/Assignment03/url-shortener/internal/infrastructure/relay/relay.go:52-71 | Publishes in order and collects seq numbers until the first failure |
| `Relay.SendExact` | Assignments/Assignment03/url-shortener/internal/infrastructure/relay/relay.go:52-71 | Messages are sent in order and each is delivered as the network has it, the one whose acknowledgement fails included, and nothing is sent after it |
| `Relay.SendStops` | Assignments/Assignment03/url-shortener/internal/infrastructure/relay/relay.go:59-71 | The loop stops at the first message that is not acknowledged and at no other |
| `Relay.Publisher.RunOnce` | Assignments/Assignment03/url-shortener/internal/infrastructure/relay/relay.go:43-80 | A tick sends an in-order prefix of the batch and marks exactly what was acknowledged; count and error as returned, for every network, every read error and every outcome of the marking |
| `Relay.TickExact` | Assignments/Assignment03/url-shortener/internal/infrastructure/relay/relay.go:72-79 | Row by row, a tick marks exactly what was acknowledged, and nothing if the marking fails |
| `Relay.TickIsRun` | Assignments/Assignment03/url-shortener/internal/infrastructure/relay/relay.go:43-80 | For every behaviour of the network a tick is a run of the relay's steps, so the whole-run guarantees hold of the loop |
| `Relay.MarkPending` | Assignments/Assignment03/url-shortener/internal/infrastructure/persistence/postgres/outbox.go:71-80 | Marking the first n pending rows leaves exactly the others pending, in order |
| `Relay.DrainBound` | Assignments/Assignment03/url-shortener/internal/infrastructure/relay/relay.go:82-96 | k failure-free ticks mark exactly the first min(k*B, pending) rows |
| `Relay.DrainsInTime` | Assignments/Assignment03/url-shortener/internal/infrastructure/relay/relay.go:82-96 | With B above 0, ceil(pending / B) failure-free ticks empty the outbox |
| `Relay.TicksNeeded` | Assignments/Assignment03/url-shortener/internal/infrastructure/relay/relay.go:82-96 | The least k with k*B at least the pending count |
| `Relay.PendingNeverGrows` | Assignments/Assignment03/url-shortener/internal/infrastructure/relay/relay.go:43-80 | However ticks fail, they never add to the pending rows |
| `RelaySteps.RelayStepKeepsInv` | Assignments/Assignment03/url-shortener/internal/infrastructure/relay/relay.go:52-79 | Fetch, publish, mark and crash keep: what is marked or collected is in the stream, batches are closed under what must precede their rows, and the stream keeps that order |
| `RelaySteps.SettledExact` | Assignments/Assignment03/url-shortener/internal/infrastructure/messaging/jetstream/jetstream.go:18-19 | A publish keeps "an acknowledged LinkDisabled is the stream's last word on its code" if and only if the broker does not drop it while it is not |
| `Projector.ReadModel.LongUrl` | Assignments/Assignment03/url-shortener/internal/infrastructure/persistence/redis/read_model.go:39-49 | Resolves exactly the codes with a link key, each to its URL |
| `Projector.ReadModel.Clicks` | Assignments/Assignment03/url-shortener/internal/infrastructure/persistence/redis/read_model.go:51-69 | Answers exactly for codes that resolve, with the mirrored counter, 0 without one |
| `Projector.ReadModel.SaveLink` | Assignments/Assignment03/url-shortener/internal/infrastructure/persistence/redis/read_model.go:71-74 | Sets one key, or on a failed write none |
| `Projector.ReadModel.DeleteLink` | Assignments/Assignment03/url-shortener/internal/infrastructure/persistence/redis/read_model.go:76-79 | Removes one key, or on a failed write none |
| `Projector.ReadModel.SetClicks` | Assignments/Assignment03/url-shortener/internal/infrastructure/persistence/redis/read_model.go:81-84 | Sets one counter, or on a failed write none |
| `Projector.Consumer.Bootstrap` | Assignments/Assignment03/url-shortener/internal/infrastructure/projector/projector.go:35-64 | A failed write costs its own key and no other: over tables in whatever order they yield rows, each link whose write did not fail ends as its row has it, one whose write failed keeps its key as before, no other key changes, and the same of the counters; errors exactly when a table cannot be read |
| `Projector.BootstrapRebuildsKeys` | Assignments/Assignment03/url-shortener/internal/infrastructure/projector/projector.go:40-50 | The first loop key by key, for every order of rows and every failure: written as the row has it, or kept where the write failed; if no write fails, the codes in the table are as the table has them and no other key changes |
| `Projector.BootstrapRebuildsCounters` | Assignments/Assignment03/url-shortener/internal/infrastructure/projector/projector.go:56-60 | The same of the counters; if no write fails they are the old ones overlaid with the analytics table |
| `Projector.BootstrapIsRun` | Assignments/Assignment03/url-shortener/internal/infrastructure/projector/projector.go:35-64 | Bootstrap is a run of the step system's Start, BootLink, BootRead, BootClick and BootEnd, and makes the mirror whole exactly if both tables were read and no counter write failed |
| `Projector.Consumer.Handle` | Assignments/Assignment03/url-shortener/internal/infrastructure/projector/projector.go:68-125 | An undecodable payload, an unknown type or a click whose event id is no UUID changes nothing and is reported handled, whatever writes would do; a lifecycle message sets or removes its one key, a click counts once per id and mirrors the total; an error is returned exactly when a write was not seen to succeed |
| `Projector.Consumer.OnMessage` | Assignments/Assignment03/url-shortener/internal/infrastructure/messaging/jetstream/jetstream.go:84-97 | Undecodable data is terminated without effect, poison is acknowledged without effect, an error naks, anything else is acknowledged |
| `Projector.HandleIsSteps` | Assignments/Assignment03/url-shortener/internal/infrastructure/projector/projector.go:68-125 | Handling the message an event became is the step system's Deliver and, for a counted click, SetClicks; it is acknowledged exactly when all its writes got through |
| `ProjectorSteps.ProjStepKeepsCount` | Assignments/Assignment03/url-shortener/internal/infrastructure/persistence/postgres/analytics.go:31-50 | Every projector step keeps: counter = number of distinct processed click rows |
| `ProjectorSteps.ProjStepKeepsMirror` | Assignments/Assignment03/url-shortener/internal/infrastructure/projector/projector.go:116-122 | Every projector step keeps Redis counters at or below the durable ones, and in step unless a recorded click is still owed |
| `Queue.PopReturnsFirstLive` | Assignments/Assignment02/Baby-Rabbit/internal/repository/ring_buffer_queue.go:43-62 | Pop returns the first live message and leaves exactly the live messages after it; it returns none, and empties the queue, exactly when none is live |
| `Queue.PopExact` | Assignments/Assignment02/Baby-Rabbit/internal/repository/ring_buffer_queue.go:46-62 | In plain numbers: the first d messages have ttl > 0 and createdAt + ttl <= now, the next one, if any, has not and is returned, and what is behind it stays |
| `Queue.LiveExact` | Assignments/Assignment02/Baby-Rabbit/internal/domain/message.go:14-19 | The live messages are those with ttl <= 0 or now < createdAt + ttl, every one of them, in their order |
| `RingBuffer.Slot` | Assignments/Assignment02/Baby-Rabbit/internal/repository/ring_buffer_queue.go:84-86 | Position of the k-th message of the window, (head + k) mod capacity |
| `RingBuffer.RingBufferQueue.constructor` | Assignments/Assignment02/Baby-Rabbit/internal/repository/ring_buffer_queue.go:22-28 | An empty window over zero messages |
| `RingBuffer.RingBufferQueue.Push` | Assignments/Assignment02/Baby-Rabbit/internal/repository/ring_buffer_queue.go:30-41 | Appends, or reports full exactly at capacity and changes nothing; tail stays (head + size) mod capacity and slots outside the window stay zero |
| `RingBuffer.RingBufferQueue.Pop` | Assignments/Assignment02/Baby-Rabbit/internal/repository/ring_buffer_queue.go:46-62 | Refines Pop on sequences, on the circular array: what it returns has ttl <= 0 or now < createdAt + ttl, and what it throws away is past createdAt + ttl |
| `RingBuffer.RingBufferQueue.Size` | Assignments/Assignment02/Baby-Rabbit/internal/repository/ring_buffer_queue.go:64-68 | The number of messages in the window |
| `RingBuffer.RingBufferQueue.Compact` | Assignments/Assignment02/Baby-Rabbit/internal/repository/ring_buffer_queue.go:80-93 | The live messages in order at the front of a fresh buffer, zero messages behind them, across the wrap-around |
| `RingBuffer.RingBufferQueue.RemoveExpired` | Assignments/Assignment02/Baby-Rabbit/internal/repository/ring_buffer_queue.go:76-99 | Keeps, in order, exactly the messages with ttl <= 0 or now < createdAt + ttl, and returns how many it removed |
| `QueueRuns.SweepTransparency` | Assignments/Assignment02/Baby-Rabbit/internal/repository/ring_buffer_queue.go:30-99 | For every run with a non-decreasing clock, sweeps at any points change nothing a client sees if and only if no push finds the never-swept queue full and the swept one with room |
| `QueueRuns.SweepsAreUnseen` | Assignments/Assignment02/Baby-Rabbit/internal/repository/ring_buffer_queue.go:43-99 | In particular, if the never-swept queue rejects no push, sweeps change no pop and cause no rejection |
| `QueueRuns.SweepMakesRoom` | Assignments/Assignment02/Baby-Rabbit/internal/repository/ring_buffer_queue.go:34-36 | A run that fails the condition: a sweep lets in a push the unswept queue rejects |
| `QueueRuns.Conservation` | Assignments/Assignment02/Baby-Rabbit/internal/repository/ring_buffer_queue.go:30-99 | Over every run each accepted push is in exactly one of returned, discarded, queued; returns are in push order; what was returned at a time had ttl <= 0 or that time before createdAt + ttl, what was discarded at a time was past it |
| `QueueRuns.LeavesThen` | Assignments/Assignment02/Baby-Rabbit/internal/repository/ring_buffer_queue.go:46-99 | Those times are true: what leaves in an operation was queued until then and carries that operation's reading of the clock, and nothing leaves in a push |
| `QueueRuns.HistoryIsTheRun` | Assignments/Assignment02/Baby-Rabbit/internal/repository/ring_buffer_queue.go:30-99 | That history is of the very queue: its queued pushes are the contents, its returned pushes what the pops returned |
| `QueueRuns.ImmortalIsKept` | Assignments/Assignment02/Baby-Rabbit/internal/domain/message.go:14-19 | A message with a TTL of 0 or below is never discarded |
| `Broker.CreateAgreesExact` | Assignments/Assignment02/Baby-Rabbit/internal/repository/queue_manager.go:35-46 | Ids and names stay in one-to-one correspondence if and only if the name was taken (and nothing happens) or the id is new |
| `Broker.BrokerRun` | Assignments/Assignment02/Baby-Rabbit/internal/repository/queue_manager.go:12-79 | In every state that a run of creations with distinct ids, pushes, pops and sweeps over any number of queues reaches, the three maps agree, and each queue's contents and replies are those of a run of that one queue |
| `Broker.EveryQueueConserves` | Assignments/Assignment02/Baby-Rabbit/internal/usecase/queue_usecase.go:40-62 | So in every such run each queue by itself conserves its messages in order, and sweeps show to its clients exactly when they let in a push |
| `QueueManager.Manager.constructor` | Assignments/Assignment02/Baby-Rabbit/internal/repository/queue_manager.go:21-33 | A manager without queues |
| `QueueManager.Manager.CreateQueue` | Assignments/Assignment02/Baby-Rabbit/internal/repository/queue_manager.go:35-46 | Serves the creation: adds an empty queue of the given capacity, or fails on a taken name with no change; every queue stays sound and shares nothing with another |
| `QueueManager.Manager.GetQueue` | Assignments/Assignment02/Baby-Rabbit/internal/repository/queue_manager.go:48-57 | The queue of an id, not-found exactly for unknown ids |
| `QueueManager.Manager.GetMetadata` | Assignments/Assignment02/Baby-Rabbit/internal/repository/queue_manager.go:59-68 | The descriptor of an id, not-found exactly for unknown ids |
| `QueueManager.Manager.ListQueues` | Assignments/Assignment02/Baby-Rabbit/internal/repository/queue_manager.go:70-79 | Every descriptor exactly once, in any order |
| `QueueManager.TrimSpaceExact` | Assignments/Assignment02/Baby-Rabbit/internal/usecase/queue_usecase.go:21 | The trimmed name is the part of the raw one with no space at either end, only spaces being cut off |
| `QueueManager.UseCase.CreateQueue` | Assignments/Assignment02/Baby-Rabbit/internal/usecase/queue_usecase.go:20-38 | Trimmed name, then capacity, then uniqueness are checked in this order; on success the descriptor, the name and an empty queue are added under the new id, on an error nothing changes; all new objects are fresh |
| `QueueManager.UseCase.Push` | Assignments/Assignment02/Baby-Rabbit/internal/usecase/queue_usecase.go:40-54 | Negative TTL, unknown id, a queue at capacity are reported in this order, each exactly then; on success that one queue has the message with its id, time and TTL appended, and nothing else in the broker changes |
| `QueueManager.UseCase.Pop` | Assignments/Assignment02/Baby-Rabbit/internal/usecase/queue_usecase.go:56-62 | Serves the pop of the named queue; nothing else in the broker changes |
| `QueueManager.UseCase.Status` | Assignments/Assignment02/Baby-Rabbit/internal/usecase/queue_usecase.go:64-79 | Name, current size and capacity of the named queue |
| `QueueManager.Sweep` | Assignments/Assignment02/Baby-Rabbit/internal/service/ttl_cleaner.go:44-54 | A pass sweeps each queue there is at its start exactly once, with any clients' requests served between two queues |
| `QueueManager.QuietPassSweepsAll` | Assignments/Assignment02/Baby-Rabbit/internal/service/ttl_cleaner.go:44-54 | Without clients in between it removes from every queue exactly its expired messages |
| `QueueManager.ServeFromEmpty` | Assignments/Assignment02/Baby-Rabbit/internal/repository/queue_manager.go:21-79 | Whatever requests a new manager serves, it is in the state of that run, so what is proved of runs holds of the objects |
| `TextStats.Tokenize` | Assignments/Assignment05/codes/Q7-pipeline/app/internal/textstats/textstats.go:25-34 | The lower-cased fields of the text, in order |
| `TextStats.FieldsAreMaximal` | Assignments/Assignment05/codes/Q7-pipeline/app/internal/textstats/textstats.go:26-28 | Fields stand in order at disjoint places of the text, each a maximal run of letters and digits, and every letter or digit is in one |
| `TextStats.TokensAreLowerWords` | Assignments/Assignment05/codes/Q7-pipeline/app/internal/textstats/textstats.go:23-34 | Every token is non-empty, all letters and digits, and lower case |
| `TextStats.TokensExact` | Assignments/Assignment05/codes/Q7-pipeline/app/internal/textstats/textstats.go:25-34 | Tokens stand in order and apart at places of the text, each a maximal run of letters and digits there with every character replaced by its lower case, and every letter or digit is in one |
| `TextStats.TokensConcat` | Assignments/Assignment05/codes/Q7-pipeline/app/internal/textstats/textstats.go:23-34 | Text, separator, text gives the tokens of the first followed by those of the second |
| `TextStats.Retokenize` | Assignments/Assignment05/codes/Q7-pipeline/app/internal/textstats/textstats.go:25-34 | Tokenizing the joined tokens gives the tokens back |
| `TextStats.LexExact` | Assignments/Assignment05/codes/Q7-pipeline/app/internal/textstats/textstats.go:54 | The word order is the lexicographic one: at the first place where two words differ the smaller one ends or has the smaller character |
| `TextStats.Analyze` | Assignments/Assignment05/codes/Q7-pipeline/app/internal/textstats/textstats.go:38-69 | Number of words, of different words, and a top of n entries, 0 for a negative n and all of them for one above: true counts, descending, equal counts alphabetically, and no word left out has a higher count than one inside or the same count and an earlier place in the alphabet |
| `TextStats.RankingIsUnique` | Assignments/Assignment05/codes/Q7-pipeline/app/internal/textstats/textstats.go:36-55 | Whatever order the map is walked in and however the sort proceeds, there is one ranking |
| `TextStats.TopIsPrefix` | Assignments/Assignment05/codes/Q7-pipeline/app/internal/textstats/textstats.go:57-67 | The top for a smaller n is a prefix of the top for a larger one, and no word left out ranks above one inside |
| `TextStats.RankingAddsUp` | Assignments/Assignment05/codes/Q7-pipeline/app/internal/textstats/textstats.go:41-44 | The counts of all words sum to the number of words |
| `EscapeHtml.EscapeIsEncode` | Assignments/Assignment01/mini-nginx/internal/handlers/servedir.go:117-124 | The five replacements in a row equal one pass, character by character |
| `EscapeHtml.EscapeTable` | Assignments/Assignment01/mini-nginx/internal/handlers/servedir.go:117-124 | `&`, `<`, `>`, double and single quote become their five entities, and any other character stays |
| `EscapeHtml.DecodeEscape` | Assignments/Assignment01/mini-nginx/internal/handlers/servedir.go:117-124 | Decoding the entities gives back the input |
| `EscapeHtml.EscapeInjective` | Assignments/Assignment01/mini-nginx/internal/handlers/servedir.go:117-124 | Two different strings never escape to the same text |
| `EscapeHtml.NoMarkupLeft` | Assignments/Assignment01/mini-nginx/internal/handlers/servedir.go:117-124 | No raw `<`, `>`, double or single quote is left |
| `EscapeHtml.AmpersandMustGoFirst` | Assignments/Assignment01/mini-nginx/internal/handlers/servedir.go:118 | With `&` replaced last the result is the same if and only if the string has none of the other four characters |

## Left out

- The `continue` of `relay.go:61-65` when an envelope cannot be marshalled: it would leave a gap in the marked rows.
- Columns that no decision reads: created-at, occurred-at, processed-at and last-clicked-at. `published_at` is a flag.
- Two relays or two concurrent projectors at work at once.
- Read errors of Redis on the query side, which are passed on to the caller.
- Re-validation of stored rows in `toAggregate`: it cannot fail on rows the handlers wrote.
- Integer widths: versions, counters, seq numbers and sizes are unbounded; durations and times are integers.
- The expiry of JetStream's deduplication window as a time: at each publish the broker may or may not still remember an id it has stored, which covers every window.
- Redelivery timers, `AckWait` and connection handling of NATS; GORM and go-redis; the JSON text format (objects are maps from key to string).
- `url.Parse` normalisation, UUID and random code generation: parameters of the handlers.
- HTTP handlers, DTOs, configuration, logging, tickers, signal handling and `main` wiring apart from Bootstrap-then-subscribe.
- Mutexes and physical threads: each guarded method or transaction is one atomic step.
- The queue factory: the manager builds ring buffers, its default.
- `NewQueueManager` with a custom factory, `ListQueues` of the use case and other one-line forwards.
- Lower-casing or classification of invalid UTF-8.
- The rest of mini-nginx, the dashboard, scripts and deployment files.
