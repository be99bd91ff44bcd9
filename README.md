# Live poll vote pipeline: a Dafny model

This project models the two pieces of sequential logic in the live polling
backend:

- **The voting service** (`castVote`). It checks the dedup key
  `vote:{pollId}:{userId}` in the key-value store and refuses the vote with
  "You have already voted!" while that key is live. Otherwise it appends
  `{pollId, optionId, userId}` to the `raw-votes` log, keyed by `pollId`. It
  then sets the key to `'1'` with a 3600-second expiry and answers
  `{status: 'Vote queued'}`.
- **The poll aggregator** (`handleVote`, `flushVotes`). `handleVote` counts
  each `raw-votes` message into an in-memory `Map<string, number>` per
  `optionId`, and ignores messages whose `optionId` is missing or empty.
  `flushVotes` does nothing when the map is empty. Otherwise it copies the
  entries, clears the map, and walks the copy in insertion order. For each
  entry it increments the option's durable vote counter by the count and
  emits `{optionId, pollId, newCount}` on `poll-updates`. When an increment
  fails, that entry's count is dropped and the loop moves on.

Files:

- `wrappers.dfy`: `Option` and `Result`.
- `poll_aggregator.dfy`: module `PollAggregator`. It holds the buffer as a
  JavaScript `Map` (`VoteBuffer`: insertion order plus values), the
  specification functions `Ingest`/`IngestAll` and `Flushed`, their lemmas, and
  the class `PollAggregatorController`. The class's fields are `voteBuffer`, the
  durable `option` table `options`, and the `poll-updates` topic `pollUpdates`.
  Its methods `HandleVote` and `FlushVotes` are proved against those
  functions. `FlushVotes` takes the snapshot and clears the buffer, and its
  loop over the snapshot is the method `ApplyUpdates`.
- `voting_api.dfy`: module `VotingApi`. It has the specification function
  `Cast`, lemmas about one call, two calls and any run of calls, and the class
  `VotingApiService`. That class holds the dedup `store` and the `raw-votes`
  `log`, and its `CastVote` method is proved against `Cast`.
- `pipeline.dfy`: module `Pipeline`. It connects the two: records the voting
  service appends, once handled and flushed by the aggregator, reach the
  option table.

External clients are replaced by state and inputs:

- The Prisma `option` table is a `map<string, OptionRow>` keyed by option id.
  An update throws when the id has no row, or when the id is in the set
  `unavailable` passed to `FlushVotes`. That set stands for the store being
  unreachable for that update.
- The Kafka topics are sequences. `raw-votes` is `log: seq<LogRecord>`, and
  `poll-updates` is `pollUpdates: seq<UpdateEvent>`.
- The Redis store is a `map<string, DedupEntry>` holding a value and an expiry
  instant. The clock is the `now` argument of each call, and the model reads
  it once per call: the `GET` (line 21) and the `SET ... EX 3600` (line 39)
  both happen at `now`. In the code they are one append round-trip apart, and
  Redis counts the hour from the `SET`. So `SecondVoteRefused` and
  `VoteAgainAfterExpiry` measure the 3600 seconds from the instant of the
  check, not from the later `SET`. A key is live while `now < expiresAt`,
  which is when `GET` returns it. `hasVoted` is JavaScript
  truthiness of that value: present and not the empty string.
- Whether the `raw-votes` append throws is the `appendOk` argument.

What the code does, which the model follows:

- The code validates no fields, so there is no "invalid request" error.
  The only refusals are "already voted" and a throwing append.
- The dedup check and the mark are separate `GET` and `SET` calls, not one
  atomic conditional set. The model runs calls one after another, so the
  race between them is outside it (see below).
- The log record value is `{pollId, optionId, userId}`. It has no timestamp
  field.
- The dedup key is a plain string join. Two different pairs can therefore
  share a key when a poll id contains `:` (`DedupKeyCollision`). The key
  determines the pair only when poll ids contain no `:` (`DedupKeyInjective`).

## Model

| member | source | states |
|---|---|---|
| `PollAggregator.VoteBuffer.Set` | apps/poll-aggregator/src/poll-aggregator.controller.ts:35 | `Map.set` stores the new value for that key and leaves every other key's value alone. It keeps a known key in its place and appends a new key at the end of the insertion order. The result is still a well-formed map. |
| `PollAggregator.VoteBuffer.Get` | apps/poll-aggregator/src/poll-aggregator.controller.ts:34 | On a well-formed buffer, the current count (`get`, or 0 when the key is absent) is never negative, and it is 0 exactly when `k` is not a key. |
| `PollAggregator.VoteBuffer.Entries` | apps/poll-aggregator/src/poll-aggregator.controller.ts:45 | The snapshot has one entry per key, in insertion order, and no option id twice. Every count in it is at least 1. For every option, the snapshot's count equals what `get` returns for it, and 0 for an option not in the buffer. |
| `PollAggregator.EntriesSetPresent` | apps/poll-aggregator/src/poll-aggregator.controller.ts:35 | After `set` of a key already in the map, the snapshot is the old one with that key's entry replaced in place. |
| `PollAggregator.EntriesSetAbsent` | apps/poll-aggregator/src/poll-aggregator.controller.ts:35 | After `set` of a new key, the snapshot is the old one with the new entry appended at the end. |
| `PollAggregator.SetTotal` | apps/poll-aggregator/src/poll-aggregator.controller.ts:34-35 | Setting a key changes the buffer's total by exactly the change in that key's value. |
| `PollAggregator.Ingest` | apps/poll-aggregator/src/poll-aggregator.controller.ts:24-35 | A payload whose `optionId` is missing or empty leaves the buffer unchanged. Otherwise that option's count becomes its old count (0 if absent) plus 1 and every other count is unchanged. A first vote for an option puts it at the end of the order. |
| `PollAggregator.IngestAll` | apps/poll-aggregator/src/poll-aggregator.controller.ts:24-35 | Any run of `handleVote` calls keeps the buffer a well-formed map: no repeated key, and the keys match the values. |
| `PollAggregator.IngestTotal` | apps/poll-aggregator/src/poll-aggregator.controller.ts:26-35 | One accepted vote adds exactly 1 to the sum of all buffered counts. An ignored payload adds 0. |
| `PollAggregator.BufferCountsVotes` | apps/poll-aggregator/src/poll-aggregator.controller.ts:34-35 | After any run of `handleVote` calls, each non-empty option's count has grown by exactly the number of payloads that voted for it. |
| `PollAggregator.BufferTotalCountsAccepted` | apps/poll-aggregator/src/poll-aggregator.controller.ts:26-35 | After any run of `handleVote` calls, the sum of all buffered counts has grown by exactly the number of accepted payloads. |
| `PollAggregator.RepeatedVotes` | apps/poll-aggregator/src/poll-aggregator.controller.ts:34-35 | From an empty buffer, k votes for one option leave that option at k, the total at k, and that option as the only key. |
| `PollAggregator.SizeZeroIsEmpty` | apps/poll-aggregator/src/poll-aggregator.controller.ts:42 | A buffer of size 0 is the empty map and its snapshot is empty. |
| `PollAggregator.Increment` | apps/poll-aggregator/src/poll-aggregator.controller.ts:52-55 | The update succeeds if and only if the id has a row and the store is reachable for it. The returned row keeps its poll id and has exactly `count` more votes. |
| `PollAggregator.FlushStepEffect` | apps/poll-aggregator/src/poll-aggregator.controller.ts:52-70 | One loop iteration changes no other option's row. A successful increment adds the entry's count to its row and appends exactly one event, carrying the option id, its poll id and its new total, after the earlier events. A failed increment changes nothing. |
| `PollAggregator.Flushed` | apps/poll-aggregator/src/poll-aggregator.controller.ts:48-70 | The flush loop neither creates nor removes option rows. |
| `PollAggregator.Committed` | apps/poll-aggregator/src/poll-aggregator.controller.ts:52-55 | Every committed entry is a snapshot entry whose update succeeds, and there are no more of them than snapshot entries. The converse is `CommittedComplete`. |
| `PollAggregator.CommittedComplete` | apps/poll-aggregator/src/poll-aggregator.controller.ts:48-55 | Every snapshot entry whose update succeeds is a committed entry. With `Committed`, the committed entries are exactly the succeeding ones. |
| `PollAggregator.Dropped` | apps/poll-aggregator/src/poll-aggregator.controller.ts:67-70 | Every dropped entry is a snapshot entry whose update throws, and there are no more of them than snapshot entries. The converse is `DroppedComplete`. |
| `PollAggregator.DroppedComplete` | apps/poll-aggregator/src/poll-aggregator.controller.ts:48-70 | Every snapshot entry whose update throws is a dropped entry. With `Dropped`, the dropped entries are exactly the failing ones. |
| `PollAggregator.FlushAddsCommittedCounts` | apps/poll-aggregator/src/poll-aggregator.controller.ts:48-70 | For each option, the stored votes grow by exactly the snapshot's count for it when its increment succeeds. They stay unchanged when the increment fails or the option is not in the snapshot. Poll ids never change. |
| `PollAggregator.FlushEventsFollowCommits` | apps/poll-aggregator/src/poll-aggregator.controller.ts:45-65 | The flush emits exactly one event per committed entry, in snapshot order, so at most one per snapshot entry. A failed entry emits nothing. Each event carries the option id, the option's poll id, and the option's stored total after the flush. |
| `PollAggregator.EventsCarryNewTotals` | apps/poll-aggregator/src/poll-aggregator.controller.ts:52-65 | Each event's `newCount` is the option's stored total before the flush plus the entry's buffered count. |
| `PollAggregator.FlushSplitsSnapshot` | apps/poll-aggregator/src/poll-aggregator.controller.ts:45-70 | Every snapshot vote is either committed or dropped: the two sums add up to the snapshot's total. |
| `PollAggregator.FlushNeverLowersVotes` | apps/poll-aggregator/src/poll-aggregator.controller.ts:45-70 | Flushing a buffer's snapshot never removes a row and never lowers any option's votes. |
| `PollAggregator.IngestThenFlush` | apps/poll-aggregator/src/poll-aggregator.controller.ts:24-70 | From an empty buffer, the votes handled before a flush reach the table whole. Each reachable option gains exactly the number of votes for it, and an unreachable one gains nothing. |
| `PollAggregator.PollAggregatorController.constructor` | apps/poll-aggregator/src/poll-aggregator.controller.ts:7 | The buffer starts as an empty map. |
| `PollAggregator.PollAggregatorController.HandleVote` | apps/poll-aggregator/src/poll-aggregator.controller.ts:24-39 | The new buffer is `Ingest` of the old one. The option table and the topic are untouched. |
| `PollAggregator.PollAggregatorController.FlushVotes` | apps/poll-aggregator/src/poll-aggregator.controller.ts:41-72 | The buffer is empty afterwards, and no failed count is put back. An empty buffer changes nothing else. The new table is `Flushed` applied to the snapshot in insertion order. The topic gains exactly `Flushed`'s events, after the earlier ones. No option row disappears and no option's votes go down. |
| `PollAggregator.PollAggregatorController.ApplyUpdates` | apps/poll-aggregator/src/poll-aggregator.controller.ts:48-70 | The loop leaves the buffer alone. Its table is `Flushed` of the snapshot, and the topic gains exactly `Flushed`'s events after the earlier ones. |
| `VotingApi.Cast` | apps/voting-api/src/voting-api.service.ts:18-41 | A refused call, for either reason, leaves the store and the log unchanged. A call appends at most one record and never changes earlier records. No key other than `vote:{pollId}:{userId}` is added, changed or removed. |
| `VotingApi.CastOutcomes` | apps/voting-api/src/voting-api.service.ts:21-41 | A call is accepted if and only if the key is not live and the append succeeds. It is refused as a duplicate if and only if the key is live, and fails in the append if and only if the key is not live and the append throws. |
| `VotingApi.AcceptanceAppendsAndMarks` | apps/voting-api/src/voting-api.service.ts:28-41 | An accepted call appends exactly one record with key `pollId` and value `{pollId, optionId, userId}`, and earlier records are unchanged. It sets only `vote:{pollId}:{userId}`, to `'1'` with expiry `now + 3600`, and returns `{status: 'Vote queued'}`. |
| `VotingApi.SecondVoteRefused` | apps/voting-api/src/voting-api.service.ts:21-39 | After an accepted vote, a call for the same poll and user, with any option, is refused before the mark expires. It appends nothing and changes nothing. |
| `VotingApi.VoteAgainAfterExpiry` | apps/voting-api/src/voting-api.service.ts:21-39 | Once 3600 seconds have passed since the accepted vote, the same poll and user are accepted again. |
| `VotingApi.FailedAppendDoesNotBlock` | apps/voting-api/src/voting-api.service.ts:28-39 | An `emit` that throws inside the call sets no mark and changes nothing, so an immediate retry by the same voter is accepted. It says nothing about a broker error reported after the call returns (see "Left out"). |
| `VotingApi.DedupKeyInjective` | apps/voting-api/src/voting-api.service.ts:21 | When poll ids contain no `:`, two pairs get the same key `vote:{pollId}:{userId}` if and only if they are the same pair. |
| `VotingApi.DedupKeyCollision` | apps/voting-api/src/voting-api.service.ts:39 | When a poll id contains `:`, two different pairs can build the same key. |
| `VotingApi.OneAcceptancePerWindow` | apps/voting-api/src/voting-api.service.ts:18-41 | Calls made one after another within one 3600-second window append at most one record per (poll, user) pair. After that record, the pair's key stays live until the window ends. |
| `VotingApi.VotingApiService.constructor` | apps/voting-api/src/voting-api.service.ts:6-11 | The service starts from the given dedup store and `raw-votes` log. |
| `VotingApi.VotingApiService.CastVote` | apps/voting-api/src/voting-api.service.ts:18-42 | The new store, log and result are exactly those of `Cast`. A refusal changes neither the store nor the log. |
| `Pipeline.Payload` | apps/poll-aggregator/src/poll-aggregator.controller.ts:24-31 | A logged record is counted by the handler if and only if its `optionId` is not empty. |
| `Pipeline.QueuedVotesReachTable` | apps/poll-aggregator/src/poll-aggregator.controller.ts:23-70 | When a fresh aggregator handles the logged records and then flushes against a reachable table, each non-empty option gains exactly the number of records that name it. |

## Left out

- The 2-second `setInterval` that triggers `flushVotes` is left out. So is any
  interleaving of `handleVote` with the `await`s inside `flushVotes`. Both are
  concurrency concerns, and each operation is modelled as one sequential call.
- The check-then-act race in `castVote` is left out. Two concurrent calls for
  the same pair can both pass the `GET` before either `SET` runs, and the
  model, which runs calls sequentially, does not capture that.
- Connecting the clients (`onModuleInit`) and the real Prisma, Kafka and Redis
  clients are left out. Their state is replaced by maps and sequences.
- Redis failures are not modelled: a `GET` or `SET` that throws. A `SET` that
  throws after a successful append would leave a queued vote with no mark.
- `VotingApi.FailedAppendDoesNotBlock`: the `raw-votes` append fails in the
  model only by throwing inside the call, which is `appendOk == false`. That is
  the rare case. `emit` returns an observable and seldom throws synchronously,
  and awaiting it does not wait for the broker. A broker error is reported
  later, after `castVote` has already set the key (line 39) and answered
  "Vote queued". The voter is then refused for an hour although no vote was
  logged. The model does not capture that path.
- `PollAggregator.PollAggregatorController.FlushVotes`: the emit on
  `poll-updates` is treated as always succeeding. An emit that throws
  synchronously would skip the event after the row was already incremented.
- `PollAggregator.VotePayload`: `optionId` is an optional string. Non-string
  payload values are not modelled. Examples are a numeric `optionId` (a
  different `Map` key from its string form) and a payload that is not an
  object.
- `PollAggregator.Increment`: the database column's integer width is not
  modelled. Counts are unbounded integers.
- The events' `optionId` is the table key that was updated. The model keeps no
  separate `id` column, because the update selects the row by that id.
- `console.log` and `console.error` output is left out.
- `VotingApi.Cast`: one clock reading per call. The time that passes between
  the `GET` and the `SET` is not modelled, so the mark's expiry is counted
  from the check rather than from the `SET`.
- `Pipeline.QueuedVotesReachTable`: it assumes each logged record is handled
  exactly once, in log order, by one fresh aggregator. Kafka's at-least-once
  redelivery is not modelled. Neither is the consumer's starting offset. The
  group `poll-aggregator-group` (apps/poll-aggregator/src/main.ts:15) resumes
  from its committed offset after a restart. `fromBeginning: true` (lines
  18-20) matters only when the group has no valid committed offset: on its
  first start, or after its offsets expire. Then it reads the topic from the
  start, and re-counts any records already in a non-empty table. Nor is the
  loss of buffered votes when the aggregator restarts before a flush.
- The realtime service's relay of `poll-updates` to `poll-stats` is left out.
  It is a pass-through with no logic.
- The HTTP controller, the `main.ts` and module files, and the load generator
  are left out. They are routing, bootstrap and network I/O.
