# ezEDR event log, modelled in Dafny

ezEDR is an append-only event log kept in PostgreSQL. Writers use optimistic
concurrency. A client names the version its change is based on. The log claims
a new version number from a counter and inserts the event at that version. The
database's unique keys refuse a stale insert. The repository has two storage
variants and one HTTP read policy on top. This project models all three.

- **Stream variant** (ezedr-postgres). Streams are keyed by stream id and
  tenant. Each stream has a counter that starts at -1.
  - `write` normalises the base version, increments the counter
    unconditionally, and inserts the event at the claimed version. A refused
    insert therefore burns a version number.
  - `readEvents` filters the events of one stream. It applies an optional
    lower bound on the version, orders by ascending version, and applies an
    optional limit.
  - `readStream` returns the raw counter.
  - Modules: `StreamWriter` (class `StreamStore` over the two tables) and
    `StreamReader` (functions of the tables' contents).
- **Aggregate variant** (ezedr-store-postgres).
  - Version 0 creates an aggregate's counter row. Any other version increments
    that row.
  - Events are unique per (aggregate, base version, event type), so conflicts
    are scoped to an event type.
  - `write.ts` refuses negative versions. It also turns a duplicate-key error
    into a "Concurrency Error: …" error.
  - The older inline `save` in `src/repository.ts` does neither.
  - Modules: `AggregateWriter` (class `AggregateStore`) and
    `AggregateRepository` (`Save`).
- **Read handler** (ezedr-server).
  - It defaults the tenant to "default". It computes the limit and start as
    `Number.parseInt(x) || default`.
  - It calls `readStream` only when the page has no events.
  - Modules: `ReadEventHandler` (the repository is passed in as two
    functions) and `JsParseInt` (`Number.parseInt` as ECMA-262, section
    19.2.5 defines it, over integers).
- `Wrappers` holds `Option` and `Result`. A rejected promise or a thrown error
  is an `Err`.
- `StreamScenarios` and `AggregateScenarios` replay the repository's test
  cases on the model. Each one starts from empty tables.

Committed versions of a stream can skip numbers. A refused insert still
spends the version it claimed (ezedr-postgres/src/writer.ts:42-47), and the
package's own end-to-end test commits versions 0 and then 2
(ezedr-postgres/e2e/write.e2e.test.ts:131-151). The model keeps these gaps:
see `StreamScenarios.BaseInsideGapIsRejected`.

The constraints on the ezedr-postgres events table are not part of the
repository's source. They are stated as the assumed predicate
`StreamWriter.InsertAccepted`. Under it, a stream holds at most one event per
version, and an event is accepted only if its base version is the stream's
latest committed version (-1 when the stream has none). This rule agrees with
every write test of that package. The counter rows of `streams` and
`versions` are maps, which stands for their assumed primary keys.

## Model

| member | source | states |
|---|---|---|
| StreamWriter.NormalizeBaseVersion | ezedr-postgres/src/writer.ts:81-83 | the result is the given version when it is present and at least 0, and -1 otherwise; it is never below -1 |
| StreamWriter.RowOf | ezedr-postgres/src/writer.ts:67-71 | the inserted row belongs to the instruction's stream and tenant, carries the given base version, version and timestamp, and loses no field of the instruction |
| StreamWriter.LatestCommitted | ezedr-postgres/src/writer.ts:35-47 | the latest committed version of a stream is -1 or a version some event of that stream holds |
| StreamWriter.InsertAccepted | ezedr-postgres/src/writer.ts:136-152 | an accepted insert never reuses a version the stream holds, and a stream without events accepts exactly the base version -1 |
| StreamWriter.StreamStore.InitStream | ezedr-postgres/src/writer.ts:19-33 | a new key gets counter -1 and the response reports version -1; an existing key fails with AlreadyExists and nothing changes; no event changes; the invariant is kept |
| StreamWriter.StreamStore.NextVersion | ezedr-postgres/src/writer.ts:93-109 | an existing stream's counter goes up by exactly one and the new value is returned; no other counter changes; a missing stream fails with the "Failed to update stream version…" message and nothing changes |
| StreamWriter.StreamStore.WriteEvent | ezedr-postgres/src/writer.ts:122-160 | an accepted row is appended and the response echoes its event id, stream, tenant and version; a refused row changes nothing |
| StreamWriter.StreamStore.Write | ezedr-postgres/src/writer.ts:56-72 | a missing stream fails with no change to either table; otherwise the counter rises by one even if the insert is refused, and an accepted event carries the claimed version and the normalised base version; after a refused insert the counter is above the latest committed version, and after an accepted one it equals it; the invariant is kept |
| StreamWriter.LatestCommittedBelowCounter | ezedr-postgres/src/writer.ts:42-47 | in a consistent store, a stream's latest committed version lies between -1 and its counter |
| StreamWriter.LatestCommittedWitness | ezedr-postgres/src/writer.ts:42-47 | the latest committed version is -1 for a stream without events, or else the version of one of its events |
| StreamWriter.LatestCommittedAtLeast | ezedr-postgres/src/writer.ts:42-47 | when versions increase, the latest committed version is at least that of every event of the stream |
| StreamWriter.ClaimedVersionIsFree | ezedr-postgres/src/writer.ts:93-100 | the version one above the counter is held by no committed event of the stream |
| StreamWriter.AcceptedIffBaseIsLatest | ezedr-postgres/e2e/write.e2e.test.ts:108-151 | a write at the claimed version is accepted if and only if its base is the stream's latest committed version, so stale bases and burned versions are refused |
| StreamWriter.NewStreamRule | ezedr-postgres/e2e/write.e2e.test.ts:80-95 | a stream with no events refuses any base version other than -1 |
| StreamWriter.InitKeepsConsistent | ezedr-postgres/src/writer.ts:19-33 | creating a stream at -1 keeps the store invariant |
| StreamWriter.ClaimKeepsConsistent | ezedr-postgres/src/writer.ts:42-47 | incrementing a counter keeps the invariant, even when the insert that follows is refused |
| StreamWriter.AppendKeepsConsistent | ezedr-postgres/src/writer.ts:56-72 | appending the event at the claimed version keeps counters above committed versions and versions increasing per stream |
| StreamWriter.AppendKeepsChained | ezedr-postgres/src/writer.ts:56-72 | appending an event whose base is the latest committed version keeps every event chained to its predecessor |
| StreamWriter.BaseBelowVersion | ezedr-postgres/src/writer.ts:38-40 | every committed event's base version is below its own version |
| StreamWriter.BasesStrictlyIncrease | ezedr-postgres/src/writer.ts:35-47 | within a stream, committed events have strictly increasing base versions, so at most one write per base version is committed |
| StreamReader.CounterAheadAfterRefusal | ezedr-postgres/src/reader.ts:78-100 | in a consistent store, after the claim of a refused write, readStream reports a counter strictly above the stream's latest committed version |
| StreamReader.OfStreamMembers | ezedr-postgres/src/reader.ts:31 | a row is selected if and only if it is in the table and both its stream id and tenant match |
| StreamReader.AtOrAfterMembers | ezedr-postgres/src/reader.ts:35-38 | a row passes the version bound if and only if it is a row with version at least the bound |
| StreamReader.AtOrAfterMultiset | ezedr-postgres/src/reader.ts:35-38 | the bound keeps every copy of a qualifying row and drops every copy of another |
| StreamReader.SortIsSortedPermutation | ezedr-postgres/src/reader.ts:40 | the ascending order is sorted by version and is a permutation of its input |
| StreamReader.SortCommutesWithAtOrAfter | ezedr-postgres/src/reader.ts:35-40 | bounding then ordering gives the same rows as ordering then bounding |
| StreamReader.SortDistinctIsStrict | ezedr-postgres/src/reader.ts:40 | rows with distinct versions come out strictly ascending |
| StreamReader.AtOrAfterTwice | ezedr-postgres/src/reader.ts:35-38 | applying a lower bound and then a higher one is the same as applying the higher one |
| StreamReader.SortByVersion | ezedr-postgres/src/reader.ts:40 | the ordered rows are as many as the input rows (that they are sorted and a permutation is `SortIsSortedPermutation`) |
| StreamReader.Take | ezedr-postgres/src/reader.ts:42-45 | LIMIT n gives a prefix of the rows of length n, or all of them when there are fewer |
| StreamReader.Selected | ezedr-postgres/src/reader.ts:31-45 | the selected rows are no more than the table's rows, and no more than a truthy positive limit |
| StreamReader.ReadEvents | ezedr-postgres/src/reader.ts:24-68 | the read fails exactly on a negative limit, with NegativeLimit; otherwise it echoes stream id, tenant and limit and returns no more events than the table holds or a truthy limit allows |
| StreamReader.LimitedPrefix | ezedr-postgres/src/reader.ts:42-45 | the limited rows are a prefix whose length is the limit when it is truthy, positive and smaller, and the whole sequence otherwise |
| StreamReader.ReadEventsResponse | ezedr-postgres/src/reader.ts:24-68 | a negative limit is refused and nothing else is; the stream id and tenant are echoed, the page records `fromVersion \|\| 0` and the given limit, and the events are this stream's rows in ascending version order |
| StreamReader.ReadIsOrderedStreamSlice | ezedr-postgres/src/reader.ts:31-45 | the result is sorted by version, holds only rows of the requested stream and tenant, respects a truthy fromVersion, and is strictly ascending when the stream's versions are unique |
| StreamReader.ReadFromVersionIsExact | ezedr-postgres/src/reader.ts:35-38 | without a limit, the result has exactly the stream's rows at or after a truthy fromVersion, and all of them when fromVersion is 0 or absent, with multiplicities kept |
| StreamReader.ReadLimitIsPrefix | ezedr-postgres/src/reader.ts:40-45 | for a stream with unique versions, with a positive limit n the result is the first n rows of the unlimited read; a limit that is absent or 0 truncates nothing |
| StreamReader.ConsistentStoreHasUniqueVersions | ezedr-postgres/src/writer.ts:42-47 | in a consistent store, a stream's versions are distinct and non-negative |
| StreamReader.OfStreamDistinct | ezedr-postgres/src/reader.ts:31 | the rows of a stream with unique versions have distinct versions |
| StreamReader.NextPageIsSuffix | ezedr-postgres/e2e/read.e2e.test.ts:142-177 | reading from one past the m-th row's version gives the unlimited read without its first m rows |
| StreamReader.ViewsAppend | ezedr-postgres/src/reader.ts:48-56 | mapping rows to event rows distributes over concatenation |
| StreamReader.Pagination | ezedr-postgres/e2e/read.e2e.test.ts:142-177 | a page of `limit` events followed by an unlimited read from the page's last version plus one concatenates to the unlimited read |
| StreamReader.ReadStream | ezedr-postgres/src/reader.ts:78-100 | succeeds if and only if the stream exists, with its raw counter; otherwise it fails with NoSuchResource("Could not find stream.") |
| JsParseInt.TrimStart | ezedr-server/src/stream/readEventHandler.ts:47 | parseInt drops a prefix made only of whitespace and line terminators and keeps the rest unchanged |
| JsParseInt.ParseInt | ezedr-server/src/stream/readEventHandler.ts:47-48 | parseInt gives NaN unless its text holds a decimal digit |
| JsParseInt.DigitPrefixLength | ezedr-server/src/stream/readEventHandler.ts:47 | the digits parseInt reads are the longest prefix of digits valid in the radix |
| JsParseInt.ParseDecimal | ezedr-server/src/stream/readEventHandler.ts:47-48 | the decimal text of any natural number parses back to it |
| JsParseInt.ParseIntDecimalRoundTrip | ezedr-server/src/stream/readEventHandler.ts:47-48 | leading whitespace, an optional minus sign, the decimal text of n and any non-digit tail parse to n or to -n |
| JsParseInt.ParseIntNoDigits | ezedr-server/src/stream/readEventHandler.ts:47-48 | text that starts with a character other than whitespace, a sign or a digit parses to NaN |
| JsParseInt.ParseIntMinus | ezedr-server/src/stream/readEventHandler.ts:47-48 | a leading minus negates the parse of the remaining text |
| JsParseInt.ParseIntUndefined | ezedr-server/src/stream/readEventHandler.ts:47-48 | a missing query parameter reaches parseInt as "undefined" and gives NaN |
| JsParseInt.ParseIntLimitExample | ezedr-server/src/stream/readEventHandler.test.ts:46-62 | "25" parses to 25 |
| JsParseInt.ParseIntStartExample | ezedr-server/src/stream/readEventHandler.test.ts:46-62 | "10" parses to 10 |
| JsParseInt.ParseIntHexExamples | ezedr-server/src/stream/readEventHandler.ts:47-48 | "0x10" parses to 16 and "0x" to NaN |
| JsParseInt.ParseIntEmpty | ezedr-server/src/stream/readEventHandler.ts:47-48 | the empty text parses to NaN |
| ReadEventHandler.TenantOrDefault | ezedr-server/src/stream/readEventHandler.ts:41 | the tenant is never empty: it is the given non-empty tenant, and "default" otherwise |
| ReadEventHandler.NumberOr | ezedr-server/src/stream/readEventHandler.ts:47-48 | a parse that is a non-zero number is the result; NaN or 0 gives the fallback; the result is 0 only when the fallback is 0 |
| ReadEventHandler.RequestOpts | ezedr-server/src/stream/readEventHandler.ts:46-49 | the limit passed to readEvents is always truthy; limit and start are `parseInt(limit) \|\| 50` and `parseInt(start) \|\| 0` |
| ReadEventHandler.RequestOptsOfDecimal | ezedr-server/src/stream/readEventHandler.ts:46-49 | for any tenant and any positive n and m, the query limit=n&start=m reads n events from version m |
| ReadEventHandler.HandleReadEvents | ezedr-server/src/stream/readEventHandler.ts:35-58 | a non-empty page is sent as readEvents returned it; an empty page is sent only when readStream finds the stream; every failure is readEvents' failure or, for an empty page, readStream's |
| ReadEventHandler.HandlerSendsReadResult | ezedr-server/src/stream/readEventHandler.ts:43-56 | a readEvents failure is the handler's failure, and whatever the handler sends is exactly readEvents' page for the defaulted tenant and parsed options |
| ReadEventHandler.NonEmptyPageSkipsExistenceCheck | ezedr-server/src/stream/readEventHandler.ts:52-56 | a non-empty page is sent whatever readStream would answer |
| ReadEventHandler.EmptyPageChecksExistence | ezedr-server/src/stream/readEventHandler.ts:52-56 | an empty page is sent if and only if readStream succeeds, and readStream's failure is the handler's failure |
| ReadEventHandler.RequestOptsDefaults | ezedr-server/src/stream/readEventHandler.ts:47-48 | the limit is never 0 and falls back to 50 on NaN; the start falls back to 0 on NaN or 0 |
| ReadEventHandler.TenantExamples | ezedr-server/src/stream/readEventHandler.ts:41 | a missing or empty tenant is "default", and "t0" is kept |
| ReadEventHandler.DefaultQueryOpts | ezedr-server/src/stream/readEventHandler.ts:46-49 | a query without page options reads 50 events from version 0 |
| ReadEventHandler.PageQueryOpts | ezedr-server/src/stream/readEventHandler.test.ts:46-62 | "limit=25&start=10" reads 25 events from version 10 |
| ReadEventHandler.NoMatchingEvent | ezedr-postgres/src/reader.ts:31 | a table with no row of the stream gives no rows for it |
| ReadEventHandler.NoEventsOfMissingStream | ezedr-server/src/stream/readEventHandler.test.ts:155-205 | a consistent store holds no event of a stream without a counter |
| ReadEventHandler.HandlerOverStore | ezedr-server/src/stream/readEventHandler.ts:35-58 | over a consistent store, the handler sends readEvents' page if and only if the stream exists and the parsed limit is positive; a missing stream gives NoSuchResource("Could not find stream."), and a negative limit is refused |
| ReadEventHandler.PageEchoOverStore | ezedr-server/src/stream/readEventHandler.test.ts:46-62 | for an existing stream, "limit=25&start=10" answers with the default tenant and the page {fromVersion 10, limit 25} |
| AggregateWriter.MapInsertFailure | ezedr-store-postgres/src/repository/write.ts:135-142 | a duplicate-key error (code 23505), and only that error, becomes "Concurrency Error: <message> - <detail>"; every other error is passed on unchanged |
| AggregateWriter.DuplicateKey | ezedr-store-postgres/src/repository/write.ts:136 | a duplicate-key error carries the code 23505 |
| AggregateWriter.RowOf | ezedr-store-postgres/src/repository/write.ts:36-50 | the event row's base version is the client's version, its version is the claimed one, and its conflict scope is (aggregate, base version, event type) |
| AggregateWriter.ClaimedVersion | ezedr-store-postgres/src/repository/write.ts:80-91 | the claim succeeds exactly when version 0 meets no counter or another version meets one; it is 0 for a new aggregate and the counter plus one otherwise; a failure is VersionRowExists when a counter exists and NoReturnedRow when none does |
| AggregateWriter.CountersAfter | ezedr-store-postgres/src/repository/write.ts:80-91 | after the versions step only the claimed aggregate's counter can change: version 0 adds it, another version increments an existing one |
| AggregateWriter.ClaimRule | ezedr-store-postgres/src/repository/write.ts:80-91 | the versions step succeeds if and only if version 0 finds no counter or another version finds one; it hands out 0 or the counter plus one and changes no other aggregate's counter; a failure leaves the counters unchanged |
| AggregateWriter.ClaimExceedsCommitted | ezedr-store-postgres/src/repository/write.ts:13-18 | a claimed version exceeds every version committed for the aggregate |
| AggregateWriter.ClaimKeepsConsistent | ezedr-store-postgres/src/repository/write.ts:13-18 | a claim keeps the tables' invariant, even when the insert that follows is refused |
| AggregateWriter.AppendKeepsConsistent | ezedr-store-postgres/src/repository/write.ts:20-21 | appending a row at the claimed version whose conflict scope is free keeps versions increasing and scopes unique |
| AggregateWriter.ScopeHolderIsUnique | ezedr-store-postgres/src/repository/write.ts:20-21 | in a consistent store, at most one event occupies each (aggregate, base version, event type) |
| AggregateWriter.AggregateStore.WriteVersion | ezedr-store-postgres/src/repository/write.ts:65-93 | a negative version is refused with "Invalid version - numbers less than zero are not allowed." and no change; otherwise the counters become exactly those of the claim rule |
| AggregateWriter.AggregateStore.WriteEvent | ezedr-store-postgres/src/repository/write.ts:104-143 | a row with a free conflict scope is appended and the response reports its version; a taken scope gives a concurrency error and no change |
| AggregateWriter.AggregateStore.Write | ezedr-store-postgres/src/repository/write.ts:30-51 | the guard comes first; a failed claim writes no event; otherwise the row carries base version = client version and the claimed version, which the response reports, and a scope conflict becomes a concurrency error; the invariant is kept |
| AggregateRepository.Save | ezedr-store-postgres/src/repository.ts:27-72 | the same claim with no negative guard (negative versions take the increment branch); a failed claim writes no event; the row carries base version = client version and the claimed version, which the response reports; a scope conflict surfaces as the raw database error; the invariant is kept |
| StreamScenarios.RejectWithoutStream | ezedr-postgres/e2e/write.e2e.test.ts:46-55 | a write to a stream never created fails and leaves no event row |
| StreamScenarios.CreateStreamTwice | ezedr-postgres/e2e/write.e2e.test.ts:67-78 | the first creation reports version -1, the second fails, and one stream row remains |
| StreamScenarios.AddEventToStream | ezedr-postgres/e2e/write.e2e.test.ts:80-106 | the first event of a new stream gets version 0 and base -1, keeps its committer and payload, and the counter moves from -1 to 0 |
| StreamScenarios.RejectedSaveDoesNotStopFutureSaves | ezedr-postgres/e2e/write.e2e.test.ts:108-129 | a stale write is refused, and the next write based on version 0 is committed at version 2 as the second row |
| StreamScenarios.BaseInsideGapIsRejected | ezedr-postgres/e2e/write.e2e.test.ts:131-151 | the committed versions are 0 and 2, and a write based on the burned version 1 is refused |
| StreamScenarios.CounterAheadAfterRejection | ezedr-postgres/src/writer.ts:42-47 | after a refused write, readStream reports counter 1 while the last committed version is 0 |
| StreamScenarios.ReadStreamInfo | ezedr-postgres/e2e/streams.e2e.test.ts:27-52 | the stored counter 42 is reported, and an unknown stream gives NoSuchResource |
| StreamScenarios.ReadOneStream | ezedr-postgres/e2e/read.e2e.test.ts:54-108 | of three rows over two streams, the two of s0 come back, at versions 0 and 1 |
| StreamScenarios.ReadFromVersionOne | ezedr-postgres/e2e/read.e2e.test.ts:116-135 | reading from version 1 returns only the event at version 1 |
| StreamScenarios.ReadFirstPage | ezedr-postgres/e2e/read.e2e.test.ts:142-169 | with limit 2, the first page of three events has versions 0 and 1 |
| StreamScenarios.ReadSecondPage | ezedr-postgres/e2e/read.e2e.test.ts:142-177 | with limit 2 from version 2, the page has the event at version 2 alone |
| AggregateScenarios.RejectNegativeVersion | ezedr-store-postgres/src/repository/write.test.ts:5-23 | write refuses version -1 with the invalid-version message and both tables stay empty |
| AggregateScenarios.SaveFirstEvent | ezedr-store-postgres/e2e/write.e2e.test.ts:24-74 | saving version 0 reports version 0, creates the counter at 0, and stores one row with the committer and data |
| AggregateScenarios.IncrementalVersions | ezedr-store-postgres/e2e/write.e2e.test.ts:76-104 | saves at versions 0 and 1 leave the counter at 1 and two rows |
| AggregateScenarios.RejectOldBaseVersion | ezedr-store-postgres/e2e/write.e2e.test.ts:106-125 | a second save at version 0 fails on the existing counter, which stays 0, with one row |
| AggregateScenarios.RejectNewAggregateAtNonZero | ezedr-store-postgres/e2e/write.e2e.test.ts:127-143 | a new aggregate saved at version 1 fails and writes no row |
| AggregateScenarios.AcceptAfterRejection | ezedr-store-postgres/e2e/write.e2e.test.ts:145-177 | a refused save between saves at 0 and 1 leaves rows at versions 0 and 1 and the counter at 1 |
| AggregateScenarios.VersionCoupledToEventType | ezedr-store-postgres/e2e/write.e2e.test.ts:179-236 | a second drink update on base 1 fails with a duplicate-key error, a food update on base 1 succeeds, and the three rows are in order with the counter at 3 |
| AggregateScenarios.ConflictThroughWrite | ezedr-store-postgres/src/repository/write.ts:135-142 | the same conflict through write is reported as an error starting with "Concurrency Error: " |
| AggregateScenarios.NegativeVersionDiffers | ezedr-store-postgres/src/repository.ts:36-43 | save stores version -1 on an existing aggregate with base -1, while write refuses it |

## Left out

- SQL text, the `pg` pool and client, and query errors other than those
  named below are not modelled. The tables are abstract state: a map of
  counters and a sequence of event rows.
- Concurrency is left out. Operations run one after another. Racing writers
  rely on Postgres' atomic `UPDATE … RETURNING` and its unique indexes.
- `Date.now()` becomes the `now` parameter of the write methods.
- Payload, data and info are opaque optional strings. The `eventChain`
  field is dropped from both variants: the aggregate variant's instruction
  and the stream variant's `SaveInstruction` (ezedr-core/src/repository.ts:50).
  ezedr-postgres/src/writer.ts never writes it, so no behaviour is lost.
- The ezedr-postgres events-table constraints are not in the source. They
  are the assumed predicate `StreamWriter.InsertAccepted`. Event-id
  uniqueness is not modelled, because no behaviour of the core depends on it.
- AggregateWriter.DuplicateKey: the texts of Postgres' error messages and
  details are placeholders built from the row; only the code 23505 is
  faithful.
- StreamReader.SortByVersion: SQL leaves the order of rows with equal
  versions open. The model keeps them in table order. The laws that depend on
  the order (`ReadLimitIsPrefix`, `Pagination`) require unique versions, which
  every store the writer builds has (`ConsistentStoreHasUniqueVersions`).
- AggregateWriter.ClaimedVersion: a repeated version 0 is refused through the
  assumed primary key of `versions`.
- AggregateRepository.Save: the legacy response's `snapshotVersion` and
  `timestamp` are not modelled. They are read through a broken column alias.
- StreamReader.ReadEvents: a negative LIMIT is the database's error, modelled
  as `NegativeLimit`. Postgres' exact error is not modelled.
- JsParseInt.ParseInt: digits are read as unbounded integers. The loss of
  precision of large JavaScript numbers is not modelled.
- ReadEventHandler.HandleReadEvents: Fastify's request parsing and reply are
  not modelled. A rejected promise stands for an HTTP error reply.
- The other Fastify handlers, routes, JSON schemas, health checks, request
  ids and start-up code are not part of this model.
- ezedr-postgres/src/repository.ts is not part of this model. It only wires
  the writer and reader to a client, and it imports a reader function that no
  longer exists.
- ezedr-core/src/repository.ts and the store's index and repository type
  files serve only as the reference for the datatypes.
