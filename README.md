# KafkaConsumerState, modelled in Dafny

This project models the per-consumer session state of the Kafka REST proxy's v2
consumer API, `io.confluent.kafkarest.v2.KafkaConsumerState`. One object holds:

- a Kafka consumer handle, which `close` clears;
- a buffered batch of polled records and a read cursor (`index`) into it;
- an expiration deadline that an external reaper compares against the clock.

It offers three groups of operations:

- **Fetch and drain.** `getOrCreateConsumerRecords` polls a new batch only when the
  current one is exhausted. `hasNext`, `peek` and `next` walk the cursor.
- **Administration.** `commitOffsets`, the three seeks, `assign`, `subscribe`,
  `unsubscribe`, `subscription`, `assignment`, `committed` and `close` turn REST
  requests into calls on the Kafka consumer.
- **Expiration.** `expired`, `updateExpiration`, `untilExpiration` and `compareTo`
  compare deadlines.

Files:

- `wrappers.dfy` (`Wrappers`): `Option`, standing for a Java reference that may be `null`.
- `java_ints.dfy` (`JavaInts`): Java `long` and `int` as bounded integers, and `WrapLong`,
  the two's-complement wrap-around of `long` arithmetic.
- `entities.dfy` (`Entities`): the REST request and response records.
- `kafka_client.dfy` (`KafkaClient`): an abstract Kafka consumer. It has the Kafka
  `TopicPartition` and `OffsetAndMetadata` values, a `Call` datatype naming each state-changing
  consumer call, and a `Consumer` class. That class keeps the committed-offset table, the subscribed
  topics and the assignment, which the gateway reads back, and the subscribed pattern,
  which it does not read back but which a topic or pattern subscription replaces.
- `kafka_consumer_state.dfy` (`KafkaRestV2`): the class `KafkaConsumerState`, the
  specification functions for request translation, and the lemmas.

How the model is built:

- Each method is one atomic step.
- The ghost field `calls` logs, in order, every state-changing call the session has
  issued to its consumer handle. The queries `committed(partition)`, `subscription()`
  and `assignment()` change nothing and are not logged. It survives `close`, so the invariant `Valid()` can say that
  the handle is closed exactly once if the session is closed, and never otherwise.
- The records a poll returns are passed in as an argument (`polled`).
- The current time and the configured session timeout are passed in as
  arguments (`nowMs`, `timeoutMs`).
- Records are an opaque type parameter `R`.

Preconditions follow the code. Where the Java would dereference a `null` consumer,
the method requires an open session, and only on the path that uses the handle:

- the refill, only when there is nothing left to read;
- `seekToOffset`, only when the request has at least one entry;
- `seekToBeginning`, `seekToEnd` and `assign`, only when a request is given;
- `commitOffsets`, always.

`committed` reads its request only while the session is open, so it needs one only
then. The code raises no dedicated "session closed" error, and neither does the model.

The code uses `long` arithmetic for `offset + 1`, `now + timeout` and
`expiration - now`, and the model wraps it with `WrapLong`. As a result,
"expired exactly when no time is left" holds only while `expiration - now` fits in a
`long`. `ExpiredWithTimeLeftOnOverflow` shows the boundary case where the two disagree.

## Model

| member | source | states |
|---|---|---|
| `KafkaRestV2.KafkaConsumerState.constructor` | src/main/java/io/confluent/kafkarest/v2/KafkaConsumerState.java:76-84 | The session starts open on the given handle, with no batch, cursor 0, no calls issued, nothing to read, and expiration `now + timeout` in `long` arithmetic. |
| `KafkaRestV2.KafkaConsumerState.GetOrCreateConsumerRecords` | src/main/java/io/confluent/kafkarest/v2/KafkaConsumerState.java:398-414 | If records are left, nothing changes and no poll is made. Otherwise exactly one poll is logged, the cursor is 0, and the batch is exactly the polled records in fetch order. The invariant, including `index <= |batch|`, is re-established. |
| `KafkaRestV2.KafkaConsumerState.HasNext` | src/main/java/io/confluent/kafkarest/v2/KafkaConsumerState.java:424-426 | True exactly when the unread part of the batch is non-empty, so false before the first refill. |
| `KafkaRestV2.KafkaConsumerState.Peek` | src/main/java/io/confluent/kafkarest/v2/KafkaConsumerState.java:416-422 | A side-effect-free function of the fields, so repeated calls agree. Yields the first unread record, or `null` when nothing is unread. |
| `KafkaRestV2.KafkaConsumerState.Next` | src/main/java/io/confluent/kafkarest/v2/KafkaConsumerState.java:428-435 | Returns what `peek` showed. When a record is left, the cursor advances by exactly one and the unread part loses its first record. When none is left, nothing changes. The batch itself never changes. |
| `KafkaRestV2.ReadFreshBatch` | src/main/java/io/confluent/kafkarest/v2/KafkaConsumerState.java:398-435 | After a refill on an exhausted session, `n` calls to `next` return exactly the `n` polled records in fetch order, and call `n + 1` returns `null`. |
| `KafkaRestV2.PeekThenNext` | src/main/java/io/confluent/kafkarest/v2/KafkaConsumerState.java:416-435 | Two `peek`s in a row and the `next` after them all yield the same record. |
| `KafkaRestV2.KafkaConsumerState.CommitOffsets` | src/main/java/io/confluent/kafkarest/v2/KafkaConsumerState.java:122-154 | With no request: one `commitSync()` if `async` is null, else one `commitAsync()`, and no offset map; subscription and assignment are unchanged. With a request: one `commitSync(map)` of the translated map whatever `async` says, and the committed table gains that map. The result is always empty. |
| `KafkaRestV2.ToOffsetMap` | src/main/java/io/confluent/kafkarest/v2/KafkaConsumerState.java:134-146 | The loop builds exactly `OffsetMapOf(entries)`. Its keys are exactly the partitions the entries name. |
| `KafkaRestV2.OffsetMapOfLastWins` | src/main/java/io/confluent/kafkarest/v2/KafkaConsumerState.java:134-146 | A partition is a key exactly when some entry names it. Its value is the commit of the last entry that names it. |
| `KafkaRestV2.CommitOf` | src/main/java/io/confluent/kafkarest/v2/KafkaConsumerState.java:138-144 | An entry commits offset `o + 1`, wrapping to `Long.MIN_VALUE` at `Long.MAX_VALUE`. It carries metadata exactly when the entry has some. |
| `KafkaRestV2.OffsetMapOfSingle` | src/main/java/io/confluent/kafkarest/v2/KafkaConsumerState.java:134-147 | A one-entry request `(t, p, o, m)` commits exactly `{(t, p) ↦ (o + 1, m)}`. So `offset = 5` with no metadata stores 6 and no metadata. |
| `KafkaRestV2.KafkaConsumerState.SeekToBeginning` | src/main/java/io/confluent/kafkarest/v2/KafkaConsumerState.java:159-173 | With no request, no call. Otherwise one `seekToBeginning` with the requested partitions, converted and in request order. |
| `KafkaRestV2.KafkaConsumerState.SeekToEnd` | src/main/java/io/confluent/kafkarest/v2/KafkaConsumerState.java:178-192 | With no request, no call. Otherwise one `seekToEnd` with the requested partitions, converted and in request order. |
| `KafkaRestV2.ToKafkaPartitions` | src/main/java/io/confluent/kafkarest/v2/KafkaConsumerState.java:163-167 | The copy loop yields one Kafka partition per requested partition, in order, with the same topic and number. |
| `KafkaRestV2.KafkaConsumerState.SeekToOffset` | src/main/java/io/confluent/kafkarest/v2/KafkaConsumerState.java:197-212 | With no request, no call. Otherwise exactly the `seek` calls of `SeekCalls(entries)` are appended, in order. |
| `KafkaRestV2.SeekCallsAt` | src/main/java/io/confluent/kafkarest/v2/KafkaConsumerState.java:203-206 | There is one seek per entry, and seek `i` moves entry `i`'s partition to exactly entry `i`'s offset. Metadata is ignored. |
| `KafkaRestV2.KafkaConsumerState.Assign` | src/main/java/io/confluent/kafkarest/v2/KafkaConsumerState.java:217-231 | With no request, nothing changes. Otherwise one `assign` call is logged, the assignment becomes exactly the requested partitions, and the rest of the consumer state is unchanged. |
| `KafkaRestV2.KafkaConsumerState.Close` | src/main/java/io/confluent/kafkarest/v2/KafkaConsumerState.java:237-248 | Afterwards the handle is absent. `close()` is issued only if the handle was present. The log then holds exactly one `close()`, so repeated calls close the handle at most once. |
| `KafkaRestV2.KafkaConsumerState.Subscribe` | src/main/java/io/confluent/kafkarest/v2/KafkaConsumerState.java:254-273 | A null request, or a closed session, changes nothing. A topic list takes precedence over a pattern: the subscription becomes exactly those topics. A pattern alone makes one pattern subscription. A request with neither changes nothing. |
| `KafkaRestV2.KafkaConsumerState.Unsubscribe` | src/main/java/io/confluent/kafkarest/v2/KafkaConsumerState.java:278-287 | A closed session changes nothing. An open one makes one `unsubscribe()` call, which clears the subscription and the assignment. |
| `KafkaRestV2.KafkaConsumerState.Subscription` | src/main/java/io/confluent/kafkarest/v2/KafkaConsumerState.java:292-303 | `null` after close. Otherwise the consumer's current topic set. |
| `KafkaRestV2.KafkaConsumerState.Assignment` | src/main/java/io/confluent/kafkarest/v2/KafkaConsumerState.java:308-319 | `null` after close. Otherwise the consumer's current partition set. |
| `KafkaRestV2.KafkaConsumerState.Committed` | src/main/java/io/confluent/kafkarest/v2/KafkaConsumerState.java:326-346 | Empty after close. Otherwise exactly `CommittedEntries(request, committed table)`. |
| `KafkaRestV2.CommittedEntriesMembers` | src/main/java/io/confluent/kafkarest/v2/KafkaConsumerState.java:331-340 | An entry is in the response exactly when it is the committed `(offset, metadata)` of a requested partition that has a commit. A partition with no commit is left out, and no error is raised. |
| `KafkaRestV2.CommittedEntriesAppend` | src/main/java/io/confluent/kafkarest/v2/KafkaConsumerState.java:332-340 | The response follows request order: the response for `ps + qs` is the response for `ps` followed by the response for `qs`. |
| `KafkaRestV2.KafkaConsumerState.UpdateExpiration` | src/main/java/io/confluent/kafkarest/v2/KafkaConsumerState.java:353-356 | The deadline becomes `now + timeout`, whatever it was. Without overflow and with a positive timeout, the session is then not expired at `now`. |
| `KafkaRestV2.KafkaConsumerState.UntilExpiration` | src/main/java/io/confluent/kafkarest/v2/KafkaConsumerState.java:358-360 | `expiration - now` whenever that fits in a `long`. |
| `KafkaRestV2.KafkaConsumerState.Expired` | src/main/java/io/confluent/kafkarest/v2/KafkaConsumerState.java:349-351 | `expired(now)` holds exactly when `untilExpiration(now) <= 0`, provided `expiration - now` does not overflow. |
| `KafkaRestV2.ExpiredWithTimeLeftOnOverflow` | src/main/java/io/confluent/kafkarest/v2/KafkaConsumerState.java:349-360 | With expiration `Long.MIN_VALUE` and `now = 1`, the session is expired yet `untilExpiration` reports `Long.MAX_VALUE`. |
| `KafkaRestV2.KafkaConsumerState.CompareTo` | src/main/java/io/confluent/kafkarest/v2/KafkaConsumerState.java:371-379 | Returns -1, 0 or 1 as this session's deadline is earlier than, equal to or later than the other's. |
| `KafkaRestV2.CompareToAntisymmetric` | src/main/java/io/confluent/kafkarest/v2/KafkaConsumerState.java:371-379 | `a.compareTo(b) == -b.compareTo(a)`. |
| `KafkaRestV2.CompareToTransitive` | src/main/java/io/confluent/kafkarest/v2/KafkaConsumerState.java:371-379 | The order by deadline is transitive, both non-strictly and strictly, as the reaper's ordering needs. |

## Left out

- The read/write lock, `startRead` and `finishRead`: they exist only for concurrency, so every method is modelled as one atomic sequential step.
- Kafka's broker-side behaviour: blocking polls, positions, what seeks and assignment do, rebalances and broker-side commit validation. `poll`, the seeks and `close()` appear only in the call log. `commitSync(map)` merges the map into the committed table. Commits made by other processes are not modelled.
- `KafkaRestV2.KafkaConsumerState.GetOrCreateConsumerRecords`, `KafkaRestV2.KafkaConsumerState.Assign`, `KafkaRestV2.KafkaConsumerState.Subscribe`, `KafkaRestV2.KafkaConsumerState.Unsubscribe`: the consumer model assumes auto-commit is off, so `poll` and `assign` never change the committed table. It also treats an empty `assign` or `subscribe` list like a non-empty one, although the Kafka client treats both as `unsubscribe()`. So `assign` keeps the subscription and `subscribe` keeps the assignment even when the list is empty.
- `KafkaRestV2.KafkaConsumerState.CommitOffsets`: on the whole-commit paths (`commitSync()`, `commitAsync()`) the consumer's positions are not modelled, so the contract leaves the committed table after the call unspecified; it states only the logged call and that subscription and assignment are unchanged.
- `KafkaRestV2.KafkaConsumerState.Subscribe`: matching a topic pattern (`Pattern.compile`) and the no-op rebalance listener are not modelled. A pattern subscription leaves the model's topic set empty and records the pattern string. An invalid pattern is not rejected: in Java, `Pattern.compile` throws before any `subscribe` call and the subscription stays as it was, while the model logs `SubscribePattern` and replaces the subscription.
- The abstract decoders `getKeyDecoder` and `getValueDecoder`, and `createConsumerRecord`: they are pluggable format code that is not shown. Records are the opaque type `R`.
- `getIterator` and the `consumerRecords` field: they are a second, lazy path over the same poll result, and only the list-and-cursor path is modelled.
- `getId`, `getConfig` and `setConfig`: plain accessors. The configuration and its clock are replaced by the `nowMs` and `timeoutMs` arguments.
- Exceptions thrown by the Kafka client, which Java propagates through `finally`, are not modelled. Java's `NullPointerException` paths are excluded by preconditions. Those cover a closed consumer and a missing `committed` request. The lists inside a present request are assumed non-null.
- Metadata of offsets committed without one: the Kafka library's one-argument `OffsetAndMetadata(offset)` stores an empty string. The model keeps this case as "no metadata".
