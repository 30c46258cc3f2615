# CR aggregation bolt — a Dafny model

This project models the core of `CRAggregationBolt`, the Storm bolt in RocketMQ-Storm that counts
click/conversion ("CR") log records. The bolt groups the records by offer ID, affiliate ID and
event code. It then periodically writes one cache entry per (offer, affiliate) pair.

- `execute` parses a RocketMQ message into a record. It then increments the count in a three-level
  map (offer → affiliate → event code → count) and acks the tuple. If parsing or counting throws, it fails the
  tuple instead.
- The persist thread atomically swaps the map for an empty one and skips an empty snapshot.
  Otherwise, for every pair, it renders the pair's counts as two braced lists. Event codes starting
  with "C" go to the click list, all others to the conversion list. It writes
  `{click: {...}, conversion: {...}}` to the cache under the key `offerId_affId_bucket`, with
  time-to-live `PERIOD * NUMBERS`.

Modules:

- `AggregateStore` holds the nested map as a value (`Store`) and the increment as a function. Its
  lemmas show what a sequence of records leaves in the store.
- `Bolt.AggregationBolt` is a class whose field `current` is the map held by the atomic reference.
  Its other fields are the log of ack/fail signals and the log of cache writes. It has one method for
  each of `execute`, the swap, and one round of the persist thread.
- `Format` renders one pair. The `RenderParts` method runs the StringBuilder loop and the close step.
  It is proved equal to a specification built from `Select`, `Entries` and `Braced`.
- `Export` holds the nested loops over offers and affiliates, as the `ExportCycle` and `ExportOffer`
  methods. It also holds the lemmas that one write is issued per pair.
- `Decimal` holds the decimal rendering of a count, as `Long.toString` prints it.
- `Scenario` holds a worked end-to-end case.

HashMap iteration order is unspecified, so it is a parameter. An `Order` lists the keys of every
level of the snapshot. `Fits` requires that each level's keys are listed exactly once. Every
property about an export holds for every such order.

Three consequences of the code as written are worth knowing:

- The cache key `offerId + "_" + affId + "_" + bucket` is not injective. For example, offer `a_b`
  with affiliate `c` and offer `a` with affiliate `b_c` share a key (`Format.KeyNotInjective`).
- Any code starting with "C" is a click. So an event code such as `CONV1` is counted in the click
  map, not the conversion map. The model follows the code; `Scenario.EndToEnd` shows this case.
- If one cache write throws, the exception leaves both loops. The remaining pairs of that snapshot
  are never written, and the snapshot is dropped. `Bolt.AggregationBolt.PersistCycle` models this
  with the index of the failing write.

A tuple whose first value is not a `MessageExt` is logged and then acked, not failed.

## Model

| member | source | states |
|---|---|---|
| Bolt.AggregationBolt.constructor | src/main/java/com/alibaba/rocketmq/storm/bolt/CRAggregationBolt.java:52-63 | after `prepare` the reference holds an empty map; no signal and no cache write has been made |
| Bolt.AggregationBolt.Increment | src/main/java/com/alibaba/rocketmq/storm/bolt/CRAggregationBolt.java:84-106 | the three branches of the nested-map update give exactly `Incremented` of the old store; the class invariant (store == counts of the records since the last swap) is kept |
| Bolt.AggregationBolt.Execute | src/main/java/com/alibaba/rocketmq/storm/bolt/CRAggregationBolt.java:78-116 | a tuple with fewer than two values throws out of `execute`, so it gets no signal and changes nothing; every other tuple gets exactly one signal: Fail when the message body cannot be parsed, and then nothing is counted; otherwise Ack. Only a parsed message changes the store |
| Bolt.AggregationBolt.Swap | src/main/java/com/alibaba/rocketmq/storm/bolt/CRAggregationBolt.java:145-146 | the snapshot is the whole old store, which holds the counts of exactly the records since the previous swap; the new store is empty |
| Bolt.AggregationBolt.PersistCycle | src/main/java/com/alibaba/rocketmq/storm/bolt/CRAggregationBolt.java:145-195 | a round swaps; an empty snapshot issues no write; otherwise the writes are the per-pair writes of the snapshot with TTL PERIOD*NUMBERS, in loop order, cut after a write that throws |
| Bolt.AggregationBolt.IssueWrites | src/main/java/com/alibaba/rocketmq/storm/bolt/CRAggregationBolt.java:193-198 | the writes reach the cache in order, up to and including the first one that throws |
| AggregateStore.Incremented | src/main/java/com/alibaba/rocketmq/storm/bolt/CRAggregationBolt.java:84-106 | after counting a record its whole key path (offer, affiliate, event code) is present, and no offer is lost |
| AggregateStore.IncrementedLookup | src/main/java/com/alibaba/rocketmq/storm/bolt/CRAggregationBolt.java:85-105 | a new triple gets BASE, an existing one gains INCREMENT, every other triple keeps its count |
| AggregateStore.IncrementedLevels | src/main/java/com/alibaba/rocketmq/storm/bolt/CRAggregationBolt.java:85-105 | only the record's own offer and affiliate levels can be added; other offers are unchanged; no level is ever empty |
| AggregateStore.CountAfterIngest | src/main/java/com/alibaba/rocketmq/storm/bolt/CRAggregationBolt.java:88-99 | after N > 0 occurrences of a triple, in any interleaving with other records, its count is BASE + (N-1)*INCREMENT; an absent triple has no count |
| AggregateStore.ApplyAllWellFormed | src/main/java/com/alibaba/rocketmq/storm/bolt/CRAggregationBolt.java:86-104 | every store built from empty by counting records has no empty affiliate or event level |
| Format.PartitionSplits | src/main/java/com/alibaba/rocketmq/storm/bolt/CRAggregationBolt.java:170-177 | the click and conversion parts are disjoint, together cover the pair's codes, follow the "C" prefix test and carry the counts unchanged |
| Format.IsClick | src/main/java/com/alibaba/rocketmq/storm/bolt/CRAggregationBolt.java:172 | a code is a click exactly when "C" is a prefix of it (`startsWith("C")`) |
| Format.SelectMembers | src/main/java/com/alibaba/rocketmq/storm/bolt/CRAggregationBolt.java:170-177 | a code is in a selection iff it is among the codes and its prefix class matches |
| Format.SelectDistinct | src/main/java/com/alibaba/rocketmq/storm/bolt/CRAggregationBolt.java:170-177 | selecting from codes without repeats gives codes without repeats |
| Format.SelectEnumeratesParts | src/main/java/com/alibaba/rocketmq/storm/bolt/CRAggregationBolt.java:170-177 | iterating the event map once lists the click part and the conversion part exactly once each |
| Format.RenderParts | src/main/java/com/alibaba/rocketmq/storm/bolt/CRAggregationBolt.java:165-189 | the builders after the loop and the close step are exactly the braced, comma-separated `code: count` lists of the click and conversion codes, in iteration order |
| Format.Close | src/main/java/com/alibaba/rocketmq/storm/bolt/CRAggregationBolt.java:179-189 | replacing the trailing ", " with "}" (or appending "}" to a bare "{") yields the braced join of the items |
| Format.TerminatedIsJoinPlusSeparator | src/main/java/com/alibaba/rocketmq/storm/bolt/CRAggregationBolt.java:173-180 | the builder's text after the loop is the joined text plus one ", ", so cutting two characters leaves the join |
| Format.BracedShape | src/main/java/com/alibaba/rocketmq/storm/bolt/CRAggregationBolt.java:179-189 | an empty part renders as "{}"; a non-empty part starts with "{", ends with "}", and has a digit before the brace (no dangling separator) |
| Format.AppendedIsTerminated | src/main/java/com/alibaba/rocketmq/storm/bolt/CRAggregationBolt.java:170-177 | appending each selected entry followed by ", " gives the terminated list of the selection's entries |
| Format.CacheKey | src/main/java/com/alibaba/rocketmq/storm/bolt/CRAggregationBolt.java:164 | the key starts with the offer ID followed by `_`, ends with the bucket, and is two characters longer than its three parts |
| Format.KeyNotInjective | src/main/java/com/alibaba/rocketmq/storm/bolt/CRAggregationBolt.java:164 | offer `a_b` with affiliate `c` and offer `a` with affiliate `b_c` get the same key in every bucket |
| Format.KeyInjectiveWithoutSeparator | src/main/java/com/alibaba/rocketmq/storm/bolt/CRAggregationBolt.java:164 | when no offer or affiliate ID contains `_`, equal keys in one bucket mean the same pair |
| Format.CacheValue | src/main/java/com/alibaba/rocketmq/storm/bolt/CRAggregationBolt.java:193 | the value is "{click: ", the click text, ", conversion: ", the conversion text and "}", so both parts can be read back at known positions |
| Decimal.Digits | src/main/java/com/alibaba/rocketmq/storm/bolt/CRAggregationBolt.java:173 | a count is rendered as at least one character and ends in a digit |
| Decimal.DigitsCanonical | src/main/java/com/alibaba/rocketmq/storm/bolt/CRAggregationBolt.java:173 | the rendering is all digits with no leading zero, and 0 renders as "0" |
| Decimal.ParseDigitsInverts | src/main/java/com/alibaba/rocketmq/storm/bolt/CRAggregationBolt.java:173 | reading the rendered digits back gives the count |
| Decimal.DigitsInjective | src/main/java/com/alibaba/rocketmq/storm/bolt/CRAggregationBolt.java:173 | distinct counts render differently |
| Export.ExportCycle | src/main/java/com/alibaba/rocketmq/storm/bolt/CRAggregationBolt.java:158-195 | the nested loops produce the write of every pair, in the order the offer and affiliate maps are iterated |
| Export.ExportOffer | src/main/java/com/alibaba/rocketmq/storm/bolt/CRAggregationBolt.java:159-194 | the inner loop produces the writes of one offer's affiliates, in iteration order |
| Export.PairOrderEnumerates | src/main/java/com/alibaba/rocketmq/storm/bolt/CRAggregationBolt.java:158-163 | the loops visit every (offer, affiliate) pair of the snapshot exactly once |
| Export.CycleWritesOnePerPair | src/main/java/com/alibaba/rocketmq/storm/bolt/CRAggregationBolt.java:148-193 | a cycle issues exactly one write per pair, each with the cycle's TTL, and none for an empty snapshot |
| Export.PairWriteContents | src/main/java/com/alibaba/rocketmq/storm/bolt/CRAggregationBolt.java:164-193 | the key is `offerId_affId_bucket`; the value is `{click: ..., conversion: ...}` listing the click and conversion counts once each, whatever the iteration order |
| Export.EntriesAgree | src/main/java/com/alibaba/rocketmq/storm/bolt/CRAggregationBolt.java:170-176 | a rendered list depends only on the counts of the codes it lists |
| Export.Issued | src/main/java/com/alibaba/rocketmq/storm/bolt/CRAggregationBolt.java:193-198 | the writes that reach the cache are a prefix of the cycle's writes, and all of them when no write throws |
| Export.IssuedPrefix | src/main/java/com/alibaba/rocketmq/storm/bolt/CRAggregationBolt.java:193-198 | the issued writes are a prefix of the cycle's writes, complete unless a write before the last one throws, and end with the throwing write |
| Scenario.IngestedSnapshot | src/main/java/com/alibaba/rocketmq/storm/bolt/CRAggregationBolt.java:84-106 | with BASE = INCREMENT = 1, records CLICK1, CONV1, CLICK1 for pair (10, 5) leave {10: {5: {CLICK1: 2, CONV1: 1}}} |
| Scenario.EndToEnd | src/main/java/com/alibaba/rocketmq/storm/bolt/CRAggregationBolt.java:158-193 | that snapshot yields a single write keyed `10_5_<bucket>` whose click map holds both counts and whose conversion map is "{}", in either iteration order |

## Left out

- Storm lifecycle and threading. The tuple and persist threads, the `stop` flag, `cleanup` and the `Thread.sleep(PERIOD * 1000)` between rounds are not modelled. Each round is one call to `PersistCycle`, and calls run one at a time.
- The compare-and-set loop in `prepare`. It runs once, with a null reference. It is modelled as the constructor's empty store.
- JSON parsing of the message body. It is an input: a tuple value carries the parsed record, or None when parsing throws.
- The `counter` logging every 10000 tuples, and all other logging. They have no effect on state.
- The second tuple value (`msgStat`). Its content is never used; only its presence matters, as below.
- Bolt.AggregationBolt.Execute: the tuple's values are read before the `try`. A tuple with fewer than two values therefore throws out of `execute` with neither ack nor fail. This is modelled as the `ShortTuple` value, not as an exception raised to the caller.
- The time bucket. It is a parameter of `PersistCycle`. The `SimpleDateFormat` is created without a time zone, so the bucket uses the JVM's default zone, not the GMT+8 set on the calendar.
- The cache client (`CacheManager.setKeyLive`). It is the log `cacheCalls`. A failure is the index of the throwing write.
- Null values. `null` keys, fields or counts (a record without an offer ID) and the `null == map` test are not modelled. The reference is never null after `prepare`.
- Bolt.AggregationBolt.Execute: the Fail case does not cover a record with a missing field. Such a body still parses, so the record is counted under a `null` key and acked.
  - A missing `event_code` makes the next export throw at `event.startsWith("C")`, and the rest of that snapshot is not written.
  - A missing offer or affiliate ID does not throw. Java string concatenation renders it as the text "null", so that pair is written under a key such as `null_5_<bucket>`.
- Bolt.AggregationBolt.Increment: counts are unbounded `nat`. A Java `Long` count overflows once BASE + (N-1)*INCREMENT exceeds 2^63 - 1, and never when INCREMENT is 0; that overflow is not modelled, and BASE, INCREMENT, PERIOD and NUMBERS are assumed non-negative.
- Bolt.AggregationBolt.PersistCycle: the TTL `PERIOD * NUMBERS` is unbounded. Overflow of the Java product is not modelled.
- Aliasing. The inner HashMaps are modelled as values. The bolt never shares an inner map between two keys. However, `execute` can still hold the map it fetched just before the swap, which is the race in the next line.
- Bolt.AggregationBolt.PersistCycle: a tuple that arrives during a swap, in the race between `get` and `getAndSet`, is not modelled.
- `HBaseTest` is not part of this model.
