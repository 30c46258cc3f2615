/**
 * The aggregation bolt itself (CRAggregationBolt.java): `execute` counts one
 * tuple into the current store and acks or fails it, and each round of the
 * persist thread swaps the store for an empty one and exports the old one.
 */
module Bolt {
  import opened Wrappers
  import opened AggregateStore
  import opened Export

  /** The values the bolt takes from the `Constant` interface. */
  datatype Constants = Constants(base: nat, increment: nat, period: nat, numbers: nat)

  /**
   * The first value of an incoming tuple: a RocketMQ message, with the
   * outcome of parsing its body into a record (None when the parse throws
   * or yields no record), an object of any other kind, or a tuple with
   * fewer than two values, on which `input.getValue(1)` throws before the
   * `try` is entered.
   */
  datatype TupleValue = Message(parsed: Option<Record>) | NotAMessage | ShortTuple

  /** What `execute` reports to the output collector for a tuple. */
  datatype Signal = Ack | Fail

  class AggregationBolt {
    const consts: Constants
    /** The map held by `atomicReference`. */
    var current: Store
    /** The ack and fail calls made on the collector, in order. */
    var signals: seq<Signal>
    /** The `setKeyLive` calls made on the cache, in order. */
    var cacheCalls: seq<Write>
    /** The records counted into `current` since the last swap. */
    ghost var pending: seq<Record>

    /** The current store holds exactly the counts of the records since the last swap. */
    ghost predicate Valid()
      reads this
    {
      current == ApplyAll(map[], pending, consts.base, consts.increment)
    }

    /** `prepare`: the store starts empty. */
    constructor(consts: Constants)
      ensures Valid() && this.consts == consts
      ensures current == map[] && pending == [] && signals == [] && cacheCalls == []
    {
      this.consts := consts;
      current := map[];
      pending := [];
      signals := [];
      cacheCalls := [];
    }

    /**
     * The counting part of `execute`: create the offer or affiliate level
     * when it is missing, then store BASE for a new event code or add
     * INCREMENT to an existing one.
     */
    method Increment(r: Record)
      requires Valid()
      modifies this`current, this`pending
      ensures Valid()
      ensures current == Incremented(old(current), r, consts.base, consts.increment)
      ensures pending == old(pending) + [r]
    {
      if r.offerId !in current {
        var eventMap := map[r.eventCode := consts.base];
        var affMap := map[r.affiliateId := eventMap];
        current := current[r.offerId := affMap];
      } else {
        var affMap := current[r.offerId];
        if r.affiliateId in affMap {
          var eventMap := affMap[r.affiliateId];
          if r.eventCode in eventMap {
            eventMap := eventMap[r.eventCode := eventMap[r.eventCode] + consts.increment];
          } else {
            eventMap := eventMap[r.eventCode := consts.base];
          }
          affMap := affMap[r.affiliateId := eventMap];
        } else {
          var eventMap := map[r.eventCode := consts.base];
          affMap := affMap[r.affiliateId := eventMap];
        }
        current := current[r.offerId := affMap];
      }
      pending := pending + [r];
    }

    /**
     * `execute`: a message whose body parses is counted and acked; a message
     * whose body does not parse is failed before anything is counted; a
     * value that is not a message is only logged, and acked; a tuple too
     * short to hold two values makes `execute` throw before anything is
     * counted, with neither ack nor fail.
     */
    method Execute(first: TupleValue)
      requires Valid()
      modifies this`current, this`pending, this`signals
      ensures Valid()
      ensures first == ShortTuple ==> signals == old(signals)
      ensures first != ShortTuple ==>
        signals == old(signals) + [if first == Message(None) then Fail else Ack]
      ensures first.Message? && first.parsed.Some? ==>
        current == Incremented(old(current), first.parsed.value, consts.base, consts.increment) &&
        pending == old(pending) + [first.parsed.value]
      ensures !(first.Message? && first.parsed.Some?) ==>
        current == old(current) && pending == old(pending)
    {
      match first {
        case Message(parsed) =>
          if parsed.None? {
            signals := signals + [Fail];
            return;
          }
          Increment(parsed.value);
        case NotAMessage =>
        case ShortTuple =>
          return;
      }
      signals := signals + [Ack];
    }

    /**
     * `atomicReference.getAndSet(new HashMap<>())`: hand over the whole
     * current store and start an empty one. The snapshot holds exactly the
     * counts of the records since the previous swap, so every record lands
     * in exactly one snapshot.
     */
    method Swap() returns (snapshot: Store)
      requires Valid()
      modifies this`current, this`pending
      ensures Valid()
      ensures snapshot == old(current) && current == map[] && pending == []
      ensures snapshot == ApplyAll(map[], old(pending), consts.base, consts.increment)
    {
      snapshot := current;
      current := map[];
      pending := [];
    }

    /**
     * One round of the persist thread: swap; if the snapshot is empty, do
     * nothing more; otherwise issue the cycle's writes, each with TTL
     * PERIOD * NUMBERS, and abandon the rest of the cycle once a write
     * throws (the write with index `failAt`). The source calls the cache
     * inside its inner loop; here the writes are built first (`ExportCycle`)
     * and then sent (`IssueWrites`), which issues the same calls in the same
     * order because building a write changes no state.
     */
    method PersistCycle(bucket: string, ord: Order, failAt: Option<nat>)
      requires Valid() && Fits(current, ord)
      modifies this`current, this`pending, this`cacheCalls
      ensures Valid() && current == map[] && pending == []
      ensures old(current) == map[] ==> cacheCalls == old(cacheCalls)
      ensures cacheCalls == old(cacheCalls) +
        Issued(PairWrites(old(current), ord, bucket, consts.period * consts.numbers,
                          PairOrder(old(current), ord, ord.offers)), failAt)
    {
      var snapshot := Swap();
      if |snapshot| == 0 {
        assert snapshot == map[];
        return;
      }
      var writes := ExportCycle(snapshot, ord, bucket, consts.period * consts.numbers);
      IssueWrites(writes, failAt);
    }

    /**
     * The `setKeyLive` calls of one cycle, in order, until one of them
     * throws: the exception leaves the loops and the remaining writes of the
     * cycle are dropped.
     */
    method IssueWrites(writes: seq<Write>, failAt: Option<nat>)
      modifies this`cacheCalls
      ensures cacheCalls == old(cacheCalls) + Issued(writes, failAt)
    {
      var k := 0;
      while k < |writes|
        invariant 0 <= k <= |writes|
        invariant cacheCalls == old(cacheCalls) + writes[..k]
        invariant forall j | failAt == Some(j) :: j >= k
      {
        cacheCalls := cacheCalls + [writes[k]];
        if failAt == Some(k) {
          assert writes[..k] + [writes[k]] == writes[..k + 1];
          return;
        }
        k := k + 1;
      }
      assert writes[..k] == writes;
    }
  }
}
