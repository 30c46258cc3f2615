/**
 * The aggregate kept by the bolt: offer id -> affiliate id -> event code ->
 * count (CRAggregationBolt.java, the field `atomicReference`). A count is
 * created at BASE the first time its triple is seen and grows by INCREMENT
 * on every later sighting.
 */
module AggregateStore {
  import opened Wrappers

  /** One parsed log record (the fields of `CRLog` that the bolt reads). */
  datatype Record = Record(offerId: string, affiliateId: string, eventCode: string)

  type EventCounts = map<string, nat>
  type AffiliateCounts = map<string, EventCounts>
  type Store = map<string, AffiliateCounts>

  /** The count stored for a triple, if its whole key path exists. */
  function Lookup(s: Store, t: Record): Option<nat> {
    if t.offerId in s && t.affiliateId in s[t.offerId] && t.eventCode in s[t.offerId][t.affiliateId]
    then Some(s[t.offerId][t.affiliateId][t.eventCode])
    else None
  }

  /** No offer level and no affiliate level is empty: every level leads to a count. */
  predicate WellFormed(s: Store) {
    forall o | o in s :: s[o] != map[] && forall a | a in s[o] :: s[o][a] != map[]
  }

  /**
   * The store after one record has been counted: the missing levels of its
   * key path are created, and its count becomes `base` if it was absent and
   * grows by `step` if it was present.
   */
  function Incremented(s: Store, r: Record, base: nat, step: nat): (s': Store)
    ensures r.offerId in s' && r.affiliateId in s'[r.offerId] && r.eventCode in s'[r.offerId][r.affiliateId]
    ensures forall o | o in s :: o in s'
  {
    var affiliates: AffiliateCounts := if r.offerId in s then s[r.offerId] else map[];
    var events: EventCounts := if r.affiliateId in affiliates then affiliates[r.affiliateId] else map[];
    var count: nat := if r.eventCode in events then events[r.eventCode] + step else base;
    s[r.offerId := affiliates[r.affiliateId := events[r.eventCode := count]]]
  }

  /**
   * Counting `r` sets its count to `base` when it was absent and adds `step`
   * when it was present; every other triple keeps its count, and no other
   * key path appears or disappears.
   */
  lemma IncrementedLookup(s: Store, r: Record, base: nat, step: nat, t: Record)
    ensures Lookup(Incremented(s, r, base, step), t) ==
      if t == r then Some(match Lookup(s, r) case None => base case Some(c) => c + step)
      else Lookup(s, t)
  {
  }

  /**
   * The only offer and affiliate levels counting `r` may add are those of
   * its own key path, and a well-formed store stays well-formed.
   */
  lemma IncrementedLevels(s: Store, r: Record, base: nat, step: nat)
    ensures Incremented(s, r, base, step).Keys == s.Keys + {r.offerId}
    ensures forall o | o in s && o != r.offerId :: Incremented(s, r, base, step)[o] == s[o]
    ensures Incremented(s, r, base, step)[r.offerId].Keys ==
      (if r.offerId in s then s[r.offerId].Keys else {}) + {r.affiliateId}
    ensures WellFormed(s) ==> WellFormed(Incremented(s, r, base, step))
  {
  }

  /** The store after counting every record of `rs`, in order, starting from `s`. */
  function ApplyAll(s: Store, rs: seq<Record>, base: nat, step: nat): Store
    decreases |rs|
  {
    if rs == [] then s
    else Incremented(ApplyAll(s, rs[..|rs| - 1], base, step), rs[|rs| - 1], base, step)
  }

  /**
   * Starting from an empty store, a triple that occurs N > 0 times among the
   * records counted, however the other records are interleaved with it, has
   * count base + (N - 1) * step; a triple that never occurs has no count.
   */
  lemma {:induction false} CountAfterIngest(rs: seq<Record>, t: Record, base: nat, step: nat)
    ensures Lookup(ApplyAll(map[], rs, base, step), t) ==
      if multiset(rs)[t] == 0 then None else Some(base + (multiset(rs)[t] - 1) * step)
    decreases |rs|
  {
    if rs != [] {
      var init, last := rs[..|rs| - 1], rs[|rs| - 1];
      var before := ApplyAll(map[], init, base, step);
      var n := multiset(init)[t];
      LastOccurrence(rs, t);
      assert ApplyAll(map[], rs, base, step) == Incremented(before, last, base, step);
      CountAfterIngest(init, t, base, step);
      IncrementedLookup(before, last, base, step, t);
      if t == last && n > 0 {
        OneMoreStep(n, base, step);
      }
    }
  }

  lemma LastOccurrence(rs: seq<Record>, t: Record)
    requires rs != []
    ensures multiset(rs)[t] == multiset(rs[..|rs| - 1])[t] + if t == rs[|rs| - 1] then 1 else 0
  {
    assert rs == rs[..|rs| - 1] + [rs[|rs| - 1]];
  }

  lemma OneMoreStep(n: nat, base: nat, step: nat)
    requires n > 0
    ensures base + (n - 1) * step + step == base + n * step
  {
  }

  /** Every store built by counting records from an empty store is well-formed. */
  lemma {:induction false} ApplyAllWellFormed(rs: seq<Record>, base: nat, step: nat)
    ensures WellFormed(ApplyAll(map[], rs, base, step))
    decreases |rs|
  {
    if rs != [] {
      ApplyAllWellFormed(rs[..|rs| - 1], base, step);
      IncrementedLevels(ApplyAll(map[], rs[..|rs| - 1], base, step), rs[|rs| - 1], base, step);
    }
  }
}
