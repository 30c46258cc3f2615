/**
 * One export cycle over a detached snapshot (CRAggregationBolt.java,
 * PersistTask.run): one cache write per (offer, affiliate) pair, keyed by
 * `offerId_affId_bucket`, with the same bucket and time-to-live throughout.
 */
module Export {
  import opened Enumeration
  import opened AggregateStore
  import opened Format
  import opened Wrappers

  /**
   * The order in which the snapshot's HashMaps hand out their entries: the
   * offers, the affiliates of each offer, the event codes of each pair.
   */
  datatype Order = Order(
    offers: seq<string>,
    affiliates: map<string, seq<string>>,
    events: map<(string, string), seq<string>>)

  /** Every level of the order lists the keys of its map exactly once. */
  predicate Fits(snap: Store, ord: Order) {
    && Enumerates(ord.offers, snap.Keys)
    && (forall o | o in snap :: o in ord.affiliates && Enumerates(ord.affiliates[o], snap[o].Keys))
    && (forall o, a | o in snap && a in snap[o] ::
          (o, a) in ord.events && Enumerates(ord.events[(o, a)], snap[o][a].Keys))
  }

  /** One `setKeyLive(key, ttl, value)` call on the cache. */
  datatype Write = Write(key: string, ttl: nat, value: string)

  /** The (offer, affiliate) pairs present in a snapshot. */
  function Pairs(snap: Store): set<(string, string)> {
    set o, a | o in snap && a in snap[o] :: (o, a)
  }

  /** The write the export issues for the pair (o, a). */
  function PairWrite(snap: Store, ord: Order, bucket: string, ttl: nat, o: string, a: string): Write
    requires Fits(snap, ord) && o in snap && a in snap[o]
  {
    var m := snap[o][a];
    var codes := ord.events[(o, a)];
    Write(CacheKey(o, a, bucket), ttl,
          CacheValue(Braced(Entries(m, Select(codes, true))), Braced(Entries(m, Select(codes, false)))))
  }

  function AffiliatePairs(o: string, affiliates: seq<string>): seq<(string, string)> {
    seq(|affiliates|, k requires 0 <= k < |affiliates| => (o, affiliates[k]))
  }

  /** The pairs in the order the nested loops over `offers` visit them. */
  function PairOrder(snap: Store, ord: Order, offers: seq<string>): (ps: seq<(string, string)>)
    requires Fits(snap, ord) && forall o | o in offers :: o in snap
    ensures forall p | p in ps :: p.0 in offers && p.0 in snap && p.1 in snap[p.0]
    decreases |offers|
  {
    if offers == [] then []
    else
      var o := offers[|offers| - 1];
      PairOrder(snap, ord, offers[..|offers| - 1]) + AffiliatePairs(o, ord.affiliates[o])
  }

  /**
   * The loops visit every pair of the snapshot exactly once: the pair
   * order lists the snapshot's pairs without repeats.
   */
  lemma PairOrderEnumerates(snap: Store, ord: Order)
    requires Fits(snap, ord)
    ensures Enumerates(PairOrder(snap, ord, ord.offers), Pairs(snap))
  {
    PairOrderPrefix(snap, ord, ord.offers);
  }

  lemma {:induction false} PairOrderPrefix(snap: Store, ord: Order, offers: seq<string>)
    requires Fits(snap, ord) && Distinct(offers) && forall o | o in offers :: o in snap
    ensures Distinct(PairOrder(snap, ord, offers))
    ensures forall o, a | o in offers && a in snap[o] :: (o, a) in PairOrder(snap, ord, offers)
    decreases |offers|
  {
    if offers != [] {
      var init, o := offers[..|offers| - 1], offers[|offers| - 1];
      assert Distinct(init) by {
        forall i, j | 0 <= i < j < |init| ensures init[i] != init[j] {
          assert offers[i] == init[i] && offers[j] == init[j];
        }
      }
      assert o !in init by {
        forall i | 0 <= i < |init| ensures init[i] != o {
          assert offers[i] == init[i];
        }
      }
      PairOrderPrefix(snap, ord, init);
      var before, here := PairOrder(snap, ord, init), AffiliatePairs(o, ord.affiliates[o]);
      DistinctConcat(before, here);
      forall o', a | o' in offers && a in snap[o'] ensures (o', a) in PairOrder(snap, ord, offers) {
        if o' == o {
          var affs := ord.affiliates[o];
          var k :| 0 <= k < |affs| && affs[k] == a;
          assert here[k] == (o, a);
        } else {
          assert o' in init;
        }
      }
    }
  }

  /** The writes for the pairs `ps`, in that order. */
  function PairWrites(snap: Store, ord: Order, bucket: string, ttl: nat, ps: seq<(string, string)>): seq<Write>
    requires Fits(snap, ord) && forall p | p in ps :: p.0 in snap && p.1 in snap[p.0]
  {
    seq(|ps|, k requires 0 <= k < |ps| => PairWrite(snap, ord, bucket, ttl, ps[k].0, ps[k].1))
  }

  lemma PairWritesAppend(snap: Store, ord: Order, bucket: string, ttl: nat, ps: seq<(string, string)>, qs: seq<(string, string)>)
    requires Fits(snap, ord)
    requires forall p | p in ps :: p.0 in snap && p.1 in snap[p.0]
    requires forall p | p in qs :: p.0 in snap && p.1 in snap[p.0]
    ensures PairWrites(snap, ord, bucket, ttl, ps + qs) ==
      PairWrites(snap, ord, bucket, ttl, ps) + PairWrites(snap, ord, bucket, ttl, qs)
  {
  }

  /**
   * The body of one export cycle: for every offer of the snapshot, the
   * writes of its affiliates, so one write per pair in the loops' order.
   */
  method ExportCycle(snap: Store, ord: Order, bucket: string, ttl: nat) returns (writes: seq<Write>)
    requires Fits(snap, ord)
    ensures writes == PairWrites(snap, ord, bucket, ttl, PairOrder(snap, ord, ord.offers))
  {
    writes := [];
    var i := 0;
    while i < |ord.offers|
      invariant 0 <= i <= |ord.offers|
      invariant writes == PairWrites(snap, ord, bucket, ttl, PairOrder(snap, ord, ord.offers[..i]))
    {
      var offerId := ord.offers[i];
      ghost var done := PairOrder(snap, ord, ord.offers[..i]);
      var offerWrites := ExportOffer(snap, ord, bucket, ttl, offerId);
      PairWritesAppend(snap, ord, bucket, ttl, done, AffiliatePairs(offerId, ord.affiliates[offerId]));
      writes := writes + offerWrites;
      assert ord.offers[..i + 1][..i] == ord.offers[..i];
      i := i + 1;
    }
    assert ord.offers[..i] == ord.offers;
  }

  /**
   * The inner loop for one offer: for every affiliate of it, split and
   * render the pair's counters and issue the pair's write.
   */
  method ExportOffer(snap: Store, ord: Order, bucket: string, ttl: nat, offerId: string)
    returns (writes: seq<Write>)
    requires Fits(snap, ord) && offerId in snap
    ensures writes == PairWrites(snap, ord, bucket, ttl, AffiliatePairs(offerId, ord.affiliates[offerId]))
  {
    var affiliates := ord.affiliates[offerId];
    writes := [];
    var j := 0;
    while j < |affiliates|
      invariant 0 <= j <= |affiliates|
      invariant writes == PairWrites(snap, ord, bucket, ttl, AffiliatePairs(offerId, affiliates[..j]))
    {
      var affId := affiliates[j];
      var click, conversion := RenderParts(snap[offerId][affId], ord.events[(offerId, affId)]);
      OfferStep(snap, ord, bucket, ttl, offerId, j);
      writes := writes + [Write(CacheKey(offerId, affId, bucket), ttl, CacheValue(click, conversion))];
      j := j + 1;
    }
    assert affiliates[..j] == affiliates;
  }

  /** One more affiliate of the offer adds that pair's write. */
  lemma OfferStep(snap: Store, ord: Order, bucket: string, ttl: nat, o: string, j: nat)
    requires Fits(snap, ord) && o in snap && j < |ord.affiliates[o]|
    ensures var affs := ord.affiliates[o];
      PairWrites(snap, ord, bucket, ttl, AffiliatePairs(o, affs[..j + 1])) ==
      PairWrites(snap, ord, bucket, ttl, AffiliatePairs(o, affs[..j])) +
        [PairWrite(snap, ord, bucket, ttl, o, affs[j])]
  {
    var affs := ord.affiliates[o];
    assert AffiliatePairs(o, affs[..j + 1]) == AffiliatePairs(o, affs[..j]) + [(o, affs[j])];
    PairWritesAppend(snap, ord, bucket, ttl, AffiliatePairs(o, affs[..j]), [(o, affs[j])]);
  }

  /**
   * An export cycle issues one write per pair of the snapshot, all with the
   * cycle's time-to-live, and none at all for an empty snapshot.
   */
  lemma CycleWritesOnePerPair(snap: Store, ord: Order, bucket: string, ttl: nat)
    requires Fits(snap, ord)
    ensures var ws := PairWrites(snap, ord, bucket, ttl, PairOrder(snap, ord, ord.offers));
      && |ws| == |Pairs(snap)|
      && (forall k | 0 <= k < |ws| :: ws[k].ttl == ttl)
      && (snap == map[] ==> ws == [])
  {
    PairOrderEnumerates(snap, ord);
    EnumerationLength(PairOrder(snap, ord, ord.offers), Pairs(snap));
  }

  /**
   * What a write says about its pair, whatever order the HashMaps use: the
   * key is `offerId_affId_bucket`, and the value lists the click part once
   * each and then the conversion part once each, with their counts.
   */
  lemma PairWriteContents(snap: Store, ord: Order, bucket: string, ttl: nat, o: string, a: string)
    requires Fits(snap, ord) && o in snap && a in snap[o]
    ensures var w := PairWrite(snap, ord, bucket, ttl, o, a);
      var m := snap[o][a];
      && w.key == o + "_" + a + "_" + bucket
      && w.ttl == ttl
      && exists clicks: seq<string>, conversions: seq<string> |
           Enumerates(clicks, ClickPart(m).Keys) && Enumerates(conversions, ConversionPart(m).Keys) ::
           w.value == "{click: " + Braced(Entries(ClickPart(m), clicks)) +
                      ", conversion: " + Braced(Entries(ConversionPart(m), conversions)) + "}"
  {
    var m := snap[o][a];
    var codes := ord.events[(o, a)];
    var clicks, conversions := Select(codes, true), Select(codes, false);
    SelectEnumeratesParts(m, codes);
    EntriesAgree(m, ClickPart(m), clicks);
    EntriesAgree(m, ConversionPart(m), conversions);
    assert Enumerates(clicks, ClickPart(m).Keys) && Enumerates(conversions, ConversionPart(m).Keys);
  }

  /** The rendered entries depend only on the counts of the listed codes. */
  lemma {:induction false} EntriesAgree(m: EventCounts, n: EventCounts, codes: seq<string>)
    requires forall e | e in codes :: e in m && e in n && m[e] == n[e]
    ensures Entries(m, codes) == Entries(n, codes)
    decreases |codes|
  {
    if codes != [] {
      EntriesAgree(m, n, codes[..|codes| - 1]);
    }
  }

  /**
   * The writes that reach the cache when the write with index `failAt`
   * throws: that write is attempted and the rest of the cycle is abandoned.
   */
  function Issued(writes: seq<Write>, failAt: Option<nat>): (sent: seq<Write>)
    ensures sent <= writes
    ensures failAt.None? ==> sent == writes
  {
    match failAt
    case None => writes
    case Some(k) => if k < |writes| then writes[..k + 1] else writes
  }

  /**
   * The issued writes are a prefix of the cycle's writes; all of them go
   * out unless a write before the last one throws, and a throwing write is
   * the last one attempted.
   */
  lemma IssuedPrefix(writes: seq<Write>, failAt: Option<nat>)
    ensures var sent := Issued(writes, failAt);
      && sent <= writes
      && (|sent| == |writes| <==> (failAt.None? || failAt.value + 1 >= |writes|))
      && (failAt.Some? && failAt.value < |writes| ==> sent[|sent| - 1] == writes[failAt.value])
  {
  }
}
