/**
 * A worked case of the whole pipeline: two CLICK1 records and one CONV1
 * record for the same pair, counted and exported in one cycle.
 */
module Scenario {
  import opened Decimal
  import opened Enumeration
  import opened AggregateStore
  import opened Format
  import opened Export

  function Ingested(): seq<Record> {
    [Record("10", "5", "CLICK1"), Record("10", "5", "CONV1"), Record("10", "5", "CLICK1")]
  }

  lemma CodesDiffer()
    ensures "CONV1" != "CLICK1"
  {
    assert |"CONV1"| != |"CLICK1"|;
  }

  /** The snapshot the three records leave: {10: {5: {CLICK1: 2, CONV1: 1}}}. */
  function Expected(): Store {
    map["10" := map["5" := map["CLICK1" := 2, "CONV1" := 1]]]
  }

  /** With BASE = INCREMENT = 1 the three records leave exactly the expected counts. */
  lemma IngestedSnapshot()
    ensures ApplyAll(map[], Ingested(), 1, 1) == Expected()
  {
    var rs := Ingested();
    CodesDiffer();
    var s1 := Incremented(map[], rs[0], 1, 1);
    assert ApplyAll(map[], rs[..1], 1, 1) == s1 by {
      assert rs[..1][..0] == [];
    }
    var s2 := Incremented(s1, rs[1], 1, 1);
    assert ApplyAll(map[], rs[..2], 1, 1) == s2 by {
      assert rs[..2][..1] == rs[..1];
    }
    assert s2["10"]["5"] == map["CLICK1" := 1, "CONV1" := 1];
    assert s2["10"] == map["5" := map["CLICK1" := 1, "CONV1" := 1]];
    var s3 := Incremented(s2, rs[2], 1, 1);
    assert ApplyAll(map[], rs, 1, 1) == s3 by {
      assert rs[..|rs| - 1] == rs[..2];
    }
    assert s3["10"]["5"] == map["CLICK1" := 2, "CONV1" := 1];
    assert s3["10"] == map["5" := map["CLICK1" := 2, "CONV1" := 1]];
  }

  /** The snapshot has the single pair (10, 5). */
  lemma ExpectedPairOrder(ord: Order)
    requires Fits(Expected(), ord)
    ensures PairOrder(Expected(), ord, ord.offers) == [("10", "5")]
  {
    var snap := Expected();
    EnumerationLength(ord.offers, snap.Keys);
    assert ord.offers == ["10"];
    EnumerationLength(ord.affiliates["10"], snap["10"].Keys);
    assert ord.affiliates["10"] == ["5"];
    assert ord.offers[..0] == [];
  }

  /** A listing of two distinct keys is one of their two orders. */
  lemma TwoKeys(codes: seq<string>, x: string, y: string)
    requires x != y && Enumerates(codes, {x, y})
    ensures codes == [x, y] || codes == [y, x]
  {
    EnumerationLength(codes, {x, y});
    assert codes[0] in {x, y} && codes[1] in {x, y};
  }

  /** Two click codes, in either order, all go to the click part. */
  lemma SelectTwoClicks(codes: seq<string>)
    requires |codes| == 2 && IsClick(codes[0]) && IsClick(codes[1])
    ensures Select(codes, true) == codes && Select(codes, false) == []
  {
    assert codes[..1] == [codes[0]] && codes[..1][..0] == [];
    assert Select(codes[..1], true) == [] + [codes[0]] == [codes[0]];
    assert Select(codes[..1], false) == [] + [] == [];
    assert Select(codes, true) == [codes[0]] + [codes[1]] == codes;
    assert Select(codes, false) == [] + [] == [];
  }

  /** Two entries are joined as "{first, second}". */
  lemma TwoEntries(m: EventCounts, a: string, b: string)
    requires a in m && b in m
    ensures Braced(Entries(m, [a, b])) == "{" + (Entry(a, m[a]) + ", " + Entry(b, m[b])) + "}"
  {
    assert [a, b][..1] == [a] && [a][..0] == [];
    assert Entries(m, [a]) == [] + [Entry(a, m[a])] == [Entry(a, m[a])];
    var es := Entries(m, [a, b]);
    assert es == [Entry(a, m[a])] + [Entry(b, m[b])] == [Entry(a, m[a]), Entry(b, m[b])];
    assert es[..1] == [es[0]];
    assert Join(es) == Join([es[0]]) + ", " + es[1];
  }

  lemma SmallDigits()
    ensures Digits(1) == "1" && Digits(2) == "2"
  {
  }

  lemma ExpectedEntries()
    ensures Entry("CLICK1", 2) == "CLICK1: 2" && Entry("CONV1", 1) == "CONV1: 1"
  {
    SmallDigits();
  }

  /** The click part of the pair, rendered with CLICK1 listed first. */
  lemma ClickTextClickFirst(m: EventCounts)
    requires m == map["CLICK1" := 2, "CONV1" := 1]
    ensures Braced(Entries(m, ["CLICK1", "CONV1"])) == "{CLICK1: 2, CONV1: 1}"
  {
    ExpectedEntries();
    TwoEntries(m, "CLICK1", "CONV1");
  }

  /** The click part of the pair, rendered with CONV1 listed first. */
  lemma ClickTextConvFirst(m: EventCounts)
    requires m == map["CLICK1" := 2, "CONV1" := 1]
    ensures Braced(Entries(m, ["CONV1", "CLICK1"])) == "{CONV1: 1, CLICK1: 2}"
  {
    CodesDiffer();
    ExpectedEntries();
    TwoEntries(m, "CONV1", "CLICK1");
  }

  lemma ExpectedKey(bucket: string)
    ensures CacheKey("10", "5", bucket) == "10_5_" + bucket
  {
  }

  /**
   * Both codes start with "C", so both are clicks: the write holds them in
   * the click map, in the HashMap's order, and an empty conversion map.
   */
  lemma ExpectedWrite(ord: Order, bucket: string, ttl: nat)
    requires Fits(Expected(), ord)
    ensures PairWrite(Expected(), ord, bucket, ttl, "10", "5") in
      {Write("10_5_" + bucket, ttl, CacheValue("{CLICK1: 2, CONV1: 1}", "{}")),
       Write("10_5_" + bucket, ttl, CacheValue("{CONV1: 1, CLICK1: 2}", "{}"))}
  {
    var m := Expected()["10"]["5"];
    var codes := ord.events[("10", "5")];
    CodesDiffer();
    assert m.Keys == {"CLICK1", "CONV1"};
    TwoKeys(codes, "CLICK1", "CONV1");
    SelectTwoClicks(codes);
    assert Braced(Entries(m, [])) == "{}";
    ExpectedKey(bucket);
    if codes == ["CLICK1", "CONV1"] {
      ClickTextClickFirst(m);
    } else {
      ClickTextConvFirst(m);
    }
  }

  /**
   * Whatever order the HashMaps use, the cycle makes a single write, under
   * key `10_5_<bucket>`. Since "CONV1" also starts with "C", the value holds
   * both counts, {CLICK1: 2} and {CONV1: 1}, in its click map, and its
   * conversion map is empty.
   */
  lemma EndToEnd(bucket: string, ord: Order, ttl: nat)
    requires Fits(ApplyAll(map[], Ingested(), 1, 1), ord)
    ensures var snap := ApplyAll(map[], Ingested(), 1, 1);
      var ws := PairWrites(snap, ord, bucket, ttl, PairOrder(snap, ord, ord.offers));
      |ws| == 1 && ws[0].key == "10_5_" + bucket &&
      ws[0].ttl == ttl &&
      ws[0].value in {CacheValue("{CLICK1: 2, CONV1: 1}", "{}"), CacheValue("{CONV1: 1, CLICK1: 2}", "{}")}
  {
    IngestedSnapshot();
    ExpectedPairOrder(ord);
    ExpectedWrite(ord, bucket, ttl);
  }
}
