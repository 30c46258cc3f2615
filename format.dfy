/**
 * The text written for one (offer, affiliate) pair: its event counts split by
 * the "C" prefix into clicks and conversions, each part rendered as a braced
 * `code: count` list (CRAggregationBolt.java, PersistTask.run).
 */
module Format {
  import opened Decimal
  import opened Enumeration
  import opened AggregateStore

  /** `event.startsWith("C")`: click codes start with C, all others are conversions. */
  predicate IsClick(code: string)
    ensures IsClick(code) <==> "C" <= code
  {
    |code| > 0 && code[0] == 'C'
  }

  /** The counts of the click events of one pair. */
  function ClickPart(m: EventCounts): EventCounts {
    map e | e in m && IsClick(e) :: m[e]
  }

  /** The counts of the conversion events of one pair. */
  function ConversionPart(m: EventCounts): EventCounts {
    map e | e in m && !IsClick(e) :: m[e]
  }

  /**
   * The two parts split the pair's counts: disjoint, together every event
   * code of the pair, each code in the part its prefix picks, counts carried
   * over unchanged.
   */
  lemma PartitionSplits(m: EventCounts)
    ensures ClickPart(m).Keys !! ConversionPart(m).Keys
    ensures ClickPart(m).Keys + ConversionPart(m).Keys == m.Keys
    ensures forall e | e in ClickPart(m) :: IsClick(e) && ClickPart(m)[e] == m[e]
    ensures forall e | e in ConversionPart(m) :: !IsClick(e) && ConversionPart(m)[e] == m[e]
  {
  }

  /** The codes of `codes`, in order, whose prefix class is `click`. */
  function Select(codes: seq<string>, click: bool): (r: seq<string>)
    ensures forall e | e in r :: e in codes
    decreases |codes|
  {
    if codes == [] then []
    else
      var last := codes[|codes| - 1];
      Select(codes[..|codes| - 1], click) + if IsClick(last) == click then [last] else []
  }

  /** The selection holds exactly the codes of `codes` of the wanted class. */
  lemma {:induction false} SelectMembers(codes: seq<string>, click: bool)
    ensures forall e :: e in Select(codes, click) <==> e in codes && IsClick(e) == click
    decreases |codes|
  {
    if codes != [] {
      var init := codes[..|codes| - 1];
      SelectMembers(init, click);
      assert codes == init + [codes[|codes| - 1]];
    }
  }

  /** Selecting from a list without repeats gives a list without repeats. */
  lemma {:induction false} SelectDistinct(codes: seq<string>, click: bool)
    requires Distinct(codes)
    ensures Distinct(Select(codes, click))
    decreases |codes|
  {
    if codes != [] {
      var init, last := codes[..|codes| - 1], codes[|codes| - 1];
      SelectDistinct(init, click);
      assert last !in init by {
        forall i | 0 <= i < |init| ensures init[i] != last {
          assert codes[i] == init[i];
        }
      }
    }
  }

  /**
   * When `codes` lists the pair's event codes once each (the order a HashMap
   * hands them out in), the click selection lists exactly the click part and
   * the conversion selection exactly the conversion part, once each.
   */
  lemma SelectEnumeratesParts(m: EventCounts, codes: seq<string>)
    requires Enumerates(codes, m.Keys)
    ensures Enumerates(Select(codes, true), ClickPart(m).Keys)
    ensures Enumerates(Select(codes, false), ConversionPart(m).Keys)
  {
    SelectDistinct(codes, true);
    SelectDistinct(codes, false);
    SelectMembers(codes, true);
    SelectMembers(codes, false);
  }

  /** One rendered counter: `code + ": " + count`. */
  function Entry(code: string, count: nat): string {
    code + ": " + Digits(count)
  }

  /** The rendered counters of `codes`, in order. */
  function Entries(m: EventCounts, codes: seq<string>): (r: seq<string>)
    requires forall e | e in codes :: e in m
    ensures |r| == |codes|
    decreases |codes|
  {
    if codes == [] then []
    else Entries(m, codes[..|codes| - 1]) + [Entry(codes[|codes| - 1], m[codes[|codes| - 1]])]
  }

  /** Items separated by ", ", with no separator after the last one. */
  function Join(items: seq<string>): string
    decreases |items|
  {
    if |items| == 0 then ""
    else if |items| == 1 then items[0]
    else Join(items[..|items| - 1]) + ", " + items[|items| - 1]
  }

  /** The text of one part: "{" + the joined entries + "}". */
  function Braced(items: seq<string>): string {
    "{" + Join(items) + "}"
  }

  /**
   * What the StringBuilder holds after the entries were appended, before it
   * is closed: every item followed by ", ".
   */
  function Terminated(items: seq<string>): string
    decreases |items|
  {
    if items == [] then "" else Terminated(items[..|items| - 1]) + items[|items| - 1] + ", "
  }

  /**
   * The builder's text is the joined text plus one trailing separator, so
   * cutting the last two characters off leaves exactly the joined text.
   */
  lemma {:induction false} TerminatedIsJoinPlusSeparator(items: seq<string>)
    requires items != []
    ensures Terminated(items) == Join(items) + ", "
    decreases |items|
  {
    if |items| > 1 {
      var init := items[..|items| - 1];
      TerminatedIsJoinPlusSeparator(init);
      assert Terminated(items) == Join(init) + ", " + items[|items| - 1] + ", ";
    } else {
      assert items[..0] == [];
    }
  }

  /**
   * A part with no counter renders as "{}"; a part with counters is
   * delimited by braces and the character before its closing brace is a
   * digit of its last count, so no ", " is left before the brace.
   */
  lemma BracedShape(m: EventCounts, codes: seq<string>)
    requires forall e | e in codes :: e in m
    ensures codes == [] ==> Braced(Entries(m, codes)) == "{}"
    ensures codes != [] ==>
      var b := Braced(Entries(m, codes));
      |b| >= 3 && b[0] == '{' && IsDigit(b[|b| - 2]) && b[|b| - 1] == '}'
  {
    if codes != [] {
      var es := Entries(m, codes);
      var d := Digits(m[codes[|codes| - 1]]);
      assert es[|es| - 1] == codes[|codes| - 1] + ": " + d;
      JoinEndsWithLast(es);
    }
  }

  lemma JoinEndsWithLast(items: seq<string>)
    requires items != [] && items[|items| - 1] != []
    ensures |Join(items)| >= 1 && Join(items)[|Join(items)| - 1] == items[|items| - 1][|items[|items| - 1]| - 1]
  {
  }

  /** The cache key of one pair: `offerId + "_" + affId + "_" + bucket`. */
  function CacheKey(offerId: string, affiliateId: string, bucket: string): (k: string)
    ensures |k| == |offerId| + |affiliateId| + |bucket| + 2
    ensures offerId <= k && k[|offerId|] == '_' && k[|k| - |bucket|..] == bucket
  {
    offerId + "_" + affiliateId + "_" + bucket
  }

  /**
   * Two different pairs can share a key: the separator `_` may occur inside
   * an offer or affiliate ID.
   */
  lemma KeyNotInjective(bucket: string)
    ensures CacheKey("a_b", "c", bucket) == CacheKey("a", "b_c", bucket)
  {
  }

  /** When no ID contains `_`, the key of a bucket determines its pair. */
  lemma KeyInjectiveWithoutSeparator(o1: string, a1: string, o2: string, a2: string, bucket: string)
    requires '_' !in o1 && '_' !in a1 && '_' !in o2 && '_' !in a2
    requires CacheKey(o1, a1, bucket) == CacheKey(o2, a2, bucket)
    ensures o1 == o2 && a1 == a2
  {
    var k := CacheKey(o1, a1, bucket);
    assert k == o1 + "_" + (a1 + "_" + bucket) == o2 + "_" + (a2 + "_" + bucket);
    SeparatorSplits(o1, o2, a1 + "_" + bucket, a2 + "_" + bucket);
    assert o1 == o2;
    var rest := k[|o1| + 1..];
    assert rest == a1 + "_" + bucket && rest == a2 + "_" + bucket;
    SeparatorSplits(a1, a2, bucket, bucket);
  }

  /** `x + "_" + u == y + "_" + v` with no `_` in x or y splits at the same place. */
  lemma SeparatorSplits(x: string, y: string, u: string, v: string)
    requires '_' !in x && '_' !in y && x + "_" + u == y + "_" + v
    ensures x == y && u == v
  {
    var k := x + "_" + u;
    if |x| < |y| {
      SeparatorOutside(y, v, |x|);
      assert false;
    } else if |y| < |x| {
      SeparatorOutside(x, u, |y|);
      assert false;
    }
    assert x == k[..|x|] == y;
    assert u == k[|x| + 1..] == v;
  }

  lemma SeparatorOutside(x: string, u: string, i: nat)
    requires '_' !in x && i < |x|
    ensures (x + "_" + u)[i] != '_'
  {
    assert (x + "_" + u)[i] == x[i];
  }

  /** The value written for one pair: "{click: " + click + ", conversion: " + conversion + "}". */
  function CacheValue(click: string, conversion: string): (v: string)
    ensures |v| == |click| + |conversion| + 23
    ensures v[..8] == "{click: " && v[8..8 + |click|] == click
    ensures v[8 + |click|..22 + |click|] == ", conversion: " && v[22 + |click|..|v| - 1] == conversion
    ensures v[|v| - 1] == '}'
  {
    "{click: " + click + ", conversion: " + conversion + "}"
  }

  /**
   * The loop body of the export for one pair: every counter is appended,
   * followed by ", ", to the click builder or the conversion builder by its
   * prefix; then each builder loses its trailing ", " and is closed with
   * "}" (or is just closed when nothing was appended).
   */
  method RenderParts(m: EventCounts, codes: seq<string>) returns (click: string, conversion: string)
    requires forall e | e in codes :: e in m
    ensures click == Braced(Entries(m, Select(codes, true)))
    ensures conversion == Braced(Entries(m, Select(codes, false)))
  {
    var clickBuilder, conversionBuilder := "{", "{";
    var i := 0;
    while i < |codes|
      invariant 0 <= i <= |codes|
      invariant clickBuilder == Appended(m, codes[..i], true)
      invariant conversionBuilder == Appended(m, codes[..i], false)
    {
      var code := codes[i];
      assert codes[..i + 1][..i] == codes[..i];
      if IsClick(code) {
        clickBuilder := clickBuilder + code + ": " + Digits(m[code]) + ", ";
      } else {
        conversionBuilder := conversionBuilder + code + ": " + Digits(m[code]) + ", ";
      }
      i := i + 1;
    }
    assert codes[..i] == codes;
    AppendedIsTerminated(m, codes, true);
    AppendedIsTerminated(m, codes, false);
    click := Close(clickBuilder, Entries(m, Select(codes, true)));
    conversion := Close(conversionBuilder, Entries(m, Select(codes, false)));
  }

  lemma EntriesStep(m: EventCounts, codes: seq<string>, code: string)
    requires forall e | e in codes :: e in m
    requires code in m
    ensures Entries(m, codes + [code]) == Entries(m, codes) + [Entry(code, m[code])]
  {
    assert (codes + [code])[..|codes|] == codes;
  }

  lemma TerminatedStep(items: seq<string>, item: string)
    ensures Terminated(items + [item]) == Terminated(items) + item + ", "
  {
    assert (items + [item])[..|items|] == items;
  }

  /**
   * What a part's StringBuilder holds once the counters of `codes` have been
   * appended to it: "{", then `code: count, ` for each code of that part.
   */
  function Appended(m: EventCounts, codes: seq<string>, click: bool): string
    requires forall e | e in codes :: e in m
    decreases |codes|
  {
    if codes == [] then "{"
    else
      var code, before := codes[|codes| - 1], Appended(m, codes[..|codes| - 1], click);
      if IsClick(code) == click then before + code + ": " + Digits(m[code]) + ", " else before
  }

  /** The builder holds "{" and the part's entries, each followed by ", ". */
  lemma {:induction false} AppendedIsTerminated(m: EventCounts, codes: seq<string>, click: bool)
    requires forall e | e in codes :: e in m
    ensures Appended(m, codes, click) == "{" + Terminated(Entries(m, Select(codes, click)))
    decreases |codes|
  {
    if codes != [] {
      var init, code := codes[..|codes| - 1], codes[|codes| - 1];
      AppendedIsTerminated(m, init, click);
      var before := Select(init, click);
      if IsClick(code) == click {
        assert Select(codes, click) == before + [code];
        AppendEntry(m, before, code, Appended(m, init, click));
      } else {
        assert Select(codes, click) == before + [] == before;
      }
    }
  }

  /** Appending one counter and a separator to a builder extends its entries by that counter. */
  lemma AppendEntry(m: EventCounts, done: seq<string>, code: string, builder: string)
    requires (forall e | e in done :: e in m) && code in m
    requires builder == "{" + Terminated(Entries(m, done))
    ensures builder + code + ": " + Digits(m[code]) + ", " == "{" + Terminated(Entries(m, done + [code]))
  {
    EntriesStep(m, done, code);
    TerminatedStep(Entries(m, done), Entry(code, m[code]));
  }

  /**
   * Closing a builder: when it holds more than "{" (an entry always adds at
   * least ": 0, "), its final ", " is replaced by "}"; otherwise "}" is
   * appended.
   */
  method Close(builder: string, ghost items: seq<string>) returns (text: string)
    requires builder == "{" + Terminated(items)
    ensures text == Braced(items)
  {
    if |builder| > 2 {
      assert items != [];
      TerminatedIsJoinPlusSeparator(items);
      text := builder[..|builder| - 2] + "}";
      assert builder[..|builder| - 2] == "{" + Join(items);
    } else {
      assert items == [] by {
        if items != [] {
          TerminatedIsJoinPlusSeparator(items);
        }
      }
      text := builder + "}";
    }
  }
}
