/** The collection loop of app.py's `crawl`: one query per keyword, at most
    three classified items per keyword in source order, failures isolated per
    keyword, and a single RED placeholder when nothing at all was collected.
    The network query and the HTML parse are replaced by one `Outcome` per
    keyword; the current date is a parameter. */
module Crawler {
  import opened Risk

  datatype Option<T> = None | Some(value: T)

  /** One `a.news_tit` anchor as the parser hands it over: its text and its
      `href` attribute, which may be missing. */
  datatype RawEntry = RawEntry(text: string, href: Option<string>)

  /** What the query for one keyword yields: a failure before any entry was
      seen (request error, parse error), or the anchors in page order. */
  datatype Outcome = FetchFailed | Listing(entries: seq<RawEntry>)

  /** One collected news item. */
  datatype Item = Item(keyword: string, title: string, link: string, date: string, risk: Tier)

  /** The configured keyword list. */
  const Keywords: seq<string> := ["KT텔레캅", "SK쉴더스", "에스원", "보안 사고", "해킹", "개인정보 유출", "산업 재해"]

  /** At most this many anchors per keyword are looked at (`[:3]`). */
  const PerKeywordCap: nat := 3

  /** The item that stands in for the whole result when nothing was collected. */
  const Placeholder: Item := Item("시스템", "데이터 수집 실패", "#", "-", Red)

  /** The item built from a linked entry. */
  function ItemFor(kw: string, e: RawEntry, today: string): Item
    requires e.href.Some?
  {
    Item(kw, e.text, e.href.value, today, Classify(e.text))
  }

  /** The first `PerKeywordCap` entries, in order. */
  function FirstEntries(es: seq<RawEntry>): (r: seq<RawEntry>)
    ensures |r| <= PerKeywordCap && r <= es
    ensures |es| >= PerKeywordCap ==> |r| == PerKeywordCap
    ensures |es| < PerKeywordCap ==> r == es
  {
    if |es| <= PerKeywordCap then es else es[..PerKeywordCap]
  }

  /** Items appended for `es`, one by one, until an entry without a link
      raises and abandons the rest of the keyword. */
  function Appended(kw: string, es: seq<RawEntry>, today: string): seq<Item>
  {
    if es == [] then []
    else match es[0].href {
      case None => []
      case Some(_) => [ItemFor(kw, es[0], today)] + Appended(kw, es[1..], today)
    }
  }

  /** The appended items are those of the longest prefix of `es` whose
      entries all have a link, in order: entry `i` yields item `i`, and the
      first entry not turned into an item (if any) has no link. */
  lemma {:induction false} AppendedIsLinkedPrefix(kw: string, es: seq<RawEntry>, today: string)
    ensures |Appended(kw, es, today)| <= |es|
    ensures forall i :: 0 <= i < |Appended(kw, es, today)| ==>
              es[i].href.Some? && Appended(kw, es, today)[i] == ItemFor(kw, es[i], today)
    ensures |Appended(kw, es, today)| < |es| ==> es[|Appended(kw, es, today)|].href.None?
    decreases |es|
  {
    if es != [] && es[0].href.Some? {
      AppendedIsLinkedPrefix(kw, es[1..], today);
      var r := Appended(kw, es, today);
      var rest := Appended(kw, es[1..], today);
      assert r == [ItemFor(kw, es[0], today)] + rest;
      forall i | 0 < i < |r| ensures es[i].href.Some? && r[i] == ItemFor(kw, es[i], today) {
        assert r[i] == rest[i - 1] && es[i] == es[1..][i - 1];
      }
    }
  }

  /** What one keyword adds to the results. */
  function Contribution(kw: string, o: Outcome, today: string): seq<Item>
  {
    match o {
      case FetchFailed => []
      case Listing(es) => Appended(kw, FirstEntries(es), today)
    }
  }

  /** A failed query adds nothing. A listing adds at most `PerKeywordCap`
      items: item `i` is built, with this keyword, the supplied date and the
      tier of its own title, from entry `i`; and when fewer items than both
      the cap and the entries were added, the next entry has no link. */
  lemma ContributionSpec(kw: string, o: Outcome, today: string)
    ensures |Contribution(kw, o, today)| <= PerKeywordCap
    ensures forall x :: x in Contribution(kw, o, today) ==>
              x.keyword == kw && x.date == today && x.risk == Classify(x.title)
    ensures o.FetchFailed? ==> Contribution(kw, o, today) == []
    ensures o.Listing? ==> |Contribution(kw, o, today)| <= |o.entries|
    ensures o.Listing? ==> forall i :: 0 <= i < |Contribution(kw, o, today)| ==>
              o.entries[i].href.Some? && Contribution(kw, o, today)[i] == ItemFor(kw, o.entries[i], today)
    ensures o.Listing? && |Contribution(kw, o, today)| < PerKeywordCap && |Contribution(kw, o, today)| < |o.entries|
            ==> o.entries[|Contribution(kw, o, today)|].href.None?
  {
    if o.Listing? {
      var batch := FirstEntries(o.entries);
      AppendedIsLinkedPrefix(kw, batch, today);
      var r := Contribution(kw, o, today);
      forall x | x in r ensures x.keyword == kw && x.date == today && x.risk == Classify(x.title) {
        var i :| 0 <= i < |r| && r[i] == x;
      }
    }
  }

  /** An entry without a link cuts the keyword's contribution off before
      it, whatever follows. */
  lemma MissingLinkTruncates(kw: string, es: seq<RawEntry>, i: nat, today: string)
    requires i < |es| && es[i].href.None?
    ensures |Contribution(kw, Listing(es), today)| <= i
  {
    ContributionSpec(kw, Listing(es), today);
  }

  /** The contribution of each keyword, in keyword order. */
  function Contributions(ks: seq<string>, os: seq<Outcome>, today: string): (r: seq<seq<Item>>)
    requires |ks| == |os|
    ensures |r| == |ks|
  {
    seq(|ks|, i requires 0 <= i < |ks| => Contribution(ks[i], os[i], today))
  }

  /** The lists of `ss`, joined in order. */
  function Flatten<T>(ss: seq<seq<T>>): seq<T>
    decreases |ss|
  {
    if ss == [] then [] else Flatten(ss[..|ss| - 1]) + ss[|ss| - 1]
  }

  /** The results after the loop has handled every keyword: the
      contributions of the keywords, concatenated in keyword order. */
  function Collected(ks: seq<string>, os: seq<Outcome>, today: string): seq<Item>
    requires |ks| == |os|
  {
    Flatten(Contributions(ks, os, today))
  }

  /** The value `crawl` returns for the collected results: never empty. */
  function Report(results: seq<Item>): (r: seq<Item>)
    ensures r != []
  {
    if results != [] then results else [Placeholder]
  }

  /** Extending a prefix by one element. */
  lemma PrefixStep<T>(s: seq<T>, j: nat)
    requires j < |s|
    ensures s[..j + 1] == s[..j] + [s[j]]
  {
  }

  /** The inner loop of `crawl` for one keyword: appends an item for each
      entry of `batch` in turn, and an entry without a link raises, which
      abandons the rest of the batch. */
  method AppendLinked(kw: string, batch: seq<RawEntry>, today: string, results: seq<Item>)
    returns (out: seq<Item>)
    ensures out == results + Appended(kw, batch, today)
  {
    ghost var expected := Appended(kw, batch, today);
    AppendedIsLinkedPrefix(kw, batch, today);
    out := results;
    var j := 0;
    while j < |batch|
      invariant j <= |expected|
      invariant out == results + expected[..j]
    {
      match batch[j].href {
        case None =>
          break;
        case Some(link) =>
          assert j < |expected| && expected[j] == ItemFor(kw, batch[j], today);
          PrefixStep(expected, j);
          out := out + [Item(kw, batch[j].text, link, today, Classify(batch[j].text))];
      }
      j := j + 1;
    }
    assert expected[..j] == expected;
  }

  /** The loop of `crawl`, over the given per-keyword outcomes. */
  method Crawl(keywords: seq<string>, outcomes: seq<Outcome>, today: string) returns (report: seq<Item>)
    requires |outcomes| == |keywords|
    ensures report == Report(Collected(keywords, outcomes, today))
    ensures report == [Placeholder] || |report| <= PerKeywordCap * |keywords|
  {
    var results: seq<Item> := [];
    var n := 0;
    while n < |keywords|
      invariant n <= |keywords|
      invariant results == Collected(keywords[..n], outcomes[..n], today)
    {
      var kw := keywords[n];
      ghost var before := results;
      match outcomes[n] {
        case FetchFailed =>
        case Listing(es) =>
          results := AppendLinked(kw, FirstEntries(es), today, results);
      }
      assert results == before + Contribution(kw, outcomes[n], today);
      ContributionsStep(keywords, outcomes, n, today);
      n := n + 1;
    }
    assert keywords[..n] == keywords && outcomes[..n] == outcomes;
    CollectedBound(keywords, outcomes, today);
    report := if results != [] then results else [Placeholder];
  }

  /** One more keyword appends its contribution to the results. */
  lemma ContributionsStep(ks: seq<string>, os: seq<Outcome>, n: nat, today: string)
    requires |ks| == |os| && n < |ks|
    ensures Collected(ks[..n + 1], os[..n + 1], today)
            == Collected(ks[..n], os[..n], today) + Contribution(ks[n], os[n], today)
  {
    var c := Contributions(ks[..n + 1], os[..n + 1], today);
    assert c[..n] == Contributions(ks[..n], os[..n], today);
    assert c[n] == Contribution(ks[n], os[n], today);
  }

  // ---------------------------------------------------------------------
  // Joining lists.
  // ---------------------------------------------------------------------

  lemma {:induction false} FlattenAppend<T>(a: seq<seq<T>>, b: seq<seq<T>>)
    ensures Flatten(a + b) == Flatten(a) + Flatten(b)
    decreases |b|
  {
    if b == [] {
      assert a + b == a;
    } else {
      var m := |b| - 1;
      assert (a + b)[..|a + b| - 1] == a + b[..m];
      FlattenAppend(a, b[..m]);
    }
  }

  lemma {:induction false} FlattenEmptyIff<T>(ss: seq<seq<T>>)
    ensures Flatten(ss) == [] <==> forall i :: 0 <= i < |ss| ==> ss[i] == []
    decreases |ss|
  {
    if ss != [] {
      var n := |ss| - 1;
      FlattenEmptyIff(ss[..n]);
      assert forall i :: 0 <= i < n ==> ss[..n][i] == ss[i];
    }
  }

  lemma {:induction false} FlattenBound<T>(ss: seq<seq<T>>, c: nat)
    requires forall i :: 0 <= i < |ss| ==> |ss[i]| <= c
    ensures |Flatten(ss)| <= c * |ss|
    decreases |ss|
  {
    if ss != [] {
      var n := |ss| - 1;
      assert forall i :: 0 <= i < n ==> ss[..n][i] == ss[i];
      FlattenBound(ss[..n], c);
      assert |Flatten(ss)| == |Flatten(ss[..n])| + |ss[n]|;
      assert c * |ss| == c * n + c;
    }
  }

  lemma {:induction false} FlattenMember<T>(ss: seq<seq<T>>, x: T)
    requires x in Flatten(ss)
    ensures exists i :: 0 <= i < |ss| && x in ss[i]
    decreases |ss|
  {
    var n := |ss| - 1;
    if x in ss[n] {
    } else {
      FlattenMember(ss[..n], x);
      var i :| 0 <= i < n && x in ss[..n][i];
      assert ss[..n][i] == ss[i];
    }
  }

  // ---------------------------------------------------------------------
  // Properties of the collected results.
  // ---------------------------------------------------------------------

  /** Each keyword adds at most `PerKeywordCap` items. */
  lemma CollectedBound(ks: seq<string>, os: seq<Outcome>, today: string)
    requires |ks| == |os|
    ensures |Collected(ks, os, today)| <= PerKeywordCap * |ks|
  {
    var c := Contributions(ks, os, today);
    forall i | 0 <= i < |c| ensures |c[i]| <= PerKeywordCap {
      ContributionSpec(ks[i], os[i], today);
    }
    FlattenBound(c, PerKeywordCap);
  }

  /** Every collected item carries a configured keyword, the supplied date,
      and the tier of its own title. */
  lemma CollectedItems(ks: seq<string>, os: seq<Outcome>, today: string)
    requires |ks| == |os|
    ensures forall x :: x in Collected(ks, os, today) ==>
              x.keyword in ks && x.date == today && x.risk == Classify(x.title)
  {
    var c := Contributions(ks, os, today);
    forall x: Item | x in Flatten(c) ensures x.keyword in ks && x.date == today && x.risk == Classify(x.title) {
      FlattenMember(c, x);
      var i :| 0 <= i < |c| && x in c[i];
      ContributionSpec(ks[i], os[i], today);
    }
  }

  /** Running over two keyword lists one after the other gives the results of
      the first followed by those of the second: no keyword removes earlier
      items, and every later keyword is still processed. */
  lemma CollectedAppend(ks1: seq<string>, os1: seq<Outcome>,
                        ks2: seq<string>, os2: seq<Outcome>, today: string)
    requires |ks1| == |os1| && |ks2| == |os2|
    ensures Collected(ks1 + ks2, os1 + os2, today)
            == Collected(ks1, os1, today) + Collected(ks2, os2, today)
  {
    var c1, c2 := Contributions(ks1, os1, today), Contributions(ks2, os2, today);
    var c := Contributions(ks1 + ks2, os1 + os2, today);
    assert c == c1 + c2;
    FlattenAppend(c1, c2);
  }

  /** A single failed keyword collects nothing. */
  lemma FailedAlone(k: string, today: string)
    ensures Collected([k], [FetchFailed], today) == []
  {
    var none: seq<seq<Item>> := [[]];
    assert Contributions([k], [FetchFailed], today) == none;
    assert none[..0] == [];
  }

  /** A keyword whose query fails changes nothing: the results are those of
      the other keywords, in their order. */
  lemma FailedKeywordIsInvisible(ks1: seq<string>, os1: seq<Outcome>, k: string,
                                 ks2: seq<string>, os2: seq<Outcome>, today: string)
    requires |ks1| == |os1| && |ks2| == |os2|
    ensures Collected(ks1 + [k] + ks2, os1 + [FetchFailed] + os2, today)
            == Collected(ks1 + ks2, os1 + os2, today)
  {
    var left := Collected(ks1, os1, today);
    var right := Collected(ks2, os2, today);
    FailedAlone(k, today);
    CollectedAppend(ks1, os1, [k], [FetchFailed], today);
    assert Collected(ks1 + [k], os1 + [FetchFailed], today) == left;
    CollectedAppend(ks1 + [k], os1 + [FetchFailed], ks2, os2, today);
    CollectedAppend(ks1, os1, ks2, os2, today);
  }

  /** Nothing is collected exactly when no keyword contributes an item. */
  lemma CollectedEmptyIff(ks: seq<string>, os: seq<Outcome>, today: string)
    requires |ks| == |os|
    ensures Collected(ks, os, today) == [] <==>
            forall i :: 0 <= i < |ks| ==> Contribution(ks[i], os[i], today) == []
  {
    var c := Contributions(ks, os, today);
    assert forall i :: 0 <= i < |ks| ==> c[i] == Contribution(ks[i], os[i], today);
    FlattenEmptyIff(c);
  }

  /** The report is the placeholder when no keyword contributed an item (in
      particular when every query failed or listed nothing), and is the
      collected results as they are otherwise; so the report is the
      placeholder exactly when nothing was collected. */
  lemma ReportFallback(ks: seq<string>, os: seq<Outcome>, today: string)
    requires |ks| == |os|
    ensures (forall i :: 0 <= i < |ks| ==> Contribution(ks[i], os[i], today) == []) ==>
            Report(Collected(ks, os, today)) == [Placeholder]
    ensures (exists i :: 0 <= i < |ks| && Contribution(ks[i], os[i], today) != []) ==>
            Report(Collected(ks, os, today)) == Collected(ks, os, today) != []
    ensures (forall i :: 0 <= i < |os| ==> os[i] == FetchFailed || os[i] == Listing([])) ==>
            Report(Collected(ks, os, today)) == [Placeholder]
    ensures Report(Collected(ks, os, today)) == [Placeholder] <==> Collected(ks, os, today) == []
  {
    CollectedEmptyIff(ks, os, today);
    PlaceholderIsDistinct(ks, os, today);
  }

  /** The placeholder's title "데이터 수집 실패" holds no trigger, so by its
      title it would be GREEN, while the placeholder itself is tagged RED. */
  lemma PlaceholderTitleIsGreen()
    ensures Classify(Placeholder.title) == Green
  {
    NoTriggerInitialIsGreen(Placeholder.title);
  }

  /** Every collected item carries the tier of its own title and the
      placeholder does not, so the placeholder is never a collected item,
      whatever the date. */
  lemma PlaceholderIsDistinct(ks: seq<string>, os: seq<Outcome>, today: string)
    requires |ks| == |os|
    ensures Placeholder !in Collected(ks, os, today)
  {
    CollectedItems(ks, os, today);
    PlaceholderTitleIsGreen();
  }

  /** With the configured keywords the report holds between 1 and 21 items. */
  lemma ConfiguredBound(os: seq<Outcome>, today: string)
    requires |os| == |Keywords|
    ensures 1 <= |Report(Collected(Keywords, os, today))| <= 21
  {
    CollectedBound(Keywords, os, today);
  }

  /** Two keywords, the first one failing and the second listing three linked
      entries: the results are exactly the second keyword's three items. */
  lemma IsolationExample(a: string, b: string, e0: RawEntry, e1: RawEntry, e2: RawEntry, today: string)
    requires e0.href.Some? && e1.href.Some? && e2.href.Some?
    ensures Collected([a, b], [FetchFailed, Listing([e0, e1, e2])], today)
            == [ItemFor(b, e0, today), ItemFor(b, e1, today), ItemFor(b, e2, today)]
  {
    var c := Contributions([a, b], [FetchFailed, Listing([e0, e1, e2])], today);
    assert c == [[], Appended(b, [e0, e1, e2], today)];
    assert Appended(b, [e0, e1, e2], today)
           == [ItemFor(b, e0, today), ItemFor(b, e1, today), ItemFor(b, e2, today)] by {
      assert [e2][1..] == [];
      assert Appended(b, [e2], today) == [ItemFor(b, e2, today)];
      assert [e1, e2][1..] == [e2];
      assert Appended(b, [e1, e2], today) == [ItemFor(b, e1, today), ItemFor(b, e2, today)];
      assert [e0, e1, e2][1..] == [e1, e2];
    }
    assert c[..1] == [[]];
    assert Flatten(c[..1]) == Flatten([]) + [];
  }
}
