/** Digest assembly of scraper/medical_scraper.py: one news item per record,
    the stable sort by the four-part key, the top five, the fixed special
    articles, and the duplicate-free trial list. */
module Digest {
  import opened Text
  import opened Records
  import opened Ordered
  import opened Classifier
  import opened Narrator

  const DefaultRank: int := 999
  const DigestSize: nat := 5
  const Heading := "\U{F0}\U{178}\U{201D}\U{AC} What This Means for Families:"

  // ---------------------------------------------------------------- one item

  /** The fixed explanation given to items of type "news". */
  function NewsDetails(source: string): string
  {
    "This exciting news from " + source + " brings hope " + "and important " + "updates for " +
      "families managing " + "Type 1 Diabetes. " + "Stay informed " + "about the " +
      "latest developments " + "that could " + "impact your " + "daily life " + "and future " +
      "treatment " + "options."
  }

  /** `generate_breaking_news_item`. `hexDigest` stands for the hexadecimal
      MD5 digest of a string; `summarize` and `explain` are the narrator's
      family summary and detailed explanation, which the workflow supplies
      (see `ItemOf`). */
  function GenerateItem(a: Article, hexDigest: string -> string,
                        summarize: Article -> string, explain: Article -> string): NewsItem
  {
    var isNews := a.kind == Some("news");
    var summary := if isNews then a.summary.GetOr("") else summarize(a);
    var details := if isNews then NewsDetails(a.source.GetOr("reliable sources")) else explain(a);
    NewsItem(
      Take(hexDigest(a.url.GetOr("")), 8),
      BadgeFor(a),
      a.title.GetOr("No title available"),
      summary,
      Heading,
      details,
      Meta(a.published.GetOr(a.date.GetOr("")), a.phase.GetOr("Research"), a.status.GetOr("Published"),
           a.priority.GetOr("MEDIUM"), a.stage.GetOr(ResearchStage(a)), a.researchType.GetOr(ResearchType(a))),
      a.link.GetOr(a.url.GetOr("#")),
      a.special.GetOr(false),
      a.excitementRank.GetOr(DefaultRank))
  }

  /** The id is at most eight characters of the digest of the url (missing url
      read as ""), so records with equal urls get equal ids. */
  lemma ItemId(a: Article, b: Article, hexDigest: string -> string,
               summarize: Article -> string, explain: Article -> string)
    ensures var id := GenerateItem(a, hexDigest, summarize, explain).id;
      |id| <= 8 && id == hexDigest(a.url.GetOr(""))[..|id|]
      && (|hexDigest(a.url.GetOr(""))| >= 8 ==> |id| == 8)
    ensures a.url.GetOr("") == b.url.GetOr("") ==>
      GenerateItem(a, hexDigest, summarize, explain).id == GenerateItem(b, hexDigest, summarize, explain).id
  {
  }

  /** A stage or research type already on the record is kept; otherwise the
      computed one, always one of the stage and type labels, is used. */
  lemma ItemClassification(a: Article, hexDigest: string -> string,
                           summarize: Article -> string, explain: Article -> string)
    ensures var m := GenerateItem(a, hexDigest, summarize, explain).meta;
      (a.stage.Some? ==> m.stage == a.stage.value) && (a.stage.None? ==> m.stage in StageLabels)
      && (a.researchType.Some? ==> m.researchType == a.researchType.value)
      && (a.researchType.None? ==> m.researchType in TypeLabels)
    ensures GenerateItem(a, hexDigest, summarize, explain).badge == BadgeFor(a)
  {
    StageIsLabel(a);
    TypeIsLabel(a);
  }

  /** News items carry their own summary uncut and the fixed news
      explanation; every other item gets the narrator's texts. */
  lemma ItemTexts(a: Article, hexDigest: string -> string,
                  summarize: Article -> string, explain: Article -> string)
    ensures var n := GenerateItem(a, hexDigest, summarize, explain);
      && (a.kind == Some("news") ==>
            n.summary == a.summary.GetOr("") && n.details == NewsDetails(a.source.GetOr("reliable sources")))
      && (a.kind != Some("news") ==> n.summary == summarize(a) && n.details == explain(a))
      && n.heading == Heading
  {
  }

  /** The link falls back to the url and then to "#"; the publication date to
      the date and then to ""; the rank to 999; missing special means not special. */
  lemma ItemDefaults(a: Article, hexDigest: string -> string,
                     summarize: Article -> string, explain: Article -> string)
    ensures var n := GenerateItem(a, hexDigest, summarize, explain);
      && (a.link.None? && a.url.None? ==> n.link == "#")
      && (a.link.None? && a.url.Some? ==> n.link == a.url.value)
      && (a.published.None? && a.date.None? ==> n.meta.published == "")
      && (a.excitementRank.None? ==> n.excitementRank == DefaultRank)
      && (a.special.None? ==> !n.special)
      && (a.title.None? ==> n.title == "No title available")
  {
  }

  /** The part of an item the ranking reads comes from the record alone. */
  lemma ItemKey(a: Article, hexDigest: string -> string,
                summarize: Article -> string, explain: Article -> string)
    ensures KeyOf(GenerateItem(a, hexDigest, summarize, explain)) == ArticleKey(a)
  {
  }

  // ---------------------------------------------------------------- ranking

  /** `(excitement_rank, not special, priority rank, published)` */
  datatype SortKey = SortKey(rank: int, notSpecial: bool, priority: nat, published: string)

  /** `{'HIGH': 0, 'MEDIUM': 1, 'LOW': 2}.get(priority, 1)` */
  function PriorityRank(p: string): (r: nat)
    ensures r <= 2
    ensures r == 0 <==> p == "HIGH"
    ensures r == 2 <==> p == "LOW"
  {
    if p == "HIGH" then 0 else if p == "LOW" then 2 else 1
  }

  function KeyOf(n: NewsItem): SortKey
  {
    SortKey(n.excitementRank, !n.special, PriorityRank(n.meta.priority), n.meta.published)
  }

  /** The key the item built from record a gets: the rank (999 when missing),
      whether it is not special, the priority rank (MEDIUM when missing) and
      the publication date (the date, or "", when missing). */
  function ArticleKey(a: Article): SortKey
  {
    SortKey(a.excitementRank.GetOr(DefaultRank), !a.special.GetOr(false),
            PriorityRank(a.priority.GetOr("MEDIUM")), a.published.GetOr(a.date.GetOr("")))
  }

  predicate BoolLess(a: bool, b: bool)
  {
    !a && b
  }

  /** Python's tuple order on the key: lexicographic, False before True,
      strings by code point. */
  predicate KeyLess(a: SortKey, b: SortKey)
  {
    a.rank < b.rank || (a.rank == b.rank &&
      (BoolLess(a.notSpecial, b.notSpecial) || (a.notSpecial == b.notSpecial &&
        (a.priority < b.priority || (a.priority == b.priority && StrLess(a.published, b.published))))))
  }

  lemma KeyLessIrreflexive(a: SortKey)
    ensures !KeyLess(a, a)
  {
    StrLessIrreflexive(a.published);
  }

  lemma KeyLessTransitive(a: SortKey, b: SortKey, c: SortKey)
    requires KeyLess(a, b) && KeyLess(b, c)
    ensures KeyLess(a, c)
  {
    if a.rank == b.rank == c.rank && a.notSpecial == b.notSpecial == c.notSpecial && a.priority == b.priority == c.priority {
      StrLessTransitive(a.published, b.published, c.published);
    }
  }

  lemma KeyLessTotal(a: SortKey, b: SortKey)
    ensures a == b || KeyLess(a, b) || KeyLess(b, a)
  {
    StrLessTotal(a.published, b.published);
  }

  /** b is not ranked before a. */
  predicate KeyLeq(a: SortKey, b: SortKey)
  {
    !KeyLess(b, a)
  }

  lemma KeyLeqLessTransitive(a: SortKey, b: SortKey, c: SortKey)
    requires KeyLess(a, b) && KeyLeq(b, c)
    ensures KeyLess(a, c)
  {
    KeyLessTotal(b, c);
    if b != c { KeyLessTransitive(a, b, c); }
  }

  predicate Sorted(s: seq<NewsItem>)
  {
    forall i, j :: 0 <= i < j < |s| ==> KeyLeq(KeyOf(s[i]), KeyOf(s[j]))
  }

  /** x goes before the first element ranked strictly after it, so after
      every element with an equal key. */
  function Insert(s: seq<NewsItem>, x: NewsItem): (r: seq<NewsItem>)
    ensures multiset(r) == multiset(s) + multiset{x}
    ensures |r| == |s| + 1
  {
    if s == [] then [x]
    else if KeyLess(KeyOf(x), KeyOf(s[0])) then [x] + s
    else
      assert s == [s[0]] + s[1..];
      [s[0]] + Insert(s[1..], x)
  }

  /** `list.sort(key=KeyOf)`: a stable sort, written as insertion of each item in turn. */
  function SortItems(s: seq<NewsItem>): (r: seq<NewsItem>)
    ensures multiset(r) == multiset(s)
    ensures |r| == |s|
  {
    if s == [] then []
    else
      assert s == s[..|s| - 1] + [s[|s| - 1]];
      Insert(SortItems(s[..|s| - 1]), s[|s| - 1])
  }

  lemma {:induction false} InsertSorted(s: seq<NewsItem>, x: NewsItem)
    requires Sorted(s)
    ensures Sorted(Insert(s, x))
    decreases |s|
  {
    if s == [] {
    } else if KeyLess(KeyOf(x), KeyOf(s[0])) {
      forall y | y in s ensures KeyLeq(KeyOf(x), KeyOf(y)) {
        var k :| 0 <= k < |s| && s[k] == y;
        if k > 0 { KeyLeqLessTransitive(KeyOf(x), KeyOf(s[0]), KeyOf(s[k])); }
        KeyLessNotBoth(KeyOf(x), KeyOf(s[k]));
      }
      ConsSorted(x, s);
    } else {
      SortedTail(s);
      InsertSorted(s[1..], x);
      var t := Insert(s[1..], x);
      forall y | y in t ensures KeyLeq(KeyOf(s[0]), KeyOf(y)) {
        assert y in multiset(s[1..]) + multiset{x};
        if y != x { assert y in s[1..]; }
      }
      ConsSorted(s[0], t);
    }
  }

  /** An item ranked no later than everything in a sorted list can go in
      front of it. */
  lemma ConsSorted(h: NewsItem, t: seq<NewsItem>)
    requires Sorted(t)
    requires forall y :: y in t ==> KeyLeq(KeyOf(h), KeyOf(y))
    ensures Sorted([h] + t)
  {
    var r := [h] + t;
    forall i, j | 0 <= i < j < |r| ensures KeyLeq(KeyOf(r[i]), KeyOf(r[j])) {
      assert r[j] == t[j - 1];
      if i == 0 { assert t[j - 1] in t; } else { assert r[i] == t[i - 1]; }
    }
  }

  /** A sorted list without its first item is sorted, and the first item is
      ranked no later than the rest. */
  lemma SortedTail(s: seq<NewsItem>)
    requires Sorted(s) && s != []
    ensures Sorted(s[1..])
    ensures forall y :: y in s[1..] ==> KeyLeq(KeyOf(s[0]), KeyOf(y))
  {
    forall y | y in s[1..] ensures KeyLeq(KeyOf(s[0]), KeyOf(y)) {
      var k :| 0 <= k < |s| - 1 && s[1..][k] == y;
      assert s[k + 1] == y;
    }
    forall i, j | 0 <= i < j < |s| - 1 ensures KeyLeq(KeyOf(s[1..][i]), KeyOf(s[1..][j])) {
      assert s[1..][i] == s[i + 1] && s[1..][j] == s[j + 1];
    }
  }

  lemma KeyLessNotBoth(a: SortKey, b: SortKey)
    requires KeyLess(a, b)
    ensures !KeyLess(b, a)
  {
    if KeyLess(b, a) {
      KeyLessTransitive(a, b, a);
      KeyLessIrreflexive(a);
    }
  }

  lemma {:induction false} SortItemsSorted(s: seq<NewsItem>)
    ensures Sorted(SortItems(s))
    decreases |s|
  {
    if s != [] {
      SortItemsSorted(s[..|s| - 1]);
      InsertSorted(SortItems(s[..|s| - 1]), s[|s| - 1]);
    }
  }

  /** The items of s with key k, in order. */
  function WithKey(s: seq<NewsItem>, k: SortKey): (r: seq<NewsItem>)
    ensures forall x :: x in r ==> x in s && KeyOf(x) == k
  {
    if s == [] then []
    else (if KeyOf(s[0]) == k then [s[0]] else []) + WithKey(s[1..], k)
  }

  lemma {:induction false} WithKeyAppend(a: seq<NewsItem>, b: seq<NewsItem>, k: SortKey)
    ensures WithKey(a + b, k) == WithKey(a, k) + WithKey(b, k)
    decreases |a|
  {
    if a != [] {
      var ab := a + b;
      assert ab[0] == a[0];
      assert ab[1..] == a[1..] + b;
      WithKeyAppend(a[1..], b, k);
      assert WithKey(ab, k) == (if KeyOf(a[0]) == k then [a[0]] else []) + WithKey(ab[1..], k);
      assert WithKey(a, k) == (if KeyOf(a[0]) == k then [a[0]] else []) + WithKey(a[1..], k);
    } else {
      assert a + b == b;
    }
  }

  /** Nothing in a sorted list that starts above k has key k. */
  lemma {:induction false} WithKeyAbove(s: seq<NewsItem>, k: SortKey)
    requires Sorted(s) && s != [] && KeyLess(k, KeyOf(s[0]))
    ensures WithKey(s, k) == []
    decreases |s|
  {
    KeyLessIrreflexive(k);
    if |s| > 1 {
      KeyLeqLessTransitive(k, KeyOf(s[0]), KeyOf(s[1]));
      WithKeyAbove(s[1..], k);
    }
  }

  lemma {:induction false} WithKeyInsert(s: seq<NewsItem>, x: NewsItem, k: SortKey)
    requires Sorted(s)
    ensures WithKey(Insert(s, x), k) == WithKey(s, k) + (if KeyOf(x) == k then [x] else [])
    decreases |s|
  {
    if s == [] {
    } else if KeyLess(KeyOf(x), KeyOf(s[0])) {
      if KeyOf(x) == k { WithKeyAbove(s, k); }
      assert ([x] + s)[1..] == s;
    } else {
      WithKeyInsert(s[1..], x, k);
      assert ([s[0]] + Insert(s[1..], x))[1..] == Insert(s[1..], x);
    }
  }

  /** The sort is stable: the items sharing a key keep their input order. */
  lemma {:induction false} SortItemsStable(s: seq<NewsItem>, k: SortKey)
    ensures WithKey(SortItems(s), k) == WithKey(s, k)
    decreases |s|
  {
    if s != [] {
      var p, x := s[..|s| - 1], s[|s| - 1];
      assert s == p + [x];
      SortSnoc(p, x);
      SortItemsStable(p, k);
      SortItemsSorted(p);
      WithKeyInsert(SortItems(p), x, k);
      WithKeyOne(x, k);
      WithKeyAppend(p, [x], k);
    }
  }

  lemma WithKeyOne(x: NewsItem, k: SortKey)
    ensures WithKey([x], k) == if KeyOf(x) == k then [x] else []
  {
    assert [x][1..] == [];
  }

  /** `breaking_news[:5]` after the sort. */
  function Top(items: seq<NewsItem>): (digest: seq<NewsItem>)
  {
    var sorted := SortItems(items);
    if |sorted| <= DigestSize then sorted else sorted[..DigestSize]
  }

  /** The digest holds min(5, n) items, drawn from the input and sorted, and
      none of the items left out ranks before an item kept. */
  lemma TopIsTopFive(items: seq<NewsItem>)
    ensures |Top(items)| == if |items| < DigestSize then |items| else DigestSize
    ensures Sorted(Top(items))
    ensures multiset(Top(items)) <= multiset(items)
    ensures forall i, j :: 0 <= i < |Top(items)| <= j < |SortItems(items)| ==>
              KeyLeq(KeyOf(Top(items)[i]), KeyOf(SortItems(items)[j]))
  {
    var sorted := SortItems(items);
    SortItemsSorted(items);
    if |sorted| > DigestSize {
      SortedPrefix(sorted, DigestSize);
      PrefixMultiset(sorted, DigestSize);
    }
  }

  /** A prefix of a sorted list is sorted and ranks no lower than the rest. */
  lemma SortedPrefix(s: seq<NewsItem>, n: nat)
    requires Sorted(s) && n <= |s|
    ensures Sorted(s[..n])
    ensures forall i, j :: 0 <= i < n <= j < |s| ==> KeyLeq(KeyOf(s[..n][i]), KeyOf(s[j]))
  {
    assert forall i :: 0 <= i < n ==> s[..n][i] == s[i];
  }

  lemma PrefixMultiset<T>(s: seq<T>, n: nat)
    requires n <= |s|
    ensures multiset(s[..n]) <= multiset(s)
  {
    assert s == s[..n] + s[n..];
  }

  // ---------------------------------------------------------------- special articles

  /** The Eledon record's title. */
  function EledonTitle(): string
  {
    "Eledon Pharmaceuticals " + "Breakthrough: " + "Tegoprubart " + "Shows Promise " +
      "for Type 1 " + "Diabetes Treatment"
  }

  /** The Eledon article: no excitement rank. */
  function EledonArticle(): Article
  {
    Article(
      /* title */ Some(EledonTitle()),
      /* abstractText */ Some("Eledon Pharmaceuticals " + "is making " + "waves with " +
        "tegoprubart, " + "an anti-CD40L " + "antibody that " + "targets the " + "immune system " +
        "processes " + "involved in " + "autoimmune " + "diseases like " + "Type 1 Diabetes. " +
        "While primarily " + "being tested " + "for organ " + "transplant " + "rejection, " +
        "the mechanism " + "of action " + "has significant " + "implications " + "for preventing " +
        "the autoimmune " + "destruction " + "of insulin-producing " + "beta cells " + "in Type 1 " +
        "Diabetes patients."),
      /* summary */ None,
      /* source */ Some("Eledon Pharmaceuticals"),
      /* phase */ None,
      /* status */ None,
      /* priority */ Some("HIGH"),
      /* kind */ None,
      /* url */ Some("https://eledon.com/"),
      /* link */ None,
      /* published */ None,
      /* date */ Some("December 2024"),
      /* special */ Some(true),
      /* stage */ Some("Clinical Trials"),
      /* researchType */ Some("Treatment"),
      /* excitementRank */ None)
  }

  /** The FDA approval record's title. */
  function FdaApprovalTitle(): string
  {
    "FDA Approves " + "New Ultra-Fast " + "Insulin for " + "Type 1 Diabetes " +
      "- Available " + "Now!"
  }

  /** Excitement rank 1. */
  function FdaApprovalArticle(): Article
  {
    Article(
      /* title */ Some(FdaApprovalTitle()),
      /* abstractText */ Some("The FDA has " + "approved a " + "new ultra-fast-acting " +
        "insulin that " + "starts working " + "in just 15 " + "minutes, compared " +
        "to 30 minutes " + "for current " + "fast-acting " + "insulins. " + "This means " +
        "better blood " + "sugar control " + "after meals " + "and more flexibility " + "in timing " +
        "meals and " + "insulin doses. " + "Many families " + "are already " + "seeing improved " +
        "A1C levels " + "and fewer " + "high blood " + "sugar episodes."),
      /* summary */ None,
      /* source */ Some("FDA News Release"),
      /* phase */ None,
      /* status */ None,
      /* priority */ Some("HIGH"),
      /* kind */ None,
      /* url */ Some("https://" + "www.fda.gov/" + "news-events/" + "press-" + "announcements/" +
        "fda-approves-" + "ultra-fast-" + "acting-insulin-" + "type-1-diabetes"),
      /* link */ None,
      /* published */ None,
      /* date */ Some("October 2025"),
      /* special */ Some(true),
      /* stage */ Some("Approved"),
      /* researchType */ Some("Treatment"),
      /* excitementRank */ Some(1))
  }

  /** The stem cell record's title. */
  function StemCellTitle(): string
  {
    "Revolutionary " + "Stem Cell " + "Therapy Shows " + "90% Success " +
      "Rate in Early " + "Trials"
  }

  /** Excitement rank 2. */
  function StemCellArticle(): Article
  {
    Article(
      /* title */ Some(StemCellTitle()),
      /* abstractText */ Some("A groundbreaking " + "stem cell " + "therapy has " + "shown remarkable " +
        "results in " + "early clinical " + "trials, with " + "90% of participants " + "achieving " +
        "insulin independence " + "for over 2 " + "years. The " + "therapy uses " + "the patient's " +
        "own stem cells " + "to regenerate " + "insulin-producing " + "cells, potentially " +
        "offering a " + "functional " + "cure for Type " + "1 Diabetes. " + "Phase 3 trials " +
        "are set to " + "begin next " + "year."),
      /* summary */ None,
      /* source */ Some("Nature Medicine"),
      /* phase */ None,
      /* status */ None,
      /* priority */ Some("HIGH"),
      /* kind */ None,
      /* url */ Some("https://" + "www.nature.com/" + "articles/stem-" + "cell-diabetes-" + "breakthrough"),
      /* link */ None,
      /* published */ None,
      /* date */ Some("October 2025"),
      /* special */ Some(true),
      /* stage */ Some("Clinical Trials"),
      /* researchType */ Some("Cure"),
      /* excitementRank */ Some(2))
  }

  /** The prevention record's title. */
  function PreventionTitle(): string
  {
    "Breakthrough: " + "Scientists " + "Discover How " + "to Prevent " +
      "Type 1 Diabetes " + "Before It " + "Starts"
  }

  /** Excitement rank 3. */
  function PreventionArticle(): Article
  {
    Article(
      /* title */ Some(PreventionTitle()),
      /* abstractText */ Some("Researchers " + "have identified " + "a way to prevent " +
        "Type 1 Diabetes " + "in people " + "at high risk " + "by using a " + "simple medication " +
        "that stops " + "the immune " + "system from " + "attacking " + "insulin-producing " +
        "cells. In " + "a 5-year study, " + "85% of high-risk " + "participants " + "who took the " +
        "medication " + "did not develop " + "diabetes, " + "compared to " + "only 15% in " +
        "the control " + "group. This " + "could mean " + "the end of " + "Type 1 Diabetes " +
        "for future " + "generations."),
      /* summary */ None,
      /* source */ Some("NIH Research"),
      /* phase */ None,
      /* status */ None,
      /* priority */ Some("HIGH"),
      /* kind */ None,
      /* url */ Some("https://" + "www.nih.gov/" + "news-events/" + "news-releases/" + "diabetes-" + "prevention-" + "breakthrough"),
      /* link */ None,
      /* published */ None,
      /* date */ Some("October 2025"),
      /* special */ Some(true),
      /* stage */ Some("Clinical Trials"),
      /* researchType */ Some("Prevention"),
      /* excitementRank */ Some(3))
  }

  /** The smart pump record's title. */
  function SmartPumpTitle(): string
  {
    "New Smart " + "Insulin Pump " + "Automatically " + "Adjusts for " +
      "Exercise and " + "Stress"
  }

  /** Excitement rank 4. */
  function SmartPumpArticle(): Article
  {
    Article(
      /* title */ Some(SmartPumpTitle()),
      /* abstractText */ Some("The latest " + "smart insulin " + "pump uses " + "AI to predict " +
        "blood sugar " + "changes and " + "automatically " + "adjust insulin " + "delivery. " +
        "It can detect " + "when you're " + "exercising, " + "stressed, " + "or sick, and " +
        "make real-time " + "adjustments " + "to keep blood " + "sugar stable. " + "Early users " +
        "report 40% " + "fewer low " + "blood sugar " + "episodes and " + "much better " +
        "overnight " + "control."),
      /* summary */ None,
      /* source */ Some("Medtronic Innovation"),
      /* phase */ None,
      /* status */ None,
      /* priority */ Some("HIGH"),
      /* kind */ None,
      /* url */ Some("https://" + "www.medtronic.com/" + "smart-pump-ai"),
      /* link */ None,
      /* published */ None,
      /* date */ Some("September 2025"),
      /* special */ Some(true),
      /* stage */ Some("Available"),
      /* researchType */ Some("Technology"),
      /* excitementRank */ Some(4))
  }

  /** The five hand-authored articles, in the order they are added. */
  function SpecialArticles(): seq<Article>
  {
    [EledonArticle(), FdaApprovalArticle(), StemCellArticle(), PreventionArticle(), SmartPumpArticle()]
  }

  /** The Eledon title holds no "lo" in any case. */
  lemma EledonTitleWithoutLo()
    ensures NoCasedPair(EledonTitle(), 'l', 'L', 'o', 'O')
  {
    assert NoCasedPair("Eledon Pharmaceuticals ", 'l', 'L', 'o', 'O');
    assert NoCasedPair("Breakthrough: ", 'l', 'L', 'o', 'O');
    NoCasedPairJoin("Eledon Pharmaceuticals ", "Breakthrough: ", 'l', 'L', 'o', 'O');
    assert NoCasedPair("Tegoprubart ", 'l', 'L', 'o', 'O');
    NoCasedPairJoin("Eledon Pharmaceuticals " + "Breakthrough: ", "Tegoprubart ", 'l', 'L', 'o', 'O');
    assert NoCasedPair("Shows Promise ", 'l', 'L', 'o', 'O');
    NoCasedPairJoin("Eledon Pharmaceuticals " + "Breakthrough: " + "Tegoprubart ", "Shows Promise ", 'l', 'L', 'o', 'O');
    assert NoCasedPair("for Type 1 ", 'l', 'L', 'o', 'O');
    NoCasedPairJoin("Eledon Pharmaceuticals " + "Breakthrough: " + "Tegoprubart " + "Shows Promise ", "for Type 1 ", 'l', 'L', 'o', 'O');
    assert NoCasedPair("Diabetes Treatment", 'l', 'L', 'o', 'O');
    NoCasedPairJoin("Eledon Pharmaceuticals " + "Breakthrough: " + "Tegoprubart " + "Shows Promise " + "for Type 1 ", "Diabetes Treatment", 'l', 'L', 'o', 'O');
  }

  /** The FDA approval title holds no "lo" in any case. */
  lemma FdaApprovalTitleWithoutLo()
    ensures NoCasedPair(FdaApprovalTitle(), 'l', 'L', 'o', 'O')
  {
    assert NoCasedPair("FDA Approves ", 'l', 'L', 'o', 'O');
    assert NoCasedPair("New Ultra-Fast ", 'l', 'L', 'o', 'O');
    NoCasedPairJoin("FDA Approves ", "New Ultra-Fast ", 'l', 'L', 'o', 'O');
    assert NoCasedPair("Insulin for ", 'l', 'L', 'o', 'O');
    NoCasedPairJoin("FDA Approves " + "New Ultra-Fast ", "Insulin for ", 'l', 'L', 'o', 'O');
    assert NoCasedPair("Type 1 Diabetes ", 'l', 'L', 'o', 'O');
    NoCasedPairJoin("FDA Approves " + "New Ultra-Fast " + "Insulin for ", "Type 1 Diabetes ", 'l', 'L', 'o', 'O');
    assert NoCasedPair("- Available ", 'l', 'L', 'o', 'O');
    NoCasedPairJoin("FDA Approves " + "New Ultra-Fast " + "Insulin for " + "Type 1 Diabetes ", "- Available ", 'l', 'L', 'o', 'O');
    assert NoCasedPair("Now!", 'l', 'L', 'o', 'O');
    NoCasedPairJoin("FDA Approves " + "New Ultra-Fast " + "Insulin for " + "Type 1 Diabetes " + "- Available ", "Now!", 'l', 'L', 'o', 'O');
  }

  /** The stem cell title holds no "lo" in any case. */
  lemma StemCellTitleWithoutLo()
    ensures NoCasedPair(StemCellTitle(), 'l', 'L', 'o', 'O')
  {
    assert NoCasedPair("Revolutionary ", 'l', 'L', 'o', 'O');
    assert NoCasedPair("Stem Cell ", 'l', 'L', 'o', 'O');
    NoCasedPairJoin("Revolutionary ", "Stem Cell ", 'l', 'L', 'o', 'O');
    assert NoCasedPair("Therapy Shows ", 'l', 'L', 'o', 'O');
    NoCasedPairJoin("Revolutionary " + "Stem Cell ", "Therapy Shows ", 'l', 'L', 'o', 'O');
    assert NoCasedPair("90% Success ", 'l', 'L', 'o', 'O');
    NoCasedPairJoin("Revolutionary " + "Stem Cell " + "Therapy Shows ", "90% Success ", 'l', 'L', 'o', 'O');
    assert NoCasedPair("Rate in Early ", 'l', 'L', 'o', 'O');
    NoCasedPairJoin("Revolutionary " + "Stem Cell " + "Therapy Shows " + "90% Success ", "Rate in Early ", 'l', 'L', 'o', 'O');
    assert NoCasedPair("Trials", 'l', 'L', 'o', 'O');
    NoCasedPairJoin("Revolutionary " + "Stem Cell " + "Therapy Shows " + "90% Success " + "Rate in Early ", "Trials", 'l', 'L', 'o', 'O');
  }

  /** The prevention title holds no "lo" in any case. */
  lemma PreventionTitleWithoutLo()
    ensures NoCasedPair(PreventionTitle(), 'l', 'L', 'o', 'O')
  {
    assert NoCasedPair("Breakthrough: ", 'l', 'L', 'o', 'O');
    assert NoCasedPair("Scientists ", 'l', 'L', 'o', 'O');
    NoCasedPairJoin("Breakthrough: ", "Scientists ", 'l', 'L', 'o', 'O');
    assert NoCasedPair("Discover How ", 'l', 'L', 'o', 'O');
    NoCasedPairJoin("Breakthrough: " + "Scientists ", "Discover How ", 'l', 'L', 'o', 'O');
    assert NoCasedPair("to Prevent ", 'l', 'L', 'o', 'O');
    NoCasedPairJoin("Breakthrough: " + "Scientists " + "Discover How ", "to Prevent ", 'l', 'L', 'o', 'O');
    assert NoCasedPair("Type 1 Diabetes ", 'l', 'L', 'o', 'O');
    NoCasedPairJoin("Breakthrough: " + "Scientists " + "Discover How " + "to Prevent ", "Type 1 Diabetes ", 'l', 'L', 'o', 'O');
    assert NoCasedPair("Before It ", 'l', 'L', 'o', 'O');
    NoCasedPairJoin("Breakthrough: " + "Scientists " + "Discover How " + "to Prevent " + "Type 1 Diabetes ", "Before It ", 'l', 'L', 'o', 'O');
    assert NoCasedPair("Starts", 'l', 'L', 'o', 'O');
    NoCasedPairJoin("Breakthrough: " + "Scientists " + "Discover How " + "to Prevent " + "Type 1 Diabetes " + "Before It ", "Starts", 'l', 'L', 'o', 'O');
  }

  /** The smart pump title holds no "lo" in any case. */
  lemma SmartPumpTitleWithoutLo()
    ensures NoCasedPair(SmartPumpTitle(), 'l', 'L', 'o', 'O')
  {
    assert NoCasedPair("New Smart ", 'l', 'L', 'o', 'O');
    assert NoCasedPair("Insulin Pump ", 'l', 'L', 'o', 'O');
    NoCasedPairJoin("New Smart ", "Insulin Pump ", 'l', 'L', 'o', 'O');
    assert NoCasedPair("Automatically ", 'l', 'L', 'o', 'O');
    NoCasedPairJoin("New Smart " + "Insulin Pump ", "Automatically ", 'l', 'L', 'o', 'O');
    assert NoCasedPair("Adjusts for ", 'l', 'L', 'o', 'O');
    NoCasedPairJoin("New Smart " + "Insulin Pump " + "Automatically ", "Adjusts for ", 'l', 'L', 'o', 'O');
    assert NoCasedPair("Exercise and ", 'l', 'L', 'o', 'O');
    NoCasedPairJoin("New Smart " + "Insulin Pump " + "Automatically " + "Adjusts for ", "Exercise and ", 'l', 'L', 'o', 'O');
    assert NoCasedPair("Stress", 'l', 'L', 'o', 'O');
    NoCasedPairJoin("New Smart " + "Insulin Pump " + "Automatically " + "Adjusts for " + "Exercise and ", "Stress", 'l', 'L', 'o', 'O');
  }

  /** No special title holds "lo" in any case. */
  lemma SpecialTitlesWithoutLo()
    ensures forall a :: a in SpecialArticles() ==> NoCasedPair(a.title.GetOr(""), 'l', 'L', 'o', 'O')
  {
    EledonTitleWithoutLo();
    FdaApprovalTitleWithoutLo();
    StemCellTitleWithoutLo();
    PreventionTitleWithoutLo();
    SmartPumpTitleWithoutLo();
  }

  /** Every special record gets the generic special explanation: the Eledon
      explanation is never chosen, since no special title holds "elon". */
  lemma SpecialGetsGenericExplanation(a: Article)
    requires a in SpecialArticles()
    ensures DetailedExplanation(a) == SpecialExplanation()
  {
    SpecialTitlesWithoutLo();
    SpecialArticlesRanked();
    SpecialWithoutLo(a);
  }

  // ---------------------------------------------------------------- workflow

  /** The conversion the workflow applies: the item generator with the
      narrator's family summary and detailed explanation. */
  function ItemOf(hexDigest: string -> string, summarize: Article -> string,
                  explain: Article -> string): Article -> NewsItem
  {
    a => GenerateItem(a, hexDigest, summarize, explain)
  }

  function Items(articles: seq<Article>, hexDigest: string -> string): (items: seq<NewsItem>)
  {
    MapSeq(articles, ItemOf(hexDigest, FamilySummary, DetailedExplanation))
  }

  /** The conversion loop: one item per record, in record order. */
  method GenerateItems(articles: seq<Article>, convert: Article -> NewsItem) returns (items: seq<NewsItem>)
    ensures items == MapSeq(articles, convert)
  {
    items := [];
    for i := 0 to |articles|
      invariant items == MapSeq(articles[..i], convert)
    {
      items := items + [convert(articles[i])];
    }
    assert articles[..|articles|] == articles;
  }

  /** `run_scraping_workflow` on already scraped record lists: exciting news,
      PubMed and journal articles, then the special articles, each turned
      into an item, sorted, and cut to five. */
  method RunScrapingWorkflow(news: seq<Article>, pubmed: seq<Article>, journals: seq<Article>,
                             hexDigest: string -> string) returns (digest: seq<NewsItem>)
    ensures digest == Top(Items(news + pubmed + journals + SpecialArticles(), hexDigest))
  {
    var all := news + pubmed + journals + SpecialArticles();
    var breaking := GenerateItems(all, ItemOf(hexDigest, FamilySummary, DetailedExplanation));
    digest := Top(breaking);
  }

  /** Inserting an item ranked before everything in `rest` never looks past `front`. */
  lemma {:induction false} InsertBeforeRest(front: seq<NewsItem>, rest: seq<NewsItem>, x: NewsItem)
    requires forall y :: y in rest ==> KeyLess(KeyOf(x), KeyOf(y))
    ensures Insert(front + rest, x) == Insert(front, x) + rest
    decreases |front|
  {
    if front == [] {
      assert front + rest == rest;
      if rest != [] { assert rest[0] in rest; }
    } else {
      var fr := front + rest;
      assert fr[0] == front[0];
      assert fr[1..] == front[1..] + rest;
      if KeyLess(KeyOf(x), KeyOf(front[0])) {
        assert Insert(fr, x) == [x] + fr;
        assert Insert(front, x) == [x] + front;
      } else {
        InsertBeforeRest(front[1..], rest, x);
        assert Insert(fr, x) == [front[0]] + Insert(fr[1..], x);
        assert Insert(front, x) == [front[0]] + Insert(front[1..], x);
      }
    }
  }

  /** Items all ranked before every item of `a`, appended after `a`, are
      sorted to the front. */
  lemma {:induction false} SortAppendLower(a: seq<NewsItem>, b: seq<NewsItem>)
    requires forall x, y :: x in b && y in a ==> KeyLess(KeyOf(x), KeyOf(y))
    ensures SortItems(a + b) == SortItems(b) + SortItems(a)
    decreases |b|
  {
    if b == [] {
      assert a + b == a;
    } else {
      var p, x := b[..|b| - 1], b[|b| - 1];
      assert b == p + [x];
      assert a + b == (a + p) + [x];
      forall x', y | x' in p && y in a ensures KeyLess(KeyOf(x'), KeyOf(y)) {
        assert x' in b;
      }
      SortAppendLower(a, p);
      assert x in b;
      SortedBelow(x, a);
      InsertBeforeRest(SortItems(p), SortItems(a), x);
      SortSnoc(a + p, x);
      SortSnoc(p, x);
    }
  }

  /** The sort inserts the last item into the sorted rest. */
  lemma SortSnoc(s: seq<NewsItem>, x: NewsItem)
    ensures SortItems(s + [x]) == Insert(SortItems(s), x)
  {
    assert (s + [x])[..|s|] == s;
  }

  /** An item ranked before every item of a list is ranked before every item of its sort. */
  lemma SortedBelow(x: NewsItem, a: seq<NewsItem>)
    requires forall y :: y in a ==> KeyLess(KeyOf(x), KeyOf(y))
    ensures forall y :: y in SortItems(a) ==> KeyLess(KeyOf(x), KeyOf(y))
  {
    forall y | y in SortItems(a) ensures KeyLess(KeyOf(x), KeyOf(y)) {
      assert y in multiset(SortItems(a));
    }
  }

  /** Inserting an item ranked no lower than everything already there appends it. */
  lemma {:induction false} InsertLast(s: seq<NewsItem>, x: NewsItem)
    requires forall y :: y in s ==> KeyLeq(KeyOf(y), KeyOf(x))
    ensures Insert(s, x) == s + [x]
    decreases |s|
  {
    if s != [] {
      assert s[0] in s;
      forall y | y in s[1..] ensures KeyLeq(KeyOf(y), KeyOf(x)) {
        assert y in s;
      }
      InsertLast(s[1..], x);
      assert s == [s[0]] + s[1..];
    }
  }

  /** Sorting a sorted list leaves it as it is. */
  lemma {:induction false} SortSorted(s: seq<NewsItem>)
    requires Sorted(s)
    ensures SortItems(s) == s
    decreases |s|
  {
    if s != [] {
      var p, x := s[..|s| - 1], s[|s| - 1];
      assert s == p + [x];
      SortSnoc(p, x);
      SortedInit(s);
      SortSorted(p);
      InsertLast(p, x);
    }
  }

  /** A sorted list without its last item is sorted and ranked no lower
      than it. */
  lemma SortedInit(s: seq<NewsItem>)
    requires Sorted(s) && s != []
    ensures Sorted(s[..|s| - 1])
    ensures forall y :: y in s[..|s| - 1] ==> KeyLeq(KeyOf(y), KeyOf(s[|s| - 1]))
  {
    SortedPrefix(s, |s| - 1);
    forall y | y in s[..|s| - 1] ensures KeyLeq(KeyOf(y), KeyOf(s[|s| - 1])) {
      var i :| 0 <= i < |s| - 1 && s[..|s| - 1][i] == y;
      assert KeyLeq(KeyOf(s[..|s| - 1][i]), KeyOf(s[|s| - 1]));
    }
  }

  /** What the ranking reads of five records: ranks 999, 1, 2, 3 and 4,
      and the special flag on each. */
  predicate RankedSpecials(specials: seq<Article>)
  {
    && |specials| == 5
    && specials[0].excitementRank.GetOr(DefaultRank) == DefaultRank
    && specials[1].excitementRank == Some(1) && specials[2].excitementRank == Some(2)
    && specials[3].excitementRank == Some(3) && specials[4].excitementRank == Some(4)
    && forall i :: 0 <= i < 5 ==> specials[i].special == Some(true)
  }

  /** The hand-authored articles are ranked that way. */
  lemma SpecialArticlesRanked()
    ensures RankedSpecials(SpecialArticles())
  {
  }

  /** The items a scraper produces: rank 999 or more and not special. */
  predicate Ordinary(n: NewsItem)
  {
    n.excitementRank >= DefaultRank && !n.special
  }

  /** A special item of rank 999 sorts before every ordinary one. */
  lemma {:induction false} SpecialBeforeOrdinary(rest: seq<NewsItem>, x: NewsItem)
    requires forall y :: y in rest ==> Ordinary(y)
    requires x.excitementRank == DefaultRank && x.special
    ensures SortItems(rest + [x]) == [x] + SortItems(rest)
  {
    forall x', y | x' in [x] && y in rest ensures KeyLess(KeyOf(x'), KeyOf(y)) {
      assert Ordinary(y);
    }
    SortAppendLower(rest, [x]);
    assert SortItems([x]) == Insert([], x) by { assert [x][..0] == []; }
  }

  /** Four items ranked 1 to 4 after such a list come first, in rank order. */
  lemma {:induction false} RankedBeforeRest(front: seq<NewsItem>, s: seq<NewsItem>)
    requires forall y :: y in front ==> y.excitementRank >= DefaultRank
    requires |s| == 4 && forall i :: 0 <= i < 4 ==> s[i].excitementRank == i + 1
    ensures SortItems(front + s) == s + SortItems(front)
  {
    forall x, y | x in s && y in front ensures KeyLess(KeyOf(x), KeyOf(y)) {
      var i :| 0 <= i < 4 && s[i] == x;
      assert KeyOf(x).rank < KeyOf(y).rank;
    }
    SortAppendLower(front, s);
    RanksSorted(s);
    SortSorted(s);
  }

  /** Items ranked 1 to 4, in that order, are sorted. */
  lemma RanksSorted(s: seq<NewsItem>)
    requires |s| == 4 && forall i :: 0 <= i < 4 ==> s[i].excitementRank == i + 1
    ensures Sorted(s)
  {
    forall i, j | 0 <= i < j < |s| ensures KeyLeq(KeyOf(s[i]), KeyOf(s[j])) {
      assert KeyOf(s[i]).rank < KeyOf(s[j]).rank;
      KeyLessNotBoth(KeyOf(s[i]), KeyOf(s[j]));
    }
  }

  /** The same condition on the items built from them. */
  predicate RankedSpecialItems(s: seq<NewsItem>)
  {
    && |s| == 5
    && s[0].excitementRank == DefaultRank && s[0].special
    && forall i :: 1 <= i < 5 ==> s[i].excitementRank == i
  }

  /** Five such items appended after ordinary ones take the whole digest:
      ranks 1 to 4 in order, then the rank-999 special one. */
  lemma RankedSpecialsFirst(rest: seq<NewsItem>, s: seq<NewsItem>)
    requires forall y :: y in rest ==> Ordinary(y)
    requires RankedSpecialItems(s)
    ensures Top(rest + s) == s[1..] + [s[0]]
  {
    assert rest + s == (rest + [s[0]]) + s[1..];
    SpecialBeforeOrdinary(rest, s[0]);
    forall y | y in rest + [s[0]] ensures y.excitementRank >= DefaultRank {
      if y in rest { assert Ordinary(y); }
    }
    RankedBeforeRest(rest + [s[0]], s[1..]);
    assert SortItems(rest + s) == s[1..] + ([s[0]] + SortItems(rest));
    assert (s[1..] + ([s[0]] + SortItems(rest)))[..DigestSize] == s[1..] + [s[0]];
  }

  /** The item conversion gives every item the key of its record. */
  lemma ItemOfKeepsKey(hexDigest: string -> string, summarize: Article -> string, explain: Article -> string)
    ensures forall a :: KeyOf(ItemOf(hexDigest, summarize, explain)(a)) == ArticleKey(a)
  {
    forall a ensures KeyOf(ItemOf(hexDigest, summarize, explain)(a)) == ArticleKey(a) {
      ItemKey(a, hexDigest, summarize, explain);
    }
  }

  /** Whenever the scraped records are ordinary (no rank below 999 and no
      special flag, as the scrapers produce them) and the specials are
      ranked as the hand-authored ones are, the digest is exactly the
      specials' items: ranks 1 to 4 in order, then the unranked one. Stated
      for any conversion that keeps each record's key, as `ItemOf` does. */
  lemma SpecialsTakeTheDigest(scraped: seq<Article>, specials: seq<Article>, convert: Article -> NewsItem)
    requires forall a :: KeyOf(convert(a)) == ArticleKey(a)
    requires forall a :: a in scraped ==> a.excitementRank.GetOr(DefaultRank) >= DefaultRank && !a.special.GetOr(false)
    requires RankedSpecials(specials)
    ensures Top(MapSeq(scraped + specials, convert)) == MapSeq(specials[1..] + [specials[0]], convert)
  {
    var s, rest := MapSeq(specials, convert), MapSeq(scraped, convert);
    MapSeqAppend(scraped, specials, convert);
    forall y | y in rest ensures Ordinary(y) {
      var j :| 0 <= j < |rest| && rest[j] == y;
      assert scraped[j] in scraped;
    }
    assert KeyOf(s[0]) == ArticleKey(specials[0]);
    forall i | 1 <= i < 5 ensures s[i].excitementRank == i {
      assert KeyOf(s[i]) == ArticleKey(specials[i]);
    }
    RankedSpecialsFirst(rest, s);
    MapSeqAppend(specials[1..], [specials[0]], convert);
    assert MapSeq(specials[1..], convert) == s[1..];
  }

  /** So the workflow's digest, for ordinary scraped records, is the items of
      the FDA approval, stem cell, prevention and smart pump articles, then
      the Eledon article, whatever texts the items are given: with the
      narrator's `FamilySummary` and `DetailedExplanation` this is the digest
      `RunScrapingWorkflow` returns (`Items` is that conversion). */
  lemma OrdinaryScrapeDigest(scraped: seq<Article>, hexDigest: string -> string,
                             summarize: Article -> string, explain: Article -> string)
    requires forall a :: a in scraped ==> a.excitementRank.GetOr(DefaultRank) >= DefaultRank && !a.special.GetOr(false)
    ensures var specials, convert := SpecialArticles(), ItemOf(hexDigest, summarize, explain);
      Top(MapSeq(scraped + specials, convert)) == MapSeq(specials[1..] + [specials[0]], convert)
  {
    ItemOfKeepsKey(hexDigest, summarize, explain);
    SpecialArticlesRanked();
    SpecialsTakeTheDigest(scraped, SpecialArticles(), ItemOf(hexDigest, summarize, explain));
  }

  // ---------------------------------------------------------------- trials

  /** The studies of every response, in order. */
  function AllStudies(responses: seq<seq<Study>>): seq<Study>
  {
    if responses == [] then [] else AllStudies(responses[..|responses| - 1]) + responses[|responses| - 1]
  }

  function ProcessAll(studies: seq<Study>): (ts: seq<Trial>)
    ensures |ts| == |studies|
    ensures forall i :: 0 <= i < |studies| ==> ts[i] == ProcessTrial(studies[i])
  {
    seq(|studies|, i requires 0 <= i < |studies| => ProcessTrial(studies[i]))
  }

  /** The collection loop of `scrape_clinical_trials` over the responses of
      every search term: each processed trial is appended unless an equal
      record is already in the list. */
  method CollectTrials(responses: seq<seq<Study>>) returns (trials: seq<Trial>)
    ensures trials == Dedup(ProcessAll(AllStudies(responses)))
    ensures Distinct(trials)
    ensures forall t :: t in trials <==> t in ProcessAll(AllStudies(responses))
  {
    trials := [];
    for i := 0 to |responses|
      invariant trials == Dedup(ProcessAll(AllStudies(responses[..i])))
    {
      ghost var done := AllStudies(responses[..i]);
      assert done + responses[i][..0] == done;
      for j := 0 to |responses[i]|
        invariant trials == Dedup(ProcessAll(done + responses[i][..j]))
      {
        var t := ProcessTrial(responses[i][j]);
        ghost var before := done + responses[i][..j];
        TakeOneMore(done, responses[i], j);
        ProcessAllSnoc(before, responses[i][j]);
        DedupSnoc(ProcessAll(before), t);
        if t !in trials {
          trials := trials + [t];
        }
      }
      assert responses[i][..|responses[i]|] == responses[i];
      AllStudiesSnoc(responses, i);
    }
    assert responses[..|responses|] == responses;
    DedupElements(ProcessAll(AllStudies(responses)));
  }

  lemma TakeOneMore<T>(done: seq<T>, s: seq<T>, j: nat)
    requires j < |s|
    ensures done + s[..j + 1] == (done + s[..j]) + [s[j]]
  {
    assert s[..j + 1] == s[..j] + [s[j]];
  }

  lemma ProcessAllSnoc(studies: seq<Study>, s: Study)
    ensures ProcessAll(studies + [s]) == ProcessAll(studies) + [ProcessTrial(s)]
  {
  }

  lemma AllStudiesSnoc(responses: seq<seq<Study>>, i: nat)
    requires i < |responses|
    ensures AllStudies(responses[..i + 1]) == AllStudies(responses[..i]) + responses[i]
  {
    assert responses[..i + 1][..i] == responses[..i];
  }
}
