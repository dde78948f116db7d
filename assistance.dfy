/** The text extraction and the grouping of
    scraper/diabetes_assistance_scraper.py. A page is given as its text (for
    the sentence filters), as the texts of its paragraphs and its meta
    description (for the description pick); fetching and HTML parsing are
    outside the model. */
module Assistance {
  import opened Text
  import opened Records
  import opened Ordered

  // ---------------------------------------------------------------- sentence filters

  /** `any(keyword in text for keyword in keywords)` */
  predicate Mentions(text: string, keywords: seq<string>)
  {
    exists k :: 0 <= k < |keywords| && Contains(text, keywords[k])
  }

  /** `sentence.strip().capitalize()` */
  function Clean(sentence: string): string
  {
    Capitalize(Strip(sentence))
  }

  /** A sentence is kept when it mentions a keyword and is longer than 20 characters once cleaned. */
  predicate Qualifies(sentence: string, keywords: seq<string>)
  {
    Mentions(sentence, keywords) && |Clean(sentence)| > 20
  }

  /** The cleaned qualifying sentences, in text order. */
  function Kept(sentences: seq<string>, keywords: seq<string>): seq<string>
    decreases |sentences|
  {
    if sentences == [] then []
    else
      var last := sentences[|sentences| - 1];
      Kept(sentences[..|sentences| - 1], keywords) + (if Qualifies(last, keywords) then [Clean(last)] else [])
  }

  /** The extraction loop's step over one more sentence. */
  lemma KeptStep(sentences: seq<string>, keywords: seq<string>, i: nat)
    requires i < |sentences|
    ensures Kept(sentences[..i + 1], keywords) ==
            Kept(sentences[..i], keywords) + (if Qualifies(sentences[i], keywords) then [Clean(sentences[i])] else [])
  {
    assert sentences[..i + 1][..i] == sentences[..i];
  }

  /** `text.lower().split('.')` */
  function Sentences(pageText: string): seq<string>
  {
    Split(Lower(pageText), '.')
  }

  /** The first `limit` kept sentences joined with ". " and closed with ".",
      or the fallback when none was kept. */
  function SentenceSummary(pageText: string, keywords: seq<string>, limit: nat, fallback: string): string
  {
    var kept := Kept(Sentences(pageText), keywords);
    if kept == [] then fallback else Join(Take(kept, limit), ". ") + "."
  }

  /** The loop shared by `_extract_eligibility` and `_extract_application_process`. */
  method ExtractSentences(pageText: string, keywords: seq<string>, limit: nat, fallback: string) returns (r: string)
    ensures r == SentenceSummary(pageText, keywords, limit, fallback)
  {
    var sentences := Split(Lower(pageText), '.');
    var info: seq<string> := [];
    for i := 0 to |sentences|
      invariant info == Kept(sentences[..i], keywords)
    {
      KeptStep(sentences, keywords, i);
      if Mentions(sentences[i], keywords) {
        var clean := Capitalize(Strip(sentences[i]));
        if |clean| > 20 {
          info := info + [clean];
        }
      }
    }
    assert sentences[..|sentences|] == sentences;
    if info != [] {
      return Join(Take(info, limit), ". ") + ".";
    }
    return fallback;
  }

  function EligibilityKeywords(): seq<string>
  {
    ["eligible", "qualify", "income", "uninsured", "requirements"]
  }

  const EligibilityFallback := "Eligibility varies - check website for specific requirements"

  /** `_extract_eligibility`: at most three sentences. */
  method ExtractEligibility(pageText: string) returns (r: string)
    ensures r == SentenceSummary(pageText, EligibilityKeywords(), 3, EligibilityFallback)
  {
    r := ExtractSentences(pageText, EligibilityKeywords(), 3, EligibilityFallback);
  }

  function ApplicationKeywords(): seq<string>
  {
    ["apply", "application", "enroll", "sign up", "register"]
  }

  const ApplicationFallback := "Visit website or contact customer service to apply"

  /** `_extract_application_process`: at most two sentences. */
  method ExtractApplicationProcess(pageText: string) returns (r: string)
    ensures r == SentenceSummary(pageText, ApplicationKeywords(), 2, ApplicationFallback)
  {
    r := ExtractSentences(pageText, ApplicationKeywords(), 2, ApplicationFallback);
  }

  /** The kept sentences are exactly the cleaned qualifying sentences, in
      order: `idx` lists the positions of the qualifying sentences. */
  lemma KeptPositions(sentences: seq<string>, keywords: seq<string>) returns (idx: seq<nat>)
    ensures |idx| == |Kept(sentences, keywords)|
    ensures forall k :: 0 <= k < |idx| ==> idx[k] < |sentences| && Qualifies(sentences[idx[k]], keywords)
                                            && Kept(sentences, keywords)[k] == Clean(sentences[idx[k]])
    ensures forall k, m :: 0 <= k < m < |idx| ==> idx[k] < idx[m]
    ensures forall i :: 0 <= i < |sentences| && Qualifies(sentences[i], keywords) ==> i in idx
  {
    idx := Positions(sentences, keywords);
    PositionsKept(sentences, keywords);
    PositionsIncrease(sentences, keywords);
    PositionsComplete(sentences, keywords);
  }

  /** The positions of the qualifying sentences, in text order. */
  function Positions(sentences: seq<string>, keywords: seq<string>): seq<nat>
    decreases |sentences|
  {
    if sentences == [] then []
    else
      var n := |sentences| - 1;
      Positions(sentences[..n], keywords) + (if Qualifies(sentences[n], keywords) then [n] else [])
  }

  /** The k-th kept sentence is the cleaned sentence at the k-th position. */
  lemma {:induction false} PositionsKept(sentences: seq<string>, keywords: seq<string>)
    ensures |Positions(sentences, keywords)| == |Kept(sentences, keywords)|
    ensures forall k :: 0 <= k < |Positions(sentences, keywords)| ==>
              var i := Positions(sentences, keywords)[k];
              i < |sentences| && Qualifies(sentences[i], keywords) && Kept(sentences, keywords)[k] == Clean(sentences[i])
    decreases |sentences|
  {
    if sentences != [] {
      var n := |sentences| - 1;
      var p := sentences[..n];
      PositionsKept(p, keywords);
      forall k | 0 <= k < |Positions(p, keywords)| ensures p[Positions(p, keywords)[k]] == sentences[Positions(p, keywords)[k]] {
      }
    }
  }

  /** Positions are listed in increasing order, below the number of sentences. */
  lemma {:induction false} PositionsIncrease(sentences: seq<string>, keywords: seq<string>)
    ensures forall k :: 0 <= k < |Positions(sentences, keywords)| ==> Positions(sentences, keywords)[k] < |sentences|
    ensures forall k, m :: 0 <= k < m < |Positions(sentences, keywords)| ==>
              Positions(sentences, keywords)[k] < Positions(sentences, keywords)[m]
    decreases |sentences|
  {
    if sentences != [] {
      PositionsIncrease(sentences[..|sentences| - 1], keywords);
    }
  }

  /** Every qualifying sentence's position is listed. */
  lemma {:induction false} PositionsComplete(sentences: seq<string>, keywords: seq<string>)
    ensures forall i :: 0 <= i < |sentences| && Qualifies(sentences[i], keywords) ==> i in Positions(sentences, keywords)
    decreases |sentences|
  {
    if sentences != [] {
      var n := |sentences| - 1;
      var p := sentences[..n];
      PositionsComplete(p, keywords);
      assert forall i :: 0 <= i < n ==> p[i] == sentences[i];
    }
  }

  /** The fallback is returned exactly when no sentence qualifies; otherwise
      the result ends with "." and is made of at most `limit` kept sentences. */
  lemma SentenceSummaryShape(pageText: string, keywords: seq<string>, limit: nat, fallback: string)
    requires fallback != [] && fallback[|fallback| - 1] != '.'
    ensures var r := SentenceSummary(pageText, keywords, limit, fallback);
            var kept := Kept(Sentences(pageText), keywords);
            && (r == fallback <==> kept == [])
            && (kept != [] ==> r == Join(Take(kept, limit), ". ") + "." && |Take(kept, limit)| <= limit)
  {
  }

  /** Both fallbacks are told apart from a found summary. */
  lemma FallbacksHaveNoStop()
    ensures EligibilityFallback[|EligibilityFallback| - 1] == 's'
    ensures ApplicationFallback[|ApplicationFallback| - 1] == 'y'
  {
  }

  // ---------------------------------------------------------------- description

  function DescriptionKeywords(): seq<string>
  {
    ["assistance", "program", "help", "support", "discount", "afford"]
  }

  const DescriptionLimit: nat := 300
  const DescriptionFallback := "Patient assistance program - visit website for details"

  /** A paragraph qualifies when its lower-cased text mentions a keyword and
      is longer than 50 characters. */
  predicate Descriptive(paragraph: string)
  {
    Mentions(Lower(paragraph), DescriptionKeywords()) && |Lower(paragraph)| > 50
  }

  /** The position of the first qualifying paragraph. */
  function FirstDescriptive(paragraphs: seq<string>): (r: Option<nat>)
    ensures r.Some? ==> r.value < |paragraphs| && Descriptive(paragraphs[r.value])
                        && forall j :: 0 <= j < r.value ==> !Descriptive(paragraphs[j])
    ensures r.None? ==> forall j :: 0 <= j < |paragraphs| ==> !Descriptive(paragraphs[j])
    decreases |paragraphs|
  {
    if paragraphs == [] then None
    else if Descriptive(paragraphs[0]) then Some(0)
    else
      var r := FirstDescriptive(paragraphs[1..]);
      assert forall j :: 1 <= j < |paragraphs| ==> paragraphs[j] == paragraphs[1..][j - 1];
      if r.Some? then Some(r.value + 1) else None
  }

  /** `_extract_description`. `meta` is the meta description tag: `None`
      when the page has none, otherwise its `content` attribute if any. */
  function Description(paragraphs: seq<string>, meta: Option<Option<string>>): string
  {
    match FirstDescriptive(paragraphs)
    case Some(k) => Take(Strip(paragraphs[k]), DescriptionLimit) + "..."
    case None => if meta.Some? then Take(meta.value.GetOr(""), DescriptionLimit) + "..." else DescriptionFallback
  }

  method ExtractDescription(paragraphs: seq<string>, meta: Option<Option<string>>) returns (r: string)
    ensures r == Description(paragraphs, meta)
  {
    for i := 0 to |paragraphs|
      invariant forall j :: 0 <= j < i ==> !Descriptive(paragraphs[j])
    {
      var text := Lower(paragraphs[i]);
      if Mentions(text, DescriptionKeywords()) && |text| > 50 {
        return Take(Strip(paragraphs[i]), DescriptionLimit) + "...";
      }
    }
    if meta.Some? {
      return Take(meta.value.GetOr(""), DescriptionLimit) + "...";
    }
    return DescriptionFallback;
  }

  /** Unless the fallback is returned, a description ends with "...", which
      is appended even when nothing was cut: it is the first at most 300
      characters of its source text followed by "...". */
  lemma DescriptionShape(paragraphs: seq<string>, meta: Option<Option<string>>)
    ensures var r := Description(paragraphs, meta);
            r == DescriptionFallback || (|r| <= DescriptionLimit + 3 && r[|r| - 3..] == "...")
    ensures FirstDescriptive(paragraphs).None? && meta.None? ==> Description(paragraphs, meta) == DescriptionFallback
  {
  }

  /** A short qualifying paragraph is returned whole, stripped, with "..." added. */
  lemma ShortParagraphGetsEllipsis(paragraphs: seq<string>, meta: Option<Option<string>>, k: nat)
    requires k < |paragraphs| && Descriptive(paragraphs[k]) && |Strip(paragraphs[k])| <= DescriptionLimit
    requires forall j :: 0 <= j < k ==> !Descriptive(paragraphs[j])
    ensures Description(paragraphs, meta) == Strip(paragraphs[k]) + "..."
  {
  }

  // ---------------------------------------------------------------- grouping

  /** A program as the scraper records it; `lastUpdated` is absent on the
      entries made for pages that could not be fetched. */
  datatype Program = Program(company: string, category: string, programName: string, url: string,
                             description: string, eligibility: string, howToApply: string,
                             contactInfo: string, scrapedSuccessfully: bool, lastUpdated: Option<string>)

  function Categories(programs: seq<Program>): (cs: seq<string>)
    ensures |cs| == |programs|
    ensures forall i :: 0 <= i < |programs| ==> cs[i] == programs[i].category
  {
    seq(|programs|, i requires 0 <= i < |programs| => programs[i].category)
  }

  /** An insertion-ordered dictionary from category to its programs. */
  type Groups = seq<(string, seq<Program>)>

  /** Where a category sits in the dictionary. */
  function KeyIndex(groups: Groups, c: string): (r: Option<nat>)
    ensures r.Some? ==> r.value < |groups| && groups[r.value].0 == c
    ensures r.None? ==> c !in Keys(groups)
    decreases |groups|
  {
    if groups == [] then None
    else if groups[0].0 == c then Some(0)
    else
      var r := KeyIndex(groups[1..], c);
      assert Keys(groups) == [groups[0].0] + Keys(groups[1..]);
      if r.Some? then Some(r.value + 1) else None
  }

  /** One step of the grouping loop: the program joins its category's list,
      which is created at the end when the category is new. */
  function Place(groups: Groups, p: Program): Groups
  {
    match KeyIndex(groups, p.category)
    case None => groups + [(p.category, [p])]
    case Some(j) => groups[j := (p.category, groups[j].1 + [p])]
  }

  function GroupBy(programs: seq<Program>): Groups
    decreases |programs|
  {
    if programs == [] then [] else Place(GroupBy(programs[..|programs| - 1]), programs[|programs| - 1])
  }

  /** The programs of one category, in input order. */
  function OfCategory(programs: seq<Program>, c: string): seq<Program>
    decreases |programs|
  {
    if programs == [] then []
    else
      var last := programs[|programs| - 1];
      OfCategory(programs[..|programs| - 1], c) + (if last.category == c then [last] else [])
  }

  lemma {:induction false} OfCategoryMembers(programs: seq<Program>, c: string)
    ensures forall p :: p in OfCategory(programs, c) ==> p in programs && p.category == c
    ensures forall p :: p in programs && p.category == c ==> p in OfCategory(programs, c)
    decreases |programs|
  {
    if programs != [] {
      var q := programs[..|programs| - 1];
      OfCategoryMembers(q, c);
      assert programs == q + [programs[|programs| - 1]];
    }
  }

  /** The dictionary built by the grouping loop: its keys are the categories
      in first-seen order, and each key's list is exactly the programs of
      that category in input order, so every program appears once, under its
      own category. */
  lemma {:induction false} GroupByContents(programs: seq<Program>)
    ensures Keys(GroupBy(programs)) == Dedup(Categories(programs))
    ensures forall k :: 0 <= k < |GroupBy(programs)| ==> GroupBy(programs)[k].1 == OfCategory(programs, GroupBy(programs)[k].0)
    decreases |programs|
  {
    if programs != [] {
      var n := |programs| - 1;
      var q := programs[..n];
      GroupByContents(q);
      assert programs == q + [programs[n]];
      PlaceContents(GroupBy(q), q, programs[n]);
    }
  }

  /** One step of the grouping keeps the dictionary in step with the programs seen. */
  lemma PlaceContents(g: Groups, q: seq<Program>, p: Program)
    requires Keys(g) == Dedup(Categories(q))
    requires forall k :: 0 <= k < |g| ==> g[k].1 == OfCategory(q, g[k].0)
    ensures Keys(Place(g, p)) == Dedup(Categories(q + [p]))
    ensures forall k :: 0 <= k < |Place(g, p)| ==> Place(g, p)[k].1 == OfCategory(q + [p], Place(g, p)[k].0)
  {
    assert Categories(q + [p]) == Categories(q) + [p.category];
    DedupSnoc(Categories(q), p.category);
    DedupElements(Categories(q));
    if KeyIndex(g, p.category).None? {
      PlaceNew(g, q, p);
    } else {
      PlaceExisting(g, q, p, KeyIndex(g, p.category).value);
    }
  }

  lemma PlaceNew(g: Groups, q: seq<Program>, p: Program)
    requires KeyIndex(g, p.category).None? && p.category !in Categories(q)
    requires forall k :: 0 <= k < |g| ==> g[k].1 == OfCategory(q, g[k].0)
    ensures Keys(Place(g, p)) == Keys(g) + [p.category]
    ensures forall k :: 0 <= k < |Place(g, p)| ==> Place(g, p)[k].1 == OfCategory(q + [p], Place(g, p)[k].0)
  {
    var g' := Place(g, p);
    assert g' == g + [(p.category, [p])];
    OfCategoryNone(q, p.category);
    forall k | 0 <= k < |g'| ensures g'[k].1 == OfCategory(q + [p], g'[k].0) {
      OfCategorySnoc(q, p, g'[k].0);
      if k < |g| {
        assert g[k].0 in Keys(g);
      }
    }
  }

  lemma PlaceExisting(g: Groups, q: seq<Program>, p: Program, j: nat)
    requires KeyIndex(g, p.category) == Some(j)
    requires Distinct(Keys(g))
    requires forall k :: 0 <= k < |g| ==> g[k].1 == OfCategory(q, g[k].0)
    ensures Keys(Place(g, p)) == Keys(g)
    ensures forall k :: 0 <= k < |Place(g, p)| ==> Place(g, p)[k].1 == OfCategory(q + [p], Place(g, p)[k].0)
  {
    var g' := Place(g, p);
    assert g' == g[j := (p.category, g[j].1 + [p])];
    forall k | 0 <= k < |g'| ensures g'[k].1 == OfCategory(q + [p], g'[k].0) {
      OfCategorySnoc(q, p, g'[k].0);
      if k != j {
        assert Keys(g)[k] == g[k].0 && Keys(g)[j] == g[j].0;
      }
    }
  }

  lemma OfCategorySnoc(q: seq<Program>, p: Program, c: string)
    ensures OfCategory(q + [p], c) == OfCategory(q, c) + (if p.category == c then [p] else [])
  {
    assert (q + [p])[..|q|] == q;
  }

  lemma {:induction false} OfCategoryNone(programs: seq<Program>, c: string)
    requires c !in Categories(programs)
    ensures OfCategory(programs, c) == []
    decreases |programs|
  {
    if programs != [] {
      var q := programs[..|programs| - 1];
      assert Categories(q) == Categories(programs)[..|programs| - 1];
      OfCategoryNone(q, c);
    }
  }

  // ---------------------------------------------------------------- guide

  datatype Section = Section(title: string, description: string, programs: seq<Program>)

  /** The guide's categories in dictionary order, and its fixed heading. */
  datatype Guide = Guide(title: string, lastUpdated: string, categories: seq<(string, Section)>)

  const GuideTitle := "Diabetes Assistance Programs " + "for Uninsured Families"

  /** `category_descriptions`: category, title and description. */
  function CategoryDescriptions(): seq<(string, string, string)>
  {
    [ ("insulin_manufacturers",
       "\U{F0}\U{178}\U{2019}\U{2030} Insulin " + "Assistance Programs",
       "Major insulin " + "manufacturers offer " + "programs that can " + "reduce insulin costs " +
       "to $35/month or " + "even free for " + "qualifying patients."),
      ("cgm_manufacturers",
       "\U{F0}\U{178}\U{201C}\U{B1} CGM " + "Assistance Programs",
       "Continuous glucose " + "monitor companies " + "provide programs to " + "help with device " +
       "and sensor costs."),
      ("pump_manufacturers",
       "\U{E2}\U{161}\U{A1} Insulin " + "Pump Assistance",
       "Pump manufacturers " + "offer financing, " + "loaner programs, " + "and assistance for " +
       "qualifying patients."),
      ("supply_companies",
       "\U{F0}\U{178}\U{201C}\U{A6} Supply " + "Discount Programs",
       "Diabetes supply " + "companies offer " + "discounted rates " + "for uninsured " +
       "patients on test " + "strips, lancets, " + "and other supplies."),
      ("additional_resources",
       "\U{F0}\U{178}\U{201D}\U{2014} Additional " + "Resources",
       "Other organizations " + "and programs that " + "can help reduce " + "diabetes-related costs.")
    ]
  }

  function DescribedIn(table: seq<(string, string, string)>, c: string): (r: Option<(string, string)>)
    decreases |table|
  {
    if table == [] then None
    else if table[0].0 == c then Some((table[0].1, table[0].2))
    else DescribedIn(table[1..], c)
  }

  /** The categories of `keys` that have a description, in order. */
  function DescribedKeys(table: seq<(string, string, string)>, keys: seq<string>): seq<string>
    decreases |keys|
  {
    if keys == [] then []
    else
      var last := keys[|keys| - 1];
      DescribedKeys(table, keys[..|keys| - 1]) + (if DescribedIn(table, last).Some? then [last] else [])
  }

  /** The sections for the groups whose category is described, in dictionary order. */
  function Sections(table: seq<(string, string, string)>, groups: Groups): seq<(string, Section)>
    decreases |groups|
  {
    if groups == [] then []
    else
      var (c, ps) := groups[|groups| - 1];
      Sections(table, groups[..|groups| - 1]) +
        match DescribedIn(table, c)
        case Some(info) => [(c, Section(info.0, info.1, ps))]
        case None => []
  }

  /** Each section is a described group, with the table's texts; the
      section keys are the described group keys in order. */
  lemma SectionsContents(table: seq<(string, string, string)>, groups: Groups)
    ensures Keys(Sections(table, groups)) == DescribedKeys(table, Keys(groups))
    ensures forall k :: 0 <= k < |Sections(table, groups)| ==>
              var (c, s) := Sections(table, groups)[k];
              DescribedIn(table, c) == Some((s.title, s.description)) && (c, s.programs) in groups
  {
    SectionsKeys(table, groups);
    SectionsEach(table, groups);
  }

  /** The section keys are the described group keys, in order. */
  lemma {:induction false} SectionsKeys(table: seq<(string, string, string)>, groups: Groups)
    ensures Keys(Sections(table, groups)) == DescribedKeys(table, Keys(groups))
    decreases |groups|
  {
    if groups != [] {
      var n := |groups| - 1;
      var (c, ps) := groups[n];
      var pre := Sections(table, groups[..n]);
      var last: seq<(string, Section)> := match DescribedIn(table, c) case Some(info) => [(c, Section(info.0, info.1, ps))] case None => [];
      assert Sections(table, groups) == pre + last;
      SectionsKeys(table, groups[..n]);
      assert Keys(pre + last) == Keys(pre) + Keys(last);
      var keys := Keys(groups);
      assert keys[..n] == Keys(groups[..n]);
      assert keys[n] == c;
      assert DescribedKeys(table, keys) == DescribedKeys(table, keys[..n]) + (if DescribedIn(table, c).Some? then [c] else []);
    }
  }

  /** Each section carries its category's texts and that category's group. */
  lemma {:induction false} SectionsEach(table: seq<(string, string, string)>, groups: Groups)
    ensures forall k :: 0 <= k < |Sections(table, groups)| ==>
              var (c, s) := Sections(table, groups)[k];
              DescribedIn(table, c) == Some((s.title, s.description)) && (c, s.programs) in groups
    decreases |groups|
  {
    if groups != [] {
      var n := |groups| - 1;
      var (c, ps) := groups[n];
      var pre := Sections(table, groups[..n]);
      var last: seq<(string, Section)> := match DescribedIn(table, c) case Some(info) => [(c, Section(info.0, info.1, ps))] case None => [];
      assert Sections(table, groups) == pre + last;
      SectionsEach(table, groups[..n]);
      forall k | 0 <= k < |pre + last|
        ensures var (c', s) := (pre + last)[k];
                DescribedIn(table, c') == Some((s.title, s.description)) && (c', s.programs) in groups
      {
        if k < |pre| {
          assert (pre + last)[k] == pre[k];
          assert (pre[k].0, pre[k].1.programs) in groups[..n];
        } else {
          assert (pre + last)[k] == last[0];
        }
      }
    }
  }

  /** `generate_assistance_guide`: the grouping loop, then one section per
      described category. */
  method GenerateAssistanceGuide(programs: seq<Program>, today: string) returns (guide: Guide)
    ensures guide == Guide(GuideTitle, today, Sections(CategoryDescriptions(), GroupBy(programs)))
  {
    var byCategory := GroupPrograms(programs);
    var categories := DescribedSections(CategoryDescriptions(), byCategory);
    guide := Guide(GuideTitle, today, categories);
  }

  /** The grouping loop: each program is appended to its category's list,
      which is created empty the first time the category is seen. */
  method GroupPrograms(programs: seq<Program>) returns (byCategory: Groups)
    ensures byCategory == GroupBy(programs)
  {
    byCategory := [];
    for i := 0 to |programs|
      invariant byCategory == GroupBy(programs[..i])
    {
      assert programs[..i + 1][..i] == programs[..i];
      ghost var before := byCategory;
      var category := programs[i].category;
      var j := KeyIndex(byCategory, category);
      if j.None? {
        byCategory := byCategory + [(category, [])];
        j := Some(|byCategory| - 1);
      }
      byCategory := byCategory[j.value := (category, byCategory[j.value].1 + [programs[i]])];
      assert byCategory == Place(before, programs[i]) by {
        if KeyIndex(before, category).None? {
          assert j.value == |before| && [] + [programs[i]] == [programs[i]];
          assert byCategory == before + [(category, [programs[i]])];
        }
      }
    }
    assert programs[..|programs|] == programs;
  }

  /** The section loop: one section per described category, in dictionary order. */
  method DescribedSections(table: seq<(string, string, string)>, byCategory: Groups)
    returns (categories: seq<(string, Section)>)
    ensures categories == Sections(table, byCategory)
  {
    categories := [];
    for k := 0 to |byCategory|
      invariant categories == Sections(table, byCategory[..k])
    {
      assert byCategory[..k + 1][..k] == byCategory[..k];
      var (category, list) := byCategory[k];
      var info := DescribedIn(table, category);
      if info.Some? {
        categories := categories + [(category, Section(info.value.0, info.value.1, list))];
      }
    }
    assert byCategory[..|byCategory|] == byCategory;
  }

  /** The guide's categories are exactly the input categories that are
      described, in first-seen order; each holds exactly the programs of its
      category in input order; a program of any other category is in no
      section. */
  lemma GuideCategories(programs: seq<Program>, table: seq<(string, string, string)>)
    ensures var sections := Sections(table, GroupBy(programs));
            && Keys(sections) == DescribedKeys(table, Dedup(Categories(programs)))
            && (forall k :: 0 <= k < |sections| ==> sections[k].1.programs == OfCategory(programs, sections[k].0))
            && (forall p, k :: p in programs && DescribedIn(table, p.category).None? && 0 <= k < |sections|
                  ==> p !in sections[k].1.programs)
  {
    var groups := GroupBy(programs);
    var sections := Sections(table, groups);
    GroupByContents(programs);
    SectionsContents(table, groups);
    forall k | 0 <= k < |sections| ensures sections[k].1.programs == OfCategory(programs, sections[k].0) {
      var (c, s) := sections[k];
      var g :| g in groups && g == (c, s.programs);
      var m :| 0 <= m < |groups| && groups[m] == g;
    }
    forall p, k | p in programs && DescribedIn(table, p.category).None? && 0 <= k < |sections|
      ensures p !in sections[k].1.programs
    {
      var (c, s) := sections[k];
      OfCategoryMembers(programs, c);
      assert DescribedIn(table, c).Some?;
    }
  }

  // ---------------------------------------------------------------- counts

  /** The per-category counts printed by `main`: they add up to the number of programs. */
  method CountByCategory(programs: seq<Program>) returns (counts: Counter<string>)
    ensures counts == Tally(Categories(programs))
    ensures Total(counts) == |programs|
    ensures Keys(counts) == Dedup(Categories(programs))
  {
    counts := [];
    for i := 0 to |programs|
      invariant counts == Tally(Categories(programs[..i]))
    {
      assert Categories(programs[..i + 1]) == Categories(programs[..i]) + [programs[i].category];
      TallySnoc(Categories(programs[..i]), programs[i].category);
      counts := Bump(counts, programs[i].category);
    }
    assert programs[..|programs|] == programs;
    TallyCounts(Categories(programs));
  }
}
