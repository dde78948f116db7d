/** The quality checks of scraper/monitor.py. File existence, file age, the
    website probe and the update-time probe are outside the model: their
    outcomes are parameters (`None` when a probe passes, otherwise the issue
    it records), and the data file's contents are given already parsed. */
module Monitor {
  import opened Records
  import opened Ordered

  /** The keys the checks look up in a data item. */
  datatype Field = TitleField | SummaryField | BadgeField | MetaField | LinkField

  function FieldName(f: Field): string
  {
    match f
    case TitleField => "title"
    case SummaryField => "summary"
    case BadgeField => "badge"
    case MetaField => "meta"
    case LinkField => "link"
  }

  /** `f in item` */
  predicate Present(e: Entry, f: Field)
  {
    match f
    case TitleField => e.title.Some?
    case SummaryField => e.summary.Some?
    case BadgeField => e.badge.Some?
    case MetaField => e.meta.Some?
    case LinkField => e.link.Some?
  }

  /** `f in item and item[f]`: present and not empty. */
  predicate Truthy(e: Entry, f: Field)
  {
    match f
    case TitleField => e.title.Some? && e.title.value != ""
    case SummaryField => e.summary.Some? && e.summary.value != ""
    case BadgeField => e.badge.Some? && e.badge.value != ""
    case MetaField => e.meta.Some? && e.meta.value != map[]
    case LinkField => e.link.Some? && e.link.value != ""
  }

  /** The fields the health check requires, in the order it tests them. */
  function HealthFields(): seq<Field>
  {
    [TitleField, SummaryField, BadgeField, MetaField]
  }

  /** The fields an item must have, and have non-empty, to be valid. */
  function ValidFields(): seq<Field>
  {
    [TitleField, SummaryField, BadgeField, MetaField, LinkField]
  }

  // ---------------------------------------------------------------- validity

  /** `_is_valid_item` */
  predicate IsValidItem(e: Entry)
  {
    && (forall i :: 0 <= i < |ValidFields()| ==> Truthy(e, ValidFields()[i]))
    && |e.title.GetOr("")| >= 10
    && |e.summary.GetOr("")| >= 20
  }

  /** An item is valid exactly when it has a title of at least 10 characters,
      a summary of at least 20, and a non-empty badge, meta and link. */
  lemma IsValidItemIff(e: Entry)
    ensures IsValidItem(e) <==>
      && e.title.Some? && |e.title.value| >= 10
      && e.summary.Some? && |e.summary.value| >= 20
      && e.badge.Some? && e.badge.value != ""
      && e.meta.Some? && e.meta.value != map[]
      && e.link.Some? && e.link.value != ""
  {
    var fs := ValidFields();
    if e.title.Some? && |e.title.value| >= 10 && e.summary.Some? && |e.summary.value| >= 20 {
      assert e.title.value != "" && e.summary.value != "";
    }
    if IsValidItem(e) {
      assert Truthy(e, fs[0]) && Truthy(e, fs[1]) && Truthy(e, fs[2]) && Truthy(e, fs[3]) && Truthy(e, fs[4]);
    }
  }

  /** A valid item has every field the health check asks for. */
  lemma ValidItemIsComplete(e: Entry)
    requires IsValidItem(e)
    ensures forall j :: 0 <= j < |HealthFields()| ==> Present(e, HealthFields()[j])
  {
    var fs := ValidFields();
    assert Truthy(e, fs[0]) && Truthy(e, fs[1]) && Truthy(e, fs[2]) && Truthy(e, fs[3]);
  }

  // ---------------------------------------------------------------- health check

  /** The parsed data file, or the error raised while reading it. */
  datatype Content = Parsed(data: seq<Entry>) | Failed(error: string)

  /** The first field of `fields` the item lacks. */
  function MissingIn(e: Entry, fields: seq<Field>): (r: Option<Field>)
    ensures r.Some? ==> r.value in fields && !Present(e, r.value)
    ensures r.None? <==> forall j :: 0 <= j < |fields| ==> Present(e, fields[j])
    decreases |fields|
  {
    if fields == [] then None
    else if !Present(e, fields[0]) then Some(fields[0])
    else
      var r := MissingIn(e, fields[1..]);
      assert forall j :: 1 <= j < |fields| ==> fields[j] == fields[1..][j - 1];
      r
  }

  function MissingMessage(f: Field): string
  {
    "Missing required field '" + FieldName(f) + "' in data item"
  }

  /** The issue for the first item that lacks a required field. */
  function FirstMissing(data: seq<Entry>): Option<string>
    decreases |data|
  {
    if data == [] then None
    else match MissingIn(data[0], HealthFields())
      case Some(f) => Some(MissingMessage(f))
      case None => FirstMissing(data[1..])
  }

  const NoData := "No breaking news data found"

  /** The issue `check_scraper_health` records, or `None` when it passes. */
  function HealthProblem(found: bool, staleAge: Option<string>, content: Content): Option<string>
  {
    if !found then Some("Breaking news data file not found")
    else if staleAge.Some? then Some("Data file is " + staleAge.value + " old - scraper may not be running")
    else match content
      case Failed(error) => Some("Error reading data file: " + error)
      case Parsed(data) => if data == [] then Some(NoData) else FirstMissing(data)
  }

  /** Loaded data passes exactly when it is non-empty and every item has
      every required field. */
  lemma {:induction false} FirstMissingNone(data: seq<Entry>)
    ensures FirstMissing(data) == None <==>
            forall i, j :: 0 <= i < |data| && 0 <= j < |HealthFields()| ==> Present(data[i], HealthFields()[j])
    decreases |data|
  {
    if data != [] {
      FirstMissingNone(data[1..]);
      assert forall i :: 1 <= i < |data| ==> data[i] == data[1..][i - 1];
    }
  }

  /** It fails at the first incomplete item, naming its first missing field,
      however the items after it look. */
  lemma {:induction false} FirstMissingPicks(data: seq<Entry>, i: nat, j: nat)
    requires i < |data| && j < |HealthFields()|
    requires forall k :: 0 <= k < i ==> MissingIn(data[k], HealthFields()) == None
    requires forall m :: 0 <= m < j ==> Present(data[i], HealthFields()[m])
    requires !Present(data[i], HealthFields()[j])
    ensures FirstMissing(data) == Some(MissingMessage(HealthFields()[j]))
    decreases i
  {
    if i > 0 {
      assert MissingIn(data[0], HealthFields()) == None;
      assert forall k :: 0 <= k < i - 1 ==> data[1..][k] == data[k + 1];
      FirstMissingPicks(data[1..], i - 1, j);
    } else {
      MissingInPicks(data[0], HealthFields(), j);
    }
  }

  lemma {:induction false} MissingInPicks(e: Entry, fields: seq<Field>, j: nat)
    requires j < |fields| && !Present(e, fields[j])
    requires forall m :: 0 <= m < j ==> Present(e, fields[m])
    ensures MissingIn(e, fields) == Some(fields[j])
    decreases j
  {
    if j > 0 {
      assert forall m :: 0 <= m < j - 1 ==> fields[1..][m] == fields[m + 1];
      MissingInPicks(e, fields[1..], j - 1);
    }
  }

  /** Data whose every item is valid passes the health check when there is some. */
  lemma ValidDataIsHealthy(data: seq<Entry>)
    requires data != [] && forall i :: 0 <= i < |data| ==> IsValidItem(data[i])
    ensures HealthProblem(true, None, Parsed(data)) == None
  {
    forall i | 0 <= i < |data| ensures forall j :: 0 <= j < |HealthFields()| ==> Present(data[i], HealthFields()[j]) {
      ValidItemIsComplete(data[i]);
    }
    FirstMissingNone(data);
  }

  // ---------------------------------------------------------------- data quality

  /** The dictionary `check_data_quality` returns; `sources` is keyed by the
      meta phase. */
  datatype Quality = Quality(totalItems: nat, validItems: nat, issues: seq<string>,
                             sources: Counter<string>, priorities: Counter<string>,
                             badges: Counter<string>)

  function CountValid(data: seq<Entry>): (n: nat)
    ensures n <= |data|
    decreases |data|
  {
    if data == [] then 0
    else CountValid(data[..|data| - 1]) + (if IsValidItem(data[|data| - 1]) then 1 else 0)
  }

  /** One issue per invalid item, in list order. */
  function InvalidIssues(data: seq<Entry>): seq<string>
    decreases |data|
  {
    if data == [] then []
    else
      var e := data[|data| - 1];
      InvalidIssues(data[..|data| - 1]) + (if IsValidItem(e) then [] else ["Invalid item: " + e.title.GetOr("Unknown")])
  }

  /** A counting loop's step over one more item. */
  lemma QualityStep(data: seq<Entry>, i: nat)
    requires i < |data|
    ensures CountValid(data[..i + 1]) == CountValid(data[..i]) + (if IsValidItem(data[i]) then 1 else 0)
    ensures InvalidIssues(data[..i + 1]) ==
            InvalidIssues(data[..i]) + (if IsValidItem(data[i]) then [] else ["Invalid item: " + data[i].title.GetOr("Unknown")])
  {
    assert data[..i + 1][..i] == data[..i];
  }

  /** The pass over the items of `check_data_quality`: the valid ones are
      counted, each invalid one is reported, and every item bumps the three
      counters. */
  method ScanItems(data: seq<Entry>)
    returns (valid: nat, found: seq<string>, sources: Counter<string>, priorities: Counter<string>, badges: Counter<string>)
    ensures valid == CountValid(data) && found == InvalidIssues(data)
    ensures Counts(data) == (sources, priorities, badges)
  {
    valid, found, sources, priorities, badges := 0, [], [], [], [];
    for i := 0 to |data|
      invariant valid == CountValid(data[..i])
      invariant found == InvalidIssues(data[..i])
      invariant Counts(data[..i]) == (sources, priorities, badges)
    {
      QualityStep(data, i);
      CountsStep(data, i);
      if IsValidItem(data[i]) {
        valid := valid + 1;
      } else {
        found := found + ["Invalid item: " + data[i].title.GetOr("Unknown")];
      }
      sources := Bump(sources, SourceOf(data[i]));
      priorities := Bump(priorities, PriorityOf(data[i]));
      badges := Bump(badges, BadgeOf(data[i]));
    }
    assert data[..|data|] == data;
  }

  const LowSourceDiversity := "Low source diversity"
  const LowPriorityDiversity := "Low priority diversity"

  /** The diversity issues for the two counters. */
  function DiversityIssues(sources: Counter<string>, priorities: Counter<string>): seq<string>
  {
    (if |sources| < 2 then [LowSourceDiversity] else []) + (if |priorities| < 2 then [LowPriorityDiversity] else [])
  }

  function DataQuality(content: Content): Quality
  {
    match content
    case Failed(error) => Quality(0, 0, ["Error checking data quality: " + error], [], [], [])
    case Parsed(data) =>
      var sources := Tally(MapSeq(data, SourceOf));
      var priorities := Tally(MapSeq(data, PriorityOf));
      Quality(|data|, CountValid(data), InvalidIssues(data) + DiversityIssues(sources, priorities),
              sources, priorities, Tally(MapSeq(data, BadgeOf)))
  }

  /** The counts of a quality report: at most every item is valid, and each
      counter counts every item once. */
  lemma QualityCounts(data: seq<Entry>)
    ensures var q := DataQuality(Parsed(data));
            && q.validItems <= q.totalItems == |data|
            && Total(q.sources) == Total(q.priorities) == Total(q.badges) == q.totalItems
            && Keys(q.sources) == Dedup(MapSeq(data, SourceOf))
            && Keys(q.priorities) == Dedup(MapSeq(data, PriorityOf))
            && Keys(q.badges) == Dedup(MapSeq(data, BadgeOf))
  {
    TallyCounts(MapSeq(data, SourceOf));
    TallyCounts(MapSeq(data, PriorityOf));
    TallyCounts(MapSeq(data, BadgeOf));
  }

  /** "Low source diversity" is reported exactly when fewer than two distinct
      phases occur, and "Low priority diversity" exactly when fewer than two
      distinct priorities occur; they come after the invalid-item issues. */
  lemma DiversityIff(data: seq<Entry>)
    ensures var q := DataQuality(Parsed(data));
            var phases := set x | x in MapSeq(data, SourceOf);
            var priorities := set x | x in MapSeq(data, PriorityOf);
            && q.issues == InvalidIssues(data)
                 + (if |phases| < 2 then [LowSourceDiversity] else [])
                 + (if |priorities| < 2 then [LowPriorityDiversity] else [])
            && (LowSourceDiversity in q.issues <==> |phases| < 2)
            && (LowPriorityDiversity in q.issues <==> |priorities| < 2)
  {
    TallySize(MapSeq(data, SourceOf));
    TallySize(MapSeq(data, PriorityOf));
    InvalidIssuesShape(data);
  }

  /** Every invalid-item issue starts with "Invalid item: ", so none of them
      is a diversity issue. */
  lemma {:induction false} InvalidIssuesShape(data: seq<Entry>)
    ensures LowSourceDiversity !in InvalidIssues(data) && LowPriorityDiversity !in InvalidIssues(data)
    decreases |data|
  {
    if data != [] {
      InvalidIssuesShape(data[..|data| - 1]);
      var m := "Invalid item: " + data[|data| - 1].title.GetOr("Unknown");
      assert m[0] == 'I';
      assert LowSourceDiversity[0] == 'L' && LowPriorityDiversity[0] == 'L';
    }
  }

  /** Every item is valid exactly when no invalid-item issue is raised. */
  lemma AllValidIff(data: seq<Entry>)
    ensures CountValid(data) == |data| <==> InvalidIssues(data) == []
    ensures CountValid(data) == |data| <==> forall i :: 0 <= i < |data| ==> IsValidItem(data[i])
  {
    AllValidCount(data);
    NoIssuesAllValid(data);
  }

  /** The count is the length exactly when every item is valid. */
  lemma {:induction false} AllValidCount(data: seq<Entry>)
    ensures CountValid(data) == |data| <==> forall i :: 0 <= i < |data| ==> IsValidItem(data[i])
    decreases |data|
  {
    if data != [] {
      var p := data[..|data| - 1];
      AllValidCount(p);
      assert forall i :: 0 <= i < |p| ==> p[i] == data[i];
    }
  }

  /** No issue is raised exactly when every item is valid. */
  lemma {:induction false} NoIssuesAllValid(data: seq<Entry>)
    ensures InvalidIssues(data) == [] <==> forall i :: 0 <= i < |data| ==> IsValidItem(data[i])
    decreases |data|
  {
    if data != [] {
      var p := data[..|data| - 1];
      NoIssuesAllValid(p);
      assert forall i :: 0 <= i < |p| ==> p[i] == data[i];
    }
  }

  // ---------------------------------------------------------------- overall status

  datatype Status = HEALTHY | WARNING | CRITICAL

  /** The status rule of `generate_health_report`. */
  function OverallStatus(scraperHealth: bool, websiteAvailability: bool, recentUpdates: bool,
                         qualityIssues: seq<string>): Status
  {
    if !scraperHealth || !websiteAvailability then CRITICAL
    else if !recentUpdates || qualityIssues != [] then WARNING
    else HEALTHY
  }

  /** Each status, characterised by the check outcomes. */
  lemma StatusIff(h: bool, w: bool, r: bool, qi: seq<string>)
    ensures OverallStatus(h, w, r, qi) == CRITICAL <==> !h || !w
    ensures OverallStatus(h, w, r, qi) == WARNING <==> h && w && (!r || qi != [])
    ensures OverallStatus(h, w, r, qi) == HEALTHY <==> h && w && r && qi == []
  {
  }

  datatype HealthReport = HealthReport(timestamp: string, scraperHealth: bool, websiteAvailability: bool,
                                       recentUpdates: bool, dataQuality: Quality, issues: seq<string>,
                                       overallStatus: Status)

  /** The issue a probe records, as a list. */
  function IssueList(problem: Option<string>): seq<string>
  {
    if problem.Some? then [problem.value] else []
  }

  class ScraperMonitor {
    var issues: seq<string>

    constructor()
      ensures issues == []
    {
      issues := [];
    }

    /** `check_scraper_health`: the file probes, then the required-field loop. */
    method CheckScraperHealth(found: bool, staleAge: Option<string>, content: Content) returns (ok: bool)
      modifies this
      ensures ok <==> HealthProblem(found, staleAge, content) == None
      ensures issues == old(issues) + IssueList(HealthProblem(found, staleAge, content))
    {
      if !found {
        issues := issues + ["Breaking news data file not found"];
        return false;
      }
      if staleAge.Some? {
        issues := issues + ["Data file is " + staleAge.value + " old - scraper may not be running"];
        return false;
      }
      if content.Failed? {
        issues := issues + ["Error reading data file: " + content.error];
        return false;
      }
      var data := content.data;
      if data == [] {
        issues := issues + [NoData];
        return false;
      }
      var fields := HealthFields();
      assert data[0..] == data;
      for i := 0 to |data|
        invariant FirstMissing(data) == FirstMissing(data[i..])
        invariant issues == old(issues)
      {
        assert data[i..][1..] == data[i + 1..];
        for j := 0 to |fields|
          invariant MissingIn(data[i], fields) == MissingIn(data[i], fields[j..])
          invariant issues == old(issues)
        {
          assert fields[j..][1..] == fields[j + 1..];
          if !Present(data[i], fields[j]) {
            issues := issues + [MissingMessage(fields[j])];
            return false;
          }
        }
      }
      return true;
    }

    /** `check_data_quality`: one pass counting valid items and the three
      keys, then the diversity checks. It does not touch `issues`. */
    method CheckDataQuality(content: Content) returns (q: Quality)
      ensures q == DataQuality(content)
    {
      if content.Failed? {
        return Quality(0, 0, ["Error checking data quality: " + content.error], [], [], []);
      }
      var data := content.data;
      var valid, found, sources, priorities, badges := ScanItems(data);
      if |sources| < 2 {
        found := found + [LowSourceDiversity];
      }
      if |priorities| < 2 {
        found := found + [LowPriorityDiversity];
      }
      q := Quality(|data|, valid, found, sources, priorities, badges);
    }

    /** `generate_health_report`: the four checks in order, then the status
      rule. `website` and `updates` are the issues the website and
      recent-update probes record, `None` when they pass. */
    method GenerateHealthReport(now: string, found: bool, staleAge: Option<string>, content: Content,
                                website: Option<string>, updates: Option<string>) returns (r: HealthReport)
      modifies this
      ensures r.scraperHealth <==> HealthProblem(found, staleAge, content) == None
      ensures r.websiteAvailability == website.None? && r.recentUpdates == updates.None?
      ensures r.dataQuality == DataQuality(content)
      ensures issues == old(issues) + IssueList(HealthProblem(found, staleAge, content)) + IssueList(website) + IssueList(updates)
      ensures r.issues == issues
      ensures r.overallStatus == OverallStatus(r.scraperHealth, r.websiteAvailability, r.recentUpdates, r.dataQuality.issues)
      ensures r.overallStatus == HEALTHY ==> issues == old(issues)
      ensures r.overallStatus == CRITICAL ==> |issues| > |old(issues)|
    {
      var health := CheckScraperHealth(found, staleAge, content);
      if website.Some? {
        issues := issues + [website.value];
      }
      if updates.Some? {
        issues := issues + [updates.value];
      }
      var quality := CheckDataQuality(content);
      var status := HEALTHY;
      if !health || website.Some? {
        status := CRITICAL;
      } else if updates.Some? || quality.issues != [] {
        status := WARNING;
      }
      r := HealthReport(now, health, website.None?, updates.None?, quality, issues, status);
    }
  }
}
