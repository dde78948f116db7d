# T1D research digest pipeline, modelled in Dafny

This project models the data pipeline behind a Type 1 Diabetes news site:

- The medical scraper turns scraped records into a digest:
  - a keyword relevance filter;
  - a trial-priority rule;
  - badge, research-stage and research-type rule tables;
  - a template narrator with a jargon-replacement table and a 300-character cut;
  - a stable sort by a four-part key, cut to the top five;
  - five hand-authored special articles;
  - a duplicate-free list of processed trials.
- The site updater merges each digest into an archive capped at 50 entries. It also counts the digest's phases, priorities and badges in a run report.
- The monitor validates items, counts data quality, runs the required-field health check and decides the overall status.
- The assistance scraper extracts eligibility, application and description texts from page text. It groups programs by category into a guide and counts them per category.

Modules and files:

| file | module | models |
|---|---|---|
| text.dfy | `Text` | the Python string operations the code uses: `lower`, `capitalize`, `strip`, `in`, `replace`, `split`, `join`, slicing and string order |
| ordered.dfy | `Ordered` | insertion-ordered dictionaries as sequences: the "append if not seen" list and the counting dictionary |
| rules.dfy | `Rules` | first-match rule tables, the shape every if/elif chain is written in |
| records.dfy | `Records` | articles, studies, trials, generated items and JSON entries |
| classifier.dfy | `Classifier` | relevance, trial priority, badge, stage and research type |
| narrator.dfy | `Narrator` | family summary and detailed explanation |
| digest.dfy | `Digest` | item generation, ranking, top five, special articles, trial dedup |
| archive.dfy | `Archive` | `create_news_archive` and `generate_summary_report` |
| monitor.dfy | `Monitor` | `_is_valid_item`, `check_scraper_health`, `check_data_quality`, `generate_health_report` |
| assistance.dfy | `Assistance` | sentence and description extraction, category grouping, the guide, per-category counts |

How Python's features are modelled:

- **Value code** (rule chains, templates, the badge) is written as functions.
- **Loops that build a result** are methods proved equal to a specification function, with invariants. These are the jargon loop, the conversion loop, the trial collection, the archive merge, the counting loops, the sentence filters and the grouping.
- **The archive merge** writes `archived_date` into the caller's dictionaries, so the digest is an `array` the method modifies.
- **The monitor** appends to its `issues` field, so it is a class.
- **Dictionaries** read back from JSON are records of `Option` fields; `None` is a missing key.
- **Counting dictionaries** are sequences of (key, count) pairs in insertion order.

Inputs the model takes as parameters:

- `md5` is a function parameter.
- Clock readings are parameters. The archive's clock is a function of the entry's position, because `datetime.now()` is called once per archived entry.
- Scraped records, page text and paragraphs are parameters.
- File contents and file probes are parameters.

Where the code and the priority table `PRIORITY_MAPPING` in scraper/config.py differ, the model follows the code:

- `PRIORITY_MAPPING` in scraper/config.py rates PHASE1 trials MEDIUM, but the scraper never reads it. The hard-coded rule at scraper/medical_scraper.py:298-308 rates recruiting PHASE1 trials HIGH.
- The modelled rules keep the source's quirks, and lemmas state each one:
  - the badge gives TRIAL both for PHASE3 and otherwise;
  - the delivery cue shadows the insulin-delivery cue, in the research-summary chain and in the explanation chain;
  - the upper-case "CGM" and "HLA" cues of the research-summary chain, and the "CGM" cue of the explanation chain, are tested against a lower-cased title, so they never match;
  - the special explanation looks for "elon", which no special title holds (not even the Eledon one, since "eledon" lacks it), so every special article gets the generic special explanation;
  - the Eledon summary escapes the 300-character cut;
  - `existing_ids` is computed once, so one digest can archive a new id twice.

## Model

| member | source | states |
|---|---|---|
| Classifier.MatchCount | scraper/medical_scraper.py:404 | the keyword count is at most the number of keywords |
| Classifier.MatchCountPositive | scraper/medical_scraper.py:404 | the count is at least one exactly when some keyword, lower-cased, occurs in the text |
| Classifier.MatchCountTwo | scraper/medical_scraper.py:404-407 | the count reaches two exactly when two different keywords of the list occur |
| Classifier.RelevantIffTwoKeywords | scraper/medical_scraper.py:399-407 | a record is relevant iff two distinct topic keywords occur case-insensitively in `title + " " + abstract` |
| Classifier.EmptyRecordNotRelevant | scraper/medical_scraper.py:399-407 | a record with missing or empty title and abstract is never relevant |
| Classifier.KeepRelevant | scraper/medical_scraper.py:158 | the kept records are exactly the relevant candidates, no more than the candidates |
| Classifier.KeepRelevantOne | scraper/medical_scraper.py:158-159 | one candidate is kept exactly when it is relevant |
| Classifier.KeepRelevantAppend | scraper/medical_scraper.py:157-159 | the filter of a concatenation is the concatenation of the filters, so the kept records stay in candidate order and repeats are kept |
| Classifier.TrialPhase | scraper/medical_scraper.py:293 | the phase is the first listed phase, or "Unknown" when the list is missing or empty |
| Classifier.TrialPriority | scraper/medical_scraper.py:298-308 | HIGH iff recruiting with phase PHASE1, PHASE2, PHASE3 or EARLY_PHASE1; LOW iff not recruiting; MEDIUM otherwise |
| Classifier.ProcessTrial | scraper/medical_scraper.py:279-319 | the trial's source, its study url built from its own NCT id, title fallback (official, then brief, then "No title available"), the NCT id, status and start date (each "Unknown" when missing), the first listed phase, and the priority rule applied to the trial's own status and phase |
| Classifier.TrialArticle | scraper/medical_scraper.py:310-319 | a processed trial read as an article keeps its source, priority and phase |
| Classifier.BadgeOfTrial | scraper/medical_scraper.py:414-420 | a ClinicalTrials.gov record gets HOT iff its priority is HIGH, otherwise TRIAL, whatever its type or title |
| Classifier.BadgeOfNews | scraper/medical_scraper.py:421-422 | any other record of type "news" gets BREAKING before any title test |
| Classifier.BadgeOfTitle | scraper/medical_scraper.py:423-427 | otherwise a breakthrough word in the lower-cased title gives BREAKTHROUGH, else an approval word gives APPROVAL, else NEW |
| Classifier.BadgeOfTitleView | scraper/medical_scraper.py:423-427 | on what the badge chain sees of a record that is neither a trial nor news: a breakthrough word in the title gives BREAKTHROUGH, else an approval word APPROVAL, else NEW |
| Classifier.StageIsLabel | scraper/medical_scraper.py:791-813 | the research stage is always one of the eight labels |
| Classifier.StageOfTrial | scraper/medical_scraper.py:798-806 | for a trial without a spelled-out phase, the lower-cased phase enum picks the phase stage, otherwise "Clinical Trials" |
| Classifier.StageOfTrialView | scraper/medical_scraper.py:798-806 | on what the stage chain sees of a trial with no phase spelled out in title or phase: "phase3", "phase2" and "phase1" pick the phase stage, anything else "Clinical Trials" |
| Classifier.StageOfTrialEnum | scraper/medical_scraper.py:798-803 | the enums PHASE3, PHASE2 and PHASE1 give the three trial-phase stages |
| Classifier.TypeIsLabel | scraper/medical_scraper.py:815-846 | the research type is always one of the seven labels |
| Classifier.TypeFirstCategory | scraper/medical_scraper.py:820-842 | the first category with a word in the lower-cased title or abstract gives the label |
| Classifier.TypeDefault | scraper/medical_scraper.py:844-846 | no word of any category gives "Research" |
| Narrator.ReplaceEach | scraper/medical_scraper.py:659-660 | the loop's result is the table applied in order, each replacement on the previous one's output |
| Narrator.CleanMedicalJargon | scraper/medical_scraper.py:610-662 | the result is the jargon table applied in dictionary order |
| Narrator.ReplacementsAbsent | scraper/medical_scraper.py:659-662 | a text containing no key of the table comes back unchanged |
| Narrator.ReplacementsSplit | scraper/medical_scraper.py:659-660 | applying a table in two parts is applying it whole: later entries see earlier entries' output |
| Narrator.PhaseDescription | scraper/medical_scraper.py:510-517 | the phase text is one of five phrases, "research study" exactly for phases other than PHASE1 to PHASE4 |
| Narrator.TrialSummaryIsTemplate | scraper/medical_scraper.py:506-545 | every trial summary is one of the drug templates or the fallback, filled with the phase text |
| Narrator.TrialSummaryFallback | scraper/medical_scraper.py:544-545 | a title with no drug cue gets the fallback, whose wording depends only on priority and phase |
| Narrator.KeyConceptsIsPhrase | scraper/medical_scraper.py:593-608 | the key concepts are always one of six non-empty phrases, so the branch testing them is always taken |
| Narrator.ResearchSummaryIsTemplate | scraper/medical_scraper.py:547-591 | the research summary is one of the research templates or the fallback |
| Narrator.DeliveryCuesShadowed | scraper/medical_scraper.py:551-555 | any title containing "delivery" gets the delivery-technology template, never the insulin-delivery one |
| Narrator.InsulinDeliveryHasDelivery | scraper/medical_scraper.py:554 | a title holding "insulin delivery" holds "delivery", so the shadowing applies to every insulin-delivery title |
| Narrator.UpperCaseCuesDead | scraper/medical_scraper.py:557-580 | the research-summary chain's "CGM" and "HLA" cues never hold on a lower-cased title |
| Narrator.ExplanationDeliveryShadowed | scraper/medical_scraper.py:693-697 | in the explanation chain, any title containing "delivery" gets the first rule's exosome/delivery text, so the later "insulin delivery" rule never decides it |
| Narrator.ExplanationCgmCueDead | scraper/medical_scraper.py:702 | the explanation chain's "CGM" cue never holds on a lower-cased title, whatever the source |
| Narrator.Shorten | scraper/medical_scraper.py:486-487 | the cut result has at most 300 characters; shorter texts are unchanged; longer ones keep 297 characters and end in "..." |
| Narrator.OrdinarySummaryBound | scraper/medical_scraper.py:479-489 | a summary of a record that is not special never exceeds 300 characters |
| Narrator.SpecialSummaryUncut | scraper/medical_scraper.py:473-477 | a special record's summary is the special text chosen by its lower-cased title, neither cleaned nor cut |
| Narrator.SpecialSummaryChoice | scraper/medical_scraper.py:474-477 | the special text is the Eledon text exactly when the title holds "eledon" or "tegoprubart", and the generic special text otherwise |
| Narrator.SpecialSummaryEledon | scraper/medical_scraper.py:473-475 | a special record whose lower-cased title holds "eledon" or "tegoprubart" gets the Eledon text |
| Narrator.SpecialSummaryGeneric | scraper/medical_scraper.py:473-477 | a special record whose lower-cased title holds neither gets the generic special text |
| Narrator.EledonSummaryLong | scraper/medical_scraper.py:474-475 | the Eledon text is longer than 300 characters |
| Narrator.ExplanationIsFixed | scraper/medical_scraper.py:690-715 | the explanation of a record that is not special is one of the fixed texts |
| Narrator.SpecialBranch | scraper/medical_scraper.py:685-690 | with the special flag set, the explanation is chosen by the lower-cased title alone, whatever the source |
| Narrator.SpecialExplainedByTitle | scraper/medical_scraper.py:683-690 | a record whose `special` is `True` gets the Eledon or the generic special explanation, chosen by its lower-cased title |
| Narrator.TitleWithoutLo | scraper/medical_scraper.py:687-690 | a title with no "lo" in any case never holds "elon" once lower-cased, so it gets the generic special explanation |
| Narrator.SpecialWithoutLo | scraper/medical_scraper.py:683-690 | a special record whose title has no "lo" in any case gets the generic special explanation |
| Narrator.ElonMissesEledon | scraper/medical_scraper.py:685-690 | "elon" does not occur in "eledon", so a special record titled "Eledon" gets the generic special explanation |
| Digest.ItemId | scraper/medical_scraper.py:443 | the id is at most 8 leading characters of the url's digest, exactly 8 when the digest has 8; equal urls give equal ids |
| Digest.ItemClassification | scraper/medical_scraper.py:412-440 | a stage or type already on the record is kept, otherwise a label is computed; the badge is the badge table's |
| Digest.ItemTexts | scraper/medical_scraper.py:429-436 | news items keep their own summary uncut with the fixed news text; others get the narrator's texts |
| Digest.ItemDefaults | scraper/medical_scraper.py:442-461 | link falls back to url then "#"; the date to the other date then ""; rank to 999; special to false; title to "No title available" |
| Digest.ItemKey | scraper/medical_scraper.py:895-900 | the sort key of an item comes from its record alone |
| Digest.PriorityRank | scraper/medical_scraper.py:898 | HIGH ranks 0, LOW ranks 2, everything else 1 |
| Digest.KeyLessTransitive | scraper/medical_scraper.py:895-900 | the key order is transitive |
| Digest.KeyLessTotal | scraper/medical_scraper.py:895-900 | any two different keys are ordered |
| Digest.Insert | scraper/medical_scraper.py:895-900 | one insertion step adds exactly the item |
| Digest.SortItems | scraper/medical_scraper.py:895-900 | the sort is a permutation of the items |
| Digest.SortItemsSorted | scraper/medical_scraper.py:895-900 | the sorted list is ordered by the key |
| Digest.SortItemsStable | scraper/medical_scraper.py:895-900 | the items sharing a key keep their input order |
| Digest.SortSorted | scraper/medical_scraper.py:895-900 | sorting a sorted list changes nothing |
| Digest.TopIsTopFive | scraper/medical_scraper.py:894-903 | the digest has min(5, n) items drawn from the input, sorted, none ranked after an item left out |
| Digest.GenerateItems | scraper/medical_scraper.py:886-891 | the conversion loop builds exactly one item per record, in record order |
| Digest.RunScrapingWorkflow | scraper/medical_scraper.py:848-903 | the digest is the top five of the items of news, PubMed, journal and special records, in that order |
| Digest.SpecialArticlesRanked | scraper/medical_scraper.py:717-789 | the hand-authored articles carry ranks 999, 1, 2, 3, 4 and the special flag |
| Digest.EledonTitleWithoutLo | scraper/medical_scraper.py:723 | the Eledon title has no "lo" in any case |
| Digest.FdaApprovalTitleWithoutLo | scraper/medical_scraper.py:738 | the FDA approval title has no "lo" in any case |
| Digest.StemCellTitleWithoutLo | scraper/medical_scraper.py:750 | the stem cell title has no "lo" in any case |
| Digest.PreventionTitleWithoutLo | scraper/medical_scraper.py:762 | the prevention title has no "lo" in any case |
| Digest.SmartPumpTitleWithoutLo | scraper/medical_scraper.py:774 | the smart pump title has no "lo" in any case |
| Digest.SpecialTitlesWithoutLo | scraper/medical_scraper.py:723-774 | none of the five special titles has "lo" in any case |
| Digest.SpecialGetsGenericExplanation | scraper/medical_scraper.py:685-690 | each of the five special articles, the Eledon one included, gets the generic special explanation, never the Eledon one |
| Digest.SpecialBeforeOrdinary | scraper/medical_scraper.py:895-900 | a special rank-999 item sorts before every ordinary item |
| Digest.RankedBeforeRest | scraper/medical_scraper.py:895-900 | ranks 1 to 4 sort first, in rank order |
| Digest.RankedSpecialsFirst | scraper/medical_scraper.py:894-903 | with ordinary scraped items, the digest is ranks 1 to 4 then the special rank-999 item |
| Digest.ItemOfKeepsKey | scraper/medical_scraper.py:455-461 | the workflow's conversion gives every item its record's key |
| Digest.SpecialsTakeTheDigest | scraper/medical_scraper.py:848-903 | for any key-keeping conversion and ordinary scraped records, the digest is exactly the special articles' items |
| Digest.OrdinaryScrapeDigest | scraper/medical_scraper.py:848-903 | the workflow's digest, for ordinary scraped records, is the FDA, stem cell, prevention, smart pump and Eledon items, in that order, whatever summary and explanation functions build the items (the narrator's among them) |
| Digest.ProcessAll | scraper/medical_scraper.py:265-266 | one processed trial per study, in order |
| Digest.CollectTrials | scraper/medical_scraper.py:253-268 | the trial list holds every processed trial exactly once, in first-seen order |
| Ordered.DedupElements | scraper/medical_scraper.py:265-268 | the "append unless present" list is duplicate-free and holds exactly the input's elements |
| Ordered.DedupOrder | scraper/medical_scraper.py:265-268 | the list keeps the order of first occurrence |
| Ordered.BumpEffect | update_website.py:121 | one counter update adds one to that key's count, appends a new key and leaves the others unchanged |
| Ordered.TallyCounts | update_website.py:119-130 | a counter built from a list has the distinct values as keys in first-seen order, each counted by its occurrences, summing to the list's length |
| Ordered.TallySize | scraper/monitor.py:124-128 | the number of keys of a counter is the number of distinct values counted |
| Records.ToEntry | scraper/medical_scraper.py:442-461 | the JSON object of an item carries its id, its badge name and the six meta keys, and no archive date |
| Records.ToEntryKeepsCounters | update_website.py:119-130 | the badge, phase and priority counted in reports are the item's own |
| Archive.Stamp | update_website.py:70 | archiving stamps `archived_date` and keeps the id |
| Archive.Marked | update_website.py:68-71 | after the loop, the caller's digest entries keep their ids; those with new ids carry their archive date |
| Archive.LastN | update_website.py:74 | the slice keeps min(n, len) entries |
| Archive.Merge | update_website.py:60-74 | the merged archive has at most 50 entries |
| Archive.CreateNewsArchive | update_website.py:54-80 | the archive is the merge of the stored archive (empty when missing) with the digest; the digest array is left stamped |
| Archive.ArchiveNew | update_website.py:68-71 | the loop appends exactly the digest entries with unseen ids, stamped with their time and in digest order, and leaves those same entries stamped in the caller's array |
| Archive.AppendedIsMarkedNew | update_website.py:68-71 | the appended entries are exactly the stamped digest entries whose id was new, in digest order |
| Archive.AppendedMembers | update_website.py:68-71 | each appended entry has an id that was absent, and each digest entry with an absent id is appended with its stamp |
| Archive.AppendedAllNew | update_website.py:68-71 | when no digest id is archived yet, the whole stamped digest is appended |
| Archive.AppendedNoneNew | update_website.py:68-71 | when every digest id is archived, nothing is appended |
| Archive.FirstArchive | update_website.py:60-63 | a missing archive starts the merge from nothing |
| Archive.MergeKeepsArchive | update_website.py:60-74 | surviving original entries keep order and contents and come first; eviction removes from the front |
| Archive.MergeAgain | update_website.py:66-74 | merging the same digest again changes nothing when eviction removed none of its ids |
| Archive.MergeIdempotent | update_website.py:66-74 | without eviction, the merge is idempotent |
| Archive.MergeAgainStamped | update_website.py:66-74 | merging again the digest as the first merge left it, its new entries stamped, changes nothing when eviction removed none of its ids |
| Archive.MergeIdempotentStamped | update_website.py:66-74 | without eviction, merging the stamped digest again changes nothing |
| Archive.MergeKeepsDigestIds | update_website.py:66-74 | without eviction, every digest id is in the merged archive |
| Archive.AppendedUnique | update_website.py:66-71 | a digest with distinct ids appends entries with distinct ids |
| Archive.MergeKeepsUniqueIds | update_website.py:66-74 | the archive stays id-unique when the archive and the digest both are |
| Archive.SharedNewIdArchivedTwice | update_website.py:66-71 | two digest entries sharing a new id are both archived, so the archive loses id-uniqueness |
| Archive.ReportCounts | update_website.py:108-130 | each report counter sums to the number of items, with the distinct values as keys in first-seen order |
| Archive.GenerateSummaryReport | update_website.py:108-136 | the counting loop builds the report, or `None` when an entry lacks `meta`; sources sum to the item count |
| Monitor.IsValidItemIff | scraper/monitor.py:137-153 | an item is valid iff title, summary, badge, meta and link are all present and non-empty, title has at least 10 characters and summary at least 20 |
| Monitor.ValidItemIsComplete | scraper/monitor.py:137-153 | a valid item has every field the health check requires |
| Monitor.MissingIn | scraper/monitor.py:43-47 | the first field an item lacks, or none exactly when it has them all |
| Monitor.FirstMissingNone | scraper/monitor.py:42-50 | loaded data passes the field loop exactly when every item has title, summary, badge and meta |
| Monitor.FirstMissingPicks | scraper/monitor.py:42-47 | the check fails at the first incomplete item, naming its first missing field |
| Monitor.MissingInPicks | scraper/monitor.py:43-47 | the first missing field of an item is the one named |
| Monitor.ValidDataIsHealthy | scraper/monitor.py:19-57 | non-empty data of valid items passes the health check once the file is found and fresh |
| Monitor.CountValid | scraper/monitor.py:104-108 | the valid count is at most the number of items |
| Monitor.QualityStep | scraper/monitor.py:104-121 | one loop step counts one more valid item or adds one invalid-item issue |
| Monitor.QualityCounts | scraper/monitor.py:102-121 | valid items at most total items, which is the data length; each counter sums to the total |
| Monitor.DiversityIff | scraper/monitor.py:124-128 | "Low source diversity" iff fewer than two distinct phases; "Low priority diversity" iff fewer than two distinct priorities |
| Monitor.InvalidIssuesShape | scraper/monitor.py:108 | no invalid-item issue is a diversity issue |
| Monitor.AllValidIff | scraper/monitor.py:104-108 | every item is valid iff no invalid-item issue is raised |
| Monitor.StatusIff | scraper/monitor.py:197-201 | CRITICAL iff scraper health or website availability fails; else WARNING iff updates are stale or there are quality issues; else HEALTHY |
| Monitor.ScraperMonitor.constructor | scraper/monitor.py:15-17 | a new monitor has no issues |
| Monitor.ScraperMonitor.CheckScraperHealth | scraper/monitor.py:19-57 | passes iff no problem is found; appends exactly the problem's issue |
| Monitor.ScraperMonitor.CheckDataQuality | scraper/monitor.py:85-135 | the counting loop returns the quality report |
| Monitor.ScanItems | scraper/monitor.py:104-119 | the pass over the items counts the valid ones, reports each invalid one by title, and tallies sources, priorities and badges |
| Monitor.ScraperMonitor.GenerateHealthReport | scraper/monitor.py:183-208 | runs the four checks in order, appends their issues, applies the status rule; HEALTHY adds no issue, CRITICAL adds at least one |
| Assistance.ExtractSentences | scraper/diabetes_assistance_scraper.py:289-302 | the sentence loop returns the first `limit` qualifying cleaned sentences joined with ". " plus ".", or the fallback |
| Assistance.ExtractEligibility | scraper/diabetes_assistance_scraper.py:285-302 | the eligibility text takes at most three qualifying sentences |
| Assistance.ExtractApplicationProcess | scraper/diabetes_assistance_scraper.py:304-321 | the application text takes at most two qualifying sentences |
| Assistance.KeptPositions | scraper/diabetes_assistance_scraper.py:293-299 | the kept sentences are exactly the cleaned qualifying ones, in text order |
| Assistance.SentenceSummaryShape | scraper/diabetes_assistance_scraper.py:301-302 | the fallback is returned exactly when no sentence qualifies; otherwise the text is at most `limit` kept sentences joined with ". " and closed with "." |
| Assistance.FallbacksHaveNoStop | scraper/diabetes_assistance_scraper.py:302 | neither fallback ends with ".", so a found summary is told apart from it |
| Assistance.FirstDescriptive | scraper/diabetes_assistance_scraper.py:273-275 | the position of the first qualifying paragraph, or none when no paragraph qualifies |
| Assistance.ExtractDescription | scraper/diabetes_assistance_scraper.py:267-283 | the paragraph loop returns the first qualifying paragraph cut to 300 characters plus "...", else the meta text the same way, else the fallback |
| Assistance.DescriptionShape | scraper/diabetes_assistance_scraper.py:267-283 | a description is the fallback or ends in "..." after at most 300 characters |
| Assistance.ShortParagraphGetsEllipsis | scraper/diabetes_assistance_scraper.py:275-276 | a short first qualifying paragraph is returned whole, stripped, with "..." added |
| Assistance.KeyIndex | scraper/diabetes_assistance_scraper.py:376 | where a category sits in the dictionary, or none when it is absent |
| Assistance.OfCategoryMembers | scraper/diabetes_assistance_scraper.py:373-378 | a category's list holds exactly the programs of that category |
| Assistance.GroupByContents | scraper/diabetes_assistance_scraper.py:373-378 | the dictionary's keys are the categories in first-seen order; each list is its programs in input order |
| Assistance.PlaceContents | scraper/diabetes_assistance_scraper.py:375-378 | one grouping step keeps the dictionary in step with the programs seen |
| Assistance.SectionsContents | scraper/diabetes_assistance_scraper.py:427-432 | the sections are the described groups, in dictionary order, with the table's texts |
| Assistance.GenerateAssistanceGuide | scraper/diabetes_assistance_scraper.py:369-434 | the guide has its title, date and a section for each described category of the grouping |
| Assistance.GroupPrograms | scraper/diabetes_assistance_scraper.py:373-378 | the grouping loop builds the insertion-ordered category dictionary the grouping function defines |
| Assistance.DescribedSections | scraper/diabetes_assistance_scraper.py:427-432 | the section loop builds one section per described category, in dictionary order |
| Assistance.GuideCategories | scraper/diabetes_assistance_scraper.py:404-432 | the guide's categories are exactly the described input categories; each holds its programs in input order; programs of other categories are dropped |
| Assistance.CountByCategory | scraper/diabetes_assistance_scraper.py:459-462 | the per-category counts have the categories in first-seen order and sum to the number of programs |

## Left out

- Fetching and parsing are not modelled: HTTP sessions, BeautifulSoup selection, RSS, XML and JSON parsing, and `time.sleep`. Records, page text and paragraphs are inputs.
- That covers every `scrape_*` fetch loop, `_get_pubmed_article_details`, `_scrape_rss_feed`, `_scrape_company_programs` and `_scrape_additional_resource`.
- `_extract_program_info` is not modelled beyond the program record: its title selection is HTML work.
- `_extract_contact_info` is not modelled because it depends on Python's regular-expression engine.
- `md5` is an uninterpreted function parameter, not the hash itself.
- `datetime.now()` and `strftime` are parameters.
- File reads and writes, `Path.exists` and the file-age test are parameters of the monitor and the archive:
  - whether the data file exists;
  - its age text when older than 12 hours;
  - the parsed data or the parse error.
- Monitor.ScraperMonitor.GenerateHealthReport: `check_website_availability` and `check_recent_updates` are not modelled. Each is given as the issue it would record, or `None`, so their HTTP and timestamp logic is not captured.
- Report and health-report writes are not modelled; they have no effect on the returned values.
- `send_alert_if_needed` is left out because it only logs.
- The `main` functions of the monitor and the site updater are left out: they only print, or call modelled functions in sequence.
- Rendering is left out: `generate_breaking_news_html` and `update_breaking_news_section`.
- The guide's fixed introduction, quick tips and emergency resources are left out. They are constant text; the guide keeps only its title, date and category sections.
- Archive.CreateNewsArchive: a corrupt archive file, which raises in the source, is not modelled. The stored archive is either absent or a list of entries.
- The JSON values of entries are modelled as strings, booleans, integers and string maps. Truthiness of other JSON types is not modelled.
- Text.Lower, Text.Capitalize: only ASCII letters change case. Python's Unicode case mapping is not modelled.
- `_translate_title` is left out because nothing calls it.
- scraper/config.py and scraper/setup.py are not part of this model: the scraper never imports the configuration, and setup only creates directories.
- Logging and the broad `try`/`except` blocks that only log are left out. Trials whose processing raises are not modelled.
- The trials collected by `scrape_clinical_trials` never enter the workflow in the source, so `Digest.RunScrapingWorkflow` does not take them either.
- Narrator.OrdinarySummaryBound states only the length bound for records that are not special. The exact 297-character cut is stated on `Shorten`, which the summary applies last.
