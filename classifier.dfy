/** Relevance filter and classifier of scraper/medical_scraper.py: the
    keyword-count relevance test, the trial priority rule, and the badge,
    research-stage and research-type rule tables. All are pure functions of
    the record. */
module Classifier {
  import opened Text
  import opened Rules
  import opened Records

  const ClinicalTrialsGov := "ClinicalTrials.gov"

  // ---------------------------------------------------------------- relevance

  /** The topic keywords, as listed in the scraper (matched after lower-casing). */
  const T1DKeywords: seq<string> := [
    "type 1 diabetes", "T1D", "insulin-dependent diabetes", "juvenile diabetes",
    "beta cell", "autoimmune diabetes", "diabetic ketoacidosis", "insulin therapy",
    "glucose monitoring", "closed-loop", "artificial pancreas", "islet transplantation",
    "stem cell diabetes", "immunotherapy diabetes", "diabetes cure", "diabetes prevention"
  ]

  /** A record needs at least this many distinct keyword matches. */
  const RelevanceThreshold: nat := 2

  /** `f"{title} {abstract}".lower()`, missing fields read as "". */
  function RelevanceText(a: Article): string
  {
    Lower(a.title.GetOr("") + " " + a.abstractText.GetOr(""))
  }

  /** `sum(1 for k in keywords if k.lower() in text)` */
  function MatchCount(keywords: seq<string>, text: string): (n: nat)
    ensures n <= |keywords|
  {
    if keywords == [] then 0
    else (if Contains(text, Lower(keywords[0])) then 1 else 0) + MatchCount(keywords[1..], text)
  }

  predicate IsRelevant(a: Article)
  {
    MatchCount(T1DKeywords, RelevanceText(a)) >= RelevanceThreshold
  }

  /** Keyword i of the list occurs in the text. */
  predicate KeywordHit(keywords: seq<string>, text: string, i: int)
    requires 0 <= i < |keywords|
  {
    Contains(text, Lower(keywords[i]))
  }

  lemma {:induction false} MatchCountPositive(keywords: seq<string>, text: string)
    ensures MatchCount(keywords, text) >= 1 <==> exists i :: 0 <= i < |keywords| && KeywordHit(keywords, text, i)
    decreases |keywords|
  {
    if keywords != [] {
      MatchCountPositive(keywords[1..], text);
      if exists i :: 0 <= i < |keywords| && KeywordHit(keywords, text, i) {
        var i :| 0 <= i < |keywords| && KeywordHit(keywords, text, i);
        if i > 0 { assert KeywordHit(keywords[1..], text, i - 1); }
      }
      if MatchCount(keywords, text) >= 1 {
        if KeywordHit(keywords, text, 0) {
        } else {
          var i :| 0 <= i < |keywords[1..]| && KeywordHit(keywords[1..], text, i);
          assert KeywordHit(keywords, text, i + 1);
        }
      }
    }
  }

  /** The count reaches two exactly when two different keywords of the list occur. */
  lemma MatchCountTwo(keywords: seq<string>, text: string)
    ensures MatchCount(keywords, text) >= 2 <==>
      exists i, j :: 0 <= i < j < |keywords| && KeywordHit(keywords, text, i) && KeywordHit(keywords, text, j)
  {
    if exists i, j :: 0 <= i < j < |keywords| && KeywordHit(keywords, text, i) && KeywordHit(keywords, text, j) {
      var i, j :| 0 <= i < j < |keywords| && KeywordHit(keywords, text, i) && KeywordHit(keywords, text, j);
      TwoHitsCount(keywords, text, i, j);
    }
    if MatchCount(keywords, text) >= 2 {
      CountTwoHits(keywords, text);
    }
  }

  /** Two different keywords that occur count twice. */
  lemma {:induction false} TwoHitsCount(keywords: seq<string>, text: string, i: nat, j: nat)
    requires i < j < |keywords| && KeywordHit(keywords, text, i) && KeywordHit(keywords, text, j)
    ensures MatchCount(keywords, text) >= 2
    decreases |keywords|
  {
    var tail := keywords[1..];
    assert KeywordHit(tail, text, j - 1);
    if i > 0 {
      assert KeywordHit(tail, text, i - 1);
      TwoHitsCount(tail, text, i - 1, j - 1);
    } else {
      MatchCountPositive(tail, text);
    }
  }

  /** A count of two names two different keywords that occur. */
  lemma {:induction false} CountTwoHits(keywords: seq<string>, text: string)
    requires MatchCount(keywords, text) >= 2
    ensures exists i, j :: 0 <= i < j < |keywords| && KeywordHit(keywords, text, i) && KeywordHit(keywords, text, j)
    decreases |keywords|
  {
    var tail := keywords[1..];
    if KeywordHit(keywords, text, 0) {
      MatchCountPositive(tail, text);
      var j :| 0 <= j < |tail| && KeywordHit(tail, text, j);
      assert KeywordHit(keywords, text, j + 1);
    } else {
      CountTwoHits(tail, text);
      var i, j :| 0 <= i < j < |tail| && KeywordHit(tail, text, i) && KeywordHit(tail, text, j);
      assert KeywordHit(keywords, text, i + 1) && KeywordHit(keywords, text, j + 1);
    }
  }

  /** A record is relevant exactly when two different topic keywords occur,
      case-insensitively, in its title and abstract. */
  lemma RelevantIffTwoKeywords(a: Article)
    ensures IsRelevant(a) <==>
      exists i, j :: 0 <= i < j < |T1DKeywords| && KeywordHit(T1DKeywords, RelevanceText(a), i)
                                                 && KeywordHit(T1DKeywords, RelevanceText(a), j)
  {
    MatchCountTwo(T1DKeywords, RelevanceText(a));
  }

  /** A record with an empty (or missing) title and abstract is never relevant:
      the text checked is a single space. */
  lemma EmptyRecordNotRelevant(a: Article)
    requires a.title.GetOr("") == "" && a.abstractText.GetOr("") == ""
    ensures !IsRelevant(a)
  {
    var text := RelevanceText(a);
    assert text == " ";
    forall i | 0 <= i < |T1DKeywords| ensures !KeywordHit(T1DKeywords, text, i) {
      ShortTextMissesLongWord(text, Lower(T1DKeywords[i]));
    }
    MatchCountPositive(T1DKeywords, text);
  }

  /** The relevant records among the candidates, in order (the check applied
      while collecting PubMed articles and journal feed items). */
  function KeepRelevant(candidates: seq<Article>): (kept: seq<Article>)
    ensures forall a :: a in kept <==> a in candidates && IsRelevant(a)
    ensures |kept| <= |candidates|
  {
    if candidates == [] then []
    else (if IsRelevant(candidates[0]) then [candidates[0]] else []) + KeepRelevant(candidates[1..])
  }

  /** A single candidate is kept exactly when it is relevant. */
  lemma KeepRelevantOne(a: Article)
    ensures KeepRelevant([a]) == if IsRelevant(a) then [a] else []
  {
    assert [a][1..] == [];
  }

  /** Filtering distributes over concatenation: the kept records stay in
      candidate order, and a record met twice is kept twice. */
  lemma {:induction false} KeepRelevantAppend(a: seq<Article>, b: seq<Article>)
    ensures KeepRelevant(a + b) == KeepRelevant(a) + KeepRelevant(b)
  {
    if a == [] {
      assert a + b == b;
    } else {
      assert (a + b)[0] == a[0];
      assert (a + b)[1..] == a[1..] + b;
      KeepRelevantAppend(a[1..], b);
    }
  }

  // ---------------------------------------------------------------- trials

  /** `phases[0]` when the design module lists phases, otherwise "Unknown". */
  function TrialPhase(phases: Option<seq<string>>): (p: string)
    ensures phases.None? || phases.value == [] ==> p == "Unknown"
    ensures phases.Some? && phases.value != [] ==> p == phases.value[0]
  {
    if phases.Some? && phases.value != [] then phases.value[0] else "Unknown"
  }

  /** Priority of a trial from its overall status and phase. */
  function TrialPriority(status: string, phase: string): (p: string)
    ensures p in {"HIGH", "MEDIUM", "LOW"}
    ensures p == "HIGH" <==> status == "RECRUITING" && phase in {"PHASE1", "PHASE2", "PHASE3", "EARLY_PHASE1"}
    ensures p == "LOW" <==> status != "RECRUITING"
  {
    if status == "RECRUITING" then
      if phase in {"PHASE3", "PHASE2"} then "HIGH"
      else if phase in {"PHASE1", "EARLY_PHASE1"} then "HIGH"
      else "MEDIUM"
    else "LOW"
  }

  /** The trial record built from one study, with the processor's defaults. */
  function ProcessTrial(s: Study): (t: Trial)
    ensures t.source == ClinicalTrialsGov
    ensures t.url == "https://clinicaltrials.gov/study/" + t.nctId
    ensures t.title == s.officialTitle.GetOr(s.briefTitle.GetOr("No title available"))
    ensures t.priority == TrialPriority(s.overallStatus.GetOr("Unknown"), TrialPhase(s.phases))
    ensures t.nctId == s.nctId.GetOr("Unknown") && t.phase == TrialPhase(s.phases)
    ensures t.status == s.overallStatus.GetOr("Unknown") && t.startDate == s.startDate.GetOr("Unknown")
    ensures t.priority == TrialPriority(t.status, t.phase)
  {
    var nctId := s.nctId.GetOr("Unknown");
    var title := s.briefTitle.GetOr("No title available");
    var status := s.overallStatus.GetOr("Unknown");
    var phase := TrialPhase(s.phases);
    Trial(nctId, s.officialTitle.GetOr(title), phase, status,
          s.startDate.GetOr("Unknown"), TrialPriority(status, phase),
          ClinicalTrialsGov, "https://clinicaltrials.gov/study/" + nctId)
  }

  /** A processed trial read as an article (its keys are a subset of an article's). */
  function TrialArticle(t: Trial): (a: Article)
    ensures a.source == Some(t.source) && a.priority == Some(t.priority) && a.phase == Some(t.phase)
  {
    EmptyArticle.(title := Some(t.title), phase := Some(t.phase), status := Some(t.status),
                  priority := Some(t.priority), source := Some(t.source), url := Some(t.url))
  }

  // ---------------------------------------------------------------- badge

  const BreakthroughWords: seq<string> := ["breakthrough", "revolutionary", "novel"]
  const ApprovalWords: seq<string> := ["fda", "approval", "approved"]

  /** The badge chain; both trial branches that are not HIGH give TRIAL. */
  const BadgeRules: seq<Rule<Badge>> := [
    Rule([Both(Is(Source, ClinicalTrialsGov), Is(Priority, "HIGH"))], HOT),
    Rule([Is(Source, ClinicalTrialsGov)], TRIAL),
    Rule([Is(Kind, "news")], BREAKING),
    Rule(AnyIn(Title, BreakthroughWords), BREAKTHROUGH),
    Rule(AnyIn(Title, ApprovalWords), APPROVAL)
  ]

  /** What the badge chain sees: the lower-cased title, the raw source,
      priority and type. A missing key compares unequal to every label, as "" does. */
  function BadgeView(a: Article): View
  {
    View(Lower(a.title.GetOr("")), "", "", a.source.GetOr(""), a.priority.GetOr(""), a.kind.GetOr(""))
  }

  function BadgeFor(a: Article): Badge
  {
    FirstMatch(BadgeRules, BadgeView(a), NEW)
  }

  /** A ClinicalTrials.gov record gets HOT when its priority is HIGH and
      TRIAL otherwise, whatever its type or title. */
  lemma BadgeOfTrial(a: Article)
    requires a.source == Some(ClinicalTrialsGov)
    ensures BadgeFor(a) == if a.priority == Some("HIGH") then HOT else TRIAL
  {
    var v := BadgeView(a);
    if a.priority == Some("HIGH") {
      assert Holds(Is(Source, ClinicalTrialsGov), v) && Holds(Is(Priority, "HIGH"), v);
      assert Holds(BadgeRules[0].any[0], v);
      FirstMatchPicks(BadgeRules, v, NEW, 0);
    } else {
      assert !Holds(BadgeRules[0].any[0], v);
      assert Holds(BadgeRules[1].any[0], v);
      FirstMatchPicks(BadgeRules, v, NEW, 1);
    }
  }

  /** Any other record of type "news" gets BREAKING before any title test. */
  lemma BadgeOfNews(a: Article)
    requires a.source != Some(ClinicalTrialsGov) && a.kind == Some("news")
    ensures BadgeFor(a) == BREAKING
  {
    var v := BadgeView(a);
    assert !Holds(BadgeRules[0].any[0], v) && !Holds(BadgeRules[1].any[0], v);
    assert Holds(BadgeRules[2].any[0], v);
    FirstMatchPicks(BadgeRules, v, NEW, 2);
  }

  /** Otherwise the lower-cased title decides: BREAKTHROUGH words first, then
      approval words, then NEW. */
  lemma BadgeOfTitle(a: Article)
    requires a.source != Some(ClinicalTrialsGov) && a.kind != Some("news")
    ensures var t := Lower(a.title.GetOr(""));
      BadgeFor(a) == if exists w :: w in BreakthroughWords && Contains(t, w) then BREAKTHROUGH
                     else if exists w :: w in ApprovalWords && Contains(t, w) then APPROVAL
                     else NEW
  {
    BadgeOfTitleView(BadgeView(a));
  }

  /** The badge table on what it sees of a record that is neither a trial nor news. */
  lemma BadgeOfTitleView(v: View)
    requires v.source != ClinicalTrialsGov && v.kind != "news"
    ensures FirstMatch(BadgeRules, v, NEW) ==
      if exists w :: w in BreakthroughWords && Contains(v.title, w) then BREAKTHROUGH
      else if exists w :: w in ApprovalWords && Contains(v.title, w) then APPROVAL
      else NEW
  {
    assert FieldOf(v, Source) != ClinicalTrialsGov && FieldOf(v, Kind) != "news";
    assert !Holds(BadgeRules[0].any[0], v) && !Holds(BadgeRules[1].any[0], v);
    assert BadgeRules[2].any == [Is(Kind, "news")];
    AnyInFiresSome(Title, BreakthroughWords, BREAKTHROUGH, v);
    AnyInFiresSome(Title, ApprovalWords, APPROVAL, v);
    if Fires(BadgeRules[3], v) {
      FirstMatchPicks(BadgeRules, v, NEW, 3);
    } else if Fires(BadgeRules[4], v) {
      FirstMatchPicks(BadgeRules, v, NEW, 4);
    } else {
      FirstMatchDefault(BadgeRules, v, NEW);
    }
  }

  // ---------------------------------------------------------------- stage

  const StageRules: seq<Rule<string>> := [
    Rule([Has(Title, "phase 3"), Has(Phase, "phase 3"), Has(Title, "phase iii"), Is(Phase, "phase3")], "Phase 3 Trials"),
    Rule([Has(Title, "phase 2"), Has(Phase, "phase 2"), Has(Title, "phase ii"), Is(Phase, "phase2")], "Phase 2 Trials"),
    Rule([Has(Title, "phase 1"), Has(Phase, "phase 1"), Has(Title, "phase i"), Is(Phase, "phase1")], "Phase 1 Trials"),
    Rule([Has(Title, "clinical trial"), Is(Source, ClinicalTrialsGov)], "Clinical Trials"),
    Rule([Has(Title, "fda approval"), Has(Title, "approved")], "FDA Review"),
    Rule([Has(Title, "preclinical"), Has(Title, "laboratory"), Has(Title, "in vitro")], "Preclinical"),
    Rule([Is(Source, "Nature"), Is(Source, "Cell"), Is(Source, "Science"), Is(Source, "NEJM"),
          Is(Source, "The Lancet"), Is(Source, "PubMed")], "Early Research")
  ]

  const StageLabels: seq<string> := [
    "Phase 3 Trials", "Phase 2 Trials", "Phase 1 Trials", "Clinical Trials",
    "FDA Review", "Preclinical", "Early Research", "Research"
  ]

  /** The stage chain sees the lower-cased title and phase and the raw source. */
  function StageView(a: Article): View
  {
    View(Lower(a.title.GetOr("")), "", Lower(a.phase.GetOr("")), a.source.GetOr(""), "", "")
  }

  function ResearchStage(a: Article): string
  {
    FirstMatch(StageRules, StageView(a), "Research")
  }

  /** The stage is always one of the eight labels. */
  lemma StageIsLabel(a: Article)
    ensures ResearchStage(a) in StageLabels
  {
    FirstMatchLabel(StageRules, StageView(a), "Research");
    assert Labels(StageRules, "Research") == StageLabels;
  }

  /** For a ClinicalTrials.gov record whose title and phase name no phase in
      words ("phase 3", "phase ii", ...), the phase enum decides the stage:
      "phase3" gives "Phase 3 Trials", "phase2" "Phase 2 Trials", "phase1"
      "Phase 1 Trials" (after lower-casing), any other phase "Clinical Trials". */
  lemma StageOfTrial(a: Article)
    requires a.source == Some(ClinicalTrialsGov)
    requires !Contains(Lower(a.title.GetOr("")), "phase ")
    requires !Contains(Lower(a.phase.GetOr("")), "phase ")
    ensures var p := Lower(a.phase.GetOr(""));
      ResearchStage(a) == if p == "phase3" then "Phase 3 Trials"
                          else if p == "phase2" then "Phase 2 Trials"
                          else if p == "phase1" then "Phase 1 Trials"
                          else "Clinical Trials"
  {
    StageOfTrialView(StageView(a));
  }

  /** The stage table on what it sees of such a record. */
  lemma StageOfTrialView(v: View)
    requires v.source == ClinicalTrialsGov
    requires !Contains(v.title, "phase ") && !Contains(v.phase, "phase ")
    ensures FirstMatch(StageRules, v, "Research") ==
      if v.phase == "phase3" then "Phase 3 Trials"
      else if v.phase == "phase2" then "Phase 2 Trials"
      else if v.phase == "phase1" then "Phase 1 Trials"
      else "Clinical Trials"
  {
    PhaseRuleFires(v, 0);
    PhaseRuleFires(v, 1);
    PhaseRuleFires(v, 2);
    if v.phase == "phase3" {
      FirstMatchPicks(StageRules, v, "Research", 0);
    } else if v.phase == "phase2" {
      FirstMatchPicks(StageRules, v, "Research", 1);
    } else if v.phase == "phase1" {
      FirstMatchPicks(StageRules, v, "Research", 2);
    } else {
      assert Holds(StageRules[3].any[1], v);
      FirstMatchPicks(StageRules, v, "Research", 3);
    }
  }

  /** With no phase spelled out in words, each phase rule fires only on its
      phase enum. */
  lemma PhaseRuleFires(v: View, k: nat)
    requires k < 3
    requires !Contains(v.title, "phase ") && !Contains(v.phase, "phase ")
    ensures Fires(StageRules[k], v) <==> v.phase == ["phase3", "phase2", "phase1"][k]
  {
    NoSpelledPhase(v.title);
    NoSpelledPhase(v.phase);
    var r := StageRules[k];
    assert r.any[3] == Is(Phase, ["phase3", "phase2", "phase1"][k]);
    if Fires(r, v) {
      var i :| 0 <= i < |r.any| && Holds(r.any[i], v);
      assert i == 3;
    }
    if v.phase == ["phase3", "phase2", "phase1"][k] {
      assert Holds(r.any[3], v);
    }
  }

  /** The ClinicalTrials.gov enums PHASE3, PHASE2 and PHASE1 give the three trial stages. */
  lemma StageOfTrialEnum(a: Article)
    requires a.source == Some(ClinicalTrialsGov)
    requires !Contains(Lower(a.title.GetOr("")), "phase ")
    requires a.phase == Some("PHASE3") || a.phase == Some("PHASE2") || a.phase == Some("PHASE1")
    ensures a.phase == Some("PHASE3") ==> ResearchStage(a) == "Phase 3 Trials"
    ensures a.phase == Some("PHASE2") ==> ResearchStage(a) == "Phase 2 Trials"
    ensures a.phase == Some("PHASE1") ==> ResearchStage(a) == "Phase 1 Trials"
  {
    var p := Lower(a.phase.value);
    assert p == "phase" + [a.phase.value[5]];
    StageOfTrial(a);
  }

  /** A text without "phase " holds none of the spelled-out phase cues. */
  lemma NoSpelledPhase(t: string)
    requires !Contains(t, "phase ")
    ensures !Contains(t, "phase 3") && !Contains(t, "phase iii") && !Contains(t, "phase 2")
    ensures !Contains(t, "phase ii") && !Contains(t, "phase 1") && !Contains(t, "phase i")
  {
    forall w | w in ["phase 3", "phase iii", "phase 2", "phase ii", "phase 1", "phase i"]
      ensures !Contains(t, w)
    {
      if Contains(t, w) { ContainsInfix(t, w, 0, "phase "); }
    }
  }

  // ---------------------------------------------------------------- research type

  const CureWords: seq<string> := ["cure", "reversal", "regeneration", "beta cell restoration"]
  const PreventionWords: seq<string> := ["prevention", "delay onset", "prevent", "screening", "early detection"]
  const TreatmentWords: seq<string> := ["treatment", "therapy", "drug", "medication", "insulin", "glucose control"]
  const TechnologyWords: seq<string> := ["device", "pump", "monitor", "sensor", "artificial pancreas", "cgm"]
  const QualityOfLifeWords: seq<string> := ["quality of life", "psychological", "mental health", "support", "education"]
  const GeneticsWords: seq<string> := ["genetic", "biomarker", "genomic", "personalized", "precision"]

  const TypeRules: seq<Rule<string>> := [
    Rule(InTitleOrAbstract(CureWords), "Cure Research"),
    Rule(InTitleOrAbstract(PreventionWords), "Prevention"),
    Rule(InTitleOrAbstract(TreatmentWords), "Treatment"),
    Rule(InTitleOrAbstract(TechnologyWords), "Technology"),
    Rule(InTitleOrAbstract(QualityOfLifeWords), "Quality of Life"),
    Rule(InTitleOrAbstract(GeneticsWords), "Genetics")
  ]

  const TypeLabels: seq<string> := [
    "Cure Research", "Prevention", "Treatment", "Technology", "Quality of Life", "Genetics", "Research"
  ]

  /** The research-type chain sees the lower-cased title and abstract. */
  function TypeView(a: Article): View
  {
    View(Lower(a.title.GetOr("")), Lower(a.abstractText.GetOr("")), "", "", "", "")
  }

  function ResearchType(a: Article): string
  {
    FirstMatch(TypeRules, TypeView(a), "Research")
  }

  /** The research type is always one of the seven labels. */
  lemma TypeIsLabel(a: Article)
    ensures ResearchType(a) in TypeLabels
  {
    FirstMatchLabel(TypeRules, TypeView(a), "Research");
    assert Labels(TypeRules, "Research") == TypeLabels;
  }

  /** The label chosen is that of the first category with a word in the
      title or the abstract; no word of any category gives "Research". */
  lemma TypeFirstCategory(a: Article, k: nat)
    requires k < |TypeRules|
    requires exists i :: 0 <= i < |CategoryWords(k)| && InTitleOrAbstractText(a, CategoryWords(k)[i])
    requires forall j, i :: 0 <= j < k && 0 <= i < |CategoryWords(j)| ==> !InTitleOrAbstractText(a, CategoryWords(j)[i])
    ensures ResearchType(a) == TypeLabels[k]
  {
    var v := TypeView(a);
    forall j | 0 <= j < k ensures !Fires(TypeRules[j], v) {
      InTitleOrAbstractFires(CategoryWords(j), TypeLabels[j], v);
    }
    InTitleOrAbstractFires(CategoryWords(k), TypeLabels[k], v);
    FirstMatchPicks(TypeRules, v, "Research", k);
  }

  lemma TypeDefault(a: Article)
    requires forall j, i :: 0 <= j < |TypeRules| && 0 <= i < |CategoryWords(j)| ==> !InTitleOrAbstractText(a, CategoryWords(j)[i])
    ensures ResearchType(a) == "Research"
  {
    var v := TypeView(a);
    forall j | 0 <= j < |TypeRules| ensures !Fires(TypeRules[j], v) {
      InTitleOrAbstractFires(CategoryWords(j), TypeLabels[j], v);
    }
    FirstMatchDefault(TypeRules, v, "Research");
  }

  /** The word list of research-type category k, in chain order. */
  function CategoryWords(k: nat): (ws: seq<string>)
    requires k < |TypeRules|
    ensures TypeRules[k] == Rule(InTitleOrAbstract(ws), TypeLabels[k])
  {
    [CureWords, PreventionWords, TreatmentWords, TechnologyWords, QualityOfLifeWords, GeneticsWords][k]
  }

  /** `w in title.lower() or w in abstract.lower()` */
  predicate InTitleOrAbstractText(a: Article, w: string)
  {
    Contains(Lower(a.title.GetOr("")), w) || Contains(Lower(a.abstractText.GetOr("")), w)
  }
}
