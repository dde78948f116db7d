/** The narrator of scraper/medical_scraper.py: template trees that turn a
    record into a family-friendly summary and a detailed explanation, the
    sequential jargon-replacement table, and the 300-character cut. */
module Narrator {
  import opened Text
  import opened Rules
  import opened Records
  import Classifier

  const MaxSummary: nat := 300

  // ---------------------------------------------------------------- jargon

  /** The replacement table, in dictionary order. Keys are matched
      case-sensitively; "\U{CE}\U{B2}-cells" is the mis-encoded beta as it
      stands in the source file. */
  function JargonTable(): seq<(string, string)>
  {
    [
      ("type 1 diabetes mellitus", "Type 1 Diabetes"),
      ("T1DM", "Type 1 Diabetes"),
      ("insulin-dependent diabetes", "Type 1 Diabetes"),
      ("beta cells", "insulin-producing cells"),
      ("\U{CE}\U{B2}-cells", "insulin-producing cells"),
      ("pancreatic beta cells", "insulin-producing cells in the pancreas"),
      ("autoimmune", "immune system"),
      ("immune-mediated", "immune system"),
      ("glucose", "blood sugar"),
      ("glycemic control", "blood sugar control"),
      ("glycaemic", "blood sugar"),
      ("clinical trial", "research study"),
      ("randomized controlled trial", "research study"),
      ("efficacy", "effectiveness"),
      ("subcutaneous", "under the skin"),
      ("administration", "given"),
      ("cytotoxic T lymphocyte", "immune cell"),
      ("infiltration", "attack"),
      ("characterized by", "marked by"),
      ("supplementation of exogenous", "taking external"),
      ("endogenous", "natural"),
      ("pharmacokinetics", "how the body processes medicine"),
      ("pharmacodynamics", "how medicine affects the body"),
      ("pathophysiology", "how the disease works"),
      ("etiology", "causes"),
      ("pathogenesis", "disease development"),
      ("comorbidities", "other health conditions"),
      ("morbidity", "illness"),
      ("mortality", "death rates"),
      ("incidence", "new cases"),
      ("prevalence", "total cases"),
      ("prognosis", "outlook"),
      ("remission", "disease-free period"),
      ("exacerbation", "worsening"),
      ("contraindication", "reason not to use"),
      ("adverse effects", "side effects"),
      ("placebo-controlled", "compared to inactive treatment"),
      ("double-blind", "neither patients " + "nor doctors " + "know which " + "treatment"),
      ("multicenter", "conducted at multiple locations"),
      ("prospective", "forward-looking"),
      ("retrospective", "looking back at past data"),
      ("cohort", "group of people"),
      ("longitudinal", "over time"),
      ("cross-sectional", "at one point in time")
    ]
  }

  /** The replacements applied one after another: each works on the output
      of the previous one and rewrites all of its non-overlapping matches. */
  function ApplyReplacements(text: string, table: seq<(string, string)>): string
    decreases |table|
  {
    if table == [] then text
    else ApplyReplacements(Replace(text, table[0].0, table[0].1), table[1..])
  }

  /** The replacement loop: each pair rewrites the text left by the previous ones. */
  method ReplaceEach(text: string, table: seq<(string, string)>) returns (r: string)
    ensures r == ApplyReplacements(text, table)
  {
    r := text;
    for i := 0 to |table|
      invariant ApplyReplacements(r, table[i..]) == ApplyReplacements(text, table)
    {
      assert table[i..][1..] == table[i + 1..];
      r := Replace(r, table[i].0, table[i].1);
    }
  }

  /** `_clean_medical_jargon` */
  method CleanMedicalJargon(text: string) returns (r: string)
    ensures r == ApplyReplacements(text, JargonTable())
  {
    r := ReplaceEach(text, JargonTable());
  }

  /** A text that contains none of the keys comes back unchanged. */
  lemma {:induction false} ReplacementsAbsent(text: string, table: seq<(string, string)>)
    requires forall k :: 0 <= k < |table| ==> !Contains(text, table[k].0)
    ensures ApplyReplacements(text, table) == text
    decreases |table|
  {
    if table != [] {
      ReplaceAbsent(text, table[0].0, table[0].1);
      ReplacementsAbsent(text, table[1..]);
    }
  }

  /** Applying a table in two parts is applying it whole: later entries see
      what earlier entries wrote. */
  lemma {:induction false} ReplacementsSplit(text: string, table: seq<(string, string)>, n: nat)
    requires n <= |table|
    ensures ApplyReplacements(text, table) == ApplyReplacements(ApplyReplacements(text, table[..n]), table[n..])
    decreases n
  {
    if n > 0 {
      assert table[..n][1..] == table[1..][..n - 1];
      assert table[n..] == table[1..][n - 1..];
      ReplacementsSplit(Replace(text, table[0].0, table[0].1), table[1..], n - 1);
    }
  }

  // ---------------------------------------------------------------- trial summary

  const PhaseDescriptions: set<string> := {
    "early safety testing", "effectiveness testing", "large-scale testing before approval",
    "post-approval monitoring", "research study"
  }

  /** `phase_context.get(phase, "research study")` */
  function PhaseDescription(phase: string): (d: string)
    ensures d in PhaseDescriptions
    ensures d == "research study" <==> phase !in {"PHASE1", "PHASE2", "PHASE3", "PHASE4"}
  {
    if phase == "PHASE1" then "early safety testing"
    else if phase == "PHASE2" then "effectiveness testing"
    else if phase == "PHASE3" then "large-scale testing before approval"
    else if phase == "PHASE4" then "post-approval monitoring"
    else "research study"
  }

  /** The conditions of the drug-specific trial templates, tested on the lower-cased title. */
  const TrialCues: seq<seq<Cond>> := [
    [Has(Title, "teplizumab")],
    [Has(Title, "frexalimab"), Has(Title, "cd40l")],
    [Has(Title, "diamyd")],
    [Both(Has(Title, "tirzepatide"), Has(Title, "type 1"))],
    [Has(Title, "weight"), Has(Title, "obesity")],
    [Has(Title, "stem cell"), Has(Title, "regeneration")],
    [Has(Title, "immunotherapy"), Has(Title, "immune")]
  ]

  /** Drug-specific template k, with the phase description filled in. */
  function TrialTemplate(k: nat, pd: string): string
  {
    if k == 0 then
      "Teplizumab " + "is an FDA-approved " + "medication " + "that can delay " + "Type 1 Diabetes " +
        "in people " + "at high risk. " + "This "
        + pd + " is testing " + "its effectiveness " + "in a new population " + "to see if " +
          "it can preserve " + "natural insulin " + "production " + "longer."
    else if k == 1 then
      "This " + pd + " is testing " + "a new immune-modulating " + "drug designed " + "to protect " +
        "insulin-producing " + "cells from " + "attack. If " + "successful, " + "it could help " +
        "people keep " + "their natural " + "insulin production " + "longer after " + "diagnosis."
    else if k == 2 then
      "Diamyd is " + "investigating " + "whether a " + "vaccine-like " + "treatment " +
        "can help preserve " + "insulin production " + "in people " + "with specific " +
        "genetics (HLA " + "DR3-DQ2). " + "This personalized " + "approach targets " + "only those " +
        "most likely " + "to benefit."
    else if k == 3 then
      "This " + pd + " is testing " + "whether Tirzepatide " + "(a medication " + "approved for " +
        "Type 2 Diabetes " + "and weight " + "loss) can " + "help people " + "with Type " +
        "1 Diabetes " + "who are also " + "managing weight " + "issues. It " + "could be a " +
        "dual-benefit " + "treatment."
    else if k == 4 then
      "This " + pd + " focuses on " + "weight management " + "for people " + "with Type " +
        "1 Diabetes. " + "Managing weight " + "can improve " + "insulin sensitivity " +
        "and overall " + "health outcomes."
    else if k == 5 then
      "This " + pd + " is exploring " + "stem cell " + "therapy to " + "regenerate " +
        "insulin-producing " + "cells. This " + "approach aims " + "to restore " + "the body's " +
        "natural ability " + "to produce " + "insulin."
    else
      "This " + pd + " is testing " + "immunotherapy " + "approaches " + "to modify " +
        "the immune " + "system's attack " + "on insulin-producing " + "cells. The " + "goal is to " +
        "slow or stop " + "the disease " + "process."
  }

  function TrialRules(pd: string): (rs: seq<Rule<string>>)
    ensures |rs| == |TrialCues|
    ensures forall j :: 0 <= j < |rs| ==> rs[j] == Rule(TrialCues[j], TrialTemplate(j, pd))
  {
    seq(|TrialCues|, j requires 0 <= j < |TrialCues| => Rule(TrialCues[j], TrialTemplate(j, pd)))
  }

  function TrialFallback(priority: string, pd: string): string
  {
    var urgency := if priority == "HIGH" then "promising" else "interesting";
    "This " + urgency + " " + pd + " is testing " + "a new treatment " + "approach for " +
      "Type 1 Diabetes. " + "Clinical trials " + "are how we " + "discover better " + "treatments " +
      "and move closer " + "to a cure."
  }

  function TitleView(title: string): View
  {
    View(title, "", "", "", "", "")
  }

  function TrialSummary(title: string, phase: string, priority: string): string
  {
    var pd := PhaseDescription(phase);
    FirstMatch(TrialRules(pd), TitleView(title), TrialFallback(priority, pd))
  }

  /** Every trial summary is one of the eight templates, with the phase
      description filled in where the template has a slot. */
  lemma TrialSummaryIsTemplate(title: string, phase: string, priority: string)
    ensures var pd := PhaseDescription(phase);
      TrialSummary(title, phase, priority) in Labels(TrialRules(pd), TrialFallback(priority, pd))
    ensures PhaseDescription(phase) in PhaseDescriptions
  {
    var pd := PhaseDescription(phase);
    FirstMatchLabel(TrialRules(pd), TitleView(title), TrialFallback(priority, pd));
  }

  /** With no drug cue in the title the fallback is used; it names the
      urgency (promising for HIGH priority, interesting otherwise) and the
      phase description. */
  lemma TrialSummaryFallback(title: string, phase: string, priority: string)
    requires !Contains(title, "teplizumab") && !Contains(title, "frexalimab") && !Contains(title, "cd40l")
    requires !Contains(title, "diamyd") && !Contains(title, "tirzepatide")
    requires !Contains(title, "weight") && !Contains(title, "obesity")
    requires !Contains(title, "stem cell") && !Contains(title, "regeneration")
    requires !Contains(title, "immunotherapy") && !Contains(title, "immune")
    ensures TrialSummary(title, phase, priority) == TrialFallback(priority, PhaseDescription(phase))
    ensures TrialFallback(priority, PhaseDescription(phase))
         == "This " + (if priority == "HIGH" then "promising" else "interesting") + " " + PhaseDescription(phase)
            + " is testing " + "a new treatment " + "approach for " + "Type 1 Diabetes. " +
              "Clinical trials " + "are how we " + "discover better " + "treatments " +
              "and move closer " + "to a cure."
  {
    var pd := PhaseDescription(phase);
    var rules := TrialRules(pd);
    var v := TitleView(title);
    forall j | 0 <= j < |rules| ensures !Fires(rules[j], v) {
      NoTrialCue(title, j);
    }
    FirstMatchDefault(rules, v, TrialFallback(priority, pd));
  }

  lemma NoTrialCue(title: string, j: nat)
    requires j < |TrialCues|
    requires !Contains(title, "teplizumab") && !Contains(title, "frexalimab") && !Contains(title, "cd40l")
    requires !Contains(title, "diamyd") && !Contains(title, "tirzepatide")
    requires !Contains(title, "weight") && !Contains(title, "obesity")
    requires !Contains(title, "stem cell") && !Contains(title, "regeneration")
    requires !Contains(title, "immunotherapy") && !Contains(title, "immune")
    ensures forall c :: 0 <= c < |TrialCues[j]| ==> !Holds(TrialCues[j][c], TitleView(title))
  {
  }

  // ---------------------------------------------------------------- research summary

  function GenericResearch(): string
  {
    "This research " + "contributes " + "to our understanding " + "of Type 1 " + "Diabetes and " +
      "potential " + "new treatment " + "approaches."
  }

  function DeliveryResearch(): string
  {
    "Researchers " + "are testing " + "a new way " + "to deliver " + "medicine that " +
      "could protect " + "insulin-producing " + "cells. They're " + "using tiny " + "'packages' " +
      "that can carry " + "healing treatments " + "directly where " + "they're needed " + "most."
  }

  function CgmResearch(): string
  {
    "This study " + "examined continuous " + "glucose monitoring " + "systems and " + "how they're " +
      "being used " + "in real-world " + "settings. " + "These devices " + "help track " +
      "blood sugar " + "levels 24/7 " + "without finger " + "pricks."
  }

  /** The research-summary templates, tested on the lower-cased title. */
  function ResearchRules(): seq<Rule<string>>
  {
    [
      Rule(AnyIn(Title, ["exosome", "delivery", "nanoparticle", "monocyte backpack"]), DeliveryResearch()),
      Rule(AnyIn(Title, ["insulin delivery", "closed-loop", "automated", "artificial pancreas"]),
        "This study " + "looked at " + "automatic " + "insulin delivery " + "systems - " +
          "like an 'artificial " + "pancreas' " + "that adjusts " + "insulin automatically " +
          "without manual " + "input. These " + "systems can " + "help keep " + "blood sugar " +
          "levels more " + "stable with " + "less effort."),
      Rule(AnyIn(Title, ["glucose monitoring", "CGM", "continuous glucose"]), CgmResearch()),
      Rule([Both(Has(Title, "transition"), Has(Title, "adult care"))],
        "This research " + "focuses on " + "what happens " + "when young " + "people with " +
          "Type 1 Diabetes " + "move from " + "pediatric " + "care to adult " + "care. It's " +
          "studying how " + "to make this " + "transition " + "smoother and " + "keep people " +
          "healthy during " + "this important " + "life change."),
      Rule(AnyIn(Title, ["pediatric", "children", "adolescent"]),
        "This study " + "specifically " + "looked at " + "how Type 1 " + "Diabetes affects " +
          "children and " + "teenagers, " + "and what treatments " + "work best " + "for this age " +
          "group. Understanding " + "pediatric " + "diabetes helps " + "improve care " +
          "for young " + "people."),
      Rule(AnyIn(Title, ["quality of life", "mental health", "depression", "anxiety", "distress"]),
        "This research " + "examined the " + "emotional " + "and psychological " + "impact of " +
          "living with " + "Type 1 Diabetes. " + "Understanding " + "these challenges " +
          "helps improve " + "overall care " + "and support " + "for patients " + "and families."),
      Rule(AnyIn(Title, ["care processes", "comorbid", "healthcare", "delivery", "adherence"]),
        "Researchers " + "looked at " + "how well diabetes " + "care is being " + "delivered " +
          "in the real " + "world, including " + "what other " + "health conditions " +
          "people with " + "Type 1 Diabetes " + "might face " + "and how doctors " + "can provide " +
          "better comprehensive " + "care."),
      Rule(AnyIn(Title, ["prevention", "prediction", "risk", "screening", "early detection"]),
        "This study " + "explored ways " + "to identify " + "people at " + "risk for Type " +
          "1 Diabetes " + "before symptoms " + "appear, and " + "potential " + "strategies " +
          "to prevent " + "or delay the " + "disease. Early " + "intervention " + "could change " +
          "the course " + "of the disease."),
      Rule(AnyIn(Title, ["genetic", "HLA", "mutation", "variant", "polymorphism"]),
        "This research " + "examined the " + "genetic factors " + "that influence " +
          "Type 1 Diabetes " + "risk and progression. " + "Understanding " + "genetics helps " +
          "identify who " + "might benefit " + "most from " + "specific treatments.")
    ]
  }

  const KeyConceptPhrases: seq<string> := [
    "explored ways to improve treatment outcomes", "investigated ways to reduce complications",
    "studied methods to enhance quality of life", "tested new treatment approaches",
    "investigated disease mechanisms", "examined important aspects of the disease"
  ]

  /** The key-concept chain, tested on the lower-cased abstract. */
  const KeyConceptRules: seq<Rule<string>> := [
    Rule(AnyIn(Abstract, ["improved", "better"]), KeyConceptPhrases[0]),
    Rule(AnyIn(Abstract, ["reduced", "decreased"]), KeyConceptPhrases[1]),
    Rule(AnyIn(Abstract, ["increased", "enhanced"]), KeyConceptPhrases[2]),
    Rule(AnyIn(Abstract, ["novel", "new"]), KeyConceptPhrases[3]),
    Rule(AnyIn(Abstract, ["mechanism", "pathway"]), KeyConceptPhrases[4])
  ]

  function KeyConcepts(abstractText: string): string
  {
    FirstMatch(KeyConceptRules, View("", Lower(abstractText), "", "", "", ""), KeyConceptPhrases[5])
  }

  /** The key concepts are always one of the six phrases, none of them empty. */
  lemma KeyConceptsIsPhrase(abstractText: string)
    ensures KeyConcepts(abstractText) in KeyConceptPhrases
    ensures KeyConcepts(abstractText) != ""
  {
    FirstMatchLabel(KeyConceptRules, View("", Lower(abstractText), "", "", "", ""), KeyConceptPhrases[5]);
    assert Labels(KeyConceptRules, KeyConceptPhrases[5]) == KeyConceptPhrases;
  }

  /** The fallback reads the abstract when it has more than 50 characters; the
      key concepts are never empty, so their test always passes. */
  function ResearchFallback(abstractText: string): string
  {
    if |abstractText| > 50 then
      "This research " + KeyConcepts(abstractText) + " in Type 1 " + "Diabetes. " + "The findings " +
        "could contribute " + "to better " + "understanding " + "and treatment " + "of the disease."
    else GenericResearch()
  }

  function ResearchSummary(title: string, abstractText: string): string
  {
    FirstMatch(ResearchRules(), TitleView(title), ResearchFallback(abstractText))
  }

  /** The research summary is one of the nine templates or the fallback. */
  lemma ResearchSummaryIsTemplate(title: string, abstractText: string)
    ensures ResearchSummary(title, abstractText) in Labels(ResearchRules(), ResearchFallback(abstractText))
  {
    FirstMatchLabel(ResearchRules(), TitleView(title), ResearchFallback(abstractText));
  }

  /** "insulin delivery" in the second template and "delivery" in the
      seventh can never decide: any title holding them already holds
      "delivery", which the first template tests. */
  lemma DeliveryCuesShadowed(title: string, abstractText: string)
    requires Contains(title, "delivery")
    ensures ResearchSummary(title, abstractText) == DeliveryResearch()
  {
    assert Holds(ResearchRules()[0].any[1], TitleView(title));
    FirstMatchPicks(ResearchRules(), TitleView(title), ResearchFallback(abstractText), 0);
  }

  /** The explanation chain has the same shadowing: "delivery" in its first
      rule catches every title its "insulin delivery" rule would. */
  lemma ExplanationDeliveryShadowed(title: string, source: string)
    requires Contains(title, "delivery")
    ensures OrdinaryExplanation(title, source) == ExplanationRules()[0].outcome
  {
    assert Holds(ExplanationRules()[0].any[1], View(title, "", "", source, "", ""));
    FirstMatchPicks(ExplanationRules(), View(title, "", "", source, "", ""), OtherExplanation(), 0);
  }

  lemma InsulinDeliveryHasDelivery(title: string)
    requires Contains(title, "insulin delivery")
    ensures Contains(title, "delivery")
  {
    ContainsInfix(title, "insulin delivery", 8, "delivery");
  }

  /** The "CGM" and "HLA" cues are upper-case and the title is lower-cased
      before it is tested, so those two cues never hold. */
  lemma UpperCaseCuesDead(title: string)
    ensures !Holds(ResearchRules()[2].any[1], TitleView(Lower(title)))
    ensures !Holds(ResearchRules()[8].any[1], TitleView(Lower(title)))
  {
    LowerMissesUpper(title, "CGM", 0);
    LowerMissesUpper(title, "HLA", 0);
  }

  // ---------------------------------------------------------------- family summary

  function ContextFallback(): string
  {
    GenericResearch()
  }

  /** CT.gov records get a trial summary, PubMed records a research summary,
      anything else the generic sentence. */
  function ContextualSummary(title: string, abstractText: string, source: string, phase: string, priority: string): string
  {
    if source == Classifier.ClinicalTrialsGov then TrialSummary(title, phase, priority)
    else if source == "PubMed" then ResearchSummary(title, abstractText)
    else ContextFallback()
  }

  function EledonSummary(): string
  {
    "Eledon Pharmaceuticals " + "is developing " + "tegoprubart, " + "a medication " +
      "that blocks " + "a specific " + "immune system " + "signal (CD40L) " + "that causes " +
      "the body to " + "attack its " + "own cells. " + "While being " + "tested for " +
      "organ transplants, " + "this same " + "mechanism " + "could potentially " +
      "stop the immune " + "system from " + "destroying " + "insulin-producing " + "cells in Type " +
      "1 Diabetes. " + "Think of it " + "as turning " + "off the 'attack " + "switch' that " +
      "causes the " + "disease."
  }

  function SpecialSummary(): string
  {
    "This is a " + "high-priority " + "development " + "in Type 1 " + "Diabetes research " +
      "that could " + "significantly " + "impact treatment " + "options and " + "quality of " +
      "life for people " + "living with " + "the condition."
  }

  /** The 300-character cut: longer texts keep 297 characters and end in "...". */
  function Shorten(s: string): (r: string)
    ensures |r| <= MaxSummary
    ensures |s| <= MaxSummary ==> r == s
    ensures |s| > MaxSummary ==> |r| == MaxSummary && r[..297] == s[..297] && r[297..] == "..."
  {
    if |s| > MaxSummary then s[..297] + "..." else s
  }

  /** The summary of a special record, from its lower-cased title. */
  function SpecialFamilySummary(title: string): string
  {
    if Contains(title, "eledon") || Contains(title, "tegoprubart") then EledonSummary() else SpecialSummary()
  }

  /** The contextual template of any other record, cleaned of jargon. */
  function CleanSummary(a: Article): string
  {
    var summary := ContextualSummary(Lower(a.title.GetOr("")), a.abstractText.GetOr(""), a.source.GetOr(""),
                                     a.phase.GetOr(""), a.priority.GetOr("MEDIUM"));
    ApplyReplacements(summary, JargonTable())
  }

  /** ... cut to 300 characters (see `Shorten`). */
  function OrdinaryFamilySummary(a: Article): string
  {
    Shorten(CleanSummary(a))
  }

  /** `_generate_family_summary`. */
  function FamilySummary(a: Article): string
  {
    if a.special.GetOr(false) then SpecialFamilySummary(Lower(a.title.GetOr(""))) else OrdinaryFamilySummary(a)
  }

  /** Every other record's summary is the cleaned template under the
      300-character cut, so it is never longer than 300 characters. */
  lemma OrdinarySummaryBound(a: Article)
    requires !a.special.GetOr(false)
    ensures |FamilySummary(a)| <= MaxSummary
  {
  }

  /** The special text is one of two: the Eledon text when the title names
      Eledon or tegoprubart, the generic special text when it names neither. */
  lemma SpecialSummaryChoice(title: string)
    ensures SpecialFamilySummary(title) == EledonSummary() || SpecialFamilySummary(title) == SpecialSummary()
    ensures Contains(title, "eledon") || Contains(title, "tegoprubart") ==> SpecialFamilySummary(title) == EledonSummary()
    ensures !Contains(title, "eledon") && !Contains(title, "tegoprubart") ==> SpecialFamilySummary(title) == SpecialSummary()
  {
  }

  /** Special records get the special text of their lower-cased title,
      neither cleaned of jargon nor cut. */
  lemma SpecialSummaryUncut(a: Article)
    requires a.special.GetOr(false)
    ensures FamilySummary(a) == SpecialFamilySummary(Lower(a.title.GetOr("")))
  {
  }

  /** A special record whose title names Eledon or tegoprubart gets the Eledon text. */
  lemma SpecialSummaryEledon(a: Article)
    requires a.special.GetOr(false)
    requires Contains(Lower(a.title.GetOr("")), "eledon") || Contains(Lower(a.title.GetOr("")), "tegoprubart")
    ensures FamilySummary(a) == EledonSummary()
  {
    SpecialSummaryUncut(a);
    SpecialSummaryChoice(Lower(a.title.GetOr("")));
  }

  /** Any other special record gets the generic special text. */
  lemma SpecialSummaryGeneric(a: Article)
    requires a.special.GetOr(false)
    requires !Contains(Lower(a.title.GetOr("")), "eledon") && !Contains(Lower(a.title.GetOr("")), "tegoprubart")
    ensures FamilySummary(a) == SpecialSummary()
  {
    SpecialSummaryUncut(a);
    SpecialSummaryChoice(Lower(a.title.GetOr("")));
  }

  /** The Eledon text is longer than the 300-character cut it escapes. */
  lemma EledonSummaryLong()
    ensures |EledonSummary()| > MaxSummary
  {
  }

  // ---------------------------------------------------------------- detailed explanation

  function ElonExplanation(): string
  {
    "This represents " + "one of the " + "most significant " + "advances in " + "T1D treatment " +
      "in recent " + "years. The " + "medication " + "targets the " + "underlying " + "autoimmune " +
      "process that " + "destroys insulin-producing " + "cells, potentially " + "slowing or " +
      "even halting " + "disease progression. " + "Early results " + "suggest it " +
      "may be particularly " + "effective " + "when administered " + "early in the " +
      "disease course, " + "offering hope " + "for preserving " + "natural insulin " + "production " +
      "and reducing " + "long-term " + "complications."
  }

  function SpecialExplanation(): string
  {
    "This high-priority " + "research represents " + "a significant " + "step forward " +
      "in our understanding " + "and treatment " + "of Type 1 " + "Diabetes. " + "The potential " +
      "impact on " + "quality of " + "life and disease " + "management " + "could be substantial " +
      "for people " + "living with " + "this condition."
  }

  function OtherExplanation(): string
  {
    "This work " + "represents " + "progress in " + "understanding " + "and treating " +
      "Type 1 Diabetes. " + "Research happens " + "in steps - " + "from understanding " +
      "basic biology, " + "to testing " + "in labs, to " + "clinical trials, " + "to approved " +
      "treatments. " + "Every study, " + "no matter " + "how technical, " + "moves us forward " +
      "on that path " + "toward better " + "options and " + "eventually " + "a cure."
  }

  /** The explanation chain, on the lower-cased title and the raw source. */
  function ExplanationRules(): seq<Rule<string>>
  {
    [
      Rule(AnyIn(Title, ["exosome", "delivery"]),
        "This research " + "is exploring " + "a new way " + "to protect " + "insulin-producing " +
          "cells using " + "tiny biological " + "'packages' " + "that can deliver " +
          "medicine directly " + "to where it's " + "needed. Think " + "of it like " + "a targeted " +
          "delivery system " + "that could " + "help slow " + "down or stop " + "the immune " +
          "system attack " + "on the pancreas. " + "If successful, " + "this could " +
          "mean better " + "preservation " + "of natural " + "insulin production, " + "especially " +
          "for people " + "recently diagnosed."),
      Rule(AnyIn(Title, ["insulin delivery", "closed-loop", "automated"]),
        "Automated " + "insulin delivery " + "systems (sometimes " + "called 'artificial " +
          "pancreas' " + "systems) use " + "continuous " + "glucose monitors " + "and smart " +
          "algorithms " + "to automatically " + "adjust insulin " + "throughout " + "the day and " +
          "night. This " + "study shows " + "how well these " + "systems work " + "in real life " +
          "- not just " + "in controlled " + "research settings. " + "Better time-in-range " +
          "means fewer " + "dangerous " + "highs and " + "lows, better " + "long-term " +
          "health, and " + "less mental " + "burden from " + "constant diabetes " + "management."),
      Rule([Both(Has(Title, "transition"), Has(Title, "adult care"))],
        "Moving from " + "pediatric " + "to adult diabetes " + "care is a " + "critical time. " +
          "Young adults " + "often struggle " + "with maintaining " + "good blood " +
          "sugar control " + "during this " + "transition. " + "This research " +
          "helps us understand " + "what goes " + "wrong and " + "how to better " +
          "support people " + "during this " + "change. Better " + "transition " + "care means " +
          "fewer complications " + "and hospitalizations " + "during this " + "vulnerable " +
          "period."),
      Rule(AnyIn(Title, ["glucose monitoring", "CGM"]),
        "Continuous " + "glucose monitors " + "(CGMs) have " + "revolutionized " +
          "diabetes management " + "by showing " + "blood sugar " + "trends in " + "real-time " +
          "without finger " + "pricks. This " + "study looks " + "at how these " + "devices are " +
          "actually being " + "used in everyday " + "life and their " + "impact on " +
          "health outcomes. " + "Understanding " + "real-world " + "use helps " + "improve the " +
          "technology " + "and shows " + "insurance " + "companies " + "why coverage " +
          "is essential."),
      Rule(AnyIn(Title, ["teplizumab", "immunotherapy"]),
        "This is a " + "disease-modifying " + "therapy that " + "targets the " + "immune system " +
          "attack on " + "insulin-producing " + "cells. Unlike " + "insulin which " + "just treats " +
          "symptoms, " + "this aims " + "to slow or " + "stop the underlying " + "disease process. " +
          "Getting treatment " + "early (before " + "all insulin " + "production " +
          "is lost) could " + "preserve natural " + "insulin production " + "longer, meaning " +
          "better blood " + "sugar control " + "and potentially " + "fewer complications."),
      Rule([Is(Source, Classifier.ClinicalTrialsGov)],
        "Clinical trials " + "test new treatments " + "that might " + "help people " + "with Type " +
          "1 Diabetes. " + "Participating " + "helps advance " + "research while " + "potentially " +
          "giving access " + "to cutting-edge " + "treatments. " + "Every person " + "who joins " +
          "a trial brings " + "us closer " + "to better " + "options for " + "everyone living " +
          "with this " + "condition."),
      Rule([Is(Source, "PubMed")],
        "This research " + "adds to our " + "scientific " + "understanding " + "of Type 1 " +
          "Diabetes. " + "While not " + "every study " + "leads to immediate " + "treatments, " +
          "each piece " + "of knowledge " + "helps researchers " + "develop better " + "therapies. " +
          "Breakthroughs " + "often come " + "from connecting " + "insights across " +
          "many different " + "studies like " + "this one.")
    ]
  }

  /** The explanation of a special record, from its lower-cased title. */
  function SpecialDetailedExplanation(title: string): string
  {
    if Contains(title, "elon") then ElonExplanation() else SpecialExplanation()
  }

  /** The explanation chain on the lower-cased title and the raw source. */
  function OrdinaryExplanation(title: string, source: string): string
  {
    FirstMatch(ExplanationRules(), View(title, "", "", source, "", ""), OtherExplanation())
  }

  /** `_generate_detailed_explanation` on the fields it reads: the special
      flag, the title (lower-cased here) and the source. */
  function Explanation(special: bool, title: string, source: string): string
  {
    if special then SpecialDetailedExplanation(Lower(title)) else OrdinaryExplanation(Lower(title), source)
  }

  /** `_generate_detailed_explanation`; a `special` value is truthy exactly when it is `True`. */
  function DetailedExplanation(a: Article): string
  {
    Explanation(a.special == Some(true), a.title.GetOr(""), a.source.GetOr(""))
  }

  /** The explanation of a record that is not special is one of the eight
      fixed texts of the chain. */
  lemma ExplanationIsFixed(title: string, source: string)
    ensures OrdinaryExplanation(title, source) in Labels(ExplanationRules(), OtherExplanation())
  {
    FirstMatchLabel(ExplanationRules(), View(title, "", "", source, "", ""), OtherExplanation());
  }

  /** The explanation chain's "CGM" cue is upper-case and the title is
      lower-cased before it is tested, so that cue never holds either. */
  lemma ExplanationCgmCueDead(title: string, source: string)
    ensures !Holds(ExplanationRules()[3].any[1], View(Lower(title), "", "", source, "", ""))
  {
    assert ExplanationRules()[3].any[1] == Has(Title, "CGM");
    LowerMissesUpper(title, "CGM", 0);
  }

  /** The special branch of the explanation reads the lower-cased title alone. */
  lemma SpecialBranch(title: string, source: string)
    ensures Explanation(true, title, source) == SpecialDetailedExplanation(Lower(title))
  {
  }

  /** A special record's explanation depends on its lower-cased title alone. */
  lemma SpecialExplainedByTitle(a: Article)
    requires a.special == Some(true)
    ensures DetailedExplanation(a) == SpecialDetailedExplanation(Lower(a.title.GetOr("")))
  {
    SpecialBranch(a.title.GetOr(""), a.source.GetOr(""));
  }

  /** A special title that holds no "lo" in any case gets the generic special
      explanation: the "elon" test cannot fire on it. */
  lemma TitleWithoutLo(title: string)
    requires NoCasedPair(title, 'l', 'L', 'o', 'O')
    ensures SpecialDetailedExplanation(Lower(title)) == SpecialExplanation()
  {
    NoCasedPairMisses(title, "elon", 1);
  }

  /** So a special record whose title holds no "lo" in any case gets the
      generic special explanation. */
  lemma SpecialWithoutLo(a: Article)
    requires a.special == Some(true) && NoCasedPair(a.title.GetOr(""), 'l', 'L', 'o', 'O')
    ensures DetailedExplanation(a) == SpecialExplanation()
  {
    SpecialExplainedByTitle(a);
    TitleWithoutLo(a.title.GetOr(""));
  }

  /** The special-explanation test looks for "elon", which "eledon" does not
      hold: a special record titled "Eledon" gets the generic special text. */
  lemma ElonMissesEledon()
    ensures Lower("Eledon") == "eledon"
    ensures !Contains("eledon", "elon")
    ensures SpecialDetailedExplanation(Lower("Eledon")) == SpecialExplanation()
  {
    var t := "eledon";
    assert Lower("Eledon") == t;
    assert !Contains(t, "elon") by {
      forall i: nat | i <= |t| ensures !OccursAt(t, "elon", i) {
        if i + 4 <= |t| {
          assert t[i..i + 4] == [t[i], t[i + 1], t[i + 2], t[i + 3]];
        }
      }
    }
  }
}
