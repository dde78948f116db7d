/** The records that flow through the pipeline. Python dictionaries with
    optional keys become datatypes whose optional fields are `Option`s:
    `None` is a missing key, so `d.get(k, default)` is `d.k.GetOr(default)`. */
module Records {
  import opened Ordered

  datatype Option<+T> = None | Some(value: T) {
    function GetOr(default: T): T
    {
      match this
      case Some(v) => v
      case None => default
    }
  }

  /** A normalised input record (research paper, trial, news excerpt or one of
      the hand-authored special articles); `kind` is the `type` key. */
  datatype Article = Article(
    title: Option<string>,
    abstractText: Option<string>,
    summary: Option<string>,
    source: Option<string>,
    phase: Option<string>,
    status: Option<string>,
    priority: Option<string>,
    kind: Option<string>,
    url: Option<string>,
    link: Option<string>,
    published: Option<string>,
    date: Option<string>,
    special: Option<bool>,
    stage: Option<string>,
    researchType: Option<string>,
    excitementRank: Option<int>)

  /** An article with no keys at all. */
  const EmptyArticle := Article(None, None, None, None, None, None, None, None,
                                None, None, None, None, None, None, None, None)

  /** The fields of a ClinicalTrials.gov study the processor reads
      (protocolSection.identificationModule/statusModule/designModule). */
  datatype Study = Study(
    nctId: Option<string>,
    briefTitle: Option<string>,
    officialTitle: Option<string>,
    overallStatus: Option<string>,
    phases: Option<seq<string>>,
    startDate: Option<string>)

  /** A processed trial, the dictionary built by the trial processor. */
  datatype Trial = Trial(
    nctId: string,
    title: string,
    phase: string,
    status: string,
    startDate: string,
    priority: string,
    source: string,
    url: string)

  datatype Badge = HOT | TRIAL | BREAKING | BREAKTHROUGH | APPROVAL | NEW

  function BadgeName(b: Badge): string
  {
    match b
    case HOT => "HOT"
    case TRIAL => "TRIAL"
    case BREAKING => "BREAKING"
    case BREAKTHROUGH => "BREAKTHROUGH"
    case APPROVAL => "APPROVAL"
    case NEW => "NEW"
  }

  datatype Meta = Meta(published: string, phase: string, status: string,
                       priority: string, stage: string, researchType: string)

  /** A digest entry as the generator builds it: every key is present. */
  datatype NewsItem = NewsItem(
    id: string,
    badge: Badge,
    title: string,
    summary: string,
    heading: string,
    details: string,
    meta: Meta,
    link: string,
    special: bool,
    excitementRank: int)

  /** A digest or archive entry as read back from JSON: any key may be
      missing; `meta` and `details` are dictionaries of strings. */
  datatype Entry = Entry(
    id: Option<string>,
    badge: Option<string>,
    title: Option<string>,
    summary: Option<string>,
    details: Option<map<string, string>>,
    meta: Option<map<string, string>>,
    link: Option<string>,
    special: Option<bool>,
    excitementRank: Option<int>,
    archivedDate: Option<string>)

  /** The JSON object a generated item is written as. */
  function ToEntry(n: NewsItem): (e: Entry)
    ensures e.id == Some(n.id) && e.badge == Some(BadgeName(n.badge)) && e.archivedDate == None
    ensures e.meta.Some? && e.meta.value.Keys == {"published", "phase", "status", "priority", "stage", "research_type"}
  {
    Entry(
      Some(n.id), Some(BadgeName(n.badge)), Some(n.title), Some(n.summary),
      Some(map["heading" := n.heading, "content" := n.details]),
      Some(map["published" := n.meta.published, "phase" := n.meta.phase,
               "status" := n.meta.status, "priority" := n.meta.priority,
               "stage" := n.meta.stage, "research_type" := n.meta.researchType]),
      Some(n.link), Some(n.special), Some(n.excitementRank), None)
  }

  /** `d.get(k, default)` on a dictionary of strings. */
  function Lookup(d: map<string, string>, k: string, default: string): string
  {
    if k in d then d[k] else default
  }

  /** `item.get('meta', {}).get('phase', 'Unknown')`: the key the counters call "sources". */
  function SourceOf(e: Entry): string
  {
    Lookup(e.meta.GetOr(map[]), "phase", "Unknown")
  }

  /** `item.get('meta', {}).get('priority', 'Unknown')` */
  function PriorityOf(e: Entry): string
  {
    Lookup(e.meta.GetOr(map[]), "priority", "Unknown")
  }

  /** `item.get('badge', 'Unknown')` */
  function BadgeOf(e: Entry): string
  {
    e.badge.GetOr("Unknown")
  }

  /** A counting loop's step: the counter of one more entry bumps that entry's key. */
  lemma TallyMapSnoc(entries: seq<Entry>, key: Entry -> string, n: nat)
    requires n < |entries|
    ensures MapSeq(entries[..n + 1], key) == MapSeq(entries[..n], key) + [key(entries[n])]
    ensures Tally(MapSeq(entries[..n + 1], key)) == Bump(Tally(MapSeq(entries[..n], key)), key(entries[n]))
  {
    TallySnoc(MapSeq(entries[..n], key), key(entries[n]));
  }

  /** The three counters of a list of entries. */
  function Counts(data: seq<Entry>): (Counter<string>, Counter<string>, Counter<string>)
  {
    (Tally(MapSeq(data, SourceOf)), Tally(MapSeq(data, PriorityOf)), Tally(MapSeq(data, BadgeOf)))
  }

  /** The counting loop's step: one more entry bumps each counter by its key. */
  lemma CountsStep(data: seq<Entry>, i: nat)
    requires i < |data|
    ensures var (s, p, b) := Counts(data[..i]);
            Counts(data[..i + 1]) == (Bump(s, SourceOf(data[i])), Bump(p, PriorityOf(data[i])), Bump(b, BadgeOf(data[i])))
  {
    TallyMapSnoc(data, SourceOf, i);
    TallyMapSnoc(data, PriorityOf, i);
    TallyMapSnoc(data, BadgeOf, i);
  }

  /** Converting items to JSON objects keeps the badge and meta information
      the report and the monitor count by. */
  lemma ToEntryKeepsCounters(n: NewsItem)
    ensures ToEntry(n).badge.GetOr("Unknown") == BadgeName(n.badge)
    ensures Lookup(ToEntry(n).meta.value, "phase", "Unknown") == n.meta.phase
    ensures Lookup(ToEntry(n).meta.value, "priority", "Unknown") == n.meta.priority
  {
  }
}
