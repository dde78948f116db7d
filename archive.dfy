/** The archive merger and the run report of update_website.py. The archive
    file's contents are a parameter (`None` when the file does not exist) and
    the clock is a function from the position of a digest entry to the time
    read when that entry is archived. */
module Archive {
  import opened Records
  import opened Ordered

  /** At most this many entries are kept. */
  const ArchiveCap: nat := 50

  // ---------------------------------------------------------------- merge

  /** `{item.get('id') for item in archive}`: a missing id is `None`, and is
      itself a member when some entry has no id. */
  function Ids(archive: seq<Entry>): set<Option<string>>
  {
    set e | e in archive :: e.id
  }

  function Stamp(e: Entry, time: string): (s: Entry)
    ensures s.id == e.id && s.archivedDate == Some(time)
  {
    e.(archivedDate := Some(time))
  }

  /** The digest as the loop leaves it: the dictionaries it archived now carry
      their `archived_date` (the caller's list holds the same dictionaries). */
  function Marked(digest: seq<Entry>, ids: set<Option<string>>, clock: nat -> string): (m: seq<Entry>)
    ensures |m| == |digest|
    ensures forall i :: 0 <= i < |digest| ==> m[i].id == digest[i].id
  {
    var m := seq(|digest|, i requires 0 <= i < |digest| =>
      if digest[i].id in ids then digest[i] else Stamp(digest[i], clock(i)));
    assert forall i :: 0 <= i < |digest| ==> m[i] == if digest[i].id in ids then digest[i] else Stamp(digest[i], clock(i));
    m
  }

  /** The entries the loop appends, in digest order: those whose id is not
      in `ids`, stamped. */
  function Appended(digest: seq<Entry>, ids: set<Option<string>>, clock: nat -> string): (app: seq<Entry>)
    ensures |app| <= |digest|
    decreases |digest|
  {
    if digest == [] then []
    else
      var i := |digest| - 1;
      Appended(digest[..i], ids, clock) + (if digest[i].id in ids then [] else [Stamp(digest[i], clock(i))])
  }

  /** Python's `s[-n:]` for n > 0 */
  function LastN(s: seq<Entry>, n: nat): (r: seq<Entry>)
    requires n > 0
    ensures |r| == if |s| <= n then |s| else n
  {
    if |s| <= n then s else s[|s| - n..]
  }

  /** The archive after the merge. */
  function Merge(archive: seq<Entry>, digest: seq<Entry>, clock: nat -> string): (m: seq<Entry>)
    ensures |m| <= ArchiveCap
  {
    LastN(archive + Appended(digest, Ids(archive), clock), ArchiveCap)
  }

  /** `create_news_archive`: load (or start empty), append the digest
      entries with new ids, stamping each, and keep the last fifty. */
  method CreateNewsArchive(stored: Option<seq<Entry>>, digest: array<Entry>, clock: nat -> string)
    returns (archive: seq<Entry>)
    modifies digest
    ensures archive == Merge(stored.GetOr([]), old(digest[..]), clock)
    ensures digest[..] == Marked(old(digest[..]), Ids(stored.GetOr([])), clock)
  {
    archive := [];
    if stored.Some? {
      archive := stored.value;
    }
    var existing := set e | e in archive :: e.id;
    var appended := ArchiveNew(digest, existing, clock);
    archive := archive + appended;
    archive := if |archive| > ArchiveCap then archive[|archive| - ArchiveCap..] else archive;
  }

  /** The loop of `create_news_archive`: every digest entry whose id is not
      in `ids` is stamped in place and appended, in digest order. */
  method ArchiveNew(digest: array<Entry>, ids: set<Option<string>>, clock: nat -> string)
    returns (appended: seq<Entry>)
    modifies digest
    ensures appended == Appended(old(digest[..]), ids, clock)
    ensures digest[..] == Marked(old(digest[..]), ids, clock)
  {
    appended := [];
    ghost var input := digest[..];
    for i := 0 to digest.Length
      invariant appended == Appended(input[..i], ids, clock)
      invariant forall k :: 0 <= k < i ==> digest[k] == Marked(input, ids, clock)[k]
      invariant forall k :: i <= k < digest.Length ==> digest[k] == input[k]
    {
      AppendedStep(input, ids, clock, i);
      MarkedAt(input, ids, clock, i);
      if digest[i].id !in ids {
        digest[i] := Stamp(digest[i], clock(i));
        appended := appended + [digest[i]];
      }
    }
    assert input[..digest.Length] == input;
    assert digest[..] == Marked(input, ids, clock);
  }

  // ---------------------------------------------------------------- merge lemmas

  /** One entry of the digest as the loop leaves it. */
  lemma MarkedAt(digest: seq<Entry>, ids: set<Option<string>>, clock: nat -> string, i: nat)
    requires i < |digest|
    ensures Marked(digest, ids, clock)[i] == if digest[i].id in ids then digest[i] else Stamp(digest[i], clock(i))
  {
  }

  /** The merge loop's step over one more digest entry. */
  lemma AppendedStep(digest: seq<Entry>, ids: set<Option<string>>, clock: nat -> string, i: nat)
    requires i < |digest|
    ensures Appended(digest[..i + 1], ids, clock) ==
            Appended(digest[..i], ids, clock) + (if digest[i].id in ids then [] else [Stamp(digest[i], clock(i))])
  {
    assert digest[..i + 1][..i] == digest[..i];
  }


  /** The appended entries are exactly the digest entries with new ids, each
      stamped with the time at its position, in digest order: they are the
      new-id entries of the digest as the loop leaves it. */
  lemma {:induction false} AppendedIsMarkedNew(digest: seq<Entry>, ids: set<Option<string>>, clock: nat -> string)
    ensures Appended(digest, ids, clock) == NewOnes(Marked(digest, ids, clock), ids)
    decreases |digest|
  {
    if digest != [] {
      var i := |digest| - 1;
      AppendedIsMarkedNew(digest[..i], ids, clock);
      var m := Marked(digest, ids, clock);
      assert Marked(digest[..i], ids, clock) == m[..i];
      assert m == m[..i] + [m[i]];
      NewOnesSnoc(m[..i], m[i], ids);
    }
  }

  /** The entries of `s` whose id is not in `ids`, in order. */
  function NewOnes(s: seq<Entry>, ids: set<Option<string>>): seq<Entry>
    decreases |s|
  {
    if s == [] then [] else (if s[0].id in ids then [] else [s[0]]) + NewOnes(s[1..], ids)
  }

  lemma {:induction false} NewOnesSnoc(s: seq<Entry>, x: Entry, ids: set<Option<string>>)
    ensures NewOnes(s + [x], ids) == NewOnes(s, ids) + (if x.id in ids then [] else [x])
    decreases |s|
  {
    if s != [] {
      assert (s + [x])[1..] == s[1..] + [x];
      NewOnesSnoc(s[1..], x, ids);
    }
  }

  /** Every appended entry comes from the digest with an id that was new,
      and every digest entry with a new id is appended. */
  lemma AppendedMembers(digest: seq<Entry>, ids: set<Option<string>>, clock: nat -> string)
    ensures forall e :: e in Appended(digest, ids, clock) ==> e.id !in ids && e.id in Ids(digest)
    ensures forall i :: 0 <= i < |digest| && digest[i].id !in ids ==> Stamp(digest[i], clock(i)) in Appended(digest, ids, clock)
  {
    AppendedFromDigest(digest, ids, clock);
    AppendedTakesNew(digest, ids, clock);
  }

  /** Every appended entry has a new id of the digest. */
  lemma {:induction false} AppendedFromDigest(digest: seq<Entry>, ids: set<Option<string>>, clock: nat -> string)
    ensures forall e :: e in Appended(digest, ids, clock) ==> e.id !in ids && e.id in Ids(digest)
    decreases |digest|
  {
    if digest != [] {
      var i := |digest| - 1;
      AppendedFromDigest(digest[..i], ids, clock);
      assert forall e :: e in digest[..i] ==> e in digest;
      assert digest[i] in digest;
    }
  }

  /** Every digest entry with a new id is appended, stamped. */
  lemma {:induction false} AppendedTakesNew(digest: seq<Entry>, ids: set<Option<string>>, clock: nat -> string)
    ensures forall i :: 0 <= i < |digest| && digest[i].id !in ids ==> Stamp(digest[i], clock(i)) in Appended(digest, ids, clock)
    decreases |digest|
  {
    if digest != [] {
      var n := |digest| - 1;
      AppendedTakesNew(digest[..n], ids, clock);
      assert forall i :: 0 <= i < n ==> digest[..n][i] == digest[i];
    }
  }

  /** When no digest id was seen before, every digest entry is appended. */
  lemma {:induction false} AppendedAllNew(digest: seq<Entry>, ids: set<Option<string>>, clock: nat -> string)
    requires forall i :: 0 <= i < |digest| ==> digest[i].id !in ids
    ensures Appended(digest, ids, clock) == Marked(digest, ids, clock)
    decreases |digest|
  {
    if digest != [] {
      var i := |digest| - 1;
      AppendedAllNew(digest[..i], ids, clock);
      assert Marked(digest, ids, clock) == Marked(digest[..i], ids, clock) + [Stamp(digest[i], clock(i))];
    }
  }

  /** When every digest id is already archived, nothing is appended. */
  lemma {:induction false} AppendedNoneNew(digest: seq<Entry>, ids: set<Option<string>>, clock: nat -> string)
    requires forall i :: 0 <= i < |digest| ==> digest[i].id in ids
    ensures Appended(digest, ids, clock) == []
    decreases |digest|
  {
    if digest != [] {
      AppendedNoneNew(digest[..|digest| - 1], ids, clock);
    }
  }

  /** A missing archive starts the merge from nothing: every digest entry is
      stamped and appended, and the last fifty are kept. */
  lemma FirstArchive(digest: seq<Entry>, clock: nat -> string)
    ensures Merge([], digest, clock) == LastN(Marked(digest, {}, clock), ArchiveCap)
  {
    assert Ids([]) == {};
    AppendedAllNew(digest, {}, clock);
  }

  /** The original entries that survive keep their order and contents and
      come first; the appended entries follow in digest order; eviction
      removes from the front. */
  lemma MergeKeepsArchive(archive: seq<Entry>, digest: seq<Entry>, clock: nat -> string)
    ensures var m := Merge(archive, digest, clock);
            var app := Appended(digest, Ids(archive), clock);
            var evicted := |archive| + |app| - |m|;
            && (evicted <= |archive| ==> m == archive[evicted..] + app)
            && (evicted > |archive| ==> m == app[evicted - |archive|..])
  {
    var app := Appended(digest, Ids(archive), clock);
    var all := archive + app;
    var m := Merge(archive, digest, clock);
    var evicted := |all| - |m|;
    assert m == all[evicted..];
    if evicted <= |archive| {
      assert all[evicted..] == archive[evicted..] + app;
    } else {
      assert all[evicted..] == app[evicted - |archive|..];
    }
  }

  /** Merging the same digest again appends nothing when every digest id is
      still in the archive after the first merge, i.e. when eviction removed
      none of them. */
  lemma MergeAgain(archive: seq<Entry>, digest: seq<Entry>, clock: nat -> string, later: nat -> string)
    requires forall i :: 0 <= i < |digest| ==> digest[i].id in Ids(Merge(archive, digest, clock))
    ensures Merge(Merge(archive, digest, clock), digest, later) == Merge(archive, digest, clock)
  {
    var m := Merge(archive, digest, clock);
    AppendedNoneNew(digest, Ids(m), later);
    assert m + [] == m;
  }

  /** Without eviction the merge is idempotent. */
  lemma MergeIdempotent(archive: seq<Entry>, digest: seq<Entry>, clock: nat -> string, later: nat -> string)
    requires |archive| + |Appended(digest, Ids(archive), clock)| <= ArchiveCap
    ensures Merge(Merge(archive, digest, clock), digest, later) == Merge(archive, digest, clock)
  {
    MergeKeepsDigestIds(archive, digest, clock);
    MergeAgain(archive, digest, clock, later);
  }

  /** Without eviction every digest id is in the merged archive. */
  lemma MergeKeepsDigestIds(archive: seq<Entry>, digest: seq<Entry>, clock: nat -> string)
    requires |archive| + |Appended(digest, Ids(archive), clock)| <= ArchiveCap
    ensures forall i :: 0 <= i < |digest| ==> digest[i].id in Ids(Merge(archive, digest, clock))
  {
    var m := Merge(archive, digest, clock);
    assert m == archive + Appended(digest, Ids(archive), clock);
    AppendedMembers(digest, Ids(archive), clock);
    forall i | 0 <= i < |digest| ensures digest[i].id in Ids(m) {
      if digest[i].id in Ids(archive) {
        var e :| e in archive && e.id == digest[i].id;
        assert e in m;
      } else {
        assert Stamp(digest[i], clock(i)) in m;
      }
    }
  }

  /** The same holds when the second merge is given the digest as the first
      one left it, its new entries stamped: stamping keeps every id. */
  lemma MergeAgainStamped(archive: seq<Entry>, digest: seq<Entry>, clock: nat -> string, later: nat -> string)
    requires forall i :: 0 <= i < |digest| ==> digest[i].id in Ids(Merge(archive, digest, clock))
    ensures Merge(Merge(archive, digest, clock), Marked(digest, Ids(archive), clock), later) == Merge(archive, digest, clock)
  {
    var m := Merge(archive, digest, clock);
    var marked := Marked(digest, Ids(archive), clock);
    AppendedNoneNew(marked, Ids(m), later);
    assert m + [] == m;
  }

  /** Without eviction, merging the stamped digest again changes nothing. */
  lemma MergeIdempotentStamped(archive: seq<Entry>, digest: seq<Entry>, clock: nat -> string, later: nat -> string)
    requires |archive| + |Appended(digest, Ids(archive), clock)| <= ArchiveCap
    ensures Merge(Merge(archive, digest, clock), Marked(digest, Ids(archive), clock), later) == Merge(archive, digest, clock)
  {
    MergeKeepsDigestIds(archive, digest, clock);
    MergeAgainStamped(archive, digest, clock, later);
  }

  /** No two entries share an id. */
  predicate UniqueIds(s: seq<Entry>)
  {
    forall i, j :: 0 <= i < j < |s| ==> s[i].id != s[j].id
  }

  lemma {:induction false} AppendedUnique(digest: seq<Entry>, ids: set<Option<string>>, clock: nat -> string)
    requires UniqueIds(digest)
    ensures UniqueIds(Appended(digest, ids, clock))
    decreases |digest|
  {
    if digest != [] {
      var i := |digest| - 1;
      var p := digest[..i];
      assert UniqueIds(p);
      AppendedUnique(p, ids, clock);
      AppendedMembers(p, ids, clock);
      var app := Appended(p, ids, clock);
      forall e | e in app ensures e.id != digest[i].id {
        var k :| 0 <= k < |p| && p[k].id == e.id;
      }
    }
  }

  /** The archive stays id-unique when both it and the digest are. */
  lemma MergeKeepsUniqueIds(archive: seq<Entry>, digest: seq<Entry>, clock: nat -> string)
    requires UniqueIds(archive) && UniqueIds(digest)
    ensures UniqueIds(Merge(archive, digest, clock))
  {
    var app := Appended(digest, Ids(archive), clock);
    AppendedUnique(digest, Ids(archive), clock);
    AppendedMembers(digest, Ids(archive), clock);
    var all := archive + app;
    forall i, j | 0 <= i < j < |all| ensures all[i].id != all[j].id {
      if j >= |archive| && i < |archive| {
        assert all[j] in app;
        assert all[i] in archive;
      } else if j >= |archive| {
        assert all[i] == app[i - |archive|] && all[j] == app[j - |archive|];
      }
    }
    var m := Merge(archive, digest, clock);
    assert m == all[|all| - |m|..];
  }

  /** `existing_ids` is computed once, before the loop: two digest entries
      sharing an id that is not yet archived are both appended, so the
      archive is no longer id-unique. */
  lemma SharedNewIdArchivedTwice(archive: seq<Entry>, x: Entry, y: Entry, clock: nat -> string)
    requires x.id == y.id && x.id !in Ids(archive)
    requires |archive| + 2 <= ArchiveCap
    ensures Merge(archive, [x, y], clock) == archive + [Stamp(x, clock(0)), Stamp(y, clock(1))]
    ensures !UniqueIds(Merge(archive, [x, y], clock))
  {
    AppendedAllNew([x, y], Ids(archive), clock);
    var m := Merge(archive, [x, y], clock);
    assert m[|archive|].id == m[|archive| + 1].id;
  }

  // ---------------------------------------------------------------- report

  /** The report of one update: `sources` is keyed by the meta phase. */
  datatype Report = Report(updateTime: string, totalItems: nat, sources: Counter<string>,
                           priorities: Counter<string>, badges: Counter<string>)

  /** The report `generate_summary_report` writes, or `None` when an entry
      has no `meta` key (`item['meta']` raises). */
  function SummaryReport(data: seq<Entry>, now: string): Option<Report>
  {
    if exists i :: 0 <= i < |data| && data[i].meta.None? then None
    else Some(Report(now, |data|, Tally(MapSeq(data, SourceOf)), Tally(MapSeq(data, PriorityOf)),
                     Tally(MapSeq(data, BadgeOf))))
  }

  /** Each counter holds every entry exactly once: its counts add up to the
      number of items, its keys are the distinct values in first-seen order,
      and each value's count is its number of occurrences. */
  lemma ReportCounts(data: seq<Entry>, now: string)
    requires SummaryReport(data, now).Some?
    ensures var r := SummaryReport(data, now).value;
            && r.totalItems == |data|
            && Total(r.sources) == Total(r.priorities) == Total(r.badges) == r.totalItems
            && Keys(r.sources) == Dedup(MapSeq(data, SourceOf))
            && Keys(r.priorities) == Dedup(MapSeq(data, PriorityOf))
            && Keys(r.badges) == Dedup(MapSeq(data, BadgeOf))
            && (forall x :: Get(r.badges, x) == multiset(MapSeq(data, BadgeOf))[x])
  {
    TallyCounts(MapSeq(data, SourceOf));
    TallyCounts(MapSeq(data, PriorityOf));
    TallyCounts(MapSeq(data, BadgeOf));
  }

  /** `generate_summary_report`: one pass bumping the three counters. */
  method GenerateSummaryReport(data: seq<Entry>, now: string) returns (report: Option<Report>)
    ensures report == SummaryReport(data, now)
    ensures report.Some? ==> Total(report.value.sources) == report.value.totalItems == |data|
  {
    var sources: Counter<string> := [];
    var priorities: Counter<string> := [];
    var badges: Counter<string> := [];
    for i := 0 to |data|
      invariant forall k :: 0 <= k < i ==> data[k].meta.Some?
      invariant Counts(data[..i]) == (sources, priorities, badges)
    {
      if data[i].meta.None? {
        return None;
      }
      CountsStep(data, i);
      sources := Bump(sources, SourceOf(data[i]));
      priorities := Bump(priorities, PriorityOf(data[i]));
      badges := Bump(badges, BadgeOf(data[i]));
    }
    assert data[..|data|] == data;
    report := Some(Report(now, |data|, sources, priorities, badges));
    TallyCounts(MapSeq(data, SourceOf));
  }

}
