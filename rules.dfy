/** Ordered first-match rule tables. Every if/elif chain of the classifier and
    of the narrator is a list of rules read top to bottom: a rule holds a list
    of alternative conditions (the `or`s of one branch) and an outcome; the
    first rule with a condition that holds decides, and the `else` branch is
    the default. */
module Rules {
  import opened Text

  /** The fields a condition can test. */
  datatype Field = Title | Abstract | Phase | Source | Priority | Kind

  /** The text of each field as the rule chain sees it (already lower-cased
      where the source lower-cases it). */
  datatype View = View(title: string, abstractText: string, phase: string,
                       source: string, priority: string, kind: string)

  function FieldOf(v: View, f: Field): string
  {
    match f
    case Title => v.title
    case Abstract => v.abstractText
    case Phase => v.phase
    case Source => v.source
    case Priority => v.priority
    case Kind => v.kind
  }

  datatype Cond =
    | Has(field: Field, word: string)     // `word in field`
    | Is(field: Field, value: string)     // `field == value`
    | Both(left: Cond, right: Cond)       // `left and right`

  predicate Holds(c: Cond, v: View)
  {
    match c
    case Has(f, w) => Contains(FieldOf(v, f), w)
    case Is(f, x) => FieldOf(v, f) == x
    case Both(a, b) => Holds(a, v) && Holds(b, v)
  }

  /** One branch: it is taken when any of its conditions holds. */
  datatype Rule<L> = Rule(any: seq<Cond>, outcome: L)

  predicate Fires<L>(r: Rule<L>, v: View)
  {
    exists i :: 0 <= i < |r.any| && Holds(r.any[i], v)
  }

  /** The outcome of the first rule that fires, or the default. */
  function FirstMatch<L>(rules: seq<Rule<L>>, v: View, otherwise: L): L
  {
    if rules == [] then otherwise
    else if Fires(rules[0], v) then rules[0].outcome
    else FirstMatch(rules[1..], v, otherwise)
  }

  /** Every outcome a table can produce: its rules' outcomes and the default. */
  function Labels<L>(rules: seq<Rule<L>>, otherwise: L): (ls: seq<L>)
    ensures |ls| == |rules| + 1
  {
    seq(|rules|, i requires 0 <= i < |rules| => rules[i].outcome) + [otherwise]
  }

  /** The conditions `w in title or w in abstract` for every word w (the
      conditions have no effects, so their order does not matter). */
  function InTitleOrAbstract(words: seq<string>): (cs: seq<Cond>)
  {
    AnyIn(Title, words) + AnyIn(Abstract, words)
  }

  /** The conditions `w in field` for every word w: Python's `any(w in field for w in words)`. */
  function AnyIn(f: Field, words: seq<string>): (cs: seq<Cond>)
    ensures |cs| == |words|
    ensures forall i :: 0 <= i < |words| ==> cs[i] == Has(f, words[i])
  {
    seq(|words|, i requires 0 <= i < |words| => Has(f, words[i]))
  }

  // ---------------------------------------------------------------- lemmas

  /** The first rule that fires decides: its outcome is returned whatever the
      later rules say. */
  lemma {:induction false} FirstMatchPicks<L>(rules: seq<Rule<L>>, v: View, otherwise: L, k: nat)
    requires k < |rules| && Fires(rules[k], v)
    requires forall j :: 0 <= j < k ==> !Fires(rules[j], v)
    ensures FirstMatch(rules, v, otherwise) == rules[k].outcome
    decreases k
  {
    if k > 0 {
      assert !Fires(rules[0], v);
      assert rules[1..][k - 1] == rules[k];
      FirstMatchPicks(rules[1..], v, otherwise, k - 1);
    }
  }

  /** When no rule fires, the default is returned. */
  lemma {:induction false} FirstMatchDefault<L>(rules: seq<Rule<L>>, v: View, otherwise: L)
    requires forall j :: 0 <= j < |rules| ==> !Fires(rules[j], v)
    ensures FirstMatch(rules, v, otherwise) == otherwise
    decreases |rules|
  {
    if rules != [] {
      assert !Fires(rules[0], v);
      FirstMatchDefault(rules[1..], v, otherwise);
    }
  }

  /** Exactly one branch is taken: either some rule k fires with no earlier
      rule firing and its outcome is returned, or no rule fires and the
      default is returned. */
  lemma FirstMatchCases<L>(rules: seq<Rule<L>>, v: View, otherwise: L)
    ensures || (exists k :: 0 <= k < |rules| && Fires(rules[k], v)
                 && (forall j :: 0 <= j < k ==> !Fires(rules[j], v))
                 && FirstMatch(rules, v, otherwise) == rules[k].outcome)
            || ((forall j :: 0 <= j < |rules| ==> !Fires(rules[j], v))
                 && FirstMatch(rules, v, otherwise) == otherwise)
  {
    if exists k0 :: 0 <= k0 < |rules| && Fires(rules[k0], v) {
      var k0 :| 0 <= k0 < |rules| && Fires(rules[k0], v);
      var k := 0;
      while !Fires(rules[k], v)
        invariant k <= k0
        invariant forall j :: 0 <= j < k ==> !Fires(rules[j], v)
        decreases k0 - k
      {
        k := k + 1;
      }
      FirstMatchPicks(rules, v, otherwise, k);
    } else {
      FirstMatchDefault(rules, v, otherwise);
    }
  }

  /** The result is always one of the table's labels. */
  lemma {:induction false} FirstMatchLabel<L>(rules: seq<Rule<L>>, v: View, otherwise: L)
    ensures FirstMatch(rules, v, otherwise) in Labels(rules, otherwise)
    decreases |rules|
  {
    if rules != [] && !Fires(rules[0], v) {
      FirstMatchLabel(rules[1..], v, otherwise);
      var rest := Labels(rules[1..], otherwise);
      assert forall i :: 0 <= i < |rest| ==> rest[i] == Labels(rules, otherwise)[i + 1];
    } else if rules != [] {
      assert Labels(rules, otherwise)[0] == rules[0].outcome;
    }
  }

  /** A rule whose conditions are `w in title or w in abstract` fires exactly
      when one of its words occurs in the title or in the abstract. */
  lemma InTitleOrAbstractFires<L>(words: seq<string>, l: L, v: View)
    ensures Fires(Rule(InTitleOrAbstract(words), l), v)
        <==> exists i :: 0 <= i < |words| && (Contains(v.title, words[i]) || Contains(v.abstractText, words[i]))
  {
    FiresAppend(AnyIn(Title, words), AnyIn(Abstract, words), l, v);
    AnyInFires(Title, words, l, v);
    AnyInFires(Abstract, words, l, v);
    assert FieldOf(v, Title) == v.title && FieldOf(v, Abstract) == v.abstractText;
  }

  /** A rule over two condition lists fires exactly when one of the lists would. */
  lemma FiresAppend<L>(a: seq<Cond>, b: seq<Cond>, l: L, v: View)
    ensures Fires(Rule(a + b, l), v) <==> Fires(Rule(a, l), v) || Fires(Rule(b, l), v)
  {
    if Fires(Rule(a + b, l), v) {
      var c :| 0 <= c < |a + b| && Holds((a + b)[c], v);
      if c < |a| { assert (a + b)[c] == a[c]; } else { assert (a + b)[c] == b[c - |a|]; }
    }
    if Fires(Rule(a, l), v) {
      var c :| 0 <= c < |a| && Holds(a[c], v);
      assert (a + b)[c] == a[c];
    }
    if Fires(Rule(b, l), v) {
      var c :| 0 <= c < |b| && Holds(b[c], v);
      assert (a + b)[|a| + c] == b[c];
    }
  }

  /** A rule whose conditions are `w in field` fires exactly when one of its words occurs in that field. */
  lemma AnyInFires<L>(f: Field, words: seq<string>, l: L, v: View)
    ensures Fires(Rule(AnyIn(f, words), l), v)
        <==> exists i :: 0 <= i < |words| && Contains(FieldOf(v, f), words[i])
  {
    var cs := AnyIn(f, words);
    if exists i :: 0 <= i < |words| && Contains(FieldOf(v, f), words[i]) {
      var i :| 0 <= i < |words| && Contains(FieldOf(v, f), words[i]);
      assert Holds(cs[i], v);
    }
  }

  /** The same, read as `any(w in field for w in words)` over the word list's members. */
  lemma AnyInFiresSome<L>(f: Field, words: seq<string>, l: L, v: View)
    ensures Fires(Rule(AnyIn(f, words), l), v) <==> exists w :: w in words && Contains(FieldOf(v, f), w)
  {
    AnyInFires(f, words, l, v);
    if exists w :: w in words && Contains(FieldOf(v, f), w) {
      var w :| w in words && Contains(FieldOf(v, f), w);
      var i :| 0 <= i < |words| && words[i] == w;
      assert Contains(FieldOf(v, f), words[i]);
    }
  }
}
