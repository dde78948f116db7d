/** Python dictionaries and membership-checked lists keep their keys in
    first-insertion order. The pipeline builds first-seen deduplicated lists
    and counters (`d[k] = d.get(k, 0) + 1`) this way; both are modelled here
    as sequences, so the order of the keys is part of the value. */
module Ordered {

  predicate Distinct<T(==)>(s: seq<T>)
  {
    forall i, j :: 0 <= i < j < |s| ==> s[i] != s[j]
  }

  /** The index of the first occurrence of x in s. */
  function FirstIndex<T(==)>(s: seq<T>, x: T): (i: nat)
    requires x in s
    ensures i < |s| && s[i] == x && x !in s[..i]
  {
    if s[0] == x then 0 else 1 + FirstIndex(s[1..], x)
  }

  /** The list built by `for x in s: if x not in out: out.append(x)`. */
  function Dedup<T(==)>(s: seq<T>): seq<T>
    decreases |s|
  {
    if s == [] then []
    else
      var d := Dedup(s[..|s| - 1]);
      if s[|s| - 1] in d then d else d + [s[|s| - 1]]
  }

  /** A counter in insertion order: each key with its count. */
  type Counter<K> = seq<(K, nat)>

  /** The keys of an insertion-ordered dictionary held as a list of pairs. */
  function Keys<K, V>(pairs: seq<(K, V)>): (ks: seq<K>)
    ensures |ks| == |pairs|
    ensures forall i :: 0 <= i < |pairs| ==> ks[i] == pairs[i].0
  {
    seq(|pairs|, i requires 0 <= i < |pairs| => pairs[i].0)
  }

  /** `[f(x) for x in s]`. */
  function MapSeq<A, B>(s: seq<A>, f: A -> B): (r: seq<B>)
    ensures |r| == |s|
    ensures forall i :: 0 <= i < |s| ==> r[i] == f(s[i])
  {
    seq(|s|, i requires 0 <= i < |s| => f(s[i]))
  }

  /** Mapping distributes over concatenation. */
  lemma MapSeqAppend<A, B>(a: seq<A>, b: seq<A>, f: A -> B)
    ensures MapSeq(a + b, f) == MapSeq(a, f) + MapSeq(b, f)
  {
    var l, r := MapSeq(a + b, f), MapSeq(a, f) + MapSeq(b, f);
    forall i | 0 <= i < |l| ensures l[i] == r[i] {
      if i < |a| { assert (a + b)[i] == a[i]; } else { assert (a + b)[i] == b[i - |a|]; }
    }
  }

  /** `c.get(k, 0)` */
  function Get<K(==)>(c: Counter<K>, k: K): nat
  {
    if c == [] then 0 else if c[0].0 == k then c[0].1 else Get(c[1..], k)
  }

  /** `c[k] = c.get(k, 0) + 1` */
  function Bump<K(==)>(c: Counter<K>, k: K): Counter<K>
  {
    if c == [] then [(k, 1)]
    else if c[0].0 == k then [(k, c[0].1 + 1)] + c[1..]
    else [c[0]] + Bump(c[1..], k)
  }

  /** The counter a loop builds by bumping every key of `keys` in order. */
  function Tally<K(==)>(keys: seq<K>): Counter<K>
  {
    if keys == [] then [] else Bump(Tally(keys[..|keys| - 1]), keys[|keys| - 1])
  }

  /** `sum(c.values())` */
  function Total<K>(c: Counter<K>): nat
  {
    if c == [] then 0 else c[0].1 + Total(c[1..])
  }

  // ---------------------------------------------------------------- Dedup

  /** One more element is appended exactly when it has not been seen. */
  lemma DedupSnoc<T>(s: seq<T>, x: T)
    ensures Dedup(s + [x]) == if x in Dedup(s) then Dedup(s) else Dedup(s) + [x]
  {
    assert (s + [x])[..|s|] == s;
  }

  /** The deduplicated list holds each element of the input exactly once. */
  lemma {:induction false} DedupElements<T>(s: seq<T>)
    ensures Distinct(Dedup(s))
    ensures forall x :: x in Dedup(s) ==> x in s
    ensures forall x :: x in s ==> x in Dedup(s)
    decreases |s|
  {
    if s != [] {
      var p := s[..|s| - 1];
      DedupElements(p);
      assert s == p + [s[|s| - 1]];
    }
  }

  /** ... in the order in which each element was first seen. */
  lemma {:induction false} DedupOrder<T>(s: seq<T>, i: nat, j: nat)
    requires i < j < |Dedup(s)|
    ensures Dedup(s)[i] in s && Dedup(s)[j] in s
    ensures FirstIndex(s, Dedup(s)[i]) < FirstIndex(s, Dedup(s)[j])
    decreases |s|
  {
    DedupElements(s);
    var p := s[..|s| - 1];
    var last := s[|s| - 1];
    var d := Dedup(p);
    DedupElements(p);
    assert s == p + [last];
    if j < |d| {
      DedupOrder(p, i, j);
      FirstIndexPrefix(p, last, d[i]);
      FirstIndexPrefix(p, last, d[j]);
    } else {
      // d[j] is the new last element, first seen at the end of s
      assert last !in d && Dedup(s) == d + [last];
      assert Dedup(s)[i] == d[i] && d[i] in d;
      assert d[i] in p;
      FirstIndexPrefix(p, last, d[i]);
      FirstIndexLast(p, last);
    }
  }

  lemma {:induction false} FirstIndexPrefix<T>(p: seq<T>, y: T, x: T)
    requires x in p
    ensures x in p + [y] && FirstIndex(p + [y], x) == FirstIndex(p, x)
    decreases |p|
  {
    if p[0] != x {
      assert (p + [y])[1..] == p[1..] + [y];
      FirstIndexPrefix(p[1..], y, x);
    }
  }

  lemma {:induction false} FirstIndexLast<T>(p: seq<T>, y: T)
    requires y !in p
    ensures y in p + [y] && FirstIndex(p + [y], y) == |p|
    decreases |p|
  {
    if p != [] {
      assert (p + [y])[1..] == p[1..] + [y];
      FirstIndexLast(p[1..], y);
    }
  }

  /** A list with no repeated element is its own deduplication. */
  lemma {:induction false} DedupOfDistinct<T>(s: seq<T>)
    requires Distinct(s)
    ensures Dedup(s) == s
    decreases |s|
  {
    if s != [] {
      var p := s[..|s| - 1];
      DedupOfDistinct(p);
      assert s[|s| - 1] !in p;
      assert s == p + [s[|s| - 1]];
    }
  }

  /** Deduplicating twice is deduplicating once. */
  lemma DedupIdempotent<T>(s: seq<T>)
    ensures Dedup(Dedup(s)) == Dedup(s)
  {
    DedupElements(s);
    DedupOfDistinct(Dedup(s));
  }

  /** A sequence without repetitions is as long as its set of elements. */
  lemma {:induction false} DistinctCardinality<T>(s: seq<T>)
    requires Distinct(s)
    ensures |set x | x in s| == |s|
    decreases |s|
  {
    if s != [] {
      var p := s[..|s| - 1];
      DistinctCardinality(p);
      assert s == p + [s[|s| - 1]];
      assert (set x | x in s) == (set x | x in p) + {s[|s| - 1]};
    }
  }

  /** The deduplicated list is as long as the number of distinct elements. */
  lemma DedupLength<T>(s: seq<T>)
    ensures |Dedup(s)| == |set x | x in s|
  {
    DedupElements(s);
    DistinctCardinality(Dedup(s));
    var a, b := set x | x in Dedup(s), set x | x in s;
    forall y | y in b ensures y in a {
      assert y in Dedup(s);
    }
    forall y | y in a ensures y in b {
      assert y in s;
    }
    assert a == b;
  }

  // ---------------------------------------------------------------- counters

  /** Bumping a key adds one to its count, appends it if it is new, and
      leaves every other key and count where it was. */
  lemma {:induction false} BumpEffect<K>(c: Counter<K>, k: K)
    ensures Total(Bump(c, k)) == Total(c) + 1
    ensures Keys(Bump(c, k)) == if k in Keys(c) then Keys(c) else Keys(c) + [k]
    ensures forall x :: Get(Bump(c, k), x) == Get(c, x) + (if x == k then 1 else 0)
    decreases |c|
  {
    if c != [] && c[0].0 != k {
      BumpEffect(c[1..], k);
      assert Keys(c) == [c[0].0] + Keys(c[1..]);
      assert Keys(Bump(c, k)) == [c[0].0] + Keys(Bump(c[1..], k));
    } else if c != [] {
      assert Keys(c)[0] == k;
      assert forall i :: 0 <= i < |c| ==> Keys(Bump(c, k))[i] == Keys(c)[i];
    }
  }

  /** A counter built from a list of keys: its keys are the distinct keys in
      first-seen order, each key's count is its number of occurrences, and
      the counts add up to the length of the list. */
  lemma {:induction false} TallyCounts<K>(keys: seq<K>)
    ensures Keys(Tally(keys)) == Dedup(keys)
    ensures Total(Tally(keys)) == |keys|
    ensures forall x :: Get(Tally(keys), x) == multiset(keys)[x]
    decreases |keys|
  {
    if keys != [] {
      var p := keys[..|keys| - 1];
      var k := keys[|keys| - 1];
      TallyCounts(p);
      BumpEffect(Tally(p), k);
      assert keys == p + [k];
      assert multiset(keys) == multiset(p) + multiset{k};
    }
  }

  /** One more key bumps the counter built so far. */
  lemma TallySnoc<K>(keys: seq<K>, k: K)
    ensures Tally(keys + [k]) == Bump(Tally(keys), k)
  {
    assert (keys + [k])[..|keys|] == keys;
  }

  /** The number of keys of a counter built from a list is the number of distinct values in it. */
  lemma TallySize<K>(keys: seq<K>)
    ensures |Tally(keys)| == |set x | x in keys|
  {
    TallyCounts(keys);
    DedupLength(keys);
  }
}
