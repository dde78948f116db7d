/** Python string operations that the pipeline relies on, over Dafny strings
    (sequences of Unicode scalar values, as Python 3 strings are sequences of
    code points). Case mapping is modelled on ASCII letters only. */
module Text {

  /** str.lower on one character (ASCII letters). */
  function LowerChar(c: char): (d: char)
    ensures !('A' <= d <= 'Z')
  {
    if 'A' <= c <= 'Z' then (c as int + 32) as char else c
  }

  /** str.upper on one character (ASCII letters). */
  function UpperChar(c: char): (d: char)
    ensures !('a' <= d <= 'z')
  {
    if 'a' <= c <= 'z' then (c as int - 32) as char else c
  }

  /** str.lower */
  function Lower(s: string): (r: string)
    ensures |r| == |s|
    ensures forall i :: 0 <= i < |s| ==> r[i] == LowerChar(s[i])
  {
    seq(|s|, i requires 0 <= i < |s| => LowerChar(s[i]))
  }

  /** str.capitalize: first character upper-cased, the rest lower-cased. */
  function Capitalize(s: string): (r: string)
    ensures |r| == |s|
  {
    if s == [] then [] else [UpperChar(s[0])] + Lower(s[1..])
  }

  /** The code points for which Python's str.isspace holds; str.strip() removes exactly these. */
  const PySpaces: set<char> := {
    '\t', '\n', '\U{B}', '\U{C}', '\r', '\U{1C}', '\U{1D}', '\U{1E}', '\U{1F}', ' ',
    '\U{85}', '\U{A0}', '\U{1680}', '\U{2000}', '\U{2001}', '\U{2002}', '\U{2003}',
    '\U{2004}', '\U{2005}', '\U{2006}', '\U{2007}', '\U{2008}', '\U{2009}', '\U{200A}',
    '\U{2028}', '\U{2029}', '\U{202F}', '\U{205F}', '\U{3000}'
  }

  predicate IsSpace(c: char) {
    c in PySpaces
  }

  function StripLeft(s: string): string
  {
    if s != [] && IsSpace(s[0]) then StripLeft(s[1..]) else s
  }

  function StripRight(s: string): string
  {
    if s != [] && IsSpace(s[|s| - 1]) then StripRight(s[..|s| - 1]) else s
  }

  /** str.strip() with no argument. */
  function Strip(s: string): string
  {
    StripRight(StripLeft(s))
  }

  /** Python slicing s[:n] for n >= 0: clamps instead of failing. */
  function Take<T>(s: seq<T>, n: nat): (r: seq<T>)
    ensures |r| == if |s| <= n then |s| else n
    ensures r == s[..|r|]
  {
    if |s| <= n then s else s[..n]
  }

  /** `word` occurs in `text` starting at index i. */
  predicate OccursAt(text: string, word: string, i: nat)
  {
    i + |word| <= |text| && text[i..i + |word|] == word
  }

  /** Python's `word in text` for strings. */
  predicate Contains(text: string, word: string)
  {
    exists i: nat :: i <= |text| && OccursAt(text, word, i)
  }

  /** The number of matches str.replace rewrites: non-overlapping, scanned from the left. */
  function Matches(s: string, pat: string): nat
    requires pat != []
    decreases |s|
  {
    if |s| < |pat| then 0
    else if s[..|pat|] == pat then 1 + Matches(s[|pat|..], pat)
    else Matches(s[1..], pat)
  }

  /** str.replace(pat, rep): every non-overlapping match of pat, leftmost first,
      is replaced by `rep`; an empty pattern inserts `rep` around every character. */
  function Replace(s: string, pat: string, rep: string): string
    decreases |s|
  {
    if pat == [] then
      (if s == [] then rep else rep + [s[0]] + Replace(s[1..], pat, rep))
    else if |s| < |pat| then s
    else if s[..|pat|] == pat then rep + Replace(s[|pat|..], pat, rep)
    else [s[0]] + Replace(s[1..], pat, rep)
  }

  /** str.split(sep) for a one-character separator: never empty, no part holds sep. */
  function Split(s: string, sep: char): (parts: seq<string>)
    ensures |parts| >= 1
    ensures forall i :: 0 <= i < |parts| ==> sep !in parts[i]
    decreases |s|
  {
    if s == [] then [[]]
    else if s[0] == sep then [[]] + Split(s[1..], sep)
    else
      var rest := Split(s[1..], sep);
      [[s[0]] + rest[0]] + rest[1..]
  }

  /** delim.join(parts) */
  function Join(parts: seq<string>, delim: string): string
    decreases |parts|
  {
    if parts == [] then []
    else if |parts| == 1 then parts[0]
    else parts[0] + delim + Join(parts[1..], delim)
  }

  /** Python's `a < b` on strings: lexicographic by code point, a proper prefix first. */
  predicate StrLess(a: string, b: string)
    decreases |a|
  {
    if a == [] then b != []
    else if b == [] then false
    else a[0] < b[0] || (a[0] == b[0] && StrLess(a[1..], b[1..]))
  }

  // ---------------------------------------------------------------- lemmas

  /** Lower-casing twice is lower-casing once. */
  lemma LowerIdempotent(s: string)
    ensures Lower(Lower(s)) == Lower(s)
  {
  }

  /** A lower-cased text never contains a word with an upper-case ASCII letter. */
  lemma LowerMissesUpper(s: string, w: string, k: nat)
    requires k < |w| && 'A' <= w[k] <= 'Z'
    ensures !Contains(Lower(s), w)
  {
  }

  /** A occurrence inside the tail is an occurrence inside the whole. */
  lemma ContainsTail(s: string, w: string, d: nat)
    requires d <= |s| && Contains(s[d..], w)
    ensures Contains(s, w)
  {
    var i: nat :| i <= |s[d..]| && OccursAt(s[d..], w, i);
    assert s[i + d..i + d + |w|] == s[d..][i..i + |w|];
    assert OccursAt(s, w, i + d);
  }

  /** An occurrence not at the front is an occurrence in the tail. */
  lemma ContainsDropFirst(s: string, w: string)
    requires Contains(s, w) && !OccursAt(s, w, 0)
    ensures Contains(s[1..], w)
  {
    var i: nat :| i <= |s| && OccursAt(s, w, i);
    assert s[1..][i - 1..i - 1 + |w|] == s[i..i + |w|];
    assert OccursAt(s[1..], w, i - 1);
  }

  /** A text holding a word holds every piece of it. */
  lemma ContainsInfix(t: string, w: string, k: nat, u: string)
    requires Contains(t, w) && k + |u| <= |w| && w[k..k + |u|] == u
    ensures Contains(t, u)
  {
    var i: nat :| i <= |t| && OccursAt(t, w, i);
    forall m | 0 <= m < |u| ensures t[i + k + m] == u[m] {
      assert t[i..i + |w|][k + m] == w[k + m];
    }
    assert t[i + k..i + k + |u|] == u;
    assert OccursAt(t, u, i + k);
  }

  /** No character `a` or `a'` in `s` comes right before a `b` or `b'`
      (a letter pair in either case, when the primes are the capitals). */
  predicate NoCasedPair(s: string, a: char, a': char, b: char, b': char)
  {
    forall i :: 0 <= i < |s| - 1 ==> !((s[i] == a || s[i] == a') && (s[i + 1] == b || s[i + 1] == b'))
  }

  /** Two texts without the pair, the first ending in a space, join into one without it. */
  lemma NoCasedPairJoin(x: string, y: string, a: char, a': char, b: char, b': char)
    requires NoCasedPair(x, a, a', b, b') && NoCasedPair(y, a, a', b, b')
    requires x != [] && x[|x| - 1] == ' ' && a != ' ' && a' != ' '
    ensures NoCasedPair(x + y, a, a', b, b')
  {
    forall i | 0 <= i < |x + y| - 1
      ensures !(((x + y)[i] == a || (x + y)[i] == a') && ((x + y)[i + 1] == b || (x + y)[i + 1] == b'))
    {
      if i >= |x| {
        assert (x + y)[i] == y[i - |x|] && (x + y)[i + 1] == y[i - |x| + 1];
      }
    }
  }

  /** A text without a pair of letters in either case, lower-cased, holds no
      word in which that pair occurs. */
  lemma NoCasedPairMisses(s: string, w: string, k: nat)
    requires k + 1 < |w| && 'a' <= w[k] <= 'z' && 'a' <= w[k + 1] <= 'z'
    requires NoCasedPair(s, w[k], UpperChar(w[k]), w[k + 1], UpperChar(w[k + 1]))
    ensures !Contains(Lower(s), w)
  {
    var t := Lower(s);
    forall i: nat | i <= |t| ensures !OccursAt(t, w, i) {
      if i + |w| <= |t| {
        assert t[i..i + |w|][k] == LowerChar(s[i + k]);
        assert t[i..i + |w|][k + 1] == LowerChar(s[i + k + 1]);
      }
    }
  }

  /** A space of length one holds no word of two or more characters; nor does the empty text. */
  lemma ShortTextMissesLongWord(s: string, w: string)
    requires |s| < |w|
    ensures !Contains(s, w)
  {
  }

  /** str.replace changes nothing exactly when there is no match, and a text
      with no match comes back unchanged. */
  lemma {:induction false} NoMatchesIffAbsent(s: string, pat: string)
    requires pat != []
    ensures Matches(s, pat) == 0 <==> !Contains(s, pat)
    decreases |s|
  {
    if |s| < |pat| {
      ShortTextMissesLongWord(s, pat);
    } else if s[..|pat|] == pat {
      assert OccursAt(s, pat, 0);
    } else {
      NoMatchesIffAbsent(s[1..], pat);
      if Contains(s, pat) {
        ContainsDropFirst(s, pat);
      }
      if Contains(s[1..], pat) {
        ContainsTail(s, pat, 1);
      }
    }
  }

  /** A text holding no occurrence of the pattern is returned unchanged by str.replace. */
  lemma {:induction false} ReplaceAbsent(s: string, pat: string, rep: string)
    requires !Contains(s, pat)
    ensures Replace(s, pat, rep) == s
    decreases |s|
  {
    if |s| < |pat| {
    } else {
      assert !OccursAt(s, pat, 0);
      if Contains(s[1..], pat) {
        ContainsTail(s, pat, 1);
      }
      ReplaceAbsent(s[1..], pat, rep);
      assert s == [s[0]] + s[1..];
    }
  }

  /** Every match found is replaced: the length changes by |rep| - |pat| per match. */
  lemma {:induction false} ReplaceLength(s: string, pat: string, rep: string)
    requires pat != []
    ensures |Replace(s, pat, rep)| == |s| + Matches(s, pat) * (|rep| - |pat|)
    decreases |s|
  {
    if |s| < |pat| {
    } else if s[..|pat|] == pat {
      ReplaceLength(s[|pat|..], pat, rep);
      MulSucc(Matches(s[|pat|..], pat), |rep| - |pat|);
    } else {
      ReplaceLength(s[1..], pat, rep);
    }
  }

  lemma MulSucc(m: int, d: int)
    ensures (1 + m) * d == d + m * d
  {
  }

  /** An empty first part puts one delimiter in front of the join of the rest. */
  lemma JoinEmptyFirst(parts: seq<string>, delim: string)
    requires |parts| >= 1
    ensures Join([[]] + parts, delim) == delim + Join(parts, delim)
  {
    assert ([[]] + parts)[1..] == parts;
  }

  /** A character put in front of the first part comes out in front of the join. */
  lemma JoinConsFirst(c: char, parts: seq<string>, delim: string)
    requires |parts| >= 1
    ensures Join([[c] + parts[0]] + parts[1..], delim) == [c] + Join(parts, delim)
  {
    assert ([[c] + parts[0]] + parts[1..])[1..] == parts[1..];
  }

  /** Joining the parts of a split with the separator gives back the text. */
  lemma {:induction false} SplitJoin(s: string, sep: char)
    ensures Join(Split(s, sep), [sep]) == s
    decreases |s|
  {
    if s == [] {
    } else if s[0] == sep {
      SplitJoin(s[1..], sep);
      JoinEmptyFirst(Split(s[1..], sep), [sep]);
      assert s == [sep] + s[1..];
    } else {
      SplitJoin(s[1..], sep);
      JoinConsFirst(s[0], Split(s[1..], sep), [sep]);
      assert s == [s[0]] + s[1..];
    }
  }

  /** strip() removes a run of whitespace from each end and nothing else:
      the result is s[i..j], everything outside is whitespace, and the
      result neither starts nor ends with whitespace. */
  lemma {:induction false} StripBounds(s: string) returns (i: nat, j: nat)
    ensures i <= j <= |s| && Strip(s) == s[i..j]
    ensures forall k :: 0 <= k < i ==> IsSpace(s[k])
    ensures forall k :: j <= k < |s| ==> IsSpace(s[k])
    ensures i < j ==> !IsSpace(s[i]) && !IsSpace(s[j - 1])
  {
    i := StripLeftBounds(s);
    var t := s[i..];
    var j' := StripRightBounds(t);
    j := i + j';
    assert t[..j'] == s[i..j];
    forall k | j <= k < |s| ensures IsSpace(s[k]) {
      assert s[k] == t[k - i];
    }
    if i < j {
      assert s[i] == t[0];
      assert s[j - 1] == t[j' - 1];
    }
  }

  lemma {:induction false} StripLeftBounds(s: string) returns (i: nat)
    ensures i <= |s| && StripLeft(s) == s[i..]
    ensures forall k :: 0 <= k < i ==> IsSpace(s[k])
    ensures i < |s| ==> !IsSpace(s[i])
    decreases |s|
  {
    if s != [] && IsSpace(s[0]) {
      var i' := StripLeftBounds(s[1..]);
      i := i' + 1;
      assert s[1..][i'..] == s[i..];
      forall k | 0 <= k < i ensures IsSpace(s[k]) {
        if k > 0 { assert s[k] == s[1..][k - 1]; }
      }
    } else {
      i := 0;
    }
  }

  lemma {:induction false} StripRightBounds(s: string) returns (j: nat)
    ensures j <= |s| && StripRight(s) == s[..j]
    ensures forall k :: j <= k < |s| ==> IsSpace(s[k])
    ensures 0 < j ==> !IsSpace(s[j - 1])
    decreases |s|
  {
    if s != [] && IsSpace(s[|s| - 1]) {
      j := StripRightBounds(s[..|s| - 1]);
      assert s[..|s| - 1][..j] == s[..j];
      forall k | j <= k < |s| ensures IsSpace(s[k]) {
        if k < |s| - 1 { assert s[k] == s[..|s| - 1][k]; }
      }
    } else {
      j := |s|;
    }
  }

  /** String order is a strict total order, as the sort needs. */
  lemma {:induction false} StrLessIrreflexive(a: string)
    ensures !StrLess(a, a)
    decreases |a|
  {
    if a != [] { StrLessIrreflexive(a[1..]); }
  }

  lemma {:induction false} StrLessTransitive(a: string, b: string, c: string)
    requires StrLess(a, b) && StrLess(b, c)
    ensures StrLess(a, c)
    decreases |a|
  {
    if a != [] && b != [] && c != [] && a[0] == b[0] == c[0] {
      StrLessTransitive(a[1..], b[1..], c[1..]);
    }
  }

  lemma {:induction false} StrLessTotal(a: string, b: string)
    ensures a == b || StrLess(a, b) || StrLess(b, a)
    decreases |a|
  {
    if a != [] && b != [] && a[0] == b[0] {
      StrLessTotal(a[1..], b[1..]);
      if a[1..] == b[1..] {
        assert a == [a[0]] + a[1..] && b == [b[0]] + b[1..];
      }
    }
  }
}
