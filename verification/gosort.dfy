/**
 * `sort.Strings` and Go's `<` on strings. Dafny characters are code points
 * and UTF-8 preserves code-point order, so lexicographic order on characters
 * agrees with Go's byte-wise order on well-formed strings.
 */
module GoSort {

  /** `a <= b` in Go's string order. */
  predicate LessEq(a: string, b: string)
    decreases |a|
  {
    |a| == 0 || (|b| > 0 && (a[0] < b[0] || (a[0] == b[0] && LessEq(a[1..], b[1..]))))
  }

  lemma {:induction false} LessEqReflexive(a: string)
    ensures LessEq(a, a)
    decreases |a|
  {
    if |a| > 0 {
      LessEqReflexive(a[1..]);
    }
  }

  lemma {:induction false} LessEqTotal(a: string, b: string)
    ensures LessEq(a, b) || LessEq(b, a)
    decreases |a|
  {
    if |a| > 0 && |b| > 0 && a[0] == b[0] {
      LessEqTotal(a[1..], b[1..]);
    }
  }

  lemma {:induction false} LessEqAntisymmetric(a: string, b: string)
    requires LessEq(a, b) && LessEq(b, a)
    ensures a == b
    decreases |a|
  {
    if |a| > 0 {
      LessEqAntisymmetric(a[1..], b[1..]);
      assert a == [a[0]] + a[1..];
      assert b == [b[0]] + b[1..];
    }
  }

  lemma {:induction false} LessEqTransitive(a: string, b: string, c: string)
    requires LessEq(a, b) && LessEq(b, c)
    ensures LessEq(a, c)
    decreases |a|
  {
    if |a| > 0 && a[0] == b[0] && b[0] == c[0] {
      LessEqTransitive(a[1..], b[1..], c[1..]);
    }
  }

  predicate Sorted(xs: seq<string>) {
    forall i, j :: 0 <= i < j < |xs| ==> LessEq(xs[i], xs[j])
  }

  /** `y` is at most every element of `xs`. */
  predicate Below(y: string, xs: seq<string>) {
    forall k :: 0 <= k < |xs| ==> LessEq(y, xs[k])
  }

  /** Being below every element depends only on the multiset of elements. */
  lemma BelowPermutation(y: string, s: seq<string>, t: seq<string>)
    requires multiset(s) == multiset(t)
    requires Below(y, t)
    ensures Below(y, s)
  {
    forall k | 0 <= k < |s|
      ensures LessEq(y, s[k])
    {
      assert s[k] in multiset(t);
      var m :| 0 <= m < |t| && t[m] == s[k];
    }
  }

  /** Insertion of one string into a sorted sequence. */
  function Insert(x: string, xs: seq<string>): (r: seq<string>)
    requires Sorted(xs)
    ensures Sorted(r)
    ensures multiset(r) == multiset(xs) + multiset{x}
    decreases |xs|
  {
    if |xs| == 0 then [x]
    else if LessEq(x, xs[0]) then
      assert Below(x, xs) by {
        forall k | 0 <= k < |xs|
          ensures LessEq(x, xs[k])
        {
          if k > 0 {
            LessEqTransitive(x, xs[0], xs[k]);
          }
        }
      }
      [x] + xs
    else
      var rest := Insert(x, xs[1..]);
      assert Below(xs[0], rest) by {
        LessEqTotal(x, xs[0]);
        LessEqReflexive(xs[0]);
        assert Below(xs[0], xs[1..] + [x]);
        BelowPermutation(xs[0], rest, xs[1..] + [x]);
      }
      assert xs == [xs[0]] + xs[1..];
      [xs[0]] + rest
  }

  /** `sort.Strings`: a sorted permutation of its input. */
  function SortStrings(xs: seq<string>): (r: seq<string>)
    ensures Sorted(r)
    ensures multiset(r) == multiset(xs)
    decreases |xs|
  {
    if |xs| == 0 then []
    else
      assert xs == [xs[0]] + xs[1..];
      Insert(xs[0], SortStrings(xs[1..]))
  }

  /** The head of a sorted sequence is at most each of its elements. */
  lemma SortedHeadBelow(x: string, b: seq<string>)
    requires Sorted(b) && x in b
    ensures LessEq(b[0], x)
  {
    var j :| 0 <= j < |b| && b[j] == x;
    if j == 0 {
      LessEqReflexive(x);
    }
  }

  lemma TailMultiset(a: seq<string>, b: seq<string>)
    requires |a| > 0 && |b| > 0 && a[0] == b[0]
    requires multiset(a) == multiset(b)
    ensures multiset(a[1..]) == multiset(b[1..])
  {
    assert a == [a[0]] + a[1..];
    assert b == [b[0]] + b[1..];
    assert multiset(a[1..]) == multiset(a) - multiset{a[0]};
    assert multiset(b[1..]) == multiset(b) - multiset{b[0]};
  }

  /** A sorted sequence is determined by its multiset of elements. */
  lemma {:induction false} SortedUnique(a: seq<string>, b: seq<string>)
    requires Sorted(a) && Sorted(b)
    requires multiset(a) == multiset(b)
    ensures a == b
    decreases |a|
  {
    assert |a| == |multiset(a)| == |multiset(b)| == |b|;
    if |a| > 0 {
      assert a[0] in multiset(b);
      SortedHeadBelow(a[0], b);
      assert b[0] in multiset(a);
      SortedHeadBelow(b[0], a);
      LessEqAntisymmetric(a[0], b[0]);
      TailMultiset(a, b);
      SortedUnique(a[1..], b[1..]);
      assert a == [a[0]] + a[1..];
      assert b == [b[0]] + b[1..];
    }
  }

  /** `order` lists every element of `keys` exactly once, as ranging over a Go map does. */
  predicate Enumerates(order: seq<string>, keys: set<string>) {
    && (forall i, j :: 0 <= i < j < |order| ==> order[i] != order[j])
    && (forall i :: 0 <= i < |order| ==> order[i] in keys)
    && (forall k :: k in keys ==> k in order)
  }

  lemma {:induction false} DistinctMultiplicity(s: seq<string>, x: string)
    requires forall i, j :: 0 <= i < j < |s| ==> s[i] != s[j]
    ensures multiset(s)[x] == if x in s then 1 else 0
    decreases |s|
  {
    if |s| > 0 {
      assert s == [s[0]] + s[1..];
      DistinctMultiplicity(s[1..], x);
      if x == s[0] {
        assert x !in s[1..];
      }
    }
  }

  /** Any two enumerations of the same key set hold the same elements. */
  lemma EnumerationsSameMultiset(a: seq<string>, b: seq<string>, keys: set<string>)
    requires Enumerates(a, keys) && Enumerates(b, keys)
    ensures multiset(a) == multiset(b)
  {
    forall x
      ensures multiset(a)[x] == multiset(b)[x]
    {
      DistinctMultiplicity(a, x);
      DistinctMultiplicity(b, x);
    }
  }

  /** Sorting forgets the enumeration order: every enumeration sorts to the same sequence. */
  lemma SortIndependentOfOrder(a: seq<string>, b: seq<string>, keys: set<string>)
    requires Enumerates(a, keys) && Enumerates(b, keys)
    ensures SortStrings(a) == SortStrings(b)
  {
    EnumerationsSameMultiset(a, b, keys);
    SortedUnique(SortStrings(a), SortStrings(b));
  }

  /** The sorted enumeration of a key set is the unique sorted sequence listing it. */
  lemma SortedEnumerationUnique(order: seq<string>, sorted: seq<string>, keys: set<string>)
    requires Enumerates(order, keys) && Enumerates(sorted, keys)
    requires Sorted(sorted)
    ensures SortStrings(order) == sorted
  {
    EnumerationsSameMultiset(order, sorted, keys);
    SortedUnique(SortStrings(order), sorted);
  }

  /** A repeated element occurs at least twice in the multiset. */
  lemma RepeatCounts(s: seq<string>, i: nat, j: nat)
    requires i < j < |s| && s[i] == s[j]
    ensures multiset(s)[s[i]] >= 2
  {
    assert s == s[..j] + [s[j]] + s[j + 1..];
    assert s[i] in s[..j];
    assert multiset(s) == multiset(s[..j]) + multiset{s[j]} + multiset(s[j + 1..]);
  }

  /** Sorting an enumeration of a key set yields an enumeration of it. */
  lemma SortedEnumerates(order: seq<string>, keys: set<string>)
    requires Enumerates(order, keys)
    ensures Enumerates(SortStrings(order), keys)
  {
    var s := SortStrings(order);
    forall i, j | 0 <= i < j < |s|
      ensures s[i] != s[j]
    {
      if s[i] == s[j] {
        RepeatCounts(s, i, j);
        DistinctMultiplicity(order, s[i]);
        assert false;
      }
    }
    forall i | 0 <= i < |s|
      ensures s[i] in keys
    {
      assert s[i] in multiset(order);
    }
    forall k | k in keys
      ensures k in s
    {
      assert k in multiset(s);
    }
  }

  /**
   * In a sorted enumeration, the elements before position `i` are exactly
   * the keys strictly below `s[i]`.
   */
  lemma SortedPrefixBelow(s: seq<string>, keys: set<string>, i: nat, k: string)
    requires Sorted(s) && Enumerates(s, keys) && i < |s|
    ensures k in s[..i] <==> k in keys && LessEq(k, s[i]) && k != s[i]
  {
    if k in keys && LessEq(k, s[i]) && k != s[i] {
      var j :| 0 <= j < |s| && s[j] == k;
      if j > i {
        LessEqAntisymmetric(s[i], s[j]);
      }
      assert s[..i][j] == k;
    }
  }
}
