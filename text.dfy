/** Strings ordered lexicographically by code point, a proper prefix sorting
    first. This is Python's ordering of `str`. JavaScript's `<`/`>` compare
    UTF-16 code units instead; the two orders agree except when a character
    outside the Basic Multilingual Plane meets one in U+E000 to U+FFFF. */
module Text {
  import Seqs

  predicate Less(a: string, b: string)
    decreases |a|
  {
    if |b| == 0 then false
    else if |a| == 0 then true
    else if a[0] != b[0] then a[0] < b[0]
    else Less(a[1..], b[1..])
  }

  predicate LessEq(a: string, b: string)
  {
    a == b || Less(a, b)
  }

  lemma {:induction false} LessIrreflexive(a: string)
    ensures !Less(a, a)
    decreases |a|
  {
    if |a| > 0 {
      LessIrreflexive(a[1..]);
    }
  }

  lemma {:induction false} LessTransitive(a: string, b: string, c: string)
    requires Less(a, b) && Less(b, c)
    ensures Less(a, c)
    decreases |a|
  {
    if |a| > 0 && a[0] == b[0] && b[0] == c[0] {
      LessTransitive(a[1..], b[1..], c[1..]);
    }
  }

  lemma {:induction false} LessTotal(a: string, b: string)
    requires a != b
    ensures Less(a, b) || Less(b, a)
    decreases |a|
  {
    if |a| > 0 && |b| > 0 && a[0] == b[0] {
      assert a == [a[0]] + a[1..] && b == [b[0]] + b[1..];
      LessTotal(a[1..], b[1..]);
    }
  }

  lemma {:induction false} LessAsymmetric(a: string, b: string)
    requires Less(a, b)
    ensures !Less(b, a)
    decreases |a|
  {
    if |a| > 0 && a[0] == b[0] {
      LessAsymmetric(a[1..], b[1..]);
    }
  }

  /** Sorting with the default comparison of the language: `sorted` on a
      list of `str` in Python. */
  function SortStrings(s: seq<string>): (r: seq<string>)
    ensures multiset(r) == multiset(s)
    ensures |r| == |s|
  {
    Seqs.SortBy(s, (a, b) => LessEq(a, b))
  }

  predicate StringsSorted(s: seq<string>)
  {
    forall k :: 0 <= k < |s| - 1 ==> LessEq(s[k], s[k + 1])
  }

  lemma SortStringsSorted(s: seq<string>)
    ensures StringsSorted(SortStrings(s))
  {
    forall a, b
      ensures LessEq(a, b) || LessEq(b, a)
    {
      if a != b {
        LessTotal(a, b);
      }
    }
    Seqs.SortBySorted(s, (a, b) => LessEq(a, b));
  }

  lemma {:induction false} SortedHeadIsMinimum(s: seq<string>, k: nat)
    requires StringsSorted(s)
    requires k < |s|
    ensures LessEq(s[0], s[k])
  {
    if k > 0 {
      SortedHeadIsMinimum(s, k - 1);
      if s[0] != s[k - 1] && s[k - 1] != s[k] {
        LessTransitive(s[0], s[k - 1], s[k]);
      }
    }
  }

  /** A sorted arrangement of a multiset of strings is unique. */
  lemma {:induction false} SortedUnique(a: seq<string>, b: seq<string>)
    requires StringsSorted(a) && StringsSorted(b)
    requires multiset(a) == multiset(b)
    ensures a == b
    decreases |a|
  {
    assert |a| == |multiset(a)| == |multiset(b)| == |b|;
    if |a| > 0 {
      SortedSameHead(a, b);
      TailMultiset(a, b);
      SortedUnique(a[1..], b[1..]);
      assert a == [a[0]] + a[1..] && b == [b[0]] + b[1..];
    }
  }

  lemma SortedSameHead(a: seq<string>, b: seq<string>)
    requires StringsSorted(a) && StringsSorted(b)
    requires multiset(a) == multiset(b) && |a| > 0
    ensures |b| > 0 && a[0] == b[0]
  {
    assert a[0] in multiset(b);
    var i :| 0 <= i < |b| && b[i] == a[0];
    assert b[0] in multiset(a);
    var j :| 0 <= j < |a| && a[j] == b[0];
    SortedHeadIsMinimum(b, i);
    SortedHeadIsMinimum(a, j);
    if a[0] != b[0] {
      LessAsymmetric(a[0], b[0]);
    }
  }

  lemma TailMultiset<T>(a: seq<T>, b: seq<T>)
    requires multiset(a) == multiset(b) && |a| > 0 && |b| > 0 && a[0] == b[0]
    ensures multiset(a[1..]) == multiset(b[1..])
  {
    assert a == [a[0]] + a[1..] && b == [b[0]] + b[1..];
    assert multiset(a) == multiset{a[0]} + multiset(a[1..]);
    assert multiset(b) == multiset{b[0]} + multiset(b[1..]);
    assert multiset(a[1..]) == multiset(a) - multiset{a[0]};
    assert multiset(b[1..]) == multiset(b) - multiset{b[0]};
  }

  /** The sorted order depends only on the strings, not on their input order. */
  lemma SortStringsCanonical(s: seq<string>, t: seq<string>)
    requires multiset(s) == multiset(t)
    ensures SortStrings(s) == SortStrings(t)
  {
    SortStringsSorted(s);
    SortStringsSorted(t);
    SortedUnique(SortStrings(s), SortStrings(t));
  }

  /** Python's `sep.join(parts)`. */
  function Join(parts: seq<string>, sep: string): (r: string)
    ensures |parts| == 1 ==> r == parts[0]
  {
    if |parts| == 0 then ""
    else if |parts| == 1 then parts[0]
    else parts[0] + sep + Join(parts[1..], sep)
  }
}
