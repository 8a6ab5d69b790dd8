/** Generic sequence utilities: order-preserving filters (lodash `_.filter`,
    `_.remove`) and a stable insertion sort (lodash `_.sortBy`, Python
    `sorted`). */
module Seqs {

  /** The elements of `s` that satisfy `keep`, in their original order. */
  function Filter<T(!new)>(s: seq<T>, keep: T -> bool): (r: seq<T>)
    ensures |r| <= |s|
    ensures forall x :: x in r <==> x in s && keep(x)
    decreases |s|
  {
    if |s| == 0 then []
    else
      var init := s[..|s| - 1];
      assert s == init + [s[|s| - 1]];
      Filter(init, keep) + (if keep(s[|s| - 1]) then [s[|s| - 1]] else [])
  }

  predicate Increasing(idx: seq<nat>)
  {
    forall k, l :: 0 <= k < l < |idx| ==> idx[k] < idx[l]
  }

  /** The positions of `s` whose element satisfies `keep`, ascending. */
  function Positions<T(!new)>(s: seq<T>, keep: T -> bool): (idx: seq<nat>)
    ensures Increasing(idx)
    ensures forall k :: 0 <= k < |idx| ==> idx[k] < |s| && keep(s[idx[k]])
    ensures forall i :: 0 <= i < |s| && keep(s[i]) ==> i in idx
    decreases |s|
  {
    if |s| == 0 then []
    else
      var init := Positions(s[..|s| - 1], keep);
      init + (if keep(s[|s| - 1]) then [|s| - 1] else [])
  }

  /** The elements of `s` at the positions `idx`, in that order. */
  function Select<T(!new)>(s: seq<T>, idx: seq<nat>): (r: seq<T>)
    requires forall k :: 0 <= k < |idx| ==> idx[k] < |s|
    ensures |r| == |idx|
    ensures forall k :: 0 <= k < |idx| ==> r[k] == s[idx[k]]
  {
    seq(|idx|, k requires 0 <= k < |idx| => s[idx[k]])
  }

  /** Filtering keeps exactly the satisfying elements, in input order. */
  lemma {:induction false} FilterIsSelection<T(!new)>(s: seq<T>, keep: T -> bool)
    ensures Filter(s, keep) == Select(s, Positions(s, keep))
    decreases |s|
  {
    if |s| > 0 {
      var init := s[..|s| - 1];
      FilterIsSelection(init, keep);
      var idx := Positions(init, keep);
      SelectPrefix(s, |init|, idx);
      if keep(s[|s| - 1]) {
        SelectSnoc(s, idx, |s| - 1);
      }
    }
  }

  lemma {:induction false} FilterAll<T(!new)>(s: seq<T>, keep: T -> bool)
    requires forall x :: x in s ==> keep(x)
    ensures Filter(s, keep) == s
    decreases |s|
  {
    if |s| > 0 {
      var init := s[..|s| - 1];
      assert s == init + [s[|s| - 1]];
      FilterAll(init, keep);
    }
  }

  lemma {:induction false} FilterNone<T(!new)>(s: seq<T>, keep: T -> bool)
    requires forall x :: x in s ==> !keep(x)
    ensures Filter(s, keep) == []
    decreases |s|
  {
    if |s| > 0 {
      FilterNone(s[..|s| - 1], keep);
    }
  }

  lemma FilterAppend<T(!new)>(s: seq<T>, x: T, keep: T -> bool)
    ensures Filter(s + [x], keep) == Filter(s, keep) + (if keep(x) then [x] else [])
  {
    assert (s + [x])[..|s + [x]| - 1] == s;
  }

  /** `s` without the elements at the positions in `marked` (lodash
      `_.remove` with a predicate that tests the element's identity). */
  function Unmarked<T(!new)>(s: seq<T>, marked: set<nat>): (r: seq<T>)
    ensures |r| <= |s|
    decreases |s|
  {
    if |s| == 0 then []
    else Unmarked(s[..|s| - 1], marked) + (if |s| - 1 in marked then [] else [s[|s| - 1]])
  }

  /** The positions below `n` that are not in `marked`, ascending. */
  function UnmarkedPositions(n: nat, marked: set<nat>): (idx: seq<nat>)
    ensures Increasing(idx)
    ensures forall k :: 0 <= k < |idx| ==> idx[k] < n && idx[k] !in marked
    ensures forall i :: 0 <= i < n && i !in marked ==> i in idx
  {
    if n == 0 then []
    else UnmarkedPositions(n - 1, marked) + (if n - 1 in marked then [] else [n - 1])
  }

  /** Removal by position keeps exactly the unmarked elements, in order. */
  lemma {:induction false} UnmarkedIsSelection<T(!new)>(s: seq<T>, marked: set<nat>)
    ensures Unmarked(s, marked) == Select(s, UnmarkedPositions(|s|, marked))
    decreases |s|
  {
    if |s| > 0 {
      var init := s[..|s| - 1];
      UnmarkedIsSelection(init, marked);
      var idx := UnmarkedPositions(|init|, marked);
      SelectPrefix(s, |init|, idx);
      if |s| - 1 !in marked {
        SelectSnoc(s, idx, |s| - 1);
      }
    }
  }

  lemma SelectPrefix<T(!new)>(s: seq<T>, n: nat, idx: seq<nat>)
    requires n <= |s| && forall k :: 0 <= k < |idx| ==> idx[k] < n
    ensures Select(s[..n], idx) == Select(s, idx)
  {
    assert forall k :: 0 <= k < |idx| ==> Select(s[..n], idx)[k] == Select(s, idx)[k];
  }

  lemma SelectSnoc<T(!new)>(s: seq<T>, idx: seq<nat>, i: nat)
    requires i < |s| && forall k :: 0 <= k < |idx| ==> idx[k] < |s|
    ensures Select(s, idx + [i]) == Select(s, idx) + [s[i]]
  {
    var l, r := Select(s, idx + [i]), Select(s, idx) + [s[i]];
    assert |l| == |r|;
    assert forall k :: 0 <= k < |l| ==> l[k] == r[k];
  }

  lemma {:induction false} UnmarkedSubset<T(!new)>(s: seq<T>, marked: set<nat>)
    ensures forall x :: x in Unmarked(s, marked) ==> x in s
    decreases |s|
  {
    if |s| > 0 {
      var init := s[..|s| - 1];
      assert s == init + [s[|s| - 1]];
      UnmarkedSubset(init, marked);
    }
  }

  lemma {:induction false} UnmarkedNothing<T(!new)>(s: seq<T>, marked: set<nat>)
    requires forall i :: 0 <= i < |s| ==> i !in marked
    ensures Unmarked(s, marked) == s
    decreases |s|
  {
    if |s| > 0 {
      var init := s[..|s| - 1];
      assert s == init + [s[|s| - 1]];
      UnmarkedNothing(init, marked);
    }
  }

  /** Adjacent elements are in order under `le`. */
  predicate SortedBy<T(!new)>(s: seq<T>, le: (T, T) -> bool)
  {
    forall k :: 0 <= k < |s| - 1 ==> le(s[k], s[k + 1])
  }

  /** Inserts `x` before the first element `y` with `le(x, y)`. When `l` holds
      the elements after `x` in the input, an element equal to `x` stays behind
      it: the sort below is stable. */
  function Insert<T(!new)>(x: T, l: seq<T>, le: (T, T) -> bool): (r: seq<T>)
    ensures multiset(r) == multiset(l) + multiset{x}
    ensures |r| == |l| + 1
    ensures r == [x] + l || (|l| > 0 && r[0] == l[0])
  {
    if |l| == 0 then [x]
    else if le(x, l[0]) then [x] + l
    else
      assert l == [l[0]] + l[1..];
      [l[0]] + Insert(x, l[1..], le)
  }

  /** Stable insertion sort. */
  function SortBy<T(!new)>(s: seq<T>, le: (T, T) -> bool): (r: seq<T>)
    ensures multiset(r) == multiset(s)
    ensures |r| == |s|
  {
    if |s| == 0 then []
    else
      assert s == [s[0]] + s[1..];
      Insert(s[0], SortBy(s[1..], le), le)
  }

  ghost predicate Total<T(!new)>(le: (T, T) -> bool)
  {
    forall a, b :: le(a, b) || le(b, a)
  }

  lemma {:induction false} InsertSorted<T(!new)>(x: T, l: seq<T>, le: (T, T) -> bool)
    requires Total(le)
    requires SortedBy(l, le)
    ensures SortedBy(Insert(x, l, le), le)
  {
    if |l| > 0 && !le(x, l[0]) {
      assert le(l[0], x);
      InsertSorted(x, l[1..], le);
    }
  }

  lemma {:induction false} SortBySorted<T(!new)>(s: seq<T>, le: (T, T) -> bool)
    requires Total(le)
    ensures SortedBy(SortBy(s, le), le)
  {
    if |s| > 0 {
      SortBySorted(s[1..], le);
      InsertSorted(s[0], SortBy(s[1..], le), le);
    }
  }

  /** The order of `_.sortBy(xs, key)`: by an integer key. */
  function ByKey<T>(key: T -> int): (T, T) -> bool
  {
    (a: T, b: T) => key(a) <= key(b)
  }

  function KeyIs<T>(key: T -> int, c: int): T -> bool
  {
    (x: T) => key(x) == c
  }

  lemma ByKeyTotal<T(!new)>(key: T -> int)
    ensures Total(ByKey(key))
  {
  }

  lemma {:induction false} FilterConcat<T(!new)>(a: seq<T>, b: seq<T>, keep: T -> bool)
    ensures Filter(a + b, keep) == Filter(a, keep) + Filter(b, keep)
    decreases |b|
  {
    if |b| > 0 {
      var init := b[..|b| - 1];
      assert a + b == (a + init) + [b[|b| - 1]];
      FilterAppend(a + init, b[|b| - 1], keep);
      FilterAppend(init, b[|b| - 1], keep);
      assert b == init + [b[|b| - 1]];
      FilterConcat(a, init, keep);
    } else {
      assert a + b == a;
    }
  }

  lemma {:induction false} InsertByKey<T(!new)>(x: T, l: seq<T>, key: T -> int, c: int)
    ensures Filter(Insert(x, l, ByKey(key)), KeyIs(key, c)) == Filter([x] + l, KeyIs(key, c))
    decreases |l|
  {
    var keep := KeyIs(key, c);
    if |l| > 0 && !ByKey(key)(x, l[0]) {
      var y, t := l[0], l[1..];
      var rest := Insert(x, t, ByKey(key));
      assert Insert(x, l, ByKey(key)) == [y] + rest;
      assert l == [y] + t;
      InsertByKey(x, t, key, c);
      FilterConcat([y], rest, keep);
      FilterConcat([x], t, keep);
      FilterConcat([y], t, keep);
      FilterConcat([x], l, keep);
      var fx, fy := Filter([x], keep), Filter([y], keep);
      if fx == [] {
        assert Filter([x] + t, keep) == Filter(t, keep);
        assert Filter([x] + l, keep) == Filter(l, keep);
      } else {
        assert fy == [];
        assert Filter([y] + rest, keep) == Filter(rest, keep);
        assert Filter(l, keep) == Filter(t, keep);
      }
    }
  }

  /** The sort is stable: the elements with any one key keep their input
      order. */
  lemma {:induction false} SortByKeyStable<T(!new)>(s: seq<T>, key: T -> int, c: int)
    ensures Filter(SortBy(s, ByKey(key)), KeyIs(key, c)) == Filter(s, KeyIs(key, c))
    decreases |s|
  {
    if |s| > 0 {
      var keep := KeyIs(key, c);
      SortByKeyStable(s[1..], key, c);
      InsertByKey(s[0], SortBy(s[1..], ByKey(key)), key, c);
      FilterConcat([s[0]], SortBy(s[1..], ByKey(key)), keep);
      FilterConcat([s[0]], s[1..], keep);
      assert s == [s[0]] + s[1..];
    }
  }

  lemma FilterSingle<T(!new)>(x: T, keep: T -> bool)
    ensures Filter([x], keep) == if keep(x) then [x] else []
  {
    assert [x][..0] == [];
  }

  /** In a sequence sorted by key, no element has a smaller key than the
      first. */
  lemma {:induction false} SortedFirstLeast<T(!new)>(s: seq<T>, key: T -> int)
    requires SortedBy(s, ByKey(key)) && |s| > 0
    ensures forall x | x in s :: key(s[0]) <= key(x)
    decreases |s|
  {
    if |s| > 1 {
      assert SortedBy(s[1..], ByKey(key));
      SortedFirstLeast(s[1..], key);
      assert key(s[0]) <= key(s[1]);
      assert s == [s[0]] + s[1..];
    }
  }

  lemma FilterCons<T(!new)>(x: T, t: seq<T>, keep: T -> bool)
    ensures Filter([x] + t, keep) == (if keep(x) then [x] else []) + Filter(t, keep)
  {
    FilterConcat([x], t, keep);
    FilterSingle(x, keep);
  }

  /** Sequences that select the same elements for a key agree on their
      tails once their heads agree. */
  lemma SameFilterTail<T(!new)>(a: seq<T>, b: seq<T>, keep: T -> bool)
    requires |a| > 0 && |b| > 0 && a[0] == b[0]
    requires Filter(a, keep) == Filter(b, keep)
    ensures Filter(a[1..], keep) == Filter(b[1..], keep)
  {
    var x, ta, tb := a[0], a[1..], b[1..];
    assert a == [x] + ta && b == [x] + tb;
    FilterCons(x, ta, keep);
    FilterCons(x, tb, keep);
    var pre := if keep(x) then [x] else [];
    var fa, fb := Filter(ta, keep), Filter(tb, keep);
    assert pre + fa == pre + fb;
    assert fa == (pre + fa)[|pre|..];
    assert fb == (pre + fb)[|pre|..];
  }

  /** Sorted sequences that select the same elements for the keys of their
      heads start with the same element: the first element of the least
      key. */
  lemma SameFiltersHead<T(!new)>(a: seq<T>, b: seq<T>, key: T -> int)
    requires SortedBy(a, ByKey(key)) && SortedBy(b, ByKey(key)) && |a| > 0 && |b| > 0
    requires Filter(a, KeyIs(key, key(a[0]))) == Filter(b, KeyIs(key, key(a[0])))
    requires Filter(a, KeyIs(key, key(b[0]))) == Filter(b, KeyIs(key, key(b[0])))
    ensures a[0] == b[0]
  {
    var x, y := a[0], b[0];
    SortedFirstLeast(a, key);
    SortedFirstLeast(b, key);
    assert x in Filter(a, KeyIs(key, key(x)));
    assert y in Filter(b, KeyIs(key, key(y)));
    assert key(x) <= key(y) && key(y) <= key(x);
    var keep := KeyIs(key, key(x));
    var ta, tb := a[1..], b[1..];
    assert a == [x] + ta && b == [y] + tb;
    FilterCons(x, ta, keep);
    FilterCons(y, tb, keep);
    assert keep(x) && keep(y);
    var fa, fb := Filter(ta, keep), Filter(tb, keep);
    assert [x] + fa == [y] + fb;
    assert ([x] + fa)[0] == x && ([y] + fb)[0] == y;
  }

  lemma NonEmptyFilter<T(!new)>(s: seq<T>, key: T -> int)
    requires |s| > 0
    ensures Filter(s, KeyIs(key, key(s[0]))) != []
  {
    assert s[0] in Filter(s, KeyIs(key, key(s[0])));
  }

  /** A stable sort by key has only one possible result: two sequences
      sorted by key that list the elements of every key in the same order
      are equal. */
  lemma {:induction false} StableSortUnique<T(!new)>(a: seq<T>, b: seq<T>, key: T -> int)
    requires SortedBy(a, ByKey(key)) && SortedBy(b, ByKey(key))
    requires forall c :: Filter(a, KeyIs(key, c)) == Filter(b, KeyIs(key, c))
    ensures a == b
    decreases |a|
  {
    if |a| == 0 && |b| > 0 {
      NonEmptyFilter(b, key);
      assert false;
    } else if |a| > 0 && |b| == 0 {
      NonEmptyFilter(a, key);
      assert false;
    } else if |a| > 0 {
      SameFiltersHead(a, b, key);
      forall c
        ensures Filter(a[1..], KeyIs(key, c)) == Filter(b[1..], KeyIs(key, c))
      {
        SameFilterTail(a, b, KeyIs(key, c));
      }
      assert SortedBy(a[1..], ByKey(key)) && SortedBy(b[1..], ByKey(key));
      StableSortUnique(a[1..], b[1..], key);
      assert a == [a[0]] + a[1..] && b == [b[0]] + b[1..];
    }
  }

  /** Two neighbours that are not both kept can swap without changing the
      filter. */
  lemma FilterSwap<T(!new)>(a: seq<T>, x: T, y: T, b: seq<T>, keep: T -> bool)
    requires !(keep(x) && keep(y))
    ensures Filter(a + [x, y] + b, keep) == Filter(a + [y, x] + b, keep)
  {
    FilterCons(x, [y], keep);
    FilterCons(y, [x], keep);
    FilterSingle(x, keep);
    FilterSingle(y, keep);
    assert [x] + [y] == [x, y] && [y] + [x] == [y, x];
    var fxy, fyx := Filter([x, y], keep), Filter([y, x], keep);
    assert fxy == fyx;
    FilterConcat(a, [x, y], keep);
    FilterConcat(a, [y, x], keep);
    FilterConcat(a + [x, y], b, keep);
    FilterConcat(a + [y, x], b, keep);
  }

  function Sum(s: seq<int>): int
  {
    if |s| == 0 then 0 else Sum(s[..|s| - 1]) + s[|s| - 1]
  }

  lemma {:induction false} SubsetSize<T>(a: set<T>, b: set<T>)
    requires a <= b
    ensures |a| <= |b|
    decreases |b|
  {
    if b != {} {
      var x :| x in b;
      SubsetSize(a - {x}, b - {x});
    }
  }

  /** Some element of a non-empty set. */
  lemma Pick<T>(s: set<T>) returns (x: T)
    requires s != {}
    ensures x in s
  {
    x :| x in s;
  }

  /** `f` applied to every element, in order. */
  function Map<A, B>(s: seq<A>, f: A -> B): (r: seq<B>)
    ensures |r| == |s|
    ensures forall k :: 0 <= k < |s| ==> r[k] == f(s[k])
  {
    seq(|s|, k requires 0 <= k < |s| => f(s[k]))
  }

  lemma MapRemoveAt<A, B>(s: seq<A>, i: nat, f: A -> B)
    requires i < |s|
    ensures multiset(s[..i] + s[i + 1..]) == multiset(s) - multiset{s[i]}
    ensures multiset(Map(s, f)) == multiset(Map(s[..i] + s[i + 1..], f)) + multiset{f(s[i])}
  {
    assert s == s[..i] + [s[i]] + s[i + 1..];
    var m := Map(s, f);
    assert m == m[..i] + [m[i]] + m[i + 1..];
    assert Map(s[..i] + s[i + 1..], f) == m[..i] + m[i + 1..];
  }

  /** Mapping a rearranged sequence gives a rearranged sequence. */
  lemma {:induction false} MapPermutes<A, B>(a: seq<A>, b: seq<A>, f: A -> B)
    requires multiset(a) == multiset(b)
    ensures multiset(Map(a, f)) == multiset(Map(b, f))
    decreases |a|
  {
    if |a| > 0 {
      var i := IndexOf(b, a[0]);
      var rest := b[..i] + b[i + 1..];
      MapRemoveAt(b, i, f);
      DropFirst(a);
      MapPermutes(a[1..], rest, f);
      MapFirst(a, f);
    }
  }

  lemma IndexOf<A>(s: seq<A>, x: A) returns (i: nat)
    requires x in multiset(s)
    ensures i < |s| && s[i] == x
  {
    i :| 0 <= i < |s| && s[i] == x;
  }

  lemma DropFirst<A>(s: seq<A>)
    requires |s| > 0
    ensures multiset(s[1..]) == multiset(s) - multiset{s[0]}
  {
    assert s == [s[0]] + s[1..];
  }

  lemma MapFirst<A, B>(s: seq<A>, f: A -> B)
    requires |s| > 0
    ensures multiset(Map(s, f)) == multiset{f(s[0])} + multiset(Map(s[1..], f))
  {
    assert Map(s, f) == [f(s[0])] + Map(s[1..], f);
  }
}
