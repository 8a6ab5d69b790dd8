/** The allele comparison of the reference filter: a distance between two
    mutation lists, and a greedy pairing of query alleles with reference
    alleles by that distance. */
module Filter {
  import opened Wrappers
  import Seqs
  import opened Alignment

  // ---------------------------------------------------------------------
  // Distance between two mutation lists

  /** The substitutions of a list keyed by gene position (lodash
      `_.keyBy("rI")` after keeping the `S` records): a later record at a
      position replaces an earlier one. */
  type Keyed = map<int, string>

  function KeyBy(ms: seq<Mutation>): Keyed
    decreases |ms|
  {
    if |ms| == 0 then map[]
    else
      var m := ms[|ms| - 1];
      var before := KeyBy(ms[..|ms| - 1]);
      if m.t == S then before[m.rI := m.mut] else before
  }

  /** No substitution after position `k` of `ms` sits at the same gene
      position. */
  predicate LastAt(ms: seq<Mutation>, k: nat)
    requires k < |ms|
  {
    forall j | k < j < |ms| :: !(ms[j].t == S && ms[j].rI == ms[k].rI)
  }

  /** A position is keyed exactly when some substitution sits there, and it
      holds the mutant of the last of them. */
  lemma {:induction false} KeyByMeaning(ms: seq<Mutation>)
    ensures forall r :: r in KeyBy(ms) <==> exists k :: 0 <= k < |ms| && ms[k].t == S && ms[k].rI == r
    ensures forall k | 0 <= k < |ms| && ms[k].t == S && LastAt(ms, k) :: KeyBy(ms)[ms[k].rI] == ms[k].mut
    decreases |ms|
  {
    if |ms| > 0 {
      var init := ms[..|ms| - 1];
      KeyByMeaning(init);
      forall r
        ensures r in KeyBy(ms) <==> exists k :: 0 <= k < |ms| && ms[k].t == S && ms[k].rI == r
      {
        if r in KeyBy(init) {
          var k :| 0 <= k < |init| && init[k].t == S && init[k].rI == r;
          assert ms[k] == init[k];
        }
        if exists k :: 0 <= k < |ms| && ms[k].t == S && ms[k].rI == r {
          var k :| 0 <= k < |ms| && ms[k].t == S && ms[k].rI == r;
          if k < |init| {
            assert init[k] == ms[k];
          }
        }
      }
      forall k | 0 <= k < |ms| && ms[k].t == S && LastAt(ms, k)
        ensures KeyBy(ms)[ms[k].rI] == ms[k].mut
      {
        if k < |init| {
          assert init[k] == ms[k];
          assert LastAt(init, k);
        }
      }
    }
  }

  /** Only substitutions count: the other records can be dropped first. */
  lemma {:induction false} KeyByIgnoresOthers(ms: seq<Mutation>)
    ensures KeyBy(Seqs.Filter(ms, IsSubstitution)) == KeyBy(ms)
    decreases |ms|
  {
    if |ms| > 0 {
      var init := ms[..|ms| - 1];
      var m := ms[|ms| - 1];
      assert ms == init + [m];
      KeyByIgnoresOthers(init);
      Seqs.FilterAppend(init, m, IsSubstitution);
      var subs := Seqs.Filter(init, IsSubstitution);
      if m.t == S {
        assert (subs + [m])[..|subs + [m]| - 1] == subs;
        assert KeyBy(subs + [m]) == KeyBy(subs)[m.rI := m.mut];
      } else {
        assert Seqs.Filter(ms, IsSubstitution) == subs;
      }
    }
  }

  predicate IsSubstitution(m: Mutation)
  {
    m.t == S
  }

  /** The mutant at a position, `None` standing for the `null` of an absent
      one. */
  function Lookup(p: Keyed, r: int): Option<string>
  {
    if r in p then Some(p[r]) else None
  }

  /** The positions of either list where the two disagree. */
  function Differing(a: Keyed, b: Keyed): set<int>
  {
    set r | r in a.Keys + b.Keys && Lookup(a, r) != Lookup(b, r)
  }

  /** `_compareMutations`: the number of positions at which the two lists'
      substitutions differ. */
  function Distance(first: seq<Mutation>, second: seq<Mutation>): nat
  {
    |Differing(KeyBy(first), KeyBy(second))|
  }

  lemma DistanceSymmetric(first: seq<Mutation>, second: seq<Mutation>)
    ensures Distance(first, second) == Distance(second, first)
  {
    assert Differing(KeyBy(first), KeyBy(second)) == Differing(KeyBy(second), KeyBy(first));
  }

  /** Two lists are at distance zero exactly when they have the same
      substitutions, position by position. */
  lemma DistanceZero(first: seq<Mutation>, second: seq<Mutation>)
    ensures Distance(first, second) == 0 <==> KeyBy(first) == KeyBy(second)
  {
    var a, b := KeyBy(first), KeyBy(second);
    if Distance(first, second) == 0 {
      assert Differing(a, b) == {};
      forall r | r in a.Keys + b.Keys
        ensures r in a && r in b && a[r] == b[r]
      {
        assert r !in Differing(a, b);
      }
      assert a.Keys == b.Keys;
      assert a == b;
    } else {
      var r :| r in Differing(a, b);
    }
  }

  lemma DistanceIgnoresOthers(first: seq<Mutation>, second: seq<Mutation>)
    ensures Distance(first, second)
         == Distance(Seqs.Filter(first, IsSubstitution), Seqs.Filter(second, IsSubstitution))
  {
    KeyByIgnoresOthers(first);
    KeyByIgnoresOthers(second);
  }

  /** The distance is a metric on the keyed substitutions: it obeys the
      triangle inequality. */
  lemma DistanceTriangle(first: seq<Mutation>, second: seq<Mutation>, third: seq<Mutation>)
    ensures Distance(first, third) <= Distance(first, second) + Distance(second, third)
  {
    var a, b, c := KeyBy(first), KeyBy(second), KeyBy(third);
    var ab, bc := Differing(a, b), Differing(b, c);
    forall r | r in Differing(a, c)
      ensures r in ab + bc
    {
      if Lookup(a, r) != Lookup(b, r) {
        assert r in a.Keys + b.Keys;
      } else {
        assert r in b.Keys + c.Keys;
      }
    }
    Seqs.SubsetSize(Differing(a, c), ab + bc);
    assert |ab + bc| + |ab * bc| == |ab| + |bc|;
  }

  /** The positions of `done` where the two disagree. */
  ghost function DifferingOn(a: Keyed, b: Keyed, done: set<int>): set<int>
  {
    set r | r in done && Lookup(a, r) != Lookup(b, r)
  }

  lemma DifferingOnAll(a: Keyed, b: Keyed)
    ensures DifferingOn(a, b, a.Keys + b.Keys) == Differing(a, b)
  {
  }

  lemma DifferingOnStep(a: Keyed, b: Keyed, done: set<int>, r: int)
    requires r !in done
    ensures |DifferingOn(a, b, done + {r})|
         == |DifferingOn(a, b, done)| + (if Lookup(a, r) != Lookup(b, r) then 1 else 0)
  {
    if Lookup(a, r) != Lookup(b, r) {
      assert DifferingOn(a, b, done + {r}) == DifferingOn(a, b, done) + {r};
    } else {
      assert DifferingOn(a, b, done + {r}) == DifferingOn(a, b, done);
    }
  }

  /** `_compareMutations`, with its loop over the positions of either list. */
  method CompareMutations(first: seq<Mutation>, second: seq<Mutation>) returns (variants: nat)
    ensures variants == Distance(first, second)
  {
    var firstPositions := KeyBy(first);
    var secondPositions := KeyBy(second);
    var mutationPositions := firstPositions.Keys + secondPositions.Keys;
    variants := 0;
    var left := mutationPositions;
    ghost var done: set<int> := {};
    while left != {}
      invariant left + done == mutationPositions && left !! done
      invariant variants == |DifferingOn(firstPositions, secondPositions, done)|
      decreases |left|
    {
      ghost var some := Seqs.Pick(left);
      var rI :| rI in left;
      DifferingOnStep(firstPositions, secondPositions, done, rI);
      if Lookup(firstPositions, rI) != Lookup(secondPositions, rI) {
        variants := variants + 1;
      }
      left := left - {rI};
      done := done + {rI};
    }
    DifferingOnAll(firstPositions, secondPositions);
  }

  /** A substitution against an insertion at the same position counts one
      difference; a deletion beside an equal substitution counts none. */
  lemma DistanceExamples()
    ensures Distance([Mutation(S, "A", "A", 4, 0)], [Mutation(I, "A", "A", 4, 0)]) == 1
    ensures Distance([Mutation(S, "A", "A", 4, 0), Mutation(D, "A", "-", 4, 0)],
                     [Mutation(D, "A", "-", 4, 0), Mutation(S, "A", "A", 4, 0)]) == 0
  {
    var one := [Mutation(S, "A", "A", 4, 0)];
    assert KeyBy(one) == map[4 := "A"] by {
      assert one[..0] == [];
    }
    var two := [Mutation(I, "A", "A", 4, 0)];
    assert KeyBy(two) == map[] by {
      assert two[..0] == [];
    }
    assert Differing(map[4 := "A"], map[]) == {4};
    var three := [Mutation(S, "A", "A", 4, 0), Mutation(D, "A", "-", 4, 0)];
    var four := [Mutation(D, "A", "-", 4, 0), Mutation(S, "A", "A", 4, 0)];
    assert KeyBy(three) == map[4 := "A"] by {
      assert three[..1] == one;
    }
    assert KeyBy(four) == map[4 := "A"] by {
      assert four[..1][..0] == [];
    }
  }

  // ---------------------------------------------------------------------
  // Pairing alleles

  /** One entry of the distance table: `[queryIndex, referenceIndex,
      difference]`. */
  datatype Pair = Pair(queryIndex: nat, referenceIndex: nat, difference: nat)

  /** A distance between mutation lists, as a value. */
  type Metric = (seq<Mutation>, seq<Mutation>) -> nat

  /** The entries for query allele `qi` against the first `n` reference
      alleles. */
  function Row(qi: nat, queryAllele: seq<Mutation>, reference: seq<seq<Mutation>>, n: nat, dist: Metric): (r: seq<Pair>)
    requires n <= |reference|
    ensures |r| == n
    ensures forall k | 0 <= k < n :: r[k] == Pair(qi, k, dist(queryAllele, reference[k]))
  {
    if n == 0 then []
    else Row(qi, queryAllele, reference, n - 1, dist) + [Pair(qi, n - 1, dist(queryAllele, reference[n - 1]))]
  }

  /** The table of the first `m` query alleles against every reference
      allele, query by query. */
  function Table(query: seq<seq<Mutation>>, reference: seq<seq<Mutation>>, m: nat, dist: Metric): seq<Pair>
    requires m <= |query|
  {
    if m == 0 then []
    else Table(query, reference, m - 1, dist) + Row(m - 1, query[m - 1], reference, |reference|, dist)
  }

  function Differences(query: seq<seq<Mutation>>, reference: seq<seq<Mutation>>): seq<Pair>
  {
    Table(query, reference, |query|, Distance)
  }

  /** An entry belongs to the table exactly when it pairs a query allele
      with a reference allele at their distance. */
  predicate EntryOf(query: seq<seq<Mutation>>, reference: seq<seq<Mutation>>, p: Pair, dist: Metric)
  {
    p.queryIndex < |query| && p.referenceIndex < |reference|
    && p.difference == dist(query[p.queryIndex], reference[p.referenceIndex])
  }

  predicate Entry(query: seq<seq<Mutation>>, reference: seq<seq<Mutation>>, p: Pair)
  {
    EntryOf(query, reference, p, Distance)
  }

  /** Query-major, reference-minor order. */
  predicate Before(a: Pair, b: Pair)
  {
    a.queryIndex < b.queryIndex || (a.queryIndex == b.queryIndex && a.referenceIndex < b.referenceIndex)
  }

  lemma {:induction false} TableMembers(query: seq<seq<Mutation>>, reference: seq<seq<Mutation>>, m: nat, dist: Metric)
    requires m <= |query|
    ensures forall p :: p in Table(query, reference, m, dist) <==> EntryOf(query, reference, p, dist) && p.queryIndex < m
  {
    if m > 0 {
      TableMembers(query, reference, m - 1, dist);
      var row := Row(m - 1, query[m - 1], reference, |reference|, dist);
      forall p | EntryOf(query, reference, p, dist) && p.queryIndex == m - 1
        ensures p in row
      {
        assert row[p.referenceIndex] == p;
      }
    }
  }

  lemma {:induction false} TableOrdered(query: seq<seq<Mutation>>, reference: seq<seq<Mutation>>, m: nat, dist: Metric)
    requires m <= |query|
    ensures forall k | 0 <= k < |Table(query, reference, m, dist)| :: Table(query, reference, m, dist)[k].queryIndex < m
    ensures forall i, j | 0 <= i < j < |Table(query, reference, m, dist)| ::
      Before(Table(query, reference, m, dist)[i], Table(query, reference, m, dist)[j])
  {
    if m > 0 {
      var before := Table(query, reference, m - 1, dist);
      var row := Row(m - 1, query[m - 1], reference, |reference|, dist);
      var t := before + row;
      TableOrdered(query, reference, m - 1, dist);
      forall k | 0 <= k < |t|
        ensures t[k].queryIndex < m
      {
        if k < |before| {
          assert t[k] == before[k];
        } else {
          assert t[k] == row[k - |before|];
        }
      }
      forall i, j | 0 <= i < j < |t|
        ensures Before(t[i], t[j])
      {
        if j < |before| {
          assert t[i] == before[i] && t[j] == before[j];
        } else if i < |before| {
          assert t[i] == before[i] && t[j] == row[j - |before|];
        } else {
          assert t[i] == row[i - |before|] && t[j] == row[j - |before|];
        }
      }
    }
  }

  /** The table in every index pair's place, once each. */
  lemma DifferencesMeaning(query: seq<seq<Mutation>>, reference: seq<seq<Mutation>>)
    ensures forall p :: p in Differences(query, reference) <==> Entry(query, reference, p)
    ensures forall i, j | 0 <= i < j < |Differences(query, reference)| ::
      Before(Differences(query, reference)[i], Differences(query, reference)[j])
  {
    TableMembers(query, reference, |query|, Distance);
    TableOrdered(query, reference, |query|, Distance);
  }

  function DifferenceOf(p: Pair): int
  {
    p.difference
  }

  /** `_.sortBy(differences, [2])`: a stable sort by difference. */
  function SortedTable(table: seq<Pair>): seq<Pair>
  {
    Seqs.SortBy(table, Seqs.ByKey(DifferenceOf))
  }

  function SortedDistances(query: seq<seq<Mutation>>, reference: seq<seq<Mutation>>): seq<Pair>
  {
    SortedTable(Differences(query, reference))
  }

  /** The sorted table holds the same entries, ascending by difference, and
      entries with equal differences stay in table order. */
  lemma SortedTableMeaning(table: seq<Pair>, d: int)
    ensures multiset(SortedTable(table)) == multiset(table)
    ensures Seqs.SortedBy(SortedTable(table), Seqs.ByKey(DifferenceOf))
    ensures Seqs.Filter(SortedTable(table), Seqs.KeyIs(DifferenceOf, d)) == Seqs.Filter(table, Seqs.KeyIs(DifferenceOf, d))
  {
    Seqs.ByKeyTotal(DifferenceOf);
    Seqs.SortBySorted(table, Seqs.ByKey(DifferenceOf));
    Seqs.SortByKeyStable(table, DifferenceOf, d);
  }

  lemma SortedTableMembers(table: seq<Pair>)
    ensures forall p :: p in SortedTable(table) <==> p in table
  {
    assert multiset(SortedTable(table)) == multiset(table);
    forall p
      ensures p in SortedTable(table) <==> p in table
    {
      assert p in SortedTable(table) <==> p in multiset(SortedTable(table));
      assert p in table <==> p in multiset(table);
    }
  }

  /** So the pairing considers every entry, ascending by difference, and
      entries with equal differences in query-major order. */
  lemma SortedDistancesMeaning(query: seq<seq<Mutation>>, reference: seq<seq<Mutation>>, d: int)
    ensures multiset(SortedDistances(query, reference)) == multiset(Differences(query, reference))
    ensures Seqs.SortedBy(SortedDistances(query, reference), Seqs.ByKey(DifferenceOf))
    ensures Seqs.Filter(SortedDistances(query, reference), Seqs.KeyIs(DifferenceOf, d))
         == Seqs.Filter(Differences(query, reference), Seqs.KeyIs(DifferenceOf, d))
  {
    SortedTableMeaning(Differences(query, reference), d);
  }

  /** The state of the pairing loop: the indices used so far on either side
      and the entries accepted, in order. */
  datatype Pairing = Pairing(pairedQueries: set<nat>, pairedReferences: set<nat>, accepted: seq<Pair>)

  /** An entry is accepted when neither of its indices is used yet. */
  function Greedy(ps: seq<Pair>): Pairing
  {
    if |ps| == 0 then Pairing({}, {}, [])
    else
      var g := Greedy(ps[..|ps| - 1]);
      var p := ps[|ps| - 1];
      if p.queryIndex in g.pairedQueries || p.referenceIndex in g.pairedReferences then g
      else Pairing(g.pairedQueries + {p.queryIndex}, g.pairedReferences + {p.referenceIndex}, g.accepted + [p])
  }

  function TotalDifference(ps: seq<Pair>): nat
  {
    if |ps| == 0 then 0 else TotalDifference(ps[..|ps| - 1]) + ps[|ps| - 1].difference
  }

  /** The result of `_compareAlleles`. */
  datatype Comparison = Comparison(allelesCompared: nat, differences: nat)

  function Compared(query: seq<seq<Mutation>>, reference: seq<seq<Mutation>>): Comparison
  {
    var g := Greedy(SortedDistances(query, reference));
    Comparison(|g.accepted|, TotalDifference(g.accepted))
  }

  /** Every used index comes from an entry that was considered, and every
      accepted entry was considered. */
  lemma {:induction false} GreedyFromInput(ps: seq<Pair>)
    ensures forall p | p in Greedy(ps).accepted :: p in ps
    ensures forall q | q in Greedy(ps).pairedQueries :: exists p | p in ps :: p.queryIndex == q
    ensures forall r | r in Greedy(ps).pairedReferences :: exists p | p in ps :: p.referenceIndex == r
  {
    if |ps| > 0 {
      var init := ps[..|ps| - 1];
      GreedyFromInput(init);
      assert forall p | p in init :: p in ps;
    }
  }

  /** Each accepted entry uses one new index on either side. */
  lemma {:induction false} GreedyCount(ps: seq<Pair>)
    ensures |Greedy(ps).pairedQueries| == |Greedy(ps).accepted| == |Greedy(ps).pairedReferences|
  {
    if |ps| > 0 {
      GreedyCount(ps[..|ps| - 1]);
    }
  }

  /** Every entry considered shares an index with an accepted one. */
  lemma {:induction false} GreedyCovers(ps: seq<Pair>)
    ensures forall p | p in ps :: p.queryIndex in Greedy(ps).pairedQueries || p.referenceIndex in Greedy(ps).pairedReferences
  {
    if |ps| > 0 {
      var init := ps[..|ps| - 1];
      GreedyCovers(init);
      assert ps == init + [ps[|ps| - 1]];
    }
  }

  /** The accepted entries form a matching: no index is used twice. */
  lemma {:induction false} GreedyMatching(ps: seq<Pair>)
    ensures forall p | p in Greedy(ps).accepted ::
      p.queryIndex in Greedy(ps).pairedQueries && p.referenceIndex in Greedy(ps).pairedReferences
    ensures forall i, j | 0 <= i < j < |Greedy(ps).accepted| ::
      Greedy(ps).accepted[i].queryIndex != Greedy(ps).accepted[j].queryIndex
      && Greedy(ps).accepted[i].referenceIndex != Greedy(ps).accepted[j].referenceIndex
  {
    if |ps| > 0 {
      var init := ps[..|ps| - 1];
      GreedyMatching(init);
      var g := Greedy(init);
      var acc := Greedy(ps).accepted;
      if acc != g.accepted {
        forall i, j | 0 <= i < j < |acc|
          ensures acc[i].queryIndex != acc[j].queryIndex && acc[i].referenceIndex != acc[j].referenceIndex
        {
          if j == |acc| - 1 {
            assert acc[i] in g.accepted;
          } else {
            assert acc[i] == g.accepted[i] && acc[j] == g.accepted[j];
          }
        }
      }
    }
  }

  /** The indices below `n`. */
  function Below(n: nat): (r: set<nat>)
    ensures forall i: nat :: i in r <==> i < n
  {
    if n == 0 then {} else Below(n - 1) + {n - 1}
  }

  lemma {:induction false} BelowSize(n: nat)
    ensures |Below(n)| == n
  {
    if n > 0 {
      BelowSize(n - 1);
    }
  }

  lemma Missing(a: set<nat>, n: nat)
    requires a <= Below(n) && |a| < n
    ensures exists i: nat :: i < n && i !in a
  {
    BelowSize(n);
    if forall i: nat :: i < n ==> i in a {
      assert Below(n) <= a;
      Seqs.SubsetSize(Below(n), a);
    }
  }

  /** The pairing of the sorted table of any distance. */
  function PairingOf(query: seq<seq<Mutation>>, reference: seq<seq<Mutation>>, dist: Metric): Pairing
  {
    Greedy(SortedTable(Table(query, reference, |query|, dist)))
  }

  lemma AcceptedEntries(query: seq<seq<Mutation>>, reference: seq<seq<Mutation>>, dist: Metric)
    ensures forall p | p in PairingOf(query, reference, dist).accepted :: EntryOf(query, reference, p, dist)
  {
    var table := Table(query, reference, |query|, dist);
    var sorted := SortedTable(table);
    SortedTableMembers(table);
    TableMembers(query, reference, |query|, dist);
    GreedyFromInput(sorted);
  }

  /** Every entry the pairing accepts pairs a query allele with a reference
      allele at their distance, no allele is paired twice, and the
      difference reported is the sum over the accepted entries. */
  lemma ComparedMeaning(query: seq<seq<Mutation>>, reference: seq<seq<Mutation>>)
    ensures var acc := Greedy(SortedDistances(query, reference)).accepted;
      && (forall p | p in acc :: Entry(query, reference, p))
      && (forall i, j | 0 <= i < j < |acc| ::
            acc[i].queryIndex != acc[j].queryIndex && acc[i].referenceIndex != acc[j].referenceIndex)
      && Compared(query, reference) == Comparison(|acc|, TotalDifference(acc))
  {
    AcceptedEntries(query, reference, Distance);
    GreedyMatching(SortedDistances(query, reference));
  }

  /** The indices the pairing uses are indices of the two lists. */
  lemma PairedInRange(query: seq<seq<Mutation>>, reference: seq<seq<Mutation>>, dist: Metric)
    ensures PairingOf(query, reference, dist).pairedQueries <= Below(|query|)
    ensures PairingOf(query, reference, dist).pairedReferences <= Below(|reference|)
  {
    var table := Table(query, reference, |query|, dist);
    var sorted := SortedTable(table);
    var g := Greedy(sorted);
    SortedTableMembers(table);
    TableMembers(query, reference, |query|, dist);
    GreedyFromInput(sorted);
    forall q | q in g.pairedQueries
      ensures q < |query|
    {
      var p :| p in sorted && p.queryIndex == q;
    }
    forall r | r in g.pairedReferences
      ensures r < |reference|
    {
      var p :| p in sorted && p.referenceIndex == r;
    }
  }

  /** Every pair of indices has an entry in the sorted table. */
  lemma SortedHasEveryPair(query: seq<seq<Mutation>>, reference: seq<seq<Mutation>>, dist: Metric, qi: nat, ri: nat)
    requires qi < |query| && ri < |reference|
    ensures Pair(qi, ri, dist(query[qi], reference[ri])) in SortedTable(Table(query, reference, |query|, dist))
  {
    var table := Table(query, reference, |query|, dist);
    SortedTableMembers(table);
    TableMembers(query, reference, |query|, dist);
    assert EntryOf(query, reference, Pair(qi, ri, dist(query[qi], reference[ri])), dist);
  }

  lemma AllPaired(query: seq<seq<Mutation>>, reference: seq<seq<Mutation>>, dist: Metric)
    ensures |PairingOf(query, reference, dist).accepted| == if |query| < |reference| then |query| else |reference|
  {
    var sorted := SortedTable(Table(query, reference, |query|, dist));
    var g := Greedy(sorted);
    GreedyCount(sorted);
    PairedInRange(query, reference, dist);
    BelowSize(|query|);
    BelowSize(|reference|);
    Seqs.SubsetSize(g.pairedQueries, Below(|query|));
    Seqs.SubsetSize(g.pairedReferences, Below(|reference|));
    if |g.accepted| < |query| && |g.accepted| < |reference| {
      Missing(g.pairedQueries, |query|);
      Missing(g.pairedReferences, |reference|);
      var qi: nat :| qi < |query| && qi !in g.pairedQueries;
      var ri: nat :| ri < |reference| && ri !in g.pairedReferences;
      SortedHasEveryPair(query, reference, dist, qi, ri);
      GreedyCovers(sorted);
      assert false;
    }
  }

  /** As many alleles are compared as the shorter side has: the greedy
      pairing leaves no query allele and reference allele both unpaired. */
  lemma ComparedAll(query: seq<seq<Mutation>>, reference: seq<seq<Mutation>>)
    ensures Compared(query, reference).allelesCompared
         == if |query| < |reference| then |query| else |reference|
  {
    AllPaired(query, reference, Distance);
  }

  /** One row of the distance table, by `_compareMutations`. */
  method CompareRow(qi: nat, queryAllele: seq<Mutation>, reference: seq<seq<Mutation>>) returns (row: seq<Pair>)
    ensures row == Row(qi, queryAllele, reference, |reference|, Distance)
  {
    row := [];
    var ri := 0;
    while ri < |reference|
      invariant 0 <= ri <= |reference|
      invariant row == Row(qi, queryAllele, reference, ri, Distance)
    {
      var difference := CompareMutations(queryAllele, reference[ri]);
      row := row + [Pair(qi, ri, difference)];
      ri := ri + 1;
    }
  }

  /** `_compareAlleles`: the distance of every query allele to every
      reference allele, sorted, then paired greedily. */
  method CompareAlleles(query: seq<seq<Mutation>>, reference: seq<seq<Mutation>>)
    returns (allelesCompared: nat, differences: nat)
    ensures Comparison(allelesCompared, differences) == Compared(query, reference)
  {
    var table := DistanceTable(query, reference);
    var sortedDistances := SortedTable(table);
    allelesCompared, differences := PairGreedily(sortedDistances);
  }

  /** The nested loop of `_compareAlleles` that fills the table. */
  method DistanceTable(query: seq<seq<Mutation>>, reference: seq<seq<Mutation>>) returns (table: seq<Pair>)
    ensures table == Differences(query, reference)
  {
    table := [];
    var qi := 0;
    while qi < |query|
      invariant 0 <= qi <= |query|
      invariant table == Table(query, reference, qi, Distance)
    {
      var row := CompareRow(qi, query[qi], reference);
      table := table + row;
      qi := qi + 1;
    }
  }

  /** The pairing loop of `_compareAlleles`. */
  method PairGreedily(sortedDistances: seq<Pair>) returns (allelesCompared: nat, totalDifferences: nat)
    ensures allelesCompared == |Greedy(sortedDistances).accepted|
    ensures totalDifferences == TotalDifference(Greedy(sortedDistances).accepted)
  {
    var pairedQueries: set<nat> := {};
    var pairedReferences: set<nat> := {};
    ghost var accepted: seq<Pair> := [];
    allelesCompared, totalDifferences := 0, 0;
    var k := 0;
    while k < |sortedDistances|
      invariant 0 <= k <= |sortedDistances|
      invariant Greedy(sortedDistances[..k]) == Pairing(pairedQueries, pairedReferences, accepted)
      invariant allelesCompared == |accepted| && totalDifferences == TotalDifference(accepted)
    {
      var p := sortedDistances[k];
      assert sortedDistances[..k + 1][..k] == sortedDistances[..k];
      if !(p.queryIndex in pairedQueries || p.referenceIndex in pairedReferences) {
        pairedQueries := pairedQueries + {p.queryIndex};
        pairedReferences := pairedReferences + {p.referenceIndex};
        assert (accepted + [p])[..|accepted|] == accepted;
        accepted := accepted + [p];
        totalDifferences := totalDifferences + p.difference;
        allelesCompared := allelesCompared + 1;
      }
      k := k + 1;
    }
    assert sortedDistances[..|sortedDistances|] == sortedDistances;
  }

  lemma CompareDifferences(x: Pair, y: Pair)
    ensures Seqs.ByKey(DifferenceOf)(x, y) == (x.difference <= y.difference)
  {
    assert Seqs.ByKey(DifferenceOf)(x, y) == (DifferenceOf(x) <= DifferenceOf(y));
  }

  lemma GreedySnoc(ps: seq<Pair>, p: Pair)
    ensures var g := Greedy(ps);
      Greedy(ps + [p])
      == if p.queryIndex in g.pairedQueries || p.referenceIndex in g.pairedReferences then g
         else Pairing(g.pairedQueries + {p.queryIndex}, g.pairedReferences + {p.referenceIndex}, g.accepted + [p])
  {
    assert (ps + [p])[..|ps|] == ps;
  }

  /** On the sorted table of the example below, the closest pair (distance
      1) blocks the two next-closest ones (distance 2 each): the greedy pass
      accepts distances 1 and 5. */
  lemma GreedyBlocked(p1: Pair, p2: Pair, p3: Pair, p4: Pair, p5: Pair, p6: Pair)
    requires p1 == Pair(0, 0, 1) && p2 == Pair(0, 1, 2) && p3 == Pair(0, 2, 3)
    requires p4 == Pair(1, 0, 2) && p5 == Pair(1, 1, 5) && p6 == Pair(1, 2, 6)
    ensures var acc := Greedy([p1, p2, p4, p3, p5, p6]).accepted;
      && acc == [p1, p5]
      && TotalDifference(acc) == 6
  {
    var one := Pairing({0}, {0}, [p1]);
    var two := Pairing({0, 1}, {0, 1}, [p1, p5]);
    assert Greedy([p1]) == one by {
      GreedySnoc([], p1);
      assert [] + [p1] == [p1];
    }
    assert Greedy([p1, p2]) == one by {
      GreedySnoc([p1], p2);
      assert [p1] + [p2] == [p1, p2];
    }
    assert Greedy([p1, p2, p4]) == one by {
      GreedySnoc([p1, p2], p4);
      assert [p1, p2] + [p4] == [p1, p2, p4];
    }
    assert Greedy([p1, p2, p4, p3]) == one by {
      GreedySnoc([p1, p2, p4], p3);
      assert [p1, p2, p4] + [p3] == [p1, p2, p4, p3];
    }
    assert Greedy([p1, p2, p4, p3, p5]) == two by {
      GreedySnoc([p1, p2, p4, p3], p5);
      assert [p1, p2, p4, p3] + [p5] == [p1, p2, p4, p3, p5];
      assert [p1] + [p5] == [p1, p5];
    }
    assert Greedy([p1, p2, p4, p3, p5, p6]) == two by {
      GreedySnoc([p1, p2, p4, p3, p5], p6);
      assert [p1, p2, p4, p3, p5] + [p6] == [p1, p2, p4, p3, p5, p6];
    }
    assert TotalDifference([p1, p5]) == 6 by {
      assert [p1, p5][..1] == [p1];
      assert [p1][..0] == [];
      assert TotalDifference([p1]) == 1;
    }
  }

  // The test "Compare alleles ambiguously" of tests/Filter.js.

  /** A substitution as that test writes it: only `t`, `mut` and `rI` are
      given, and the distance reads nothing else. */
  function Sub(rI: int, mut: string): Mutation
  {
    Mutation(S, "", mut, rI, 0)
  }

  lemma KeyBySnoc(ms: seq<Mutation>, m: Mutation)
    ensures KeyBy(ms + [m]) == if m.t == S then KeyBy(ms)[m.rI := m.mut] else KeyBy(ms)
  {
    assert (ms + [m])[..|ms|] == ms;
  }

  /** The keyed substitutions of the test's alleles. */
  lemma AmbiguousKeys()
    ensures KeyBy([Sub(1, "A")]) == map[1 := "A"]
    ensures KeyBy([Sub(1, "A"), Sub(3, "A")]) == map[1 := "A", 3 := "A"]
    ensures KeyBy([Sub(1, "A"), Sub(100, "T"), Sub(102, "T")]) == map[1 := "A", 100 := "T", 102 := "T"]
    ensures KeyBy([Sub(1, "A"), Sub(3, "A"), Sub(5, "A"), Sub(7, "A")]) == map[1 := "A", 3 := "A", 5 := "A", 7 := "A"]
    ensures KeyBy([Sub(1, "A"), Sub(3, "A"), Sub(5, "A"), Sub(7, "A"), Sub(98, "T")])
         == map[1 := "A", 3 := "A", 5 := "A", 7 := "A", 98 := "T"]
  {
    var a := Sub(1, "A");
    KeyBySnoc([], a);
    assert [] + [a] == [a];
    var v := [a] + [Sub(3, "A")];
    KeyBySnoc([a], Sub(3, "A"));
    var w1 := [a] + [Sub(100, "T")];
    KeyBySnoc([a], Sub(100, "T"));
    KeyBySnoc(w1, Sub(102, "T"));
    assert w1 + [Sub(102, "T")] == [Sub(1, "A"), Sub(100, "T"), Sub(102, "T")];
    var b2 := v + [Sub(5, "A")];
    KeyBySnoc(v, Sub(5, "A"));
    KeyBySnoc(b2, Sub(7, "A"));
    var b := b2 + [Sub(7, "A")];
    assert b == [Sub(1, "A"), Sub(3, "A"), Sub(5, "A"), Sub(7, "A")];
    KeyBySnoc(b, Sub(98, "T"));
    assert b + [Sub(98, "T")] == [Sub(1, "A"), Sub(3, "A"), Sub(5, "A"), Sub(7, "A"), Sub(98, "T")];
  }

  /** A distance from the keyed substitutions and the positions where they
      differ. */
  lemma DistanceFrom(x: seq<Mutation>, y: seq<Mutation>, kx: Keyed, ky: Keyed, differing: set<int>)
    requires KeyBy(x) == kx && KeyBy(y) == ky && Differing(kx, ky) == differing
    ensures Distance(x, y) == |differing|
  {
  }

  lemma DifferingV()
    ensures Differing(map[1 := "A", 3 := "A"], map[1 := "A"]) == {3}
    ensures Differing(map[1 := "A", 3 := "A"], map[1 := "A", 3 := "A", 5 := "A", 7 := "A"]) == {5, 7}
    ensures Differing(map[1 := "A", 3 := "A"], map[1 := "A", 3 := "A", 5 := "A", 7 := "A", 98 := "T"]) == {5, 7, 98}
  {
  }

  lemma DifferingW()
    ensures Differing(map[1 := "A", 100 := "T", 102 := "T"], map[1 := "A"]) == {100, 102}
    ensures Differing(map[1 := "A", 100 := "T", 102 := "T"], map[1 := "A", 3 := "A", 5 := "A", 7 := "A"])
         == {3, 5, 7, 100, 102}
  {
  }

  lemma DifferingWC()
    ensures Differing(map[1 := "A", 100 := "T", 102 := "T"], map[1 := "A", 3 := "A", 5 := "A", 7 := "A", 98 := "T"])
         == {3, 5, 7, 98, 100, 102}
  {
  }

  /** The distances of the test's two query alleles to its three reference
      alleles. */
  lemma AmbiguousPairDistances(v: seq<Mutation>, w: seq<Mutation>, a: seq<Mutation>, b: seq<Mutation>, c: seq<Mutation>)
    requires v == [Sub(1, "A"), Sub(3, "A")] && w == [Sub(1, "A"), Sub(100, "T"), Sub(102, "T")]
    requires a == [Sub(1, "A")] && b == [Sub(1, "A"), Sub(3, "A"), Sub(5, "A"), Sub(7, "A")]
    requires c == [Sub(1, "A"), Sub(3, "A"), Sub(5, "A"), Sub(7, "A"), Sub(98, "T")]
    ensures Distance(v, a) == 1 && Distance(v, b) == 2 && Distance(v, c) == 3
    ensures Distance(w, a) == 2 && Distance(w, b) == 5 && Distance(w, c) == 6
  {
    AmbiguousKeys();
    DifferingV();
    DifferingW();
    DifferingWC();
    var kv, kw := map[1 := "A", 3 := "A"], map[1 := "A", 100 := "T", 102 := "T"];
    var ka, kb := map[1 := "A"], map[1 := "A", 3 := "A", 5 := "A", 7 := "A"];
    var kc := map[1 := "A", 3 := "A", 5 := "A", 7 := "A", 98 := "T"];
    DistanceFrom(v, a, kv, ka, {3});
    DistanceFrom(v, b, kv, kb, {5, 7});
    DistanceFrom(v, c, kv, kc, {5, 7, 98});
    DistanceFrom(w, a, kw, ka, {100, 102});
    DistanceFrom(w, b, kw, kb, {3, 5, 7, 100, 102});
    DistanceFrom(w, c, kw, kc, {3, 5, 7, 98, 100, 102});
  }

  /** The distance table of the test's alleles, query by query. */
  lemma AmbiguousDistances(query: seq<seq<Mutation>>, reference: seq<seq<Mutation>>)
    requires query == [[Sub(1, "A"), Sub(3, "A")], [Sub(1, "A"), Sub(100, "T"), Sub(102, "T")]]
    requires reference == [[Sub(1, "A")], [Sub(1, "A"), Sub(3, "A"), Sub(5, "A"), Sub(7, "A")],
                           [Sub(1, "A"), Sub(3, "A"), Sub(5, "A"), Sub(7, "A"), Sub(98, "T")]]
    ensures Differences(query, reference)
         == [Pair(0, 0, 1), Pair(0, 1, 2), Pair(0, 2, 3), Pair(1, 0, 2), Pair(1, 1, 5), Pair(1, 2, 6)]
  {
    AmbiguousPairDistances(query[0], query[1], reference[0], reference[1], reference[2]);
    var row0 := Row(0, query[0], reference, 3, Distance);
    var row1 := Row(1, query[1], reference, 3, Distance);
    assert row0 == [Pair(0, 0, 1), Pair(0, 1, 2), Pair(0, 2, 3)];
    assert row1 == [Pair(1, 0, 2), Pair(1, 1, 5), Pair(1, 2, 6)];
    assert Table(query, reference, 1, Distance) == row0 by {
      assert Table(query, reference, 0, Distance) == [];
      assert [] + row0 == row0;
    }
    assert Differences(query, reference) == row0 + row1;
  }

  /** Any sequence sorted by difference that lists the entries of every
      difference in table order is the sorted table. */
  lemma SortedTableIs(table: seq<Pair>, listed: seq<Pair>)
    requires Seqs.SortedBy(listed, Seqs.ByKey(DifferenceOf))
    requires forall d :: Seqs.Filter(listed, Seqs.KeyIs(DifferenceOf, d)) == Seqs.Filter(table, Seqs.KeyIs(DifferenceOf, d))
    ensures SortedTable(table) == listed
  {
    forall d
      ensures Seqs.Filter(SortedTable(table), Seqs.KeyIs(DifferenceOf, d)) == Seqs.Filter(listed, Seqs.KeyIs(DifferenceOf, d))
    {
      SortedTableMeaning(table, d);
    }
    SortedTableMeaning(table, 0);
    Seqs.StableSortUnique(SortedTable(table), listed, DifferenceOf);
  }

  /** `_.sortBy` leaves the test's table with the two entries at distance 2
      ahead of the one at distance 3, in push order. */
  lemma AmbiguousSorted(p1: Pair, p2: Pair, p3: Pair, p4: Pair, p5: Pair, p6: Pair)
    requires p1 == Pair(0, 0, 1) && p2 == Pair(0, 1, 2) && p3 == Pair(0, 2, 3)
    requires p4 == Pair(1, 0, 2) && p5 == Pair(1, 1, 5) && p6 == Pair(1, 2, 6)
    ensures SortedTable([p1, p2, p3, p4, p5, p6]) == [p1, p2, p4, p3, p5, p6]
  {
    var table, listed := [p1, p2, p3, p4, p5, p6], [p1, p2, p4, p3, p5, p6];
    assert table == [p1, p2] + [p3, p4] + [p5, p6];
    assert listed == [p1, p2] + [p4, p3] + [p5, p6];
    forall d
      ensures Seqs.Filter(listed, Seqs.KeyIs(DifferenceOf, d)) == Seqs.Filter(table, Seqs.KeyIs(DifferenceOf, d))
    {
      var keep := Seqs.KeyIs(DifferenceOf, d);
      assert DifferenceOf(p3) == 3 && DifferenceOf(p4) == 2;
      assert keep(p3) == (DifferenceOf(p3) == d);
      assert keep(p4) == (DifferenceOf(p4) == d);
      Seqs.FilterSwap([p1, p2], p3, p4, [p5, p6], keep);
    }
    CompareDifferences(p1, p2);
    CompareDifferences(p2, p4);
    CompareDifferences(p4, p3);
    CompareDifferences(p3, p5);
    CompareDifferences(p5, p6);
    assert Seqs.SortedBy(listed, Seqs.ByKey(DifferenceOf));
    SortedTableIs(table, listed);
  }

  /** The greedy pairing is not always the cheapest. On the test's alleles
      `_compareAlleles` compares 2 alleles at a total of 6 differences,
      while pairing each query allele with the other one's nearest
      reference is a matching of table entries at a total of 4. */
  lemma GreedyNotOptimal(query: seq<seq<Mutation>>, reference: seq<seq<Mutation>>)
    requires query == [[Sub(1, "A"), Sub(3, "A")], [Sub(1, "A"), Sub(100, "T"), Sub(102, "T")]]
    requires reference == [[Sub(1, "A")], [Sub(1, "A"), Sub(3, "A"), Sub(5, "A"), Sub(7, "A")],
                           [Sub(1, "A"), Sub(3, "A"), Sub(5, "A"), Sub(7, "A"), Sub(98, "T")]]
    ensures Compared(query, reference) == Comparison(2, 6)
    ensures var better := [Pair(0, 1, 2), Pair(1, 0, 2)];
      && (forall p | p in better :: p in Differences(query, reference))
      && better[0].queryIndex != better[1].queryIndex
      && better[0].referenceIndex != better[1].referenceIndex
      && TotalDifference(better) == 4
  {
    var p1, p2, p3 := Pair(0, 0, 1), Pair(0, 1, 2), Pair(0, 2, 3);
    var p4, p5, p6 := Pair(1, 0, 2), Pair(1, 1, 5), Pair(1, 2, 6);
    AmbiguousDistances(query, reference);
    ComparedOnTable(query, reference, p1, p2, p3, p4, p5, p6);
    assert p2 in Differences(query, reference) && p4 in Differences(query, reference) by {
      assert Differences(query, reference)[1] == p2 && Differences(query, reference)[3] == p4;
    }
    PairTotal(p2, p4);
  }

  /** The greedy comparison, once the table of differences is known. */
  lemma ComparedOnTable(query: seq<seq<Mutation>>, reference: seq<seq<Mutation>>,
                        p1: Pair, p2: Pair, p3: Pair, p4: Pair, p5: Pair, p6: Pair)
    requires p1 == Pair(0, 0, 1) && p2 == Pair(0, 1, 2) && p3 == Pair(0, 2, 3)
    requires p4 == Pair(1, 0, 2) && p5 == Pair(1, 1, 5) && p6 == Pair(1, 2, 6)
    requires Differences(query, reference) == [p1, p2, p3, p4, p5, p6]
    ensures Compared(query, reference) == Comparison(2, 6)
  {
    AmbiguousSorted(p1, p2, p3, p4, p5, p6);
    assert SortedDistances(query, reference) == [p1, p2, p4, p3, p5, p6];
    GreedyBlocked(p1, p2, p3, p4, p5, p6);
  }

  /** The total of a two-entry matching. */
  lemma PairTotal(a: Pair, b: Pair)
    ensures TotalDifference([a, b]) == a.difference + b.difference
  {
    assert [a, b][..1] == [a];
    assert [a][..0] == [];
    assert TotalDifference([a]) == a.difference;
  }
}
