/** BLAST hits of gene-family references against the contigs of an assembly,
    and the filters both analysers apply to them: overlapping hits on a
    contig, short hits, and (in `Core` and `Blast` separately) partial hits. */
module Hits {
  import opened Wrappers
  import Seqs
  import Text
  import opened Alignment

  /** One high-scoring pair, after reformatting. Sequences are absent once the
      mutations have been extracted; `full` and `mutations` are absent until the
      partial-hit filter and the differ have been run. */
  datatype Hit = Hit(
    hitAccession: string,
    hitId: string,
    hitSequence: Option<string>,
    hitStart: int,
    hitEnd: int,
    reverse: bool,
    queryId: string,
    querySequence: Option<string>,
    queryStart: int,
    queryEnd: int,
    matchingBases: int,
    alignmentLength: int,
    pIdent: real,
    full: Option<bool>,
    mutations: Option<seq<Mutation>>)

  /** The analyser's configuration: reference gene lengths keyed by family
      and an optional minimum hit length. */
  datatype Config = Config(geneLengths: map<string, int>, minMatchCoverage: Option<int>)

  /** The caller's array of hits, which the filters shrink in place. */
  class HitList {
    var hits: seq<Hit>

    constructor(hits: seq<Hit>)
      ensures this.hits == hits
    {
      this.hits := hits;
    }
  }

  function Abs(x: int): nat
  {
    if x < 0 then -x else x
  }

  function Min(x: int, y: int): int
  {
    if x <= y then x else y
  }

  function Max(x: int, y: int): int
  {
    if x <= y then y else x
  }

  /** Percentage identity of a hit. */
  function PIdent(matchingBases: int, alignmentLength: int): (p: real)
    requires alignmentLength != 0
    ensures 0 <= matchingBases <= alignmentLength ==> 0.0 <= p <= 100.0
    ensures matchingBases == alignmentLength ==> p == 100.0
    ensures p * alignmentLength as real == 100.0 * matchingBases as real
  {
    var q := matchingBases as real / alignmentLength as real;
    assert q * alignmentLength as real == matchingBases as real;
    100.0 * q
  }

  // ---------------------------------------------------------------------
  // Overlapping hits

  /** Hits sharing at least this many contig positions compete. */
  const MinOverlap: int := 40

  function QueryLow(h: Hit): int
  {
    Min(h.queryStart, h.queryEnd)
  }

  function QueryHigh(h: Hit): int
  {
    Max(h.queryStart, h.queryEnd)
  }

  /** Number of contig positions two hits share, computed as the source does:
      order each hit's ends, then pick the one of the six interleavings of the
      four ends that is ascending. */
  function HitsOverlap(a: Hit, b: Hit): (r: int)
    ensures a.queryId != b.queryId ==> r == 0
    ensures a.queryId == b.queryId ==>
      r == Max(0, Min(QueryHigh(a), QueryHigh(b)) - Max(QueryLow(a), QueryLow(b)) + 1)
  {
    if a.queryId != b.queryId then 0
    else
      var aStart, aEnd := QueryLow(a), QueryHigh(a);
      var bStart, bEnd := QueryLow(b), QueryHigh(b);
      if aStart <= aEnd <= bStart <= bEnd then (if aEnd == bStart then 1 else 0)
      else if bStart <= bEnd <= aStart <= aEnd then (if bEnd == aStart then 1 else 0)
      else if aStart <= bStart <= aEnd <= bEnd then aEnd - bStart + 1
      else if aStart <= bStart <= bEnd <= aEnd then bEnd - bStart + 1
      else if bStart <= aStart <= bEnd <= aEnd then bEnd - aStart + 1
      else if bStart <= aStart <= aEnd <= bEnd then aEnd - aStart + 1
      else assert false; 0
  }

  /** The integers from `lo` to `hi`. */
  function Interval(lo: int, hi: int): (r: set<int>)
    ensures forall p :: p in r <==> lo <= p <= hi
    decreases hi - lo
  {
    if lo > hi then {} else Interval(lo, hi - 1) + {hi}
  }

  lemma {:induction false} IntervalSize(lo: int, hi: int)
    ensures |Interval(lo, hi)| == Max(0, hi - lo + 1)
    decreases hi - lo
  {
    if lo <= hi {
      IntervalSize(lo, hi - 1);
      assert hi !in Interval(lo, hi - 1);
    }
  }

  /** Contig positions covered by both hits. */
  function SharedPositions(a: Hit, b: Hit): set<int>
  {
    Interval(Max(QueryLow(a), QueryLow(b)), Min(QueryHigh(a), QueryHigh(b)))
  }

  /** On one contig the overlap is the number of positions both hits cover. */
  lemma OverlapCountsSharedPositions(a: Hit, b: Hit)
    requires a.queryId == b.queryId
    ensures HitsOverlap(a, b) == |SharedPositions(a, b)|
    ensures forall p :: p in SharedPositions(a, b) <==>
      QueryLow(a) <= p <= QueryHigh(a) && QueryLow(b) <= p <= QueryHigh(b)
  {
    IntervalSize(Max(QueryLow(a), QueryLow(b)), Min(QueryHigh(a), QueryHigh(b)));
  }

  /** The tie-break of two competing hits, `a` listed before `b`: the lower
      identity loses, then the fewer matching bases, then the alphabetically
      larger family, then the later start, then the later end. When all of
      these agree it holds in neither order, and `PairLoser` removes the
      later hit. */
  predicate FirstLoses(a: Hit, b: Hit)
  {
    if a.pIdent != b.pIdent then a.pIdent < b.pIdent
    else if a.matchingBases != b.matchingBases then a.matchingBases < b.matchingBases
    else if a.hitId != b.hitId then Text.Less(b.hitId, a.hitId)
    else if a.queryStart != b.queryStart then a.queryStart > b.queryStart
    else if a.queryEnd != b.queryEnd then a.queryEnd > b.queryEnd
    else false
  }

  /** The fields the tie-break looks at. */
  predicate SameRank(a: Hit, b: Hit)
  {
    a.pIdent == b.pIdent && a.matchingBases == b.matchingBases && a.hitId == b.hitId
    && a.queryStart == b.queryStart && a.queryEnd == b.queryEnd
  }

  /** The verdict depends on the list order only between hits of the same
      rank: otherwise exactly one of the two ways round makes `a` lose. */
  lemma VerdictIndependentOfOrder(a: Hit, b: Hit)
    ensures !SameRank(a, b) ==> (FirstLoses(a, b) <==> !FirstLoses(b, a))
    ensures SameRank(a, b) ==> !FirstLoses(a, b) && !FirstLoses(b, a)
  {
    if a.pIdent == b.pIdent && a.matchingBases == b.matchingBases && a.hitId != b.hitId {
      Text.LessTotal(a.hitId, b.hitId);
      if Text.Less(a.hitId, b.hitId) {
        Text.LessAsymmetric(a.hitId, b.hitId);
      }
    }
  }

  /** Hits `i < j` compete when they overlap by at least `MinOverlap`. */
  predicate Judged(hs: seq<Hit>, i: nat, j: nat)
    requires i < j < |hs|
  {
    HitsOverlap(hs[i], hs[j]) >= MinOverlap
  }

  function PairLoser(hs: seq<Hit>, i: nat, j: nat): nat
    requires i < j < |hs|
  {
    if FirstLoses(hs[i], hs[j]) then i else j
  }

  /** Losers of the pairs `(i, j')` with `i < j' < j`. */
  function RowLosers(hs: seq<Hit>, i: nat, j: nat): set<nat>
    requires i < |hs| && j <= |hs|
    decreases j
  {
    if j <= i + 1 then {}
    else RowLosers(hs, i, j - 1) + (if Judged(hs, i, j - 1) then {PairLoser(hs, i, j - 1)} else {})
  }

  lemma RowLosersStep(hs: seq<Hit>, i: nat, j: nat)
    requires i < j < |hs|
    ensures RowLosers(hs, i, j + 1)
         == RowLosers(hs, i, j) + (if Judged(hs, i, j) then {PairLoser(hs, i, j)} else {})
  {
  }

  /** Losers of the pairs whose first hit is before `i`. */
  function LosersBefore(hs: seq<Hit>, i: nat): set<nat>
    requires i <= |hs|
  {
    if i == 0 then {} else LosersBefore(hs, i - 1) + RowLosers(hs, i - 1, |hs|)
  }

  function Losers(hs: seq<Hit>): set<nat>
  {
    LosersBefore(hs, |hs|)
  }

  /** What `_removeOverlappingHits` leaves of the list. */
  function WithoutOverlaps(hs: seq<Hit>): seq<Hit>
  {
    Seqs.Unmarked(hs, Losers(hs))
  }

  lemma {:induction false} RowLosersMembership(hs: seq<Hit>, i: nat, j: nat, x: nat)
    requires i < |hs| && j <= |hs|
    ensures x in RowLosers(hs, i, j) <==>
      exists j' :: i < j' < j && Judged(hs, i, j') && PairLoser(hs, i, j') == x
    decreases j
  {
    if j > i + 1 {
      RowLosersMembership(hs, i, j - 1, x);
    }
  }

  /** A hit is removed exactly when it loses at least one competing pair;
      removed hits do not drop out of later comparisons. */
  lemma {:induction false} LosersMembership(hs: seq<Hit>, n: nat, x: nat)
    requires n <= |hs|
    ensures x in LosersBefore(hs, n) <==>
      exists i, j :: 0 <= i < n && i < j < |hs| && Judged(hs, i, j) && PairLoser(hs, i, j) == x
  {
    if n > 0 {
      LosersMembership(hs, n - 1, x);
      RowLosersMembership(hs, n - 1, |hs|, x);
      if x in RowLosers(hs, n - 1, |hs|) {
        var j :| n - 1 < j < |hs| && Judged(hs, n - 1, j) && PairLoser(hs, n - 1, j) == x;
      }
    }
  }

  /** No two hits left by the filter compete any more. */
  lemma SurvivorsDoNotOverlap(hs: seq<Hit>)
    ensures var out := WithoutOverlaps(hs);
      forall x, y :: 0 <= x < |out| && 0 <= y < |out| && x != y ==> HitsOverlap(out[x], out[y]) < MinOverlap
  {
    var out := WithoutOverlaps(hs);
    var pos := Seqs.UnmarkedPositions(|hs|, Losers(hs));
    Seqs.UnmarkedIsSelection(hs, Losers(hs));
    forall x, y | 0 <= x < y < |out|
      ensures HitsOverlap(out[x], out[y]) < MinOverlap
    {
      var p, q := pos[x], pos[y];
      assert out[x] == hs[p] && out[y] == hs[q];
      if Judged(hs, p, q) {
        LosersMembership(hs, |hs|, PairLoser(hs, p, q));
        assert false;
      }
    }
  }

  /** Filtering twice removes nothing more. */
  lemma WithoutOverlapsIdempotent(hs: seq<Hit>)
    ensures WithoutOverlaps(WithoutOverlaps(hs)) == WithoutOverlaps(hs)
  {
    var out := WithoutOverlaps(hs);
    SurvivorsDoNotOverlap(hs);
    forall x | 0 <= x < |out|
      ensures x !in Losers(out)
    {
      LosersMembership(out, |out|, x);
    }
    Seqs.UnmarkedNothing(out, Losers(out));
  }

  /** A hit that competes with no other hit is kept. */
  lemma UncontestedHitSurvives(hs: seq<Hit>, i: nat)
    requires i < |hs|
    requires forall j :: 0 <= j < |hs| && j != i ==> HitsOverlap(hs[i], hs[j]) < MinOverlap
    ensures hs[i] in WithoutOverlaps(hs)
  {
    LosersMembership(hs, |hs|, i);
    Seqs.UnmarkedIsSelection(hs, Losers(hs));
    var pos := Seqs.UnmarkedPositions(|hs|, Losers(hs));
    var k :| 0 <= k < |pos| && pos[k] == i;
    assert WithoutOverlaps(hs)[k] == hs[i];
  }

  /** The overlap filter. The source groups the hits by contig before
      comparing every later hit with every earlier one; hits on different
      contigs never overlap, so comparing all pairs of the list judges the
      same pairs. */
  method RemoveOverlappingHits(list: HitList)
    modifies list
    ensures list.hits == WithoutOverlaps(old(list.hits))
  {
    var hits := list.hits;
    var overlapped: set<nat> := {};
    var i := 0;
    while i < |hits|
      invariant 0 <= i <= |hits|
      invariant overlapped == LosersBefore(hits, i)
    {
      var j := i + 1;
      while j < |hits|
        invariant i + 1 <= j <= |hits|
        invariant overlapped == LosersBefore(hits, i) + RowLosers(hits, i, j)
      {
        RowLosersStep(hits, i, j);
        var hitA, hitB := hits[i], hits[j];
        var overlap := HitsOverlap(hitA, hitB);
        if overlap >= MinOverlap {
          if hitA.pIdent != hitB.pIdent {
            overlapped := overlapped + {if hitA.pIdent < hitB.pIdent then i else j};
          } else if hitA.matchingBases != hitB.matchingBases {
            overlapped := overlapped + {if hitA.matchingBases < hitB.matchingBases then i else j};
          } else if hitA.hitId != hitB.hitId {
            overlapped := overlapped + {if Text.Less(hitB.hitId, hitA.hitId) then i else j};
          } else if hitA.queryStart != hitB.queryStart {
            overlapped := overlapped + {if hitA.queryStart > hitB.queryStart then i else j};
          } else if hitA.queryEnd != hitB.queryEnd {
            overlapped := overlapped + {if hitA.queryEnd > hitB.queryEnd then i else j};
          } else {
            overlapped := overlapped + {j};
          }
        }
        j := j + 1;
      }
      i := i + 1;
    }
    list.hits := Seqs.Unmarked(hits, overlapped);
  }

  // ---------------------------------------------------------------------
  // Short hits

  /** `minMatchCoverage || 80`: an absent or zero setting means 80. */
  function MinMatchCoverage(config: Config): int
  {
    if config.minMatchCoverage.Some? && config.minMatchCoverage.value != 0 then config.minMatchCoverage.value
    else 80
  }

  predicate IsShort(config: Config, h: Hit)
  {
    Abs(h.hitStart - h.hitEnd) < MinMatchCoverage(config)
  }

  function NotShort(config: Config): Hit -> bool
  {
    (h: Hit) => !IsShort(config, h)
  }

  function WithoutShortHits(config: Config, hs: seq<Hit>): seq<Hit>
  {
    Seqs.Filter(hs, NotShort(config))
  }

  /** The short-hit filter keeps, in their order, exactly the hits whose ends
      on the gene are at least the configured distance apart (80 when the
      setting is absent or zero). */
  lemma WithoutShortHitsMeaning(config: Config, hs: seq<Hit>)
    ensures var min := if config.minMatchCoverage.Some? && config.minMatchCoverage.value != 0
                       then config.minMatchCoverage.value else 80;
      forall h :: h in WithoutShortHits(config, hs) <==> h in hs && Abs(h.hitStart - h.hitEnd) >= min
    ensures WithoutShortHits(config, hs) == Seqs.Select(hs, Seqs.Positions(hs, NotShort(config)))
  {
    Seqs.FilterIsSelection(hs, NotShort(config));
  }

  lemma WithoutShortHitsIdempotent(config: Config, hs: seq<Hit>)
    ensures WithoutShortHits(config, WithoutShortHits(config, hs)) == WithoutShortHits(config, hs)
  {
    Seqs.FilterAll(WithoutShortHits(config, hs), NotShort(config));
  }

  method RemoveShortHits(config: Config, list: HitList)
    modifies list
    ensures list.hits == WithoutShortHits(config, old(list.hits))
  {
    list.hits := WithoutShortHits(config, list.hits);
  }

  // ---------------------------------------------------------------------
  // Complete hits

  /** The hit spans its reference gene end to end. A family missing from the
      configured lengths has no complete hit. */
  predicate IsCompleteMatch(config: Config, h: Hit)
  {
    h.hitId in config.geneLengths && Abs(h.hitStart - h.hitEnd) + 1 == config.geneLengths[h.hitId]
  }

  /** The families with at least one complete hit. */
  function CompleteFamilies(config: Config, hs: seq<Hit>): set<string>
  {
    if |hs| == 0 then {}
    else
      var last := hs[|hs| - 1];
      CompleteFamilies(config, hs[..|hs| - 1]) + (if IsCompleteMatch(config, last) then {last.hitId} else {})
  }

  /** A family is complete exactly when one of its hits is. */
  lemma {:induction false} CompleteFamiliesMembership(config: Config, hs: seq<Hit>, id: string)
    ensures id in CompleteFamilies(config, hs) <==>
      exists k :: 0 <= k < |hs| && IsCompleteMatch(config, hs[k]) && hs[k].hitId == id
  {
    if |hs| > 0 {
      var init := hs[..|hs| - 1];
      CompleteFamiliesMembership(config, init, id);
      assert forall k :: 0 <= k < |init| ==> init[k] == hs[k];
    }
  }

  // ---------------------------------------------------------------------
  // Grouping

  /** The families hit, as the `reduce` into a `Set` collects them. */
  function FamiliesWithHits(hs: seq<Hit>): (r: set<string>)
    ensures forall k | 0 <= k < |hs| :: hs[k].hitId in r
  {
    if |hs| == 0 then {} else FamiliesWithHits(hs[..|hs| - 1]) + {hs[|hs| - 1].hitId}
  }

  /** The fold collects exactly the families of the hits. */
  lemma {:induction false} FamiliesWithHitsMembership(hs: seq<Hit>, id: string)
    ensures id in FamiliesWithHits(hs) <==> exists h :: h in hs && h.hitId == id
  {
    if |hs| > 0 {
      var init := hs[..|hs| - 1];
      assert hs == init + [hs[|hs| - 1]];
      FamiliesWithHitsMembership(init, id);
    }
  }

  function HasFamily(id: string): Hit -> bool
  {
    (h: Hit) => h.hitId == id
  }

  /** `_.groupBy(hits, "hitId")`: each family's hits in list order. */
  function GroupByFamily(hs: seq<Hit>): map<string, seq<Hit>>
  {
    if |hs| == 0 then map[]
    else
      var groups := GroupByFamily(hs[..|hs| - 1]);
      var h := hs[|hs| - 1];
      groups[h.hitId := (if h.hitId in groups then groups[h.hitId] else []) + [h]]
  }

  /** The groups are keyed by exactly the families hit, and each holds that
      family's hits in their list order. */
  lemma {:induction false} GroupByFamilyMeaning(hs: seq<Hit>)
    ensures GroupByFamily(hs).Keys == FamiliesWithHits(hs)
    ensures forall id :: id in GroupByFamily(hs) ==> GroupByFamily(hs)[id] == Seqs.Filter(hs, HasFamily(id))
  {
    if |hs| > 0 {
      var init := hs[..|hs| - 1];
      var h := hs[|hs| - 1];
      assert hs == init + [h];
      GroupByFamilyMeaning(init);
      forall id | id in GroupByFamily(hs)
        ensures GroupByFamily(hs)[id] == Seqs.Filter(hs, HasFamily(id))
      {
        GroupStep(init, h, id);
      }
    }
  }

  lemma GroupStep(init: seq<Hit>, h: Hit, id: string)
    requires GroupByFamily(init).Keys == FamiliesWithHits(init)
    requires forall id :: id in GroupByFamily(init) ==> GroupByFamily(init)[id] == Seqs.Filter(init, HasFamily(id))
    requires id in GroupByFamily(init + [h])
    ensures GroupByFamily(init + [h])[id] == Seqs.Filter(init + [h], HasFamily(id))
  {
    var hs := init + [h];
    assert hs[..|hs| - 1] == init;
    Seqs.FilterAppend(init, h, HasFamily(id));
    if id !in GroupByFamily(init) {
      FamiliesWithHitsMembership(init, id);
      Seqs.FilterNone(init, HasFamily(id));
    }
  }
}
