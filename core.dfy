/** The core-genome analyser: it reduces an assembly's BLAST hits against the
    gene families to one profile of families with their mutations. */
module Core {
  import opened Wrappers
  import Seqs
  import opened Alignment
  import opened Hits

  /** The caller's summary: only these two identifiers are used. */
  datatype Summary = Summary(assemblyId: string, speciesId: string)

  datatype CoreSummary = CoreSummary(assemblyId: string, speciesId: string, familiesMatches: nat)

  /** The inner `coreProfile` maps each family to its hits. */
  datatype CoreProfile = CoreProfile(coreProfile: map<string, seq<Hit>>)

  /** `{ coreSummary, coreProfile: { coreProfile } }`. */
  datatype CoreResult = CoreResult(coreSummary: CoreSummary, coreProfile: CoreProfile)

  // ---------------------------------------------------------------------
  // Partial hits

  /** The hit with its `full` flag set. */
  function Mark(config: Config, h: Hit): Hit
  {
    h.(full := Some(IsCompleteMatch(config, h)))
  }

  function MarkFull(config: Config, hs: seq<Hit>): (r: seq<Hit>)
    ensures |r| == |hs|
    ensures forall k :: 0 <= k < |hs| ==> r[k] == Mark(config, hs[k])
  {
    seq(|hs|, k requires 0 <= k < |hs| => Mark(config, hs[k]))
  }

  /** `!(complete.has(hit.hitId) && !hit.full)`. */
  function KeepAfterPartial(complete: set<string>): Hit -> bool
  {
    (h: Hit) => !(h.hitId in complete && h.full != Some(true))
  }

  function DropPartials(hs: seq<Hit>, complete: set<string>): seq<Hit>
  {
    Seqs.Filter(hs, KeepAfterPartial(complete))
  }

  /** What `_removePartialHits` leaves of the list: every hit marked, and
      the partial hits of families with a complete hit removed. */
  function WithoutPartialHits(config: Config, hs: seq<Hit>): seq<Hit>
  {
    DropPartials(MarkFull(config, hs), CompleteFamilies(config, hs))
  }

  /** The partial-hit filter marks every hit it keeps, a hit is kept exactly
      when it is complete or its family has no complete hit, and nothing else
      appears. */
  lemma PartialHitsMeaning(config: Config, hs: seq<Hit>)
    ensures var out := WithoutPartialHits(config, hs);
      && (forall h :: h in out ==> h.full == Some(IsCompleteMatch(config, h)))
      && (forall k :: 0 <= k < |hs| ==>
            (Mark(config, hs[k]) in out <==>
              IsCompleteMatch(config, hs[k]) || hs[k].hitId !in CompleteFamilies(config, hs)))
      && (forall h :: h in out ==> exists k :: 0 <= k < |hs| && h == Mark(config, hs[k]))
      && (forall h :: h in out && h.hitId in CompleteFamilies(config, hs) ==> IsCompleteMatch(config, h))
  {
    var marked := MarkFull(config, hs);
    assert forall k :: 0 <= k < |hs| ==> marked[k] in marked;
  }

  /** Every family that was hit is still hit after the partial-hit filter. */
  lemma PartialHitsKeepFamilies(config: Config, hs: seq<Hit>)
    ensures FamiliesWithHits(WithoutPartialHits(config, hs)) == FamiliesWithHits(hs)
  {
    var out := WithoutPartialHits(config, hs);
    var complete := CompleteFamilies(config, hs);
    PartialHitsMeaning(config, hs);
    forall id | id in FamiliesWithHits(hs)
      ensures id in FamiliesWithHits(out)
    {
      FamiliesWithHitsMembership(hs, id);
      FamiliesWithHitsMembership(out, id);
      CompleteFamiliesMembership(config, hs, id);
      var g :| g in hs && g.hitId == id;
      var i :| 0 <= i < |hs| && hs[i] == g;
      if id in complete {
        var k :| 0 <= k < |hs| && IsCompleteMatch(config, hs[k]) && hs[k].hitId == id;
        assert Mark(config, hs[k]) in out;
      } else {
        assert Mark(config, hs[i]) in out;
      }
    }
    forall id | id in FamiliesWithHits(out)
      ensures id in FamiliesWithHits(hs)
    {
      FamiliesWithHitsMembership(hs, id);
      FamiliesWithHitsMembership(out, id);
      var h :| h in out && h.hitId == id;
      var k :| 0 <= k < |hs| && h == Mark(config, hs[k]);
      assert hs[k] in hs;
    }
  }

  // ---------------------------------------------------------------------
  // Mutations

  /** The hit still carries its aligned gene and contig rows. */
  predicate HasAlignment(h: Hit)
  {
    h.hitSequence.Some? && h.querySequence.Some? && |h.hitSequence.value| == |h.querySequence.value|
  }

  /** The rows the differ compares: reverse-complemented for a hit on the
      reverse strand. */
  function DiffedRows(h: Hit): (string, string)
    requires HasAlignment(h)
  {
    if h.reverse then (Complement(h.hitSequence.value), Complement(h.querySequence.value))
    else (h.hitSequence.value, h.querySequence.value)
  }

  /** A differ record placed on the gene and the contig: the gene position
      counts from `hitStart`; the contig position counts up from `queryStart`
      on the forward strand and down from `queryEnd` on the reverse strand. */
  function Place(v: Variant, h: Hit): Mutation
  {
    Mutation(v.t, v.wt, v.mut, h.hitStart + v.refOffset,
             if h.reverse then h.queryEnd - v.queryOffset else h.queryStart + v.queryOffset)
  }

  function Locate(vs: seq<Variant>, h: Hit): (ms: seq<Mutation>)
    ensures |ms| == |vs|
    ensures forall k :: 0 <= k < |vs| ==> ms[k] == Place(vs[k], h)
  {
    seq(|vs|, k requires 0 <= k < |vs| => Place(vs[k], h))
  }

  /** The hit after `addMutations`: mutations set, both rows dropped. */
  function Annotated(h: Hit): Hit
    requires HasAlignment(h)
  {
    var (ref, query) := DiffedRows(h);
    h.(hitSequence := None, querySequence := None, mutations := Some(Locate(Diff(ref, query), h)))
  }

  lemma ComplementInjective(a: string, b: string)
    ensures Complement(a) == Complement(b) <==> a == b
  {
    if Complement(a) == Complement(b) {
      ComplementInvolution(a);
      ComplementInvolution(b);
    }
  }

  /** A hit gets no mutations exactly when its gene and contig rows agree,
      on either strand. */
  lemma NoMutationsIffRowsAgree(h: Hit)
    requires HasAlignment(h)
    ensures Annotated(h).mutations.value == [] <==> h.hitSequence.value == h.querySequence.value
  {
    var (ref, query) := DiffedRows(h);
    DiffEmptyIffIdentical(ref, query);
    ComplementInjective(h.hitSequence.value, h.querySequence.value);
  }

  /** Mutations come in gene order and, along the contig, ascending on the
      forward strand and descending on the reverse strand. */
  lemma MutationsInOrder(h: Hit)
    requires HasAlignment(h)
    ensures var ms := Annotated(h).mutations.value;
      forall k :: 0 <= k < |ms| - 1 ==>
        && ms[k].rI <= ms[k + 1].rI
        && (!h.reverse ==> ms[k].qI <= ms[k + 1].qI)
        && (h.reverse ==> ms[k].qI >= ms[k + 1].qI)
  {
    var (ref, query) := DiffedRows(h);
    DiffShape(ref, query);
  }

  /** Each mutation is a well-formed differ record of the diffed rows, and the
      records spell out the differing columns. */
  lemma MutationsCoverDifferences(h: Hit)
    requires HasAlignment(h)
    ensures var (ref, query) := DiffedRows(h);
      var d := Diff(ref, query);
      && Wts(d) == RefAtDiffs(ref, query, |ref|)
      && Muts(d) == QueryAtDiffs(ref, query, |ref|)
      && (forall c :: c in d ==> WellFormed(c))
      && |Annotated(h).mutations.value| == |d|
  {
    var (ref, query) := DiffedRows(h);
    DiffContent(ref, query);
    DiffShape(ref, query);
  }

  function AnnotateAll(hs: seq<Hit>): (r: seq<Hit>)
    requires forall h :: h in hs ==> HasAlignment(h)
    ensures |r| == |hs|
    ensures forall k :: 0 <= k < |hs| ==> r[k] == Annotated(hs[k])
  {
    seq(|hs|, k requires 0 <= k < |hs| => Annotated(hs[k]))
  }

  // ---------------------------------------------------------------------
  // The whole analysis

  /** The three filters in the order `getCore` applies them. */
  function Filtered(config: Config, hs: seq<Hit>): seq<Hit>
  {
    WithoutOverlaps(WithoutShortHits(config, WithoutPartialHits(config, hs)))
  }

  /** The filters only keep, mark and drop hits: alignments survive. */
  lemma FilteredKeepsAlignments(config: Config, hs: seq<Hit>)
    requires forall h :: h in hs ==> HasAlignment(h)
    ensures forall h :: h in Filtered(config, hs) ==> HasAlignment(h)
  {
    var partial := WithoutPartialHits(config, hs);
    var short := WithoutShortHits(config, partial);
    PartialHitsMeaning(config, hs);
    forall h | h in partial
      ensures HasAlignment(h)
    {
      var k :| 0 <= k < |hs| && h == Mark(config, hs[k]);
      assert hs[k] in hs;
    }
    assert forall h :: h in short ==> h in partial;
    Seqs.UnmarkedSubset(short, Losers(short));
  }

  function CoreHits(config: Config, hs: seq<Hit>): seq<Hit>
    requires forall h :: h in hs ==> HasAlignment(h)
  {
    FilteredKeepsAlignments(config, hs);
    AnnotateAll(Filtered(config, hs))
  }

  function CoreOf(config: Config, hs: seq<Hit>, summary: Summary): CoreResult
    requires forall h :: h in hs ==> HasAlignment(h)
  {
    var out := CoreHits(config, hs);
    CoreResult(CoreSummary(summary.assemblyId, summary.speciesId, |FamiliesWithHits(out)|), CoreProfile(GroupByFamily(out)))
  }

  /** Every hit of the profile is marked and annotated, and none is short. */
  lemma CoreHitsAnnotated(config: Config, hs: seq<Hit>)
    requires forall h :: h in hs ==> HasAlignment(h)
    ensures forall h :: h in CoreHits(config, hs) ==>
      && h.hitSequence.None? && h.querySequence.None? && h.mutations.Some? && h.full.Some?
      && !IsShort(config, h)
  {
    var out := CoreHits(config, hs);
    var filtered := Filtered(config, hs);
    FilteredKeepsAlignments(config, hs);
    forall h | h in out
      ensures && h.hitSequence.None? && h.querySequence.None? && h.mutations.Some? && h.full.Some?
              && !IsShort(config, h)
    {
      var k :| 0 <= k < |out| && out[k] == h;
      assert filtered[k] in filtered;
      FilteredMarkedLong(config, hs, filtered[k]);
    }
  }

  lemma FilteredMarkedLong(config: Config, hs: seq<Hit>, h: Hit)
    requires h in Filtered(config, hs)
    ensures h.full.Some? && !IsShort(config, h)
  {
    var partial := WithoutPartialHits(config, hs);
    var short := WithoutShortHits(config, partial);
    Seqs.UnmarkedSubset(short, Losers(short));
    assert h in short;
    PartialHitsMeaning(config, hs);
  }

  /** No two hits of the profile compete for the same stretch of a contig. */
  lemma CoreHitsDoNotOverlap(config: Config, hs: seq<Hit>)
    requires forall h :: h in hs ==> HasAlignment(h)
    ensures var out := CoreHits(config, hs);
      forall x, y :: 0 <= x < |out| && 0 <= y < |out| && x != y ==> HitsOverlap(out[x], out[y]) < MinOverlap
  {
    var out := CoreHits(config, hs);
    var short := WithoutShortHits(config, WithoutPartialHits(config, hs));
    SurvivorsDoNotOverlap(short);
    FilteredKeepsAlignments(config, hs);
    forall x, y | 0 <= x < |out| && 0 <= y < |out| && x != y
      ensures HitsOverlap(out[x], out[y]) < MinOverlap
    {
      assert HitsOverlap(out[x], out[y]) == HitsOverlap(Filtered(config, hs)[x], Filtered(config, hs)[y]);
    }
  }

  /** The family count is the number of families in the profile, and the
      profile is keyed by exactly the families of the surviving hits. */
  lemma CoreOfMeaning(config: Config, hs: seq<Hit>, summary: Summary)
    requires forall h :: h in hs ==> HasAlignment(h)
    ensures var res := CoreOf(config, hs, summary);
      && res.coreSummary.familiesMatches == |res.coreProfile.coreProfile.Keys|
      && res.coreProfile.coreProfile.Keys == FamiliesWithHits(CoreHits(config, hs))
      && res.coreSummary.assemblyId == summary.assemblyId
      && res.coreSummary.speciesId == summary.speciesId
  {
    GroupByFamilyMeaning(CoreHits(config, hs));
  }

  class Core {
    const config: Config

    constructor(config: Config)
      ensures this.config == config
    {
      this.config := config;
    }

    /** Marks every hit `full` or not and drops the partial hits of families
        that have a complete one. */
    method RemovePartialHits(list: HitList)
      modifies list
      ensures list.hits == WithoutPartialHits(config, old(list.hits))
    {
      var hits := list.hits;
      var complete: set<string> := {};
      var marked: seq<Hit> := [];
      var i := 0;
      while i < |hits|
        invariant 0 <= i <= |hits|
        invariant complete == CompleteFamilies(config, hits[..i])
        invariant marked == MarkFull(config, hits[..i])
      {
        var hit := hits[i];
        assert hits[..i + 1][..i] == hits[..i];
        if IsCompleteMatch(config, hit) {
          complete := complete + {hit.hitId};
          marked := marked + [hit.(full := Some(true))];
        } else {
          marked := marked + [hit.(full := Some(false))];
        }
        i := i + 1;
      }
      assert hits[..|hits|] == hits;
      list.hits := DropPartials(marked, complete);
    }

    /** Diffs the hit's rows (reverse-complemented on the reverse strand),
        places each record on the gene and the contig, and drops the rows. */
    method AddMutations(hit: Hit) returns (r: Hit)
      requires HasAlignment(hit)
      ensures r == Annotated(hit)
    {
      var mutations;
      if hit.reverse {
        mutations := CompareAlignment(Complement(hit.hitSequence.value), Complement(hit.querySequence.value));
      } else {
        mutations := CompareAlignment(hit.hitSequence.value, hit.querySequence.value);
      }
      var placed: seq<Mutation> := [];
      var k := 0;
      while k < |mutations|
        invariant 0 <= k <= |mutations|
        invariant placed == Locate(mutations[..k], hit)
      {
        var m := mutations[k];
        var rI := if hit.reverse then hit.hitStart + m.refOffset else hit.hitStart + m.refOffset;
        var qI := if hit.reverse then hit.queryEnd - m.queryOffset else hit.queryStart + m.queryOffset;
        placed := placed + [Mutation(m.t, m.wt, m.mut, rI, qI)];
        k := k + 1;
      }
      assert mutations[..|mutations|] == mutations;
      r := hit.(hitSequence := None, querySequence := None, mutations := Some(placed));
    }

    /** `_.forEach(hits, hit => this.addMutations(hit))`. */
    method AddAllMutations(hits: seq<Hit>) returns (r: seq<Hit>)
      requires forall h :: h in hits ==> HasAlignment(h)
      ensures r == AnnotateAll(hits)
    {
      r := hits;
      var k := 0;
      while k < |r|
        invariant 0 <= k <= |r| == |hits|
        invariant forall j :: 0 <= j < k ==> r[j] == Annotated(hits[j])
        invariant forall j :: k <= j < |hits| ==> r[j] == hits[j]
      {
        assert hits[k] in hits;
        var annotated := AddMutations(r[k]);
        r := r[k := annotated];
        k := k + 1;
      }
    }

    /** Filters the caller's hits in place, annotates the survivors, and
        returns the summary and the profile grouped by family. */
    method GetCore(list: HitList, summary: Summary) returns (result: CoreResult)
      requires forall h :: h in list.hits ==> HasAlignment(h)
      modifies list
      ensures list.hits == CoreHits(config, old(list.hits))
      ensures result == CoreOf(config, old(list.hits), summary)
    {
      ghost var input := list.hits;
      RemovePartialHits(list);
      RemoveShortHits(config, list);
      RemoveOverlappingHits(list);
      assert list.hits == Filtered(config, input);
      FilteredKeepsAlignments(config, input);
      var hits := AddAllMutations(list.hits);
      list.hits := hits;
      var familiesMatches := |FamiliesWithHits(hits)|;
      result := CoreResult(CoreSummary(summary.assemblyId, summary.speciesId, familiesMatches), CoreProfile(GroupByFamily(hits)));
    }
  }
}
