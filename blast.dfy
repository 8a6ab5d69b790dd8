/** The legacy BLAST output parser. Its differ, overlap filter and
    short-hit filter are the same code as the core analyser's and are modelled
    once, in `Alignment` and `Hits`; what is its own is the reformatting of a
    BLAST hit, its mutation placement, and its partial-hit filter, which does
    not mark hits. */
module Blast {
  import opened Wrappers
  import Seqs
  import opened Alignment
  import opened Hits
  import Core

  /** One high-scoring pair of a BLAST hit, its numbers already parsed. */
  datatype Hsp = Hsp(
    hitFrom: int,
    hitTo: int,
    hseq: string,
    qseq: string,
    queryFrom: int,
    queryTo: int,
    identity: int,
    alignLen: int)

  /** A BLAST hit: the reference's accession and definition line (the
      family), and its pairs; a hit without pairs has an empty list. */
  datatype BlastHit = BlastHit(accession: string, def: string, hsps: seq<Hsp>)

  predicate HasLengths(hit: BlastHit)
  {
    forall k :: 0 <= k < |hit.hsps| ==> hit.hsps[k].alignLen != 0
  }

  /** One pair as a hit record: the gene ends in ascending order, with
      `reverse` set when BLAST reported them descending. */
  function ReformatHsp(queryId: string, hit: BlastHit, hsp: Hsp): Hit
    requires hsp.alignLen != 0
  {
    var reverse := hsp.hitFrom > hsp.hitTo;
    Hit(hit.accession, hit.def, Some(hsp.hseq),
        if reverse then hsp.hitTo else hsp.hitFrom,
        if reverse then hsp.hitFrom else hsp.hitTo,
        reverse, queryId, Some(hsp.qseq), hsp.queryFrom, hsp.queryTo,
        hsp.identity, hsp.alignLen, PIdent(hsp.identity, hsp.alignLen), None, None)
  }

  function ReformatHit(queryId: string, hit: BlastHit): (r: seq<Hit>)
    requires HasLengths(hit)
    ensures |r| == |hit.hsps|
    ensures forall k :: 0 <= k < |r| ==> r[k] == ReformatHsp(queryId, hit, hit.hsps[k])
  {
    seq(|hit.hsps|, k requires 0 <= k < |hit.hsps| => ReformatHsp(queryId, hit, hit.hsps[k]))
  }

  /** Every record has its gene ends ascending and `reverse` exactly when
      BLAST reported them descending; the ends are BLAST's own, the identity
      is the percentage of matching bases, and the sequences are carried. */
  lemma ReformatHitMeaning(queryId: string, hit: BlastHit)
    requires HasLengths(hit)
    ensures forall k :: 0 <= k < |hit.hsps| ==>
      var h, p := ReformatHit(queryId, hit)[k], hit.hsps[k];
      && h.hitStart <= h.hitEnd
      && (h.reverse <==> p.hitFrom > p.hitTo)
      && {h.hitStart, h.hitEnd} == {p.hitFrom, p.hitTo}
      && h.pIdent * p.alignLen as real == 100.0 * p.identity as real
      && h.hitSequence == Some(p.hseq) && h.querySequence == Some(p.qseq)
      && h.hitId == hit.def && h.queryId == queryId
      && h.full.None? && h.mutations.None?
  {
  }

  /** The legacy placement: a hit counts as reversed when its gene ends are
      descending, and then the gene position counts from `hitEnd`. */
  function LegacyPlace(v: Variant, h: Hit): Mutation
  {
    var reversed := h.hitEnd < h.hitStart;
    Mutation(v.t, v.wt, v.mut,
             if reversed then h.hitEnd + v.refOffset else h.hitStart + v.refOffset,
             if reversed then h.queryEnd - v.queryOffset else h.queryStart + v.queryOffset)
  }

  function LegacyLocate(vs: seq<Variant>, h: Hit): (ms: seq<Mutation>)
    ensures |ms| == |vs|
    ensures forall k :: 0 <= k < |vs| ==> ms[k] == LegacyPlace(vs[k], h)
  {
    seq(|vs|, k requires 0 <= k < |vs| => LegacyPlace(vs[k], h))
  }

  lemma LegacyLocateStep(vs: seq<Variant>, k: nat, h: Hit)
    requires k < |vs|
    ensures LegacyLocate(vs[..k + 1], h) == LegacyLocate(vs[..k], h) + [LegacyPlace(vs[k], h)]
  {
    assert vs[..k + 1] == vs[..k] + [vs[k]];
  }

  function LegacyAnnotated(h: Hit): Hit
    requires Core.HasAlignment(h)
  {
    var (ref, query) :=
      if h.hitEnd < h.hitStart then (Complement(h.hitSequence.value), Complement(h.querySequence.value))
      else (h.hitSequence.value, h.querySequence.value);
    h.(hitSequence := None, querySequence := None, mutations := Some(LegacyLocate(Diff(ref, query), h)))
  }

  /** On a hit with ascending gene ends the legacy placement is the core
      placement of the same hit read on the forward strand: it never
      complements, whatever `reverse` says. */
  lemma LegacyAnnotationIsForward(h: Hit)
    requires Core.HasAlignment(h)
    requires h.hitStart <= h.hitEnd
    ensures LegacyAnnotated(h) == Core.Annotated(h.(reverse := false)).(reverse := h.reverse)
  {
    var f := h.(reverse := false);
    var vs := Diff(h.hitSequence.value, h.querySequence.value);
    assert Core.DiffedRows(f) == (h.hitSequence.value, h.querySequence.value);
    assert LegacyLocate(vs, h) == Core.Locate(vs, f);
  }

  /** As the parser produces its hits, the legacy annotation is that
      forward-strand annotation. */
  lemma ReformattedHitsAnnotatedForward(queryId: string, hit: BlastHit, k: nat)
    requires HasLengths(hit)
    requires k < |hit.hsps|
    requires |hit.hsps[k].hseq| == |hit.hsps[k].qseq|
    ensures var h := ReformatHit(queryId, hit)[k];
      LegacyAnnotated(h) == Core.Annotated(h.(reverse := false)).(reverse := h.reverse)
  {
    ReformatHitMeaning(queryId, hit);
    LegacyAnnotationIsForward(ReformatHit(queryId, hit)[k]);
  }

  /** `!(complete.has(hit.hitId) && !isCompleteMatch(hit))`. */
  function KeepLegacy(config: Config, complete: set<string>): Hit -> bool
  {
    (h: Hit) => !(h.hitId in complete && !IsCompleteMatch(config, h))
  }

  function LegacyWithoutPartialHits(config: Config, hs: seq<Hit>): seq<Hit>
  {
    Seqs.Filter(hs, KeepLegacy(config, CompleteFamilies(config, hs)))
  }

  lemma MarkFullAppend(config: Config, hs: seq<Hit>, h: Hit)
    ensures Core.MarkFull(config, hs + [h]) == Core.MarkFull(config, hs) + [Core.Mark(config, h)]
  {
  }

  lemma {:induction false} DropCommutesWithMark(config: Config, hs: seq<Hit>, complete: set<string>)
    ensures Core.DropPartials(Core.MarkFull(config, hs), complete)
         == Core.MarkFull(config, Seqs.Filter(hs, KeepLegacy(config, complete)))
    decreases |hs|
  {
    if |hs| > 0 {
      var init := hs[..|hs| - 1];
      var h := hs[|hs| - 1];
      assert hs == init + [h];
      DropCommutesWithMark(config, init, complete);
      MarkFullAppend(config, init, h);
      Seqs.FilterAppend(Core.MarkFull(config, init), Core.Mark(config, h), Core.KeepAfterPartial(complete));
      Seqs.FilterAppend(init, h, KeepLegacy(config, complete));
      if KeepLegacy(config, complete)(h) {
        MarkFullAppend(config, Seqs.Filter(init, KeepLegacy(config, complete)), h);
      }
    }
  }

  /** The two partial-hit filters keep the same hits; the core one also
      marks them. */
  lemma PartialFiltersAgree(config: Config, hs: seq<Hit>)
    ensures Core.WithoutPartialHits(config, hs) == Core.MarkFull(config, LegacyWithoutPartialHits(config, hs))
  {
    DropCommutesWithMark(config, hs, CompleteFamilies(config, hs));
  }

  class BlastParser {
    const config: Config

    constructor(config: Config)
      ensures this.config == config
    {
      this.config := config;
    }

    method AddMutations(hit: Hit) returns (r: Hit)
      requires Core.HasAlignment(hit)
      ensures r == LegacyAnnotated(hit)
    {
      var mutations;
      var reversed := false;
      if hit.hitEnd < hit.hitStart {
        reversed := true;
        mutations := CompareAlignment(Complement(hit.hitSequence.value), Complement(hit.querySequence.value));
      } else {
        mutations := CompareAlignment(hit.hitSequence.value, hit.querySequence.value);
      }
      var placed: seq<Mutation> := [];
      var k := 0;
      while k < |mutations|
        invariant 0 <= k <= |mutations|
        invariant placed == LegacyLocate(mutations[..k], hit)
      {
        var m := mutations[k];
        var rI := if reversed then hit.hitEnd + m.refOffset else hit.hitStart + m.refOffset;
        var qI := if reversed then hit.queryEnd - m.queryOffset else hit.queryStart + m.queryOffset;
        LegacyLocateStep(mutations, k, hit);
        placed := placed + [Mutation(m.t, m.wt, m.mut, rI, qI)];
        k := k + 1;
      }
      assert mutations[..|mutations|] == mutations;
      r := hit.(hitSequence := None, querySequence := None, mutations := Some(placed));
    }

    method RemovePartialHits(list: HitList)
      modifies list
      ensures list.hits == LegacyWithoutPartialHits(config, old(list.hits))
    {
      var hits := list.hits;
      var complete: set<string> := {};
      var i := 0;
      while i < |hits|
        invariant 0 <= i <= |hits|
        invariant complete == CompleteFamilies(config, hits[..i])
      {
        assert hits[..i + 1][..i] == hits[..i];
        if IsCompleteMatch(config, hits[i]) {
          complete := complete + {hits[i].hitId};
        }
        i := i + 1;
      }
      assert hits[..|hits|] == hits;
      list.hits := Seqs.Filter(hits, KeepLegacy(config, complete));
    }
  }
}
