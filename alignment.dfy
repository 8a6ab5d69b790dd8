/** The alignment differ shared by `Core` and the legacy `Blast` analyser:
    reverse complement, the per-column variant scan and the walk that joins
    neighbouring variants into mutation records. */
module Alignment {
  import opened Wrappers

  /** Substitution, insertion (gap in the reference) or deletion (gap in the
      query). */
  datatype MutationType = S | I | D

  /** A mutation as the differ reports it, before it is placed on the gene and
      the contig. `wt` is the reference ("wild type") text, `mut` the query
      text; the offsets count non-gap characters from 0, so a column before any
      base of a sequence has offset -1. */
  datatype Variant = Variant(t: MutationType, wt: string, mut: string, refOffset: int, queryOffset: int)

  /** A mutation placed on the gene (`rI`) and on the contig (`qI`). */
  datatype Mutation = Mutation(t: MutationType, wt: string, mut: string, rI: int, qI: int)

  const Gap: char := '-'

  // ---------------------------------------------------------------------
  // Reverse complement

  /** The base map: A/T and C/G in either case; anything else, gaps
      included, is kept. */
  function BaseComplement(c: char): (r: char)
    ensures r == Gap <==> c == Gap
  {
    match c
    case 'A' => 'T'
    case 'C' => 'G'
    case 'G' => 'C'
    case 'T' => 'A'
    case 'a' => 't'
    case 'c' => 'g'
    case 'g' => 'c'
    case 't' => 'a'
    case _ => c
  }

  lemma BaseComplementInvolution(c: char)
    ensures BaseComplement(BaseComplement(c)) == c
  {
  }

  /** Reverse complement of a sequence. */
  function Complement(s: string): (r: string)
    ensures |r| == |s|
    ensures forall i :: 0 <= i < |s| ==> r[i] == BaseComplement(s[|s| - 1 - i])
  {
    if |s| == 0 then "" else Complement(s[1..]) + [BaseComplement(s[0])]
  }

  /** Taking the reverse complement twice gives back the sequence. */
  lemma ComplementInvolution(s: string)
    ensures Complement(Complement(s)) == s
  {
    var c := Complement(s);
    forall i | 0 <= i < |s|
      ensures Complement(c)[i] == s[i]
    {
      BaseComplementInvolution(s[i]);
    }
  }

  /** `acgt` is its own reverse complement; case is kept. */
  lemma ComplementExamples()
    ensures Complement("acgt") == "acgt"
    ensures Complement("aCgT") == "AcGt"
  {
  }

  /** Other characters, gaps among them, are kept in place. */
  lemma ComplementKeepsOthers()
    ensures Complement("aaaa") == "tttt"
    ensures Complement("an-A") == "T-nt"
  {
  }

  // ---------------------------------------------------------------------
  // Column scan

  /** Number of non-gap characters. */
  function NonGaps(s: string): (n: nat)
    ensures n <= |s|
  {
    if |s| == 0 then 0 else NonGaps(s[..|s| - 1]) + (if s[|s| - 1] != Gap then 1 else 0)
  }

  /** What a differing column with these characters must be. */
  predicate ColumnKind(t: MutationType, r: char, q: char)
  {
    match t
    case D => q == Gap && r != Gap
    case I => r == Gap && q != Gap
    case S => r != Gap && q != Gap && r != q
  }

  /** The classification of one column: none when the characters agree,
      otherwise a deletion when the query has the gap, an insertion when the
      reference has it, and a substitution otherwise. */
  function Classify(r: char, q: char): (x: Option<MutationType>)
    ensures x.None? <==> r == q
    ensures x.Some? ==> ColumnKind(x.value, r, q)
  {
    if r == q then None
    else if q == Gap then Some(D)
    else if r == Gap then Some(I)
    else Some(S)
  }

  /** The single-column variants of the first `n` columns, in column order;
      each carries the offsets reached at its own column. */
  function Variants(ref: string, query: string, n: nat): seq<Variant>
    requires n <= |ref| && n <= |query|
  {
    if n == 0 then []
    else
      var prev := Variants(ref, query, n - 1);
      match Classify(ref[n - 1], query[n - 1])
      case None => prev
      case Some(t) =>
        prev + [Variant(t, [ref[n - 1]], [query[n - 1]], NonGaps(ref[..n]) - 1, NonGaps(query[..n]) - 1)]
  }

  // ---------------------------------------------------------------------
  // Joining neighbouring variants

  /** The merge test of the walk, as written: the `t` fields agree and the
      end of `a` (its offset plus its text length, less one) meets the offsets
      of `b` in the way its type dictates. */
  predicate Mergeable(a: Variant, b: Variant)
  {
    var refEnd := |a.wt| + a.refOffset - 1;
    var queryEnd := |a.mut| + a.queryOffset - 1;
    (a.t == S && b.t == S && refEnd + 1 == b.refOffset && queryEnd + 1 == b.queryOffset)
    || (a.t == D && b.t == D && refEnd + 1 == b.refOffset && queryEnd == b.queryOffset)
    || (a.t == I && b.t == I && refEnd == b.refOffset && queryEnd + 1 == b.queryOffset)
  }

  /** `a` with the texts of `b` appended; `a` keeps its type and offsets. */
  function Merged(a: Variant, b: Variant): Variant
  {
    a.(wt := a.wt + b.wt, mut := a.mut + b.mut)
  }

  /** One step of the walk: `v` joins the current (last) record, or the
      current record is closed and `v` becomes the current one. */
  function Push(acc: seq<Variant>, v: Variant): seq<Variant>
  {
    if |acc| > 0 && Mergeable(acc[|acc| - 1], v) then acc[..|acc| - 1] + [Merged(acc[|acc| - 1], v)]
    else acc + [v]
  }

  function MergeRuns(vs: seq<Variant>): seq<Variant>
  {
    if |vs| == 0 then [] else Push(MergeRuns(vs[..|vs| - 1]), vs[|vs| - 1])
  }

  /** The mutations of an alignment of `ref` (the gene) against `query`. */
  function Diff(ref: string, query: string): seq<Variant>
    requires |ref| == |query|
  {
    MergeRuns(Variants(ref, query, |ref|))
  }

  /** The differ: a scan over the columns, then a walk over the variants. */
  method CompareAlignment(ref: string, query: string) returns (mutations: seq<Variant>)
    requires |ref| == |query|
    ensures mutations == Diff(ref, query)
  {
    var variants := ScanColumns(ref, query);
    mutations := MergeVariants(variants);
  }

  /** The first loop of the differ: one variant per differing column. */
  method ScanColumns(ref: string, query: string) returns (variants: seq<Variant>)
    requires |ref| == |query|
    ensures variants == Variants(ref, query, |ref|)
  {
    variants := [];
    var refOffset := -1;
    var queryOffset := -1;
    var i := 0;
    while i < |ref|
      invariant 0 <= i <= |ref|
      invariant refOffset == NonGaps(ref[..i]) - 1
      invariant queryOffset == NonGaps(query[..i]) - 1
      invariant variants == Variants(ref, query, i)
    {
      var refBase := ref[i];
      var queryBase := query[i];
      assert ref[..i + 1][..i] == ref[..i] && query[..i + 1][..i] == query[..i];
      if refBase != Gap {
        refOffset := refOffset + 1;
      }
      if queryBase != Gap {
        queryOffset := queryOffset + 1;
      }
      if refBase == queryBase {
      } else if queryBase == Gap {
        variants := variants + [Variant(D, [refBase], [queryBase], refOffset, queryOffset)];
      } else if refBase == Gap {
        variants := variants + [Variant(I, [refBase], [queryBase], refOffset, queryOffset)];
      } else {
        variants := variants + [Variant(S, [refBase], [queryBase], refOffset, queryOffset)];
      }
      i := i + 1;
    }
  }

  /** The second loop of the differ: adjacent variants merged into runs. */
  method MergeVariants(variants: seq<Variant>) returns (mutations: seq<Variant>)
    ensures mutations == MergeRuns(variants)
  {
    mutations := [];
    var current: Option<Variant> := None;
    var k := 0;
    while k < |variants|
      invariant 0 <= k <= |variants|
      invariant current.Some? <==> k > 0
      invariant mutations + (if current.Some? then [current.value] else []) == MergeRuns(variants[..k])
    {
      var next := variants[k];
      assert variants[..k + 1][..k] == variants[..k];
      if current.None? {
        current := Some(next);
      } else if Mergeable(current.value, next) {
        current := Some(Merged(current.value, next));
      } else {
        mutations := mutations + [current.value];
        current := Some(next);
      }
      k := k + 1;
    }
    if current.Some? {
      mutations := mutations + [current.value];
    }
    assert variants[..|variants|] == variants;
  }

  // ---------------------------------------------------------------------
  // Properties of the variants

  /** How far the reference and the query offsets move at a column of type
      `t`. */
  function RefStep(t: MutationType): int
  {
    if t == I then 0 else 1
  }

  function QueryStep(t: MutationType): int
  {
    if t == D then 0 else 1
  }

  /** `w` is a later variant than `v`: between them lie only agreeing columns,
      which move both offsets by the same amount. */
  predicate Follows(v: Variant, w: Variant)
  {
    var m := w.refOffset - v.refOffset - RefStep(w.t);
    m >= 0 && w.queryOffset - v.queryOffset - QueryStep(w.t) == m
  }

  predicate SingleColumn(v: Variant)
  {
    |v.wt| == 1 && |v.mut| == 1 && ColumnKind(v.t, v.wt[0], v.mut[0])
  }

  predicate Chained(vs: seq<Variant>)
  {
    forall k :: 0 <= k < |vs| - 1 ==> Follows(vs[k], vs[k + 1])
  }

  lemma NonGapsStep(s: string, n: nat)
    requires 0 < n <= |s|
    ensures NonGaps(s[..n]) == NonGaps(s[..n - 1]) + (if s[n - 1] != Gap then 1 else 0)
  {
    assert s[..n][..n - 1] == s[..n - 1];
  }

  /** Every variant is one differing column, consecutive variants follow each
      other, and after the last variant only agreeing columns remain. */
  lemma {:induction false} VariantsShape(ref: string, query: string, n: nat)
    requires n <= |ref| && n <= |query|
    ensures forall v :: v in Variants(ref, query, n) ==> SingleColumn(v)
    ensures Chained(Variants(ref, query, n))
    ensures var vs := Variants(ref, query, n);
      |vs| > 0 ==>
        var lag := NonGaps(ref[..n]) - 1 - vs[|vs| - 1].refOffset;
        lag >= 0 && NonGaps(query[..n]) - 1 - vs[|vs| - 1].queryOffset == lag
  {
    if n > 0 {
      VariantsShape(ref, query, n - 1);
      NonGapsStep(ref, n);
      NonGapsStep(query, n);
    }
  }

  // ---------------------------------------------------------------------
  // Properties of the walk

  predicate Maximal(out: seq<Variant>)
  {
    forall k :: 0 <= k < |out| - 1 ==> !Mergeable(out[k], out[k + 1])
  }

  /** The walk never leaves two neighbouring records that its own test would
      join. */
  lemma {:induction false} MergeRunsMaximal(vs: seq<Variant>)
    ensures Maximal(MergeRuns(vs))
  {
    if |vs| > 0 {
      var init := vs[..|vs| - 1];
      var v := vs[|vs| - 1];
      var acc := MergeRuns(init);
      MergeRunsMaximal(init);
      if |acc| > 0 && Mergeable(acc[|acc| - 1], v) {
        var out := acc[..|acc| - 1] + [Merged(acc[|acc| - 1], v)];
        assert MergeRuns(vs) == out;
        forall k | 0 <= k < |out| - 1
          ensures !Mergeable(out[k], out[k + 1])
        {
          assert out[k] == acc[k];
          assert !Mergeable(acc[k], acc[k + 1]);
          if k + 1 < |acc| - 1 {
            assert out[k + 1] == acc[k + 1];
          } else {
            assert out[k + 1] == Merged(acc[k + 1], v);
          }
        }
      } else {
        var out := acc + [v];
        assert MergeRuns(vs) == out;
        forall k | 0 <= k < |out| - 1
          ensures !Mergeable(out[k], out[k + 1])
        {
          assert out[k] == acc[k];
          if k + 1 < |acc| {
            assert !Mergeable(acc[k], acc[k + 1]);
            assert out[k + 1] == acc[k + 1];
          } else {
            assert out[k + 1] == v;
          }
        }
      }
    }
  }

  /** The reference texts, concatenated. */
  function Wts(vs: seq<Variant>): string
  {
    if |vs| == 0 then "" else Wts(vs[..|vs| - 1]) + vs[|vs| - 1].wt
  }

  /** The query texts, concatenated. */
  function Muts(vs: seq<Variant>): string
  {
    if |vs| == 0 then "" else Muts(vs[..|vs| - 1]) + vs[|vs| - 1].mut
  }

  lemma WtsMutsAppend(acc: seq<Variant>, v: Variant)
    ensures Wts(acc + [v]) == Wts(acc) + v.wt
    ensures Muts(acc + [v]) == Muts(acc) + v.mut
  {
    assert (acc + [v])[..|acc|] == acc;
  }

  /** One step of the walk appends the variant's texts and adds at most one
      record. */
  lemma PushContent(acc: seq<Variant>, v: Variant)
    ensures Wts(Push(acc, v)) == Wts(acc) + v.wt
    ensures Muts(Push(acc, v)) == Muts(acc) + v.mut
    ensures |Push(acc, v)| <= |acc| + 1
  {
    if |acc| > 0 && Mergeable(acc[|acc| - 1], v) {
      var front, c := acc[..|acc| - 1], acc[|acc| - 1];
      assert acc == front + [c];
      WtsMutsAppend(front, c);
      WtsMutsAppend(front, Merged(c, v));
    } else {
      WtsMutsAppend(acc, v);
    }
  }

  /** Joining loses and reorders no text: the records spell out the variants'
      texts, and there are never more records than variants. */
  lemma {:induction false} MergeRunsContent(vs: seq<Variant>)
    ensures Wts(MergeRuns(vs)) == Wts(vs)
    ensures Muts(MergeRuns(vs)) == Muts(vs)
    ensures |MergeRuns(vs)| <= |vs|
  {
    if |vs| > 0 {
      var init, v := vs[..|vs| - 1], vs[|vs| - 1];
      MergeRunsContent(init);
      PushContent(MergeRuns(init), v);
      assert Wts(vs) == Wts(init) + v.wt && Muts(vs) == Muts(init) + v.mut;
    }
  }

  /** A record covers one or more differing columns of its type: equal text
      lengths, and each position is a column of the kind `t` names. */
  predicate WellFormed(c: Variant)
  {
    && |c.wt| == |c.mut|
    && |c.wt| >= 1
    && forall k :: 0 <= k < |c.wt| ==> ColumnKind(c.t, c.wt[k], c.mut[k])
  }

  /** Where the current record `c` stands relative to the last variant `v`
      it absorbed. */
  predicate Tail(c: Variant, v: Variant)
  {
    && c.t == v.t
    && (c.t != I ==> c.refOffset + |c.wt| - 1 == v.refOffset)
    && (c.t != D ==> c.queryOffset + |c.mut| - 1 == v.queryOffset)
    && (c.t == I ==> c.refOffset == v.refOffset)
    && (c.t == D ==> c.queryOffset == v.queryOffset)
  }

  /** `a` starts strictly earlier in the alignment than `b`. */
  predicate Before(a: Variant, b: Variant)
  {
    a.refOffset <= b.refOffset && a.queryOffset <= b.queryOffset
    && a.refOffset + a.queryOffset < b.refOffset + b.queryOffset
  }

  /** The joint shape of the walk's output. */
  predicate Shaped(out: seq<Variant>)
  {
    && (forall c :: c in out ==> WellFormed(c))
    && (forall c :: c in out && c.t != S ==> |c.wt| <= 2)
    && (forall k :: 0 <= k < |out| - 1 ==> Before(out[k], out[k + 1]))
  }

  /** Joining `w` into the current record `c`, whose last variant `u` `w`
      follows. */
  lemma MergeStepShape(c: Variant, u: Variant, w: Variant)
    requires WellFormed(c) && Tail(c, u) && Follows(u, w) && SingleColumn(w)
    requires Mergeable(c, w)
    ensures WellFormed(Merged(c, w)) && Tail(Merged(c, w), w)
    ensures c.t != S ==> |c.wt| == 1
  {
    var m := Merged(c, w);
    forall k | 0 <= k < |m.wt|
      ensures ColumnKind(m.t, m.wt[k], m.mut[k])
    {
      if k >= |c.wt| {
        assert m.wt[k] == w.wt[0] && m.mut[k] == w.mut[0];
      } else {
        assert m.wt[k] == c.wt[k] && m.mut[k] == c.mut[k];
      }
    }
  }

  lemma PushMergedShape(acc: seq<Variant>, u: Variant, w: Variant)
    requires |acc| > 0 && Shaped(acc) && Tail(acc[|acc| - 1], u) && Follows(u, w) && SingleColumn(w)
    requires Mergeable(acc[|acc| - 1], w)
    ensures var out := acc[..|acc| - 1] + [Merged(acc[|acc| - 1], w)];
      Shaped(out) && Tail(out[|out| - 1], w)
  {
    var c := acc[|acc| - 1];
    var front := acc[..|acc| - 1];
    var m := Merged(c, w);
    var out := front + [m];
    assert c in acc;
    MergeStepShape(c, u, w);
    assert forall x :: x in out ==> x in front || x == m;
    assert forall x :: x in front ==> x in acc;
    forall k | 0 <= k < |out| - 1
      ensures Before(out[k], out[k + 1])
    {
      assert out[k] == acc[k];
      if k + 1 < |front| {
        assert out[k + 1] == acc[k + 1];
      } else {
        assert out[k + 1] == m;
      }
    }
  }

  lemma PushAppendedShape(acc: seq<Variant>, u: Variant, w: Variant)
    requires Shaped(acc) && SingleColumn(w)
    requires |acc| > 0 ==> Tail(acc[|acc| - 1], u) && Follows(u, w) && WellFormed(acc[|acc| - 1])
    ensures Shaped(acc + [w]) && Tail(w, w)
  {
    var out := acc + [w];
    assert forall x :: x in out ==> x in acc || x == w;
    forall k | 0 <= k < |out| - 1
      ensures Before(out[k], out[k + 1])
    {
      assert out[k] == acc[k];
      if k + 1 < |acc| {
        assert out[k + 1] == acc[k + 1];
      }
    }
  }

  /** On a column-ordered run of single-column variants the walk yields
      well-formed records in alignment order; an insertion or deletion record
      never spans more than two columns, because the walk's test counts the
      gap characters of `a` on the side where the offset does not move. */
  lemma ChainedInit(vs: seq<Variant>)
    requires |vs| > 0
    requires forall v :: v in vs ==> SingleColumn(v)
    requires Chained(vs)
    ensures forall v :: v in vs[..|vs| - 1] ==> SingleColumn(v)
    ensures Chained(vs[..|vs| - 1]) && SingleColumn(vs[|vs| - 1])
    ensures |vs| > 1 ==> Follows(vs[|vs| - 2], vs[|vs| - 1])
  {
    var init := vs[..|vs| - 1];
    assert forall k :: 0 <= k < |init| ==> init[k] == vs[k];
    assert vs[|vs| - 1] in vs;
  }

  lemma {:induction false} MergeRunsShape(vs: seq<Variant>)
    requires forall v :: v in vs ==> SingleColumn(v)
    requires Chained(vs)
    ensures Shaped(MergeRuns(vs))
    ensures |vs| > 0 ==> |MergeRuns(vs)| > 0 && Tail(MergeRuns(vs)[|MergeRuns(vs)| - 1], vs[|vs| - 1])
  {
    if |vs| > 0 {
      var init := vs[..|vs| - 1];
      var w := vs[|vs| - 1];
      ChainedInit(vs);
      MergeRunsShape(init);
      var acc := MergeRuns(init);
      var u := if |init| > 0 then init[|init| - 1] else w;
      if |init| > 0 {
        assert Follows(u, w);
      }
      if |acc| > 0 && Mergeable(acc[|acc| - 1], w) {
        PushMergedShape(acc, u, w);
      } else {
        if |acc| > 0 {
          assert acc[|acc| - 1] in acc;
        }
        PushAppendedShape(acc, u, w);
      }
    }
  }

  // ---------------------------------------------------------------------
  // Properties of the differ

  /** The reference characters of the differing columns among the first `n`. */
  function RefAtDiffs(ref: string, query: string, n: nat): string
    requires n <= |ref| && n <= |query|
  {
    if n == 0 then ""
    else RefAtDiffs(ref, query, n - 1) + (if ref[n - 1] != query[n - 1] then [ref[n - 1]] else "")
  }

  /** The query characters of the differing columns among the first `n`. */
  function QueryAtDiffs(ref: string, query: string, n: nat): string
    requires n <= |ref| && n <= |query|
  {
    if n == 0 then ""
    else QueryAtDiffs(ref, query, n - 1) + (if ref[n - 1] != query[n - 1] then [query[n - 1]] else "")
  }

  lemma {:induction false} VariantsContent(ref: string, query: string, n: nat)
    requires n <= |ref| && n <= |query|
    ensures Wts(Variants(ref, query, n)) == RefAtDiffs(ref, query, n)
    ensures Muts(Variants(ref, query, n)) == QueryAtDiffs(ref, query, n)
  {
    if n > 0 {
      VariantsContent(ref, query, n - 1);
      VariantsStep(ref, query, n);
    }
  }

  /** Column `n` adds its two characters to the texts when they differ. */
  lemma VariantsStep(ref: string, query: string, n: nat)
    requires 0 < n <= |ref| && n <= |query|
    ensures var d := ref[n - 1] != query[n - 1];
      && Wts(Variants(ref, query, n)) == Wts(Variants(ref, query, n - 1)) + (if d then [ref[n - 1]] else "")
      && Muts(Variants(ref, query, n)) == Muts(Variants(ref, query, n - 1)) + (if d then [query[n - 1]] else "")
  {
    var prev := Variants(ref, query, n - 1);
    var x := Classify(ref[n - 1], query[n - 1]);
    if x.Some? {
      var v := Variant(x.value, [ref[n - 1]], [query[n - 1]], NonGaps(ref[..n]) - 1, NonGaps(query[..n]) - 1);
      assert Variants(ref, query, n) == prev + [v];
      WtsMutsAppend(prev, v);
    }
  }

  /** Read in order, the records' reference texts are exactly the reference
      characters of the columns where the two rows differ, and their query
      texts the query characters of those columns. */
  lemma DiffContent(ref: string, query: string)
    requires |ref| == |query|
    ensures Wts(Diff(ref, query)) == RefAtDiffs(ref, query, |ref|)
    ensures Muts(Diff(ref, query)) == QueryAtDiffs(ref, query, |ref|)
  {
    MergeRunsContent(Variants(ref, query, |ref|));
    VariantsContent(ref, query, |ref|);
  }

  /** Every record of the differ is well formed, the records appear in
      alignment order, no two neighbours would be joined by the walk's own
      test, and no insertion or deletion record is longer than two. */
  lemma DiffShape(ref: string, query: string)
    requires |ref| == |query|
    ensures var out := Diff(ref, query);
      && (forall c :: c in out ==> WellFormed(c))
      && (forall c :: c in out && c.t != S ==> |c.wt| <= 2)
      && (forall k :: 0 <= k < |out| - 1 ==> Before(out[k], out[k + 1]))
      && (forall k :: 0 <= k < |out| - 1 ==> !Mergeable(out[k], out[k + 1]))
  {
    VariantsShape(ref, query, |ref|);
    MergeRunsShape(Variants(ref, query, |ref|));
    MergeRunsMaximal(Variants(ref, query, |ref|));
  }

  lemma {:induction false} NoDiffsMeansEqual(ref: string, query: string, n: nat)
    requires n <= |ref| && n <= |query|
    ensures RefAtDiffs(ref, query, n) == "" <==> ref[..n] == query[..n]
  {
    if n > 0 {
      NoDiffsMeansEqual(ref, query, n - 1);
      assert ref[..n] == ref[..n - 1] + [ref[n - 1]];
      assert query[..n] == query[..n - 1] + [query[n - 1]];
      if ref[..n] == query[..n] {
        assert ref[..n - 1] == ref[..n][..n - 1];
        assert query[..n - 1] == query[..n][..n - 1];
      }
    }
  }

  lemma WtsEmpty(vs: seq<Variant>)
    requires forall c :: c in vs ==> WellFormed(c)
    ensures Wts(vs) == "" ==> vs == []
  {
    if |vs| > 0 {
      assert vs[|vs| - 1] in vs;
    }
  }

  /** The differ reports nothing exactly when the two rows are identical. */
  lemma DiffEmptyIffIdentical(ref: string, query: string)
    requires |ref| == |query|
    ensures Diff(ref, query) == [] <==> ref == query
  {
    DiffContent(ref, query);
    DiffShape(ref, query);
    WtsEmpty(Diff(ref, query));
    NoDiffsMeansEqual(ref, query, |ref|);
    assert ref[..|ref|] == ref && query[..|query|] == query;
  }

  /** A run of three deleted bases comes out as a two-base and a one-base
      record. */
  lemma DeletionRunSplits()
    ensures Diff("TTTTT", "T---T") == [Variant(D, "TT", "--", 1, 0), Variant(D, "T", "-", 3, 0)]
  {
    var v2, v3, v4 := Variant(D, "T", "-", 1, 0), Variant(D, "T", "-", 2, 0), Variant(D, "T", "-", 3, 0);
    DeletionRunScan("TTTTT", "T---T", v2, v3, v4);
    DeletionRunMerge(v2, v3, v4);
  }

  /** The scan of that alignment: one deletion per gap column. */
  lemma DeletionRunScan(ref: string, query: string, v2: Variant, v3: Variant, v4: Variant)
    requires ref == "TTTTT" && query == "T---T"
    requires v2 == Variant(D, "T", "-", 1, 0) && v3 == Variant(D, "T", "-", 2, 0) && v4 == Variant(D, "T", "-", 3, 0)
    ensures Variants(ref, query, 5) == [v2, v3, v4]
  {
    NonGapsStep(ref, 1); NonGapsStep(ref, 2); NonGapsStep(ref, 3); NonGapsStep(ref, 4);
    NonGapsStep(query, 1); NonGapsStep(query, 2); NonGapsStep(query, 3); NonGapsStep(query, 4);
    assert ref[..0] == [] && query[..0] == [];
    assert Variants(ref, query, 1) == [];
    assert Variants(ref, query, 2) == [v2];
    assert Variants(ref, query, 3) == [v2, v3];
    assert Variants(ref, query, 4) == [v2, v3, v4];
  }

  /** The walk over those variants: the second joins the first, and the
      third is compared with the joined two-column record, which it does not
      meet. */
  lemma DeletionRunMerge(v2: Variant, v3: Variant, v4: Variant)
    requires v2 == Variant(D, "T", "-", 1, 0) && v3 == Variant(D, "T", "-", 2, 0) && v4 == Variant(D, "T", "-", 3, 0)
    ensures MergeRuns([v2, v3, v4]) == [Variant(D, "TT", "--", 1, 0), v4]
  {
    assert [v2, v3, v4][..2] == [v2, v3] && [v2, v3][..1] == [v2] && [v2][..0] == [];
    assert MergeRuns([v2]) == [v2];
    assert Mergeable(v2, v3);
    var d2 := Variant(D, "TT", "--", 1, 0);
    assert "T" + "T" == "TT" && "-" + "-" == "--";
    assert Merged(v2, v3) == d2;
    assert MergeRuns([v2, v3]) == Push([v2], v3) == [d2];
    assert |d2.wt| == 2 && |d2.mut| == 2;
    assert !Mergeable(d2, v4);
  }
}
