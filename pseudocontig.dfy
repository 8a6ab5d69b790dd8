/** The pseudocontig builder of the family-merging scripts: BLAST hits of
    gene families on assembly contigs are swept in contig and position order,
    and hits that overlap end to start are chained into one pseudocontig,
    which records the (decorated) family names it has absorbed. */
module Pseudocontigs {
  import opened Wrappers
  import Seqs
  import Text

  /** A family name as a pseudocontig records it: `*` when the hit was not
      complete, then `-` when it lies on the reverse strand. */
  function Decorate(name: string, complete: real, reverse: bool): (r: string)
    ensures |r| == |name| + (if complete != 1.0 then 1 else 0) + (if reverse then 1 else 0)
    ensures r[..|name|] == name
    ensures complete != 1.0 ==> r[|name|] == '*'
    ensures reverse ==> r[|r| - 1] == '-'
    ensures !reverse && complete != 1.0 ==> r[|r| - 1] == '*'
    ensures !reverse && complete == 1.0 ==> r == name
  {
    var starred := if complete != 1.0 then name + "*" else name;
    if reverse then starred + "-" else starred
  }

  /** The state of a pseudocontig as a value. */
  datatype Contig = Contig(names: seq<string>, id: string, start: int, end: int)

  class Pseudocontig {
    var names: seq<string>
    var id: string
    var start: int
    var end: int

    constructor(name: string, queryId: string, start: int, end: int, complete: real, reverse: bool)
      ensures names == [Decorate(name, complete, reverse)]
      ensures id == queryId && this.start == start && this.end == end
    {
      names := [Decorate(name, complete, reverse)];
      id := queryId;
      this.start := start;
      this.end := end;
    }

    /** Absorbs one more family: its name is appended and the pseudocontig
        now ends where that hit ends. */
    method Extend(name: string, end: int, complete: real, reverse: bool)
      modifies this
      ensures names == old(names) + [Decorate(name, complete, reverse)]
      ensures this.end == end
      ensures id == old(id) && start == old(start)
    {
      names := names + [Decorate(name, complete, reverse)];
      this.end := end;
    }

    function Value(): Contig
      reads this
    {
      Contig(names, id, start, end)
    }
  }

  /** A name with every `-` removed (`replace('-', '')`). */
  function Undashed(name: string): (r: string)
    ensures '-' !in r
    ensures forall c :: c != '-' ==> (c in r <==> c in name)
  {
    Seqs.Filter(name, (c: char) => c != '-')
  }

  /** The real name: the names without their strand marks, sorted, joined
      by `__`. */
  function RealName(names: seq<string>): string
  {
    Text.Join(Text.SortStrings(Seqs.Map(names, Undashed)), "__")
  }

  /** The real name does not depend on the order the families were
      absorbed in. */
  lemma RealNameOrderFree(a: seq<string>, b: seq<string>)
    requires multiset(a) == multiset(b)
    ensures RealName(a) == RealName(b)
  {
    Seqs.MapPermutes(a, b, Undashed);
    Text.SortStringsCanonical(Seqs.Map(a, Undashed), Seqs.Map(b, Undashed));
  }

  lemma {:induction false} JoinAvoids(parts: seq<string>, sep: string, c: char)
    requires c !in sep
    requires forall k :: 0 <= k < |parts| ==> c !in parts[k]
    ensures c !in Text.Join(parts, sep)
  {
    if |parts| > 1 {
      JoinAvoids(parts[1..], sep, c);
    }
  }

  /** The real name carries no strand mark. */
  lemma RealNameHasNoDash(names: seq<string>)
    ensures '-' !in RealName(names)
  {
    var sorted := Text.SortStrings(Seqs.Map(names, Undashed));
    forall k | 0 <= k < |sorted|
      ensures '-' !in sorted[k]
    {
      assert sorted[k] in multiset(Seqs.Map(names, Undashed));
    }
    JoinAvoids(sorted, "__", '-');
  }

  /** `-` when the alphabetically first decorated name is on the reverse
      strand, `+` otherwise. */
  function Orientation(names: seq<string>): string
    requires |names| > 0
  {
    var head := Text.SortStrings(names)[0];
    if |head| > 0 && head[|head| - 1] == '-' then "-" else "+"
  }

  /** The orientation is that of the least name, whichever order the names
      were absorbed in. */
  lemma OrientationMeaning(names: seq<string>, least: string)
    requires least in names
    requires forall n :: n in names ==> Text.LessEq(least, n)
    ensures Orientation(names) == if |least| > 0 && least[|least| - 1] == '-' then "-" else "+"
  {
    var sorted := Text.SortStrings(names);
    Text.SortStringsSorted(names);
    assert sorted[0] in multiset(names);
    assert least in multiset(sorted);
    var k :| 0 <= k < |sorted| && sorted[k] == least;
    Text.SortedHeadIsMinimum(sorted, k);
    if sorted[0] != least {
      assert sorted[0] in names;
      assert Text.Less(least, sorted[0]);
      Text.LessAsymmetric(least, sorted[0]);
    }
  }

  /** The length field of the report. */
  function Length(c: Contig): int
  {
    c.end - c.start + 1
  }

  // The sweep of create_pseudo_contigs.py.

  /** A hit record as the core analyser's debug output lists it; `filtered`
      holds the `type` of the filter that removed it, if any. */
  datatype Match = Match(
    queryId: string,
    queryStart: int,
    queryEnd: int,
    hitId: string,
    full: bool,
    reverse: bool,
    filtered: Option<string>)

  predicate IsShort(m: Match)
  {
    m.filtered == Some("shortHit")
  }

  function Kept(): Match -> bool
  {
    (m: Match) => !IsShort(m)
  }

  /** Python passes the boolean `full` where a float is expected, and
      `True == 1.0`. */
  function Completeness(m: Match): real
  {
    if m.full then 1.0 else 0.0
  }

  function DecoratedName(m: Match): string
  {
    Decorate(m.hitId, Completeness(m), m.reverse)
  }

  /** The order of `itemgetter('queryId', 'queryStart', 'queryEnd')`. */
  predicate MatchLe(a: Match, b: Match)
  {
    || Text.Less(a.queryId, b.queryId)
    || (a.queryId == b.queryId && (a.queryStart < b.queryStart || (a.queryStart == b.queryStart && a.queryEnd <= b.queryEnd)))
  }

  function SortMatches(data: seq<Match>): (r: seq<Match>)
  {
    Seqs.SortBy(data, (a, b) => MatchLe(a, b))
  }

  /** The sweep visits every hit once, ordered by contig, then start, then
      end. */
  lemma SortMatchesMeaning(data: seq<Match>)
    ensures multiset(SortMatches(data)) == multiset(data)
    ensures forall k :: 0 <= k < |SortMatches(data)| - 1 ==> MatchLe(SortMatches(data)[k], SortMatches(data)[k + 1])
  {
    forall a, b
      ensures MatchLe(a, b) || MatchLe(b, a)
    {
      if a.queryId != b.queryId {
        Text.LessTotal(a.queryId, b.queryId);
      }
    }
    Seqs.SortBySorted(data, (a, b) => MatchLe(a, b));
  }

  /** The state of the sweep: the pseudocontigs closed so far and the
      current one. */
  datatype Sweep = Sweep(done: seq<Contig>, current: Contig)

  /** The placeholder the sweep starts with. */
  function Sentinel(): Contig
  {
    Contig([Decorate("foo", 1.0, false)], "foo", 0, 0)
  }

  function Started(m: Match): Contig
  {
    Contig([DecoratedName(m)], m.queryId, m.queryStart, m.queryEnd)
  }

  function Extended(c: Contig, m: Match): Contig
  {
    Contig(c.names + [DecoratedName(m)], c.id, c.start, m.queryEnd)
  }

  /** The closed pseudocontigs once the current one is closed; the
      placeholder is not kept. */
  function Closed(s: Sweep): seq<Contig>
  {
    if s.current.id != "foo" then s.done + [s.current] else s.done
  }

  /** One iteration of the sweep loop. */
  function Step(s: Sweep, m: Match): Sweep
  {
    if IsShort(m) then s
    else if s.current.id == m.queryId && m.queryStart <= s.current.end <= m.queryEnd then
      Sweep(s.done, Extended(s.current, m))
    else
      Sweep(Closed(s), Started(m))
  }

  function SweepAll(ms: seq<Match>): Sweep
  {
    if |ms| == 0 then Sweep([], Sentinel())
    else Step(SweepAll(ms[..|ms| - 1]), ms[|ms| - 1])
  }

  /** The pseudocontigs the script reports: the last current one is always
      added. */
  function PseudocontigsOf(data: seq<Match>): (r: seq<Contig>)
    ensures |r| > 0
  {
    var s := SweepAll(SortMatches(data));
    s.done + [s.current]
  }

  function Values(ps: seq<Pseudocontig>): (r: seq<Contig>)
    reads ps
    ensures |r| == |ps|
  {
    if |ps| == 0 then [] else Values(ps[..|ps| - 1]) + [ps[|ps| - 1].Value()]
  }

  lemma ValuesSnoc(ps: seq<Pseudocontig>, p: Pseudocontig)
    ensures Values(ps + [p]) == Values(ps) + [p.Value()]
  {
    assert (ps + [p])[..|ps|] == ps;
  }

  /** One iteration of the sweep loop on the script's objects: `current`
      either absorbs the hit or is closed and replaced by a new one. */
  method Advance(pseudocontigs: seq<Pseudocontig>, current: Pseudocontig, m: Match)
      returns (closed: seq<Pseudocontig>, next: Pseudocontig)
    requires current !in pseudocontigs
    modifies current
    ensures next == current || fresh(next)
    ensures next !in closed
    ensures Sweep(Values(closed), next.Value()) == Step(Sweep(old(Values(pseudocontigs)), old(current.Value())), m)
  {
    closed, next := pseudocontigs, current;
    if m.filtered.Some? && m.filtered.value == "shortHit" {
      return;
    }
    if current.id == m.queryId && m.queryStart <= current.end <= m.queryEnd {
      current.Extend(m.hitId, m.queryEnd, Completeness(m), m.reverse);
    } else {
      if current.id != "foo" {
        ValuesSnoc(pseudocontigs, current);
        closed := pseudocontigs + [current];
      }
      next := new Pseudocontig(m.hitId, m.queryId, m.queryStart, m.queryEnd, Completeness(m), m.reverse);
    }
  }

  /** Sorts the hits and sweeps them into pseudocontigs. */
  method CreatePseudocontigs(data: seq<Match>) returns (pseudocontigs: seq<Pseudocontig>)
    ensures Values(pseudocontigs) == PseudocontigsOf(data)
  {
    var result := SortMatches(data);
    pseudocontigs := [];
    var current := new Pseudocontig("foo", "foo", 0, 0, 1.0, false);
    for i := 0 to |result|
      invariant fresh(current) && current !in pseudocontigs
      invariant SweepAll(result[..i]) == Sweep(Values(pseudocontigs), current.Value())
    {
      assert result[..i + 1][..i] == result[..i];
      pseudocontigs, current := Advance(pseudocontigs, current, result[i]);
    }
    assert result[..|result|] == result;
    ValuesSnoc(pseudocontigs, current);
    pseudocontigs := pseudocontigs + [current];
  }

  // What the sweep promises.

  /** Short hits are skipped: the sweep is the same as on the hits without
      them. */
  lemma {:induction false} ShortHitsIgnored(ms: seq<Match>)
    ensures SweepAll(ms) == SweepAll(Seqs.Filter(ms, Kept()))
  {
    if |ms| > 0 {
      var init, m := ms[..|ms| - 1], ms[|ms| - 1];
      assert ms == init + [m];
      ShortHitsIgnored(init);
      Seqs.FilterAppend(init, m, Kept());
      var f := Seqs.Filter(init, Kept());
      assert Kept()(m) == !IsShort(m);
      assert SweepAll(ms) == Step(SweepAll(init), m);
      if !IsShort(m) {
        assert Seqs.Filter(ms, Kept()) == f + [m];
        assert (f + [m])[..|f|] == f;
        assert SweepAll(f + [m]) == Step(SweepAll(f), m);
      } else {
        assert Seqs.Filter(ms, Kept()) == f;
      }
    }
  }

  /** The decorated names of the hits that are not short, in sweep order. */
  function DecoratedNames(ms: seq<Match>): seq<string>
  {
    if |ms| == 0 then []
    else DecoratedNames(ms[..|ms| - 1]) + (if IsShort(ms[|ms| - 1]) then [] else [DecoratedName(ms[|ms| - 1])])
  }

  /** All names recorded by a list of pseudocontigs, in order. */
  function AllNames(cs: seq<Contig>): seq<string>
  {
    if |cs| == 0 then [] else AllNames(cs[..|cs| - 1]) + cs[|cs| - 1].names
  }

  lemma AllNamesSnoc(cs: seq<Contig>, c: Contig)
    ensures AllNames(cs + [c]) == AllNames(cs) + c.names
  {
    assert (cs + [c])[..|cs|] == cs;
  }

  /** No hit that is not short lies on a contig called like the
      placeholder. */
  predicate AvoidsSentinel(ms: seq<Match>)
  {
    forall k :: 0 <= k < |ms| && !IsShort(ms[k]) ==> ms[k].queryId != "foo"
  }

  lemma {:induction false} SweepNames(ms: seq<Match>)
    requires AvoidsSentinel(ms)
    ensures var s := SweepAll(ms);
      if DecoratedNames(ms) == [] then s == Sweep([], Sentinel())
      else s.current.id != "foo" && AllNames(s.done) + s.current.names == DecoratedNames(ms)
  {
    if |ms| > 0 {
      var init, m := ms[..|ms| - 1], ms[|ms| - 1];
      assert AvoidsSentinel(init) by {
        forall k | 0 <= k < |init| && !IsShort(init[k])
          ensures init[k].queryId != "foo"
        {
          assert init[k] == ms[k];
        }
      }
      SweepNames(init);
      var s := SweepAll(init);
      if !IsShort(m) {
        assert m.queryId != "foo";
        if DecoratedNames(init) == [] {
          assert s == Sweep([], Sentinel());
          assert Step(s, m) == Sweep([], Started(m));
        } else if s.current.id == m.queryId && m.queryStart <= s.current.end <= m.queryEnd {
          assert AllNames(s.done) + Extended(s.current, m).names
              == (AllNames(s.done) + s.current.names) + [DecoratedName(m)];
        } else {
          AllNamesSnoc(s.done, s.current);
          assert AllNames(Closed(s)) + Started(m).names
              == (AllNames(s.done) + s.current.names) + [DecoratedName(m)];
        }
      }
    }
  }

  /** When no contig is called like the placeholder, every hit that is not
      short contributes its decorated name exactly once, in sweep order, and
      the placeholder is reported only when there is no such hit. */
  lemma PseudocontigNames(data: seq<Match>)
    requires AvoidsSentinel(SortMatches(data))
    ensures var names := DecoratedNames(SortMatches(data));
      AllNames(PseudocontigsOf(data)) == if names == [] then Sentinel().names else names
    ensures DecoratedNames(SortMatches(data)) == [] ==> PseudocontigsOf(data) == [Sentinel()]
  {
    var s := SweepAll(SortMatches(data));
    SweepNames(SortMatches(data));
    AllNamesSnoc(s.done, s.current);
  }

  /** Without any hit (or with short hits only) the placeholder alone is
      reported. */
  lemma NoHitsGiveSentinel(data: seq<Match>)
    requires forall k :: 0 <= k < |data| ==> IsShort(data[k])
    ensures PseudocontigsOf(data) == [Sentinel()]
  {
    var sorted := SortMatches(data);
    forall x | x in sorted
      ensures !Kept()(x)
    {
      assert x in multiset(data);
    }
    Seqs.FilterNone(sorted, Kept());
    ShortHitsIgnored(sorted);
  }

  predicate Ordered(c: Contig)
  {
    c.start <= c.end
  }

  predicate AllOrdered(s: Sweep)
  {
    Ordered(s.current) && forall k :: 0 <= k < |s.done| ==> Ordered(s.done[k])
  }

  lemma {:induction false} SweepOrdered(ms: seq<Match>)
    requires forall k :: 0 <= k < |ms| ==> ms[k].queryStart <= ms[k].queryEnd
    ensures AllOrdered(SweepAll(ms))
  {
    if |ms| > 0 {
      SweepOrdered(ms[..|ms| - 1]);
    }
  }

  /** When every hit starts no later than it ends, so does every reported
      pseudocontig: an extension only moves the end forward. Its reported
      length is then positive. */
  lemma PseudocontigsOrdered(data: seq<Match>)
    requires forall k :: 0 <= k < |data| ==> data[k].queryStart <= data[k].queryEnd
    ensures forall k :: 0 <= k < |PseudocontigsOf(data)| ==> Length(PseudocontigsOf(data)[k]) >= 1
  {
    var sorted := SortMatches(data);
    forall k | 0 <= k < |sorted|
      ensures sorted[k].queryStart <= sorted[k].queryEnd
    {
      assert sorted[k] in multiset(data);
    }
    SweepOrdered(sorted);
  }

  // A hit inside the current pseudocontig.

  /** As written, a hit that starts inside the current pseudocontig but ends
      before it does not extend it: it opens a second pseudocontig that
      overlaps the first. */
  lemma ContainedHitSplits(a: Match, b: Match)
    requires a == Match("c", 1, 100, "famA", true, false, None)
    requires b == Match("c", 10, 50, "famB", true, false, None)
    ensures var out := PseudocontigsOf([a, b]);
      && out == [Contig(["famA"], "c", 1, 100), Contig(["famB"], "c", 10, 50)]
      && out[0].id == out[1].id && out[1].start <= out[0].end
  {
    SortedPair(a, b);
    assert [a, b][..1] == [a];
    assert [a][..0] == [];
    assert Sentinel().id != a.queryId;
    assert SweepAll([a]) == Sweep([], Started(a));
    assert Started(a) == Contig(["famA"], "c", 1, 100);
    assert Started(b) == Contig(["famB"], "c", 10, 50);
  }


  lemma SortedPair(a: Match, b: Match)
    requires MatchLe(a, b)
    ensures SortMatches([a, b]) == [a, b]
  {
    assert [a, b][1..] == [b];
    assert [b][1..] == [];
  }

  /** The evidently intended step: a hit of the current contig that starts
      no later than the current pseudocontig ends belongs to it, and the
      pseudocontig then ends where the later of the two ends. */
  function MergedStep(s: Sweep, m: Match): Sweep
  {
    if IsShort(m) then s
    else if s.current.id == m.queryId && m.queryStart <= s.current.end then
      var c := s.current;
      Sweep(s.done, Contig(c.names + [DecoratedName(m)], c.id, c.start, if m.queryEnd > c.end then m.queryEnd else c.end))
    else
      Sweep(Closed(s), Started(m))
  }

  function MergedSweep(ms: seq<Match>): Sweep
  {
    if |ms| == 0 then Sweep([], Sentinel())
    else MergedStep(MergedSweep(ms[..|ms| - 1]), ms[|ms| - 1])
  }

  function MergedPseudocontigsOf(data: seq<Match>): seq<Contig>
  {
    var s := MergedSweep(SortMatches(data));
    s.done + [s.current]
  }

  /** Consecutive pseudocontigs of one contig do not share a position. */
  predicate Separated(cs: seq<Contig>)
  {
    forall k :: 0 <= k < |cs| - 1 && cs[k].id == cs[k + 1].id ==> cs[k].end < cs[k + 1].start
  }

  lemma SeparatedSnoc(cs: seq<Contig>, c: Contig)
    requires Separated(cs)
    requires |cs| > 0 && cs[|cs| - 1].id == c.id ==> cs[|cs| - 1].end < c.start
    ensures Separated(cs + [c])
  {
  }

  lemma SeparatedReplaceLast(cs: seq<Contig>, c: Contig, d: Contig)
    requires Separated(cs + [c])
    requires d.id == c.id && d.start == c.start
    ensures Separated(cs + [d])
  {
    forall k | 0 <= k < |cs + [d]| - 1 && (cs + [d])[k].id == (cs + [d])[k + 1].id
      ensures (cs + [d])[k].end < (cs + [d])[k + 1].start
    {
      assert (cs + [d])[k] == (cs + [c])[k];
      if k + 1 < |cs| {
        assert (cs + [d])[k + 1] == (cs + [c])[k + 1];
      } else {
        assert (cs + [d])[k + 1] == d && (cs + [c])[k + 1] == c;
      }
    }
  }

  lemma {:induction false} MergedSweepSeparated(ms: seq<Match>)
    requires AvoidsSentinel(ms)
    ensures var s := MergedSweep(ms);
      && Separated(s.done + [s.current])
      && (s.current.id == "foo" ==> s == Sweep([], Sentinel()))
  {
    if |ms| > 0 {
      var init, m := ms[..|ms| - 1], ms[|ms| - 1];
      assert AvoidsSentinel(init) by {
        forall k | 0 <= k < |init| && !IsShort(init[k])
          ensures init[k].queryId != "foo"
        {
          assert init[k] == ms[k];
        }
      }
      MergedSweepSeparated(init);
      var s := MergedSweep(init);
      if !IsShort(m) {
        if s.current.id == m.queryId && m.queryStart <= s.current.end {
          SeparatedReplaceLast(s.done, s.current, MergedStep(s, m).current);
        } else if s.current.id != "foo" {
          SeparatedSnoc(s.done + [s.current], Started(m));
        } else {
          assert Closed(s) == [];
          assert [] + [Started(m)] == [Started(m)];
        }
      }
    }
  }

  /** Any two pseudocontigs of one contig, the earlier listed first, do not
      share a position. */
  predicate Disjoint(cs: seq<Contig>)
  {
    forall i, j | 0 <= i < j < |cs| && cs[i].id == cs[j].id :: cs[i].end < cs[j].start
  }

  lemma DisjointSnoc(cs: seq<Contig>, c: Contig)
    requires Disjoint(cs)
    requires forall i | 0 <= i < |cs| && cs[i].id == c.id :: cs[i].end < c.start
    ensures Disjoint(cs + [c])
  {
    forall i, j | 0 <= i < j < |cs + [c]| && (cs + [c])[i].id == (cs + [c])[j].id
      ensures (cs + [c])[i].end < (cs + [c])[j].start
    {
      assert (cs + [c])[i] == cs[i];
      if j < |cs| {
        assert (cs + [c])[j] == cs[j];
      }
    }
  }

  lemma DisjointReplaceLast(cs: seq<Contig>, c: Contig, d: Contig)
    requires Disjoint(cs + [c])
    requires d.id == c.id && d.start == c.start
    ensures Disjoint(cs + [d])
  {
    forall i | 0 <= i < |cs| && cs[i].id == d.id
      ensures cs[i].end < d.start
    {
      assert (cs + [c])[i] == cs[i] && (cs + [c])[|cs|] == c;
    }
    assert Disjoint(cs) by {
      forall i, j | 0 <= i < j < |cs| && cs[i].id == cs[j].id
        ensures cs[i].end < cs[j].start
      {
        assert (cs + [c])[i] == cs[i] && (cs + [c])[j] == cs[j];
      }
    }
    DisjointSnoc(cs, d);
  }

  /** Hits ordered as the sweep visits them. */
  predicate MatchesSorted(ms: seq<Match>)
  {
    forall k :: 0 <= k < |ms| - 1 ==> MatchLe(ms[k], ms[k + 1])
  }

  lemma MatchLeTransitive(a: Match, b: Match, c: Match)
    requires MatchLe(a, b) && MatchLe(b, c)
    ensures MatchLe(a, c)
  {
    if Text.Less(a.queryId, b.queryId) && Text.Less(b.queryId, c.queryId) {
      Text.LessTransitive(a.queryId, b.queryId, c.queryId);
    }
  }

  /** Every hit of a sorted run comes no later than its last one. */
  lemma {:induction false} SortedBounded(ms: seq<Match>)
    requires MatchesSorted(ms) && |ms| > 0
    ensures forall k | 0 <= k < |ms| - 1 :: MatchLe(ms[k], ms[|ms| - 1])
  {
    if |ms| > 1 {
      var init := ms[..|ms| - 1];
      assert MatchesSorted(init) by {
        forall k | 0 <= k < |init| - 1
          ensures MatchLe(init[k], init[k + 1])
        {
          assert init[k] == ms[k] && init[k + 1] == ms[k + 1];
        }
      }
      SortedBounded(init);
      forall k | 0 <= k < |ms| - 1
        ensures MatchLe(ms[k], ms[|ms| - 1])
      {
        if k < |ms| - 2 {
          assert init[k] == ms[k] && init[|init| - 1] == ms[|ms| - 2];
          MatchLeTransitive(ms[k], ms[|ms| - 2], ms[|ms| - 1]);
        }
      }
    }
  }

  /** The current pseudocontig of the corrected sweep starts no later than
      any hit that comes after all the hits swept. */
  lemma {:induction false} MergedSweepFollows(ms: seq<Match>, x: Match)
    requires forall k | 0 <= k < |ms| :: MatchLe(ms[k], x)
    ensures var c := MergedSweep(ms).current;
      c.id == "foo" || Text.Less(c.id, x.queryId) || (c.id == x.queryId && c.start <= x.queryStart)
  {
    if |ms| > 0 {
      var init, m := ms[..|ms| - 1], ms[|ms| - 1];
      assert forall k | 0 <= k < |init| :: init[k] == ms[k];
      MergedSweepFollows(init, x);
      assert MatchLe(m, x);
    }
  }

  /** Closing the current pseudocontig of the corrected sweep before the
      hit `m` keeps every pair of pseudocontigs of one contig apart. */
  lemma ClosedDisjoint(s: Sweep, m: Match)
    requires Disjoint(s.done + [s.current])
    requires forall i | 0 <= i < |s.done| :: Text.LessEq(s.done[i].id, s.current.id)
    requires Text.Less(s.current.id, m.queryId) || (s.current.id == m.queryId && s.current.start <= m.queryStart)
    requires s.current.id == m.queryId ==> s.current.end < m.queryStart
    ensures Disjoint(s.done + [s.current] + [Started(m)])
    ensures forall i | 0 <= i < |s.done + [s.current]| :: Text.LessEq((s.done + [s.current])[i].id, m.queryId)
  {
    var cs := s.done + [s.current];
    forall i | 0 <= i < |cs|
      ensures Text.LessEq(cs[i].id, m.queryId)
      ensures cs[i].id == m.queryId ==> cs[i].end < m.queryStart
    {
      if i < |s.done| {
        assert cs[i] == s.done[i];
        assert Text.LessEq(cs[i].id, s.current.id);
        if Text.Less(cs[i].id, s.current.id) && Text.Less(s.current.id, m.queryId) {
          Text.LessTransitive(cs[i].id, s.current.id, m.queryId);
        }
        if cs[i].id == m.queryId {
          if s.current.id == m.queryId {
            assert cs[|s.done|] == s.current;
            Text.LessIrreflexive(m.queryId);
            assert cs[i].end < s.current.start <= m.queryStart;
          } else {
            Text.LessAsymmetric(s.current.id, m.queryId);
            assert false;
          }
        }
      } else {
        assert cs[i] == s.current;
      }
    }
    DisjointSnoc(cs, Started(m));
  }

  /** Over sorted hits, the corrected sweep keeps its pseudocontigs apart
      and listed in contig order. */
  lemma {:induction false} MergedSweepDisjoint(ms: seq<Match>)
    requires AvoidsSentinel(ms) && MatchesSorted(ms)
    ensures var s := MergedSweep(ms);
      s.current.id != "foo" ==>
        && Disjoint(s.done + [s.current])
        && forall i | 0 <= i < |s.done| :: Text.LessEq(s.done[i].id, s.current.id)
  {
    if |ms| > 0 {
      var init, m := ms[..|ms| - 1], ms[|ms| - 1];
      assert AvoidsSentinel(init) && MatchesSorted(init) by {
        assert forall k | 0 <= k < |init| :: init[k] == ms[k];
      }
      MergedSweepDisjoint(init);
      MergedSweepSeparated(init);
      var s := MergedSweep(init);
      if !IsShort(m) {
        if s.current.id == m.queryId && m.queryStart <= s.current.end {
          DisjointReplaceLast(s.done, s.current, MergedStep(s, m).current);
        } else if s.current.id != "foo" {
          SortedBounded(ms);
          assert forall k | 0 <= k < |init| :: init[k] == ms[k];
          MergedSweepFollows(init, m);
          ClosedDisjoint(s, m);
        } else {
          assert Closed(s) == [];
          assert [] + [Started(m)] == [Started(m)];
        }
      }
    }
  }

  /** With the corrected step, two pseudocontigs of one contig never
      overlap, consecutive or not. */
  lemma MergedPseudocontigsSeparated(data: seq<Match>)
    requires AvoidsSentinel(SortMatches(data))
    ensures Separated(MergedPseudocontigsOf(data))
    ensures Disjoint(MergedPseudocontigsOf(data))
  {
    MergedSweepSeparated(SortMatches(data));
    SortMatchesMeaning(data);
    MergedSweepDisjoint(SortMatches(data));
  }

  /** On the hits above, the corrected sweep reports one pseudocontig
      holding both families. */
  lemma ContainedHitMerged(a: Match, b: Match)
    requires a == Match("c", 1, 100, "famA", true, false, None)
    requires b == Match("c", 10, 50, "famB", true, false, None)
    ensures MergedPseudocontigsOf([a, b]) == [Contig(["famA", "famB"], "c", 1, 100)]
  {
    SortedPair(a, b);
    assert [a, b][..1] == [a];
    assert [a][..0] == [];
    assert Sentinel().id != a.queryId;
    assert MergedSweep([a]) == Sweep([], Started(a));
    assert Started(a) == Contig(["famA"], "c", 1, 100);
    assert DecoratedName(b) == "famB";
    assert MergedSweep([a, b]) == MergedStep(MergedSweep([a]), b);
    assert ["famA"] + ["famB"] == ["famA", "famB"];
    assert MergedSweep([a, b]) == Sweep([], Contig(["famA", "famB"], "c", 1, 100));
  }

}
