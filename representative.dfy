/** The choice of a family's representative sequence from an alignment of
    its members: every member scores one point per column and per other
    member that has the same character there, and the best-scoring member is
    reported upper-cased and without gaps. */
module Representative {
  import opened Wrappers
  import Seqs

  /** One aligned sequence of the FASTA file, under its identifier. */
  datatype Record = Record(id: string, residues: string)

  /** The alignment as the script's dictionary holds it: one record per
      identifier, in file order. */
  predicate DistinctIds(rs: seq<Record>)
  {
    forall i, j :: 0 <= i < j < |rs| ==> rs[i].id != rs[j].id
  }

  /** Every record has at least `len` characters. */
  predicate LongEnough(rs: seq<Record>, len: nat)
  {
    forall k :: 0 <= k < |rs| ==> |rs[k].residues| >= len
  }

  /** How many of the first `n` records other than record `i` have record
      `i`'s character in column `col`. */
  function Agreement(rs: seq<Record>, i: nat, col: nat, n: nat): (r: nat)
    requires i < |rs| && n <= |rs|
    requires col < |rs[i].residues| && LongEnough(rs[..n], col + 1)
    ensures r <= n
  {
    if n == 0 then 0
    else
      assert rs[..n - 1] == rs[..n][..n - 1];
      Agreement(rs, i, col, n - 1)
      + (if n - 1 != i && rs[n - 1].residues[col] == rs[i].residues[col] then 1 else 0)
  }

  /** The score of record `i` over the first `cols` columns. */
  function Score(rs: seq<Record>, i: nat, cols: nat): nat
    requires i < |rs|
    requires LongEnough(rs, cols)
  {
    if cols == 0 then 0
    else
      assert rs[..|rs|] == rs;
      Score(rs, i, cols - 1) + Agreement(rs, i, cols - 1, |rs|)
  }

  function Scores(rs: seq<Record>, cols: nat): (r: seq<nat>)
    requires LongEnough(rs, cols)
    ensures |r| == |rs|
    ensures forall i :: 0 <= i < |rs| ==> r[i] == Score(rs, i, cols)
  {
    seq(|rs|, i requires 0 <= i < |rs| => Score(rs, i, cols))
  }

  /** The position the stable descending sort puts first: the earliest
      maximal score. */
  function FirstBest(scores: seq<nat>): (b: nat)
    requires |scores| > 0
    ensures b < |scores|
    ensures forall k :: 0 <= k < |scores| ==> scores[k] <= scores[b]
    ensures forall k :: 0 <= k < b ==> scores[k] < scores[b]
  {
    if |scores| == 1 then 0
    else
      var b := FirstBest(scores[..|scores| - 1]);
      if scores[|scores| - 1] > scores[b] then |scores| - 1 else b
  }

  /** Python's `str.upper` on ASCII letters. */
  function Upper(c: char): char
  {
    if 'a' <= c <= 'z' then (c as int - 'a' as int + 'A' as int) as char else c
  }

  /** The reported sequence: upper-cased, every `-` removed. */
  function Clean(s: string): (r: string)
    ensures '-' !in r
    ensures forall c :: c in r ==> !('a' <= c <= 'z')
    ensures forall c :: c in s && c != '-' ==> Upper(c) in r
  {
    Seqs.Filter(Seqs.Map(s, Upper), (c: char) => c != '-')
  }

  /** The representative, reported as its identifier and its cleaned
      sequence. */
  datatype Chosen = Chosen(id: string, residues: string)

  /** What the script prints, or `None` where it fails with an index error:
      an empty alignment, or a record shorter than the first. */
  function RepresentativeOf(rs: seq<Record>): Option<Chosen>
  {
    if |rs| == 0 then None
    else
      var len := |rs[0].residues|;
      if !LongEnough(rs, len) then None
      else
        var b := FirstBest(Scores(rs, len));
        Some(Chosen(rs[b].id, Clean(rs[b].residues)))
  }

  /** The score of record `i` in column `col`: one point per other record
      with the same character there; `None` where a record is too short. */
  method AgreeingRecords(rs: seq<Record>, i: nat, col: nat) returns (score: Option<nat>)
    requires DistinctIds(rs)
    requires i < |rs| && col < |rs[i].residues|
    ensures score.Some? <==> LongEnough(rs, col + 1)
    ensures score.Some? ==> LongEnough(rs[..|rs|], col + 1) && score.value == Agreement(rs, i, col, |rs|)
  {
    var testChar := rs[i].residues[col];
    var total := 0;
    for j := 0 to |rs|
      invariant LongEnough(rs[..j], col + 1)
      invariant total == Agreement(rs, i, col, j)
    {
      assert rs[..j + 1][..j] == rs[..j];
      if rs[j].id == rs[i].id {
        assert j == i;
        continue;
      }
      if |rs[j].residues| <= col {
        assert !LongEnough(rs, col + 1);
        return None;
      }
      if testChar == rs[j].residues[col] {
        total := total + 1;
      }
    }
    assert rs[..|rs|] == rs;
    score := Some(total);
  }

  /** Scores every record column by column and picks the representative. */
  method SelectRepresentative(rs: seq<Record>) returns (r: Option<Chosen>)
    requires DistinctIds(rs)
    ensures r == RepresentativeOf(rs)
  {
    var scores: seq<nat> := seq(|rs|, _ => 0);
    var length := 0;
    if |rs| > 0 {
      length := length + |rs[0].residues|;
    }
    for col := 0 to length
      invariant LongEnough(rs, col)
      invariant scores == Scores(rs, col)
    {
      for i := 0 to |rs|
        invariant |scores| == |rs|
        invariant i > 0 ==> LongEnough(rs, col + 1)
        invariant forall k :: 0 <= k < i ==> LongEnough(rs, col + 1) && scores[k] == Score(rs, k, col + 1)
        invariant forall k :: i <= k < |rs| ==> scores[k] == Score(rs, k, col)
      {
        var score := AgreeingRecords(rs, i, col);
        if score.None? {
          return None;
        }
        scores := scores[i := scores[i] + score.value];
      }
    }
    if |rs| == 0 {
      return None;
    }
    r := Some(Chosen(rs[FirstBest(scores)].id, Clean(rs[FirstBest(scores)].residues)));
  }

  // What the choice promises.

  /** The script reports exactly the record with the highest score, the
      earliest in file order among equal scores, and fails exactly on an
      empty alignment or a record shorter than the first. */
  lemma {:induction false} RepresentativeIsBest(rs: seq<Record>, b: nat)
    requires |rs| > 0 && LongEnough(rs, |rs[0].residues|) && b < |rs|
    requires forall k :: 0 <= k < |rs| ==> Score(rs, k, |rs[0].residues|) <= Score(rs, b, |rs[0].residues|)
    requires forall k :: 0 <= k < b ==> Score(rs, k, |rs[0].residues|) < Score(rs, b, |rs[0].residues|)
    ensures RepresentativeOf(rs) == Some(Chosen(rs[b].id, Clean(rs[b].residues)))
  {
    var scores := Scores(rs, |rs[0].residues|);
    var f := FirstBest(scores);
    assert f == b;
  }

  lemma RepresentativeFails(rs: seq<Record>)
    ensures RepresentativeOf(rs).None? <==> |rs| == 0 || !LongEnough(rs, |rs[0].residues|)
  {
  }

  /** A record agrees with at most all the others in a column. */
  lemma {:induction false} AgreementBound(rs: seq<Record>, i: nat, col: nat, n: nat)
    requires i < |rs| && n <= |rs|
    requires col < |rs[i].residues| && LongEnough(rs[..n], col + 1)
    ensures Agreement(rs, i, col, n) <= if i < n then n - 1 else n
  {
    if n > 0 {
      assert rs[..n - 1] == rs[..n][..n - 1];
      AgreementBound(rs, i, col, n - 1);
    }
  }

  /** A score is at most one point per column and other record. */
  lemma {:induction false} ScoreBound(rs: seq<Record>, i: nat, cols: nat)
    requires i < |rs| && LongEnough(rs, cols)
    ensures Score(rs, i, cols) <= (|rs| - 1) * cols
  {
    if cols > 0 {
      ScoreBound(rs, i, cols - 1);
      assert rs[..|rs|] == rs;
      AgreementBound(rs, i, cols - 1, |rs|);
      assert (|rs| - 1) * cols == (|rs| - 1) * (cols - 1) + (|rs| - 1);
    }
  }

  /** In a column where every record has the same character, every record
      agrees with all the others. */
  lemma {:induction false} UnanimousAgreement(rs: seq<Record>, i: nat, col: nat, n: nat)
    requires i < |rs| && n <= |rs|
    requires LongEnough(rs, col + 1)
    requires forall k :: 0 <= k < |rs| ==> rs[k].residues[col] == rs[i].residues[col]
    ensures LongEnough(rs[..n], col + 1)
    ensures Agreement(rs, i, col, n) == if i < n then n - 1 else n
  {
    if n > 0 {
      assert rs[..n - 1] == rs[..n][..n - 1];
      UnanimousAgreement(rs, i, col, n - 1);
    }
  }

  /** When all records are the same sequence every score is the same
      maximum, and the first record is reported. */
  lemma {:induction false} IdenticalScores(rs: seq<Record>, i: nat, cols: nat)
    requires i < |rs| && LongEnough(rs, cols)
    requires forall k :: 0 <= k < |rs| ==> rs[k].residues[..cols] == rs[0].residues[..cols]
    ensures Score(rs, i, cols) == (|rs| - 1) * cols
  {
    if cols > 0 {
      IdenticalScores(rs, i, cols - 1) by {
        forall k | 0 <= k < |rs|
          ensures rs[k].residues[..cols - 1] == rs[0].residues[..cols - 1]
        {
          assert rs[k].residues[..cols - 1] == rs[k].residues[..cols][..cols - 1];
          assert rs[0].residues[..cols - 1] == rs[0].residues[..cols][..cols - 1];
        }
      }
      forall k | 0 <= k < |rs|
        ensures rs[k].residues[cols - 1] == rs[i].residues[cols - 1]
      {
        assert rs[k].residues[cols - 1] == rs[k].residues[..cols][cols - 1];
        assert rs[i].residues[cols - 1] == rs[i].residues[..cols][cols - 1];
        assert rs[0].residues[cols - 1] == rs[0].residues[..cols][cols - 1];
      }
      UnanimousAgreement(rs, i, cols - 1, |rs|);
      assert rs[..|rs|] == rs;
      assert (|rs| - 1) * cols == (|rs| - 1) * (cols - 1) + (|rs| - 1);
    }
  }

  lemma IdenticalPicksFirst(rs: seq<Record>)
    requires |rs| > 0
    requires forall k :: 0 <= k < |rs| ==> rs[k].residues == rs[0].residues
    ensures RepresentativeOf(rs) == Some(Chosen(rs[0].id, Clean(rs[0].residues)))
  {
    var len := |rs[0].residues|;
    forall k | 0 <= k < |rs|
      ensures Score(rs, k, len) == (|rs| - 1) * len
    {
      IdenticalScores(rs, k, len);
    }
    RepresentativeIsBest(rs, 0);
  }
}
