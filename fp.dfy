/** The substitution fingerprint index: for every gene, the positions where
    a reference's chosen allele carries a substitution, and for each mutant
    base the names of the references that carry it. */
module Fp {
  import opened Wrappers
  import Seqs
  import Text
  import opened Alignment

  /** mutant base -> names of the references carrying it */
  type Mutants = map<string, set<string>>
  /** position on the gene -> mutants seen there */
  type Positions = map<int, Mutants>
  /** gene -> positions */
  type Index = map<string, Positions>

  /** The gene range `rR` an allele covers. */
  datatype Bounds = Bounds(lower: int, upper: int)

  /** An allele of a core result: its gene range and its mutations (missing
      mutations are an empty list). */
  datatype Allele = Allele(rR: Bounds, muts: seq<Mutation>)

  /** A core result as `addCore` reads it: gene -> alleles (missing alleles
      are an empty list). */
  type CoreAlleles = map<string, seq<Allele>>

  function PositionsOf(s: Index, gene: string): Positions
  {
    if gene in s then s[gene] else map[]
  }

  function MutantsAt(p: Positions, rI: int): Mutants
  {
    if rI in p then p[rI] else map[]
  }

  function NamesOf(m: Mutants, mut: string): set<string>
  {
    if mut in m then m[mut] else {}
  }

  /** The names filed under `[gene, rI, mut]`, none when the path is absent. */
  function Names(s: Index, gene: string, rI: int, mut: string): set<string>
  {
    NamesOf(MutantsAt(PositionsOf(s, gene), rI), mut)
  }

  /** lodash `_.has(substitutions, [gene, rI, mut])`. */
  predicate Has(s: Index, gene: string, rI: int, mut: string)
  {
    gene in s && rI in s[gene] && mut in s[gene][rI]
  }

  // ---------------------------------------------------------------------
  // Choosing an allele

  function IsSubstitution(m: Mutation): bool
  {
    m.t == S
  }

  function SubstitutionsOf(a: Allele): seq<Mutation>
  {
    Seqs.Filter(a.muts, IsSubstitution)
  }

  function SubCount(a: Allele): nat
  {
    |SubstitutionsOf(a)|
  }

  /** The position of the allele `addCore` keeps for a gene. */
  function Fewest(alleles: seq<Allele>): (i: nat)
    requires |alleles| > 0
    ensures i < |alleles|
    decreases |alleles|
  {
    if |alleles| == 1 then 0
    else
      var j := Fewest(alleles[..|alleles| - 1]);
      if SubCount(alleles[|alleles| - 1]) < SubCount(alleles[j]) then |alleles| - 1 else j
  }

  /** The kept allele has the fewest substitutions, and every allele before
      it has strictly more: the first of the fewest wins. */
  lemma {:induction false} FewestMeaning(alleles: seq<Allele>)
    requires |alleles| > 0
    ensures forall k | 0 <= k < |alleles| :: SubCount(alleles[Fewest(alleles)]) <= SubCount(alleles[k])
    ensures forall k | 0 <= k < Fewest(alleles) :: SubCount(alleles[Fewest(alleles)]) < SubCount(alleles[k])
    decreases |alleles|
  {
    if |alleles| > 1 {
      var init := alleles[..|alleles| - 1];
      FewestMeaning(init);
      var i, j := Fewest(alleles), Fewest(init);
      assert alleles[j] == init[j];
      forall k | 0 <= k < |alleles|
        ensures SubCount(alleles[i]) <= SubCount(alleles[k])
        ensures k < i ==> SubCount(alleles[i]) < SubCount(alleles[k])
      {
        if k < |init| {
          assert alleles[k] == init[k];
        }
      }
    }
  }

  /** The substitutions `addCore` files for a gene: those of the kept allele,
      none for a gene with no alleles. */
  function Chosen(core: CoreAlleles, gene: string): seq<Mutation>
  {
    if gene in core && |core[gene]| > 0 then SubstitutionsOf(core[gene][Fewest(core[gene])]) else []
  }

  /** The bounds `addCore` returns for the genes in `done`. */
  function BoundsOn(core: CoreAlleles, done: set<string>): map<string, Bounds>
  {
    map g | g in done && g in core && |core[g]| > 0 :: core[g][Fewest(core[g])].rR
  }

  function BoundsFor(core: CoreAlleles): map<string, Bounds>
  {
    BoundsOn(core, core.Keys)
  }

  lemma BoundsForMeaning(core: CoreAlleles, gene: string)
    ensures gene in BoundsFor(core) <==> gene in core && |core[gene]| > 0
    ensures gene in BoundsFor(core) ==>
      exists i | 0 <= i < |core[gene]| ::
        && BoundsFor(core)[gene] == core[gene][i].rR
        && (forall k | 0 <= k < |core[gene]| :: SubCount(core[gene][i]) <= SubCount(core[gene][k]))
        && (forall k | 0 <= k < i :: SubCount(core[gene][i]) < SubCount(core[gene][k]))
  {
    if gene in BoundsFor(core) {
      FewestMeaning(core[gene]);
      var i := Fewest(core[gene]);
      assert BoundsFor(core)[gene] == core[gene][i].rR;
    }
  }

  // ---------------------------------------------------------------------
  // Filing names

  /** Adds `name` under `[rI, mut]` of one gene's positions. */
  function FileName(p: Positions, rI: int, mut: string, name: string): Positions
  {
    p[rI := MutantsAt(p, rI)[mut := NamesOf(MutantsAt(p, rI), mut) + {name}]]
  }

  /** Files `name` for each substitution of `subs`, in order. */
  function FileAll(p: Positions, subs: seq<Mutation>, name: string): Positions
    decreases |subs|
  {
    if |subs| == 0 then p
    else
      var q := FileAll(p, subs[..|subs| - 1], name);
      var m := subs[|subs| - 1];
      if m.t == S then FileName(q, m.rI, m.mut, name) else q
  }

  /** `subs` holds a substitution to `mut` at `rI`. */
  predicate Records(subs: seq<Mutation>, rI: int, mut: string)
  {
    exists k | 0 <= k < |subs| :: subs[k].t == S && subs[k].rI == rI && subs[k].mut == mut
  }

  predicate Positioned(subs: seq<Mutation>, rI: int)
  {
    exists k | 0 <= k < |subs| :: subs[k].t == S && subs[k].rI == rI
  }

  lemma {:induction false} FileAllMeaning(p: Positions, subs: seq<Mutation>, name: string, rI: int, mut: string)
    ensures NamesOf(MutantsAt(FileAll(p, subs, name), rI), mut)
         == NamesOf(MutantsAt(p, rI), mut) + (if Records(subs, rI, mut) then {name} else {})
    ensures rI in FileAll(p, subs, name) <==> rI in p || Positioned(subs, rI)
    ensures mut in MutantsAt(FileAll(p, subs, name), rI) <==> mut in MutantsAt(p, rI) || Records(subs, rI, mut)
    decreases |subs|
  {
    if |subs| > 0 {
      var init := subs[..|subs| - 1];
      FileAllMeaning(p, init, name, rI, mut);
      assert Records(subs, rI, mut) <==> (Records(init, rI, mut)
        || (subs[|subs| - 1].t == S && subs[|subs| - 1].rI == rI && subs[|subs| - 1].mut == mut)) by {
        if Records(init, rI, mut) {
          var k :| 0 <= k < |init| && init[k].t == S && init[k].rI == rI && init[k].mut == mut;
          assert subs[k] == init[k];
        }
        if Records(subs, rI, mut) {
          var k :| 0 <= k < |subs| && subs[k].t == S && subs[k].rI == rI && subs[k].mut == mut;
          if k < |init| {
            assert init[k] == subs[k];
          }
        }
      }
      assert Positioned(subs, rI) <==> (Positioned(init, rI)
        || (subs[|subs| - 1].t == S && subs[|subs| - 1].rI == rI)) by {
        if Positioned(init, rI) {
          var k :| 0 <= k < |init| && init[k].t == S && init[k].rI == rI;
          assert subs[k] == init[k];
        }
        if Positioned(subs, rI) {
          var k :| 0 <= k < |subs| && subs[k].t == S && subs[k].rI == rI;
          if k < |init| {
            assert init[k] == subs[k];
          }
        }
      }
    }
  }

  /** Filing a name that is already filed everywhere `subs` would put it
      changes nothing. */
  lemma {:induction false} FileAllAgain(p: Positions, subs: seq<Mutation>, name: string)
    requires forall k | 0 <= k < |subs| && subs[k].t == S :: name in NamesOf(MutantsAt(p, subs[k].rI), subs[k].mut)
    ensures FileAll(p, subs, name) == p
    decreases |subs|
  {
    if |subs| > 0 {
      var init := subs[..|subs| - 1];
      var m := subs[|subs| - 1];
      FileAllAgain(p, init, name);
      if m.t == S {
        var here := MutantsAt(p, m.rI);
        assert name in NamesOf(here, m.mut);
        assert m.rI in p && m.mut in here;
        assert NamesOf(here, m.mut) + {name} == here[m.mut];
        assert here[m.mut := here[m.mut]] == here;
        assert p[m.rI := here] == p;
      }
    }
  }

  /** The genes present once `addCore(name, core)` has handled those in
      `done`: a gene is created only when a substitution is filed for it. */
  function FiledGenes(s: Index, core: CoreAlleles, done: set<string>): set<string>
  {
    s.Keys + (set h | h in done && Chosen(core, h) != [])
  }

  function FiledAt(s: Index, name: string, core: CoreAlleles, done: set<string>, gene: string): Positions
  {
    if gene in done then FileAll(PositionsOf(s, gene), Chosen(core, gene), name) else PositionsOf(s, gene)
  }

  /** The index after `addCore(name, core)` has handled the genes in `done`. */
  function FiledOn(s: Index, name: string, core: CoreAlleles, done: set<string>): Index
  {
    map g | g in FiledGenes(s, core, done) :: FiledAt(s, name, core, done, g)
  }

  function Filed(s: Index, name: string, core: CoreAlleles): Index
  {
    FiledOn(s, name, core, core.Keys)
  }

  lemma FiledGenesStep(s: Index, core: CoreAlleles, done: set<string>, gene: string)
    ensures FiledGenes(s, core, done + {gene})
         == FiledGenes(s, core, done) + (if Chosen(core, gene) != [] then {gene} else {})
  {
  }

  lemma FiledAtStep(s: Index, name: string, core: CoreAlleles, done: set<string>, gene: string, g: string)
    requires gene !in done
    ensures g != gene ==> FiledAt(s, name, core, done + {gene}, g) == FiledAt(s, name, core, done, g)
    ensures Chosen(core, gene) == [] ==> FiledAt(s, name, core, done + {gene}, gene) == PositionsOf(s, gene)
  {
  }

  lemma FiledOnStep(s: Index, name: string, core: CoreAlleles, done: set<string>, gene: string)
    requires gene !in done
    ensures PositionsOf(FiledOn(s, name, core, done), gene) == PositionsOf(s, gene)
    ensures FiledOn(s, name, core, done + {gene})
         == if Chosen(core, gene) == [] then FiledOn(s, name, core, done)
            else FiledOn(s, name, core, done)[gene := FileAll(PositionsOf(s, gene), Chosen(core, gene), name)]
  {
    FiledGenesStep(s, core, done, gene);
    FiledOnUnfiled(s, name, core, done, gene);
    if Chosen(core, gene) == [] {
      FiledOnSkips(s, name, core, done, gene);
    } else {
      FiledOnFiles(s, name, core, done, gene);
    }
  }

  /** A gene not yet handled keeps the positions it had. */
  lemma FiledOnUnfiled(s: Index, name: string, core: CoreAlleles, done: set<string>, gene: string)
    requires gene !in done
    ensures PositionsOf(FiledOn(s, name, core, done), gene) == PositionsOf(s, gene)
  {
  }

  /** A gene without a chosen substitution changes nothing. */
  lemma FiledOnSkips(s: Index, name: string, core: CoreAlleles, done: set<string>, gene: string)
    requires gene !in done && Chosen(core, gene) == []
    requires FiledGenes(s, core, done + {gene}) == FiledGenes(s, core, done)
    ensures FiledOn(s, name, core, done + {gene}) == FiledOn(s, name, core, done)
  {
    var before, after := FiledOn(s, name, core, done), FiledOn(s, name, core, done + {gene});
    forall g | g in FiledGenes(s, core, done)
      ensures after[g] == before[g]
    {
      FiledAtStep(s, name, core, done, gene, g);
    }
  }

  /** A gene with chosen substitutions gets them filed. */
  lemma FiledOnFiles(s: Index, name: string, core: CoreAlleles, done: set<string>, gene: string)
    requires gene !in done && Chosen(core, gene) != []
    requires FiledGenes(s, core, done + {gene}) == FiledGenes(s, core, done) + {gene}
    ensures FiledOn(s, name, core, done + {gene})
         == FiledOn(s, name, core, done)[gene := FileAll(PositionsOf(s, gene), Chosen(core, gene), name)]
  {
    var before, after := FiledOn(s, name, core, done), FiledOn(s, name, core, done + {gene});
    assert after[gene] == FileAll(PositionsOf(s, gene), Chosen(core, gene), name);
    forall g | g in before && g != gene
      ensures after[g] == before[g]
    {
      FiledAtStep(s, name, core, done, gene, g);
    }
    UpdatedMap(after, before, gene, after[gene]);
  }

  /** Two maps that agree everywhere except at one key. */
  lemma UpdatedMap<K, V>(a: map<K, V>, b: map<K, V>, k: K, v: V)
    requires a.Keys == b.Keys + {k} && a[k] == v
    requires forall g :: g in b && g != k ==> a[g] == b[g]
    ensures a == b[k := v]
  {
  }

  /** The names filed under a path after `addCore`: those there before, plus
      `name` exactly where the kept allele of that gene has that
      substitution. Nothing is removed, other genes are unchanged. */
  lemma FiledNames(s: Index, name: string, core: CoreAlleles, gene: string, rI: int, mut: string)
    ensures Names(Filed(s, name, core), gene, rI, mut)
         == Names(s, gene, rI, mut) + (if Records(Chosen(core, gene), rI, mut) then {name} else {})
    ensures Has(Filed(s, name, core), gene, rI, mut) <==> Has(s, gene, rI, mut) || Records(Chosen(core, gene), rI, mut)
  {
    var t := Filed(s, name, core);
    FileAllMeaning(PositionsOf(s, gene), Chosen(core, gene), name, rI, mut);
    if gene in core {
      if !(gene in s) && Chosen(core, gene) == [] {
        assert !Records(Chosen(core, gene), rI, mut);
      } else {
        assert PositionsOf(t, gene) == FileAll(PositionsOf(s, gene), Chosen(core, gene), name);
      }
    }
  }

  /** `addCore` with the same name and core twice files what one call does. */
  lemma FiledTwice(s: Index, name: string, core: CoreAlleles)
    ensures Filed(Filed(s, name, core), name, core) == Filed(s, name, core)
  {
    var once := Filed(s, name, core);
    var twice := Filed(once, name, core);
    assert twice.Keys == once.Keys;
    forall g | g in once.Keys
      ensures twice[g] == once[g]
    {
      if g in core {
        var subs := Chosen(core, g);
        forall k | 0 <= k < |subs| && subs[k].t == S
          ensures name in NamesOf(MutantsAt(PositionsOf(once, g), subs[k].rI), subs[k].mut)
        {
          FiledNames(s, name, core, g, subs[k].rI, subs[k].mut);
        }
        FileAllAgain(PositionsOf(once, g), subs, name);
      }
    }
  }

  // ---------------------------------------------------------------------
  // Counting sites

  /** The (gene, position) keys of the index. */
  ghost function Sites(s: Index): set<(string, int)>
  {
    set g, r | g in s && r in s[g] :: (g, r)
  }

  ghost function SitesOn(s: Index, done: set<string>): set<(string, int)>
  {
    set g, r | g in done && g in s && r in s[g] :: (g, r)
  }

  lemma {:induction false} PairCount(gene: string, keys: set<int>)
    ensures |set r | r in keys :: (gene, r)| == |keys|
    decreases |keys|
  {
    if keys != {} {
      var x := Seqs.Pick(keys);
      PairCount(gene, keys - {x});
      assert (set r | r in keys :: (gene, r)) == (set r | r in keys - {x} :: (gene, r)) + {(gene, x)};
    }
  }

  lemma SitesOnStep(s: Index, done: set<string>, gene: string)
    requires gene in s && gene !in done
    ensures |SitesOn(s, done + {gene})| == |SitesOn(s, done)| + |s[gene].Keys|
  {
    var row := set r | r in s[gene].Keys :: (gene, r);
    assert SitesOn(s, done + {gene}) == SitesOn(s, done) + row;
    assert SitesOn(s, done) * row == {};
    PairCount(gene, s[gene].Keys);
  }

  // ---------------------------------------------------------------------
  // Exporting the index

  lemma {:induction false} MinimumExists(keys: set<int>)
    requires keys != {}
    ensures exists m :: m in keys && forall x | x in keys :: m <= x
    decreases |keys|
  {
    var y := Seqs.Pick(keys);
    if keys != {y} {
      MinimumExists(keys - {y});
      var m :| m in keys - {y} && forall x | x in keys - {y} :: m <= x;
      var low := if y < m then y else m;
      forall x | x in keys
        ensures low <= x
      {
        if x != y {
          assert x in keys - {y};
        }
      }
      assert low in keys;
    } else {
      assert forall x | x in keys :: y <= x;
    }
  }

  function Minimum(keys: set<int>): (m: int)
    requires keys != {}
    ensures m in keys && forall x | x in keys :: m <= x
  {
    MinimumExists(keys);
    var m :| m in keys && forall x | x in keys :: m <= x;
    m
  }

  /** The positions of a gene as `getProfile` lists them: numerically
      ascending, each once. */
  function Ascending(keys: set<int>): (r: seq<int>)
    ensures |r| == |keys|
    ensures forall x :: x in r <==> x in keys
    ensures forall i, j | 0 <= i < j < |r| :: r[i] < r[j]
    decreases |keys|
  {
    if keys == {} then []
    else
      var m := Minimum(keys);
      [m] + Ascending(keys - {m})
  }

  /** One exported position: `{ rI, muts }`. */
  datatype Site = Site(rI: int, muts: Mutants)

  /** gene -> exported positions; also the shape of a reference profile. */
  type Profile = map<string, seq<Site>>

  /** The sites at the positions `order`, in that order. */
  function SitesAt(p: Positions, order: seq<int>): seq<Site>
  {
    if |order| == 0 then []
    else SitesAt(p, order[..|order| - 1]) + [Site(order[|order| - 1], MutantsAt(p, order[|order| - 1]))]
  }

  /** One site per listed position, carrying that position's mutants. */
  lemma {:induction false} SitesAtMeaning(p: Positions, order: seq<int>)
    ensures |SitesAt(p, order)| == |order|
    ensures forall k | 0 <= k < |order| :: SitesAt(p, order)[k] == Site(order[k], MutantsAt(p, order[k]))
  {
    if |order| > 0 {
      var init := order[..|order| - 1];
      SitesAtMeaning(p, init);
      forall k | 0 <= k < |order| - 1
        ensures SitesAt(p, order)[k] == Site(order[k], MutantsAt(p, order[k]))
      {
        assert SitesAt(p, order)[k] == SitesAt(p, init)[k];
        assert init[k] == order[k];
      }
    }
  }

  function SitesOf(p: Positions): seq<Site>
  {
    SitesAt(p, Ascending(p.Keys))
  }

  function ProfileOf(s: Index): (r: Profile)
    ensures r.Keys == s.Keys
  {
    map g | g in s :: SitesOf(s[g])
  }

  lemma SitesOfMeaning(p: Positions)
    ensures forall i, j | 0 <= i < j < |SitesOf(p)| :: SitesOf(p)[i].rI < SitesOf(p)[j].rI
    ensures forall i | 0 <= i < |SitesOf(p)| :: SitesOf(p)[i].rI in p && SitesOf(p)[i].muts == p[SitesOf(p)[i].rI]
    ensures forall r | r in p :: exists i | 0 <= i < |SitesOf(p)| :: SitesOf(p)[i].rI == r
  {
    SitesOfPositions(p, SitesOf(p), Ascending(p.Keys));
  }

  lemma SitesOfPositions(p: Positions, sites: seq<Site>, order: seq<int>)
    requires order == Ascending(p.Keys) && sites == SitesAt(p, order)
    ensures |sites| == |order|
    ensures forall i | 0 <= i < |sites| :: sites[i].rI == order[i] && order[i] in p && sites[i].muts == p[order[i]]
    ensures forall r | r in p :: exists i | 0 <= i < |sites| :: sites[i].rI == r
  {
    SitesAtMeaning(p, order);
    forall i | 0 <= i < |sites|
      ensures sites[i].rI == order[i] && order[i] in p && sites[i].muts == p[order[i]]
    {
      assert order[i] in order;
    }
    forall r | r in p
      ensures exists i | 0 <= i < |sites| :: sites[i].rI == r
    {
      var i :| 0 <= i < |order| && order[i] == r;
      assert sites[i].rI == r;
    }
  }

  ghost predicate ExportedOn(s: Index, profile: Profile, done: set<string>)
  {
    profile.Keys == done && forall g | g in done :: g in s && profile[g] == SitesOf(s[g])
  }

  lemma ProfileStep(s: Index, profile: Profile, done: set<string>, genes: set<string>, gene: string, sites: seq<Site>)
    requires genes + done == s.Keys && genes !! done && gene in genes
    requires ExportedOn(s, profile, done)
    requires sites == SitesOf(s[gene])
    ensures (genes - {gene}) + (done + {gene}) == s.Keys && (genes - {gene}) !! (done + {gene})
    ensures ExportedOn(s, profile[gene := sites], done + {gene})
  {
    var after := profile[gene := sites];
    assert after.Keys == done + {gene};
    forall g | g in done + {gene}
      ensures g in s && after[g] == SitesOf(s[g])
    {
      if g != gene {
        assert g in done;
      }
    }
    SetStep(s.Keys, genes, done, gene);
  }

  lemma SetStep<T>(all: set<T>, genes: set<T>, done: set<T>, x: T)
    requires genes + done == all && genes !! done && x in genes
    ensures (genes - {x}) + (done + {x}) == all && (genes - {x}) !! (done + {x})
  {
  }

  lemma ProfileOfEach(s: Index, profile: Profile)
    requires ExportedOn(s, profile, s.Keys)
    ensures profile == ProfileOf(s)
  {
  }

  /** The export lists every gene of the index; per gene every position
      once, ascending, each with the mutants filed there. */
  lemma ProfileMeaning(s: Index, gene: string)
    ensures gene in ProfileOf(s) <==> gene in s
    ensures gene in s ==>
      var sites := ProfileOf(s)[gene];
      && (forall i, j | 0 <= i < j < |sites| :: sites[i].rI < sites[j].rI)
      && (forall i | 0 <= i < |sites| :: sites[i].rI in s[gene] && sites[i].muts == s[gene][sites[i].rI])
      && (forall r | r in s[gene] :: exists i | 0 <= i < |sites| :: sites[i].rI == r)
  {
    if gene in s {
      SitesOfMeaning(s[gene]);
    }
  }

  // ---------------------------------------------------------------------
  // Scoring a reference profile

  function BoundOf(bounds: map<string, Bounds>, gene: string): Bounds
  {
    if gene in bounds then bounds[gene] else Bounds(0, 0)
  }

  /** One counted site: a mutant of an in-bounds position of a gene of the
      reference profile. */
  datatype Entry = Entry(gene: string, index: nat, mutant: string)

  predicate InBounds(profile: Profile, bounds: map<string, Bounds>, gene: string, i: nat)
    requires gene in profile && i < |profile[gene]|
  {
    BoundOf(bounds, gene).lower <= profile[gene][i].rI <= BoundOf(bounds, gene).upper
  }

  ghost function Entries(profile: Profile, bounds: map<string, Bounds>): set<Entry>
  {
    set g, i: nat, m | g in profile && i < |profile[g]| && m in profile[g][i].muts && InBounds(profile, bounds, g, i)
      :: Entry(g, i, m)
  }

  predicate IsEntry(profile: Profile, e: Entry)
  {
    e.gene in profile && e.index < |profile[e.gene]| && e.mutant in profile[e.gene][e.index].muts
  }

  function References(profile: Profile, e: Entry): set<string>
  {
    if IsEntry(profile, e) then profile[e.gene][e.index].muts[e.mutant] else {}
  }

  /** The fingerprint has the entry's mutant at the entry's position. */
  predicate Matches(s: Index, profile: Profile, e: Entry)
  {
    IsEntry(profile, e) && Has(s, e.gene, profile[e.gene][e.index].rI, e.mutant)
  }

  ghost function MatchedFor(s: Index, profile: Profile, es: set<Entry>, ref: string): set<Entry>
  {
    set e | e in es && ref in References(profile, e) && Matches(s, profile, e)
  }

  ghost function Referenced(profile: Profile, es: set<Entry>): set<string>
  {
    set e, r | e in es && r in References(profile, e) :: r
  }

  /** The running totals of `_score` after the entries `seen`. */
  ghost predicate Tally(s: Index, profile: Profile, seen: set<Entry>, counted: nat, matched: map<string, nat>)
  {
    && counted == |seen|
    && matched.Keys == Referenced(profile, seen)
    && forall ref | ref in matched :: matched[ref] == |MatchedFor(s, profile, seen, ref)|
  }

  function MatchedOf(matched: map<string, nat>, ref: string): nat
  {
    if ref in matched then matched[ref] else 0
  }

  /** Every listed reference gets a score, which goes up by one on a match. */
  function Bump(matched: map<string, nat>, refs: set<string>, hit: bool): map<string, nat>
  {
    map r | r in matched.Keys + refs :: MatchedOf(matched, r) + (if hit && r in refs then 1 else 0)
  }

  lemma ReferencedStep(profile: Profile, seen: set<Entry>, e: Entry)
    ensures Referenced(profile, seen + {e}) == Referenced(profile, seen) + References(profile, e)
  {
    forall r | r in References(profile, e)
      ensures r in Referenced(profile, seen + {e})
    {
      assert e in seen + {e};
    }
  }

  lemma MatchedStep(s: Index, profile: Profile, seen: set<Entry>, e: Entry, ref: string)
    requires e !in seen
    ensures |MatchedFor(s, profile, seen + {e}, ref)|
         == |MatchedFor(s, profile, seen, ref)| + (if Matches(s, profile, e) && ref in References(profile, e) then 1 else 0)
  {
    if Matches(s, profile, e) && ref in References(profile, e) {
      assert MatchedFor(s, profile, seen + {e}, ref) == MatchedFor(s, profile, seen, ref) + {e};
    } else {
      assert MatchedFor(s, profile, seen + {e}, ref) == MatchedFor(s, profile, seen, ref);
    }
  }

  lemma TallyStep(s: Index, profile: Profile, seen: set<Entry>, counted: nat, matched: map<string, nat>, e: Entry)
    requires Tally(s, profile, seen, counted, matched)
    requires e !in seen
    ensures Tally(s, profile, seen + {e}, counted + 1, Bump(matched, References(profile, e), Matches(s, profile, e)))
  {
    var refs := References(profile, e);
    var next := Bump(matched, refs, Matches(s, profile, e));
    ReferencedStep(profile, seen, e);
    forall ref | ref in next
      ensures next[ref] == |MatchedFor(s, profile, seen + {e}, ref)|
    {
      MatchedStep(s, profile, seen, e, ref);
      if ref !in matched {
        assert ref in refs;
        assert ref !in Referenced(profile, seen);
        assert MatchedFor(s, profile, seen, ref) == {};
      }
    }
  }

  ghost function EntriesOn(profile: Profile, bounds: map<string, Bounds>, genes: set<string>): set<Entry>
  {
    set e | e in Entries(profile, bounds) && e.gene in genes
  }

  ghost function EntriesUpTo(profile: Profile, bounds: map<string, Bounds>, gene: string, n: nat): set<Entry>
  {
    set e | e in Entries(profile, bounds) && e.gene == gene && e.index < n
  }

  ghost function EntriesAt(profile: Profile, bounds: map<string, Bounds>, gene: string, i: nat, mutants: set<string>): set<Entry>
  {
    set e | e in Entries(profile, bounds) && e.gene == gene && e.index == i && e.mutant in mutants
  }

  lemma EntryIn(profile: Profile, bounds: map<string, Bounds>, gene: string, i: nat, m: string)
    requires gene in profile && i < |profile[gene]| && m in profile[gene][i].muts
    ensures Entry(gene, i, m) in Entries(profile, bounds) <==> InBounds(profile, bounds, gene, i)
  {
  }

  /** Every score the profile produces counts only counted sites. */
  lemma MatchedAtMostCounted(s: Index, profile: Profile, bounds: map<string, Bounds>, ref: string)
    ensures |MatchedFor(s, profile, Entries(profile, bounds), ref)| <= |Entries(profile, bounds)|
  {
    Seqs.SubsetSize(MatchedFor(s, profile, Entries(profile, bounds), ref), Entries(profile, bounds));
  }

  /** A score record: `{ referenceId, matchedSites, countedSites }`. */
  datatype Score = Score(referenceId: string, matchedSites: nat, countedSites: nat)

  function Ratio(s: Score): real
    requires s.countedSites > 0
  {
    s.matchedSites as real / s.countedSites as real
  }

  /** `a` sorts no later than `b` in `_bestScore`: a higher score, or the
      same score and a referenceId no larger. */
  predicate Ranks(a: Score, b: Score)
    requires a.countedSites > 0 && b.countedSites > 0
  {
    Ratio(a) > Ratio(b) || (Ratio(a) == Ratio(b) && Text.LessEq(a.referenceId, b.referenceId))
  }

  predicate Counted(scores: seq<Score>)
  {
    forall k | 0 <= k < |scores| :: scores[k].countedSites > 0
  }

  /** The references that have a record. */
  function Ids(scores: seq<Score>): set<string>
  {
    set k | 0 <= k < |scores| :: scores[k].referenceId
  }

  predicate DistinctIds(scores: seq<Score>)
  {
    forall i, j | 0 <= i < j < |scores| :: scores[i].referenceId != scores[j].referenceId
  }

  /** A reference is listed only under a counted site, so a scored
      reference implies a positive count. */
  lemma ReferencedCounted(profile: Profile, es: set<Entry>, ref: string)
    requires ref in Referenced(profile, es)
    ensures |es| > 0
  {
    var e :| e in es && ref in References(profile, e);
  }

  /** Every record is that of a tallied reference, with its tally and the
      shared count. */
  predicate RecordsOf(scores: seq<Score>, countedSites: nat, matched: map<string, nat>)
  {
    forall k | 0 <= k < |scores| ::
      scores[k].referenceId in matched
      && scores[k].matchedSites == matched[scores[k].referenceId]
      && scores[k].countedSites == countedSites
  }

  lemma RecordSnoc(scores: seq<Score>, x: Score, countedSites: nat, matched: map<string, nat>)
    requires DistinctIds(scores) && RecordsOf(scores, countedSites, matched)
    requires x.referenceId !in Ids(scores) && x.referenceId in matched
    requires x == Score(x.referenceId, matched[x.referenceId], countedSites)
    ensures Ids(scores + [x]) == Ids(scores) + {x.referenceId}
    ensures DistinctIds(scores + [x]) && RecordsOf(scores + [x], countedSites, matched)
  {
    var t := scores + [x];
    assert forall k | 0 <= k < |scores| :: t[k] == scores[k];
    assert t[|scores|] == x;
    forall i, j | 0 <= i < j < |t|
      ensures t[i].referenceId != t[j].referenceId
    {
      if j == |scores| {
        assert t[i].referenceId in Ids(scores);
      }
    }
  }

  /** The last loop of `_score`: every tallied reference becomes a record
      carrying the shared count. The order of `_.values` is not modelled. */
  method ScoreRecords(countedSites: nat, matched: map<string, nat>) returns (scores: seq<Score>)
    ensures Ids(scores) == matched.Keys
    ensures DistinctIds(scores)
    ensures forall k | 0 <= k < |scores| ::
      scores[k].referenceId in matched
      && scores[k].matchedSites == matched[scores[k].referenceId]
      && scores[k].countedSites == countedSites
  {
    scores := [];
    var left := matched.Keys;
    while left != {}
      invariant left !! Ids(scores) && left + Ids(scores) == matched.Keys
      invariant DistinctIds(scores) && RecordsOf(scores, countedSites, matched)
      decreases |left|
    {
      var ref :| ref in left;
      RecordSnoc(scores, Score(ref, matched[ref], countedSites), countedSites, matched);
      scores := scores + [Score(ref, matched[ref], countedSites)];
      left := left - {ref};
    }
  }

  /** With a shared countedSites, the ranking by score is the ranking by
      matchedSites. */
  lemma SharedCountRanksByMatches(a: Score, b: Score)
    requires a.countedSites > 0 && a.countedSites == b.countedSites
    ensures Ratio(a) > Ratio(b) <==> a.matchedSites > b.matchedSites
    ensures Ratio(a) == Ratio(b) <==> a.matchedSites == b.matchedSites
  {
    var c := a.countedSites as real;
    var p, q := Ratio(a), Ratio(b);
    assert p * c == a.matchedSites as real;
    assert q * c == b.matchedSites as real;
    assert (p - q) * c == a.matchedSites as real - b.matchedSites as real;
    if p > q {
      assert (p - q) * c > 0.0;
    }
    if a.matchedSites > b.matchedSites {
      assert (p - q) * c > 0.0;
    }
  }

  /** The best of scores that share their count has the most matched sites,
      and the smallest referenceId among those with as many. */
  lemma BestHasMostMatches(scores: seq<Score>, best: Score)
    requires best in scores && best.countedSites > 0
    requires forall k | 0 <= k < |scores| :: scores[k].countedSites == best.countedSites
    requires forall k | 0 <= k < |scores| :: Ranks(best, scores[k])
    ensures forall k | 0 <= k < |scores| ::
      scores[k].matchedSites <= best.matchedSites
      && (scores[k].matchedSites == best.matchedSites ==> Text.LessEq(best.referenceId, scores[k].referenceId))
  {
    forall k | 0 <= k < |scores|
      ensures scores[k].matchedSites <= best.matchedSites
      ensures scores[k].matchedSites == best.matchedSites ==> Text.LessEq(best.referenceId, scores[k].referenceId)
    {
      SharedCountRanksByMatches(best, scores[k]);
      SharedCountRanksByMatches(scores[k], best);
    }
  }

  lemma EntriesUpToSkip(profile: Profile, bounds: map<string, Bounds>, gene: string, i: nat)
    requires gene in profile && i < |profile[gene]|
    requires !InBounds(profile, bounds, gene, i)
    ensures EntriesUpTo(profile, bounds, gene, i + 1) == EntriesUpTo(profile, bounds, gene, i)
  {
  }

  lemma EntriesUpToNext(profile: Profile, bounds: map<string, Bounds>, gene: string, i: nat)
    requires gene in profile && i < |profile[gene]|
    ensures EntriesUpTo(profile, bounds, gene, i + 1)
         == EntriesUpTo(profile, bounds, gene, i) + EntriesAt(profile, bounds, gene, i, profile[gene][i].muts.Keys)
  {
  }

  lemma EntriesOnStep(profile: Profile, bounds: map<string, Bounds>, done: set<string>, gene: string)
    requires gene in profile
    ensures EntriesOn(profile, bounds, done + {gene})
         == EntriesOn(profile, bounds, done) + EntriesUpTo(profile, bounds, gene, |profile[gene]|)
  {
  }

  lemma BoundsOnStep(core: CoreAlleles, done: set<string>, gene: string)
    requires gene in core
    ensures BoundsOn(core, done + {gene})
         == if |core[gene]| > 0 then BoundsOn(core, done)[gene := core[gene][Fewest(core[gene])].rR] else BoundsOn(core, done)
  {
  }

  lemma FiledOnNothing(s: Index, name: string, core: CoreAlleles)
    ensures FiledOn(s, name, core, {}) == s
  {
    assert FiledGenes(s, core, {}) == s.Keys;
  }

  lemma FewestStep(alleles: seq<Allele>, k: nat)
    requires k < |alleles|
    ensures Fewest(alleles[..k + 1])
         == if k == 0 then 0
            else if SubCount(alleles[k]) < SubCount(alleles[Fewest(alleles[..k])]) then k
            else Fewest(alleles[..k])
  {
    var cur := alleles[..k + 1];
    assert cur[..|cur| - 1] == alleles[..k];
    assert cur[|cur| - 1] == alleles[k];
    if k > 0 {
      assert cur[Fewest(alleles[..k])] == alleles[Fewest(alleles[..k])];
    }
  }

  /** The allele loop of `addCore` for one gene: the kept allele's
      substitutions and range, none when there are no alleles. */
  method KeepFewest(alleles: seq<Allele>) returns (fewest: Option<seq<Mutation>>, rR: Bounds)
    ensures fewest.None? <==> |alleles| == 0
    ensures fewest.Some? ==> fewest.value == SubstitutionsOf(alleles[Fewest(alleles)])
    ensures fewest.Some? ==> rR == alleles[Fewest(alleles)].rR
  {
    fewest := None;
    rR := Bounds(0, 0);
    ghost var best: nat := 0;
    var k := 0;
    while k < |alleles|
      invariant 0 <= k <= |alleles|
      invariant fewest.None? <==> k == 0
      invariant k > 0 ==> best == Fewest(alleles[..k]) && best < k
      invariant k > 0 ==> fewest == Some(SubstitutionsOf(alleles[best])) && rR == alleles[best].rR
    {
      FewestStep(alleles, k);
      var subs := SubstitutionsOf(alleles[k]);
      assert |subs| == SubCount(alleles[k]);
      if k > 0 {
        assert |fewest.value| == SubCount(alleles[best]);
      }
      if fewest.None? || |subs| < |fewest.value| {
        fewest := Some(subs);
        rR := alleles[k].rR;
        best := k;
      }
      k := k + 1;
    }
    assert alleles[..|alleles|] == alleles;
  }

  /** The sites of one gene in ascending position order. */
  method ListSites(positions: Positions) returns (sites: seq<Site>)
    ensures sites == SitesOf(positions)
  {
    var order := SortPositions(positions.Keys);
    sites := [];
    var k := 0;
    while k < |order|
      invariant 0 <= k <= |order|
      invariant sites == SitesAt(positions, order[..k])
    {
      SitesAtStep(positions, order, k);
      sites := sites + [Site(order[k], MutantsAt(positions, order[k]))];
      k := k + 1;
    }
    assert order[..|order|] == order;
  }

  /** `_.keys(...).sort((a, b) => a - b)`: the positions in numeric order.
      A method rather than a direct use of `Ascending`, so that the loop of
      `ListSites` sees the order as one opaque value and does not unfold
      `Ascending`'s recursion at every step. */
  method SortPositions(keys: set<int>) returns (order: seq<int>)
    ensures order == Ascending(keys)
  {
    order := Ascending(keys);
  }

  lemma SitesAtStep(p: Positions, order: seq<int>, k: nat)
    requires k < |order|
    ensures SitesAt(p, order[..k + 1]) == SitesAt(p, order[..k]) + [Site(order[k], MutantsAt(p, order[k]))]
  {
    assert order[..k + 1][..k] == order[..k];
  }

  lemma EntriesAtStep(profile: Profile, bounds: map<string, Bounds>, gene: string, i: nat, filed: set<string>, m: string)
    requires gene in profile && i < |profile[gene]| && InBounds(profile, bounds, gene, i)
    requires m in profile[gene][i].muts && m !in filed
    ensures Entry(gene, i, m) !in EntriesAt(profile, bounds, gene, i, filed)
    ensures EntriesAt(profile, bounds, gene, i, filed + {m}) == EntriesAt(profile, bounds, gene, i, filed) + {Entry(gene, i, m)}
  {
    EntryIn(profile, bounds, gene, i, m);
  }

  lemma SiteStep(s: Index, profile: Profile, bounds: map<string, Bounds>, gene: string, i: nat,
                 seen: set<Entry>, filed: set<string>, m: string,
                 counted: nat, matched: map<string, nat>, current: set<Entry>)
    requires gene in profile && i < |profile[gene]| && InBounds(profile, bounds, gene, i)
    requires m in profile[gene][i].muts && m !in filed
    requires forall e | e in seen :: e.gene != gene || e.index != i
    requires current == seen + EntriesAt(profile, bounds, gene, i, filed)
    requires Tally(s, profile, current, counted, matched)
    ensures current + {Entry(gene, i, m)} == seen + EntriesAt(profile, bounds, gene, i, filed + {m})
    ensures Tally(s, profile, current + {Entry(gene, i, m)}, counted + 1,
                  Bump(matched, profile[gene][i].muts[m], Has(s, gene, profile[gene][i].rI, m)))
  {
    var e := Entry(gene, i, m);
    EntriesAtStep(profile, bounds, gene, i, filed, m);
    TallyStep(s, profile, current, counted, matched, e);
    assert References(profile, e) == profile[gene][i].muts[m];
    assert Matches(s, profile, e) == Has(s, gene, profile[gene][i].rI, m);
  }

  /** The mutant loop of `_score` for one in-bounds site. */
  method TallySite(s: Index, profile: Profile, bounds: map<string, Bounds>, gene: string, i: nat,
                   counted: nat, matched: map<string, nat>, ghost seen: set<Entry>)
    returns (countedAfter: nat, matchedAfter: map<string, nat>)
    requires gene in profile && i < |profile[gene]| && InBounds(profile, bounds, gene, i)
    requires Tally(s, profile, seen, counted, matched)
    requires forall e | e in seen :: e.gene != gene || e.index != i
    ensures Tally(s, profile, seen + EntriesAt(profile, bounds, gene, i, profile[gene][i].muts.Keys),
                  countedAfter, matchedAfter)
  {
    var site := profile[gene][i];
    countedAfter, matchedAfter := counted, matched;
    var mutants := site.muts.Keys;
    ghost var filed: set<string> := {};
    ghost var current := seen;
    assert EntriesAt(profile, bounds, gene, i, filed) == {};
    while mutants != {}
      invariant mutants + filed == site.muts.Keys && mutants !! filed
      invariant current == seen + EntriesAt(profile, bounds, gene, i, filed)
      invariant Tally(s, profile, current, countedAfter, matchedAfter)
      decreases |mutants|
    {
      var m :| m in mutants;
      SiteStep(s, profile, bounds, gene, i, seen, filed, m, countedAfter, matchedAfter, current);
      SetStep(site.muts.Keys, mutants, filed, m);
      var hit := Has(s, gene, site.rI, m);
      matchedAfter := Bump(matchedAfter, site.muts[m], hit);
      countedAfter := countedAfter + 1;
      current := current + {Entry(gene, i, m)};
      mutants := mutants - {m};
      filed := filed + {m};
    }
  }

  lemma GeneStep(profile: Profile, bounds: map<string, Bounds>, gene: string, i: nat, seen: set<Entry>, current: set<Entry>)
    requires gene in profile && i < |profile[gene]|
    requires forall e | e in seen :: e.gene != gene
    requires current == seen + EntriesUpTo(profile, bounds, gene, i)
    ensures forall e | e in current :: e.gene != gene || e.index != i
    ensures current + EntriesAt(profile, bounds, gene, i, profile[gene][i].muts.Keys)
         == seen + EntriesUpTo(profile, bounds, gene, i + 1)
    ensures !InBounds(profile, bounds, gene, i) ==> current == seen + EntriesUpTo(profile, bounds, gene, i + 1)
  {
    EntriesUpToNext(profile, bounds, gene, i);
    if !InBounds(profile, bounds, gene, i) {
      EntriesUpToSkip(profile, bounds, gene, i);
    }
  }

  /** The position loop of `_score` for one gene of the reference profile. */
  method TallyGene(s: Index, profile: Profile, bounds: map<string, Bounds>, gene: string,
                   counted: nat, matched: map<string, nat>, ghost seen: set<Entry>)
    returns (countedAfter: nat, matchedAfter: map<string, nat>)
    requires gene in profile
    requires Tally(s, profile, seen, counted, matched)
    requires forall e | e in seen :: e.gene != gene
    ensures Tally(s, profile, seen + EntriesUpTo(profile, bounds, gene, |profile[gene]|), countedAfter, matchedAfter)
  {
    countedAfter, matchedAfter := counted, matched;
    var b := BoundOf(bounds, gene);
    var sites := profile[gene];
    var i := 0;
    ghost var current := seen;
    assert EntriesUpTo(profile, bounds, gene, 0) == {};
    while i < |sites|
      invariant 0 <= i <= |sites|
      invariant current == seen + EntriesUpTo(profile, bounds, gene, i)
      invariant Tally(s, profile, current, countedAfter, matchedAfter)
    {
      GeneStep(profile, bounds, gene, i, seen, current);
      var position := sites[i].rI;
      if position < b.lower {
      } else if position > b.upper {
      } else {
        countedAfter, matchedAfter := TallySite(s, profile, bounds, gene, i, countedAfter, matchedAfter, current);
        current := current + EntriesAt(profile, bounds, gene, i, sites[i].muts.Keys);
      }
      i := i + 1;
    }
  }

  /** The loop of `getProfile`: every gene's positions listed in turn. */
  method ExportProfile(index: Index) returns (profile: Profile)
    ensures profile == ProfileOf(index)
  {
    profile := map[];
    var genes := index.Keys;
    ghost var done: set<string> := {};
    while genes != {}
      invariant genes + done == index.Keys && genes !! done
      invariant ExportedOn(index, profile, done)
      decreases |genes|
    {
      var g :| g in genes;
      var sites := ListSites(index[g]);
      ProfileStep(index, profile, done, genes, g, sites);
      profile := profile[g := sites];
      genes := genes - {g};
      done := done + {g};
    }
    ProfileOfEach(index, profile);
  }

  class Fp {
    var substitutions: Index

    constructor(substitutions: Index)
      ensures this.substitutions == substitutions
    {
      this.substitutions := substitutions;
    }

    /** The number of (gene, position) keys of the index. */
    method FingerprintSize() returns (size: nat)
      ensures size == |Sites(substitutions)|
    {
      size := 0;
      var genes := substitutions.Keys;
      ghost var done: set<string> := {};
      while genes != {}
        invariant genes + done == substitutions.Keys && genes !! done
        invariant size == |SitesOn(substitutions, done)|
        decreases |genes|
      {
        var g :| g in genes;
        SitesOnStep(substitutions, done, g);
        size := size + |substitutions[g].Keys|;
        genes := genes - {g};
        done := done + {g};
      }
      assert SitesOn(substitutions, done) == Sites(substitutions);
    }

    /** Files `name` under each substitution of `subs` for `gene`. */
    method FileSubstitutions(gene: string, subs: seq<Mutation>, name: string)
      requires forall k | 0 <= k < |subs| :: subs[k].t == S
      modifies this
      ensures substitutions == if subs == [] then old(substitutions)
                               else old(substitutions)[gene := FileAll(PositionsOf(old(substitutions), gene), subs, name)]
    {
      ghost var start := substitutions;
      var j := 0;
      while j < |subs|
        invariant 0 <= j <= |subs|
        invariant substitutions == if j == 0 then start else start[gene := FileAll(PositionsOf(start, gene), subs[..j], name)]
      {
        assert subs[..j + 1][..j] == subs[..j];
        var m := subs[j];
        if m.t == S {
          substitutions := substitutions[gene := FileName(PositionsOf(substitutions, gene), m.rI, m.mut, name)];
        }
        j := j + 1;
      }
      assert subs[..|subs|] == subs;
    }

    /** Keeps, per gene, the allele with the fewest substitutions, files
        `name` under each of its substitutions and returns the kept alleles'
        ranges. */
    method AddCore(name: string, core: CoreAlleles) returns (bounds: map<string, Bounds>)
      modifies this
      ensures substitutions == Filed(old(substitutions), name, core)
      ensures bounds == BoundsFor(core)
    {
      ghost var start := substitutions;
      bounds := map[];
      var genes := core.Keys;
      ghost var done: set<string> := {};
      FiledOnNothing(start, name, core);
      while genes != {}
        invariant genes + done == core.Keys && genes !! done
        invariant substitutions == FiledOn(start, name, core, done)
        invariant bounds == BoundsOn(core, done)
        decreases |genes|
      {
        var g :| g in genes;
        var fewest, rR := KeepFewest(core[g]);
        FiledOnStep(start, name, core, done, g);
        BoundsOnStep(core, done, g);
        if fewest.Some? {
          bounds := bounds[g := rR];
          var subs := fewest.value;
          assert forall k | 0 <= k < |subs| :: subs[k] in subs;
          FileSubstitutions(g, subs, name);
        }
        genes := genes - {g};
        done := done + {g};
      }
    }

    /** The index as a profile: per gene, its positions ascending. */
    method GetProfile() returns (profile: Profile)
      ensures profile == ProfileOf(substitutions)
    {
      profile := ExportProfile(substitutions);
    }

    /** `_score`: one record per reference listed at an in-bounds site of
        `profile`, with the number of such sites where the fingerprint has
        the same mutant, and the shared number of in-bounds sites. */
    method Score(profile: Profile, bounds: map<string, Bounds>) returns (scores: seq<Score>)
      ensures Ids(scores) == Referenced(profile, Entries(profile, bounds))
      ensures DistinctIds(scores)
      ensures forall k | 0 <= k < |scores| :: scores[k].countedSites == |Entries(profile, bounds)|
      ensures forall k | 0 <= k < |scores| ::
        scores[k].matchedSites == |MatchedFor(substitutions, profile, Entries(profile, bounds), scores[k].referenceId)|
      ensures Counted(scores)
    {
      var countedSites, matched := Tallies(profile, bounds);
      scores := ScoreRecords(countedSites, matched);
      if |scores| > 0 {
        ReferencedCounted(profile, Entries(profile, bounds), scores[0].referenceId);
      }
    }

    /** The loops of `_score`: how many in-bounds sites `profile` has, and
        for each reference listed at one of them, at how many the
        fingerprint has the same mutant. */
    method Tallies(profile: Profile, bounds: map<string, Bounds>) returns (countedSites: nat, matched: map<string, nat>)
      ensures countedSites == |Entries(profile, bounds)|
      ensures matched.Keys == Referenced(profile, Entries(profile, bounds))
      ensures forall ref | ref in matched :: matched[ref] == |MatchedFor(substitutions, profile, Entries(profile, bounds), ref)|
    {
      countedSites := 0;
      matched := map[];
      var genes := profile.Keys;
      ghost var done: set<string> := {};
      ghost var current: set<Entry> := {};
      assert EntriesOn(profile, bounds, done) == {};
      while genes != {}
        invariant genes + done == profile.Keys && genes !! done
        invariant current == EntriesOn(profile, bounds, done)
        invariant Tally(substitutions, profile, current, countedSites, matched)
        decreases |genes|
      {
        var g :| g in genes;
        countedSites, matched := TallyGene(substitutions, profile, bounds, g, countedSites, matched, current);
        EntriesOnStep(profile, bounds, done, g);
        current := current + EntriesUpTo(profile, bounds, g, |profile[g]|);
        genes := genes - {g};
        done := done + {g};
      }
      assert current == Entries(profile, bounds);
    }

    /** The best score: the highest, ties to the smallest referenceId. */
    method BestScore(scores: seq<Score>) returns (best: Option<Score>)
      requires Counted(scores)
      ensures best.None? <==> |scores| == 0
      ensures best.Some? ==> best.value in scores
      ensures best.Some? ==> forall k | 0 <= k < |scores| :: Ranks(best.value, scores[k])
    {
      if |scores| == 0 {
        return None;
      }
      var top := scores[0];
      Text.LessIrreflexive(top.referenceId);
      var k := 1;
      while k < |scores|
        invariant 1 <= k <= |scores|
        invariant top in scores[..k]
        invariant forall j | 0 <= j < k :: Ranks(top, scores[j])
      {
        var s := scores[k];
        if Ratio(s) > Ratio(top) || (Ratio(s) == Ratio(top) && Text.Less(s.referenceId, top.referenceId)) {
          forall j | 0 <= j < k
            ensures Ranks(s, scores[j])
          {
            if Ratio(s) == Ratio(top) && Ratio(top) == Ratio(scores[j]) && top.referenceId != scores[j].referenceId {
              Text.LessTransitive(s.referenceId, top.referenceId, scores[j].referenceId);
            }
          }
          top := s;
        } else if s.referenceId != top.referenceId {
          Text.LessTotal(s.referenceId, top.referenceId);
        }
        k := k + 1;
      }
      assert scores[..|scores|] == scores;
      return Some(top);
    }
  }
}
