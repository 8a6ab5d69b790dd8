# core-fp in Dafny

This project models the core of core-fp, the Pathogenwatch tool that builds
a "core genome" profile of a bacterial assembly and scores it against
reference fingerprints. It also models the two family-building scripts
that merge overlapping gene-family matches and pick a family's
representative sequence. Each part's behaviour is stated in contracts and
proved.

- **Alignment differ** (`alignment.dfy`). This models the reverse
  complement of an aligned row and the column-by-column comparison of a
  reference row with a query row. That comparison classifies each column
  as a substitution (S), insertion (I) or deletion (D). It also merges
  adjacent columns into mutation records.
- **Hit filters** (`hits.dfy`, `core.dfy`):
  - the percentage identity of a hit;
  - the overlap of two hits on the same contig;
  - the removal of overlapping hits, keeping the better of each pair;
  - the removal of short hits;
  - the removal of partial hits of families that have a complete hit;
  - annotation of each hit with its mutations in reference and query
    coordinates;
  - `getCore`, which groups the surviving hits by family into the core
    profile and a summary.
- **BLAST reader** (`blast.dfy`):
  - the reformatting of one BLAST hit's high-scoring pairs into hits;
  - the older annotation and partial-hit filter of `BlastParser`,
    related to the `Core` versions.
- **Fingerprint** (`fp.dfy`). The `Fp` class holds the substitution index
  (gene → position → base → reference names). It covers:
  - filing a reference's core (the allele with the fewest substitutions
    per gene, and that allele's bounds);
  - the fingerprint size;
  - the exported profile, with positions in ascending order;
  - the score of a reference profile within bounds;
  - the choice of the best score.
- **Allele comparison** (`filter.dfy`):
  - the distance between two alleles, counted over substitution positions;
  - the table of query/reference distances, stably sorted by distance;
  - the greedy pairing that adds up the differences of the pairs it
    accepts.
- **Pseudocontigs** (`pseudocontig.dfy`). The `Pseudocontig` class is
  built and extended in place. A pseudocontig's name reads the same in
  any order, and its orientation comes from its alphabetically first
  name. The module also models the sweep over the matches, taken sorted
  by contig, start and end, that extends or closes pseudocontigs.
- **Representative** (`representative.dfy`). Each column scores one point
  per other record with the same character. The representative is the
  record with the highest total score, earliest in file order on ties. It
  is reported upper-cased and without gaps.

`seqs.dfy`, `text.dfy` and `wrappers.dfy` hold general helpers:
- filtering, stable insertion sort and map on sequences;
- code-point string order (Python's `str` order), string sort and join;
- Option.

Each method that changes state in the source is specified by a function of
its old state and inputs. The properties that the source and its tests
promise are proved about that function. Where the source tests
(`tests/Filter.js`) expect a `bestMatches` result that
`_compareAlleles` does not return, the model follows the code.

## Model

| member | source | states |
|---|---|---|
| Alignment.BaseComplement | src/Core.js:14-29 | a base is complemented to the gap exactly when it is the gap |
| Alignment.Complement | src/Core.js:14-29 | the result has the same length, and position i holds the complement of the base at the mirrored position |
| Alignment.ComplementInvolution | src/Core.js:14-29 | complementing twice gives back the row |
| Alignment.ComplementExamples | src/Core.js:14-29 | A/C/G/T swap in pairs and each letter keeps its case (`aCgT` becomes `AcGt`) |
| Alignment.ComplementKeepsOthers | src/Core.js:14-29 | the same mapping, with the gap and other characters kept as they are (`an-A` becomes `T-nt`) |
| Alignment.Variants | src/Core.js:96-119 | definition: the single-column variants of the scanned columns, in column order, with their gap-adjusted offsets (proved about in VariantsShape, VariantsContent) |
| Alignment.Mergeable | src/Core.js:121-151 | definition: the merge test as written, same type and the first record's end meeting the next offsets as each type requires (proved about in MergeRunsMaximal, DeletionRunSplits) |
| Alignment.MergeRuns | src/Core.js:121-151 | definition: the walk that joins each variant to the current record when mergeable (proved about in MergeRunsContent, MergeRunsShape) |
| Alignment.Diff | src/Core.js:84-169 | definition: the merged variants of all columns (proved about in DiffContent, DiffShape, DiffEmptyIffIdentical) |
| Alignment.Classify | src/Core.js:103-118 | a column yields a variant exactly when the two bases differ, and its kind is D for a query gap, I for a reference gap, S otherwise |
| Alignment.CompareAlignment | src/Core.js:84-169 | the method's result is the specification diff of the two rows |
| Alignment.ScanColumns | src/Core.js:96-119 | the column scan yields the single-column variants with their gap-adjusted offsets |
| Alignment.MergeVariants | src/Core.js:121-151 | the merge loop yields the specification merge of the variant list |
| Alignment.VariantsShape | src/Core.js:96-119 | every scanned variant spans one column, and consecutive variants are chained by offset; a variant's offsets trail the non-gap counts by the same lag |
| Alignment.MergeRunsMaximal | src/Core.js:121-151 | no two adjacent merged records could have been merged further |
| Alignment.MergeRunsContent | src/Core.js:121-151 | merging keeps the concatenated reference bases and query bases and never adds records |
| Alignment.MergeRunsShape | src/Core.js:121-151 | merged records are well formed, their last one ends at the last variant, and the output is empty only for empty input |
| Alignment.VariantsContent | src/Core.js:96-119 | the variants' bases are exactly the reference and query characters at the differing columns |
| Alignment.DiffContent | src/Core.js:84-169 | the diff's reference and query bases are exactly the characters at the differing columns |
| Alignment.DiffShape | src/Core.js:84-169 | diff records are well formed; I/D records span at most two columns; records are in order and no adjacent pair is mergeable |
| Alignment.NoDiffsMeansEqual | src/Core.js:96-119 | no differing column in a prefix exactly when the prefixes are equal |
| Alignment.DiffEmptyIffIdentical | src/Core.js:84-169 | the diff is empty if and only if the rows are identical |
| Alignment.DeletionRunSplits | src/Core.js:121-151 | a three-column deletion comes out as a two-column and a one-column record, because the merge compares each column with the run's first one |
| Hits.HitList.constructor | src/Core.js:171-250 | the hit list holds the given hits |
| Hits.PIdent | src/Core.js:8-12 | identity is 100 times matching bases over alignment length, lies between 0 and 100 for a valid count, and is 100 for a perfect match |
| Hits.HitsOverlap | src/Core.js:173-195 | hits on different contigs overlap by 0; otherwise by the size of the intersection of their query intervals, never negative |
| Hits.Interval | src/Core.js:173-195 | integer interval membership, used to count shared positions |
| Hits.IntervalSize | src/Core.js:173-195 | an interval holds max(0, hi - lo + 1) positions |
| Hits.OverlapCountsSharedPositions | src/Core.js:173-195 | the overlap is the number of query positions both hits cover |
| Hits.FirstLoses | src/Core.js:201-216 | definition: the earlier hit loses on lower identity, then fewer matching bases, then larger family name, then later start, then later end; when all five agree it holds in neither order |
| Hits.VerdictIndependentOfOrder | src/Core.js:201-220 | of two hits that rank differently exactly one loses and the verdict does not depend on their order; on equal rank `FirstLoses` holds in neither order, so `PairLoser` removes the later hit, as the source keeps the first one in the list |
| Hits.RowLosersMembership | src/Core.js:196-225 | a hit is removed in row i exactly when it loses to a later hit of that row |
| Hits.LosersMembership | src/Core.js:196-225 | a hit is removed exactly when it loses a judged pair with some other hit |
| Hits.WithoutOverlaps | src/Core.js:171-226 | definition: the hits left after the overlap filter, in order; proved to keep no overlapping pair (SurvivorsDoNotOverlap) |
| Hits.SurvivorsDoNotOverlap | src/Core.js:171-226 | no two surviving hits overlap by the minimum overlap or more |
| Hits.WithoutOverlapsIdempotent | src/Core.js:171-226 | filtering overlaps a second time removes nothing |
| Hits.UncontestedHitSurvives | src/Core.js:171-226 | a hit that overlaps no other hit by the minimum survives |
| Hits.RemoveOverlappingHits | src/Core.js:171-226 | the list afterwards is the specification filter of the old list |
| Hits.MinMatchCoverage | src/Core.js:228-234 | definition: `minMatchCoverage || 80`, the setting unless absent or zero |
| Hits.IsShort | src/Core.js:228-234 | definition: a hit is short when its gene ends are less than the minimum apart |
| Hits.WithoutShortHits | src/Core.js:228-234 | definition: the hits that are not short, in order (proved about in WithoutShortHitsMeaning) |
| Hits.WithoutShortHitsMeaning | src/Core.js:228-234 | a hit is kept exactly when its hit span is at least the configured minimum (80 when none or 0 is configured), in the original order |
| Hits.WithoutShortHitsIdempotent | src/Core.js:228-234 | filtering short hits twice is filtering once |
| Hits.RemoveShortHits | src/Core.js:228-234 | the list afterwards is the short-hit filter of the old list |
| Hits.IsCompleteMatch | src/Core.js:238-239 | definition: the hit's gene span plus one equals the configured gene length; a gene without a length has no complete hit |
| Hits.CompleteFamiliesMembership | src/Core.js:236-250 | a family counts as complete exactly when one of its hits spans the whole gene length |
| Hits.FamiliesWithHits | src/Core.js:252-254 | every hit's family is collected (the converse proved in FamiliesWithHitsMembership) |
| Hits.FamiliesWithHitsMembership | src/Core.js:252-254 | a family has hits exactly when some hit names it |
| Hits.GroupByFamilyMeaning | src/Core.js:256-274 | the grouping has one key per family with hits, holding exactly that family's hits in order |
| Hits.GroupStep | src/Core.js:256-274 | adding one hit extends its family's group by that hit |
| Core.MarkFull | src/Core.js:236-250 | every hit is marked with whether it is complete |
| Core.PartialHitsMeaning | src/Core.js:236-250 | survivors carry their completeness mark; a hit survives exactly when it is complete or its family has no complete hit; no hit is invented; survivors of complete families are complete |
| Core.PartialHitsKeepFamilies | src/Core.js:236-250 | removing partial hits never loses a family |
| Core.Place | src/Core.js:60-82 | definition: a record is placed at `hitStart` plus its reference offset, and on the contig at `queryStart` plus its query offset, or `queryEnd` minus it on a reverse hit |
| Core.Locate | src/Core.js:60-82 | each merged variant is placed at reference and query coordinates |
| Core.ComplementInjective | src/Core.js:60-82 | two rows have the same complement exactly when they are equal |
| Core.Annotated | src/Core.js:60-82 | definition: the hit with its mutations set and both alignment rows removed (proved about in NoMutationsIffRowsAgree, MutationsCoverDifferences) |
| Core.NoMutationsIffRowsAgree | src/Core.js:60-82 | a hit has no mutations exactly when its hit and query rows are identical, in either orientation |
| Core.MutationsInOrder | src/Core.js:60-82 | mutations ascend in reference position; query positions ascend on a forward hit and descend on a reverse one |
| Core.MutationsCoverDifferences | src/Core.js:60-82 | the annotated mutations carry exactly the differing bases of the oriented rows, one mutation per merged record |
| Core.AnnotateAll | src/Core.js:256-274 | every hit is annotated in place of itself |
| Core.Filtered | src/Core.js:256-274 | definition: the partial-hit, short-hit and overlap filters applied in `getCore`'s order |
| Core.FilteredKeepsAlignments | src/Core.js:256-274 | the filters keep the alignment rows that annotation needs |
| Core.CoreHitsAnnotated | src/Core.js:256-274 | hits in the core carry mutations and a completeness mark, have no alignment rows left and are not short |
| Core.FilteredMarkedLong | src/Core.js:256-274 | every filtered hit carries a completeness mark and is not short |
| Core.CoreHitsDoNotOverlap | src/Core.js:256-274 | no two core hits overlap by the minimum |
| Core.CoreOf | src/Core.js:256-274 | definition: the summary and the profile grouped by family from the filtered, annotated hits (proved about in CoreOfMeaning) |
| Core.CoreOfMeaning | src/Core.js:256-274 | the profile's families are exactly the families with core hits, the summary counts them, and the assembly and species identifiers are copied |
| Core.Core.constructor | src/Core.js:4-6 | the configuration is kept |
| Core.Core.RemovePartialHits | src/Core.js:236-250 | the list afterwards is the partial-hit filter of the old list |
| Core.Core.AddMutations | src/Core.js:60-82 | the hit returned is the annotated hit |
| Core.Core.AddAllMutations | src/Core.js:256-274 | every hit is annotated, in order |
| Core.Core.GetCore | src/Core.js:256-274 | the list ends as the filtered, annotated hits and the result is the specification core of the old list |
| Blast.ReformatHsp | src/Blast.js:67-90 | definition: one pair as a hit record, gene ends ascending and `reverse` set when BLAST gave them descending (proved about in ReformatHitMeaning) |
| Blast.ReformatHit | src/Blast.js:62-91 | one hit per high-scoring pair, in order |
| Blast.ReformatHitMeaning | src/Blast.js:62-91 | each hit spans the pair's hit coordinates in ascending order; it is reverse exactly when hit-from exceeds hit-to; identity times length is 100 times the identical bases; the rows, the family and the contig are copied |
| Blast.LegacyPlace | src/Blast.js:146-170 | definition: the older placement, counting the gene position from `hitEnd` when the gene ends are descending (proved about in LegacyAnnotationIsForward) |
| Blast.LegacyLocate | src/Blast.js:146-170 | each variant is placed with the older coordinate rule |
| Blast.LegacyAnnotationIsForward | src/Blast.js:146-170 | on a hit stored with start no later than end, the older annotation is the current one taken as a forward hit |
| Blast.ReformattedHitsAnnotatedForward | src/Blast.js:62-170 | every reformatted hit is annotated by the older rule as if it were forward, whatever its strand |
| Blast.MarkFullAppend | src/Blast.js:324-333 | marking completeness distributes over appending a hit |
| Blast.DropCommutesWithMark | src/Blast.js:324-333 | dropping partial hits and then marking equals marking the survivors of the older filter |
| Blast.PartialFiltersAgree | src/Blast.js:324-333 | the older partial-hit filter keeps the same hits as the current one |
| Blast.BlastParser.constructor | src/Blast.js:52-54 | the configuration is kept |
| Blast.BlastParser.AddMutations | src/Blast.js:146-170 | the hit returned is the older annotation of the hit |
| Blast.BlastParser.RemovePartialHits | src/Blast.js:324-333 | the list afterwards is the older partial-hit filter of the old list |
| Fp.Fewest | src/Fp.js:19-32 | the position of the allele kept for a gene lies among the alleles; FewestMeaning proves it is the first of those with the fewest substitutions |
| Fp.FewestMeaning | src/Fp.js:19-32 | the chosen allele has the fewest substitutions, and it is the first of those with that count |
| Fp.FewestStep | src/Fp.js:21-32 | one more allele replaces the choice only when it has strictly fewer substitutions |
| Fp.BoundsForMeaning | src/Fp.js:17-43 | a gene has bounds exactly when it has alleles, and its bounds are those of its first allele with the fewest substitutions |
| Fp.BoundsOnStep | src/Fp.js:19-32 | filing one more gene sets that gene's bounds when it has alleles |
| Fp.FileAllMeaning | src/Fp.js:33-40 | the names filed under a gene, position and base grow by this reference exactly when one of its substitutions records that base there; positions and bases are created only for such records |
| Fp.FileAllAgain | src/Fp.js:33-40 | filing substitutions already filed under this name changes nothing |
| Fp.FiledGenesStep | src/Fp.js:19-41 | a gene is touched exactly when it has a chosen allele with substitutions |
| Fp.FiledAtStep | src/Fp.js:19-41 | filing one gene leaves the other genes alone |
| Fp.FiledOnStep | src/Fp.js:19-41 | filing a gene replaces its positions with the specification filing of its chosen substitutions |
| Fp.Filed | src/Fp.js:17-43 | definition: the index after filing a reference's core; FiledNames, FiledTwice and FiledOnNothing state what it holds |
| Fp.FiledNames | src/Fp.js:17-43 | after filing a core, a gene/position/base holds the old names plus this reference exactly when the chosen allele of that gene records it |
| Fp.FiledTwice | src/Fp.js:17-43 | filing the same core twice is filing it once |
| Fp.FiledOnNothing | src/Fp.js:17-43 | filing no genes leaves the index unchanged |
| Fp.Sites | src/Fp.js:9-15 | definition: the (gene, position) keys of the index, which `fingerprintSize` counts |
| Fp.PairCount | src/Fp.js:9-15 | pairing a gene with each of its positions makes as many sites as positions |
| Fp.SitesOnStep | src/Fp.js:9-15 | one more gene adds its number of positions to the site count |
| Fp.Minimum | src/Fp.js:48 | the minimum is in the set and no larger than any element |
| Fp.Ascending | src/Fp.js:48 | the positions come out strictly ascending, each exactly once |
| Fp.SitesAtMeaning | src/Fp.js:50-56 | one site per listed position, holding that position's bases |
| Fp.SitesOfMeaning | src/Fp.js:47-57 | a gene's sites are strictly ascending by position, each carries its position's bases, and every position appears |
| Fp.ProfileStep | src/Fp.js:47-57 | exporting one more gene keeps the exported part correct |
| Fp.ProfileOf | src/Fp.js:45-59 | the exported profile has exactly the index's genes (positions and bases proved in ProfileMeaning) |
| Fp.ProfileOfEach | src/Fp.js:45-59 | a profile that exports every gene correctly is the specification profile |
| Fp.ProfileMeaning | src/Fp.js:45-59 | the profile has exactly the index's genes, each with its positions in strictly ascending order and with their bases |
| Fp.Entries | src/Fp.js:64-82 | definition: the bases `_score` counts, at the profile's positions within the gene's bounds |
| Fp.MatchedFor | src/Fp.js:76-80 | definition: the counted bases listed for a reference that the index also has at that gene and position |
| Fp.ReferencedStep | src/Fp.js:69-75 | one more counted base adds its references to the scored references |
| Fp.MatchedStep | src/Fp.js:76-80 | one more counted base adds a match for a reference exactly when the index has that base and the reference is listed under it |
| Fp.TallyStep | src/Fp.js:66-82 | processing one more base in bounds keeps the tallies equal to their specification |
| Fp.EntryIn | src/Fp.js:65-68 | a base is counted exactly when its position lies within the gene's bounds (0 to 0 when none are given) |
| Fp.MatchedAtMostCounted | src/Fp.js:61-91 | no reference matches more sites than were counted |
| Fp.Ranks | src/Fp.js:93-99 | definition: the comparator of `_bestScore`, a higher ratio first, then the smaller reference id |
| Fp.SharedCountRanksByMatches | src/Fp.js:85-99 | with the same number of counted sites, the score order is the order of matched sites, ties included |
| Fp.EntriesUpToSkip | src/Fp.js:67-68 | a position outside the bounds adds no counted bases |
| Fp.EntriesUpToNext | src/Fp.js:66-83 | a position in bounds adds its bases to the counted bases |
| Fp.EntriesOnStep | src/Fp.js:64-84 | one more gene adds its counted bases |
| Fp.EntriesAtStep | src/Fp.js:69-82 | one more base of a position is a new counted entry |
| Fp.SiteStep | src/Fp.js:69-82 | the tallies after one more base match the specification over the enlarged set |
| Fp.GeneStep | src/Fp.js:66-83 | walking a gene's sites adds exactly the counted bases of that gene |
| Fp.KeepFewest | src/Fp.js:19-32 | the loop keeps the first allele with the fewest substitutions, returning its substitutions and bounds, or none for no alleles |
| Fp.ListSites | src/Fp.js:48-56 | the loop lists the gene's sites, ascending |
| Fp.TallySite | src/Fp.js:69-82 | after one site the tallies equal the specification over the bases seen so far |
| Fp.TallyGene | src/Fp.js:64-84 | after one gene the tallies equal the specification over that gene's counted bases as well |
| Fp.ExportProfile | src/Fp.js:45-59 | the export loop builds the specification profile |
| Fp.Fp.constructor | src/Fp.js:5-7 | the index starts as given |
| Fp.Fp.FingerprintSize | src/Fp.js:9-15 | the size is the number of (gene, position) sites in the index |
| Fp.Fp.FileSubstitutions | src/Fp.js:33-40 | the gene's positions become its specification filing, and nothing changes for no substitutions |
| Fp.Fp.AddCore | src/Fp.js:17-43 | the index becomes the core's specification filing, and the bounds returned are each gene's chosen bounds |
| Fp.Fp.GetProfile | src/Fp.js:45-59 | the profile returned is the specification profile of the index |
| Fp.Fp.Score | src/Fp.js:61-91 | one record per scored reference, each id once; the scored references are those listed under a counted base; every record carries the shared count of bases in bounds and its own count of those bases the index also has; every record has a positive count, so its ratio is defined |
| Fp.Fp.Tallies | src/Fp.js:62-84 | the walk over genes, positions and bases returns the count of bases in bounds and, per scored reference, the number of those bases the index also has |
| Fp.Fp.BestScore | src/Fp.js:93-99 | none exactly for no scores; otherwise one of the scores that ranks no later than every score (higher ratio, then smaller reference id) |
| Fp.ReferencedCounted | src/Fp.js:69-81 | a reference is scored only if some base was counted, so `countedSites` is positive wherever a record exists |
| Fp.ScoreRecords | src/Fp.js:85-90 | the records are one per tallied reference, each id once, carrying its tally and the shared count |
| Fp.BestHasMostMatches | src/Fp.js:85-99 | among records sharing the count, the best-ranked one has the most matched sites and, among those, the smallest reference id |
| Filter.KeyBy | src/Filter.js:10-17 | definition: the substitutions keyed by gene position, a later one at a position replacing an earlier one, as `_.keyBy` does (proved about in KeyByMeaning, KeyByIgnoresOthers) |
| Filter.KeyByMeaning | src/Filter.js:10-17 | a position is keyed exactly when a substitution is recorded there, and it keys the last such substitution's base |
| Filter.KeyByIgnoresOthers | src/Filter.js:10-17 | insertions and deletions do not affect the keyed positions |
| Filter.Distance | src/Filter.js:9-30 | definition: the number of positions at which the two keyed substitution maps differ (proved about in DistanceSymmetric, DistanceZero, DistanceTriangle) |
| Filter.DistanceSymmetric | src/Filter.js:9-30 | the distance does not depend on which allele is first |
| Filter.DistanceZero | src/Filter.js:9-30 | the distance is 0 exactly when both alleles key the same substitutions |
| Filter.DistanceIgnoresOthers | src/Filter.js:9-30 | the distance counts substitutions only |
| Filter.DistanceTriangle | src/Filter.js:9-30 | the distance obeys the triangle inequality |
| Filter.DifferingOnStep | src/Filter.js:24-28 | one more position adds one exactly when the two bases there differ |
| Filter.CompareMutations | src/Filter.js:9-30 | the loop returns the specification distance |
| Filter.DistanceExamples | src/Filter.js:9-30 | an insertion against a substitution counts 1, and deletions alongside equal substitutions count 0 |
| Filter.Row | src/Filter.js:35-43 | a row holds one entry per reference allele, with its distance |
| Filter.TableMembers | src/Filter.js:34-44 | the table holds exactly one entry per query/reference pair, carrying its distance |
| Filter.TableOrdered | src/Filter.js:34-44 | the table is in query-major, reference-minor order |
| Filter.DifferencesMeaning | src/Filter.js:34-44 | the differences table holds exactly the distance of each pair, in push order |
| Filter.SortedTable | src/Filter.js:45 | definition: `_.sortBy` on the distance, a stable insertion sort (proved about in SortedTableMeaning, SortedTableMembers) |
| Filter.SortedTableMeaning | src/Filter.js:45 | the sort is a permutation, ordered by distance, and stable: entries of equal distance keep their relative order |
| Filter.SortedTableMembers | src/Filter.js:45 | the sort keeps exactly the table's entries |
| Filter.SortedDistancesMeaning | src/Filter.js:34-45 | the sorted distances are a stable sort of the differences by distance |
| Filter.Greedy | src/Filter.js:46-57 | definition: the pass over the sorted table that accepts a pair when neither its query nor its reference is paired yet (proved about in GreedyMatching, GreedyCovers, GreedyCount) |
| Filter.GreedyFromInput | src/Filter.js:46-57 | the accepted pairs and the paired indexes all come from the input |
| Filter.GreedyCount | src/Filter.js:46-57 | as many queries and references are paired as pairs accepted |
| Filter.GreedyCovers | src/Filter.js:50-52 | every input pair has its query or its reference paired |
| Filter.GreedyMatching | src/Filter.js:50-56 | the accepted pairs are a matching: no query or reference is used twice |
| Filter.AcceptedEntries | src/Filter.js:32-59 | every accepted pair is a table entry |
| Filter.Compared | src/Filter.js:32-59 | definition: the number of greedy pairs and their total distance over the sorted table (proved about in ComparedMeaning, ComparedAll) |
| Filter.ComparedMeaning | src/Filter.js:32-59 | the comparison accepts a matching of table entries and reports its size and its total distance |
| Filter.PairedInRange | src/Filter.js:46-57 | paired indexes are valid indexes |
| Filter.SortedHasEveryPair | src/Filter.js:34-45 | every query/reference pair appears in the sorted table |
| Filter.AllPaired | src/Filter.js:32-59 | the greedy pass pairs as many alleles as the smaller side has |
| Filter.ComparedAll | src/Filter.js:32-59 | the number of alleles compared is the smaller allele count |
| Filter.CompareRow | src/Filter.js:35-43 | the inner loop builds the row of distances |
| Filter.CompareAlleles | src/Filter.js:32-59 | the method returns the specification comparison |
| Filter.DistanceTable | src/Filter.js:33-44 | the nested loop builds the specification table |
| Filter.PairGreedily | src/Filter.js:46-57 | the loop returns the number and total distance of the greedy pairs |
| Filter.CompareDifferences | src/Filter.js:45 | the sort key compares distances |
| Filter.GreedySnoc | src/Filter.js:50-57 | one more pair is accepted exactly when neither of its indexes is paired |
| Filter.AmbiguousPairDistances | tests/Filter.js:138-147 | the six query/reference distances of the ambiguous test are 1, 2, 3 and 2, 5, 6 |
| Filter.AmbiguousDistances | tests/Filter.js:138-147 | the differences table of that test is those six entries in push order |
| Filter.SortedTableIs | src/Filter.js:45 | a sequence sorted by distance that keeps, for every distance, the table's entries of that distance in table order is the sort of the table |
| Filter.AmbiguousSorted | src/Filter.js:45 | `_.sortBy` puts that table in the order 1, 2 (query 0), 2 (query 1), 3, 5, 6, the tie kept in push order |
| Filter.GreedyBlocked | src/Filter.js:46-57 | on that order the greedy pass accepts the entries of distance 1 and 5 only, total 6 |
| Filter.ComparedOnTable | src/Filter.js:32-59 | given that table, the comparison reports 2 alleles and 6 differences |
| Filter.PairTotal | src/Filter.js:53-55 | two accepted entries add up their distances |
| Filter.GreedyNotOptimal | tests/Filter.js:132-176 | on the alleles of the ambiguous test, `_compareAlleles` reports 2 alleles and 6 differences, while the two table entries of distance 2 pair different queries with different references for a total of 4 |
| Pseudocontigs.Decorate | family_build_utils/overlap_merging/pseudocontig.py:9-12 | the name gets `*` when incomplete, then `-` when reverse, and nothing else |
| Pseudocontigs.Pseudocontig.constructor | family_build_utils/overlap_merging/pseudocontig.py:7-16 | one decorated name, with the contig, start and end given |
| Pseudocontigs.Pseudocontig.Extend | family_build_utils/overlap_merging/pseudocontig.py:18-24 | the decorated name is appended and the end moves; contig and start stay |
| Pseudocontigs.Undashed | family_build_utils/overlap_merging/pseudocontig.py:28 | every `-` is removed and every other character kept |
| Pseudocontigs.RealName | family_build_utils/overlap_merging/pseudocontig.py:26-29 | definition: the names without `-`, sorted and joined by `__` (proved about in RealNameOrderFree, RealNameHasNoDash) |
| Pseudocontigs.RealNameOrderFree | family_build_utils/overlap_merging/pseudocontig.py:26-29 | the real name is the same in whatever order the names were added |
| Pseudocontigs.JoinAvoids | family_build_utils/overlap_merging/pseudocontig.py:29 | joining never introduces a character absent from parts and separator |
| Pseudocontigs.RealNameHasNoDash | family_build_utils/overlap_merging/pseudocontig.py:26-29 | the real name carries no orientation marks |
| Pseudocontigs.Orientation | family_build_utils/overlap_merging/pseudocontig.py:31-34 | definition: `-` when the alphabetically first name ends in `-`, else `+` |
| Pseudocontigs.Length | family_build_utils/overlap_merging/pseudocontig.py:44 | definition: the printed length, end minus start plus one (proved at least 1 in PseudocontigsOrdered) |
| Pseudocontigs.OrientationMeaning | family_build_utils/overlap_merging/pseudocontig.py:31-34 | the orientation is `-` exactly when the alphabetically first name ends in `-` |
| Pseudocontigs.SortMatchesMeaning | family_build_utils/overlap_merging/create_pseudo_contigs.py:16 | the matches are a permutation ordered by contig, start, end |
| Pseudocontigs.ValuesSnoc | family_build_utils/overlap_merging/create_pseudo_contigs.py:47 | appending a pseudocontig appends its value |
| Pseudocontigs.Step | family_build_utils/overlap_merging/create_pseudo_contigs.py:26-57 | definition: one loop iteration, which skips a short hit, extends when `queryStart <= current.end <= queryEnd` on the same contig, and otherwise closes the current pseudocontig unless it is the placeholder and starts a new one |
| Pseudocontigs.SweepAll | family_build_utils/overlap_merging/create_pseudo_contigs.py:22-57 | definition: the loop from the placeholder over all matches |
| Pseudocontigs.PseudocontigsOf | family_build_utils/overlap_merging/create_pseudo_contigs.py:16-60 | the output is never empty, since the last current pseudocontig is always appended (names proved in PseudocontigNames) |
| Pseudocontigs.Advance | family_build_utils/overlap_merging/create_pseudo_contigs.py:27-57 | one loop iteration performs the specification step of the sweep, extending the current pseudocontig in place or closing it |
| Pseudocontigs.CreatePseudocontigs | family_build_utils/overlap_merging/create_pseudo_contigs.py:16-60 | the pseudocontigs produced are the specification sweep of the sorted matches, ending with the last current one |
| Pseudocontigs.ShortHitsIgnored | family_build_utils/overlap_merging/create_pseudo_contigs.py:28-30 | the sweep is the same with short hits removed first |
| Pseudocontigs.AllNamesSnoc | family_build_utils/overlap_merging/create_pseudo_contigs.py:47 | the names of an appended pseudocontig follow the earlier names |
| Pseudocontigs.SweepNames | family_build_utils/overlap_merging/create_pseudo_contigs.py:22-57 | every kept match contributes its decorated name once, in sorted order; with no kept match only the placeholder remains |
| Pseudocontigs.PseudocontigNames | family_build_utils/overlap_merging/create_pseudo_contigs.py:16-60 | the names across the output are exactly the decorated names of the kept matches in sorted order, or the placeholder's when there are none |
| Pseudocontigs.NoHitsGiveSentinel | family_build_utils/overlap_merging/create_pseudo_contigs.py:22-60 | with only short hits the output is the placeholder pseudocontig alone |
| Pseudocontigs.SweepOrdered | family_build_utils/overlap_merging/create_pseudo_contigs.py:35-57 | every pseudocontig ends no earlier than it starts when every match does |
| Pseudocontigs.PseudocontigsOrdered | family_build_utils/overlap_merging/pseudocontig.py:44 | every printed length is at least 1 for well-ordered matches |
| Pseudocontigs.ContainedHitSplits | family_build_utils/overlap_merging/create_pseudo_contigs.py:41 | a hit inside the current pseudocontig starts a second pseudocontig that overlaps the first |
| Pseudocontigs.SortedPair | family_build_utils/overlap_merging/create_pseudo_contigs.py:16 | two matches already in order stay in order |
| Pseudocontigs.SeparatedSnoc | family_build_utils/overlap_merging/create_pseudo_contigs.py:44-49 | appending a pseudocontig that starts after the last one, when on the same contig, keeps consecutive pseudocontigs apart |
| Pseudocontigs.SeparatedReplaceLast | family_build_utils/overlap_merging/create_pseudo_contigs.py:41-43 | extending the last pseudocontig at its end keeps consecutive pseudocontigs apart |
| Pseudocontigs.MergedSweepSeparated | family_build_utils/overlap_merging/create_pseudo_contigs.py:26-57 | with the corrected condition, consecutive pseudocontigs of one contig never overlap, and the placeholder is current only before any kept hit |
| Pseudocontigs.DisjointSnoc | family_build_utils/overlap_merging/create_pseudo_contigs.py:44-49 | appending a pseudocontig that starts after every earlier one on its contig ends keeps every pair apart |
| Pseudocontigs.DisjointReplaceLast | family_build_utils/overlap_merging/create_pseudo_contigs.py:41-43 | extending the last pseudocontig at its end keeps every pair apart |
| Pseudocontigs.MatchLeTransitive | family_build_utils/overlap_merging/create_pseudo_contigs.py:16 | the sort order by contig, start, end is transitive |
| Pseudocontigs.SortedBounded | family_build_utils/overlap_merging/create_pseudo_contigs.py:16 | in sorted hits every hit comes no later than the last |
| Pseudocontigs.MergedSweepFollows | family_build_utils/overlap_merging/create_pseudo_contigs.py:35-57 | the current pseudocontig starts no later than any hit that follows all hits swept: its contig is earlier, or the same with a start no later |
| Pseudocontigs.ClosedDisjoint | family_build_utils/overlap_merging/create_pseudo_contigs.py:44-57 | closing the current pseudocontig before a later hit that does not join it keeps every pair apart, and all contigs so far come no later than the hit's |
| Pseudocontigs.MergedSweepDisjoint | family_build_utils/overlap_merging/create_pseudo_contigs.py:26-57 | over sorted hits the corrected sweep keeps every pair of pseudocontigs of one contig apart, and lists them in contig order |
| Pseudocontigs.MergedPseudocontigsSeparated | family_build_utils/overlap_merging/create_pseudo_contigs.py:16-60 | with the corrected condition, consecutive output pseudocontigs of a contig are apart, and so is every pair of them, consecutive or not |
| Pseudocontigs.ContainedHitMerged | family_build_utils/overlap_merging/create_pseudo_contigs.py:41 | with the corrected condition, the contained hit joins the first pseudocontig |
| Representative.Agreement | family_build_utils/overlap_merging/select_representative.py:22-28 | a column score counts at most one point per record looked at |
| Representative.Score | family_build_utils/overlap_merging/select_representative.py:20-29 | definition: a record's total, over the columns, of the other records agreeing with it (bounded in ScoreBound) |
| Representative.Scores | family_build_utils/overlap_merging/select_representative.py:11-29 | one score per record, its total over the columns |
| Representative.FirstBest | family_build_utils/overlap_merging/select_representative.py:31 | the pick has the highest score and no earlier record has it |
| Representative.Clean | family_build_utils/overlap_merging/select_representative.py:36 | the output has no gap and no lower-case letter, and every other character appears upper-cased |
| Representative.AgreeingRecords | family_build_utils/overlap_merging/select_representative.py:22-28 | the inner loop returns the column score, or none exactly when some record is too short |
| Representative.SelectRepresentative | family_build_utils/overlap_merging/select_representative.py:11-36 | the script's loops print the specification choice, or fail exactly where it does |
| Representative.RepresentativeOf | family_build_utils/overlap_merging/select_representative.py:11-36 | definition: none on an empty alignment or a record shorter than the first, otherwise the first best-scoring record with its sequence cleaned (proved about in RepresentativeIsBest, RepresentativeFails) |
| Representative.RepresentativeIsBest | family_build_utils/overlap_merging/select_representative.py:31-36 | any record with the highest score and no earlier record as high is the one printed |
| Representative.RepresentativeFails | family_build_utils/overlap_merging/select_representative.py:13-27 | the script fails exactly on an empty alignment or a record shorter than the first |
| Representative.AgreementBound | family_build_utils/overlap_merging/select_representative.py:24-28 | a record agrees with at most all the other records in a column |
| Representative.ScoreBound | family_build_utils/overlap_merging/select_representative.py:20-29 | a score is at most the other records times the columns |
| Representative.UnanimousAgreement | family_build_utils/overlap_merging/select_representative.py:24-28 | in a column of one character every record agrees with all the others |
| Representative.IdenticalScores | family_build_utils/overlap_merging/select_representative.py:20-29 | identical records all reach the maximum score |
| Representative.IdenticalPicksFirst | family_build_utils/overlap_merging/select_representative.py:31-36 | of identical records the first is printed |
| Seqs.Filter | src/Core.js:228-234 | filtering keeps exactly the elements satisfying the predicate |
| Seqs.SortBySorted | src/Filter.js:45 | the insertion sort is sorted and a permutation |
| Seqs.SortByKeyStable | src/Filter.js:45 | the key sort keeps the relative order of entries with equal keys |
| Seqs.MapPermutes | family_build_utils/overlap_merging/pseudocontig.py:28 | mapping two permutations of a list gives permutations |
| Text.SortStringsSorted | family_build_utils/overlap_merging/pseudocontig.py:28 | the string sort is a sorted permutation |
| Text.SortStringsCanonical | family_build_utils/overlap_merging/pseudocontig.py:28 | two permutations of the same names sort to the same list |

## Left out

- `Filter.compare` (src/Filter.js:5-7) returns an empty object, and the model has nothing to state about it.
- Running BLAST, parsing its XML output and `reformatIteration` (src/Blast.js:1-49, 93-98, 335-345) are left out because they are process and XML input/output. `src/Utils.js`, `index.js` and `test.js` are not part of this model.
- Reading the debug JSON and FASTA files, the messages on standard error, and printing (`__repr__`, `csv`, the final `print` loops) are left out as input/output. The exception is the printed length, which `Pseudocontigs.Length` models.
- The other scripts under family_build_utils are not part of this model.
- The copies in `src/Blast.js` of `_pIdent`, `_compliment`, `_compareAlignment`, `_removeOverlappingHits` and `_removeShortHits` are textually the same as those in `src/Core.js`, so they are modelled once, by the `Alignment` and `Hits` members. `Blast` models only `reformatHit`, the older `addMutations` and `_removePartialHits`.
- The hits are values. The JavaScript filters mutate a shared array in place; `HitList` models that array, but aliasing between hit objects is not captured. Object identity in the overlap filter's `Set` is modelled by list position.
- Floating point is left out:
  - `Hits.PIdent` is an exact real quotient, not an IEEE double;
  - the score ratio in `_score` is a real;
  - `eValue` is left out because no core logic reads it.
- Enumeration order of JavaScript objects and `Set`s is left out. `Fp.Fp.AddCore` and `Fp.Fp.Score` are specified order-free, through sets and maps; the order in which `_.values` lists the score records is not modelled. The reference names under a base are a set, so the order in which `getProfile` lists them is not modelled.
- Fp.Fp.BestScore: it returns one of the best-ranked scores by a linear scan. It does not model the in-place sort of the caller's array, and it does not claim that the first of two equal candidates from that sort is returned.
- Pseudocontigs.SortMatchesMeaning: states a sorted permutation only. Python's sort is also stable, which is not stated because no property here depends on the order among fully equal keys.
- Pseudocontigs.PseudocontigNames: assumes no kept match lies on a contig named `foo`. The script uses `foo` as the placeholder contig, so such a match would be dropped along with the placeholder.
- A match without a `full` key, which raises a KeyError in the script, is not modelled: `full` is a field of every match. `filtered` is an optional type name and only `shortHit` is skipped.
- Hits.FirstLoses: compares family names by code point, where JavaScript's `>` (src/Core.js:208-210) compares UTF-16 code units; the orders differ only when a character outside the Basic Multilingual Plane meets one in U+E000 to U+FFFF.
- Fp.Ranks: compares reference ids by code point, where JavaScript's `<=`/`>` (src/Fp.js:96-97) compare UTF-16 code units; the same difference, limited to characters outside the Basic Multilingual Plane. `Fp.Fp.BestScore` inherits it.
- Representative.Clean: upper-cases ASCII letters only. Python's `str.upper` also changes other Unicode letters.
- Representative.SelectRepresentative: the FASTA dictionary is a list of records with distinct identifiers, so two records with the same identifier, which `SeqIO.to_dict` rejects, cannot be given.
- Some single source loops are split into a method per level: `ScanColumns`/`MergeVariants`, `Advance`, `AgreeingRecords`, `KeepFewest`/`ListSites`/`TallySite`/`TallyGene`/`ExportProfile`, and `DistanceTable`/`CompareRow`/`PairGreedily`. Each method's contract is stated against the same specification function.
- Filter.GreedyNotOptimal: uses the test's alleles in the order they are written. The test shuffles the alleles and their mutations first, and the other orders are not modelled.

## Findings

| source | as written | input that shows it | evidently intended | confidence | as-written member | corrected member |
|---|---|---|---|---|---|---|
| family_build_utils/overlap_merging/create_pseudo_contigs.py:41 | a match on the current contig extends the pseudocontig only when `queryStart <= current.end <= queryEnd`, so a match that ends before the current end starts a new pseudocontig | on contig `c`, a complete forward match of `famA` over 1-100, then one of `famB` over 10-50: the output has pseudocontigs 1-100 and 10-50, which overlap | a match that starts no later than the current end joins the pseudocontig, whose end becomes the larger of the two ends, so the pseudocontigs of a contig never overlap | not executed | Pseudocontigs.ContainedHitSplits | Pseudocontigs.MergedPseudocontigsSeparated |
