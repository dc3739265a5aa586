# Amino-acid caller: the codon-level variant-calling pass

This project is a Dafny model of the variant-calling pass of Juliet's
`AminoAcidCaller` (`src/AminoAcidCaller.cpp`). Each target gene is walked
codon start by codon start. At every locus:

- the aligned read rows are scanned into a codon tally and a coverage;
- the reference codon is read from the reference sequence, or taken as the majority codon of the tally;
- every codon that is not synonymous with the reference is tested;
- the raw p-value is multiplied by the number of tests and clamped at 1;
- accepted calls are grouped by amino acid, each labelled with the known drug-resistance mutations (DRMs) at its codon position.

The model also covers:

- the pre-pass that counts the tests (the Bonferroni factor);
- the DRM label builder;
- the confusion-matrix tally kept against the expected minor variants;
- the choice of the context columns reported around a call.

Modules:

- `Types`: the translation table, the error estimates, the target genes with their minors and DRMs, and the variant records.
- `CodonOrder`: the key order of a `std::map<std::string, int>` (lexicographic), and a method listing a tally's keys in that order.
- `Scanner`: which positions are codon starts, and what a read row contributes at a locus. It holds `ScanLocus`, the row loop of one locus, and `CountNumberOfTests`, with its specification as a sum over genes and codon starts.
- `Tester`:
  - the codon probability of the error model;
  - the clamped corrected p-value;
  - the variable-site rule (`5 * count < 4 * coverage`, the 0.8 share threshold);
  - the acceptance rule;
  - the expected-minor predictor;
  - the confusion tally, a class with four counters;
  - the majority-codon loop.
- `Drms`: `FindDRMs` and the label it builds.
- `Caller`: the class `AminoAcidCaller` with its fields `variantGenes`, `curVariantGene`, `geneName` and `geneOffset`. Its methods follow the nested loops of `CallVariants`: genes, then codon starts, then codons of the tally. Each is proved against ghost predicates that say what record every codon start receives (`PositionSpec`, `GeneSpec`, `GenesSpec`).

Four behaviours of the code that the model keeps as written:

- **Coverage counts gapped and unrecognised triplets.** In the code, `++coverage` comes before the gap check and the table check (lines 238-246).
- **A locus whose reference codon is not in the translation table keeps its entry.** Line 225 creates its entry before the check. The entry is kept, with its reference codon and no amino acid (`Caller.Unresolved`).
- **The variable-site test uses the share of the codon under test** (line 193).
- **Ties between majority codons go to the lexicographically smallest.** This follows from the `std::map` iteration order and the strict `>` (lines 258-265).

## Model

| member | source | states |
|---|---|---|
| Scanner.CodonStarts | src/AminoAcidCaller.cpp:214-224 | a position of `[begin, end-2)` is examined iff it is `begin + 3k` for some codon start k; then its codon index is `k + 1` |
| Scanner.StartsBelowEnd | src/AminoAcidCaller.cpp:214 | when the position loop of a gene ends, every one of its codon starts has been visited |
| Scanner.ReadTriplet | src/AminoAcidCaller.cpp:88-104 | a row yields a valid triplet only if all three bases lie in the row, none is a pad or a gap, and the triplet is a key of the table; it is out of window iff the guard `0 <= bi && bi + 2 < |row|` fails |
| Scanner.CoverageCounts | src/AminoAcidCaller.cpp:236-248 | a row counts toward coverage iff it reaches the codon without a pad, whether its triplet is valid, gapped or unrecognised |
| Scanner.ValidCodonsMembers | src/AminoAcidCaller.cpp:229-248 | a codon is tallied iff some row yields it as a valid triplet |
| Scanner.TallyWithinCoverage | src/AminoAcidCaller.cpp:236-248 | the sum of the tally's counts never exceeds the coverage |
| Scanner.CountWithinCoverage | src/AminoAcidCaller.cpp:236-248 | each codon's count is at most the coverage |
| Scanner.TallyFacts | src/AminoAcidCaller.cpp:227-249 | every tallied codon is a triplet of the table, read from some row, with a count between 1 and the coverage |
| Scanner.ScanLocus | src/AminoAcidCaller.cpp:227-249 | the row loop returns exactly the tally of valid triplets and the coverage of the rows that reach the codon |
| Scanner.CountGeneTests | src/AminoAcidCaller.cpp:79-107 | the position loop of one gene sums the number of distinct valid triplets over the gene's codon starts |
| Scanner.CountNumberOfTests | src/AminoAcidCaller.cpp:75-110 | the result is the number of distinct valid triplets summed over all genes and all their codon starts |
| Scanner.NumberOfTestsAppend | src/AminoAcidCaller.cpp:75-110 | the number of tests of a concatenated gene list is the sum of the numbers of tests of the two parts |
| Scanner.NumberOfTestsMonotone | src/AminoAcidCaller.cpp:75-110 | adding genes before or after never lowers the number of tests |
| Scanner.GuardsDiffer | src/AminoAcidCaller.cpp:236 | the guard of the tally loop admits exactly one case more than the guard of the test counter (line 91): a row that ends right before the codon's third base |
| Scanner.PadCheckAsWritten | src/AminoAcidCaller.cpp:231-237 | defines the outcome of the tally loop's guard and pad check as written: the row is skipped, passes, or `row.at` throws, with the three `at` calls evaluated left to right and stopping at the first pad |
| Scanner.AsWrittenThrowsExactly | src/AminoAcidCaller.cpp:231-237 | as written, the pad check throws iff the row ends right before the third base and neither of the first two bases is a pad; otherwise it passes exactly the rows that reach the codon |
| Scanner.AsWrittenThrowsOnShortRow | src/AminoAcidCaller.cpp:231-237 | the row "AC" at offset 0 makes the pad check as written throw; the corrected guard skips it and it does not count toward coverage |
| CodonOrder.LexLessTotal | src/AminoAcidCaller.cpp:260 | two different codon strings are ordered one way or the other, as the keys of a `std::map` are |
| CodonOrder.LexLessTransitive | src/AminoAcidCaller.cpp:260 | the key order is transitive |
| CodonOrder.SortedKeys | src/AminoAcidCaller.cpp:260 | lists exactly the keys of a tally, strictly increasing in the `std::map` order |
| Tester.CodonProbability | src/AminoAcidCaller.cpp:158-169 | defines the probability of reading codon b where the reference has codon a: the product over the three bases of the deletion rate (either base a gap), the substitution rate (bases differ) or the match rate |
| Tester.CodonProbabilityInRange | src/AminoAcidCaller.cpp:158-169 | the product of the three per-base probabilities lies in [0, 1] when the three error rates do |
| Tester.CodonProbabilityExtremes | src/AminoAcidCaller.cpp:158-169 | for gap-free codons: equal codons give match³; codons that differ at every base give substitution³ |
| Tester.CorrectedP | src/AminoAcidCaller.cpp:276-283 | the corrected p-value never exceeds 1. It is the raw p-value times the number of tests, unless that product exceeds 1. It is non-negative when the raw value is |
| Tester.IsVariableSite | src/AminoAcidCaller.cpp:193-194 | defines a variable site as one where the tested codon's count is below 0.8 of the coverage, written `5 * count < 4 * coverage` |
| Tester.Accepted | src/AminoAcidCaller.cpp:288 | defines the acceptance rule: `p < alpha`, and, when expected minors are configured, also a variable site |
| Tester.VariableSiteIsShareBelowFourFifths | src/AminoAcidCaller.cpp:193-194 | the integer rule `5 * count < 4 * coverage` holds iff `count / coverage < 0.8` |
| Tester.Frequency | src/AminoAcidCaller.cpp:291 | the frequency times the coverage is the count, and it lies in (0, 1] when 0 < count <= coverage |
| Tester.Predictor | src/AminoAcidCaller.cpp:182-192 | true iff some expected minor matches the codon position, the first character of its amino acid, and the codon |
| Tester.PerformanceTally.Measure | src/AminoAcidCaller.cpp:177-210 | returns whether the site is variable. On a variable site exactly one counter goes up, the one that significance and the predictor select; otherwise no counter changes |
| Tester.IsMajority | src/AminoAcidCaller.cpp:258-265 | defines the majority codon of a tally: a codon of maximal count, the first in key order among equals, and "" for an empty tally |
| Tester.MajorityCodon | src/AminoAcidCaller.cpp:258-265 | the argmax loop over the tally in key order returns a codon of maximal count that sorts first among equals, or "" for an empty tally |
| Tester.MajorityUnique | src/AminoAcidCaller.cpp:258-265 | exactly one codon satisfies the majority rule |
| Tester.EmptyTallyHasNoReference | src/AminoAcidCaller.cpp:266-269 | the majority "" of an empty tally is not in a table of triplets, so that locus gets no amino acid and no test |
| Drms.FindDRMs | src/AminoAcidCaller.cpp:112-130 | the label is that of the first gene with the name: the names of its DRMs involving the position, in list order, appended with " + " |
| Drms.SummaryIsJoined | src/AminoAcidCaller.cpp:116-124 | with non-empty names, the label built left to right is the names joined by " + " |
| Drms.SummaryEmpty | src/AminoAcidCaller.cpp:122-123 | the label is empty iff every appended name is empty |
| Drms.MatchingNamesMembers | src/AminoAcidCaller.cpp:119-124 | a name is in the label's list iff some DRM of the gene has that name and involves the position |
| Drms.FirstNamed | src/AminoAcidCaller.cpp:117-127 | finds the first gene with the name, or reports that none has it |
| Drms.DrmLabelEmpty | src/AminoAcidCaller.cpp:112-130 | the label is empty when no gene has the name, or when no DRM of the first such gene involves the position |
| Drms.DrmLabelIgnoresLater | src/AminoAcidCaller.cpp:117-127 | genes after the first one with the name do not change the label |
| Caller.Genes | src/AminoAcidCaller.cpp:139-142 | the gene list is never empty: without configured genes it is the whole window as "unknown" |
| Caller.Substr | src/AminoAcidCaller.cpp:252 | `substr(ai, 3)` succeeds iff `0 <= ai <= |reference|`, and then gives at most three bases starting at ai |
| Caller.GeneOkIff | src/AminoAcidCaller.cpp:214-252 | the reference lookup succeeds at every codon start of a gene iff it succeeds at the first and at the last one |
| Caller.PValue | src/AminoAcidCaller.cpp:276-283 | the corrected p-value of a tallied codon is the exact test of (count, coverage, expected count, coverage) times the number of tests, clamped, so it never exceeds 1 |
| Caller.ReferenceCodon | src/AminoAcidCaller.cpp:251-271 | defines the reference codon of a codon start: the `substr(i - 1, 3)` of the reference sequence when one is configured, otherwise the majority codon of the tally |
| Caller.ExpectedCountInRange | src/AminoAcidCaller.cpp:278 | the expected count `coverage * P(ref -> codon)` lies between 0 and the coverage |
| Caller.UnresolvedSpec | src/AminoAcidCaller.cpp:251-270 | a reference codon outside the table gives the entry with that codon, no amino acid, no calls and no context |
| Caller.ResolvedSpec | src/AminoAcidCaller.cpp:299-300 | a resolved locus with no calls keeps coverage 0 and no context; with calls, it records the coverage and the context offsets |
| Caller.Reported | src/AminoAcidCaller.cpp:273-288 | defines a reported codon: tallied, translating to another amino acid than the reference codon, and passing the acceptance rule with its corrected p-value |
| Caller.Call | src/AminoAcidCaller.cpp:289-293 | defines the record of a reported codon: the codon, its count over the coverage, its corrected p-value and the DRM label of its gene at its codon index |
| Caller.Unresolved | src/AminoAcidCaller.cpp:252-255 | defines the entry left at a codon start whose reference codon is not in the table (also lines 266-268): that codon, no amino acid, coverage 0, no calls and no context |
| Caller.ReportedCall | src/AminoAcidCaller.cpp:288-293 | the record of an accepted codon is never synonymous with the reference and so never the reference codon. Its p-value is below alpha and at most 1. Its frequency times the coverage is its count |
| Caller.CallRecordMeaning | src/AminoAcidCaller.cpp:273-297 | every record in the list of an amino acid is a tallied codon that translates to it. It differs from the reference amino acid, has p below alpha and at most 1, and has its coverage share as frequency |
| Caller.ListedIffReported | src/AminoAcidCaller.cpp:285-297 | once all codons of the tally are tested, a codon is listed iff it is non-synonymous and passes the acceptance rule |
| Caller.Kept | src/AminoAcidCaller.cpp:151-152 | the records pushed when a gene is closed: the gene record itself iff it has positions, otherwise none |
| Caller.NonEmpty | src/AminoAcidCaller.cpp:332-333 | the records pushed when the genes are closed in order: at most one per gene, each one of the records, and only records with positions |
| Caller.KeptIffCodonStart | src/AminoAcidCaller.cpp:151-152 | a gene's record is pushed iff the gene has at least one codon start, since every codon start creates its entry (line 225) |
| Caller.ContextOffsets | src/AminoAcidCaller.cpp:301-302 | the context offsets are exactly those of -3..5 whose absolute column lies in `[BeginPos, EndPos)`, increasing |
| Caller.AminoAcidCaller.SetNewGene | src/AminoAcidCaller.cpp:148-156 | sets the gene name and offset and starts an empty record; the previous record is pushed iff it has positions |
| Caller.AminoAcidCaller.TestCodons | src/AminoAcidCaller.cpp:273-298 | after testing every codon of the tally in key order, the lists hold exactly the accepted non-synonymous codons, grouped by amino acid, each list in codon order, with their frequencies, clamped p-values and DRM labels |
| Caller.AminoAcidCaller.CallLocus | src/AminoAcidCaller.cpp:215-271 | fails iff the reference lookup `substr` (line 252) throws; otherwise it returns the entry that `PositionSpec` prescribes |
| Caller.AminoAcidCaller.CallResolved | src/AminoAcidCaller.cpp:273-321 | for a reference codon in the table, the entry holds its amino acid and the calls of `TestCodons`, plus the coverage and context when there are calls |
| Caller.AminoAcidCaller.CallGene | src/AminoAcidCaller.cpp:212-322 | pushes the previous record iff it has positions. Fails iff some codon start's lookup throws. Otherwise it builds one entry per codon start, keyed by codon index 1.. |
| Caller.AminoAcidCaller.CallGenes | src/AminoAcidCaller.cpp:212-323 | calls the genes in order. It fails iff some gene's lookup throws; otherwise one record per gene, and the records with positions follow those already kept |
| Caller.AminoAcidCaller.CallVariants | src/AminoAcidCaller.cpp:131-334 | the pass fails iff the reference lookup `substr` (line 252) throws at some codon start; the other two throws of the source are not failures of the model (see Left out). Otherwise every gene gets the record `GeneSpec` prescribes, with the number of tests of the whole gene list, and exactly the records with positions are appended, in gene order |

## Left out

- The exact test (`Statistics::Fisher::fisher_exact_tiss`, lines 276-281) is a floating-point statistical routine from another library. It is the function-valued field `fisher` of `Caller.Input`, and nothing is assumed about its values.
- Integer width: `numberOfTests` (line 77, summing `size_t` sizes at line 106), `coverage` (line 228), the tally counts of `std::map<std::string, int>`, `codonPos` and `ai` are 32-bit `int` in the source and unbounded integers in the model; overflow, which would need more than 2^31 reads or tests, is not modelled.
- Doubles (codon probability, frequency, p-value) are modelled as mathematical reals. Rounding is not modelled.
- The translation table `AAT::FromCodon` is not part of this model. It is a `map<string, char>` input whose keys are triplets.
- `TargetConfig::NumExpectedMinors` and the significance level `alpha` are not part of this model. They are the inputs `numExpectedMinors` and `alpha`.
- The by-column MSA counts, `TagToNucleotide`, the `wt` base and the JSON of the context block (lines 303-318) use types that are not part of this model. Only the choice of offsets is modelled. So the case where `referenceSequence.at(abs)` throws is not modelled either.
- The TPR/FPR/accuracy print to `std::cerr` (lines 324-331) is diagnostic output, and its denominators can be zero.
- `JSON()` (lines 336-348) is serialisation.
- The constructor's construction of the read matrix and the by-column MSA (lines 66-73) is left out. The rows, the window bounds and everything else are plain inputs of `Caller.Input`.
- Caller.AminoAcidCaller.TestCodons: does not state the new counts of the confusion tally. They feed only the diagnostic print; `Tester.PerformanceTally.Measure` states them per test.
- Caller.AminoAcidCaller.CallVariants: only the `std::out_of_range` thrown by `substr(ai, 3)` (line 252) is modelled, as `ok == false`. The throw of `row.at(bi + 2)` (line 232) is removed by the corrected guard (see the `Scanner.ScanLocus` line below and Findings). The throw of `referenceSequence.at(abs)` (line 314) is not modelled, as the context columns' contents are not (see the MSA line above). On those inputs the model returns `ok == true` with full records. No contract is given for the state left behind by a failed pass.
- Scanner.ScanLocus: uses the corrected coverage guard, so the out-of-range throw of the guard as written (line 236) is captured only by `Scanner.PadCheckAsWritten` and the lemmas about it (see Findings).
- Alternate reference codons, a DRM-only mode, a debug mode and a minimum-frequency floor are not in this version of the code, so they are not modelled.
- Haplotype clustering and outlier reweighting are not in this file and are not part of this model.

## Findings

| source | as written | input that shows it | evidently intended | confidence | as-written member | corrected member |
|---|---|---|---|---|---|---|
| src/AminoAcidCaller.cpp:236 | the tally loop skips a row only when `bi + 2 > row.size()`, so a row of length `bi + 2` passes the guard, and `row.at(bi + 2)` in the pad check throws `std::out_of_range` | the row "AC" at `bi = 0` (first two bases not pads) | skip the row, as the test counter's guard `bi + 2 >= row.size()` (line 91) does | not executed | Scanner.AsWrittenThrowsOnShortRow | Scanner.ScanLocus |
