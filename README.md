# rank_genes_groups in Dafny

This project models scanpy's differential-expression ranking,
`rank_genes_groups` (scanpy/tools/rank_genes_groups.py), together with its
helper `_build_identifier`, and proves properties of the model.

The routine works on an annotated data matrix: `X` has samples as rows and
genes as columns, and each sample has a category label. For every selected
group it scores each gene against a reference population. The reference is
either the rest of the samples or one fixed reference group. Scoring uses a
t-test-like statistic or a Wilcoxon rank-sum statistic. The routine keeps the
`n_genes` best genes per group, best first, and stores two tables (scores
and gene names) with one column per compared group. With
`compute_distribution` it also stores, for each top gene, the standardised
residuals of the group's samples in a per-sample column.

Modules, one per file:

- `Common` (common.dfy): the result and error types, and a double that may be
  NaN (`Float`). It also holds counting over boolean sample masks, and the
  sign policy of `only_positive`.
- `Identifier` (identifier.dfy): `_build_identifier`. It also holds the decimal
  rendering Python's `str` and `str.format` give an `int`, and a parser that
  inverts both.
- `Groups` (groups.dfy): how the `groups` and `group_reference` arguments are
  turned into a group list, the test-type fallback, the sample numbers `ns`,
  each group's reference mask, which groups are scored, and the column names
  of the output.
- `TopK` (topk.dfy): `np.argpartition` followed by the reversed `np.argsort`.
  Both are modelled as one selection of the k best indices, best first.
- `TTest` (ttest.dfy): the per-gene t-test score. The in-place array passes
  (zero denominators to NaN, NaN scores to 0) are methods over arrays. It also
  holds the loop that writes the distribution columns.
- `Wilcoxon` (wilcoxon.dfy): average ranks with ties, the rank sum W, the
  normal approximation, and the loop over genes.
- `Ranking` (ranking.dfy): the two group loops, as methods proved against a
  recursive specification (`Rankings`), and the top-level method
  `RankGenesGroups`.

External collaborators become parameters:

- `utils.select_groups` is a function from the configured groups to names and
  masks. Each mask must be as long as the data has samples.
- `simple._get_mean_var` is a function from a mask to per-gene means and
  variances. For a mask with no samples it is assumed to return NaN, as
  numpy's mean over no rows does; `TTest.PooledVariance` makes the pooled
  variance NaN in that case whatever values the parameter gives.
- The square root is a function parameter. Only what IEEE arithmetic fixes is
  assumed about it: `sqrt(0) = 0`, it is positive above 0, and the square root
  of a negative number is NaN.

The model follows the code except for the three defects under
"## Findings" and the differences listed under "## Left out". Each defect is
modelled as written in members of its own, which exhibit it. The end-to-end
model (`Ranking.Prepare`, the Wilcoxon loop and `Ranking.RankGenesGroups`)
runs the corrected definitions instead. "## Left out" lists every member
affected. Other behaviour of the code the model keeps:

- An unknown `test_type` falls back to the t-test.
- Asking for more genes than exist raises numpy's `ValueError`; the columns
  are never shortened. `n_genes = 0` ranks every gene, because the slice
  `[-0:]` is the whole array.
- Ties in the top-k selection are not promised to be stable. The model picks
  the lowest index first. The tables that `Ranking.Ranked`,
  `Ranking.RankingsColumns` and `Ranking.RankGenesGroups` state are fixed to
  that choice: it decides which tied gene is kept at the cut-off and in what
  order tied genes appear. Only `TopK.Selects`, `TopK.RankedColumn` and
  `Ranking.RankedColumnProperties` state properties that hold for any order
  among ties.
- With `compute_distribution`, the Wilcoxon path fails as the code does: it
  reads `igroup`, which only the t-test loop assigns, so Python raises
  `UnboundLocalError`, a kind of `NameError`. The model reports that error once
  the first scored group has been ranked.

## Model

| member | source | states |
|---|---|---|
| Identifier.NatToString | scanpy/tools/rank_genes_groups.py:238-239 | the decimal rendering of `gene_counter` has at least one digit and starts with `0` exactly when the number is 0 |
| Identifier.NatToStringRoundTrip | scanpy/tools/rank_genes_groups.py:238-239 | parsing the digits `format` writes for a rank position gives back that position |
| Identifier.IntToStringRoundTrip | scanpy/tools/rank_genes_groups.py:68-69 | `str(n)` of an integer group label, negative or not, parses back to the same integer |
| Identifier.IntToStringInjective | scanpy/tools/rank_genes_groups.py:68-69 | two integer labels with the same string are the same label, so converting labels merges no groups |
| Identifier.NoUnderscoreInDigits | scanpy/tools/rank_genes_groups.py:238-239 | the rendered rank position contains no `_`, so it cannot shift the field boundaries of an identifier |
| Identifier.FirstUnderscoreOf | scanpy/tools/rank_genes_groups.py:238-239 | in `a + "_" + b` with no `_` in `a`, the first `_` sits right after `a` |
| Identifier.SplitFirstOf | scanpy/tools/rank_genes_groups.py:238-239 | splitting `a + "_" + b` at its first `_` gives back `a` and `b` when `a` has no `_` |
| Identifier.IdentifierRoundTrip | scanpy/tools/rank_genes_groups.py:237-239 | when the groupby key and the group name contain no `_`, the identifier parses back into groupby, name, rank position and gene name |
| Identifier.IdentifierInjective | scanpy/tools/rank_genes_groups.py:237-239 | for one groupby key and group, two (rank position, gene name) pairs with the same identifier are equal, so one group's columns never collide |
| Groups.StringifyGroups | scanpy/tools/rank_genes_groups.py:67-69 | `'all'` passes through; an empty list raises `IndexError`; a list whose first label is an int has every label turned into a string, ints parsing back to themselves and strings unchanged; a list whose first label is a string is left as it is |
| Groups.AllWithReferenceFails | scanpy/tools/rank_genes_groups.py:67-71 | with `groups='all'` and a valid reference other than `'a'` or `'l'`, the code as written raises `TypeError` at `'all' += [ref]`; the corrected set-up keeps `'all'` |
| Groups.ListedUnchanged | scanpy/tools/rank_genes_groups.py:67-75 | for an explicit list of groups, the corrected set-up agrees with the code as written on every input |
| Groups.ConfigureGroups | scanpy/tools/rank_genes_groups.py:67-75 | the corrected set-up: it fails exactly when the list is empty (`IndexError`) or the reference is not a category (`ValueError`); otherwise `'all'` stays `'all'`, and a list keeps its labels as a prefix and gains the reference at the end only when the reference was missing |
| Groups.ResolveTestType | scanpy/tools/rank_genes_groups.py:98-104 | the Wilcoxon test runs exactly for `'wilcoxon'`; the fallback is flagged exactly for names other than `'t_test'` and `'wilcoxon'` |
| Groups.CountSamples | scanpy/tools/rank_genes_groups.py:86-88 | `ns` has one entry per mask, and entry `i` is the number of samples in mask `i` |
| Groups.ReferenceIndex | scanpy/tools/rank_genes_groups.py:93 | `ireference` is the first position of the reference among the resolved groups; an absent reference raises `IndexError` |
| Groups.ReferencePopulation | scanpy/tools/rank_genes_groups.py:125-130 | the fixed reference group alone has no reference mask; under the rest policy, group and reference are disjoint, cover every sample and their counts add up to the sample number; under a fixed reference, every other group is compared with exactly the reference group's mask |
| Groups.Scored | scanpy/tools/rank_genes_groups.py:125-130 | the scored groups are valid group positions, one fewer than the groups when a fixed reference is among them |
| Groups.ScoredSpec | scanpy/tools/rank_genes_groups.py:125-130 | the fixed reference is never scored, the scored groups come in increasing order, and every other group is scored |
| Groups.SaveDistinct | scanpy/tools/rank_genes_groups.py:219-221 | filtering keeps only names of the groups, and keeps them distinct when the groups' names are distinct |
| Groups.ScoredRest | scanpy/tools/rank_genes_groups.py:125-127 | without a reference, every group is scored, in order |
| Groups.SaveStep | scanpy/tools/rank_genes_groups.py:219-221 | filtering one more group name appends it unless it is the reference |
| Groups.ScoredNamesPrefix | scanpy/tools/rank_genes_groups.py:219-221 | the names of the groups scored among the first `i` are the filtered list of the first `i` names |
| Groups.SaveKeepsAll | scanpy/tools/rank_genes_groups.py:219-220 | without a reference, the column names are the resolved groups |
| Groups.SaveDropsReference | scanpy/tools/rank_genes_groups.py:220-221 | with a reference, the reference name is not among the column names |
| Groups.OutputColumnsAligned | scanpy/tools/rank_genes_groups.py:219-228 | when only the reference position is marked, there is one column name per scored group, and name `c` is the name of the `c`-th scored group |
| Common.CountComplement | scanpy/tools/rank_genes_groups.py:127 | a mask and its negation are disjoint, and their counts add up to the sample number |
| TopK.TopK | scanpy/tools/rank_genes_groups.py:142-144 | the selection fails with `ValueError` exactly when there are no genes or fewer genes than requested; otherwise it returns `n_genes` indices, or every gene when `n_genes` is 0, all valid |
| TopK.SelectDescSelects | scanpy/tools/rank_genes_groups.py:142-143 | the descending selection from distinct candidates returns distinct candidates, in non-increasing score order, each at least as good as every candidate left out |
| TopK.Selects | scanpy/tools/rank_genes_groups.py:142-144 | the selected genes are distinct, in non-increasing score order, and no unselected gene scores above a selected one |
| TopK.RankedColumn | scanpy/tools/rank_genes_groups.py:142-145 | a score column has the window's length, does not increase down the column, and dominates every gene left out |
| TTest.Denominator | scanpy/tools/rank_genes_groups.py:137-138 | after the zero check a denominator is never exactly zero |
| TTest.TScore | scanpy/tools/rank_genes_groups.py:137-141 | a zero or NaN standard error gives the score 0; equal means give 0; with `only_positive` false the score is never negative |
| TTest.AbsoluteScores | scanpy/tools/rank_genes_groups.py:141 | with `only_positive` false the score is the absolute value of the signed score |
| TTest.ScoreSign | scanpy/tools/rank_genes_groups.py:137-141 | with a positive standard error, the signed score is positive exactly when the group mean is above the reference mean, and negative exactly when it is below |
| TTest.ReplaceZeros | scanpy/tools/rank_genes_groups.py:138 | every zero denominator in the array becomes NaN and every other entry is kept |
| TTest.ReplaceNaNs | scanpy/tools/rank_genes_groups.py:140 | every NaN score in the array becomes 0 and every other entry is kept |
| TTest.Quotients | scanpy/tools/rank_genes_groups.py:139 | a fresh array holds each gene's mean difference divided by its denominator |
| TTest.ApplySignPolicy | scanpy/tools/rank_genes_groups.py:141 | each score is kept or made absolute as `only_positive` says |
| TTest.GroupScores | scanpy/tools/rank_genes_groups.py:131-141 | one group's array passes produce, gene by gene, the denominator and the score of the per-gene definition |
| TTest.GroupStatistics | scanpy/tools/rank_genes_groups.py:108-112 | one mean/variance entry per group, each computed over that group's mask |
| TTest.ResidualRoundTrip | scanpy/tools/rank_genes_groups.py:157 | a stored residual times the denominator plus the reference mean gives back the expression value |
| TTest.DistributionColumn | scanpy/tools/rank_genes_groups.py:151-157 | the column has one entry per sample: NaN outside the group, the residual of the gene's value inside |
| TTest.KeyWritten | scanpy/tools/rank_genes_groups.py:149-158 | the key of every rank position below the count is among the keys written |
| TTest.KeyNotEarlier | scanpy/tools/rank_genes_groups.py:149-158 | the key of rank position `c` is not written by the earlier positions |
| TTest.GroupDistributions | scanpy/tools/rank_genes_groups.py:147-158 | the per-sample storage gains exactly the group's keys; other keys keep their columns; each key holds the distribution of its top gene |
| Wilcoxon.CountsPartition | scanpy/tools/rank_genes_groups.py:187 | every value is below, equal to or above a given value, which makes the average rank well defined |
| Wilcoxon.AverageRanks | scanpy/tools/rank_genes_groups.py:187 | `rank()` gives one rank per value |
| Wilcoxon.RankInvariants | scanpy/tools/rank_genes_groups.py:187 | the average ranks of N values sum to N(N+1)/2 and lie between 1 and N; equal values share a rank and a smaller value has a smaller rank |
| Wilcoxon.RankSumTotal | scanpy/tools/rank_genes_groups.py:187 | the ranks of all values sum to N(N+1)/2 |
| Wilcoxon.Column | scanpy/tools/rank_genes_groups.py:184-185 | the values of one gene over a mask number as many as the mask's samples |
| Wilcoxon.RankSumAsWrittenExtra | scanpy/tools/rank_genes_groups.py:189 | with a non-empty reference, the inclusive slice as written adds the rank of the first reference value to W |
| Wilcoxon.RankSumAsWrittenCounterexample | scanpy/tools/rank_genes_groups.py:189 | for group [0] against reference [1], W is 1 but the code sums 3 |
| Wilcoxon.TiedRanks | scanpy/tools/rank_genes_groups.py:187 | when all values are equal, none is below and all tie |
| Wilcoxon.RankSumTied | scanpy/tools/rank_genes_groups.py:187-189 | when every value ties, the corrected W (the group's n ranks) is n(n+m+1)/2 |
| Wilcoxon.RankSumAsWrittenTied | scanpy/tools/rank_genes_groups.py:187-189 | when every value ties and the reference is not empty, W as line 189 sums it is (n+1)(n+m+1)/2 |
| Wilcoxon.AllTiedScoresZero | scanpy/tools/rank_genes_groups.py:187-193 | when every value ties, the corrected score is 0: W equals the centre n(n+m+1)/2 |
| Wilcoxon.TiedAsWrittenCounterexample | scanpy/tools/rank_genes_groups.py:189-193 | one tied sample on each side gives a positive score under the code's slice and centring; with n = m the centres agree, so the slice alone causes it |
| Wilcoxon.CentringCounterexample | scanpy/tools/rank_genes_groups.py:193 | group [0] against reference [0, 0, 0]: the code's W is 5 and its score is negative; the corrected W is 2.5 and the corrected score is 0; centring the corrected W on m is negative as well |
| Wilcoxon.SeparatedAsWrittenCounterexample | scanpy/tools/rank_genes_groups.py:189-193 | group [1] against reference [0, 0, 0]: the corrected score is positive, while the code sums W = 6 and its score is negative |
| Wilcoxon.AsWrittenShift | scanpy/tools/rank_genes_groups.py:189-193 | the code's z equals the corrected z plus the rank of the first reference value and the gap (n-m)(n+m+1)/2 between the centres, both divided by the normaliser |
| Wilcoxon.RanksAmongSplit | scanpy/tools/rank_genes_groups.py:186-187 | the ranks of the concatenated values split into the group's ranks and the reference's ranks |
| Wilcoxon.RankSumsComplement | scanpy/tools/rank_genes_groups.py:186-189 | the corrected W of the group plus the corrected W of the reference is (n+m)(n+m+1)/2 |
| Wilcoxon.CentredOpposite | scanpy/tools/rank_genes_groups.py:193 | the corrected W of the group centred on n(n+m+1)/2 is minus the corrected W of the reference centred on m(n+m+1)/2 |
| Wilcoxon.SpreadSymmetric | scanpy/tools/rank_genes_groups.py:193 | the normaliser does not depend on which side is the group |
| Wilcoxon.ZOpposite | scanpy/tools/rank_genes_groups.py:193 | swapping group and reference negates the corrected z statistic |
| Wilcoxon.ScoreAntisymmetric | scanpy/tools/rank_genes_groups.py:193-194 | swapping group and reference negates the corrected signed score and keeps the corrected absolute score |
| Wilcoxon.RankSumSeparated | scanpy/tools/rank_genes_groups.py:186-189 | when every group value is above every reference value, the corrected W is nm + n(n+1)/2 |
| Wilcoxon.SeparatedScorePositive | scanpy/tools/rank_genes_groups.py:183-194 | when every group value is above every reference value, the corrected W is nm + n(n+1)/2 and the corrected signed score is positive |
| Wilcoxon.RankSums | scanpy/tools/rank_genes_groups.py:183-191 | the gene loop yields, for every gene, the corrected W (the group's n ranks) of the group's values against the reference's values |
| Wilcoxon.GeneScoreFromRankSum | scanpy/tools/rank_genes_groups.py:183-194 | a gene's corrected score is the sign policy applied to the corrected W, centred on n(n+m+1)/2 and scaled by the normaliser |
| Wilcoxon.GroupScores | scanpy/tools/rank_genes_groups.py:179-194 | one group's scores fail exactly when the group or its reference is empty; otherwise each gene gets its corrected rank-sum score |
| Ranking.RestMask | scanpy/tools/rank_genes_groups.py:126-130 | a scored group's reference mask has one entry per sample |
| Ranking.TTestScoring | scanpy/tools/rank_genes_groups.py:131-141 | a scored group's t-test yields one score, denominator and reference mean per gene, no denominator zero |
| Ranking.TTestScoringsUpTo | scanpy/tools/rank_genes_groups.py:125-141 | the first `n` groups have a t-test scoring exactly when they are scored, each with one entry per gene |
| Ranking.TTestScorings | scanpy/tools/rank_genes_groups.py:125-141 | every group has a t-test scoring exactly when it is scored |
| Ranking.WilcoxonScores | scanpy/tools/rank_genes_groups.py:179-194 | a group with non-empty sides gets one corrected Wilcoxon score per gene |
| Ranking.TTestResult | scanpy/tools/rank_genes_groups.py:131-141 | a group's t-test scores, when present, have one entry per gene |
| Ranking.TTestResults | scanpy/tools/rank_genes_groups.py:125-141 | one t-test entry per group, each with one score per gene |
| Ranking.WilcoxonResult | scanpy/tools/rank_genes_groups.py:170-194 | a group's corrected Wilcoxon scores, when present, have one entry per gene |
| Ranking.WilcoxonResults | scanpy/tools/rank_genes_groups.py:168-194 | one corrected Wilcoxon entry per group, each with one score per gene |
| Ranking.ErrPersists | scanpy/tools/rank_genes_groups.py:125-199 | once a group raises, later groups do not change the outcome |
| Ranking.RankingsColumns | scanpy/tools/rank_genes_groups.py:125-146 | after `n` groups there is one score column and one name column per scored group; column `c` holds the top genes of the `c`-th scored group, and under the Wilcoxon test its small-sample flag |
| Ranking.ColumnKept | scanpy/tools/rank_genes_groups.py:145-146 | appending columns keeps the earlier columns |
| Ranking.ColumnAdded | scanpy/tools/rank_genes_groups.py:145-146 | the appended column holds the group's ranked scores and gene names |
| Ranking.RankingsError | scanpy/tools/rank_genes_groups.py:142 | the loop fails exactly when a scored group's scoring fails or, once a group is scored, when the selection is infeasible; the error is a `ValueError` or that group's error |
| Ranking.TTestNeverFails | scanpy/tools/rank_genes_groups.py:131-141 | no group's t-test scoring fails |
| Ranking.WilcoxonFailures | scanpy/tools/rank_genes_groups.py:175-193 | a Wilcoxon scoring fails exactly for a scored group with an empty side, and then with the zero-normaliser error (the model's stop, see Wilcoxon.GroupScores under Left out) |
| Ranking.RankedColumnProperties | scanpy/tools/rank_genes_groups.py:142-146 | a ranked column has the window's length, does not increase, pairs each score with its gene's name, and dominates the genes left out |
| Ranking.LastWriter | scanpy/tools/rank_genes_groups.py:153-158 | the last group to write a key is an earlier scored group whose keys include it |
| Ranking.StoredSkip | scanpy/tools/rank_genes_groups.py:129 | a group that is not scored leaves the per-sample storage as it was |
| Ranking.StoredStep | scanpy/tools/rank_genes_groups.py:147-158 | writing a group's columns keeps the storage invariant: exactly the keys written so far, each holding the last writer's distribution |
| Ranking.SkipStep | scanpy/tools/rank_genes_groups.py:129 | skipping the reference group leaves the tables as they were |
| Ranking.AppendStep | scanpy/tools/rank_genes_groups.py:142-146 | a scored group appends its ranked scores, names and flag |
| Ranking.ScoringStops | scanpy/tools/rank_genes_groups.py:179-193 | a failing group's scoring error is the loop's outcome |
| Ranking.SelectionStops | scanpy/tools/rank_genes_groups.py:142 | a failing top-k selection is the loop's outcome |
| Ranking.TTestGroup | scanpy/tools/rank_genes_groups.py:131-141 | one group's t-test computed from the precomputed statistics equals its scoring |
| Ranking.StoreGroup | scanpy/tools/rank_genes_groups.py:147-158 | writing a group's distributions keeps the storage invariant one group further |
| Ranking.TTestStep | scanpy/tools/rank_genes_groups.py:125-158 | one pass of the t-test loop keeps the loop invariant or yields the loop's final error; without `compute_distribution` nothing is stored |
| Ranking.TTestRankings | scanpy/tools/rank_genes_groups.py:104-158 | the t-test loop returns the specified tables, and with `compute_distribution` the storage holds every group's distributions |
| Ranking.WilcoxonGroup | scanpy/tools/rank_genes_groups.py:170-194 | one Wilcoxon group's computation equals its specified corrected scores and its small-sample flag |
| Ranking.FirstScored | scanpy/tools/rank_genes_groups.py:125-130 | no group before it is scored, and it is scored when it exists |
| Ranking.WilcoxonDistributionFails | scanpy/tools/rank_genes_groups.py:200-201 | with `compute_distribution`, the Wilcoxon test only succeeds when no group is scored |
| Ranking.WilcoxonStep | scanpy/tools/rank_genes_groups.py:168-211 | one pass of the Wilcoxon loop, on the corrected statistic, keeps the loop invariant or yields the loop's final error |
| Ranking.WilcoxonRankings | scanpy/tools/rank_genes_groups.py:160-211 | the Wilcoxon loop, on the corrected statistic, returns the specified outcome |
| Ranking.PolicyFor | scanpy/tools/rank_genes_groups.py:92-93 | without a reference each group faces the rest; with one, its first position is fixed, and an absent reference raises `IndexError` |
| Ranking.Prepare | scanpy/tools/rank_genes_groups.py:67-79 | the corrected set-up, when it succeeds, is well formed, keeps the data and gene names, and fixes a reference exactly when one is given |
| Ranking.RankGenesGroups | scanpy/tools/rank_genes_groups.py:62-234 | on the corrected set-up and Wilcoxon statistic, the routine returns the set-up error, or the score loop's error, or `IndexError` when no group is scored, or `ValueError` when a column name repeats or the column names and columns differ in number; otherwise it returns the groupby key, the groups, the column names, the tables, the flags and the fallback flag, and with the t-test and `compute_distribution` every group's distributions |
| Ranking.UniqueReferenceMarks | scanpy/tools/rank_genes_groups.py:92-93 | with distinct group names, the reference position is the only position holding the reference name |
| Ranking.NamedColumns | scanpy/tools/rank_genes_groups.py:219-228 | with distinct group names, column names, score columns and name columns number as many as the scored groups, and column `c` is named after and filled by the `c`-th scored group |
| Ranking.TTestTablesError | scanpy/tools/rank_genes_groups.py:104-158 | the t-test loop fails exactly when some group is scored and the top-k selection is infeasible, and then with `ValueError` |
| Ranking.NoFailureNoError | scanpy/tools/rank_genes_groups.py:125-199 | without a failing group, no error is attributed to a group |
| Ranking.WilcoxonTablesError | scanpy/tools/rank_genes_groups.py:160-199 | without `compute_distribution`, the Wilcoxon loop fails exactly when a scored group has an empty side or a scored group's selection is infeasible, with the zero-normaliser error (the model's stop, see Wilcoxon.GroupScores under Left out) or `ValueError` |

## Left out

- The AnnData container is reduced to its parts: the matrix, the gene names, the category list, and the `add` and `smp` entries the routine writes. `copy` and `utils.check_adata` are not modelled.
- `utils.select_groups` and `simple._get_mean_var` are parameters, so their own behaviour is not modelled.
- Sparse and dense storage are not told apart. The Wilcoxon loop calls `.todense()`, which only sparse matrices have. The model follows the sparse case; a dense `X` on that path would raise `AttributeError`.
- Logging and the `print` calls are not modelled. The Wilcoxon small-sample warning is kept as a flag per compared group.
- Arithmetic is over the reals. The `float32` and `U50` field types of the record arrays are not modelled, so rounding and name truncation are absent.
- Wilcoxon.RankSums: sums the group's n ranks, the corrected W, where line 189 also adds the first reference rank (Wilcoxon.RankSumAsWrittenExtra and Wilcoxon.AsWrittenShift give the difference).
- Wilcoxon.GeneScoreFromRankSum: states the corrected score, which centres on n(n+m+1)/2 where line 193 centres on m(n+m+1)/2.
- Wilcoxon.RankSumTied: states the corrected W; the code's W on tied values is in Wilcoxon.RankSumAsWrittenTied.
- Wilcoxon.CentredOpposite: holds for the corrected W and centring only; the code's statistic is not antisymmetric.
- Wilcoxon.ZOpposite: holds for the corrected z only.
- Wilcoxon.ScoreAntisymmetric: holds for the corrected score only.
- Wilcoxon.RankSumSeparated: states the corrected W; the code adds the first reference rank to it.
- Wilcoxon.SeparatedScorePositive: holds for the corrected score only; Wilcoxon.SeparatedAsWrittenCounterexample shows the code's score can be negative.
- Ranking.WilcoxonGroup: computes the corrected scores of lines 183-194, not the as-written slice and centring.
- Ranking.WilcoxonScores: builds every score from the corrected slice and centring, not lines 189 and 193 as written.
- Ranking.WilcoxonResult: builds the group's scores from the corrected slice and centring, not lines 189 and 193 as written.
- Ranking.WilcoxonResults: builds every group's scores from the corrected slice and centring, not lines 189 and 193 as written.
- Ranking.WilcoxonStep: one pass on the corrected statistic.
- Ranking.WilcoxonRankings: builds the tables from the corrected statistic.
- Ranking.Prepare: uses the corrected set-up, so `groups='all'` with a reference succeeds where line 71 raises `TypeError` (Groups.AllWithReferenceFails).
- Ranking.RankGenesGroups: runs the corrected set-up and the corrected Wilcoxon statistic; everything else, including the errors of `np.rec.fromarrays`, follows the code except as listed in this section.
- Groups.ConfigureGroups: uses the corrected set-up: `'all'` with a reference stays `'all'` where line 71 raises `TypeError` (Groups.AllWithReferenceFails). Also, line 71 extends the caller's own `groups` list in place when it holds strings (line 69 copies only integer labels), so after the call the caller's list also holds the reference. The model builds a new sequence and does not capture this aliasing.
- Wilcoxon.GroupScores: uses the corrected slice and centring. Also, a group or reference without samples makes the code divide by `sqrt(0)`, giving infinities or NaN; the model stops with a zero-normaliser error instead.
- TopK.TopK: numpy fixes no order among equal scores, and the model takes the lowest index first. Only properties that hold for every order among ties are stated.
- Groups.ResolveTestType: line 104 compares with `is`, which relies on string interning; the model compares by value.
- Building the record arrays is reduced to its three failures: no columns (`IndexError`), a repeated field name and a field count that differs from the column count (both `ValueError`). The arrays' contents and dtypes are not modelled.
- Entries written to `adata` before an exception are not modelled. The model returns the error alone.
- The experimental `scanpypd` preprocessing package is not part of this model.

## Findings

| source | as written | input that shows it | evidently intended | confidence | as-written member | corrected member |
|---|---|---|---|---|---|---|
| scanpy/tools/rank_genes_groups.py:67-71 | `groups_order += [group_reference]` also runs when `groups` is the string `'all'` | the default `groups='all'` with any valid `group_reference` other than `'a'` or `'l'` raises `TypeError` | add the reference only to an explicit list; `'all'` already contains it | not executed | Groups.AllWithReferenceFails | Groups.ConfigureGroups |
| scanpy/tools/rank_genes_groups.py:189 | `ranks.loc[0:n_active]` includes the label `n_active`, so W also counts the first reference sample | group [0] against reference [1]: W should be 1, the code sums 3 | sum the ranks of the group's `n_active` rows only | not executed | Wilcoxon.RankSumAsWrittenCounterexample | Wilcoxon.RankSumsComplement |
| scanpy/tools/rank_genes_groups.py:193 | W is centred on `m*(n+m+1)/2`, the mean of the reference's rank sum | group [0] against reference [0, 0, 0], all values tied: the code's W is 5 and its centre 7.5, so the code scores a difference where none exists | centre on `n*(n+m+1)/2`, the mean of the group's rank sum | not executed | Wilcoxon.CentringCounterexample | Wilcoxon.AllTiedScoresZero |
