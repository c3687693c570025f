/** The ranking routine end to end (scanpy/tools/rank_genes_groups.py,
    lines 62-234): group configuration, the shared set-up, one of the two
    score loops, and the assembly of the output tables. */
module Ranking {
  import opened Common
  import Identifier
  import Groups
  import TopK
  import TTest
  import Wilcoxon

  /** What `utils.select_groups` returns: the group names in order and one
      sample mask per group. */
  datatype Selection = Selection(order: seq<string>, masks: seq<seq<bool>>)

  /** One mask per name, each as long as the data has samples. */
  predicate Selects(sel: Selection, nSamples: nat)
  {
    |sel.order| == |sel.masks| &&
    forall i :: 0 <= i < |sel.masks| ==> |sel.masks[i]| == nSamples
  }

  /** Everything the score loops read. */
  datatype Setup = Setup(X: seq<seq<real>>, varNames: seq<string>, groupby: string,
                         order: seq<string>, masks: seq<seq<bool>>, policy: Groups.Policy,
                         nGenesUser: nat, onlyPositive: bool)

  predicate Valid(s: Setup)
  {
    Rectangular(s.X, |s.varNames|) && Selects(Selection(s.order, s.masks), |s.X|) &&
    (s.policy.Fixed? ==> s.policy.reference < |s.masks|)
  }

  /** `_get_mean_var` yields one mean and one variance per gene. */
  ghost predicate Provides(meanVar: seq<bool> -> TTest.MeanVar, nGenes: nat)
  {
    forall mask :: |meanVar(mask).mean| == nGenes && |meanVar(mask).variance| == nGenes
  }

  /** Group `g` gets a column: it is not the fixed reference group. */
  predicate IsScored(s: Setup, g: nat)
  {
    g < |s.masks| && s.policy != Groups.Fixed(g)
  }

  function RestMask(s: Setup, g: nat): (rest: seq<bool>)
    requires Valid(s) && IsScored(s, g)
    ensures |rest| == |s.X|
  {
    Groups.ReferenceMask(s.masks, g, s.policy).value
  }

  /** The top-k selection succeeds: there are genes and no more are asked for. */
  predicate Feasible(s: Setup)
  {
    0 < |s.varNames| && s.nGenesUser <= |s.varNames|
  }

  // ----- what each group's scoring yields -----

  /** Per-gene results of the t-test for one group: scores, denominators
      and the reference means. */
  datatype Scoring = Scoring(zscores: seq<real>, denominator: seq<Float>, meanRest: seq<real>)

  predicate ScoringFits(sc: Scoring, nGenes: nat)
  {
    |sc.zscores| == nGenes && |sc.denominator| == nGenes && |sc.meanRest| == nGenes &&
    forall j :: 0 <= j < nGenes ==> sc.denominator[j] != Finite(0.0)
  }

  /** Lines 131-141 for group `g`. */
  function TTestScoring(sqrt: real -> real, meanVar: seq<bool> -> TTest.MeanVar, s: Setup, g: nat): (r: Scoring)
    requires Valid(s) && Provides(meanVar, |s.varNames|) && IsScored(s, g)
    ensures ScoringFits(r, |s.varNames|)
  {
    var n := |s.varNames|;
    var rest := RestMask(s, g);
    var grp := meanVar(s.masks[g]);
    var ref := meanVar(rest);
    var ng := Count(s.masks[g]);
    var nr := Count(rest);
    Scoring(seq(n, j requires 0 <= j < n =>
                  TTest.TScore(sqrt, grp.mean[j], grp.variance[j], ng, ref.mean[j], ref.variance[j], nr, s.onlyPositive)),
            seq(n, j requires 0 <= j < n => TTest.Denominator(sqrt, grp.variance[j], ng, ref.variance[j], nr)),
            ref.mean)
  }

  predicate ScoringsFit(scs: seq<Option<Scoring>>, s: Setup)
  {
    |scs| == |s.masks| &&
    forall g :: 0 <= g < |scs| ==> (scs[g].Some? <==> IsScored(s, g)) &&
                                   (scs[g].Some? ==> ScoringFits(scs[g].value, |s.varNames|))
  }

  /** The t-test scoring of group `g`; the fixed reference group has none. */
  function TTestScoringOf(sqrt: real -> real, meanVar: seq<bool> -> TTest.MeanVar, s: Setup, g: nat)
    : (sc: Option<Scoring>)
    requires Valid(s) && Provides(meanVar, |s.varNames|) && g < |s.masks|
    ensures sc.Some? <==> IsScored(s, g)
    ensures sc.Some? ==> ScoringFits(sc.value, |s.varNames|)
  {
    if IsScored(s, g) then Some(TTestScoring(sqrt, meanVar, s, g)) else None
  }

  /** The t-test scorings of groups `0 .. n-1`. */
  function TTestScoringsUpTo(sqrt: real -> real, meanVar: seq<bool> -> TTest.MeanVar, s: Setup, n: nat)
    : (scs: seq<Option<Scoring>>)
    requires Valid(s) && Provides(meanVar, |s.varNames|) && n <= |s.masks|
    ensures |scs| == n
    ensures forall g :: 0 <= g < n ==> (scs[g].Some? <==> IsScored(s, g)) &&
                                       (scs[g].Some? ==> ScoringFits(scs[g].value, |s.varNames|))
  {
    if n == 0 then [] else TTestScoringsUpTo(sqrt, meanVar, s, n - 1) + [TTestScoringOf(sqrt, meanVar, s, n - 1)]
  }

  lemma {:induction false} TTestScoringAt(sqrt: real -> real, meanVar: seq<bool> -> TTest.MeanVar, s: Setup,
                                          n: nat, g: nat)
    requires Valid(s) && Provides(meanVar, |s.varNames|) && g < n <= |s.masks|
    ensures TTestScoringsUpTo(sqrt, meanVar, s, n)[g] == TTestScoringOf(sqrt, meanVar, s, g)
  {
    if g < n - 1 {
      TTestScoringAt(sqrt, meanVar, s, n - 1, g);
    }
  }

  /** The t-test scoring of every group. */
  function TTestScorings(sqrt: real -> real, meanVar: seq<bool> -> TTest.MeanVar, s: Setup): (scs: seq<Option<Scoring>>)
    requires Valid(s) && Provides(meanVar, |s.varNames|)
    ensures ScoringsFit(scs, s)
  {
    TTestScoringsUpTo(sqrt, meanVar, s, |s.masks|)
  }

  /** The Wilcoxon normaliser of group `g` is zero. */
  predicate Degenerate(s: Setup, g: nat)
    requires Valid(s) && IsScored(s, g)
  {
    Count(s.masks[g]) == 0 || Count(RestMask(s, g)) == 0
  }

  /** Lines 175-194 for group `g`. */
  function WilcoxonScores(sqrt: real -> real, s: Setup, g: nat): (z: seq<real>)
    requires PositiveSqrt(sqrt) && Valid(s) && IsScored(s, g) && !Degenerate(s, g)
    ensures |z| == |s.varNames|
  {
    var n := |s.varNames|;
    seq(n, j requires 0 <= j < n =>
          Wilcoxon.GeneScore(sqrt, s.X, n, s.masks[g], RestMask(s, g), j, s.onlyPositive))
  }

  /** One entry per group, and every score vector has one score per gene. */
  predicate Fits(zs: seq<Result<seq<real>>>, s: Setup)
  {
    |zs| == |s.masks| &&
    forall g :: 0 <= g < |zs| && zs[g].Ok? ==> |zs[g].value| == |s.varNames|
  }

  /** Placeholder entry of the fixed reference group, which the loops skip. */
  const NotScored: Result<seq<real>> := Err(ValueError("the reference group is not compared with itself"))

  /** The t-test scores of group `g`. */
  function TTestResult(sqrt: real -> real, meanVar: seq<bool> -> TTest.MeanVar, s: Setup, g: nat)
    : (z: Result<seq<real>>)
    requires Valid(s) && Provides(meanVar, |s.varNames|) && g < |s.masks|
    ensures z.Ok? ==> |z.value| == |s.varNames|
  {
    if IsScored(s, g) then Ok(TTestScoring(sqrt, meanVar, s, g).zscores) else NotScored
  }

  /** The t-test scores of groups `0 .. n-1`. */
  function TTestResultsUpTo(sqrt: real -> real, meanVar: seq<bool> -> TTest.MeanVar, s: Setup, n: nat)
    : (zs: seq<Result<seq<real>>>)
    requires Valid(s) && Provides(meanVar, |s.varNames|) && n <= |s.masks|
    ensures |zs| == n && forall g :: 0 <= g < n && zs[g].Ok? ==> |zs[g].value| == |s.varNames|
  {
    if n == 0 then [] else TTestResultsUpTo(sqrt, meanVar, s, n - 1) + [TTestResult(sqrt, meanVar, s, n - 1)]
  }

  lemma {:induction false} TTestResultAt(sqrt: real -> real, meanVar: seq<bool> -> TTest.MeanVar, s: Setup,
                                         n: nat, g: nat)
    requires Valid(s) && Provides(meanVar, |s.varNames|) && g < n <= |s.masks|
    ensures TTestResultsUpTo(sqrt, meanVar, s, n)[g] == TTestResult(sqrt, meanVar, s, g)
  {
    if g < n - 1 {
      TTestResultAt(sqrt, meanVar, s, n - 1, g);
    }
  }

  /** The scores of every group under the t-test. */
  function TTestResults(sqrt: real -> real, meanVar: seq<bool> -> TTest.MeanVar, s: Setup): (zs: seq<Result<seq<real>>>)
    requires Valid(s) && Provides(meanVar, |s.varNames|)
    ensures Fits(zs, s)
  {
    TTestResultsUpTo(sqrt, meanVar, s, |s.masks|)
  }

  /** The Wilcoxon scores of group `g`, or the error its normaliser raises. */
  function WilcoxonResult(sqrt: real -> real, s: Setup, g: nat): (z: Result<seq<real>>)
    requires PositiveSqrt(sqrt) && Valid(s) && g < |s.masks|
    ensures z.Ok? ==> |z.value| == |s.varNames|
  {
    if !IsScored(s, g) then NotScored
    else if Degenerate(s, g) then Err(Wilcoxon.ZeroNormaliser)
    else Ok(WilcoxonScores(sqrt, s, g))
  }

  /** The Wilcoxon results of groups `0 .. n-1`. */
  function WilcoxonResultsUpTo(sqrt: real -> real, s: Setup, n: nat): (zs: seq<Result<seq<real>>>)
    requires PositiveSqrt(sqrt) && Valid(s) && n <= |s.masks|
    ensures |zs| == n && forall g :: 0 <= g < n && zs[g].Ok? ==> |zs[g].value| == |s.varNames|
  {
    if n == 0 then [] else WilcoxonResultsUpTo(sqrt, s, n - 1) + [WilcoxonResult(sqrt, s, n - 1)]
  }

  lemma {:induction false} WilcoxonResultAt(sqrt: real -> real, s: Setup, n: nat, g: nat)
    requires PositiveSqrt(sqrt) && Valid(s) && g < n <= |s.masks|
    ensures WilcoxonResultsUpTo(sqrt, s, n)[g] == WilcoxonResult(sqrt, s, g)
  {
    if g < n - 1 {
      WilcoxonResultAt(sqrt, s, n - 1, g);
    }
  }

  /** The scores of every group under the Wilcoxon test, or the error its
      normaliser raises. */
  function WilcoxonResults(sqrt: real -> real, s: Setup): (zs: seq<Result<seq<real>>>)
    requires PositiveSqrt(sqrt) && Valid(s)
    ensures Fits(zs, s)
  {
    WilcoxonResultsUpTo(sqrt, s, |s.masks|)
  }

  /** The scores of every group under the chosen test. */
  function Results(sqrt: real -> real, meanVar: seq<bool> -> TTest.MeanVar, s: Setup, kind: Groups.TestKind)
    : (zs: seq<Result<seq<real>>>)
    requires PositiveSqrt(sqrt) && Valid(s) && Provides(meanVar, |s.varNames|)
    ensures Fits(zs, s)
  {
    if kind == Groups.TTest then TTestResults(sqrt, meanVar, s) else WilcoxonResults(sqrt, s)
  }

  // ----- the score and name tables -----

  /** The lists appended to per scored group (lines 145-146 and 198-199),
      and the "too few observations" flag of each Wilcoxon group. */
  datatype Tables = Tables(scores: seq<seq<real>>, names: seq<seq<string>>, fewObservations: seq<bool>)

  /** A score column and a name column are the top-k genes of `z`, best first. */
  predicate Ranked(z: seq<real>, k: nat, varNames: seq<string>, scoreCol: seq<real>, nameCol: seq<string>)
    requires |z| == |varNames|
  {
    TopK.TopK(z, k).Ok? &&
    scoreCol == Gather(z, TopK.TopK(z, k).value) &&
    nameCol == Gather(varNames, TopK.TopK(z, k).value)
  }

  /** Lines 176-178: the small-sample warning of a Wilcoxon group. */
  function Flag(s: Setup, kind: Groups.TestKind, g: nat): seq<bool>
    requires Valid(s) && IsScored(s, g)
  {
    if kind == Groups.Wilcoxon then [Wilcoxon.TooFewObservations(Count(s.masks[g]), Count(RestMask(s, g)))]
    else []
  }

  /** The tables after groups `0 .. n-1`, or the first error raised. */
  function Rankings(zs: seq<Result<seq<real>>>, s: Setup, kind: Groups.TestKind, n: nat): Result<Tables>
    requires Valid(s) && Fits(zs, s) && n <= |s.masks|
  {
    if n == 0 then Ok(Tables([], [], []))
    else
      var prev := Rankings(zs, s, kind, n - 1);
      var g := n - 1;
      if prev.Err? || !IsScored(s, g) then prev
      else
        match zs[g]
        case Err(e) => Err(e)
        case Ok(z) =>
          match TopK.TopK(z, s.nGenesUser)
          case Err(e) => Err(e)
          case Ok(top) =>
            Ok(Tables(prev.value.scores + [Gather(z, top)],
                      prev.value.names + [Gather(s.varNames, top)],
                      prev.value.fewObservations + Flag(s, kind, g)))
  }

  /** An error stops the loop: later groups do not change it. */
  lemma {:induction false} ErrPersists(zs: seq<Result<seq<real>>>, s: Setup, kind: Groups.TestKind, i: nat, n: nat)
    requires Valid(s) && Fits(zs, s) && i <= n <= |s.masks|
    requires Rankings(zs, s, kind, i).Err?
    ensures Rankings(zs, s, kind, n) == Rankings(zs, s, kind, i)
  {
    if i < n {
      ErrPersists(zs, s, kind, i, n - 1);
    }
  }

  /** Column `c` of the tables holds group `g`'s top-k genes and their
      scores, and for the Wilcoxon test the group's small-sample flag. */
  predicate ColumnOf(zs: seq<Result<seq<real>>>, s: Setup, kind: Groups.TestKind, t: Tables, c: nat, g: nat)
    requires Valid(s) && Fits(zs, s)
  {
    c < |t.scores| && c < |t.names| && IsScored(s, g) && zs[g].Ok? &&
    Ranked(zs[g].value, s.nGenesUser, s.varNames, t.scores[c], t.names[c]) &&
    (kind == Groups.Wilcoxon ==> c < |t.fewObservations| && [t.fewObservations[c]] == Flag(s, kind, g))
  }

  /** Lines 125-146 and 168-199: column `c` of the tables belongs to the
      `c`-th scored group, in group order, and holds that group's top-k
      genes and their scores; a Wilcoxon column also carries the group's
      small-sample flag. */
  lemma {:induction false} RankingsColumns(zs: seq<Result<seq<real>>>, s: Setup, kind: Groups.TestKind, n: nat)
    requires Valid(s) && Fits(zs, s) && n <= |s.masks|
    requires Rankings(zs, s, kind, n).Ok?
    ensures var t := Rankings(zs, s, kind, n).value;
      |t.scores| == |Groups.Scored(n, s.policy)| && |t.names| == |t.scores| &&
      (kind == Groups.TTest ==> t.fewObservations == []) &&
      (kind == Groups.Wilcoxon ==> |t.fewObservations| == |t.scores|)
    ensures var t := Rankings(zs, s, kind, n).value;
      forall c :: 0 <= c < |t.scores| ==> ColumnOf(zs, s, kind, t, c, Groups.Scored(n, s.policy)[c])
  {
    if n > 0 {
      var prev := Rankings(zs, s, kind, n - 1);
      assert prev.Ok?;
      RankingsColumns(zs, s, kind, n - 1);
      var p := prev.value;
      var t := Rankings(zs, s, kind, n).value;
      var before := Groups.Scored(n - 1, s.policy);
      if !IsScored(s, n - 1) {
        assert t == p;
        assert Groups.Scored(n, s.policy) == before;
      } else {
        assert zs[n - 1].Ok? && TopK.TopK(zs[n - 1].value, s.nGenesUser).Ok?;
        var z := zs[n - 1].value;
        var top := TopK.TopK(z, s.nGenesUser).value;
        assert t == Tables(p.scores + [Gather(z, top)], p.names + [Gather(s.varNames, top)],
                           p.fewObservations + Flag(s, kind, n - 1));
        assert Groups.Scored(n, s.policy) == before + [n - 1];
        ColumnsAppend(zs, s, kind, p, t, before, n - 1);
      }
    }
  }

  /** One scored group appends one column and keeps the columns before it. */
  lemma ColumnsAppend(zs: seq<Result<seq<real>>>, s: Setup, kind: Groups.TestKind, p: Tables, t: Tables,
                      before: seq<nat>, g: nat)
    requires Valid(s) && Fits(zs, s) && IsScored(s, g) && zs[g].Ok?
    requires TopK.TopK(zs[g].value, s.nGenesUser).Ok?
    requires |p.scores| == |before| && |p.names| == |p.scores|
    requires kind == Groups.TTest ==> p.fewObservations == []
    requires kind == Groups.Wilcoxon ==> |p.fewObservations| == |p.scores|
    requires forall c :: 0 <= c < |p.scores| ==> ColumnOf(zs, s, kind, p, c, before[c])
    requires var top := TopK.TopK(zs[g].value, s.nGenesUser).value;
      t == Tables(p.scores + [Gather(zs[g].value, top)], p.names + [Gather(s.varNames, top)],
                  p.fewObservations + Flag(s, kind, g))
    ensures |t.scores| == |before| + 1 && |t.names| == |t.scores|
    ensures kind == Groups.TTest ==> t.fewObservations == []
    ensures kind == Groups.Wilcoxon ==> |t.fewObservations| == |t.scores|
    ensures forall c :: 0 <= c < |t.scores| ==> ColumnOf(zs, s, kind, t, c, (before + [g])[c])
  {
    var now := before + [g];
    assert t.scores[..|p.scores|] == p.scores && t.names[..|p.names|] == p.names;
    assert t.fewObservations[..|p.fewObservations|] == p.fewObservations;
    forall c | 0 <= c < |t.scores|
      ensures ColumnOf(zs, s, kind, t, c, now[c])
    {
      if c < |p.scores| {
        assert now[c] == before[c];
        ColumnKept(zs, s, kind, p, t, c, before[c]);
      } else {
        ColumnAdded(zs, s, kind, p, t, g);
      }
    }
  }

  /** Appending to the tables keeps the columns already there. */
  lemma ColumnKept(zs: seq<Result<seq<real>>>, s: Setup, kind: Groups.TestKind, p: Tables, t: Tables, c: nat, g: nat)
    requires Valid(s) && Fits(zs, s)
    requires ColumnOf(zs, s, kind, p, c, g)
    requires |p.scores| <= |t.scores| && |p.names| <= |t.names| && |p.fewObservations| <= |t.fewObservations|
    requires t.scores[..|p.scores|] == p.scores && t.names[..|p.names|] == p.names
    requires t.fewObservations[..|p.fewObservations|] == p.fewObservations
    ensures ColumnOf(zs, s, kind, t, c, g)
  {
    assert t.scores[c] == t.scores[..|p.scores|][c];
    assert t.names[c] == t.names[..|p.names|][c];
    if kind == Groups.Wilcoxon {
      assert t.fewObservations[c] == t.fewObservations[..|p.fewObservations|][c];
    }
  }

  /** The column appended for scored group `g`. */
  lemma ColumnAdded(zs: seq<Result<seq<real>>>, s: Setup, kind: Groups.TestKind, p: Tables, t: Tables, g: nat)
    requires Valid(s) && Fits(zs, s) && IsScored(s, g) && zs[g].Ok?
    requires TopK.TopK(zs[g].value, s.nGenesUser).Ok?
    requires kind == Groups.Wilcoxon ==> |p.fewObservations| == |p.scores|
    requires |p.names| == |p.scores|
    requires var top := TopK.TopK(zs[g].value, s.nGenesUser).value;
      t == Tables(p.scores + [Gather(zs[g].value, top)], p.names + [Gather(s.varNames, top)],
                  p.fewObservations + Flag(s, kind, g))
    ensures ColumnOf(zs, s, kind, t, |p.scores|, g)
  {
  }

  /** Some scored group among `0 .. n-1` fails to produce scores. */
  predicate AnyFailing(zs: seq<Result<seq<real>>>, s: Setup, n: nat)
    requires |zs| == |s.masks| && n <= |s.masks|
  {
    n > 0 && (AnyFailing(zs, s, n - 1) || (IsScored(s, n - 1) && zs[n - 1].Err?))
  }

  /** `e` is the error of a failing scored group among `0 .. n-1`. */
  predicate FailsWith(zs: seq<Result<seq<real>>>, s: Setup, n: nat, e: Error)
    requires |zs| == |s.masks| && n <= |s.masks|
  {
    n > 0 && (FailsWith(zs, s, n - 1, e) || (IsScored(s, n - 1) && zs[n - 1] == Err(e)))
  }

  /** The loops fail exactly when a scored group's scoring fails or, once a
      group is scored, when the top-k selection fails (a `ValueError`). */
  lemma {:induction false} RankingsError(zs: seq<Result<seq<real>>>, s: Setup, kind: Groups.TestKind, n: nat)
    requires Valid(s) && Fits(zs, s) && n <= |s.masks|
    ensures Rankings(zs, s, kind, n).Err? <==>
      AnyFailing(zs, s, n) || (Groups.Scored(n, s.policy) != [] && !Feasible(s))
    ensures Rankings(zs, s, kind, n).Err? ==>
      Rankings(zs, s, kind, n).error.ValueError? || FailsWith(zs, s, n, Rankings(zs, s, kind, n).error)
  {
    if n > 0 {
      RankingsError(zs, s, kind, n - 1);
      assert Groups.Scored(n, s.policy)
          == Groups.Scored(n - 1, s.policy) + (if s.policy == Groups.Fixed(n - 1) then [] else [n - 1]);
    }
  }

  /** The t-test scores every scored group. */
  lemma {:induction false} TTestNeverFails(sqrt: real -> real, meanVar: seq<bool> -> TTest.MeanVar, s: Setup, n: nat)
    requires Valid(s) && Provides(meanVar, |s.varNames|) && n <= |s.masks|
    ensures !AnyFailing(TTestResults(sqrt, meanVar, s), s, n)
  {
    if n > 0 {
      TTestNeverFails(sqrt, meanVar, s, n - 1);
      TTestResultAt(sqrt, meanVar, s, |s.masks|, n - 1);
    }
  }

  /** Some scored group among `0 .. n-1` has a zero Wilcoxon normaliser. */
  predicate AnyDegenerate(s: Setup, n: nat)
    requires Valid(s) && n <= |s.masks|
  {
    n > 0 && (AnyDegenerate(s, n - 1) || (IsScored(s, n - 1) && Degenerate(s, n - 1)))
  }

  /** The Wilcoxon scoring fails exactly for a scored group that is empty or
      whose reference is empty, and then with a zero normaliser. */
  lemma {:induction false} WilcoxonFailures(sqrt: real -> real, s: Setup, n: nat, e: Error)
    requires PositiveSqrt(sqrt) && Valid(s) && n <= |s.masks|
    ensures AnyFailing(WilcoxonResults(sqrt, s), s, n) <==> AnyDegenerate(s, n)
    ensures FailsWith(WilcoxonResults(sqrt, s), s, n, e) ==> e == Wilcoxon.ZeroNormaliser
  {
    if n > 0 {
      WilcoxonFailures(sqrt, s, n - 1, e);
      WilcoxonResultAt(sqrt, s, |s.masks|, n - 1);
    }
  }

  /** What a ranked column looks like: `k` genes (all genes for `k == 0`),
      scores non-increasing, no unselected gene scoring higher, and each
      name the name of the gene whose score stands beside it. */
  lemma RankedColumnProperties(z: seq<real>, k: nat, varNames: seq<string>, scoreCol: seq<real>, nameCol: seq<string>)
    requires |z| == |varNames| && Ranked(z, k, varNames, scoreCol, nameCol)
    ensures |scoreCol| == TopK.Window(k, |z|) && |nameCol| == |scoreCol|
    ensures forall p, q :: 0 <= p < q < |scoreCol| ==> scoreCol[q] <= scoreCol[p]
    ensures forall p :: 0 <= p < |scoreCol| ==>
      var gene := TopK.TopK(z, k).value[p];
      scoreCol[p] == z[gene] && nameCol[p] == varNames[gene]
    ensures forall p, x :: 0 <= p < |scoreCol| && 0 <= x < |z| && x !in TopK.TopK(z, k).value ==> z[x] <= scoreCol[p]
  {
    TopK.RankedColumn(z, k);
  }

  // ----- distribution columns of the t-test path (lines 147-158) -----

  /** The top-k gene indices of scored group `g`. */
  function Top(scs: seq<Option<Scoring>>, s: Setup, g: nat): Result<seq<nat>>
    requires ScoringsFit(scs, s) && g < |scs| && scs[g].Some?
  {
    TopK.TopK(scs[g].value.zscores, s.nGenesUser)
  }

  /** The keys group `g` writes (none when its top-k selection fails). */
  function GroupKeys(scs: seq<Option<Scoring>>, s: Setup, g: nat): set<string>
    requires Valid(s) && ScoringsFit(scs, s) && g < |scs| && scs[g].Some?
  {
    match Top(scs, s, g)
    case Err(_) => {}
    case Ok(top) => TTest.DistributionKeys(s.groupby, s.order[g], s.varNames, top, s.nGenesUser)
  }

  /** The keys written by groups `0 .. n-1`. */
  function AllKeys(scs: seq<Option<Scoring>>, s: Setup, n: nat): set<string>
    requires Valid(s) && ScoringsFit(scs, s) && n <= |scs|
  {
    if n == 0 then {}
    else AllKeys(scs, s, n - 1) + (if scs[n - 1].Some? then GroupKeys(scs, s, n - 1) else {})
  }

  /** The last group among `0 .. n-1` that writes `key`: its column is the
      one left in `adata.smp`. */
  function LastWriter(scs: seq<Option<Scoring>>, s: Setup, key: string, n: nat): (w: Option<nat>)
    requires Valid(s) && ScoringsFit(scs, s) && n <= |scs|
    ensures w.Some? ==> w.value < n && scs[w.value].Some? && key in GroupKeys(scs, s, w.value)
  {
    if n == 0 then None
    else if scs[n - 1].Some? && key in GroupKeys(scs, s, n - 1) then Some(n - 1)
    else LastWriter(scs, s, key, n - 1)
  }

  /** The key of rank position `c` of group `g`. */
  function Key(scs: seq<Option<Scoring>>, s: Setup, g: nat, c: nat): string
    requires Valid(s) && ScoringsFit(scs, s) && g < |scs| && scs[g].Some?
    requires Top(scs, s, g).Ok? && c < s.nGenesUser
  {
    TTest.KeyAt(s.groupby, s.order[g], s.varNames, Top(scs, s, g).value, c)
  }

  /** `col` is the distribution of the gene at rank position `c` of group `g`. */
  predicate DistributionAt(scs: seq<Option<Scoring>>, s: Setup, col: seq<Float>, g: nat, c: nat)
    requires Valid(s) && ScoringsFit(scs, s) && g < |scs| && scs[g].Some?
    requires Top(scs, s, g).Ok? && c < s.nGenesUser
  {
    var sc := scs[g].value;
    var gene := Top(scs, s, g).value[c];
    TTest.IsDistribution(col, s.X, s.masks[g], gene, sc.meanRest[gene], sc.denominator[gene])
  }

  /** `adata.smp` after groups `0 .. n-1`: exactly their keys, and under each
      key the distribution of the last group that wrote it. */
  predicate Stored(scs: seq<Option<Scoring>>, s: Setup, smp: map<string, seq<Float>>, n: nat)
    requires Valid(s) && ScoringsFit(scs, s) && n <= |scs|
  {
    smp.Keys == AllKeys(scs, s, n) &&
    forall g, c :: 0 <= g < n && scs[g].Some? && Top(scs, s, g).Ok? && 0 <= c < s.nGenesUser &&
                   LastWriter(scs, s, Key(scs, s, g, c), n) == Some(g) ==>
      Key(scs, s, g, c) in smp && DistributionAt(scs, s, smp[Key(scs, s, g, c)], g, c)
  }

  /** A group without scores writes nothing. */
  lemma StoredSkip(scs: seq<Option<Scoring>>, s: Setup, smp: map<string, seq<Float>>, g: nat)
    requires Valid(s) && ScoringsFit(scs, s) && g < |scs| && scs[g].None?
    requires Stored(scs, s, smp, g)
    ensures Stored(scs, s, smp, g + 1)
  {
    forall h, c | 0 <= h < g + 1 && scs[h].Some? && Top(scs, s, h).Ok? && 0 <= c < s.nGenesUser &&
                  LastWriter(scs, s, Key(scs, s, h, c), g + 1) == Some(h)
      ensures Key(scs, s, h, c) in smp && DistributionAt(scs, s, smp[Key(scs, s, h, c)], h, c)
    {
      assert LastWriter(scs, s, Key(scs, s, h, c), g) == Some(h);
    }
  }

  /** Writing group `g`'s columns as lines 147-158 do keeps `Stored`: its
      own keys get its distributions, every other key keeps its column. */
  lemma StoredStep(scs: seq<Option<Scoring>>, s: Setup, smp: map<string, seq<Float>>,
                   next: map<string, seq<Float>>, g: nat)
    requires Valid(s) && ScoringsFit(scs, s) && g < |scs| && scs[g].Some? && Top(scs, s, g).Ok?
    requires Stored(scs, s, smp, g)
    requires next.Keys == smp.Keys + GroupKeys(scs, s, g)
    requires forall key :: key in smp && key !in GroupKeys(scs, s, g) ==> next[key] == smp[key]
    requires forall c :: 0 <= c < s.nGenesUser ==>
      Key(scs, s, g, c) in next && DistributionAt(scs, s, next[Key(scs, s, g, c)], g, c)
    ensures Stored(scs, s, next, g + 1)
  {
    forall h, c | 0 <= h < g + 1 && scs[h].Some? && Top(scs, s, h).Ok? && 0 <= c < s.nGenesUser &&
                  LastWriter(scs, s, Key(scs, s, h, c), g + 1) == Some(h)
      ensures Key(scs, s, h, c) in next && DistributionAt(scs, s, next[Key(scs, s, h, c)], h, c)
    {
      if h < g {
        var key := Key(scs, s, h, c);
        assert key !in GroupKeys(scs, s, g);
        assert LastWriter(scs, s, key, g) == Some(h);
      }
    }
  }

  /** An unscored group leaves the tables as they are. */
  lemma SkipStep(zs: seq<Result<seq<real>>>, s: Setup, kind: Groups.TestKind, g: nat)
    requires Valid(s) && Fits(zs, s) && g < |s.masks| && !IsScored(s, g)
    ensures Rankings(zs, s, kind, g + 1) == Rankings(zs, s, kind, g)
  {
  }

  /** A scored group whose top-k selection succeeds appends its columns. */
  lemma AppendStep(zs: seq<Result<seq<real>>>, s: Setup, kind: Groups.TestKind, g: nat, t: Tables,
                   z: seq<real>, top: seq<nat>)
    requires Valid(s) && Fits(zs, s) && g < |s.masks| && IsScored(s, g)
    requires Rankings(zs, s, kind, g) == Ok(t) && zs[g] == Ok(z) && TopK.TopK(z, s.nGenesUser) == Ok(top)
    ensures Rankings(zs, s, kind, g + 1) ==
      Ok(Tables(t.scores + [Gather(z, top)], t.names + [Gather(s.varNames, top)],
                t.fewObservations + Flag(s, kind, g)))
  {
  }

  /** A scored group whose scoring fails ends the loop with its error. */
  lemma ScoringStops(zs: seq<Result<seq<real>>>, s: Setup, kind: Groups.TestKind, g: nat, e: Error)
    requires Valid(s) && Fits(zs, s) && g < |s.masks| && IsScored(s, g) && Rankings(zs, s, kind, g).Ok?
    requires zs[g] == Err(e)
    ensures Rankings(zs, s, kind, g + 1) == Err(e)
    ensures Rankings(zs, s, kind, |s.masks|) == Err(e)
  {
    ErrPersists(zs, s, kind, g + 1, |s.masks|);
  }

  /** A scored group whose top-k selection fails ends the loop with its error. */
  lemma SelectionStops(zs: seq<Result<seq<real>>>, s: Setup, kind: Groups.TestKind, g: nat, e: Error)
    requires Valid(s) && Fits(zs, s) && g < |s.masks| && IsScored(s, g) && Rankings(zs, s, kind, g).Ok?
    requires zs[g].Ok? && TopK.TopK(zs[g].value, s.nGenesUser) == Err(e)
    ensures Rankings(zs, s, kind, g + 1) == Err(e)
    ensures Rankings(zs, s, kind, |s.masks|) == Err(e)
  {
    ErrPersists(zs, s, kind, g + 1, |s.masks|);
  }

  /** Lines 131-141 for one group: its scores, denominators and reference
      means, from the statistics of the group and of its reference. */
  method TTestGroup(sqrt: real -> real, meanVar: seq<bool> -> TTest.MeanVar, s: Setup,
                    stats: seq<TTest.MeanVar>, ns: seq<nat>, g: nat)
    returns (sc: Scoring)
    requires Valid(s) && Provides(meanVar, |s.varNames|) && IsScored(s, g)
    requires |stats| == |s.masks| && forall i :: 0 <= i < |stats| ==> stats[i] == meanVar(s.masks[i])
    requires |ns| == |s.masks| && forall i :: 0 <= i < |ns| ==> ns[i] == Count(s.masks[i])
    ensures sc == TTestScoring(sqrt, meanVar, s, g)
  {
    var maskRest := Groups.ReferenceMask(s.masks, g, s.policy).value;
    var rest := meanVar(maskRest);
    var nsRest := Count(maskRest);
    var denominator, zscores := TTest.GroupScores(sqrt, stats[g], ns[g], rest, nsRest, s.onlyPositive);
    sc := Scoring(zscores, denominator, rest.mean);
  }

  /** Lines 147-158 for one group: its top-k genes' distributions go into
      `adata.smp`, which then holds what `Stored` demands one group further. */
  method StoreGroup(ghost scs: seq<Option<Scoring>>, s: Setup, smp: map<string, seq<Float>>, g: nat,
                    sc: Scoring, top: seq<nat>)
    returns (next: map<string, seq<Float>>)
    requires Valid(s) && ScoringsFit(scs, s) && g < |scs| && scs[g] == Some(sc) && Top(scs, s, g) == Ok(top)
    requires Stored(scs, s, smp, g)
    ensures Stored(scs, s, next, g + 1)
  {
    next := TTest.GroupDistributions(smp, s.groupby, s.order[g], s.X, s.masks[g], s.varNames,
                                     top, s.nGenesUser, sc.meanRest, sc.denominator);
    StoredStep(scs, s, smp, next, g);
  }

  /** The t-test loop after groups `0 .. n-1`: the tables so far, and with
      `compute_distribution` the distributions stored so far. */
  ghost predicate TTestState(sqrt: real -> real, meanVar: seq<bool> -> TTest.MeanVar, s: Setup,
                             computeDistribution: bool, n: nat, t: Tables, smp: map<string, seq<Float>>)
    requires Valid(s) && Provides(meanVar, |s.varNames|) && n <= |s.masks|
  {
    Rankings(TTestResults(sqrt, meanVar, s), s, Groups.TTest, n) == Ok(t) && t.fewObservations == [] &&
    (computeDistribution ==> Stored(TTestScorings(sqrt, meanVar, s), s, smp, n)) &&
    (!computeDistribution ==> smp == map[])
  }

  /** One pass of the t-test loop (lines 125-158): a scored group's columns
      are appended to the tables and, with `compute_distribution`, its
      distributions stored; or the loop stops with the selection's error. */
  method TTestStep(sqrt: real -> real, meanVar: seq<bool> -> TTest.MeanVar, s: Setup,
                   stats: seq<TTest.MeanVar>, ns: seq<nat>, computeDistribution: bool,
                   g: nat, t: Tables, smp: map<string, seq<Float>>)
    returns (r: Result<Tables>, next: map<string, seq<Float>>)
    requires Valid(s) && Provides(meanVar, |s.varNames|) && g < |s.masks|
    requires |stats| == |s.masks| && forall i :: 0 <= i < |stats| ==> stats[i] == meanVar(s.masks[i])
    requires |ns| == |s.masks| && forall i :: 0 <= i < |ns| ==> ns[i] == Count(s.masks[i])
    requires TTestState(sqrt, meanVar, s, computeDistribution, g, t, smp)
    ensures r.Ok? ==> TTestState(sqrt, meanVar, s, computeDistribution, g + 1, r.value, next)
    ensures r.Err? ==> Rankings(TTestResults(sqrt, meanVar, s), s, Groups.TTest, |s.masks|) == r
    ensures !computeDistribution ==> next == map[]
  {
    ghost var zs := TTestResults(sqrt, meanVar, s);
    ghost var scs := TTestScorings(sqrt, meanVar, s);
    next := smp;
    if s.policy == Groups.Fixed(g) {
      SkipStep(zs, s, Groups.TTest, g);
      if computeDistribution {
        StoredSkip(scs, s, smp, g);
      }
      return Ok(t), next;
    }
    var sc := TTestGroup(sqrt, meanVar, s, stats, ns, g);
    TTestScoringAt(sqrt, meanVar, s, |s.masks|, g);
    TTestResultAt(sqrt, meanVar, s, |s.masks|, g);
    assert scs[g] == Some(sc) && zs[g] == Ok(sc.zscores);
    var top := TopK.TopK(sc.zscores, s.nGenesUser);
    if top.Err? {
      SelectionStops(zs, s, Groups.TTest, g, top.error);
      return Err(top.error), next;
    }
    AppendStep(zs, s, Groups.TTest, g, t, sc.zscores, top.value);
    assert Flag(s, Groups.TTest, g) == [];
    assert t.fewObservations + Flag(s, Groups.TTest, g) == [];
    r := Ok(Tables(t.scores + [Gather(sc.zscores, top.value)], t.names + [Gather(s.varNames, top.value)], []));
    if computeDistribution {
      next := StoreGroup(scs, s, smp, g, sc, top.value);
    }
  }

  /** Lines 104-158: the t-test loop. Each group is scored against its
      reference, its top-k genes are appended to the tables, and with
      `compute_distribution` their distributions are stored; the loop stops
      at the first error. */
  method TTestRankings(sqrt: real -> real, meanVar: seq<bool> -> TTest.MeanVar, s: Setup, ns: seq<nat>,
                       computeDistribution: bool)
    returns (r: Result<Tables>, smp: map<string, seq<Float>>)
    requires Valid(s) && Provides(meanVar, |s.varNames|)
    requires |ns| == |s.masks| && forall i :: 0 <= i < |ns| ==> ns[i] == Count(s.masks[i])
    ensures r == Rankings(TTestResults(sqrt, meanVar, s), s, Groups.TTest, |s.masks|)
    ensures r.Ok? && computeDistribution ==> Stored(TTestScorings(sqrt, meanVar, s), s, smp, |s.masks|)
    ensures !computeDistribution ==> smp == map[]
  {
    var stats := TTest.GroupStatistics(meanVar, s.masks);
    var t := Tables([], [], []);
    smp := map[];
    var igroup := 0;
    while igroup < |s.masks|
      invariant igroup <= |s.masks|
      invariant TTestState(sqrt, meanVar, s, computeDistribution, igroup, t, smp)
    {
      var step, next := TTestStep(sqrt, meanVar, s, stats, ns, computeDistribution, igroup, t, smp);
      if step.Err? {
        return step, next;
      }
      t, smp := step.value, next;
      igroup := igroup + 1;
    }
    r := Ok(t);
  }

  /** Lines 164-194 for one group: its scores, or the error of a zero
      normaliser, and its small-sample flag. */
  method WilcoxonGroup(sqrt: real -> real, s: Setup, ns: seq<nat>, g: nat)
    returns (z: Result<seq<real>>, tooFew: bool)
    requires PositiveSqrt(sqrt) && Valid(s) && IsScored(s, g)
    requires |ns| == |s.masks| && forall i :: 0 <= i < |ns| ==> ns[i] == Count(s.masks[i])
    ensures z == WilcoxonResult(sqrt, s, g)
    ensures Flag(s, Groups.Wilcoxon, g) == [tooFew]
  {
    var maskRest := Groups.ReferenceMask(s.masks, g, s.policy).value;
    var nsRest := Count(maskRest);
    tooFew := Wilcoxon.TooFewObservations(ns[g], nsRest);
    z := Wilcoxon.GroupScores(sqrt, s.X, |s.varNames|, s.masks[g], maskRest, s.onlyPositive);
    if z.Ok? {
      assert z.value == WilcoxonScores(sqrt, s, g);
    }
  }

  /** The first group the loops score: group 1 when group 0 is the fixed
      reference, else group 0. */
  function FirstScored(s: Setup): (f: nat)
    ensures forall g :: 0 <= g < f ==> !IsScored(s, g)
    ensures f < |s.masks| ==> IsScored(s, f)
  {
    if s.policy == Groups.Fixed(0) then 1 else 0
  }

  /** Lines 200-201: under the Wilcoxon test, `compute_distribution` reads
      the local `igroup`, which only the t-test loop assigns: Python raises
      `UnboundLocalError`, a kind of `NameError`. */
  const UndefinedGroup: Error := NameError("local variable 'igroup' referenced before assignment")

  /** The outcome of the Wilcoxon loop: its tables or its first error, or
      `UndefinedGroup` once the first scored group is ranked when
      `compute_distribution` is set. */
  function WilcoxonTables(sqrt: real -> real, s: Setup, computeDistribution: bool): Result<Tables>
    requires PositiveSqrt(sqrt) && Valid(s)
  {
    var first := FirstScored(s);
    if computeDistribution && first < |s.masks| &&
       Rankings(WilcoxonResults(sqrt, s), s, Groups.Wilcoxon, first + 1).Ok?
    then Err(UndefinedGroup)
    else Rankings(WilcoxonResults(sqrt, s), s, Groups.Wilcoxon, |s.masks|)
  }

  /** With `compute_distribution`, the Wilcoxon test yields tables only when
      no group is scored at all. */
  lemma WilcoxonDistributionFails(sqrt: real -> real, s: Setup)
    requires PositiveSqrt(sqrt) && Valid(s)
    ensures WilcoxonTables(sqrt, s, true).Ok? ==> Groups.Scored(|s.masks|, s.policy) == []
  {
    var first := FirstScored(s);
    var zs := WilcoxonResults(sqrt, s);
    if WilcoxonTables(sqrt, s, true).Ok? && first < |s.masks| {
      assert Rankings(zs, s, Groups.Wilcoxon, first + 1).Err?;
      ErrPersists(zs, s, Groups.Wilcoxon, first + 1, |s.masks|);
      assert false;
    }
    if first >= |s.masks| {
      Groups.ScoredSpec(|s.masks|, s.policy);
    }
  }

  /** The Wilcoxon loop after groups `0 .. n-1`: the tables so far; with
      `compute_distribution` no group has been ranked yet. */
  ghost predicate WilcoxonState(sqrt: real -> real, s: Setup, computeDistribution: bool, n: nat, t: Tables)
    requires PositiveSqrt(sqrt) && Valid(s) && n <= |s.masks|
  {
    Rankings(WilcoxonResults(sqrt, s), s, Groups.Wilcoxon, n) == Ok(t) &&
    (computeDistribution ==> n <= FirstScored(s))
  }

  /** One pass of the Wilcoxon loop (lines 162-211): a scored group's
      columns are appended to the tables, or the loop stops with its error. */
  method WilcoxonStep(sqrt: real -> real, s: Setup, ns: seq<nat>, computeDistribution: bool, g: nat, t: Tables)
    returns (r: Result<Tables>)
    requires PositiveSqrt(sqrt) && Valid(s) && g < |s.masks|
    requires |ns| == |s.masks| && forall i :: 0 <= i < |ns| ==> ns[i] == Count(s.masks[i])
    requires WilcoxonState(sqrt, s, computeDistribution, g, t)
    ensures r.Ok? ==> WilcoxonState(sqrt, s, computeDistribution, g + 1, r.value)
    ensures r.Err? ==> r == WilcoxonTables(sqrt, s, computeDistribution)
  {
    ghost var zs := WilcoxonResults(sqrt, s);
    if s.policy == Groups.Fixed(g) {
      SkipStep(zs, s, Groups.Wilcoxon, g);
      return Ok(t);
    }
    assert computeDistribution ==> g == FirstScored(s);
    var z, tooFew := WilcoxonGroup(sqrt, s, ns, g);
    WilcoxonResultAt(sqrt, s, |s.masks|, g);
    if z.Err? {
      ScoringStops(zs, s, Groups.Wilcoxon, g, z.error);
      return Err(z.error);
    }
    var top := TopK.TopK(z.value, s.nGenesUser);
    if top.Err? {
      SelectionStops(zs, s, Groups.Wilcoxon, g, top.error);
      return Err(top.error);
    }
    AppendStep(zs, s, Groups.Wilcoxon, g, t, z.value, top.value);
    if computeDistribution {
      return Err(UndefinedGroup);
    }
    r := Ok(Tables(t.scores + [Gather(z.value, top.value)], t.names + [Gather(s.varNames, top.value)],
                   t.fewObservations + [tooFew]));
  }

  /** Lines 160-211: the Wilcoxon loop. Each group's rank sums are
      normalised, its top-k genes are appended to the tables and its
      small-sample flag is recorded; the loop stops at the first error.
      With `compute_distribution` the first group that gets through its
      top-k selection raises `UndefinedGroup` instead. */
  method WilcoxonRankings(sqrt: real -> real, s: Setup, ns: seq<nat>, computeDistribution: bool)
    returns (r: Result<Tables>)
    requires PositiveSqrt(sqrt) && Valid(s)
    requires |ns| == |s.masks| && forall i :: 0 <= i < |ns| ==> ns[i] == Count(s.masks[i])
    ensures r == WilcoxonTables(sqrt, s, computeDistribution)
  {
    var t := Tables([], [], []);
    var imask := 0;
    while imask < |s.masks|
      invariant imask <= |s.masks|
      invariant WilcoxonState(sqrt, s, computeDistribution, imask, t)
    {
      r := WilcoxonStep(sqrt, s, ns, computeDistribution, imask, t);
      if r.Err? {
        return;
      }
      t := r.value;
      imask := imask + 1;
    }
    r := Ok(t);
  }

  // ----- the routine end to end -----

  /** `select_groups` yields one mask per name, each over all samples. */
  ghost predicate SelectsAll(selectGroups: Groups.GroupsArg -> Selection, nSamples: nat)
  {
    forall groups :: Selects(selectGroups(groups), nSamples)
  }

  /** Line 93: a fixed reference is compared against by its first position
      among the resolved groups; without one each group faces the rest. */
  function PolicyFor(order: seq<string>, reference: Option<string>): (r: Result<Groups.Policy>)
    ensures reference.None? ==> r == Ok(Groups.Rest)
    ensures reference.Some? ==> (r.Err? <==> reference.value !in order)
    ensures r.Err? ==> r.error.IndexError?
    ensures reference.Some? && r.Ok? ==>
      r.value.Fixed? && r.value.reference < |order| && order[r.value.reference] == reference.value
  {
    match reference
    case None => Ok(Groups.Rest)
    case Some(ref) =>
      match Groups.ReferenceIndex(order, ref)
      case Err(e) => Err(e)
      case Ok(i) => Ok(Groups.Fixed(i))
  }

  /** Lines 67-97: the groups are configured and resolved by `select_groups`
      and the reference is located, giving what the score loops read. */
  function Prepare(selectGroups: Groups.GroupsArg -> Selection, X: seq<seq<real>>, varNames: seq<string>,
                   categories: seq<string>, groupby: string, groups: Groups.GroupsArg,
                   groupReference: Option<string>, nGenesUser: nat, onlyPositive: bool): (r: Result<Setup>)
    requires Rectangular(X, |varNames|) && SelectsAll(selectGroups, |X|)
    ensures r.Ok? ==> Valid(r.value) && r.value.X == X && r.value.varNames == varNames
    ensures r.Ok? ==> (r.value.policy.Fixed? <==> groupReference.Some?)
  {
    match Groups.ConfigureGroups(groups, groupReference, categories)
    case Err(e) => Err(e)
    case Ok(configured) =>
      var sel := selectGroups(configured);
      match PolicyFor(sel.order, groupReference)
      case Err(e) => Err(e)
      case Ok(policy) => Ok(Setup(X, varNames, groupby, sel.order, sel.masks, policy, nGenesUser, onlyPositive))
  }

  /** The outcome of the score loop the test type selects. */
  function TablesFor(sqrt: real -> real, meanVar: seq<bool> -> TTest.MeanVar, s: Setup, kind: Groups.TestKind,
                     computeDistribution: bool): Result<Tables>
    requires PositiveSqrt(sqrt) && Valid(s) && Provides(meanVar, |s.varNames|)
  {
    if kind == Groups.TTest then Rankings(TTestResults(sqrt, meanVar, s), s, Groups.TTest, |s.masks|)
    else WilcoxonTables(sqrt, s, computeDistribution)
  }

  /** Lines 223-228: `np.rec.fromarrays` refuses a field list whose length
      differs from the number of arrays. */
  const ColumnCountMismatch: Error := ValueError("mismatch between array length and number of fields")

  /** Lines 223-225: `np.rec.fromarrays` takes the shape from the first array,
      so an empty list of columns raises `IndexError` before anything else. */
  const NoColumns: Error := IndexError("list index out of range")

  /** Lines 223-225: a record dtype refuses a field name given twice. */
  const DuplicateField: Error := ValueError("field name occurs more than once")

  /** What the routine leaves behind: `adata.add` entries (lines 78-79 and
      223-228), the Wilcoxon small-sample flags, the distribution columns of
      `adata.smp`, and whether the test type fell back to the t-test. */
  datatype Output = Output(groupby: string, order: seq<string>, columnNames: seq<string>,
                           scores: seq<seq<real>>, names: seq<seq<string>>, fewObservations: seq<bool>,
                           smp: map<string, seq<Float>>, unknownTestType: bool)

  /** Lines 62-229: `rank_genes_groups`. */
  method RankGenesGroups(sqrt: real -> real, meanVar: seq<bool> -> TTest.MeanVar,
                         selectGroups: Groups.GroupsArg -> Selection,
                         X: seq<seq<real>>, varNames: seq<string>, categories: seq<string>, groupby: string,
                         groups: Groups.GroupsArg, groupReference: Option<string>, nGenesUser: nat,
                         computeDistribution: bool, onlyPositive: bool, testType: string)
    returns (r: Result<Output>)
    requires PositiveSqrt(sqrt) && Provides(meanVar, |varNames|)
    requires Rectangular(X, |varNames|) && SelectsAll(selectGroups, |X|)
    ensures var prep := Prepare(selectGroups, X, varNames, categories, groupby, groups, groupReference,
                                nGenesUser, onlyPositive);
      prep.Err? ==> r == Err(prep.error)
    ensures var prep := Prepare(selectGroups, X, varNames, categories, groupby, groups, groupReference,
                                nGenesUser, onlyPositive);
      prep.Ok? ==>
        var s := prep.value;
        var kind := Groups.ResolveTestType(testType).0;
        var tables := TablesFor(sqrt, meanVar, s, kind, computeDistribution);
        var save := Groups.GroupsOrderSave(s.order, groupReference);
        if tables.Err? then r == Err(tables.error)
        else if tables.value.scores == [] then r == Err(NoColumns)
        else if !Distinct(save) then r == Err(DuplicateField)
        else if |save| != |tables.value.scores| then r == Err(ColumnCountMismatch)
        else
          r.Ok? &&
          r.value == Output(groupby, s.order, save, tables.value.scores, tables.value.names,
                            tables.value.fewObservations, r.value.smp, Groups.ResolveTestType(testType).1) &&
          (kind == Groups.TTest && computeDistribution ==>
             Stored(TTestScorings(sqrt, meanVar, s), s, r.value.smp, |s.masks|)) &&
          (kind == Groups.Wilcoxon || !computeDistribution ==> r.value.smp == map[])
  {
    var configured := Groups.ConfigureGroups(groups, groupReference, categories);
    if configured.Err? {
      return Err(configured.error);
    }
    var sel := selectGroups(configured.value);
    var ns := Groups.CountSamples(sel.masks);
    var policy := PolicyFor(sel.order, groupReference);
    if policy.Err? {
      return Err(policy.error);
    }
    var s := Setup(X, varNames, groupby, sel.order, sel.masks, policy.value, nGenesUser, onlyPositive);
    var resolved := Groups.ResolveTestType(testType);
    var tables: Result<Tables>;
    var smp: map<string, seq<Float>> := map[];
    if resolved.0 == Groups.TTest {
      tables, smp := TTestRankings(sqrt, meanVar, s, ns, computeDistribution);
    } else {
      tables := WilcoxonRankings(sqrt, s, ns, computeDistribution);
    }
    if tables.Err? {
      return Err(tables.error);
    }
    var save := Groups.GroupsOrderSave(sel.order, groupReference);
    if tables.value.scores == [] {
      return Err(NoColumns);
    }
    if !Distinct(save) {
      return Err(DuplicateField);
    }
    if |save| != |tables.value.scores| {
      return Err(ColumnCountMismatch);
    }
    r := Ok(Output(groupby, sel.order, save, tables.value.scores, tables.value.names,
                   tables.value.fewObservations, smp, resolved.1));
  }

  /** Distinct group names make the reference's first position its only one. */
  lemma UniqueReferenceMarks(order: seq<string>, reference: Option<string>)
    requires Distinct(order) && PolicyFor(order, reference).Ok?
    ensures Groups.Marks(order, PolicyFor(order, reference).value, reference)
  {
  }

  /** Lines 219-229 against lines 104-199: with distinct group names the
      tables never hit the count mismatch, and column `c` is named after the
      `c`-th scored group and holds that group's top-k genes and scores. */
  lemma NamedColumns(sqrt: real -> real, meanVar: seq<bool> -> TTest.MeanVar, s: Setup,
                     groupReference: Option<string>, kind: Groups.TestKind)
    requires PositiveSqrt(sqrt) && Valid(s) && Provides(meanVar, |s.varNames|)
    requires Distinct(s.order) && PolicyFor(s.order, groupReference) == Ok(s.policy)
    requires Rankings(Results(sqrt, meanVar, s, kind), s, kind, |s.masks|).Ok?
    ensures var t := Rankings(Results(sqrt, meanVar, s, kind), s, kind, |s.masks|).value;
      var save := Groups.GroupsOrderSave(s.order, groupReference);
      |save| == |t.scores| == |t.names| == |Groups.Scored(|s.masks|, s.policy)| &&
      forall c :: 0 <= c < |save| ==>
        var g := Groups.Scored(|s.masks|, s.policy)[c];
        save[c] == s.order[g] && ColumnOf(Results(sqrt, meanVar, s, kind), s, kind, t, c, g)
  {
    UniqueReferenceMarks(s.order, groupReference);
    Groups.OutputColumnsAligned(s.order, s.policy, groupReference);
    RankingsColumns(Results(sqrt, meanVar, s, kind), s, kind, |s.masks|);
  }

  /** The t-test loop fails only in the top-k selection: when some group is
      scored but there are no genes or fewer genes than requested. */
  lemma TTestTablesError(sqrt: real -> real, meanVar: seq<bool> -> TTest.MeanVar, s: Setup)
    requires Valid(s) && Provides(meanVar, |s.varNames|)
    ensures var tables := Rankings(TTestResults(sqrt, meanVar, s), s, Groups.TTest, |s.masks|);
      (tables.Err? <==> Groups.Scored(|s.masks|, s.policy) != [] && !Feasible(s)) &&
      (tables.Err? ==> tables.error.ValueError?)
  {
    var zs := TTestResults(sqrt, meanVar, s);
    RankingsError(zs, s, Groups.TTest, |s.masks|);
    TTestNeverFails(sqrt, meanVar, s, |s.masks|);
    if Rankings(zs, s, Groups.TTest, |s.masks|).Err? {
      NoFailureNoError(zs, s, |s.masks|, Rankings(zs, s, Groups.TTest, |s.masks|).error);
    }
  }

  /** A group that fails names its error. */
  lemma {:induction false} NoFailureNoError(zs: seq<Result<seq<real>>>, s: Setup, n: nat, e: Error)
    requires |zs| == |s.masks| && n <= |s.masks| && !AnyFailing(zs, s, n)
    ensures !FailsWith(zs, s, n, e)
  {
    if n > 0 {
      NoFailureNoError(zs, s, n - 1, e);
    }
  }

  /** The Wilcoxon loop without `compute_distribution` fails when a scored
      group or its reference is empty, with a zero normaliser, or else in
      the top-k selection. */
  lemma WilcoxonTablesError(sqrt: real -> real, s: Setup)
    requires PositiveSqrt(sqrt) && Valid(s)
    ensures var tables := WilcoxonTables(sqrt, s, false);
      (tables.Err? <==> AnyDegenerate(s, |s.masks|) || (Groups.Scored(|s.masks|, s.policy) != [] && !Feasible(s))) &&
      (tables.Err? ==> tables.error.ValueError? || tables.error == Wilcoxon.ZeroNormaliser)
  {
    var zs := WilcoxonResults(sqrt, s);
    RankingsError(zs, s, Groups.Wilcoxon, |s.masks|);
    var tables := Rankings(zs, s, Groups.Wilcoxon, |s.masks|);
    WilcoxonFailures(sqrt, s, |s.masks|, if tables.Err? then tables.error else Wilcoxon.ZeroNormaliser);
  }
}
