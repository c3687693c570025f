/** The t-test-like score of lines 131-141 and the distribution columns of
    lines 147-158. Arithmetic is over the reals; the square root is a
    parameter, fixed only where IEEE arithmetic fixes it (`sqrt(0) = 0`,
    the square root of a negative number is NaN). */
module TTest {
  import opened Common
  import Identifier
  import TopK

  /** What `simple._get_mean_var` returns for a set of rows: per-gene means
      and variances. */
  datatype MeanVar = MeanVar(mean: seq<real>, variance: seq<real>)

  /** `var_g/n_g + var_rest/n_rest`. A zero count means the mean and the
      variance were taken over no rows, which numpy reports as NaN. */
  function PooledVariance(varG: real, ng: nat, varR: real, nr: nat): Float
  {
    if ng == 0 || nr == 0 then NaN else Finite(varG / ng as real + varR / nr as real)
  }

  /** `np.sqrt` on one entry. */
  function SqrtF(sqrt: real -> real, v: Float): Float
  {
    match v
    case NaN => NaN
    case Finite(x) => if x < 0.0 then NaN else if x == 0.0 then Finite(0.0) else Finite(sqrt(x))
  }

  /** Line 138: a zero denominator becomes NaN. */
  function ZeroToNaN(d: Float): Float
  {
    if d == Finite(0.0) then NaN else d
  }

  /** Division by a denominator that is NaN or non-zero. */
  function Divide(a: real, d: Float): Float
    requires d != Finite(0.0)
  {
    match d
    case NaN => NaN
    case Finite(x) => Finite(a / x)
  }

  /** Line 140: NaN becomes 0. */
  function NaNToZero(z: Float): real
  {
    match z
    case NaN => 0.0
    case Finite(x) => x
  }

  /** Lines 137-138 for one gene. */
  function Denominator(sqrt: real -> real, varG: real, ng: nat, varR: real, nr: nat): (d: Float)
    ensures d != Finite(0.0)
  {
    ZeroToNaN(SqrtF(sqrt, PooledVariance(varG, ng, varR, nr)))
  }

  /** Lines 137-141 for one gene. */
  function TScore(sqrt: real -> real, meanG: real, varG: real, ng: nat,
                  meanR: real, varR: real, nr: nat, onlyPositive: bool): (z: real)
    // a zero pooled standard error gives the score 0
    ensures SqrtF(sqrt, PooledVariance(varG, ng, varR, nr)) == Finite(0.0) ==> z == 0.0
    ensures Denominator(sqrt, varG, ng, varR, nr) == NaN ==> z == 0.0
    // equal means give the score 0
    ensures meanG == meanR ==> z == 0.0
    ensures !onlyPositive ==> 0.0 <= z
  {
    var d := Denominator(sqrt, varG, ng, varR, nr);
    SignPolicy(NaNToZero(Divide(meanG - meanR, d)), onlyPositive)
  }

  /** `only_positive=False` gives, gene for gene, the absolute value of the
      score computed with `only_positive=True`. */
  lemma AbsoluteScores(sqrt: real -> real, meanG: real, varG: real, ng: nat, meanR: real, varR: real, nr: nat)
    ensures TScore(sqrt, meanG, varG, ng, meanR, varR, nr, false)
         == Abs(TScore(sqrt, meanG, varG, ng, meanR, varR, nr, true))
  {
  }

  /** With a positive pooled variance over non-empty populations the signed
      score is positive exactly when the group's mean is above the
      reference's, and negative exactly when it is below. */
  lemma ScoreSign(sqrt: real -> real, meanG: real, varG: real, ng: nat, meanR: real, varR: real, nr: nat)
    requires PositiveSqrt(sqrt)
    requires 0 < ng && 0 < nr && 0.0 < varG / ng as real + varR / nr as real
    ensures 0.0 < TScore(sqrt, meanG, varG, ng, meanR, varR, nr, true) <==> meanR < meanG
    ensures TScore(sqrt, meanG, varG, ng, meanR, varR, nr, true) < 0.0 <==> meanG < meanR
  {
    var v := varG / ng as real + varR / nr as real;
    var s := sqrt(v);
    assert 0.0 < s;
    assert Denominator(sqrt, varG, ng, varR, nr) == Finite(s);
    var diff := meanG - meanR;
    assert TScore(sqrt, meanG, varG, ng, meanR, varR, nr, true) == diff / s;
    if 0.0 < diff {
      assert 0.0 < diff / s;
    } else if diff < 0.0 {
      assert diff / s < 0.0;
    } else {
      assert diff / s == 0.0;
    }
  }

  /** Line 138 in place: `denominator[denominator == 0] = np.nan`. */
  method ReplaceZeros(d: array<Float>)
    modifies d
    ensures forall j :: 0 <= j < d.Length ==> d[j] == ZeroToNaN(old(d[j]))
  {
    var j := 0;
    while j < d.Length
      invariant 0 <= j <= d.Length
      invariant forall i :: 0 <= i < j ==> d[i] == ZeroToNaN(old(d[i]))
      invariant forall i :: j <= i < d.Length ==> d[i] == old(d[i])
    {
      if d[j] == Finite(0.0) {
        d[j] := NaN;
      }
      j := j + 1;
    }
  }

  /** Line 140 in place: `zscores[np.isnan(zscores)] = 0`. */
  method ReplaceNaNs(z: array<Float>)
    modifies z
    ensures forall j :: 0 <= j < z.Length ==> z[j] == Finite(NaNToZero(old(z[j])))
  {
    var j := 0;
    while j < z.Length
      invariant 0 <= j <= z.Length
      invariant forall i :: 0 <= i < j ==> z[i] == Finite(NaNToZero(old(z[i])))
      invariant forall i :: j <= i < z.Length ==> z[i] == old(z[i])
    {
      if z[j] == NaN {
        z[j] := Finite(0.0);
      }
      j := j + 1;
    }
  }

  /** Line 139: `(means[igroup] - mean_rest) / denominator`, entry by entry. */
  method Quotients(meanG: seq<real>, meanR: seq<real>, d: array<Float>) returns (z: array<Float>)
    requires |meanG| == d.Length && |meanR| == d.Length
    requires forall j :: 0 <= j < d.Length ==> d[j] != Finite(0.0)
    ensures fresh(z) && z.Length == d.Length
    ensures forall j :: 0 <= j < d.Length ==> z[j] == Divide(meanG[j] - meanR[j], d[j])
  {
    z := new Float[d.Length];
    var j := 0;
    while j < d.Length
      invariant 0 <= j <= d.Length
      invariant forall i :: 0 <= i < j ==> z[i] == Divide(meanG[i] - meanR[i], d[i])
    {
      z[j] := Divide(meanG[j] - meanR[j], d[j]);
      j := j + 1;
    }
  }

  /** Line 141: `zscores if only_positive else np.abs(zscores)` on scores
      that are NaN-free. */
  method ApplySignPolicy(z: array<Float>, onlyPositive: bool) returns (scores: seq<real>)
    requires forall j :: 0 <= j < z.Length ==> z[j].Finite?
    ensures |scores| == z.Length
    ensures forall j :: 0 <= j < z.Length ==> scores[j] == SignPolicy(z[j].val, onlyPositive)
  {
    var a := new real[z.Length];
    var j := 0;
    while j < z.Length
      invariant 0 <= j <= z.Length
      invariant forall i :: 0 <= i < j ==> a[i] == SignPolicy(z[i].val, onlyPositive)
    {
      a[j] := SignPolicy(z[j].val, onlyPositive);
      j := j + 1;
    }
    scores := a[..];
  }

  /** Lines 137-141 for one group: the denominators (kept for the
      distribution columns) and the scores of all genes. */
  method GroupScores(sqrt: real -> real, group: MeanVar, ng: nat, rest: MeanVar, nr: nat, onlyPositive: bool)
    returns (denominator: seq<Float>, zscores: seq<real>)
    requires |group.variance| == |group.mean| && |rest.mean| == |group.mean| && |rest.variance| == |group.mean|
    ensures |denominator| == |group.mean| && |zscores| == |group.mean|
    ensures forall j :: 0 <= j < |group.mean| ==>
      denominator[j] == Denominator(sqrt, group.variance[j], ng, rest.variance[j], nr)
    ensures forall j :: 0 <= j < |group.mean| ==>
      zscores[j] == TScore(sqrt, group.mean[j], group.variance[j], ng, rest.mean[j], rest.variance[j], nr, onlyPositive)
  {
    var n := |group.mean|;
    var d := new Float[n](j requires 0 <= j < n => SqrtF(sqrt, PooledVariance(group.variance[j], ng, rest.variance[j], nr)));
    ReplaceZeros(d);
    denominator := d[..];
    var z := Quotients(group.mean, rest.mean, d);
    ghost var quotients := z[..];
    ReplaceNaNs(z);
    zscores := ApplySignPolicy(z, onlyPositive);
    forall j | 0 <= j < n
      ensures zscores[j] == TScore(sqrt, group.mean[j], group.variance[j], ng, rest.mean[j], rest.variance[j], nr, onlyPositive)
    {
      assert denominator[j] == Denominator(sqrt, group.variance[j], ng, rest.variance[j], nr);
      assert quotients[j] == Divide(group.mean[j] - rest.mean[j], denominator[j]);
      assert z[j] == Finite(NaNToZero(quotients[j]));
    }
  }

  /** Lines 108-112: the mean and variance of every group, one row per mask,
      from the statistics routine applied to the group's samples. */
  method GroupStatistics(meanVar: seq<bool> -> MeanVar, masks: seq<seq<bool>>) returns (stats: seq<MeanVar>)
    ensures |stats| == |masks|
    ensures forall i :: 0 <= i < |masks| ==> stats[i] == meanVar(masks[i])
  {
    var rows := new MeanVar[|masks|](_ => MeanVar([], []));
    for imask := 0 to |masks|
      invariant forall i :: 0 <= i < imask ==> rows[i] == meanVar(masks[i])
    {
      rows[imask] := meanVar(masks[imask]);
    }
    stats := rows[..];
  }

  /** `(x - mean_rest) / denominator` for one sample. */
  function Residual(x: real, meanRest: real, denominator: Float): Float
    requires denominator != Finite(0.0)
  {
    Divide(x - meanRest, denominator)
  }

  /** A standardized residual read back gives the expression value. */
  lemma ResidualRoundTrip(x: real, meanRest: real, d: real)
    requires d != 0.0
    ensures Residual(x, meanRest, Finite(d)).Finite?
    ensures Residual(x, meanRest, Finite(d)).val * d + meanRest == x
  {
  }

  /** A full-length column: NaN outside the group, the standardized residual
      of the gene inside. */
  predicate IsDistribution(col: seq<Float>, X: seq<seq<real>>, mask: seq<bool>, gene: nat,
                           meanRest: real, denominator: Float)
    requires |mask| == |X| && denominator != Finite(0.0)
    requires forall s :: 0 <= s < |X| ==> gene < |X[s]|
  {
    |col| == |X| &&
    forall s :: 0 <= s < |X| ==>
      col[s] == (if mask[s] then Residual(X[s][gene], meanRest, denominator) else NaN)
  }

  /** Lines 151-157: `full_col` starts all NaN and receives the residuals at
      the group's samples. */
  method DistributionColumn(X: seq<seq<real>>, mask: seq<bool>, gene: nat, meanRest: real, denominator: Float)
    returns (col: seq<Float>)
    requires |mask| == |X| && denominator != Finite(0.0)
    requires forall s :: 0 <= s < |X| ==> gene < |X[s]|
    ensures IsDistribution(col, X, mask, gene, meanRest, denominator)
  {
    var full := new Float[|X|](_ => NaN);
    var s := 0;
    while s < |X|
      invariant 0 <= s <= |X|
      invariant forall i :: 0 <= i < s ==>
        full[i] == (if mask[i] then Residual(X[i][gene], meanRest, denominator) else NaN)
      invariant forall i :: s <= i < |X| ==> full[i] == NaN
    {
      if mask[s] {
        full[s] := Residual(X[s][gene], meanRest, denominator);
      }
      s := s + 1;
    }
    col := full[..];
  }

  /** The key of rank position `c` of a group. */
  function KeyAt(groupby: string, name: string, varNames: seq<string>, globalIndices: seq<nat>, c: nat): string
    requires c < |globalIndices| && TopK.InRange(globalIndices, |varNames|)
  {
    Identifier.BuildIdentifier(groupby, name, c, varNames[globalIndices[c]])
  }

  /** The keys written for the first `count` rank positions of a group. */
  function DistributionKeys(groupby: string, name: string, varNames: seq<string>,
                            globalIndices: seq<nat>, count: nat): (keys: set<string>)
    requires count <= |globalIndices| && TopK.InRange(globalIndices, |varNames|)
  {
    if count == 0 then {}
    else DistributionKeys(groupby, name, varNames, globalIndices, count - 1)
           + {KeyAt(groupby, name, varNames, globalIndices, count - 1)}
  }

  /** Every rank position below `count` has its key among the keys written. */
  lemma {:induction false} KeyWritten(groupby: string, name: string, varNames: seq<string>,
                                      globalIndices: seq<nat>, count: nat, c: nat)
    requires c < count <= |globalIndices| && TopK.InRange(globalIndices, |varNames|)
    ensures KeyAt(groupby, name, varNames, globalIndices, c) in DistributionKeys(groupby, name, varNames, globalIndices, count)
  {
    if c < count - 1 {
      KeyWritten(groupby, name, varNames, globalIndices, count - 1, c);
    }
  }

  /** Different rank positions of one group never share a key: the key of
      position `count` is none of the keys of the positions before `upTo`. */
  lemma {:induction false} KeyNotEarlier(groupby: string, name: string, varNames: seq<string>,
                                         globalIndices: seq<nat>, count: nat, upTo: nat)
    requires upTo <= count < |globalIndices| && TopK.InRange(globalIndices, |varNames|)
    ensures KeyAt(groupby, name, varNames, globalIndices, count)
            !in DistributionKeys(groupby, name, varNames, globalIndices, upTo)
  {
    if upTo > 0 {
      KeyNotEarlier(groupby, name, varNames, globalIndices, count, upTo - 1);
      if KeyAt(groupby, name, varNames, globalIndices, count) == KeyAt(groupby, name, varNames, globalIndices, upTo - 1) {
        Identifier.IdentifierInjective(groupby, name, count, varNames[globalIndices[count]],
                                       upTo - 1, varNames[globalIndices[upTo - 1]]);
      }
    }
  }

  /** Lines 148-158: one column per rank position `gene_counter` of the
      group, stored under `_build_identifier(...)`; every other key keeps its
      column. */
  method GroupDistributions(smp: map<string, seq<Float>>, groupby: string, name: string,
                            X: seq<seq<real>>, mask: seq<bool>, varNames: seq<string>,
                            globalIndices: seq<nat>, nGenesUser: nat,
                            meanRest: seq<real>, denominator: seq<Float>)
    returns (out: map<string, seq<Float>>)
    requires Rectangular(X, |varNames|) && |mask| == |X|
    requires |meanRest| == |varNames| && |denominator| == |varNames|
    requires forall j :: 0 <= j < |denominator| ==> denominator[j] != Finite(0.0)
    requires nGenesUser <= |globalIndices| && TopK.InRange(globalIndices, |varNames|)
    ensures out.Keys == smp.Keys + DistributionKeys(groupby, name, varNames, globalIndices, nGenesUser)
    ensures forall key :: key in smp && key !in DistributionKeys(groupby, name, varNames, globalIndices, nGenesUser) ==>
      out[key] == smp[key]
    ensures forall c :: 0 <= c < nGenesUser ==>
      var gene := globalIndices[c];
      KeyAt(groupby, name, varNames, globalIndices, c) in out &&
      IsDistribution(out[KeyAt(groupby, name, varNames, globalIndices, c)],
                     X, mask, gene, meanRest[gene], denominator[gene])
  {
    out := smp;
    var geneCounter := 0;
    while geneCounter < nGenesUser
      invariant 0 <= geneCounter <= nGenesUser
      invariant out.Keys == smp.Keys + DistributionKeys(groupby, name, varNames, globalIndices, geneCounter)
      invariant forall key :: key in smp && key !in DistributionKeys(groupby, name, varNames, globalIndices, geneCounter) ==>
        out[key] == smp[key]
      invariant forall c :: 0 <= c < geneCounter ==>
        var gene := globalIndices[c];
        KeyAt(groupby, name, varNames, globalIndices, c) in out &&
        IsDistribution(out[KeyAt(groupby, name, varNames, globalIndices, c)],
                       X, mask, gene, meanRest[gene], denominator[gene])
    {
      var geneIdx := globalIndices[geneCounter];
      var identifier := Identifier.BuildIdentifier(groupby, name, geneCounter, varNames[geneIdx]);
      var fullCol := DistributionColumn(X, mask, geneIdx, meanRest[geneIdx], denominator[geneIdx]);
      forall c | 0 <= c < geneCounter
        ensures KeyAt(groupby, name, varNames, globalIndices, c) != identifier
      {
        KeyNotEarlier(groupby, name, varNames, globalIndices, geneCounter, c + 1);
      }
      out := out[identifier := fullCol];
      geneCounter := geneCounter + 1;
    }
  }
}
