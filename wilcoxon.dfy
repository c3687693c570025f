/** The Wilcoxon rank-sum score of lines 164-194. For each gene the group's
    values and the reference's values are put one after the other, ranked
    with `DataFrame.rank()` (ties get the mean of the positions they occupy)
    and the group's ranks are summed into W. */
module Wilcoxon {
  import opened Common

  function CountLess(c: seq<real>, y: real): nat
  {
    if c == [] then 0 else CountLess(c[..|c| - 1], y) + (if c[|c| - 1] < y then 1 else 0)
  }

  function CountEqual(c: seq<real>, y: real): nat
  {
    if c == [] then 0 else CountEqual(c[..|c| - 1], y) + (if c[|c| - 1] == y then 1 else 0)
  }

  function CountGreater(c: seq<real>, y: real): nat
  {
    if c == [] then 0 else CountGreater(c[..|c| - 1], y) + (if c[|c| - 1] > y then 1 else 0)
  }

  lemma {:induction false} CountsPartition(c: seq<real>, y: real)
    ensures CountLess(c, y) + CountEqual(c, y) + CountGreater(c, y) == |c|
  {
    if c != [] {
      CountsPartition(c[..|c| - 1], y);
    }
  }

  lemma {:induction false} CountsAppend(c: seq<real>, d: seq<real>, y: real)
    ensures CountLess(c + d, y) == CountLess(c, y) + CountLess(d, y)
    ensures CountEqual(c + d, y) == CountEqual(c, y) + CountEqual(d, y)
    ensures CountGreater(c + d, y) == CountGreater(c, y) + CountGreater(d, y)
  {
    if d == [] {
      assert c + d == c;
    } else {
      var d' := d[..|d| - 1];
      assert (c + d)[..|c + d| - 1] == c + d';
      assert (c + d)[|c + d| - 1] == d[|d| - 1];
      CountsAppend(c, d', y);
    }
  }

  lemma {:induction false} CountEqualMember(c: seq<real>, i: nat)
    requires i < |c|
    ensures 1 <= CountEqual(c, c[i])
  {
    if i < |c| - 1 {
      assert c[..|c| - 1][i] == c[i];
      CountEqualMember(c[..|c| - 1], i);
    }
  }

  /** The average rank of the value `y` among the values `c`: the number of
      smaller values plus the mean of the positions `1 .. E` of the `E`
      values equal to `y`. */
  function AverageRank(c: seq<real>, y: real): real
  {
    (2 * CountLess(c, y) + CountEqual(c, y) + 1) as real / 2.0
  }

  /** The ranks, among `c`, of the values `d`. */
  function RanksAmong(d: seq<real>, c: seq<real>): (r: seq<real>)
    ensures |r| == |d|
  {
    seq(|d|, i requires 0 <= i < |d| => AverageRank(c, d[i]))
  }

  /** `DataFrame.rank()` with the default `method='average'`. */
  function AverageRanks(c: seq<real>): (r: seq<real>)
    ensures |r| == |c|
  {
    RanksAmong(c, c)
  }

  function Sum(s: seq<real>): real
  {
    if s == [] then 0.0 else Sum(s[..|s| - 1]) + s[|s| - 1]
  }

  lemma {:induction false} SumAppend(a: seq<real>, b: seq<real>)
    ensures Sum(a + b) == Sum(a) + Sum(b)
  {
    if b == [] {
      assert a + b == a;
    } else {
      var b' := b[..|b| - 1];
      assert (a + b)[..|a + b| - 1] == a + b';
      assert (a + b)[|a + b| - 1] == b[|b| - 1];
      SumAppend(a, b');
    }
  }

  /** Twice the rank sum without the `+1` of each value: the number of
      ordered pairs (y, x) with x < y counted twice, plus those with x == y. */
  function PairCount(d: seq<real>, c: seq<real>): nat
  {
    if d == [] then 0
    else PairCount(d[..|d| - 1], c) + 2 * CountLess(c, d[|d| - 1]) + CountEqual(c, d[|d| - 1])
  }

  lemma {:induction false} RanksAmongSum(d: seq<real>, c: seq<real>)
    ensures 2.0 * Sum(RanksAmong(d, c)) == (PairCount(d, c) + |d|) as real
  {
    if d != [] {
      var d' := d[..|d| - 1];
      assert RanksAmong(d, c)[..|d| - 1] == RanksAmong(d', c);
      RanksAmongSum(d', c);
    }
  }

  lemma {:induction false} PairCountExtend(d: seq<real>, c: seq<real>, x: real)
    ensures PairCount(d, c + [x]) == PairCount(d, c) + 2 * CountGreater(d, x) + CountEqual(d, x)
  {
    assert (c + [x])[..|c|] == c;
    if d != [] {
      PairCountExtend(d[..|d| - 1], c, x);
    }
  }

  lemma {:induction false} PairCountSelf(c: seq<real>)
    ensures PairCount(c, c) == |c| * |c|
  {
    if c != [] {
      var c' := c[..|c| - 1];
      var x := c[|c| - 1];
      assert c == c' + [x];
      var k := |c'|;
      PairCountSelf(c');
      PairCountExtend(c', c', x);
      CountsPartition(c', x);
      assert CountLess(c, x) == CountLess(c', x);
      assert CountEqual(c, x) == CountEqual(c', x) + 1;
      assert PairCount(c, c) == PairCount(c', c) + 2 * CountLess(c, x) + CountEqual(c, x);
      assert PairCount(c', c) == PairCount(c', c') + 2 * CountGreater(c', x) + CountEqual(c', x);
      SquareStep(k, PairCount(c', c'), CountLess(c', x), CountEqual(c', x), CountGreater(c', x));
    }
  }

  /** Adding one value to `k` values adds `2k + 1` ordered pairs. */
  lemma SquareStep(k: nat, p: nat, lt: nat, eq: nat, gt: nat)
    requires p == k * k && lt + eq + gt == k
    ensures p + 2 * gt + eq + 2 * lt + eq + 1 == (k + 1) * (k + 1)
  {
    assert (k + 1) * (k + 1) == k * k + 2 * k + 1;
  }

  /** The average ranks of `N` values lie in `[1, N]`, sum to `N(N+1)/2`,
      agree on equal values and order like the values. */
  lemma RankInvariants(c: seq<real>)
    ensures Sum(AverageRanks(c)) == (|c| * (|c| + 1)) as real / 2.0
    ensures forall i :: 0 <= i < |c| ==> 1.0 <= AverageRanks(c)[i] <= |c| as real
    ensures forall i, j :: 0 <= i < |c| && 0 <= j < |c| && c[i] == c[j] ==> AverageRanks(c)[i] == AverageRanks(c)[j]
    ensures forall i, j :: 0 <= i < |c| && 0 <= j < |c| && c[i] < c[j] ==> AverageRanks(c)[i] < AverageRanks(c)[j]
  {
    RanksAmongSum(c, c);
    PairCountSelf(c);
    forall i | 0 <= i < |c|
      ensures 1.0 <= AverageRanks(c)[i] <= |c| as real
    {
      CountEqualMember(c, i);
      CountsPartition(c, c[i]);
    }
    forall i, j | 0 <= i < |c| && 0 <= j < |c| && c[i] < c[j]
      ensures AverageRanks(c)[i] < AverageRanks(c)[j]
    {
      CountLessMonotone(c, c[i], c[j]);
      CountEqualMember(c, j);
    }
  }

  lemma {:induction false} CountLessMonotone(c: seq<real>, y: real, y': real)
    requires y < y'
    ensures CountLess(c, y) + CountEqual(c, y) <= CountLess(c, y')
  {
    if c != [] {
      CountLessMonotone(c[..|c| - 1], y, y');
    }
  }

  /** `X[mask, gene]`: the gene's values at the samples of the mask, in
      sample order. */
  function Column(X: seq<seq<real>>, mask: seq<bool>, gene: nat): (v: seq<real>)
    requires |mask| == |X| && forall s :: 0 <= s < |X| ==> gene < |X[s]|
    ensures |v| == Count(mask)
  {
    if X == [] then []
    else
      var n := |X| - 1;
      Column(X[..n], mask[..n], gene) + (if mask[n] then [X[n][gene]] else [])
  }

  function Min(a: nat, b: nat): nat
  {
    if a < b then a else b
  }

  /** Line 189 as written: `ranks.loc[0:n_active]` is inclusive in pandas, so
      the sum takes the first `n + 1` rows: every rank of the group and the
      rank of the first reference value. */
  function RankSumAsWritten(g: seq<real>, r: seq<real>): real
  {
    Sum(AverageRanks(g + r)[..Min(|g| + 1, |g| + |r|)])
  }

  lemma SumSingle(s: seq<real>)
    requires |s| == 1
    ensures Sum(s) == s[0]
  {
    assert s[..0] == [];
  }

  /** The group's rank sum W: the ranks of the first `n` rows only. */
  function RankSum(g: seq<real>, r: seq<real>): real
  {
    Sum(AverageRanks(g + r)[..|g|])
  }

  /** Finding: with a non-empty reference, the inclusive slice adds the rank
      of the reference's first value to W. */
  lemma RankSumAsWrittenExtra(g: seq<real>, r: seq<real>)
    requires r != []
    ensures RankSumAsWritten(g, r) == RankSum(g, r) + AverageRank(g + r, r[0])
  {
    var ranks := AverageRanks(g + r);
    assert ranks[..|g| + 1] == ranks[..|g|] + [ranks[|g|]];
    SumAppend(ranks[..|g|], [ranks[|g|]]);
    SumSingle([ranks[|g|]]);
  }

  /** The input that shows it: one sample on each side, group value 0,
      reference value 1. The group's only rank is 1, the code sums 1 + 2. */
  lemma RankSumAsWrittenCounterexample()
    ensures RankSum([0.0], [1.0]) == 1.0
    ensures RankSumAsWritten([0.0], [1.0]) == 3.0
  {
    var c := [0.0] + [1.0];
    assert c == [0.0, 1.0] && c[..1] == [0.0] && [0.0][..0] == [];
    assert CountLess(c, 0.0) == 0 && CountEqual(c, 0.0) == 1;
    assert CountLess(c, 1.0) == 1 && CountEqual(c, 1.0) == 1;
    RankSumAsWrittenExtra([0.0], [1.0]);
    var ranks := AverageRanks(c);
    assert ranks[0] == 1.0 && ranks[1] == 2.0;
    SumSingle(ranks[..1]);
  }

  /** The variance term `n*m*(n+m+1)/12` under the square root. */
  function Spread(n: nat, m: nat): real
  {
    (n * m * (n + m + 1)) as real / 12.0
  }

  /** Line 193 as written: W is centred on `m*(n+m+1)/2`. */
  function ZAsWritten(sqrt: real -> real, w: real, n: nat, m: nat): real
    requires PositiveSqrt(sqrt) && 0 < n && 0 < m
  {
    (w - (m * (n + m + 1)) as real / 2.0) / sqrt(Spread(n, m))
  }

  /** Line 193 centred on `n*(n+m+1)/2`, the value W takes when every value
      ties. This is the normalisation the model uses. */
  function Z(sqrt: real -> real, w: real, n: nat, m: nat): real
    requires PositiveSqrt(sqrt) && 0 < n && 0 < m
  {
    (w - (n * (n + m + 1)) as real / 2.0) / sqrt(Spread(n, m))
  }

  /** The Wilcoxon score of the model for one gene: W of the group's values
      against the reference's, centred, scaled and passed through the sign
      policy. */
  function WScore(sqrt: real -> real, g: seq<real>, r: seq<real>, onlyPositive: bool): real
    requires PositiveSqrt(sqrt) && g != [] && r != []
  {
    SignPolicy(Z(sqrt, RankSum(g, r), |g|, |r|), onlyPositive)
  }

  lemma {:induction false} TiedRanks(c: seq<real>, y: real)
    requires forall i :: 0 <= i < |c| ==> c[i] == y
    ensures CountLess(c, y) == 0 && CountEqual(c, y) == |c|
  {
    if c != [] {
      TiedRanks(c[..|c| - 1], y);
    }
  }

  lemma {:induction false} SumConstant(s: seq<real>, v: real)
    requires forall i :: 0 <= i < |s| ==> s[i] == v
    ensures Sum(s) == |s| as real * v
  {
    if s != [] {
      SumConstant(s[..|s| - 1], v);
    }
  }

  lemma RankSumTied(g: seq<real>, r: seq<real>, y: real)
    requires forall i :: 0 <= i < |g| ==> g[i] == y
    requires forall i :: 0 <= i < |r| ==> r[i] == y
    ensures RankSum(g, r) == |g| as real * ((|g| + |r| + 1) as real / 2.0)
  {
    var c := g + r;
    assert forall i :: 0 <= i < |c| ==> c[i] == y;
    TiedRanks(c, y);
    var half := (|c| + 1) as real / 2.0;
    assert AverageRank(c, y) == half;
    var ranks := AverageRanks(c)[..|g|];
    assert forall i :: 0 <= i < |ranks| ==> ranks[i] == half;
    SumConstant(ranks, half);
  }

  /** When every value of the gene is the same, W is `n(N+1)/2` and the
      score is 0. */
  lemma AllTiedScoresZero(sqrt: real -> real, g: seq<real>, r: seq<real>, y: real, onlyPositive: bool)
    requires PositiveSqrt(sqrt) && g != [] && r != []
    requires forall i :: 0 <= i < |g| ==> g[i] == y
    requires forall i :: 0 <= i < |r| ==> r[i] == y
    ensures RankSum(g, r) == (|g| * (|g| + |r| + 1)) as real / 2.0
    ensures WScore(sqrt, g, r, onlyPositive) == 0.0
  {
    RankSumTied(g, r, y);
    var n, m := |g|, |r|;
    assert n as real * ((n + m + 1) as real / 2.0) == (n * (n + m + 1)) as real / 2.0;
    var s := sqrt(Spread(n, m));
    assert Z(sqrt, RankSum(g, r), n, m) == 0.0 / s;
  }

  /** The two as-written lines together give a non-zero score when every
      value ties, here one sample on each side, both 0. With `n == m` the two
      centres coincide, so here the slice of line 189 alone is responsible. */
  lemma TiedAsWrittenCounterexample(sqrt: real -> real)
    requires PositiveSqrt(sqrt)
    ensures RankSumAsWritten([0.0], [0.0]) == 3.0
    ensures ZAsWritten(sqrt, RankSumAsWritten([0.0], [0.0]), 1, 1) > 0.0
  {
    RankSumTied([0.0], [0.0], 0.0);
    RankSumAsWrittenExtra([0.0], [0.0]);
    var c := [0.0] + [0.0];
    TiedRanks(c, 0.0);
    assert AverageRank(c, 0.0) == 1.5;
    assert 0.0 < sqrt(Spread(1, 1));
  }

  /** With a non-empty reference and every value tied, the as-written W is
      `(n+1)(N+1)/2`: the group's ranks plus one more tied rank. */
  lemma RankSumAsWrittenTied(g: seq<real>, r: seq<real>, y: real)
    requires r != []
    requires forall i :: 0 <= i < |g| ==> g[i] == y
    requires forall i :: 0 <= i < |r| ==> r[i] == y
    ensures RankSumAsWritten(g, r) == ((|g| + 1) * (|g| + |r| + 1)) as real / 2.0
  {
    var half := (|g| + |r| + 1) as real / 2.0;
    RankSumTied(g, r, y);
    assert RankSum(g, r) == |g| as real * half;
    RankSumAsWrittenExtra(g, r);
    var c := g + r;
    assert forall i :: 0 <= i < |c| ==> c[i] == y;
    TiedRanks(c, y);
    assert r[0] == y;
    assert AverageRank(c, r[0]) == half;
    assert RankSumAsWritten(g, r) == |g| as real * half + half;
    OneMoreHalf(|g|, |g| + |r| + 1);
  }

  lemma OneMoreHalf(a: nat, b: nat)
    ensures a as real * (b as real / 2.0) + b as real / 2.0 == ((a + 1) * b) as real / 2.0
  {
    assert ((a + 1) * b) as real == a as real * b as real + b as real;
  }

  /** Finding: centring on `m` makes a score out of nothing. One group
      value against three reference values, all 0: the code sums
      W = 2.5 + 2.5 = 5 and centres it on 7.5, so its score is negative,
      while the corrected W is 2.5, its own centre, and the corrected score
      is 0. The centre alone is enough: 7.5 also exceeds the corrected W. */
  lemma CentringCounterexample(sqrt: real -> real)
    requires PositiveSqrt(sqrt)
    ensures RankSumAsWritten([0.0], [0.0, 0.0, 0.0]) == 5.0
    ensures ZAsWritten(sqrt, RankSumAsWritten([0.0], [0.0, 0.0, 0.0]), 1, 3) < 0.0
    ensures RankSum([0.0], [0.0, 0.0, 0.0]) == 2.5
    ensures Z(sqrt, RankSum([0.0], [0.0, 0.0, 0.0]), 1, 3) == 0.0
    ensures ZAsWritten(sqrt, RankSum([0.0], [0.0, 0.0, 0.0]), 1, 3) < 0.0
  {
    var g, r := [0.0], [0.0, 0.0, 0.0];
    AllTiedScoresZero(sqrt, g, r, 0.0, true);
    RankSumAsWrittenTied(g, r, 0.0);
    assert 0.0 < sqrt(Spread(1, 3));
  }

  /** Finding: the code's signed score can be negative although every group
      value exceeds every reference value. Group [1] against reference
      [0, 0, 0]: the corrected score is positive, while the code sums
      W = 4 + 2 = 6 and centres it on 7.5. */
  lemma SeparatedAsWrittenCounterexample(sqrt: real -> real)
    requires PositiveSqrt(sqrt)
    ensures 0.0 < WScore(sqrt, [1.0], [0.0, 0.0, 0.0], true)
    ensures RankSumAsWritten([1.0], [0.0, 0.0, 0.0]) == 6.0
    ensures ZAsWritten(sqrt, RankSumAsWritten([1.0], [0.0, 0.0, 0.0]), 1, 3) < 0.0
  {
    var g, r := [1.0], [0.0, 0.0, 0.0];
    SeparatedScorePositive(sqrt, g, r);
    RankSumAsWrittenExtra(g, r);
    var c := g + r;
    assert c == [1.0] + [0.0, 0.0, 0.0];
    CountsAppend([1.0], [0.0, 0.0, 0.0], 0.0);
    AllBelow([1.0][..0], 1.0);
    assert [1.0][..0] == [];
    TiedRanks([0.0, 0.0, 0.0], 0.0);
    assert CountLess([1.0], 0.0) == 0 && CountEqual([1.0], 0.0) == 0;
    assert AverageRank(c, r[0]) == 2.0;
    assert 0.0 < sqrt(Spread(1, 3));
  }

  /** How far the code's z lies from the corrected one: the rank of the first
      reference value, which line 189 adds to W, plus the gap `(n-m)(N+1)/2`
      between the two centres, both scaled by the same normaliser. */
  lemma AsWrittenShift(sqrt: real -> real, g: seq<real>, r: seq<real>)
    requires PositiveSqrt(sqrt) && g != [] && r != []
    ensures ZAsWritten(sqrt, RankSumAsWritten(g, r), |g|, |r|)
         == Z(sqrt, RankSum(g, r), |g|, |r|)
            + (AverageRank(g + r, r[0]) + (|g| * (|g| + |r| + 1) - |r| * (|g| + |r| + 1)) as real / 2.0)
              / sqrt(Spread(|g|, |r|))
  {
    RankSumAsWrittenExtra(g, r);
    var n, m := |g|, |r|;
    SpreadPositive(n, m);
    var s := sqrt(Spread(n, m));
    var w, a := RankSum(g, r), AverageRank(g + r, r[0]);
    var cn, cm := (n * (n + m + 1)) as real / 2.0, (m * (n + m + 1)) as real / 2.0;
    assert ZAsWritten(sqrt, RankSumAsWritten(g, r), n, m) == ((w - cn) + (a + (cn - cm))) / s;
    assert Z(sqrt, w, n, m) == (w - cn) / s;
    DivideSum(w - cn, a + (cn - cm), s);
    assert (n * (n + m + 1) - m * (n + m + 1)) as real / 2.0 == cn - cm;
  }

  lemma SpreadPositive(n: nat, m: nat)
    requires 0 < n && 0 < m
    ensures 0.0 < Spread(n, m)
  {
    assert 0 < n * m;
    assert 0 < (n * m) * (n + m + 1);
  }

  lemma DivideSum(x: real, y: real, s: real)
    requires s != 0.0
    ensures (x + y) / s == x / s + y / s
  {
  }

  lemma RanksAmongSplit(g: seq<real>, r: seq<real>, c: seq<real>)
    ensures RanksAmong(g + r, c)[..|g|] == RanksAmong(g, c)
    ensures RanksAmong(g + r, c)[|g|..] == RanksAmong(r, c)
  {
  }

  /** The rank of a value among `g + r` does not depend on the order of the
      two parts. */
  lemma RanksAmongSwap(d: seq<real>, g: seq<real>, r: seq<real>)
    ensures RanksAmong(d, g + r) == RanksAmong(d, r + g)
  {
    forall i | 0 <= i < |d|
      ensures RanksAmong(d, g + r)[i] == RanksAmong(d, r + g)[i]
    {
      CountsAppend(g, r, d[i]);
      CountsAppend(r, g, d[i]);
    }
  }

  /** The two rank sums of a comparison add up to `N(N+1)/2`. */
  lemma RankSumsComplement(g: seq<real>, r: seq<real>)
    ensures RankSum(g, r) + RankSum(r, g) == ((|g| + |r|) * (|g| + |r| + 1)) as real / 2.0
  {
    var c := g + r;
    var ranks := AverageRanks(c);
    RankSumTotal(c);
    RanksAmongSplit(g, r, c);
    RanksAmongSplit(r, g, r + g);
    RanksAmongSwap(r, g, r);
    assert RankSum(g, r) == Sum(ranks[..|g|]);
    assert RankSum(r, g) == Sum(RanksAmong(r, r + g));
    assert RanksAmong(r, r + g) == ranks[|g|..];
    assert ranks == ranks[..|g|] + ranks[|g|..];
    SumAppend(ranks[..|g|], ranks[|g|..]);
  }

  /** Centred on their own expected values, the two rank sums are opposite. */
  lemma CentredOpposite(g: seq<real>, r: seq<real>)
    ensures RankSum(g, r) - (|g| * (|g| + |r| + 1)) as real / 2.0
         == -(RankSum(r, g) - (|r| * (|r| + |g| + 1)) as real / 2.0)
  {
    RankSumsComplement(g, r);
    CentresAdd(|g|, |r|);
  }

  /** The two expected rank sums add up to the total rank sum. */
  lemma CentresAdd(n: nat, m: nat)
    ensures (n * (n + m + 1)) as real / 2.0 + (m * (m + n + 1)) as real / 2.0
         == ((n + m) * (n + m + 1)) as real / 2.0
  {
    assert (n + m) * (n + m + 1) == n * (n + m + 1) + m * (m + n + 1);
  }

  lemma SpreadSymmetric(n: nat, m: nat)
    ensures Spread(n, m) == Spread(m, n)
  {
    assert n * m * (n + m + 1) == m * n * (m + n + 1);
  }

  lemma OppositeQuotients(a: real, b: real, s: real)
    requires a == -b && s != 0.0
    ensures a / s == -(b / s)
  {
  }

  lemma ZOpposite(sqrt: real -> real, g: seq<real>, r: seq<real>)
    requires PositiveSqrt(sqrt) && g != [] && r != []
    ensures Z(sqrt, RankSum(g, r), |g|, |r|) == -Z(sqrt, RankSum(r, g), |r|, |g|)
  {
    var n, m := |g|, |r|;
    var a := RankSum(g, r) - (n * (n + m + 1)) as real / 2.0;
    var b := RankSum(r, g) - (m * (m + n + 1)) as real / 2.0;
    CentredOpposite(g, r);
    assert a == -b;
    SpreadSymmetric(n, m);
    SpreadPositive(n, m);
    var s := sqrt(Spread(n, m));
    assert s == sqrt(Spread(m, n));
    assert Z(sqrt, RankSum(g, r), n, m) == a / s;
    assert Z(sqrt, RankSum(r, g), m, n) == b / s;
    OppositeQuotients(a, b, s);
  }

  /** Swapping the group and the reference negates the signed score. */
  lemma ScoreAntisymmetric(sqrt: real -> real, g: seq<real>, r: seq<real>)
    requires PositiveSqrt(sqrt) && g != [] && r != []
    ensures WScore(sqrt, g, r, true) == -WScore(sqrt, r, g, true)
    ensures WScore(sqrt, g, r, false) == WScore(sqrt, r, g, false)
  {
    ZOpposite(sqrt, g, r);
  }

  lemma RankSumTotal(c: seq<real>)
    ensures Sum(AverageRanks(c)) == (|c| * (|c| + 1)) as real / 2.0
  {
    RanksAmongSum(c, c);
    PairCountSelf(c);
  }

  /** A value above every reference value moves up by `|r|` places. */
  lemma ShiftedRank(g: seq<real>, r: seq<real>, y: real)
    requires forall j :: 0 <= j < |r| ==> r[j] < y
    ensures AverageRank(g + r, y) == AverageRank(g, y) + |r| as real
  {
    CountsAppend(g, r, y);
    AllBelow(r, y);
  }

  lemma SeparatedShift(g: seq<real>, r: seq<real>)
    requires forall i, j :: 0 <= i < |g| && 0 <= j < |r| ==> r[j] < g[i]
    ensures Sum(RanksAmong(g, g + r)) == Sum(RanksAmong(g, g)) + |g| as real * |r| as real
  {
    var own := RanksAmong(g, g);
    var shifted := RanksAmong(g, g + r);
    forall i | 0 <= i < |g|
      ensures shifted[i] == own[i] + |r| as real
    {
      ShiftedRank(g, r, g[i]);
    }
    SumShift(own, shifted, |r| as real);
  }

  /** When every group value exceeds every reference value, each group value
      has all `m` reference values below it. */
  lemma RankSumSeparated(g: seq<real>, r: seq<real>)
    requires forall i, j :: 0 <= i < |g| && 0 <= j < |r| ==> r[j] < g[i]
    ensures RankSum(g, r) == (|g| * |r|) as real + (|g| * (|g| + 1)) as real / 2.0
  {
    RanksAmongSplit(g, r, g + r);
    SeparatedShift(g, r);
    RankSumTotal(g);
    assert |g| as real * |r| as real == (|g| * |r|) as real;
  }

  /** When every group value exceeds every reference value, W is
      `n*m + n(n+1)/2` and the signed score is positive. */
  lemma SeparatedScorePositive(sqrt: real -> real, g: seq<real>, r: seq<real>)
    requires PositiveSqrt(sqrt) && g != [] && r != []
    requires forall i, j :: 0 <= i < |g| && 0 <= j < |r| ==> r[j] < g[i]
    ensures RankSum(g, r) == (|g| * |r|) as real + (|g| * (|g| + 1)) as real / 2.0
    ensures 0.0 < WScore(sqrt, g, r, true)
  {
    RankSumSeparated(g, r);
    var n, m := |g|, |r|;
    var s := sqrt(Spread(n, m));
    assert 0.0 < s;
    var a := RankSum(g, r) - (n * (n + m + 1)) as real / 2.0;
    assert (n * (n + m + 1)) == n * m + n * (n + 1);
    assert a == (n * m) as real / 2.0;
    assert 0 < n * m;
    assert 0.0 < a / s;
  }

  lemma {:induction false} AllBelow(r: seq<real>, y: real)
    requires forall j :: 0 <= j < |r| ==> r[j] < y
    ensures CountLess(r, y) == |r| && CountEqual(r, y) == 0
  {
    if r != [] {
      AllBelow(r[..|r| - 1], y);
    }
  }

  lemma {:induction false} SumShift(a: seq<real>, b: seq<real>, k: real)
    requires |a| == |b| && forall i :: 0 <= i < |a| ==> b[i] == a[i] + k
    ensures Sum(b) == Sum(a) + |a| as real * k
  {
    if a != [] {
      SumShift(a[..|a| - 1], b[..|b| - 1], k);
    }
  }

  /** Line 176: the normal approximation is reported as unreliable. */
  function TooFewObservations(n: nat, m: nat): bool
  {
    n <= 25 || m <= 25
  }

  /** Lines 183-191: W for every gene of one group. */
  method RankSums(X: seq<seq<real>>, nGenes: nat, mask: seq<bool>, maskRest: seq<bool>) returns (w: seq<real>)
    requires Rectangular(X, nGenes) && |mask| == |X| && |maskRest| == |X|
    ensures |w| == nGenes
    ensures forall j :: 0 <= j < nGenes ==> w[j] == RankSum(Column(X, mask, j), Column(X, maskRest, j))
  {
    var nActive := Count(mask);
    var a := new real[nGenes];
    var activeGene := 0;
    while activeGene < nGenes
      invariant 0 <= activeGene <= nGenes
      invariant forall j :: 0 <= j < activeGene ==> a[j] == RankSum(Column(X, mask, j), Column(X, maskRest, j))
    {
      var values := Column(X, mask, activeGene) + Column(X, maskRest, activeGene);
      var ranks := AverageRanks(values);
      a[activeGene] := Sum(ranks[..nActive]);
      activeGene := activeGene + 1;
    }
    w := a[..];
  }

  /** The score of gene `j` of a group. */
  function GeneScore(sqrt: real -> real, X: seq<seq<real>>, nGenes: nat, mask: seq<bool>, maskRest: seq<bool>,
                     j: nat, onlyPositive: bool): real
    requires PositiveSqrt(sqrt) && Rectangular(X, nGenes) && |mask| == |X| && |maskRest| == |X|
    requires j < nGenes && 0 < Count(mask) && 0 < Count(maskRest)
  {
    WScore(sqrt, Column(X, mask, j), Column(X, maskRest, j), onlyPositive)
  }

  lemma GeneScoreFromRankSum(sqrt: real -> real, X: seq<seq<real>>, nGenes: nat, mask: seq<bool>, maskRest: seq<bool>,
                              j: nat, onlyPositive: bool)
    requires PositiveSqrt(sqrt) && Rectangular(X, nGenes) && |mask| == |X| && |maskRest| == |X|
    requires j < nGenes && 0 < Count(mask) && 0 < Count(maskRest)
    ensures GeneScore(sqrt, X, nGenes, mask, maskRest, j, onlyPositive)
         == SignPolicy(Z(sqrt, RankSum(Column(X, mask, j), Column(X, maskRest, j)), Count(mask), Count(maskRest)), onlyPositive)
  {
  }

  /** The normaliser `sqrt(n*m*(n+m+1)/12)` of an empty group or reference. */
  const ZeroNormaliser: Error := DegenerateNormaliser("sqrt(n*m*(n+m+1)/12) is 0")

  /** Lines 179-194 for one group: W gene by gene, then centring, scaling
      and the sign policy. An empty group or reference makes the scale
      `sqrt(0)`; the model reports that instead of dividing by it. */
  method GroupScores(sqrt: real -> real, X: seq<seq<real>>, nGenes: nat, mask: seq<bool>, maskRest: seq<bool>,
                     onlyPositive: bool)
    returns (r: Result<seq<real>>)
    requires PositiveSqrt(sqrt) && Rectangular(X, nGenes) && |mask| == |X| && |maskRest| == |X|
    ensures r.Err? <==> Count(mask) == 0 || Count(maskRest) == 0
    ensures r.Err? ==> r.error == ZeroNormaliser
    ensures r.Ok? ==> |r.value| == nGenes && forall j :: 0 <= j < nGenes ==>
      r.value[j] == GeneScore(sqrt, X, nGenes, mask, maskRest, j, onlyPositive)
  {
    var nActive := Count(mask);
    var mActive := Count(maskRest);
    var w := RankSums(X, nGenes, mask, maskRest);
    if nActive == 0 || mActive == 0 {
      return Err(ZeroNormaliser);
    }
    var z := new real[nGenes];
    var j := 0;
    while j < nGenes
      invariant 0 <= j <= nGenes
      invariant forall i :: 0 <= i < j ==> z[i] == GeneScore(sqrt, X, nGenes, mask, maskRest, i, onlyPositive)
    {
      z[j] := SignPolicy(Z(sqrt, w[j], nActive, mActive), onlyPositive);
      GeneScoreFromRankSum(sqrt, X, nGenes, mask, maskRest, j, onlyPositive);
      j := j + 1;
    }
    r := Ok(z[..]);
  }
}
