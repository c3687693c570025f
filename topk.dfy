/** Lines 142-144 (and 195-197): `np.argpartition(zscores, -k)[-k:]` followed
    by `np.argsort(...)[::-1]` yields the indices of the `k` largest scores in
    descending order of score. numpy fixes no order among equal scores; the
    model takes the lowest index first, and every property stated here holds
    for any order among ties. */
module TopK {
  import opened Common

  predicate InRange(idx: seq<nat>, n: nat)
  {
    forall i :: 0 <= i < |idx| ==> idx[i] < n
  }

  /** Scores read along the index list never increase. */
  predicate NonIncreasing(z: seq<real>, idx: seq<nat>)
    requires InRange(idx, |z|)
  {
    forall i, j :: 0 <= i < j < |idx| ==> z[idx[j]] <= z[idx[i]]
  }

  /** Position of a largest score among the candidates. */
  function ArgMaxPos(z: seq<real>, cand: seq<nat>): (p: nat)
    requires 0 < |cand| && InRange(cand, |z|)
    ensures p < |cand| && forall q :: 0 <= q < |cand| ==> z[cand[q]] <= z[cand[p]]
  {
    if |cand| == 1 then 0
    else
      var p := ArgMaxPos(z, cand[1..]) + 1;
      if z[cand[p]] <= z[cand[0]] then 0 else p
  }

  function RemoveAt(s: seq<nat>, p: nat): (r: seq<nat>)
    requires p < |s|
    ensures |r| == |s| - 1
  {
    s[..p] + s[p + 1..]
  }

  lemma RemoveAtInRange(s: seq<nat>, p: nat, n: nat)
    requires p < |s| && InRange(s, n)
    ensures InRange(RemoveAt(s, p), n)
  {
    var r := RemoveAt(s, p);
    assert forall i :: 0 <= i < |r| ==> r[i] == (if i < p then s[i] else s[i + 1]);
  }

  lemma RemoveAtMembers(s: seq<nat>, p: nat, n: nat)
    requires p < |s| && InRange(s, n) && Distinct(s)
    ensures InRange(RemoveAt(s, p), n) && Distinct(RemoveAt(s, p))
    ensures forall x :: x in s <==> x == s[p] || x in RemoveAt(s, p)
    ensures s[p] !in RemoveAt(s, p)
  {
    var r := RemoveAt(s, p);
    assert forall i :: 0 <= i < |r| ==> r[i] == (if i < p then s[i] else s[i + 1]);
    assert s == s[..p] + [s[p]] + s[p + 1..];
  }

  /** `r` lists distinct candidates by non-increasing score, and no
      candidate left out scores more than a listed one. */
  predicate SelectedFrom(z: seq<real>, cand: seq<nat>, r: seq<nat>)
  {
    InRange(r, |z|) && Distinct(r) &&
    (forall i :: 0 <= i < |r| ==> r[i] in cand) &&
    NonIncreasing(z, r) &&
    (forall i, x :: 0 <= i < |r| && x in cand && x !in r && x < |z| ==> z[x] <= z[r[i]])
  }

  /** Putting a best candidate in front of a selection from the others gives
      a selection from all candidates. */
  lemma PrependBest(z: seq<real>, cand: seq<nat>, p: nat, tail: seq<nat>)
    requires InRange(cand, |z|) && Distinct(cand) && p < |cand|
    requires forall q :: 0 <= q < |cand| ==> z[cand[q]] <= z[cand[p]]
    requires SelectedFrom(z, RemoveAt(cand, p), tail)
    ensures SelectedFrom(z, cand, [cand[p]] + tail)
  {
    RemoveAtMembers(cand, p, |z|);
    var best := cand[p];
    var r := [best] + tail;
    assert forall x :: x in cand ==> z[x] <= z[best];
    assert forall i :: 0 <= i < |r| ==> r[i] in cand;
    assert Distinct(r);
    assert NonIncreasing(z, r);
  }

  /** The `k` best candidates, best first. */
  function SelectDesc(z: seq<real>, cand: seq<nat>, k: nat): (r: seq<nat>)
    requires InRange(cand, |z|)
    ensures |r| == (if k < |cand| then k else |cand|) && InRange(r, |z|)
    decreases k
  {
    if k == 0 || cand == [] then []
    else
      var p := ArgMaxPos(z, cand);
      RemoveAtInRange(cand, p, |z|);
      [cand[p]] + SelectDesc(z, RemoveAt(cand, p), k - 1)
  }

  /** From distinct candidates, `SelectDesc` makes a selection. */
  lemma {:induction false} SelectDescSelects(z: seq<real>, cand: seq<nat>, k: nat)
    requires InRange(cand, |z|) && Distinct(cand)
    ensures SelectedFrom(z, cand, SelectDesc(z, cand, k))
    decreases k
  {
    if k == 0 || cand == [] {
    } else {
      var p := ArgMaxPos(z, cand);
      RemoveAtMembers(cand, p, |z|);
      SelectDescSelects(z, RemoveAt(cand, p), k - 1);
      PrependBest(z, cand, p, SelectDesc(z, RemoveAt(cand, p), k - 1));
    }
  }

  /** `k` as the number of requested genes, `n` as the number of genes:
      `k == 0` makes the slice `[-0:]` the whole array. */
  function Window(k: nat, n: nat): nat
  {
    if k == 0 then n else k
  }

  /** The selected gene indices, or the `ValueError` numpy raises when the
      partition point `-k` lies outside the array. */
  function TopK(z: seq<real>, k: nat): (r: Result<seq<nat>>)
    ensures r.Err? <==> |z| < k || |z| == 0
    ensures r.Err? ==> r.error.ValueError?
    ensures r.Ok? ==> |r.value| == Window(k, |z|) && InRange(r.value, |z|)
  {
    if |z| < k || |z| == 0 then Err(ValueError("kth out of bounds"))
    else Ok(SelectDesc(z, Range(|z|), Window(k, |z|)))
  }

  /** The selection lists distinct genes by non-increasing score, and no
      gene left out scores more than a selected one. */
  lemma Selects(z: seq<real>, k: nat)
    requires TopK(z, k).Ok?
    ensures var s := TopK(z, k).value;
      Distinct(s) && NonIncreasing(z, s) &&
      forall i, x :: 0 <= i < |s| && 0 <= x < |z| && x !in s ==> z[x] <= z[s[i]]
  {
    var all := Range(|z|);
    assert forall x :: 0 <= x < |z| ==> x in all by {
      forall x | 0 <= x < |z| ensures x in all { assert all[x] == x; }
    }
    SelectDescSelects(z, all, Window(k, |z|));
  }

  /** Read through the selection, the scores of a column never increase and
      no gene left out scores more than a selected one. */
  lemma RankedColumn(z: seq<real>, k: nat)
    requires 0 < |z| && k <= |z|
    ensures TopK(z, k).Ok?
    ensures var col := Gather(z, TopK(z, k).value);
      |col| == Window(k, |z|) &&
      (forall i, j :: 0 <= i < j < |col| ==> col[j] <= col[i]) &&
      (forall i, x :: 0 <= i < |col| && 0 <= x < |z| && x !in TopK(z, k).value ==> z[x] <= col[i])
  {
    Selects(z, k);
  }
}
