/** Shared vocabulary of the model: results and errors, a floating-point value
    that may be NaN, and counting over boolean sample masks. */
module Common {

  datatype Option<T> = None | Some(value: T)

  /** The Python exceptions the ranking routine can raise, plus the one case
      (a zero Wilcoxon normaliser) where the model stops instead of producing
      infinities. */
  datatype Error =
    | IndexError(what: string)
    | TypeError(what: string)
    | ValueError(what: string)
    | NameError(what: string)
    | DegenerateNormaliser(what: string)

  datatype Result<T> = Ok(value: T) | Err(error: Error)

  /** A double as the ranking code observes it: either a number or NaN.
      Infinities are never produced by the modelled paths. */
  datatype Float = Finite(val: real) | NaN

  function Abs(x: real): real
  {
    if x < 0.0 then -x else x
  }

  /** Lines 141 and 194: the signed score, or its absolute value when
      `only_positive` is false. */
  function SignPolicy(z: real, onlyPositive: bool): real
  {
    if onlyPositive then z else Abs(z)
  }

  /** Square roots of positive numbers are positive; the only property of the
      square root the model relies on. */
  ghost predicate PositiveSqrt(sqrt: real -> real)
  {
    forall x :: 0.0 < x ==> 0.0 < sqrt(x)
  }

  /** A dense samples-by-genes matrix. */
  predicate Rectangular(X: seq<seq<real>>, nGenes: nat)
  {
    forall s :: 0 <= s < |X| ==> |X[s]| == nGenes
  }

  /** Number of true entries of a mask, `np.where(mask)[0].size`. */
  function Count(mask: seq<bool>): (n: nat)
    ensures n <= |mask|
  {
    if mask == [] then 0
    else Count(mask[..|mask| - 1]) + (if mask[|mask| - 1] then 1 else 0)
  }

  /** `~mask` on a boolean numpy array. */
  function Complement(mask: seq<bool>): seq<bool>
  {
    seq(|mask|, i requires 0 <= i < |mask| => !mask[i])
  }

  /** A sample lies in at most one of the two masks. */
  predicate Disjoint(a: seq<bool>, b: seq<bool>)
    requires |a| == |b|
  {
    forall s :: 0 <= s < |a| ==> !(a[s] && b[s])
  }

  /** The complement of a mask holds exactly the samples the mask leaves out,
      so the two sample counts add up to the number of samples. */
  lemma {:induction false} CountComplement(mask: seq<bool>)
    ensures Disjoint(mask, Complement(mask))
    ensures Count(mask) + Count(Complement(mask)) == |mask|
  {
    if mask != [] {
      var init := mask[..|mask| - 1];
      CountComplement(init);
      assert Complement(mask)[..|mask| - 1] == Complement(init);
    }
  }

  /** `0, 1, ..., n-1`, the `reference_indices` of the source. */
  function Range(n: nat): (r: seq<nat>)
    ensures |r| == n && forall i :: 0 <= i < n ==> r[i] == i
  {
    seq(n, i requires 0 <= i < n => i)
  }

  /** `a[idx]` for an integer index array. */
  function Gather<T>(a: seq<T>, idx: seq<nat>): (r: seq<T>)
    requires forall i :: 0 <= i < |idx| ==> idx[i] < |a|
    ensures |r| == |idx| && forall i :: 0 <= i < |idx| ==> r[i] == a[idx[i]]
  {
    seq(|idx|, i requires 0 <= i < |idx| => a[idx[i]])
  }

  predicate Distinct<T(==)>(s: seq<T>)
  {
    forall i, j :: 0 <= i < j < |s| ==> s[i] != s[j]
  }
}
