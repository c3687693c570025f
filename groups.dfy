/** Group set-up of `rank_genes_groups`: the `groups` and `group_reference`
    arguments, the choice of test, the per-group sample numbers `ns`, the
    reference population of each group and which groups get an output column. */
module Groups {
  import opened Common
  import Identifier

  /** An entry of the `groups` list: Python accepts ints and strings. */
  datatype Label = IntLabel(i: int) | StrLabel(s: string)

  /** The `groups` argument: the default string `'all'` or a list of labels. */
  datatype GroupsArg = All | Listed(labels: seq<Label>)

  /** `str(n)` applied to one label. */
  function LabelToString(l: Label): Label
  {
    match l
    case IntLabel(i) => StrLabel(Identifier.IntToString(i))
    case StrLabel(_) => l
  }

  /** Integer groups become their decimal strings. Only the first entry is
      inspected, so an empty list fails with `IndexError`. */
  function StringifyGroups(groups: GroupsArg): (r: Result<GroupsArg>)
    ensures groups.All? ==> r == Ok(All)
    ensures groups.Listed? && groups.labels == [] ==> r.Err? && r.error.IndexError?
    ensures groups.Listed? && groups.labels != [] ==>
      r.Ok? && r.value.Listed? && |r.value.labels| == |groups.labels|
    ensures groups.Listed? && groups.labels != [] && groups.labels[0].StrLabel? ==> r == Ok(groups)
    ensures groups.Listed? && groups.labels != [] && groups.labels[0].IntLabel? ==>
      forall i :: 0 <= i < |groups.labels| ==>
        r.value.labels[i].StrLabel? &&
        (groups.labels[i].StrLabel? ==> r.value.labels[i] == groups.labels[i]) &&
        (groups.labels[i].IntLabel? ==>
           Identifier.ParseInt(r.value.labels[i].s) == Some(groups.labels[i].i))
  {
    match groups
    case All => Ok(All)
    case Listed(ls) =>
      if ls == [] then Err(IndexError("list index out of range"))
      else if ls[0].IntLabel? then
        var r := seq(|ls|, i requires 0 <= i < |ls| => LabelToString(ls[i]));
        assert forall i :: 0 <= i < |ls| && ls[i].IntLabel? ==>
          Identifier.ParseInt(r[i].s) == Some(ls[i].i) by {
          forall i | 0 <= i < |ls| && ls[i].IntLabel? {
            Identifier.IntToStringRoundTrip(ls[i].i);
          }
        }
        Ok(Listed(r))
      else Ok(groups)
  }

  /** `group_reference in set(groups_order)`. For the string `'all'` the set
      is the set of its characters, `{'a', 'l'}`; a string never equals an int. */
  predicate InOrder(order: GroupsArg, reference: string)
  {
    match order
    case All => reference == "a" || reference == "l"
    case Listed(ls) => StrLabel(reference) in ls
  }

  /** The reference must be one of the categories of the grouping. */
  function CheckReference(order: GroupsArg, reference: Option<string>, categories: seq<string>): Result<GroupsArg>
  {
    if reference.Some? && reference.value !in categories then
      Err(ValueError("group_reference needs to be one of groupby"))
    else Ok(order)
  }

  /** Lines 67-75 as written: with the default `groups='all'`, a reference
      other than `'a'` or `'l'` reaches `groups_order += [group_reference]`
      on a string, which raises `TypeError`. */
  function ConfigureGroupsAsWritten(groups: GroupsArg, reference: Option<string>, categories: seq<string>): Result<GroupsArg>
  {
    match StringifyGroups(groups)
    case Err(e) => Err(e)
    case Ok(order) =>
      if reference.Some? && !InOrder(order, reference.value) then
        match order
        case All => Err(TypeError("can only concatenate str (not \"list\") to str"))
        case Listed(ls) => CheckReference(Listed(ls + [StrLabel(reference.value)]), reference, categories)
      else CheckReference(order, reference, categories)
  }

  /** Lines 67-75 with `'all'` left alone: every category, the reference
      included, is already selected. This is the set-up the model uses. */
  function ConfigureGroups(groups: GroupsArg, reference: Option<string>, categories: seq<string>): (r: Result<GroupsArg>)
    // an unknown reference is refused before anything else happens
    ensures StringifyGroups(groups).Ok? ==>
      (r.Err? <==> reference.Some? && reference.value !in categories)
    ensures r.Err? && StringifyGroups(groups).Ok? ==> r.error.ValueError?
    ensures StringifyGroups(groups).Err? ==> r == Err(StringifyGroups(groups).error)
    ensures r.Ok? ==> reference.Some? ==> reference.value in categories
    ensures r.Ok? && groups.All? ==> r.value == All
    // a listed reference is present, appended at the end only when missing
    ensures r.Ok? && groups.Listed? ==>
      var listed := StringifyGroups(groups).value.labels;
      r.value.Listed? && |listed| <= |r.value.labels| && r.value.labels[..|listed|] == listed &&
      (reference.Some? ==> StrLabel(reference.value) in r.value.labels) &&
      |r.value.labels| == |listed| + (if reference.Some? && StrLabel(reference.value) !in listed then 1 else 0)
  {
    match StringifyGroups(groups)
    case Err(e) => Err(e)
    case Ok(order) =>
      if reference.Some? && order.Listed? && !InOrder(order, reference.value) then
        CheckReference(Listed(order.labels + [StrLabel(reference.value)]), reference, categories)
      else CheckReference(order, reference, categories)
  }

  /** Finding: the default `'all'` together with a valid reference fails in
      the source, while the corrected set-up keeps `'all'`. */
  lemma AllWithReferenceFails(reference: string, categories: seq<string>)
    requires reference in categories && reference != "a" && reference != "l"
    ensures ConfigureGroupsAsWritten(All, Some(reference), categories).Err?
    ensures ConfigureGroupsAsWritten(All, Some(reference), categories).error.TypeError?
    ensures ConfigureGroups(All, Some(reference), categories) == Ok(All)
  {
  }

  /** The correction changes nothing for an explicit list of groups. */
  lemma ListedUnchanged(labels: seq<Label>, reference: Option<string>, categories: seq<string>)
    ensures ConfigureGroupsAsWritten(Listed(labels), reference, categories)
         == ConfigureGroups(Listed(labels), reference, categories)
  {
  }

  /** The two test procedures. */
  datatype TestKind = TTest | Wilcoxon

  /** Lines 98-104: any name other than `'wilcoxon'` runs the t-test; a name
      other than the two known ones is reported first. */
  function ResolveTestType(testType: string): (r: (TestKind, bool))
    ensures r.0 == Wilcoxon <==> testType == "wilcoxon"
    ensures r.1 <==> testType != "t_test" && testType != "wilcoxon"
  {
    if testType == "wilcoxon" then (Wilcoxon, false)
    else (TTest, testType != "t_test")
  }

  /** Lines 86-88: `ns[imask]` is the number of samples of group `imask`. */
  method CountSamples(masks: seq<seq<bool>>) returns (ns: seq<nat>)
    ensures |ns| == |masks|
    ensures forall i :: 0 <= i < |masks| ==> ns[i] == Count(masks[i]) && ns[i] <= |masks[i]|
  {
    var a := new nat[|masks|];
    var imask := 0;
    while imask < |masks|
      invariant 0 <= imask <= |masks|
      invariant forall i :: 0 <= i < imask ==> a[i] == Count(masks[i])
    {
      a[imask] := Count(masks[imask]);
      imask := imask + 1;
    }
    ns := a[..];
  }

  /** Line 93: the first position of the reference among the resolved groups;
      `IndexError` when it is not there. */
  function ReferenceIndex(order: seq<string>, reference: string): (r: Result<nat>)
    ensures r.Ok? <==> reference in order
    ensures r.Err? ==> r.error.IndexError?
    ensures r.Ok? ==> r.value < |order| && order[r.value] == reference && reference !in order[..r.value]
  {
    if order == [] then Err(IndexError("index 0 is out of bounds"))
    else if order[0] == reference then Ok(0)
    else
      match ReferenceIndex(order[1..], reference)
      case Err(e) => Err(e)
      case Ok(i) =>
        assert order[..i + 1] == [order[0]] + order[1..][..i];
        Ok(i + 1)
  }

  /** How the reference population of a group is chosen. */
  datatype Policy = Rest | Fixed(reference: nat)

  /** Lines 125-130: the reference mask of group `i`, or `None` when `i` is the
      fixed reference group and is skipped. */
  function ReferenceMask(masks: seq<seq<bool>>, i: nat, policy: Policy): Option<seq<bool>>
    requires i < |masks|
    requires policy.Fixed? ==> policy.reference < |masks|
  {
    match policy
    case Rest => Some(Complement(masks[i]))
    case Fixed(f) => if i == f then None else Some(masks[f])
  }

  /** Every sample belongs to exactly one group (one label per sample). */
  predicate Partitioned(masks: seq<seq<bool>>, nSamples: nat)
  {
    (forall i :: 0 <= i < |masks| ==> |masks[i]| == nSamples) &&
    (forall i, j, s :: 0 <= i < j < |masks| && 0 <= s < nSamples ==> !(masks[i][s] && masks[j][s]))
  }

  /** Under "rest" the reference is exactly the samples outside the group;
      under a fixed reference every other group is compared with that group's
      samples, which are disjoint from its own, and the reference group itself
      is not scored. */
  lemma ReferencePopulation(masks: seq<seq<bool>>, nSamples: nat, i: nat, policy: Policy)
    requires Partitioned(masks, nSamples) && i < |masks|
    requires policy.Fixed? ==> policy.reference < |masks|
    ensures ReferenceMask(masks, i, policy).None? <==> policy == Fixed(i)
    ensures policy == Rest ==>
      var ref := ReferenceMask(masks, i, policy).value;
      |ref| == nSamples && Disjoint(masks[i], ref) &&
      (forall s :: 0 <= s < nSamples ==> masks[i][s] || ref[s]) &&
      Count(masks[i]) + Count(ref) == nSamples
    ensures policy.Fixed? && policy.reference != i ==>
      var ref := ReferenceMask(masks, i, policy).value;
      ref == masks[policy.reference] && |ref| == nSamples && Disjoint(masks[i], ref)
  {
    if policy == Rest {
      CountComplement(masks[i]);
    } else if policy.reference != i {
      var f := policy.reference;
      forall s | 0 <= s < nSamples
        ensures !(masks[i][s] && masks[f][s])
      {
        if i < f {
          assert !(masks[i][s] && masks[f][s]);
        } else {
          assert !(masks[f][s] && masks[i][s]);
        }
      }
    }
  }

  /** The groups `0 .. n-1` that get a column, in order. */
  function Scored(n: nat, policy: Policy): (r: seq<nat>)
    ensures forall c :: 0 <= c < |r| ==> r[c] < n
    ensures |r| == n - (if policy.Fixed? && policy.reference < n then 1 else 0)
  {
    if n == 0 then []
    else Scored(n - 1, policy) + (if policy == Fixed(n - 1) then [] else [n - 1])
  }

  /** Lines 125-130 and 170-174: every group but a fixed reference is scored, each once,
      in the order of the groups. */
  lemma {:induction false} ScoredSpec(n: nat, policy: Policy)
    ensures forall c :: 0 <= c < |Scored(n, policy)| ==> policy != Fixed(Scored(n, policy)[c])
    ensures forall c, d :: 0 <= c < d < |Scored(n, policy)| ==> Scored(n, policy)[c] < Scored(n, policy)[d]
    ensures forall g :: 0 <= g < n && policy != Fixed(g) ==> g in Scored(n, policy)
  {
    if n > 0 {
      ScoredSpec(n - 1, policy);
    }
  }

  /** Lines 219-221: the column names of the output tables. */
  function GroupsOrderSave(order: seq<string>, reference: Option<string>): seq<string>
  {
    if order == [] then []
    else
      var last := order[|order| - 1];
      GroupsOrderSave(order[..|order| - 1], reference)
        + (if reference == Some(last) then [] else [last])
  }

  /** The reference policy and the reference name pick out the same group. */
  predicate Marks(order: seq<string>, policy: Policy, reference: Option<string>)
  {
    (policy == Rest <==> reference.None?) &&
    (policy.Fixed? ==> forall j :: 0 <= j < |order| ==> (order[j] == reference.value <==> j == policy.reference))
  }

  /** One step of the filter at lines 219-221. */
  lemma SaveStep(order: seq<string>, i: nat, reference: Option<string>)
    requires 0 < i <= |order|
    ensures GroupsOrderSave(order[..i], reference)
      == GroupsOrderSave(order[..i - 1], reference) + (if reference == Some(order[i - 1]) then [] else [order[i - 1]])
  {
    assert order[..i][..i - 1] == order[..i - 1];
  }

  lemma {:induction false} ScoredNamesPrefix(order: seq<string>, i: nat, policy: Policy, reference: Option<string>)
    requires i <= |order|
    requires Marks(order, policy, reference)
    ensures Gather(order, Scored(i, policy)) == GroupsOrderSave(order[..i], reference)
  {
    if i == 0 {
      assert order[..0] == [];
    } else {
      ScoredNamesPrefix(order, i - 1, policy, reference);
      SaveStep(order, i, reference);
      var prev := Scored(i - 1, policy);
      var skip := policy == Fixed(i - 1);
      assert skip <==> reference == Some(order[i - 1]);
      var tail: seq<nat> := if skip then [] else [i - 1];
      assert Scored(i, policy) == prev + tail;
      GatherAppend(order, prev, tail);
      assert Gather(order, tail) == (if skip then [] else [order[i - 1]]);
    }
  }

  lemma GatherAppend<T>(a: seq<T>, x: seq<nat>, y: seq<nat>)
    requires forall i :: 0 <= i < |x| ==> x[i] < |a|
    requires forall i :: 0 <= i < |y| ==> y[i] < |a|
    ensures Gather(a, x + y) == Gather(a, x) + Gather(a, y)
  {
  }

  /** Lines 219-228: the tables have one column per scored group, named after
      that group, when the reference occurs once among the groups. Under
      "rest" every group is kept; under a fixed reference exactly the
      reference's column is missing. */
  lemma OutputColumnsAligned(order: seq<string>, policy: Policy, reference: Option<string>)
    requires Marks(order, policy, reference)
    requires policy.Fixed? ==> policy.reference < |order|
    ensures |GroupsOrderSave(order, reference)| == |Scored(|order|, policy)|
    ensures forall c :: 0 <= c < |Scored(|order|, policy)| ==>
      GroupsOrderSave(order, reference)[c] == order[Scored(|order|, policy)[c]]
    ensures reference.Some? ==> reference.value !in GroupsOrderSave(order, reference)
    ensures reference.None? ==> GroupsOrderSave(order, reference) == order
  {
    ScoredNamesPrefix(order, |order|, policy, reference);
    assert order[..|order|] == order;
    if reference.None? {
      SaveKeepsAll(order);
    } else {
      SaveDropsReference(order, reference.value);
    }
  }

  /** Without a reference every name is kept. */
  lemma {:induction false} SaveKeepsAll(order: seq<string>)
    ensures GroupsOrderSave(order, None) == order
  {
    if order != [] {
      SaveKeepsAll(order[..|order| - 1]);
    }
  }

  /** With a reference, no column is named after it. */
  lemma {:induction false} SaveDropsReference(order: seq<string>, reference: string)
    ensures reference !in GroupsOrderSave(order, Some(reference))
  {
    if order != [] {
      SaveDropsReference(order[..|order| - 1], reference);
    }
  }

  /** Lines 219-221: filtering keeps only names of `order`, and keeps them
      distinct when they were; only repeated group names can give the tables
      a repeated field name. */
  lemma {:induction false} SaveDistinct(order: seq<string>, reference: Option<string>)
    requires Distinct(order)
    ensures forall x :: x in GroupsOrderSave(order, reference) ==> x in order
    ensures Distinct(GroupsOrderSave(order, reference))
  {
    if order != [] {
      var init, last := order[..|order| - 1], order[|order| - 1];
      assert Distinct(init) by {
        forall i, j | 0 <= i < j < |init| ensures init[i] != init[j] {
          assert init[i] == order[i] && init[j] == order[j];
        }
      }
      SaveDistinct(init, reference);
      assert last !in init by {
        forall i | 0 <= i < |init| ensures init[i] != last {
          assert init[i] == order[i];
        }
      }
      forall x | x in init ensures x in order {
        var i :| 0 <= i < |init| && init[i] == x;
        assert order[i] == x;
      }
    }
  }

  lemma {:induction false} ScoredRest(n: nat)
    ensures Scored(n, Rest) == Range(n)
  {
    if n > 0 {
      ScoredRest(n - 1);
    }
  }
}
