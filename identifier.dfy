/** The key under which a distribution column is stored:
    `'rank_genes_{groupby}_{name}_{gene_counter}_{gene_name}'`, built with
    Python's `str.format`, which renders an `int` as its decimal string. */
module Identifier {
  import opened Common

  const Prefix: string := "rank_genes_"

  function Digit(d: nat): (c: char)
    requires d < 10
    ensures '0' <= c <= '9'
  {
    ('0' as int + d) as char
  }

  function DigitValue(c: char): nat
    requires '0' <= c <= '9'
  {
    c as int - '0' as int
  }

  predicate IsDigits(s: string)
  {
    forall i :: 0 <= i < |s| ==> '0' <= s[i] <= '9'
  }

  /** `str(n)` for a non-negative int: decimal digits, no leading zero. */
  function NatToString(n: nat): (s: string)
    ensures 1 <= |s| && IsDigits(s)
    ensures (s[0] == '0') == (n == 0)
    decreases n
  {
    if n < 10 then [Digit(n)] else NatToString(n / 10) + [Digit(n % 10)]
  }

  /** The value of a string of decimal digits. */
  function ParseDigits(s: string): nat
    requires IsDigits(s)
  {
    if s == [] then 0 else ParseDigits(s[..|s| - 1]) * 10 + DigitValue(s[|s| - 1])
  }

  /** Reading back the rendered digits gives the number. */
  lemma {:induction false} NatToStringRoundTrip(n: nat)
    ensures ParseDigits(NatToString(n)) == n
    decreases n
  {
    if n >= 10 {
      NatToStringRoundTrip(n / 10);
      var s := NatToString(n);
      assert s[..|s| - 1] == NatToString(n / 10);
    }
  }

  /** `str(i)` for any int: a leading minus sign for negative values. */
  function IntToString(i: int): string
  {
    if i < 0 then "-" + NatToString(-i) else NatToString(i)
  }

  function ParseInt(s: string): Option<int>
  {
    if 2 <= |s| && s[0] == '-' && IsDigits(s[1..]) then Some(-(ParseDigits(s[1..]) as int))
    else if 1 <= |s| && IsDigits(s) then Some(ParseDigits(s))
    else None
  }

  lemma IntToStringRoundTrip(i: int)
    ensures ParseInt(IntToString(i)) == Some(i)
  {
    var s := IntToString(i);
    if i < 0 {
      var d := NatToString(-i);
      assert s == "-" + d && s[1..] == d;
      NatToStringRoundTrip(-i);
    } else {
      assert s == NatToString(i);
      assert '0' <= s[0] <= '9';
      NatToStringRoundTrip(i);
    }
  }

  /** Two integer group labels give the same string only when they are equal. */
  lemma IntToStringInjective(i: int, j: int)
    requires IntToString(i) == IntToString(j)
    ensures i == j
  {
    IntToStringRoundTrip(i);
    IntToStringRoundTrip(j);
  }

  /** `_build_identifier(groupby, name, gene_counter, gene_name)`. */
  function BuildIdentifier(groupby: string, name: string, geneCounter: nat, geneName: string): string
  {
    Prefix + groupby + "_" + name + "_" + NatToString(geneCounter) + "_" + geneName
  }

  /** Position of the first underscore. */
  function FirstUnderscore(s: string): (i: nat)
    requires '_' in s
    ensures i < |s| && s[i] == '_' && '_' !in s[..i]
  {
    if s[0] == '_' then 0
    else
      var i := 1 + FirstUnderscore(s[1..]);
      assert s[..i] == [s[0]] + s[1..][..i - 1];
      i
  }

  /** Cut a string at its first underscore. */
  function SplitFirst(s: string): Option<(string, string)>
  {
    if '_' in s then
      var i := FirstUnderscore(s);
      Some((s[..i], s[i + 1..]))
    else None
  }

  lemma {:induction false} FirstUnderscoreOf(a: string, b: string)
    requires '_' !in a
    ensures FirstUnderscore(a + "_" + b) == |a|
  {
    var s := a + "_" + b;
    if a != [] {
      assert s[0] == a[0];
      assert s[1..] == a[1..] + "_" + b;
      FirstUnderscoreOf(a[1..], b);
    }
  }

  lemma SplitFirstOf(a: string, b: string)
    requires '_' !in a
    ensures SplitFirst(a + "_" + b) == Some((a, b))
  {
    var s := a + "_" + b;
    assert s[|a|] == '_';
    FirstUnderscoreOf(a, b);
    assert s[..|a|] == a;
    assert s[|a| + 1..] == b;
  }

  /** Split an identifier back into its four fields. */
  function ParseIdentifier(id: string): Option<(string, string, nat, string)>
  {
    if |id| < |Prefix| || id[..|Prefix|] != Prefix then None
    else match SplitFirst(id[|Prefix|..])
      case None => None
      case Some((groupby, rest)) =>
        match SplitFirst(rest)
        case None => None
        case Some((name, rest')) =>
          match SplitFirst(rest')
          case None => None
          case Some((digits, geneName)) =>
            if 1 <= |digits| && IsDigits(digits) then Some((groupby, name, ParseDigits(digits), geneName))
            else None
  }

  lemma NoUnderscoreInDigits(n: nat)
    ensures '_' !in NatToString(n)
  {
    var s := NatToString(n);
    assert forall i :: 0 <= i < |s| ==> s[i] != '_';
  }

  /** When neither the grouping key nor the group name contains an underscore,
      the identifier determines all four of its fields. */
  lemma IdentifierRoundTrip(groupby: string, name: string, geneCounter: nat, geneName: string)
    requires '_' !in groupby && '_' !in name
    ensures ParseIdentifier(BuildIdentifier(groupby, name, geneCounter, geneName))
         == Some((groupby, name, geneCounter, geneName))
  {
    var digits := NatToString(geneCounter);
    var rest' := digits + "_" + geneName;
    var rest := name + "_" + rest';
    var tail := groupby + "_" + rest;
    var id := BuildIdentifier(groupby, name, geneCounter, geneName);
    assert id == Prefix + tail;
    assert id[..|Prefix|] == Prefix && id[|Prefix|..] == tail;
    SplitFirstOf(groupby, rest);
    SplitFirstOf(name, rest');
    NoUnderscoreInDigits(geneCounter);
    SplitFirstOf(digits, geneName);
    NatToStringRoundTrip(geneCounter);
  }

  /** Within one group the identifiers of different rank positions differ,
      whatever the key, group name and gene names are: no distribution column
      of a group overwrites another one of the same group. */
  lemma IdentifierInjective(groupby: string, name: string, c1: nat, g1: string, c2: nat, g2: string)
    requires BuildIdentifier(groupby, name, c1, g1) == BuildIdentifier(groupby, name, c2, g2)
    ensures c1 == c2 && g1 == g2
  {
    var p := Prefix + groupby + "_" + name + "_";
    var t1 := NatToString(c1) + "_" + g1;
    var t2 := NatToString(c2) + "_" + g2;
    assert BuildIdentifier(groupby, name, c1, g1) == p + t1;
    assert BuildIdentifier(groupby, name, c2, g2) == p + t2;
    assert t1 == (p + t1)[|p|..];
    assert t2 == (p + t2)[|p|..];
    NoUnderscoreInDigits(c1);
    NoUnderscoreInDigits(c2);
    SplitFirstOf(NatToString(c1), g1);
    SplitFirstOf(NatToString(c2), g2);
    NatToStringRoundTrip(c1);
    NatToStringRoundTrip(c2);
  }
}
