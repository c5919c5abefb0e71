/** Attestation artifact names: `managed-ci-attest-<id>-attempt-<n>`, printed and parsed. */
module ArtifactNames {
  import opened Common
  import opened Decimals

  const PREFIX := "managed-ci-attest-"
  const MIDDLE := "-attempt-"

  predicate Lower(c: char) { 'a' <= c <= 'z' }

  /** An attestation id: 1 to 64 characters, which may themselves spell `-attempt-3`. */
  predicate IdOk(id: string) {
    && 1 <= |id| <= 64
    && (Lower(id[0]) || Digit(id[0]))
    && forall i :: 0 <= i < |id| ==> Lower(id[i]) || Digit(id[i]) || id[i] in "._-"
  }

  /** The attempt part of a name: at most six digits, no leading zero. */
  predicate AttemptOk(s: string) { 1 <= |s| <= 6 && s[0] != '0' && AllDigits(s) }

  function Name(id: string, attempt: nat): string { PREFIX + id + MIDDLE + Decimal(attempt) }

  /** The name splits with an id of `n` characters. */
  predicate Splits(name: string, n: nat) {
    && |PREFIX| + n + |MIDDLE| <= |name|
    && name[..|PREFIX|] == PREFIX
    && IdOk(name[|PREFIX|..|PREFIX| + n])
    && name[|PREFIX| + n..|PREFIX| + n + |MIDDLE|] == MIDDLE
    && AttemptOk(name[|PREFIX| + n + |MIDDLE|..])
  }

  /** The greedy match: the longest id, of at most `n` characters, that leaves an attempt. */
  function Longest(name: string, n: nat): Option<nat> {
    if Splits(name, n) then Some(n) else if n == 0 then None else Longest(name, n - 1)
  }

  function Parse(name: string): Option<(string, nat)> {
    match Longest(name, 64)
    case None => None
    case Some(n) =>
      if Splits(name, n) then
        Some((name[|PREFIX|..|PREFIX| + n], Value(name[|PREFIX| + n + |MIDDLE|..])))
      else None
  }

  /** Where a name splits: a dash, then nothing but digits. */
  lemma LastDash(name: string, n: nat)
    requires Splits(name, n)
    ensures name[|PREFIX| + n + |MIDDLE| - 1] == '-'
    ensures forall i :: |PREFIX| + n + |MIDDLE| <= i < |name| ==> Digit(name[i])
  {
    var start := |PREFIX| + n;
    assert name[start..start + |MIDDLE|][|MIDDLE| - 1] == name[start + |MIDDLE| - 1];
    forall i | start + |MIDDLE| <= i < |name| ensures Digit(name[i]) {
      assert name[i] == name[start + |MIDDLE|..][i - start - |MIDDLE|];
    }
  }

  /** A name splits in at most one place, even when the id contains `-attempt-`. */
  lemma SplitsOnce(name: string, n: nat, m: nat)
    requires Splits(name, n) && Splits(name, m)
    ensures n == m
  {
    LastDash(name, n);
    LastDash(name, m);
  }

  lemma {:induction false} LongestFinds(name: string, n: nat, m: nat)
    requires Splits(name, m) && m <= n
    ensures Longest(name, n) == Some(m)
  {
    if Splits(name, n) { SplitsOnce(name, n, m); } else { LongestFinds(name, n - 1, m); }
  }

  lemma {:induction false} LongestSplits(name: string, n: nat)
    ensures Longest(name, n).Some? ==> Splits(name, Longest(name, n).value)
  {
    if !Splits(name, n) && n > 0 { LongestSplits(name, n - 1); }
  }

  lemma NameSplits(id: string, attempt: nat)
    requires IdOk(id) && 1 <= attempt <= 999_999
    ensures Splits(Name(id, attempt), |id|)
    ensures Name(id, attempt)[|PREFIX|..|PREFIX| + |id|] == id
    ensures Name(id, attempt)[|PREFIX| + |id| + |MIDDLE|..] == Decimal(attempt)
  {
    hide Decimal;
    var name := Name(id, attempt);
    DecimalReads(attempt);
    SixDigits(attempt);
    assert name[..|PREFIX|] == PREFIX;
    assert name[|PREFIX|..|PREFIX| + |id|] == id;
    assert name[|PREFIX| + |id|..|PREFIX| + |id| + |MIDDLE|] == MIDDLE;
    assert name[|PREFIX| + |id| + |MIDDLE|..] == Decimal(attempt);
  }

  lemma SplitNamed(name: string, n: nat)
    requires Splits(name, n)
    ensures var digits := name[|PREFIX| + n + |MIDDLE|..];
            1 <= Value(digits) <= 999_999 && name == Name(name[|PREFIX|..|PREFIX| + n], Value(digits))
  {
    hide Decimal;
    var digits := name[|PREFIX| + n + |MIDDLE|..];
    ValuePrints(digits);
    SixDigits(Value(digits));
    assert name == name[..|PREFIX|] + name[|PREFIX|..|PREFIX| + n]
                   + name[|PREFIX| + n..|PREFIX| + n + |MIDDLE|] + digits;
  }

  /** Parsing inverts printing, in both directions, and accepts nothing that was not printed. */
  lemma ParseExact(name: string, id: string, attempt: nat)
    ensures Parse(name) == Some((id, attempt))
            <==> IdOk(id) && 1 <= attempt <= 999_999 && name == Name(id, attempt)
  {
    hide Decimal, Value, Name, Longest;
    if IdOk(id) && 1 <= attempt <= 999_999 && name == Name(id, attempt) {
      NameSplits(id, attempt);
      LongestFinds(name, 64, |id|);
      DecimalReads(attempt);
    }
    LongestSplits(name, 64);
    if Longest(name, 64).Some? { SplitNamed(name, Longest(name, 64).value); }
  }
}
