/** Names of StatefulSet Pods and claims: printing, parsing and membership. */
module PodNames {

  import opened Wrappers
  import opened Decimal

  const MAX_ORDINAL := 0x7FFF_FFFF

  function PodName(setName: string, ordinal: int): string {
    setName + "-" + Itoa(ordinal)
  }

  function ClaimName(setName: string, templateName: string, ordinal: int): string {
    templateName + "-" + setName + "-" + Itoa(ordinal)
  }

  /** `strings.LastIndex(s, "-")`. */
  function LastDash(s: string): (i: int)
    ensures -1 <= i < |s|
    ensures i >= 0 ==> s[i] == '-'
    ensures forall j | i < j < |s| :: s[j] != '-'
  {
    if s == "" then -1
    else if s[|s| - 1] == '-' then |s| - 1
    else LastDash(s[..|s| - 1])
  }

  /** The set name and ordinal a Pod name spells; `("", -1)` when it spells none. */
  function ParentNameAndOrdinal(podName: string): (string, int) {
    var idx := LastDash(podName);
    if idx < 0 then ("", -1)
    else match ParseInt32(podName[idx + 1..])
      case None => ("", -1)
      case Some(ordinal) => (podName[..idx], ordinal)
  }

  function OrdinalOf(podName: string): int {
    ParentNameAndOrdinal(podName).1
  }

  predicate IsMemberOf(setName: string, name: string) {
    var (parent, ordinal) := ParentNameAndOrdinal(name);
    parent == setName && ordinal >= 0 && name == PodName(setName, ordinal)
  }

  lemma OnlyDash(s: string, i: nat)
    requires i < |s| && s[i] == '-' && '-' !in s[i + 1..]
    ensures LastDash(s) == i
  {
    assert forall j | i < j < |s| :: s[j] == s[i + 1..][j - i - 1];
  }

  lemma LastDashOf(prefix: string, suffix: string)
    requires '-' !in suffix
    ensures LastDash(prefix + "-" + suffix) == |prefix|
  {
    OnlyDash(prefix + "-" + suffix, |prefix|);
  }

  /** Printing then parsing gives back the set name, dashes included, and the ordinal. */
  lemma ParseOfPodName(setName: string, n: nat)
    requires n <= MAX_ORDINAL
    ensures ParentNameAndOrdinal(PodName(setName, n)) == (setName, n)
  {
    ParseOfItoa(n);
    LastDashOf(setName, Itoa(n));
    assert PodName(setName, n)[|setName| + 1..] == Itoa(n);
    assert PodName(setName, n)[..|setName|] == setName;
  }

  /** The members of a set are exactly the names it prints for some int32 ordinal. */
  lemma MemberIffPrinted(setName: string, name: string)
    ensures IsMemberOf(setName, name) <==> exists n: nat :: n <= MAX_ORDINAL && name == PodName(setName, n)
  {
    if IsMemberOf(setName, name) {
      var n := OrdinalOf(name);
      assert n <= MAX_ORDINAL && name == PodName(setName, n);
    }
    if n: nat :| n <= MAX_ORDINAL && name == PodName(setName, n) {
      ParseOfPodName(setName, n);
    }
  }

  /** Which suffixes make a member: decimal digits in the int32 range, no sign, no leading zero. */
  lemma MemberIffCanonicalSuffix(setName: string, suffix: string)
    ensures IsMemberOf(setName, setName + "-" + suffix)
       <==> Canonical(suffix) && Number(suffix) <= MAX_ORDINAL
  {
    var name := setName + "-" + suffix;
    MemberIffPrinted(setName, name);
    if IsMemberOf(setName, name) {
      var n: nat :| n <= MAX_ORDINAL && name == PodName(setName, n);
      assert suffix == name[|setName| + 1..] == Digits(n);
      DigitsAreCanonical(n);
      NumberOfDigits(n);
    }
    if Canonical(suffix) && Number(suffix) <= MAX_ORDINAL {
      DigitsOfNumber(suffix);
      assert name == PodName(setName, Number(suffix));
    }
  }

  lemma PodNameInjective(setName: string, n: nat, n': nat)
    requires PodName(setName, n) == PodName(setName, n')
    ensures n == n'
  {
    assert Digits(n) == PodName(setName, n)[|setName| + 1..] == Digits(n');
    NumberOfDigits(n);
    NumberOfDigits(n');
  }

  /** What a claim name determines: the ordinal's digits and what precedes them. */
  lemma ClaimNameParts(prefix: string, prefix': string, n: nat, n': nat)
    requires prefix + "-" + Itoa(n) == prefix' + "-" + Itoa(n')
    ensures prefix == prefix' && n == n'
  {
    var name, name' := prefix + "-" + Itoa(n), prefix' + "-" + Itoa(n');
    LastDashOf(prefix, Itoa(n));
    LastDashOf(prefix', Itoa(n'));
    assert prefix == name[..|prefix|] == prefix';
    assert Digits(n) == name[|prefix| + 1..] == Digits(n');
    NumberOfDigits(n);
    NumberOfDigits(n');
  }

  /** For a fixed set, no two (claim template, ordinal) pairs share a claim. */
  lemma ClaimNameInjective(setName: string, t: string, t': string, n: nat, n': nat)
    requires ClaimName(setName, t, n) == ClaimName(setName, t', n')
    ensures t == t' && n == n'
  {
    hide Itoa, LastDash;
    assert ClaimName(setName, t, n) == (t + "-" + setName) + "-" + Itoa(n);
    assert ClaimName(setName, t', n') == (t' + "-" + setName) + "-" + Itoa(n');
    ClaimNameParts(t + "-" + setName, t' + "-" + setName, n, n');
    assert |t| == |t'|;
    assert t == (t + "-" + setName)[..|t|] == t';
  }
}
