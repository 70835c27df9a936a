/**
 * The registry orders entries with string.Compare(a, b, StringComparison.OrdinalIgnoreCase):
 * both strings are upper-cased character by character and then compared by code point,
 * a proper prefix sorting first. Only ASCII letters are case-folded here.
 */
module IgnoreCase {

  /** Upper-cases an ASCII letter and leaves every other character as it is. */
  function ToUpper(c: char): char {
    if 'a' <= c <= 'z' then (c as int - 32) as char else c
  }

  function UpperAll(s: string): string {
    seq(|s|, i requires 0 <= i < |s| => ToUpper(s[i]))
  }

  /** Ordinal comparison: negative, zero or positive as a sorts before, with, or after b. */
  function CompareOrdinal(a: string, b: string): (r: int)
    ensures -1 <= r <= 1
    ensures r == 0 <==> a == b
  {
    if a == [] && b == [] then 0
    else if a == [] then -1
    else if b == [] then 1
    else if a[0] < b[0] then -1
    else if b[0] < a[0] then 1
    else
      var r := CompareOrdinal(a[1..], b[1..]);
      assert a == [a[0]] + a[1..] && b == [b[0]] + b[1..];
      r
  }

  /** The comparer handed to List.Sort by the registry. */
  function CompareIgnoreCase(a: string, b: string): (r: int)
    ensures -1 <= r <= 1
    ensures r == 0 <==> UpperAll(a) == UpperAll(b)
  {
    CompareOrdinal(UpperAll(a), UpperAll(b))
  }

  lemma {:induction false} OrdinalAntisymmetric(a: string, b: string)
    ensures CompareOrdinal(a, b) == -CompareOrdinal(b, a)
  {
    if a != [] && b != [] && a[0] == b[0] {
      OrdinalAntisymmetric(a[1..], b[1..]);
    }
  }

  lemma {:induction false} OrdinalTransitive(a: string, b: string, c: string)
    requires CompareOrdinal(a, b) <= 0 && CompareOrdinal(b, c) <= 0
    ensures CompareOrdinal(a, c) <= 0
  {
    if a != [] && b != [] && c != [] && a[0] == b[0] == c[0] {
      OrdinalTransitive(a[1..], b[1..], c[1..]);
    }
  }


  /** The comparer is a total preorder: any two names are ordered one way or the other ... */
  lemma IgnoreCaseTotal(a: string, b: string)
    ensures CompareIgnoreCase(a, b) <= 0 || CompareIgnoreCase(b, a) <= 0
    ensures CompareIgnoreCase(a, b) == -CompareIgnoreCase(b, a)
  {
    OrdinalAntisymmetric(UpperAll(a), UpperAll(b));
  }

  /** ... and the order is transitive. */
  lemma IgnoreCaseTransitive(a: string, b: string, c: string)
    requires CompareIgnoreCase(a, b) <= 0 && CompareIgnoreCase(b, c) <= 0
    ensures CompareIgnoreCase(a, c) <= 0
  {
    OrdinalTransitive(UpperAll(a), UpperAll(b), UpperAll(c));
  }
}
