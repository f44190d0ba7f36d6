/**
 * The string matching behind the repository's derived query
 * `findByNameContainingIgnoreCase`: both sides are upper-cased (the query is
 * translated to `upper(name) like upper(%fragment%)` with the fragment's
 * wildcards escaped) and the fragment must occur as a contiguous substring.
 * Case folding is restricted to ASCII letters.
 */
module Text {

  /** ASCII upper-casing of one character; every other character is kept. */
  function UpperChar(c: char): (r: char)
    ensures !('a' <= r <= 'z')
  {
    if 'a' <= c <= 'z' then (c as int - 32) as char else c
  }

  function Upper(s: string): (r: string)
    ensures |r| == |s|
    ensures forall i :: 0 <= i < |r| ==> !('a' <= r[i] <= 'z')
  {
    seq(|s|, i requires 0 <= i < |s| => UpperChar(s[i]))
  }

  /** `fragment` occurs in `text` starting at position `i`. */
  predicate OccursAt(text: string, fragment: string, i: int)
  {
    0 <= i <= |text| - |fragment| && text[i..i + |fragment|] == fragment
  }

  /** `fragment` occurs in `text` at some position. */
  predicate Contains(text: string, fragment: string)
  {
    exists i | 0 <= i <= |text| :: OccursAt(text, fragment, i)
  }

  /** The match performed by `findByNameContainingIgnoreCase`. */
  predicate ContainsIgnoreCase(text: string, fragment: string)
  {
    Contains(Upper(text), Upper(fragment))
  }

  /** Upper-casing twice is upper-casing once. */
  lemma UpperIdempotent(s: string)
    ensures Upper(Upper(s)) == Upper(s)
  {
  }

  /** The empty fragment is contained in every text. */
  lemma ContainsEmpty(text: string)
    ensures Contains(text, [])
  {
    assert OccursAt(text, [], 0);
  }

  /** The empty search fragment matches every name. */
  lemma EmptyFragmentMatches(name: string)
    ensures ContainsIgnoreCase(name, "")
  {
    ContainsEmpty(Upper(name));
  }

  /** Upper-casing the fragment beforehand does not change the match. */
  lemma FragmentCaseIrrelevant(name: string, fragment: string)
    ensures ContainsIgnoreCase(name, Upper(fragment)) == ContainsIgnoreCase(name, fragment)
  {
    UpperIdempotent(fragment);
  }

  /** Upper-casing the name beforehand does not change the match either. */
  lemma NameCaseIrrelevant(name: string, fragment: string)
    ensures ContainsIgnoreCase(Upper(name), fragment) == ContainsIgnoreCase(name, fragment)
  {
    UpperIdempotent(name);
  }

  /** Example: searching "lap" finds an item named "Laptop". */
  lemma LaptopMatchesLap()
    ensures ContainsIgnoreCase("Laptop", "lap")
  {
    assert OccursAt(Upper("Laptop"), Upper("lap"), 0);
  }
}
