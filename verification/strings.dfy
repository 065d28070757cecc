/**
 * `String.prototype.replace` with a string pattern: only the first
 * occurrence of the pattern is replaced.
 */
module Strings {
  import opened Wrappers

  /** `pat` starts at index `i` of `s`. */
  predicate OccursAt(s: string, pat: string, i: nat) {
    i + |pat| <= |s| && s[i..i + |pat|] == pat
  }

  /** `i` is where `pat` first occurs in `s`. */
  predicate FirstOccurrence(s: string, pat: string, i: nat) {
    OccursAt(s, pat, i) && forall j: nat :: j < i ==> !OccursAt(s, pat, j)
  }

  predicate Absent(s: string, pat: string) {
    forall j: nat :: j <= |s| ==> !OccursAt(s, pat, j)
  }

  lemma FirstOccurrenceUnique(s: string, pat: string, i: nat, j: nat)
    requires FirstOccurrence(s, pat, i) && FirstOccurrence(s, pat, j)
    ensures i == j
  {
  }

  /** The first index at or after `from` where `pat` occurs in `s`. */
  function IndexFrom(s: string, pat: string, from: nat): (r: Option<nat>)
    requires from <= |s|
    ensures r.Some? ==> from <= r.value && OccursAt(s, pat, r.value)
    ensures r.Some? ==> forall j: nat :: from <= j < r.value ==> !OccursAt(s, pat, j)
    ensures r.None? ==> forall j: nat :: from <= j ==> !OccursAt(s, pat, j)
    decreases |s| - from
  {
    if OccursAt(s, pat, from) then Some(from)
    else if from == |s| then None
    else IndexFrom(s, pat, from + 1)
  }

  /** `s.indexOf(pat)`: the first occurrence of `pat`, if any. */
  function IndexOf(s: string, pat: string): (r: Option<nat>)
    ensures r.Some? <==> !Absent(s, pat)
    ensures r.Some? ==> FirstOccurrence(s, pat, r.value)
  {
    IndexFrom(s, pat, 0)
  }

  /**
   * `s.replace(pat, rep)`: the first occurrence of `pat` becomes `rep`,
   * everything else is kept; without an occurrence `s` is returned as is.
   */
  function ReplaceFirst(s: string, pat: string, rep: string): (r: string)
    ensures Absent(s, pat) ==> r == s
    ensures forall i: nat :: FirstOccurrence(s, pat, i) ==> r == s[..i] + rep + s[i + |pat|..]
  {
    match IndexOf(s, pat)
    case None => s
    case Some(i) =>
      assert forall j: nat :: FirstOccurrence(s, pat, j) ==> j == i by {
        forall j: nat | FirstOccurrence(s, pat, j) ensures j == i {
          FirstOccurrenceUnique(s, pat, i, j);
        }
      }
      s[..i] + rep + s[i + |pat|..]
  }

  /** A string without the pattern's first character cannot hold the pattern. */
  lemma AbsentWithoutFirstChar(s: string, pat: string)
    requires 0 < |pat| && pat[0] !in s
    ensures Absent(s, pat)
  {
    forall j: nat | j <= |s| ensures !OccursAt(s, pat, j) {
      if j + |pat| <= |s| {
        assert s[j..j + |pat|][0] == s[j];
        assert s[j] in s;
      }
    }
  }
}
