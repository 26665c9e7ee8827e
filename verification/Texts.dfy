/** The string helpers of src/utility/utils.cpp that the event system uses. */
module Texts {
  import opened Common

  predicate OccursAt(text: string, pattern: string, i: nat) {
    i + |pattern| <= |text| && text[i..i + |pattern|] == pattern
  }

  /** The first occurrence at or after a position. */
  function Find(text: string, pattern: string, from: nat): (r: Option<nat>)
    ensures r.Some? ==> from <= r.value && OccursAt(text, pattern, r.value)
    ensures forall j | from <= j && OccursAt(text, pattern, j) :: r.Some? && r.value <= j
    decreases |text| - from
  {
    if OccursAt(text, pattern, from) then Some(from)
    else if from >= |text| then None
    else Find(text, pattern, from + 1)
  }

  predicate Contains(text: string, pattern: string) {
    Find(text, pattern, 0).Some?
  }

  /** Replaces the first occurrence, if there is one. */
  function ReplaceFirst(text: string, from: string, to: string): string {
    match Find(text, from, 0)
    case None => text
    case Some(i) => text[..i] + to + text[i + |from|..]
  }

  /** The first occurrence is replaced and nothing else ... */
  lemma ReplacesFirst(before: string, from: string, after: string, to: string)
    requires forall i | 0 <= i < |before| :: !OccursAt(before + from + after, from, i)
    ensures ReplaceFirst(before + from + after, from, to) == before + to + after
  {
    var text := before + from + after;
    assert text[|before|..|before| + |from|] == from;
    assert OccursAt(text, from, |before|);
    var hit := Find(text, from, 0);
    assert hit == Some(|before|);
    assert text[..|before|] == before && text[|before| + |from|..] == after;
  }

  /** ... and a text without one stays as it is. */
  lemma ReplacesNothing(text: string, from: string, to: string)
    requires forall i: nat :: !OccursAt(text, from, i)
    ensures ReplaceFirst(text, from, to) == text && !Contains(text, from)
  {
  }
}
