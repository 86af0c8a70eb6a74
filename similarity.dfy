/**
 * The fuzzy near-duplicate test shared by all ingestion scripts: a new
 * string is "similar" to a list when some entry of the list scores strictly
 * above a threshold against it. The score itself (fuzzywuzzy's
 * `token_sort_ratio` or `ratio`) is foreign code and stays a parameter.
 */
module Similarity {

  /** A fuzzy-matching score on fuzzywuzzy's 0..100 scale. */
  type Score = s: int | 0 <= s <= 100

  /** Some entry of `existing` scores strictly above `threshold` against `x`. */
  predicate AnyAbove(score: (string, string) -> Score, x: string, existing: seq<string>, threshold: int) {
    exists i :: 0 <= i < |existing| && score(x, existing[i]) > threshold
  }

  /**
   * `is_similar(x, existing, threshold)`: scans `existing` in order and
   * returns at the first entry whose score against `x` exceeds `threshold`.
   * `scanned` is how many entries were scored: the scan stops right after
   * the first hit, or after the whole list when there is none.
   */
  method IsSimilar(score: (string, string) -> Score, x: string, existing: seq<string>, threshold: int)
    returns (similar: bool, scanned: nat)
    ensures similar <==> AnyAbove(score, x, existing, threshold)
    ensures scanned <= |existing|
    ensures forall j :: 0 <= j < scanned - 1 ==> score(x, existing[j]) <= threshold
    ensures similar ==> scanned > 0 && score(x, existing[scanned - 1]) > threshold
    ensures !similar ==> scanned == |existing|
  {
    scanned := 0;
    while scanned < |existing|
      invariant scanned <= |existing|
      invariant forall j :: 0 <= j < scanned ==> score(x, existing[j]) <= threshold
    {
      if score(x, existing[scanned]) > threshold {
        return true, scanned + 1;
      }
      scanned := scanned + 1;
    }
    return false, scanned;
  }
}
