/**
 * The batch sampler of `initSurvey`: from the resume index and the corpus size, either no
 * batch (empty corpus, or every image already evaluated) or the offsets of the next batch,
 * which is then cut out of the corpus with `Array.prototype.slice`.
 */
module Batch {
  import opened Config

  function Min(a: int, b: int): int
  {
    if a <= b then a else b
  }

  /**
   * `s.slice(start, end)` for integer arguments: a negative argument counts from the end,
   * both are clamped to `[0, |s|]`, and an empty result comes back when `end` is not after
   * `start`.
   */
  function JsSlice<T>(s: seq<T>, start: int, end: int): (r: seq<T>)
    ensures |r| <= |s|
    ensures 0 <= start <= end <= |s| ==> r == s[start..end]
    ensures 0 <= end <= start ==> r == []
  {
    var from := if start < 0 then (if |s| + start < 0 then 0 else |s| + start) else Min(start, |s|);
    var to := if end < 0 then (if |s| + end < 0 then 0 else |s| + end) else Min(end, |s|);
    if from < to then s[from..to] else []
  }

  /** The outcome of the offset arithmetic. */
  datatype BatchPlan =
    | NoImages                            // the corpus is empty
    | AllEvaluated                        // the resume index is past the corpus
    | Batch(startIdx: int, endIdx: int)   // slice `[startIdx, endIdx)` of the corpus

  /**
   * The offsets `initSurvey` computes for a corpus of `count` images and resume index
   * `startIdx`: the end is `SAMPLE_SIZE` further on, or the end of the corpus if nearer.
   */
  function PlanBatch(count: nat, startIdx: int): (plan: BatchPlan)
    ensures plan.NoImages? <==> count == 0
    ensures plan.AllEvaluated? <==> count > 0 && startIdx >= count
    ensures plan.Batch? ==> plan.startIdx == startIdx < count
    ensures plan.Batch? ==> plan.endIdx <= count && plan.endIdx - plan.startIdx <= SAMPLE_SIZE
    ensures plan.Batch? && startIdx >= 0 ==> 1 <= plan.endIdx - plan.startIdx
    ensures plan.Batch? ==> (plan.endIdx == count || plan.endIdx - plan.startIdx == SAMPLE_SIZE)
  {
    if count == 0 then NoImages
    else
      var endIdx := Min(startIdx + SAMPLE_SIZE, count);
      if startIdx >= count then AllEvaluated
      else Batch(startIdx, endIdx)
  }
}
