/**
 * The rating form: which radio button of each criterion is checked, the completeness check
 * done before advancing, the scores read off the form, and the response built from them.
 */
module Rating {
  import opened Config

  /**
   * The checked radio buttons: criterion id to the value of its checked button; an id that
   * is absent has no button checked.
   */
  type Selection = map<string, int>

  /** Every checked value is one the form offers (`SCALE_MIN` to `SCALE_MAX`). */
  predicate OnScale(sel: Selection)
  {
    forall id :: id in sel ==> InScale(sel[id])
  }

  /** Every criterion has a checked button. */
  predicate AllScored(sel: Selection)
  {
    forall i :: 0 <= i < |EVALUATION_ITEMS| ==> EVALUATION_ITEMS[i].id in sel
  }

  /** `allItemsScored()`: scans the criteria in order and stops at the first unanswered one. */
  method AllItemsScored(sel: Selection) returns (scored: bool)
    ensures scored <==> AllScored(sel)
  {
    for i := 0 to |EVALUATION_ITEMS|
      invariant forall j :: 0 <= j < i ==> EVALUATION_ITEMS[j].id in sel
    {
      if EVALUATION_ITEMS[i].id !in sel {
        return false;
      }
    }
    return true;
  }

  /** The `scores` object of a response: the checked value of every answered criterion. */
  function ScoresOf(sel: Selection): map<string, int>
  {
    map id | id in ItemIds() && id in sel :: sel[id]
  }

  /**
   * The loop of `nextQuestion` that fills `scores`: one entry per answered criterion,
   * holding the checked value, and nothing for any other key.
   */
  method BuildScores(sel: Selection) returns (scores: map<string, int>)
    ensures scores.Keys == ItemIds() * sel.Keys
    ensures forall id :: id in scores ==> scores[id] == sel[id]
    ensures scores == ScoresOf(sel)
  {
    scores := map[];
    for i := 0 to |EVALUATION_ITEMS|
      invariant scores.Keys == (set j | 0 <= j < i && EVALUATION_ITEMS[j].id in sel :: EVALUATION_ITEMS[j].id)
      invariant forall id :: id in scores ==> id in sel && scores[id] == sel[id]
    {
      var id := EVALUATION_ITEMS[i].id;
      if id in sel {
        scores := scores[id := sel[id]];
      }
    }
  }

  /** A complete score map: exactly the criterion ids, each with a value on the scale. */
  predicate WellScored(scores: map<string, int>)
  {
    scores.Keys == ItemIds() && forall id :: id in scores ==> InScale(scores[id])
  }

  /** For a form of on-scale values, the scores are complete exactly when every criterion is answered. */
  lemma ScoresOfComplete(sel: Selection)
    requires OnScale(sel)
    ensures WellScored(ScoresOf(sel)) <==> AllScored(sel)
  {
    if !AllScored(sel) {
      var i :| 0 <= i < |EVALUATION_ITEMS| && EVALUATION_ITEMS[i].id !in sel;
      assert EVALUATION_ITEMS[i].id in ItemIds();
    }
  }

  /** One pushed element of `responses`. */
  datatype Response = Response(
    timestamp: string,
    userID: string,
    gender: string,
    age: string,
    occupation: string,
    imageID: string,
    scores: map<string, int>)
}
