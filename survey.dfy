/**
 * The survey page's globals as one object: `participant`, `currentImage`, `responses`,
 * `selectedImages` and the two fields of `sessionProgress` are fields that the handlers update in place,
 * and browser storage is a map field. Each handler is proved to make the transition that
 * session.dfy defines, and to keep the invariant `Valid`.
 */
module Survey {
  import opened Wrappers
  import opened Config
  import opened Paths
  import opened Corpus
  import opened Progress
  import opened Batch
  import opened Rating
  import opened Submission
  import Session

  class SurveyPage {
    var participant: Participant
    const userID: string
    var currentImage: int
    var responses: seq<Response>
    var selectedImages: seq<string>
    var totalEvaluated: int    // sessionProgress.totalEvaluated
    var startIndex: int        // sessionProgress.startIndex
    var store: Store           // browser storage
    /** Submissions attempted since the current batch was selected. */
    ghost var attempts: nat

    /** The globals as a value. */
    function State(): Session.SessionState
      reads this
    {
      Session.SessionState(participant, userID, currentImage, responses, selectedImages,
                           ProgressRecord(totalEvaluated, startIndex), store)
    }

    ghost predicate Valid()
      reads this
    {
      Session.WellFormed(State()) && Session.Tracks(State(), attempts)
    }

    /** The page as loaded, before any answers, over the storage found in the browser. */
    constructor (userID: string, store: Store)
      ensures Valid() && attempts == 0
      ensures State() == Session.Initial(userID, store)
    {
      participant := NO_ANSWERS;
      this.userID := userID;
      currentImage := 0;
      responses := [];
      selectedImages := [];
      totalEvaluated := 0;
      startIndex := 0;
      this.store := store;
      attempts := 0;
    }

    /** `loadSessionProgress()`: both fields from the stored record, if there is one. */
    method LoadSessionProgress()
      modifies this
      ensures State() == Session.LoadSession(old(State()))
      ensures attempts == old(attempts)
      ensures Valid() <==> old(Valid())
    {
      var key := SessionKey(participant);
      if key in store {
        var saved := store[key];
        totalEvaluated := saved.totalEvaluated.GetOr(0);
        startIndex := saved.startIndex.GetOr(0);
      }
    }

    /** `saveSessionProgress()`. */
    method SaveSessionProgress()
      modifies this
      ensures State() == Session.SaveSession(old(State()))
      ensures attempts == old(attempts)
      ensures Valid() <==> old(Valid())
    {
      var key := SessionKey(participant);
      store := store[key := StoredProgress(Some(totalEvaluated), Some(startIndex))];
    }

    /** `initSurvey()`, with the listing request's response as input. */
    method InitSurvey(listing: ListingResponse) returns (plan: BatchPlan)
      requires Valid()
      modifies this
      ensures Valid()
      ensures (State(), plan) == Session.InitSurvey(old(State()), listing)
      ensures attempts == if plan.Batch? then 0 else old(attempts)
    {
      LoadSessionProgress();
      var allImages := GetImageList(listing);
      plan := SelectBatch(allImages);
    }

    /** The offsets and the slice of `initSurvey()`, once the corpus is listed. */
    method SelectBatch(allImages: seq<string>) returns (plan: BatchPlan)
      requires Valid()
      modifies this
      ensures Valid()
      ensures (State(), plan) == Session.SelectBatch(old(State()), allImages)
      ensures attempts == if plan.Batch? then 0 else old(attempts)
    {
      Session.SelectBatchPreservesInvariant(State(), allImages);
      if |allImages| == 0 {
        return NoImages;
      }
      var startIdx := startIndex + totalEvaluated;
      var endIdx := Min(startIdx + SAMPLE_SIZE, |allImages|);
      if startIdx >= |allImages| {
        return AllEvaluated;
      }
      selectedImages := JsSlice(allImages, startIdx, endIdx);
      currentImage := 0;
      responses := [];
      attempts := 0;
      plan := Batch(startIdx, endIdx);
    }

    /**
     * The start button's handler, with the three answers as read from the form (an
     * unanswered one is empty): check them, set `participant`, then `initSurvey()`.
     */
    method Start(p: Participant, listing: ListingResponse) returns (plan: Option<BatchPlan>)
      requires Valid()
      modifies this
      ensures Valid()
      ensures (State(), plan) == Session.Start(old(State()), p, listing)
      ensures attempts == if plan.Some? && plan.value.Batch? then 0 else old(attempts)
    {
      if p.gender == "" || p.age == "" || p.occupation == "" {
        return None;
      }
      participant := p;
      var planned := InitSurvey(listing);
      plan := Some(planned);
    }

    /**
     * `submitSurvey()`: counts the responses into the progress and saves it before the
     * request is made, then settles on how the request ended.
     */
    method SubmitSurvey(ev: TransportEvent) returns (result: SubmitResult)
      modifies this
      ensures (State(), result) == Session.SubmitSurvey(old(State()), ev)
      ensures attempts == old(attempts)
      ensures Valid() <==> old(Valid())
    {
      totalEvaluated := totalEvaluated + |responses|;
      SaveSessionProgress();
      result := Classify(ev);
    }

    /**
     * `nextQuestion()`, with the form's checked values, the clock reading and the
     * submission's completion as inputs.
     */
    method NextQuestion(sel: Selection, timestamp: string, ev: TransportEvent) returns (outcome: Session.NextOutcome)
      requires Valid() && OnScale(sel)
      modifies this
      ensures Valid()
      ensures (State(), outcome) == Session.NextQuestion(old(State()), sel, timestamp, ev)
      ensures attempts == if outcome.Submitted? then old(attempts) + 1 else old(attempts)
    {
      Session.NextPreservesInvariant(State(), sel, timestamp, ev, attempts);
      var scored := AllItemsScored(sel);
      if !scored {
        return Session.IncompleteRating;
      }
      var scores := BuildScores(sel);
      if !(0 <= currentImage < |selectedImages|) {
        return Session.NoCurrentImage;
      }
      var imageID := GetImageID(selectedImages[currentImage]);
      responses := responses + [Response(timestamp, userID, participant.gender, participant.age,
                                         participant.occupation, imageID, scores)];
      if currentImage >= |selectedImages| - 1 {
        var result := SubmitSurvey(ev);
        attempts := attempts + 1;
        return Session.Submitted(result);
      }
      currentImage := currentImage + 1;
      return Session.Advanced;
    }

    /** `prevQuestion()`. */
    method PrevQuestion()
      requires Valid()
      modifies this
      ensures Valid()
      ensures State() == Session.PrevQuestion(old(State()))
      ensures attempts == old(attempts)
    {
      Session.PrevPreservesInvariant(State(), attempts);
      if currentImage > 0 {
        currentImage := currentImage - 1;
        if |responses| > 0 {
          responses := responses[..|responses| - 1];
        }
      }
    }
  }
}
