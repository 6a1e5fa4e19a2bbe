/**
 * The survey page's session bookkeeping as transitions on one value: the state that the
 * page keeps in its globals (`participant`, `currentImage`, `responses`, `selectedImages`,
 * `sessionProgress`) together with browser storage, and one function per handler (the
 * start button, `initSurvey`, `nextQuestion`, `prevQuestion`, `submitSurvey`). The class in survey.dfy
 * runs the same handlers in place and is proved against these functions.
 */
module Session {
  import opened Wrappers
  import opened Config
  import opened Paths
  import opened Corpus
  import opened Progress
  import opened Batch
  import opened Rating
  import opened Submission

  datatype SessionState = SessionState(
    participant: Participant,
    userID: string,
    currentImage: int,
    responses: seq<Response>,
    selectedImages: seq<string>,
    progress: ProgressRecord,
    store: Store)

  /** The globals as the page starts: no answers, no batch, no responses, zero progress. */
  function Initial(userID: string, store: Store): SessionState
  {
    SessionState(NO_ANSWERS, userID, 0, [], [], INITIAL_PROGRESS, store)
  }

  /** The index points into the batch (or is 0 before any batch) and every response is complete. */
  predicate WellFormed(s: SessionState)
  {
    && 0 <= s.currentImage
    && (s.selectedImages == [] ==> s.currentImage == 0)
    && (s.selectedImages != [] ==> s.currentImage < |s.selectedImages|)
    && (forall i :: 0 <= i < |s.responses| ==> WellScored(s.responses[i].scores))
  }

  /**
   * How far `responses` runs ahead of `currentImage`: one response per image before the
   * current one, plus one for every submission attempted since the batch was selected.
   */
  predicate Tracks(s: SessionState, attempts: nat)
  {
    |s.responses| == s.currentImage + attempts
  }

  function Key(s: SessionState): string
  {
    SessionKey(s.participant)
  }

  /** `loadSessionProgress()`: only the progress changes, and only when a record is stored. */
  function LoadSession(s: SessionState): (s': SessionState)
    ensures s' == s.(progress := s'.progress)
    ensures Key(s) !in s.store ==> s' == s
    ensures Key(s) in s.store ==> s'.progress == Load(s.store, Key(s), INITIAL_PROGRESS)
  {
    s.(progress := Load(s.store, Key(s), s.progress))
  }

  /** `saveSessionProgress()`: only storage changes, and it then holds the progress. */
  function SaveSession(s: SessionState): (s': SessionState)
    ensures s' == s.(store := s'.store)
    ensures Load(s'.store, Key(s), INITIAL_PROGRESS) == s.progress
    ensures forall k :: k != Key(s) ==> Load(s'.store, k, INITIAL_PROGRESS) == Load(s.store, k, INITIAL_PROGRESS)
  {
    s.(store := Save(s.store, Key(s), s.progress))
  }

  /**
   * The second half of `initSurvey()`, once the corpus is listed: plan the batch from the
   * progress, and when one is planned select it and restart the rating from its first
   * image; otherwise change nothing.
   */
  function SelectBatch(s: SessionState, all: seq<string>): (SessionState, BatchPlan)
  {
    var plan := PlanBatch(|all|, ResumeIndex(s.progress));
    if plan.Batch? then
      (s.(selectedImages := JsSlice(all, plan.startIdx, plan.endIdx), currentImage := 0, responses := []), plan)
    else
      (s, plan)
  }

  /** `initSurvey()`: load the progress, list the corpus, then select the batch. */
  function InitSurvey(s: SessionState, listing: ListingResponse): (r: (SessionState, BatchPlan))
    ensures r.0.participant == s.participant && r.0.userID == s.userID && r.0.store == s.store
    ensures r.0.progress == Load(s.store, Key(s), s.progress)
    ensures r.1 == PlanBatch(|GetImageList(listing)|, ResumeIndex(r.0.progress))
    ensures !r.1.Batch? ==> r.0 == LoadSession(s)
    ensures r.1.Batch? ==> r.0.currentImage == 0 && r.0.responses == []
  {
    SelectBatch(LoadSession(s), GetImageList(listing))
  }

  /**
   * The bookkeeping of `submitSurvey()`: add the number of responses to `totalEvaluated`
   * and save, before the request is made; then settle on the transport's completion.
   */
  function SubmitSurvey(s: SessionState, ev: TransportEvent): (r: (SessionState, SubmitResult))
    ensures r.0 == s.(progress := r.0.progress, store := r.0.store)
    ensures r.0.progress == ProgressRecord(s.progress.totalEvaluated + |s.responses|, s.progress.startIndex)
    ensures r.1 == Classify(ev)
  {
    var counted := s.(progress := s.progress.(totalEvaluated := s.progress.totalEvaluated + |s.responses|));
    (SaveSession(counted), Classify(ev))
  }

  /** What a press of the next button did. */
  datatype NextOutcome =
    | IncompleteRating           // some criterion unanswered: alert, nothing changes
    | NoCurrentImage             // `selectedImages[currentImage]` is undefined: `getImageID` throws
    | Advanced                   // response recorded, moved to the next image
    | Submitted(result: SubmitResult)  // response recorded on the last image, batch submitted

  /** The response recorded for the current image. */
  function NewResponse(s: SessionState, sel: Selection, timestamp: string): Response
    requires 0 <= s.currentImage < |s.selectedImages|
  {
    Response(timestamp, s.userID, s.participant.gender, s.participant.age, s.participant.occupation,
             GetImageID(s.selectedImages[s.currentImage]), ScoresOf(sel))
  }

  /**
   * `nextQuestion()`: guarded by `allItemsScored()`; appends a response, then moves on, or
   * on the last image submits while staying on it.
   */
  function NextQuestion(s: SessionState, sel: Selection, timestamp: string, ev: TransportEvent): (r: (SessionState, NextOutcome))
    ensures r.1 == IncompleteRating <==> !AllScored(sel)
    ensures r.1 == NoCurrentImage <==> AllScored(sel) && !(0 <= s.currentImage < |s.selectedImages|)
    ensures (r.1 == IncompleteRating || r.1 == NoCurrentImage) ==> r.0 == s
    ensures r.0.participant == s.participant && r.0.userID == s.userID
    ensures r.0.selectedImages == s.selectedImages
  {
    if !AllScored(sel) then (s, IncompleteRating)
    else if !(0 <= s.currentImage < |s.selectedImages|) then (s, NoCurrentImage)
    else
      var recorded := s.(responses := s.responses + [NewResponse(s, sel, timestamp)]);
      if s.currentImage >= |s.selectedImages| - 1 then
        var (submitted, result) := SubmitSurvey(recorded, ev);
        (submitted, Submitted(result))
      else
        (recorded.(currentImage := s.currentImage + 1), Advanced)
  }

  /** `prevQuestion()`: step back and drop the last response (`pop` on an empty list does nothing). */
  function PrevQuestion(s: SessionState): (s': SessionState)
    ensures s' == s.(currentImage := s'.currentImage, responses := s'.responses)
    ensures s'.currentImage == if s.currentImage > 0 then s.currentImage - 1 else s.currentImage
    ensures |s.responses| - 1 <= |s'.responses| <= |s.responses|
    ensures s'.responses == s.responses[..|s'.responses|]
  {
    if s.currentImage > 0 then
      s.(currentImage := s.currentImage - 1,
         responses := if |s.responses| > 0 then s.responses[..|s.responses| - 1] else s.responses)
    else s
  }

  /**
   * The start button: with every answer given, the answers become the participant and
   * `initSurvey()` runs; with one missing, nothing changes. The previous participant's
   * progress stays in memory, so the check on a stored record alone decides whether it is
   * replaced.
   */
  function Start(s: SessionState, p: Participant, listing: ListingResponse): (r: (SessionState, Option<BatchPlan>))
    ensures r.1 == None <==> !Answered(p)
    ensures r.1 == None ==> r.0 == s
    ensures r.1 != None ==> r.0.participant == p && (r.0, r.1.value) == InitSurvey(s.(participant := p), listing)
  {
    if !Answered(p) then (s, None)
    else
      var (s', plan) := InitSurvey(s.(participant := p), listing);
      (s', Some(plan))
  }

  // ---------------------------------------------------------------- batch sampling

  /**
   * When the corpus is not exhausted, the batch is the contiguous slice starting at the
   * resume index, of length `SAMPLE_SIZE` or up to the end of the corpus, and the rating
   * restarts at its first image with no responses.
   */
  lemma InitSelectsBatch(s: SessionState, listing: ListingResponse)
    requires var start := ResumeIndex(LoadSession(s).progress);
      0 <= start < |GetImageList(listing)|
    ensures var all := GetImageList(listing);
      var start := ResumeIndex(LoadSession(s).progress);
      var (s', plan) := InitSurvey(s, listing);
      && plan == Batch(start, Min(start + SAMPLE_SIZE, |all|))
      && s'.selectedImages == all[start..Min(start + SAMPLE_SIZE, |all|)]
      && 1 <= |s'.selectedImages| <= SAMPLE_SIZE
      && s'.currentImage == 0 && s'.responses == []
      && s'.progress == LoadSession(s).progress && s'.store == s.store
  {
  }

  /**
   * With an empty corpus or every image evaluated no batch is selected: the batch, the
   * index and the responses keep their previous values.
   */
  lemma InitWithoutBatch(s: SessionState, listing: ListingResponse)
    requires var start := ResumeIndex(LoadSession(s).progress);
      |GetImageList(listing)| == 0 || start >= |GetImageList(listing)|
    ensures var (s', plan) := InitSurvey(s, listing);
      && !plan.Batch?
      && s'.selectedImages == s.selectedImages
      && s'.currentImage == s.currentImage
      && s'.responses == s.responses
      && s'.store == s.store
  {
  }

  /**
   * The ways `initSurvey()` can end, each with the whole state it leaves: no images, every
   * image evaluated, or a batch; a negative resume index still selects a batch, cut by
   * `slice`'s counting from the end.
   */
  lemma InitSurveyCases(s: SessionState, listing: ListingResponse)
    ensures var all := GetImageList(listing);
      var loaded := LoadSession(s);
      var start := ResumeIndex(loaded.progress);
      var end := Min(start + SAMPLE_SIZE, |all|);
      var (s', plan) := InitSurvey(s, listing);
      && (all == [] ==> plan == NoImages && s' == loaded)
      && (0 < |all| <= start ==> plan == AllEvaluated && s' == loaded)
      && (0 <= start < |all| ==>
            plan == Batch(start, end)
            && s' == loaded.(selectedImages := all[start..end], currentImage := 0, responses := []))
      && (start < 0 < |all| ==>
            plan == Batch(start, end)
            && s' == loaded.(selectedImages := JsSlice(all, start, end), currentImage := 0, responses := []))
  {
    var all := GetImageList(listing);
    var loaded := LoadSession(s);
    assert InitSurvey(s, listing) == SelectBatch(loaded, all);
  }

  /** Without a stored record the in-memory progress is kept, not reset to zero. */
  lemma InitKeepsProgressWithoutRecord(s: SessionState, listing: ListingResponse)
    requires Key(s) !in s.store
    ensures InitSurvey(s, listing).0.progress == s.progress
  {
  }

  /**
   * A new answer triple with no stored record of its own inherits whatever progress the
   * page holds in memory, typically the previous participant class's.
   */
  lemma StartInheritsProgress(s: SessionState, p: Participant, listing: ListingResponse)
    requires Answered(p) && SessionKey(p) !in s.store
    ensures var (s', plan) := Start(s, p, listing);
      && plan.Some? && s'.participant == p && s'.progress == s.progress
      && plan.value == PlanBatch(|GetImageList(listing)|, ResumeIndex(s.progress))
  {
  }

  /**
   * After one class has rated all 250 images, a second class without a stored record is
   * told that everything is evaluated, without rating anything.
   */
  lemma StartAfterFinishedClass(s: SessionState, b: Participant, listing: ListingResponse)
    requires Answered(b) && SessionKey(b) !in s.store
    requires s.progress == ProgressRecord(250, 0) && |GetImageList(listing)| == 250
    ensures Start(s, b, listing) == (s.(participant := b), Some(AllEvaluated))
  {
  }

  // ---------------------------------------------------------------- rating

  /** An unanswered criterion blocks the next button: nothing changes. */
  lemma NextRequiresAllScored(s: SessionState, sel: Selection, timestamp: string, ev: TransportEvent)
    requires !AllScored(sel)
    ensures NextQuestion(s, sel, timestamp, ev) == (s, IncompleteRating)
  {
  }

  /**
   * A guarded-through press appends exactly one response, for the current image, whose
   * scores hold exactly the criterion ids with their on-scale values; it then advances, or
   * on the last image submits and keeps the index.
   */
  lemma NextAppendsResponse(s: SessionState, sel: Selection, timestamp: string, ev: TransportEvent)
    requires AllScored(sel) && OnScale(sel)
    requires 0 <= s.currentImage < |s.selectedImages|
    ensures var (s', outcome) := NextQuestion(s, sel, timestamp, ev);
      && |s'.responses| == |s.responses| + 1
      && s'.responses[..|s.responses|] == s.responses
      && var r := s'.responses[|s.responses|];
      && r.imageID == GetImageID(s.selectedImages[s.currentImage])
      && WellScored(r.scores)
      && (forall id :: id in r.scores ==> r.scores[id] == sel[id])
      && r.timestamp == timestamp && r.userID == s.userID
      && r.gender == s.participant.gender && r.age == s.participant.age
      && r.occupation == s.participant.occupation
      && s'.selectedImages == s.selectedImages
      && (s.currentImage < |s.selectedImages| - 1 ==> outcome == Advanced && s'.currentImage == s.currentImage + 1)
      && (s.currentImage == |s.selectedImages| - 1 ==>
            outcome == Submitted(Classify(ev)) && s'.currentImage == s.currentImage)
  {
    ScoresOfComplete(sel);
    var (s', outcome) := NextQuestion(s, sel, timestamp, ev);
    assert s'.responses == s.responses + [NewResponse(s, sel, timestamp)];
  }

  /**
   * Apart from the appended response, an advancing press changes only the index, and a
   * press on the last image changes exactly what the submission's bookkeeping changes.
   */
  lemma NextChangesNothingElse(s: SessionState, sel: Selection, timestamp: string, ev: TransportEvent)
    requires AllScored(sel) && 0 <= s.currentImage < |s.selectedImages|
    ensures var (s', outcome) := NextQuestion(s, sel, timestamp, ev);
      var recorded := s.(responses := s.responses + [NewResponse(s, sel, timestamp)]);
      && (outcome == Advanced ==> s' == recorded.(currentImage := s.currentImage + 1))
      && (outcome.Submitted? ==> s' == SubmitSurvey(recorded, ev).0)
      && (outcome.Advanced? || outcome.Submitted?)
  {
  }

  /** Stepping back at index 0 changes nothing; further on it drops exactly the last response. */
  lemma PrevRetreats(s: SessionState)
    ensures s.currentImage <= 0 ==> PrevQuestion(s) == s
    ensures s.currentImage > 0 && s.responses != [] ==>
      var s' := PrevQuestion(s);
      && s'.currentImage == s.currentImage - 1
      && |s'.responses| == |s.responses| - 1
      && s'.responses + [s.responses[|s.responses| - 1]] == s.responses
      && s' == s.(currentImage := s'.currentImage, responses := s'.responses)
  {
  }

  // ---------------------------------------------------------------- submission

  /**
   * Submitting adds exactly the number of responses to `totalEvaluated`, keeps
   * `startIndex`, saves the new record under the participant's key and leaves every other
   * key alone; none of it depends on how the request ends.
   */
  lemma SubmitBookkeeping(s: SessionState, ev: TransportEvent, other: TransportEvent)
    ensures var (s', result) := SubmitSurvey(s, ev);
      && s'.progress.totalEvaluated == s.progress.totalEvaluated + |s.responses|
      && s'.progress.startIndex == s.progress.startIndex
      && Load(s'.store, Key(s), INITIAL_PROGRESS) == s'.progress
      && (forall k :: k != Key(s) ==> Load(s'.store, k, INITIAL_PROGRESS) == Load(s.store, k, INITIAL_PROGRESS))
      && s' == s.(progress := s'.progress, store := s'.store)
      && result == Classify(ev)
      && SubmitSurvey(s, other).0 == s'
  {
    var (s', result) := SubmitSurvey(s, ev);
    LoadAfterSave(s.store, Key(s), s'.progress, INITIAL_PROGRESS);
    forall k | k != Key(s)
      ensures Load(s'.store, k, INITIAL_PROGRESS) == Load(s.store, k, INITIAL_PROGRESS)
    {
      LoadOtherKey(s.store, Key(s), k, s'.progress, INITIAL_PROGRESS);
    }
  }

  // ---------------------------------------------------------------- invariants

  /** `initSurvey` keeps the state well formed; a selected batch starts with no responses. */
  lemma InitPreservesInvariant(s: SessionState, listing: ListingResponse)
    requires WellFormed(s)
    ensures var (s', plan) := InitSurvey(s, listing);
      WellFormed(s') && (plan.Batch? ==> Tracks(s', 0))
  {
    SelectBatchPreservesInvariant(LoadSession(s), GetImageList(listing));
  }

  /** Selecting a batch keeps the state well formed, and a new batch has no responses. */
  lemma SelectBatchPreservesInvariant(s: SessionState, all: seq<string>)
    requires WellFormed(s)
    ensures var (s', plan) := SelectBatch(s, all);
      WellFormed(s') && (plan.Batch? ==> Tracks(s', 0))
  {
  }

  /**
   * A press of the next button keeps the state well formed, and `responses` runs one
   * further ahead of `currentImage` exactly when the press submitted.
   */
  lemma NextPreservesInvariant(s: SessionState, sel: Selection, timestamp: string, ev: TransportEvent, attempts: nat)
    requires WellFormed(s) && OnScale(sel) && Tracks(s, attempts)
    ensures var (s', outcome) := NextQuestion(s, sel, timestamp, ev);
      WellFormed(s') && Tracks(s', if outcome.Submitted? then attempts + 1 else attempts)
  {
    if AllScored(sel) && 0 <= s.currentImage < |s.selectedImages| {
      var r := NewResponse(s, sel, timestamp);
      ScoresOfComplete(sel);
      WellFormedAppend(s, r);
      NextChangesNothingElse(s, sel, timestamp, ev);
    }
  }

  /** Appending a complete response keeps the state well formed. */
  lemma WellFormedAppend(s: SessionState, r: Response)
    requires WellFormed(s) && WellScored(r.scores)
    ensures WellFormed(s.(responses := s.responses + [r]))
  {
    var rs := s.responses + [r];
    forall i | 0 <= i < |rs| ensures WellScored(rs[i].scores) {
      if i < |s.responses| { assert rs[i] == s.responses[i]; } else { assert rs[i] == r; }
    }
  }

  /** Stepping back keeps the state well formed and the same distance between the two. */
  lemma PrevPreservesInvariant(s: SessionState, attempts: nat)
    requires WellFormed(s) && Tracks(s, attempts)
    ensures WellFormed(PrevQuestion(s)) && Tracks(PrevQuestion(s), attempts)
  {
  }

  /**
   * Until the first submission there is one response per image before the current one, so
   * the first submission counts exactly the images of the batch.
   */
  lemma FirstSubmissionCountsBatch(s: SessionState, sel: Selection, timestamp: string, ev: TransportEvent)
    requires WellFormed(s) && Tracks(s, 0) && AllScored(sel)
    requires s.selectedImages != [] && s.currentImage == |s.selectedImages| - 1
    ensures var (s', outcome) := NextQuestion(s, sel, timestamp, ev);
      && outcome == Submitted(Classify(ev))
      && |s'.responses| == |s.selectedImages|
      && s'.progress.totalEvaluated == s.progress.totalEvaluated + |s.selectedImages|
  {
  }

  /**
   * After a submission on the last image the index stays there and the form is not
   * cleared, so pressing next again records the same image a second time and adds the
   * whole, now longer, response list to `totalEvaluated` once more.
   */
  lemma RetryCountsTwice(s: SessionState, sel: Selection, t1: string, t2: string, ev1: TransportEvent, ev2: TransportEvent)
    requires AllScored(sel)
    requires s.selectedImages != [] && s.currentImage == |s.selectedImages| - 1
    ensures var (s1, o1) := NextQuestion(s, sel, t1, ev1);
      var (s2, o2) := NextQuestion(s1, sel, t2, ev2);
      && o1 == Submitted(Classify(ev1)) && o2 == Submitted(Classify(ev2))
      && s2.currentImage == s.currentImage
      && |s2.responses| == |s.responses| + 2
      && s2.responses[|s.responses|].imageID == s2.responses[|s.responses| + 1].imageID
      && s2.progress.totalEvaluated == s.progress.totalEvaluated + 2 * |s.responses| + 3
  {
    var (s1, o1) := NextQuestion(s, sel, t1, ev1);
    assert |s1.responses| == |s.responses| + 1;
    assert s1.selectedImages == s.selectedImages && s1.currentImage == s.currentImage;
    var (s2, o2) := NextQuestion(s1, sel, t2, ev2);
    assert s2.responses == s1.responses + [NewResponse(s1, sel, t2)];
  }

  /**
   * Consecutive sessions tile the corpus: once a batch is selected and fully rated, the
   * submission stores the batch's end as the resume index, so the next `initSurvey` on
   * the same listing plans its batch from there, whatever the submission's result.
   */
  lemma NextSessionContinues(s: SessionState, listing: ListingResponse, t: SessionState, ev: TransportEvent)
    requires var (s1, plan) := InitSurvey(s, listing);
      && plan.Batch? && 0 <= plan.startIdx
      && t.participant == s1.participant && t.progress == s1.progress && t.store == s1.store
      && t.selectedImages == s1.selectedImages && |t.responses| == |t.selectedImages|
    ensures var all := GetImageList(listing);
      var plan := InitSurvey(s, listing).1;
      var (u, next) := InitSurvey(SubmitSurvey(t, ev).0, listing);
      && next == PlanBatch(|all|, plan.endIdx)
      && (next.Batch? ==> u.selectedImages == all[plan.endIdx..Min(plan.endIdx + SAMPLE_SIZE, |all|)])
  {
    var all, loaded := GetImageList(listing), LoadSession(s);
    var (s1, plan) := SelectBatch(loaded, all);
    assert plan == PlanBatch(|all|, ResumeIndex(loaded.progress));
    assert s1.selectedImages == all[plan.startIdx..plan.endIdx];
    var submitted := SubmitSurvey(t, ev).0;
    assert submitted.progress.totalEvaluated == t.progress.totalEvaluated + (plan.endIdx - plan.startIdx);
    LoadAfterSave(t.store, Key(t), submitted.progress, submitted.progress);
    assert LoadSession(submitted) == submitted;
    assert ResumeIndex(submitted.progress) == plan.endIdx;
    var next := PlanBatch(|all|, plan.endIdx);
    if next.Batch? {
      assert JsSlice(all, next.startIdx, next.endIdx) == all[next.startIdx..next.endIdx];
    }
  }

  /** A 250-image corpus from zero progress: the first batch is images 0 to 99. */
  lemma FirstBatchExample(s: SessionState, listing: ListingResponse)
    requires |GetImageList(listing)| == 250
    requires Key(s) !in s.store && s.progress == INITIAL_PROGRESS
    ensures var (s1, plan) := InitSurvey(s, listing);
      plan == Batch(0, 100) && s1.selectedImages == GetImageList(listing)[0..100]
  {
    assert LoadSession(s) == s;
    var all := GetImageList(listing);
    assert PlanBatch(|all|, 0) == Batch(0, 100);
    assert JsSlice(all, 0, 100) == all[0..100];
  }

  /**
   * Once that batch of 100 is rated and submitted, the record reads 100 evaluated from
   * offset 0 and the next session's batch is images 100 to 199.
   */
  lemma SecondBatchExample(t: SessionState, listing: ListingResponse, ev: TransportEvent)
    requires |GetImageList(listing)| == 250
    requires t.progress == INITIAL_PROGRESS
    requires t.selectedImages == GetImageList(listing)[0..100] && |t.responses| == 100
    ensures var submitted := SubmitSurvey(t, ev).0;
      && submitted.progress == ProgressRecord(100, 0)
      && InitSurvey(submitted, listing).0.selectedImages == GetImageList(listing)[100..200]
  {
    var all := GetImageList(listing);
    var submitted := SubmitSurvey(t, ev).0;
    assert submitted.progress.totalEvaluated == 100;
    LoadAfterSave(t.store, Key(t), submitted.progress, submitted.progress);
    assert LoadSession(submitted) == submitted;
    assert PlanBatch(|all|, 100) == Batch(100, 200);
    assert JsSlice(all, 100, 200) == all[100..200];
  }
}
