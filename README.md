# Perceptual image survey: session bookkeeping

A Dafny model of the bookkeeping in the survey page's `script.js`. The page lists the
images of a GitHub repository and picks a batch of up to `SAMPLE_SIZE` (100) of them. A
participant rates each image on seven criteria, each scored from 1 to 5. The page keeps
per-participant-class progress in browser storage, so the next visit resumes after the
last batch. When the batch is finished, it submits the responses to a collector script.

The model has these parts:

- `wrappers.dfy`, `config.dfy`: an `Option` type, and the page's constants (repository
  coordinates, `SAMPLE_SIZE`, `SCALE_MIN`/`SCALE_MAX`, `EVALUATION_ITEMS`).
- `paths.dfy`: `split` with a one-character separator, and `getImageID`.
- `corpus.dfy`: the filter/sort/map chain that turns the tree listing into image URLs, and
  the failure paths of `getImageList`.
- `progress.dfy`: `getSessionKey`, the progress record, and its load and save. Storage is a
  map from key to the decoded record.
- `batch.dfy`: the offset arithmetic of `initSurvey` and JavaScript's `Array.prototype.slice`.
- `rating.dfy`: the rating form as a map from criterion id to the checked value, plus
  `allItemsScored`, the loop that builds `scores`, and the response record.
- `submission.dfy`: how the JSONP request's completion settles `submitSurvey`.
- `session.dfy`: the page's globals plus storage as one value. It has one transition
  function per handler, the start button's included, and the lemmas about them.
- `survey.dfy`: class `SurveyPage`, whose fields are the globals and whose methods are the
  handlers. Each method updates its fields in place and is proved to make the transition
  that `session.dfy` defines. The start button, `initSurvey`, `nextQuestion` and
  `prevQuestion` keep the invariant `Valid()`. `loadSessionProgress`,
  `saveSessionProgress` and `submitSurvey` change only the progress and storage, so
  `Valid()` holds after them exactly when it held before. (`submitSurvey` runs after
  `nextQuestion` has appended its response, while the count is one ahead.) The invariant is:
  - the index stays inside the batch;
  - every response has a complete, on-scale score map;
  - `responses.length == currentImage + attempts`, where `attempts` counts the submissions
    made since the batch was selected.

## Behaviour reproduced from the code

The model follows what the code does, including these consequences of it:

- **Listing order.** The `.sort()` at script.js:124 is applied to the listing objects, not
  to their paths. The default comparator turns every object into `"[object Object]"`, and
  the sort is stable, so it keeps the listing order. `DefaultSort` models it as a stable
  insertion sort on that string. `DefaultSortKeepsOrder` proves it is the identity. The
  corpus is therefore in listing order, not sorted by path.
- **Progress is counted before the outcome is known.** `submitSurvey` adds
  `responses.length` to `totalEvaluated` and saves it before the request is sent. This
  happens whatever the outcome (`SubmitBookkeeping`), so a failed submission still moves
  the next session past the batch.
- **Retrying after a failed submission.** The index stays on the last image and the form
  is not cleared. Pressing next again records the same image a second time and counts the
  whole, now longer, response list again (`RetryCountsTwice`). Stepping back after a failed
  submission keeps the extra response. This is why the invariant counts `attempts`.
- **Image load failures.** A failed image load blocks nothing. `nextQuestion` has no guard
  on it, and neither does the model.
- **Missing stored record.** When there is no stored record, `loadSessionProgress` leaves
  the in-memory progress as it is; it does not reset it (`InitKeepsProgressWithoutRecord`).
  This matters when the start button is pressed again in the same page load. Both early
  returns of `initSurvey` go back to the start page, and the button then sets a new
  `participant`. A new answer triple with no stored record inherits the previous
  class's progress (`StartInheritsProgress`). For example, after one class has finished
  all 250 images, another class is told that everything is evaluated without rating
  anything (`StartAfterFinishedClass`).
- **Key collisions.** The storage key joins the answers with `_`. Answers that contain `_`
  can therefore collide (`SessionKeyCollides`). Answers without `_` cannot
  (`SessionKeyInjective`).
- **Negative offsets.** Only corrupt storage can make the resume index negative.
  `initSurvey` then slices with JavaScript semantics, where a negative index counts from
  the end. `JsSlice` models this rather than excluding it.

## Model

| member | source | states |
|---|---|---|
| `Paths.Split` | script.js:59 | `split('/')` always gives at least one piece and no piece contains the separator |
| `Paths.JoinSplit` | script.js:59 | joining the pieces of `split` with the separator gives back the string |
| `Paths.SplitWithoutSep` | script.js:59 | a string without the separator splits into itself alone |
| `Paths.SplitAppend` | script.js:59 | splitting at a separator splits both sides independently |
| `Paths.LastPieceIsSuffix` | script.js:59 | the piece `pop()` returns is a suffix, the whole string when there is one piece, otherwise preceded by the separator |
| `Paths.GetImageID` | script.js:58-60 | the id has no `/`, is the suffix after the last `/`, and is the whole URL when the URL has no `/` |
| `Paths.ImageIdAfterSlash` | script.js:58-60 | whatever precedes the last `/` does not affect the id |
| `Corpus.KeepImages` | script.js:123 | the filter keeps only blobs under `images/` with a case-insensitive jpg/jpeg/png/webp extension, and never grows the list |
| `Corpus.KeepImagesMembers` | script.js:123 | an entry is kept if and only if it is in the listing and passes the filter |
| `Corpus.KeepImagesAppend` | script.js:123 | filtering a concatenation filters each part in place (order is kept) |
| `Corpus.HasImageExtension` | script.js:121-123 | the extension test: the path ends, ignoring ASCII letter case, with one of `.jpg`, `.jpeg`, `.png`, `.webp`; it has no contract of its own, and `ImageExtensionAnyCase`, `ImageExtensionMixedCase`, `ImageExtensionLastChar` and `ImageExtensionRefusesSvg` state part of what it accepts and refuses |
| `Corpus.ImageExtensionAnyCase` | script.js:121-123 | every alternative matches at the end of any path, in lower case and in upper case |
| `Corpus.ImageExtensionMixedCase` | script.js:121-123 | an alternative written in any mix of letter cases, such as `.JpG`, passes after any stem |
| `Corpus.ImageExtensionLastChar` | script.js:121-123 | a path that does not end in `g` or `p`, in either case, never passes the extension test |
| `Corpus.ImageExtensionRefusesSvg` | script.js:121-123 | a path ending in `.svg` never passes, although it ends in `g` like three alternatives |
| `Corpus.DefaultSort` | script.js:124 | the comparator-less sort, as a stable insertion sort on `String(entry)`, which is `"[object Object]"` for every entry; it has no contract of its own, and `DefaultSortKeepsOrder` proves it returns its input |
| `Corpus.DefaultSortKeepsOrder` | script.js:124 | the comparator-less sort of the listing objects leaves them in listing order |
| `Corpus.ToRawUrls` | script.js:125 | the map gives one raw-content URL per entry, in the same position |
| `Corpus.ImageList` | script.js:121-125 | the filter/sort/map chain; it has no contract of its own, and `ImageListUnsorted` and `ImageListContents` state what it gives |
| `Corpus.ImageListUnsorted` | script.js:121-125 | the sort step drops out: the image list is the filtered listing mapped to URLs, in listing order |
| `Corpus.ImageListContents` | script.js:121-125 | every URL is the raw-content URL of a listing entry that passes the filter, every such entry gives a URL, and there are no more URLs than entries |
| `Corpus.ImageListAppend` | script.js:121-125 | the image list of a concatenated listing is the concatenation of the image lists (listing order kept) |
| `Corpus.ImageListSingle` | script.js:121-125 | a single entry gives its URL exactly when it passes the filter |
| `Corpus.GetImageList` | script.js:104-134 | a failed request, a non-2xx status, an undecodable body or a "Not Found" message give the empty list |
| `Corpus.RawUrlImageId` | script.js:58-60 | the id of a listed image's URL equals the final segment of its repository path |
| `Progress.SessionKey` | script.js:65-67 | the key starts with `session_`; the rest of the template is recovered by `SessionKeyParts` |
| `Progress.SessionKeyParts` | script.js:65-67 | with answers free of `_`, the key splits back into `session` and the three answers |
| `Progress.SessionKeyInjective` | script.js:65-67 | with answers free of `_`, two participants share a key if and only if their answers are equal |
| `Progress.SessionKeyCollides` | script.js:65-67 | some different participants, whose answers contain `_`, share a key |
| `Progress.Load` | script.js:72-82 | without a stored record the in-memory progress is kept unchanged |
| `Progress.Save` | script.js:87-91 | saving writes the record under the key and leaves every other key as it was |
| `Progress.LoadAfterSave` | script.js:72-91 | loading after saving gives back the saved record, whatever was in memory |
| `Progress.LoadOtherKey` | script.js:72-91 | saving under one key does not change what another key loads |
| `Batch.JsSlice` | script.js:206 | `slice` is the plain slice for in-range offsets, is empty when `0 <= end <= start`, and never exceeds the list |
| `Batch.PlanBatch` | script.js:186-204 | no batch if and only if the corpus is empty; "all evaluated" if and only if the resume index is at or past the end; otherwise the batch starts at the resume index, ends within the corpus, holds at most `SAMPLE_SIZE` images and at least one if the start is not negative, and is cut short only by the end of the corpus |
| `Rating.AllItemsScored` | script.js:278-286 | the scan answers true if and only if every criterion has a checked value |
| `Rating.BuildScores` | script.js:299-305 | `scores` holds exactly the answered criterion ids, each with its checked value |
| `Rating.ScoresOfComplete` | script.js:154-158 | for a form of on-scale values, the scores hold exactly the criterion ids with on-scale values if and only if every criterion is answered |
| `Submission.Classify` | script.js:366-411 | success if and only if the callback got a result whose `status` is "success"; any other callback value is a rejection carrying `result.message` (or the fallback message when there is no result); a script error is a network error, the timer a timeout |
| `Session.LoadSession` | script.js:72-82 | only the progress changes; without a stored record nothing changes, and with one the progress is the stored record, a missing field reading as 0 |
| `Session.SaveSession` | script.js:87-91 | only storage changes; the participant's key then loads the progress, and every other key loads what it loaded before |
| `Session.SelectBatch` | script.js:186-208 | the offsets and the slice of `initSurvey`, once the corpus is listed; it has no contract of its own, and `InitSelectsBatch`, `InitWithoutBatch` and `SelectBatchPreservesInvariant` state what it does |
| `Session.InitSurvey` | script.js:180-208 | participant, user id and storage are kept; the progress is the loaded one; the plan is `PlanBatch` of the corpus size and the loaded resume index; without a batch only the progress changes, and with one the index is 0 and there are no responses |
| `Session.InitSurveyCases` | script.js:186-208 | the ways `initSurvey` ends, each with the whole state it leaves: no images or all evaluated leave the loaded state; a batch from a resume index in range selects the images from the resume index up to `SAMPLE_SIZE` further on or the end of the corpus, with the index 0 and no responses; a negative resume index selects the `slice` of those offsets |
| `Session.SubmitSurvey` | script.js:342-358 | only the progress and storage change; `totalEvaluated` grows by the number of responses and `startIndex` is kept; the result is how the request's completion is classified |
| `Session.NextQuestion` | script.js:291-326 | the press is refused exactly when a criterion is unanswered, and fails exactly when the index is outside the batch; both leave the state unchanged; the participant, user id and batch never change |
| `Session.PrevQuestion` | script.js:331-337 | only the index and the responses change; the index steps back unless it is 0; the responses lose at most their last element |
| `Session.Start` | script.js:435-451 | nothing changes exactly when an answer is missing; otherwise the answers become the participant and `initSurvey` runs |
| `Session.StartInheritsProgress` | script.js:435-451 | a new answer triple with no stored record keeps the in-memory progress, and its batch is planned from that progress |
| `Session.StartAfterFinishedClass` | script.js:435-451 | after one class has finished 250 of 250 images, a new class with no stored record gets "all evaluated" and nothing else changes but the participant |
| `Session.InitSelectsBatch` | script.js:194-208 | for a resume index inside the corpus, the batch is the slice from it to `SAMPLE_SIZE` further or the end, of 1 to `SAMPLE_SIZE` images, the index is 0 and there are no responses |
| `Session.InitWithoutBatch` | script.js:186-204 | with an empty corpus or every image evaluated, the batch, index, responses and storage are unchanged |
| `Session.InitKeepsProgressWithoutRecord` | script.js:72-82 | without a stored record `initSurvey` leaves the in-memory progress as it was |
| `Session.NextRequiresAllScored` | script.js:291-296 | with any criterion unanswered, the next button changes nothing |
| `Session.NextAppendsResponse` | script.js:299-325 | a guarded-through press appends exactly one response for the current image, with complete on-scale scores equal to the checked values, then advances or, on the last image, submits and stays |
| `Session.NextChangesNothingElse` | script.js:299-321 | apart from the appended response, an advancing press changes only the index, and a press on the last image changes exactly what the submission's bookkeeping changes |
| `Session.PrevRetreats` | script.js:331-337 | at index 0 nothing changes; further on the index steps back and exactly the last response is removed, all else unchanged |
| `Session.SubmitBookkeeping` | script.js:357-358 | `totalEvaluated` grows by exactly the number of responses, `startIndex` is kept, the record is saved under the participant's key, other keys are untouched, and none of it depends on the outcome |
| `Session.InitPreservesInvariant` | script.js:180-208 | `initSurvey` keeps the state well formed, and a new batch starts with as many responses as the index |
| `Session.SelectBatchPreservesInvariant` | script.js:194-208 | selecting a batch keeps the state well formed, and a new batch starts with no responses |
| `Session.NextPreservesInvariant` | script.js:291-326 | a press keeps the state well formed, and responses run one further ahead of the index exactly when it submitted |
| `Session.PrevPreservesInvariant` | script.js:331-337 | stepping back keeps the state well formed and the distance between responses and index |
| `Session.FirstSubmissionCountsBatch` | script.js:318-321 | the first submission of a batch counts exactly the batch's images |
| `Session.RetryCountsTwice` | script.js:318-321 | a second press after a submission on the last image records that image again and adds the longer response list to `totalEvaluated` a second time |
| `Session.NextSessionContinues` | script.js:194-208 | once a full batch is submitted, the next `initSurvey` plans its batch from the previous batch's end |
| `Session.FirstBatchExample` | script.js:194-208 | for 250 images and zero progress, the first batch is images 0 to 99 |
| `Session.SecondBatchExample` | script.js:357-358 | after that batch is submitted, the record is 100 evaluated from offset 0 and the next batch is images 100 to 199 |
| `Survey.SurveyPage.constructor` | script.js:33-43 | the page starts with empty answers, no batch, index 0, no responses and zero progress |
| `Survey.SurveyPage.LoadSessionProgress` | script.js:72-82 | the fields of `sessionProgress` are replaced from the stored record, a missing field reading as 0, and are kept when there is no record; `Valid()` holds after exactly when it held before |
| `Survey.SurveyPage.SaveSessionProgress` | script.js:87-91 | makes the `Session.SaveSession` transition in place; `Valid()` holds after exactly when it held before |
| `Survey.SurveyPage.InitSurvey` | script.js:180-217 | makes the `Session.InitSurvey` transition in place and keeps `Valid()` |
| `Survey.SurveyPage.SelectBatch` | script.js:186-208 | makes the `Session.SelectBatch` transition in place and keeps `Valid()`; a new batch resets the attempt count |
| `Survey.SurveyPage.Start` | script.js:435-451 | makes the `Session.Start` transition in place and keeps `Valid()`; a new batch resets the attempt count |
| `Survey.SurveyPage.SubmitSurvey` | script.js:342-416 | makes the `Session.SubmitSurvey` transition in place; `Valid()` holds after exactly when it held before |
| `Survey.SurveyPage.NextQuestion` | script.js:291-326 | makes the `Session.NextQuestion` transition in place, keeps `Valid()`, and counts a submission attempt when it submits |
| `Survey.SurveyPage.PrevQuestion` | script.js:331-337 | makes the `Session.PrevQuestion` transition in place and keeps `Valid()` |

## Left out

- Page routing and markup: `showPage`, `generateEvaluationItems`, `updateProgress` and its
  fixed "총 100개" text, `showCompletionPage`, `clearScoreSelection`, and enabling the
  buttons with `setTimeout`. The form's state is an input map from criterion id to
  checked value. `NextQuestion` requires these values to be on the scale, because the
  form only offers radio buttons `SCALE_MIN` to `SCALE_MAX`.
- `loadImage`'s preload: it changes only the display, and its failure blocks nothing.
- The start button's reading of the form: the model takes the three answers as strings,
  with an unanswered one as the empty string. The switch to the survey page is not
  modelled.
- GitHub `fetch` and JSON decoding: the listing's outcome is the input `ListingResponse`.
  Storage's `JSON.parse` is replaced by the decoded `StoredProgress`. A corrupt stored
  string, or a stored field that is not an integer, is not modelled.
- The JSONP transport: the script element, the global callback, the 30-second timer and
  their cleanup. The model takes the first completion (`TransportEvent`) as input. The
  unhandled promise rejection after a failure changes no state.
- Randomness and clocks: `generateUserID`, the callback name and the timestamps are
  inputs.
- `alert` and `console.log`: side effects only.
- Interleaving of the async handlers: each handler is one atomic step. `initSurvey`
  awaits the listing between loading the progress and slicing the batch, and
  `nextQuestion` awaits `submitSurvey`. A second press during the wait is a separate
  transition in the model. The start handler switches to the survey page, hiding the
  start button, before it calls `initSurvey`, so no second start can interleave with a
  listing (script.js:449-450).
- Numbers are unbounded integers. JavaScript's doubles lose precision only above 2^53,
  which progress counts do not reach.
- Case folding beyond ASCII: the extension match folds ASCII letters only. This loses
  nothing, because without the `u` flag JavaScript never folds a non-ASCII character to
  an ASCII one.
