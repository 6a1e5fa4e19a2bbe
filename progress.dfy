/**
 * The progress store: the key derived from the participant's demographic answers, the
 * progress record kept in memory, and its load and save against browser storage, which
 * is modelled as a map from key to the decoded stored record.
 */
module Progress {
  import opened Wrappers
  import opened Paths

  /** The three demographic answers given on the start page. */
  datatype Participant = Participant(gender: string, age: string, occupation: string)

  /** The participant before the start page is submitted: every answer empty. */
  const NO_ANSWERS: Participant := Participant("", "", "")

  /** The start page's check: every answer given (an empty answer is a missing one). */
  predicate Answered(p: Participant)
  {
    p.gender != "" && p.age != "" && p.occupation != ""
  }

  /** `getSessionKey()`. */
  function SessionKey(p: Participant): (key: string)
    ensures StartsWith(key, "session_")
  {
    "session_" + p.gender + "_" + p.age + "_" + p.occupation
  }

  /** No answer contains the `_` that separates the parts of the key. */
  predicate PlainAnswers(p: Participant)
  {
    '_' !in p.gender && '_' !in p.age && '_' !in p.occupation
  }

  /** Four separator-free fields joined by `_` split back into those fields. */
  lemma SplitFourFields(h: string, g: string, a: string, o: string)
    requires '_' !in h && '_' !in g && '_' !in a && '_' !in o
    ensures Split(h + "_" + g + "_" + a + "_" + o, '_') == [h, g, a, o]
  {
    var ao := a + ['_'] + o;
    var gao := g + ['_'] + ao;
    assert h + "_" + g + "_" + a + "_" + o == h + ['_'] + gao;
    SplitAppend(h, gao, '_');
    SplitAppend(g, ao, '_');
    SplitAppend(a, o, '_');
    SplitWithoutSep(h, '_');
    SplitWithoutSep(g, '_');
    SplitWithoutSep(a, '_');
    SplitWithoutSep(o, '_');
  }

  /** With plain answers the key splits back into its parts. */
  lemma SessionKeyParts(p: Participant)
    requires PlainAnswers(p)
    ensures Split(SessionKey(p), '_') == ["session", p.gender, p.age, p.occupation]
  {
    var head := "session";
    assert forall i :: 0 <= i < |head| ==> head[i] != '_';
    assert SessionKey(p) == head + "_" + p.gender + "_" + p.age + "_" + p.occupation;
    SplitFourFields(head, p.gender, p.age, p.occupation);
  }

  /** Participants with plain answers share a key only if their answers are the same. */
  lemma SessionKeyInjective(p: Participant, q: Participant)
    requires PlainAnswers(p) && PlainAnswers(q)
    ensures SessionKey(p) == SessionKey(q) <==> p == q
  {
    SessionKeyParts(p);
    SessionKeyParts(q);
  }

  /** Answers containing `_` can make two different participants share one progress record. */
  lemma SessionKeyCollides()
    ensures exists p: Participant, q: Participant :: p != q && SessionKey(p) == SessionKey(q)
  {
    var p := Participant("a_b", "c", "d");
    var q := Participant("a", "b_c", "d");
    assert SessionKey(p) == "session_a_b_c_d" == SessionKey(q);
    assert p.gender != q.gender;
  }

  /** `sessionProgress`: how many images were evaluated, from which offset. */
  datatype ProgressRecord = ProgressRecord(totalEvaluated: int, startIndex: int)

  /** The initial value of `sessionProgress`. */
  const INITIAL_PROGRESS: ProgressRecord := ProgressRecord(0, 0)

  /** The index of the next image this participant class has not rated. */
  function ResumeIndex(p: ProgressRecord): int
  {
    p.startIndex + p.totalEvaluated
  }

  /** A stored record as `JSON.parse` gives it back; a missing field is `None`. */
  datatype StoredProgress = StoredProgress(totalEvaluated: Option<int>, startIndex: Option<int>)

  /** Browser storage, by key. */
  type Store = map<string, StoredProgress>

  /**
   * `loadSessionProgress()`: a stored record replaces both fields of `current`, a missing
   * or zero field reading as 0; without a stored record `current` is kept as it is.
   */
  function Load(store: Store, key: string, current: ProgressRecord): (p: ProgressRecord)
    ensures key !in store ==> p == current
  {
    if key in store then
      ProgressRecord(store[key].totalEvaluated.GetOr(0), store[key].startIndex.GetOr(0))
    else current
  }

  /** `saveSessionProgress()`: `JSON.stringify(sessionProgress)` written under `key`. */
  function Save(store: Store, key: string, p: ProgressRecord): (store': Store)
    ensures key in store'
    ensures forall k :: k != key ==> (k in store' <==> k in store)
    ensures forall k :: k != key && k in store ==> store'[k] == store[k]
  {
    store[key := StoredProgress(Some(p.totalEvaluated), Some(p.startIndex))]
  }

  /** What was saved is what is loaded back, whatever was in memory. */
  lemma LoadAfterSave(store: Store, key: string, p: ProgressRecord, current: ProgressRecord)
    ensures Load(Save(store, key, p), key, current) == p
  {
  }

  /** Saving under one key does not change what another key loads. */
  lemma LoadOtherKey(store: Store, key: string, other: string, p: ProgressRecord, current: ProgressRecord)
    requires other != key
    ensures Load(Save(store, key, p), other, current) == Load(store, other, current)
  {
  }
}
