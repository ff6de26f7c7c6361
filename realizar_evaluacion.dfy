/**
 * Submitting an evaluation (src/components/Evaluacion/RealizarEvaluacion.tsx):
 * the score form, the rewrite of the participant array, the completion
 * test that picks the stored status, and the read / insert / update
 * sequence of the submit handler.
 */
module RealizarEvaluacion {
  import opened Wrappers
  import opened Domain
  import opened EvaluationUtils
  import opened Datastore

  // ------------------------------------------------------------ the scores

  /** Every score on the slider's scale, 1 to 5. */
  predicate ScoresInScale(m: map<CriterionId, int>) {
    forall k :: k in m ==> 1 <= m[k] <= 5
  }

  /** The ids of the loaded criteria. */
  function CriterionIds(criteria: seq<Criterion>): set<CriterionId> {
    set c | c in criteria :: c.id
  }

  /** The starting scores: 1 for every loaded criterion. */
  function InitialScores(criteria: seq<Criterion>): (m: map<CriterionId, int>)
    ensures m.Keys == CriterionIds(criteria)
    ensures forall k :: k in m ==> m[k] == 1
  {
    if criteria == [] then map[]
    else
      var last := criteria[|criteria| - 1];
      assert criteria == criteria[..|criteria| - 1] + [last];
      InitialScores(criteria[..|criteria| - 1])[last.id := 1]
  }

  /** The starting scores are on the scale. */
  lemma InitialScoresInScale(criteria: seq<Criterion>)
    ensures ScoresInScale(InitialScores(criteria))
  {
  }

  /**
   * `handleCalificacionChange`: the slider reports a whole value from 1 to
   * 5 for one criterion; that score is replaced and the others are kept.
   */
  function ChangeScore(m: map<CriterionId, int>, id: CriterionId, v: int): (r: map<CriterionId, int>)
    requires 1 <= v <= 5
    ensures r.Keys == m.Keys + {id}
    ensures id in r && r[id] == v
    ensures forall k :: k in m && k != id ==> r[k] == m[k]
    ensures ScoresInScale(m) ==> ScoresInScale(r)
  {
    m[id := v]
  }

  /** The slider's value, `calificaciones[id] || 1`: a missing or zero score shows as 1. */
  function DisplayedScore(m: map<CriterionId, int>, id: CriterionId): (v: int)
    ensures ScoresInScale(m) ==> 1 <= v <= 5
    ensures id in m && m[id] != 0 ==> v == m[id]
    ensures id !in m ==> v == 1
    ensures id in m && m[id] == 0 ==> v == 1
  {
    if id in m && m[id] != 0 then m[id] else 1
  }

  // -------------------------------------------- rewriting the participants

  /**
   * The rater branch: the current user's entry is marked `completado`;
   * every other entry and every other field is kept.
   */
  function MarkRaterDone(ps: seq<Participant>, user: UserId): (r: seq<Participant>)
    ensures |r| == |ps|
    ensures forall i :: 0 <= i < |ps| && ps[i].id != user ==> r[i] == ps[i]
    ensures forall i :: 0 <= i < |ps| && ps[i].id == user ==> r[i] == ps[i].(status := Done)
    ensures Dominates(ps, r)
  {
    seq(|ps|, i requires 0 <= i < |ps| => if ps[i].id == user then ps[i].(status := Done) else ps[i])
  }

  /** Marking the same rater twice is marking once. */
  lemma MarkRaterDoneIdempotent(ps: seq<Participant>, user: UserId)
    ensures MarkRaterDone(MarkRaterDone(ps, user), user) == MarkRaterDone(ps, user)
  {
  }

  /** Once the rater's entry is marked, the rater counts as having submitted. */
  lemma MarkRaterDoneMarksUser(ps: seq<Participant>, user: UserId, i: nat)
    requires i < |ps| && ps[i].id == user
    ensures MarkRaterDone(ps, user)[i].status == Done
  {
  }

  /**
   * The test of the subject branch: in the list as loaded, every
   * participant other than the one now rated has already been rated.
   */
  predicate OthersEvaluated(ps: seq<Participant>, evaluatedParam: Option<UserId>) {
    forall i :: 0 <= i < |ps| ==> ps[i].evaluated == Some(Done) || evaluatedParam == Some(ps[i].id)
  }

  /**
   * The subject branch (a 360 evaluation, the current user being its
   * evaluated employee): the participant named by the `evaluated` query
   * parameter is marked as rated, every missing `evaluated` becomes
   * pending, and the current user's own status becomes `completado` only
   * once everybody else had been rated.
   */
  function MarkSubjectEvaluated(ps: seq<Participant>, user: UserId, evaluatedParam: Option<UserId>): (r: seq<Participant>)
    ensures |r| == |ps|
    ensures forall i :: 0 <= i < |ps| ==> r[i].id == ps[i].id
    ensures forall i :: 0 <= i < |ps| && evaluatedParam == Some(ps[i].id) ==> r[i].evaluated == Some(Done)
    ensures forall i :: 0 <= i < |ps| && evaluatedParam != Some(ps[i].id) ==>
              r[i].evaluated == Some(ps[i].evaluated.GetOr(Pending))
    ensures forall i :: 0 <= i < |ps| && ps[i].id == user && OthersEvaluated(ps, evaluatedParam) ==> r[i].status == Done
    ensures forall i :: 0 <= i < |ps| && !(ps[i].id == user && OthersEvaluated(ps, evaluatedParam)) ==>
              r[i].status == ps[i].status
    ensures Dominates(ps, r)
  {
    var all := OthersEvaluated(ps, evaluatedParam);
    seq(|ps|, i requires 0 <= i < |ps| =>
      ps[i].(evaluated := if evaluatedParam == Some(ps[i].id) then Some(Done) else Some(ps[i].evaluated.GetOr(Pending)),
             status := if ps[i].id == user && all then Done else ps[i].status))
  }

  /** Which branch a submission takes: a 360 evaluation submitted by its own evaluated employee. */
  predicate IsSubjectSubmission(row: EvaluationRow, user: UserId) {
    row.evaluationType == T360 && row.evaluatedId == Some(user)
  }

  /** The participant array written back after a submission. */
  function UpdatedParticipants(row: EvaluationRow, loaded: seq<Participant>, user: UserId,
                               evaluatedParam: Option<UserId>): (r: seq<Participant>)
    ensures |r| == |loaded|
    ensures forall i :: 0 <= i < |loaded| ==> r[i].id == loaded[i].id
    ensures IsSubjectSubmission(row, user) ==> r == MarkSubjectEvaluated(loaded, user, evaluatedParam)
    ensures !IsSubjectSubmission(row, user) ==> r == MarkRaterDone(loaded, user)
    ensures Dominates(loaded, r)
  {
    if IsSubjectSubmission(row, user) then MarkSubjectEvaluated(loaded, user, evaluatedParam)
    else MarkRaterDone(loaded, user)
  }

  /** One participant's part of `checkEvaluationCompletion`. */
  predicate ParticipantComplete(p: Participant, t: EvaluationType) {
    p.status == Done && (t == T360 ==> p.evaluated == Some(Done))
  }

  /**
   * `checkEvaluationCompletion`: a 360 evaluation needs every participant
   * both submitted and rated, any other type every participant submitted;
   * an empty list is complete.
   */
  function CheckEvaluationCompletion(ps: seq<Participant>, t: EvaluationType): (b: bool)
    ensures t == T360 ==> (b <==> AllStatusDone(ps) && AllEvaluatedDone(ps))
    ensures t != T360 ==> (b <==> AllStatusDone(ps))
    ensures ps == [] ==> b
  {
    if ps == [] then true
    else
      var rest := CheckEvaluationCompletion(ps[1..], t);
      assert forall i :: 1 <= i < |ps| ==> ps[i] == ps[1..][i - 1];
      ParticipantComplete(ps[0], t) && rest
  }

  /** The status a submission writes: never pending, never stopped. */
  function SubmissionStatus(ps: seq<Participant>, t: EvaluationType): (s: EvalStatus)
    ensures s == Completado || s == Iniciado
    ensures s == Completado <==> CheckEvaluationCompletion(ps, t)
  {
    if CheckEvaluationCompletion(ps, t) then Completado else Iniciado
  }

  /** The update a submission sends: the rewritten participants and the status they imply. */
  function SubmissionPatch(row: EvaluationRow, loaded: seq<Participant>, user: UserId,
                           evaluatedParam: Option<UserId>): (p: Patch)
    ensures p.participants == Some(UpdatedParticipants(row, loaded, user, evaluatedParam))
    ensures p.status == Some(SubmissionStatus(UpdatedParticipants(row, loaded, user, evaluatedParam), row.evaluationType))
    ensures p.status.Some? && (p.status.value == Completado || p.status.value == Iniciado)
    ensures p.startDate.None?
  {
    var ps := UpdatedParticipants(row, loaded, user, evaluatedParam);
    Patch(Some(ps), Some(SubmissionStatus(ps, row.evaluationType)), None)
  }

  /** A submission never lowers the progress of the list it started from, as written or corrected. */
  lemma SubmissionNeverLowersProgress(row: EvaluationRow, loaded: seq<Participant>, user: UserId,
                                      evaluatedParam: Option<UserId>, responses: seq<ResponseRow>)
    ensures var t, e := row.evaluationType, row.evaluatedId;
      CalculateEvaluationProgress(loaded, t, e, responses)
        <= CalculateEvaluationProgress(UpdatedParticipants(row, loaded, user, evaluatedParam), t, e, responses)
    ensures var t, e := row.evaluationType, row.evaluatedId;
      SettledProgress(loaded, t, e, responses)
        <= SettledProgress(UpdatedParticipants(row, loaded, user, evaluatedParam), t, e, responses)
  {
    var r := UpdatedParticipants(row, loaded, user, evaluatedParam);
    DominatesNeverLowersProgress(loaded, r, row.evaluationType, row.evaluatedId, responses);
  }

  /**
   * Away from the two-way progress path and from 360, the written status
   * and the progress agree: `completado` exactly when the corrected
   * progress is 100, and exactly when the as-written progress is 100 as
   * long as there are fewer than 200 participants.
   */
  lemma CompletionAgreesWithProgress(ps: seq<Participant>, t: EvaluationType,
                                     evaluatedId: Option<UserId>, responses: seq<ResponseRow>)
    requires ps != [] && t != T360 && !CountsBothDirections(t, evaluatedId)
    ensures CheckEvaluationCompletion(ps, t) <==> SettledProgress(ps, t, evaluatedId, responses) == 100
    ensures |ps| < 200 ==>
      (CheckEvaluationCompletion(ps, t) <==> CalculateEvaluationProgress(ps, t, evaluatedId, responses) == 100)
  {
    SettledFullIffAllDone(ps, t, evaluatedId, responses);
    if |ps| < 200 {
      if AllStatusDone(ps) {
        ProgressFullWhenAllDone(ps, t, evaluatedId, responses);
      }
      if CalculateEvaluationProgress(ps, t, evaluatedId, responses) == 100 {
        ProgressFullOnlyWhenAllDoneBelow200(ps, t, evaluatedId, responses);
      }
    }
  }

  /**
   * From 200 participants on, the as-written progress can read 100 for a
   * submission that leaves the evaluation incomplete and stored as started.
   */
  lemma CompletionDisagreesFrom200()
    ensures var ps := Uniform(199, Done) + Uniform(1, Pending);
      !CheckEvaluationCompletion(ps, Simple)
      && SubmissionStatus(ps, Simple) == Iniciado
      && CalculateEvaluationProgress(ps, Simple, None, []) == 100
  {
    RoundingReaches100Early(199);
  }

  /** For 360, completion implies full progress, which counts statuses only. */
  lemma Completion360ImpliesFullProgress(ps: seq<Participant>, evaluatedId: Option<UserId>, responses: seq<ResponseRow>)
    requires ps != [] && CheckEvaluationCompletion(ps, T360)
    ensures CalculateEvaluationProgress(ps, T360, evaluatedId, responses) == 100
    ensures SettledProgress(ps, T360, evaluatedId, responses) == 100
  {
    ProgressFullWhenAllDone(ps, T360, evaluatedId, responses);
  }

  /**
   * The converse fails: a 360 evaluation whose raters have all submitted
   * but whose subjects are not all rated is stored as started, while its
   * progress reads 100.
   */
  lemma Completion360StricterThanProgress()
    ensures var ps := [Participant("a", Done, Some(Pending))];
      !CheckEvaluationCompletion(ps, T360)
      && SettledProgress(ps, T360, Some("a"), []) == 100
      && CalculateEvaluationProgress(ps, T360, Some("a"), []) == 100
  {
    var ps := [Participant("a", Done, Some(Pending))];
    assert !ParticipantComplete(ps[0], T360);
    SettledFullIffAllDone(ps, T360, Some("a"), []);
    SettledAgreesBelow100Participants(ps, T360, Some("a"), []);
  }

  /** For a two-way 180 evaluation, completion reads statuses only, while the progress also waits for the ratings. */
  lemma Completion180LooserThanProgress()
    ensures var ps := [Participant("a", Done, Some(Pending))];
      CheckEvaluationCompletion(ps, T180)
      && SettledProgress(ps, T180, Some("a"), []) == 50
      && CalculateEvaluationProgress(ps, T180, Some("a"), []) == 50
  {
    var ps := [Participant("a", Done, Some(Pending))];
    HalfWhenOnlyRatersDone(ps, T180, Some("a"), []);
  }

  // --------------------------------------------------------- the handler

  /** Why a submission fails after its response has been stored. */
  datatype SubmitError = NoUser | EvaluationNotFound

  /** The end of a submission: the page navigated to, or the error toast. */
  datatype SubmitOutcome = Submitted(path: string) | Failed(error: SubmitError)

  /** `evaluatedId || undefined`: an empty query parameter is not stored. */
  function StoredEvaluated(evaluatedParam: Option<string>): (r: Option<UserId>)
    ensures r.Some? <==> evaluatedParam.Some? && evaluatedParam.value != ""
    ensures r.Some? ==> r == evaluatedParam
  {
    if evaluatedParam.Some? && evaluatedParam.value != "" then evaluatedParam else None
  }

  /** Where a successful submission navigates: back to the 360 list for its subject, else to the user's list. */
  function SubmitRoute(row: EvaluationRow, evalId: EvaluationId, user: UserId): (path: string)
    ensures IsSubjectSubmission(row, user) ==> path == "/evaluacion-360/" + evalId
    ensures !IsSubjectSubmission(row, user) ==> path == "/mis-evaluaciones"
  {
    if IsSubjectSubmission(row, user) then "/evaluacion-360/" + evalId else "/mis-evaluaciones"
  }

  /**
   * `handleSubmit` followed by `updateParticipantStatus`. The response is
   * stored first, whoever is signed in; then the evaluation row is read
   * again, and the participants as loaded when the page opened (`loaded`)
   * are rewritten and written back with the status they imply.
   */
  method HandleSubmit(db: Store, evalId: EvaluationId, user: Option<UserId>, evaluatedParam: Option<string>,
                      loaded: seq<Participant>, scores: map<CriterionId, int>) returns (outcome: SubmitOutcome)
    requires db.Valid()
    modifies db
    ensures db.Valid()
    ensures db.responses == old(db.responses) + [ResponseRow(evalId, user, StoredEvaluated(evaluatedParam), scores)]
    ensures user.None? ==> outcome == Failed(NoUser) && db.evaluations == old(db.evaluations)
    ensures user.Some? && SelectSingle(old(db.evaluations), evalId).None? ==>
              outcome == Failed(EvaluationNotFound) && db.evaluations == old(db.evaluations)
    ensures user.Some? && SelectSingle(old(db.evaluations), evalId).Some? ==>
              var row := SelectSingle(old(db.evaluations), evalId).value;
              outcome == Submitted(SubmitRoute(row, evalId, user.value)) &&
              db.evaluations == UpdateWhere(old(db.evaluations), evalId, SubmissionPatch(row, loaded, user.value, evaluatedParam))
  {
    var before := SelectSingle(db.evaluations, evalId);
    db.InsertResponse(ResponseRow(evalId, user, StoredEvaluated(evaluatedParam), scores));
    if user.None? {
      return Failed(NoUser);
    }
    var current := SelectSingle(db.evaluations, evalId);
    if current.None? {
      return Failed(EvaluationNotFound);
    }
    var row := current.value;
    db.Update(evalId, SubmissionPatch(row, loaded, user.value, evaluatedParam));
    outcome := Submitted(SubmitRoute(before.value, evalId, user.value));
  }
}
