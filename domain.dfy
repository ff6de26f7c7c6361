/**
 * The records the evaluation lifecycle works on: the evaluation row with its
 * embedded participant list, the response row, and the criterion.
 * Identifiers are strings, as the datastore's uuids are.
 */
module Domain {
  import opened Wrappers

  type UserId = string
  type EvaluationId = string
  type CriterionId = string

  /** A point in time, ordered; the clock itself is an input wherever it is read. */
  type Timestamp = int

  /**
   * The `evaluation_type` column. The declared union is `'180' | 'simple'`,
   * while creation and submission test for `'360'`; `Other` is any other value.
   */
  datatype EvaluationType = Simple | T180 | T360 | Other

  /**
   * The evaluation-level `status` column: 'pendiente', 'iniciado', 'detenido',
   * 'completado'. `Unrecognised` stands for any other stored string (the type
   * declaration also admits 'pending', 'in_progress' and 'completed').
   */
  datatype EvalStatus = Pendiente | Iniciado | Detenido | Completado | Unrecognised

  /** A participant's mark: 'pendiente', 'en_progreso' or 'completado'. */
  datatype Mark = Pending | InProgress | Done

  /**
   * One entry of the `participants` JSON array: who, whether they have
   * submitted as a rater (`status`), and, in a 360 evaluation, whether they
   * have been rated as a subject (`evaluated`, missing in simple evaluations).
   */
  datatype Participant = Participant(id: UserId, status: Mark, evaluated: Option<Mark>)

  /** An `evaluations` row. `evaluatedId` is `None` where the column is null. */
  datatype EvaluationRow = EvaluationRow(
    id: EvaluationId,
    evaluationType: EvaluationType,
    title: string,
    endDate: Timestamp,
    startDate: Option<Timestamp>,
    evaluatedId: Option<UserId>,
    criteria: seq<CriterionId>,
    participants: seq<Participant>,
    status: EvalStatus)

  /**
   * An `evaluation_responses` row: the evaluation, the rater, the subject
   * rated (the `evaluated` query parameter, if any) and the scores by criterion.
   */
  datatype ResponseRow = ResponseRow(
    evaluationId: EvaluationId,
    participantId: Option<UserId>,
    evaluatedId: Option<UserId>,
    scores: map<CriterionId, int>)

  /** An `evaluation_criteria` row. */
  datatype Criterion = Criterion(id: CriterionId, name: string, description: string)
}
