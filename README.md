# Creditaria 360 — evaluation lifecycle in Dafny

This project models the evaluation lifecycle of Creditaria 360, a React and
Supabase application for performance evaluations. Each evaluation row holds
a list of participants, and each participant carries two completion marks:

- `status`: the participant has submitted as a rater;
- `evaluated`: the participant has been rated as a subject, in a 360
  evaluation.

The model covers:

- how those marks become a progress percentage and a stored status
  (`pendiente`, `iniciado`, `detenido`, `completado`);
- how a submission rewrites the participant list and sets the status;
- how the administrator's list recomputes every row and writes back only
  the statuses that changed;
- the start/stop toggle;
- the per-criterion results;
- the creation screen: subordinate lookup along `parent_id`, participant
  pre-selection, validation, and the user table's filter, sort and pages;
- the 360 participant screen;
- the three Redux slices;
- the help-page search;
- the campaign wizard;
- the role-based menu and the route table.

Modules follow the source files, one module per file:

| file | module | source |
|---|---|---|
| `wrappers.dfy` | `Wrappers` | helper: `Option` |
| `text.dfy` | `Text` | helper: lower-casing and substring search |
| `collections.dfy` | `Collections` | helper: dedup, removal, insertion sort and the permutation facts it needs |
| `domain.dfy` | `Domain` | the row types of `evaluations` and `evaluation_responses` |
| `evaluation_utils.dfy` | `EvaluationUtils` | `src/utils/evaluationUtils.ts` |
| `datastore.dfy` | `Datastore` | the two tables as a `Store` class; `src/services/evaluation.service.ts` |
| `realizar_evaluacion.dfy` | `RealizarEvaluacion` | `src/components/Evaluacion/RealizarEvaluacion.tsx` |
| `evaluaciones.dfy` | `Evaluaciones` | `src/components/Evaluaciones.tsx` |
| `evaluation_results.dfy` | `EvaluationResults` | `src/components/Evaluacion/EvaluationResults.tsx` |
| `crear_nueva_evaluacion.dfy` | `CrearNuevaEvaluacion` | `src/components/CrearNuevaEvaluacion.tsx` |
| `evaluacion360.dfy` | `Evaluacion360` | `src/components/Evaluacion/Evaluacion360.tsx` |
| `evaluation_slice.dfy` | `EvaluationSlice` | `src/store/slices/evaluationSlice.ts` |
| `auth_slice.dfy` | `AuthSlice` | `src/store/slices/authSlice.ts` |
| `ui_slice.dfy` | `UiSlice` | `src/store/slices/uiSlice.ts` |
| `faq.dfy` | `Faq` | `src/components/Faq/Faq.tsx` |
| `enviar_campana.dfy` | `EnviarCampana` | `src/components/EnviarCampana.tsx` |
| `app.dfy` | `App` | `src/App.tsx` |

## Modelling choices

**Supabase.** The database is `Datastore.Store`, a class with two fields:
the `evaluations` rows, newest first (the order `getEvaluations` asks for),
and the `evaluation_responses` rows. Each `update … eq('id', …)`,
`insert` and `select … single()` the handlers issue is a method call or a
function on those fields.

**Handlers as methods.** The handlers that change data are methods on the
store. They are proved equal to specification functions:

- `Evaluaciones.CargarEvaluaciones` is the reload loop.
- `Evaluaciones.HandleStartStopEvaluation` is the toggle followed by the reload.
- `RealizarEvaluacion.HandleSubmit` stores the response, then updates the row.
- `CrearNuevaEvaluacion.CreateEvaluation` inserts the new row.

**Evaluation types.** The evaluation type is `Simple | T180 | T360 | Other`.
The progress rule tests `'180'`, while creation and submission test
`'360'`. So a 360 evaluation's progress takes the one-way path and counts
rater submissions only. `RealizarEvaluacion.Completion360StricterThanProgress`
exhibits a 360 row that a submission stores as `iniciado` while its progress
reads 100. The creation form only offers `'simple'`: its `'360'` radio is
commented out (src/components/CrearNuevaEvaluacion.tsx:305-307). So the
`'360'` branches of `PreselectParticipants` and `InitialParticipants` model
code that the form cannot reach today; a `'360'` row can only come from
elsewhere.

**Rounding.** The source evaluates `Math.round((c / d) * 100)` in double
precision. The model rounds the exact value `100·c/d`, halves up, computed
in integers as `(200·c + d) / (2·d)`. The two differ where the double
quotient lands just below a half: 23 of 40 is `57.49999999999999` in
doubles, so the source shows 57 where the model gives 58 (see "## Left
out"). At the 0 and 100 boundaries, on which the stored status depends, the
inputs of the Findings row behave alike in both: `(199 / 200) * 100` is
exactly `99.5` as a double.

**Strings.** Lower-casing is the Latin-1 upper-case range (A–Z and À–Þ
except ×) mapped down. `localeCompare` is a total-preorder parameter.

**Subordinates.** The recursive subordinate search needs an acyclic
`parent_id` hierarchy. This is required through a ghost `rank` that drops
from every parent to its children.

## Model

| member | source | states |
|---|---|---|
| EvaluationUtils.CountStatusDoneFull | src/utils/evaluationUtils.ts:23 | the count of `completado` statuses equals the list length exactly when every status is `completado` |
| EvaluationUtils.CountEvaluatedDoneFull | src/utils/evaluationUtils.ts:16 | the count of `completado` subject marks equals the list length exactly when every participant has been rated |
| EvaluationUtils.CountStatusDoneZero | src/utils/evaluationUtils.ts:13 | the status count is 0 exactly when nobody has submitted |
| EvaluationUtils.CountEvaluatedDoneZero | src/utils/evaluationUtils.ts:16 | the subject count is 0 exactly when nobody has been rated |
| EvaluationUtils.CompletedUnits | src/utils/evaluationUtils.ts:8-23 | the units done never exceed the units required, on either path |
| EvaluationUtils.RoundPercent | src/utils/evaluationUtils.ts:19 | the result is the integer nearest the exact value `100c/d`, with halves rounded up (the double-precision evaluation is left out) |
| EvaluationUtils.RoundPercentAtMost100 | src/utils/evaluationUtils.ts:19 | rounding `c` out of `d` with `c <= d` never exceeds 100 |
| EvaluationUtils.RoundPercentMonotone | src/utils/evaluationUtils.ts:24 | a larger numerator never rounds lower |
| EvaluationUtils.RoundPercentEnds | src/utils/evaluationUtils.ts:24 | none done rounds to 0 and all done rounds to 100 |
| EvaluationUtils.RoundPercentInteriorBelow200 | src/utils/evaluationUtils.ts:19-24 | below 200 units, a partial count rounds into 1..99 |
| EvaluationUtils.CalculateEvaluationProgress | src/utils/evaluationUtils.ts:5-25 | as written: an empty list gives 0; otherwise the units done over the units required, as the nearest integer percentage; always at most 100; the responses argument is ignored |
| EvaluationUtils.SettledProgress | src/utils/evaluationUtils.ts:5-25 | corrected progress: at most 100; 0 exactly when nothing is done; 100 exactly when the list is non-empty and every unit is done |
| EvaluationUtils.SettledAgreesBelow200Units | src/utils/evaluationUtils.ts:19-24 | below 200 required units, the corrected and the as-written progress are equal |
| EvaluationUtils.SettledAgreesBelow100Participants | src/utils/evaluationUtils.ts:5-25 | with fewer than 100 participants, the two progress functions agree on every path |
| EvaluationUtils.ProgressFullWhenAllDone | src/utils/evaluationUtils.ts:23-24 | on the one-way path, everyone having submitted gives 100 |
| EvaluationUtils.SettledFullIffAllDone | src/utils/evaluationUtils.ts:23-24 | on the one-way path, progress is 100 exactly when every status is `completado` |
| EvaluationUtils.SettledFullIffAllDoneBothWays | src/utils/evaluationUtils.ts:8-19 | on the `'180'` path with an evaluated id, progress is 100 exactly when everyone has submitted and been rated |
| EvaluationUtils.ProgressFullOnlyWhenAllDoneBelow200 | src/utils/evaluationUtils.ts:23-24 | as written, with fewer than 200 participants on the one-way path, 100 implies everyone has submitted |
| EvaluationUtils.HalfWhenOnlyRatersDone | src/utils/evaluationUtils.ts:8-19 | on the `'180'` path, all statuses complete and no subject rated gives exactly 50 |
| EvaluationUtils.ProgressMonotone | src/utils/evaluationUtils.ts:13-24 | more submissions and more ratings never lower either progress |
| EvaluationUtils.DominatesCounts | src/utils/evaluationUtils.ts:13-16 | advancing marks never lowers either count |
| EvaluationUtils.DominatesNeverLowersProgress | src/utils/evaluationUtils.ts:5-25 | advancing any marks never lowers either progress |
| EvaluationUtils.MarkDoneNeverLowersProgress | src/utils/evaluationUtils.ts:23-24 | marking one more participant `completado` never lowers either progress |
| EvaluationUtils.RoundingReaches100Early | src/utils/evaluationUtils.ts:24 | with `n >= 199` done and one pending, the as-written progress is 100 and the corrected one is 99 |
| EvaluationUtils.RoundingStays0Late | src/utils/evaluationUtils.ts:24 | with one done and `n >= 200` pending, the as-written progress is 0 and the corrected one is 1 |
| EvaluationUtils.DetermineEvaluationStatus | src/utils/evaluationUtils.ts:27-35 | 100 gives `completado`; any other positive value gives `iniciado`, even after a stop; 0 keeps `detenido` and otherwise gives `pendiente`; each case in both directions |
| EvaluationUtils.DetermineIdempotent | src/utils/evaluationUtils.ts:27-35 | resolving again with the same progress changes nothing |
| EvaluationUtils.GetStatusColor | src/utils/evaluationUtils.ts:37-48 | the colour of each status; an unrecognised value gets `warning` |
| EvaluationUtils.GetStatusText | src/utils/evaluationUtils.ts:50-61 | the label of each status; an unrecognised value reads `Pendiente` |
| EvaluationUtils.StatusLabelsDistinct | src/utils/evaluationUtils.ts:37-61 | the four statuses get four distinct labels and colours; an unrecognised value looks like `pendiente` |
| Datastore.ApplyPatch | src/components/Evaluacion/RealizarEvaluacion.tsx:158-166 | an update sets exactly the columns it names and keeps every other column |
| Datastore.UpdateWhere | src/components/Evaluaciones.tsx:85-88 | `update … eq('id', id)` patches every row with that key and keeps the others, at the same length |
| Datastore.UpdateWhereKeepsIds | src/components/Evaluaciones.tsx:85-88 | an update keeps every key, so unique keys stay unique |
| Datastore.UpdateWhereMissing | src/components/Evaluaciones.tsx:85-88 | an update by a missing key changes nothing |
| Datastore.CountWithId | src/components/Evaluacion/RealizarEvaluacion.tsx:126-130 | the number of rows with a key is 0 exactly when no row has it |
| Datastore.FirstWithId | src/components/Evaluacion/RealizarEvaluacion.tsx:126-130 | the first row with a key, present exactly when some row has it |
| Datastore.SelectSingle | src/components/Evaluacion/RealizarEvaluacion.tsx:126-132 | `single()` returns a row exactly when one row matches, and that row has the key |
| Datastore.UniqueCountAtMostOne | src/components/Evaluacion/RealizarEvaluacion.tsx:126-130 | with unique keys, at most one row matches |
| Datastore.SelectSingleUnique | src/components/Evaluacion/RealizarEvaluacion.tsx:126-132 | with unique keys, `single()` finds a row exactly when the key is present |
| Datastore.Store.constructor | src/services/evaluation.service.ts:23-31 | an empty store with unique keys |
| Datastore.Store.Update | src/components/Evaluaciones.tsx:85-88 | the rows become `UpdateWhere(old rows, id, patch)`; the responses are unchanged; the keys stay unique |
| Datastore.Store.InsertResponse | src/components/Evaluacion/RealizarEvaluacion.tsx:200-207 | the response is appended; the evaluations are unchanged |
| Datastore.Store.InsertEvaluation | src/services/evaluation.service.ts:5-21 | a fresh key puts the row first (newest) and succeeds; a duplicate key fails and changes nothing |
| RealizarEvaluacion.InitialScores | src/components/Evaluacion/RealizarEvaluacion.tsx:103-106 | the keys are exactly the loaded criterion ids, each scored 1 |
| RealizarEvaluacion.InitialScoresInScale | src/components/Evaluacion/RealizarEvaluacion.tsx:103-106 | the starting scores lie in 1..5 |
| RealizarEvaluacion.ChangeScore | src/components/Evaluacion/RealizarEvaluacion.tsx:118-120 | that criterion's score is replaced and every other score kept; scores stay in 1..5 |
| RealizarEvaluacion.DisplayedScore | src/components/Evaluacion/RealizarEvaluacion.tsx:286-291 | the slider shows the stored score, or 1 when it is missing or 0; it is in 1..5 for in-scale scores |
| RealizarEvaluacion.MarkRaterDone | src/components/Evaluacion/RealizarEvaluacion.tsx:152-155 | same length; the user's entries get status `completado` and everything else is unchanged; no mark is taken back |
| RealizarEvaluacion.MarkRaterDoneIdempotent | src/components/Evaluacion/RealizarEvaluacion.tsx:152-155 | applying the rater branch twice equals applying it once |
| RealizarEvaluacion.MarkRaterDoneMarksUser | src/components/Evaluacion/RealizarEvaluacion.tsx:154 | afterwards the rater's entry is `completado` |
| RealizarEvaluacion.MarkSubjectEvaluated | src/components/Evaluacion/RealizarEvaluacion.tsx:138-149 | same length and ids; the targeted subject is rated; every other subject mark is kept, with a missing one becoming `pendiente`; the user's status becomes `completado` exactly when all others were already rated, else it is unchanged |
| RealizarEvaluacion.UpdatedParticipants | src/components/Evaluacion/RealizarEvaluacion.tsx:133-156 | a 360 submission by its evaluated employee takes the subject branch, and every other submission the rater branch; length and ids are kept |
| RealizarEvaluacion.CheckEvaluationCompletion | src/components/Evaluacion/RealizarEvaluacion.tsx:175-185 | for '360', every participant must be submitted and rated; otherwise every participant submitted; an empty list is complete |
| RealizarEvaluacion.SubmissionStatus | src/components/Evaluacion/RealizarEvaluacion.tsx:162-164 | always `completado` or `iniciado`, and `completado` exactly when complete |
| RealizarEvaluacion.SubmissionPatch | src/components/Evaluacion/RealizarEvaluacion.tsx:158-166 | the update writes the rewritten participants and the status their completion implies (`completado` or `iniciado`), and does not touch the start date |
| RealizarEvaluacion.SubmissionNeverLowersProgress | src/components/Evaluacion/RealizarEvaluacion.tsx:133-156 | a submission never lowers the progress of the list it started from, as written and corrected |
| RealizarEvaluacion.CompletionAgreesWithProgress | src/components/Evaluacion/RealizarEvaluacion.tsx:175-185 | away from '360' and the two-way path, the stored completion holds exactly when the corrected progress is 100, and exactly when the as-written progress is 100 below 200 participants |
| RealizarEvaluacion.CompletionDisagreesFrom200 | src/components/Evaluacion/RealizarEvaluacion.tsx:175-185 | from 200 participants the agreement fails: 199 of 200 done is stored `iniciado` while the as-written progress reads 100 |
| RealizarEvaluacion.Completion360ImpliesFullProgress | src/components/Evaluacion/RealizarEvaluacion.tsx:176-182 | a complete 360 evaluation has progress 100, as written and corrected |
| RealizarEvaluacion.Completion360StricterThanProgress | src/components/Evaluacion/RealizarEvaluacion.tsx:176-182 | a 360 list with all raters done and a subject unrated is not complete, yet its progress is 100 |
| RealizarEvaluacion.Completion180LooserThanProgress | src/components/Evaluacion/RealizarEvaluacion.tsx:184 | a '180' list with all raters done is complete, while its two-way progress is 50 |
| RealizarEvaluacion.StoredEvaluated | src/components/Evaluacion/RealizarEvaluacion.tsx:205 | an absent or empty `evaluated` parameter is stored as absent, and any other value as itself |
| RealizarEvaluacion.SubmitRoute | src/components/Evaluacion/RealizarEvaluacion.tsx:217-221 | a 360 submission by its evaluated employee returns to `/evaluacion-360/<id>`; any other goes to `/mis-evaluaciones` |
| RealizarEvaluacion.HandleSubmit | src/components/Evaluacion/RealizarEvaluacion.tsx:187-229 | the response is always appended first; with no user, or no single matching row, it fails with the rows unchanged; otherwise that row gets the submission patch and the route is returned |
| Evaluaciones.ResponsesFor | src/components/Evaluaciones.tsx:53 | exactly the responses of that evaluation |
| Evaluaciones.Progress | src/components/Evaluaciones.tsx:54-59 | a row's progress is `calculateEvaluationProgress` as written: at most 100, 0 for a row without participants, and independent of the responses passed |
| Evaluaciones.ResolvedStatus | src/components/Evaluaciones.tsx:60 | the resolved status is always one of the four statuses |
| Evaluaciones.SettleRow | src/components/Evaluaciones.tsx:67-71 | the row gets its resolved status and every other field is copied |
| Evaluaciones.Recompute | src/components/Evaluaciones.tsx:52-72 | one listed entry per loaded row, in order, with percentage = progress and the resolved status |
| Evaluaciones.SettledRows | src/components/Evaluaciones.tsx:52-72 | the stored rows after the reload: every row settled, same length and order |
| Evaluaciones.StatusWritesExactly | src/components/Evaluaciones.tsx:63-65 | a write is issued for a row exactly when its status changes, and it carries the resolved status |
| Evaluaciones.ProgressIgnoresStatusAndStart | src/components/Evaluaciones.tsx:54-59 | progress reads neither the stored status nor the start date |
| Evaluaciones.SettleRowIdempotent | src/components/Evaluaciones.tsx:60-65 | a settled row settles to itself and needs no write |
| Evaluaciones.NoWritesWhenSettled | src/components/Evaluaciones.tsx:63-65 | rows that already agree with their progress cause no writes |
| Evaluaciones.ReloadIsQuiet | src/components/Evaluaciones.tsx:41-81 | a second reload writes nothing, keeps the rows and lists the same evaluations |
| Evaluaciones.UnchangedRowNotWritten | src/components/Evaluaciones.tsx:63-65 | an unchanged row's key appears in no write |
| Evaluaciones.UpdateOneStatus | src/components/Evaluaciones.tsx:64 | with unique keys, a status write by a row's key changes only that row |
| Evaluaciones.PartlySettled | src/components/Evaluaciones.tsx:52-72 | part way through the reload, every key is still in place |
| Evaluaciones.PartlySettledNext | src/components/Evaluaciones.tsx:52-72 | settling one more row replaces exactly that entry |
| Evaluaciones.PartlySettledUnique | src/components/Evaluaciones.tsx:52-72 | part way through the reload, the keys stay unique |
| Evaluaciones.SettleStep | src/components/Evaluaciones.tsx:63-65 | for row `k`, the write if any settles exactly row `k`; without a write, row `k` was already settled |
| Evaluaciones.ListStep | src/components/Evaluaciones.tsx:52-72 | one more row adds one listed entry and at most one write, in row order |
| Evaluaciones.CargarEvaluaciones | src/components/Evaluaciones.tsx:41-81 | the listing is `Recompute`, the writes are `StatusWrites`, and the stored rows become `SettledRows`; responses unchanged |
| Evaluaciones.StartStopPatch | src/components/Evaluaciones.tsx:98-104 | with no start date, start now as `iniciado`; otherwise clear the start date and set `detenido` |
| Evaluaciones.StartStopAlternates | src/components/Evaluaciones.tsx:98-104 | toggling twice returns the start date to its kind and alternates start and stop |
| Evaluaciones.HandleStartStopEvaluation | src/components/Evaluaciones.tsx:96-115 | toggles the row by its key, then the reload lists, writes and stores the toggled rows settled |
| Evaluaciones.StopSticksOnlyAtZero | src/components/Evaluaciones.tsx:98-104 | after a stop and the reload, `detenido` holds exactly at 0 progress; partial progress reads `iniciado` |
| Evaluaciones.ReloadCompletesEarly | src/components/Evaluaciones.tsx:54-60 | the reload stores `completado` for a simple evaluation with 199 of 200 participants done |
| Evaluaciones.ReloadKeepsStopLate | src/components/Evaluaciones.tsx:54-60 | a stopped simple evaluation with 1 of 201 participants done stays `detenido` through the reload |
| Evaluaciones.StartAtZeroReadsPending | src/components/Evaluaciones.tsx:98-110 | a start with nothing done reads back and is written as `pendiente` |
| Evaluaciones.EvaluationTypeLabel | src/components/Evaluaciones.tsx:125-134 | '360' and 'simple' have labels; every other type, '180' included, reads `No definido` |
| Evaluaciones.ProgressColor | src/components/Evaluaciones.tsx:203 | `success` exactly at 100, else `primary` |
| Evaluaciones.RemainingDaysText | src/components/Evaluaciones.tsx:217-219 | negative reads `Vencida`, 0 reads `Hoy`, otherwise the count of days; each in both directions |
| Evaluaciones.RemainingDaysColor | src/components/Evaluaciones.tsx:212-216 | red below 0, yellow for 0..2, gray from 3 |
| Evaluaciones.DaysTextAndColorAgree | src/components/Evaluaciones.tsx:212-219 | `Hoy` is yellow, and `Vencida` exactly when red |
| Evaluaciones.ControlOffered | src/components/Evaluaciones.tsx:236-247 | a control is offered exactly while the deadline is after now; it is stop for a started row, else start |
| Evaluaciones.ControlMatchesToggle | src/components/Evaluaciones.tsx:236-247 | the offered control's button performs the matching toggle |
| EvaluationResults.ScoreOf | src/components/Evaluacion/EvaluationResults.tsx:82 | a response's criterion score, 0 when absent |
| EvaluationResults.FirstBy | src/components/Evaluacion/EvaluationResults.tsx:80-81 | the first response by a participant, absent exactly when that participant submitted none |
| EvaluationResults.SelfScore | src/components/Evaluacion/EvaluationResults.tsx:80-82 | the evaluated person's first response's score, or 0 |
| EvaluationResults.PeerScores | src/components/Evaluacion/EvaluationResults.tsx:84-87 | exactly the present, non-zero scores from responses not submitted by the evaluated person (order and multiplicity: `PeerScoresAppend`) |
| EvaluationResults.SumBounds | src/components/Evaluacion/EvaluationResults.tsx:90 | a sum of values in `lo..hi` lies between `lo·n` and `hi·n` |
| EvaluationResults.Average | src/components/Evaluacion/EvaluationResults.tsx:89-91 | 0 for no scores, otherwise the sum over the count |
| EvaluationResults.AverageWithin | src/components/Evaluacion/EvaluationResults.tsx:89-90 | a non-empty mean lies between any bounds of its scores |
| EvaluationResults.PeerAverageInScale | src/components/Evaluacion/EvaluationResults.tsx:84-91 | with slider scores, the peer mean is 0 or in 1..5 |
| EvaluationResults.AggregateResults | src/components/Evaluacion/EvaluationResults.tsx:79-98 | one result per criterion, in order, with its id, name and description, the peer mean and the self score |
| EvaluationResults.PeerResponseDropped | src/components/Evaluacion/EvaluationResults.tsx:84-87 | a further response that is the evaluated person's own, or lacks a non-zero score for the criterion, changes no peer score |
| EvaluationResults.PeerScoresAppend | src/components/Evaluacion/EvaluationResults.tsx:84-87 | the peer scores of two batches are the first batch's followed by the second's, so the filter keeps response order and one score per counted response |
| EvaluationResults.FirstSelfResponseCounts | src/components/Evaluacion/EvaluationResults.tsx:80-82 | later responses do not change the self score once there is one |
| EvaluationResults.FirstByPrefix | src/components/Evaluacion/EvaluationResults.tsx:81 | a find that succeeds on a prefix succeeds the same on any extension |
| EvaluationResults.PeerResponseCounted | src/components/Evaluacion/EvaluationResults.tsx:84-87 | a peer's non-zero score is appended to the peer scores |
| EvaluationResults.NoResponsesAllZero | src/components/Evaluacion/EvaluationResults.tsx:89-91 | with no responses every mean and self score is 0 |
| CrearNuevaEvaluacion.Ids | src/components/CrearNuevaEvaluacion.tsx:124 | the users' ids, in order |
| CrearNuevaEvaluacion.DirectsMembers | src/components/CrearNuevaEvaluacion.tsx:123 | the filter keeps exactly the users whose parent is the given id |
| CrearNuevaEvaluacion.DirectsAppend | src/components/CrearNuevaEvaluacion.tsx:136-137 | the filter keeps input order: it distributes over concatenation |
| CrearNuevaEvaluacion.ObtenerSubordinadosDirectos | src/components/CrearNuevaEvaluacion.tsx:135-139 | exactly the ids of users whose parent is the given id |
| CrearNuevaEvaluacion.DirectsRankBelow | src/components/CrearNuevaEvaluacion.tsx:123 | in an acyclic hierarchy, every direct subordinate ranks below its parent |
| CrearNuevaEvaluacion.ObtenerTodosLosSubordinados | src/components/CrearNuevaEvaluacion.tsx:122-132 | the accumulation loop returns the direct ids followed by each subordinate's own result, in turn |
| CrearNuevaEvaluacion.DescendWitness | src/components/CrearNuevaEvaluacion.tsx:126-129 | every id of the accumulated tail comes from the result of one of the subordinates visited so far |
| CrearNuevaEvaluacion.DescendIncludes | src/components/CrearNuevaEvaluacion.tsx:126-129 | the result of every subordinate visited so far is inside the accumulated tail |
| CrearNuevaEvaluacion.DescendStep | src/components/CrearNuevaEvaluacion.tsx:126-129 | one loop step appends the next subordinate's whole result after the ones before it |
| CrearNuevaEvaluacion.AllSubordinatesSound | src/components/CrearNuevaEvaluacion.tsx:122-132 | every returned id is reachable below the user along `parent_id` |
| CrearNuevaEvaluacion.AllSubordinatesComplete | src/components/CrearNuevaEvaluacion.tsx:122-132 | every id reachable below the user is returned |
| CrearNuevaEvaluacion.AllSubordinatesAreDescendants | src/components/CrearNuevaEvaluacion.tsx:122-132 | the result holds exactly the users reachable below the user |
| CrearNuevaEvaluacion.DescendantRanksBelow | src/components/CrearNuevaEvaluacion.tsx:122-132 | everyone below a user ranks below them |
| CrearNuevaEvaluacion.AllSubordinatesShape | src/components/CrearNuevaEvaluacion.tsx:122-132 | the result starts with the direct subordinates and never contains the starting user |
| CrearNuevaEvaluacion.PreselectParticipants | src/components/CrearNuevaEvaluacion.tsx:141-162 | nothing until both the employee and the type are chosen; then the employee followed by the subordinates the type calls for, deduplicated, all mandatory |
| CrearNuevaEvaluacion.PreselectionShape | src/components/CrearNuevaEvaluacion.tsx:143-159 | the employee comes first, nobody appears twice, and the mandatory set is the selection |
| CrearNuevaEvaluacion.Preselection360 | src/components/CrearNuevaEvaluacion.tsx:146-150 | for '360', the selection is the employee and everyone below them |
| CrearNuevaEvaluacion.PreselectionSimple | src/components/CrearNuevaEvaluacion.tsx:151-155 | for 'simple', the selection is the employee and the direct reports |
| CrearNuevaEvaluacion.PreselectionOtherTypes | src/components/CrearNuevaEvaluacion.tsx:143 | any other type selects the employee alone |
| CrearNuevaEvaluacion.HandleSelectionChange | src/components/CrearNuevaEvaluacion.tsx:164-175 | once an employee is chosen, the selection keeps every chosen id and adds the employee; without one, it is taken as given; no duplicates |
| CrearNuevaEvaluacion.InitialParticipants | src/components/CrearNuevaEvaluacion.tsx:241-245 | one record per selected id, in order, status `pendiente`, with `evaluated` `pendiente` exactly for '360' |
| CrearNuevaEvaluacion.HandleGuardar | src/components/CrearNuevaEvaluacion.tsx:232-254 | refused exactly when a required field is empty; otherwise the draft carries the form's fields and the initial participants |
| CrearNuevaEvaluacion.RowFromDraft | src/services/evaluation.service.ts:8-15 | the stored row carries the fields sent (type, title, deadline, evaluated id, criteria, participants), and starts `pendiente` without a start date |
| CrearNuevaEvaluacion.NewEvaluationStartsPending | src/components/CrearNuevaEvaluacion.tsx:241-256 | a new evaluation has progress 0 under both rules, is not complete, and resolves to `pendiente` |
| CrearNuevaEvaluacion.CreateEvaluation | src/services/evaluation.service.ts:5-21 | a fresh key inserts the row first; otherwise nothing changes |
| CrearNuevaEvaluacion.Matching | src/components/CrearNuevaEvaluacion.tsx:71-81 | exactly the users matching the search in name, e-mail or department and matching the department filter |
| CrearNuevaEvaluacion.MatchingKeepsAllWhenUnfiltered | src/components/CrearNuevaEvaluacion.tsx:72-79 | an empty search with `all` keeps everyone |
| CrearNuevaEvaluacion.ByNameTotal | src/components/CrearNuevaEvaluacion.tsx:82 | ordering users by a total name order is total |
| CrearNuevaEvaluacion.FilteredUsers | src/components/CrearNuevaEvaluacion.tsx:70-83 | sorted by name, a permutation of the matching users, holding exactly them |
| CrearNuevaEvaluacion.ColumnLeqTotal | src/components/CrearNuevaEvaluacion.tsx:86-91 | the column comparator is total in both directions |
| CrearNuevaEvaluacion.SortedUsers | src/components/CrearNuevaEvaluacion.tsx:85-93 | sorted by the chosen column and direction, and a permutation of the filtered users |
| CrearNuevaEvaluacion.SortedUsersAscending | src/components/CrearNuevaEvaluacion.tsx:89 | ascending, no row is strictly after its successor by the column |
| CrearNuevaEvaluacion.PageCount | src/components/CrearNuevaEvaluacion.tsx:95 | the least page count that holds every row; no number with 0 rows per page |
| CrearNuevaEvaluacion.PageItems | src/components/CrearNuevaEvaluacion.tsx:96 | at most a page of rows, taken in order from index `(page-1)·rows`; a full page when the list reaches it |
| CrearNuevaEvaluacion.EveryRowOnSomePage | src/components/CrearNuevaEvaluacion.tsx:95-96 | every row appears on page `i / rows + 1`, which is within the page count |
| CrearNuevaEvaluacion.Departamentos | src/components/CrearNuevaEvaluacion.tsx:107-110 | sorted distinct non-empty departments, holding exactly the departments in use |
| CrearNuevaEvaluacion.DepartmentsOf | src/components/CrearNuevaEvaluacion.tsx:108 | exactly the non-empty departments of the users |
| Evaluacion360.FindParticipant | src/components/Evaluacion/Evaluacion360.tsx:90 | the first stored participant with the id, absent exactly when none has it |
| Evaluacion360.StatusOf | src/components/Evaluacion/Evaluacion360.tsx:90-91 | the stored status, or `pendiente` when missing |
| Evaluacion360.EvaluatedOf | src/components/Evaluacion/Evaluacion360.tsx:92 | the stored subject mark, or `pendiente` when the participant or the mark is missing |
| Evaluacion360.MergeOne | src/components/Evaluacion/Evaluacion360.tsx:88-93 | the profile's fields with the participant's marks |
| Evaluacion360.MergeParticipants | src/components/Evaluacion/Evaluacion360.tsx:88-93 | one merged entry per returned profile, in order |
| Evaluacion360.MergeShowsStoredMarks | src/components/Evaluacion/Evaluacion360.tsx:88-93 | a profile with a stored participant shows its marks |
| Evaluacion360.MergeDefaultsMissing | src/components/Evaluacion/Evaluacion360.tsx:90-92 | a profile without one shows `pendiente` twice |
| Evaluacion360.MarkColor | src/components/Evaluacion/Evaluacion360.tsx:109-118 | `success` exactly for done, `warning` exactly for in progress, `default` otherwise |
| Evaluacion360.MarkText | src/components/Evaluacion/Evaluacion360.tsx:120-129 | `Completado`, `En Progreso`, or `Pendiente` |
| Evaluacion360.MarkLabelsInjective | src/components/Evaluacion/Evaluacion360.tsx:109-129 | distinct marks get distinct colours and labels |
| Evaluacion360.StartableIds | src/components/Evaluacion/Evaluacion360.tsx:219 | the start button is offered exactly for participants whose subject mark is not done |
| Evaluacion360.IndexOf | src/components/Evaluacion/RealizarEvaluacion.tsx:39 | the first position of a character, absent exactly when it does not occur |
| Evaluacion360.IndexOfAfter | src/components/Evaluacion/RealizarEvaluacion.tsx:39 | a character absent from a prefix is first found where the suffix begins |
| Evaluacion360.TakeUntil | src/components/Evaluacion/RealizarEvaluacion.tsx:39 | the longest prefix without the separator |
| Evaluacion360.FieldValue | src/components/Evaluacion/RealizarEvaluacion.tsx:39 | a value exactly when the query starts with the key |
| Evaluacion360.FieldValueOf | src/components/Evaluacion/RealizarEvaluacion.tsx:39 | a key followed by a value without `&` reads back that value |
| Evaluacion360.EvaluatedParam | src/components/Evaluacion/RealizarEvaluacion.tsx:39 | a path without a query has no `evaluated` parameter |
| Evaluacion360.PrefixHasNoQuery | src/components/Evaluacion/Evaluacion360.tsx:106 | the path part of the route has no `?` |
| Evaluacion360.RouteCarriesParticipant | src/components/Evaluacion/Evaluacion360.tsx:105-107 | the form reads back, as its `evaluated` parameter, the participant chosen in the table |
| EvaluationSlice.FindIndex | src/store/slices/evaluationSlice.ts:33 | -1 exactly when no id matches, else the first matching index |
| EvaluationSlice.ReplaceFirstShape | src/store/slices/evaluationSlice.ts:32-37 | length kept; no match leaves the list unchanged; the first match becomes the payload and every other entry is kept |
| EvaluationSlice.ReplaceFirstKeepsIds | src/store/slices/evaluationSlice.ts:32-37 | every id stays in place |
| EvaluationSlice.ReplaceFirstIdempotent | src/store/slices/evaluationSlice.ts:32-37 | replacing twice is replacing once |
| EvaluationSlice.EvaluationState.constructor | src/store/slices/evaluationSlice.ts:16-20 | empty list, not loading, no error |
| EvaluationSlice.EvaluationState.SetEvaluations | src/store/slices/evaluationSlice.ts:26-28 | the list is replaced, the other fields are kept |
| EvaluationSlice.EvaluationState.AddEvaluation | src/store/slices/evaluationSlice.ts:29-31 | the payload is appended at the end, the other fields are kept |
| EvaluationSlice.EvaluationState.UpdateEvaluation | src/store/slices/evaluationSlice.ts:32-37 | the scan-and-assign leaves `ReplaceFirst(old list, payload)`, the other fields are kept |
| EvaluationSlice.EvaluationState.SetLoading | src/store/slices/evaluationSlice.ts:38-40 | only the loading flag changes |
| EvaluationSlice.EvaluationState.SetError | src/store/slices/evaluationSlice.ts:41-43 | only the error changes |
| AuthSlice.LoggedOut | src/store/slices/authSlice.ts:35-39 | session, profile and error are cleared, and loading is kept |
| AuthSlice.LogoutIdempotent | src/store/slices/authSlice.ts:35-39 | logging out twice is logging out once |
| AuthSlice.LogoutForgetsSession | src/store/slices/authSlice.ts:35-39 | states with the same loading flag log out alike |
| AuthSlice.AuthStore.constructor | src/store/slices/authSlice.ts:12-17 | no session, no profile, loading, no error |
| AuthSlice.AuthStore.SetSession | src/store/slices/authSlice.ts:23-25 | only the session changes |
| AuthSlice.AuthStore.SetProfile | src/store/slices/authSlice.ts:26-28 | only the profile changes |
| AuthSlice.AuthStore.SetLoading | src/store/slices/authSlice.ts:29-31 | only the loading flag changes |
| AuthSlice.AuthStore.SetError | src/store/slices/authSlice.ts:32-34 | only the error changes |
| AuthSlice.AuthStore.Logout | src/store/slices/authSlice.ts:35-39 | the state becomes `LoggedOut` of the old state |
| UiSlice.ToggledSettings | src/store/slices/uiSlice.ts:24-26 | the settings flag flips and nothing else changes |
| UiSlice.ToggledSidebar | src/store/slices/uiSlice.ts:30-32 | the sidebar flag flips and nothing else changes |
| UiSlice.ClosedSidebar | src/store/slices/uiSlice.ts:33-35 | the sidebar is closed and nothing else changes |
| UiSlice.ToggleSettingsTwice | src/store/slices/uiSlice.ts:24-26 | toggling the settings twice restores the state |
| UiSlice.ToggleSidebarTwice | src/store/slices/uiSlice.ts:30-32 | toggling the sidebar twice restores the state |
| UiSlice.CloseSidebarIdempotent | src/store/slices/uiSlice.ts:33-35 | closing is idempotent, and closing a closed sidebar changes nothing |
| UiSlice.CloseAfterToggle | src/store/slices/uiSlice.ts:30-35 | closing after a toggle is just closing |
| UiSlice.UiStore.constructor | src/store/slices/uiSlice.ts:10-15 | `mis-evaluaciones`, settings hidden, light theme, sidebar closed |
| UiSlice.UiStore.SetActiveMenu | src/store/slices/uiSlice.ts:21-23 | only the active menu changes |
| UiSlice.UiStore.ToggleSettings | src/store/slices/uiSlice.ts:24-26 | the state becomes `ToggledSettings` of the old one |
| UiSlice.UiStore.SetTheme | src/store/slices/uiSlice.ts:27-29 | only the theme changes |
| UiSlice.UiStore.ToggleSidebar | src/store/slices/uiSlice.ts:30-32 | the state becomes `ToggledSidebar` of the old one |
| UiSlice.UiStore.CloseSidebar | src/store/slices/uiSlice.ts:33-35 | the state becomes `ClosedSidebar` of the old one |
| Faq.FilterItems | src/components/Faq/Faq.tsx:63-67 | exactly the items whose lower-cased question or answer contains the query |
| Faq.FilterItemsSubList | src/components/Faq/Faq.tsx:63-67 | the kept items are an order-preserving sub-list |
| Faq.SubListOfInit | src/components/Faq/Faq.tsx:63-67 | a sub-list stays one when the list grows |
| Faq.SubListDropLast | src/components/Faq/Faq.tsx:63-67 | a sub-list without its last element is still a sub-list |
| Faq.FilterCatalogue | src/components/Faq/Faq.tsx:62-72 | at most one shown category per catalogue category |
| Faq.PreguntasFiltradas | src/components/Faq/Faq.tsx:56-75 | the loop over the categories yields `Filtered`: the catalogue for an empty query, else the filtered catalogue |
| Faq.EmptyQueryKeepsAll | src/components/Faq/Faq.tsx:57 | an empty query shows the whole catalogue |
| Faq.FilterCatalogueShape | src/components/Faq/Faq.tsx:62-72 | each shown category is non-empty and carries a catalogue category's name and its matching items; every category with a match is shown |
| Faq.ShownItemsMatch | src/components/Faq/Faq.tsx:59-67 | every shown item contains the query in its question or answer, ignoring case |
| Faq.ShownCategoriesAreSubLists | src/components/Faq/Faq.tsx:62-70 | each shown category is an order-preserving sub-list of a catalogue category of the same name |
| Faq.SubListRefl | src/components/Faq/Faq.tsx:57 | every list is a sub-list of itself |
| Faq.CaseInsensitive | src/components/Faq/Faq.tsx:59 | a query and its lower-cased form show the same result |
| EnviarCampana.WithRecipient | src/components/EnviarCampana.tsx:95-101 | a tick appends the id; clearing removes every occurrence and keeps every other id |
| EnviarCampana.TickThenClear | src/components/EnviarCampana.tsx:95-101 | a tick followed by a clear equals the clear alone |
| EnviarCampana.RemoveAllAppend | src/components/EnviarCampana.tsx:99 | removal distributes over concatenation |
| EnviarCampana.TickThenClearRestores | src/components/EnviarCampana.tsx:95-101 | ticking and clearing a box that was clear restores the recipients |
| EnviarCampana.ProgressBar | src/components/EnviarCampana.tsx:209-232 | three steps numbered 1 to 3, with a connector after steps 1 and 2 only |
| EnviarCampana.ProgressBarLitToStep | src/components/EnviarCampana.tsx:214-230 | in every wizard step exactly the first `paso` circles and the first `paso - 1` connectors are lit, so a lit connector joins two lit circles |
| EnviarCampana.CampaignWizard.constructor | src/components/EnviarCampana.tsx:12-18 | step 1, every field empty |
| EnviarCampana.CampaignWizard.ChooseType | src/components/EnviarCampana.tsx:58-61 | records the type and moves to step 2; the rest is kept |
| EnviarCampana.CampaignWizard.SetRecipient | src/components/EnviarCampana.tsx:95-101 | the recipients become `WithRecipient` of the old ones; the rest is kept |
| EnviarCampana.CampaignWizard.Continue | src/components/EnviarCampana.tsx:115-116 | moves to step 3 exactly when someone is selected |
| EnviarCampana.CampaignWizard.Back | src/components/EnviarCampana.tsx:109 | step 2 goes to 1 and step 3 goes to 2 (also line 185); the rest is kept |
| EnviarCampana.CampaignWizard.SetField | src/components/EnviarCampana.tsx:138-177 | one input's text is stored and the others are kept |
| EnviarCampana.CampaignWizard.Send | src/components/EnviarCampana.tsx:35-46 | hands on the collected campaign exactly when subject, message and both dates are filled in (line 192), with a valid type and a recipient |
| App.GetMenuItems | src/App.tsx:22-51 | a non-admin gets `mis-evaluaciones` then `faq`; an admin gets `evaluaciones` followed by those two |
| App.MenuIdsDistinct | src/App.tsx:23-48 | no menu id appears twice |
| App.Param | src/App.tsx:89-106 | a `:id` segment is read exactly when the path is the prefix followed by a non-empty segment without `/` |
| App.ParamOf | src/App.tsx:89-106 | a prefix followed by a segment reads back that segment |
| App.ParamMismatch | src/App.tsx:89-106 | a path that differs from the prefix has no segment there |
| App.MatchRoute | src/App.tsx:76-133 | a matched route's path is the path given, and its parameter is a segment |
| App.MatchPathOf | src/App.tsx:76-115 | every declared route is matched by its own path |
| App.MatchVer | src/App.tsx:89 | `/evaluacion/<id>` matches the results route |
| App.MatchRealizar | src/App.tsx:101 | `/realizar-evaluacion/<id>` matches the rating-form route |
| App.Match360 | src/App.tsx:106 | `/evaluacion-360/<id>` matches the 360 route |
| App.RootElement | src/App.tsx:118-127 | no session shows the login screen; an admin goes to `/evaluaciones`, anyone else to `/mis-evaluaciones` |
| App.Render | src/App.tsx:53-133 | a spinner while loading; an unknown path redirects to `/`; the root path shows the root element |
| App.RootRedirectsToFirstMenuEntry | src/App.tsx:22-51 | the signed-in redirect lands on the first entry of the user's own menu (lines 118-127) |
| App.MenuEntriesResolve | src/App.tsx:23-48 | every menu entry resolves to a declared page (lines 76-115) |
| Text.LowerIdempotent | src/components/Faq/Faq.tsx:59 | lower-casing twice is lower-casing once |
| Collections.NoDupPermutation | src/components/CrearNuevaEvaluacion.tsx:108-109 | a permutation of a list without duplicates has none |
| Collections.Dedup | src/components/CrearNuevaEvaluacion.tsx:159 | `new Set(…)`: no duplicates, the same members, never longer, and the first element kept first |
| Collections.FirstIndex | src/components/CrearNuevaEvaluacion.tsx:159 | the position of the first occurrence: it holds the element and no earlier position does |
| Collections.FirstIndexPrefix | src/components/CrearNuevaEvaluacion.tsx:159 | appending never moves a first occurrence |
| Collections.DedupFirstOccurrenceOrder | src/components/CrearNuevaEvaluacion.tsx:159 | the deduplicated elements appear in the order of their first occurrence |
| Collections.SetAdd | src/components/CrearNuevaEvaluacion.tsx:167-168 | `set.add(x)`: `x` becomes a member, the others are kept, no duplicate appears, and a present `x` changes nothing |
| Collections.RemoveAll | src/components/EnviarCampana.tsx:99 | `filter(id => id !== x)`: `x` is gone, every other member is kept, and a list without `x` is unchanged |
| Collections.Insert | src/components/CrearNuevaEvaluacion.tsx:82-91 | one insertion step of the sort: a permutation with `x` added that keeps a sorted list sorted |
| Collections.SortBy | src/components/CrearNuevaEvaluacion.tsx:82-91 | `sort` with a total comparator: a sorted permutation of the input |
| Collections.StrLeqTotal | src/components/CrearNuevaEvaluacion.tsx:109 | the default string order of `sort()` is total |
| Collections.StrLeqAntisymmetric | src/components/CrearNuevaEvaluacion.tsx:109 | two strings each not after the other are equal |
| Collections.StrLessAsymmetric | src/components/CrearNuevaEvaluacion.tsx:88 | no two strings are each `<` the other |
| Text.LowerChar | src/components/Faq/Faq.tsx:59 | an upper-case Latin-1 letter moves down 32 code points, every other character is kept, and the result is never upper-case |
| Text.Lower | src/components/CrearNuevaEvaluacion.tsx:72-75 | `toLowerCase`: the same length, each character lowered |
| Text.LowerEmptyIff | src/components/Faq/Faq.tsx:56-59 | only the empty query lowers to the empty string |
| Text.ContainsEmpty | src/components/Faq/Faq.tsx:65-66 | every string includes the empty string |

## Left out

- Supabase I/O is not modelled. The client, its network and its error results are outside the model. Each read is a function of `Datastore.Store`, and each write is a `Store` method. Query failures (`error` results) are not modelled, apart from the missing-row case of `single()`.
- The realtime subscription in `src/components/Evaluaciones.tsx` is not modelled, and neither is concurrency. There is one writer. So the lost update is out of scope: `updateParticipantStatus` writes back the participant array loaded when the page opened.
- The failed status writes of the reload are not modelled: the source only logs them.
- Toasts, `console` output, loading flags and navigation side effects are not modelled. The submit handler's destination is returned as a path.
- `toFixed(2)` in the results is not modelled. Averages are exact reals.
- EvaluationUtils.RoundPercent: rounds the exact value `100·c/d`, not the double-precision `(c / d) * 100` of the source. At some half-way points the double product lands just below the half and the source rounds down where the model rounds up (23 of 40: 57 against 58; 29 of 200: 14 against 15). IEEE-754 arithmetic is outside the model. The inputs of the Findings row give the same 0 and 100 in both.
- The clock and date parsing are not modelled. "Now", the deadline and the remaining-day count are integer inputs, and `calculateRemainingDays` (`utils/dateUtils`) is not part of this model.
- `toLowerCase` is modelled for Latin-1 letters only. `localeCompare` is an abstract total preorder, and the department sort uses code-point order.
- CrearNuevaEvaluacion.ObtenerTodosLosSubordinados: requires an acyclic hierarchy (a ghost `rank`). On a cycle the source recurses forever.
- CrearNuevaEvaluacion.HandleSelectionChange: the table's `'all'` selection value and the `selectedCount` display counter are not modelled. The selection is a list of ids.
- CrearNuevaEvaluacion.RowFromDraft: the status `pendiente` and the absent start date are the table's column defaults. The schema that sets them is not part of this model.
- The `rowsPerPage` menu choice (10, 20, 50 or all) is not modelled. `PageCount` and `PageItems` take any rows-per-page value.
- The FAQ catalogue text is not modelled. The catalogue is a parameter in key order.
- The campaign wizard's hard-coded employee list is not modelled, and neither is the `console.log` of the send handler.
- `ProtectedRoute` and `AuthContext` are not part of this model: `App.Render` stops at the guard.
- react-router matching rules beyond exact paths and one `:id` segment are not modelled: trailing slashes, case and percent-decoding are out.
- `URLSearchParams` is modelled only for a leading `evaluated=` field. Percent-decoding is not modelled (the ids are uuids).
- JSX, icons, styling, PDF export, the login animation and the mock screens are outside the core.
- AuthSlice.Session: only the user id and the access token of the session object are kept.

## Findings

| source | as written | input that shows it | evidently intended | confidence | as-written member | corrected member |
|---|---|---|---|---|---|---|
| src/utils/evaluationUtils.ts:19-24 | `Math.round` of the completed share can reach 100 while someone is still pending, or stay at 0 after work has begun; `determineEvaluationStatus` then stores `completado` early, or keeps `pendiente` | 199 participants `completado` and 1 pending give 100 (99.5 rounds up); 1 `completado` and 200 pending give 0 | 100 only when every unit is done, and 0 only when none is | not executed | EvaluationUtils.CalculateEvaluationProgress (shown by EvaluationUtils.RoundingReaches100Early and EvaluationUtils.RoundingStays0Late) | EvaluationUtils.SettledProgress (proved by EvaluationUtils.SettledFullIffAllDone, EvaluationUtils.SettledFullIffAllDoneBothWays and EvaluationUtils.SettledAgreesBelow100Participants) |

The source calls the as-written function, and so does the model of every
screen: `Evaluaciones.Progress` is `CalculateEvaluationProgress`, and
`Evaluaciones.ReloadCompletesEarly` and `Evaluaciones.ReloadKeepsStopLate`
carry the two inputs through the reload. `SettledProgress` is the corrected
definition; below 100 participants the two agree on every path
(`SettledAgreesBelow100Participants`), and the submission lemmas state
their properties for both.
