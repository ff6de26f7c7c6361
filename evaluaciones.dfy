/**
 * The administrator's evaluation list (src/components/Evaluaciones.tsx):
 * the reload that recomputes every evaluation's progress and status and
 * writes back the statuses that changed, the start/stop toggle, and the
 * per-row display rules.
 */
module Evaluaciones {
  import opened Wrappers
  import opened Domain
  import opened EvaluationUtils
  import opened Datastore

  // ------------------------------------------------------------ recompute

  /** The responses of one evaluation, in their stored order. */
  function ResponsesFor(responses: seq<ResponseRow>, id: EvaluationId): (r: seq<ResponseRow>)
    ensures |r| <= |responses|
    ensures forall x :: x in r <==> x in responses && x.evaluationId == id
  {
    if responses == [] then []
    else
      var last := responses[|responses| - 1];
      var init := responses[..|responses| - 1];
      assert responses == init + [last];
      ResponsesFor(init, id) + (if last.evaluationId == id then [last] else [])
  }

  /**
   * The progress shown for one row: `calculateEvaluationProgress` as
   * written, given the row's participants and its own responses, which it
   * does not read.
   */
  function Progress(row: EvaluationRow, responses: seq<ResponseRow>): (p: nat)
    ensures p <= 100
    ensures row.participants == [] ==> p == 0
    ensures p == CalculateEvaluationProgress(row.participants, row.evaluationType, row.evaluatedId, [])
  {
    CalculateEvaluationProgress(row.participants, row.evaluationType, row.evaluatedId, ResponsesFor(responses, row.id))
  }

  /** The status the reload resolves for one row. */
  function ResolvedStatus(row: EvaluationRow, responses: seq<ResponseRow>): (s: EvalStatus)
    ensures s != Unrecognised
  {
    DetermineEvaluationStatus(Progress(row, responses), row.status)
  }

  /** One row with its recomputed status. */
  function SettleRow(row: EvaluationRow, responses: seq<ResponseRow>): (r: EvaluationRow)
    ensures r.status == ResolvedStatus(row, responses)
    ensures r.(status := row.status) == row
  {
    row.(status := ResolvedStatus(row, responses))
  }

  /** A listed evaluation: the row with its resolved status, and its percentage. */
  datatype Listed = Listed(row: EvaluationRow, percentage: nat)

  /** The listed evaluations, one per loaded row and in the loaded order. */
  function Recompute(rows: seq<EvaluationRow>, responses: seq<ResponseRow>): (r: seq<Listed>)
    ensures |r| == |rows|
    ensures forall i :: 0 <= i < |rows| ==>
              r[i].row == SettleRow(rows[i], responses) && r[i].percentage == Progress(rows[i], responses)
  {
    seq(|rows|, i requires 0 <= i < |rows| => Listed(SettleRow(rows[i], responses), Progress(rows[i], responses)))
  }

  /** The stored rows after the reload's writes: every status replaced by its resolved one. */
  function SettledRows(rows: seq<EvaluationRow>, responses: seq<ResponseRow>): (r: seq<EvaluationRow>)
    ensures |r| == |rows|
    ensures forall i :: 0 <= i < |rows| ==> r[i] == SettleRow(rows[i], responses)
  {
    seq(|rows|, i requires 0 <= i < |rows| => SettleRow(rows[i], responses))
  }

  /** A status write issued by the reload. */
  datatype StatusWrite = StatusWrite(id: EvaluationId, status: EvalStatus)

  /** The reload writes a row's status exactly when the resolved status differs from the stored one. */
  predicate NeedsWrite(row: EvaluationRow, responses: seq<ResponseRow>) {
    ResolvedStatus(row, responses) != row.status
  }

  /** The writes the reload issues, in row order. */
  function StatusWrites(rows: seq<EvaluationRow>, responses: seq<ResponseRow>): (w: seq<StatusWrite>)
    ensures |w| <= |rows|
  {
    if rows == [] then []
    else
      var last := rows[|rows| - 1];
      var init := rows[..|rows| - 1];
      var w0 := StatusWrites(init, responses);
      w0 + (if NeedsWrite(last, responses) then [StatusWrite(last.id, ResolvedStatus(last, responses))] else [])
  }

  /** A write is issued for a row exactly when its status changes, carrying the resolved status. */
  lemma {:induction false} StatusWritesExactly(rows: seq<EvaluationRow>, responses: seq<ResponseRow>)
    ensures forall x :: x in StatusWrites(rows, responses) <==>
              exists i :: 0 <= i < |rows| && NeedsWrite(rows[i], responses)
                        && x == StatusWrite(rows[i].id, ResolvedStatus(rows[i], responses))
  {
    if rows != [] {
      var init := rows[..|rows| - 1];
      StatusWritesExactly(init, responses);
      assert forall i :: 0 <= i < |init| ==> init[i] == rows[i];
    }
  }

  /** The recomputed progress depends on neither the stored status nor the start date. */
  lemma ProgressIgnoresStatusAndStart(row: EvaluationRow, s: EvalStatus, d: Option<Timestamp>, responses: seq<ResponseRow>)
    ensures Progress(row.(status := s, startDate := d), responses) == Progress(row, responses)
  {
  }

  /** Settling an already settled row changes nothing. */
  lemma SettleRowIdempotent(row: EvaluationRow, responses: seq<ResponseRow>)
    ensures SettleRow(SettleRow(row, responses), responses) == SettleRow(row, responses)
    ensures !NeedsWrite(SettleRow(row, responses), responses)
  {
    ProgressIgnoresStatusAndStart(row, ResolvedStatus(row, responses), row.startDate, responses);
    DetermineIdempotent(Progress(row, responses), row.status);
  }

  /** Rows that all agree with their progress cause no writes. */
  lemma {:induction false} NoWritesWhenSettled(rows: seq<EvaluationRow>, responses: seq<ResponseRow>)
    requires forall i :: 0 <= i < |rows| ==> !NeedsWrite(rows[i], responses)
    ensures StatusWrites(rows, responses) == []
  {
    if rows != [] {
      NoWritesWhenSettled(rows[..|rows| - 1], responses);
    }
  }

  /** A second reload over the settled rows writes nothing and lists the same evaluations. */
  lemma ReloadIsQuiet(rows: seq<EvaluationRow>, responses: seq<ResponseRow>)
    ensures StatusWrites(SettledRows(rows, responses), responses) == []
    ensures SettledRows(SettledRows(rows, responses), responses) == SettledRows(rows, responses)
    ensures Recompute(SettledRows(rows, responses), responses) == Recompute(rows, responses)
  {
    var s := SettledRows(rows, responses);
    forall i | 0 <= i < |rows|
      ensures SettleRow(s[i], responses) == s[i] && !NeedsWrite(s[i], responses)
      ensures Progress(s[i], responses) == Progress(rows[i], responses)
    {
      SettleRowIdempotent(rows[i], responses);
      ProgressIgnoresStatusAndStart(rows[i], s[i].status, rows[i].startDate, responses);
    }
    NoWritesWhenSettled(s, responses);
  }

  /** A row whose status already agrees with its progress is left out of the writes. */
  lemma UnchangedRowNotWritten(rows: seq<EvaluationRow>, responses: seq<ResponseRow>, i: nat)
    requires UniqueIds(rows) && i < |rows| && !NeedsWrite(rows[i], responses)
    ensures forall x :: x in StatusWrites(rows, responses) ==> x.id != rows[i].id
  {
    StatusWritesExactly(rows, responses);
  }

  /** With unique keys, a status update by the key of row `k` changes exactly row `k`. */
  lemma UpdateOneStatus(rows: seq<EvaluationRow>, k: nat, s: EvalStatus)
    requires UniqueIds(rows) && k < |rows|
    ensures UpdateWhere(rows, rows[k].id, Patch(None, Some(s), None)) == rows[k := rows[k].(status := s)]
  {
    var u := UpdateWhere(rows, rows[k].id, Patch(None, Some(s), None));
    forall j | 0 <= j < |rows| ensures u[j] == rows[k := rows[k].(status := s)][j] {
      if j != k {
        assert rows[j].id != rows[k].id;
      }
    }
  }

  /** The stored rows part way through the reload: the first `k` settled, the rest as loaded. */
  function PartlySettled(rows: seq<EvaluationRow>, responses: seq<ResponseRow>, k: nat): (r: seq<EvaluationRow>)
    requires k <= |rows|
    ensures |r| == |rows|
    ensures forall i :: 0 <= i < |rows| ==> r[i].id == rows[i].id
  {
    SettledRows(rows[..k], responses) + rows[k..]
  }

  /** Settling one more row replaces exactly entry `k`. */
  lemma PartlySettledNext(rows: seq<EvaluationRow>, responses: seq<ResponseRow>, k: nat)
    requires k < |rows|
    ensures PartlySettled(rows, responses, k + 1) == PartlySettled(rows, responses, k)[k := SettleRow(rows[k], responses)]
  {
    var cur := PartlySettled(rows, responses, k);
    var next := PartlySettled(rows, responses, k + 1);
    forall i | 0 <= i < |rows| ensures next[i] == cur[k := SettleRow(rows[k], responses)][i] {
      if i < k {
        assert next[i] == SettledRows(rows[..k + 1], responses)[i] == SettleRow(rows[i], responses);
        assert cur[i] == SettledRows(rows[..k], responses)[i];
      } else if i > k {
        assert next[i] == rows[k + 1..][i - k - 1];
        assert cur[i] == rows[k..][i - k];
      } else {
        assert next[i] == SettledRows(rows[..k + 1], responses)[k];
      }
    }
  }

  /** Part way through, the stored keys are still the loaded keys, so still unique. */
  lemma PartlySettledUnique(rows: seq<EvaluationRow>, responses: seq<ResponseRow>, k: nat)
    requires UniqueIds(rows) && k <= |rows|
    ensures UniqueIds(PartlySettled(rows, responses, k))
  {
    var cur := PartlySettled(rows, responses, k);
    forall i, j | 0 <= i < j < |cur| ensures cur[i].id != cur[j].id {
      assert cur[i].id == rows[i].id && cur[j].id == rows[j].id;
    }
  }

  /** One step of the reload on the stored rows: the write for row `k`, if any, settles exactly that row. */
  lemma SettleStep(rows: seq<EvaluationRow>, responses: seq<ResponseRow>, k: nat)
    requires UniqueIds(rows) && k < |rows|
    ensures NeedsWrite(rows[k], responses) ==>
      UpdateWhere(PartlySettled(rows, responses, k), rows[k].id, Patch(None, Some(ResolvedStatus(rows[k], responses)), None))
        == PartlySettled(rows, responses, k + 1)
    ensures !NeedsWrite(rows[k], responses) ==> PartlySettled(rows, responses, k) == PartlySettled(rows, responses, k + 1)
  {
    var cur := PartlySettled(rows, responses, k);
    PartlySettledUnique(rows, responses, k);
    PartlySettledNext(rows, responses, k);
    if NeedsWrite(rows[k], responses) {
      UpdateOneStatus(cur, k, ResolvedStatus(rows[k], responses));
    }
  }

  /** One step of the reload on the listing and on the writes. */
  lemma ListStep(rows: seq<EvaluationRow>, responses: seq<ResponseRow>, k: nat)
    requires k < |rows|
    ensures Recompute(rows[..k + 1], responses)
         == Recompute(rows[..k], responses) + [Listed(SettleRow(rows[k], responses), Progress(rows[k], responses))]
    ensures StatusWrites(rows[..k + 1], responses)
         == StatusWrites(rows[..k], responses)
            + (if NeedsWrite(rows[k], responses) then [StatusWrite(rows[k].id, ResolvedStatus(rows[k], responses))] else [])
  {
    assert rows[..k + 1][..k] == rows[..k];
  }

  /**
   * `cargarEvaluaciones`: for each loaded row in turn, the status is
   * resolved from the row's progress and written back only if it changed;
   * the listed evaluations are returned. Write failures are only logged in
   * the source and are not modelled.
   */
  method CargarEvaluaciones(db: Store) returns (listed: seq<Listed>, written: seq<StatusWrite>)
    requires db.Valid()
    modifies db
    ensures db.Valid()
    ensures db.responses == old(db.responses)
    ensures listed == Recompute(old(db.evaluations), db.responses)
    ensures written == StatusWrites(old(db.evaluations), db.responses)
    ensures db.evaluations == SettledRows(old(db.evaluations), db.responses)
  {
    var rows := db.evaluations;
    var responses := db.responses;
    listed := [];
    written := [];
    var k := 0;
    assert PartlySettled(rows, responses, 0) == rows;
    while k < |rows|
      invariant 0 <= k <= |rows|
      invariant db.Valid() && db.responses == responses && UniqueIds(rows)
      invariant db.evaluations == PartlySettled(rows, responses, k)
      invariant listed == Recompute(rows[..k], responses)
      invariant written == StatusWrites(rows[..k], responses)
    {
      var row := rows[k];
      var progress := Progress(row, responses);
      var newStatus := DetermineEvaluationStatus(progress, row.status);
      SettleStep(rows, responses, k);
      ListStep(rows, responses, k);
      if newStatus != row.status {
        db.Update(row.id, Patch(None, Some(newStatus), None));
        written := written + [StatusWrite(row.id, newStatus)];
      }
      listed := listed + [Listed(row.(status := newStatus), progress)];
      k := k + 1;
    }
    assert rows[..k] == rows;
  }

  // ----------------------------------------------------------- start/stop

  /** `handleStartStopEvaluation`'s update: start when there is no start date, stop otherwise. */
  function StartStopPatch(shown: EvaluationRow, now: Timestamp): (p: Patch)
    ensures p.participants.None?
    ensures shown.startDate.None? ==> p.status == Some(Iniciado) && p.startDate == Some(Some(now))
    ensures shown.startDate.Some? ==> p.status == Some(Detenido) && p.startDate == Some(None)
  {
    if shown.startDate.None? then Patch(None, Some(Iniciado), Some(Some(now)))
    else Patch(None, Some(Detenido), Some(None))
  }

  /** Toggling twice brings the start date back to absent and the status to stopped or started. */
  lemma StartStopAlternates(row: EvaluationRow, now: Timestamp, later: Timestamp)
    ensures var once := ApplyPatch(row, StartStopPatch(row, now));
      var twice := ApplyPatch(once, StartStopPatch(once, later));
      (row.startDate.None? ==> once.startDate == Some(now) && twice.startDate.None? && twice.status == Detenido)
      && (row.startDate.Some? ==> once.startDate.None? && twice.startDate == Some(later) && twice.status == Iniciado)
  {
  }

  /**
   * The toggle followed by the reload the source awaits. The row shown
   * in the list (`shown`) decides the direction.
   */
  method HandleStartStopEvaluation(db: Store, shown: EvaluationRow, now: Timestamp)
    returns (listed: seq<Listed>, written: seq<StatusWrite>)
    requires db.Valid()
    modifies db
    ensures db.Valid()
    ensures db.responses == old(db.responses)
    ensures var toggled := UpdateWhere(old(db.evaluations), shown.id, StartStopPatch(shown, now));
      listed == Recompute(toggled, db.responses)
      && written == StatusWrites(toggled, db.responses)
      && db.evaluations == SettledRows(toggled, db.responses)
  {
    db.Update(shown.id, StartStopPatch(shown, now));
    listed, written := CargarEvaluaciones(db);
  }

  /** After a stop and the reload, the stop holds only while nothing has been done. */
  lemma StopSticksOnlyAtZero(row: EvaluationRow, now: Timestamp, responses: seq<ResponseRow>)
    requires row.startDate.Some?
    ensures var stopped := ApplyPatch(row, StartStopPatch(row, now));
      (SettleRow(stopped, responses).status == Detenido <==> Progress(row, responses) == 0)
      && (0 < Progress(row, responses) < 100 ==> SettleRow(stopped, responses).status == Iniciado)
  {
    var stopped := ApplyPatch(row, StartStopPatch(row, now));
    ProgressIgnoresStatusAndStart(row, Detenido, None, responses);
    assert stopped == row.(status := Detenido, startDate := None);
  }

  /** A start with nothing done yet reads back as pending after the reload, and that status is written. */
  lemma StartAtZeroReadsPending(row: EvaluationRow, now: Timestamp, responses: seq<ResponseRow>)
    requires row.startDate.None? && Progress(row, responses) == 0
    ensures var started := ApplyPatch(row, StartStopPatch(row, now));
      SettleRow(started, responses).status == Pendiente && NeedsWrite(started, responses)
  {
    var started := ApplyPatch(row, StartStopPatch(row, now));
    ProgressIgnoresStatusAndStart(row, Iniciado, Some(now), responses);
    assert started == row.(status := Iniciado, startDate := Some(now));
  }

  /**
   * The rounding of the progress reaches the reload: a simple evaluation
   * with 199 of its 200 participants done is stored as `completado`.
   */
  lemma ReloadCompletesEarly(row: EvaluationRow, responses: seq<ResponseRow>)
    requires row.evaluationType == Simple && row.evaluatedId.None?
    requires row.participants == Uniform(199, Done) + Uniform(1, Pending)
    ensures !AllStatusDone(row.participants)
    ensures Progress(row, responses) == 100 && SettleRow(row, responses).status == Completado
  {
    RoundingReaches100Early(199);
  }

  /** And a stopped simple evaluation with 1 of its 201 participants done stays stopped. */
  lemma ReloadKeepsStopLate(row: EvaluationRow, responses: seq<ResponseRow>)
    requires row.evaluationType == Simple && row.evaluatedId.None? && row.status == Detenido
    requires row.participants == Uniform(1, Done) + Uniform(200, Pending)
    ensures CountStatusDone(row.participants) == 1
    ensures Progress(row, responses) == 0 && SettleRow(row, responses).status == Detenido
  {
    RoundingStays0Late(200);
  }

  // -------------------------------------------------------------- display

  /** `getEvaluationType`: only '360' and 'simple' have labels; '180' reads as undefined. */
  function EvaluationTypeLabel(t: EvaluationType): (s: string)
    ensures t == T360 ==> s == "Evaluación 360°"
    ensures t == Simple ==> s == "Evaluación Simple"
    ensures t == T180 || t == Other ==> s == "No definido"
  {
    match t
    case T360 => "Evaluación 360°"
    case Simple => "Evaluación Simple"
    case _ => "No definido"
  }

  /** The progress bar's colour. */
  function ProgressColor(percentage: nat): (c: string)
    ensures c == "success" <==> percentage == 100
    ensures c != "success" ==> c == "primary"
  {
    if percentage == 100 then "success" else "primary"
  }

  /** The remaining-days text: overdue, today, or a count of whole days left. */
  datatype DaysText = Vencida | Hoy | DaysLeft(days: nat)

  /** The remaining-days colour. */
  datatype DaysColor = Red | Yellow | Gray

  /** The remaining-days text for a day count computed from the deadline. */
  function RemainingDaysText(days: int): (t: DaysText)
    ensures t == Vencida <==> days < 0
    ensures t == Hoy <==> days == 0
    ensures t.DaysLeft? <==> days > 0
    ensures t.DaysLeft? ==> t.days == days
  {
    if days < 0 then Vencida else if days == 0 then Hoy else DaysLeft(days)
  }

  /** The remaining-days colour: red once overdue, yellow under three days, gray otherwise. */
  function RemainingDaysColor(days: int): (c: DaysColor)
    ensures c == Red <==> days < 0
    ensures c == Yellow <==> 0 <= days < 3
    ensures c == Gray <==> days >= 3
  {
    if days < 0 then Red else if days < 3 then Yellow else Gray
  }

  /** Today reads yellow, and every overdue row reads red. */
  lemma DaysTextAndColorAgree(days: int)
    ensures RemainingDaysText(days) == Hoy ==> RemainingDaysColor(days) == Yellow
    ensures RemainingDaysText(days) == Vencida <==> RemainingDaysColor(days) == Red
  {
  }

  /** The row's start/stop control. */
  datatype Control = StartControl | StopControl

  /** The start/stop control is offered only before the deadline; it stops a started row and starts the others. */
  function ControlOffered(row: EvaluationRow, now: Timestamp): (c: Option<Control>)
    ensures c.Some? <==> row.endDate > now
    ensures c == Some(StopControl) <==> row.endDate > now && row.startDate.Some?
    ensures c == Some(StartControl) <==> row.endDate > now && row.startDate.None?
  {
    if row.endDate > now then Some(if row.startDate.Some? then StopControl else StartControl) else None
  }

  /** The offered control does what it says: the start control starts, the stop control stops. */
  lemma ControlMatchesToggle(row: EvaluationRow, now: Timestamp)
    requires ControlOffered(row, now).Some?
    ensures ControlOffered(row, now) == Some(StartControl) ==> StartStopPatch(row, now).status == Some(Iniciado)
    ensures ControlOffered(row, now) == Some(StopControl) ==> StartStopPatch(row, now).status == Some(Detenido)
  {
  }
}
