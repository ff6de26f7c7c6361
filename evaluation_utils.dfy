/**
 * Progress and status rules of src/utils/evaluationUtils.ts: how the
 * participants' completion marks become a percentage, how a percentage and
 * the stored status become the new status, and the status labels.
 *
 * `Math.round((c / d) * 100)` is taken on the exact quotient and computed
 * in integers as `(200 * c + d) / (2 * d)`. `CalculateEvaluationProgress`
 * is the function as written, which the screens use; `SettledProgress` is
 * the corrected one (see the rounding lemmas below).
 */
module EvaluationUtils {
  import opened Wrappers
  import opened Domain

  // ---------------------------------------------------------------- counting

  /** `participants.filter(p => p.status === 'completado').length` */
  function CountStatusDone(ps: seq<Participant>): (c: nat)
    ensures c <= |ps|
  {
    if ps == [] then 0 else (if ps[0].status == Done then 1 else 0) + CountStatusDone(ps[1..])
  }

  /** `participants.filter(p => p.evaluated === 'completado').length` */
  function CountEvaluatedDone(ps: seq<Participant>): (c: nat)
    ensures c <= |ps|
  {
    if ps == [] then 0 else (if ps[0].evaluated == Some(Done) then 1 else 0) + CountEvaluatedDone(ps[1..])
  }

  /** Every participant has submitted as a rater. */
  predicate AllStatusDone(ps: seq<Participant>) {
    forall i :: 0 <= i < |ps| ==> ps[i].status == Done
  }

  /** Every participant has been rated as a subject. */
  predicate AllEvaluatedDone(ps: seq<Participant>) {
    forall i :: 0 <= i < |ps| ==> ps[i].evaluated == Some(Done)
  }

  /** No participant has been rated as a subject yet. */
  predicate NoneEvaluatedDone(ps: seq<Participant>) {
    forall i :: 0 <= i < |ps| ==> ps[i].evaluated != Some(Done)
  }

  /** Nobody has submitted yet. */
  predicate NoneStatusDone(ps: seq<Participant>) {
    forall i :: 0 <= i < |ps| ==> ps[i].status != Done
  }

  /** The status count is zero exactly when nobody has submitted. */
  lemma {:induction false} CountStatusDoneZero(ps: seq<Participant>)
    ensures CountStatusDone(ps) == 0 <==> NoneStatusDone(ps)
  {
    if ps != [] {
      CountStatusDoneZero(ps[1..]);
      assert NoneStatusDone(ps) <==> ps[0].status != Done && NoneStatusDone(ps[1..]) by {
        assert forall i :: 1 <= i < |ps| ==> ps[i] == ps[1..][i - 1];
      }
    }
  }

  /** The status count reaches the list length exactly when every status is complete. */
  lemma {:induction false} CountStatusDoneFull(ps: seq<Participant>)
    ensures CountStatusDone(ps) == |ps| <==> AllStatusDone(ps)
  {
    if ps != [] {
      CountStatusDoneFull(ps[1..]);
      assert AllStatusDone(ps) <==> ps[0].status == Done && AllStatusDone(ps[1..]) by {
        assert forall i :: 1 <= i < |ps| ==> ps[i] == ps[1..][i - 1];
      }
    }
  }

  /** The evaluated count reaches the list length exactly when every participant has been rated. */
  lemma {:induction false} CountEvaluatedDoneFull(ps: seq<Participant>)
    ensures CountEvaluatedDone(ps) == |ps| <==> AllEvaluatedDone(ps)
  {
    if ps != [] {
      CountEvaluatedDoneFull(ps[1..]);
      assert AllEvaluatedDone(ps) <==> ps[0].evaluated == Some(Done) && AllEvaluatedDone(ps[1..]) by {
        assert forall i :: 1 <= i < |ps| ==> ps[i] == ps[1..][i - 1];
      }
    }
  }

  /** The evaluated count is zero exactly when nobody has been rated. */
  lemma {:induction false} CountEvaluatedDoneZero(ps: seq<Participant>)
    ensures CountEvaluatedDone(ps) == 0 <==> NoneEvaluatedDone(ps)
  {
    if ps != [] {
      CountEvaluatedDoneZero(ps[1..]);
      assert NoneEvaluatedDone(ps) <==> ps[0].evaluated != Some(Done) && NoneEvaluatedDone(ps[1..]) by {
        assert forall i :: 1 <= i < |ps| ==> ps[i] == ps[1..][i - 1];
      }
    }
  }

  // ------------------------------------------------------------ percentages

  /** The `evaluationType === '180' && evaluatedId` test: both directions of work are counted. */
  predicate CountsBothDirections(t: EvaluationType, evaluatedId: Option<UserId>) {
    t == T180 && evaluatedId.Some? && evaluatedId.value != ""
  }

  /** Units of work done: rater submissions, plus subjects rated on the two-way path. */
  function CompletedUnits(ps: seq<Participant>, t: EvaluationType, evaluatedId: Option<UserId>): (c: nat)
    ensures c <= RequiredUnits(ps, t, evaluatedId)
  {
    if CountsBothDirections(t, evaluatedId) then CountStatusDone(ps) + CountEvaluatedDone(ps)
    else CountStatusDone(ps)
  }

  /** Units of work required: one per participant, two on the two-way path. */
  function RequiredUnits(ps: seq<Participant>, t: EvaluationType, evaluatedId: Option<UserId>): nat {
    if CountsBothDirections(t, evaluatedId) then 2 * |ps| else |ps|
  }

  /** `Math.round((c / d) * 100)` on the exact quotient: the integer nearest to `100c/d`, halves rounded up. */
  function RoundPercent(c: nat, d: nat): (r: nat)
    requires d > 0
    ensures 2 * d * r <= 200 * c + d < 2 * d * (r + 1)
  {
    var n := 200 * c + d;
    var q := n / (2 * d);
    assert q * (2 * d) + n % (2 * d) == n;
    q
  }

  /** If `q` brackets `n / d` then it is the quotient. */
  lemma QuotientUnique(n: int, d: int, q: int)
    requires d > 0 && q * d <= n < (q + 1) * d
    ensures n / d == q
  {
    var r := n / d;
    assert r * d + n % d == n;
    if r < q {
      MulLeq(r + 1, q, d);
    }
  }

  lemma MulLeq(a: int, b: int, d: int)
    requires a <= b && d >= 0
    ensures a * d <= b * d
  {
    assert b * d - a * d == (b - a) * d;
  }

  /** The rounded percentage of `c` out of `d` units stays at most 100 while `c <= d`. */
  lemma RoundPercentAtMost100(c: nat, d: nat)
    requires 0 < d && c <= d
    ensures RoundPercent(c, d) <= 100
  {
    var r := RoundPercent(c, d);
    if r >= 101 {
      MulLeq(101, r, 2 * d);
      MulLeq(c, d, 200);
    }
  }

  /** Rounding is monotone in the numerator. */
  lemma RoundPercentMonotone(c1: nat, c2: nat, d: nat)
    requires 0 < d && c1 <= c2
    ensures RoundPercent(c1, d) <= RoundPercent(c2, d)
  {
    var r1, r2 := RoundPercent(c1, d), RoundPercent(c2, d);
    if r1 > r2 {
      MulLeq(r2 + 1, r1, 2 * d);
      MulLeq(c1, c2, 200);
    }
  }

  /** None done rounds to 0 and all done to 100. */
  lemma RoundPercentEnds(c: nat, d: nat)
    requires 0 < d
    ensures c == 0 ==> RoundPercent(c, d) == 0
    ensures c == d ==> RoundPercent(c, d) == 100
  {
    if c == 0 {
      QuotientUnique(d, 2 * d, 0);
    }
    if c == d {
      QuotientUnique(201 * d, 2 * d, 100);
    }
  }

  /** Below 200 units, a partial count never rounds to 0 or to 100. */
  lemma RoundPercentInteriorBelow200(c: nat, d: nat)
    requires 0 < c < d < 200
    ensures 1 <= RoundPercent(c, d) <= 99
  {
    var r := RoundPercent(c, d);
    if r == 0 {
      MulLeq(1, c, 200);
    }
    if r >= 100 {
      MulLeq(100, r, 2 * d);
      MulLeq(c, d - 1, 200);
    }
  }

  /**
   * `calculateEvaluationProgress` as written: an empty list gives 0;
   * otherwise the completed units over the required units, as a rounded
   * percentage. The responses argument is accepted and not used.
   */
  function CalculateEvaluationProgress(ps: seq<Participant>, t: EvaluationType,
                                       evaluatedId: Option<UserId>, responses: seq<ResponseRow>): (r: nat)
    ensures ps == [] ==> r == 0
    ensures r <= 100
    ensures ps != [] ==>
      var c, d := CompletedUnits(ps, t, evaluatedId), RequiredUnits(ps, t, evaluatedId);
      2 * d * r <= 200 * c + d < 2 * d * (r + 1)
  {
    if |ps| == 0 then 0
    else
      var c, d := CompletedUnits(ps, t, evaluatedId), RequiredUnits(ps, t, evaluatedId);
      RoundPercentAtMost100(c, d);
      RoundPercent(c, d)
  }

  /**
   * The corrected progress: the rounded percentage, except that it is 0
   * only when no unit is done and 100 only when every unit is done.
   */
  function SettledProgress(ps: seq<Participant>, t: EvaluationType,
                           evaluatedId: Option<UserId>, responses: seq<ResponseRow>): (r: nat)
    ensures r <= 100
    ensures r == 0 <==> CompletedUnits(ps, t, evaluatedId) == 0
    ensures r == 100 <==> ps != [] && CompletedUnits(ps, t, evaluatedId) == RequiredUnits(ps, t, evaluatedId)
  {
    var c, d := CompletedUnits(ps, t, evaluatedId), RequiredUnits(ps, t, evaluatedId);
    if c == 0 then 0
    else if c == d then 100
    else
      var p := CalculateEvaluationProgress(ps, t, evaluatedId, responses);
      if p == 0 then 1 else if p == 100 then 99 else p
  }

  /** With fewer than 200 required units the corrected progress is the rounded one. */
  lemma SettledAgreesBelow200Units(ps: seq<Participant>, t: EvaluationType,
                                   evaluatedId: Option<UserId>, responses: seq<ResponseRow>)
    requires ps != [] && RequiredUnits(ps, t, evaluatedId) < 200
    ensures SettledProgress(ps, t, evaluatedId, responses) == CalculateEvaluationProgress(ps, t, evaluatedId, responses)
  {
    var c, d := CompletedUnits(ps, t, evaluatedId), RequiredUnits(ps, t, evaluatedId);
    RoundPercentEnds(c, d);
    if 0 < c < d {
      RoundPercentInteriorBelow200(c, d);
    }
  }

  /** With fewer than 100 participants, the corrected and the as-written progress agree on every path. */
  lemma SettledAgreesBelow100Participants(ps: seq<Participant>, t: EvaluationType,
                                          evaluatedId: Option<UserId>, responses: seq<ResponseRow>)
    requires |ps| < 100
    ensures SettledProgress(ps, t, evaluatedId, responses) == CalculateEvaluationProgress(ps, t, evaluatedId, responses)
  {
    if ps != [] {
      SettledAgreesBelow200Units(ps, t, evaluatedId, responses);
    }
  }

  /** On the one-way path, everybody having submitted gives 100, for both progress functions. */
  lemma ProgressFullWhenAllDone(ps: seq<Participant>, t: EvaluationType,
                                evaluatedId: Option<UserId>, responses: seq<ResponseRow>)
    requires ps != [] && !CountsBothDirections(t, evaluatedId) && AllStatusDone(ps)
    ensures CalculateEvaluationProgress(ps, t, evaluatedId, responses) == 100
    ensures SettledProgress(ps, t, evaluatedId, responses) == 100
  {
    CountStatusDoneFull(ps);
    RoundPercentEnds(|ps|, |ps|);
  }

  /** On the one-way path, the corrected progress is 100 exactly when everybody has submitted. */
  lemma SettledFullIffAllDone(ps: seq<Participant>, t: EvaluationType,
                              evaluatedId: Option<UserId>, responses: seq<ResponseRow>)
    requires ps != [] && !CountsBothDirections(t, evaluatedId)
    ensures SettledProgress(ps, t, evaluatedId, responses) == 100 <==> AllStatusDone(ps)
  {
    CountStatusDoneFull(ps);
  }

  /** On the two-way path, the corrected progress is 100 exactly when everybody has submitted and been rated. */
  lemma SettledFullIffAllDoneBothWays(ps: seq<Participant>, t: EvaluationType,
                                      evaluatedId: Option<UserId>, responses: seq<ResponseRow>)
    requires ps != [] && CountsBothDirections(t, evaluatedId)
    ensures SettledProgress(ps, t, evaluatedId, responses) == 100 <==> AllStatusDone(ps) && AllEvaluatedDone(ps)
  {
    CountStatusDoneFull(ps);
    CountEvaluatedDoneFull(ps);
  }

  /** With fewer than 200 participants on the one-way path, the as-written progress is 100 only when everybody has submitted. */
  lemma ProgressFullOnlyWhenAllDoneBelow200(ps: seq<Participant>, t: EvaluationType,
                                            evaluatedId: Option<UserId>, responses: seq<ResponseRow>)
    requires 0 < |ps| < 200 && !CountsBothDirections(t, evaluatedId)
    requires CalculateEvaluationProgress(ps, t, evaluatedId, responses) == 100
    ensures AllStatusDone(ps)
  {
    SettledAgreesBelow200Units(ps, t, evaluatedId, responses);
    SettledFullIffAllDone(ps, t, evaluatedId, responses);
  }

  /** On the two-way path, all raters done and nobody rated is exactly half the work: 50. */
  lemma HalfWhenOnlyRatersDone(ps: seq<Participant>, t: EvaluationType,
                               evaluatedId: Option<UserId>, responses: seq<ResponseRow>)
    requires ps != [] && CountsBothDirections(t, evaluatedId)
    requires AllStatusDone(ps) && NoneEvaluatedDone(ps)
    ensures CalculateEvaluationProgress(ps, t, evaluatedId, responses) == 50
    ensures SettledProgress(ps, t, evaluatedId, responses) == 50
  {
    CountStatusDoneFull(ps);
    CountEvaluatedDoneZero(ps);
    var n := |ps|;
    QuotientUnique(202 * n, 4 * n, 50);
  }

  /** More rater submissions and more rated subjects never lower either progress. */
  lemma ProgressMonotone(ps: seq<Participant>, qs: seq<Participant>, t: EvaluationType,
                         evaluatedId: Option<UserId>, responses: seq<ResponseRow>)
    requires |ps| == |qs|
    requires CountStatusDone(ps) <= CountStatusDone(qs)
    requires CountEvaluatedDone(ps) <= CountEvaluatedDone(qs)
    ensures CalculateEvaluationProgress(ps, t, evaluatedId, responses) <= CalculateEvaluationProgress(qs, t, evaluatedId, responses)
    ensures SettledProgress(ps, t, evaluatedId, responses) <= SettledProgress(qs, t, evaluatedId, responses)
  {
    if ps != [] {
      var d := RequiredUnits(ps, t, evaluatedId);
      RoundPercentMonotone(CompletedUnits(ps, t, evaluatedId), CompletedUnits(qs, t, evaluatedId), d);
    }
  }

  /** `qs` is `ps` with some marks advanced to complete and none taken back. */
  predicate Dominates(ps: seq<Participant>, qs: seq<Participant>) {
    |ps| == |qs| &&
    forall i :: 0 <= i < |ps| ==>
      (ps[i].status == Done ==> qs[i].status == Done) &&
      (ps[i].evaluated == Some(Done) ==> qs[i].evaluated == Some(Done))
  }

  /** Advancing marks never lowers either count. */
  lemma {:induction false} DominatesCounts(ps: seq<Participant>, qs: seq<Participant>)
    requires Dominates(ps, qs)
    ensures CountStatusDone(ps) <= CountStatusDone(qs)
    ensures CountEvaluatedDone(ps) <= CountEvaluatedDone(qs)
  {
    if ps != [] {
      assert Dominates(ps[1..], qs[1..]) by {
        forall i | 0 <= i < |ps| - 1
          ensures (ps[1..][i].status == Done ==> qs[1..][i].status == Done)
               && (ps[1..][i].evaluated == Some(Done) ==> qs[1..][i].evaluated == Some(Done))
        {
          assert ps[1..][i] == ps[i + 1] && qs[1..][i] == qs[i + 1];
        }
      }
      DominatesCounts(ps[1..], qs[1..]);
    }
  }

  /** Advancing marks never lowers either progress. */
  lemma DominatesNeverLowersProgress(ps: seq<Participant>, qs: seq<Participant>, t: EvaluationType,
                                     evaluatedId: Option<UserId>, responses: seq<ResponseRow>)
    requires Dominates(ps, qs)
    ensures CalculateEvaluationProgress(ps, t, evaluatedId, responses) <= CalculateEvaluationProgress(qs, t, evaluatedId, responses)
    ensures SettledProgress(ps, t, evaluatedId, responses) <= SettledProgress(qs, t, evaluatedId, responses)
  {
    DominatesCounts(ps, qs);
    ProgressMonotone(ps, qs, t, evaluatedId, responses);
  }

  /** Marking one more participant `completado` never lowers the progress. */
  lemma MarkDoneNeverLowersProgress(ps: seq<Participant>, i: nat, t: EvaluationType,
                                    evaluatedId: Option<UserId>, responses: seq<ResponseRow>)
    requires i < |ps|
    ensures CalculateEvaluationProgress(ps, t, evaluatedId, responses)
         <= CalculateEvaluationProgress(ps[i := ps[i].(status := Done)], t, evaluatedId, responses)
    ensures SettledProgress(ps, t, evaluatedId, responses)
         <= SettledProgress(ps[i := ps[i].(status := Done)], t, evaluatedId, responses)
  {
    DominatesNeverLowersProgress(ps, ps[i := ps[i].(status := Done)], t, evaluatedId, responses);
  }

  // ------------------------------------------- the rounding discrepancy

  /** `n` participants with the same mark and no `evaluated` entry. */
  function Uniform(n: nat, m: Mark): (ps: seq<Participant>)
    ensures |ps| == n
    ensures forall i :: 0 <= i < n ==> ps[i] == Participant("", m, None)
  {
    seq(n, i => Participant("", m, None))
  }

  lemma {:induction false} CountUniform(n: nat, m: Mark)
    ensures CountStatusDone(Uniform(n, m)) == if m == Done then n else 0
  {
    if n > 0 {
      assert Uniform(n, m)[1..] == Uniform(n - 1, m);
      CountUniform(n - 1, m);
    }
  }

  lemma {:induction false} CountAppend(a: seq<Participant>, b: seq<Participant>)
    ensures CountStatusDone(a + b) == CountStatusDone(a) + CountStatusDone(b)
  {
    if a != [] {
      assert (a + b)[0] == a[0] && (a + b)[1..] == a[1..] + b;
      CountAppend(a[1..], b);
    } else {
      assert a + b == b;
    }
  }

  /**
   * The as-written progress reaches 100 with one participant still pending
   * as soon as 199 others are done, so the resolver then stores 'completado'.
   */
  lemma RoundingReaches100Early(n: nat)
    requires n >= 199
    ensures var ps := Uniform(n, Done) + Uniform(1, Pending);
      CalculateEvaluationProgress(ps, Simple, None, []) == 100
      && !AllStatusDone(ps)
      && SettledProgress(ps, Simple, None, []) == 99
  {
    var ps := Uniform(n, Done) + Uniform(1, Pending);
    CountAppend(Uniform(n, Done), Uniform(1, Pending));
    CountUniform(n, Done);
    CountUniform(1, Pending);
    assert ps[n].status == Pending;
    QuotientUnique(200 * n + (n + 1), 2 * (n + 1), 100);
  }

  /**
   * The as-written progress stays at 0 with one participant done while 200
   * or more are pending, so the resolver keeps 'pendiente' although work has begun.
   */
  lemma RoundingStays0Late(n: nat)
    requires n >= 200
    ensures var ps := Uniform(1, Done) + Uniform(n, Pending);
      CalculateEvaluationProgress(ps, Simple, None, []) == 0
      && CountStatusDone(ps) == 1
      && SettledProgress(ps, Simple, None, []) == 1
  {
    var ps := Uniform(1, Done) + Uniform(n, Pending);
    CountAppend(Uniform(1, Done), Uniform(n, Pending));
    CountUniform(1, Done);
    CountUniform(n, Pending);
    QuotientUnique(200 + (n + 1), 2 * (n + 1), 0);
  }

  // ---------------------------------------------------------------- status

  /**
   * `determineEvaluationStatus`: 100 completes, any other positive value
   * starts (even from a stop), and 0 keeps a stop and is pending otherwise.
   */
  function DetermineEvaluationStatus(progress: int, current: EvalStatus): (r: EvalStatus)
    ensures r == Completado <==> progress == 100
    ensures r == Iniciado <==> progress > 0 && progress != 100
    ensures r == Detenido <==> progress <= 0 && current == Detenido
    ensures r == Pendiente <==> progress <= 0 && current != Detenido
  {
    if progress == 100 then Completado
    else if progress > 0 then Iniciado
    else if current == Detenido then Detenido
    else Pendiente
  }

  /** Resolving twice with the same progress changes nothing more. */
  lemma DetermineIdempotent(progress: int, current: EvalStatus)
    ensures DetermineEvaluationStatus(progress, DetermineEvaluationStatus(progress, current))
         == DetermineEvaluationStatus(progress, current)
  {
  }

  /** `getStatusColor` */
  function GetStatusColor(s: EvalStatus): (c: string)
    ensures s == Completado ==> c == "success"
    ensures s == Iniciado ==> c == "primary"
    ensures s == Detenido ==> c == "danger"
    ensures s == Pendiente || s == Unrecognised ==> c == "warning"
  {
    match s
    case Completado => "success"
    case Iniciado => "primary"
    case Detenido => "danger"
    case _ => "warning"
  }

  /** `getStatusText` */
  function GetStatusText(s: EvalStatus): (t: string)
    ensures s == Completado ==> t == "Completado"
    ensures s == Iniciado ==> t == "Iniciado"
    ensures s == Detenido ==> t == "Detenido"
    ensures s == Pendiente || s == Unrecognised ==> t == "Pendiente"
  {
    match s
    case Completado => "Completado"
    case Iniciado => "Iniciado"
    case Detenido => "Detenido"
    case _ => "Pendiente"
  }

  /** The four statuses get four distinct labels and colours; any other value reads as pending. */
  lemma StatusLabelsDistinct(s1: EvalStatus, s2: EvalStatus)
    requires s1 != Unrecognised && s2 != Unrecognised && s1 != s2
    ensures GetStatusText(s1) != GetStatusText(s2)
    ensures GetStatusColor(s1) != GetStatusColor(s2)
    ensures GetStatusText(Unrecognised) == GetStatusText(Pendiente)
    ensures GetStatusColor(Unrecognised) == GetStatusColor(Pendiente)
  {
  }
}
