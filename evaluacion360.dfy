/**
 * The 360 participant screen (src/components/Evaluacion/Evaluacion360.tsx):
 * the merge of the loaded profiles with the marks stored in the evaluation's
 * participant list, the chip labels, the start-button rule and the route to
 * the rating form with its `evaluated` query parameter.
 */
module Evaluacion360 {
  import opened Wrappers
  import opened Domain

  /** A `profiles` row as this screen selects it. */
  datatype Profile = Profile(id: UserId, fullName: string, email: string, department: string)

  /** One table row: the profile fields and the two marks. */
  datatype MergedParticipant = MergedParticipant(
    id: UserId, fullName: string, email: string, department: string, status: Mark, evaluated: Mark)

  /** `participantIds.find(p => p.id === id)`: the first stored entry for `id`. */
  function FindParticipant(ps: seq<Participant>, id: UserId): (r: Option<Participant>)
    ensures r.None? <==> forall i :: 0 <= i < |ps| ==> ps[i].id != id
    ensures r.Some? ==> exists i :: 0 <= i < |ps| && ps[i] == r.value && r.value.id == id
                           && forall j :: 0 <= j < i ==> ps[j].id != id
  {
    if ps == [] then None
    else if ps[0].id == id then Some(ps[0])
    else
      var rest := FindParticipant(ps[1..], id);
      assert forall i :: 1 <= i < |ps| ==> ps[i] == ps[1..][i - 1];
      if rest.Some? then
        ghost var i :| 0 <= i < |ps[1..]| && ps[1..][i] == rest.value && rest.value.id == id
                       && forall j :: 0 <= j < i ==> ps[1..][j].id != id;
        assert ps[i + 1] == rest.value;
        assert forall j :: 0 <= j < i + 1 ==> ps[j].id != id by {
          forall j | 0 <= j < i + 1 ensures ps[j].id != id {
            if j > 0 { assert ps[j] == ps[1..][j - 1]; }
          }
        }
        rest
      else rest
  }

  /** The stored rater mark of `id`, or 'pendiente' when there is no entry. */
  function StatusOf(ps: seq<Participant>, id: UserId): (m: Mark)
    ensures FindParticipant(ps, id).Some? ==> m == FindParticipant(ps, id).value.status
    ensures FindParticipant(ps, id).None? ==> m == Pending
  {
    match FindParticipant(ps, id)
    case Some(p) => p.status
    case None => Pending
  }

  /** The stored subject mark of `id`, or 'pendiente' when the entry or its `evaluated` is missing. */
  function EvaluatedOf(ps: seq<Participant>, id: UserId): (m: Mark)
    ensures FindParticipant(ps, id).Some? && FindParticipant(ps, id).value.evaluated.Some? ==>
              m == FindParticipant(ps, id).value.evaluated.value
    ensures FindParticipant(ps, id).None? || FindParticipant(ps, id).value.evaluated.None? ==> m == Pending
  {
    match FindParticipant(ps, id)
    case Some(p) => p.evaluated.GetOr(Pending)
    case None => Pending
  }

  /** One profile combined with its stored marks. */
  function MergeOne(profile: Profile, ps: seq<Participant>): (m: MergedParticipant)
    ensures m.id == profile.id && m.fullName == profile.fullName
    ensures m.email == profile.email && m.department == profile.department
    ensures m.status == StatusOf(ps, profile.id) && m.evaluated == EvaluatedOf(ps, profile.id)
  {
    MergedParticipant(profile.id, profile.fullName, profile.email, profile.department,
                      StatusOf(ps, profile.id), EvaluatedOf(ps, profile.id))
  }

  /** `participantsData.map(...)`: one merged row per returned profile, in the order returned. */
  function MergeParticipants(profiles: seq<Profile>, ps: seq<Participant>): (r: seq<MergedParticipant>)
    ensures |r| == |profiles|
    ensures forall i :: 0 <= i < |profiles| ==> r[i] == MergeOne(profiles[i], ps)
  {
    seq(|profiles|, i requires 0 <= i < |profiles| => MergeOne(profiles[i], ps))
  }

  /** A profile with a stored entry shows exactly that entry's marks, a missing `evaluated` read as pending. */
  lemma MergeShowsStoredMarks(profiles: seq<Profile>, ps: seq<Participant>, i: nat, k: nat)
    requires i < |profiles| && k < |ps| && ps[k].id == profiles[i].id
    requires forall j :: 0 <= j < k ==> ps[j].id != profiles[i].id
    ensures MergeParticipants(profiles, ps)[i].status == ps[k].status
    ensures MergeParticipants(profiles, ps)[i].evaluated == ps[k].evaluated.GetOr(Pending)
  {
    var f := FindParticipant(ps, profiles[i].id);
    ghost var n :| 0 <= n < |ps| && ps[n] == f.value && f.value.id == profiles[i].id
                   && forall j :: 0 <= j < n ==> ps[j].id != profiles[i].id;
    assert !(n < k) && !(k < n);
  }

  /** A profile without a stored entry shows both marks as pending. */
  lemma MergeDefaultsMissing(profiles: seq<Profile>, ps: seq<Participant>, i: nat)
    requires i < |profiles| && forall k :: 0 <= k < |ps| ==> ps[k].id != profiles[i].id
    ensures MergeParticipants(profiles, ps)[i].status == Pending
    ensures MergeParticipants(profiles, ps)[i].evaluated == Pending
  {
  }

  /** The chip colours. */
  datatype ChipColor = Success | Warning | Default

  /** `getStatusColor` of this screen. */
  function MarkColor(m: Mark): (c: ChipColor)
    ensures c == Success <==> m == Done
    ensures c == Warning <==> m == InProgress
    ensures c == Default <==> m == Pending
  {
    match m
    case Done => Success
    case InProgress => Warning
    case Pending => Default
  }

  /** `getStatusText` of this screen. */
  function MarkText(m: Mark): (t: string)
    ensures m == Done ==> t == "Completado"
    ensures m == InProgress ==> t == "En Progreso"
    ensures m == Pending ==> t == "Pendiente"
  {
    match m
    case Done => "Completado"
    case InProgress => "En Progreso"
    case Pending => "Pendiente"
  }

  /** The chip's colour and text identify the mark: neither map sends two marks to one value. */
  lemma MarkLabelsInjective(a: Mark, b: Mark)
    ensures MarkColor(a) == MarkColor(b) <==> a == b
    ensures MarkText(a) == MarkText(b) <==> a == b
  {
  }

  /** "Iniciar Evaluación" is offered for every participant not yet rated as a subject. */
  predicate OffersStart(p: MergedParticipant) {
    p.evaluated != Done
  }

  /** The rows that offer the start button: exactly the ones whose subject mark is not done. */
  function StartableIds(rows: seq<MergedParticipant>): (r: seq<UserId>)
    ensures |r| <= |rows|
    ensures forall x :: x in r <==> exists i :: 0 <= i < |rows| && rows[i].id == x && rows[i].evaluated != Done
  {
    if rows == [] then []
    else
      var rest := StartableIds(rows[1..]);
      assert forall i :: 1 <= i < |rows| ==> rows[i] == rows[1..][i - 1];
      (if OffersStart(rows[0]) then [rows[0].id] else []) + rest
  }

  // ------------------------------------------------------------- the route

  /** The path of the rating form, before the evaluation id. */
  const RealizarPrefix := "/realizar-evaluacion/"

  /** The query field that names the subject being rated. */
  const EvaluatedKey := "evaluated="

  /** `handleIniciarEvaluacion`: the rating form of evaluation `evalId`, for subject `participantId`. */
  function RealizarRoute(evalId: EvaluationId, participantId: UserId): string {
    RealizarPrefix + evalId + "?" + EvaluatedKey + participantId
  }

  /** The index of the first occurrence of `c` in `s`, if any. */
  function IndexOf(s: string, c: char): (r: Option<nat>)
    ensures r.None? <==> c !in s
    ensures r.Some? ==> r.value < |s| && s[r.value] == c && c !in s[..r.value]
  {
    if s == [] then None
    else if s[0] == c then Some(0)
    else
      match IndexOf(s[1..], c)
      case None => None
      case Some(k) =>
        assert s[..k + 1] == [s[0]] + s[1..][..k];
        Some(k + 1)
  }

  /** The first `c` of `a + b` is the head of `b` when `a` has none. */
  lemma {:induction false} IndexOfAfter(a: string, b: string, c: char)
    requires c !in a && b != [] && b[0] == c
    ensures IndexOf(a + b, c) == Some(|a|)
  {
    if a == [] {
      assert a + b == b;
    } else {
      assert (a + b)[1..] == a[1..] + b;
      IndexOfAfter(a[1..], b, c);
    }
  }

  /** The text before the first `c`, or all of `s`. */
  function TakeUntil(s: string, c: char): (r: string)
    ensures r <= s && c !in r
    ensures c !in s ==> r == s
  {
    match IndexOf(s, c)
    case None => s
    case Some(k) => s[..k]
  }

  /** The value of a query that starts with the field `key`: the text after it up to the next '&'. */
  function FieldValue(query: string, key: string): (r: Option<string>)
    ensures r.Some? <==> key <= query
  {
    if |query| >= |key| && query[..|key|] == key then Some(TakeUntil(query[|key|..], '&')) else None
  }

  /** A field followed by a value without '&' reads back as that value. */
  lemma FieldValueOf(key: string, value: string)
    requires '&' !in value
    ensures FieldValue(key + value, key) == Some(value)
  {
    assert (key + value)[..|key|] == key;
    assert (key + value)[|key|..] == value;
  }

  /**
   * The `evaluated` query parameter as the rating form reads it: the query
   * starts after the first '?', and a leading `evaluated=` field gives its
   * value up to the next '&'. Query strings are taken verbatim (no
   * percent-decoding; the ids are uuids).
   */
  function EvaluatedParam(path: string): (r: Option<string>)
    ensures '?' !in path ==> r.None?
  {
    match IndexOf(path, '?')
    case None => None
    case Some(k) =>
      FieldValue(path[k + 1..], EvaluatedKey)
  }

  /** The route round-trips: the form reads back the participant chosen in the table. */
  lemma RouteCarriesParticipant(evalId: EvaluationId, participantId: UserId)
    requires '?' !in evalId && '&' !in participantId
    ensures EvaluatedParam(RealizarRoute(evalId, participantId)) == Some(participantId)
  {
    var prefix := RealizarPrefix + evalId;
    var rest := EvaluatedKey + participantId;
    var path := RealizarRoute(evalId, participantId);
    assert path == prefix + (['?'] + rest);
    PrefixHasNoQuery(evalId);
    IndexOfAfter(prefix, ['?'] + rest, '?');
    assert path[|prefix| + 1..] == rest;
    FieldValueOf(EvaluatedKey, participantId);
  }

  /** The route's path part holds no '?' while the evaluation id holds none. */
  lemma PrefixHasNoQuery(evalId: EvaluationId)
    requires '?' !in evalId
    ensures '?' !in RealizarPrefix + evalId
  {
    assert '?' !in RealizarPrefix;
  }
}
