/**
 * The per-criterion results of one evaluation
 * (src/components/Evaluacion/EvaluationResults.tsx): the evaluated
 * employee's self score and the mean of everybody else's scores. The
 * two-decimal display rounding is not modelled: the mean is an exact real.
 */
module EvaluationResults {
  import opened Wrappers
  import opened Domain

  /** One result line: the criterion's own fields, the peer mean and the self score. */
  datatype CriterionResult = CriterionResult(
    id: CriterionId, name: string, description: string, average: real, selfEvaluation: int)

  /** `responses[c] || 0`: the score for a criterion, 0 when missing. */
  function ScoreOf(scores: map<CriterionId, int>, c: CriterionId): (s: int)
    ensures c in scores ==> s == scores[c]
    ensures c !in scores ==> s == 0
  {
    if c in scores then scores[c] else 0
  }

  /** The first response submitted by `who`, as `find` returns it. */
  function FirstBy(responses: seq<ResponseRow>, who: Option<UserId>): (r: Option<ResponseRow>)
    ensures r.None? <==> forall i :: 0 <= i < |responses| ==> responses[i].participantId != who
    ensures r.Some? ==> exists i :: 0 <= i < |responses| && responses[i] == r.value
                          && r.value.participantId == who
                          && forall j :: 0 <= j < i ==> responses[j].participantId != who
  {
    if responses == [] then None
    else if responses[0].participantId == who then Some(responses[0])
    else
      var rest := FirstBy(responses[1..], who);
      assert forall i :: 1 <= i < |responses| ==> responses[i] == responses[1..][i - 1];
      if rest.Some? then
        ghost var i :| 0 <= i < |responses[1..]| && responses[1..][i] == rest.value
                       && rest.value.participantId == who
                       && forall j :: 0 <= j < i ==> responses[1..][j].participantId != who;
        assert responses[i + 1] == rest.value;
        assert forall j :: 0 <= j < i + 1 ==> responses[j].participantId != who by {
          forall j | 0 <= j < i + 1 ensures responses[j].participantId != who {
            if j > 0 { assert responses[j] == responses[1..][j - 1]; }
          }
        }
        rest
      else rest
  }

  /** The self score: the evaluated employee's first response for the criterion, or 0. */
  function SelfScore(responses: seq<ResponseRow>, evaluatedId: Option<UserId>, c: CriterionId): (s: int)
    ensures FirstBy(responses, evaluatedId).None? ==> s == 0
    ensures FirstBy(responses, evaluatedId).Some? ==> s == ScoreOf(FirstBy(responses, evaluatedId).value.scores, c)
  {
    match FirstBy(responses, evaluatedId)
    case None => 0
    case Some(r) => ScoreOf(r.scores, c)
  }

  /** A response contributes to the peer mean: not the evaluated employee's own, with a non-zero score for `c`. */
  predicate CountsAsPeer(r: ResponseRow, evaluatedId: Option<UserId>, c: CriterionId) {
    r.participantId != evaluatedId && c in r.scores && r.scores[c] != 0
  }

  /**
   * The peer scores for a criterion: from every response not submitted by
   * the evaluated employee, the score if present and non-zero, in order.
   */
  function PeerScores(responses: seq<ResponseRow>, evaluatedId: Option<UserId>, c: CriterionId): (r: seq<int>)
    ensures |r| <= |responses|
    ensures forall x :: x in r ==> x != 0
    ensures forall x :: x in r <==>
              exists i :: 0 <= i < |responses| && responses[i].participantId != evaluatedId
                        && c in responses[i].scores && responses[i].scores[c] == x && x != 0
  {
    if responses == [] then []
    else
      var init := responses[..|responses| - 1];
      var last := responses[|responses| - 1];
      assert forall i :: 0 <= i < |init| ==> init[i] == responses[i];
      PeerScores(init, evaluatedId, c) + (if CountsAsPeer(last, evaluatedId, c) then [last.scores[c]] else [])
  }

  function Sum(s: seq<int>): int {
    if s == [] then 0 else Sum(s[..|s| - 1]) + s[|s| - 1]
  }

  /** Every element of `s` lies in `lo..hi`. */
  predicate Within(s: seq<int>, lo: int, hi: int) {
    forall i :: 0 <= i < |s| ==> lo <= s[i] <= hi
  }

  /** A sum of values in `lo..hi` lies between `lo` and `hi` times the count. */
  lemma {:induction false} SumBounds(s: seq<int>, lo: int, hi: int)
    requires Within(s, lo, hi)
    ensures lo * |s| <= Sum(s) <= hi * |s|
  {
    if s != [] {
      var init := s[..|s| - 1];
      assert Within(init, lo, hi) by {
        assert forall i :: 0 <= i < |init| ==> init[i] == s[i];
      }
      SumBounds(init, lo, hi);
      assert lo * |s| == lo * |init| + lo && hi * |s| == hi * |init| + hi;
    }
  }

  /** The mean of the scores, 0 when there are none. */
  function Average(s: seq<int>): (a: real)
    ensures s == [] ==> a == 0.0
    ensures s != [] ==> a * (|s| as real) == Sum(s) as real
  {
    if |s| == 0 then 0.0 else (Sum(s) as real) / (|s| as real)
  }

  /** A non-empty mean lies between any lower and upper bound of its scores. */
  lemma AverageWithin(s: seq<int>, lo: int, hi: int)
    requires s != [] && Within(s, lo, hi)
    ensures lo as real <= Average(s) <= hi as real
  {
    SumBounds(s, lo, hi);
    var n := |s| as real;
    var a := Average(s);
    assert a * n == Sum(s) as real;
    assert (lo as real) * n <= a * n <= (hi as real) * n;
  }

  /** Every score a response carries lies on the slider's scale. */
  predicate ResponsesInScale(responses: seq<ResponseRow>) {
    forall i, k :: 0 <= i < |responses| && k in responses[i].scores ==> 1 <= responses[i].scores[k] <= 5
  }

  /** With scores from the slider the peer mean is 0 (no peers) or lies in 1..5. */
  lemma PeerAverageInScale(responses: seq<ResponseRow>, evaluatedId: Option<UserId>, c: CriterionId)
    requires ResponsesInScale(responses)
    ensures var a := Average(PeerScores(responses, evaluatedId, c));
      a == 0.0 || 1.0 <= a <= 5.0
  {
    var ps := PeerScores(responses, evaluatedId, c);
    if ps != [] {
      assert Within(ps, 1, 5) by {
        forall i | 0 <= i < |ps| ensures 1 <= ps[i] <= 5 {
          assert ps[i] in ps;
        }
      }
      AverageWithin(ps, 1, 5);
    }
  }

  /** The results: one line per loaded criterion, in the loaded order. */
  function AggregateResults(criteria: seq<Criterion>, responses: seq<ResponseRow>, evaluatedId: Option<UserId>)
    : (r: seq<CriterionResult>)
    ensures |r| == |criteria|
    ensures forall i :: 0 <= i < |criteria| ==>
              r[i].id == criteria[i].id && r[i].name == criteria[i].name && r[i].description == criteria[i].description
              && r[i].average == Average(PeerScores(responses, evaluatedId, criteria[i].id))
              && r[i].selfEvaluation == SelfScore(responses, evaluatedId, criteria[i].id)
  {
    seq(|criteria|, i requires 0 <= i < |criteria| =>
      var c := criteria[i];
      CriterionResult(c.id, c.name, c.description,
                      Average(PeerScores(responses, evaluatedId, c.id)), SelfScore(responses, evaluatedId, c.id)))
  }

  /**
   * A further response that does not count (the evaluated employee's own,
   * or one without a non-zero score for the criterion) changes no peer score.
   */
  lemma PeerResponseDropped(responses: seq<ResponseRow>, other: ResponseRow, evaluatedId: Option<UserId>, c: CriterionId)
    requires !CountsAsPeer(other, evaluatedId, c)
    ensures PeerScores(responses + [other], evaluatedId, c) == PeerScores(responses, evaluatedId, c)
  {
    assert (responses + [other])[..|responses|] == responses;
  }

  /**
   * The peer scores of two batches of responses are those of the first
   * followed by those of the second: with `PeerResponseCounted` and
   * `PeerResponseDropped` this fixes the order and the multiplicity of the
   * scores the mean divides by.
   */
  lemma {:induction false} PeerScoresAppend(a: seq<ResponseRow>, b: seq<ResponseRow>, evaluatedId: Option<UserId>, c: CriterionId)
    ensures PeerScores(a + b, evaluatedId, c) == PeerScores(a, evaluatedId, c) + PeerScores(b, evaluatedId, c)
    decreases |b|
  {
    if b == [] {
      assert a + b == a;
    } else {
      var init := b[..|b| - 1];
      var last := b[|b| - 1];
      assert (a + b)[..|a + b| - 1] == a + init && (a + b)[|a + b| - 1] == last;
      PeerScoresAppend(a, init, evaluatedId, c);
      var tail := if CountsAsPeer(last, evaluatedId, c) then [last.scores[c]] else [];
      assert PeerScores(a + b, evaluatedId, c) == PeerScores(a + init, evaluatedId, c) + tail;
      assert PeerScores(b, evaluatedId, c) == PeerScores(init, evaluatedId, c) + tail;
    }
  }

  /** A further response by the evaluated employee changes no self score once one exists: the first one counts. */
  lemma FirstSelfResponseCounts(responses: seq<ResponseRow>, own: ResponseRow, evaluatedId: Option<UserId>, c: CriterionId)
    requires FirstBy(responses, evaluatedId).Some?
    ensures SelfScore(responses + [own], evaluatedId, c) == SelfScore(responses, evaluatedId, c)
  {
    FirstByPrefix(responses, [own], evaluatedId);
  }

  lemma {:induction false} FirstByPrefix(a: seq<ResponseRow>, b: seq<ResponseRow>, who: Option<UserId>)
    requires FirstBy(a, who).Some?
    ensures FirstBy(a + b, who) == FirstBy(a, who)
  {
    assert (a + b)[0] == a[0];
    if a[0].participantId != who {
      assert (a + b)[1..] == a[1..] + b;
      FirstByPrefix(a[1..], b, who);
    }
  }

  /** Another participant's response adds its non-zero score at the end of the peer scores. */
  lemma PeerResponseCounted(responses: seq<ResponseRow>, other: ResponseRow, evaluatedId: Option<UserId>, c: CriterionId)
    requires CountsAsPeer(other, evaluatedId, c)
    ensures PeerScores(responses + [other], evaluatedId, c) == PeerScores(responses, evaluatedId, c) + [other.scores[c]]
  {
    assert (responses + [other])[..|responses|] == responses;
  }

  /** With no responses every line reads 0 for both scores. */
  lemma NoResponsesAllZero(criteria: seq<Criterion>, evaluatedId: Option<UserId>)
    ensures forall r :: r in AggregateResults(criteria, [], evaluatedId) ==> r.average == 0.0 && r.selfEvaluation == 0
  {
  }
}
