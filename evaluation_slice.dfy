/**
 * The `evaluation` store slice (src/store/slices/evaluationSlice.ts): a list
 * of evaluation summaries with a loading flag and an error message, whose
 * reducers change the state in place.
 */
module EvaluationSlice {
  import opened Wrappers

  /** The slice's own status union: 'pending', 'in_progress', 'completed'. */
  datatype SummaryStatus = StatusPending | StatusInProgress | StatusCompleted

  /** One evaluation summary; `score` is optional. */
  datatype Summary = Summary(id: int, name: string, status: SummaryStatus, score: Option<int>)

  /**
   * `findIndex(e => e.id === id)`: the index of the first summary with that
   * id, or -1 when there is none.
   */
  function FindIndex(s: seq<Summary>, id: int): (r: int)
    ensures -1 <= r < |s|
    ensures r == -1 <==> forall i :: 0 <= i < |s| ==> s[i].id != id
    ensures r >= 0 ==> s[r].id == id && forall j :: 0 <= j < r ==> s[j].id != id
  {
    if s == [] then -1
    else if s[0].id == id then 0
    else
      var k := FindIndex(s[1..], id);
      assert forall i :: 1 <= i < |s| ==> s[i] == s[1..][i - 1];
      if k == -1 then -1 else k + 1
  }

  /** What `updateEvaluation` leaves in the list: the first summary with `e`'s id replaced by `e`. */
  function ReplaceFirst(s: seq<Summary>, e: Summary): seq<Summary> {
    var k := FindIndex(s, e.id);
    if k == -1 then s else s[k := e]
  }

  /** The replacement keeps the length and changes at most the first summary with `e`'s id, which becomes `e`. */
  lemma ReplaceFirstShape(s: seq<Summary>, e: Summary)
    ensures |ReplaceFirst(s, e)| == |s|
    ensures (forall i :: 0 <= i < |s| ==> s[i].id != e.id) ==> ReplaceFirst(s, e) == s
    ensures forall i :: 0 <= i < |s| && s[i].id == e.id && (forall j :: 0 <= j < i ==> s[j].id != e.id) ==>
              ReplaceFirst(s, e)[i] == e && forall j :: 0 <= j < |s| && j != i ==> ReplaceFirst(s, e)[j] == s[j]
  {
    forall i | 0 <= i < |s| && s[i].id == e.id && (forall j :: 0 <= j < i ==> s[j].id != e.id)
      ensures ReplaceFirst(s, e)[i] == e
    {
      var k := FindIndex(s, e.id);
      assert !(k < i) && !(i < k);
    }
  }

  /** The ids in the list, and so their order, never change. */
  lemma ReplaceFirstKeepsIds(s: seq<Summary>, e: Summary)
    ensures forall i :: 0 <= i < |s| ==> ReplaceFirst(s, e)[i].id == s[i].id
  {
  }

  /** Replacing with the same summary twice is replacing once. */
  lemma ReplaceFirstIdempotent(s: seq<Summary>, e: Summary)
    ensures ReplaceFirst(ReplaceFirst(s, e), e) == ReplaceFirst(s, e)
  {
    var k := FindIndex(s, e.id);
    if k != -1 {
      var t := s[k := e];
      var k2 := FindIndex(t, e.id);
      assert t[k].id == e.id;
      assert forall j :: 0 <= j < k ==> t[j].id != e.id;
      assert k2 != -1;
    }
  }

  /** The slice state, changed in place by the reducers. */
  class EvaluationState {
    var evaluations: seq<Summary>
    var loading: bool
    var error: Option<string>

    /** `initialState`: no summaries, not loading, no error. */
    constructor ()
      ensures evaluations == [] && !loading && error == None
    {
      evaluations := [];
      loading := false;
      error := None;
    }

    /** `setEvaluations`: the whole list is replaced. */
    method SetEvaluations(items: seq<Summary>)
      modifies this
      ensures evaluations == items
      ensures loading == old(loading) && error == old(error)
    {
      evaluations := items;
    }

    /** `addEvaluation`: the summary is pushed at the end. */
    method AddEvaluation(e: Summary)
      modifies this
      ensures evaluations == old(evaluations) + [e]
      ensures loading == old(loading) && error == old(error)
    {
      evaluations := evaluations + [e];
    }

    /**
     * `updateEvaluation`: scan for the first summary with `e`'s id and, if
     * one is found, overwrite it.
     */
    method UpdateEvaluation(e: Summary)
      modifies this
      ensures evaluations == ReplaceFirst(old(evaluations), e)
      ensures loading == old(loading) && error == old(error)
    {
      var index := 0;
      while index < |evaluations| && evaluations[index].id != e.id
        invariant 0 <= index <= |evaluations|
        invariant forall j :: 0 <= j < index ==> evaluations[j].id != e.id
      {
        index := index + 1;
      }
      if index < |evaluations| {
        evaluations := evaluations[index := e];
      }
    }

    /** `setLoading`. */
    method SetLoading(value: bool)
      modifies this
      ensures loading == value
      ensures evaluations == old(evaluations) && error == old(error)
    {
      loading := value;
    }

    /** `setError`; `None` clears the message. */
    method SetError(value: Option<string>)
      modifies this
      ensures error == value
      ensures evaluations == old(evaluations) && loading == old(loading)
    {
      error := value;
    }
  }
}
