/**
 * The two tables the evaluation lifecycle reads and writes, `evaluations`
 * and `evaluation_responses`, as a store object whose methods are the
 * client's `insert`, `update(...).eq('id', id)` and `.single()` calls.
 * Every call succeeds except where noted: the network and database errors
 * of the client library are outside the model.
 */
module Datastore {
  import opened Wrappers
  import opened Domain

  /** The columns an `update` sets; `None` leaves the column as it is. */
  datatype Patch = Patch(
    participants: Option<seq<Participant>>,
    status: Option<EvalStatus>,
    startDate: Option<Option<Timestamp>>)

  /** A row with the patched columns replaced and every other column kept. */
  function ApplyPatch(row: EvaluationRow, p: Patch): (r: EvaluationRow)
    ensures r.id == row.id && r.evaluationType == row.evaluationType && r.title == row.title
    ensures r.endDate == row.endDate && r.evaluatedId == row.evaluatedId && r.criteria == row.criteria
    ensures p.participants.None? ==> r.participants == row.participants
    ensures p.participants.Some? ==> r.participants == p.participants.value
    ensures p.status.None? ==> r.status == row.status
    ensures p.status.Some? ==> r.status == p.status.value
    ensures p.startDate.None? ==> r.startDate == row.startDate
    ensures p.startDate.Some? ==> r.startDate == p.startDate.value
  {
    row.(participants := p.participants.GetOr(row.participants),
         status := p.status.GetOr(row.status),
         startDate := p.startDate.GetOr(row.startDate))
  }

  /** `update(patch).eq('id', id)`: every row with that id is patched, the others are untouched. */
  function UpdateWhere(rows: seq<EvaluationRow>, id: EvaluationId, p: Patch): (r: seq<EvaluationRow>)
    ensures |r| == |rows|
    ensures forall i :: 0 <= i < |rows| && rows[i].id != id ==> r[i] == rows[i]
    ensures forall i :: 0 <= i < |rows| && rows[i].id == id ==> r[i] == ApplyPatch(rows[i], p)
  {
    if rows == [] then []
    else [if rows[0].id == id then ApplyPatch(rows[0], p) else rows[0]] + UpdateWhere(rows[1..], id, p)
  }

  /** No two rows share a primary key. */
  predicate UniqueIds(rows: seq<EvaluationRow>) {
    forall i, j :: 0 <= i < j < |rows| ==> rows[i].id != rows[j].id
  }

  /** Some row has this primary key. */
  predicate HasId(rows: seq<EvaluationRow>, id: EvaluationId) {
    exists i :: 0 <= i < |rows| && rows[i].id == id
  }

  /** An update keeps every primary key where it was, so keys stay unique. */
  lemma UpdateWhereKeepsIds(rows: seq<EvaluationRow>, id: EvaluationId, p: Patch)
    ensures forall i :: 0 <= i < |rows| ==> UpdateWhere(rows, id, p)[i].id == rows[i].id
    ensures UniqueIds(rows) ==> UniqueIds(UpdateWhere(rows, id, p))
  {
  }

  /** An update that matches no row changes nothing. */
  lemma UpdateWhereMissing(rows: seq<EvaluationRow>, id: EvaluationId, p: Patch)
    requires !HasId(rows, id)
    ensures UpdateWhere(rows, id, p) == rows
  {
  }

  /** The number of rows with this primary key. */
  function CountWithId(rows: seq<EvaluationRow>, id: EvaluationId): (n: nat)
    ensures n <= |rows|
    ensures n == 0 <==> !HasId(rows, id)
  {
    if rows == [] then 0
    else
      var rest := CountWithId(rows[1..], id);
      assert HasId(rows, id) <==> rows[0].id == id || HasId(rows[1..], id) by {
        if HasId(rows[1..], id) {
          var i :| 0 <= i < |rows[1..]| && rows[1..][i].id == id;
          assert rows[i + 1].id == id;
        }
        if HasId(rows, id) && rows[0].id != id {
          var i :| 0 <= i < |rows| && rows[i].id == id;
          assert rows[1..][i - 1].id == id;
        }
      }
      (if rows[0].id == id then 1 else 0) + rest
  }

  /** The first row with this primary key, if any. */
  function FirstWithId(rows: seq<EvaluationRow>, id: EvaluationId): (r: Option<EvaluationRow>)
    ensures r.Some? <==> HasId(rows, id)
    ensures r.Some? ==> r.value in rows && r.value.id == id
  {
    if rows == [] then None
    else if rows[0].id == id then Some(rows[0])
    else
      assert HasId(rows, id) ==> HasId(rows[1..], id) by {
        if HasId(rows, id) {
          var i :| 0 <= i < |rows| && rows[i].id == id;
          assert rows[1..][i - 1].id == id;
        }
      }
      FirstWithId(rows[1..], id)
  }

  /**
   * `select(...).eq('id', id).single()`: the row when exactly one row
   * matches; otherwise the client reports an error and `data` is null.
   */
  function SelectSingle(rows: seq<EvaluationRow>, id: EvaluationId): (r: Option<EvaluationRow>)
    ensures r.Some? <==> CountWithId(rows, id) == 1
    ensures r.Some? ==> r.value in rows && r.value.id == id
  {
    if CountWithId(rows, id) == 1 then FirstWithId(rows, id) else None
  }

  /** With unique keys at most one row matches an id. */
  lemma {:induction false} UniqueCountAtMostOne(rows: seq<EvaluationRow>, id: EvaluationId)
    requires UniqueIds(rows)
    ensures CountWithId(rows, id) <= 1
  {
    if rows != [] {
      assert UniqueIds(rows[1..]) by {
        forall i, j | 0 <= i < j < |rows| - 1 ensures rows[1..][i].id != rows[1..][j].id {
          assert rows[1..][i] == rows[i + 1] && rows[1..][j] == rows[j + 1];
        }
      }
      UniqueCountAtMostOne(rows[1..], id);
      if rows[0].id == id {
        assert !HasId(rows[1..], id) by {
          forall i | 0 <= i < |rows| - 1 ensures rows[1..][i].id != id {
            assert rows[1..][i] == rows[i + 1];
          }
        }
      }
    }
  }

  /** With unique keys `.single()` finds a row exactly when the key is present. */
  lemma SelectSingleUnique(rows: seq<EvaluationRow>, id: EvaluationId)
    requires UniqueIds(rows)
    ensures SelectSingle(rows, id).Some? <==> HasId(rows, id)
  {
    UniqueCountAtMostOne(rows, id);
  }

  /** The two tables. `evaluations` is kept newest first, the order `getEvaluations` reads it in. */
  class Store {
    var evaluations: seq<EvaluationRow>
    var responses: seq<ResponseRow>

    /** The primary key of `evaluations` holds. */
    ghost predicate Valid()
      reads this
    {
      UniqueIds(evaluations)
    }

    /** Empty tables. */
    constructor ()
      ensures Valid()
      ensures evaluations == [] && responses == []
    {
      evaluations := [];
      responses := [];
    }

    /** `update(patch).eq('id', id)` on `evaluations`. */
    method Update(id: EvaluationId, p: Patch)
      requires Valid()
      modifies this
      ensures Valid()
      ensures evaluations == UpdateWhere(old(evaluations), id, p)
      ensures responses == old(responses)
    {
      UpdateWhereKeepsIds(evaluations, id, p);
      evaluations := UpdateWhere(evaluations, id, p);
    }

    /** `insert` into `evaluation_responses`, which has no key the model checks. */
    method InsertResponse(r: ResponseRow)
      modifies this
      ensures evaluations == old(evaluations)
      ensures responses == old(responses) + [r]
    {
      responses := responses + [r];
    }

    /**
     * `insert` into `evaluations`: refused when the primary key is taken,
     * otherwise the row becomes the newest.
     */
    method InsertEvaluation(row: EvaluationRow) returns (ok: bool)
      requires Valid()
      modifies this
      ensures Valid()
      ensures ok <==> !HasId(old(evaluations), row.id)
      ensures ok ==> evaluations == [row] + old(evaluations)
      ensures !ok ==> evaluations == old(evaluations)
      ensures responses == old(responses)
    {
      if CountWithId(evaluations, row.id) != 0 {
        return false;
      }
      evaluations := [row] + evaluations;
      ok := true;
      forall i, j | 0 <= i < j < |evaluations| ensures evaluations[i].id != evaluations[j].id {
        if i == 0 {
          assert old(evaluations)[j - 1].id == evaluations[j].id;
        } else {
          assert old(evaluations)[i - 1] == evaluations[i] && old(evaluations)[j - 1] == evaluations[j];
        }
      }
    }
  }
}
