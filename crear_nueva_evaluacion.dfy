/**
 * Creating an evaluation (src/components/CrearNuevaEvaluacion.tsx): the
 * subordinate lookups over `parent_id`, the participant pre-selection, the
 * selection rule that keeps the evaluated employee selected, validation and
 * construction of the new row, and the user table's filter, sort and pages.
 */
module CrearNuevaEvaluacion {
  import opened Wrappers
  import opened Domain
  import opened Text
  import opened Collections
  import opened EvaluationUtils
  import opened Datastore

  /** A `profiles` row as the screen loads it. */
  datatype Usuario = Usuario(
    id: UserId, fullName: string, email: string, department: Option<string>, parentId: Option<UserId>)

  /** The ids of the users, in order. */
  function Ids(us: seq<Usuario>): (r: seq<UserId>)
    ensures |r| == |us|
    ensures forall i :: 0 <= i < |us| ==> r[i] == us[i].id
  {
    seq(|us|, i requires 0 <= i < |us| => us[i].id)
  }

  // ---------------------------------------------------------- subordinates

  /** `users.filter(user => user.parent_id === userId)`. */
  function Directs(userId: UserId, users: seq<Usuario>): (r: seq<Usuario>)
    ensures |r| <= |users|
  {
    if users == [] then []
    else
      var init := users[..|users| - 1];
      var last := users[|users| - 1];
      Directs(userId, init) + (if last.parentId == Some(userId) then [last] else [])
  }

  /** The filter keeps exactly the users whose parent is `userId`. */
  lemma {:induction false} DirectsMembers(userId: UserId, users: seq<Usuario>)
    ensures forall u :: u in Directs(userId, users) <==> u in users && u.parentId == Some(userId)
  {
    if users != [] {
      var init := users[..|users| - 1];
      DirectsMembers(userId, init);
      assert users == init + [users[|users| - 1]];
    }
  }

  /** The filter keeps the input order: it distributes over concatenation. */
  lemma {:induction false} DirectsAppend(userId: UserId, a: seq<Usuario>, b: seq<Usuario>)
    ensures Directs(userId, a + b) == Directs(userId, a) + Directs(userId, b)
    decreases |b|
  {
    if b == [] {
      assert a + b == a;
    } else {
      var binit := b[..|b| - 1];
      assert (a + b)[..|a + b| - 1] == a + binit;
      DirectsAppend(userId, a, binit);
    }
  }

  /** `obtenerSubordinadosDirectos`: the ids of the users whose parent is `userId`, in input order. */
  function ObtenerSubordinadosDirectos(userId: UserId, users: seq<Usuario>): (r: seq<UserId>)
    ensures |r| <= |users|
    ensures forall x :: x in r <==> exists u :: u in users && u.parentId == Some(userId) && u.id == x
  {
    var ds := Directs(userId, users);
    DirectsMembers(userId, users);
    assert forall x :: x in Ids(ds) ==> exists i :: 0 <= i < |ds| && ds[i].id == x;
    Ids(ds)
  }

  /** A user list is acyclic along `parent_id` when some rank drops from every parent to its children. */
  ghost predicate Ranked(users: seq<Usuario>, rank: UserId -> nat) {
    forall i :: 0 <= i < |users| && users[i].parentId.Some? ==> rank(users[i].id) < rank(users[i].parentId.value)
  }

  /** Every user of `ds` ranks below `parent`. */
  ghost predicate RankBelow(ds: seq<Usuario>, rank: UserId -> nat, parent: UserId) {
    forall i :: 0 <= i < |ds| ==> rank(ds[i].id) < rank(parent)
  }

  /** The direct subordinates rank below their parent. */
  lemma DirectsRankBelow(userId: UserId, users: seq<Usuario>, rank: UserId -> nat)
    requires Ranked(users, rank)
    ensures RankBelow(Directs(userId, users), rank, userId)
  {
    var ds := Directs(userId, users);
    DirectsMembers(userId, users);
    forall i | 0 <= i < |ds| ensures rank(ds[i].id) < rank(userId) {
      assert ds[i] in ds;
      var j :| 0 <= j < |users| && users[j] == ds[i];
    }
  }

  /**
   * The result of `obtenerTodosLosSubordinados`: the direct subordinates'
   * ids, followed by each direct subordinate's own result in turn.
   */
  ghost function AllSubordinates(userId: UserId, users: seq<Usuario>, rank: UserId -> nat): seq<UserId>
    requires Ranked(users, rank)
    decreases rank(userId), 1
  {
    var ds := Directs(userId, users);
    DirectsRankBelow(userId, users, rank);
    Ids(ds) + Descend(userId, ds, |ds|, users, rank)
  }

  /** The concatenated results of the first `k` subordinates `ds` of `parent`. */
  ghost function Descend(parent: UserId, ds: seq<Usuario>, k: nat, users: seq<Usuario>, rank: UserId -> nat): seq<UserId>
    requires Ranked(users, rank) && RankBelow(ds, rank, parent) && k <= |ds|
    decreases rank(parent), 0, k
  {
    if k == 0 then []
    else Descend(parent, ds, k - 1, users, rank) + AllSubordinates(ds[k - 1].id, users, rank)
  }

  /** `x` is below `u` in the hierarchy: a child of `u`, or below a child of `u`. */
  ghost predicate Descendant(users: seq<Usuario>, rank: UserId -> nat, u: UserId, x: UserId)
    requires Ranked(users, rank)
    decreases rank(u)
  {
    exists d :: d in users && d.parentId == Some(u) && (d.id == x || Descendant(users, rank, d.id, x))
  }

  /**
   * `obtenerTodosLosSubordinados`: the direct subordinates' ids, then, for
   * each direct subordinate in turn, its own subordinates appended to the
   * accumulator. The ghost `rank` witnesses that the hierarchy is acyclic.
   */
  method ObtenerTodosLosSubordinados(userId: UserId, users: seq<Usuario>, ghost rank: UserId -> nat)
    returns (r: seq<UserId>)
    requires Ranked(users, rank)
    ensures r == AllSubordinates(userId, users, rank)
    decreases rank(userId)
  {
    var directs := Directs(userId, users);
    AllSubordinatesUnfold(userId, users, rank);
    r := Ids(directs);
    ghost var head := r;
    assert r == head + Descend(userId, directs, 0, users, rank);
    for k := 0 to |directs|
      invariant r == head + Descend(userId, directs, k, users, rank)
    {
      var d := directs[k];
      assert rank(d.id) < rank(userId);
      var below := ObtenerTodosLosSubordinados(d.id, users, rank);
      DescendStep(userId, directs, k, users, rank, head, r, below);
      r := r + below;
    }
  }

  /** One loop step: appending the next subordinate's result extends the accumulated list by one more result. */
  lemma DescendStep(parent: UserId, ds: seq<Usuario>, k: nat, users: seq<Usuario>, rank: UserId -> nat,
                    head: seq<UserId>, acc: seq<UserId>, below: seq<UserId>)
    requires Ranked(users, rank) && RankBelow(ds, rank, parent) && k < |ds|
    requires acc == head + Descend(parent, ds, k, users, rank) && below == AllSubordinates(ds[k].id, users, rank)
    ensures acc + below == head + Descend(parent, ds, k + 1, users, rank)
  {
    assert Descend(parent, ds, k + 1, users, rank) == Descend(parent, ds, k, users, rank) + below;
    ConcatAssoc(head, Descend(parent, ds, k, users, rank), below);
  }

  lemma ConcatAssoc<T>(a: seq<T>, b: seq<T>, c: seq<T>)
    ensures (a + b) + c == a + (b + c)
  {
  }

  /** The full list is the direct ids followed by every direct subordinate's result. */
  lemma AllSubordinatesUnfold(userId: UserId, users: seq<Usuario>, rank: UserId -> nat)
    requires Ranked(users, rank)
    ensures RankBelow(Directs(userId, users), rank, userId)
    ensures AllSubordinates(userId, users, rank) ==
              Ids(Directs(userId, users)) + Descend(userId, Directs(userId, users), |Directs(userId, users)|, users, rank)
  {
    DirectsRankBelow(userId, users, rank);
  }

  /** An id in `Descend` comes from the result of one of the first `k` subordinates. */
  lemma {:induction false} DescendWitness(parent: UserId, ds: seq<Usuario>, k: nat, users: seq<Usuario>,
                                          rank: UserId -> nat, x: UserId) returns (i: nat)
    requires Ranked(users, rank) && RankBelow(ds, rank, parent) && k <= |ds|
    requires x in Descend(parent, ds, k, users, rank)
    ensures i < k && x in AllSubordinates(ds[i].id, users, rank)
  {
    var last := AllSubordinates(ds[k - 1].id, users, rank);
    if x in last {
      i := k - 1;
    } else {
      i := DescendWitness(parent, ds, k - 1, users, rank, x);
    }
  }

  /** The result of each of the first `k` subordinates is inside `Descend`. */
  lemma {:induction false} DescendIncludes(parent: UserId, ds: seq<Usuario>, k: nat, users: seq<Usuario>,
                                           rank: UserId -> nat, i: nat, x: UserId)
    requires Ranked(users, rank) && RankBelow(ds, rank, parent) && i < k <= |ds|
    requires x in AllSubordinates(ds[i].id, users, rank)
    ensures x in Descend(parent, ds, k, users, rank)
  {
    var prev := Descend(parent, ds, k - 1, users, rank);
    assert Descend(parent, ds, k, users, rank) == prev + AllSubordinates(ds[k - 1].id, users, rank);
    if i < k - 1 {
      DescendIncludes(parent, ds, k - 1, users, rank, i, x);
    }
  }

  /** Every id in the full subordinate list is below `userId`. */
  lemma {:induction false} AllSubordinatesSound(userId: UserId, users: seq<Usuario>,
                                                rank: UserId -> nat, x: UserId)
    requires Ranked(users, rank) && x in AllSubordinates(userId, users, rank)
    ensures Descendant(users, rank, userId, x)
    decreases rank(userId)
  {
    var ds := Directs(userId, users);
    DirectsMembers(userId, users);
    DirectsRankBelow(userId, users, rank);
    if x in Ids(ds) {
      var i :| 0 <= i < |ds| && Ids(ds)[i] == x;
      assert ds[i] in ds;
    } else {
      var i := DescendWitness(userId, ds, |ds|, users, rank, x);
      assert ds[i] in ds;
      AllSubordinatesSound(ds[i].id, users, rank, x);
    }
  }

  /** Every id below `userId` is in the full subordinate list. */
  lemma {:induction false} AllSubordinatesComplete(userId: UserId, users: seq<Usuario>,
                                                   rank: UserId -> nat, x: UserId)
    requires Ranked(users, rank) && Descendant(users, rank, userId, x)
    ensures x in AllSubordinates(userId, users, rank)
    decreases rank(userId)
  {
    var ds := Directs(userId, users);
    DirectsMembers(userId, users);
    DirectsRankBelow(userId, users, rank);
    var d :| d in users && d.parentId == Some(userId) && (d.id == x || Descendant(users, rank, d.id, x));
    assert d in ds;
    var i :| 0 <= i < |ds| && ds[i] == d;
    if d.id == x {
      assert Ids(ds)[i] == x;
    } else {
      AllSubordinatesComplete(d.id, users, rank, x);
      DescendIncludes(userId, ds, |ds|, users, rank, i, x);
    }
  }

  /** The full subordinate list holds exactly the users below `userId`. */
  lemma AllSubordinatesAreDescendants(userId: UserId, users: seq<Usuario>, rank: UserId -> nat, x: UserId)
    requires Ranked(users, rank)
    ensures x in AllSubordinates(userId, users, rank) <==> Descendant(users, rank, userId, x)
  {
    if x in AllSubordinates(userId, users, rank) {
      AllSubordinatesSound(userId, users, rank, x);
    }
    if Descendant(users, rank, userId, x) {
      AllSubordinatesComplete(userId, users, rank, x);
    }
  }

  /** Everything below `u` ranks below `u`. */
  lemma {:induction false} DescendantRanksBelow(users: seq<Usuario>, rank: UserId -> nat, u: UserId, x: UserId)
    requires Ranked(users, rank) && Descendant(users, rank, u, x)
    ensures rank(x) < rank(u)
    decreases rank(u)
  {
    var d :| d in users && d.parentId == Some(u) && (d.id == x || Descendant(users, rank, d.id, x));
    var i :| 0 <= i < |users| && users[i] == d;
    if d.id != x {
      DescendantRanksBelow(users, rank, d.id, x);
    }
  }

  /** The full list starts with the direct subordinates and never contains the starting user. */
  lemma AllSubordinatesShape(userId: UserId, users: seq<Usuario>, rank: UserId -> nat)
    requires Ranked(users, rank)
    ensures ObtenerSubordinadosDirectos(userId, users) <= AllSubordinates(userId, users, rank)
    ensures userId !in AllSubordinates(userId, users, rank)
  {
    AllSubordinatesAreDescendants(userId, users, rank, userId);
    if Descendant(users, rank, userId, userId) {
      DescendantRanksBelow(users, rank, userId, userId);
    }
  }

  // ---------------------------------------------------------- pre-selection

  /** The selected participant ids, in insertion order, and the ids that may not be deselected. */
  datatype Preselection = Preselection(selection: seq<UserId>, mandatory: set<UserId>)

  /** What the pre-selection effect sets: the employee, then the subordinates the type calls for. */
  ghost function PreselectionFor(employee: UserId, t: EvaluationType, users: seq<Usuario>, rank: UserId -> nat)
    : Preselection
    requires Ranked(users, rank)
  {
    var subs := if t == T360 then AllSubordinates(employee, users, rank)
                else if t == Simple then ObtenerSubordinadosDirectos(employee, users)
                else [];
    var ids := [employee] + subs;
    Preselection(Dedup(ids), set x | x in ids)
  }

  /**
   * The pre-selection effect: nothing happens until both the employee and
   * the type are chosen; then the employee and the subordinates are
   * selected and made mandatory.
   */
  method PreselectParticipants(employee: UserId, tipo: Option<EvaluationType>, users: seq<Usuario>,
                               ghost rank: UserId -> nat) returns (p: Option<Preselection>)
    requires Ranked(users, rank)
    ensures p.None? <==> employee == "" || tipo.None?
    ensures p.Some? ==> p.value == PreselectionFor(employee, tipo.value, users, rank)
  {
    if employee == "" || tipo.None? {
      return None;
    }
    var ids := [employee];
    if tipo.value == T360 {
      var all := ObtenerTodosLosSubordinados(employee, users, rank);
      ids := ids + all;
    } else if tipo.value == Simple {
      ids := ids + ObtenerSubordinadosDirectos(employee, users);
    }
    p := Some(Preselection(Dedup(ids), set x | x in ids));
  }

  /** The employee comes first, nobody twice, and the mandatory set is the selection. */
  lemma PreselectionShape(employee: UserId, t: EvaluationType, users: seq<Usuario>, rank: UserId -> nat)
    requires Ranked(users, rank)
    ensures var p := PreselectionFor(employee, t, users, rank);
      |p.selection| > 0 && p.selection[0] == employee && NoDup(p.selection)
      && forall x :: x in p.mandatory <==> x in p.selection
  {
  }

  /** For 360 the selection is the employee and everybody below them. */
  lemma Preselection360(employee: UserId, users: seq<Usuario>, rank: UserId -> nat, x: UserId)
    requires Ranked(users, rank)
    ensures x in PreselectionFor(employee, T360, users, rank).selection
            <==> x == employee || Descendant(users, rank, employee, x)
  {
    AllSubordinatesAreDescendants(employee, users, rank, x);
  }

  /** For a simple evaluation the selection is the employee and their direct reports. */
  lemma PreselectionSimple(employee: UserId, users: seq<Usuario>, rank: UserId -> nat, x: UserId)
    requires Ranked(users, rank)
    ensures x in PreselectionFor(employee, Simple, users, rank).selection
            <==> x == employee || exists u :: u in users && u.parentId == Some(employee) && u.id == x
  {
  }

  /** Any other type selects the employee alone. */
  lemma PreselectionOtherTypes(employee: UserId, t: EvaluationType, users: seq<Usuario>, rank: UserId -> nat)
    requires Ranked(users, rank) && t != T360 && t != Simple
    ensures PreselectionFor(employee, t, users, rank).selection == [employee]
  {
    assert Dedup([employee]) == [employee] by {
      assert [employee][..0] == [];
    }
  }

  /**
   * `handleSelectionChange`: the table's new selection, with the employee
   * added back once one is chosen.
   */
  function HandleSelectionChange(employee: UserId, selection: seq<UserId>): (r: seq<UserId>)
    ensures employee != "" ==> employee in r && forall y :: y in r <==> y in selection || y == employee
    ensures employee == "" ==> r == selection
    ensures NoDup(selection) ==> NoDup(r)
  {
    if employee != "" then SetAdd(selection, employee) else selection
  }

  // ------------------------------------------------------ saving the form

  /**
   * The form's fields: the type (`None` while empty), the name, the
   * deadline (`None` while empty; date parsing is not modelled), the
   * selected criteria and participants in selection order, and the employee.
   */
  datatype Form = Form(
    tipo: Option<EvaluationType>, nombre: string, fechaLimite: Option<Timestamp>,
    criterios: seq<CriterionId>, seleccionados: seq<UserId>, empleado: UserId)

  /** The required-fields test of `handleGuardar`. */
  predicate Complete(f: Form) {
    f.tipo.Some? && f.nombre != "" && f.fechaLimite.Some?
    && |f.criterios| > 0 && |f.seleccionados| > 0 && f.empleado != ""
  }

  /** The participant records of a new evaluation: one per selected id, nothing done yet. */
  function InitialParticipants(ids: seq<UserId>, t: EvaluationType): (ps: seq<Participant>)
    ensures |ps| == |ids|
    ensures forall i :: 0 <= i < |ids| ==> ps[i].id == ids[i] && ps[i].status == Pending
    ensures forall i :: 0 <= i < |ids| ==> (ps[i].evaluated == Some(Pending) <==> t == T360)
    ensures forall i :: 0 <= i < |ids| ==> (ps[i].evaluated == None <==> t != T360)
  {
    seq(|ids|, i requires 0 <= i < |ids| => Participant(ids[i], Pending, if t == T360 then Some(Pending) else None))
  }

  /** The fields `createEvaluation` sends. */
  datatype EvaluationDraft = EvaluationDraft(
    evaluationType: EvaluationType, title: string, endDate: Timestamp, evaluatedId: UserId,
    criteria: seq<CriterionId>, participants: seq<Participant>)

  /** The end of `handleGuardar`: the missing-fields toast, or the draft to create. */
  datatype GuardarResult = MissingFields | Draft(draft: EvaluationDraft)

  /** `handleGuardar`: refuse an incomplete form, otherwise build the draft from it. */
  function HandleGuardar(f: Form): (r: GuardarResult)
    ensures r == MissingFields <==> !Complete(f)
    ensures r.Draft? ==>
      r.draft.evaluationType == f.tipo.value && r.draft.title == f.nombre
      && r.draft.endDate == f.fechaLimite.value && r.draft.evaluatedId == f.empleado
      && r.draft.criteria == f.criterios
      && r.draft.participants == InitialParticipants(f.seleccionados, f.tipo.value)
  {
    if !Complete(f) then MissingFields
    else Draft(EvaluationDraft(f.tipo.value, f.nombre, f.fechaLimite.value, f.empleado, f.criterios,
                               InitialParticipants(f.seleccionados, f.tipo.value)))
  }

  /** The stored row of a new evaluation, with the status and start date the table defaults to. */
  function RowFromDraft(id: EvaluationId, d: EvaluationDraft): (row: EvaluationRow)
    ensures row.id == id && row.status == Pendiente && row.startDate.None?
    ensures row.evaluatedId == Some(d.evaluatedId) && row.participants == d.participants
    ensures row.evaluationType == d.evaluationType && row.criteria == d.criteria
    ensures row.title == d.title && row.endDate == d.endDate
  {
    EvaluationRow(id, d.evaluationType, d.title, d.endDate, None, Some(d.evaluatedId),
                  d.criteria, d.participants, Pendiente)
  }

  /** A saved evaluation starts at 0 progress on every path, is not complete, and resolves to pending. */
  lemma NewEvaluationStartsPending(f: Form, id: EvaluationId, responses: seq<ResponseRow>)
    requires HandleGuardar(f).Draft?
    ensures var row := RowFromDraft(id, HandleGuardar(f).draft);
      CalculateEvaluationProgress(row.participants, row.evaluationType, row.evaluatedId, responses) == 0
      && SettledProgress(row.participants, row.evaluationType, row.evaluatedId, responses) == 0
      && !AllStatusDone(row.participants)
      && DetermineEvaluationStatus(0, row.status) == Pendiente
  {
    var ps := HandleGuardar(f).draft.participants;
    CountStatusDoneZero(ps);
    CountEvaluatedDoneZero(ps);
    assert ps[0].status == Pending;
    var row := RowFromDraft(id, HandleGuardar(f).draft);
    RoundPercentEnds(0, RequiredUnits(ps, row.evaluationType, row.evaluatedId));
  }

  /** `createEvaluation`: the draft becomes the newest row under a fresh key. */
  method CreateEvaluation(db: Store, id: EvaluationId, d: EvaluationDraft) returns (ok: bool)
    requires db.Valid()
    modifies db
    ensures db.Valid()
    ensures ok <==> !HasId(old(db.evaluations), id)
    ensures ok ==> db.evaluations == [RowFromDraft(id, d)] + old(db.evaluations)
    ensures !ok ==> db.evaluations == old(db.evaluations)
    ensures db.responses == old(db.responses)
  {
    ok := db.InsertEvaluation(RowFromDraft(id, d));
  }

  // -------------------------------------------------------- the user table

  /** The search box: the lower-cased query in the lower-cased name, e-mail or department. */
  predicate MatchesSearch(u: Usuario, query: string) {
    var q := Lower(query);
    Contains(Lower(u.fullName), q) || Contains(Lower(u.email), q)
    || (u.department.Some? && Contains(Lower(u.department.value), q))
  }

  /** The department filter: `all`, or exactly the user's department. */
  predicate MatchesDepartment(u: Usuario, department: string) {
    department == "all" || u.department == Some(department)
  }

  /** The users passing both filters, in input order. */
  function Matching(users: seq<Usuario>, query: string, department: string): (r: seq<Usuario>)
    ensures |r| <= |users|
    ensures forall u :: u in r <==> u in users && MatchesSearch(u, query) && MatchesDepartment(u, department)
  {
    if users == [] then []
    else
      var init := users[..|users| - 1];
      var last := users[|users| - 1];
      assert users == init + [last];
      Matching(init, query, department)
        + (if MatchesSearch(last, query) && MatchesDepartment(last, department) then [last] else [])
  }

  /** An empty query with `all` keeps everybody. */
  lemma MatchingKeepsAllWhenUnfiltered(users: seq<Usuario>)
    ensures forall u :: u in Matching(users, "", "all") <==> u in users
  {
    forall u | u in users ensures MatchesSearch(u, "") {
      ContainsEmpty(Lower(u.fullName));
    }
  }

  /** The name order of `localeCompare`, supplied as a total preorder. */
  function ByName(nameLeq: (string, string) -> bool): (Usuario, Usuario) -> bool {
    (a: Usuario, b: Usuario) => nameLeq(a.fullName, b.fullName)
  }

  /** Ordering users by a total name order is total. */
  lemma ByNameTotal(nameLeq: (string, string) -> bool)
    requires Total(nameLeq)
    ensures Total(ByName(nameLeq))
  {
    forall a: Usuario, b: Usuario ensures ByName(nameLeq)(a, b) || ByName(nameLeq)(b, a) {
      assert nameLeq(a.fullName, b.fullName) || nameLeq(b.fullName, a.fullName);
    }
  }

  /**
   * `filteredUsers`: the matching users sorted by name. The result is
   * sorted, a permutation of the matching users, and holds exactly them.
   */
  function FilteredUsers(users: seq<Usuario>, query: string, department: string,
                         nameLeq: (string, string) -> bool): (r: seq<Usuario>)
    requires Total(nameLeq)
    ensures Sorted(r, ByName(nameLeq))
    ensures multiset(r) == multiset(Matching(users, query, department))
    ensures forall u :: u in r <==> u in users && MatchesSearch(u, query) && MatchesDepartment(u, department)
  {
    var m := Matching(users, query, department);
    ByNameTotal(nameLeq);
    var r := SortBy(m, ByName(nameLeq));
    assert forall u :: u in r <==> u in multiset(r);
    r
  }

  /** A sortable column of the table. */
  datatype Column = FullName | Email | Department

  /** The value a column compares, `None` for a missing department. */
  function KeyOf(u: Usuario, c: Column): Option<string> {
    match c
    case FullName => Some(u.fullName)
    case Email => Some(u.email)
    case Department => u.department
  }

  /** `first < second`; a missing value is neither below nor above anything. */
  predicate KeyLess(a: Option<string>, b: Option<string>) {
    a.Some? && b.Some? && StrLess(a.value, b.value)
  }

  /** "Not after" for the sort descriptor: the comparator returns no more than 0. */
  function ColumnLeq(c: Column, descending: bool): (Usuario, Usuario) -> bool {
    if descending then (a: Usuario, b: Usuario) => !KeyLess(KeyOf(a, c), KeyOf(b, c))
    else (a: Usuario, b: Usuario) => !KeyLess(KeyOf(b, c), KeyOf(a, c))
  }

  /** The column comparator is total, whichever the direction. */
  lemma ColumnLeqTotal(c: Column, descending: bool)
    ensures Total(ColumnLeq(c, descending))
  {
    forall a: Usuario, b: Usuario
      ensures ColumnLeq(c, descending)(a, b) || ColumnLeq(c, descending)(b, a)
    {
      if KeyOf(a, c).Some? && KeyOf(b, c).Some? {
        StrLessAsymmetric(KeyOf(a, c).value, KeyOf(b, c).value);
      }
    }
  }

  /** `sortedUsers`: the filtered users re-sorted by the chosen column and direction. */
  function SortedUsers(filtered: seq<Usuario>, c: Column, descending: bool): (r: seq<Usuario>)
    ensures Sorted(r, ColumnLeq(c, descending))
    ensures multiset(r) == multiset(filtered)
  {
    ColumnLeqTotal(c, descending);
    SortBy(filtered, ColumnLeq(c, descending))
  }

  /** In ascending order no row is strictly after its successor by the column. */
  lemma SortedUsersAscending(filtered: seq<Usuario>, c: Column, i: nat)
    requires i + 1 < |filtered|
    ensures var r := SortedUsers(filtered, c, false);
      !KeyLess(KeyOf(r[i + 1], c), KeyOf(r[i], c))
  {
  }

  /**
   * `Math.ceil(count / rowsPerPage)`: the least number of pages of
   * `rowsPerPage` rows that hold `count` rows. With 0 rows per page the
   * division has no number (`NaN` or `Infinity`), here `None`.
   */
  function PageCount(count: nat, rowsPerPage: nat): (r: Option<nat>)
    ensures r.None? <==> rowsPerPage == 0
    ensures r.Some? ==> count <= r.value * rowsPerPage
    ensures r.Some? && r.value > 0 ==> (r.value - 1) * rowsPerPage < count
  {
    if rowsPerPage == 0 then None
    else
      var q := (count + rowsPerPage - 1) / rowsPerPage;
      assert q * rowsPerPage + (count + rowsPerPage - 1) % rowsPerPage == count + rowsPerPage - 1;
      Some(q)
  }

  /** `slice(lo, lo + len)`, clamped to the list as `slice` is. */
  function Window<T>(s: seq<T>, lo: nat, len: nat): (r: seq<T>)
    ensures |r| == (if lo + len <= |s| then len else if lo < |s| then |s| - lo else 0)
    ensures forall i :: 0 <= i < |r| ==> lo + i < |s| && r[i] == s[lo + i]
  {
    var a := if lo < |s| then lo else |s|;
    var b := if lo + len < |s| then lo + len else |s|;
    s[a..b]
  }

  /** `slice((page - 1) * rows, page * rows)`: the rows of one page, in order. */
  function PageItems<T>(s: seq<T>, page: nat, rowsPerPage: nat): (r: seq<T>)
    requires page >= 1
    ensures |r| <= rowsPerPage
    ensures forall i :: 0 <= i < |r| ==> (page - 1) * rowsPerPage + i < |s| && r[i] == s[(page - 1) * rowsPerPage + i]
    ensures (page - 1) * rowsPerPage + rowsPerPage <= |s| ==> |r| == rowsPerPage
  {
    Window(s, (page - 1) * rowsPerPage, rowsPerPage)
  }

  /** Row `q * rows + m` is entry `m` of page `q + 1`. */
  lemma RowOnPage<T>(s: seq<T>, rowsPerPage: nat, q: nat, m: nat)
    requires m < rowsPerPage && q * rowsPerPage + m < |s|
    ensures m < |PageItems(s, q + 1, rowsPerPage)|
    ensures PageItems(s, q + 1, rowsPerPage)[m] == s[q * rowsPerPage + m]
  {
    assert (q + 1 - 1) * rowsPerPage == q * rowsPerPage;
  }

  /** The page of any row is within the page count. */
  lemma PageCountCovers(count: nat, rowsPerPage: nat, i: nat)
    requires rowsPerPage > 0 && i < count
    ensures PageCount(count, rowsPerPage).Some? && i / rowsPerPage + 1 <= PageCount(count, rowsPerPage).value
  {
    var q := i / rowsPerPage;
    var n := PageCount(count, rowsPerPage).value;
    DivMod(i, rowsPerPage);
    if n < q + 1 {
      MulLeq(n, q, rowsPerPage);
    }
  }

  /** Row `i` of the list is shown on page `i / rows + 1`, which is within the page count. */
  lemma EveryRowOnSomePage<T>(s: seq<T>, rowsPerPage: nat, i: nat)
    requires rowsPerPage > 0 && i < |s|
    ensures var page := i / rowsPerPage + 1;
      PageCount(|s|, rowsPerPage).Some? && page <= PageCount(|s|, rowsPerPage).value
      && i % rowsPerPage < |PageItems(s, page, rowsPerPage)|
      && PageItems(s, page, rowsPerPage)[i % rowsPerPage] == s[i]
  {
    DivMod(i, rowsPerPage);
    PageCountCovers(|s|, rowsPerPage, i);
    RowOnPage(s, rowsPerPage, i / rowsPerPage, i % rowsPerPage);
  }

  /** Division and remainder by a positive number. */
  lemma DivMod(i: nat, r: nat)
    requires r > 0
    ensures i == (i / r) * r + i % r && 0 <= i % r < r
  {
  }

  /** `departamentos`: the distinct non-empty departments, sorted. */
  function Departamentos(users: seq<Usuario>): (r: seq<string>)
    ensures Sorted(r, StrLeq)
    ensures NoDup(r)
    ensures forall x :: x in r <==> exists u :: u in users && u.department == Some(x) && x != ""
  {
    var deps := DepartmentsOf(users);
    var d := Dedup(deps);
    StrLeqIsTotal();
    var r := SortBy(d, StrLeq);
    NoDupPermutation(d, r);
    SameMembers(d, r);
    r
  }

  /** `users.map(user => user.department).filter(Boolean)`. */
  function DepartmentsOf(users: seq<Usuario>): (r: seq<string>)
    ensures forall x :: x in r <==> exists u :: u in users && u.department == Some(x) && x != ""
  {
    if users == [] then []
    else
      var init := users[..|users| - 1];
      var last := users[|users| - 1];
      assert users == init + [last];
      DepartmentsOf(init)
        + (if last.department.Some? && last.department.value != "" then [last.department.value] else [])
  }
}
