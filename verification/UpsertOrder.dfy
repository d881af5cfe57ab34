/**
  One backend evaluates an upsert's assignments all at once, the other left to right, with later
  expressions reading columns already assigned. When do they agree?
 */
module UpsertOrder {
  import opened Wrappers
  import opened RateLimit

  datatype Column = StartedAt | MaxRequests | Requests | ExpiresAt

  // CASE WHEN low <= high THEN yes ELSE no.
  datatype Expr =
    | Stored(column: Column)
    | Proposed(column: Column)
    | Number(n: int)
    | Plus(e: Expr, n: int)
    | Case(low: Expr, high: Expr, yes: Expr, no: Expr)

  datatype Assignment = Assignment(target: Column, value: Expr)

  function Value(row: Bucket, column: Column): int {
    match column
    case StartedAt => row.startedAt
    case MaxRequests => row.maxRequests
    case Requests => row.requests
    case ExpiresAt => row.expiresAt
  }

  function With(row: Bucket, column: Column, n: int): Bucket {
    match column
    case StartedAt => row.(startedAt := n)
    case MaxRequests => row.(maxRequests := n)
    case Requests => row.(requests := n)
    case ExpiresAt => row.(expiresAt := n)
  }

  function Eval(e: Expr, row: Bucket, proposed: Bucket): int {
    match e
    case Stored(c) => Value(row, c)
    case Proposed(c) => Value(proposed, c)
    case Number(n) => n
    case Plus(d, n) => Eval(d, row, proposed) + n
    case Case(low, high, yes, no) =>
      if Eval(low, row, proposed) <= Eval(high, row, proposed) then Eval(yes, row, proposed) else Eval(no, row, proposed)
  }

  function InOrder(list: seq<Assignment>, row: Bucket, proposed: Bucket): Bucket {
    if list == [] then row
    else InOrder(list[1..], With(row, list[0].target, Eval(list[0].value, row, proposed)), proposed)
  }

  // Every expression reads `stored`; `row` collects the results.
  function AtOnceFrom(list: seq<Assignment>, row: Bucket, stored: Bucket, proposed: Bucket): Bucket {
    if list == [] then row
    else AtOnceFrom(list[1..], With(row, list[0].target, Eval(list[0].value, stored, proposed)), stored, proposed)
  }

  function AtOnce(list: seq<Assignment>, row: Bucket, proposed: Bucket): Bucket {
    AtOnceFrom(list, row, row, proposed)
  }

  function Reads(e: Expr): set<Column> {
    match e
    case Stored(c) => {c}
    case Proposed(_) => {}
    case Number(_) => {}
    case Plus(d, _) => Reads(d)
    case Case(low, high, yes, no) => Reads(low) + Reads(high) + Reads(yes) + Reads(no)
  }

  // ----- the general fact

  // No expression reads a column that an earlier assignment has changed.
  predicate Independent(list: seq<Assignment>) {
    forall i, j :: 0 <= i < j < |list| ==> list[i].target !in Reads(list[j].value)
  }

  lemma {:induction false} EvalReadsOnly(e: Expr, row: Bucket, other: Bucket, proposed: Bucket)
    requires forall c :: c in Reads(e) ==> Value(row, c) == Value(other, c)
    ensures Eval(e, row, proposed) == Eval(e, other, proposed)
  {
    match e
    case Stored(c) =>
    case Proposed(_) =>
    case Number(_) =>
    case Plus(d, _) => EvalReadsOnly(d, row, other, proposed);
    case Case(low, high, yes, no) =>
      EvalReadsOnly(low, row, other, proposed);
      EvalReadsOnly(high, row, other, proposed);
      EvalReadsOnly(yes, row, other, proposed);
      EvalReadsOnly(no, row, other, proposed);
  }

  lemma {:induction false} IndependentFrom(list: seq<Assignment>, row: Bucket, stored: Bucket, proposed: Bucket)
    requires Independent(list)
    requires forall i, c :: 0 <= i < |list| && c in Reads(list[i].value) ==> Value(row, c) == Value(stored, c)
    ensures InOrder(list, row, proposed) == AtOnceFrom(list, row, stored, proposed)
  {
    if list != [] {
      EvalReadsOnly(list[0].value, row, stored, proposed);
      var next := With(row, list[0].target, Eval(list[0].value, row, proposed));
      forall i, c | 0 <= i < |list[1..]| && c in Reads(list[1..][i].value) ensures Value(next, c) == Value(stored, c) {
        assert list[1..][i] == list[i + 1];
        assert c != list[0].target;
      }
      IndependentFrom(list[1..], next, stored, proposed);
    }
  }

  // For any statement at all.
  lemma IndependentOrderDoesNotMatter(list: seq<Assignment>, row: Bucket, proposed: Bucket)
    requires Independent(list)
    ensures InOrder(list, row, proposed) == AtOnce(list, row, proposed)
  {
    IndependentFrom(list, row, row, proposed);
  }

  // ----- this statement

  function Unless(e: Expr, yes: Expr): Expr {
    Case(Stored(ExpiresAt), Proposed(StartedAt), yes, e)
  }

  function Clause(target: Column): Assignment {
    Assignment(target,
      Unless(
        if target == Requests then
          Case(Stored(Requests), Stored(MaxRequests), Plus(Stored(Requests), 1), Stored(Requests))
        else Stored(target),
        if target == Requests then Number(1) else Proposed(target)))
  }

  function Clauses(order: seq<Column>): (list: seq<Assignment>)
    ensures |list| == |order|
  {
    if order == [] then [] else [Clause(order[0])] + Clauses(order[1..])
  }

  lemma ClauseComputes(target: Column, row: Bucket, proposed: Bucket)
    ensures Eval(Clause(target).value, row, proposed) ==
              if target == Requests then
                if row.expiresAt <= proposed.startedAt then 1
                else if row.requests <= row.maxRequests then row.requests + 1
                else row.requests
              else if row.expiresAt <= proposed.startedAt then Value(proposed, target)
              else Value(row, target)
  {
    assert Eval(Plus(Stored(Requests), 1), row, proposed) == row.requests + 1;
    var increment := Case(Stored(Requests), Stored(MaxRequests), Plus(Stored(Requests), 1), Stored(Requests));
    assert Eval(increment, row, proposed) == if row.requests <= row.maxRequests then row.requests + 1 else row.requests;
  }

  const WRITTEN_ORDER: seq<Column> := [Requests, MaxRequests, StartedAt, ExpiresAt]

  lemma {:induction false} ClauseAt(order: seq<Column>, i: nat)
    requires i < |order|
    ensures Clauses(order)[i] == Clause(order[i])
  {
    if i > 0 {
      ClauseAt(order[1..], i - 1);
    }
  }

  lemma WrittenOrderIsIndependent()
    ensures Independent(Clauses(WRITTEN_ORDER))
  {
    var list := Clauses(WRITTEN_ORDER);
    forall i, j | 0 <= i < j < |list| ensures list[i].target !in Reads(list[j].value) {
      ClauseAt(WRITTEN_ORDER, i);
      ClauseAt(WRITTEN_ORDER, j);
    }
  }

  // ----- any order of the four clauses

  ghost predicate AllColumns(order: seq<Column>) {
    |order| == 4 && forall i, j :: 0 <= i < j < 4 ==> order[i] != order[j]
  }

  ghost predicate Distinct(order: seq<Column>) {
    forall i, j :: 0 <= i < j < |order| ==> order[i] != order[j]
  }

  lemma {:induction false} AtOnceSets(order: seq<Column>, row: Bucket, stored: Bucket, proposed: Bucket, c: Column)
    requires Distinct(order)
    ensures Value(AtOnceFrom(Clauses(order), row, stored, proposed), c)
            == if c in order then Eval(Clause(c).value, stored, proposed) else Value(row, c)
  {
    if order != [] {
      assert Clauses(order)[1..] == Clauses(order[1..]);
      AtOnceSets(order[1..], With(row, order[0], Eval(Clause(order[0]).value, stored, proposed)), stored, proposed, c);
    }
  }

  lemma AllAreThere(order: seq<Column>, c: Column)
    requires AllColumns(order)
    ensures c in order
  {
    assert order[0] != order[1] && order[0] != order[2] && order[0] != order[3];
    assert order[1] != order[2] && order[1] != order[3] && order[2] != order[3];
    assert order[0] == c || order[1] == c || order[2] == c || order[3] == c;
  }

  // All at once, the clauses mean the same in whatever order they are written.
  lemma AtOnceIsTheUpsert(order: seq<Column>, row: Bucket, proposed: Bucket)
    requires AllColumns(order)
    ensures AtOnce(Clauses(order), row, proposed) == Upserted(Some(row), proposed)
  {
    AtOnceSets(order, row, row, proposed, StartedAt);
    AtOnceSets(order, row, row, proposed, MaxRequests);
    AtOnceSets(order, row, row, proposed, Requests);
    AtOnceSets(order, row, row, proposed, ExpiresAt);
    AllAreThere(order, StartedAt);
    AllAreThere(order, MaxRequests);
    AllAreThere(order, Requests);
    AllAreThere(order, ExpiresAt);
    ClauseComputes(StartedAt, row, proposed);
    ClauseComputes(MaxRequests, row, proposed);
    ClauseComputes(Requests, row, proposed);
    ClauseComputes(ExpiresAt, row, proposed);
  }

  // As written, the two backends store the same row for every input.
  lemma BackendsAgree(row: Bucket, proposed: Bucket)
    ensures InOrder(Clauses(WRITTEN_ORDER), row, proposed) == Upserted(Some(row), proposed)
  {
    WrittenOrderIsIndependent();
    IndependentOrderDoesNotMatter(Clauses(WRITTEN_ORDER), row, proposed);
    AtOnceIsTheUpsert(WRITTEN_ORDER, row, proposed);
  }

  function Assign(row: Bucket, target: Column, proposed: Bucket): Bucket {
    With(row, target, Eval(Clause(target).value, row, proposed))
  }

  lemma Unroll(order: seq<Column>, row: Bucket, proposed: Bucket)
    requires order != []
    ensures InOrder(Clauses(order), row, proposed) == InOrder(Clauses(order[1..]), Assign(row, order[0], proposed), proposed)
  {
    assert Clauses(order)[1..] == Clauses(order[1..]);
  }

  lemma FourSteps(order: seq<Column>, row: Bucket, proposed: Bucket)
    requires |order| == 4
    ensures InOrder(Clauses(order), row, proposed)
            == Assign(Assign(Assign(Assign(row, order[0], proposed), order[1], proposed), order[2], proposed), order[3], proposed)
  {
    var first := Assign(row, order[0], proposed);
    var second := Assign(first, order[1], proposed);
    var third := Assign(second, order[2], proposed);
    Unroll(order, row, proposed);
    Unroll(order[1..], first, proposed);
    Unroll(order[1..][1..], second, proposed);
    Unroll(order[1..][1..][1..], third, proposed);
  }

  // A clause that still sees the stored expiry time gives its column the right value, and the
  // columns that are already right do no harm.
  lemma AssignIsRight(row: Bucket, stored: Bucket, proposed: Bucket, target: Column)
    requires row.expiresAt == stored.expiresAt && Value(row, target) == Value(stored, target)
    requires forall c :: Value(row, c) == Value(stored, c) || Value(row, c) == Value(Upserted(Some(stored), proposed), c)
    ensures Assign(row, target, proposed) == With(row, target, Value(Upserted(Some(stored), proposed), target))
  {
    ClauseComputes(target, row, proposed);
    assert Value(row, MaxRequests) == Value(stored, MaxRequests)
        || Value(row, MaxRequests) == Value(Upserted(Some(stored), proposed), MaxRequests);
  }

  lemma ExpiryLastIsRight(order: seq<Column>, row: Bucket, proposed: Bucket)
    requires AllColumns(order) && order[3] == ExpiresAt
    ensures InOrder(Clauses(order), row, proposed) == Upserted(Some(row), proposed)
  {
    FourSteps(order, row, proposed);
    AssignIsRight(row, row, proposed, order[0]);
    var first := Assign(row, order[0], proposed);
    AssignIsRight(first, row, proposed, order[1]);
    var second := Assign(first, order[1], proposed);
    AssignIsRight(second, row, proposed, order[2]);
    var third := Assign(second, order[2], proposed);
    AssignIsRight(third, row, proposed, order[3]);
  }

  // A row whose window has ended, and the row proposed in its place.
  const ENDED: Bucket := Bucket(0, 1, 2, 10)
  const NEXT: Bucket := Bucket(20, 7, 1, 80)

  lemma ExpiryEarlyIsWrong(order: seq<Column>)
    requires AllColumns(order) && order[3] != ExpiresAt
    ensures InOrder(Clauses(order), ENDED, NEXT) != Upserted(Some(ENDED), NEXT)
  {
    FourSteps(order, ENDED, NEXT);
    var last := order[3];
    var first := Assign(ENDED, order[0], NEXT);
    var second := Assign(first, order[1], NEXT);
    var third := Assign(second, order[2], NEXT);
    AllAreThere(order, ExpiresAt);
    ExpiryMovesOnce(ENDED, order[0]);
    ExpiryMovesOnce(first, order[1]);
    ExpiryMovesOnce(second, order[2]);
    ClauseComputes(last, third, NEXT);
    assert Value(third, last) == Value(ENDED, last);
  }

  lemma ExpiryMovesOnce(row: Bucket, target: Column)
    requires row.expiresAt == ENDED.expiresAt || row.expiresAt == NEXT.expiresAt
    ensures Assign(row, target, NEXT).expiresAt == if target == ExpiresAt then NEXT.expiresAt else row.expiresAt
    ensures forall c :: c != target ==> Value(Assign(row, target, NEXT), c) == Value(row, c)
  {
    ClauseComputes(target, row, NEXT);
  }

  // Left to right is right for every row exactly when the expiry time is assigned last.
  lemma OnlyExpiryLastIsRight(order: seq<Column>)
    requires AllColumns(order)
    ensures (forall row, proposed: Bucket :: proposed.startedAt < proposed.expiresAt ==>
               InOrder(Clauses(order), row, proposed) == Upserted(Some(row), proposed))
            <==> order[3] == ExpiresAt
  {
    if order[3] == ExpiresAt {
      forall row, proposed: Bucket ensures InOrder(Clauses(order), row, proposed) == Upserted(Some(row), proposed) {
        ExpiryLastIsRight(order, row, proposed);
      }
    } else {
      ExpiryEarlyIsWrong(order);
    }
  }
}
