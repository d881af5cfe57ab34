/** Guarantees of request budgets over any run of requests and cleanup batches under a non-decreasing clock. */
module RateSafety {
  import opened Wrappers
  import opened RateLimit

  function Before(ops: seq<Op>, i: nat): Table
    requires i <= |ops|
  {
    Play(map[], ops, i)
  }

  function AnswerAt(ops: seq<Op>, i: nat): Result<int, Refusal>
    requires i < |ops| && ops[i].Take?
  {
    Answer(Before(ops, i), ops[i])
  }

  ghost predicate Monotone(ops: seq<Op>) {
    forall i, j :: 0 <= i < j < |ops| ==> ops[i].now <= ops[j].now
  }

  ghost predicate NotAfter(ops: seq<Op>, n: nat, now: int)
    requires n <= |ops|
  {
    forall i :: 0 <= i < n ==> ops[i].now <= now
  }

  ghost predicate Run(ops: seq<Op>) {
    && Monotone(ops)
    && forall i {:trigger Enabled(Before(ops, i), ops[i])} :: 0 <= i < |ops| ==> Enabled(Before(ops, i), ops[i])
  }

  predicate Counts(op: Op, id: Id) {
    op.Take? && op.id == id && ValidRequest(op.window, op.limit)
  }

  // ----- cleanup is unobservable

  // The row a budget would have if nothing were ever cleaned up.
  function Ideal(ops: seq<Op>, id: Id, n: nat): Option<Bucket>
    requires n <= |ops|
  {
    if n == 0 then None
    else if Counts(ops[n - 1], id) then
      Some(Upserted(Ideal(ops, id, n - 1), Opened(ops[n - 1].now, ops[n - 1].window, ops[n - 1].limit)))
    else Ideal(ops, id, n - 1)
  }

  // A row that was cleaned up no longer matters at any later time.
  ghost predicate Agrees(stored: Option<Bucket>, ideal: Option<Bucket>, now: int) {
    stored == ideal || (stored.None? && ideal.value.expiresAt <= now)
  }

  lemma ApplyAgrees(rows: Table, op: Op, id: Id, ideal: Option<Bucket>)
    requires Enabled(rows, op) && Agrees(Row(rows, id), ideal, op.now)
    ensures Counts(op, id) ==>
              var next := Upserted(ideal, Opened(op.now, op.window, op.limit));
              Row(Apply(rows, op), id) == Some(next) && Answer(rows, op) == Ok(RetryAfter(next, op.now))
    ensures !Counts(op, id) ==> Agrees(Row(Apply(rows, op), id), ideal, op.now)
  {
  }

  lemma {:induction false} RowsAgree(ops: seq<Op>, id: Id, n: nat, now: int)
    requires Run(ops) && n <= |ops| && NotAfter(ops, n, now)
    ensures Agrees(Row(Before(ops, n), id), Ideal(ops, id, n), now)
  {
    if n > 0 {
      var op := ops[n - 1];
      RowsAgree(ops, id, n - 1, op.now);
      assert Enabled(Before(ops, n - 1), op);
      ApplyAgrees(Before(ops, n - 1), op, id, Ideal(ops, id, n - 1));
    }
  }

  lemma AnswersAreIdeal(ops: seq<Op>, i: nat)
    requires Run(ops) && i < |ops| && ops[i].Take?
    ensures Counts(ops[i], ops[i].id) ==> AnswerAt(ops, i) == Ok(RetryAfter(Ideal(ops, ops[i].id, i + 1).value, ops[i].now))
    ensures !Counts(ops[i], ops[i].id) ==> AnswerAt(ops, i) == Err(InvalidLimit)
  {
    RowsAgree(ops, ops[i].id, i, ops[i].now);
    assert Enabled(Before(ops, i), ops[i]);
    ApplyAgrees(Before(ops, i), ops[i], ops[i].id, Ideal(ops, ops[i].id, i));
  }

  // The run without its cleanup steps.
  function Requests(ops: seq<Op>, n: nat): (r: seq<Op>)
    requires n <= |ops|
    ensures forall i :: 0 <= i < |r| ==> r[i].Take?
  {
    if n == 0 then []
    else if ops[n - 1].Sweep? then Requests(ops, n - 1)
    else Requests(ops, n - 1) + [ops[n - 1]]
  }

  function Answers(ops: seq<Op>, n: nat): seq<Result<int, Refusal>>
    requires n <= |ops|
  {
    if n == 0 then []
    else if ops[n - 1].Sweep? then Answers(ops, n - 1)
    else Answers(ops, n - 1) + [AnswerAt(ops, n - 1)]
  }

  lemma {:induction false} RequestsAreMonotone(ops: seq<Op>, n: nat)
    requires n <= |ops| && Monotone(ops)
    ensures Monotone(Requests(ops, n))
    ensures forall now {:trigger NotAfter(ops, n, now)} :: NotAfter(ops, n, now) ==> NotAfter(Requests(ops, n), |Requests(ops, n)|, now)
  {
    if n > 0 {
      RequestsAreMonotone(ops, n - 1);
      assert NotAfter(ops, n - 1, ops[n - 1].now);
      forall now | NotAfter(ops, n, now) ensures NotAfter(Requests(ops, n), |Requests(ops, n)|, now) {
        assert NotAfter(ops, n - 1, now);
      }
    }
  }

  lemma {:induction false} IdealOfPrefix(ops: seq<Op>, more: Op, id: Id, n: nat)
    requires n <= |ops|
    ensures Ideal(ops + [more], id, n) == Ideal(ops, id, n)
  {
    if n > 0 {
      IdealOfPrefix(ops, more, id, n - 1);
    }
  }

  lemma {:induction false} AnswersOfPrefix(ops: seq<Op>, more: Op, n: nat)
    requires n <= |ops|
    ensures Before(ops + [more], n) == Before(ops, n) && Answers(ops + [more], n) == Answers(ops, n)
  {
    if n > 0 {
      AnswersOfPrefix(ops, more, n - 1);
    }
  }

  lemma {:induction false} IdealIgnoresCleanup(ops: seq<Op>, id: Id, n: nat)
    requires n <= |ops|
    ensures Ideal(Requests(ops, n), id, |Requests(ops, n)|) == Ideal(ops, id, n)
  {
    if n > 0 {
      IdealIgnoresCleanup(ops, id, n - 1);
      if ops[n - 1].Take? {
        IdealOfPrefix(Requests(ops, n - 1), ops[n - 1], id, |Requests(ops, n - 1)|);
      }
    }
  }

  lemma RequestsRun(ops: seq<Op>, n: nat)
    requires n <= |ops| && Monotone(ops)
    ensures Run(Requests(ops, n))
  {
    RequestsAreMonotone(ops, n);
  }

  lemma LastAnswerIsTheSame(ops: seq<Op>, n: nat)
    requires Run(ops) && 0 < n <= |ops| && ops[n - 1].Take?
    ensures AnswerAt(Requests(ops, n), |Requests(ops, n - 1)|) == AnswerAt(ops, n - 1)
  {
    RequestsRun(ops, n);
    IdealIgnoresCleanup(ops, ops[n - 1].id, n);
    AnswersAreIdeal(ops, n - 1);
    AnswersAreIdeal(Requests(ops, n), |Requests(ops, n - 1)|);
  }

  // Every caller gets the answers it would get if nothing were ever cleaned up.
  lemma {:induction false} CleanupIsUnobservable(ops: seq<Op>, n: nat)
    requires Run(ops) && n <= |ops|
    ensures Answers(Requests(ops, n), |Requests(ops, n)|) == Answers(ops, n)
  {
    if n > 0 {
      CleanupIsUnobservable(ops, n - 1);
      if ops[n - 1].Take? {
        var before := Requests(ops, n - 1);
        AnswersOfPrefix(before, ops[n - 1], |before|);
        LastAnswerIsTheSame(ops, n);
      }
    }
  }

  // ----- a denial's delay is exact

  lemma {:induction false} IdealIsSound(ops: seq<Op>, id: Id, n: nat)
    requires n <= |ops|
    ensures Ideal(ops, id, n).Some? ==> SoundBucket(Ideal(ops, id, n).value)
  {
    if n > 0 {
      IdealIsSound(ops, id, n - 1);
      if Counts(ops[n - 1], id) {
        UpsertedIsSound(Ideal(ops, id, n - 1), ops[n - 1].now, ops[n - 1].window, ops[n - 1].limit);
      }
    }
  }

  // In every reachable table the stored count exceeds its limit by at most one.
  lemma StoredCountIsBounded(ops: seq<Op>, n: nat, id: Id)
    requires Run(ops) && n <= |ops| && id in Before(ops, n)
    ensures SoundBucket(Before(ops, n)[id])
  {
    var now := if n == 0 then 0 else ops[n - 1].now;
    RowsAgree(ops, id, n, now);
    IdealIsSound(ops, id, n);
  }

  // An exhausted budget stays as it is until its window ends.
  lemma {:induction false} ExhaustedStays(ops: seq<Op>, id: Id, i: nat, n: nat)
    requires i <= n <= |ops| && Ideal(ops, id, i).Some?
    requires Ideal(ops, id, i).value.requests > Ideal(ops, id, i).value.maxRequests
    requires forall k :: i <= k < n && Counts(ops[k], id) ==> ops[k].now < Ideal(ops, id, i).value.expiresAt
    ensures Ideal(ops, id, n) == Ideal(ops, id, i)
  {
    if i < n {
      ExhaustedStays(ops, id, i, n - 1);
    }
  }

  // After a denial with delay d: every request before now + d is denied with the same deadline,
  // and the first one at or after it is admitted.
  lemma RetryDelayIsExact(ops: seq<Op>, i: nat, j: nat, d: int)
    requires Run(ops) && i < j < |ops| && ops[i].Take? && Counts(ops[j], ops[i].id)
    requires AnswerAt(ops, i) == Ok(d) && d != 0
    ensures d > 0
    ensures ops[j].now < ops[i].now + d ==> AnswerAt(ops, j) == Ok(ops[i].now + d - ops[j].now)
    ensures ops[j].now >= ops[i].now + d
            && (forall k :: i < k < j && Counts(ops[k], ops[i].id) ==> ops[k].now < ops[i].now + d)
            ==> AnswerAt(ops, j) == Ok(0)
  {
    var id := ops[i].id;
    AnswersAreIdeal(ops, i);
    AnswersAreIdeal(ops, j);
    IdealIsSound(ops, id, i);
    UpsertedIsSound(Ideal(ops, id, i), ops[i].now, ops[i].window, ops[i].limit);
    if forall k :: i < k < j && Counts(ops[k], id) ==> ops[k].now < ops[i].now + d {
      ExhaustedStays(ops, id, i + 1, j);
    }
  }
}
