/**
  Fixed-window request budgets. A budget's row is replaced when its window has ended, and
  expired rows are deleted a bounded batch at a time before each request is counted.
 */
module RateLimit {
  import opened Wrappers
  import opened ExpiryBatches

  datatype Id = Id(scope: string, key: string)

  datatype Bucket = Bucket(startedAt: int, maxRequests: int, requests: int, expiresAt: int)

  type Table = map<Id, Bucket>

  // The row a first request inserts.
  function Opened(now: int, window: int, limit: int): Bucket {
    Bucket(now, limit, 1, now + window)
  }

  // The statement's CASE arms, all reading the row as it was.
  function Upserted(row: Option<Bucket>, proposed: Bucket): Bucket {
    if row.None? then proposed
    else
      var b := row.value;
      var ended := b.expiresAt <= proposed.startedAt;
      Bucket(
        if ended then proposed.startedAt else b.startedAt,
        if ended then proposed.maxRequests else b.maxRequests,
        if ended then 1 else if b.requests <= b.maxRequests then b.requests + 1 else b.requests,
        if ended then proposed.expiresAt else b.expiresAt)
  }

  function RetryAfter(b: Bucket, now: int): int {
    if b.requests > b.maxRequests then b.expiresAt - now else 0
  }

  datatype Refusal = InvalidLimit | Storage

  // Database steps: a cleanup batch, chosen by the database, and a counted request.
  datatype Op =
    | Sweep(now: int, gone: set<Id>)
    | Take(id: Id, now: int, window: int, limit: int)

  predicate ValidRequest(window: int, limit: int) {
    window > 0 && limit > 0
  }

  function Row(rows: Table, id: Id): Option<Bucket> {
    if id in rows then Some(rows[id]) else None
  }

  function Apply(rows: Table, op: Op): Table {
    match op
    case Sweep(_, gone) => rows - gone
    case Take(id, now, window, limit) =>
      if ValidRequest(window, limit) then rows[id := Upserted(Row(rows, id), Opened(now, window, limit))] else rows
  }

  function Answer(rows: Table, op: Op): Result<int, Refusal>
    requires op.Take?
  {
    if ValidRequest(op.window, op.limit) then
      Ok(RetryAfter(Upserted(Row(rows, op.id), Opened(op.now, op.window, op.limit)), op.now))
    else Err(InvalidLimit)
  }

  function Due(rows: Table, now: int): map<Id, int> {
    map id | id in rows && rows[id].expiresAt <= now :: rows[id].expiresAt
  }

  predicate Enabled(rows: Table, op: Op) {
    op.Sweep? ==> IsBatch(Due(rows, op.now), RATE_LIMIT_BATCH, op.gone)
  }

  // The table after the first n steps.
  function Play(rows: Table, ops: seq<Op>, n: nat): Table
    requires n <= |ops|
  {
    if n == 0 then rows else Apply(Play(rows, ops, n - 1), ops[n - 1])
  }

  // The table's own column constraints, and no more than one counted denial.
  predicate SoundBucket(b: Bucket) {
    b.maxRequests > 0 && 1 <= b.requests <= b.maxRequests + 1 && b.startedAt < b.expiresAt
  }

  ghost predicate Sound(rows: Table) {
    forall id :: id in rows ==> SoundBucket(rows[id])
  }

  // Whichever columns an old row holds, the new row is a new window after the old one's end and
  // otherwise the same window with one more request, counted up to one over the limit.
  lemma UpsertedIsSound(row: Option<Bucket>, now: int, window: int, limit: int)
    requires ValidRequest(window, limit) && (row.Some? ==> SoundBucket(row.value))
    ensures var b := Upserted(row, Opened(now, window, limit));
            && SoundBucket(b) && now < b.expiresAt
            && RetryAfter(b, now) >= 0
            && (RetryAfter(b, now) > 0 <==> row.Some? && now < row.value.expiresAt && row.value.requests >= row.value.maxRequests)
            && (RetryAfter(b, now) > 0 ==> now + RetryAfter(b, now) == row.value.expiresAt)
            && b == (if row.None? || row.value.expiresAt <= now then Bucket(now, limit, 1, now + window)
                     else if row.value.requests > row.value.maxRequests then row.value
                     else row.value.(requests := row.value.requests + 1))
  {
  }

  lemma ApplyKeepsSound(rows: Table, op: Op)
    requires Sound(rows)
    ensures Sound(Apply(rows, op))
  {
    if op.Take? && ValidRequest(op.window, op.limit) {
      assert op.id in rows ==> SoundBucket(rows[op.id]);
      UpsertedIsSound(Row(rows, op.id), op.now, op.window, op.limit);
    }
  }

  // The table after these cleanup batches in turn.
  function SweptBy(rows: Table, batches: seq<set<Id>>): Table {
    if batches == [] then rows else SweptBy(rows - batches[0], batches[1..])
  }

  lemma DueAfter(rows: Table, now: int, gone: set<Id>)
    ensures Due(rows - gone, now) == Due(rows, now) - gone
  {
  }

  lemma {:induction false} SweepsRemain(rows: Table, now: int, batches: seq<set<Id>>)
    requires AreBatches(Due(rows, now), RATE_LIMIT_BATCH, batches)
    ensures Due(SweptBy(rows, batches), now) == Remaining(Due(rows, now), batches)
    decreases |batches|
  {
    if batches != [] {
      DueAfter(rows, now, batches[0]);
      SweepsRemain(rows - batches[0], now, batches[1..]);
    }
  }

  // The budgets whose window has ended.
  function Ended(rows: Table, now: int): set<Id> {
    set id | id in rows && rows[id].expiresAt <= now
  }

  lemma {:induction false} SweptRows(rows: Table, batches: seq<set<Id>>, id: Id)
    ensures Row(SweptBy(rows, batches), id) == if exists k :: 0 <= k < |batches| && id in batches[k] then None else Row(rows, id)
    decreases |batches|
  {
    if batches != [] {
      SweptRows(rows - batches[0], batches[1..], id);
      assert forall k :: 0 < k < |batches| ==> batches[k] == batches[1..][k - 1];
      assert forall k :: 0 <= k < |batches[1..]| ==> batches[1..][k] == batches[k + 1];
    }
  }

  // Repeated batches at one time delete every ended window, in exactly as many rounds of a hundred as
  // the backlog takes, and no window that is running.
  lemma SweepsDrain(rows: Table, now: int, batches: seq<set<Id>>)
    requires AreBatches(Due(rows, now), RATE_LIMIT_BATCH, batches)
    ensures Ended(SweptBy(rows, batches), now) == {} <==> |batches| * 100 >= |Ended(rows, now)|
    ensures forall id :: id in rows && now < rows[id].expiresAt ==> Row(SweptBy(rows, batches), id) == Some(rows[id])
  {
    SweepsRemain(rows, now, batches);
    BatchesDrainAll(Due(rows, now), RATE_LIMIT_BATCH, batches);
    DueAreEnded(rows, now);
    DueAreEnded(SweptBy(rows, batches), now);
    forall id | id in rows && now < rows[id].expiresAt ensures Row(SweptBy(rows, batches), id) == Some(rows[id]) {
      BatchesAreDue(Due(rows, now), RATE_LIMIT_BATCH, batches);
      SweptRows(rows, batches, id);
    }
  }

  lemma DueAreEnded(rows: Table, now: int)
    ensures Due(rows, now).Keys == Ended(rows, now) && |Due(rows, now)| == |Ended(rows, now)|
  {
    assert Due(rows, now).Keys == Ended(rows, now);
  }

  // What happens around one request: the cleanup batch the database picks, what other connections do
  // between cleanup and counting, and which statements fail. A statement that fails has no effect.
  datatype Surroundings = Surroundings(batch: set<Id>, others: seq<Op>, sweepFails: bool, takeFails: bool)

  function Prepared(rows: Table, now: int, s: Surroundings): Table {
    Play(Apply(rows, Sweep(now, s.batch)), s.others, |s.others|)
  }

  // The table after a request, and the answer.
  function Taken(rows: Table, op: Op, s: Surroundings): (Table, Result<int, Refusal>)
    requires op.Take?
  {
    if !ValidRequest(op.window, op.limit) then (rows, Err(InvalidLimit))
    else if s.sweepFails then (rows, Err(Storage))
    else
      var before := Prepared(rows, op.now, s);
      if s.takeFails then (before, Err(Storage)) else (Apply(before, op), Answer(before, op))
  }

  // Undisturbed, a request is answered, and leaves its own row, as if nothing had been cleaned up
  // before it; and no window that is running is touched.
  lemma TakenIgnoresCleanup(rows: Table, op: Op, s: Surroundings)
    requires op.Take? && IsBatch(Due(rows, op.now), RATE_LIMIT_BATCH, s.batch) && s.others == [] && !s.sweepFails && !s.takeFails
    ensures Taken(rows, op, s).1 == Answer(rows, op)
    ensures ValidRequest(op.window, op.limit) ==> Row(Taken(rows, op, s).0, op.id) == Row(Apply(rows, op), op.id)
    ensures forall id :: id != op.id && id in rows && op.now < rows[id].expiresAt ==>
              Row(Taken(rows, op, s).0, id) == Some(rows[id])
  {
    assert Prepared(rows, op.now, s) == rows - s.batch;
    assert forall id :: id in s.batch ==> id in Due(rows, op.now);
  }

  // A request fails for a window or a limit that is not positive, before anything happens, or when a
  // statement fails; then nothing is counted, and what cleanup and others did stays.
  lemma FailuresCountNothing(rows: Table, op: Op, s: Surroundings)
    requires op.Take?
    ensures Taken(rows, op, s).1 == Err(InvalidLimit) <==> op.window <= 0 || op.limit <= 0
    ensures Taken(rows, op, s).1 == Err(Storage) <==> op.window > 0 && op.limit > 0 && (s.sweepFails || s.takeFails)
    ensures op.window <= 0 || op.limit <= 0 || s.sweepFails ==> Taken(rows, op, s).0 == rows
    ensures op.window > 0 && op.limit > 0 && !s.sweepFails && s.takeFails ==>
              Taken(rows, op, s).0 == Play(rows - s.batch, s.others, |s.others|)
  {
  }

  // The budget table in the database.
  class Budgets {
    var rows: Table

    constructor ()
      ensures rows == map[]
    {
      rows := map[];
    }

    // Other connections' statements.
    method Interfere(others: seq<Op>)
      modifies this
      ensures rows == Play(old(rows), others, |others|)
    {
      for i := 0 to |others|
        invariant rows == Play(old(rows), others, i)
      {
        rows := Apply(rows, others[i]);
      }
    }

    method DeleteExpired(now: int, batch: set<Id>)
      requires IsBatch(Due(rows, now), RATE_LIMIT_BATCH, batch)
      modifies this
      ensures rows == Apply(old(rows), Sweep(now, batch))
    {
      rows := rows - batch;
    }

    method Prepare(now: int, s: Surroundings)
      requires IsBatch(Due(rows, now), RATE_LIMIT_BATCH, s.batch)
      modifies this
      ensures rows == Prepared(old(rows), now, s)
    {
      DeleteExpired(now, s.batch);
      Interfere(s.others);
    }

    // One statement that assigns every column from the old row.
    method UpsertAtOnce(id: Id, proposed: Bucket) returns (row: Bucket)
      modifies this
      ensures row == Upserted(Row(old(rows), id), proposed) && rows == old(rows)[id := row]
    {
      if id !in rows {
        row := proposed;
      } else {
        row := rows[id];
        var ended := row.expiresAt <= proposed.startedAt;
        row := Bucket(
          if ended then proposed.startedAt else row.startedAt,
          if ended then proposed.maxRequests else row.maxRequests,
          if ended then 1 else if row.requests <= row.maxRequests then row.requests + 1 else row.requests,
          if ended then proposed.expiresAt else row.expiresAt);
      }
      rows := rows[id := row];
    }

    // One statement whose assignments take effect one after another, in its own column order.
    method UpsertInOrder(id: Id, proposed: Bucket)
      modifies this
      ensures rows == old(rows)[id := Upserted(Row(old(rows), id), proposed)]
    {
      if id !in rows {
        rows := rows[id := proposed];
        return;
      }
      var row := rows[id];
      row := row.(requests :=
        if row.expiresAt <= proposed.startedAt then 1
        else if row.requests <= row.maxRequests then row.requests + 1
        else row.requests);
      row := row.(maxRequests := if row.expiresAt <= proposed.startedAt then proposed.maxRequests else row.maxRequests);
      row := row.(startedAt := if row.expiresAt <= proposed.startedAt then proposed.startedAt else row.startedAt);
      row := row.(expiresAt := if row.expiresAt <= proposed.startedAt then proposed.expiresAt else row.expiresAt);
      rows := rows[id := row];
    }

    method CountReturning(id: Id, now: int, window: int, limit: int) returns (retryAfter: int)
      requires ValidRequest(window, limit)
      modifies this
      ensures rows == Apply(old(rows), Take(id, now, window, limit))
      ensures Ok(retryAfter) == Answer(old(rows), Take(id, now, window, limit))
    {
      var row := UpsertAtOnce(id, Bucket(now, limit, 1, now + window));
      if row.requests > row.maxRequests {
        return row.expiresAt - now;
      }
      return 0;
    }

    method CountThenSelect(id: Id, now: int, window: int, limit: int) returns (retryAfter: int)
      requires ValidRequest(window, limit)
      modifies this
      ensures rows == Apply(old(rows), Take(id, now, window, limit))
      ensures Ok(retryAfter) == Answer(old(rows), Take(id, now, window, limit))
    {
      UpsertInOrder(id, Bucket(now, limit, 1, now + window));
      retryAfter := 0;
      var row := rows[id];
      if row.requests > row.maxRequests {
        retryAfter := row.expiresAt - now;
      }
    }

    // Cleanup, then the counted request, as two statements that other connections may separate.
    method TakeReturning(id: Id, now: int, window: int, limit: int, s: Surroundings) returns (r: Result<int, Refusal>)
      requires IsBatch(Due(rows, now), RATE_LIMIT_BATCH, s.batch)
      modifies this
      ensures (rows, r) == Taken(old(rows), Take(id, now, window, limit), s)
    {
      if window <= 0 || limit <= 0 {
        return Err(InvalidLimit);
      }
      if s.sweepFails {
        return Err(Storage);
      }
      Prepare(now, s);
      if s.takeFails {
        return Err(Storage);
      }
      var retryAfter := CountReturning(id, now, window, limit);
      return Ok(retryAfter);
    }

    // The same with the row read back in the transaction that wrote it.
    method TakeThenSelect(id: Id, now: int, window: int, limit: int, s: Surroundings) returns (r: Result<int, Refusal>)
      requires IsBatch(Due(rows, now), RATE_LIMIT_BATCH, s.batch)
      modifies this
      ensures (rows, r) == Taken(old(rows), Take(id, now, window, limit), s)
    {
      if window <= 0 || limit <= 0 {
        return Err(InvalidLimit);
      }
      if s.sweepFails {
        return Err(Storage);
      }
      Prepare(now, s);
      var saved := rows;
      var retryAfter := CountThenSelect(id, now, window, limit);
      if s.takeFails {
        rows := saved;
        return Err(Storage);
      }
      return Ok(retryAfter);
    }
  }
}
