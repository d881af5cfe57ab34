/**
  A table whose rows are redeemed at most once before they expire: login challenges, email-change
  challenges and refresh tokens. Cleanup deletes expired rows in bounded batches.
 */
module ExpiringRows {
  import opened Wrappers
  import opened ExpiryBatches

  // `secret` is what a caller must present; a row without an expiry time never expires.
  datatype Row<S(==), D> = Row(secret: S, data: D, expiresAt: Option<int>)

  predicate Expired<S, D>(row: Row<S, D>, now: int) {
    row.expiresAt.Some? && row.expiresAt.value <= now
  }

  // What a caller presenting `secret` for `key` is given.
  function Redeem<K, S, D>(rows: map<K, Row<S, D>>, key: K, secret: S, now: int): Option<D> {
    if key in rows && rows[key].secret == secret && !Expired(rows[key], now) then Some(rows[key].data) else None
  }

  // `keep`: the transaction around the redemption rolls back.
  datatype Op<K, S, D> =
    | Put(key: K, row: Row<S, D>)
    | Consume(key: K, secret: S, now: int, keep: bool)
    | Remove(keys: set<K>)
    | Sweep(now: int, gone: set<K>)
    | Idle

  function Apply<K, S, D>(rows: map<K, Row<S, D>>, op: Op<K, S, D>): map<K, Row<S, D>> {
    match op
    case Put(key, row) => rows[key := row]
    case Consume(key, secret, now, keep) => if Redeem(rows, key, secret, now).Some? && !keep then rows - {key} else rows
    case Remove(keys) => rows - keys
    case Sweep(_, gone) => rows - gone
    case Idle => rows
  }

  function Due<K, S, D>(rows: map<K, Row<S, D>>, now: int): map<K, int> {
    map k | k in rows && Expired(rows[k], now) :: rows[k].expiresAt.value
  }

  predicate Enabled<K(==, !new), S, D>(rows: map<K, Row<S, D>>, op: Op<K, S, D>) {
    op.Sweep? ==> IsBatch(Due(rows, op.now), RECORD_BATCH, op.gone)
  }

  // ----- cleanup leaves every answer as it was

  // `stored` lacks nothing of `full` but rows that have expired.
  ghost predicate Agrees<K(!new), S, D>(stored: map<K, Row<S, D>>, full: map<K, Row<S, D>>, now: int) {
    && (forall k :: k in stored ==> k in full && full[k] == stored[k])
    && (forall k :: k in full && k !in stored ==> Expired(full[k], now))
  }

  lemma AgreesLater<K(!new), S, D>(stored: map<K, Row<S, D>>, full: map<K, Row<S, D>>, now: int, later: int)
    requires Agrees(stored, full, now) && now <= later
    ensures Agrees(stored, full, later)
  {
  }

  lemma SameAnswer<K(!new), S, D>(stored: map<K, Row<S, D>>, full: map<K, Row<S, D>>, key: K, secret: S, now: int)
    requires Agrees(stored, full, now)
    ensures Redeem(stored, key, secret, now) == Redeem(full, key, secret, now)
  {
  }

  lemma SameEffect<K(!new), S, D>(stored: map<K, Row<S, D>>, full: map<K, Row<S, D>>, op: Op<K, S, D>, now: int)
    requires Agrees(stored, full, now) && !op.Sweep? && (op.Consume? ==> op.now == now)
    ensures Agrees(Apply(stored, op), Apply(full, op), now)
  {
  }

  lemma SweepStaysClose<K(!new), S, D>(stored: map<K, Row<S, D>>, full: map<K, Row<S, D>>, op: Op<K, S, D>)
    requires op.Sweep? && Enabled(stored, op) && Agrees(stored, full, op.now)
    ensures Agrees(Apply(stored, op), full, op.now)
  {
    assert forall k :: k in op.gone ==> k in Due(stored, op.now);
  }

  // The table after these batches in turn.
  function SweptBy<K, S, D>(rows: map<K, Row<S, D>>, batches: seq<set<K>>): map<K, Row<S, D>> {
    if batches == [] then rows else SweptBy(rows - batches[0], batches[1..])
  }

  lemma DueAfter<K, S, D>(rows: map<K, Row<S, D>>, now: int, gone: set<K>)
    ensures Due(rows - gone, now) == Due(rows, now) - gone
  {
  }

  lemma {:induction false} SweepsRemain<K(!new), S, D>(rows: map<K, Row<S, D>>, now: int, batches: seq<set<K>>)
    requires AreBatches(Due(rows, now), RECORD_BATCH, batches)
    ensures Due(SweptBy(rows, batches), now) == Remaining(Due(rows, now), batches)
    decreases |batches|
  {
    if batches != [] {
      DueAfter(rows, now, batches[0]);
      SweepsRemain(rows - batches[0], now, batches[1..]);
    }
  }

  lemma {:induction false} SweepsSpare<K(!new), S, D>(rows: map<K, Row<S, D>>, now: int, batches: seq<set<K>>, k: K)
    requires AreBatches(Due(rows, now), RECORD_BATCH, batches)
    requires k in rows && (rows[k].expiresAt.None? || now < rows[k].expiresAt.value)
    ensures k in SweptBy(rows, batches) && SweptBy(rows, batches)[k] == rows[k]
    decreases |batches|
  {
    if batches != [] {
      DueAfter(rows, now, batches[0]);
      assert k !in Due(rows, now);
      SweepsSpare(rows - batches[0], now, batches[1..], k);
    }
  }

  function Lapsed<K, S, D>(rows: map<K, Row<S, D>>, now: int): set<K> {
    set k | k in rows && rows[k].expiresAt.Some? && rows[k].expiresAt.value <= now
  }

  lemma DueAreLapsed<K, S, D>(rows: map<K, Row<S, D>>, now: int)
    ensures Due(rows, now).Keys == Lapsed(rows, now) && |Due(rows, now)| == |Lapsed(rows, now)|
  {
    assert Due(rows, now).Keys == Lapsed(rows, now);
  }

  // Repeated batches at one time reach every expired row, in exactly as many rounds of a thousand as
  // the backlog takes.
  lemma SweepsDrain<K(!new), S, D>(rows: map<K, Row<S, D>>, now: int, batches: seq<set<K>>)
    requires AreBatches(Due(rows, now), RECORD_BATCH, batches)
    ensures Lapsed(SweptBy(rows, batches), now) == {} <==> |batches| * 1000 >= |Lapsed(rows, now)|
  {
    SweepsRemain(rows, now, batches);
    BatchesDrainAll(Due(rows, now), RECORD_BATCH, batches);
    DueAreLapsed(rows, now);
    DueAreLapsed(SweptBy(rows, batches), now);
  }

  // ----- what a redemption says about the past

  function Play<K, S, D>(ops: seq<Op<K, S, D>>, n: nat): map<K, Row<S, D>>
    requires n <= |ops|
  {
    if n == 0 then map[] else Apply(Play(ops, n - 1), ops[n - 1])
  }

  function TimeOf<K, S, D>(op: Op<K, S, D>): Option<int> {
    match op
    case Consume(_, _, now, _) => Some(now)
    case Sweep(now, _) => Some(now)
    case _ => None
  }

  ghost predicate NotAfter<K, S, D>(ops: seq<Op<K, S, D>>, n: nat, now: int)
    requires n <= |ops|
  {
    forall i :: 0 <= i < n && TimeOf(ops[i]).Some? ==> TimeOf(ops[i]).value <= now
  }

  ghost predicate Run<K(!new), S, D>(ops: seq<Op<K, S, D>>) {
    && (forall i {:trigger Enabled(Play(ops, i), ops[i])} :: 0 <= i < |ops| ==> Enabled(Play(ops, i), ops[i]))
    && forall i {:trigger TimeOf(ops[i])} :: 0 <= i < |ops| && TimeOf(ops[i]).Some? ==> NotAfter(ops, i, TimeOf(ops[i]).value)
  }

  function AnswerAt<K, S, D>(ops: seq<Op<K, S, D>>, i: nat): Option<D>
    requires i < |ops| && ops[i].Consume?
  {
    Redeem(Play(ops, i), ops[i].key, ops[i].secret, ops[i].now)
  }

  // Step k replaces, redeems or removes whatever is pending for the key. Cleanup does not.
  ghost predicate Settles<K, S, D>(ops: seq<Op<K, S, D>>, k: nat, key: K)
    requires k < |ops|
  {
    match ops[k]
    case Put(other, _) => other == key
    case Consume(other, _, _, keep) => other == key && AnswerAt(ops, k).Some? && !keep
    case Remove(keys) => key in keys
    case _ => false
  }

  // Step i put a row under the key, and nothing before step n has settled it.
  ghost predicate Pending<K, S, D>(ops: seq<Op<K, S, D>>, n: nat, key: K, i: nat)
    requires n <= |ops|
  {
    && i < n && ops[i].Put? && ops[i].key == key
    && forall k {:trigger Settles(ops, k, key)} :: i < k < n ==> !Settles(ops, k, key)
  }

  // The row under the key is the one that step i put; without a row, whatever is pending has expired.
  ghost predicate Follows<K(!new), S, D>(ops: seq<Op<K, S, D>>, n: nat, key: K, now: int, i: nat)
    requires n <= |ops|
  {
    && (key in Play(ops, n) ==> Pending(ops, n, key, i) && ops[i].row == Play(ops, n)[key])
    && (key !in Play(ops, n) ==> forall j: nat :: Pending(ops, n, key, j) ==> Expired(ops[j].row, now))
  }

  lemma PutFollows<K(!new), S, D>(ops: seq<Op<K, S, D>>, n: nat, key: K, now: int)
    requires n < |ops| && ops[n].Put? && ops[n].key == key
    ensures Follows(ops, n + 1, key, now, n)
  {
  }

  lemma SweepFollows<K(!new), S, D>(ops: seq<Op<K, S, D>>, n: nat, key: K, i: nat)
    requires n < |ops| && ops[n].Sweep? && Enabled(Play(ops, n), ops[n]) && Follows(ops, n, key, ops[n].now, i)
    ensures Follows(ops, n + 1, key, ops[n].now, i)
  {
    LastStep(ops, n + 1, key, i);
    PendingIsUnique(ops, n, key, i);
    assert key in ops[n].gone ==> key in Due(Play(ops, n), ops[n].now);
  }

  lemma OtherFollows<K(!new), S, D>(ops: seq<Op<K, S, D>>, n: nat, key: K, now: int, i: nat)
    requires n < |ops| && !ops[n].Sweep? && !(ops[n].Put? && ops[n].key == key) && Follows(ops, n, key, now, i)
    ensures Follows(ops, n + 1, key, now, i)
  {
    LastStep(ops, n + 1, key, i);
  }

  lemma FollowsLater<K(!new), S, D>(ops: seq<Op<K, S, D>>, n: nat, key: K, now: int, later: int, i: nat)
    requires n <= |ops| && Follows(ops, n, key, now, i) && now <= later
    ensures Follows(ops, n, key, later, i)
  {
  }

  // The table holds what is pending, but for what has expired.
  lemma {:induction false} RowsArePending<K(!new), S, D>(ops: seq<Op<K, S, D>>, n: nat, key: K, now: int) returns (i: nat)
    requires Run(ops) && n <= |ops| && NotAfter(ops, n, now)
    ensures Follows(ops, n, key, now, i)
  {
    i := 0;
    if n > 0 {
      var op := ops[n - 1];
      var before := if TimeOf(op).Some? then TimeOf(op).value else now;
      i := RowsArePending(ops, n - 1, key, before);
      assert Enabled(Play(ops, n - 1), op);
      if op.Put? && op.key == key {
        PutFollows(ops, n - 1, key, before);
        i := n - 1;
      } else if op.Sweep? {
        SweepFollows(ops, n - 1, key, i);
      } else {
        OtherFollows(ops, n - 1, key, before, i);
      }
      assert before <= now;
      FollowsLater(ops, n, key, before, now, i);
    }
  }

  lemma LastStep<K, S, D>(ops: seq<Op<K, S, D>>, n: nat, key: K, i: nat)
    requires 0 < n <= |ops|
    ensures forall j: nat :: j < n - 1 ==> (Pending(ops, n, key, j) <==> Pending(ops, n - 1, key, j) && !Settles(ops, n - 1, key))
    ensures Pending(ops, n, key, n - 1) <==> ops[n - 1].Put? && ops[n - 1].key == key
  {
  }

  lemma PendingIsUnique<K, S, D>(ops: seq<Op<K, S, D>>, n: nat, key: K, i: nat)
    requires n <= |ops|
    ensures Pending(ops, n, key, i) ==> forall j: nat :: Pending(ops, n, key, j) ==> j == i
  {
    forall j: nat | Pending(ops, n, key, i) && Pending(ops, n, key, j) ensures j == i {
      assert Settles(ops, i, key) && Settles(ops, j, key);
    }
  }

  // A redemption succeeds exactly when the latest row put under its key is still pending, carries
  // the presented secret, and has not expired; the answer is that row's.
  lemma RedemptionIsExact<K(!new), S, D(!new)>(ops: seq<Op<K, S, D>>, i: nat, d: D)
    requires Run(ops) && i < |ops| && ops[i].Consume?
    ensures AnswerAt(ops, i) == Some(d) <==>
              exists j: nat :: Pending(ops, i, ops[i].key, j) && ops[j].row.secret == ops[i].secret
                          && ops[j].row.data == d && !Expired(ops[j].row, ops[i].now)
  {
    assert TimeOf(ops[i]).Some?;
    var j := RowsArePending(ops, i, ops[i].key, ops[i].now);
    PendingIsUnique(ops, i, ops[i].key, j);
  }

  // Between two successful redemptions of one key there is a new row for it.
  lemma OncePerRow<K(!new), S, D>(ops: seq<Op<K, S, D>>, i: nat, j: nat)
    requires Run(ops) && i < j < |ops| && ops[i].Consume? && ops[j].Consume? && ops[i].key == ops[j].key
    requires AnswerAt(ops, i).Some? && !ops[i].keep && AnswerAt(ops, j).Some?
    ensures exists k :: i < k < j && ops[k].Put? && ops[k].key == ops[i].key
  {
    assert TimeOf(ops[j]).Some?;
    var k := RowsArePending(ops, j, ops[j].key, ops[j].now);
    assert Settles(ops, i, ops[i].key);
    assert i < k < j;
  }
}
