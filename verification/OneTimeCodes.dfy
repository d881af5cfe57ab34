/** When a one-time code is accepted, in terms of the statements that came before. */
module OneTimeCodes {
  import opened Wrappers
  import opened ExpiringRows
  import opened AccountIdentity
  import opened Records
  import opened RecordSafety

  type LoginOps = seq<ExpiringRows.Op<Email, Hash, ()>>
  type ChangeOps = seq<ExpiringRows.Op<Sub, Hash, Email>>

  // ----- login codes

  ghost predicate LoginTrace(start: State, steps: seq<Step>, ops: LoginOps)
    requires Sane(start)
  {
    |ops| == |steps| && forall i {:trigger ops[i]} :: 0 <= i < |ops| ==> ops[i] == LoginOp(RecordSafety.Play(start, steps, i), steps[i])
  }

  lemma {:induction false} LoginsFollow(start: State, steps: seq<Step>, ops: LoginOps, n: nat)
    requires Sane(start) && start.logins == map[] && LoginTrace(start, steps, ops) && n <= |steps|
    ensures RecordSafety.Play(start, steps, n).logins == ExpiringRows.Play(ops, n)
  {
    if n > 0 {
      LoginsFollow(start, steps, ops, n - 1);
      assert ops[n - 1] == LoginOp(RecordSafety.Play(start, steps, n - 1), steps[n - 1]);
    }
  }

  lemma LoginOpTime(s: State, step: Step)
    ensures ExpiringRows.TimeOf(LoginOp(s, step)).Some? ==> ExpiringRows.TimeOf(LoginOp(s, step)) == RecordSafety.TimeOf(step)
  {
  }

  lemma LoginEnabled(start: State, steps: seq<Step>, ops: LoginOps, i: nat)
    requires RecordSafety.Run(start, steps) && start.logins == map[] && LoginTrace(start, steps, ops) && i < |ops|
    ensures ExpiringRows.Enabled(ExpiringRows.Play(ops, i), ops[i])
  {
    LoginsFollow(start, steps, ops, i);
    assert Records.Enabled(RecordSafety.Play(start, steps, i), steps[i]);
    assert ops[i] == LoginOp(RecordSafety.Play(start, steps, i), steps[i]);
  }

  lemma LoginsInTime(start: State, steps: seq<Step>, ops: LoginOps, k: nat, i: nat)
    requires Sane(start) && Monotone(steps) && LoginTrace(start, steps, ops) && k < i < |ops|
    requires ExpiringRows.TimeOf(ops[k]).Some? && ExpiringRows.TimeOf(ops[i]).Some?
    ensures ExpiringRows.TimeOf(ops[k]).value <= ExpiringRows.TimeOf(ops[i]).value
  {
    assert ops[k] == LoginOp(RecordSafety.Play(start, steps, k), steps[k]);
    assert ops[i] == LoginOp(RecordSafety.Play(start, steps, i), steps[i]);
    LoginOpTime(RecordSafety.Play(start, steps, k), steps[k]);
    LoginOpTime(RecordSafety.Play(start, steps, i), steps[i]);
    assert RecordSafety.NotAfter(steps, i, RecordSafety.TimeOf(steps[i]).value);
  }

  lemma LoginsRun(start: State, steps: seq<Step>, ops: LoginOps)
    requires RecordSafety.Run(start, steps) && start.logins == map[] && LoginTrace(start, steps, ops)
    ensures ExpiringRows.Run(ops)
  {
    forall i | 0 <= i < |ops| ensures ExpiringRows.Enabled(ExpiringRows.Play(ops, i), ops[i]) {
      LoginEnabled(start, steps, ops, i);
    }
    forall k, i | 0 <= k < i < |ops| && ExpiringRows.TimeOf(ops[k]).Some? && ExpiringRows.TimeOf(ops[i]).Some?
      ensures ExpiringRows.TimeOf(ops[k]).value <= ExpiringRows.TimeOf(ops[i]).value
    {
      LoginsInTime(start, steps, ops, k, i);
    }
  }

  // The step issues a new code for the address, or spends the one there is.
  ghost predicate LoginSettled(start: State, steps: seq<Step>, k: nat, email: Email)
    requires Sane(start) && k < |steps|
  {
    match steps[k]
    case UpsertLogin(other, _, _) => other == email
    case VerifyLogin(other, _, _, _, _) => other == email && ReplyAt(start, steps, k).Subject?
    case _ => false
  }

  // Step j issued a code for the address, and nothing before step n has settled it.
  ghost predicate LoginPending(start: State, steps: seq<Step>, n: nat, email: Email, j: nat)
    requires Sane(start) && n <= |steps|
  {
    && j < n && steps[j].UpsertLogin? && steps[j].email == email
    && forall k {:trigger LoginSettled(start, steps, k, email)} :: j < k < n ==> !LoginSettled(start, steps, k, email)
  }

  lemma VerifyReplies(s: State, step: Step)
    requires Sane(s) && step.VerifyLogin?
    ensures var found := Redeem(s.logins, step.email, step.code, step.now).Some?;
            && (Reply(s, step) == Invalid <==> !found)
            && (Reply(s, step).Subject? <==> found && !step.fails)
  {
    EnsureAlwaysSucceeds(s.dir, step.email, step.authId);
  }

  lemma SettlesAgree(start: State, steps: seq<Step>, ops: LoginOps, k: nat, email: Email)
    requires Sane(start) && start.logins == map[] && LoginTrace(start, steps, ops) && k < |steps|
    ensures Settles(ops, k, email) <==> LoginSettled(start, steps, k, email)
  {
    var s := RecordSafety.Play(start, steps, k);
    LoginsFollow(start, steps, ops, k);
    assert ops[k] == LoginOp(s, steps[k]);
    if steps[k].VerifyLogin? {
      VerifyReplies(s, steps[k]);
    }
  }

  lemma PendingAgree(start: State, steps: seq<Step>, ops: LoginOps, n: nat, email: Email, j: nat)
    requires Sane(start) && start.logins == map[] && LoginTrace(start, steps, ops) && n <= |steps|
    ensures Pending(ops, n, email, j) <==> LoginPending(start, steps, n, email, j)
  {
    if j < n {
      assert ops[j] == LoginOp(RecordSafety.Play(start, steps, j), steps[j]);
    }
    forall k: nat | j < k < n ensures Settles(ops, k, email) <==> LoginSettled(start, steps, k, email) {
      SettlesAgree(start, steps, ops, k, email);
    }
  }

  // Step j's code is the one that step i must present.
  ghost predicate LoginGood(start: State, steps: seq<Step>, i: nat, j: nat)
    requires Sane(start) && i < |steps| && steps[i].VerifyLogin?
  {
    LoginPending(start, steps, i, steps[i].email, j) && steps[j].code == steps[i].code && steps[i].now < steps[j].expiresAt
  }

  ghost predicate RowGood<K, S, D>(ops: seq<ExpiringRows.Op<K, S, D>>, i: nat, j: nat, d: D)
    requires i < |ops| && ops[i].Consume?
  {
    Pending(ops, i, ops[i].key, j) && ops[j].row.secret == ops[i].secret && ops[j].row.data == d && !Expired(ops[j].row, ops[i].now)
  }

  lemma RowGoodIsExact<K(!new), S, D(!new)>(ops: seq<ExpiringRows.Op<K, S, D>>, i: nat, d: D)
    requires ExpiringRows.Run(ops) && i < |ops| && ops[i].Consume?
    ensures AnswerAt(ops, i) == Some(d) <==> exists j: nat :: RowGood(ops, i, j, d)
  {
    RedemptionIsExact(ops, i, d);
    if AnswerAt(ops, i) == Some(d) {
      var j: nat :| Pending(ops, i, ops[i].key, j) && ops[j].row.secret == ops[i].secret
                    && ops[j].row.data == d && !Expired(ops[j].row, ops[i].now);
      assert RowGood(ops, i, j, d);
    }
  }

  lemma LoginGoodAgrees(start: State, steps: seq<Step>, ops: LoginOps, i: nat, j: nat)
    requires Sane(start) && start.logins == map[] && LoginTrace(start, steps, ops)
    requires i < |steps| && steps[i].VerifyLogin? && ops[i] == Consume(steps[i].email, steps[i].code, steps[i].now, steps[i].fails)
    ensures RowGood(ops, i, j, ()) <==> LoginGood(start, steps, i, j)
  {
    PendingAgree(start, steps, ops, i, steps[i].email, j);
    if j < i {
      assert ops[j] == LoginOp(RecordSafety.Play(start, steps, j), steps[j]);
    }
  }

  lemma LoginReplies(start: State, steps: seq<Step>, ops: LoginOps, i: nat)
    requires Sane(start) && start.logins == map[] && LoginTrace(start, steps, ops) && i < |steps| && steps[i].VerifyLogin?
    ensures ops[i] == Consume(steps[i].email, steps[i].code, steps[i].now, steps[i].fails)
    ensures ReplyAt(start, steps, i) != Invalid <==> AnswerAt(ops, i) == Some(())
    ensures ReplyAt(start, steps, i).Subject? <==> AnswerAt(ops, i) == Some(()) && !steps[i].fails
  {
    LoginsFollow(start, steps, ops, i);
    assert ops[i] == LoginOp(RecordSafety.Play(start, steps, i), steps[i]);
    VerifyReplies(RecordSafety.Play(start, steps, i), steps[i]);
    assert AnswerAt(ops, i).Some? ==> AnswerAt(ops, i).value == ();
  }

  lemma TraceLogins(start: State, steps: seq<Step>) returns (ops: LoginOps)
    requires Sane(start)
    ensures LoginTrace(start, steps, ops)
  {
    ops := seq(|steps|, k requires 0 <= k < |steps| => LoginOp(RecordSafety.Play(start, steps, k), steps[k]));
  }

  // A login code is accepted exactly when it is the latest issued for the address, has not been
  // spent, and has not expired; what cleanup has deleted makes no difference. It is spent unless the
  // transaction fails for another reason.
  lemma LoginIsExact(start: State, steps: seq<Step>, i: nat)
    requires RecordSafety.Run(start, steps) && start.logins == map[] && i < |steps| && steps[i].VerifyLogin?
    ensures ReplyAt(start, steps, i) != Invalid <==> exists j: nat :: LoginGood(start, steps, i, j)
    ensures ReplyAt(start, steps, i).Subject? <==> ReplyAt(start, steps, i) != Invalid && !steps[i].fails
  {
    var ops := TraceLogins(start, steps);
    LoginsRun(start, steps, ops);
    LoginReplies(start, steps, ops, i);
    RowGoodIsExact(ops, i, ());
    forall j: nat ensures RowGood(ops, i, j, ()) <==> LoginGood(start, steps, i, j) {
      LoginGoodAgrees(start, steps, ops, i, j);
    }
  }

  // ----- email-change codes

  ghost predicate ChangeTrace(start: State, steps: seq<Step>, ops: ChangeOps)
    requires Sane(start)
  {
    |ops| == |steps| && forall i {:trigger ops[i]} :: 0 <= i < |ops| ==> ops[i] == ChangeOp(RecordSafety.Play(start, steps, i), steps[i])
  }

  lemma TraceChanges(start: State, steps: seq<Step>) returns (ops: ChangeOps)
    requires Sane(start)
    ensures ChangeTrace(start, steps, ops)
  {
    ops := seq(|steps|, k requires 0 <= k < |steps| => ChangeOp(RecordSafety.Play(start, steps, k), steps[k]));
  }

  lemma {:induction false} ChangesFollow(start: State, steps: seq<Step>, ops: ChangeOps, n: nat)
    requires Sane(start) && start.changes == map[] && ChangeTrace(start, steps, ops) && n <= |steps|
    ensures RecordSafety.Play(start, steps, n).changes == ExpiringRows.Play(ops, n)
  {
    if n > 0 {
      ChangesFollow(start, steps, ops, n - 1);
      assert ops[n - 1] == ChangeOp(RecordSafety.Play(start, steps, n - 1), steps[n - 1]);
    }
  }

  lemma ChangeOpTime(s: State, step: Step)
    ensures ExpiringRows.TimeOf(ChangeOp(s, step)).Some? ==> ExpiringRows.TimeOf(ChangeOp(s, step)) == RecordSafety.TimeOf(step)
  {
  }

  lemma ChangesRun(start: State, steps: seq<Step>, ops: ChangeOps)
    requires RecordSafety.Run(start, steps) && start.changes == map[] && ChangeTrace(start, steps, ops)
    ensures ExpiringRows.Run(ops)
  {
    forall i | 0 <= i < |ops| ensures ExpiringRows.Enabled(ExpiringRows.Play(ops, i), ops[i]) {
      ChangesFollow(start, steps, ops, i);
      assert Records.Enabled(RecordSafety.Play(start, steps, i), steps[i]);
    }
    forall i | 0 <= i < |ops| && ExpiringRows.TimeOf(ops[i]).Some?
      ensures ExpiringRows.NotAfter(ops, i, ExpiringRows.TimeOf(ops[i]).value)
    {
      ChangeOpTime(RecordSafety.Play(start, steps, i), steps[i]);
      forall k | 0 <= k < i && ExpiringRows.TimeOf(ops[k]).Some?
        ensures ExpiringRows.TimeOf(ops[k]).value <= ExpiringRows.TimeOf(ops[i]).value
      {
        ChangeOpTime(RecordSafety.Play(start, steps, k), steps[k]);
      }
    }
  }

  // The step issues a new code for the account, spends the one there is, or ends the account.
  ghost predicate ChangeSettled(start: State, steps: seq<Step>, k: nat, sub: Sub)
    requires Sane(start) && k < |steps|
  {
    match steps[k]
    case UpsertChange(other, _, _, _) => other == sub && ReplyAt(start, steps, k) == Done
    case ConfirmChange(other, _, _) => other == sub && ReplyAt(start, steps, k) == Done
    case EndAccount(other) => other == sub
    case _ => false
  }

  ghost predicate ChangePending(start: State, steps: seq<Step>, n: nat, sub: Sub, j: nat)
    requires Sane(start) && n <= |steps|
  {
    && j < n && steps[j].UpsertChange? && steps[j].sub == sub && ReplyAt(start, steps, j) == Done
    && forall k {:trigger ChangeSettled(start, steps, k, sub)} :: j < k < n ==> !ChangeSettled(start, steps, k, sub)
  }

  // Step j's code, for this address, is the one that step i must present.
  ghost predicate ChangeGood(start: State, steps: seq<Step>, i: nat, j: nat, email: Email)
    requires Sane(start) && i < |steps| && steps[i].ConfirmChange?
  {
    && ChangePending(start, steps, i, steps[i].sub, j)
    && steps[j].newEmail == email && steps[j].code == steps[i].code && steps[i].now < steps[j].expiresAt
  }

  lemma ChangeReplies(s: State, step: Step)
    requires step.ConfirmChange? && Sane(s)
    ensures var found := Redeem(s.changes, step.sub, step.code, step.now);
            && ChangeOp(s, step) == Consume(step.sub, step.code, step.now, found.Some? && Unavailable(s.dir, step.sub, found.value))
            && (Reply(s, step) == Done <==> found.Some? && !Unavailable(s.dir, step.sub, found.value))
            && (Reply(s, step) == Conflict <==> found.Some? && Unavailable(s.dir, step.sub, found.value))
  {
  }

  lemma ChangeSettlesAgree(start: State, steps: seq<Step>, ops: ChangeOps, k: nat, sub: Sub)
    requires Sane(start) && start.changes == map[] && ChangeTrace(start, steps, ops) && k < |steps|
    ensures Settles(ops, k, sub) <==> ChangeSettled(start, steps, k, sub)
  {
    var s := RecordSafety.Play(start, steps, k);
    ChangesFollow(start, steps, ops, k);
    assert ops[k] == ChangeOp(s, steps[k]);
    if steps[k].ConfirmChange? {
      ChangeReplies(s, steps[k]);
    }
  }

  lemma ChangePendingAgree(start: State, steps: seq<Step>, ops: ChangeOps, n: nat, sub: Sub, j: nat)
    requires Sane(start) && start.changes == map[] && ChangeTrace(start, steps, ops) && n <= |steps|
    ensures Pending(ops, n, sub, j) <==> ChangePending(start, steps, n, sub, j)
    ensures Pending(ops, n, sub, j) ==> ops[j].row == Row(steps[j].code, steps[j].newEmail, Some(steps[j].expiresAt))
  {
    if j < n {
      assert ops[j] == ChangeOp(RecordSafety.Play(start, steps, j), steps[j]);
    }
    forall k: nat | j < k < n ensures Settles(ops, k, sub) <==> ChangeSettled(start, steps, k, sub) {
      ChangeSettlesAgree(start, steps, ops, k, sub);
    }
  }

  lemma ChangeGoodAgrees(start: State, steps: seq<Step>, ops: ChangeOps, i: nat, j: nat, email: Email)
    requires Sane(start) && start.changes == map[] && ChangeTrace(start, steps, ops)
    requires i < |steps| && steps[i].ConfirmChange?
    requires ops[i].Consume? && ops[i].key == steps[i].sub && ops[i].secret == steps[i].code && ops[i].now == steps[i].now
    ensures RowGood(ops, i, j, email) <==> ChangeGood(start, steps, i, j, email)
  {
    ChangePendingAgree(start, steps, ops, i, steps[i].sub, j);
  }

  // An email-change code is accepted exactly when it is the latest issued to the account, has not
  // been spent, and has not expired. Accepted, it changes the address if no other account has it, and
  // is otherwise left to be used again.
  lemma ChangeIsExact(start: State, steps: seq<Step>, i: nat, email: Email)
    requires RecordSafety.Run(start, steps) && start.changes == map[] && i < |steps| && steps[i].ConfirmChange?
    ensures var s := RecordSafety.Play(start, steps, i);
            (exists j: nat :: ChangeGood(start, steps, i, j, email)) <==>
              && Redeem(s.changes, steps[i].sub, steps[i].code, steps[i].now) == Some(email)
              && ReplyAt(start, steps, i) == (if Unavailable(s.dir, steps[i].sub, email) then Conflict else Done)
  {
    var s := RecordSafety.Play(start, steps, i);
    var ops := TraceChanges(start, steps);
    ChangesRun(start, steps, ops);
    ChangesFollow(start, steps, ops, i);
    assert ops[i] == ChangeOp(s, steps[i]);
    ChangeReplies(s, steps[i]);
    RowGoodIsExact(ops, i, email);
    forall j: nat ensures RowGood(ops, i, j, email) <==> ChangeGood(start, steps, i, j, email) {
      ChangeGoodAgrees(start, steps, ops, i, j, email);
    }
  }
}
