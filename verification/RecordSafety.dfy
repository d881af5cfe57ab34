/** One-time codes, sessions and cleanup over any run of statements under a non-decreasing clock. */
module RecordSafety {
  import opened Wrappers
  import opened ExpiryBatches
  import opened ExpiringRows
  import opened AccountIdentity
  import opened Records

  // The state after the first n steps.
  function Play(start: State, steps: seq<Step>, n: nat): (s: State)
    requires Sane(start) && n <= |steps|
    ensures Sane(s)
  {
    if n == 0 then start
    else
      AfterKeepsSane(Play(start, steps, n - 1), steps[n - 1]);
      After(Play(start, steps, n - 1), steps[n - 1])
  }

  function ReplyAt(start: State, steps: seq<Step>, i: nat): Answer
    requires Sane(start) && i < |steps|
  {
    Reply(Play(start, steps, i), steps[i])
  }

  function TimeOf(step: Step): Option<int> {
    match step
    case VerifyLogin(_, _, now, _, _) => Some(now)
    case ConfirmChange(_, _, now) => Some(now)
    case Lookup(_, now) => Some(now)
    case Exchange(_, _, now, _, _, _) => Some(now)
    case SweepLogins(now, _) => Some(now)
    case SweepChanges(now, _) => Some(now)
    case SweepTokens(now, _) => Some(now)
    case _ => None
  }

  ghost predicate NotAfter(steps: seq<Step>, n: nat, now: int)
    requires n <= |steps|
  {
    forall i :: 0 <= i < n && TimeOf(steps[i]).Some? ==> TimeOf(steps[i]).value <= now
  }

  ghost predicate Monotone(steps: seq<Step>) {
    forall i {:trigger TimeOf(steps[i])} :: 0 <= i < |steps| && TimeOf(steps[i]).Some? ==> NotAfter(steps, i, TimeOf(steps[i]).value)
  }

  ghost predicate Run(start: State, steps: seq<Step>) {
    && Sane(start)
    && Monotone(steps)
    && forall i {:trigger Records.Enabled(Play(start, steps, i), steps[i])} ::
         0 <= i < |steps| ==> Records.Enabled(Play(start, steps, i), steps[i])
  }

  predicate IsSweep(step: Step) {
    step.SweepLogins? || step.SweepChanges? || step.SweepTokens?
  }

  // ----- cleanup is unobservable

  // The same answer, or the other word for a token that has expired.
  predicate SameBut(full: Answer, stored: Answer) {
    full == stored || (full == Expiry && stored == Invalid)
  }

  ghost predicate Close(s: State, r: State, now: int) {
    && s.dir == r.dir
    && Agrees(s.logins, r.logins, now)
    && Agrees(s.changes, r.changes, now)
    && Agrees(s.tokens, r.tokens, now)
  }

  lemma SameLoginReply(s: State, r: State, step: Step)
    requires Sane(s) && Sane(r) && step.VerifyLogin? && Close(s, r, step.now)
    ensures Reply(s, step) == Reply(r, step)
  {
    SameAnswer(s.logins, r.logins, step.email, step.code, step.now);
  }

  lemma SameChangeReply(s: State, r: State, step: Step)
    requires Sane(s) && Sane(r) && step.ConfirmChange? && Close(s, r, step.now)
    ensures Reply(s, step) == Reply(r, step)
  {
    SameAnswer(s.changes, r.changes, step.sub, step.code, step.now);
  }

  // A token that is missing because it has expired is refused with another word.
  lemma SameTokenReply(s: State, r: State, step: Step)
    requires Sane(s) && Sane(r) && (step.Lookup? || step.Exchange?) && Close(s, r, step.now)
    ensures SameBut(Reply(r, step), Reply(s, step))
  {
  }

  lemma SameOtherReply(s: State, r: State, step: Step)
    requires Sane(s) && Sane(r) && s.dir == r.dir
    requires !step.VerifyLogin? && !step.ConfirmChange? && !step.Lookup? && !step.Exchange?
    ensures Reply(s, step) == Reply(r, step)
  {
  }

  lemma SameReply(s: State, r: State, step: Step, now: int)
    requires Sane(s) && Sane(r) && Close(s, r, now) && (TimeOf(step).Some? ==> TimeOf(step).value == now)
    ensures SameBut(Reply(r, step), Reply(s, step))
  {
    match step
    case VerifyLogin(_, _, _, _, _) => SameLoginReply(s, r, step);
    case ConfirmChange(_, _, _) => SameChangeReply(s, r, step);
    case Lookup(_, _) => SameTokenReply(s, r, step);
    case Exchange(_, _, _, _, _, _) => SameTokenReply(s, r, step);
    case _ => SameOtherReply(s, r, step);
  }

  lemma SameTokens(s: State, r: State, step: Step, now: int)
    requires Close(s, r, now) && !IsSweep(step) && (TimeOf(step).Some? ==> TimeOf(step).value == now)
    ensures Agrees(ApplyTokens(s, step), ApplyTokens(r, step), now)
  {
  }

  lemma SameDirectoryOp(s: State, r: State, step: Step, now: int)
    requires Close(s, r, now) && (TimeOf(step).Some? ==> TimeOf(step).value == now)
    ensures DirectoryOp(s, step) == DirectoryOp(r, step)
  {
    match step
    case VerifyLogin(email, code, _, _, _) => SameAnswer(s.logins, r.logins, email, code, now);
    case ConfirmChange(sub, code, _) => SameAnswer(s.changes, r.changes, sub, code, now);
    case _ =>
  }

  lemma SameDirectory(s: State, r: State, step: Step, now: int)
    requires Sane(s) && Sane(r) && Close(s, r, now) && (TimeOf(step).Some? ==> TimeOf(step).value == now)
    ensures ApplyDirectory(s, step) == ApplyDirectory(r, step)
  {
    SameDirectoryOp(s, r, step, now);
  }

  lemma StepStaysClose(s: State, r: State, step: Step, now: int)
    requires Sane(s) && Sane(r) && Close(s, r, now) && !IsSweep(step) && (TimeOf(step).Some? ==> TimeOf(step).value == now)
    ensures Close(After(s, step), After(r, step), now)
  {
    SameDirectory(s, r, step, now);
    SameTokens(s, r, step, now);
    SameEffect(s.logins, r.logins, LoginOp(s, step), now);
    if step.ConfirmChange? {
      SameAnswer(s.changes, r.changes, step.sub, step.code, now);
    }
    assert ChangeOp(s, step) == ChangeOp(r, step);
    SameEffect(s.changes, r.changes, ChangeOp(s, step), now);
  }

  lemma SweepIsClose(s: State, r: State, step: Step)
    requires Sane(s) && IsSweep(step) && Records.Enabled(s, step) && Close(s, r, TimeOf(step).value)
    ensures Close(After(s, step), r, TimeOf(step).value)
  {
    match step
    case SweepLogins(now, emails) => SweepLoginsIsClose(s.logins, r.logins, now, emails);
    case SweepChanges(now, subs) => SweepChangesIsClose(s.changes, r.changes, now, subs);
    case SweepTokens(now, hashes) => SweepTokensIsClose(s.tokens, r.tokens, now, hashes);
  }

  lemma SweepLoginsIsClose(logins: Logins, others: Logins, now: int, emails: set<Email>)
    requires IsBatch(Due(logins, now), RECORD_BATCH, emails) && Agrees(logins, others, now)
    ensures Agrees(logins - emails, others, now)
  {
    var op: ExpiringRows.Op<Email, Hash, ()> := Sweep(now, emails);
    SweepStaysClose(logins, others, op);
  }

  lemma SweepChangesIsClose(changes: Changes, others: Changes, now: int, subs: set<Sub>)
    requires IsBatch(Due(changes, now), RECORD_BATCH, subs) && Agrees(changes, others, now)
    ensures Agrees(changes - subs, others, now)
  {
    var op: ExpiringRows.Op<Sub, Hash, Email> := Sweep(now, subs);
    SweepStaysClose(changes, others, op);
  }

  lemma SweepTokensIsClose(tokens: Tokens, others: Tokens, now: int, hashes: set<Hash>)
    requires IsBatch(Due(tokens, now), RECORD_BATCH, hashes) && Agrees(tokens, others, now)
    ensures Agrees(tokens - hashes, others, now)
  {
    var op: ExpiringRows.Op<Hash, (), Session> := Sweep(now, hashes);
    SweepStaysClose(tokens, others, op);
  }

  lemma NextIsClose(s: State, r: State, step: Step, now: int)
    requires Sane(s) && Sane(r) && Close(s, r, now) && Records.Enabled(s, step) && (TimeOf(step).Some? ==> TimeOf(step).value == now)
    ensures Close(After(s, step), if IsSweep(step) then r else After(r, step), now)
  {
    if IsSweep(step) {
      SweepIsClose(s, r, step);
    } else {
      StepStaysClose(s, r, step, now);
    }
  }

  lemma CloseLater(s: State, r: State, now: int, later: int)
    requires Close(s, r, now) && now <= later
    ensures Close(s, r, later)
  {
    AgreesLater(s.logins, r.logins, now, later);
    AgreesLater(s.changes, r.changes, now, later);
    AgreesLater(s.tokens, r.tokens, now, later);
  }

  // The run without its cleanup steps.
  function Requests(steps: seq<Step>, n: nat): seq<Step>
    requires n <= |steps|
  {
    if n == 0 then []
    else if IsSweep(steps[n - 1]) then Requests(steps, n - 1)
    else Requests(steps, n - 1) + [steps[n - 1]]
  }

  lemma PlayNext(start: State, steps: seq<Step>, n: nat)
    requires Sane(start) && n < |steps|
    ensures Play(start, steps, n + 1) == After(Play(start, steps, n), steps[n])
  {
  }

  lemma SameNext(start: State, steps: seq<Step>, longer: seq<Step>, n: nat)
    requires Sane(start) && n < |steps| && n < |longer| && steps[n] == longer[n]
    requires Play(start, longer, n) == Play(start, steps, n)
    ensures Play(start, longer, n + 1) == Play(start, steps, n + 1)
  {
  }

  lemma {:induction false} PlayOfPrefix(start: State, steps: seq<Step>, longer: seq<Step>, n: nat)
    requires Sane(start) && n <= |steps| && steps <= longer
    ensures Play(start, longer, n) == Play(start, steps, n)
  {
    if n > 0 {
      PlayOfPrefix(start, steps, longer, n - 1);
      SameNext(start, steps, longer, n - 1);
    }
  }

  lemma {:induction false} RequestsArePrefix(steps: seq<Step>, n: nat, m: nat)
    requires n <= m <= |steps|
    ensures Requests(steps, n) <= Requests(steps, m)
  {
    if n < m {
      RequestsArePrefix(steps, n, m - 1);
    }
  }

  function Uncleaned(start: State, steps: seq<Step>, n: nat): (s: State)
    requires Sane(start) && n <= |steps|
    ensures Sane(s)
  {
    Play(start, Requests(steps, n), |Requests(steps, n)|)
  }

  lemma PlayLast(start: State, before: seq<Step>, longer: seq<Step>)
    requires Sane(start) && before <= longer && |longer| == |before| + 1
    ensures Play(start, longer, |longer|) == After(Play(start, before, |before|), longer[|before|])
  {
    PlayOfPrefix(start, before, longer, |before|);
    PlayNext(start, longer, |before|);
  }

  lemma NextUncleaned(start: State, steps: seq<Step>, n: nat)
    requires Sane(start) && 0 < n <= |steps|
    ensures Uncleaned(start, steps, n)
            == if IsSweep(steps[n - 1]) then Uncleaned(start, steps, n - 1) else After(Uncleaned(start, steps, n - 1), steps[n - 1])
  {
    if !IsSweep(steps[n - 1]) {
      PlayLast(start, Requests(steps, n - 1), Requests(steps, n));
    }
  }

  // A time at which step n may be compared: its own, if it has one.
  ghost predicate StepTime(steps: seq<Step>, n: nat, now: int)
    requires n < |steps|
  {
    NotAfter(steps, n, now) && (TimeOf(steps[n]).Some? ==> TimeOf(steps[n]).value == now)
  }

  lemma CloseNext(start: State, steps: seq<Step>, n: nat, now: int)
    requires Run(start, steps) && n < |steps| && StepTime(steps, n, now)
    requires Close(Play(start, steps, n), Uncleaned(start, steps, n), now)
    ensures Close(Play(start, steps, n + 1), Uncleaned(start, steps, n + 1), now)
  {
    assert Records.Enabled(Play(start, steps, n), steps[n]);
    NextIsClose(Play(start, steps, n), Uncleaned(start, steps, n), steps[n], now);
    PlayNext(start, steps, n);
    NextUncleaned(start, steps, n + 1);
  }

  lemma {:induction false} StaysClose(start: State, steps: seq<Step>, n: nat, now: int)
    requires Run(start, steps) && n <= |steps| && NotAfter(steps, n, now)
    ensures Close(Play(start, steps, n), Uncleaned(start, steps, n), now)
  {
    if n > 0 {
      var step := steps[n - 1];
      var before := if TimeOf(step).Some? then TimeOf(step).value else now;
      assert StepTime(steps, n - 1, before) && before <= now;
      StaysClose(start, steps, n - 1, before);
      CloseNext(start, steps, n - 1, before);
      CloseLater(Play(start, steps, n), Uncleaned(start, steps, n), before, now);
    }
  }

  lemma UncleanedReplies(start: State, steps: seq<Step>, n: nat)
    requires Run(start, steps) && n < |steps|
    ensures SameBut(Reply(Uncleaned(start, steps, n), steps[n]), ReplyAt(start, steps, n))
  {
    var now := LatestTime(steps, n);
    StaysClose(start, steps, n, now);
    SameReply(Play(start, steps, n), Uncleaned(start, steps, n), steps[n], now);
  }

  lemma RequestAt(steps: seq<Step>, n: nat)
    requires n < |steps| && !IsSweep(steps[n])
    ensures var requests, i := Requests(steps, |steps|), |Requests(steps, n)|;
            i < |requests| && requests[i] == steps[n] && Requests(steps, n) <= requests
  {
    RequestsArePrefix(steps, n + 1, |steps|);
    assert Requests(steps, n + 1) == Requests(steps, n) + [steps[n]];
  }

  lemma SameReplyAt(start: State, before: seq<Step>, longer: seq<Step>)
    requires Sane(start) && before <= longer && |before| < |longer|
    ensures ReplyAt(start, longer, |before|) == Reply(Play(start, before, |before|), longer[|before|])
  {
    PlayOfPrefix(start, before, longer, |before|);
  }

  // Every login, email change, refresh and revocation is answered as it would be in the run without
  // its cleanup steps, except that an expired token may be called invalid instead.
  lemma CleanupIsUnobservable(start: State, steps: seq<Step>, n: nat)
    requires Run(start, steps) && n < |steps| && !IsSweep(steps[n])
    ensures var requests, i := Requests(steps, |steps|), |Requests(steps, n)|;
            && i < |requests| && requests[i] == steps[n]
            && SameBut(ReplyAt(start, requests, i), ReplyAt(start, steps, n))
  {
    RequestAt(steps, n);
    SameReplyAt(start, Requests(steps, n), Requests(steps, |steps|));
    UncleanedReplies(start, steps, n);
  }

  lemma LatestTime(steps: seq<Step>, n: nat) returns (now: int)
    requires Monotone(steps) && n < |steps|
    ensures StepTime(steps, n, now)
  {
    if TimeOf(steps[n]).Some? {
      now := TimeOf(steps[n]).value;
    } else {
      now := UpperBound(steps, n);
    }
  }

  lemma {:induction false} UpperBound(steps: seq<Step>, n: nat) returns (now: int)
    requires n <= |steps|
    ensures NotAfter(steps, n, now)
  {
    if n == 0 {
      now := 0;
    } else {
      now := UpperBound(steps, n - 1);
      if TimeOf(steps[n - 1]).Some? && TimeOf(steps[n - 1]).value > now {
        now := TimeOf(steps[n - 1]).value;
      }
    }
  }
}
