/**
  Handler calls that interleave: each charges its budgets, and only with their leave may it store a
  code or try one. Budgets and records are cleaned up at any time, and any call may break off.
 */
module HandlerRuns {
  import opened Wrappers
  import opened Decimal
  import opened ExpiryBatches
  import opened OtpBudgets
  import opened RecordSafety
  import B = RateLimit
  import RateSafety
  import RateBound
  import R = Records

  type CallId = nat

  // A budget has let this call through, at this time.
  datatype Pass = Pass(purpose: Purpose, budget: Budget, key: string, at: int)

  datatype State = State(rows: B.Table, records: R.State, passes: map<CallId, Pass>, clock: int)

  datatype Action =
    | Ask(call: CallId, purpose: Purpose, budget: Budget, key: string, now: int)
    | Use(call: CallId, step: R.Step)
    | Free(step: R.Step)
    | CleanBudgets(now: int, gone: set<B.Id>)
    | GiveUp(call: CallId)

  // Which budget must have let a step through. Steps that concern no code need none.
  function Guard(step: R.Step): Option<(Purpose, Budget, string)> {
    match step
    case UpsertLogin(email, _, _) => Some((Login, IssueWindow, email))
    case VerifyLogin(email, _, _, _, _) => Some((Login, Verify, email))
    case UpsertChange(sub, _, _, _) => Some((EmailChange, IssueWindow, FormatInt(sub)))
    case ConfirmChange(sub, _, _) => Some((EmailChange, Verify, FormatInt(sub)))
    case _ => None
  }

  predicate InTime(s: State, time: Option<int>) {
    time.Some? ==> s.clock <= time.value
  }

  predicate Enabled(s: State, act: Action) {
    match act
    case Ask(call, purpose, budget, key, now) =>
      && s.clock <= now
      && if budget.IssueWindow? then
           call in s.passes && s.passes[call] == Pass(purpose, IssueMinute, key, s.passes[call].at)
         else call !in s.passes
    case Use(call, step) =>
      && call in s.passes && InTime(s, TimeOf(step))
      && Guard(step) == Some((s.passes[call].purpose, s.passes[call].budget, s.passes[call].key))
    case Free(step) => Guard(step).None? && InTime(s, TimeOf(step)) && R.Enabled(s.records, step)
    case CleanBudgets(now, gone) => s.clock <= now && IsBatch(B.Due(s.rows, now), RATE_LIMIT_BATCH, gone)
    case GiveUp(call) => call in s.passes
  }

  function Later(clock: int, time: Option<int>): int {
    if time.Some? && clock <= time.value then time.value else clock
  }

  predicate Lets(rows: B.Table, op: B.Op)
    requires op.Take?
  {
    VerdictOf(B.Answer(rows, op)) == Allowed
  }

  function Apply(s: State, act: Action): State
    requires R.Sane(s.records)
  {
    match act
    case Ask(call, purpose, budget, key, now) =>
      var op := Charge(purpose, budget, key, now);
      s.(rows := B.Apply(s.rows, op),
         passes := if Lets(s.rows, op) then s.passes[call := Pass(purpose, budget, key, now)] else s.passes - {call},
         clock := Later(s.clock, Some(now)))
    case Use(call, step) =>
      s.(records := R.After(s.records, step), passes := s.passes - {call}, clock := Later(s.clock, TimeOf(step)))
    case Free(step) => s.(records := R.After(s.records, step), clock := Later(s.clock, TimeOf(step)))
    case CleanBudgets(now, gone) => s.(rows := B.Apply(s.rows, B.Sweep(now, gone)), clock := Later(s.clock, Some(now)))
    case GiveUp(call) => s.(passes := s.passes - {call})
  }

  lemma ApplyKeepsSane(s: State, act: Action)
    requires R.Sane(s.records)
    ensures R.Sane(Apply(s, act).records)
  {
    if act.Use? || act.Free? {
      R.AfterKeepsSane(s.records, act.step);
    }
  }

  datatype Run = Run(states: seq<State>, actions: seq<Action>)

  ghost predicate Init(s: State) {
    R.Sane(s.records) && s.rows == map[] && s.passes == map[]
  }

  ghost predicate Step(s: State, act: Action, r: State) {
    R.Sane(s.records) && Enabled(s, act) && r == Apply(s, act)
  }

  ghost predicate StepAt(run: Run, k: nat) {
    k < |run.actions| && k + 1 < |run.states| && Step(run.states[k], run.actions[k], run.states[k + 1])
  }

  ghost predicate Valid(run: Run) {
    && |run.states| == |run.actions| + 1
    && Init(run.states[0])
    && forall k :: 0 <= k < |run.actions| ==> StepAt(run, k)
  }

  // ----- the budgets' own run

  function BudgetOp(act: Action): Option<B.Op> {
    match act
    case Ask(_, purpose, budget, key, now) => Some(Charge(purpose, budget, key, now))
    case CleanBudgets(now, gone) => Some(B.Sweep(now, gone))
    case _ => None
  }

  function Trace(acts: seq<Action>, n: nat): seq<B.Op>
    requires n <= |acts|
  {
    if n == 0 then [] else Traced(Trace(acts, n - 1), acts[n - 1])
  }

  lemma BeforeExtends(ops: seq<B.Op>, op: B.Op, n: nat)
    requires n <= |ops|
    ensures RateSafety.Before(ops + [op], n) == RateSafety.Before(ops, n)
  {
    RateSafety.AnswersOfPrefix(ops, op, n);
  }

  lemma RunExtends(ops: seq<B.Op>, op: B.Op)
    requires RateSafety.Run(ops) && RateSafety.NotAfter(ops, |ops|, op.now)
    requires B.Enabled(RateSafety.Before(ops, |ops|), op)
    ensures RateSafety.Run(ops + [op])
  {
    forall i | 0 <= i < |ops + [op]| ensures B.Enabled(RateSafety.Before(ops + [op], i), (ops + [op])[i]) {
      BeforeExtends(ops, op, i);
      if i < |ops| {
        assert B.Enabled(RateSafety.Before(ops, i), ops[i]);
      }
    }
  }

  // The budgets' run so far, as state s has it.
  ghost predicate Traces(s: State, ops: seq<B.Op>) {
    && RateSafety.Run(ops) && Budgeted(ops)
    && RateSafety.NotAfter(ops, |ops|, s.clock)
    && s.rows == RateSafety.Before(ops, |ops|)
  }

  lemma BudgetStepTraces(s: State, act: Action, ops: seq<B.Op>)
    requires R.Sane(s.records) && Enabled(s, act) && BudgetOp(act).Some? && Traces(s, ops)
    ensures Traces(Apply(s, act), ops + [BudgetOp(act).value])
  {
    var op := BudgetOp(act).value;
    NotAfterExtends(ops, op, s.clock);
    RunExtends(ops, op);
    BudgetedExtends(ops, act);
    BeforeNext(ops, op);
  }

  lemma NotAfterExtends(ops: seq<B.Op>, op: B.Op, clock: int)
    requires RateSafety.NotAfter(ops, |ops|, clock) && clock <= op.now
    ensures RateSafety.NotAfter(ops, |ops|, op.now) && RateSafety.NotAfter(ops + [op], |ops + [op]|, op.now)
  {
  }

  lemma BeforeNext(ops: seq<B.Op>, op: B.Op)
    ensures RateSafety.Before(ops + [op], |ops + [op]|) == B.Apply(RateSafety.Before(ops, |ops|), op)
  {
    BeforeExtends(ops, op, |ops|);
  }

  lemma OtherStepTraces(s: State, act: Action, ops: seq<B.Op>)
    requires R.Sane(s.records) && Enabled(s, act) && BudgetOp(act).None? && Traces(s, ops)
    ensures Traces(Apply(s, act), ops)
  {
  }

  // What the trace becomes with one more step.
  function Traced(ops: seq<B.Op>, act: Action): seq<B.Op> {
    if BudgetOp(act).Some? then ops + [BudgetOp(act).value] else ops
  }

  lemma StepTraces(s: State, act: Action, r: State, ops: seq<B.Op>)
    requires Step(s, act, r) && Traces(s, ops)
    ensures Traces(r, Traced(ops, act))
  {
    if BudgetOp(act).Some? {
      BudgetStepTraces(s, act, ops);
    } else {
      OtherStepTraces(s, act, ops);
    }
  }

  lemma {:induction false} TraceRuns(run: Run, n: nat)
    requires Valid(run) && n < |run.states|
    ensures Traces(run.states[n], Trace(run.actions, n))
  {
    if n > 0 {
      TraceRuns(run, n - 1);
      assert StepAt(run, n - 1);
      StepTraces(run.states[n - 1], run.actions[n - 1], run.states[n], Trace(run.actions, n - 1));
    }
  }

  lemma BudgetedExtends(ops: seq<B.Op>, act: Action)
    requires Budgeted(ops) && BudgetOp(act).Some?
    ensures Budgeted(ops + [BudgetOp(act).value])
  {
    var all := ops + [BudgetOp(act).value];
    forall i {:trigger all[i].Take?} | 0 <= i < |all| && all[i].Take? ensures exists p, b :: all[i] == Charge(p, b, all[i].id.key, all[i].now) {
      if i < |ops| {
        assert ops[i].Take?;
      } else {
        assert all[i] == Charge(act.purpose, act.budget, all[i].id.key, all[i].now);
      }
    }
  }

  // ----- what a budget lets through

  predicate Counted(p: Pass, purpose: Purpose, budget: Budget, key: string, from: int, to: int) {
    p.purpose == purpose && p.budget == budget && p.key == key && from <= p.at < to
  }

  function Waiting(passes: map<CallId, Pass>, purpose: Purpose, budget: Budget, key: string, from: int, to: int): set<CallId> {
    set c | c in passes && Counted(passes[c], purpose, budget, key, from, to)
  }

  predicate IsUse(s: State, act: Action, purpose: Purpose, budget: Budget, key: string, from: int, to: int) {
    act.Use? && act.call in s.passes && Counted(s.passes[act.call], purpose, budget, key, from, to)
  }

  // Of the first n steps, those taken on a pass that the budget gave for this key at a time in [from, to).
  function Uses(run: Run, n: nat, purpose: Purpose, budget: Budget, key: string, from: int, to: int): nat
    requires n < |run.states| == |run.actions| + 1
  {
    if n == 0 then 0
    else
      Uses(run, n - 1, purpose, budget, key, from, to)
      + (if IsUse(run.states[n - 1], run.actions[n - 1], purpose, budget, key, from, to) then 1 else 0)
  }

  lemma OneMoreWaits(passes: map<CallId, Pass>, call: CallId, p: Pass, purpose: Purpose, budget: Budget, key: string, from: int, to: int)
    requires Counted(p, purpose, budget, key, from, to) && call !in Waiting(passes, purpose, budget, key, from, to)
    ensures |Waiting(passes[call := p], purpose, budget, key, from, to)| == |Waiting(passes, purpose, budget, key, from, to)| + 1
  {
    assert Waiting(passes[call := p], purpose, budget, key, from, to) == Waiting(passes, purpose, budget, key, from, to) + {call};
  }

  lemma OneFewerWaits(passes: map<CallId, Pass>, call: CallId, purpose: Purpose, budget: Budget, key: string, from: int, to: int)
    requires call in passes && Counted(passes[call], purpose, budget, key, from, to)
    ensures |Waiting(passes - {call}, purpose, budget, key, from, to)| + 1 == |Waiting(passes, purpose, budget, key, from, to)|
  {
    assert Waiting(passes - {call}, purpose, budget, key, from, to) == Waiting(passes, purpose, budget, key, from, to) - {call};
  }

  lemma OthersDoNotWait(s: State, act: Action, purpose: Purpose, budget: Budget, key: string, from: int, to: int)
    requires R.Sane(s.records) && Enabled(s, act) && !Gives(s, act, purpose, budget, key, from, to)
    ensures |Waiting(Apply(s, act).passes, purpose, budget, key, from, to)| <= |Waiting(s.passes, purpose, budget, key, from, to)|
  {
    SmallerSet(Waiting(Apply(s, act).passes, purpose, budget, key, from, to), Waiting(s.passes, purpose, budget, key, from, to));
  }

  // One step: a pass used is a pass less, and a pass more was given.
  lemma WaitingNext(s: State, act: Action, r: State, purpose: Purpose, budget: Budget, key: string, from: int, to: int)
    requires Step(s, act, r) && !budget.IssueMinute?
    ensures |Waiting(r.passes, purpose, budget, key, from, to)| + (if IsUse(s, act, purpose, budget, key, from, to) then 1 else 0)
            <= |Waiting(s.passes, purpose, budget, key, from, to)| + (if Gives(s, act, purpose, budget, key, from, to) then 1 else 0)
  {
    if IsUse(s, act, purpose, budget, key, from, to) {
      OneFewerWaits(s.passes, act.call, purpose, budget, key, from, to);
    } else if Gives(s, act, purpose, budget, key, from, to) {
      OneMoreWaits(s.passes, act.call, Pass(purpose, budget, key, act.now), purpose, budget, key, from, to);
    } else {
      OthersDoNotWait(s, act, purpose, budget, key, from, to);
    }
  }

  lemma SmallerSet(a: set<CallId>, b: set<CallId>)
    requires a <= b
    ensures |a| <= |b|
  {
    assert |b - a| == |b| - |a|;
  }

  // The budget lets the call through, in time.
  predicate Gives(s: State, act: Action, purpose: Purpose, budget: Budget, key: string, from: int, to: int) {
    && act.Ask? && act.purpose == purpose && act.budget == budget && act.key == key && from <= act.now < to
    && Lets(s.rows, Charge(purpose, budget, key, act.now))
  }

  lemma {:induction false} AdmissionsOfPrefix(ops: seq<B.Op>, op: B.Op, id: B.Id, n: nat, from: int, to: int)
    requires n <= |ops|
    ensures RateBound.Admissions(ops + [op], id, n, from, to) == RateBound.Admissions(ops, id, n, from, to)
  {
    if n > 0 {
      AdmissionsOfPrefix(ops, op, id, n - 1, from, to);
      BeforeExtends(ops, op, n - 1);
    }
  }

  lemma LetIsAdmitted(ops: seq<B.Op>, op: B.Op)
    requires RateSafety.Run(ops + [op]) && op.Take? && B.ValidRequest(op.window, op.limit)
    ensures Lets(RateSafety.Before(ops, |ops|), op) <==> RateBound.Admitted(ops + [op], op.id, |ops|)
  {
    var all := ops + [op];
    BeforeExtends(ops, op, |ops|);
    RateSafety.AnswersAreIdeal(all, |ops|);
    RateSafety.IdealIsSound(all, op.id, |ops|);
    B.UpsertedIsSound(RateSafety.Ideal(all, op.id, |ops|), op.now, op.window, op.limit);
  }

  lemma AdmissionsNext(s: State, act: Action, ops: seq<B.Op>, purpose: Purpose, budget: Budget, key: string, from: int, to: int)
    requires R.Sane(s.records) && Enabled(s, act) && Traces(s, ops) && BudgetOp(act).Some?
    ensures var id := B.Id(Scope(purpose, budget), key);
            RateBound.Admissions(ops + [BudgetOp(act).value], id, |ops| + 1, from, to)
            >= RateBound.Admissions(ops, id, |ops|, from, to) + (if Gives(s, act, purpose, budget, key, from, to) then 1 else 0)
  {
    var op := BudgetOp(act).value;
    BudgetStepTraces(s, act, ops);
    AdmissionsOfPrefix(ops, op, B.Id(Scope(purpose, budget), key), |ops|, from, to);
    if op.Take? {
      LetIsAdmitted(ops, op);
    }
  }

  // Of the first n steps, those at which the budget let a call for this key through in [from, to).
  function Given(run: Run, n: nat, purpose: Purpose, budget: Budget, key: string, from: int, to: int): nat
    requires n < |run.states| == |run.actions| + 1
  {
    if n == 0 then 0
    else
      Given(run, n - 1, purpose, budget, key, from, to)
      + (if Gives(run.states[n - 1], run.actions[n - 1], purpose, budget, key, from, to) then 1 else 0)
  }

  // Every pass used, and every pass still out, was given.
  lemma {:induction false} PassesWereGiven(run: Run, n: nat, purpose: Purpose, budget: Budget, key: string, from: int, to: int)
    requires Valid(run) && n < |run.states| && !budget.IssueMinute?
    ensures Uses(run, n, purpose, budget, key, from, to) + |Waiting(run.states[n].passes, purpose, budget, key, from, to)|
            <= Given(run, n, purpose, budget, key, from, to)
  {
    if n == 0 {
      assert Waiting(run.states[0].passes, purpose, budget, key, from, to) == {};
    } else {
      PassesWereGiven(run, n - 1, purpose, budget, key, from, to);
      assert StepAt(run, n - 1);
      WaitingNext(run.states[n - 1], run.actions[n - 1], run.states[n], purpose, budget, key, from, to);
    }
  }

  lemma AdmissionsGrow(run: Run, n: nat, purpose: Purpose, budget: Budget, key: string, from: int, to: int)
    requires Valid(run) && n < |run.actions|
    ensures var before, after, id := Trace(run.actions, n), Trace(run.actions, n + 1), B.Id(Scope(purpose, budget), key);
            RateBound.Admissions(after, id, |after|, from, to)
            >= RateBound.Admissions(before, id, |before|, from, to)
               + (if Gives(run.states[n], run.actions[n], purpose, budget, key, from, to) then 1 else 0)
  {
    TraceRuns(run, n);
    assert StepAt(run, n);
    if BudgetOp(run.actions[n]).Some? {
      AdmissionsNext(run.states[n], run.actions[n], Trace(run.actions, n), purpose, budget, key, from, to);
    }
  }

  // And each was given for an admission of its own.
  lemma {:induction false} GivenAreAdmitted(run: Run, n: nat, purpose: Purpose, budget: Budget, key: string, from: int, to: int)
    requires Valid(run) && n < |run.states|
    ensures var ops := Trace(run.actions, n);
            Given(run, n, purpose, budget, key, from, to)
            <= RateBound.Admissions(ops, B.Id(Scope(purpose, budget), key), |ops|, from, to)
  {
    if n > 0 {
      GivenAreAdmitted(run, n - 1, purpose, budget, key, from, to);
      AdmissionsGrow(run, n - 1, purpose, budget, key, from, to);
    }
  }

  // In any interleaving, whatever is reissued, spent, rolled back, broken off or cleaned up in
  // between, at most ten codes for a key are tried on charges of any ten minutes, and at most ten stored.
  lemma TenUsesPerTenMinutes(run: Run, purpose: Purpose, budget: Budget, key: string, from: int)
    requires Valid(run) && !budget.IssueMinute?
    ensures Uses(run, |run.actions|, purpose, budget, key, from, from + 600) <= 10
  {
    PassesWereGiven(run, |run.actions|, purpose, budget, key, from, from + 600);
    GivenAreAdmitted(run, |run.actions|, purpose, budget, key, from, from + 600);
    TraceRuns(run, |run.actions|);
    TenPerTenMinutes(Trace(run.actions, |run.actions|), purpose, budget, key, from);
  }

  // A pass names the time of the charge that gave it, which is past.
  lemma {:induction false} PassesAreOld(run: Run, n: nat, call: CallId)
    requires Valid(run) && n < |run.states| && call in run.states[n].passes
    ensures run.states[n].passes[call].at <= run.states[n].clock
  {
    if n > 0 {
      assert StepAt(run, n - 1);
      if call in run.states[n - 1].passes {
        PassesAreOld(run, n - 1, call);
      }
    }
  }

  // No code is tried or stored but on a pass of its own budget, given for its own key before.
  lemma EveryTryIsAUse(run: Run, n: nat)
    requires Valid(run) && n < |run.actions| && (run.actions[n].Use? || run.actions[n].Free?) && Guard(run.actions[n].step).Some?
    ensures run.actions[n].Use? && run.actions[n].call in run.states[n].passes
    ensures var (purpose, budget, key) := Guard(run.actions[n].step).value;
            var at := run.states[n].passes[run.actions[n].call].at;
            at <= run.states[n].clock && IsUse(run.states[n], run.actions[n], purpose, budget, key, at, at + 1)
  {
    assert StepAt(run, n);
    PassesAreOld(run, n, run.actions[n].call);
  }

  // Login codes tried for an address on charges made in [from, to), among the first n steps.
  function LoginTries(run: Run, n: nat, email: R.Email, from: int, to: int): nat
    requires n < |run.states| == |run.actions| + 1
  {
    if n == 0 then 0
    else LoginTries(run, n - 1, email, from, to) + (if IsLoginTry(run.states[n - 1], run.actions[n - 1], email, from, to) then 1 else 0)
  }

  predicate IsLoginTry(s: State, act: Action, email: R.Email, from: int, to: int) {
    && (act.Use? || act.Free?) && act.step.VerifyLogin? && act.step.email == email
    && (act.Use? && act.call in s.passes ==> from <= s.passes[act.call].at < to)
  }

  lemma {:induction false} TriesAreUses(run: Run, n: nat, email: R.Email, from: int, to: int)
    requires Valid(run) && n < |run.states|
    ensures LoginTries(run, n, email, from, to) <= Uses(run, n, Login, Verify, email, from, to)
  {
    if n > 0 {
      TriesAreUses(run, n - 1, email, from, to);
      assert StepAt(run, n - 1);
    }
  }

  // Reissuing, spending or rolling back a code does not reset the limit: in any interleaving an
  // address has at most ten login codes tried on charges of any ten minutes.
  lemma TenLoginTries(run: Run, email: R.Email, from: int)
    requires Valid(run)
    ensures LoginTries(run, |run.actions|, email, from, from + 600) <= 10
  {
    TriesAreUses(run, |run.actions|, email, from, from + 600);
    TenUsesPerTenMinutes(run, Login, Verify, email, from);
  }
}
