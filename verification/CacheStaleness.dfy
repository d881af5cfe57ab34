/** Exactly when a cached read can still return a version that is no longer the latest. */
module CacheStaleness {
  import opened Wrappers
  import opened CacheKeys
  import opened CacheCoherence
  import opened CacheRegularity

  // ----- two reads in a row

  lemma NextIsLater(ring: Keyring, run: Run, k: nat, a: Sub)
    requires Valid(ring, run) && k < |run.actions|
    ensures Later(run.states[k], run.states[k + 1], a)
  {
    RunKeepsInv(ring, run, k);
    assert Step(ring, run.states[k], run.actions[k], run.states[k + 1]);
    StepIsLater(ring, run.states[k], run.actions[k], a);
  }

  lemma LaterIsTransitive(s: State, t: State, u: State, a: Sub)
    requires Later(s, t, a) && Later(t, u, a)
    ensures Later(s, u, a)
  {
  }

  lemma {:induction false} RunIsLater(ring: Keyring, run: Run, i: nat, j: nat, a: Sub)
    requires Valid(ring, run) && i <= j < |run.states|
    ensures Later(run.states[i], run.states[j], a)
    decreases j
  {
    if i < j {
      var middle := run.states[j - 1];
      RunIsLater(ring, run, i, j - 1, a);
      assert Later(middle, run.states[j], a) by {
        NextIsLater(ring, run, j - 1, a);
      }
      LaterIsTransitive(run.states[i], middle, run.states[j], a);
    }
  }

  // A read that begins after another has returned goes back only over versions whose
  // invalidation is on its way when it begins.
  lemma ReadsGoBackOverPendingOnly(ring: Keyring, run: Run, b1: nat, e1: nat, r1: ReaderId,
                                   b2: nat, e2: nat, r2: ReaderId, a: Sub, j: nat)
    requires ReadSpan(ring, run, b1, e1, r1, a) && ReadSpan(ring, run, b2, e2, r2, a) && e1 <= b2
    requires run.states[e2].Reading(r2).version < j <= run.states[e1].Reading(r1).version
    ensures (a, j) in run.states[b2].pending
  {
    ReadsAreRegular(ring, run, b1, e1, r1, a);
    ReadsAreRegular(ring, run, b2, e2, r2, a);
    RunIsLater(ring, run, e1, b2, a);
    assert !run.states[b2].Settled(a, j);
  }

  // So with none on its way, reads do not go back.
  lemma SettledReadsStayInOrder(ring: Keyring, run: Run, b1: nat, e1: nat, r1: ReaderId,
                                b2: nat, e2: nat, r2: ReaderId, a: Sub)
    requires ReadSpan(ring, run, b1, e1, r1, a) && ReadSpan(ring, run, b2, e2, r2, a) && e1 <= b2
    requires forall j :: (a, j) !in run.states[b2].pending
    ensures run.states[e1].Reading(r1).version <= run.states[e2].Reading(r2).version
  {
    var v := run.states[e1].Reading(r1).version;
    if run.states[e2].Reading(r2).version < v {
      ReadsGoBackOverPendingOnly(ring, run, b1, e1, r1, b2, e2, r2, a, v);
    }
  }

  // ----- reads still to come

  // A reader about to fill a version of `a` below n at the current generation.
  predicate Carries(ring: Keyring, s: State, p: Reader, a: Sub, n: nat)
    requires WellFormed(s)
  {
    (p.Loaded? || p.Filling?) && p.sub == a && p.generation == s.generations[ShardOf(ring, a)] && p.version < n
  }

  predicate EntryBelow(ring: Keyring, s: State, a: Sub, n: nat)
    requires WellFormed(s)
  {
    var key := ring.Tagged(AccountKey(a), s.generations[ShardOf(ring, a)]);
    key in s.store && s.store[key].Encoded? && s.store[key].version < n
  }

  // What there is at the current generation of `a`, stored or about to be, is below version n.
  predicate Stale(ring: Keyring, s: State, a: Sub, n: nat)
    requires WellFormed(s)
  {
    EntryBelow(ring, s, a, n) || exists q :: q in s.readers && Carries(ring, s, s.readers[q], a, n)
  }

  // Whatever reader p ends up returning is version n of `a` or a later one.
  predicate AtLeast(p: Reader, a: Sub, n: nat) {
    match p
    case Idle => false
    case Probing(b, _) => b == a
    case Missed(b, _) => b == a
    case Loaded(b, _, v, _) => b == a && n <= v
    case Filling(b, _, v, _) => b == a && n <= v
    case Returned(b, v, _) => b == a && n <= v
    case Failed(b) => b == a
  }

  lemma FillStaysFresh(ring: Keyring, s: State, q: ReaderId, stored: bool, a: Sub, n: nat)
    requires Inv(ring, s) && s.Reading(q).Filling? && !EntryBelow(ring, s, a, n) && !Carries(ring, s, s.Reading(q), a, n)
    ensures WellFormed(Apply(ring, s, Fill(q, stored))) && !EntryBelow(ring, Apply(ring, s, Fill(q, stored)), a, n)
  {
    var p, now := s.Reading(q), s.generations[ShardOf(ring, a)];
    assert ReaderOk(ring, s, p);
    if ring.Tagged(AccountKey(p.sub), p.generation) == ring.Tagged(AccountKey(a), now) {
      TaggedKeysDistinct(ring, p.sub, p.generation, a, now);
    }
  }

  lemma BumpStaysFresh(ring: Keyring, s: State, act: Action, a: Sub, n: nat)
    requires Inv(ring, s) && Enabled(ring, s, act) && act.Bump? && !EntryBelow(ring, s, a, n)
    ensures WellFormed(Apply(ring, s, act)) && !EntryBelow(ring, Apply(ring, s, act), a, n)
  {
    assert EntryOk(ring, s, a, s.generations[ShardOf(ring, a)] + 1);
  }

  lemma OtherStepStaysFresh(ring: Keyring, s: State, act: Action, a: Sub, n: nat)
    requires WellFormed(s) && Enabled(ring, s, act) && !act.Fill? && !act.Bump? && !EntryBelow(ring, s, a, n)
    ensures WellFormed(Apply(ring, s, act)) && !EntryBelow(ring, Apply(ring, s, act), a, n)
  {
  }

  lemma EntryStaysFresh(ring: Keyring, s: State, act: Action, a: Sub, n: nat)
    requires Inv(ring, s) && Enabled(ring, s, act) && !EntryBelow(ring, s, a, n)
    requires forall q :: q in s.readers ==> !Carries(ring, s, s.readers[q], a, n)
    ensures WellFormed(Apply(ring, s, act)) && !EntryBelow(ring, Apply(ring, s, act), a, n)
  {
    if act.Fill? {
      assert !Carries(ring, s, s.readers[act.r], a, n);
      FillStaysFresh(ring, s, act.r, act.stored, a, n);
    } else if act.Bump? {
      BumpStaysFresh(ring, s, act, a, n);
    } else {
      OtherStepStaysFresh(ring, s, act, a, n);
    }
  }

  lemma OtherReadersStayFresh(ring: Keyring, s: State, act: Action, a: Sub, n: nat, q: ReaderId)
    requires Inv(ring, s) && Enabled(ring, s, act) && WellFormed(Apply(ring, s, act)) && !IsReaderStep(act, q)
    requires !Carries(ring, s, s.Reading(q), a, n)
    ensures !Carries(ring, Apply(ring, s, act), Apply(ring, s, act).Reading(q), a, n)
  {
    OthersLeaveMyReader(ring, s, act, q);
    assert q in s.readers ==> ReaderOk(ring, s, s.readers[q]);
  }

  lemma OwnStepStaysFresh(ring: Keyring, s: State, act: Action, a: Sub, n: nat, q: ReaderId)
    requires Inv(ring, s) && Enabled(ring, s, act) && WellFormed(Apply(ring, s, act)) && IsReaderStep(act, q)
    requires !Carries(ring, s, s.Reading(q), a, n) && n < |s.History(a)|
    ensures !Carries(ring, Apply(ring, s, act), Apply(ring, s, act).Reading(q), a, n)
  {
  }

  lemma StaysFresh(ring: Keyring, s: State, act: Action, a: Sub, n: nat)
    requires Inv(ring, s) && Enabled(ring, s, act) && !Stale(ring, s, a, n) && n < |s.History(a)|
    ensures Inv(ring, Apply(ring, s, act)) && !Stale(ring, Apply(ring, s, act), a, n) && n < |Apply(ring, s, act).History(a)|
  {
    StepKeepsInv(ring, s, act);
    StepIsLater(ring, s, act, a);
    EntryStaysFresh(ring, s, act, a, n);
    forall q | q in Apply(ring, s, act).readers ensures !Carries(ring, Apply(ring, s, act), Apply(ring, s, act).readers[q], a, n) {
      assert q in s.readers ==> !Carries(ring, s, s.readers[q], a, n);
      if IsReaderStep(act, q) {
        OwnStepStaysFresh(ring, s, act, a, n, q);
      } else {
        OtherReadersStayFresh(ring, s, act, a, n, q);
      }
    }
  }

  lemma ReadStaysAtLeast(ring: Keyring, s: State, act: Action, a: Sub, n: nat, r: ReaderId)
    requires Inv(ring, s) && Enabled(ring, s, act) && !Stale(ring, s, a, n) && n < |s.History(a)|
    requires AtLeast(s.Reading(r), a, n) && (act.Begin? ==> act.r != r)
    ensures AtLeast(Apply(ring, s, act).Reading(r), a, n)
  {
    if !IsReaderStep(act, r) {
      OthersLeaveMyReader(ring, s, act, r);
    } else if act.Probe? {
      assert ReaderOk(ring, s, s.readers[r]);
    }
  }

  // These steps, none of which begins a read of r's, end with r having returned version v.
  ghost predicate Finishes(ring: Keyring, s: State, acts: seq<Action>, r: ReaderId, v: nat)
    decreases |acts|
  {
    if acts == [] then s.Reading(r).Returned? && s.Reading(r).version == v
    else
      && WellFormed(s) && Enabled(ring, s, acts[0]) && (acts[0].Begin? ==> acts[0].r != r)
      && Finishes(ring, Apply(ring, s, acts[0]), acts[1..], r, v)
  }

  // Somewhere along these steps r begins a read of `a`, which returns version v at their end.
  ghost predicate CanReturn(ring: Keyring, s: State, acts: seq<Action>, r: ReaderId, a: Sub, v: nat)
    decreases |acts|
  {
    && acts != [] && WellFormed(s) && Enabled(ring, s, acts[0])
    && var t := Apply(ring, s, acts[0]);
       (acts[0] == Begin(r, a) && Finishes(ring, t, acts[1..], r, v)) || CanReturn(ring, t, acts[1..], r, a, v)
  }

  // Some continuation makes a read by r return a version below n.
  ghost predicate CanReturnBelow(ring: Keyring, s: State, r: ReaderId, a: Sub, n: nat) {
    exists acts: seq<Action>, v: nat :: v < n && CanReturn(ring, s, acts, r, a, v)
  }

  lemma {:induction false} FinishesAtLeast(ring: Keyring, s: State, acts: seq<Action>, r: ReaderId, a: Sub, v: nat, n: nat)
    requires Inv(ring, s) && !Stale(ring, s, a, n) && n < |s.History(a)| && AtLeast(s.Reading(r), a, n)
    requires Finishes(ring, s, acts, r, v)
    ensures n <= v
    decreases |acts|
  {
    if acts != [] {
      StaysFresh(ring, s, acts[0], a, n);
      ReadStaysAtLeast(ring, s, acts[0], a, n, r);
      FinishesAtLeast(ring, Apply(ring, s, acts[0]), acts[1..], r, a, v, n);
    }
  }

  lemma {:induction false} ReturnsAtLeast(ring: Keyring, s: State, acts: seq<Action>, r: ReaderId, a: Sub, v: nat, n: nat)
    requires Inv(ring, s) && !Stale(ring, s, a, n) && n < |s.History(a)| && CanReturn(ring, s, acts, r, a, v)
    ensures n <= v
    decreases |acts|
  {
    StaysFresh(ring, s, acts[0], a, n);
    var t := Apply(ring, s, acts[0]);
    if acts[0] == Begin(r, a) && Finishes(ring, t, acts[1..], r, v) {
      FinishesAtLeast(ring, t, acts[1..], r, a, v, n);
    } else {
      ReturnsAtLeast(ring, t, acts[1..], r, a, v, n);
    }
  }

  lemma HitReturns(ring: Keyring, s: State, r: ReaderId, a: Sub, n: nat) returns (acts: seq<Action>, v: nat)
    requires Inv(ring, s) && EntryBelow(ring, s, a, n) && Enabled(ring, s, Begin(r, a))
    ensures CanReturn(ring, s, acts, r, a, v) && v < n
  {
    var probe := Probe(r, true, false, false);
    var begun := Apply(ring, s, Begin(r, a));
    var last := Apply(ring, begun, probe);
    acts, v := [Begin(r, a), probe], last.Reading(r).version;
    assert Finishes(ring, last, [], r, v);
    assert [probe][1..] == [] && acts[1..] == [probe];
    assert Finishes(ring, begun, [probe], r, v);
  }

  lemma StepThenReturns(ring: Keyring, s: State, act: Action, acts: seq<Action>, r: ReaderId, a: Sub, v: nat)
    requires WellFormed(s) && Enabled(ring, s, act) && CanReturn(ring, Apply(ring, s, act), acts, r, a, v)
    ensures CanReturn(ring, s, [act] + acts, r, a, v)
  {
    assert ([act] + acts)[1..] == acts;
  }

  lemma FillStores(ring: Keyring, s: State, q: ReaderId, a: Sub, n: nat)
    requires Inv(ring, s) && s.Reading(q).Filling? && Carries(ring, s, s.Reading(q), a, n)
    ensures Enabled(ring, s, Fill(q, true)) && WellFormed(Apply(ring, s, Fill(q, true)))
    ensures EntryBelow(ring, Apply(ring, s, Fill(q, true)), a, n)
  {
  }

  lemma FillReturns(ring: Keyring, s: State, q: ReaderId, r: ReaderId, a: Sub, n: nat) returns (acts: seq<Action>, v: nat)
    requires Inv(ring, s) && s.Reading(q).Filling? && Carries(ring, s, s.Reading(q), a, n) && Enabled(ring, s, Begin(r, a))
    ensures CanReturn(ring, s, acts, r, a, v) && v < n
  {
    var act := Fill(q, true);
    FillStores(ring, s, q, a, n);
    StepKeepsInv(ring, s, act);
    OthersLeaveMyReader(ring, s, act, r);
    acts, v := HitReturns(ring, Apply(ring, s, act), r, a, n);
    StepThenReturns(ring, s, act, acts, r, a, v);
    acts := [act] + acts;
  }

  lemma RecheckFills(ring: Keyring, s: State, q: ReaderId, a: Sub, n: nat)
    requires Inv(ring, s) && s.Reading(q).Loaded? && Carries(ring, s, s.Reading(q), a, n)
    ensures Enabled(ring, s, Recheck(q)) && WellFormed(Apply(ring, s, Recheck(q)))
    ensures Apply(ring, s, Recheck(q)).Reading(q).Filling?
    ensures Carries(ring, Apply(ring, s, Recheck(q)), Apply(ring, s, Recheck(q)).Reading(q), a, n)
  {
  }

  lemma RecheckReturns(ring: Keyring, s: State, q: ReaderId, r: ReaderId, a: Sub, n: nat) returns (acts: seq<Action>, v: nat)
    requires Inv(ring, s) && s.Reading(q).Loaded? && Carries(ring, s, s.Reading(q), a, n) && Enabled(ring, s, Begin(r, a))
    ensures CanReturn(ring, s, acts, r, a, v) && v < n
  {
    var act := Recheck(q);
    RecheckFills(ring, s, q, a, n);
    StepKeepsInv(ring, s, act);
    OthersLeaveMyReader(ring, s, act, r);
    acts, v := FillReturns(ring, Apply(ring, s, act), q, r, a, n);
    StepThenReturns(ring, s, act, acts, r, a, v);
    acts := [act] + acts;
  }

  lemma SomeReadReturns(ring: Keyring, s: State, r: ReaderId, a: Sub, n: nat) returns (acts: seq<Action>, v: nat)
    requires Inv(ring, s) && Enabled(ring, s, Begin(r, a)) && Stale(ring, s, a, n)
    ensures CanReturn(ring, s, acts, r, a, v) && v < n
  {
    if EntryBelow(ring, s, a, n) {
      acts, v := HitReturns(ring, s, r, a, n);
    } else {
      var q :| q in s.readers && Carries(ring, s, s.readers[q], a, n);
      if s.readers[q].Filling? {
        acts, v := FillReturns(ring, s, q, r, a, n);
      } else {
        acts, v := RecheckReturns(ring, s, q, r, a, n);
      }
    }
  }

  // From any reachable state, a reader that is not reading can still come to return a version older
  // than the latest exactly when the account's current generation has such a version, stored or
  // about to be filled.
  lemma StaleReadsAreExact(ring: Keyring, run: Run, k: nat, r: ReaderId, a: Sub)
    requires Valid(ring, run) && k < |run.states| && Enabled(ring, run.states[k], Begin(r, a))
    ensures WellFormed(run.states[k]) && run.states[k].History(a) != []
    ensures var s := run.states[k];
            var n := |s.History(a)| - 1;
            CanReturnBelow(ring, s, r, a, n) <==> Stale(ring, s, a, n)
  {
    RunKeepsInv(ring, run, k);
    var s := run.states[k];
    StaleIsExact(ring, s, r, a, |s.History(a)| - 1);
  }

  lemma StaleIsExact(ring: Keyring, s: State, r: ReaderId, a: Sub, n: nat)
    requires Inv(ring, s) && Enabled(ring, s, Begin(r, a)) && n < |s.History(a)|
    ensures CanReturnBelow(ring, s, r, a, n) <==> Stale(ring, s, a, n)
  {
    if Stale(ring, s, a, n) {
      var acts, v := SomeReadReturns(ring, s, r, a, n);
      assert v < n && CanReturn(ring, s, acts, r, a, v);
    } else if CanReturnBelow(ring, s, r, a, n) {
      var acts: seq<Action>, v: nat :| v < n && CanReturn(ring, s, acts, r, a, v);
      ReturnsAtLeast(ring, s, acts, r, a, v, n);
    }
  }

  // ----- what invalidation deletes

  // The key of an account at an earlier generation than its own.
  ghost predicate Outdated(ring: Keyring, s: State, key: string, a: Sub, g: nat)
    requires WellFormed(s)
  {
    key == ring.Tagged(AccountKey(a), g) && g < s.generations[ShardOf(ring, a)]
  }

  lemma StaysOutdated(ring: Keyring, s: State, act: Action, key: string, a: Sub, g: nat)
    requires Inv(ring, s) && Enabled(ring, s, act) && Outdated(ring, s, key, a, g)
    ensures WellFormed(Apply(ring, s, act)) && Outdated(ring, Apply(ring, s, act), key, a, g)
  {
    StepKeepsInv(ring, s, act);
  }

  lemma NextDeleting(ring: Keyring, s: State, act: Action, w: WriterId) returns (a: Sub, g: nat)
    requires Inv(ring, s) && Enabled(ring, s, act) && w in Apply(ring, s, act).deleting
    requires w !in s.deleting || Apply(ring, s, act).deleting[w] != s.deleting[w]
    ensures WellFormed(Apply(ring, s, act)) && Outdated(ring, Apply(ring, s, act), Apply(ring, s, act).deleting[w], a, g)
  {
    StepKeepsInv(ring, s, act);
    a, g := act.sub, s.generations[ShardOf(ring, act.sub)];
  }

  lemma {:induction false} DeletesAreOutdated(ring: Keyring, run: Run, k: nat, w: WriterId) returns (a: Sub, g: nat)
    requires Valid(ring, run) && k < |run.states| && w in run.states[k].deleting
    ensures WellFormed(run.states[k]) && Outdated(ring, run.states[k], run.states[k].deleting[w], a, g)
  {
    assert k > 0;
    var s, act := run.states[k - 1], run.actions[k - 1];
    assert Step(ring, s, act, run.states[k]);
    RunKeepsInv(ring, run, k - 1);
    if w in s.deleting && run.states[k].deleting[w] == s.deleting[w] {
      a, g := DeletesAreOutdated(ring, run, k - 1, w);
      StaysOutdated(ring, s, act, s.deleting[w], a, g);
    } else {
      a, g := NextDeleting(ring, s, act, w);
    }
  }

  // What an invalidation deletes, however late, is never an entry that a read could find.
  lemma DeletionsSpareTheCurrent(ring: Keyring, run: Run, k: nat, a: Sub)
    requires Valid(ring, run) && k < |run.actions| && run.actions[k].Unlink?
    ensures WellFormed(run.states[k])
    ensures var key := ring.Tagged(AccountKey(a), run.states[k].generations[ShardOf(ring, a)]);
            && (key in run.states[k + 1].store <==> key in run.states[k].store)
            && (key in run.states[k].store ==> run.states[k + 1].store[key] == run.states[k].store[key])
  {
    RunKeepsInv(ring, run, k);
    var s, act := run.states[k], run.actions[k];
    assert Step(ring, s, act, run.states[k + 1]);
    var b, g := DeletesAreOutdated(ring, run, k, act.w);
    var now := s.generations[ShardOf(ring, a)];
    if ring.Tagged(AccountKey(a), now) == s.deleting[act.w] {
      TaggedKeysDistinct(ring, a, now, b, g);
    }
  }
}
