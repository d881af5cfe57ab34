/** What a client of the cache can rely on over any sequence of operations under a monotone clock. */
module MemorySafety {
  import opened Wrappers
  import opened MemorySpec

  // The state after the first n of a sequence of operations on a new cache.
  function Play(limits: Limits, ops: seq<Op>, n: nat): Cache
    requires n <= |ops|
  {
    if n == 0 then Cache([], false) else Step(limits, Play(limits, ops, n - 1), ops[n - 1]).0
  }

  function Reply(limits: Limits, ops: seq<Op>, i: nat): Result<Bytes, CacheError>
    requires i < |ops|
  {
    Step(limits, Play(limits, ops, i), ops[i]).1
  }

  function TimeOf(op: Op): Option<int> {
    match op
    case Set(_, _, _, now) => Some(now)
    case Get(_, _, now) => Some(now)
    case Clean(now) => Some(now)
    case _ => None
  }

  ghost predicate Monotone(ops: seq<Op>) {
    forall i, j :: 0 <= i < j < |ops| && TimeOf(ops[i]).Some? && TimeOf(ops[j]).Some? ==>
      TimeOf(ops[i]).value <= TimeOf(ops[j]).value
  }

  // Within both bounds, no repeated key, and nothing kept after closing.
  ghost predicate Sound(limits: Limits, c: Cache) {
    && DistinctKeys(c.entries)
    && |c.entries| <= limits.maxEntries
    && Total(c.entries) <= limits.maxBytes
    && (c.closed ==> c.entries == [])
  }

  // None of the first n operations is later than `now`.
  ghost predicate NotAfter(ops: seq<Op>, n: nat, now: int)
    requires n <= |ops|
  {
    forall i :: 0 <= i < n && TimeOf(ops[i]).Some? ==> TimeOf(ops[i]).value <= now
  }

  ghost predicate ExpireBy(es: seq<Entry>, latest: int) {
    forall i :: 0 <= i < |es| ==> es[i].expiresAt <= latest
  }

  lemma SuffixExpiresBy(es: seq<Entry>, of: seq<Entry>, latest: int)
    requires IsSuffix(es, of) && ExpireBy(of, latest)
    ensures ExpireBy(es, latest)
  {
    assert forall i :: 0 <= i < |es| ==> es[i] == of[|of| - |es| + i];
  }

  lemma {:induction false} SuffixIsNoLarger(es: seq<Entry>, of: seq<Entry>)
    requires IsSuffix(es, of)
    ensures Total(es) <= Total(of)
    decreases |of|
  {
    if |es| < |of| {
      assert of[|of| - |es|..] == of[1..][|of[1..]| - |es|..];
      SuffixIsNoLarger(es, of[1..]);
    }
  }

  lemma DropKeeps(limits: Limits, c: Cache, now: int, latest: int)
    requires Sound(limits, c) && Sorted(c.entries) && ExpireBy(c.entries, latest)
    ensures var r := c.(entries := DropExpired(c.entries, now));
            Sound(limits, r) && Sorted(r.entries) && ExpireBy(r.entries, latest)
  {
    DropExpiredIsSuffix(c.entries, now);
    SuffixIsDistinct(DropExpired(c.entries, now), c.entries);
    SuffixIsSorted(DropExpired(c.entries, now), c.entries);
    SuffixExpiresBy(DropExpired(c.entries, now), c.entries, latest);
    SuffixIsNoLarger(DropExpired(c.entries, now), c.entries);
  }

  lemma WithoutKeeps(limits: Limits, c: Cache, key: Bytes, latest: int)
    requires Sound(limits, c) && Sorted(c.entries) && ExpireBy(c.entries, latest)
    ensures var r := c.(entries := Without(c.entries, key));
            Sound(limits, r) && Sorted(r.entries) && ExpireBy(r.entries, latest)
  {
    WithoutRemoves(c.entries, key);
    var rest := Without(c.entries, key);
    forall i | 0 <= i < |rest| ensures rest[i].expiresAt <= latest {
      assert rest[i] in rest;
    }
    assert c.closed ==> Without(c.entries, key) == [];
  }

  lemma EvictKeeps(limits: Limits, c: Cache, size: nat, latest: int)
    requires limits.Valid() && size <= limits.maxBytes
    requires Sound(limits, c) && Sorted(c.entries) && ExpireBy(c.entries, latest)
    ensures var r := c.(entries := Evict(limits, c.entries, size));
            Sound(limits, r) && Sorted(r.entries) && ExpireBy(r.entries, latest)
  {
    var kept := Evict(limits, c.entries, size);
    EvictIsMinimal(limits, c.entries, size);
    SuffixIsDistinct(kept, c.entries);
    SuffixIsSorted(kept, c.entries);
    SuffixExpiresBy(kept, c.entries, latest);
    SuffixIsNoLarger(kept, c.entries);
  }

  lemma AppendKeeps(limits: Limits, c: Cache, e: Entry)
    requires Sound(limits, c) && Sorted(c.entries) && ExpireBy(c.entries, e.expiresAt)
    requires !c.closed && Fits(limits, c.entries, e.Size()) && !HasKey(c.entries, e.key)
    ensures var r := c.(entries := c.entries + [e]);
            Sound(limits, r) && Sorted(r.entries) && ExpireBy(r.entries, e.expiresAt)
  {
    TotalAppend(c.entries, e);
    assert forall i :: 0 <= i < |c.entries| ==> c.entries[i].key != e.key;
  }

  lemma SetKeeps(limits: Limits, c: Cache, key: Bytes, value: Bytes, now: int)
    requires limits.Valid() && Sound(limits, c) && Sorted(c.entries) && ExpireBy(c.entries, now + limits.ttl)
    requires !c.closed && |key| + |value| <= limits.maxBytes
    ensures var r := c.(entries := Kept(limits, c.entries, key, value, now) + [Entry(key, value, now + limits.ttl)]);
            Sound(limits, r) && Sorted(r.entries) && ExpireBy(r.entries, now + limits.ttl)
  {
    var latest := now + limits.ttl;
    DropKeeps(limits, c, now, latest);
    var unexpired := c.(entries := DropExpired(c.entries, now));
    WithoutKeeps(limits, unexpired, key, latest);
    EvictKeeps(limits, unexpired.(entries := Without(unexpired.entries, key)), |key| + |value|, latest);
    KeptMakesRoom(limits, c.entries, key, value, now);
    AppendKeeps(limits, c.(entries := Kept(limits, c.entries, key, value, now)), Entry(key, value, latest));
  }

  lemma StepKeeps(limits: Limits, c: Cache, op: Op, latest: int)
    requires limits.Valid() && Sound(limits, c) && Sorted(c.entries) && ExpireBy(c.entries, latest)
    requires op.Set? ==> latest == op.now + limits.ttl
    ensures var r := Step(limits, c, op).0; Sound(limits, r) && Sorted(r.entries) && ExpireBy(r.entries, latest)
  {
    match op
    case Set(_, key, value, now) =>
      if Step(limits, c, op).1.Ok? { SetKeeps(limits, c, key, value, now); }
    case Get(_, _, now) => DropKeeps(limits, c, now, latest);
    case Delete(_, key) => WithoutKeeps(limits, c, key, latest);
    case Clean(now) => DropKeeps(limits, c, now, latest);
    case Close =>
  }

  // Write order and expiry order agree, whatever the operations were.
  lemma {:induction false} PlayStaysSound(limits: Limits, ops: seq<Op>, n: nat, now: int)
    requires limits.Valid() && Monotone(ops) && n <= |ops| && NotAfter(ops, n, now)
    ensures var c := Play(limits, ops, n); Sound(limits, c) && Sorted(c.entries) && ExpireBy(c.entries, now + limits.ttl)
  {
    if n > 0 {
      var op := ops[n - 1];
      var time := if op.Set? then op.now else now;
      PlayStaysSound(limits, ops, n - 1, time);
      StepKeeps(limits, Play(limits, ops, n - 1), op, time + limits.ttl);
      assert time <= now;
    }
  }

  // ----- the latest write

  ghost predicate ClosedBefore(ops: seq<Op>, n: nat)
    requires n <= |ops|
  {
    exists i :: 0 <= i < n && ops[i].Close?
  }

  lemma {:induction false} PlayCloses(limits: Limits, ops: seq<Op>, n: nat)
    requires n <= |ops|
    ensures Play(limits, ops, n).closed <==> ClosedBefore(ops, n)
  {
    if n > 0 {
      PlayCloses(limits, ops, n - 1);
      assert ClosedBefore(ops, n) <==> ClosedBefore(ops, n - 1) || ops[n - 1].Close?;
    }
  }

  // Operation i is heard by a cache that was not closed before, and wrote this very entry.
  ghost predicate Writes(limits: Limits, ops: seq<Op>, i: nat, e: Entry) {
    && i < |ops| && ops[i].Set? && Stores(limits, ops[i], ClosedBefore(ops, i))
    && e == Entry(ops[i].key, ops[i].value, ops[i].now + limits.ttl)
  }

  ghost predicate Stores(limits: Limits, op: Op, closed: bool)
    requires op.Set?
  {
    Heard(op.ctx, op.key, closed) && |op.key| + |op.value| <= limits.maxBytes
  }

  // The operation takes this entry away: it rewrites or deletes the key, finds the entry
  // expired, evicts it to make room, or closes the cache.
  ghost predicate TakesAway(limits: Limits, es: seq<Entry>, closed: bool, op: Op, e: Entry) {
    match op
    case Set(_, key, value, now) =>
      && Stores(limits, op, closed)
      && (key == e.key || now >= e.expiresAt || Evicts(limits, Others(es, key, now), |key| + |value|, e))
    case Get(ctx, key, now) => Heard(ctx, key, closed) && now >= e.expiresAt
    case Delete(ctx, key) => Heard(ctx, key, closed) && key == e.key
    case Clean(now) => now >= e.expiresAt
    case Close => true
  }

  // The entry, those written after it, and one more of this size exceed a bound.
  ghost predicate Evicts(limits: Limits, rest: seq<Entry>, size: nat, e: Entry) {
    exists i :: 0 <= i < |rest| && rest[i] == e && Overflows(limits, rest, i, size)
  }

  predicate Overflows(limits: Limits, rest: seq<Entry>, i: nat, size: nat)
    requires i <= |rest|
  {
    |rest| - i + 1 > limits.maxEntries || Total(rest[i..]) + size > limits.maxBytes
  }

  lemma {:induction false} OthersAre(es: seq<Entry>, key: Bytes, now: int, e: Entry)
    ensures e in Others(es, key, now) <==> e in es && e.key != key && now < e.expiresAt
  {
    if es != [] {
      OthersAre(es[1..], key, now, e);
      assert es == [es[0]] + es[1..];
    }
  }

  lemma OthersAreDistinct(es: seq<Entry>, key: Bytes, now: int)
    requires DistinctKeys(es) && Sorted(es)
    ensures DistinctKeys(Others(es, key, now))
  {
    RestIsOthers(es, key, now);
    DropExpiredIsSuffix(es, now);
    SuffixIsDistinct(DropExpired(es, now), es);
    WithoutRemoves(DropExpired(es, now), key);
  }

  lemma SetSurvivors(limits: Limits, es: seq<Entry>, key: Bytes, value: Bytes, now: int, e: Entry)
    requires limits.Valid() && DistinctKeys(es) && Sorted(es) && |key| + |value| <= limits.maxBytes
    ensures e in Kept(limits, es, key, value, now) <==>
              e in es && key != e.key && now < e.expiresAt && !Evicts(limits, Others(es, key, now), |key| + |value|, e)
  {
    RestIsOthers(es, key, now);
    OthersAreDistinct(es, key, now);
    OthersAre(es, key, now, e);
    EvictionIsExact(limits, Others(es, key, now), |key| + |value|, e);
  }

  lemma EvictedOverflow(limits: Limits, rest: seq<Entry>, size: nat, i: nat)
    requires limits.Valid() && size <= limits.maxBytes && i < |rest| - |Evict(limits, rest, size)|
    ensures Overflows(limits, rest, i, size)
  {
    EvictIsMinimal(limits, rest, size);
    assert |rest[i..]| == |rest| - i;
  }

  lemma KeptFit(limits: Limits, rest: seq<Entry>, size: nat, i: nat)
    requires limits.Valid() && size <= limits.maxBytes && |rest| - |Evict(limits, rest, size)| <= i <= |rest|
    ensures !Overflows(limits, rest, i, size)
  {
    EvictIsMinimal(limits, rest, size);
    SuffixTotal(rest, |rest| - |Evict(limits, rest, size)|, i);
  }

  lemma InSuffix(rest: seq<Entry>, d: nat, i: nat)
    requires DistinctKeys(rest) && i < |rest| && d <= |rest|
    ensures rest[i] in rest[d..] <==> i >= d
  {
    if i >= d {
      assert rest[d..][i - d] == rest[i];
    }
  }

  // What eviction keeps are the entries from which on everything fits.
  lemma EvictionIsExact(limits: Limits, rest: seq<Entry>, size: nat, e: Entry)
    requires limits.Valid() && DistinctKeys(rest) && size <= limits.maxBytes
    ensures e in Evict(limits, rest, size) <==> e in rest && !Evicts(limits, rest, size, e)
  {
    var kept := Evict(limits, rest, size);
    EvictIsMinimal(limits, rest, size);
    if e in rest {
      var i :| 0 <= i < |rest| && rest[i] == e;
      InSuffix(rest, |rest| - |kept|, i);
      OnlyOnce(rest, i, e);
      if i < |rest| - |kept| {
        EvictedOverflow(limits, rest, size, i);
      } else {
        KeptFit(limits, rest, size, i);
      }
    }
  }

  lemma OnlyOnce(rest: seq<Entry>, i: nat, e: Entry)
    requires DistinctKeys(rest) && i < |rest| && rest[i] == e
    ensures forall j :: 0 <= j < |rest| && rest[j] == e ==> j == i
  {
  }

  lemma SuffixTotal(rest: seq<Entry>, d: nat, i: nat)
    requires d <= |rest| && i <= |rest|
    ensures i >= d ==> Total(rest[i..]) <= Total(rest[d..])
  {
    if i >= d {
      assert rest[i..] == rest[d..][|rest[d..]| - |rest[i..]|..];
      SuffixIsNoLarger(rest[i..], rest[d..]);
    }
  }

  ghost predicate Survives(limits: Limits, c: Cache, op: Op, e: Entry) {
    || (op.Set? && Stores(limits, op, c.closed) && e == Entry(op.key, op.value, op.now + limits.ttl))
    || (e in c.entries && !TakesAway(limits, c.entries, c.closed, op, e))
  }

  lemma SetStepSurvivors(limits: Limits, c: Cache, op: Op, e: Entry)
    requires limits.Valid() && op.Set? && DistinctKeys(c.entries) && Sorted(c.entries)
    ensures e in Step(limits, c, op).0.entries <==> Survives(limits, c, op, e)
  {
    if Stores(limits, op, c.closed) {
      SetSurvivors(limits, c.entries, op.key, op.value, op.now, e);
    }
  }

  lemma ExpiryStepSurvivors(limits: Limits, c: Cache, op: Op, e: Entry)
    requires (op.Get? || op.Clean?) && Sorted(c.entries)
    ensures e in Step(limits, c, op).0.entries <==> Survives(limits, c, op, e)
  {
    DropExpiredIsExact(c.entries, op.now);
  }

  lemma DeleteStepSurvivors(limits: Limits, c: Cache, op: Op, e: Entry)
    requires op.Delete? && DistinctKeys(c.entries)
    ensures e in Step(limits, c, op).0.entries <==> Survives(limits, c, op, e)
  {
    WithoutRemoves(c.entries, op.key);
  }

  lemma CloseStepSurvivors(limits: Limits, c: Cache, op: Op, e: Entry)
    requires op.Close?
    ensures e in Step(limits, c, op).0.entries <==> Survives(limits, c, op, e)
  {
  }

  lemma StepSurvivors(limits: Limits, c: Cache, op: Op, e: Entry)
    requires limits.Valid() && Sound(limits, c) && Sorted(c.entries)
    ensures e in Step(limits, c, op).0.entries <==> Survives(limits, c, op, e)
  {
    match op
    case Set(_, _, _, _) => SetStepSurvivors(limits, c, op, e);
    case Get(_, _, _) => ExpiryStepSurvivors(limits, c, op, e);
    case Delete(_, _) => DeleteStepSurvivors(limits, c, op, e);
    case Clean(_) => ExpiryStepSurvivors(limits, c, op, e);
    case Close => CloseStepSurvivors(limits, c, op, e);
  }

  ghost predicate Gone(limits: Limits, ops: seq<Op>, j: nat, e: Entry)
    requires j < |ops|
  {
    TakesAway(limits, Play(limits, ops, j).entries, ClosedBefore(ops, j), ops[j], e)
  }

  // Operation i wrote this entry and nothing before operation n has taken it away.
  ghost predicate LatestWrite(limits: Limits, ops: seq<Op>, n: nat, i: nat, e: Entry)
    requires n <= |ops|
  {
    && i < n && Writes(limits, ops, i, e)
    && forall j {:trigger Gone(limits, ops, j, e)} :: i < j < n ==> !Gone(limits, ops, j, e)
  }

  // Some successful write of this entry is still the latest of its key.
  ghost predicate Held(limits: Limits, ops: seq<Op>, n: nat, e: Entry)
    requires n <= |ops|
  {
    exists i :: LatestWrite(limits, ops, n, i, e)
  }

  lemma HeldExtends(limits: Limits, ops: seq<Op>, n: nat, e: Entry)
    requires 0 < n <= |ops|
    ensures Held(limits, ops, n, e) <==>
              Writes(limits, ops, n - 1, e) || (Held(limits, ops, n - 1, e) && !Gone(limits, ops, n - 1, e))
  {
    if Writes(limits, ops, n - 1, e) {
      assert LatestWrite(limits, ops, n, n - 1, e);
    }
    if Held(limits, ops, n - 1, e) {
      var i: nat :| LatestWrite(limits, ops, n - 1, i, e);
      assert LatestWrite(limits, ops, n, i, e) <==> !Gone(limits, ops, n - 1, e);
    }
    if Held(limits, ops, n, e) {
      var i: nat :| LatestWrite(limits, ops, n, i, e);
      assert i == n - 1 || LatestWrite(limits, ops, n - 1, i, e);
    }
  }

  lemma PlayNext(limits: Limits, ops: seq<Op>, n: nat)
    requires n < |ops|
    ensures Play(limits, ops, n + 1) == Step(limits, Play(limits, ops, n), ops[n]).0
  {
  }

  lemma NextSurvivors(limits: Limits, ops: seq<Op>, n: nat, c: Cache, e: Entry)
    requires limits.Valid() && n < |ops| && c == Play(limits, ops, n) && Sound(limits, c) && Sorted(c.entries)
    ensures e in Play(limits, ops, n + 1).entries <==> Writes(limits, ops, n, e) || (e in c.entries && !Gone(limits, ops, n, e))
  {
    PlayCloses(limits, ops, n);
    PlayNext(limits, ops, n);
    StepSurvivors(limits, c, ops[n], e);
  }

  lemma PlaySurvivors(limits: Limits, ops: seq<Op>, n: nat, now: int, e: Entry)
    requires limits.Valid() && Monotone(ops) && 0 < n <= |ops| && NotAfter(ops, n, now)
    ensures e in Play(limits, ops, n).entries <==>
              Writes(limits, ops, n - 1, e) || (e in Play(limits, ops, n - 1).entries && !Gone(limits, ops, n - 1, e))
  {
    PlayStaysSound(limits, ops, n - 1, now);
    NextSurvivors(limits, ops, n - 1, Play(limits, ops, n - 1), e);
  }

  lemma NextHolds(limits: Limits, ops: seq<Op>, n: nat, now: int, e: Entry)
    requires limits.Valid() && Monotone(ops) && 0 < n <= |ops| && NotAfter(ops, n, now)
    requires e in Play(limits, ops, n - 1).entries <==> Held(limits, ops, n - 1, e)
    ensures e in Play(limits, ops, n).entries <==> Held(limits, ops, n, e)
  {
    PlaySurvivors(limits, ops, n, now, e);
    HeldExtends(limits, ops, n, e);
  }

  // The cache holds exactly the writes that nothing has taken away.
  lemma {:induction false} HoldsLatestWrites(limits: Limits, ops: seq<Op>, n: nat, now: int, e: Entry)
    requires limits.Valid() && Monotone(ops) && n <= |ops| && NotAfter(ops, n, now)
    ensures e in Play(limits, ops, n).entries <==> Held(limits, ops, n, e)
  {
    if n > 0 {
      HoldsLatestWrites(limits, ops, n - 1, now, e);
      NextHolds(limits, ops, n, now, e);
    }
  }

  lemma GetAnswers(limits: Limits, c: Cache, ctx: Context, key: Bytes, now: int, value: Bytes)
    requires Sound(limits, c) && Sorted(c.entries)
    ensures Step(limits, c, Get(ctx, key, now)).1 == Ok(value) <==>
              ctx == Live && !IsBlank(key) && exists e :: e in c.entries && e.key == key && now < e.expiresAt && e.value == value
  {
    LookupAfterExpiry(c, key, now);
    var found := Lookup(DropExpired(c.entries, now), key);
    assert c.closed ==> found == None;
    if found.Some? {
      assert found == Some(found.value);
    }
    if e :| e in c.entries && e.key == key && now < e.expiresAt && e.value == value {
      assert found == Some(e);
    }
  }

  // A read answers with a value exactly when some write of the key put it there, has not been
  // taken away, and has not expired.
  lemma GetReturnsTheLatestWrite(limits: Limits, ops: seq<Op>, ctx: Context, key: Bytes, now: int, value: Bytes)
    requires limits.Valid() && Monotone(ops) && NotAfter(ops, |ops|, now)
    ensures Step(limits, Play(limits, ops, |ops|), Get(ctx, key, now)).1 == Ok(value) <==>
              && ctx == Live && !IsBlank(key)
              && exists e :: Held(limits, ops, |ops|, e) && e.key == key && e.value == value && now < e.expiresAt
  {
    var c := Play(limits, ops, |ops|);
    PlayStaysSound(limits, ops, |ops|, now);
    GetAnswers(limits, c, ctx, key, now, value);
    forall e ensures e in c.entries <==> Held(limits, ops, |ops|, e) {
      HoldsLatestWrites(limits, ops, |ops|, now, e);
    }
  }
}
