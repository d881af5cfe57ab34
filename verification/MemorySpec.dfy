/**
  What the bounded in-memory cache is, as a sequence of entries in write order, and what
  its clients can rely on. The linked structure that implements it is in MemoryStore.
 */
module MemorySpec {
  import opened Wrappers

  type Byte = b: int | 0 <= b < 256
  type Bytes = seq<Byte>

  datatype Entry = Entry(key: Bytes, value: Bytes, expiresAt: int) {
    function Size(): nat {
      |key| + |value|
    }
  }

  datatype Limits = Limits(ttl: int, maxEntries: int, maxBytes: int) {
    predicate Valid() {
      ttl > 0 && maxEntries > 0 && maxBytes > 0
    }
  }

  datatype CacheError = NilContext | Cancelled | InvalidKey | NotFound | TooLarge | Closed
  datatype Context = Nil | Ended | Live

  // `closed` rejects everything; a closed cache is empty.
  datatype Cache = Cache(entries: seq<Entry>, closed: bool)

  datatype Op =
    | Set(ctx: Context, key: Bytes, value: Bytes, now: int)
    | Get(ctx: Context, key: Bytes, now: int)
    | Delete(ctx: Context, key: Bytes)
    | Clean(now: int)
    | Close

  // ----- request validation

  // The length of the UTF-8 encoding of a white-space character at the front of `s`, or 0.
  function SpaceWidth(s: Bytes): (n: nat)
    ensures n <= |s|
  {
    if |s| >= 1 && (9 <= s[0] <= 13 || s[0] == 0x20) then 1
    else if |s| >= 2 && s[0] == 0xC2 && (s[1] == 0x85 || s[1] == 0xA0) then 2
    else if |s| >= 3 && s[0] == 0xE1 && s[1] == 0x9A && s[2] == 0x80 then 3
    else if |s| >= 3 && s[0] == 0xE2 && s[1] == 0x80 && (0x80 <= s[2] <= 0x8A || s[2] == 0xA8 || s[2] == 0xA9 || s[2] == 0xAF) then 3
    else if |s| >= 3 && s[0] == 0xE2 && s[1] == 0x81 && s[2] == 0x9F then 3
    else if |s| >= 3 && s[0] == 0xE3 && s[1] == 0x80 && s[2] == 0x80 then 3
    else 0
  }

  predicate IsBlank(s: Bytes) {
    s == [] || (SpaceWidth(s) > 0 && IsBlank(s[SpaceWidth(s)..]))
  }

  // The white-space characters, and their encoding.
  predicate IsSpace(c: int) {
    || 0x9 <= c <= 0xD || c == 0x20 || c == 0x85 || c == 0xA0 || c == 0x1680 || 0x2000 <= c <= 0x200A
    || c == 0x2028 || c == 0x2029 || c == 0x202F || c == 0x205F || c == 0x3000
  }

  function Utf8(c: int): Bytes
    requires 0 <= c < 0x1_0000
  {
    if c < 0x80 then [c]
    else if c < 0x800 then [0xC0 + c / 64, 0x80 + c % 64]
    else [0xE0 + c / 4096, 0x80 + c / 64 % 64, 0x80 + c % 64]
  }

  predicate AllSpaces(cs: seq<int>) {
    forall i :: 0 <= i < |cs| ==> IsSpace(cs[i])
  }

  function Encoded(cs: seq<int>): Bytes
    requires AllSpaces(cs)
  {
    if cs == [] then [] else Utf8(cs[0]) + Encoded(cs[1..])
  }

  lemma SpaceInFront(c: int, rest: Bytes)
    requires IsSpace(c)
    ensures SpaceWidth(Utf8(c) + rest) == |Utf8(c)|
  {
    if c >= 0x800 {
      assert c / 4096 == if c < 0x2000 then 1 else if c < 0x3000 then 2 else 3;
    }
  }

  lemma SpaceOfWidth(s: Bytes) returns (c: int)
    requires SpaceWidth(s) > 0
    ensures IsSpace(c) && SpaceWidth(s) == |Utf8(c)| && s[..SpaceWidth(s)] == Utf8(c)
  {
    if SpaceWidth(s) == 1 {
      c := s[0];
    } else if SpaceWidth(s) == 2 {
      c := s[1];
    } else {
      var x: int, y: int, z: int := s[0], s[1], s[2];
      c := (x - 0xE0) * 4096 + (y - 0x80) * 64 + (z - 0x80);
    }
  }

  lemma SplitSpace(s: Bytes) returns (c: int, rest: Bytes)
    requires s != [] && IsBlank(s)
    ensures IsSpace(c) && IsBlank(rest) && s == Utf8(c) + rest && |rest| < |s|
  {
    c := SpaceOfWidth(s);
    rest := s[SpaceWidth(s)..];
    assert s == s[..SpaceWidth(s)] + rest;
  }

  lemma {:induction false} BlankIsSpaces(s: Bytes) returns (cs: seq<int>)
    requires IsBlank(s)
    ensures AllSpaces(cs) && s == Encoded(cs)
    decreases |s|
  {
    cs := [];
    if s != [] {
      var c, tail := SplitSpace(s);
      var rest := BlankIsSpaces(tail);
      cs := [c] + rest;
      EncodedStartsWith(c, rest);
    }
  }

  lemma EncodedStartsWith(c: int, rest: seq<int>)
    requires IsSpace(c) && AllSpaces(rest)
    ensures AllSpaces([c] + rest) && Encoded([c] + rest) == Utf8(c) + Encoded(rest)
  {
    assert ([c] + rest)[1..] == rest;
  }

  lemma {:induction false} SpacesAreBlank(cs: seq<int>)
    requires AllSpaces(cs)
    ensures IsBlank(Encoded(cs))
  {
    if cs != [] {
      SpaceInFront(cs[0], Encoded(cs[1..]));
      assert Encoded(cs)[SpaceWidth(Encoded(cs))..] == Encoded(cs[1..]);
      SpacesAreBlank(cs[1..]);
    }
  }

  // A key is blank exactly when it is the encoding of white-space characters and nothing else.
  lemma BlankIsExact(s: Bytes)
    ensures IsBlank(s) <==> exists cs :: AllSpaces(cs) && s == Encoded(cs)
  {
    if IsBlank(s) {
      var cs := BlankIsSpaces(s);
    } else if cs :| AllSpaces(cs) && s == Encoded(cs) {
      SpacesAreBlank(cs);
    }
  }

  function Validate(ctx: Context, key: Bytes): Option<CacheError> {
    if ctx.Nil? then Some(NilContext)
    else if ctx.Ended? then Some(Cancelled)
    else if IsBlank(key) then Some(InvalidKey)
    else None
  }

  // ----- operations on the entries

  function Total(es: seq<Entry>): nat {
    if es == [] then 0 else |es[0].key| + |es[0].value| + Total(es[1..])
  }

  // Expiry looks at the front only.
  function DropExpired(es: seq<Entry>, now: int): seq<Entry> {
    if es == [] || now < es[0].expiresAt then es else DropExpired(es[1..], now)
  }

  function Without(es: seq<Entry>, key: Bytes): seq<Entry> {
    if es == [] then []
    else if es[0].key == key then es[1..]
    else [es[0]] + Without(es[1..], key)
  }

  predicate Fits(limits: Limits, es: seq<Entry>, size: nat) {
    |es| < limits.maxEntries && Total(es) <= limits.maxBytes - size
  }

  // Eviction takes from the front until the new entry fits.
  function Evict(limits: Limits, es: seq<Entry>, size: nat): seq<Entry> {
    if es == [] || Fits(limits, es, size) then es else Evict(limits, es[1..], size)
  }

  function Lookup(es: seq<Entry>, key: Bytes): Option<Entry> {
    if es == [] then None
    else if es[0].key == key then Some(es[0])
    else Lookup(es[1..], key)
  }

  // What a Set leaves of the old entries.
  function Kept(limits: Limits, es: seq<Entry>, key: Bytes, value: Bytes, now: int): seq<Entry> {
    Evict(limits, Without(DropExpired(es, now), key), |key| + |value|)
  }

  function Step(limits: Limits, c: Cache, op: Op): (Cache, Result<Bytes, CacheError>) {
    match op
    case Set(ctx, key, value, now) =>
      var refusal := Validate(ctx, key);
      if refusal.Some? then (c, Err(refusal.value))
      else if c.closed then (c, Err(Closed))
      else if |key| > limits.maxBytes || |value| > limits.maxBytes - |key| then (c, Err(TooLarge))
      else (c.(entries := Kept(limits, c.entries, key, value, now) + [Entry(key, value, now + limits.ttl)]), Ok([]))
    case Get(ctx, key, now) =>
      var refusal := Validate(ctx, key);
      if refusal.Some? then (c, Err(refusal.value))
      else if c.closed then (c, Err(Closed))
      else
        var es := DropExpired(c.entries, now);
        (c.(entries := es), match Lookup(es, key) case None => Err(NotFound) case Some(e) => Ok(e.value))
    case Delete(ctx, key) =>
      var refusal := Validate(ctx, key);
      if refusal.Some? then (c, Err(refusal.value))
      else if c.closed then (c, Err(Closed))
      else (c.(entries := Without(c.entries, key)), Ok([]))
    case Clean(now) => (c.(entries := DropExpired(c.entries, now)), Ok([]))
    case Close => (Cache([], true), Ok([]))
  }

  // A request that has a live context and a key, of a cache that is open.
  predicate Heard(ctx: Context, key: Bytes, closed: bool) {
    ctx == Live && !IsBlank(key) && !closed
  }

  // How a request is refused that is not heard.
  predicate Refuses(ctx: Context, key: Bytes, closed: bool, error: CacheError) {
    match error
    case NilContext => ctx == Nil
    case Cancelled => ctx == Ended
    case InvalidKey => ctx == Live && IsBlank(key)
    case Closed => ctx == Live && !IsBlank(key) && closed
    case _ => false
  }

  // A write succeeds exactly when it is heard and its entry is within the bound by itself; a read, when
  // it is heard and an unexpired entry has the key; a deletion, when it is heard. A failed write or
  // deletion changes nothing.
  lemma RepliesAreExact(limits: Limits, c: Cache, op: Op)
    requires DistinctKeys(c.entries) && Sorted(c.entries)
    ensures var (r, reply) := Step(limits, c, op);
            match op
            case Set(ctx, key, value, now) =>
              && (reply == Ok([]) <==> Heard(ctx, key, c.closed) && |key| + |value| <= limits.maxBytes)
              && (reply == Err(TooLarge) <==> Heard(ctx, key, c.closed) && |key| + |value| > limits.maxBytes)
              && (reply.Ok? || reply.error == TooLarge || Refuses(ctx, key, c.closed, reply.error))
              && (reply.Err? ==> r == c)
            case Get(ctx, key, now) =>
              && (reply.Ok? <==> Heard(ctx, key, c.closed) && exists e :: e in c.entries && e.key == key && now < e.expiresAt)
              && (reply.Ok? ==> exists e :: e in c.entries && e.key == key && now < e.expiresAt && reply.value == e.value)
              && (reply == Err(NotFound) <==> Heard(ctx, key, c.closed) && forall e :: e in c.entries && e.key == key ==> e.expiresAt <= now)
              && (reply.Ok? || reply.error == NotFound || (Refuses(ctx, key, c.closed, reply.error) && r == c))
            case Delete(ctx, key) =>
              && (reply == Ok([]) <==> Heard(ctx, key, c.closed))
              && (reply.Ok? || (Refuses(ctx, key, c.closed, reply.error) && r == c))
            case Clean(_) => reply == Ok([])
            case Close => reply == Ok([]) && r == Cache([], true)
  {
    if op.Get? {
      LookupAfterExpiry(c, op.key, op.now);
    }
  }

  lemma LookupAfterExpiry(c: Cache, key: Bytes, now: int)
    requires DistinctKeys(c.entries) && Sorted(c.entries)
    ensures forall e :: Lookup(DropExpired(c.entries, now), key) == Some(e) <==> e in c.entries && e.key == key && now < e.expiresAt
  {
    DropExpiredIsExact(c.entries, now);
    DropExpiredIsSuffix(c.entries, now);
    SuffixIsDistinct(DropExpired(c.entries, now), c.entries);
    LookupFinds(DropExpired(c.entries, now), key);
  }

  // ----- facts about the operations

  ghost predicate DistinctKeys(es: seq<Entry>) {
    forall i, j :: 0 <= i < j < |es| ==> es[i].key != es[j].key
  }

  ghost predicate Sorted(es: seq<Entry>) {
    forall i, j :: 0 <= i <= j < |es| ==> es[i].expiresAt <= es[j].expiresAt
  }

  lemma {:induction false} TotalAppend(es: seq<Entry>, e: Entry)
    ensures Total(es + [e]) == Total(es) + |e.key| + |e.value|
  {
    if es == [] {
      assert es + [e] == [e];
    } else {
      TotalAppend(es[1..], e);
      assert (es + [e])[1..] == es[1..] + [e];
    }
  }

  lemma {:induction false} TotalRemove(es: seq<Entry>, k: nat)
    requires k < |es|
    ensures Total(es[..k] + es[k + 1..]) == Total(es) - es[k].Size()
  {
    if k == 0 {
      assert es[..0] + es[1..] == es[1..];
    } else {
      TotalRemove(es[1..], k - 1);
      assert (es[..k] + es[k + 1..])[1..] == es[1..][..k - 1] + es[1..][k..];
    }
  }

  // Dropping from the front leaves a suffix.
  ghost predicate IsSuffix(es: seq<Entry>, of: seq<Entry>) {
    |es| <= |of| && es == of[|of| - |es|..]
  }

  lemma {:induction false} DropExpiredIsSuffix(es: seq<Entry>, now: int)
    ensures IsSuffix(DropExpired(es, now), es)
  {
    if es != [] && now >= es[0].expiresAt {
      DropExpiredIsSuffix(es[1..], now);
    }
  }

  // Looking at the front only is enough: with entries in expiry order, exactly the expired ones go.
  lemma {:induction false} DropExpiredIsExact(es: seq<Entry>, now: int)
    requires Sorted(es)
    ensures forall e :: e in DropExpired(es, now) <==> e in es && now < e.expiresAt
  {
    if es != [] && now >= es[0].expiresAt {
      DropExpiredIsExact(es[1..], now);
      assert es == [es[0]] + es[1..];
    }
  }

  // Eviction removes the shortest prefix that makes room, and never asks an empty list for its front.
  lemma {:induction false} EvictIsMinimal(limits: Limits, es: seq<Entry>, size: nat)
    requires limits.Valid() && size <= limits.maxBytes
    ensures var kept := Evict(limits, es, size);
            && IsSuffix(kept, es) && |kept| + 1 <= limits.maxEntries && Total(kept) + size <= limits.maxBytes
            && forall n :: 0 <= n < |es| - |kept| ==> |es[n..]| + 1 > limits.maxEntries || Total(es[n..]) + size > limits.maxBytes
  {
    if es != [] && !Fits(limits, es, size) {
      EvictIsMinimal(limits, es[1..], size);
      forall n | 0 <= n < |es| - |Evict(limits, es, size)|
        ensures |es[n..]| + 1 > limits.maxEntries || Total(es[n..]) + size > limits.maxBytes
      {
        assert n > 0 ==> es[n..] == es[1..][n - 1..];
        assert n == 0 ==> es[n..] == es;
      }
    }
  }

  ghost predicate HasKey(es: seq<Entry>, key: Bytes) {
    exists i :: 0 <= i < |es| && es[i].key == key
  }

  function RemoveAt<T>(s: seq<T>, k: nat): seq<T>
    requires k < |s|
  {
    s[..k] + s[k + 1..]
  }

  lemma {:induction false} WithoutPresent(es: seq<Entry>, key: Bytes, k: nat)
    requires DistinctKeys(es) && k < |es| && es[k].key == key
    ensures Without(es, key) == RemoveAt(es, k)
  {
    if k > 0 {
      WithoutPresent(es[1..], key, k - 1);
      assert RemoveAt(es, k) == [es[0]] + RemoveAt(es[1..], k - 1);
    }
  }

  lemma TailLacksKey(es: seq<Entry>, key: Bytes)
    requires es != [] && !HasKey(es, key)
    ensures es[0].key != key && !HasKey(es[1..], key)
  {
    assert forall i :: 0 <= i < |es[1..]| ==> es[1..][i] == es[i + 1];
  }

  lemma {:induction false} WithoutAbsent(es: seq<Entry>, key: Bytes)
    requires !HasKey(es, key)
    ensures Without(es, key) == es
  {
    if es != [] {
      TailLacksKey(es, key);
      WithoutAbsent(es[1..], key);
    }
  }

  lemma RemoveAtKeeps(es: seq<Entry>, k: nat)
    requires DistinctKeys(es) && k < |es|
    ensures DistinctKeys(RemoveAt(es, k)) && (Sorted(es) ==> Sorted(RemoveAt(es, k)))
    ensures forall e :: e in RemoveAt(es, k) <==> e in es && e.key != es[k].key
  {
    var rest := RemoveAt(es, k);
    forall e | e in es && e.key != es[k].key ensures e in rest {
      var i :| 0 <= i < |es| && es[i] == e;
      assert rest[if i < k then i else i - 1] == e;
    }
  }

  lemma WithoutRemoves(es: seq<Entry>, key: Bytes)
    requires DistinctKeys(es)
    ensures DistinctKeys(Without(es, key)) && |Without(es, key)| <= |es| && Total(Without(es, key)) <= Total(es)
    ensures forall e :: e in Without(es, key) <==> e in es && e.key != key
    ensures Sorted(es) ==> Sorted(Without(es, key))
  {
    if HasKey(es, key) {
      var k :| 0 <= k < |es| && es[k].key == key;
      WithoutPresent(es, key, k);
      RemoveAtKeeps(es, k);
      TotalRemove(es, k);
    } else {
      WithoutAbsent(es, key);
    }
  }

  lemma {:induction false} LookupFinds(es: seq<Entry>, key: Bytes)
    requires DistinctKeys(es)
    ensures forall e :: Lookup(es, key) == Some(e) <==> e in es && e.key == key
  {
    if es != [] {
      LookupFinds(es[1..], key);
      assert es == [es[0]] + es[1..];
    }
  }

  lemma SuffixIsDistinct(es: seq<Entry>, of: seq<Entry>)
    requires IsSuffix(es, of) && DistinctKeys(of)
    ensures DistinctKeys(es)
  {
    assert forall i :: 0 <= i < |es| ==> es[i] == of[|of| - |es| + i];
  }

  lemma SuffixIsSorted(es: seq<Entry>, of: seq<Entry>)
    requires IsSuffix(es, of) && Sorted(of)
    ensures Sorted(es)
  {
    assert forall i :: 0 <= i < |es| ==> es[i] == of[|of| - |es| + i];
  }

  lemma SuffixLacksKey(es: seq<Entry>, of: seq<Entry>, key: Bytes)
    requires IsSuffix(es, of) && !HasKey(of, key)
    ensures !HasKey(es, key)
  {
    assert forall i :: 0 <= i < |es| ==> es[i] == of[|of| - |es| + i];
  }

  lemma WithoutLacksKey(es: seq<Entry>, key: Bytes)
    requires DistinctKeys(es)
    ensures !HasKey(Without(es, key), key)
  {
    WithoutRemoves(es, key);
    assert forall i :: 0 <= i < |Without(es, key)| ==> Without(es, key)[i] in Without(es, key);
  }

  lemma EvictLacksKey(limits: Limits, es: seq<Entry>, size: nat, key: Bytes)
    requires limits.Valid() && size <= limits.maxBytes && !HasKey(es, key)
    ensures Fits(limits, Evict(limits, es, size), size) && !HasKey(Evict(limits, es, size), key)
  {
    EvictIsMinimal(limits, es, size);
    SuffixLacksKey(Evict(limits, es, size), es, key);
  }

  lemma KeptMakesRoom(limits: Limits, es: seq<Entry>, key: Bytes, value: Bytes, now: int)
    requires limits.Valid() && DistinctKeys(es) && |key| + |value| <= limits.maxBytes
    ensures var kept := Kept(limits, es, key, value, now);
            |kept| + 1 <= limits.maxEntries && Total(kept) + |key| + |value| <= limits.maxBytes
    ensures !HasKey(Kept(limits, es, key, value, now), key)
  {
    var unexpired := DropExpired(es, now);
    DropExpiredIsSuffix(es, now);
    SuffixIsDistinct(unexpired, es);
    WithoutLacksKey(unexpired, key);
    EvictLacksKey(limits, Without(unexpired, key), |key| + |value|, key);
  }

  // The unexpired entries of other keys, in the order they were written.
  function Others(es: seq<Entry>, key: Bytes, now: int): seq<Entry> {
    if es == [] then []
    else if es[0].key != key && now < es[0].expiresAt then [es[0]] + Others(es[1..], key, now)
    else Others(es[1..], key, now)
  }

  lemma {:induction false} WithoutIsOthers(es: seq<Entry>, key: Bytes, now: int)
    requires DistinctKeys(es) && forall e :: e in es ==> now < e.expiresAt
    ensures Without(es, key) == Others(es, key, now)
  {
    if es != [] {
      assert es == [es[0]] + es[1..];
      WithoutIsOthers(es[1..], key, now);
      if es[0].key == key {
        assert forall i :: 0 <= i < |es[1..]| ==> es[1..][i] == es[i + 1];
        WithoutAbsent(es[1..], key);
      }
    }
  }

  // Expiry at the front and removal of the key leave exactly those.
  lemma {:induction false} RestIsOthers(es: seq<Entry>, key: Bytes, now: int)
    requires DistinctKeys(es) && Sorted(es)
    ensures Without(DropExpired(es, now), key) == Others(es, key, now)
  {
    if es != [] && now >= es[0].expiresAt {
      RestIsOthers(es[1..], key, now);
    } else if es != [] {
      WithoutIsOthers(es, key, now);
    }
  }
}
