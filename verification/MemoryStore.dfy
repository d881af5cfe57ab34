/**
  The in-memory cache as it is built: a map from keys to list elements, a doubly linked
  list in write order, and a running byte count, refining the sequence in MemorySpec.
 */
module MemoryStore {
  import opened Wrappers
  import opened MemorySpec

  const SECOND: int := 1_000_000_000
  const DEFAULT_TTL: int := 20 * SECOND
  const DEFAULT_MAX_ENTRIES: int := 1024
  const DEFAULT_MAX_BYTES: int := 8 * 1024 * 1024

  datatype Setting = WithTtl(ttl: int) | WithMaxEntries(limit: int) | WithMaxBytes(limit: int)

  // A setting that is not positive is ignored.
  function Configure(limits: Limits, setting: Setting): Limits {
    match setting
    case WithTtl(n) => if n > 0 then limits.(ttl := n) else limits
    case WithMaxEntries(n) => if n > 0 then limits.(maxEntries := n) else limits
    case WithMaxBytes(n) => if n > 0 then limits.(maxBytes := n) else limits
  }

  function ConfigureAll(settings: seq<Setting>): Limits {
    if settings == [] then Limits(DEFAULT_TTL, DEFAULT_MAX_ENTRIES, DEFAULT_MAX_BYTES)
    else Configure(ConfigureAll(settings[..|settings| - 1]), settings[|settings| - 1])
  }

  // No setting can make a limit unusable.
  lemma {:induction false} ConfiguredLimitsAreValid(settings: seq<Setting>)
    ensures ConfigureAll(settings).Valid()
  {
    if settings != [] {
      ConfiguredLimitsAreValid(settings[..|settings| - 1]);
    }
  }

  // Each limit is the last positive one that was set, or the default: 20 seconds, 1024 entries, 8 MiB.
  lemma {:induction false} ConfiguredIsExact(settings: seq<Setting>)
    ensures var ttl := ConfigureAll(settings).ttl;
            (ttl == 20_000_000_000 && forall i :: 0 <= i < |settings| && settings[i].WithTtl? ==> settings[i].ttl <= 0)
            || exists i :: IsLast(settings, i, WithTtl(ttl))
    ensures var n := ConfigureAll(settings).maxEntries;
            (n == 1024 && forall i :: 0 <= i < |settings| && settings[i].WithMaxEntries? ==> settings[i].limit <= 0)
            || exists i :: IsLast(settings, i, WithMaxEntries(n))
    ensures var n := ConfigureAll(settings).maxBytes;
            (n == 8_388_608 && forall i :: 0 <= i < |settings| && settings[i].WithMaxBytes? ==> settings[i].limit <= 0)
            || exists i :: IsLast(settings, i, WithMaxBytes(n))
  {
    if settings != [] {
      var n := |settings| - 1;
      var before := settings[..n];
      ConfiguredIsExact(before);
      LastStays(before, settings, n);
      assert Amount(settings[n]) > 0 ==> IsLast(settings, n, settings[n]);
    }
  }

  function Amount(setting: Setting): int {
    match setting
    case WithTtl(n) => n
    case WithMaxEntries(n) => n
    case WithMaxBytes(n) => n
  }

  predicate SameKind(x: Setting, y: Setting) {
    (x.WithTtl? && y.WithTtl?) || (x.WithMaxEntries? && y.WithMaxEntries?) || (x.WithMaxBytes? && y.WithMaxBytes?)
  }

  // This positive setting is at position i, and no later one of its kind is positive.
  ghost predicate IsLast(settings: seq<Setting>, i: nat, setting: Setting) {
    && i < |settings| && settings[i] == setting && Amount(setting) > 0
    && forall j :: i < j < |settings| && SameKind(settings[j], setting) ==> Amount(settings[j]) <= 0
  }

  lemma LastStays(before: seq<Setting>, settings: seq<Setting>, n: nat)
    requires |settings| == n + 1 && before == settings[..n]
    ensures forall i, setting :: IsLast(before, i, setting) && !(SameKind(settings[n], setting) && Amount(settings[n]) > 0) ==>
              IsLast(settings, i, setting)
  {
  }

  class Element {
    const entry: Entry
    var prev: Element?
    var next: Element?

    constructor (entry: Entry)
      ensures this.entry == entry && prev == null && next == null
    {
      this.entry := entry;
      prev, next := null, null;
    }
  }

  ghost predicate Separate(nodes: seq<Element>, repr: set<Element>) {
    && (forall i :: 0 <= i < |nodes| ==> nodes[i] in repr)
    && (forall i, j :: 0 <= i < j < |nodes| ==> nodes[i] != nodes[j])
  }

  ghost function Entries(nodes: seq<Element>): (es: seq<Entry>)
    ensures |es| == |nodes| && forall i :: 0 <= i < |es| ==> es[i] == nodes[i].entry
  {
    seq(|nodes|, i requires 0 <= i < |nodes| => nodes[i].entry)
  }

  // The map that holds every node under its key.
  ghost function Index(nodes: seq<Element>): map<Bytes, Element> {
    if nodes == [] then map[]
    else
      var e := nodes[|nodes| - 1];
      Index(nodes[..|nodes| - 1])[e.entry.key := e]
  }

  lemma {:induction false} IndexFinds(nodes: seq<Element>, key: Bytes) returns (k: nat)
    ensures key in Index(nodes) ==> k < |nodes| && nodes[k].entry.key == key && Index(nodes)[key] == nodes[k]
    ensures key !in Index(nodes) ==> !HasKey(Entries(nodes), key)
  {
    k := 0;
    if nodes != [] {
      var n := |nodes| - 1;
      var before := nodes[..n];
      if nodes[n].entry.key == key {
        k := n;
      } else {
        k := IndexFinds(before, key);
        assert forall i :: 0 <= i < n ==> Entries(nodes)[i] == Entries(before)[i];
      }
    }
  }

  lemma {:induction false} IndexSize(nodes: seq<Element>)
    requires DistinctKeys(Entries(nodes))
    ensures |Index(nodes)| == |nodes|
  {
    if nodes != [] {
      var n := |nodes| - 1;
      var before, key := nodes[..n], nodes[n].entry.key;
      DistinctPrefix(nodes, n);
      IndexSize(before);
      assert Index(nodes).Keys == Index(before).Keys + {key};
      assert |Index(nodes).Keys| == |Index(before).Keys| + 1;
    }
  }

  lemma DistinctPrefix(nodes: seq<Element>, n: nat)
    requires DistinctKeys(Entries(nodes)) && n < |nodes|
    ensures DistinctKeys(Entries(nodes[..n])) && nodes[n].entry.key !in Index(nodes[..n])
    ensures forall i :: 0 <= i < n ==> nodes[i].entry.key != nodes[n].entry.key
  {
    var before := nodes[..n];
    assert forall i :: 0 <= i < n ==> Entries(nodes)[i] == Entries(before)[i];
    var k := IndexFinds(before, nodes[n].entry.key);
    assert Entries(nodes)[n] == nodes[n].entry;
  }

  // A full index is one without repeated keys.
  lemma {:induction false} FullIndexIsDistinct(nodes: seq<Element>)
    ensures |Index(nodes)| <= |nodes|
    ensures |Index(nodes)| == |nodes| ==> DistinctKeys(Entries(nodes))
  {
    if nodes != [] {
      var n := |nodes| - 1;
      var before, key := nodes[..n], nodes[n].entry.key;
      FullIndexIsDistinct(before);
      var k := IndexFinds(before, key);
      assert Index(nodes).Keys == Index(before).Keys + {key};
      assert |Index(nodes).Keys| == |Index(before).Keys + {key}|;
      assert key !in Index(before) ==> |Index(before).Keys + {key}| == |Index(before).Keys| + 1;
      assert forall i :: 0 <= i < n ==> Entries(nodes)[i] == Entries(before)[i];
    }
  }

  // One node from anywhere: the same map without that node's key.
  lemma {:induction false} IndexAfterRemove(nodes: seq<Element>, k: nat)
    requires DistinctKeys(Entries(nodes)) && k < |nodes|
    ensures Index(RemoveAt(nodes, k)) == Index(nodes) - {nodes[k].entry.key}
  {
    var n := |nodes| - 1;
    DistinctPrefix(nodes, n);
    RemoveFromPrefix(nodes, k);
    if k == n {
      MapGrowsAndShrinks(Index(nodes[..n]), nodes[n]);
    } else {
      IndexAfterRemove(nodes[..n], k);
      IndexAfterPush(RemoveAt(nodes[..n], k), nodes[n]);
      MapStep(Index(nodes[..n]), nodes[k].entry.key, nodes[n]);
    }
  }

  lemma RemoveFromPrefix(nodes: seq<Element>, k: nat)
    requires k < |nodes|
    ensures k == |nodes| - 1 ==> RemoveAt(nodes, k) == nodes[..k]
    ensures k < |nodes| - 1 ==> nodes[..|nodes| - 1][k] == nodes[k]
    ensures k < |nodes| - 1 ==> RemoveAt(nodes, k) == RemoveAt(nodes[..|nodes| - 1], k) + [nodes[|nodes| - 1]]
  {
  }

  lemma MapStep(items: map<Bytes, Element>, key: Bytes, e: Element)
    requires key != e.entry.key
    ensures (items - {key})[e.entry.key := e] == items[e.entry.key := e] - {key}
  {
  }

  lemma MapGrowsAndShrinks(items: map<Bytes, Element>, e: Element)
    requires e.entry.key !in items
    ensures items == items[e.entry.key := e] - {e.entry.key}
  {
  }

  lemma EntriesAfterRemove(nodes: seq<Element>, k: nat)
    requires k < |nodes|
    ensures Entries(RemoveAt(nodes, k)) == RemoveAt(Entries(nodes), k)
  {
  }

  // The map and the byte count say the same as the list, within the bounds.
  ghost predicate Agrees(limits: Limits, items: map<Bytes, Element>, bytes: int, nodes: seq<Element>) {
    && items == Index(nodes) && |items| == |nodes|
    && bytes == Total(Entries(nodes))
    && |nodes| <= limits.maxEntries && bytes <= limits.maxBytes
  }

  lemma AgreesAfterRemove(limits: Limits, items: map<Bytes, Element>, bytes: int, nodes: seq<Element>, k: nat)
    requires Agrees(limits, items, bytes, nodes) && k < |nodes|
    ensures Agrees(limits, items - {nodes[k].entry.key}, bytes - nodes[k].entry.Size(), RemoveAt(nodes, k))
    ensures Entries(RemoveAt(nodes, k)) == RemoveAt(Entries(nodes), k)
  {
    FullIndexIsDistinct(nodes);
    TotalRemove(Entries(nodes), k);
    IndexAfterRemove(nodes, k);
    EntriesAfterRemove(nodes, k);
    RemoveAtKeeps(Entries(nodes), k);
    IndexSize(RemoveAt(nodes, k));
  }

  lemma AgreesAfterPush(limits: Limits, items: map<Bytes, Element>, bytes: int, nodes: seq<Element>, e: Element)
    requires Agrees(limits, items, bytes, nodes) && e.entry.key !in items && Fits(limits, Entries(nodes), e.entry.Size())
    ensures Agrees(limits, items[e.entry.key := e], bytes + e.entry.Size(), nodes + [e])
    ensures Entries(nodes + [e]) == Entries(nodes) + [e.entry]
  {
    TotalAppend(Entries(nodes), e.entry);
    IndexAfterPush(nodes, e);
    OneMoreKey(items, e);
  }

  lemma IndexAfterPush(nodes: seq<Element>, e: Element)
    ensures Index(nodes + [e]) == Index(nodes)[e.entry.key := e]
    ensures Entries(nodes + [e]) == Entries(nodes) + [e.entry]
  {
    assert (nodes + [e])[..|nodes|] == nodes;
  }

  lemma OneMoreKey(items: map<Bytes, Element>, e: Element)
    requires e.entry.key !in items
    ensures |items[e.entry.key := e]| == |items| + 1
  {
    assert items[e.entry.key := e].Keys == items.Keys + {e.entry.key};
  }

  class Store {
    const limits: Limits
    var items: map<Bytes, Element>
    var front: Element?
    var back: Element?
    var bytes: int
    var closed: bool
    ghost var nodes: seq<Element>
    ghost var repr: set<Element>

    ghost predicate Linked()
      reads this`front, this`back, this`nodes, this`repr, repr
    {
      && Separate(nodes, repr)
      && (nodes == [] ==> front == null && back == null)
      && (nodes != [] ==> front == nodes[0] && back == nodes[|nodes| - 1] && nodes[0].prev == null && nodes[|nodes| - 1].next == null)
      && (forall i {:trigger nodes[i].next} :: 0 <= i < |nodes| - 1 ==> nodes[i].next == nodes[i + 1])
      && (forall i {:trigger nodes[i].prev} :: 0 < i < |nodes| ==> nodes[i].prev == nodes[i - 1])
    }

    ghost predicate Valid()
      reads this, repr
    {
      && limits.Valid()
      && Linked()
      && Agrees(limits, items, bytes, nodes)
      && (closed ==> nodes == [])
    }

    ghost function View(): Cache
      reads this
    {
      Cache(Entries(nodes), closed)
    }

    constructor (settings: seq<Setting>)
      ensures Valid() && View() == Cache([], false) && limits == ConfigureAll(settings) && repr == {}
    {
      var configured := ConfigureAll([]);
      for i := 0 to |settings|
        invariant configured == ConfigureAll(settings[..i])
      {
        assert settings[..i + 1][..i] == settings[..i];
        configured := Configure(configured, settings[i]);
      }
      assert settings[..|settings|] == settings;
      ConfiguredLimitsAreValid(settings);
      limits := configured;
      items, front, back, bytes, closed, nodes, repr := map[], null, null, 0, false, [], {};
    }

    // Take an element out of the list; the map and the count are up to the caller.
    method Unlink(e: Element, ghost k: nat)
      requires Linked() && k < |nodes| && nodes[k] == e
      modifies this`front, this`back, this`nodes, repr
      ensures Linked() && nodes == RemoveAt(old(nodes), k)
    {
      if e.prev == null {
        front := e.next;
      } else {
        e.prev.next := e.next;
      }
      if e.next == null {
        back := e.prev;
      } else {
        e.next.prev := e.prev;
      }
      ghost var was := nodes;
      nodes := RemoveAt(was, k);
      assert forall i :: 0 <= i < |nodes| ==> nodes[i] == was[if i < k then i else i + 1];
    }

    method PushBack(e: Element)
      requires Linked() && e !in repr && e.prev == null && e.next == null
      modifies this`front, this`back, this`nodes, this`repr, repr, e
      ensures Linked() && nodes == old(nodes) + [e] && repr == old(repr) + {e}
    {
      if back == null {
        front := e;
      } else {
        back.next := e;
        e.prev := back;
      }
      back := e;
      nodes, repr := nodes + [e], repr + {e};
    }

    method Remove(e: Element, ghost k: nat)
      requires Valid() && k < |nodes| && nodes[k] == e
      modifies this`items, this`front, this`back, this`bytes, this`nodes, repr
      ensures Valid() && Entries(nodes) == RemoveAt(Entries(old(nodes)), k) && items == old(items) - {e.entry.key}
    {
      AgreesAfterRemove(limits, items, bytes, nodes, k);
      items := items - {e.entry.key};
      bytes := bytes - e.entry.Size();
      Unlink(e, k);
    }

    // All helpers below run with the mutex held.
    method DeleteExpired(now: int)
      requires Valid()
      modifies this`items, this`front, this`back, this`bytes, this`nodes, repr
      ensures Valid() && Entries(nodes) == DropExpired(old(Entries(nodes)), now)
    {
      while front != null
        invariant Valid() && DropExpired(Entries(nodes), now) == DropExpired(old(Entries(nodes)), now)
        decreases |nodes|
      {
        if now < front.entry.expiresAt {
          return;
        }
        assert RemoveAt(Entries(nodes), 0) == Entries(nodes)[1..];
        Remove(front, 0);
      }
    }

    // Take the existing entry of a key out, if there is one.
    method RemoveKey(key: Bytes)
      requires Valid()
      modifies this`items, this`front, this`back, this`bytes, this`nodes, repr
      ensures Valid() && Entries(nodes) == Without(old(Entries(nodes)), key) && key !in items
    {
      ghost var k := IndexFinds(nodes, key);
      FullIndexIsDistinct(nodes);
      if key in items {
        WithoutPresent(Entries(nodes), key, k);
        Remove(items[key], k);
      } else {
        WithoutAbsent(Entries(nodes), key);
      }
    }

    // The front is never missing when there is something to evict.
    method MakeRoom(size: nat)
      requires Valid() && size <= limits.maxBytes
      modifies this`items, this`front, this`back, this`bytes, this`nodes, repr
      ensures Valid() && Entries(nodes) == Evict(limits, old(Entries(nodes)), size) && Fits(limits, Entries(nodes), size)
      ensures items.Keys <= old(items.Keys)
    {
      while |items| >= limits.maxEntries || bytes > limits.maxBytes - size
        invariant Valid()
        invariant Evict(limits, Entries(nodes), size) == Evict(limits, old(Entries(nodes)), size)
        invariant items.Keys <= old(items.Keys)
        decreases |nodes|
      {
        assert RemoveAt(Entries(nodes), 0) == Entries(nodes)[1..];
        Remove(front, 0);
      }
    }

    method Append(entry: Entry)
      requires Valid() && !closed && entry.key !in items && Fits(limits, Entries(nodes), entry.Size())
      modifies this`items, this`front, this`back, this`bytes, this`nodes, this`repr, repr
      ensures Valid() && Entries(nodes) == old(Entries(nodes)) + [entry]
      ensures fresh(repr - old(repr))
    {
      var e := new Element(entry);
      AgreesAfterPush(limits, items, bytes, nodes, e);
      items := items[entry.key := e];
      bytes := bytes + entry.Size();
      PushBack(e);
    }

    method Set(ctx: Context, key: Bytes, value: Bytes, now: int) returns (r: Result<Bytes, CacheError>)
      requires Valid()
      modifies this`items, this`front, this`back, this`bytes, this`nodes, this`repr, repr
      ensures Valid() && (View(), r) == Step(limits, old(View()), MemorySpec.Set(ctx, key, value, now))
      ensures r == Ok([]) <==> Heard(ctx, key, old(closed)) && |key| + |value| <= limits.maxBytes
      ensures r == Err(TooLarge) <==> Heard(ctx, key, old(closed)) && |key| + |value| > limits.maxBytes
      ensures r.Ok? || r.error == TooLarge || Refuses(ctx, key, old(closed), r.error)
      ensures fresh(repr - old(repr))
    {
      var refusal := Validate(ctx, key);
      if refusal.Some? {
        return Err(refusal.value);
      }
      if closed {
        return Err(Closed);
      }
      if |key| > limits.maxBytes || |value| > limits.maxBytes - |key| {
        return Err(TooLarge);
      }
      Replace(key, value, now);
      return Ok([]);
    }

    // Entries that a write of this key replaces or finds expired.
    method Discard(key: Bytes, now: int)
      requires Valid()
      modifies this`items, this`front, this`back, this`bytes, this`nodes, repr
      ensures Valid() && Entries(nodes) == Without(DropExpired(old(Entries(nodes)), now), key) && key !in items
    {
      DeleteExpired(now);
      RemoveKey(key);
    }

    method Replace(key: Bytes, value: Bytes, now: int)
      requires Valid() && !closed && |key| + |value| <= limits.maxBytes
      modifies this`items, this`front, this`back, this`bytes, this`nodes, this`repr, repr
      ensures Valid() && fresh(repr - old(repr))
      ensures Entries(nodes) == Kept(limits, old(Entries(nodes)), key, value, now) + [Entry(key, value, now + limits.ttl)]
    {
      ClearFor(key, value, now);
      Append(Entry(key, value, now + limits.ttl));
    }

    // Leave what a write keeps: no entry of its key, and room for the new one.
    method ClearFor(key: Bytes, value: Bytes, now: int)
      requires Valid() && |key| + |value| <= limits.maxBytes
      modifies this`items, this`front, this`back, this`bytes, this`nodes, repr
      ensures Valid() && Entries(nodes) == Kept(limits, old(Entries(nodes)), key, value, now)
      ensures Fits(limits, Entries(nodes), |key| + |value|) && key !in items
    {
      Discard(key, now);
      ghost var rest := Entries(nodes);
      MakeRoom(|key| + |value|);
      assert Entries(nodes) == Evict(limits, rest, |key| + |value|);
    }

    method Get(ctx: Context, key: Bytes, now: int) returns (r: Result<Bytes, CacheError>)
      requires Valid()
      modifies this`items, this`front, this`back, this`bytes, this`nodes, repr
      ensures Valid() && (View(), r) == Step(limits, old(View()), MemorySpec.Get(ctx, key, now))
      ensures r.Ok? || r.error == NotFound || Refuses(ctx, key, old(closed), r.error)
    {
      var refusal := Validate(ctx, key);
      if refusal.Some? {
        return Err(refusal.value);
      }
      if closed {
        return Err(Closed);
      }
      DeleteExpired(now);
      ghost var k := IndexFinds(nodes, key);
      FullIndexIsDistinct(nodes);
      LookupFinds(Entries(nodes), key);
      if key !in items {
        assert Lookup(Entries(nodes), key) == None;
        return Err(NotFound);
      }
      assert Entries(nodes)[k] == items[key].entry;
      return Ok(items[key].entry.value);
    }

    method Delete(ctx: Context, key: Bytes) returns (r: Result<Bytes, CacheError>)
      requires Valid()
      modifies this`items, this`front, this`back, this`bytes, this`nodes, repr
      ensures Valid() && (View(), r) == Step(limits, old(View()), MemorySpec.Delete(ctx, key))
      ensures r == Ok([]) <==> Heard(ctx, key, old(closed))
      ensures r.Ok? || Refuses(ctx, key, old(closed), r.error)
    {
      var refusal := Validate(ctx, key);
      if refusal.Some? {
        return Err(refusal.value);
      }
      if closed {
        return Err(Closed);
      }
      RemoveKey(key);
      return Ok([]);
    }

    method Stats() returns (entries: nat, size: int)
      requires Valid()
      ensures entries == |View().entries| && size == Total(View().entries)
      ensures entries <= limits.maxEntries && 0 <= size <= limits.maxBytes
    {
      return |items|, bytes;
    }

    // Repeated calls change nothing.
    method Close()
      requires Valid()
      modifies this
      ensures Valid() && View() == Cache([], true)
    {
      if !closed {
        closed := true;
        items := map[];
        front, back, nodes := null, null, [];
        bytes := 0;
      }
    }
  }
}
