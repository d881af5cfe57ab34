/** Construction of cache keys: which shard a key belongs to and how a generation tags it. */
module CacheKeys {
  import opened Decimal

  const SHARDS: nat := 64

  // `prefix` and `hash` are drawn at random when the wrapper is created and never change.
  datatype Keyring = Keyring(prefix: string, hash: string -> nat) {

    function Shard(key: string): (i: nat)
      ensures i < SHARDS
    {
      hash(key) % SHARDS
    }

    function Tag(key: string, generation: nat): string {
      FormatNat(generation) + [':'] + key
    }

    function Tagged(key: string, generation: nat): string {
      prefix + Tag(key, generation)
    }
  }

  function AccountKey(sub: int): string {
    "db:account:" + FormatInt(sub)
  }

  lemma KeyLayout(ring: Keyring, sub: int, gen: nat)
    ensures ring.Tagged(AccountKey(sub), gen) == ring.prefix + (FormatNat(gen) + ":" + ("db:account:" + FormatInt(sub)))
  {
  }

  // No two accounts and no two generations share an entry of the store.
  lemma TaggedKeysDistinct(ring: Keyring, sub1: int, gen1: nat, sub2: int, gen2: nat)
    requires ring.Tagged(AccountKey(sub1), gen1) == ring.Tagged(AccountKey(sub2), gen2)
    ensures sub1 == sub2 && gen1 == gen2
  {
    PrefixCancels(ring.prefix, ring.Tag(AccountKey(sub1), gen1), ring.Tag(AccountKey(sub2), gen2));
    TagsDistinct(ring, AccountKey(sub1), gen1, AccountKey(sub2), gen2);
    PrefixCancels("db:account:", FormatInt(sub1), FormatInt(sub2));
    FormatIntDistinct(sub1, sub2);
  }

  lemma TagsDistinct(ring: Keyring, key1: string, gen1: nat, key2: string, gen2: nat)
    requires ring.Tag(key1, gen1) == ring.Tag(key2, gen2)
    ensures key1 == key2 && gen1 == gen2
  {
    DigitHeaderUnique(FormatNat(gen1), FormatNat(gen2), ':', key1, key2);
    FormatNatDenotes(gen1);
    FormatNatDenotes(gen2);
  }
}
