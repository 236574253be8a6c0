/**
 * The gate's in-process validation cache: a map from a token-pair fingerprint
 * to a validity flag and an absolute expiry instant (milliseconds). Entries
 * live for five minutes, are dropped lazily when a read finds them expired,
 * and are swept (every expired entry removed) whenever an insertion leaves
 * more than a thousand of them. The clock is a parameter of every call.
 */
module TokenCache {
  import opened Wrappers

  /** Five minutes, in milliseconds. */
  const CacheTtl: int := 5 * 60 * 1000

  /** A sweep runs when the map holds more entries than this after an insertion. */
  const SweepThreshold: nat := 1000

  datatype Entry = Entry(valid: bool, expiresAt: int)

  predicate Live(e: Entry, now: int) {
    now < e.expiresAt
  }

  /** What a read at `now` returns: the stored flag while the entry is live, otherwise nothing. */
  function Lookup(m: map<string, Entry>, key: string, now: int): Option<bool> {
    if key in m && Live(m[key], now) then Some(m[key].valid) else None
  }

  /** The map after a read: a read that returns nothing also deletes the key. */
  function AfterLookup(m: map<string, Entry>, key: string, now: int): map<string, Entry> {
    if key in m && Live(m[key], now) then m else m - {key}
  }

  /** The entries of `m` still live at `now`. */
  function Sweep(m: map<string, Entry>, now: int): map<string, Entry> {
    map k | k in m && Live(m[k], now) :: m[k]
  }

  /** The map after storing `valid` under `key` at `now`, sweep included. */
  function AfterStore(m: map<string, Entry>, key: string, valid: bool, now: int): map<string, Entry> {
    var m' := m[key := Entry(valid, now + CacheTtl)];
    if |m'| > SweepThreshold then Sweep(m', now) else m'
  }

  /** A read never reports an expired entry, and an expired or missing key is gone afterwards. */
  lemma LookupNeverStale(m: map<string, Entry>, key: string, now: int)
    ensures Lookup(m, key, now).Some? ==> key in m && now < m[key].expiresAt
                                          && Lookup(m, key, now).value == m[key].valid
    ensures Lookup(m, key, now).None? ==> key !in AfterLookup(m, key, now)
    ensures Lookup(m, key, now).Some? ==> AfterLookup(m, key, now) == m
    ensures forall k :: k in AfterLookup(m, key, now) ==> k in m && AfterLookup(m, key, now)[k] == m[k]
  {
  }

  /**
   * Storing and then reading the same key returns the stored flag for exactly
   * five minutes, whatever was stored there before and whether or not the
   * insertion triggered a sweep.
   */
  lemma StoreThenLookup(m: map<string, Entry>, key: string, valid: bool, now: int, later: int)
    ensures key in AfterStore(m, key, valid, now)
    ensures AfterStore(m, key, valid, now)[key] == Entry(valid, now + CacheTtl)
    ensures Lookup(AfterStore(m, key, valid, now), key, later)
            == if later < now + CacheTtl then Some(valid) else None
  {
    var m' := m[key := Entry(valid, now + CacheTtl)];
    assert Live(m'[key], now);
  }

  /**
   * A store keeps every other entry that is still live, and touches no other
   * entry's value; when the map stays within the threshold it keeps every
   * other entry, live or not.
   */
  lemma StoreKeepsOthers(m: map<string, Entry>, key: string, valid: bool, now: int)
    ensures forall k :: k in m && k != key && Live(m[k], now) ==>
                          k in AfterStore(m, key, valid, now) && AfterStore(m, key, valid, now)[k] == m[k]
    ensures forall k :: k in AfterStore(m, key, valid, now) && k != key ==> k in m && AfterStore(m, key, valid, now)[k] == m[k]
    ensures |m[key := Entry(valid, now + CacheTtl)]| <= SweepThreshold ==>
              AfterStore(m, key, valid, now) == m[key := Entry(valid, now + CacheTtl)]
  {
  }

  /**
   * When an insertion leaves more than a thousand entries, the sweep removes
   * exactly the expired ones: afterwards every entry is live, and every live
   * entry (the new one included) is still there.
   */
  lemma {:induction false} SweepRemovesExactlyExpired(m: map<string, Entry>, key: string, valid: bool, now: int)
    requires |m[key := Entry(valid, now + CacheTtl)]| > SweepThreshold
    ensures forall k :: k in AfterStore(m, key, valid, now) ==> Live(AfterStore(m, key, valid, now)[k], now)
    ensures forall k :: k in m[key := Entry(valid, now + CacheTtl)] ==>
              (k in AfterStore(m, key, valid, now) <==> Live(m[key := Entry(valid, now + CacheTtl)][k], now))
    ensures key in AfterStore(m, key, valid, now)
  {
    var m' := m[key := Entry(valid, now + CacheTtl)];
    assert AfterStore(m, key, valid, now) == Sweep(m', now);
    assert Live(m'[key], now);
  }

  /** The cache object itself; `entries` is the map the source mutates in place. */
  class ValidationCache {
    var entries: map<string, Entry>

    constructor ()
      ensures entries == map[]
    {
      entries := map[];
    }

    /** `getCachedValidation`. */
    method Get(key: string, now: int) returns (r: Option<bool>)
      modifies this
      ensures r == Lookup(old(entries), key, now)
      ensures entries == AfterLookup(old(entries), key, now)
    {
      if key in entries && now < entries[key].expiresAt {
        return Some(entries[key].valid);
      }
      entries := entries - {key};
      return None;
    }

    /** `setCachedValidation`, with the sweep written as the loop over the entries it is. */
    method Set(key: string, valid: bool, now: int)
      modifies this
      ensures entries == AfterStore(old(entries), key, valid, now)
    {
      entries := entries[key := Entry(valid, now + CacheTtl)];
      if |entries| > SweepThreshold {
        ghost var start := entries;
        var pending := entries.Keys;
        while pending != {}
          invariant pending <= start.Keys
          invariant entries.Keys <= start.Keys
          invariant forall k :: k in entries ==> entries[k] == start[k]
          invariant forall k :: k in start ==> (k in entries <==> (k in pending || Live(start[k], now)))
          decreases pending
        {
          var k :| k in pending;
          if now >= entries[k].expiresAt {
            entries := entries - {k};
          }
          pending := pending - {k};
        }
        assert entries == Sweep(start, now);
      }
    }
  }
}
