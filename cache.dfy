/** The framework's cache store as the update checker uses it: a string-keyed
    store of (value, expiry) pairs read with `Cache::get`, written with
    `Cache::put` and used cache-aside through `Cache::remember`. The clock is
    the explicit parameter `now`, in seconds. */
module Cache {
  import opened Php

  datatype Entry<V> = Entry(value: V, expiresAt: int)

  type Entries<V> = map<string, Entry<V>>

  /** An entry is served while the clock is before its expiry instant. */
  predicate Live<V>(m: Entries<V>, key: string, now: int) {
    key in m && now < m[key].expiresAt
  }

  /** `Cache::get($key, $default)`. */
  function Lookup<V>(m: Entries<V>, key: string, default: V, now: int): (v: V)
    ensures Live(m, key, now) ==> v == m[key].value
    ensures !Live(m, key, now) ==> v == default
  {
    if Live(m, key, now) then m[key].value else default
  }

  /** `Cache::put($key, $value, $ttl)`: a positive TTL stores the value until
      `now + ttl`; a TTL of zero or less forgets the key. */
  function Write<V>(m: Entries<V>, key: string, v: V, ttl: int, now: int): (m': Entries<V>)
    ensures ttl > 0 ==> Live(m', key, now) && m'[key] == Entry(v, now + ttl)
    ensures ttl <= 0 ==> key !in m'
    ensures forall k :: k != key ==> (k in m' <==> k in m) && (k in m ==> m'[k] == m[k])
  {
    if ttl > 0 then m[key := Entry(v, now + ttl)] else m - {key}
  }

  /** What one `Cache::remember` call yields: its result, the new store and
      whether the producer ran. */
  datatype Recall<V> = Recall(result: Eval<V>, entries: Entries<V>, ran: bool)

  /** `Cache::remember($key, $ttl, $producer)`, where `produced` is what the
      producer returns or throws if it runs. A live entry is returned as it
      is; otherwise the producer runs and its value is stored. An exception
      out of the producer propagates and stores nothing. */
  function Remembered<V>(m: Entries<V>, key: string, ttl: int, now: int, produced: Eval<V>): Recall<V> {
    if Live(m, key, now) then Recall(Val(m[key].value), m, false)
    else
      match produced
      case Val(v) => Recall(produced, Write(m, key, v, ttl, now), true)
      case Throw(_) => Recall(produced, m, true)
  }

  /** A live entry answers the call: the producer does not run and the store
      does not change, whatever the producer would have returned. */
  lemma RememberHit<V>(m: Entries<V>, key: string, ttl: int, now: int, produced: Eval<V>)
    requires Live(m, key, now)
    ensures Remembered(m, key, ttl, now, produced) == Recall(Val(m[key].value), m, false)
  {
  }

  /** On a miss the producer runs; a value it returns is stored with expiry
      `now + ttl`, a throw leaves the store as it was. */
  lemma RememberMiss<V>(m: Entries<V>, key: string, ttl: int, now: int, produced: Eval<V>)
    requires !Live(m, key, now)
    ensures var c := Remembered(m, key, ttl, now, produced);
      && c.ran && c.result == produced
      && (produced.Val? && ttl > 0 ==> c.entries == m[key := Entry(produced.value, now + ttl)])
      && (produced.Throw? ==> c.entries == m)
  {
  }

  /** Two calls with the same key, the first a miss, the second strictly
      within the TTL: the second returns what the first stored and does not
      run its producer, whatever that producer is. */
  lemma RememberTwice<V>(m: Entries<V>, key: string, ttl: int, t1: int, t2: int,
                         p1: Eval<V>, p2: Eval<V>)
    requires !Live(m, key, t1) && ttl > 0 && p1.Val?
    requires t2 < t1 + ttl
    ensures var c1 := Remembered(m, key, ttl, t1, p1);
      var c2 := Remembered(c1.entries, key, ttl, t2, p2);
      c1.ran && c2.result == c1.result == p1 && !c2.ran && c2.entries == c1.entries
  {
  }

  /** Once the TTL has run out, the next call runs its producer again. */
  lemma RememberAfterExpiry<V>(m: Entries<V>, key: string, ttl: int, t1: int, t2: int,
                               p1: Eval<V>, p2: Eval<V>)
    requires !Live(m, key, t1) && p1.Val?
    requires t2 >= t1 + ttl
    ensures Remembered(Remembered(m, key, ttl, t1, p1).entries, key, ttl, t2, p2).ran
  {
  }

  /** Keys built by prefixing a fixed string are distinct for distinct
      names. */
  lemma PrefixedKeyInjective(p: string, a: string, b: string)
    requires p + a == p + b
    ensures a == b
  {
    assert a == (p + a)[|p|..];
    assert b == (p + b)[|p|..];
  }

  /** The store the update checker uses, updated in place. */
  class Store<V> {
    var entries: Entries<V>

    constructor ()
      ensures entries == map[]
    {
      entries := map[];
    }

    method Get(key: string, default: V, now: int) returns (v: V)
      ensures v == Lookup(entries, key, default, now)
    {
      if key in entries && now < entries[key].expiresAt {
        v := entries[key].value;
      } else {
        v := default;
      }
    }

    method Put(key: string, v: V, ttl: int, now: int)
      modifies this
      ensures entries == Write(old(entries), key, v, ttl, now)
    {
      if ttl > 0 {
        entries := entries[key := Entry(v, now + ttl)];
      } else {
        entries := entries - {key};
      }
    }

    /** Cache-aside: runs `producer` only when `key` has no live entry. */
    method Remember(key: string, ttl: int, now: int, producer: () -> Eval<V>) returns (r: Eval<V>, ran: bool)
      modifies this
      ensures Recall(r, entries, ran) == Remembered(old(entries), key, ttl, now, producer())
    {
      if key in entries && now < entries[key].expiresAt {
        r, ran := Val(entries[key].value), false;
      } else {
        r, ran := producer(), true;
        if r.Val? {
          Put(key, r.value, ttl, now);
        }
      }
    }
  }
}
