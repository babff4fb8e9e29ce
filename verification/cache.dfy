/** `ScanCache`: a keyed store of scan answers whose entries expire `ttl`
    seconds after they were added. The clock is a parameter: `now` is what
    `time.time()` would read at the call. */
module Cache {
  import opened Wrappers
  import opened Values

  /** One stored answer with the time it was added. */
  datatype Entry = Entry(timestamp: int, data: Value)

  datatype ScanCache = ScanCache(entries: map<string, Entry>, ttl: int)

  /** An entry has expired once strictly more than `ttl` seconds have passed
      since it was added; an entry exactly `ttl` seconds old is still served. */
  predicate Expired(e: Entry, now: int, ttl: int) {
    now - e.timestamp > ttl
  }

  /** A new cache, empty, whose entries live `ttl` seconds. */
  function Empty(ttl: int): (c: ScanCache)
    ensures forall key :: key !in c.entries
    ensures c.ttl == ttl
  {
    ScanCache(map[], ttl)
  }

  /** The lifetime of a cache built without one: an hour, in seconds. */
  const DefaultTtl: int := 3600

  /** `add(key, data)`: the key now maps to `data`, stamped with the current
      time, whatever it held before; every other key is untouched. */
  function Add(c: ScanCache, key: string, data: Value, now: int): (r: ScanCache)
    ensures key in r.entries && r.entries[key] == Entry(now, data)
    ensures forall k :: k != key ==> (k in r.entries <==> k in c.entries)
    ensures forall k :: k != key && k in c.entries ==> r.entries[k] == c.entries[k]
    ensures r.ttl == c.ttl
  {
    c.(entries := c.entries[key := Entry(now, data)])
  }

  /** `get(key)`: the data stored under `key` and the cache afterwards. A
      missing key gives None and changes nothing; a live entry gives its data
      and changes nothing; an expired entry gives None and is removed, and
      no other key is touched. */
  function Get(c: ScanCache, key: string, now: int): (r: (Option<Value>, ScanCache))
    ensures r.0.Some? <==> key in c.entries && !Expired(c.entries[key], now, c.ttl)
    ensures r.0.Some? ==> r.0.value == c.entries[key].data
    ensures key !in c.entries ==> r.1 == c
    ensures key in c.entries && !Expired(c.entries[key], now, c.ttl) ==> r.1 == c
    ensures key in c.entries && Expired(c.entries[key], now, c.ttl) ==>
              && key !in r.1.entries
              && (forall k :: k != key ==> (k in r.1.entries <==> k in c.entries))
              && (forall k :: k != key && k in c.entries ==> r.1.entries[k] == c.entries[k])
    ensures r.1.ttl == c.ttl
  {
    if key !in c.entries then (None, c)
    else
      var entry := c.entries[key];
      if Expired(entry, now, c.ttl) then (None, c.(entries := c.entries - {key}))
      else (Some(entry.data), c)
  }

  /** `clear()`: every entry is dropped. */
  function Clear(c: ScanCache): (r: ScanCache)
    ensures forall key :: key !in r.entries
    ensures r.ttl == c.ttl
  {
    c.(entries := map[])
  }

  /** Data just added is served back for exactly `ttl` seconds, the last of
      them included, and not after. */
  lemma GetAfterAdd(c: ScanCache, key: string, data: Value, added: int, now: int)
    ensures Get(Add(c, key, data, added), key, now).0 == if now - added <= c.ttl then Some(data) else None
  {
  }

  /** In a cache built with the default lifetime, data is still served an
      hour after it was added and gone one second later. */
  lemma DefaultLifetime(key: string, data: Value, added: int)
    ensures Get(Add(Empty(DefaultTtl), key, data, added), key, added + 3600).0 == Some(data)
    ensures Get(Add(Empty(DefaultTtl), key, data, added), key, added + 3601).0 == None
  {
    GetAfterAdd(Empty(DefaultTtl), key, data, added, added + 3600);
    GetAfterAdd(Empty(DefaultTtl), key, data, added, added + 3601);
  }

  /** Adding under one key does not change what any other key reads, nor
      what a read of it does to the cache. */
  lemma AddOtherKey(c: ScanCache, key: string, data: Value, added: int, other: string, now: int)
    requires other != key
    ensures Get(Add(c, key, data, added), other, now).0 == Get(c, other, now).0
    ensures Get(Add(c, key, data, added), other, now).1 == Add(Get(c, other, now).1, key, data, added)
  {
    if other in c.entries && Expired(c.entries[other], now, c.ttl) {
      assert (c.entries[key := Entry(added, data)]) - {other} == (c.entries - {other})[key := Entry(added, data)];
    }
  }

  /** A read leaves the cache in a state that a second read at the same
      time finds unchanged, answering the same; an expired entry in
      particular stays gone. */
  lemma GetSettles(c: ScanCache, key: string, now: int)
    ensures var (v, c') := Get(c, key, now);
            Get(c', key, now) == (v, c')
  {
  }

  /** Once an entry has expired it stays expired: a read at any later time
      gives None, and the first such read removes it. */
  lemma ExpiryIsPermanent(c: ScanCache, key: string, now: int, later: int)
    requires key in c.entries && Expired(c.entries[key], now, c.ttl)
    requires now <= later
    ensures Get(c, key, later).0 == None
    ensures Get(Get(c, key, now).1, key, later) == (None, Get(c, key, now).1)
  {
  }

  /** After `clear()` every read gives None and leaves the cache empty. */
  lemma GetAfterClear(c: ScanCache, key: string, now: int)
    ensures Get(Clear(c), key, now) == (None, Clear(c))
  {
  }
}
