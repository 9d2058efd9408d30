/**
  The in-memory TTL cache with a stale fallback
  (backend_Test/internal/cache/cache.go).

  The Go type guards its map with a reader/writer lock and reads the wall
  clock; here the cache is single-threaded state and every clock reading is
  an explicit integer parameter (one unit = one tick of `time.Duration`).
*/
module Cache {
  import opened Wrappers
  import opened Model

  /** One cached value and the clock reading at which it was written. */
  datatype Entry = Entry(val: Weather, createdAt: int)

  /** One call of `Set`, as recorded in the cache's ghost history. */
  datatype Write = Write(key: string, val: Weather, at: int)

  /** An entry is fresh at `now` when its age does not exceed `ttl`; age == ttl is still fresh. */
  predicate IsFresh(e: Entry, ttl: int, now: int)
  {
    now - e.createdAt <= ttl
  }

  /**
    What a fresh lookup of `key` finds in `data` at `now`: whatever a stale
    lookup finds, provided the entry is no older than `ttl`.
  */
  function FreshValue(data: map<string, Entry>, ttl: int, key: string, now: int): (r: Option<Weather>)
    ensures r.Some? ==> r == StaleValue(data, key)
    ensures r.None? <==> key !in data || now - data[key].createdAt > ttl
  {
    if key in data && IsFresh(data[key], ttl, now) then Some(data[key].val) else None
  }

  /** What a stale lookup of `key` finds in `data`: the entry's value, whatever its age. */
  function StaleValue(data: map<string, Entry>, key: string): (r: Option<Weather>)
    ensures r.Some? <==> key in data
    ensures r.Some? ==> r.value == data[key].val
  {
    if key in data then Some(data[key].val) else None
  }

  /** The map obtained by performing the writes `ws`, in order, on a new cache. */
  function Replay(ws: seq<Write>): map<string, Entry>
  {
    if ws == [] then map[]
    else
      var w := ws[|ws| - 1];
      Replay(ws[..|ws| - 1])[w.key := Entry(w.val, w.at)]
  }

  /** The most recent write to `key` in `ws`, if there is one. */
  function LastWrite(ws: seq<Write>, key: string): Option<Write>
  {
    if ws == [] then None
    else if ws[|ws| - 1].key == key then Some(ws[|ws| - 1])
    else LastWrite(ws[..|ws| - 1], key)
  }

  /**
    `LastWrite` finds nothing exactly when no write used `key`; otherwise it
    finds a write to `key` with no later write to `key`.
  */
  lemma {:induction false} LastWriteIsLast(ws: seq<Write>, key: string)
    ensures LastWrite(ws, key).None? <==> forall i :: 0 <= i < |ws| ==> ws[i].key != key
    ensures LastWrite(ws, key).Some? ==>
      LastWrite(ws, key).value.key == key &&
      exists i :: 0 <= i < |ws| && ws[i] == LastWrite(ws, key).value && forall j :: i < j < |ws| ==> ws[j].key != key
  {
    if ws != [] {
      var n := |ws| - 1;
      var prefix := ws[..n];
      LastWriteIsLast(prefix, key);
      if ws[n].key != key {
        assert forall i :: 0 <= i < n ==> ws[i] == prefix[i];
        if LastWrite(prefix, key).Some? {
          var i :| 0 <= i < n && prefix[i] == LastWrite(prefix, key).value &&
            forall j :: i < j < n ==> prefix[j].key != key;
          assert ws[i] == LastWrite(ws, key).value;
        }
      }
    }
  }

  /** The cache's map holds, for every key, exactly the last value written to it and when. */
  lemma {:induction false} ReplayIsLastWrite(ws: seq<Write>, key: string)
    ensures key in Replay(ws) <==> LastWrite(ws, key).Some?
    ensures key in Replay(ws) ==>
      Replay(ws)[key] == Entry(LastWrite(ws, key).value.val, LastWrite(ws, key).value.at)
  {
    if ws != [] {
      ReplayIsLastWrite(ws[..|ws| - 1], key);
    }
  }

  class Memory {
    /** The cached entries, at most one per key. */
    var data: map<string, Entry>
    /** The freshness window. */
    const ttl: int
    /** Every `Set` performed on this cache, oldest first. */
    ghost var history: seq<Write>

    /** The map is exactly what the recorded writes produce. */
    ghost predicate Valid()
      reads this
    {
      data == Replay(history)
    }

    /** A cache with no entries and freshness window `ttl`. */
    constructor NewMemory(ttl: int)
      ensures Valid()
      ensures this.ttl == ttl && data == map[] && history == []
    {
      data := map[];
      this.ttl := ttl;
      history := [];
    }

    /** The value for `key` if it was written at most `ttl` before `now`. */
    method GetFresh(key: string, now: int) returns (v: Weather, ok: bool)
      requires Valid()
      ensures ok <==> key in data && now - data[key].createdAt <= ttl
      ensures v == if ok then data[key].val else ZeroWeather
      ensures ok <==> LastWrite(history, key).Some? && now - LastWrite(history, key).value.at <= ttl
      ensures ok ==> LastWrite(history, key).Some? && LastWrite(history, key).value.val == v
    {
      ReplayIsLastWrite(history, key);
      if key !in data {
        return ZeroWeather, false;
      }
      var e := data[key];
      if now - e.createdAt <= ttl {
        return e.val, true;
      }
      return ZeroWeather, false;
    }

    /** The value for `key` whatever its age: found exactly when `key` was ever written. */
    method GetStale(key: string) returns (v: Weather, ok: bool)
      requires Valid()
      ensures ok <==> key in data
      ensures v == if ok then data[key].val else ZeroWeather
      ensures ok <==> exists i :: 0 <= i < |history| && history[i].key == key
      ensures ok ==> LastWrite(history, key).Some? && LastWrite(history, key).value.val == v
    {
      ReplayIsLastWrite(history, key);
      LastWriteIsLast(history, key);
      if key !in data {
        return ZeroWeather, false;
      }
      return data[key].val, true;
    }

    /** Overwrites the entry for `key` with `v` written at `now`. */
    method Set(key: string, v: Weather, now: int)
      requires Valid()
      modifies this
      ensures Valid()
      ensures data == old(data)[key := Entry(v, now)]
      ensures history == old(history) + [Write(key, v, now)]
    {
      data := data[key := Entry(v, now)];
      history := history + [Write(key, v, now)];
      assert history[..|history| - 1] == old(history);
    }
  }

  /** A new cache answers not-found to both lookups, for every key and time. */
  method NewCacheIsEmpty(ttl: int, key: string, now: int) returns (foundFresh: bool, foundStale: bool)
    ensures !foundFresh && !foundStale
  {
    var m := new Memory.NewMemory(ttl);
    var v;
    v, foundFresh := m.GetFresh(key, now);
    v, foundStale := m.GetStale(key);
  }

  /**
    An entry is fresh up to and including age `ttl`, not-found to a fresh
    lookup one tick later, and still found by a stale lookup.
  */
  lemma FreshnessBoundary(data: map<string, Entry>, ttl: int, key: string)
    requires key in data
    ensures FreshValue(data, ttl, key, data[key].createdAt + ttl) == Some(data[key].val)
    ensures FreshValue(data, ttl, key, data[key].createdAt + ttl + 1) == None
    ensures StaleValue(data, key) == Some(data[key].val)
  {
  }

  /** Once an entry has expired it stays expired as the clock advances. */
  lemma ExpiryIsPermanent(data: map<string, Entry>, ttl: int, key: string, now: int, later: int)
    requires now <= later
    requires FreshValue(data, ttl, key, now) == None
    ensures FreshValue(data, ttl, key, later) == None
  {
  }

  /** After writing `v` under `key` at `t`, both lookups of `key` see `v` (the fresh one while `now - t <= ttl`). */
  lemma SetThenGet(data: map<string, Entry>, ttl: int, key: string, v: Weather, t: int, now: int)
    ensures StaleValue(data[key := Entry(v, t)], key) == Some(v)
    ensures FreshValue(data[key := Entry(v, t)], ttl, key, now) == if now - t <= ttl then Some(v) else None
  {
  }

  /** Writing one key leaves every lookup of every other key unchanged. */
  lemma SetLeavesOtherKeys(data: map<string, Entry>, ttl: int, key: string, v: Weather, t: int, other: string, now: int)
    requires other != key
    ensures StaleValue(data[key := Entry(v, t)], other) == StaleValue(data, other)
    ensures FreshValue(data[key := Entry(v, t)], ttl, other, now) == FreshValue(data, ttl, other, now)
  {
  }

  /**
    Writing the same value again only refreshes it: a stale lookup sees no
    change, and a fresh lookup finds the value until `ttl` after the second
    write, whether or not the first had expired.
  */
  lemma SetSameValueRefreshes(data: map<string, Entry>, ttl: int, key: string, v: Weather, t1: int, t2: int, now: int)
    ensures StaleValue(data[key := Entry(v, t1)][key := Entry(v, t2)], key) == StaleValue(data[key := Entry(v, t1)], key)
    ensures FreshValue(data[key := Entry(v, t1)][key := Entry(v, t2)], ttl, key, now) ==
      if now - t2 <= ttl then Some(v) else None
  {
  }

  /**
    Over any sequence of writes starting from a new cache, a stale lookup
    finds `key` exactly when some write used `key`, and then yields the value
    of the last such write.
  */
  lemma {:induction false} StaleIffEverSet(ws: seq<Write>, key: string)
    ensures StaleValue(Replay(ws), key).Some? <==> exists i :: 0 <= i < |ws| && ws[i].key == key
    ensures StaleValue(Replay(ws), key).Some? ==>
      exists i :: 0 <= i < |ws| && ws[i].key == key && ws[i].val == StaleValue(Replay(ws), key).value &&
        forall j :: i < j < |ws| ==> ws[j].key != key
  {
    ReplayIsLastWrite(ws, key);
    LastWriteIsLast(ws, key);
  }
}
