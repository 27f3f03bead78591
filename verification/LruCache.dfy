/** wallet/cache.rs's `LRUCache`: the vector, the lookup table and the loops that keep them.
    With `repairs` false this is the repository's code; with `repairs` true `CleanupExpired`
    also repairs positions after each removal, as eviction and `Remove` do. */
module LruCache {
  import opened Prelude
  import opened LruStore

  class LRUCache<K(==), V> {
    var entries: seq<Entry<K, V>>
    var lookup: map<K, nat>
    const capacity: nat
    var defaultTtl: Option<nat>
    const repairs: bool

    ghost function Contents(): Store<K, V>
      reads this
    {
      Store(entries, lookup)
    }

    /** Only the repaired cache keeps this for good. */
    ghost predicate Valid()
      reads this
    {
      repairs ==> IndexOk(Contents())
    }

    constructor (capacity: nat, defaultTtl: Option<nat>, repairs: bool)
      ensures Contents() == Store([], map[]) && Valid()
      ensures this.capacity == capacity && this.defaultTtl == defaultTtl && this.repairs == repairs
    {
      this.entries := [];
      this.lookup := map[];
      this.capacity := capacity;
      this.defaultTtl := defaultTtl;
      this.repairs := repairs;
    }

    /** The loop that repairs `lookup` after a removal at `i`. */
    method ShiftPositions(i: nat)
      modifies `lookup
      ensures lookup == Shift(old(lookup), i)
    {
      var rest := lookup.Keys;
      while rest != {}
        invariant rest <= lookup.Keys == old(lookup).Keys
        invariant forall k :: k in lookup ==> lookup[k] == if k in rest then old(lookup)[k] else Shift(old(lookup), i)[k]
        decreases |rest|
      {
        var k :| k in rest;
        if lookup[k] > i {
          lookup := lookup[k := lookup[k] - 1];
        }
        rest := rest - {k};
      }
    }

    /** The first loop of the cleanup: the positions of the expired entries, in ascending order. */
    method CollectExpired(now: nat) returns (toRemove: seq<nat>)
      ensures forall j :: j in toRemove <==> 0 <= j < |entries| && Expired(entries[j], now)
      ensures forall i :: 0 <= i < |toRemove| ==> toRemove[i] < |entries| && Expired(entries[toRemove[i]], now)
      ensures forall i, j :: 0 <= i < j < |toRemove| ==> toRemove[i] < toRemove[j]
    {
      toRemove := [];
      for index := 0 to |entries|
        invariant forall j :: j in toRemove <==> 0 <= j < index && Expired(entries[j], now)
        invariant forall i :: 0 <= i < |toRemove| ==> toRemove[i] < index && Expired(entries[toRemove[i]], now)
        invariant forall i, j :: 0 <= i < j < |toRemove| ==> toRemove[i] < toRemove[j]
      {
        if Expired(entries[index], now) {
          toRemove := toRemove + [index];
        }
      }
    }

    /** Remove one entry by position, with its lookup entry; repair the positions if asked to. */
    method RemoveExpired(index: nat)
      requires Valid() && index < |entries|
      modifies `entries, `lookup
      ensures Valid() && entries == RemoveAt(old(entries), index)
      ensures !repairs ==> lookup == old(lookup) - {old(entries)[index].key}
    {
      ghost var s := Contents();
      if repairs { DropKeepsIndex(s, index); }
      var entry := entries[index];
      entries := RemoveAt(entries, index);
      lookup := lookup - {entry.key};
      if repairs {
        ShiftPositions(index);
        assert Contents() == Dropped(s, index);
      }
    }

    /** Collect the expired positions, then remove them from the largest to the smallest. */
    method CleanupExpired(now: nat)
      requires Valid()
      modifies `entries, `lookup
      ensures Contents() == Cleaned(old(Contents()), now, repairs) && Valid()
    {
      ghost var before := Contents();
      var toRemove := CollectExpired(now);
      var n := |toRemove|;
      ghost var b: nat := |entries|;
      NothingRemoved(before, now, repairs);
      while n > 0
        invariant 0 <= n <= |toRemove| && Valid()
        invariant Pending(before.entries, now, toRemove, n, b)
        invariant Partial(before, now, b, Contents(), repairs)
      {
        var index := toRemove[n - 1];
        ghost var s := Contents();
        NextPending(before.entries, now, toRemove, n, b);
        PartialStep(before, now, index, b, s, repairs);
        RemoveExpired(index);
        NextPartial(before, now, index, b, s, Contents(), repairs);
        n, b := n - 1, index;
      }
      CleanupDone(before, now, b, Contents(), repairs);
    }

    /** The branch of both insertions for an absent key: evict the least recently used entry when full, append. */
    method Add(e: Entry<K, V>) returns (out: Outcome<()>)
      requires Valid() && e.key !in lookup
      modifies `entries, `lookup
      ensures (Contents(), out) == Added(old(Contents()), capacity, e) && Valid()
    {
      ghost var before := Contents();
      if |entries| >= capacity {
        if |entries| == 0 {
          return Panicked;
        }
        var oldest := 0;
        for idx := 1 to |entries|
          invariant oldest < idx
          invariant IsOldest(entries[..idx], oldest)
        {
          assert entries[..idx + 1][..idx] == entries[..idx] && entries[..idx + 1][idx] == entries[idx];
          assert entries[..idx][oldest] == entries[oldest];
          if entries[idx].lastAccessed < entries[oldest].lastAccessed {
            oldest := idx;
          }
        }
        assert entries[..|entries|] == entries;
        assert oldest == Oldest(entries);
        if repairs { DropKeepsIndex(before, oldest); }
        var evicted := entries[oldest];
        entries := RemoveAt(entries, oldest);
        lookup := lookup - {evicted.key};
        ShiftPositions(oldest);
        assert Contents() == Dropped(before, oldest);
      }
      if repairs { PushKeepsIndex(Contents(), e); }
      lookup := lookup[e.key := |entries|];
      entries := entries + [e];
      out := Returned(());
    }

    /** `now` is the clock at entry; the cleanup reads the clock again as `cleanAt`. */
    method InsertWithTtl(key: K, value: V, ttl: nat, cleanAt: nat, now: nat) returns (out: Outcome<()>)
      requires Valid()
      modifies `entries, `lookup
      ensures (Contents(), out) == InsertedWithExpiry(old(Contents()), capacity, key, value, now + ttl, cleanAt, now, repairs)
      ensures Valid()
    {
      CleanupExpired(cleanAt);
      if key in lookup {
        var index := lookup[key];
        if index >= |entries| {
          return Panicked;
        }
        if repairs { RefreshKeepsIndex(Contents(), index, entries[index].(value := value, expiry := Some(now + ttl), lastAccessed := now)); }
        entries := entries[index := entries[index].(value := value, expiry := Some(now + ttl), lastAccessed := now)];
        out := Returned(());
      } else {
        out := Add(Entry(key, value, Some(now + ttl), now));
      }
    }

    method Insert(key: K, value: V, cleanAt: nat, now: nat) returns (out: Outcome<()>)
      requires Valid()
      modifies `entries, `lookup
      ensures (Contents(), out) ==
              match defaultTtl
              case Some(ttl) => InsertedWithExpiry(old(Contents()), capacity, key, value, now + ttl, cleanAt, now, repairs)
              case None => Inserted(old(Contents()), capacity, key, value, now)
      ensures Valid()
    {
      if defaultTtl.Some? {
        out := InsertWithTtl(key, value, defaultTtl.value, cleanAt, now);
      } else if key in lookup {
        var index := lookup[key];
        if index >= |entries| {
          return Panicked;
        }
        if repairs { RefreshKeepsIndex(Contents(), index, entries[index].(value := value, lastAccessed := now)); }
        entries := entries[index := entries[index].(value := value, lastAccessed := now)];
        out := Returned(());
      } else {
        out := Add(Entry(key, value, None, now));
      }
    }

    method Get(key: K, cleanAt: nat, now: nat) returns (out: Outcome<Option<V>>)
      requires Valid()
      modifies `entries, `lookup
      ensures (Contents(), out) == Got(old(Contents()), key, cleanAt, now, repairs) && Valid()
    {
      CleanupExpired(cleanAt);
      ghost var c := Contents();
      assert Got(old(Contents()), key, cleanAt, now, repairs) == Fetched(c, key, now);
      if key !in lookup {
        return Returned(None);
      }
      var index := lookup[key];
      if index >= |entries| {
        return Panicked;
      }
      out := Returned(Some(entries[index].value));
      if repairs { RefreshKeepsIndex(c, index, entries[index].(lastAccessed := now)); }
      entries := entries[index := entries[index].(lastAccessed := now)];
    }

    method Remove(key: K) returns (out: Outcome<Option<V>>)
      requires Valid()
      modifies `entries, `lookup
      ensures (Contents(), out) == Removed(old(Contents()), key) && Valid()
    {
      if key !in lookup {
        return Returned(None);
      }
      var index := lookup[key];
      if repairs { DropKeepsIndex(Contents(), index); }
      lookup := lookup - {key};
      if index >= |entries| {
        return Panicked;
      }
      out := Returned(Some(entries[index].value));
      entries := RemoveAt(entries, index);
      ShiftPositions(index);
    }

    method Clear()
      modifies `entries, `lookup
      ensures Contents() == Store([], map[]) && Valid()
    {
      entries := [];
      lookup := map[];
    }
  }

  // ---------- The removal loop of `CleanupExpired` ----------

  /** The lookup table once the keys expired at or after position `b` are gone. */
  ghost function Unexpired<K, V>(s: Store<K, V>, now: nat, b: nat): map<K, nat>
    requires b <= |s.entries|
  {
    map k | k in s.lookup && !ExpiredKey(s.entries[b..], now, k) :: s.lookup[k]
  }

  /** Everything expired at or after position `b` is gone from `s`, and nothing else. */
  ghost predicate Partial<K, V>(before: Store<K, V>, now: nat, b: nat, s: Store<K, V>, repairs: bool) {
    && b <= |before.entries|
    && s.entries == before.entries[..b] + Filter(Live(now), before.entries[b..])
    && (!repairs ==> s.lookup == Unexpired(before, now, b))
    && (repairs ==> IndexOk(before) && IndexOk(s))
  }

  /** The positions still to remove are `toRemove[..n]`, all before `b`. */
  ghost predicate Pending<K, V>(entries: seq<Entry<K, V>>, now: nat, toRemove: seq<nat>, n: nat, b: nat) {
    && n <= |toRemove| && b <= |entries|
    && (forall i, j :: 0 <= i < j < |toRemove| ==> toRemove[i] < toRemove[j])
    && (forall j :: 0 <= j < n ==> toRemove[j] < b && Expired(entries[toRemove[j]], now))
    && (forall j :: 0 <= j < b && Expired(entries[j], now) ==> j in toRemove[..n])
  }

  lemma NothingRemoved<K, V>(s: Store<K, V>, now: nat, repairs: bool)
    requires repairs ==> IndexOk(s)
    ensures Partial(s, now, |s.entries|, s, repairs)
  {
  }

  lemma NextPending<K, V>(entries: seq<Entry<K, V>>, now: nat, toRemove: seq<nat>, n: nat, b: nat)
    requires n > 0 && Pending(entries, now, toRemove, n, b)
    ensures Pending(entries, now, toRemove, n - 1, toRemove[n - 1])
    ensures Expired(entries[toRemove[n - 1]], now) && toRemove[n - 1] < b
    ensures forall j :: toRemove[n - 1] < j < b ==> !Expired(entries[j], now)
  {
  }

  lemma PartialStep<K, V>(before: Store<K, V>, now: nat, index: nat, b: nat, s: Store<K, V>, repairs: bool)
    requires Partial(before, now, b, s, repairs) && index < b && Expired(before.entries[index], now)
    requires forall j :: index < j < b ==> !Expired(before.entries[j], now)
    ensures index < |s.entries| && s.entries[index] == before.entries[index]
  {
  }

  lemma NextPartial<K, V>(before: Store<K, V>, now: nat, index: nat, b: nat, s: Store<K, V>, t: Store<K, V>, repairs: bool)
    requires Partial(before, now, b, s, repairs) && index < b && Expired(before.entries[index], now)
    requires forall j :: index < j < b ==> !Expired(before.entries[j], now)
    requires index < |s.entries| && t.entries == RemoveAt(s.entries, index)
    requires !repairs ==> t.lookup == s.lookup - {s.entries[index].key}
    requires repairs ==> IndexOk(t)
    ensures Partial(before, now, index, t, repairs)
  {
    RemovedEntry(before.entries, now, index, b);
    RemovedKey(before, now, index, b);
  }

  lemma CleanupDone<K, V>(before: Store<K, V>, now: nat, b: nat, t: Store<K, V>, repairs: bool)
    requires Partial(before, now, b, t, repairs)
    requires forall j :: 0 <= j < b ==> !Expired(before.entries[j], now)
    ensures t == Cleaned(before, now, repairs)
  {
    CleanedEntries(before.entries, now, b);
    if repairs {
      RepairedCleanupKeepsIndex(before, now);
      IndexIsUnique(t.entries, t.lookup, Cleaned(before, now, true).lookup);
    } else {
      CleanedKeys(before, now, b);
    }
  }

  lemma TailDropsOne<K, V>(e: seq<Entry<K, V>>, now: nat, index: nat, b: nat)
    requires index < b <= |e| && Expired(e[index], now)
    requires forall j :: index < j < b ==> !Expired(e[j], now)
    ensures Filter(Live(now), e[index..]) == e[index + 1..b] + Filter(Live(now), e[b..])
  {
    var between := e[index + 1..b];
    assert e[index..] == [e[index]] + (between + e[b..]);
    FilterAppend(Live(now), between, e[b..]);
    forall x | x in between ensures Live(now)(x) {
      var j :| 0 <= j < |between| && between[j] == x;
      assert e[index + 1 + j] == x;
    }
    FilterAll(Live(now), between);
  }

  lemma RemovedEntry<K, V>(e: seq<Entry<K, V>>, now: nat, index: nat, b: nat)
    requires index < b <= |e| && Expired(e[index], now)
    requires forall j :: index < j < b ==> !Expired(e[j], now)
    ensures (e[..b] + Filter(Live(now), e[b..]))[index] == e[index]
    ensures RemoveAt(e[..b] + Filter(Live(now), e[b..]), index) == e[..index] + Filter(Live(now), e[index..])
  {
    TailDropsOne(e, now, index, b);
    var tail := Filter(Live(now), e[b..]);
    RemoveInPrefix(e, index, b, tail);
  }

  lemma RemoveInPrefix<T>(e: seq<T>, index: nat, b: nat, tail: seq<T>)
    requires index < b <= |e|
    ensures RemoveAt(e[..b] + tail, index) == e[..index] + (e[index + 1..b] + tail)
  {
  }

  lemma RemovedKey<K, V>(s: Store<K, V>, now: nat, index: nat, b: nat)
    requires index < b <= |s.entries| && Expired(s.entries[index], now)
    requires forall j :: index < j < b ==> !Expired(s.entries[j], now)
    ensures Unexpired(s, now, b) - {s.entries[index].key} == Unexpired(s, now, index)
  {
  }

  lemma CleanedEntries<K, V>(e: seq<Entry<K, V>>, now: nat, b: nat)
    requires b <= |e| && forall j :: 0 <= j < b ==> !Expired(e[j], now)
    ensures e[..b] + Filter(Live(now), e[b..]) == Filter(Live(now), e)
  {
    assert e == e[..b] + e[b..];
    FilterAppend(Live(now), e[..b], e[b..]);
    forall x | x in e[..b] ensures Live(now)(x) {}
    FilterAll(Live(now), e[..b]);
  }

  lemma CleanedKeys<K, V>(s: Store<K, V>, now: nat, b: nat)
    requires b <= |s.entries| && forall j :: 0 <= j < b ==> !Expired(s.entries[j], now)
    ensures Unexpired(s, now, b) == Cleaned(s, now, false).lookup
  {
  }
}
