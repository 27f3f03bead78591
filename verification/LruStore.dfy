/** The data of wallet/cache.rs's `LRUCache`: a vector of entries and a map from key to vector
    position, with what each operation does to them. Positions go stale unless every removal
    repairs them, so the central predicate is `IndexOk`. `repaired` selects between
    `cleanup_expired` as the repository has it (false) and the version that repairs positions
    after each removal, as eviction and `remove` do (true). */
module LruStore {
  import opened Prelude

  datatype Entry<K, V> = Entry(key: K, value: V, expiry: Option<nat>, lastAccessed: nat)

  datatype Store<K, V> = Store(entries: seq<Entry<K, V>>, lookup: map<K, nat>)

  /** What a call does: it returns a value, or indexes the vector out of range and panics. */
  datatype Outcome<+R> = Returned(value: R) | Panicked

  predicate Expired<K, V>(e: Entry<K, V>, now: nat) {
    e.expiry.Some? && e.expiry.value < now
  }

  function Live<K, V>(now: nat): Entry<K, V> -> bool {
    (e: Entry<K, V>) => !Expired(e, now)
  }

  ghost function NotKey<K, V>(key: K): Entry<K, V> -> bool {
    (e: Entry<K, V>) => e.key != key
  }

  ghost predicate DistinctKeys<K, V>(entries: seq<Entry<K, V>>) {
    forall i, j :: 0 <= i < j < |entries| ==> entries[i].key != entries[j].key
  }

  lemma FilterDistinctKeys<K, V>(p: Entry<K, V> -> bool, entries: seq<Entry<K, V>>)
    requires DistinctKeys(entries)
    ensures DistinctKeys(Filter(p, entries))
  {
    var rel := (a: Entry<K, V>, b: Entry<K, V>) => a.key != b.key;
    FilterPairwise(rel, p, entries);
    forall i, j | 0 <= i < j < |Filter(p, entries)| ensures Filter(p, entries)[i].key != Filter(p, entries)[j].key {
      assert rel(Filter(p, entries)[i], Filter(p, entries)[j]);
    }
  }

  /** The lookup table maps exactly the keys of the vector to their positions. */
  ghost predicate IndexOk<K, V>(s: Store<K, V>) {
    && (forall i :: 0 <= i < |s.entries| ==>
          s.entries[i].key in s.lookup && s.lookup[s.entries[i].key] == i)
    && (forall k :: k in s.lookup ==>
          s.lookup[k] < |s.entries| && s.entries[s.lookup[k]].key == k)
  }

  ghost predicate ExpiredKey<K, V>(entries: seq<Entry<K, V>>, now: nat, k: K) {
    exists i :: 0 <= i < |entries| && entries[i].key == k && Expired(entries[i], now)
  }

  /** Where position `p` ends up once the expired entries before it are gone. */
  ghost function NewPosition<K, V>(entries: seq<Entry<K, V>>, now: nat, p: nat): nat {
    if p <= |entries| then |Filter(Live(now), entries[..p])| else p
  }

  ghost function Cleaned<K, V>(s: Store<K, V>, now: nat, repaired: bool): Store<K, V> {
    Store(
      Filter(Live(now), s.entries),
      map k | k in s.lookup && !ExpiredKey(s.entries, now, k) ::
        if repaired then NewPosition(s.entries, now, s.lookup[k]) else s.lookup[k])
  }

  /** Every position above `i` moves down by one. */
  ghost function Shift<K>(lookup: map<K, nat>, i: nat): map<K, nat> {
    map k | k in lookup :: if lookup[k] > i then lookup[k] - 1 else lookup[k]
  }

  /** Remove the entry at `i` together with its lookup entry, and repair the positions. */
  ghost function Dropped<K, V>(s: Store<K, V>, i: nat): Store<K, V>
    requires i < |s.entries|
  {
    Store(RemoveAt(s.entries, i), Shift(s.lookup - {s.entries[i].key}, i))
  }

  /** The first position holding the smallest access time. */
  ghost predicate IsOldest<K, V>(entries: seq<Entry<K, V>>, i: nat) {
    && i < |entries|
    && (forall j :: 0 <= j < i ==> entries[i].lastAccessed < entries[j].lastAccessed)
    && (forall j :: i < j < |entries| ==> entries[i].lastAccessed <= entries[j].lastAccessed)
  }

  ghost function Oldest<K, V>(entries: seq<Entry<K, V>>): (i: nat)
    requires entries != []
    ensures IsOldest(entries, i)
  {
    var n := |entries| - 1;
    if n == 0 then 0
    else
      var o := Oldest(entries[..n]);
      assert entries[..n][o] == entries[o];
      if entries[n].lastAccessed < entries[o].lastAccessed then n else o
  }

  ghost function Pushed<K, V>(s: Store<K, V>, e: Entry<K, V>): Store<K, V> {
    Store(s.entries + [e], s.lookup[e.key := |s.entries|])
  }

  /** The insertion branch for an absent key. With capacity 0 the vector is full while empty,
      and `entries.remove(0)` panics. */
  ghost function Added<K, V>(s: Store<K, V>, capacity: nat, e: Entry<K, V>): (Store<K, V>, Outcome<()>) {
    if |s.entries| < capacity then (Pushed(s, e), Returned(()))
    else if s.entries == [] then (s, Panicked)
    else (Pushed(Dropped(s, Oldest(s.entries)), e), Returned(()))
  }

  /** `get` once the cleanup is done. */
  ghost function Fetched<K, V>(c: Store<K, V>, key: K, now: nat): (Store<K, V>, Outcome<Option<V>>) {
    if key !in c.lookup then (c, Returned(None))
    else
      var i := c.lookup[key];
      if i >= |c.entries| then (c, Panicked)
      else (c.(entries := c.entries[i := c.entries[i].(lastAccessed := now)]), Returned(Some(c.entries[i].value)))
  }

  ghost function Got<K, V>(s: Store<K, V>, key: K, cleanAt: nat, now: nat, repaired: bool)
    : (Store<K, V>, Outcome<Option<V>>)
  {
    Fetched(Cleaned(s, cleanAt, repaired), key, now)
  }

  /** `insert_with_ttl` once the cleanup is done. */
  ghost function Upserted<K, V>(c: Store<K, V>, capacity: nat, key: K, value: V, expiry: nat, now: nat)
    : (Store<K, V>, Outcome<()>)
  {
    if key !in c.lookup then Added(c, capacity, Entry(key, value, Some(expiry), now))
    else
      var i := c.lookup[key];
      if i >= |c.entries| then (c, Panicked)
      else (c.(entries := c.entries[i := c.entries[i].(value := value, expiry := Some(expiry), lastAccessed := now)]),
            Returned(()))
  }

  ghost function InsertedWithExpiry<K, V>(s: Store<K, V>, capacity: nat, key: K, value: V, expiry: nat,
                                          cleanAt: nat, now: nat, repaired: bool): (Store<K, V>, Outcome<()>)
  {
    Upserted(Cleaned(s, cleanAt, repaired), capacity, key, value, expiry, now)
  }

  ghost function Inserted<K, V>(s: Store<K, V>, capacity: nat, key: K, value: V, now: nat): (Store<K, V>, Outcome<()>) {
    if key !in s.lookup then Added(s, capacity, Entry(key, value, None, now))
    else
      var i := s.lookup[key];
      if i >= |s.entries| then (s, Panicked)
      else (s.(entries := s.entries[i := s.entries[i].(value := value, lastAccessed := now)]), Returned(()))
  }

  ghost function Removed<K, V>(s: Store<K, V>, key: K): (Store<K, V>, Outcome<Option<V>>) {
    if key !in s.lookup then (s, Returned(None))
    else
      var i := s.lookup[key];
      if i >= |s.entries| then (s.(lookup := s.lookup - {key}), Panicked)
      else (Store(RemoveAt(s.entries, i), Shift(s.lookup - {key}, i)), Returned(Some(s.entries[i].value)))
  }

  // ---------- The index ----------

  lemma IndexIsUnique<K, V>(entries: seq<Entry<K, V>>, a: map<K, nat>, b: map<K, nat>)
    requires IndexOk(Store(entries, a)) && IndexOk(Store(entries, b))
    ensures a == b
  {
  }

  lemma IndexGivesDistinctKeys<K, V>(s: Store<K, V>)
    requires IndexOk(s)
    ensures DistinctKeys(s.entries)
  {
  }

  lemma DropKeepsIndex<K, V>(s: Store<K, V>, i: nat)
    requires IndexOk(s) && i < |s.entries|
    ensures IndexOk(Dropped(s, i))
  {
  }

  lemma PushKeepsIndex<K, V>(s: Store<K, V>, e: Entry<K, V>)
    requires IndexOk(s) && e.key !in s.lookup
    ensures IndexOk(Pushed(s, e))
  {
  }

  lemma RefreshKeepsIndex<K, V>(s: Store<K, V>, i: nat, e: Entry<K, V>)
    requires IndexOk(s) && i < |s.entries| && e.key == s.entries[i].key
    ensures IndexOk(s.(entries := s.entries[i := e]))
  {
  }

  /** Cleanup with the repair keeps the index, whatever has expired. */
  lemma RepairedCleanupKeepsIndex<K, V>(s: Store<K, V>, now: nat)
    requires IndexOk(s)
    ensures IndexOk(Cleaned(s, now, true))
  {
    var c := Cleaned(s, now, true);
    forall k | k in c.lookup
      ensures c.lookup[k] < |c.entries| && c.entries[c.lookup[k]].key == k
    {
      var p := s.lookup[k];
      assert s.entries[p].key == k;
      FilterPosition(Live(now), s.entries, p);
    }
    forall i | 0 <= i < |c.entries|
      ensures c.entries[i].key in c.lookup && c.lookup[c.entries[i].key] == i
    {
      var e := c.entries[i];
      FilterMembers(Live(now), s.entries);
      assert e in c.entries;
      var p :| 0 <= p < |s.entries| && s.entries[p] == e;
      assert s.lookup[e.key] == p;
      forall q | 0 <= q < |s.entries| && s.entries[q].key == e.key ensures q == p {}
      var q := c.lookup[e.key];
      FilterPosition(Live(now), s.entries, p);
      IndexGivesDistinctKeys(s);
      FilterDistinctKeys(Live(now), s.entries);
      assert c.entries[q] == e;
    }
  }

  /** The expired entries are the last ones of the vector. */
  ghost predicate ExpiredSuffix<K, V>(entries: seq<Entry<K, V>>, now: nat) {
    forall i, j :: 0 <= i < j < |entries| && Expired(entries[i], now) ==> Expired(entries[j], now)
  }

  lemma {:induction false} SuffixKeepsPositions<K, V>(entries: seq<Entry<K, V>>, now: nat, p: nat)
    requires ExpiredSuffix(entries, now)
    requires p < |entries| && !Expired(entries[p], now)
    ensures NewPosition(entries, now, p) == p
  {
    forall x | x in entries[..p] ensures Live(now)(x) {
      var i :| 0 <= i < p && entries[..p][i] == x;
      assert entries[i] == x;
    }
    FilterAll(Live(now), entries[..p]);
  }

  lemma SuffixCleanupNeedsNoRepair<K, V>(s: Store<K, V>, now: nat)
    requires IndexOk(s) && ExpiredSuffix(s.entries, now)
    ensures Cleaned(s, now, false) == Cleaned(s, now, true)
  {
    forall k | k in s.lookup && !ExpiredKey(s.entries, now, k)
      ensures NewPosition(s.entries, now, s.lookup[k]) == s.lookup[k]
    {
      assert s.entries[s.lookup[k]].key == k;
      SuffixKeepsPositions(s.entries, now, s.lookup[k]);
    }
  }

  /** Exactly when the cleanup of wallet/cache.rs leaves a correct index: an expired entry in
      front of a live one is what breaks it. */
  lemma CleanupKeepsIndexIff<K, V>(s: Store<K, V>, now: nat)
    requires IndexOk(s)
    ensures IndexOk(Cleaned(s, now, false)) <==> ExpiredSuffix(s.entries, now)
  {
    var c := Cleaned(s, now, false);
    if ExpiredSuffix(s.entries, now) {
      SuffixCleanupNeedsNoRepair(s, now);
      RepairedCleanupKeepsIndex(s, now);
    } else {
      var i, j :| 0 <= i < j < |s.entries| && Expired(s.entries[i], now) && !Expired(s.entries[j], now);
      var k := s.entries[j].key;
      assert s.lookup[k] == j;
      assert !ExpiredKey(s.entries, now, k);
      assert c.lookup[k] == j;
      FilterPosition(Live(now), s.entries, j);
      assert s.entries[..j][i] == s.entries[i];
      FilterDropsOne(Live(now), s.entries[..j], i);
      var q := |Filter(Live(now), s.entries[..j])|;
      assert c.entries[q].key == k && q < j;
    }
  }
}
