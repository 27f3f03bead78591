/** The cache refines a timed recency list: items ordered from most to least recently used. */
module LruRecency {
  import opened Prelude
  import opened LruStore

  datatype Item<K, V> = Item(key: K, value: V, expiry: Option<nat>)

  // ---------- The abstract list ----------

  ghost function LiveItem<K, V>(now: nat): Item<K, V> -> bool {
    (x: Item<K, V>) => !(x.expiry.Some? && x.expiry.value < now)
  }

  ghost function OtherItem<K, V>(key: K): Item<K, V> -> bool {
    (x: Item<K, V>) => x.key != key
  }

  ghost function Find<K, V>(l: seq<Item<K, V>>, key: K): Option<Item<K, V>> {
    if l == [] then None else if l[0].key == key then Some(l[0]) else Find(l[1..], key)
  }

  /** An absent key goes in front, and a full list first gives up its least recently used item. */
  ghost function Put<K, V>(l: seq<Item<K, V>>, capacity: nat, x: Item<K, V>): seq<Item<K, V>> {
    if Find(l, x.key).Some? then [x] + Filter(OtherItem(x.key), l)
    else if |l| < capacity || l == [] then [x] + l
    else [x] + l[..|l| - 1]
  }

  // ---------- Operations and runs ----------

  /** `insert` is `Insert` when the cache has no default TTL and `InsertTtl` with it otherwise.
      `cleanAt` is the clock read by the cleanup, `now` the one stored as access time. */
  datatype Op<K, V> =
    | Get(key: K, cleanAt: nat, now: nat)
    | Insert(key: K, value: V, now: nat)
    | InsertTtl(key: K, value: V, ttl: nat, cleanAt: nat, now: nat)
    | Remove(key: K)
    | Clear

  /** The instant at which an entry stored at `now` runs out. */
  function Expiry(now: nat, ttl: nat): nat {
    now + ttl
  }

  /** A call with nothing to answer. */
  ghost function Silent<K, V>(r: (Store<K, V>, Outcome<()>)): (Store<K, V>, Outcome<Option<V>>) {
    (r.0, if r.1.Panicked? then Panicked else Returned(None))
  }

  ghost function Apply<K, V>(s: Store<K, V>, capacity: nat, op: Op<K, V>, repaired: bool)
    : (Store<K, V>, Outcome<Option<V>>)
  {
    match op
    case Get(k, cleanAt, now) => Got(s, k, cleanAt, now, repaired)
    case Insert(k, v, now) => Silent(Inserted(s, capacity, k, v, now))
    case InsertTtl(k, v, ttl, cleanAt, now) =>
      Silent(InsertedWithExpiry(s, capacity, k, v, Expiry(now, ttl), cleanAt, now, repaired))
    case Remove(k) => Removed(s, k)
    case Clear => (Store([], map[]), Returned(None))
  }

  ghost function ListFetched<K, V>(l: seq<Item<K, V>>, key: K): (seq<Item<K, V>>, Option<V>) {
    match Find(l, key)
    case None => (l, None)
    case Some(x) => ([x] + Filter(OtherItem(key), l), Some(x.value))
  }

  /** An update keeps the old expiry. */
  ghost function ListInserted<K, V>(l: seq<Item<K, V>>, capacity: nat, key: K, value: V): seq<Item<K, V>> {
    var kept := match Find(l, key) case None => None case Some(x) => x.expiry;
    Put(l, capacity, Item(key, value, kept))
  }

  ghost function ListRemoved<K, V>(l: seq<Item<K, V>>, key: K): (seq<Item<K, V>>, Option<V>) {
    match Find(l, key)
    case None => (l, None)
    case Some(x) => (Filter(OtherItem(key), l), Some(x.value))
  }

  ghost function ApplyList<K, V>(l: seq<Item<K, V>>, capacity: nat, op: Op<K, V>): (seq<Item<K, V>>, Option<V>) {
    match op
    case Get(k, cleanAt, now) => ListFetched(Filter(LiveItem(cleanAt), l), k)
    case Insert(k, v, now) => (ListInserted(l, capacity, k, v), None)
    case InsertTtl(k, v, ttl, cleanAt, now) =>
      (Put(Filter(LiveItem(cleanAt), l), capacity, Item(k, v, Some(Expiry(now, ttl)))), None)
    case Remove(k) => ListRemoved(l, k)
    case Clear => ([], None)
  }

  ghost function Run<K, V>(s: Store<K, V>, capacity: nat, ops: seq<Op<K, V>>, repaired: bool): seq<Outcome<Option<V>>>
    decreases |ops|
  {
    if ops == [] then []
    else
      var (t, out) := Apply(s, capacity, ops[0], repaired);
      [out] + Run(t, capacity, ops[1..], repaired)
  }

  ghost function RunList<K, V>(l: seq<Item<K, V>>, capacity: nat, ops: seq<Op<K, V>>): seq<Outcome<Option<V>>>
    decreases |ops|
  {
    if ops == [] then []
    else
      var (m, out) := ApplyList(l, capacity, ops[0]);
      [Returned(out)] + RunList(m, capacity, ops[1..])
  }

  ghost predicate Touches<K, V>(op: Op<K, V>) {
    op.Get? || op.Insert? || op.InsertTtl?
  }

  /** The access clock ticks on every call and has passed `after`. */
  ghost predicate Ticking<K, V>(ops: seq<Op<K, V>>, after: int) {
    ops == [] ||
    if Touches(ops[0]) then ops[0].now > after && Ticking(ops[1..], ops[0].now)
    else Ticking(ops[1..], after)
  }

  // ---------- The refinement relation ----------

  ghost predicate Descending<K, V>(order: seq<Entry<K, V>>) {
    forall i, j :: 0 <= i < j < |order| ==> order[i].lastAccessed > order[j].lastAccessed
  }

  lemma FilterDescending<K, V>(p: Entry<K, V> -> bool, order: seq<Entry<K, V>>)
    requires Descending(order)
    ensures Descending(Filter(p, order))
  {
    var rel := (a: Entry<K, V>, b: Entry<K, V>) => a.lastAccessed > b.lastAccessed;
    FilterPairwise(rel, p, order);
    forall i, j | 0 <= i < j < |Filter(p, order)|
      ensures Filter(p, order)[i].lastAccessed > Filter(p, order)[j].lastAccessed
    {
      assert rel(Filter(p, order)[i], Filter(p, order)[j]);
    }
  }

  /** `order` holds the entries of the vector, most recently used first. */
  ghost predicate Ordered<K, V>(s: Store<K, V>, order: seq<Entry<K, V>>) {
    && IndexOk(s)
    && multiset(order) == multiset(s.entries)
    && Descending(order)
  }

  ghost predicate NotAfter<K, V>(order: seq<Entry<K, V>>, last: int) {
    forall e :: e in order ==> e.lastAccessed <= last
  }

  ghost function ItemOf<K, V>(e: Entry<K, V>): Item<K, V> {
    Item(e.key, e.value, e.expiry)
  }

  ghost function Items<K, V>(order: seq<Entry<K, V>>): (l: seq<Item<K, V>>)
    ensures |l| == |order|
    ensures forall i :: 0 <= i < |l| ==> l[i] == ItemOf(order[i])
  {
    if order == [] then [] else [ItemOf(order[0])] + Items(order[1..])
  }

  lemma {:induction false} FilterItems<K, V>(p: Entry<K, V> -> bool, q: Item<K, V> -> bool, order: seq<Entry<K, V>>)
    requires forall e :: e in order ==> p(e) == q(ItemOf(e))
    ensures Items(Filter(p, order)) == Filter(q, Items(order))
  {
    if order != [] {
      FilterItems(p, q, order[1..]);
      assert Items(order)[1..] == Items(order[1..]);
      if p(order[0]) {
        assert ([order[0]] + Filter(p, order[1..]))[1..] == Filter(p, order[1..]);
      }
    }
  }

  lemma SameMembers<K, V>(s: Store<K, V>, order: seq<Entry<K, V>>)
    requires Ordered(s, order)
    ensures |order| == |s.entries|
    ensures forall e :: e in order <==> e in s.entries
  {
    assert |multiset(order)| == |multiset(s.entries)|;
    forall e | e in order ensures e in s.entries {
      assert e in multiset(order);
    }
    forall e | e in s.entries ensures e in order {
      assert e in multiset(s.entries);
    }
  }

  lemma OrderHasDistinctKeys<K, V>(s: Store<K, V>, order: seq<Entry<K, V>>)
    requires Ordered(s, order)
    ensures DistinctKeys(order)
  {
    SameMembers(s, order);
    forall i, j | 0 <= i < j < |order| ensures order[i].key != order[j].key {
      assert order[i] in s.entries && order[j] in s.entries;
    }
  }

  /** The lookup finds a key exactly when the list holds it, and both hold the same entry. */
  lemma {:induction false} FindInOrder<K, V>(order: seq<Entry<K, V>>, e: Entry<K, V>)
    requires DistinctKeys(order) && e in order
    ensures Find(Items(order), e.key) == Some(ItemOf(e))
  {
    assert Items(order)[1..] == Items(order[1..]);
    if order[0] != e {
      var j :| 0 <= j < |order| && order[j] == e;
      assert order[1..][j - 1] == e;
      FindInOrder(order[1..], e);
    } else {
      assert Items(order)[0] == ItemOf(e);
    }
  }

  lemma {:induction false} FindAbsent<K, V>(order: seq<Entry<K, V>>, key: K)
    requires forall e :: e in order ==> e.key != key
    ensures Find(Items(order), key) == None
  {
    if order != [] {
      assert Items(order)[1..] == Items(order[1..]);
      FindAbsent(order[1..], key);
    }
  }

  lemma LookupIsFind<K, V>(s: Store<K, V>, order: seq<Entry<K, V>>, key: K)
    requires Ordered(s, order)
    ensures key in s.lookup ==> s.lookup[key] < |s.entries|
                                && Find(Items(order), key) == Some(ItemOf(s.entries[s.lookup[key]]))
    ensures key !in s.lookup ==> Find(Items(order), key) == None
  {
    SameMembers(s, order);
    if key in s.lookup {
      OrderHasDistinctKeys(s, order);
      FindInOrder(order, s.entries[s.lookup[key]]);
    } else {
      FindAbsent(order, key);
    }
  }

  /** With distinct keys, removing by position is removing by key. */
  lemma {:induction false} RemoveIsFilter<K, V>(entries: seq<Entry<K, V>>, i: nat)
    requires DistinctKeys(entries) && i < |entries|
    ensures RemoveAt(entries, i) == Filter(NotKey(entries[i].key), entries)
  {
    if i == 0 {
      FilterAll(NotKey(entries[0].key), entries[1..]);
    } else {
      RemoveIsFilter(entries[1..], i - 1);
      assert RemoveAt(entries, i) == [entries[0]] + RemoveAt(entries[1..], i - 1);
    }
  }

  // ---------- One operation at a time ----------

  lemma CleanStep<K, V>(s: Store<K, V>, order: seq<Entry<K, V>>, now: nat)
    requires Ordered(s, order)
    ensures Ordered(Cleaned(s, now, true), Filter(Live(now), order))
    ensures Items(Filter(Live(now), order)) == Filter(LiveItem(now), Items(order))
    ensures forall x :: x in Filter(Live(now), order) ==> x in order
  {
    FilterMembers(Live(now), order);
    RepairedCleanupKeepsIndex(s, now);
    FilterPermutation(Live(now), order, s.entries);
    FilterDescending(Live(now), order);
    FilterItems(Live(now), LiveItem(now), order);
  }

  lemma DropStep<K, V>(s: Store<K, V>, order: seq<Entry<K, V>>, i: nat)
    requires Ordered(s, order) && i < |s.entries|
    ensures Ordered(Dropped(s, i), Filter(NotKey(s.entries[i].key), order))
    ensures Items(Filter(NotKey(s.entries[i].key), order)) == Filter(OtherItem(s.entries[i].key), Items(order))
    ensures forall x :: x in Filter(NotKey(s.entries[i].key), order) ==> x in order
  {
    FilterMembers(NotKey(s.entries[i].key), order);
    var k := s.entries[i].key;
    DropKeepsIndex(s, i);
    IndexGivesDistinctKeys(s);
    RemoveIsFilter(s.entries, i);
    FilterPermutation(NotKey(k), order, s.entries);
    FilterDescending(NotKey(k), order);
    FilterItems(NotKey(k), OtherItem(k), order);
  }

  lemma Front<K, V>(e: Entry<K, V>, order: seq<Entry<K, V>>)
    requires Descending(order) && forall x :: x in order ==> x.lastAccessed < e.lastAccessed
    ensures Descending([e] + order) && NotAfter([e] + order, e.lastAccessed)
    ensures Items([e] + order) == [ItemOf(e)] + Items(order)
  {
  }

  /** Overwriting an entry with the newest access time moves it to the front. */
  lemma RefreshStep<K, V>(s: Store<K, V>, order: seq<Entry<K, V>>, i: nat, e: Entry<K, V>)
    requires Ordered(s, order) && i < |s.entries| && e.key == s.entries[i].key
    requires forall x :: x in order ==> x.lastAccessed < e.lastAccessed
    ensures Ordered(s.(entries := s.entries[i := e]), [e] + Filter(NotKey(e.key), order))
    ensures Items([e] + Filter(NotKey(e.key), order)) == [ItemOf(e)] + Filter(OtherItem(e.key), Items(order))
    ensures NotAfter([e] + Filter(NotKey(e.key), order), e.lastAccessed)
  {
    DropStep(s, order, i);
    var rest := Filter(NotKey(e.key), order);
    RefreshKeepsIndex(s, i, e);
    OverwriteMultiset(s.entries, i, e);
    assert multiset([e] + rest) == multiset([e] + RemoveAt(s.entries, i));
    Front(e, rest);
  }

  lemma PushStep<K, V>(s: Store<K, V>, order: seq<Entry<K, V>>, e: Entry<K, V>)
    requires Ordered(s, order) && e.key !in s.lookup
    requires forall x :: x in order ==> x.lastAccessed < e.lastAccessed
    ensures Ordered(Pushed(s, e), [e] + order)
    ensures Items([e] + order) == [ItemOf(e)] + Items(order)
    ensures NotAfter([e] + order, e.lastAccessed)
  {
    PushKeepsIndex(s, e);
    Front(e, order);
  }

  lemma OldestIsTail<K, V>(s: Store<K, V>, order: seq<Entry<K, V>>)
    requires Ordered(s, order) && s.entries != []
    ensures order != [] && s.entries[Oldest(s.entries)] == order[|order| - 1]
  {
    SameMembers(s, order);
    var o, n := Oldest(s.entries), |order| - 1;
    assert s.entries[o] in order && order[n] in s.entries;
    var p :| 0 <= p < |order| && order[p] == s.entries[o];
    var q :| 0 <= q < |s.entries| && s.entries[q] == order[n];
    assert s.entries[o].lastAccessed <= s.entries[q].lastAccessed;
  }

  /** The minimum search finds the tail of the recency order. */
  lemma OldestIsLast<K, V>(s: Store<K, V>, order: seq<Entry<K, V>>)
    requires Ordered(s, order) && s.entries != []
    ensures order != [] && s.entries[Oldest(s.entries)] == order[|order| - 1]
    ensures Filter(NotKey(order[|order| - 1].key), order) == order[..|order| - 1]
  {
    OldestIsTail(s, order);
    OrderHasDistinctKeys(s, order);
    RemoveIsFilter(order, |order| - 1);
  }

  /** The vector `s` and its recency order stand for the list `l`; no access is later than `last`. */
  ghost predicate Simulates<K, V>(s: Store<K, V>, order: seq<Entry<K, V>>, l: seq<Item<K, V>>, capacity: nat, last: int) {
    && Ordered(s, order)
    && Items(order) == l
    && |order| <= capacity
    && NotAfter(order, last)
  }

  /** The call answers as the list does, and leaves a vector that stands for the new list. */
  ghost predicate Answered<K, V>(r: (Store<K, V>, Outcome<Option<V>>), m: (seq<Item<K, V>>, Option<V>),
                                 order: seq<Entry<K, V>>, capacity: nat, last: int) {
    r.1 == Returned(m.1) && Simulates(r.0, order, m.0, capacity, last)
  }

  lemma ItemsPrefix<K, V>(order: seq<Entry<K, V>>, n: nat)
    requires n <= |order|
    ensures Items(order[..n]) == Items(order)[..n]
  {
  }

  lemma EvictStep<K, V>(s: Store<K, V>, order: seq<Entry<K, V>>)
    requires Ordered(s, order) && s.entries != []
    ensures order != []
    ensures Ordered(Dropped(s, Oldest(s.entries)), order[..|order| - 1])
  {
    OldestIsLast(s, order);
    assert Filter(NotKey(s.entries[Oldest(s.entries)].key), order) == order[..|order| - 1];
    DropStep(s, order, Oldest(s.entries));
  }

  lemma EvictAndPushStep<K, V>(s: Store<K, V>, order: seq<Entry<K, V>>, e: Entry<K, V>)
    requires Ordered(s, order) && s.entries != [] && e.key !in s.lookup
    requires forall x :: x in order ==> x.lastAccessed < e.lastAccessed
    ensures order != []
    ensures Ordered(Pushed(Dropped(s, Oldest(s.entries)), e), [e] + order[..|order| - 1])
    ensures Items([e] + order[..|order| - 1]) == [ItemOf(e)] + Items(order)[..|order| - 1]
    ensures NotAfter([e] + order[..|order| - 1], e.lastAccessed)
  {
    EvictStep(s, order);
    var kept := order[..|order| - 1];
    ItemsPrefix(order, |order| - 1);
    forall x | x in kept ensures x.lastAccessed < e.lastAccessed {
      assert x in order;
    }
    PushStep(Dropped(s, Oldest(s.entries)), kept, e);
  }

  lemma AddStep<K, V>(s: Store<K, V>, order: seq<Entry<K, V>>, capacity: nat, e: Entry<K, V>)
    returns (order': seq<Entry<K, V>>)
    requires Ordered(s, order) && |order| <= capacity && capacity >= 1 && e.key !in s.lookup
    requires forall x :: x in order ==> x.lastAccessed < e.lastAccessed
    ensures Added(s, capacity, e).1 == Returned(())
    ensures Simulates(Added(s, capacity, e).0, order', Put(Items(order), capacity, ItemOf(e)), capacity, e.lastAccessed)
  {
    SameMembers(s, order);
    LookupIsFind(s, order, e.key);
    if |s.entries| < capacity {
      PushStep(s, order, e);
      order' := [e] + order;
    } else {
      EvictAndPushStep(s, order, e);
      order' := [e] + order[..|order| - 1];
    }
  }

  /** An update or an insertion is one `Put` on the list. */
  lemma PutStep<K, V>(s: Store<K, V>, order: seq<Entry<K, V>>, capacity: nat, e: Entry<K, V>)
    returns (order': seq<Entry<K, V>>)
    requires Ordered(s, order) && |order| <= capacity && capacity >= 1
    requires forall x :: x in order ==> x.lastAccessed < e.lastAccessed
    ensures e.key !in s.lookup ==>
              && Added(s, capacity, e).1 == Returned(())
              && Simulates(Added(s, capacity, e).0, order', Put(Items(order), capacity, ItemOf(e)), capacity, e.lastAccessed)
    ensures e.key in s.lookup ==>
              && s.lookup[e.key] < |s.entries|
              && Simulates(s.(entries := s.entries[s.lookup[e.key] := e]), order',
                           Put(Items(order), capacity, ItemOf(e)), capacity, e.lastAccessed)
  {
    LookupIsFind(s, order, e.key);
    if e.key !in s.lookup {
      order' := AddStep(s, order, capacity, e);
    } else {
      var i := s.lookup[e.key];
      RefreshStep(s, order, i, e);
      order' := [e] + Filter(NotKey(e.key), order);
      SameMembers(s, order);
      SameMembers(s.(entries := s.entries[i := e]), order');
    }
  }

  lemma FetchStep<K, V>(c: Store<K, V>, order: seq<Entry<K, V>>, capacity: nat, key: K, now: nat)
    returns (order': seq<Entry<K, V>>)
    requires Ordered(c, order) && |order| <= capacity && NotAfter(order, now - 1)
    ensures Answered(Fetched(c, key, now), ListFetched(Items(order), key), order', capacity, now)
  {
    LookupIsFind(c, order, key);
    order' := order;
    if key in c.lookup {
      var i := c.lookup[key];
      var e := c.entries[i].(lastAccessed := now);
      RefreshStep(c, order, i, e);
      order' := [e] + Filter(NotKey(key), order);
      SameMembers(c, order);
      SameMembers(c.(entries := c.entries[i := e]), order');
    }
  }

  lemma GetStep<K, V>(s: Store<K, V>, order: seq<Entry<K, V>>, capacity: nat, key: K, cleanAt: nat, now: nat)
    returns (order': seq<Entry<K, V>>)
    requires Ordered(s, order) && |order| <= capacity && NotAfter(order, now - 1)
    ensures Answered(Got(s, key, cleanAt, now, true), ListFetched(Filter(LiveItem(cleanAt), Items(order)), key),
                     order', capacity, now)
  {
    CleanStep(s, order, cleanAt);
    order' := FetchStep(Cleaned(s, cleanAt, true), Filter(Live(cleanAt), order), capacity, key, now);
  }

  lemma InsertStep<K, V>(s: Store<K, V>, order: seq<Entry<K, V>>, capacity: nat, key: K, value: V, now: nat)
    returns (order': seq<Entry<K, V>>)
    requires Ordered(s, order) && |order| <= capacity && capacity >= 1 && NotAfter(order, now - 1)
    ensures Answered(Silent(Inserted(s, capacity, key, value, now)), (ListInserted(Items(order), capacity, key, value), None),
                     order', capacity, now)
  {
    LookupIsFind(s, order, key);
    var kept := if key in s.lookup then s.entries[s.lookup[key]].expiry else None;
    order' := PutStep(s, order, capacity, Entry(key, value, kept, now));
  }

  lemma UpsertStep<K, V>(c: Store<K, V>, order: seq<Entry<K, V>>, capacity: nat, key: K, value: V, expiry: nat, now: nat)
    returns (order': seq<Entry<K, V>>)
    requires Ordered(c, order) && |order| <= capacity && capacity >= 1 && NotAfter(order, now - 1)
    ensures Answered(Silent(Upserted(c, capacity, key, value, expiry, now)),
                     (Put(Items(order), capacity, Item(key, value, Some(expiry))), None), order', capacity, now)
  {
    order' := PutStep(c, order, capacity, Entry(key, value, Some(expiry), now));
  }

  lemma InsertTtlStep<K, V>(s: Store<K, V>, order: seq<Entry<K, V>>, capacity: nat, key: K, value: V, expiry: nat,
                            cleanAt: nat, now: nat) returns (order': seq<Entry<K, V>>)
    requires Ordered(s, order) && |order| <= capacity && capacity >= 1 && NotAfter(order, now - 1)
    ensures Answered(Silent(InsertedWithExpiry(s, capacity, key, value, expiry, cleanAt, now, true)),
                     (Put(Filter(LiveItem(cleanAt), Items(order)), capacity, Item(key, value, Some(expiry))), None),
                     order', capacity, now)
  {
    CleanStep(s, order, cleanAt);
    order' := UpsertStep(Cleaned(s, cleanAt, true), Filter(Live(cleanAt), order), capacity, key, value, expiry, now);
  }

  lemma RemoveStep<K, V>(s: Store<K, V>, order: seq<Entry<K, V>>, capacity: nat, key: K, last: int)
    returns (order': seq<Entry<K, V>>)
    requires Ordered(s, order) && |order| <= capacity && NotAfter(order, last)
    ensures Answered(Removed(s, key), ListRemoved(Items(order), key), order', capacity, last)
  {
    LookupIsFind(s, order, key);
    order' := order;
    if key in s.lookup {
      var i := s.lookup[key];
      DropStep(s, order, i);
      assert Removed(s, key).0 == Dropped(s, i);
      order' := Filter(NotKey(key), order);
    }
  }

  lemma ApplyStep<K, V>(s: Store<K, V>, order: seq<Entry<K, V>>, capacity: nat, op: Op<K, V>, last: int)
    returns (order': seq<Entry<K, V>>)
    requires Ordered(s, order) && |order| <= capacity && capacity >= 1 && NotAfter(order, last)
    requires Touches(op) ==> op.now > last
    ensures Answered(Apply(s, capacity, op, true), ApplyList(Items(order), capacity, op), order', capacity,
                     if Touches(op) then op.now else last)
  {
    match op
    case Get(k, cleanAt, now) =>
      order' := GetStep(s, order, capacity, k, cleanAt, now);
    case Insert(k, v, now) =>
      order' := InsertStep(s, order, capacity, k, v, now);
    case InsertTtl(k, v, ttl, cleanAt, now) =>
      order' := InsertTtlStep(s, order, capacity, k, v, Expiry(now, ttl), cleanAt, now);
    case Remove(k) =>
      order' := RemoveStep(s, order, capacity, k, last);
    case Clear =>
      order' := [];
  }

  lemma {:induction false} RunFrom<K, V>(s: Store<K, V>, order: seq<Entry<K, V>>, capacity: nat,
                                         ops: seq<Op<K, V>>, last: int)
    requires Ordered(s, order) && |order| <= capacity && capacity >= 1
    requires NotAfter(order, last) && Ticking(ops, last)
    ensures Run(s, capacity, ops, true) == RunList(Items(order), capacity, ops)
    decreases |ops|
  {
    if ops != [] {
      var order' := ApplyStep(s, order, capacity, ops[0], last);
      RunFrom(Apply(s, capacity, ops[0], true).0, order', capacity, ops[1..],
              if Touches(ops[0]) then ops[0].now else last);
    }
  }

  // ---------- The main results ----------

  /** With the repair in cleanup, every run over any TTLs returns what the timed recency list
      returns, and never panics. */
  lemma RepairedCacheIsRecencyList<K, V>(capacity: nat, ops: seq<Op<K, V>>)
    requires capacity >= 1 && Ticking(ops, -1)
    ensures Run(Store([], map[]), capacity, ops, true) == RunList([], capacity, ops)
  {
    RunFrom(Store([], map[]), [], capacity, ops, -1);
  }

  /** The store a run ends in. */
  ghost function Reached<K, V>(s: Store<K, V>, capacity: nat, ops: seq<Op<K, V>>, repaired: bool): Store<K, V>
    decreases |ops|
  {
    if ops == [] then s else Reached(Apply(s, capacity, ops[0], repaired).0, capacity, ops[1..], repaired)
  }

  ghost predicate Sound<K, V>(s: Store<K, V>, capacity: nat) {
    IndexOk(s) && |s.entries| <= capacity
  }

  lemma AddKeepsIndex<K, V>(s: Store<K, V>, capacity: nat, e: Entry<K, V>)
    requires Sound(s, capacity) && e.key !in s.lookup
    ensures Sound(Added(s, capacity, e).0, capacity)
  {
    if |s.entries| < capacity {
      PushKeepsIndex(s, e);
    } else if s.entries != [] {
      DropKeepsIndex(s, Oldest(s.entries));
      PushKeepsIndex(Dropped(s, Oldest(s.entries)), e);
    }
  }

  lemma CleanKeepsIndex<K, V>(s: Store<K, V>, capacity: nat, now: nat)
    requires Sound(s, capacity)
    ensures Sound(Cleaned(s, now, true), capacity)
  {
    RepairedCleanupKeepsIndex(s, now);
  }

  lemma FetchKeepsIndex<K, V>(c: Store<K, V>, capacity: nat, key: K, now: nat)
    requires Sound(c, capacity)
    ensures Sound(Fetched(c, key, now).0, capacity)
  {
    if key in c.lookup {
      RefreshKeepsIndex(c, c.lookup[key], c.entries[c.lookup[key]].(lastAccessed := now));
    }
  }

  lemma InsertKeepsIndex<K, V>(s: Store<K, V>, capacity: nat, key: K, value: V, now: nat)
    requires Sound(s, capacity)
    ensures Sound(Inserted(s, capacity, key, value, now).0, capacity)
  {
    if key !in s.lookup {
      AddKeepsIndex(s, capacity, Entry(key, value, None, now));
    } else {
      var i := s.lookup[key];
      RefreshKeepsIndex(s, i, s.entries[i].(value := value, lastAccessed := now));
    }
  }

  lemma UpsertKeepsIndex<K, V>(s: Store<K, V>, capacity: nat, key: K, value: V, expiry: nat, now: nat)
    requires Sound(s, capacity)
    ensures Sound(Upserted(s, capacity, key, value, expiry, now).0, capacity)
  {
    if key !in s.lookup {
      AddKeepsIndex(s, capacity, Entry(key, value, Some(expiry), now));
    } else {
      var i := s.lookup[key];
      RefreshKeepsIndex(s, i, s.entries[i].(value := value, expiry := Some(expiry), lastAccessed := now));
    }
  }

  lemma RemoveKeepsIndex<K, V>(s: Store<K, V>, capacity: nat, key: K)
    requires Sound(s, capacity)
    ensures Sound(Removed(s, key).0, capacity)
  {
    if key in s.lookup {
      DropKeepsIndex(s, s.lookup[key]);
      assert Removed(s, key).0 == Dropped(s, s.lookup[key]);
    }
  }

  /** Every operation keeps the index and the bound, even on a clock that stands still. */
  lemma ApplyKeepsIndex<K, V>(s: Store<K, V>, capacity: nat, op: Op<K, V>)
    requires Sound(s, capacity)
    ensures Sound(Apply(s, capacity, op, true).0, capacity)
  {
    match op
    case Get(k, cleanAt, now) =>
      CleanKeepsIndex(s, capacity, cleanAt);
      FetchKeepsIndex(Cleaned(s, cleanAt, true), capacity, k, now);
    case Insert(k, v, now) => InsertKeepsIndex(s, capacity, k, v, now);
    case InsertTtl(k, v, ttl, cleanAt, now) =>
      CleanKeepsIndex(s, capacity, cleanAt);
      UpsertKeepsIndex(Cleaned(s, cleanAt, true), capacity, k, v, Expiry(now, ttl), now);
    case Remove(k) => RemoveKeepsIndex(s, capacity, k);
    case Clear =>
  }

  /** Every run, on any clock, keeps the map exact (so the keys distinct) and the size within capacity:
      with the repair always, and as written as long as the cleanups find the expired entries last. */
  lemma {:induction false} EveryRunKeepsIndex<K, V>(s: Store<K, V>, capacity: nat, ops: seq<Op<K, V>>, repaired: bool)
    requires Sound(s, capacity)
    requires repaired || CleanupsSafe(s, capacity, ops)
    ensures Sound(Reached(s, capacity, ops, repaired), capacity)
    decreases |ops|
  {
    if ops != [] {
      if !repaired && (ops[0].Get? || ops[0].InsertTtl?) {
        SuffixCleanupNeedsNoRepair(s, ops[0].cleanAt);
      }
      assert Apply(s, capacity, ops[0], repaired) == Apply(s, capacity, ops[0], true);
      ApplyKeepsIndex(s, capacity, ops[0]);
      EveryRunKeepsIndex(Apply(s, capacity, ops[0], true).0, capacity, ops[1..], repaired);
    }
  }

  /** Along a run of the repository's own code, each cleanup finds the expired entries at the end. */
  ghost predicate CleanupsSafe<K, V>(s: Store<K, V>, capacity: nat, ops: seq<Op<K, V>>)
    decreases |ops|
  {
    ops != [] ==>
    && (ops[0].Get? || ops[0].InsertTtl? ==> ExpiredSuffix(s.entries, ops[0].cleanAt))
    && CleanupsSafe(Apply(s, capacity, ops[0], false).0, capacity, ops[1..])
  }

  lemma {:induction false} SafeRunFrom<K, V>(s: Store<K, V>, order: seq<Entry<K, V>>, capacity: nat,
                                             ops: seq<Op<K, V>>, last: int)
    requires Ordered(s, order) && |order| <= capacity && capacity >= 1
    requires NotAfter(order, last) && Ticking(ops, last) && CleanupsSafe(s, capacity, ops)
    ensures Run(s, capacity, ops, false) == RunList(Items(order), capacity, ops)
    decreases |ops|
  {
    if ops != [] {
      if ops[0].Get? || ops[0].InsertTtl? {
        SuffixCleanupNeedsNoRepair(s, ops[0].cleanAt);
      }
      assert Apply(s, capacity, ops[0], false) == Apply(s, capacity, ops[0], true);
      var order' := ApplyStep(s, order, capacity, ops[0], last);
      SafeRunFrom(Apply(s, capacity, ops[0], true).0, order', capacity, ops[1..],
                  if Touches(ops[0]) then ops[0].now else last);
    }
  }

  /** The repository's cache is the recency list on every run whose cleanups are safe. */
  lemma WrittenCacheIsRecencyListWhenSafe<K, V>(capacity: nat, ops: seq<Op<K, V>>)
    requires capacity >= 1 && Ticking(ops, -1) && CleanupsSafe(Store([], map[]), capacity, ops)
    ensures Run(Store([], map[]), capacity, ops, false) == RunList([], capacity, ops)
  {
    SafeRunFrom(Store([], map[]), [], capacity, ops, -1);
  }

  ghost predicate NoTtl<K, V>(ops: seq<Op<K, V>>) {
    forall op :: op in ops ==> !op.InsertTtl?
  }

  lemma NoTtlStays<K, V>(s: Store<K, V>, capacity: nat, op: Op<K, V>)
    requires !op.InsertTtl? && forall e :: e in s.entries ==> e.expiry == None
    ensures forall e :: e in Apply(s, capacity, op, false).0.entries ==> e.expiry == None
  {
    if op.Get? {
      FilterMembers(Live(op.cleanAt), s.entries);
    }
  }

  lemma {:induction false} NoTtlIsSafe<K, V>(s: Store<K, V>, capacity: nat, ops: seq<Op<K, V>>)
    requires NoTtl(ops) && forall e :: e in s.entries ==> e.expiry == None
    ensures CleanupsSafe(s, capacity, ops)
    decreases |ops|
  {
    if ops != [] {
      assert ops[0] in ops;
      NoTtlStays(s, capacity, ops[0]);
      NoTtlIsSafe(Apply(s, capacity, ops[0], false).0, capacity, ops[1..]);
    }
  }

  /** Without TTLs the repository's cache is exactly a least-recently-used list. */
  lemma WrittenCacheWithoutTtl<K, V>(capacity: nat, ops: seq<Op<K, V>>)
    requires capacity >= 1 && Ticking(ops, -1) && NoTtl(ops)
    ensures Run(Store([], map[]), capacity, ops, false) == RunList([], capacity, ops)
  {
    NoTtlIsSafe(Store([], map[]), capacity, ops);
    WrittenCacheIsRecencyListWhenSafe(capacity, ops);
  }

  // ---------- What a hit means ----------

  ghost function WrittenBy<K, V>(w: map<K, V>, op: Op<K, V>): map<K, V> {
    match op
    case Get(_, _, _) => w
    case Insert(k, v, _) => w[k := v]
    case InsertTtl(k, v, _, _, _) => w[k := v]
    case Remove(k) => w - {k}
    case Clear => map[]
  }

  /** The value last inserted under each key and not removed or cleared since. */
  ghost function Written<K, V>(w: map<K, V>, ops: seq<Op<K, V>>): map<K, V>
    decreases |ops|
  {
    if ops == [] then w else Written(WrittenBy(w, ops[0]), ops[1..])
  }

  ghost predicate Coherent<K, V>(l: seq<Item<K, V>>, w: map<K, V>) {
    forall x :: x in l ==> x.key in w && w[x.key] == x.value
  }

  lemma {:induction false} FindIsMember<K, V>(l: seq<Item<K, V>>, key: K)
    ensures match Find(l, key) case None => (forall x :: x in l ==> x.key != key) case Some(x) => x in l && x.key == key
  {
    if l != [] {
      FindIsMember(l[1..], key);
    }
  }

  lemma PutCoherent<K, V>(l: seq<Item<K, V>>, capacity: nat, x: Item<K, V>, w: map<K, V>)
    requires Coherent(l, w)
    ensures Coherent(Put(l, capacity, x), w[x.key := x.value])
  {
    FindIsMember(l, x.key);
    FilterMembers(OtherItem(x.key), l);
    forall y | y in Put(l, capacity, x) ensures y == x || (y in l && y.key != x.key) {
      if l != [] && y in l[..|l| - 1] {}
    }
  }

  lemma ApplyCoherent<K, V>(l: seq<Item<K, V>>, capacity: nat, op: Op<K, V>, w: map<K, V>)
    requires Coherent(l, w)
    ensures Coherent(ApplyList(l, capacity, op).0, WrittenBy(w, op))
  {
    match op
    case Get(k, cleanAt, now) =>
      FilterMembers(LiveItem(cleanAt), l);
      FilterMembers(OtherItem(k), Filter(LiveItem(cleanAt), l));
      FindIsMember(Filter(LiveItem(cleanAt), l), k);
    case Insert(k, v, now) =>
      var kept := match Find(l, k) case None => None case Some(x) => x.expiry;
      PutCoherent(l, capacity, Item(k, v, kept), w);
    case InsertTtl(k, v, ttl, cleanAt, now) =>
      FilterMembers(LiveItem(cleanAt), l);
      PutCoherent(Filter(LiveItem(cleanAt), l), capacity, Item(k, v, Some(Expiry(now, ttl))), w);
    case Remove(k) =>
      FindIsMember(l, k);
      FilterMembers(OtherItem(k), l);
    case Clear =>
  }

  lemma {:induction false} HitFrom<K, V>(l: seq<Item<K, V>>, capacity: nat, ops: seq<Op<K, V>>, key: K,
                                         cleanAt: nat, now: nat, w: map<K, V>)
    requires Coherent(l, w)
    ensures var outs := RunList(l, capacity, ops + [Get(key, cleanAt, now)]);
            && |outs| == |ops| + 1
            && (outs[|ops|] == Returned(None) ||
                (key in Written(w, ops) && outs[|ops|] == Returned(Some(Written(w, ops)[key]))))
    decreases |ops|
  {
    var all := ops + [Get(key, cleanAt, now)];
    if ops == [] {
      assert all[0] == Get(key, cleanAt, now);
      FilterMembers(LiveItem(cleanAt), l);
      FindIsMember(Filter(LiveItem(cleanAt), l), key);
    } else {
      assert all[0] == ops[0] && all[1..] == ops[1..] + [Get(key, cleanAt, now)];
      ApplyCoherent(l, capacity, ops[0], w);
      HitFrom(ApplyList(l, capacity, ops[0]).0, capacity, ops[1..], key, cleanAt, now, WrittenBy(w, ops[0]));
    }
  }

  /** After any run, `get` answers none or the value last written under the key. */
  lemma HitIsLastWrite<K, V>(capacity: nat, ops: seq<Op<K, V>>, key: K, cleanAt: nat, now: nat)
    requires capacity >= 1 && Ticking(ops + [Get(key, cleanAt, now)], -1)
    ensures var outs := Run(Store([], map[]), capacity, ops + [Get(key, cleanAt, now)], true);
            && |outs| == |ops| + 1
            && (outs[|ops|] == Returned(None) ||
                (key in Written(map[], ops) && outs[|ops|] == Returned(Some(Written(map[], ops)[key]))))
  {
    RepairedCacheIsRecencyList(capacity, ops + [Get(key, cleanAt, now)]);
    HitFrom([], capacity, ops, key, cleanAt, now, map[]);
  }

  lemma GetOfOne<K, V>(e: Entry<K, V>, cleanAt: nat, now: nat, repaired: bool)
    ensures Got(Store([e], map[e.key := 0]), e.key, cleanAt, now, repaired).1
            == Returned(if Expired(e, cleanAt) then None else Some(e.value))
  {
    var l := [e];
    assert l[0] == e && ExpiredKey(l, cleanAt, e.key) == Expired(e, cleanAt);
    assert l[..0] == [] && NewPosition(l, cleanAt, 0) == 0;
    assert Filter(Live(cleanAt), l) == if Expired(e, cleanAt) then [] else l;
  }

  lemma FirstInsertTtl<K, V>(capacity: nat, key: K, value: V, expiry: nat, cleanAt: nat, now: nat, repaired: bool)
    requires capacity >= 1
    ensures InsertedWithExpiry(Store([], map[]), capacity, key, value, expiry, cleanAt, now, repaired)
            == (Store([Entry(key, value, Some(expiry), now)], map[key := 0]), Returned(()))
  {
    var empty: Store<K, V> := Store([], map[]);
    var e := Entry(key, value, Some(expiry), now);
    assert Cleaned(empty, cleanAt, repaired) == empty;
    assert Pushed(empty, e) == Store([e], map[key := 0]);
  }

  /** An entry inserted with a TTL is there for a `get` that follows exactly until its time is over. */
  lemma HitUntilExpiry<K, V>(capacity: nat, key: K, value: V, ttl: nat, cleanAt: nat, now: nat, getAt: nat, readAt: nat, repaired: bool)
    requires capacity >= 1
    ensures Run(Store([], map[]), capacity, [InsertTtl(key, value, ttl, cleanAt, now), Get(key, getAt, readAt)], repaired) ==
            [Returned(None), Returned(if getAt <= now + ttl then Some(value) else None)]
  {
    var insert, get := InsertTtl(key, value, ttl, cleanAt, now), Get(key, getAt, readAt);
    var e := Entry(key, value, Some(Expiry(now, ttl)), now);
    FirstInsertTtl(capacity, key, value, Expiry(now, ttl), cleanAt, now, repaired);
    GetOfOne(e, getAt, readAt, repaired);
    assert [insert, get][1..] == [get] && [get][1..] == [];
    assert Run(Store([e], map[key := 0]), capacity, [get], repaired) == [Got(Store([e], map[key := 0]), key, getAt, readAt, repaired).1];
  }

  /** `get` hits exactly when the vector holds an unexpired entry under the key, and returns its value. */
  lemma GetHitsIffLive<K, V>(s: Store<K, V>, key: K, cleanAt: nat, now: nat)
    requires IndexOk(s)
    ensures forall v :: Got(s, key, cleanAt, now, true).1 == Returned(Some(v)) <==>
                        exists e :: e in s.entries && e.key == key && !Expired(e, cleanAt) && e.value == v
    ensures Got(s, key, cleanAt, now, true).1.Returned?
  {
    RepairedCleanupKeepsIndex(s, cleanAt);
    FilterMembers(Live(cleanAt), s.entries);
    var c := Cleaned(s, cleanAt, true);
    forall e | e in s.entries && e.key == key && !Expired(e, cleanAt)
      ensures key in c.lookup && c.entries[c.lookup[key]] == e
    {
      assert e in c.entries;
      var p :| 0 <= p < |c.entries| && c.entries[p] == e;
    }
    if key in c.lookup {
      assert c.entries[c.lookup[key]] in c.entries;
    }
  }

  ghost predicate DistinctValues<K, V>(entries: seq<Entry<K, V>>) {
    forall i, j :: 0 <= i < j < |entries| ==> entries[i].value != entries[j].value
  }

  /** A live entry behind an expired one is answered wrongly. */
  lemma DisplacedGetDiffers<K, V>(s: Store<K, V>, cleanAt: nat, now: nat, i: nat, j: nat)
    requires IndexOk(s) && DistinctValues(s.entries)
    requires i < j < |s.entries| && Expired(s.entries[i], cleanAt) && !Expired(s.entries[j], cleanAt)
    ensures var k := s.entries[j].key;
            Got(s, k, cleanAt, now, true).1 == Returned(Some(s.entries[j].value)) != Got(s, k, cleanAt, now, false).1
  {
    var e, k := s.entries, s.entries[j].key;
    var live := Filter(Live(cleanAt), e);
    GetHitsIffLive(s, k, cleanAt, now);
    assert e[j] in e;
    assert s.lookup[k] == j && !ExpiredKey(e, cleanAt, k);
    FilterPosition(Live(cleanAt), e, j);
    assert e[..j][i] == e[i];
    FilterDropsOne(Live(cleanAt), e[..j], i);
    if j < |live| {
      IndexGivesDistinctKeys(s);
      FilterDistinctKeys(Live(cleanAt), e);
      FilterMembers(Live(cleanAt), e);
      assert live[j] in e && live[|Filter(Live(cleanAt), e[..j])|] == e[j];
      var p :| 0 <= p < |e| && e[p] == live[j];
      assert p != j;
    }
  }

  /** Exactly when the code as written answers every `get` rightly: with the values all different, so
      that a wrong answer shows, if and only if the expired entries are the last ones. */
  lemma GetsAnswerRightlyIff<K, V>(s: Store<K, V>, cleanAt: nat, now: nat)
    requires IndexOk(s) && DistinctValues(s.entries)
    ensures (forall k :: Got(s, k, cleanAt, now, false).1 == Got(s, k, cleanAt, now, true).1)
            <==> ExpiredSuffix(s.entries, cleanAt)
  {
    if ExpiredSuffix(s.entries, cleanAt) {
      SuffixCleanupNeedsNoRepair(s, cleanAt);
    } else {
      var i, j :| 0 <= i < j < |s.entries| && Expired(s.entries[i], cleanAt) && !Expired(s.entries[j], cleanAt);
      DisplacedGetDiffers(s, cleanAt, now, i, j);
    }
  }

  // ---------- What goes wrong as written ----------

  /** In a vector of three whose first entry alone has expired, asking for the second yields the third. */
  lemma StaleGet<K, V>(s: Store<K, V>, cleanAt: nat, now: nat)
    requires IndexOk(s) && |s.entries| == 3
    requires Expired(s.entries[0], cleanAt) && !Expired(s.entries[1], cleanAt) && !Expired(s.entries[2], cleanAt)
    ensures Got(s, s.entries[1].key, cleanAt, now, true).1 == Returned(Some(s.entries[1].value))
    ensures Got(s, s.entries[1].key, cleanAt, now, false).1 == Returned(Some(s.entries[2].value))
    ensures Got(s, s.entries[2].key, cleanAt, now, false).1 == Panicked
  {
    var e := s.entries;
    FilterAll(Live(cleanAt), e[1..]);
    assert Cleaned(s, cleanAt, false).entries == e[1..];
    GetHitsIffLive(s, e[1].key, cleanAt, now);
    assert e[1] in e;
    assert e[1].key != e[0].key && e[2].key != e[0].key;
    assert !ExpiredKey(e, cleanAt, e[1].key) && !ExpiredKey(e, cleanAt, e[2].key);
    assert s.lookup[e[1].key] == 1 && s.lookup[e[2].key] == 2;
  }

  lemma RoomyInsert<K, V>(s: Store<K, V>, capacity: nat, key: K, value: V, ttl: nat, now: nat)
    requires IndexOk(s) && |s.entries| < capacity && key !in s.lookup
    requires forall e :: e in s.entries ==> !Expired(e, now)
    ensures Apply(s, capacity, InsertTtl(key, value, ttl, now, now), false).0
            == Pushed(s, Entry(key, value, Some(Expiry(now, ttl)), now))
    ensures IndexOk(Pushed(s, Entry(key, value, Some(Expiry(now, ttl)), now)))
  {
    FilterAll(Live(now), s.entries);
    assert Cleaned(s, now, false) == s;
    PushKeepsIndex(s, Entry(key, value, Some(Expiry(now, ttl)), now));
  }

  ghost function EntryOf<K, V>(op: Op<K, V>): Entry<K, V>
    requires op.InsertTtl?
  {
    Entry(op.key, op.value, Some(Expiry(op.now, op.ttl)), op.now)
  }

  /** Three inserts with a TTL, of different keys, each cleaning up while nothing has expired yet. */
  ghost predicate ThreeFresh<K, V>(x: Op<K, V>, y: Op<K, V>, z: Op<K, V>) {
    && x.InsertTtl? && y.InsertTtl? && z.InsertTtl?
    && x.key != y.key && y.key != z.key && x.key != z.key
    && x.cleanAt == x.now < y.cleanAt == y.now < z.cleanAt == z.now
    && z.now <= x.now + x.ttl && z.now <= y.now + y.ttl
  }

  ghost function AfterTwo<K, V>(x: Op<K, V>, y: Op<K, V>, capacity: nat): Store<K, V> {
    Apply(Apply(Store([], map[]), capacity, x, false).0, capacity, y, false).0
  }

  lemma TwoEntries<K, V>(x: Op<K, V>, y: Op<K, V>, z: Op<K, V>, capacity: nat)
    requires ThreeFresh(x, y, z) && capacity >= 3
    ensures var s := AfterTwo(x, y, capacity);
            IndexOk(s) && s.entries == [EntryOf(x), EntryOf(y)] && z.key !in s.lookup
  {
  }

  lemma ThreeEntries<K, V>(x: Op<K, V>, y: Op<K, V>, z: Op<K, V>, capacity: nat)
    requires ThreeFresh(x, y, z) && capacity >= 3
    ensures var s := Apply(AfterTwo(x, y, capacity), capacity, z, false).0;
            IndexOk(s) && s.entries == [EntryOf(x), EntryOf(y), EntryOf(z)]
  {
    TwoEntries(x, y, z, capacity);
    RoomyInsert(AfterTwo(x, y, capacity), capacity, z.key, z.value, z.ttl, z.now);
  }

  /** What the missing repair costs: when only the first of three entries has expired, `get` of the
      second key answers with the third key's value, and `get` of the third panics. */
  lemma StalePositionAnswersWrongly<K, V>(x: Op<K, V>, y: Op<K, V>, z: Op<K, V>, capacity: nat, cleanAt: nat, now: nat)
    requires ThreeFresh(x, y, z) && capacity >= 3
    requires x.now + x.ttl < cleanAt && cleanAt <= y.now + y.ttl && cleanAt <= z.now + z.ttl
    ensures var s := Apply(AfterTwo(x, y, capacity), capacity, z, false).0;
            && Got(s, y.key, cleanAt, now, true).1 == Returned(Some(y.value))
            && Got(s, y.key, cleanAt, now, false).1 == Returned(Some(z.value))
            && Got(s, z.key, cleanAt, now, false).1 == Panicked
  {
    ThreeEntries(x, y, z, capacity);
    StaleGet(Apply(AfterTwo(x, y, capacity), capacity, z, false).0, cleanAt, now);
  }

  /** The first insertion into an empty cache panics exactly when the capacity is 0. */
  lemma FirstInsertPanicsIff<K, V>(capacity: nat, key: K, value: V, ttl: nat, cleanAt: nat, now: nat, repaired: bool)
    ensures Apply(Store([], map[]), capacity, Insert(key, value, now), repaired).1 == Panicked <==> capacity == 0
    ensures Apply(Store([], map[]), capacity, InsertTtl(key, value, ttl, cleanAt, now), repaired).1 == Panicked <==> capacity == 0
  {
  }
}
