/**
 The bounded LRU cache with a time to live of cache.go. Times are milliseconds read from one clock; a call is given the
 reading it sees.
 */
module MemoryCache {
  import opened Prelude

  datatype Entry<V> = Entry(key: string, value: V, createdAt: int)

  datatype Stats = Stats(hits: nat, misses: nat, puts: nat, removes: nat, clears: nat, evictions: nat, expirations: nat)

  const ZERO := Stats(0, 0, 0, 0, 0, 0, 0)

  /** Entries from the most to the least recently used. */
  datatype Cache<V> = Cache(entries: seq<Entry<V>>, stats: Stats)

  // ---- what the operations do, on the list of entries ----

  function Lookup<V>(es: seq<Entry<V>>, key: string): (r: Option<Entry<V>>)
    ensures r.Some? ==> r.value in es && r.value.key == key
    ensures r.None? ==> forall e <- es :: e.key != key
  {
    if es == [] then None else if es[0].key == key then Some(es[0]) else Lookup(es[1..], key)
  }

  function Without<V>(es: seq<Entry<V>>, key: string): (r: seq<Entry<V>>)
    ensures forall e <- r :: e in es && e.key != key
    ensures forall e <- es :: e.key != key ==> e in r
    ensures |r| <= |es|
  {
    if es == [] then [] else (if es[0].key == key then [] else [es[0]]) + Without(es[1..], key)
  }

  function Trim<V>(es: seq<Entry<V>>, n: nat): seq<Entry<V>> {
    if |es| > n then es[..n] else es
  }

  predicate Expired<V>(e: Entry<V>, ttl: nat, now: int) {
    ttl > 0 && now - e.createdAt > ttl
  }

  function AfterGet<V>(c: Cache<V>, ttl: nat, key: string, now: int): (Cache<V>, Option<V>) {
    match Lookup(c.entries, key)
    case None => (c.(stats := c.stats.(misses := c.stats.misses + 1)), None)
    case Some(e) =>
      if Expired(e, ttl, now) then
        (Cache(Without(c.entries, key), c.stats.(misses := c.stats.misses + 1, expirations := c.stats.expirations + 1)),
         None)
      else
        (Cache([e] + Without(c.entries, key), c.stats.(hits := c.stats.hits + 1)), Some(e.value))
  }

  function AfterPut<V>(c: Cache<V>, max: nat, key: string, value: V, now: int): Cache<V> {
    var all := [Entry(key, value, now)] + Without(c.entries, key);
    var stats := c.stats.(puts := c.stats.puts + 1);
    if max == 0 then Cache(c.entries, stats)
    else Cache(Trim(all, max), stats.(evictions := stats.evictions + |all| - |Trim(all, max)|))
  }

  function AfterRemove<V>(c: Cache<V>, key: string): Cache<V> {
    if Lookup(c.entries, key).None? then c
    else Cache(Without(c.entries, key), c.stats.(removes := c.stats.removes + 1))
  }

  function AfterClear<V>(c: Cache<V>): Cache<V> {
    Cache([], c.stats.(clears := c.stats.clears + 1))
  }

  predicate Distinct<V>(es: seq<Entry<V>>) {
    forall i, j :: 0 <= i < j < |es| ==> es[i].key != es[j].key
  }

  function Keys<V>(es: seq<Entry<V>>): (s: set<string>)
    ensures forall k <- s :: exists i :: 0 <= i < |es| && es[i].key == k
    ensures forall i :: 0 <= i < |es| ==> es[i].key in s
  {
    if es == [] then {} else {es[0].key} + Keys(es[1..])
  }

  lemma {:induction false} KeyCount<V>(es: seq<Entry<V>>)
    requires Distinct(es)
    ensures |Keys(es)| == |es|
  {
    if es != [] {
      KeyCount(es[1..]);
      assert es[0].key !in Keys(es[1..]);
    }
  }

  lemma WithoutFirst<V>(es: seq<Entry<V>>, key: string)
    requires es != []
    ensures Without(es, key) == if es[0].key == key then Without(es[1..], key) else [es[0]] + Without(es[1..], key)
  {
  }

  lemma DistinctFirst<V>(e: Entry<V>, es: seq<Entry<V>>)
    ensures Distinct([e] + es) <==> Distinct(es) && forall x <- es :: x.key != e.key
  {
    var all := [e] + es;
    if Distinct(all) {
      forall i, j | 0 <= i < j < |es|
        ensures es[i].key != es[j].key
      {
        assert all[i + 1] == es[i] && all[j + 1] == es[j];
      }
      forall x | x in es
        ensures x.key != e.key
      {
        var i :| 0 <= i < |es| && es[i] == x;
        assert all[0] == e && all[i + 1] == x;
      }
    }
    if Distinct(es) && forall x <- es :: x.key != e.key {
      forall i, j | 0 <= i < j < |all|
        ensures all[i].key != all[j].key
      {
        assert all[j] == es[j - 1];
        if i > 0 { assert all[i] == es[i - 1]; }
      }
    }
  }

  lemma {:induction false} WithoutAbsent<V>(es: seq<Entry<V>>, key: string)
    requires Lookup(es, key).None?
    ensures Without(es, key) == es
  {
    if es != [] {
      WithoutAbsent(es[1..], key);
      assert es == [es[0]] + es[1..];
    }
  }

  lemma {:induction false} WithoutDistinct<V>(es: seq<Entry<V>>, key: string)
    requires Distinct(es)
    ensures Distinct(Without(es, key))
    ensures |Without(es, key)| == |es| - if Lookup(es, key).Some? then 1 else 0
    ensures Lookup(es, key).None? ==> Without(es, key) == es
  {
    hide Without, Distinct, Lookup;
    if Lookup(es, key).None? {
      WithoutAbsent(es, key);
    } else {
      SomeFirst(es, key);
      var e, rest := es[0], es[1..];
      WithoutFirst(es, key);
      assert es == [e] + rest;
      DistinctFirst(e, rest);
      if e.key == key {
        AbsentRest(rest, key);
        WithoutAbsent(rest, key);
      } else {
        WithoutDistinct(rest, key);
        WithoutMembers(rest, key);
        DistinctFirst(e, Without(rest, key));
      }
    }
  }

  lemma SomeFirst<V>(es: seq<Entry<V>>, key: string)
    requires Lookup(es, key).Some?
    ensures es != [] && (es[0].key != key ==> Lookup(es, key) == Lookup(es[1..], key))
  {
  }

  lemma {:induction false} AbsentRest<V>(es: seq<Entry<V>>, key: string)
    requires forall x <- es :: x.key != key
    ensures Lookup(es, key).None?
  {
    if es != [] { AbsentRest(es[1..], key); }
  }

  lemma {:induction false} WithoutMembers<V>(es: seq<Entry<V>>, key: string)
    ensures forall x <- Without(es, key) :: x in es
  {
    if es != [] { WithoutMembers(es[1..], key); }
  }

  // ---- the map and the list of the source ----

  class Element<V> {
    var entry: Entry<V>

    constructor (entry: Entry<V>)
      ensures this.entry == entry
    {
      this.entry := entry;
    }
  }

  ghost function Entries<V>(order: seq<Element<V>>): (r: seq<Entry<V>>)
    reads order
    ensures |r| == |order| && forall i :: 0 <= i < |order| ==> r[i] == order[i].entry
  {
    if order == [] then [] else [order[0].entry] + Entries(order[1..])
  }

  /** The list without an element, as container/list removes it. */
  function Dropped<V>(order: seq<Element<V>>, e: Element<V>): (r: seq<Element<V>>)
    ensures forall x <- r :: x in order && x != e
    ensures forall x <- order :: x != e ==> x in r
  {
    if order == [] then [] else (if order[0] == e then [] else [order[0]]) + Dropped(order[1..], e)
  }

  lemma {:induction false} DroppedEntries<V>(order: seq<Element<V>>, e: Element<V>, key: string)
    requires forall x <- order :: x.entry.key == key <==> x == e
    ensures Entries(Dropped(order, e)) == Without(Entries(order), key)
  {
    if order != [] {
      DroppedEntries(order[1..], e, key);
      assert Entries(order)[1..] == Entries(order[1..]);
      if order[0] != e {
        assert ([order[0]] + Dropped(order[1..], e))[1..] == Dropped(order[1..], e);
      }
    }
  }

  lemma {:induction false} LookupElement<V>(order: seq<Element<V>>, e: Element<V>)
    requires e in order && forall x <- order :: x.entry.key == e.entry.key ==> x == e
    ensures Lookup(Entries(order), e.entry.key) == Some(e.entry)
  {
    assert Entries(order)[1..] == Entries(order[1..]);
    if order[0] != e { LookupElement(order[1..], e); }
  }

  /** No element is in the list twice. */
  predicate Once<V>(order: seq<Element<V>>) {
    forall i, j :: 0 <= i < j < |order| ==> order[i] != order[j]
  }

  /** The map leads to the elements of the list, and to all of them. */
  ghost predicate Indexed<V>(items: map<string, Element<V>>, order: seq<Element<V>>)
    reads order
  {
    && (forall k <- items :: items[k] in order && items[k].entry.key == k)
    && (forall e <- order :: e.entry.key in items && items[e.entry.key] == e)
  }

  lemma {:induction false} DroppedOnce<V>(order: seq<Element<V>>, e: Element<V>)
    requires Once(order)
    ensures Once(Dropped(order, e)) && |Dropped(order, e)| == |order| - if e in order then 1 else 0
  {
    if order != [] {
      DroppedOnce(order[1..], e);
      var r := Dropped(order[1..], e);
      assert forall i :: 0 <= i < |r| ==> r[i] in order[1..];
    }
  }

  lemma OnceFront<V>(order: seq<Element<V>>, e: Element<V>)
    requires Once(order) && e !in order
    ensures Once([e] + order)
  {
  }

  lemma OnlyElement<V>(items: map<string, Element<V>>, order: seq<Element<V>>, e: Element<V>)
    requires Indexed(items, order) && e in order
    ensures e.entry.key in items && items[e.entry.key] == e
    ensures forall x <- order :: x.entry.key == e.entry.key <==> x == e
  {
  }

  lemma DropIndexed<V>(items: map<string, Element<V>>, order: seq<Element<V>>, e: Element<V>)
    requires Indexed(items, order) && e in order
    ensures Indexed(items - {e.entry.key}, Dropped(order, e))
  {
  }

  lemma FrontIndexed<V>(items: map<string, Element<V>>, order: seq<Element<V>>, e: Element<V>)
    requires Indexed(items, order) && e in order
    ensures Indexed(items, [e] + Dropped(order, e))
  {
    var now := [e] + Dropped(order, e);
    assert now[0] == e;
    forall x | x in order
      ensures x in now
    {
      if x != e { assert x in Dropped(order, e); }
    }
  }

  lemma AddIndexed<V>(items: map<string, Element<V>>, order: seq<Element<V>>, e: Element<V>)
    requires Indexed(items, order) && e.entry.key !in items
    ensures Indexed(items[e.entry.key := e], [e] + order) && e !in order
  {
    assert ([e] + order)[0] == e;
    forall x | x in order
      ensures x in [e] + order
    {
    }
  }

  lemma {:induction false} IndexedDistinct<V>(items: map<string, Element<V>>, order: seq<Element<V>>)
    requires Indexed(items, order) && Once(order)
    ensures Distinct(Entries(order)) && Keys(Entries(order)) == items.Keys
  {
    var es := Entries(order);
    assert forall i :: 0 <= i < |es| ==> order[i] in order && es[i].key in items && items[es[i].key] == order[i];
    forall k | k in items
      ensures k in Keys(es)
    {
      var i :| 0 <= i < |order| && order[i] == items[k];
      assert es[i].key == k;
    }
  }

  lemma EntriesFront<V>(e: Element<V>, order: seq<Element<V>>)
    ensures Entries([e] + order) == [e.entry] + Entries(order)
  {
    assert ([e] + order)[1..] == order;
  }

  class MemoryCache<V> {
    const maxEntries: nat
    const ttl: nat
    var items: map<string, Element<V>>
    var order: seq<Element<V>>
    var stats: Stats

    /** The map and the list hold the same entries, each of them once, and no more than the cache may hold. */
    ghost predicate Valid()
      reads this, order
    {
      Indexed(items, order) && Once(order) && |order| <= maxEntries
    }

    ghost function Model(): Cache<V>
      reads this, order
    {
      Cache(Entries(order), stats)
    }

    constructor (maxEntries: int, ttl: int)
      ensures Valid() && Model() == Cache([], ZERO)
      ensures this.maxEntries == (if maxEntries < 0 then 0 else maxEntries) && this.ttl == (if ttl > 0 then ttl else 0)
    {
      this.maxEntries := if maxEntries < 0 then 0 else maxEntries;
      this.ttl := if ttl > 0 then ttl else 0;
      items := map[];
      order := [];
      stats := ZERO;
    }

    lemma ModelDistinct()
      requires Valid()
      ensures Distinct(Model().entries) && Keys(Model().entries) == items.Keys
              && |items| == |order| == |Model().entries|
    {
      hide Indexed, Once, Distinct, Keys;
      IndexedDistinct(items, order);
      KeyCount(Entries(order));
    }

    lemma Absent(key: string)
      requires Valid() && key !in items
      ensures Lookup(Entries(order), key).None? && Without(Entries(order), key) == Entries(order)
    {
      hide Indexed, Once, Distinct;
      ModelDistinct();
      WithoutDistinct(Entries(order), key);
      assert forall i :: 0 <= i < |Entries(order)| ==> Entries(order)[i].key in items.Keys;
    }

    lemma Present(key: string)
      requires Valid() && key in items
      ensures items[key] in order && items[key].entry.key == key
      ensures Lookup(Entries(order), key) == Some(items[key].entry)
      ensures Without(Entries(order), key) == Entries(Dropped(order, items[key]))
    {
      OnlyElement(items, order, items[key]);
      LookupElement(order, items[key]);
      DroppedEntries(order, items[key], key);
    }

    method Len() returns (n: nat)
      requires Valid()
      ensures n == |Model().entries| <= maxEntries
    {
      ModelDistinct();
      return |items|;
    }

    method RemoveElement(e: Element<V>)
      requires Valid() && e in order
      modifies this`items, this`order
      ensures Valid() && order == Dropped(old(order), e) && |order| == |old(order)| - 1
      ensures items == old(items) - {e.entry.key} && Entries(order) == old(Entries(Dropped(order, e)))
    {
      hide Indexed, Once, Entries, Dropped;
      DropIndexed(items, order, e);
      DroppedOnce(order, e);
      items := items - {e.entry.key};
      order := Dropped(order, e);
    }

    method MoveToFront(e: Element<V>)
      requires Valid() && e in order
      modifies this`order
      ensures Valid() && order == [e] + Dropped(old(order), e)
      ensures Entries(order) == [e.entry] + old(Entries(Dropped(order, e)))
    {
      hide Indexed, Once, Entries, Dropped;
      EntriesFront(e, Dropped(order, e));
      FrontIndexed(items, order, e);
      DroppedOnce(order, e);
      OnceFront(Dropped(order, e), e);
      order := [e] + Dropped(order, e);
    }

    method Get(key: string, now: int) returns (r: Option<V>)
      requires Valid()
      modifies this
      ensures Valid() && (Model(), r) == AfterGet(old(Model()), ttl, key, now)
      ensures forall e <- order :: e in old(order)
    {
      hide Indexed, Once, Entries, Dropped, Without, Lookup;
      if key !in items {
        Absent(key);
        stats := stats.(misses := stats.misses + 1);
        return None;
      }
      Present(key);
      var element := items[key];
      var entry := element.entry;
      if ttl > 0 && now - entry.createdAt > ttl {
        stats := stats.(misses := stats.misses + 1);
        RemoveElement(element);
        stats := stats.(expirations := stats.expirations + 1);
        return None;
      }
      MoveToFront(element);
      stats := stats.(hits := stats.hits + 1);
      return Some(entry.value);
    }

    /** The value of an element is replaced where it is. */
    method Refresh(element: Element<V>, value: V, now: int)
      requires Valid() && element in order
      modifies element
      ensures Valid() && element.entry == Entry(old(element.entry).key, value, now)
      ensures forall x <- order :: x != element ==> x.entry == old(x.entry)
    {
      element.entry := Entry(element.entry.key, value, now);
    }

    method PutPresent(key: string, value: V, now: int)
      requires Valid() && key in items
      modifies this`order, order
      ensures Valid() && Entries(order) == [Entry(key, value, now)] + Without(old(Entries(order)), key)
      ensures |Without(old(Entries(order)), key)| < maxEntries
      ensures forall e <- order :: e in old(order)
    {
      hide Indexed, Once, Entries, Dropped, Without, Lookup, Distinct;
      ModelDistinct();
      WithoutDistinct(Entries(order), key);
      Present(key);
      var element := items[key];
      ghost var rest := Dropped(order, element);
      Refresh(element, value, now);
      assert Entries(rest) == old(Entries(rest));
      MoveToFront(element);
    }

    method Put(key: string, value: V, now: int)
      requires Valid()
      modifies this, order
      ensures Valid() && Model() == AfterPut(old(Model()), maxEntries, key, value, now)
      ensures forall e <- order :: e in old(order) || fresh(e)
    {
      hide Indexed, Once, Entries, Without, Trim;
      stats := stats.(puts := stats.puts + 1);
      if maxEntries > 0 {
        Store(key, value, now);
      }
    }

    /** The entry, as a replacement or as a new one. */
    method Store(key: string, value: V, now: int)
      requires Valid() && maxEntries > 0
      modifies this`items, this`order, this`stats, order
      ensures Valid()
      ensures var all := [Entry(key, value, now)] + Without(old(Entries(order)), key);
              && Entries(order) == Trim(all, maxEntries)
              && stats == old(stats).(evictions := old(stats).evictions + |all| - |Trim(all, maxEntries)|)
      ensures forall e <- order :: e in old(order) || fresh(e)
    {
      hide Indexed, Once, Entries, Without, Lookup, Valid;
      if key in items {
        PutPresent(key, value, now);
      } else {
        Absent(key);
        PutAbsent(key, value, now);
      }
    }

    method PutAbsent(key: string, value: V, now: int)
      requires Valid() && key !in items
      modifies this`items, this`order, this`stats
      ensures Valid() && Entries(order) == Trim([Entry(key, value, now)] + old(Entries(order)), maxEntries)
      ensures stats == old(stats).(evictions := old(stats).evictions + old(|order|) + 1 - |order|)
      ensures forall e <- order :: e in old(order) || fresh(e)
    {
      hide Indexed, Once, Entries, Trim;
      var element := new Element(Entry(key, value, now));
      AddIndexed(items, order, element);
      OnceFront(order, element);
      EntriesFront(element, order);
      order := [element] + order;
      items := items[key := element];
      Shrink();
    }

    /** The least recently used entries leave until no more are left than the cache may hold. */
    method Shrink()
      requires Indexed(items, order) && Once(order)
      modifies this`items, this`order, this`stats
      ensures Valid() && Entries(order) == Trim(old(Entries(order)), maxEntries)
      ensures stats == old(stats).(evictions := old(stats).evictions + old(|order|) - |order|)
      ensures forall e <- order :: e in old(order)
    {
      hide Indexed, Once, Entries, Dropped;
      while |order| > maxEntries
        invariant Indexed(items, order) && Once(order) && |order| <= old(|order|)
        invariant |order| < old(|order|) ==> |order| >= maxEntries
        invariant order == old(order)[..|order|]
        invariant stats == old(stats).(evictions := old(stats).evictions + old(|order|) - |order|)
      {
        var last := order[|order| - 1];
        DropIndexed(items, order, last);
        DroppedOnce(order, last);
        DroppedLast(order);
        items := items - {last.entry.key};
        order := Dropped(order, last);
        stats := stats.(evictions := stats.evictions + 1);
      }
      EntriesTake(old(order), |order|);
    }

    method Remove(key: string)
      requires Valid()
      modifies this
      ensures Valid() && Model() == AfterRemove(old(Model()), key)
      ensures forall e <- order :: e in old(order)
    {
      hide Indexed, Once, Entries, Dropped, Without, Lookup;
      if key in items {
        Present(key);
        RemoveElement(items[key]);
        stats := stats.(removes := stats.removes + 1);
      } else {
        Absent(key);
      }
    }

    method Clear()
      requires Valid()
      modifies this
      ensures Valid() && Model() == AfterClear(old(Model())) && order == []
    {
      stats := stats.(clears := stats.clears + 1);
      items := map[];
      order := [];
    }
  }

  lemma {:induction false} DroppedLast<V>(order: seq<Element<V>>)
    requires order != [] && Once(order)
    ensures Dropped(order, order[|order| - 1]) == order[..|order| - 1]
  {
    if |order| > 1 {
      DroppedLast(order[1..]);
      assert order[1..][|order| - 2] == order[|order| - 1]
             && order[..|order| - 1] == [order[0]] + order[1..][..|order| - 2];
    }
  }

  lemma EntriesTake<V>(order: seq<Element<V>>, n: nat)
    requires n <= |order|
    ensures Entries(order[..n]) == Entries(order)[..n]
  {
  }
}
