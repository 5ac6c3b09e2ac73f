/** Which entries the LRU cache keeps: the recently used ones. */
module CacheRecency {
  import opened Prelude
  import opened MemoryCache
  import opened CacheRuns

  /** The keys in front of a key. */
  function Ahead<V>(es: seq<Entry<V>>, key: string): (s: set<string>)
    ensures key !in s
  {
    if es == [] || es[0].key == key then {} else {es[0].key} + Ahead(es[1..], key)
  }

  /** The keys that are read or put. */
  function Uses<V>(ts: seq<Timed<V>>): set<string>
    decreases |ts|
  {
    if ts == [] then {}
    else (if ts[0].op.Get? || ts[0].op.Put? then {ts[0].op.key} else {}) + Uses(ts[1..])
  }

  /** The key is not removed, and all clock readings are within a time to live. */
  predicate Undisturbed<V>(ts: seq<Timed<V>>, key: string, from: int, ttl: nat) {
    forall i :: 0 <= i < |ts| ==>
      && !ts[i].op.Clear? && (ts[i].op.Remove? ==> ts[i].op.key != key)
      && (ttl > 0 ==> from <= ts[i].now <= from + ttl)
  }

  /** The key is held since a time or later, and only some keys are in front of it. */
  predicate Held<V>(c: Cache<V>, key: string, used: set<string>, from: int, ttl: nat) {
    && Lookup(c.entries, key).Some? && Ahead(c.entries, key) <= used
    && (ttl > 0 ==> Lookup(c.entries, key).value.createdAt >= from)
  }

  lemma AheadFirst<V>(e: Entry<V>, es: seq<Entry<V>>, key: string)
    ensures Ahead([e] + es, key) == if e.key == key then {} else {e.key} + Ahead(es, key)
    ensures Lookup([e] + es, key) == if e.key == key then Some(e) else Lookup(es, key)
  {
    assert ([e] + es)[1..] == es;
  }

  lemma {:induction false} AheadWithout<V>(es: seq<Entry<V>>, other: string, key: string)
    requires other != key
    ensures Ahead(Without(es, other), key) <= Ahead(es, key) && Lookup(Without(es, other), key) == Lookup(es, key)
  {
    hide Without, Ahead, Lookup;
    if es == [] {
      NothingWithout<V>(other);
    } else {
      var e, rest := es[0], es[1..];
      assert es == [e] + rest;
      WithoutFirst(es, other);
      AheadFirst(e, rest, key);
      AheadFirst(e, Without(rest, other), key);
      AheadWithout(rest, other, key);
    }
  }

  lemma NothingWithout<V>(key: string)
    ensures Without<V>([], key) == []
  {
  }

  lemma AheadCount<V>(e: Entry<V>, rest: seq<Entry<V>>, key: string)
    requires Distinct([e] + rest) && e.key != key
    ensures |Ahead([e] + rest, key)| == 1 + |Ahead(rest, key)|
  {
    hide Ahead, Distinct;
    AheadFirst(e, rest, key);
    DistinctFirst(e, rest);
    AheadIn(rest, key);
    assert e.key !in Keys(rest);
  }

  /** A key with fewer keys in front of it than the capacity is not cut off. */
  lemma {:induction false} AheadTrim<V>(es: seq<Entry<V>>, n: nat, key: string)
    requires Distinct(es) && Lookup(es, key).Some? && |Ahead(es, key)| < n
    ensures Lookup(Trim(es, n), key) == Lookup(es, key) && Ahead(Trim(es, n), key) == Ahead(es, key)
    decreases |es|
  {
    hide Lookup, Ahead, Distinct;
    if |es| > n {
      LookupNothing<V>(key);
      var e, rest := es[0], es[1..];
      assert es == [e] + rest && es[..n] == [e] + rest[..n - 1];
      AheadFirst(e, rest, key);
      AheadFirst(e, rest[..n - 1], key);
      if e.key != key {
        DistinctFirst(e, rest);
        AheadCount(e, rest, key);
        AheadTrim(rest, n - 1, key);
      }
    }
  }

  lemma LookupNothing<V>(key: string)
    ensures Lookup<V>([], key).None?
  {
  }

  lemma {:induction false} AheadIn<V>(es: seq<Entry<V>>, key: string)
    ensures Ahead(es, key) <= Keys(es)
  {
    if es != [] && es[0].key != key { AheadIn(es[1..], key); }
  }

  /** One use of another key puts at most that key in front. */
  lemma HeldStep<V>(c: Cache<V>, max: nat, ttl: nat, t: Timed<V>, key: string, used: set<string>, from: int)
    requires Bounded(c, max) && Held(c, key, used, from, ttl) && Undisturbed([t], key, from, ttl)
    requires var more := used + (Uses([t]) - {key}); |more| < max
    ensures Held(Apply(c, max, ttl, t).0, key, used + (Uses([t]) - {key}), from, ttl)
  {
    match t.op
    case Remove(other) => HeldRemove(c, max, ttl, t, key, used, from);
    case Get(other) => HeldGet(c, max, ttl, t, key, used, from);
    case Put(other, value) => HeldPut(c, max, ttl, t, key, used, from);
  }

  lemma HeldRemove<V>(c: Cache<V>, max: nat, ttl: nat, t: Timed<V>, key: string, used: set<string>, from: int)
    requires Bounded(c, max) && Held(c, key, used, from, ttl) && Undisturbed([t], key, from, ttl) && t.op.Remove?
    ensures Held(Apply(c, max, ttl, t).0, key, used + (Uses([t]) - {key}), from, ttl)
  {
    hide Lookup, Without, Ahead, Distinct, Trim;
    assert [t][0] == t && [t][1..] == [];
    AheadWithout(c.entries, t.op.key, key);
  }

  lemma HeldGet<V>(c: Cache<V>, max: nat, ttl: nat, t: Timed<V>, key: string, used: set<string>, from: int)
    requires Bounded(c, max) && Held(c, key, used, from, ttl) && Undisturbed([t], key, from, ttl) && t.op.Get?
    ensures Held(Apply(c, max, ttl, t).0, key, used + (Uses([t]) - {key}), from, ttl)
  {
    hide Lookup, Without, Ahead, Distinct, Trim;
    assert [t][0] == t && [t][1..] == [];
    var es, other := c.entries, t.op.key;
    if other != key { AheadWithout(es, other, key); }
    if Lookup(es, other).Some? { AheadFirst(Lookup(es, other).value, Without(es, other), key); }
  }

  lemma HeldPut<V>(c: Cache<V>, max: nat, ttl: nat, t: Timed<V>, key: string, used: set<string>, from: int)
    requires Bounded(c, max) && Held(c, key, used, from, ttl) && Undisturbed([t], key, from, ttl) && t.op.Put?
    requires var more := used + (Uses([t]) - {key}); |more| < max
    ensures Held(Apply(c, max, ttl, t).0, key, used + (Uses([t]) - {key}), from, ttl)
  {
    hide Lookup, Without, Ahead, Distinct, Trim;
    assert [t][0] == t && [t][1..] == [];
    var es, other, value := c.entries, t.op.key, t.op.value;
    var e := Entry(other, value, t.now);
    if other != key { AheadWithout(es, other, key); }
    AheadFirst(e, Without(es, other), key);
    WithoutDistinct(es, other);
    DistinctFirst(e, Without(es, other));
    var all := [e] + Without(es, other);
    Fewer(Ahead(all, key), used + (Uses([t]) - {key}));
    AheadTrim(all, max, key);
  }

  lemma Fewer(a: set<string>, b: set<string>)
    requires a <= b
    ensures |a| <= |b|
  {
    if a != b { assert b == a + (b - a); }
  }

  lemma {:induction false} HeldRun<V>(c: Cache<V>, max: nat, ttl: nat, ts: seq<Timed<V>>, key: string,
                                      used: set<string>, from: int)
    requires Bounded(c, max) && Held(c, key, used, from, ttl) && Undisturbed(ts, key, from, ttl)
    requires |used + (Uses(ts) - {key})| < max
    ensures Held(Run(c, max, ttl, ts), key, used + (Uses(ts) - {key}), from, ttl)
    decreases |ts|
  {
    hide Held, Apply, Bounded, Undisturbed;
    if ts == [] {
      assert used + ({} - {key}) == used;
    } else {
      var t, rest := ts[0], ts[1..];
      var more := used + (Uses([t]) - {key});
      UsesFirst(ts, used, key);
      UndisturbedFirst(ts, key, from, ttl);
      Fewer(more, used + (Uses(ts) - {key}));
      HeldStep(c, max, ttl, t, key, used, from);
      BoundedStep(c, max, ttl, t);
      HeldRun(Apply(c, max, ttl, t).0, max, ttl, rest, key, more, from);
    }
  }

  lemma UsesFirst<V>(ts: seq<Timed<V>>, used: set<string>, key: string)
    requires ts != []
    ensures used + (Uses([ts[0]]) - {key}) + (Uses(ts[1..]) - {key}) == used + (Uses(ts) - {key})
  {
    assert [ts[0]][1..] == [];
  }

  lemma UndisturbedFirst<V>(ts: seq<Timed<V>>, key: string, from: int, ttl: nat)
    requires ts != [] && Undisturbed(ts, key, from, ttl)
    ensures Undisturbed([ts[0]], key, from, ttl) && Undisturbed(ts[1..], key, from, ttl)
  {
  }

  /**
   Least recently used goes first: from any cache, a key that is put is still read after any run that does not remove
   it, as long as fewer other keys than the capacity are used meanwhile and no more time passes than the time to live.
   */
  lemma RecentStays<V>(c: Cache<V>, max: nat, ttl: nat, key: string, value: V, from: int, ts: seq<Timed<V>>, now: int)
    requires Bounded(c, max) && Undisturbed(ts, key, from, ttl) && (ttl > 0 ==> from <= now <= from + ttl)
    requires |Uses(ts) - {key}| < max
    ensures AfterGet(Run(AfterPut(c, max, key, value, from), max, ttl, ts), ttl, key, now).1.Some?
  {
    hide Lookup, Without, Ahead, Distinct, Undisturbed;
    var d := AfterPut(c, max, key, value, from);
    var e := Entry(key, value, from);
    AheadFirst(e, Without(c.entries, key), key);
    WithoutDistinct(c.entries, key);
    DistinctFirst(e, Without(c.entries, key));
    AheadTrim([e] + Without(c.entries, key), max, key);
    BoundedStep(c, max, ttl, Timed(Op.Put(key, value), from));
    assert {} + (Uses(ts) - {key}) == Uses(ts) - {key};
    HeldRun(d, max, ttl, ts, key, {}, from);
  }
}
