/** Whole runs of the LRU cache: what a hit returns, what the counters add up to, and what a larger cache keeps. */
module CacheRuns {
  import opened Prelude
  import opened MemoryCache

  datatype Op<V> = Get(key: string) | Put(key: string, value: V) | Remove(key: string) | Clear

  /** An operation and the clock reading it sees. */
  datatype Timed<V> = Timed(op: Op<V>, now: int)

  function Apply<V>(c: Cache<V>, max: nat, ttl: nat, t: Timed<V>): (Cache<V>, Option<V>) {
    match t.op
    case Get(key) => AfterGet(c, ttl, key, t.now)
    case Put(key, value) => (AfterPut(c, max, key, value, t.now), None)
    case Remove(key) => (AfterRemove(c, key), None)
    case Clear => (AfterClear(c), None)
  }

  function Run<V>(c: Cache<V>, max: nat, ttl: nat, ts: seq<Timed<V>>): Cache<V>
    decreases |ts|
  {
    if ts == [] then c else Run(Apply(c, max, ttl, ts[0]).0, max, ttl, ts[1..])
  }

  /** A cache that holds no key twice and no more entries than it may. */
  predicate Bounded<V>(c: Cache<V>, max: nat) {
    Distinct(c.entries) && |c.entries| <= max
  }

  lemma BoundedStep<V>(c: Cache<V>, max: nat, ttl: nat, t: Timed<V>)
    requires Bounded(c, max)
    ensures Bounded(Apply(c, max, ttl, t).0, max)
  {
    hide Lookup, Without;
    match t.op
    case Clear =>
    case Get(key) => { WithoutDistinct(c.entries, key); FrontDistinct(c.entries, key); }
    case Remove(key) => WithoutDistinct(c.entries, key);
    case Put(key, _) => { WithoutDistinct(c.entries, key); FrontDistinct(c.entries, key); }
  }

  lemma FrontDistinct<V>(es: seq<Entry<V>>, key: string)
    requires Distinct(Without(es, key))
    ensures forall e: Entry<V> | e.key == key :: Distinct([e] + Without(es, key))
  {
    var r := Without(es, key);
    assert forall i :: 0 <= i < |r| ==> r[i] in r;
  }

  // ---- the unbounded map ----

  /** What was last put under each key since the key was removed or the cache cleared, and when. */
  function Latest<V>(m: map<string, (V, int)>, t: Timed<V>): map<string, (V, int)> {
    match t.op
    case Get(_) => m
    case Put(key, value) => m[key := (value, t.now)]
    case Remove(key) => m - {key}
    case Clear => map[]
  }

  function History<V>(m: map<string, (V, int)>, ts: seq<Timed<V>>): map<string, (V, int)>
    decreases |ts|
  {
    if ts == [] then m else History(Latest(m, ts[0]), ts[1..])
  }

  /** Every entry is what was last put under its key. */
  predicate Agrees<V(==)>(c: Cache<V>, m: map<string, (V, int)>) {
    forall e <- c.entries :: e.key in m && m[e.key] == (e.value, e.createdAt)
  }

  /** A cache that has evicted nothing lacks only what has expired. */
  predicate Complete<V(==)>(c: Cache<V>, m: map<string, (V, int)>, ttl: nat, now: int) {
    forall k <- m :: Entry(k, m[k].0, m[k].1) in c.entries || Expired(Entry(k, m[k].0, m[k].1), ttl, now)
  }

  /** The clock readings never go back. */
  predicate Monotone<V>(from: int, ts: seq<Timed<V>>)
    decreases |ts|
  {
    ts == [] || (from <= ts[0].now && Monotone(ts[0].now, ts[1..]))
  }

  function LastTime<V>(from: int, ts: seq<Timed<V>>): int {
    if ts == [] then from else ts[|ts| - 1].now
  }

  lemma LookupIs<V>(es: seq<Entry<V>>, e: Entry<V>)
    requires Distinct(es) && e in es
    ensures Lookup(es, e.key) == Some(e)
  {
  }

  lemma AgreesStep<V>(c: Cache<V>, m: map<string, (V, int)>, max: nat, ttl: nat, t: Timed<V>)
    requires Agrees(c, m) && Bounded(c, max)
    ensures Agrees(Apply(c, max, ttl, t).0, Latest(m, t))
  {
    hide Lookup, Without;
    if t.op.Put? || t.op.Remove? {
      WithoutDistinct(c.entries, t.op.key);
    }
  }

  lemma CompleteStep<V>(c: Cache<V>, m: map<string, (V, int)>, max: nat, ttl: nat, t: Timed<V>, now: int)
    requires Complete(c, m, ttl, now) && Bounded(c, max) && max > 0 && now <= t.now
    requires Apply(c, max, ttl, t).0.stats.evictions == 0
    ensures Complete(Apply(c, max, ttl, t).0, Latest(m, t), ttl, t.now)
  {
    hide Lookup, Without;
    var d, n := Apply(c, max, ttl, t).0, Latest(m, t);
    if t.op.Get? || t.op.Put? || t.op.Remove? { WithoutDistinct(c.entries, t.op.key); }
    forall k | k in n
      ensures Entry(k, n[k].0, n[k].1) in d.entries || Expired(Entry(k, n[k].0, n[k].1), ttl, t.now)
    {
      var e := Entry(k, n[k].0, n[k].1);
      if t.op.Put? && t.op.key == k {
        assert d.entries[0] == e;
      } else if e in c.entries {
        LookupIs(c.entries, e);
      }
    }
  }

  lemma {:induction false} RunAgrees<V>(c: Cache<V>, m: map<string, (V, int)>, max: nat, ttl: nat, ts: seq<Timed<V>>)
    requires Agrees(c, m) && Bounded(c, max)
    ensures Agrees(Run(c, max, ttl, ts), History(m, ts)) && Bounded(Run(c, max, ttl, ts), max)
    decreases |ts|
  {
    if ts != [] {
      hide Agrees, Bounded, Apply, Latest;
      AgreesStep(c, m, max, ttl, ts[0]);
      BoundedStep(c, max, ttl, ts[0]);
      RunAgrees(Apply(c, max, ttl, ts[0]).0, Latest(m, ts[0]), max, ttl, ts[1..]);
    }
  }

  lemma {:induction false} EvictionsGrow<V>(c: Cache<V>, max: nat, ttl: nat, ts: seq<Timed<V>>)
    ensures c.stats.evictions <= Run(c, max, ttl, ts).stats.evictions
    decreases |ts|
  {
    if ts != [] {
      EvictionsGrow(Apply(c, max, ttl, ts[0]).0, max, ttl, ts[1..]);
    }
  }

  lemma {:induction false} RunComplete<V>(c: Cache<V>, m: map<string, (V, int)>, max: nat, ttl: nat, ts: seq<Timed<V>>,
                                          now: int)
    requires Complete(c, m, ttl, now) && Bounded(c, max) && max > 0 && Monotone(now, ts)
    requires Run(c, max, ttl, ts).stats.evictions == 0
    ensures Complete(Run(c, max, ttl, ts), History(m, ts), ttl, LastTime(now, ts))
    decreases |ts|
  {
    if ts != [] {
      hide Complete, Bounded, Apply, Latest;
      var d := Apply(c, max, ttl, ts[0]).0;
      EvictionsGrow(d, max, ttl, ts[1..]);
      CompleteStep(c, m, max, ttl, ts[0], now);
      BoundedStep(c, max, ttl, ts[0]);
      RunComplete(d, Latest(m, ts[0]), max, ttl, ts[1..], ts[0].now);
    }
  }

  function Empty<V>(): Cache<V> {
    Cache([], ZERO)
  }

  /** After any run a hit returns what was last put under the key and never removed, no older than the time to live. */
  lemma HitsAreLatest<V>(max: nat, ttl: nat, ts: seq<Timed<V>>, key: string, now: int)
    ensures var c, m := Run(Empty<V>(), max, ttl, ts), History(map[], ts);
            && Distinct(c.entries) && |c.entries| <= max
            && var r := AfterGet(c, ttl, key, now).1;
               r.Some? ==> key in m && r.value == m[key].0 && (ttl > 0 ==> now - m[key].1 <= ttl)
  {
    RunAgrees(Empty<V>(), map[], max, ttl, ts);
  }

  /** A cache that evicts nothing answers as an unbounded map of the unexpired values. */
  lemma UnevictedIsMap<V>(max: nat, ttl: nat, ts: seq<Timed<V>>, from: int, key: string, now: int)
    requires max > 0 && Monotone(from, ts) && LastTime(from, ts) <= now
    requires Run(Empty<V>(), max, ttl, ts).stats.evictions == 0
    ensures var m := History(map[], ts);
            AfterGet(Run(Empty<V>(), max, ttl, ts), ttl, key, now).1
            == if key in m && (ttl > 0 ==> now - m[key].1 <= ttl) then Some(m[key].0) else None
  {
    var c, m := Run(Empty<V>(), max, ttl, ts), History(map[], ts);
    RunAgrees(Empty<V>(), map[], max, ttl, ts);
    RunComplete(Empty<V>(), map[], max, ttl, ts, from);
    if key in m && Entry(key, m[key].0, m[key].1) in c.entries {
      LookupIs(c.entries, Entry(key, m[key].0, m[key].1));
    }
  }

  // ---- the counters ----

  function Gets<V>(ts: seq<Timed<V>>): nat {
    if ts == [] then 0 else (if ts[0].op.Get? then 1 else 0) + Gets(ts[1..])
  }

  function Puts<V>(ts: seq<Timed<V>>): nat {
    if ts == [] then 0 else (if ts[0].op.Put? then 1 else 0) + Puts(ts[1..])
  }

  function Clears<V>(ts: seq<Timed<V>>): nat {
    if ts == [] then 0 else (if ts[0].op.Clear? then 1 else 0) + Clears(ts[1..])
  }

  /** How many puts make a new entry. */
  function Inserted<V>(c: Cache<V>, max: nat, ttl: nat, ts: seq<Timed<V>>): nat
    decreases |ts|
  {
    if ts == [] then 0
    else (if ts[0].op.Put? && max > 0 && Lookup(c.entries, ts[0].op.key).None? then 1 else 0)
         + Inserted(Apply(c, max, ttl, ts[0]).0, max, ttl, ts[1..])
  }

  /** How many entries are dropped by clearing. */
  function Cleared<V>(c: Cache<V>, max: nat, ttl: nat, ts: seq<Timed<V>>): nat
    decreases |ts|
  {
    if ts == [] then 0
    else (if ts[0].op.Clear? then |c.entries| else 0) + Cleared(Apply(c, max, ttl, ts[0]).0, max, ttl, ts[1..])
  }

  /** The entries that have left in one of the counted ways, and those still there. */
  function Accounted<V>(c: Cache<V>): int {
    |c.entries| + c.stats.removes + c.stats.evictions + c.stats.expirations
  }

  lemma CountStep<V>(c: Cache<V>, max: nat, ttl: nat, t: Timed<V>)
    requires Bounded(c, max)
    ensures var d := Apply(c, max, ttl, t).0;
            && d.stats.hits + d.stats.misses == c.stats.hits + c.stats.misses + (if t.op.Get? then 1 else 0)
            && Accounted(d) + (if t.op.Clear? then |c.entries| else 0)
               == Accounted(c) + (if t.op.Put? && max > 0 && Lookup(c.entries, t.op.key).None? then 1 else 0)
  {
    hide Lookup, Without;
    if !t.op.Clear? { WithoutDistinct(c.entries, t.op.key); }
  }

  lemma {:induction false} RunCounts<V>(c: Cache<V>, max: nat, ttl: nat, ts: seq<Timed<V>>)
    requires Bounded(c, max)
    ensures var d := Run(c, max, ttl, ts);
            && d.stats.hits + d.stats.misses == c.stats.hits + c.stats.misses + Gets(ts)
            && d.stats.puts == c.stats.puts + Puts(ts) && d.stats.clears == c.stats.clears + Clears(ts)
            && Accounted(d) + Cleared(c, max, ttl, ts) == Accounted(c) + Inserted(c, max, ttl, ts)
    decreases |ts|
  {
    if ts != [] {
      hide Bounded, Apply, Accounted;
      CountStep(c, max, ttl, ts[0]);
      BoundedStep(c, max, ttl, ts[0]);
      RunCounts(Apply(c, max, ttl, ts[0]).0, max, ttl, ts[1..]);
    }
  }

  /**
   Hits and misses add up to the reads, puts and clears are counted; new entries add up to those left, removed, evicted,
   expired and cleared.
   */
  lemma CountersAddUp<V>(max: nat, ttl: nat, ts: seq<Timed<V>>)
    ensures var c := Run(Empty<V>(), max, ttl, ts);
            && c.stats.hits + c.stats.misses == Gets(ts)
            && c.stats.puts == Puts(ts) && c.stats.clears == Clears(ts)
            && Inserted(Empty<V>(), max, ttl, ts)
               == |c.entries| + c.stats.removes + c.stats.evictions + c.stats.expirations
                  + Cleared(Empty<V>(), max, ttl, ts)
  {
    RunCounts(Empty<V>(), max, ttl, ts);
  }

  // ---- a larger cache ----

  /** The first sequence is the second one with entries left out. */
  predicate Sub<V(==)>(s: seq<Entry<V>>, l: seq<Entry<V>>) {
    s == [] || (l != [] && if s[0] == l[0] then Sub(s[1..], l[1..]) else Sub(s, l[1..]))
  }

  lemma {:induction false} SubTail<V>(s: seq<Entry<V>>, l: seq<Entry<V>>)
    requires Sub(s, l) && s != []
    ensures Sub(s[1..], l)
    decreases |l|, 0
  {
    if s[0] == l[0] { SubMore(s[1..], l[0], l[1..]); } else { SubTail(s, l[1..]); SubMore(s[1..], l[0], l[1..]); }
    assert [l[0]] + l[1..] == l;
  }

  lemma {:induction false} SubMore<V>(s: seq<Entry<V>>, x: Entry<V>, l: seq<Entry<V>>)
    requires Sub(s, l)
    ensures Sub(s, [x] + l)
    decreases |l|, 1
  {
    assert ([x] + l)[1..] == l;
    if s != [] && s[0] == x { SubTail(s, l); }
  }

  lemma {:induction false} SubWithout<V>(s: seq<Entry<V>>, l: seq<Entry<V>>, key: string)
    requires Sub(s, l)
    ensures Sub(Without(s, key), Without(l, key))
  {
    if s != [] {
      WithoutFirst(l, key);
      if s[0] == l[0] {
        SubWithout(s[1..], l[1..], key);
        WithoutFirst(s, key);
        hide Without, Sub;
        SubFront(Without(s[1..], key), Without(l[1..], key), l[0]);
      } else {
        SubWithout(s, l[1..], key);
        hide Without, Sub;
        SubMore(Without(s, key), l[0], Without(l[1..], key));
      }
    }
  }

  lemma {:induction false} SubSize<V>(s: seq<Entry<V>>, l: seq<Entry<V>>)
    requires Sub(s, l)
    ensures |s| <= |l| && forall e <- s :: e in l
  {
    if s != [] {
      if s[0] == l[0] { SubSize(s[1..], l[1..]); } else { SubSize(s, l[1..]); }
      forall e | e in s
        ensures e in l
      {
        assert e == s[0] || e in s[1..];
      }
    }
  }

  /** At least as many entries are cut from the shorter one. */
  lemma {:induction false} SubTake<V>(s: seq<Entry<V>>, l: seq<Entry<V>>, i: nat, j: nat)
    requires Sub(s, l) && i <= |s| && j <= |l| && |s| - i >= |l| - j
    ensures Sub(s[..i], l[..j])
  {
    SubSize(s, l);
    if i > 0 {
      if s[0] == l[0] {
        SubTake(s[1..], l[1..], i - 1, j - 1);
        assert s[..i][1..] == s[1..][..i - 1] && l[..j][1..] == l[1..][..j - 1];
      } else {
        SubTake(s, l[1..], i, j - 1);
        assert l[..j][1..] == l[1..][..j - 1];
      }
    }
  }

  /** The smaller cache holds some of the entries of the larger one, in the same order, and misses few of them. */
  predicate Included<V(==)>(small: Cache<V>, large: Cache<V>, m: nat, n: nat) {
    Sub(small.entries, large.entries) && |large.entries| - |small.entries| <= n - m
  }

  lemma IncludedLookup<V>(small: Cache<V>, large: Cache<V>, key: string)
    requires Sub(small.entries, large.entries) && Distinct(large.entries)
    ensures Lookup(small.entries, key).Some? ==> Lookup(large.entries, key) == Lookup(small.entries, key)
  {
    SubSize(small.entries, large.entries);
    if Lookup(small.entries, key).Some? { LookupIs(large.entries, Lookup(small.entries, key).value); }
  }

  lemma SubFront<V>(s: seq<Entry<V>>, l: seq<Entry<V>>, e: Entry<V>)
    requires Sub(s, l)
    ensures Sub([e] + s, [e] + l)
  {
    assert ([e] + s)[1..] == s && ([e] + l)[1..] == l;
  }

  lemma IncludedPut<V>(s: seq<Entry<V>>, l: seq<Entry<V>>, m: nat, n: nat)
    requires Sub(s, l) && |l| - |s| <= n - m && 0 < m <= n
    ensures Sub(Trim(s, m), Trim(l, n)) && |Trim(l, n)| - |Trim(s, m)| <= n - m
  {
    SubSize(s, l);
    var i, j := if |s| > m then m else |s|, if |l| > n then n else |l|;
    SubTake(s, l, i, j);
    assert Trim(s, m) == s[..i] && Trim(l, n) == l[..j];
  }

  /** One operation keeps the inclusion, and hits the larger cache whenever it hits the smaller one. */
  lemma IncludedStep<V>(small: Cache<V>, large: Cache<V>, m: nat, n: nat, ttl: nat, t: Timed<V>)
    requires m <= n && Bounded(small, m) && Bounded(large, n) && Included(small, large, m, n)
    ensures Included(Apply(small, m, ttl, t).0, Apply(large, n, ttl, t).0, m, n)
    ensures Apply(small, m, ttl, t).1.Some? ==> Apply(large, n, ttl, t).1 == Apply(small, m, ttl, t).1
  {
    hide Lookup, Without, Sub, Trim;
    BoundedStep(large, n, ttl, t);
    if t.op.Clear? {
      EmptySub<V>();
    } else {
      var key, s, l := t.op.key, small.entries, large.entries;
      WithoutDistinct(s, key);
      WithoutDistinct(l, key);
      IncludedLookup(small, large, key);
      SubWithout(s, l, key);
      var s', l' := Without(s, key), Without(l, key);
      match t.op
      case Remove(_) =>
      case Get(_) => {
        if Lookup(l, key).Some? {
          SubFront(s', l', Lookup(l, key).value);
          SubMore(s', Lookup(l, key).value, l');
        }
      }
      case Put(_, value) => {
        var e := Entry(key, value, t.now);
        SubFront(s', l', e);
        if m > 0 { IncludedPut([e] + s', [e] + l', m, n); } else { NothingSub(s, Apply(large, n, ttl, t).0.entries); }
      }
    }
  }

  lemma EmptySub<V>()
    ensures Sub<V>([], [])
  {
  }

  lemma NothingSub<V>(s: seq<Entry<V>>, l: seq<Entry<V>>)
    requires s == []
    ensures Sub(s, l)
  {
  }

  /** How many of a run's reads find their entry. */
  function Hits<V>(c: Cache<V>, max: nat, ttl: nat, ts: seq<Timed<V>>): nat
    decreases |ts|
  {
    if ts == [] then 0
    else (if Apply(c, max, ttl, ts[0]).1.Some? then 1 else 0) + Hits(Apply(c, max, ttl, ts[0]).0, max, ttl, ts[1..])
  }

  lemma {:induction false} IncludedRun<V>(small: Cache<V>, large: Cache<V>, m: nat, n: nat, ttl: nat, ts: seq<Timed<V>>)
    requires m <= n && Bounded(small, m) && Bounded(large, n) && Included(small, large, m, n)
    ensures Included(Run(small, m, ttl, ts), Run(large, n, ttl, ts), m, n)
    ensures Hits(small, m, ttl, ts) <= Hits(large, n, ttl, ts)
    decreases |ts|
  {
    if ts != [] {
      hide Included, Bounded, Apply;
      IncludedStep(small, large, m, n, ttl, ts[0]);
      BoundedStep(small, m, ttl, ts[0]);
      BoundedStep(large, n, ttl, ts[0]);
      IncludedRun(Apply(small, m, ttl, ts[0]).0, Apply(large, n, ttl, ts[0]).0, m, n, ttl, ts[1..]);
    }
  }

  /**
   After the same timed operations a larger cache holds every entry of a smaller one, with the same value and the same
   time of creation, and has had at least as many hits.
   */
  lemma LargerCacheKeepsMore<V>(m: nat, n: nat, ttl: nat, ts: seq<Timed<V>>)
    requires m <= n
    ensures forall e <- Run(Empty<V>(), m, ttl, ts).entries :: e in Run(Empty<V>(), n, ttl, ts).entries
    ensures Hits(Empty<V>(), m, ttl, ts) <= Hits(Empty<V>(), n, ttl, ts)
  {
    IncludedRun(Empty<V>(), Empty<V>(), m, n, ttl, ts);
    SubSize(Run(Empty<V>(), m, ttl, ts).entries, Run(Empty<V>(), n, ttl, ts).entries);
  }
}
