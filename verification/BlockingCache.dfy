/**
 The cache of blocking_cache.go that lets one caller at a time load a missing key. The methods under its mutex are
 proved against functions of the flight table, and the interleavings of any number of threads are runs of steps over
 that table. Channels are numbered in the order they are made.
 */
module BlockingCache {
  import opened Prelude

  /** A Get is told to load the key, or the key's flight is removed. */
  datatype Event = Granted(key: string) | Released(key: string)

  /** The flights, the channels that are closed, how many were made, every closing in order, and what happened. */
  datatype Table = Table(flights: map<string, nat>, closed: set<nat>, made: nat, closings: seq<nat>, log: seq<Event>)

  const NEW_TABLE := Table(map[], {}, 0, [], [])

  /** The channel to wait for, and whether the caller loads the key. */
  function Begin(t: Table, key: string): (Table, nat, bool) {
    if key in t.flights then (t, t.flights[key], false)
    else (t.(flights := t.flights[key := t.made], made := t.made + 1, log := t.log + [Granted(key)]), t.made, true)
  }

  function Close(t: Table, channel: nat): Table {
    t.(closed := t.closed + {channel}, closings := t.closings + [channel])
  }

  function Release(t: Table, key: string): Table {
    if key !in t.flights then t
    else Close(t.(flights := t.flights - {key}, log := t.log + [Released(key)]), t.flights[key])
  }

  /** One release after another, in the order in which the map happens to be walked. */
  function ReleaseEach(t: Table, keys: seq<string>): Table
    decreases |keys|
  {
    if keys == [] then t else ReleaseEach(Release(t, keys[0]), keys[1..])
  }

  /** The last event of the key is a grant. */
  predicate Held(log: seq<Event>, key: string) {
    log != [] &&
    var last := log[|log| - 1];
    last == Granted(key) || (last != Released(key) && Held(log[..|log| - 1], key))
  }

  /** Between two grants of a key its flight is removed. */
  predicate OneLoader(log: seq<Event>) {
    forall i, j | 0 <= i < j < |log| && log[i].Granted? && log[j] == log[i] :: ReleasedBetween(log, log[i].key, i, j)
  }

  predicate ReleasedBetween(log: seq<Event>, key: string, i: int, j: int) {
    exists k :: i < k < j && k < |log| && 0 <= k && log[k] == Released(key)
  }

  /** Every channel that is closed was closed once, and no other. */
  ghost predicate ClosedOnce(t: Table) {
    && (forall i, j :: 0 <= i < j < |t.closings| ==> t.closings[i] != t.closings[j])
    && (forall c :: c in t.closed <==> c in t.closings)
  }

  ghost predicate Sound(t: Table) {
    && ClosedOnce(t)
    && (forall c <- t.closed :: c < t.made)
    && (forall k <- t.flights :: t.flights[k] < t.made && t.flights[k] !in t.closed)
    && (forall k, l | k in t.flights && l in t.flights && k != l :: t.flights[k] != t.flights[l])
    && (forall k: string :: k in t.flights <==> Held(t.log, k))
    && OneLoader(t.log)
  }

  lemma {:induction false} NotHeld(log: seq<Event>, key: string, i: nat)
    requires !Held(log, key) && i < |log| && log[i] == Granted(key)
    ensures ReleasedBetween(log, key, i, |log|)
  {
    var last := |log| - 1;
    if log[last] == Released(key) {
    } else {
      NotHeld(log[..last], key, i);
      var k :| i < k < last && log[..last][k] == Released(key);
      assert log[k] == Released(key);
    }
  }

  lemma HeldAfter(log: seq<Event>, e: Event, key: string)
    ensures Held(log + [e], key) <==> e == Granted(key) || (e != Released(key) && Held(log, key))
  {
    assert (log + [e])[..|log|] == log;
  }

  lemma GrantLogged(log: seq<Event>, key: string)
    requires OneLoader(log) && !Held(log, key)
    ensures OneLoader(log + [Granted(key)])
  {
    var after := log + [Granted(key)];
    forall i, j | 0 <= i < j < |after| && after[i].Granted? && after[j] == after[i]
      ensures ReleasedBetween(after, after[i].key, i, j)
    {
      if j == |log| {
        NotHeld(log, key, i);
        var k :| i < k < |log| && log[k] == Released(key);
        assert after[k] == Released(key);
      } else {
        assert ReleasedBetween(log, log[i].key, i, j);
        var k :| i < k < j && log[k] == Released(log[i].key);
        assert after[k] == Released(after[i].key);
      }
    }
  }

  lemma ReleaseLogged(log: seq<Event>, key: string)
    requires OneLoader(log)
    ensures OneLoader(log + [Released(key)])
  {
    var after := log + [Released(key)];
    forall i, j | 0 <= i < j < |after| && after[i].Granted? && after[j] == after[i]
      ensures ReleasedBetween(after, after[i].key, i, j)
    {
      assert ReleasedBetween(log, log[i].key, i, j);
      var k :| i < k < j && log[k] == Released(log[i].key);
      assert after[k] == Released(after[i].key);
    }
  }

  lemma BeginSound(t: Table, key: string)
    requires Sound(t)
    ensures Sound(Begin(t, key).0)
  {
    if key !in t.flights {
      hide OneLoader, Held;
      GrantLogged(t.log, key);
      forall k: string
        ensures Held(t.log + [Granted(key)], k) <==> k == key || Held(t.log, k)
      {
        HeldAfter(t.log, Granted(key), k);
      }
    }
  }

  lemma ReleaseSound(t: Table, key: string)
    requires Sound(t)
    ensures Sound(Release(t, key))
  {
    if key in t.flights {
      hide OneLoader, Held;
      ReleaseLogged(t.log, key);
      forall k: string
        ensures Held(t.log + [Released(key)], k) <==> k != key && Held(t.log, k)
      {
        HeldAfter(t.log, Released(key), k);
      }
    }
  }

  /** A channel whose flight is removed is closed; every other flight stays. */
  lemma {:induction false} ReleaseEachSound(t: Table, keys: seq<string>)
    requires Sound(t)
    ensures var r := ReleaseEach(t, keys);
            && Sound(r) && r.made == t.made && t.closed <= r.closed
            && (forall k <- t.flights :: if k in keys then k !in r.flights && t.flights[k] in r.closed
                                         else k in r.flights && r.flights[k] == t.flights[k])
            && r.flights.Keys <= t.flights.Keys
    decreases |keys|
  {
    if keys != [] {
      ReleaseSound(t, keys[0]);
      var u := Release(t, keys[0]);
      assert u.flights == t.flights - {keys[0]} && u.made == t.made && t.closed <= u.closed;
      hide Sound;
      ReleaseEachSound(u, keys[1..]);
      var r := ReleaseEach(t, keys);
      forall k | k in t.flights
        ensures if k in keys then k !in r.flights && t.flights[k] in r.closed
                else k in r.flights && r.flights[k] == t.flights[k]
      {
        assert k in keys <==> k == keys[0] || k in keys[1..];
      }
    }
  }

  // ---- the methods under the mutex ----

  class BlockingCache {
    var flights: map<string, nat>
    var closed: set<nat>
    var made: nat
    ghost var closings: seq<nat>
    ghost var log: seq<Event>

    ghost function Current(): Table
      reads this
    {
      Table(flights, closed, made, closings, log)
    }

    constructor ()
      ensures Current() == NEW_TABLE
    {
      flights, closed, made, closings, log := map[], {}, 0, [], [];
    }

    /** Closing a channel, which must be open: closing it again would panic. */
    method CloseChannel(channel: nat)
      requires channel !in closed
      modifies this`closed, this`closings
      ensures Current() == Close(old(Current()), channel)
    {
      closed := closed + {channel};
      closings := closings + [channel];
    }

    method BeginFlight(key: string) returns (wait: nat, owner: bool)
      requires Sound(Current())
      modifies this
      ensures (Current(), wait, owner) == Begin(old(Current()), key) && Sound(Current())
    {
      BeginSound(Current(), key);
      if key in flights {
        return flights[key], false;
      }
      wait := made;
      made := made + 1;
      flights := flights[key := wait];
      log := log + [Granted(key)];
      return wait, true;
    }

    method ReleaseFlight(key: string)
      requires Sound(Current())
      modifies this
      ensures Current() == Release(old(Current()), key) && Sound(Current())
    {
      ReleaseSound(Current(), key);
      if key !in flights {
        return;
      }
      var wait := flights[key];
      flights := flights - {key};
      log := log + [Released(key)];
      CloseChannel(wait);
    }

    /** Every flight is removed and its channel closed, in whatever order the keys come. */
    method ReleaseAllFlights() returns (ghost order: seq<string>)
      requires Sound(Current())
      modifies this
      ensures Current() == ReleaseEach(old(Current()), order) && Sound(Current())
      ensures flights == map[] && forall k <- old(flights) :: old(flights)[k] in closed
    {
      hide OneLoader, Held, ReleaseEach;
      order := [];
      assert ReleaseEach(Current(), []) == Current() by { NothingReleased(Current()); }
      while |flights| > 0
        invariant Current() == ReleaseEach(old(Current()), order) && Sound(Current())
        invariant forall k <- old(flights) ::
                    if k in flights then flights[k] == old(flights)[k] else old(flights)[k] in closed
        decreases |flights|
      {
        SomeKey(flights);
        var key :| key in flights;
        OneLess(flights, key);
        var wait := flights[key];
        ReleaseSound(Current(), key);
        ReleaseEachAppend(old(Current()), order, key);
        flights := flights - {key};
        log := log + [Released(key)];
        CloseChannel(wait);
        order := order + [key];
      }
    }
  }

  lemma NothingReleased(t: Table)
    ensures ReleaseEach(t, []) == t
  {
  }

  lemma SomeKey(m: map<string, nat>)
    requires |m| > 0
    ensures exists k :: k in m
  {
    assert m.Keys != {};
    var k :| k in m.Keys;
  }

  lemma OneLess(m: map<string, nat>, k: string)
    requires k in m
    ensures |m - {k}| < |m|
  {
    assert (m - {k}).Keys == m.Keys - {k};
    assert |m| == |m.Keys| && |m - {k}| == |(m - {k}).Keys|;
  }

  lemma {:induction false} ReleaseEachAppend(t: Table, keys: seq<string>, key: string)
    ensures ReleaseEach(t, keys + [key]) == Release(ReleaseEach(t, keys), key)
    decreases |keys|
  {
    if keys == [] {
      assert [] + [key] == [key] && [key][1..] == [];
    } else {
      assert (keys + [key])[1..] == keys[1..] + [key];
      ReleaseEachAppend(Release(t, keys[0]), keys[1..], key);
    }
  }

  // ---- interleavings ----

  /** Where a thread is: in Get before the delegate is asked or after it missed, waiting, or about to release. */
  datatype Phase =
    | Idle
    | Looking(key: string)
    | Missed(key: string)
    | Waiting(key: string, channel: nat)
    | Releasing(key: string)
    | ReleasingAll

  datatype State = State(table: Table, threads: map<nat, Phase>)

  /** What a thread does next; the delegate's answers and the end of a context are free choices. */
  datatype Action =
    | StartGet(key: string)
    | DelegateAnswers
    | DelegateMisses
    | BeginFlight
    | Wake(expired: bool)
    | GiveUp
    | StartRelease(key: string)
    | ReleaseFlight
    | StartClear
    | ReleaseAll(order: seq<string>)

  function PhaseOf(s: State, thread: nat): Phase {
    if thread in s.threads then s.threads[thread] else Idle
  }

  function To(s: State, thread: nat, phase: Phase): State {
    s.(threads := s.threads[thread := phase])
  }

  /** One step of a thread, when it can take it. */
  function Step(s: State, thread: nat, a: Action): Option<State> {
    match (PhaseOf(s, thread), a)
    case (Idle, StartGet(key)) => Some(To(s, thread, Looking(key)))
    case (Looking(_), DelegateAnswers) => Some(To(s, thread, Idle))
    case (Looking(key), DelegateMisses) => Some(To(s, thread, Missed(key)))
    case (Missed(key), BeginFlight) =>
      var (table, wait, owner) := Begin(s.table, key);
      Some(To(s.(table := table), thread, if owner then Idle else Waiting(key, wait)))
    case (Waiting(key, channel), Wake(expired)) =>
      if channel in s.table.closed then Some(To(s, thread, if expired then Idle else Looking(key))) else None
    case (Waiting(_, _), GiveUp) => Some(To(s, thread, Idle))
    case (Idle, StartRelease(key)) => Some(To(s, thread, Releasing(key)))
    case (Releasing(key), ReleaseFlight) => Some(To(s.(table := Release(s.table, key)), thread, Idle))
    case (Idle, StartClear) => Some(To(s, thread, ReleasingAll))
    case (ReleasingAll, ReleaseAll(order)) =>
      if forall k <- s.table.flights :: k in order
      then Some(To(s.(table := ReleaseEach(s.table, order)), thread, Idle))
      else None
    case _ => None
  }

  const START := State(NEW_TABLE, map[])

  /** The state after a run, unless one of its steps cannot be taken. */
  function Run(s: State, steps: seq<(nat, Action)>): Option<State>
    decreases |steps|
  {
    if steps == [] then Some(s)
    else match Step(s, steps[0].0, steps[0].1) case None => None case Some(next) => Run(next, steps[1..])
  }

  /** No wake-up is lost: a waiter's channel is closed, or it is the one of the key's flight. */
  predicate WaitersServed(t: Table, threads: map<nat, Phase>) {
    forall i <- threads | threads[i].Waiting? ::
      Served(t, threads[i].key, threads[i].channel)
  }

  predicate Served(t: Table, key: string, channel: nat) {
    channel in t.closed || (key in t.flights && t.flights[key] == channel)
  }

  ghost predicate Good(s: State) {
    Sound(s.table) && WaitersServed(s.table, s.threads)
  }

  /** Channels stay closed, and a flight that disappears has its channel closed. */
  predicate ServesOn(t: Table, u: Table) {
    && t.closed <= u.closed
    && forall k <- t.flights :: (k in u.flights && u.flights[k] == t.flights[k]) || t.flights[k] in u.closed
  }

  lemma ServedKept(t: Table, u: Table, threads: map<nat, Phase>, thread: nat, phase: Phase)
    requires WaitersServed(t, threads) && ServesOn(t, u)
    requires phase.Waiting? ==> Served(u, phase.key, phase.channel)
    ensures WaitersServed(u, threads[thread := phase])
  {
  }

  lemma StepGood(s: State, thread: nat, a: Action)
    requires Good(s) && Step(s, thread, a).Some?
    ensures Good(Step(s, thread, a).value)
  {
    hide Sound, WaitersServed, ReleaseEach;
    var phase, n := PhaseOf(s, thread), Step(s, thread, a).value;
    match a
    case BeginFlight =>
      BeginSound(s.table, phase.key);
      ServedKept(s.table, n.table, s.threads, thread, n.threads[thread]);
    case ReleaseFlight =>
      ReleaseSound(s.table, phase.key);
      ServedKept(s.table, n.table, s.threads, thread, n.threads[thread]);
    case ReleaseAll(order) =>
      ReleaseEachSound(s.table, order);
      ServedKept(s.table, n.table, s.threads, thread, n.threads[thread]);
    case _ => ServedKept(s.table, n.table, s.threads, thread, n.threads[thread]);
  }

  lemma {:induction false} RunGood(s: State, steps: seq<(nat, Action)>)
    requires Good(s) && Run(s, steps).Some?
    ensures Good(Run(s, steps).value)
    decreases |steps|
  {
    if steps != [] {
      hide Good, Step;
      StepGood(s, steps[0].0, steps[0].1);
      RunGood(Step(s, steps[0].0, steps[0].1).value, steps[1..]);
    }
  }

  /**
   In every interleaving: no channel is closed twice, every waiter's channel is closed or is that of its key's flight,
   and between two grants of a key its flight is removed.
   */
  lemma EveryInterleaving(steps: seq<(nat, Action)>)
    requires Run(START, steps).Some?
    ensures var s := Run(START, steps).value;
            && ClosedOnce(s.table)
            && WaitersServed(s.table, s.threads)
            && OneLoader(s.table.log)
  {
    RunGood(START, steps);
  }

  /** A thread that missed loads the key exactly when no one else does, and then there is a flight; else it waits. */
  lemma LoaderOrWaiter(s: State, thread: nat, key: string)
    requires PhaseOf(s, thread) == Missed(key)
    ensures Step(s, thread, BeginFlight).Some?
    ensures var n := Step(s, thread, BeginFlight).value;
            if key in s.table.flights then
              n.table == s.table && PhaseOf(n, thread) == Waiting(key, s.table.flights[key])
            else
              && PhaseOf(n, thread) == Idle && n.table.log == s.table.log + [Granted(key)]
              && n.table.flights == s.table.flights[key := s.table.made] && n.table.made == s.table.made + 1
              && n.table.closed == s.table.closed
  {
  }

  /** A thread whose channel is closed asks the delegate again, unless its context has ended. */
  lemma WokenAsksAgain(s: State, thread: nat, key: string, channel: nat, expired: bool)
    requires PhaseOf(s, thread) == Waiting(key, channel)
    ensures Step(s, thread, Wake(expired)).Some? <==> channel in s.table.closed
    ensures channel in s.table.closed ==>
              var n := Step(s, thread, Wake(expired)).value;
              n.table == s.table && PhaseOf(n, thread) == if expired then Idle else Looking(key)
  {
  }

  /** Removing a key's flight, alone or with all the others, wakes every thread that waits for the key. */
  lemma ReleaseWakes(steps: seq<(nat, Action)>, thread: nat, a: Action, waiter: nat)
    requires Run(START, steps).Some?
    requires var s := Run(START, steps).value;
             && Step(s, thread, a).Some? && PhaseOf(s, waiter).Waiting?
             && (a.ReleaseAll? || (a.ReleaseFlight? && PhaseOf(s, thread).key == PhaseOf(s, waiter).key))
    ensures var n := Step(Run(START, steps).value, thread, a).value;
            PhaseOf(n, waiter).Waiting? && Step(n, waiter, Wake(false)).Some?
  {
    var s := Run(START, steps).value;
    RunGood(START, steps);
    hide Sound, Run, ReleaseEach;
    if a.ReleaseAll? { ReleaseEachSound(s.table, a.order); }
    assert Served(s.table, PhaseOf(s, waiter).key, PhaseOf(s, waiter).channel);
  }
}
