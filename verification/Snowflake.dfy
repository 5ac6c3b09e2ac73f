/**
 The Snowflake identifiers of identifier_generator.go. A call is given the clock readings it will see; when it asks for
 more of them the context is done. 64-bit signed arithmetic is written out.
 */
module Snowflake {
  import opened Prelude

  const EPOCH_MILLIS := 1704067200000
  const NODES := 0x400
  const SEQUENCES := 0x1000
  const SPAN := 0x200_0000_0000

  datatype Failure = ContextDone

  /** The clock readings of one call: the first one, and those of the wait until the context is done. */
  datatype Call = Call(first: int, more: seq<int>)

  // ---- 64-bit words ----

  /** The signed 64-bit value of an integer. */
  function Wrap(x: int): int {
    (x + 0x8000_0000_0000_0000) % 0x1_0000_0000_0000_0000 - 0x8000_0000_0000_0000
  }

  /** Bitwise or, bit by bit. */
  function BitOr(a: nat, b: nat): nat {
    if a == 0 then b
    else (if a % 2 == 1 || b % 2 == 1 then 1 else 0) + 2 * BitOr(a / 2, b / 2)
  }

  /** Bitwise or of two signed words, on their two's complement representations. */
  function Or64(a: int, b: int): int {
    Wrap(BitOr(a % 0x1_0000_0000_0000_0000, b % 0x1_0000_0000_0000_0000))
  }

  function Pow2(k: nat): (p: nat)
    ensures p > 0
  {
    if k == 0 then 1 else 2 * Pow2(k - 1)
  }

  lemma Twice(b: nat, m: nat)
    requires b < 2 * m
    ensures b / 2 < m
  {
  }

  /** Words without a common bit are added. */
  lemma {:induction false} OrAdds(a: nat, b: nat, k: nat)
    requires b < Pow2(k)
    ensures BitOr(a * Pow2(k), b) == a * Pow2(k) + b
  {
    if k == 0 {
      assert b == 0;
      OrZero(a);
    } else {
      var h := Pow2(k - 1);
      assert a * Pow2(k) == 2 * (a * h) by { assert a * (2 * h) == 2 * (a * h); }
      assert (a * Pow2(k)) / 2 == a * h && (a * Pow2(k)) % 2 == 0;
      Twice(b, h);
      OrAdds(a, b / 2, k - 1);
      if a * Pow2(k) != 0 {
        assert BitOr(a * Pow2(k), b) == b % 2 + 2 * BitOr(a * h, b / 2);
      }
    }
  }

  lemma {:induction false} OrZero(a: nat)
    ensures BitOr(a, 0) == a
  {
    if a != 0 { OrZero(a / 2); }
  }

  // ---- identifiers ----

  /** The word of a timestamp, a node and a sequence number. */
  function Compose(now: int, node: int, sequence: int): int {
    var timestamp := if now - EPOCH_MILLIS < 0 then now else now - EPOCH_MILLIS;
    Or64(Or64(Wrap(timestamp * 0x40_0000), node % NODES * 0x1000), sequence)
  }

  /** The timestamp, node and sequence number of a word. */
  function Decode(id: int): (int, int, int) {
    (id / 0x40_0000, id / 0x1000 % NODES, id % SEQUENCES)
  }

  predicate ClockInRange(now: int) {
    EPOCH_MILLIS <= now < EPOCH_MILLIS + SPAN
  }

  lemma Or64Adds(a: nat, b: nat, k: nat)
    requires b < Pow2(k) && a * Pow2(k) + b < 0x8000_0000_0000_0000
    ensures Or64(a * Pow2(k), b) == a * Pow2(k) + b
  {
    var x := a * Pow2(k);
    assert 0 <= x by { assert a >= 0 && Pow2(k) > 0; }
    OrAdds(a, b, k);
    Small(x);
    Small(b);
    Small(x + b);
  }

  lemma Small(x: nat)
    requires x < 0x8000_0000_0000_0000
    ensures x % 0x1_0000_0000_0000_0000 == x && Wrap(x) == x
  {
  }

  lemma ComposeSum(now: int, node: int, sequence: int)
    requires ClockInRange(now) && 0 <= sequence < SEQUENCES
    ensures Compose(now, node, sequence) == (now - EPOCH_MILLIS) * 0x40_0000 + node % NODES * 0x1000 + sequence
  {
    hide Or64;
    WordSum(now - EPOCH_MILLIS, node, sequence);
  }

  lemma WordSum(t: int, node: int, sequence: int)
    requires 0 <= t < SPAN && 0 <= sequence < SEQUENCES
    ensures Or64(Or64(Wrap(t * 0x40_0000), node % NODES * 0x1000), sequence)
         == t * 0x40_0000 + node % NODES * 0x1000 + sequence
  {
    hide Or64, Pow2, Wrap;
    var n := node % NODES;
    Powers();
    Small(t * 0x40_0000);
    Or64Adds(t, n * 0x1000, 22);
    Or64Adds(t * 0x400 + n, sequence, 12);
  }

  lemma Powers()
    ensures Pow2(12) == 0x1000 && Pow2(22) == 0x40_0000
  {
    assert Pow2(4) == 16 && Pow2(8) == 256 && Pow2(12) == 0x1000 && Pow2(16) == 0x1_0000;
    assert Pow2(20) == 0x10_0000;
  }

  /** An identifier is a non-negative int64 that decodes to its parts; it is 0 only when all of them are. */
  lemma DecodeCompose(now: int, node: int, sequence: int)
    requires ClockInRange(now) && 0 <= sequence < SEQUENCES
    ensures Decode(Compose(now, node, sequence)) == (now - EPOCH_MILLIS, node % NODES, sequence)
    ensures 0 <= Compose(now, node, sequence) < 0x8000_0000_0000_0000
    ensures Compose(now, node, sequence) > 0 <==> now > EPOCH_MILLIS || node % NODES != 0 || sequence != 0
  {
    hide Compose;
    ComposeSum(now, node, sequence);
  }

  /** Before the epoch the clock itself is the timestamp. */
  lemma DecodeBeforeEpoch(now: int, node: int, sequence: int)
    requires 0 <= now < EPOCH_MILLIS && 0 <= sequence < SEQUENCES
    ensures Decode(Compose(now, node, sequence)) == (now, node % NODES, sequence)
  {
    hide Or64;
    WordSum(now, node, sequence);
  }

  /** Identifiers are ordered as their timestamps, and within a millisecond as their sequence numbers. */
  lemma ComposeOrder(now: int, later: int, node: int, s: int, t: int)
    requires ClockInRange(now) && ClockInRange(later) && 0 <= s < SEQUENCES && 0 <= t < SEQUENCES
    ensures Compose(now, node, s) < Compose(later, node, t) <==> now < later || (now == later && s < t)
  {
    hide Compose;
    ComposeSum(now, node, s);
    ComposeSum(later, node, t);
  }

  // ---- one call ----

  datatype State = State(node: int, lastMillis: int, sequence: int)

  /** The first reading past a time. */
  function FirstPast(clock: seq<int>, current: int): Option<int> {
    if clock == [] then None
    else if clock[0] > current then Some(clock[0])
    else FirstPast(clock[1..], current)
  }

  /** The state after a call, and what the call returns. */
  function Next(g: State, clock: Call): (State, Result<int, Failure>)
  {
    if clock.first > g.lastMillis then
      (State(g.node, clock.first, 0), Ok(Compose(clock.first, g.node, 0)))
    else
      var s := (g.sequence + 1) % SEQUENCES;
      if s != 0 then (State(g.node, g.lastMillis, s), Ok(Compose(g.lastMillis, g.node, s)))
      else
        match FirstPast(clock.more, g.lastMillis)
        case None => (State(g.node, g.lastMillis, 0), Err(ContextDone))
        case Some(now) => (State(g.node, now, 0), Ok(Compose(now, g.node, 0)))
  }

  /** The first reading past the current millisecond, or an error once the context is done. */
  method WaitNextIdentifierMillis(clock: seq<int>, current: int) returns (r: Result<int, Failure>)
    ensures r == match FirstPast(clock, current) case None => Err(ContextDone) case Some(now) => Ok(now)
    ensures r.Ok? ==> r.value > current
  {
    var i := 0;
    while i < |clock|
      invariant i <= |clock|
      invariant FirstPast(clock, current) == FirstPast(clock[i..], current)
    {
      var now := clock[i];
      if now > current {
        return Ok(now);
      }
      i := i + 1;
    }
    return Err(ContextDone);
  }

  class Generator {
    const node: int
    var lastMillis: int
    var sequence: int

    constructor (node: int)
      ensures this.node == node && Current() == State(node, 0, 0)
    {
      this.node := node;
      lastMillis := 0;
      sequence := 0;
    }

    function Current(): State
      reads this
    {
      State(node, lastMillis, sequence)
    }

    method NextID(clock: Call) returns (r: Result<int, Failure>)
      modifies this
      ensures (Current(), r) == Next(old(Current()), clock)
    {
      var now := clock.first;
      if now < lastMillis {
        now := lastMillis;
      }
      if now == lastMillis {
        sequence := (sequence + 1) % SEQUENCES;
        if sequence == 0 {
          var next := WaitNextIdentifierMillis(clock.more, now);
          if next.Err? {
            return next;
          }
          now := next.value;
        }
      } else {
        sequence := 0;
      }
      lastMillis := now;
      return Ok(Compose(now, node, sequence));
    }
  }

  // ---- whole runs ----

  /** The identifiers issued by a run of calls, each with its own clock readings. */
  function Ids(g: State, calls: seq<Call>): (ids: seq<int>)
    decreases |calls|
  {
    if calls == [] then []
    else
      var (h, r) := Next(g, calls[0]);
      (if r.Ok? then [r.value] else []) + Ids(h, calls[1..])
  }

  /** Every call that follows a failed one reads a clock past the last millisecond used. */
  predicate ClockMovedAfterFailures(g: State, failed: bool, calls: seq<Call>)
    decreases |calls|
  {
    calls == [] ||
    (&& (failed ==> calls[0].first > g.lastMillis)
     && var (h, r) := Next(g, calls[0]);
        ClockMovedAfterFailures(h, r.Err?, calls[1..]))
  }

  predicate Increasing(ids: seq<int>) {
    forall i, j :: 0 <= i < j < |ids| ==> ids[i] < ids[j]
  }

  predicate GoodClock(c: Call) {
    ClockInRange(c.first) && forall t <- c.more :: ClockInRange(t)
  }

  predicate GoodClocks(calls: seq<Call>) {
    forall c <- calls :: GoodClock(c)
  }

  /** How the state and the last identifier issued go together. */
  predicate Issued(g: State, failed: bool, last: int) {
    && 0 <= g.sequence < SEQUENCES
    && (if failed then ClockInRange(g.lastMillis) && g.sequence == 0
        && last == Compose(g.lastMillis, g.node, SEQUENCES - 1)
        else (ClockInRange(g.lastMillis) && last == Compose(g.lastMillis, g.node, g.sequence)) ||
             (g.lastMillis == 0 && g.sequence == 0 && last == -1))
  }

  /** The i-th reading is the first one past a time. */
  predicate FirstAbove(clock: seq<int>, current: int, i: nat) {
    i < |clock| && clock[i] > current && forall j :: 0 <= j < i ==> clock[j] <= current
  }

  /** The first reading past a time, and none exactly when there is none. */
  lemma {:induction false} FirstPastIs(clock: seq<int>, current: int)
    ensures match FirstPast(clock, current)
            case None => forall reading <- clock :: reading <= current
            case Some(now) =>
              && now in clock && now > current
              && exists i: nat :: FirstAbove(clock, current, i) && clock[i] == now
  {
    if clock != [] {
      if clock[0] > current {
        assert FirstAbove(clock, current, 0);
      } else {
        var rest := clock[1..];
        FirstPastIs(rest, current);
        assert clock == [clock[0]] + rest;
        if FirstPast(rest, current).Some? {
          var i: nat :| FirstAbove(rest, current, i) && rest[i] == FirstPast(rest, current).value;
          assert forall j :: 0 < j < i + 1 ==> clock[j] == rest[j - 1];
          assert FirstAbove(clock, current, i + 1) && clock[i + 1] == rest[i];
        }
      }
    }
  }

  /** One call: an identifier above the last one, unless a failed wait is followed by a clock that has not moved. */
  lemma NextIssues(g: State, failed: bool, last: int, clock: Call)
    requires Issued(g, failed, last) && GoodClock(clock)
    ensures var (h, r) := Next(g, clock);
            && (r.Err? ==> !failed && Issued(h, true, last))
            && (r.Ok? ==> (r.value > last <==> (failed ==> clock.first > g.lastMillis)) && Issued(h, false, r.value))
  {
    hide Compose;
    var now := if clock.first > g.lastMillis then clock.first else g.lastMillis;
    FirstPastIs(clock.more, g.lastMillis);
    if ClockInRange(g.lastMillis) {
      var s := if failed then SEQUENCES - 1 else g.sequence;
      ComposeOrder(g.lastMillis, now, g.node, s, 0);
      if s < SEQUENCES - 1 { ComposeOrder(g.lastMillis, g.lastMillis, g.node, s, s + 1); }
      ComposeOrder(g.lastMillis, g.lastMillis, g.node, s, 1);
      if FirstPast(clock.more, g.lastMillis).Some? {
        ComposeOrder(g.lastMillis, FirstPast(clock.more, g.lastMillis).value, g.node, s, 0);
      }
    } else {
      DecodeCompose(clock.first, g.node, 0);
    }
  }

  lemma IncreasingStep(last: int, id: int, ids: seq<int>)
    ensures Increasing([last] + ([id] + ids)) <==> last < id && Increasing([id] + ids)
  {
    var all := [last] + ([id] + ids);
    if Increasing(all) {
      assert all[0] == last && all[1] == id;
      forall i, j | 0 <= i < j < |[id] + ids|
        ensures ([id] + ids)[i] < ([id] + ids)[j]
      {
        assert all[i + 1] == ([id] + ids)[i] && all[j + 1] == ([id] + ids)[j];
      }
    }
    if last < id && Increasing([id] + ids) {
      forall i, j | 0 <= i < j < |all|
        ensures all[i] < all[j]
      {
        assert ([id] + ids)[0] == id;
        assert all[j] == ([id] + ids)[j - 1];
        if i > 0 { assert all[i] == ([id] + ids)[i - 1]; }
      }
    }
  }

  lemma {:induction false} IdsIncrease(g: State, failed: bool, last: int, calls: seq<Call>)
    requires GoodClocks(calls) && Issued(g, failed, last)
    ensures Increasing([last] + Ids(g, calls)) <==> ClockMovedAfterFailures(g, failed, calls)
    decreases |calls|
  {
    if calls == [] {
      assert Increasing([last]);
    } else {
      hide Next, Issued, Increasing, ClockInRange, Compose;
      assert calls[0] in calls && forall c <- calls[1..] :: c in calls;
      NextIssues(g, failed, last, calls[0]);
      var (h, r) := Next(g, calls[0]);
      var rest := Ids(h, calls[1..]);
      if r.Ok? {
        IdsIncrease(h, false, r.value, calls[1..]);
        IncreasingStep(last, r.value, rest);
      } else {
        IdsIncrease(h, true, last, calls[1..]);
        assert [] + rest == rest;
      }
    }
  }

  /**
   The identifiers of a new generator strictly increase over every run, however the clock moves backwards, exactly when
   each call that follows a failed wait sees a clock past the last millisecond used.
   */
  lemma IdsStrictlyIncrease(node: int, calls: seq<Call>)
    requires GoodClocks(calls)
    ensures var g := State(node, 0, 0);
            Increasing(Ids(g, calls)) <==> ClockMovedAfterFailures(g, false, calls)
    ensures forall id <- Ids(State(node, 0, 0), calls) ::
              0 <= id < 0x8000_0000_0000_0000 && Decode(id).1 == node % NODES
  {
    hide Increasing, ClockMovedAfterFailures, Decode, Ids;
    var g := State(node, 0, 0);
    IdsIncrease(g, false, -1, calls);
    IdsDecode(g, calls);
    IncreasingFirst(Ids(g, calls));
  }

  /** A smaller number in front changes nothing. */
  lemma IncreasingFirst(ids: seq<int>)
    requires forall id <- ids :: 0 <= id
    ensures Increasing([-1] + ids) <==> Increasing(ids)
  {
    assert forall i :: 0 <= i < |ids| ==> ids[i] == ([-1] + ids)[i + 1];
    if ids != [] {
      assert ids[0] in ids;
      IncreasingStep(-1, ids[0], ids[1..]);
      assert [ids[0]] + ids[1..] == ids;
    }
  }

  /** Every identifier is a non-negative int64 that carries its generator's node. */
  lemma {:induction false} IdsDecode(g: State, calls: seq<Call>)
    requires GoodClocks(calls) && 0 <= g.sequence < SEQUENCES
    requires ClockInRange(g.lastMillis) || g.lastMillis == 0
    ensures forall id <- Ids(g, calls) :: 0 <= id < 0x8000_0000_0000_0000 && Decode(id).1 == g.node % NODES
    decreases |calls|
  {
    if calls != [] {
      hide Compose, Decode;
      var clock := calls[0];
      assert clock in calls && forall c <- calls[1..] :: c in calls;
      FirstPastIs(clock.more, g.lastMillis);
      var (h, r) := Next(g, clock);
      IdsDecode(h, calls[1..]);
      if r.Ok? { DecodeCompose(h.lastMillis, g.node, h.sequence); }
    }
  }

  /** Generators with different nodes never issue the same identifier, whatever their clocks. */
  lemma NodesDisjoint(a: int, b: int, calls: seq<Call>, others: seq<Call>)
    requires GoodClocks(calls) && GoodClocks(others) && a % NODES != b % NODES
    ensures forall id <- Ids(State(a, 0, 0), calls) :: id !in Ids(State(b, 0, 0), others)
  {
    IdsDecode(State(a, 0, 0), calls);
    IdsDecode(State(b, 0, 0), others);
  }

  /** A number of calls that all see the same reading. */
  function Frozen(now: int, n: nat): (calls: seq<Call>)
    ensures |calls| == n && forall c <- calls :: c == Call(now, [])
  {
    seq(n, i => Call(now, []))
  }

  lemma {:induction false} FrozenFails(node: int, now: int, s: nat)
    requires ClockInRange(now) && s < SEQUENCES
    ensures !ClockMovedAfterFailures(State(node, now, s), false, Frozen(now, SEQUENCES - s + 1))
    decreases SEQUENCES - s
  {
    hide Compose;
    var g, calls := State(node, now, s), Frozen(now, SEQUENCES - s + 1);
    assert calls[0] == Call(now, []);
    assert calls[1..] == Frozen(now, SEQUENCES - s);
    if s + 1 < SEQUENCES {
      FrozenFails(node, now, s + 1);
    } else {
      assert calls[1..][0] == Call(now, []);
    }
  }

  /**
   The order is lost when a wait fails and the clock has still not moved: on a clock that stands still, 4098 calls do
   not give increasing identifiers.
   */
  lemma FailedWaitRepeats(node: int, now: int)
    requires ClockInRange(now)
    ensures !Increasing(Ids(State(node, 0, 0), Frozen(now, SEQUENCES + 2)))
  {
    hide Increasing, Compose, Ids;
    var g, calls := State(node, 0, 0), Frozen(now, SEQUENCES + 2);
    IdsStrictlyIncrease(node, calls);
    assert calls[0] == Call(now, []) && calls[1..] == Frozen(now, SEQUENCES + 1);
    FrozenFails(node, now, 0);
  }
}
