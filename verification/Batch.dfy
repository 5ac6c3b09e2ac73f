/**
 The batch session of batch.go and the loop of base_mapper_batch.go over it. The delegate session is an oracle: any
 function of what it has been asked before and the request at hand.
 */
module Batch {
  import opened Prelude

  type Args = map<string, string>

  datatype Command = Select | Insert | Update | Delete | Call

  datatype Meta = Meta(fullName: string, sql: string, dynamic: bool, command: Command)

  const NO_META := Meta("", "", false, Insert)

  datatype Item = Item(statement: string, meta: Meta, args: Args)

  /** What is sent to the delegate: a named statement, or the metadata of one. */
  datatype Request = ByName(name: string, args: Args) | ByMeta(meta: Meta, args: Args)

  /** What the delegate has seen; for queries and commits, with the number of items then queued in the session. */
  datatype Event =
    | Ran(request: Request, outcome: Result<int, string>)
    | Asked(query: Request, queued: nat)
    | Committed(queued: nat)

  /** What the delegate supports, how it answers a write, and with which error, if any, a query or a commit. */
  datatype Env = Env(
    statements: bool, managed: bool, answer: (seq<Event>, Request) -> Result<int, string>,
    ask: (seq<Event>, Request) -> Option<string>, commit: seq<Event> -> Option<string>)

  datatype Batch = Batch(items: seq<Item>, log: seq<Event>)

  datatype BatchResult = BatchResult(item: Item, rows: int)

  datatype BatchError = BatchError(index: nat, item: Item, error: string)

  /** Why a query or a commit fails: before the delegate is reached, or there. */
  datatype Failure = FlushFailed(error: BatchError) | Unsupported | Refused(message: string)

  const ANONYMOUS := "batch delegate does not support anonymous statement execution"

  /** Where an item goes: by its metadata when it has any and the delegate takes it, else by name. */
  function Route(item: Item, statements: bool): Option<Request> {
    if item.meta.fullName != "" || item.meta.sql != "" || item.meta.dynamic then
      if statements then Some(ByMeta(item.meta, item.args))
      else if item.meta.fullName == "" then None
      else Some(ByName(item.meta.fullName, item.args))
    else Some(ByName(item.statement, item.args))
  }

  function Execute(item: Item, log: seq<Event>, env: Env): (seq<Event>, Result<int, string>) {
    match Route(item, env.statements)
    case None => (log, Err(ANONYMOUS))
    case Some(request) =>
      var outcome := env.answer(log, request);
      (log + [Ran(request, outcome)], outcome)
  }

  /** The items executed in order, up to the first one that fails; it and those after it stay. */
  function Drain(b: Batch, env: Env, done: seq<BatchResult>): (Batch, seq<BatchResult>, Option<BatchError>)
    decreases |b.items|
  {
    if b.items == [] then (b, done, None)
    else
      var (log, outcome) := Execute(b.items[0], b.log, env);
      match outcome
      case Err(e) => (Batch(b.items, log), done, Some(BatchError(|done|, b.items[0], e)))
      case Ok(rows) => Drain(Batch(b.items[1..], log), env, done + [BatchResult(b.items[0], rows)])
  }

  /** Whether ExecStatement queues a statement. */
  predicate Accepts(meta: Meta, statements: bool) {
    !meta.command.Select? && !meta.command.Call? && (statements || meta.fullName != "")
  }

  // ---- the session ----

  class Delegate {
    const env: Env
    var log: seq<Event>

    constructor (env: Env)
      ensures this.env == env && log == []
    {
      this.env := env;
      log := [];
    }

    method Exec(request: Request) returns (r: Result<int, string>)
      modifies this
      ensures r == env.answer(old(log), request) && log == old(log) + [Ran(request, r)]
    {
      r := env.answer(log, request);
      log := log + [Ran(request, r)];
    }

    method Query(request: Request, queued: nat) returns (error: Option<string>)
      modifies this
      ensures error == env.ask(old(log), request) && log == old(log) + [Asked(request, queued)]
    {
      error := env.ask(log, request);
      log := log + [Asked(request, queued)];
    }

    method Commit(queued: nat) returns (error: Option<string>)
      modifies this
      ensures error == env.commit(old(log)) && log == old(log) + [Committed(queued)]
    {
      error := env.commit(log);
      log := log + [Committed(queued)];
    }
  }

  class BatchSession {
    const session: Delegate
    var items: seq<Item>

    constructor (session: Delegate)
      ensures this.session == session && items == []
    {
      this.session := session;
      items := [];
    }

    function Current(): Batch
      reads this, session
    {
      Batch(items, session.log)
    }

    method Exec(statement: string, args: Args)
      modifies this
      ensures items == old(items) + [Item(statement, NO_META, args)]
    {
      items := items + [Item(statement, NO_META, args)];
    }

    method ExecStatement(meta: Meta, args: Args) returns (ok: bool)
      modifies this
      ensures ok == Accepts(meta, session.env.statements)
      ensures items == if ok then old(items) + [Item(meta.fullName, meta, args)] else old(items)
    {
      if meta.command == Select || meta.command == Call {
        return false;
      }
      if !session.env.statements && meta.fullName == "" {
        return false;
      }
      items := items + [Item(meta.fullName, meta, args)];
      return true;
    }

    method ExecItem(item: Item) returns (r: Result<int, string>)
      modifies session
      ensures (session.log, r) == Execute(item, old(session.log), session.env)
    {
      if item.meta.fullName != "" || item.meta.sql != "" || item.meta.dynamic {
        if session.env.statements {
          r := session.Exec(ByMeta(item.meta, item.args));
          return;
        }
        if item.meta.fullName == "" {
          return Err(ANONYMOUS);
        }
        r := session.Exec(ByName(item.meta.fullName, item.args));
        return;
      }
      r := session.Exec(ByName(item.statement, item.args));
    }

    method Flush() returns (results: seq<BatchResult>, error: Option<BatchError>)
      modifies this, session
      ensures (Current(), results, error) == Drain(old(Current()), session.env, [])
    {
      if |items| == 0 {
        return [], None;
      }
      results := [];
      var index := 0;
      while index < |items|
        invariant index <= |items| && items == old(items) && |results| == index
        invariant Drain(old(Current()), session.env, [])
                  == Drain(Batch(items[index..], session.log), session.env, results)
      {
        var item := items[index];
        var outcome := ExecItem(item);
        if outcome.Err? {
          items := items[index..];
          return results, Some(BatchError(index, item, outcome.error));
        }
        assert items[index..][1..] == items[index + 1..];
        results := results + [BatchResult(item, outcome.value)];
        index := index + 1;
      }
      items := [];
      return results, None;
    }

    /** Query and QueryOne; with metadata, QueryStatement and QueryOneStatement. */
    method Query(request: Request) returns (failure: Option<Failure>)
      modifies this, session
      ensures (Current(), failure) == AfterQuery(old(Current()), session.env, request)
    {
      var _, error := Flush();
      if error.Some? {
        return Some(FlushFailed(error.value));
      }
      if request.ByMeta? && !session.env.statements {
        return Some(Unsupported);
      }
      var refused := session.Query(request, |items|);
      return if refused.Some? then Some(Refused(refused.value)) else None;
    }

    method CommitContext() returns (failure: Option<Failure>)
      modifies this, session
      ensures (Current(), failure) == AfterCommit(old(Current()), session.env)
    {
      var _, error := Flush();
      if error.Some? {
        return Some(FlushFailed(error.value));
      }
      if !session.env.managed {
        return None;
      }
      var refused := session.Commit(|items|);
      return if refused.Some? then Some(Refused(refused.value)) else None;
    }

    method Clear()
      modifies this
      ensures items == []
    {
      items := [];
    }

    method Len() returns (n: nat)
      ensures n == |items|
    {
      return |items|;
    }
  }

  /** The delegate's own error, if it has one. */
  function RefusedWith(error: Option<string>): Option<Failure> {
    match error case None => None case Some(message) => Some(Refused(message))
  }

  function AfterQuery(b: Batch, env: Env, request: Request): (Batch, Option<Failure>) {
    var (c, _, error) := Drain(b, env, []);
    if error.Some? then (c, Some(FlushFailed(error.value)))
    else if request.ByMeta? && !env.statements then (c, Some(Unsupported))
    else (c.(log := c.log + [Asked(request, |c.items|)]), RefusedWith(env.ask(c.log, request)))
  }

  function AfterCommit(b: Batch, env: Env): (Batch, Option<Failure>) {
    var (c, _, error) := Drain(b, env, []);
    if error.Some? then (c, Some(FlushFailed(error.value)))
    else if !env.managed then (c, None)
    else (c.(log := c.log + [Committed(|c.items|)]), RefusedWith(env.commit(c.log)))
  }

  /** The delegate has answered, with or without an error of its own. */
  predicate Reached(failure: Option<Failure>) {
    failure.None? || failure.value.Refused?
  }

  // ---- conservation ----

  datatype Op =
    | Exec(statement: string, args: Args)
    | ExecStatement(meta: Meta, args: Args)
    | Flush
    | Query(request: Request)
    | Commit

  function After(b: Batch, env: Env, op: Op): Batch {
    match op
    case Exec(statement, args) => b.(items := b.items + [Item(statement, NO_META, args)])
    case ExecStatement(meta, args) =>
      if Accepts(meta, env.statements) then b.(items := b.items + [Item(meta.fullName, meta, args)]) else b
    case Flush => Drain(b, env, []).0
    case Query(request) => AfterQuery(b, env, request).0
    case Commit => AfterCommit(b, env).0
  }

  function Run(b: Batch, env: Env, ops: seq<Op>): Batch
    decreases |ops|
  {
    if ops == [] then b else Run(After(b, env, ops[0]), env, ops[1..])
  }

  /**
   What a caller queues: a write under the given name, or the statement of an insert, an update or a delete, by its
   metadata where the delegate takes statements and there is metadata, else under its full name.
   */
  function QueuedBy(op: Op, statements: bool): seq<Request> {
    match op
    case Exec(statement, args) => [ByName(statement, args)]
    case ExecStatement(meta, args) =>
      var writes := meta.command == Insert || meta.command == Update || meta.command == Delete;
      if !writes || (!statements && meta.fullName == "") then []
      else if statements && (meta.fullName != "" || meta.sql != "" || meta.dynamic) then [ByMeta(meta, args)]
      else [ByName(meta.fullName, args)]
    case _ => []
  }

  /** The requests a caller has queued, in order. */
  function Enqueued(ops: seq<Op>, statements: bool): seq<Request> {
    if ops == [] then [] else QueuedBy(ops[0], statements) + Enqueued(ops[1..], statements)
  }

  /** The requests the delegate has executed without an error, in order. */
  function Succeeded(log: seq<Event>): seq<Request> {
    if log == [] then []
    else Succeeded(log[..|log| - 1]) + Success(log[|log| - 1])
  }

  function Success(e: Event): seq<Request> {
    if e.Ran? && e.outcome.Ok? then [e.request] else []
  }

  function Requests(items: seq<Item>, statements: bool): seq<Request> {
    if items == [] then []
    else
      match Route(items[0], statements)
      case None => Requests(items[1..], statements)
      case Some(r) => [r] + Requests(items[1..], statements)
  }

  /** Everything in the queue can be sent somewhere. */
  predicate Routable(items: seq<Item>, statements: bool) {
    forall i <- items :: Route(i, statements).Some?
  }

  lemma SucceededMore(log: seq<Event>, e: Event)
    ensures Succeeded(log + [e]) == Succeeded(log) + Success(e)
  {
    assert (log + [e])[..|log|] == log;
  }

  lemma {:induction false} RequestsConcat(a: seq<Item>, b: seq<Item>, statements: bool)
    ensures Requests(a + b, statements) == Requests(a, statements) + Requests(b, statements)
  {
    if a == [] {
      assert a + b == b;
    } else {
      assert (a + b)[1..] == a[1..] + b;
      RequestsConcat(a[1..], b, statements);
    }
  }

  /** A flush stops with an empty queue or at the item it reports, whose index is the number of results. */
  lemma {:induction false} DrainShape(b: Batch, env: Env, done: seq<BatchResult>)
    ensures var (c, results, error) := Drain(b, env, done);
            && |results| - |done| + |c.items| == |b.items| && done <= results
            && c.items == b.items[|results| - |done|..]
            && (forall i :: |done| <= i < |results| ==> results[i].item == b.items[i - |done|])
            && (error.None? ==> c.items == [])
            && (error.Some? ==> c.items != [] && error.value.index == |results| && error.value.item == c.items[0])
    decreases |b.items|
  {
    if b.items != [] {
      var (log, outcome) := Execute(b.items[0], b.log, env);
      if outcome.Ok? {
        DrainShape(Batch(b.items[1..], log), env, done + [BatchResult(b.items[0], outcome.value)]);
      }
    }
  }

  function RowsOf(results: seq<BatchResult>): int {
    if results == [] then 0 else RowsOf(results[..|results| - 1]) + results[|results| - 1].rows
  }

  /** The rows of all requests executed without an error. */
  function RowsIn(log: seq<Event>): int {
    if log == [] then 0 else RowsIn(log[..|log| - 1]) + EventRows(log[|log| - 1])
  }

  function EventRows(e: Event): int {
    if e.Ran? && e.outcome.Ok? then e.outcome.value else 0
  }

  lemma RowsMore(log: seq<Event>, e: Event, results: seq<BatchResult>, r: BatchResult)
    ensures RowsIn(log + [e]) == RowsIn(log) + EventRows(e)
    ensures RowsOf(results + [r]) == RowsOf(results) + r.rows
  {
    assert (log + [e])[..|log|] == log && (results + [r])[..|results|] == results;
  }

  lemma {:induction false} DrainRows(b: Batch, env: Env, done: seq<BatchResult>)
    ensures var (c, results, error) := Drain(b, env, done);
            RowsIn(c.log) - RowsIn(b.log) == RowsOf(results) - RowsOf(done)
    decreases |b.items|
  {
    if b.items != [] && Route(b.items[0], env.statements).Some? {
      var request := Route(b.items[0], env.statements).value;
      var outcome := env.answer(b.log, request);
      var r := BatchResult(b.items[0], if outcome.Ok? then outcome.value else 0);
      RowsMore(b.log, Ran(request, outcome), done, r);
      if outcome.Ok? {
        DrainRows(Batch(b.items[1..], b.log + [Ran(request, outcome)]), env, done + [r]);
      }
    }
  }

  /** What has been executed and what is still to be. */
  function Owed(b: Batch, statements: bool): seq<Request> {
    Succeeded(b.log) + Requests(b.items, statements)
  }

  lemma ExecuteOwed(b: Batch, env: Env)
    requires Routable(b.items, env.statements) && b.items != []
    ensures var (log, outcome) := Execute(b.items[0], b.log, env);
            Owed(Batch(if outcome.Ok? then b.items[1..] else b.items, log), env.statements) == Owed(b, env.statements)
    ensures Routable(b.items[1..], env.statements)
  {
    hide Succeeded, Route;
    assert b.items[0] in b.items;
    var request := Route(b.items[0], env.statements).value;
    SucceededMore(b.log, Ran(request, env.answer(b.log, request)));
    assert Requests(b.items, env.statements) == [request] + Requests(b.items[1..], env.statements);
    assert Succeeded(b.log) + [request] + Requests(b.items[1..], env.statements)
        == Succeeded(b.log) + ([request] + Requests(b.items[1..], env.statements));
    assert Succeeded(b.log) + [] == Succeeded(b.log);
  }

  /** Flushing moves requests from the queue to the delegate, one by one, and drops none. */
  lemma {:induction false} DrainConserves(b: Batch, env: Env, done: seq<BatchResult>)
    requires Routable(b.items, env.statements)
    ensures var c := Drain(b, env, done).0;
            Routable(c.items, env.statements) && Owed(c, env.statements) == Owed(b, env.statements)
    decreases |b.items|
  {
    if b.items != [] {
      ExecuteOwed(b, env);
      hide Owed, Execute, Routable;
      var (log, outcome) := Execute(b.items[0], b.log, env);
      if outcome.Ok? {
        DrainConserves(Batch(b.items[1..], log), env, done + [BatchResult(b.items[0], outcome.value)]);
      }
    }
  }

  /** Queries and commits reach the delegate only with an empty queue. */
  predicate ReadsDrained(log: seq<Event>) {
    forall e <- log :: (e.Asked? || e.Committed?) ==> e.queued == 0
  }

  lemma {:induction false} DrainReads(b: Batch, env: Env, done: seq<BatchResult>)
    requires ReadsDrained(b.log)
    ensures ReadsDrained(Drain(b, env, done).0.log)
    decreases |b.items|
  {
    if b.items != [] {
      var (log, outcome) := Execute(b.items[0], b.log, env);
      if outcome.Ok? {
        DrainReads(Batch(b.items[1..], log), env, done + [BatchResult(b.items[0], outcome.value)]);
      }
    }
  }

  lemma ItemQueued(b: Batch, i: Item, statements: bool)
    requires Routable(b.items, statements) && Route(i, statements).Some?
    ensures Routable(b.items + [i], statements)
    ensures Requests(b.items + [i], statements) == Requests(b.items, statements) + [Route(i, statements).value]
    ensures Requests([i], statements) == [Route(i, statements).value]
  {
    hide Route;
    RequestsConcat(b.items, [i], statements);
    assert [i][1..] == [];
  }

  lemma EnqueuedFirst(ops: seq<Op>, statements: bool)
    requires ops != []
    ensures Enqueued(ops, statements) == Enqueued([ops[0]], statements) + Enqueued(ops[1..], statements)
  {
    hide QueuedBy;
    assert [ops[0]][1..] == [] && Enqueued([], statements) == [];
  }

  /** What one operation must keep. */
  ghost predicate Conserves(b: Batch, c: Batch, env: Env, op: Op) {
    && Routable(c.items, env.statements) && ReadsDrained(c.log)
    && Owed(c, env.statements) == Owed(b, env.statements) + Enqueued([op], env.statements)
  }

  lemma QueueingConserves(b: Batch, env: Env, op: Op)
    requires Routable(b.items, env.statements) && ReadsDrained(b.log) && (op.Exec? || op.ExecStatement?)
    ensures Conserves(b, After(b, env, op), env, op)
  {
    hide Succeeded, Requests, Routable, ReadsDrained;
    assert [op][1..] == [] && Enqueued([], env.statements) == [];
    match op
    case Exec(statement, args) => ItemQueued(b, Item(statement, NO_META, args), env.statements);
    case ExecStatement(meta, args) =>
      if Accepts(meta, env.statements) { ItemQueued(b, Item(meta.fullName, meta, args), env.statements); }
  }

  lemma ReadConserves(b: Batch, env: Env, op: Op)
    requires Routable(b.items, env.statements) && ReadsDrained(b.log) && (op.Flush? || op.Query? || op.Commit?)
    ensures Conserves(b, After(b, env, op), env, op)
  {
    hide Succeeded, Requests, Drain, Routable;
    assert [op][1..] == [] && Enqueued([], env.statements) == [];
    DrainConserves(b, env, []);
    DrainShape(b, env, []);
    DrainReads(b, env, []);
    var c := Drain(b, env, []).0;
    match op
    case Query(request) => SucceededMore(c.log, Asked(request, |c.items|));
    case Commit => SucceededMore(c.log, Committed(|c.items|));
    case _ =>
  }

  /** One operation: nothing is lost or repeated. */
  lemma AfterConserves(b: Batch, env: Env, op: Op)
    requires Routable(b.items, env.statements) && ReadsDrained(b.log)
    ensures Conserves(b, After(b, env, op), env, op)
  {
    hide Conserves, After, Routable, ReadsDrained;
    if op.Exec? || op.ExecStatement? { QueueingConserves(b, env, op); } else { ReadConserves(b, env, op); }
  }

  lemma Associate(a: seq<Request>, b: seq<Request>, c: seq<Request>)
    ensures (a + b) + c == a + (b + c)
  {
  }

  lemma {:induction false} RunConserves(b: Batch, env: Env, ops: seq<Op>)
    requires Routable(b.items, env.statements) && ReadsDrained(b.log)
    ensures var c := Run(b, env, ops);
            && Routable(c.items, env.statements) && ReadsDrained(c.log)
            && Owed(c, env.statements) == Owed(b, env.statements) + Enqueued(ops, env.statements)
    decreases |ops|
  {
    if ops != [] {
      hide After, Routable, ReadsDrained, Owed, Enqueued;
      AfterConserves(b, env, ops[0]);
      RunConserves(After(b, env, ops[0]), env, ops[1..]);
      EnqueuedFirst(ops, env.statements);
      Associate(Owed(b, env.statements), Enqueued([ops[0]], env.statements), Enqueued(ops[1..], env.statements));
    } else {
      assert Enqueued(ops, env.statements) == [];
    }
  }

  const NEW_BATCH := Batch([], [])

  /**
   Whatever the delegate answers and however often a flush fails: the requests it has executed, followed by those still
   queued, are the ones queued, in order; and it is asked or committed only with an empty queue.
   */
  lemma NothingLostOrRepeated(env: Env, ops: seq<Op>)
    ensures var b := Run(NEW_BATCH, env, ops);
            && Succeeded(b.log) + Requests(b.items, env.statements) == Enqueued(ops, env.statements)
            && Succeeded(b.log) <= Enqueued(ops, env.statements)
            && |Requests(b.items, env.statements)| == |b.items|
            && forall e <- b.log :: (e.Asked? || e.Committed?) ==> e.queued == 0
  {
    hide Run, Succeeded, Enqueued, Route;
    assert Owed(NEW_BATCH, env.statements) == [] by { NothingOwed(env.statements); }
    RunConserves(NEW_BATCH, env, ops);
    RequestCount(Run(NEW_BATCH, env, ops).items, env.statements);
  }

  lemma NothingOwed(statements: bool)
    ensures Owed(NEW_BATCH, statements) == []
  {
  }

  lemma {:induction false} RequestCount(items: seq<Item>, statements: bool)
    requires Routable(items, statements)
    ensures |Requests(items, statements)| == |items|
  {
    if items != [] {
      assert items[0] in items;
      RequestCount(items[1..], statements);
    }
  }

  /**
   A query or a commit reaches the delegate only after every write queued before it has been executed, and it fails as
   the delegate does. When it does not reach the delegate because a write failed, that write is still the first in the
   queue.
   */
  lemma ReadsSeeEveryWrite(env: Env, ops: seq<Op>, request: Request)
    ensures var b := Run(NEW_BATCH, env, ops);
            var (c, asked) := AfterQuery(b, env, request);
            var (d, committed) := AfterCommit(b, env);
            && (Reached(asked) ==> Succeeded(c.log) == Enqueued(ops, env.statements) && c.items == [])
            && (Reached(committed) ==> Succeeded(d.log) == Enqueued(ops, env.statements) && d.items == [])
            && (!Reached(asked) && asked.value.FlushFailed? ==> c.items != [] && c.items[0] == asked.value.error.item)
            && (!Reached(committed) ==> d.items != [] && d.items[0] == committed.value.error.item)
  {
    hide Drain, Run, Succeeded;
    var b := Run(NEW_BATCH, env, ops);
    RunConserves(NEW_BATCH, env, ops);
    NothingLostOrRepeated(env, ops);
    DrainConserves(b, env, []);
    DrainShape(b, env, []);
    var c := Drain(b, env, []).0;
    SucceededMore(c.log, Asked(request, |c.items|));
    SucceededMore(c.log, Committed(|c.items|));
  }

  /**
   How a query ends: with the error of the flush when something is still queued, unsupported when it is by metadata and
   the delegate takes no statements, and else as the delegate answers it, which is asked for it last.
   */
  lemma QueryEnds(b: Batch, env: Env, request: Request)
    ensures var (c, failure) := AfterQuery(b, env, request);
            && (c.items != [] <==> failure.Some? && failure.value.FlushFailed?)
            && (c.items == [] && request.ByMeta? && !env.statements <==> failure == Some(Unsupported))
            && (c.items == [] && !(request.ByMeta? && !env.statements) ==>
                  && c.log != [] && c.log[|c.log| - 1] == Asked(request, 0)
                  && failure == match env.ask(c.log[..|c.log| - 1], request)
                                case None => None case Some(message) => Some(Refused(message)))
  {
    hide Drain;
    DrainShape(b, env, []);
    var d := Drain(b, env, []).0;
    assert (d.log + [Asked(request, |d.items|)])[..|d.log|] == d.log;
  }

  /** How a commit ends: the delegate is asked last, unless something is still queued or it has no commit. */
  lemma CommitEnds(b: Batch, env: Env)
    ensures var (c, failure) := AfterCommit(b, env);
            && (c.items != [] <==> failure.Some? && failure.value.FlushFailed?)
            && (c.items == [] && env.managed ==>
                  && c.log != [] && c.log[|c.log| - 1] == Committed(0)
                  && failure == match env.commit(c.log[..|c.log| - 1])
                                case None => None case Some(message) => Some(Refused(message)))
            && (c.items == [] && !env.managed ==>
                  failure == None && b.log <= c.log && forall i :: |b.log| <= i < |c.log| ==> c.log[i].Ran?)
  {
    hide Drain;
    DrainShape(b, env, []);
    DrainRuns(b, env, []);
    var d := Drain(b, env, []).0;
    assert (d.log + [Committed(|d.items|)])[..|d.log|] == d.log;
  }

  lemma {:induction false} DrainRuns(b: Batch, env: Env, done: seq<BatchResult>)
    ensures var log := Drain(b, env, done).0.log; b.log <= log && forall i :: |b.log| <= i < |log| ==> log[i].Ran?
    decreases |b.items|
  {
    if b.items != [] {
      var (log, outcome) := Execute(b.items[0], b.log, env);
      if outcome.Ok? {
        DrainRuns(Batch(b.items[1..], log), env, done + [BatchResult(b.items[0], outcome.value)]);
      }
    }
  }

  // ---- batches of a mapper ----

  /** What one call of the queueing function adds to the queue, and whether it then fails. */
  datatype Queued = Queued(items: seq<Item>, failed: bool)

  function FlushInto(b: Batch, env: Env, rows: int): (Batch, int, bool) {
    var (c, results, error) := Drain(b, env, []);
    (c, rows + RowsOf(results), error.None?)
  }

  /** The loop of runBatch: a flush after every batchSize calls and one for the remainder. */
  function BatchLoop(b: Batch, env: Env, plan: seq<Queued>, size: nat, pending: nat, rows: int): (Batch, int, bool)
    decreases |plan|
  {
    if plan == [] then if pending > 0 then FlushInto(b, env, rows) else (b, rows, true)
    else if plan[0].failed then (Batch([], b.log), rows, false)
    else
      var c := b.(items := b.items + plan[0].items);
      if pending + 1 >= size then
        var (d, r, ok) := FlushInto(c, env, rows);
        if !ok then (d, r, false) else BatchLoop(d, env, plan[1..], size, 0, r)
      else BatchLoop(c, env, plan[1..], size, pending + 1, rows)
  }

  method BatchRowsAffected(results: seq<BatchResult>) returns (rows: int)
    ensures rows == RowsOf(results)
  {
    rows := 0;
    for i := 0 to |results|
      invariant rows == RowsOf(results[..i])
    {
      assert results[..i + 1][..i] == results[..i];
      rows := rows + results[i].rows;
    }
    assert results[..|results|] == results;
  }

  method FlushBatch(batch: BatchSession, rows: int) returns (r: int, ok: bool)
    modifies batch, batch.session
    ensures (batch.Current(), r, ok) == FlushInto(old(batch.Current()), batch.session.env, rows)
  {
    var results, error := batch.Flush();
    var affected := BatchRowsAffected(results);
    return rows + affected, error.None?;
  }

  method RunBatch(session: Delegate, plan: seq<Queued>, batchSize: int) returns (rows: int, ok: bool,
        ghost left: seq<Item>)
    modifies session
    ensures (Batch(left, session.log), rows, ok)
         == BatchLoop(Batch([], old(session.log)), session.env, plan, if batchSize <= 0 then 1000 else batchSize, 0, 0)
  {
    var size := if batchSize <= 0 then 1000 else batchSize;
    var batch := new BatchSession(session);
    rows := 0;
    var pending := 0;
    var index := 0;
    while index < |plan|
      invariant index <= |plan| && batch.session == session && 0 <= pending
      invariant BatchLoop(Batch([], old(session.log)), session.env, plan, size, 0, 0)
             == BatchLoop(batch.Current(), session.env, plan[index..], size, pending, rows)
    {
      if plan[index].failed {
        batch.Clear();
        return rows, false, batch.items;
      }
      batch.items := batch.items + plan[index].items;
      pending := pending + 1;
      assert plan[index..][1..] == plan[index + 1..];
      if pending >= size {
        rows, ok := FlushBatch(batch, rows);
        pending := 0;
        if !ok {
          return rows, false, batch.items;
        }
      }
      index := index + 1;
    }
    if pending > 0 {
      rows, ok := FlushBatch(batch, rows);
      return rows, ok, batch.items;
    }
    return rows, true, batch.items;
  }

  function AllItems(plan: seq<Queued>): seq<Item> {
    if plan == [] then [] else plan[0].items + AllItems(plan[1..])
  }

  predicate LoopEnds(b: Batch, env: Env, plan: seq<Queued>, rows: int, c: Batch, r: int, ok: bool) {
    var owed := Owed(b, env.statements) + Requests(AllItems(plan), env.statements);
    && r - rows == RowsIn(c.log) - RowsIn(b.log)
    && (ok ==> c.items == [] && Succeeded(c.log) == owed)
    && Succeeded(c.log) <= owed
  }

  lemma FlushEnds(b: Batch, env: Env, rows: int)
    requires Routable(b.items, env.statements)
    ensures var (c, r, ok) := FlushInto(b, env, rows);
            && r - rows == RowsIn(c.log) - RowsIn(b.log)
            && (ok ==> c.items == [])
            && Routable(c.items, env.statements) && Owed(c, env.statements) == Owed(b, env.statements)
  {
    hide Drain, Succeeded, Requests;
    DrainConserves(b, env, []);
    DrainShape(b, env, []);
    DrainRows(b, env, []);
  }

  lemma AllItemsFirst(b: Batch, env: Env, plan: seq<Queued>)
    requires plan != [] && Routable(b.items, env.statements) && Routable(AllItems(plan), env.statements)
    ensures var c := b.(items := b.items + plan[0].items);
            && Routable(c.items, env.statements) && Routable(AllItems(plan[1..]), env.statements)
            && Owed(c, env.statements) + Requests(AllItems(plan[1..]), env.statements)
               == Owed(b, env.statements) + Requests(AllItems(plan), env.statements)
  {
    hide Succeeded, Requests, Route;
    RequestsConcat(b.items, plan[0].items, env.statements);
    RequestsConcat(plan[0].items, AllItems(plan[1..]), env.statements);
    forall i | i in plan[0].items || i in AllItems(plan[1..])
      ensures i in AllItems(plan)
    {
    }
  }

  /** The rows returned are those of the requests executed; without an error, of all that were queued. */
  lemma {:induction false} LoopSums(b: Batch, env: Env, plan: seq<Queued>, size: nat, pending: nat, rows: int)
    requires pending == 0 ==> b.items == []
    requires Routable(b.items, env.statements) && Routable(AllItems(plan), env.statements)
    ensures var (c, r, ok) := BatchLoop(b, env, plan, size, pending, rows);
            LoopEnds(b, env, plan, rows, c, r, ok)
    decreases |plan|
  {
    hide FlushInto, Succeeded, Requests, RowsIn;
    if plan == [] {
      assert Requests([], env.statements) == [] by { NoRequests(env.statements); }
      FlushEnds(b, env, rows);
    } else {
      AllItemsFirst(b, env, plan);
      var c := b.(items := b.items + plan[0].items);
      hide AllItems, Routable;
      if !plan[0].failed {
        if pending + 1 >= size {
          FlushEnds(c, env, rows);
          var (d, r, ok) := FlushInto(c, env, rows);
          if ok { LoopSums(d, env, plan[1..], size, 0, r); }
        } else {
          LoopSums(c, env, plan[1..], size, pending + 1, rows);
        }
      }
    }
  }

  lemma NoRequests(statements: bool)
    ensures Requests([], statements) == []
  {
  }

  /**
   What runBatch returns: the sum of the rows of all executed requests, which without an error are all those queued.
   */
  lemma BatchReturnsRows(log: seq<Event>, env: Env, plan: seq<Queued>, size: nat)
    requires Routable(AllItems(plan), env.statements)
    ensures var (c, rows, ok) := BatchLoop(Batch([], log), env, plan, size, 0, 0);
            && rows == RowsIn(c.log) - RowsIn(log)
            && Succeeded(c.log) <= Succeeded(log) + Requests(AllItems(plan), env.statements)
            && (ok ==> Succeeded(c.log) == Succeeded(log) + Requests(AllItems(plan), env.statements) && c.items == [])
  {
    hide BatchLoop, Succeeded;
    LoopSums(Batch([], log), env, plan, size, 0, 0);
    NoRequests(env.statements);
    assert Succeeded(log) + [] == Succeeded(log);
  }

  /** The first calls succeed, and everything they queue is added to the queue. */
  predicate Succeeding(plan: seq<Queued>, n: nat) {
    n <= |plan| && forall i :: 0 <= i < n ==> !plan[i].failed
  }

  /**
   When the batch gets full: what the next calls queue is flushed with what was there, in one flush, and the next batch
   starts empty, unless the flush fails.
   */
  lemma {:induction false} FullBatchFlushed(b: Batch, env: Env, plan: seq<Queued>, size: nat, pending: nat, rows: int)
    requires pending < size && Succeeding(plan, size - pending)
    ensures var n := size - pending;
            var (c, r, ok) := FlushInto(Batch(b.items + AllItems(plan[..n]), b.log), env, rows);
            BatchLoop(b, env, plan, size, pending, rows)
            == if ok then BatchLoop(c, env, plan[n..], size, 0, r) else (c, r, false)
    decreases size - pending
  {
    hide FlushInto;
    var n := size - pending;
    var c := b.(items := b.items + plan[0].items);
    CallsQueued(b.items, plan, n);
    if n > 1 {
      assert Succeeding(plan[1..], n - 1);
      FullBatchFlushed(c, env, plan[1..], size, pending + 1, rows);
      assert plan[1..][n - 1..] == plan[n..];
    } else {
      NothingMore(c.items, plan);
    }
  }

  /** When the calls end or fail before the batch is full: what they queued is flushed once, or dropped. */
  lemma {:induction false} LastBatch(b: Batch, env: Env, plan: seq<Queued>, size: nat, pending: nat, rows: int, n: nat)
    requires pending + n < size && Succeeding(plan, n) && (n < |plan| ==> plan[n].failed)
    ensures BatchLoop(b, env, plan, size, pending, rows)
         == if n < |plan| then (Batch([], b.log), rows, false)
            else if pending + n == 0 then (b, rows, true)
            else FlushInto(Batch(b.items + AllItems(plan), b.log), env, rows)
    decreases n
  {
    hide FlushInto;
    if n > 0 {
      assert Succeeding(plan[1..], n - 1);
      LastBatch(b.(items := b.items + plan[0].items), env, plan[1..], size, pending + 1, rows, n - 1);
      assert b.items + plan[0].items + AllItems(plan[1..]) == b.items + (plan[0].items + AllItems(plan[1..]));
    } else {
      assert plan == [] ==> b.items + AllItems(plan) == b.items;
    }
  }

  lemma CallsQueued(items: seq<Item>, plan: seq<Queued>, n: nat)
    requires 0 < n <= |plan|
    ensures items + AllItems(plan[..n]) == items + plan[0].items + AllItems(plan[1..][..n - 1])
  {
    assert plan[..n][1..] == plan[1..][..n - 1];
    assert items + (plan[0].items + AllItems(plan[1..][..n - 1]))
        == items + plan[0].items + AllItems(plan[1..][..n - 1]);
  }

  lemma NothingMore(items: seq<Item>, plan: seq<Queued>)
    requires plan != []
    ensures items + AllItems(plan[1..][..0]) == items
  {
    assert plan[1..][..0] == [];
  }
}
