/**
 The generated statements of base_mapper.go and the rows they touch. A table is a map of rows under their primary keys;
 a statement is its parsed form: assignments, and a WHERE of conditions joined by OR and, more tightly, by AND.
 */
module Mapper {
  import opened Prelude

  // ---- values, rows and columns ----

  datatype Value = Null | Num(n: int) | Txt(s: string)

  type Row = map<string, Value>

  type Table = map<Value, Row>

  datatype Strategy = Default | Always | NotNull | NotEmpty | NotZero | Never

  datatype ColumnMeta = ColumnMeta(
    fieldName: string, columnName: string, primaryKey: bool, version: bool, softDelete: bool, createdAt: bool,
    updateStrategy: Strategy, updateExpression: Option<(Row, Value) -> Value>)

  /** The value of a column, null when the row has none. */
  function Get(row: Row, column: string): Value {
    if column in row then row[column] else Null
  }

  function EffectiveStrategy(column: Strategy, global: Strategy): Strategy {
    if column != Default then column else if global != Default then global else Always
  }

  predicate Included(v: Value, s: Strategy) {
    match s
    case Never => false
    case NotNull => v != Null
    case NotEmpty => v != Null && v != Txt("")
    case NotZero => v != Null && v != Num(0) && v != Txt("")
    case _ => true
  }

  // ---- statements ----

  datatype Expression = Param(value: Value) | Custom(f: (Row, Value) -> Value, value: Value) | Increment

  datatype Assignment = Assignment(column: string, expression: Expression)

  datatype Condition = Equals(column: string, value: Value) | Test(holds: Row -> bool)

  /** Conjunctions joined by OR, as the text reads; no conjunction at all is no WHERE. */
  type Where = seq<seq<Condition>>

  datatype Statement =
    | UpdateSet(sets: seq<Assignment>, filter: Where)
    | DeleteFrom(filter: Where)
    | SelectRows(filter: Where)
    | SelectOne(filter: Where)
    | CountRows(filter: Where)
    | InsertRow(row: Row)

  /** What a call gives; `Missing` and `TooMany` are the errors of a query for one row. */
  datatype Outcome = Rows(rows: Table) | Missing | TooMany | Counted(total: nat) | Affected(count: nat) | Failed

  function Eval(e: Expression, column: string, row: Row): Value {
    match e
    case Param(v) => v
    case Custom(f, v) => f(row, v)
    case Increment => (match Get(row, column) case Num(n) => Num(n + 1) case other => other)
  }

  /** All right-hand sides are evaluated on the row as it was. */
  function Assign(sets: seq<Assignment>, row: Row, old_: Row): Row {
    if |sets| == 0 then row
    else Assign(sets[1..], row[sets[0].column := Eval(sets[0].expression, sets[0].column, old_)], old_)
  }

  /** A row has a value in a column; nothing equals null. */
  predicate Is(row: Row, column: string, value: Value) {
    Get(row, column) == value && value != Null
  }

  predicate Holds(c: Condition, row: Row) {
    match c
    case Equals(column, value) => Is(row, column, value)
    case Test(holds) => holds(row)
  }

  predicate HoldAll(cs: seq<Condition>, row: Row) {
    forall i :: 0 <= i < |cs| ==> Holds(cs[i], row)
  }

  predicate Matches(filter: Where, row: Row) {
    |filter| == 0 || exists i :: 0 <= i < |filter| && HoldAll(filter[i], row)
  }

  function Matching(t: Table, filter: Where): Table {
    map id | id in t && Matches(filter, t[id]) :: t[id]
  }

  /** What the database does with a statement. */
  function Execute(t: Table, s: Statement, primary: string): (Table, Outcome) {
    match s
    case UpdateSet(sets, filter) =>
      (map id | id in t :: if Matches(filter, t[id]) then Assign(sets, t[id], t[id]) else t[id],
       Affected(|Matching(t, filter)|))
    case DeleteFrom(filter) => (t - Matching(t, filter).Keys, Affected(|Matching(t, filter)|))
    case SelectRows(filter) => (t, Rows(Matching(t, filter)))
    case SelectOne(filter) =>
      var found := Matching(t, filter);
      (t, if |found| == 0 then Missing else if |found| == 1 then Rows(found) else TooMany)
    case CountRows(filter) => (t, Counted(|Matching(t, filter)|))
    case InsertRow(row) =>
      var id := Get(row, primary);
      if id == Null || id in t then (t, Failed) else (t[id := row], Affected(1))
  }

  // ---- what the mapper generates ----

  datatype Config = Config(
    columns: seq<ColumnMeta>, primary: ColumnMeta, softDelete: Option<ColumnMeta>, version: Option<ColumnMeta>,
    updateStrategy: Strategy, live: Value, deleted: Value)

  type Entity = map<string, Value>

  predicate Skipped(c: ColumnMeta) {
    c.primaryKey || c.version || c.softDelete || c.createdAt
  }

  function AssignmentOf(c: ColumnMeta, v: Value): Assignment {
    Assignment(c.columnName, match c.updateExpression case None => Param(v) case Some(f) => Custom(f, v))
  }

  /** The columns an update sets, unless the entity has no such field. */
  function SetColumns(columns: seq<ColumnMeta>, entity: Entity, global: Strategy): Option<seq<Assignment>> {
    if columns == [] then Some([])
    else
      var c := columns[0];
      if Skipped(c) then SetColumns(columns[1..], entity, global)
      else if c.fieldName !in entity then None
      else
        var rest := SetColumns(columns[1..], entity, global);
        if rest.None? || !Included(entity[c.fieldName], EffectiveStrategy(c.updateStrategy, global)) then rest
        else Some([AssignmentOf(c, entity[c.fieldName])] + rest.value)
  }

  /** With the version counted up, and at least one assignment. */
  function UpdateSets(m: Config, entity: Entity, increment: bool): Option<seq<Assignment>> {
    match SetColumns(m.columns, entity, m.updateStrategy)
    case None => None
    case Some(sets) =>
      var all := if increment && m.version.Some? then sets + [Assignment(m.version.value.columnName, Increment)]
                 else sets;
      if |all| == 0 then None else Some(all)
  }

  /** A condition joined to the end of a WHERE by AND, as text: it belongs to the last conjunction only. */
  function AndAtEnd(filter: Where, c: Condition): Where {
    if |filter| == 0 then [[c]] else filter[..|filter| - 1] + [filter[|filter| - 1] + [c]]
  }

  function WithLive(m: Config, filter: Where): Where {
    match m.softDelete case None => filter case Some(c) => AndAtEnd(filter, Equals(c.columnName, m.live))
  }

  function ById(m: Config, id: Value): Where {
    WithLive(m, [[Equals(m.primary.columnName, id)]])
  }

  datatype Op =
    | Insert(row: Row)
    | SelectById(id: Value)
    | SelectList(filter: Where)
    | Count(filter: Where)
    | UpdateById(entity: Entity)
    | Update(entity: Entity, filter: Where)
    | DeleteById(id: Value)
    | Delete(filter: Where)

  /** The statement of a call, or none when the call is refused before the database is reached. */
  function Generate(m: Config, op: Op): Option<Statement> {
    match op
    case Insert(row) => Some(InsertRow(row))
    case SelectById(id) => Some(SelectOne(ById(m, id)))
    case SelectList(filter) => Some(SelectRows(WithLive(m, filter)))
    case Count(filter) => Some(CountRows(WithLive(m, filter)))
    case UpdateById(entity) =>
      if m.primary.fieldName !in entity || (m.version.Some? && m.version.value.fieldName !in entity) then None
      else
        (match UpdateSets(m, entity, true)
         case None => None
         case Some(sets) =>
           var pk := [Equals(m.primary.columnName, entity[m.primary.fieldName])];
           var parts := match m.version
                        case None => pk
                        case Some(v) => pk + [Equals(v.columnName, entity[v.fieldName])];
           Some(UpdateSet(sets, WithLive(m, [parts]))))
    case Update(entity, filter) =>
      if |filter| == 0 then None
      else
        (match UpdateSets(m, entity, false)
         case None => None
         case Some(sets) => Some(UpdateSet(sets, WithLive(m, filter))))
    case DeleteById(id) =>
      (match m.softDelete
       case None => Some(DeleteFrom(ById(m, id)))
       case Some(c) => Some(UpdateSet([Assignment(c.columnName, Param(m.deleted))], ById(m, id))))
    case Delete(filter) =>
      if |filter| == 0 then None
      else
        (match m.softDelete
         case None => Some(DeleteFrom(filter))
         case Some(c) => Some(UpdateSet([Assignment(c.columnName, Param(m.deleted))], WithLive(m, filter))))
  }

  function Call(m: Config, t: Table, op: Op): (Table, Outcome) {
    match Generate(m, op) case None => (t, Failed) case Some(s) => Execute(t, s, m.primary.columnName)
  }

  // ---- the mapper ----

  class BaseMapper {
    const config: Config
    var table: Table

    constructor (config: Config, table: Table)
      ensures this.config == config && this.table == table
    {
      this.config := config;
      this.table := table;
    }

    method UpdateSetColumns(entity: Entity, incrementVersion: bool) returns (r: Option<seq<Assignment>>)
      ensures r == UpdateSets(config, entity, incrementVersion)
    {
      var sets := [];
      var i := 0;
      assert config.columns[0..] == config.columns;
      PrefixedNothing(SetColumns(config.columns, entity, config.updateStrategy));
      while i < |config.columns|
        invariant i <= |config.columns|
        invariant SetColumns(config.columns, entity, config.updateStrategy)
               == Prefixed(sets, SetColumns(config.columns[i..], entity, config.updateStrategy))
      {
        var column := config.columns[i];
        assert config.columns[i..][1..] == config.columns[i + 1..];
        i := i + 1;
        if column.primaryKey || column.version || column.softDelete || column.createdAt {
          continue;
        }
        if column.fieldName !in entity {
          return None;
        }
        var value := entity[column.fieldName];
        if !Included(value, EffectiveStrategy(column.updateStrategy, config.updateStrategy)) {
          continue;
        }
        PrefixedMore(sets, AssignmentOf(column, value), SetColumns(config.columns[i..], entity, config.updateStrategy));
        sets := sets + [AssignmentOf(column, value)];
      }
      assert Prefixed(sets, Some([])) == Some(sets) by { assert sets + [] == sets; }
      if incrementVersion && config.version.Some? {
        sets := sets + [Assignment(config.version.value.columnName, Increment)];
      }
      if |sets| == 0 {
        return None;
      }
      return Some(sets);
    }

    /** The statement is sent to the database. */
    method ExecStatement(s: Statement) returns (r: Outcome)
      modifies this
      ensures (table, r) == Execute(old(table), s, config.primary.columnName)
    {
      var (after, outcome) := Execute(table, s, config.primary.columnName);
      table := after;
      return outcome;
    }

    method LiveCondition(filter: Where) returns (r: Where)
      ensures r == WithLive(config, filter)
    {
      if config.softDelete.None? {
        return filter;
      }
      var live := Equals(config.softDelete.value.columnName, config.live);
      if |filter| == 0 {
        return [[live]];
      }
      return filter[..|filter| - 1] + [filter[|filter| - 1] + [live]];
    }

    method SelectById(id: Value) returns (r: Outcome)
      modifies this
      ensures (table, r) == Call(config, old(table), Op.SelectById(id)) && table == old(table)
    {
      var filter := LiveCondition([[Equals(config.primary.columnName, id)]]);
      r := ExecStatement(SelectOne(filter));
    }

    method SelectList(filter: Where) returns (r: Outcome)
      modifies this
      ensures (table, r) == Call(config, old(table), Op.SelectList(filter)) && table == old(table)
    {
      var conditions := LiveCondition(filter);
      r := ExecStatement(SelectRows(conditions));
    }

    method Count(filter: Where) returns (r: Outcome)
      modifies this
      ensures (table, r) == Call(config, old(table), Op.Count(filter)) && table == old(table)
    {
      var conditions := LiveCondition(filter);
      r := ExecStatement(CountRows(conditions));
    }

    method Insert(row: Row) returns (r: Outcome)
      modifies this
      ensures (table, r) == Call(config, old(table), Op.Insert(row))
    {
      r := ExecStatement(InsertRow(row));
    }

    method UpdateById(entity: Entity) returns (r: Outcome)
      modifies this
      ensures (table, r) == Call(config, old(table), Op.UpdateById(entity))
    {
      if config.version.Some? && config.version.value.fieldName !in entity {
        return Failed;
      }
      var sets := UpdateSetColumns(entity, true);
      if sets.None? || config.primary.fieldName !in entity {
        return Failed;
      }
      var whereParts := [Equals(config.primary.columnName, entity[config.primary.fieldName])];
      if config.version.Some? {
        whereParts := whereParts + [Equals(config.version.value.columnName, entity[config.version.value.fieldName])];
      }
      var filter := LiveCondition([whereParts]);
      r := ExecStatement(UpdateSet(sets.value, filter));
    }

    method Update(entity: Entity, filter: Where) returns (r: Outcome)
      modifies this
      ensures (table, r) == Call(config, old(table), Op.Update(entity, filter))
    {
      if |filter| == 0 {
        return Failed;
      }
      var sets := UpdateSetColumns(entity, false);
      if sets.None? {
        return Failed;
      }
      var parts := LiveCondition(filter);
      r := ExecStatement(UpdateSet(sets.value, parts));
    }

    method DeleteById(id: Value) returns (r: Outcome)
      modifies this
      ensures (table, r) == Call(config, old(table), Op.DeleteById(id))
    {
      var filter := LiveCondition([[Equals(config.primary.columnName, id)]]);
      if config.softDelete.Some? {
        r := ExecStatement(UpdateSet([Assignment(config.softDelete.value.columnName, Param(config.deleted))], filter));
        return;
      }
      r := ExecStatement(DeleteFrom(filter));
    }

    method Delete(filter: Where) returns (r: Outcome)
      modifies this
      ensures (table, r) == Call(config, old(table), Op.Delete(filter))
    {
      if |filter| == 0 {
        return Failed;
      }
      if config.softDelete.Some? {
        var parts := LiveCondition(filter);
        r := ExecStatement(UpdateSet([Assignment(config.softDelete.value.columnName, Param(config.deleted))], parts));
        return;
      }
      r := ExecStatement(DeleteFrom(filter));
    }
  }

  function Prefixed(sets: seq<Assignment>, rest: Option<seq<Assignment>>): Option<seq<Assignment>> {
    match rest case None => None case Some(more) => Some(sets + more)
  }

  lemma PrefixedNothing(rest: Option<seq<Assignment>>)
    ensures Prefixed([], rest) == rest
  {
    if rest.Some? { assert [] + rest.value == rest.value; }
  }

  lemma PrefixedMore(sets: seq<Assignment>, a: Assignment, rest: Option<seq<Assignment>>)
    ensures Prefixed(sets, Prefixed([a], rest)) == Prefixed(sets + [a], rest)
  {
    if rest.Some? { assert sets + ([a] + rest.value) == sets + [a] + rest.value; }
  }

  // ---- soft delete ----

  /** Every row is under its own primary key, which is not null. */
  predicate Keyed(m: Config, t: Table) {
    forall id <- t :: Is(t[id], m.primary.columnName, id)
  }

  /** No column of the entity has the name of another one that is managed by the mapper. */
  ghost predicate OwnName(m: Config, name: string) {
    forall i :: 0 <= i < |m.columns| && m.columns[i].columnName == name ==> Skipped(m.columns[i])
  }

  /** A soft-delete column tagged as such, apart from the primary key and the version. */
  ghost predicate SoftDeleting(m: Config) {
    && m.softDelete.Some? && m.live != m.deleted
    && var c := m.softDelete.value.columnName;
       && OwnName(m, c) && OwnName(m, m.primary.columnName) && c != m.primary.columnName
       && (m.version.Some? ==> m.version.value.columnName != c && m.version.value.columnName != m.primary.columnName)
  }

  predicate IsLive(m: Config, row: Row)
    requires m.softDelete.Some?
  {
    Is(row, m.softDelete.value.columnName, m.live)
  }

  function LiveRows(m: Config, t: Table): Table
    requires m.softDelete.Some?
  {
    map id | id in t && IsLive(m, t[id]) :: t[id]
  }

  /** The same mapper on a table with real deletes. */
  function Hard(m: Config): Config {
    m.(softDelete := None)
  }

  /** Inserted rows are live, and wrappers are conjunctions without OR. */
  predicate Plain(m: Config, op: Op)
    requires m.softDelete.Some?
  {
    match op
    case Insert(row) => IsLive(m, row)
    case SelectList(filter) => |filter| <= 1
    case Count(filter) => |filter| <= 1
    case Update(_, filter) => |filter| <= 1
    case Delete(filter) => |filter| <= 1
    case _ => true
  }

  /** The id of a deleted row is not inserted again. */
  predicate NoReuse(m: Config, t: Table, op: Op)
    requires m.softDelete.Some?
  {
    op.Insert? ==> var id := Get(op.row, m.primary.columnName); id in t ==> IsLive(m, t[id])
  }

  /** Sets that leave a column alone. */
  predicate Untouched(sets: seq<Assignment>, column: string) {
    forall i :: 0 <= i < |sets| ==> sets[i].column != column
  }

  lemma {:induction false} AssignKeeps(sets: seq<Assignment>, row: Row, before: Row, column: string)
    requires Untouched(sets, column)
    ensures Get(Assign(sets, row, before), column) == Get(row, column)
    decreases |sets|
  {
    hide Eval;
    if |sets| > 0 {
      AssignKeeps(sets[1..], row[sets[0].column := Eval(sets[0].expression, sets[0].column, before)], before, column);
    }
  }

  lemma {:induction false} SetColumnsSkip(columns: seq<ColumnMeta>, entity: Entity, global: Strategy, name: string)
    requires forall i :: 0 <= i < |columns| && columns[i].columnName == name ==> Skipped(columns[i])
    requires SetColumns(columns, entity, global).Some?
    ensures Untouched(SetColumns(columns, entity, global).value, name)
  {
    if |columns| > 0 { SetColumnsSkip(columns[1..], entity, global, name); }
  }

  lemma UpdateSetsSkip(m: Config, entity: Entity, increment: bool, name: string)
    requires OwnName(m, name) && UpdateSets(m, entity, increment).Some?
    requires increment && m.version.Some? ==> m.version.value.columnName != name
    ensures Untouched(UpdateSets(m, entity, increment).value, name)
  {
    hide SetColumns;
    SetColumnsSkip(m.columns, entity, m.updateStrategy, name);
  }

  /** One conjunction with the live condition at its end picks its live rows. */
  lemma AndLive(m: Config, filter: Where, row: Row)
    requires m.softDelete.Some? && |filter| <= 1
    ensures Matches(WithLive(m, filter), row) <==> Matches(filter, row) && IsLive(m, row)
  {
    var all := WithLive(m, filter);
    var live := Equals(m.softDelete.value.columnName, m.live);
    if |filter| == 1 {
      assert |all| == 1;
      LastHolds(filter[0], live, row);
    } else {
      LastHolds([], live, row);
    }
    assert Matches(all, row) <==> HoldAll(all[0], row);
  }

  lemma LastHolds(cs: seq<Condition>, c: Condition, row: Row)
    ensures HoldAll(cs + [c], row) <==> HoldAll(cs, row) && Holds(c, row)
    ensures HoldAll([c], row) <==> Holds(c, row)
  {
    var all := cs + [c];
    assert all[|cs|] == c && forall i :: 0 <= i < |cs| ==> all[i] == cs[i];
    assert [c][0] == c;
  }

  lemma MatchingLive(m: Config, t: Table, filter: Where)
    requires m.softDelete.Some? && |filter| <= 1
    ensures Matching(t, WithLive(m, filter)) == Matching(LiveRows(m, t), filter)
  {
    hide Matches, WithLive, IsLive;
    forall id | id in t
      ensures Matches(WithLive(m, filter), t[id]) <==> Matches(filter, t[id]) && IsLive(m, t[id])
    {
      AndLive(m, filter, t[id]);
    }
  }

  /** What an update makes of a table. */
  function Updated(t: Table, sets: seq<Assignment>, filter: Where): Table {
    map id | id in t :: if Matches(filter, t[id]) then Assign(sets, t[id], t[id]) else t[id]
  }

  /** An update that leaves the soft-delete column and the key alone. */
  lemma UpdateSimulates(m: Config, t: Table, sets: seq<Assignment>, filter: Where)
    requires SoftDeleting(m) && Keyed(m, t) && |filter| <= 1
    requires Untouched(sets, m.softDelete.value.columnName) && Untouched(sets, m.primary.columnName)
    ensures var u := Updated(t, sets, WithLive(m, filter));
            Updated(LiveRows(m, t), sets, filter) == LiveRows(m, u) && Keyed(m, u) && u.Keys == t.Keys
  {
    hide Matches, WithLive, Assign, Untouched, IsLive;
    var u := Updated(t, sets, WithLive(m, filter));
    forall id | id in t
      ensures Matches(WithLive(m, filter), t[id]) <==> Matches(filter, t[id]) && IsLive(m, t[id])
      ensures IsLive(m, u[id]) == IsLive(m, t[id])
              && Get(u[id], m.primary.columnName) == Get(t[id], m.primary.columnName)
    {
      AndLive(m, filter, t[id]);
      AssignLive(m, sets, t[id]);
      AssignKeeps(sets, t[id], t[id], m.primary.columnName);
    }
    assert Updated(LiveRows(m, t), sets, filter) == LiveRows(m, u);
  }

  lemma AssignLive(m: Config, sets: seq<Assignment>, row: Row)
    requires m.softDelete.Some? && Untouched(sets, m.softDelete.value.columnName)
    ensures IsLive(m, Assign(sets, row, row)) == IsLive(m, row)
  {
    AssignKeeps(sets, row, row, m.softDelete.value.columnName);
  }

  function Marks(m: Config): seq<Assignment>
    requires m.softDelete.Some?
  {
    [Assignment(m.softDelete.value.columnName, Param(m.deleted))]
  }

  /** Marking rows as deleted, against deleting them. */
  lemma DeleteSimulates(m: Config, t: Table, filter: Where)
    requires SoftDeleting(m) && Keyed(m, t) && |filter| <= 1
    ensures var u := Updated(t, Marks(m), WithLive(m, filter)); var l := LiveRows(m, t);
            l - Matching(l, filter).Keys == LiveRows(m, u) && Keyed(m, u) && u.Keys == t.Keys
  {
    hide Matches, WithLive, Assign, Marks, IsLive;
    var u, l := Updated(t, Marks(m), WithLive(m, filter)), LiveRows(m, t);
    forall id | id in t
      ensures Matches(WithLive(m, filter), t[id]) <==> Matches(filter, t[id]) && IsLive(m, t[id])
      ensures var row := Assign(Marks(m), t[id], t[id]);
              !IsLive(m, row) && Get(row, m.primary.columnName) == Get(t[id], m.primary.columnName)
    {
      AndLive(m, filter, t[id]);
      MarkDeleted(m, t[id]);
    }
    assert l - Matching(l, filter).Keys == LiveRows(m, u);
  }

  lemma MarkDeleted(m: Config, row: Row)
    requires SoftDeleting(m)
    ensures var r := Assign(Marks(m), row, row);
            !IsLive(m, r) && Get(r, m.primary.columnName) == Get(row, m.primary.columnName)
  {
    assert Assign(Marks(m), row, row) == row[m.softDelete.value.columnName := m.deleted];
  }

  lemma HardFilter(m: Config, filter: Where)
    ensures WithLive(Hard(m), filter) == filter
  {
  }

  lemma InsertSimulates(m: Config, t: Table, row: Row)
    requires m.softDelete.Some? && Keyed(m, t) && IsLive(m, row) && NoReuse(m, t, Insert(row))
    ensures var (u, r) := Call(m, t, Insert(row));
            && Call(Hard(m), LiveRows(m, t), Insert(row)) == (LiveRows(m, u), r)
            && Keyed(m, u) && t.Keys <= u.Keys
  {
    hide IsLive;
    var (u, r) := Call(m, t, Insert(row));
    assert Call(Hard(m), LiveRows(m, t), Insert(row)).0 == LiveRows(m, u);
  }

  lemma UpdateCallSimulates(m: Config, t: Table, entity: Entity, increment: bool, filter: Where)
    requires SoftDeleting(m) && Keyed(m, t) && |filter| <= 1 && UpdateSets(m, entity, increment).Some?
    ensures var sets := UpdateSets(m, entity, increment).value;
            var (u, r) := Execute(t, UpdateSet(sets, WithLive(m, filter)), m.primary.columnName);
            && UpdateSets(Hard(m), entity, increment) == Some(sets)
            && Execute(LiveRows(m, t), UpdateSet(sets, filter), m.primary.columnName) == (LiveRows(m, u), r)
            && Keyed(m, u) && t.Keys <= u.Keys
  {
    hide Matches, WithLive, Assign, Matching, Untouched, LiveRows, Keyed, SetColumns;
    var sets := UpdateSets(m, entity, increment).value;
    UpdateSetsSkip(m, entity, increment, m.softDelete.value.columnName);
    UpdateSetsSkip(m, entity, increment, m.primary.columnName);
    UpdateSimulates(m, t, sets, filter);
    MatchingLive(m, t, filter);
  }

  lemma DeleteCallSimulates(m: Config, t: Table, filter: Where)
    requires SoftDeleting(m) && Keyed(m, t) && |filter| <= 1
    ensures var (u, r) := Execute(t, UpdateSet(Marks(m), WithLive(m, filter)), m.primary.columnName);
            && Execute(LiveRows(m, t), DeleteFrom(filter), m.primary.columnName) == (LiveRows(m, u), r)
            && Keyed(m, u) && t.Keys <= u.Keys
  {
    hide Matches, WithLive, Assign, Matching, LiveRows, Keyed, Marks;
    DeleteSimulates(m, t, filter);
    MatchingLive(m, t, filter);
  }

  /** One call: the same outcome, and the live rows are those of the table with real deletes. */
  lemma CallSimulates(m: Config, t: Table, op: Op)
    requires SoftDeleting(m) && Keyed(m, t) && Plain(m, op) && NoReuse(m, t, op)
    ensures var (u, r) := Call(m, t, op);
            && Call(Hard(m), LiveRows(m, t), op) == (LiveRows(m, u), r)
            && Keyed(m, u) && t.Keys <= u.Keys
  {
    hide WithLive, Execute, UpdateSets, LiveRows, Keyed;
    match op
    case Insert(row) => InsertSimulates(m, t, row);
    case SelectById(id) => SelectSimulates(m, t, [[Equals(m.primary.columnName, id)]]);
    case SelectList(filter) => SelectSimulates(m, t, filter);
    case Count(filter) => SelectSimulates(m, t, filter);
    case UpdateById(entity) => {
      if Generate(m, op).Some? {
        var pk := [Equals(m.primary.columnName, entity[m.primary.fieldName])];
        var parts := match m.version case None => pk case Some(v) => pk + [Equals(v.columnName, entity[v.fieldName])];
        HardFilter(m, [parts]);
        UpdateCallSimulates(m, t, entity, true, [parts]);
      } else { SetsSame(m, entity, true); }
    }
    case Update(entity, filter) => {
      HardFilter(m, filter);
      if Generate(m, op).Some? {
        UpdateCallSimulates(m, t, entity, false, filter);
      } else {
        SetsSame(m, entity, false);
      }
    }
    case DeleteById(id) => {
      HardFilter(m, [[Equals(m.primary.columnName, id)]]);
      DeleteCallSimulates(m, t, [[Equals(m.primary.columnName, id)]]);
    }
    case Delete(filter) => if |filter| > 0 { DeleteCallSimulates(m, t, filter); }
  }

  lemma SetsSame(m: Config, entity: Entity, increment: bool)
    ensures UpdateSets(Hard(m), entity, increment) == UpdateSets(m, entity, increment)
  {
  }

  lemma SelectSimulates(m: Config, t: Table, filter: Where)
    requires SoftDeleting(m) && |filter| <= 1
    ensures WithLive(Hard(m), filter) == filter
    ensures Execute(t, SelectOne(WithLive(m, filter)), m.primary.columnName).0 == t
    ensures Execute(LiveRows(m, t), SelectOne(filter), m.primary.columnName)
         == (LiveRows(m, t), Execute(t, SelectOne(WithLive(m, filter)), m.primary.columnName).1)
    ensures Execute(t, SelectRows(WithLive(m, filter)), m.primary.columnName).0 == t
    ensures Execute(LiveRows(m, t), SelectRows(filter), m.primary.columnName)
         == (LiveRows(m, t), Execute(t, SelectRows(WithLive(m, filter)), m.primary.columnName).1)
    ensures Execute(t, CountRows(WithLive(m, filter)), m.primary.columnName).0 == t
    ensures Execute(LiveRows(m, t), CountRows(filter), m.primary.columnName)
         == (LiveRows(m, t), Execute(t, CountRows(WithLive(m, filter)), m.primary.columnName).1)
  {
    MatchingLive(m, t, filter);
  }

  // ---- whole runs ----

  /** The table after a run of calls, and their outcomes. */
  function Run(m: Config, t: Table, ops: seq<Op>): (Table, seq<Outcome>)
    decreases |ops|
  {
    if |ops| == 0 then (t, [])
    else
      var (u, r) := Call(m, t, ops[0]);
      var (v, rs) := Run(m, u, ops[1..]);
      (v, [r] + rs)
  }

  /** Inserts are live and reuse no id of a deleted row, and wrappers are conjunctions. */
  predicate Disciplined(m: Config, t: Table, ops: seq<Op>)
    requires m.softDelete.Some?
    decreases |ops|
  {
    |ops| == 0 ||
    (Plain(m, ops[0]) && NoReuse(m, t, ops[0]) && Disciplined(m, Call(m, t, ops[0]).0, ops[1..]))
  }

  /**
   Over every run the mapper with soft deletes gives the results and row counts of one with real deletes, its live rows
   are the rows of that one, and its physical rows never become fewer.
   */
  lemma {:induction false} SoftDeleteSimulatesDelete(m: Config, t: Table, ops: seq<Op>)
    requires SoftDeleting(m) && Keyed(m, t) && Disciplined(m, t, ops)
    ensures var (u, rs) := Run(m, t, ops);
            && Run(Hard(m), LiveRows(m, t), ops) == (LiveRows(m, u), rs)
            && t.Keys <= u.Keys
    decreases |ops|
  {
    if |ops| > 0 {
      hide SoftDeleting, Keyed, Plain, NoReuse, Call, LiveRows;
      CallSimulates(m, t, ops[0]);
      SoftDeleteSimulatesDelete(m, Call(m, t, ops[0]).0, ops[1..]);
    }
  }

  /** Some conjunction other than the last one holds of a row that is not live. */
  predicate LeaksDead(m: Config, t: Table, filter: Where)
    requires m.softDelete.Some?
  {
    exists id :: id in t && !IsLive(m, t[id]) && EarlierHolds(filter, t[id])
  }

  predicate EarlierHolds(filter: Where, row: Row) {
    exists i :: 0 <= i < |filter| - 1 && HoldAll(filter[i], row)
  }

  lemma AndLiveRow(m: Config, filter: Where, row: Row)
    requires m.softDelete.Some? && |filter| > 0
    ensures Matches(WithLive(m, filter), row) <==>
            EarlierHolds(filter, row) || (HoldAll(filter[|filter| - 1], row) && IsLive(m, row))
    ensures Matches(filter, row) <==> EarlierHolds(filter, row) || HoldAll(filter[|filter| - 1], row)
  {
    hide HoldAll, Holds;
    var last, all := |filter| - 1, WithLive(m, filter);
    var live := Equals(m.softDelete.value.columnName, m.live);
    assert all[last] == filter[last] + [live] && forall i :: 0 <= i < last ==> all[i] == filter[i];
    LastHolds(filter[last], live, row);
    LiveHolds(m, row);
    if EarlierHolds(filter, row) {
      var i :| 0 <= i < last && HoldAll(filter[i], row);
      assert HoldAll(all[i], row);
    }
    if HoldAll(filter[last], row) && IsLive(m, row) { assert HoldAll(all[last], row); }
    if Matches(all, row) {
      var i :| 0 <= i < |all| && HoldAll(all[i], row);
      assert i < last ==> HoldAll(filter[i], row);
    }
  }

  lemma LiveHolds(m: Config, row: Row)
    requires m.softDelete.Some?
    ensures Holds(Equals(m.softDelete.value.columnName, m.live), row) <==> IsLive(m, row)
  {
  }

  /**
   With OR at the top of a wrapper the live condition binds to its last part only: the statement picks the live rows
   that the wrapper asks for exactly when no earlier part holds of a dead row.
   */
  lemma WrapperWithOr(m: Config, t: Table, filter: Where)
    requires m.softDelete.Some? && |filter| > 0
    ensures Matching(t, WithLive(m, filter)) == Matching(LiveRows(m, t), filter) <==> !LeaksDead(m, t, filter)
  {
    hide Matches, WithLive, EarlierHolds, IsLive, HoldAll;
    forall id | id in t
      ensures Matches(WithLive(m, filter), t[id]) <==>
              EarlierHolds(filter, t[id]) || (HoldAll(filter[|filter| - 1], t[id]) && IsLive(m, t[id]))
      ensures Matches(filter, t[id]) <==> EarlierHolds(filter, t[id]) || HoldAll(filter[|filter| - 1], t[id])
    {
      AndLiveRow(m, filter, t[id]);
    }
    var a, b := Matching(t, WithLive(m, filter)), Matching(LiveRows(m, t), filter);
    if LeaksDead(m, t, filter) {
      var id :| id in t && !IsLive(m, t[id]) && EarlierHolds(filter, t[id]);
      assert id in a && id !in b;
    } else {
      assert a == b;
    }
  }

  /**
   What a wrapper must be for that to hold on every table: no part but the last one may hold of a row that is not live.
   A wrapper without OR has no such part.
   */
  lemma WrapperExact(m: Config, filter: Where)
    requires m.softDelete.Some? && |filter| > 0
    ensures (forall t :: Keyed(m, t) ==> Matching(t, WithLive(m, filter)) == Matching(LiveRows(m, t), filter))
       <==> forall row :: Get(row, m.primary.columnName) != Null && EarlierHolds(filter, row) ==> IsLive(m, row)
    ensures |filter| == 1 ==> forall row :: !EarlierHolds(filter, row)
  {
    hide WithLive, Matching, LiveRows, Keyed, IsLive;
    if row: Row :| Get(row, m.primary.columnName) != Null && EarlierHolds(filter, row) && !IsLive(m, row) {
      DeadRowPicked(m, filter, row);
    } else {
      forall t | Keyed(m, t)
        ensures Matching(t, WithLive(m, filter)) == Matching(LiveRows(m, t), filter)
      {
        KeyedPresent(m, t);
        WrapperWithOr(m, t, filter);
      }
    }
  }

  lemma KeyedPresent(m: Config, t: Table)
    requires Keyed(m, t)
    ensures forall id <- t :: Get(t[id], m.primary.columnName) != Null
  {
  }

  lemma DeadRowPicked(m: Config, filter: Where, row: Row)
    requires m.softDelete.Some? && |filter| > 0
    requires Get(row, m.primary.columnName) != Null && EarlierHolds(filter, row) && !IsLive(m, row)
    ensures exists t :: Keyed(m, t) && Matching(t, WithLive(m, filter)) != Matching(LiveRows(m, t), filter)
  {
    hide WithLive, Matching, LiveRows, IsLive, EarlierHolds;
    var id := Get(row, m.primary.columnName);
    var t: Table := map[id := row];
    assert t[id] == row && LeaksDead(m, t, filter);
    WrapperWithOr(m, t, filter);
    assert Keyed(m, t);
  }

  /** A mapper with a column `gone` that is 1 in deleted rows. */
  function Example(): Config {
    var id := ColumnMeta("Id", "id", true, false, false, false, Default, None);
    var name := ColumnMeta("Name", "name", false, false, false, false, Default, None);
    var gone := ColumnMeta("Gone", "gone", false, false, true, false, Default, None);
    Config([id, name, gone], id, Some(gone), None, Default, Num(0), Num(1))
  }

  /**
   A list asked for by `name = 'a' OR name = 'b'` has a deleted row, which a table with real deletes does not have.
   */
  lemma DeletedRowListed()
    ensures var filter := [[Equals("name", Txt("a"))], [Equals("name", Txt("b"))]];
            var dead: Row := map["id" := Num(1), "name" := Txt("a"), "gone" := Num(1)];
            var t: Table := map[Num(1) := dead];
            && SoftDeleting(Example()) && Keyed(Example(), t) && LiveRows(Example(), t) == map[]
            && Call(Example(), t, SelectList(filter)) == (t, Rows(t))
            && Call(Hard(Example()), LiveRows(Example(), t), SelectList(filter)).1 == Rows(map[])
  {
    var m, filter := Example(), [[Equals("name", Txt("a"))], [Equals("name", Txt("b"))]];
    var dead: Row := map["id" := Num(1), "name" := Txt("a"), "gone" := Num(1)];
    var t: Table := map[Num(1) := dead];
    assert HoldAll(filter[0], dead) && EarlierHolds(filter, dead);
    AndLiveRow(m, filter, dead);
    assert Matching(t, WithLive(m, filter)) == t;
  }

  // ---- optimistic locking ----

  /** A version column apart from the primary key and the soft-delete column. */
  ghost predicate Locking(m: Config) {
    && m.version.Some?
    && var v := m.version.value.columnName;
       && OwnName(m, v) && OwnName(m, m.primary.columnName) && v != m.primary.columnName
       && (m.softDelete.Some? ==>
             && OwnName(m, m.softDelete.value.columnName)
             && m.softDelete.value.columnName != v
             && m.softDelete.value.columnName != m.primary.columnName)
  }

  function VersionOf(m: Config, row: Row): Value
    requires m.version.Some?
  {
    Get(row, m.version.value.columnName)
  }

  /** Whether a call updates a row, and with which entity. */
  predicate Succeeds(m: Config, t: Table, entity: Entity, id: Value) {
    && m.primary.fieldName in entity && entity[m.primary.fieldName] == id
    && Call(m, t, UpdateById(entity)).1.Affected? && Call(m, t, UpdateById(entity)).1.count > 0
  }

  /** The table after updates by any clients, in the order in which the database runs them. */
  function AfterUpdates(m: Config, t: Table, calls: seq<Entity>): Table
    decreases |calls|
  {
    if |calls| == 0 then t else AfterUpdates(m, Call(m, t, UpdateById(calls[0])).0, calls[1..])
  }

  /** The versions carried by the entities of the successful updates of a row. */
  function Consumed(m: Config, t: Table, calls: seq<Entity>, id: Value): seq<Value>
    decreases |calls|
  {
    if |calls| == 0 then []
    else
      (if Succeeds(m, t, calls[0], id) && m.version.Some? && m.version.value.fieldName in calls[0]
       then [calls[0][m.version.value.fieldName]] else [])
      + Consumed(m, Call(m, t, UpdateById(calls[0])).0, calls[1..], id)
  }

  /** Which rows an update by id matches: the one with its id, when that carries its version and is live. */
  lemma ByIdMatches(m: Config, entity: Entity, row: Row)
    requires m.version.Some? && m.primary.fieldName in entity && m.version.value.fieldName in entity
    ensures var parts := [Equals(m.primary.columnName, entity[m.primary.fieldName])]
                         + [Equals(m.version.value.columnName, entity[m.version.value.fieldName])];
            Matches(WithLive(m, [parts]), row) <==>
            && Is(row, m.primary.columnName, entity[m.primary.fieldName])
            && Is(row, m.version.value.columnName, entity[m.version.value.fieldName])
            && (m.softDelete.Some? ==> IsLive(m, row))
  {
    var pk := [Equals(m.primary.columnName, entity[m.primary.fieldName])];
    var version := Equals(m.version.value.columnName, entity[m.version.value.fieldName]);
    LastHolds(pk, version, row);
    LastHolds([], pk[0], row);
    assert Matches([pk + [version]], row) <==> HoldAll([pk + [version]][0], row);
    if m.softDelete.Some? { AndLive(m, [pk + [version]], row); }
  }

  /** The last assignment of an update by id counts the version up, and no other one sets it or the key. */
  lemma VersionCounted(m: Config, entity: Entity, row: Row)
    requires Locking(m) && UpdateSets(m, entity, true).Some?
    ensures var after := Assign(UpdateSets(m, entity, true).value, row, row);
            && VersionOf(m, after) == Eval(Increment, m.version.value.columnName, row)
            && Get(after, m.primary.columnName) == Get(row, m.primary.columnName)
  {
    hide SetColumns, Assign, Eval;
    var v, sets := m.version.value.columnName, SetColumns(m.columns, entity, m.updateStrategy).value;
    SetColumnsSkip(m.columns, entity, m.updateStrategy, v);
    UpdateSetsSkip(m, entity, true, m.primary.columnName);
    AssignKeeps(UpdateSets(m, entity, true).value, row, row, m.primary.columnName);
    AssignLast(sets, Assignment(v, Increment), row, row);
  }

  lemma {:induction false} AssignLast(sets: seq<Assignment>, last: Assignment, row: Row, before: Row)
    requires Untouched(sets, last.column)
    ensures Get(Assign(sets + [last], row, before), last.column) == Eval(last.expression, last.column, before)
    decreases |sets|
  {
    hide Eval;
    if |sets| == 0 {
      assert sets + [last] == [last] && [last][1..] == [];
    } else {
      assert (sets + [last])[0] == sets[0] && (sets + [last])[1..] == sets[1..] + [last];
      AssignLast(sets[1..], last, row[sets[0].column := Eval(sets[0].expression, sets[0].column, before)], before);
    }
  }

  /** The WHERE of an update by id of a versioned row. */
  function LockFilter(m: Config, entity: Entity): Where
    requires m.version.Some? && m.primary.fieldName in entity && m.version.value.fieldName in entity
  {
    WithLive(m, [[Equals(m.primary.columnName, entity[m.primary.fieldName])]
                 + [Equals(m.version.value.columnName, entity[m.version.value.fieldName])]])
  }

  lemma UpdateByIdIs(m: Config, t: Table, entity: Entity)
    requires m.version.Some?
    ensures var u := Call(m, t, UpdateById(entity));
            if m.primary.fieldName in entity && m.version.value.fieldName in entity && UpdateSets(m, entity, true).Some?
            then u == (Updated(t, UpdateSets(m, entity, true).value, LockFilter(m, entity)),
                       Affected(|Matching(t, LockFilter(m, entity))|))
            else u == (t, Failed)
  {
    hide WithLive, Matching, Matches, Assign, UpdateSets;
  }

  lemma CountPositive(t: Table, filter: Where, id: Value)
    requires id in t
    ensures Matches(filter, t[id]) ==> |Matching(t, filter)| > 0
    ensures |Matching(t, filter)| > 0 ==> exists other :: other in t && Matches(filter, t[other])
  {
    hide Matches;
    var found := Matching(t, filter);
    if Matches(filter, t[id]) { assert id in found.Keys; }
    if |found| > 0 {
      assert found.Keys != {};
      var other :| other in found.Keys;
    }
  }

  /** One update by id: it succeeds with the row's version only, and counts it up by one. */
  lemma UpdateCountsVersion(m: Config, t: Table, entity: Entity, id: Value, n: int)
    requires Locking(m) && Keyed(m, t) && id in t && VersionOf(m, t[id]) == Num(n)
    ensures var u := Call(m, t, UpdateById(entity)).0;
            && Keyed(m, u) && id in u
            && (Succeeds(m, t, entity, id) ==>
                  && m.version.value.fieldName in entity
                  && entity[m.version.value.fieldName] == Num(n)
                  && VersionOf(m, u[id]) == Num(n + 1))
            && (!Succeeds(m, t, entity, id) ==> u[id] == t[id])
  {
    UpdateByIdIs(m, t, entity);
    if m.primary.fieldName in entity && m.version.value.fieldName in entity && UpdateSets(m, entity, true).Some? {
      hide WithLive, Matching, Matches, Assign, UpdateSets, OwnName, LockFilter;
      var filter, sets := LockFilter(m, entity), UpdateSets(m, entity, true).value;
      var u := Updated(t, sets, filter);
      forall other | other in t
        ensures Matches(filter, t[other]) ==> other == entity[m.primary.fieldName] &&
                                              VersionOf(m, t[other]) == entity[m.version.value.fieldName]
        ensures Get(u[other], m.primary.columnName) == other
      {
        if Matches(filter, t[other]) { LockMatches(m, entity, t[other]); }
        VersionCounted(m, entity, t[other]);
      }
      CountPositive(t, filter, id);
      VersionCounted(m, entity, t[id]);
    }
  }

  lemma LockMatches(m: Config, entity: Entity, row: Row)
    requires m.version.Some? && m.primary.fieldName in entity && m.version.value.fieldName in entity
    requires Matches(LockFilter(m, entity), row)
    ensures Get(row, m.primary.columnName) == entity[m.primary.fieldName]
    ensures VersionOf(m, row) == entity[m.version.value.fieldName]
  {
    hide Matches, WithLive;
    ByIdMatches(m, entity, row);
  }

  /**
   For any interleaving of updates by id by any clients, with no other writer: the version of a row is its first one
   plus the number of successes, and the successes consumed the versions in between, each of them once and in order.
   */
  lemma {:induction false} VersionCountsSuccesses(m: Config, t: Table, calls: seq<Entity>, id: Value, n: int)
    requires Locking(m) && Keyed(m, t) && id in t && VersionOf(m, t[id]) == Num(n)
    ensures var u, used := AfterUpdates(m, t, calls), Consumed(m, t, calls, id);
            && id in u && VersionOf(m, u[id]) == Num(n + |used|)
            && forall k :: 0 <= k < |used| ==> used[k] == Num(n + k)
    decreases |calls|
  {
    if |calls| > 0 {
      hide Locking, Keyed, Call, Succeeds, VersionOf;
      UpdateCountsVersion(m, t, calls[0], id, n);
      var u := Call(m, t, UpdateById(calls[0])).0;
      if Succeeds(m, t, calls[0], id) {
        VersionCountsSuccesses(m, u, calls[1..], id, n + 1);
      } else {
        VersionSame(m, t[id], u[id]);
        VersionCountsSuccesses(m, u, calls[1..], id, n);
      }
    }
  }

  lemma VersionSame(m: Config, a: Row, b: Row)
    requires a == b && m.version.Some?
    ensures VersionOf(m, a) == VersionOf(m, b)
  {
  }
}
