/** What the calls of base_mapper.go write, said of the rows that are read afterwards. */
module MapperReads {
  import opened Mapper
  import opened Prelude

  /** No two columns have one name. */
  predicate Distinct(columns: seq<ColumnMeta>) {
    forall i, j :: 0 <= i < j < |columns| ==> columns[i].columnName != columns[j].columnName
  }

  /** Columns of a mapper: distinct, and the version is one of them and tagged as such. */
  ghost predicate GoodColumns(m: Config) {
    && Distinct(m.columns)
    && (m.version.Some? ==> m.version.value in m.columns && m.version.value.version)
  }

  /** The value of a column after an update: of its field, or what an expression makes of it, or the one it had. */
  function Written(m: Config, c: ColumnMeta, entity: Entity, row: Row, increment: bool): Value {
    var before := Get(row, c.columnName);
    if increment && m.version.Some?
      && m.version.value.columnName == c.columnName then (match before case Num(n) => Num(n + 1) case other => other)
    else if !Sets(c, entity, m.updateStrategy) then before
    else match c.updateExpression case None => entity[c.fieldName] case Some(f) => f(row, entity[c.fieldName])
  }

  // ---- what an update writes ----

  /** An update sets columns of the mapper only. */
  lemma {:induction false} SetsNothingElse(columns: seq<ColumnMeta>, entity: Entity, global: Strategy, name: string)
    requires SetColumns(columns, entity, global).Some? && forall c <- columns :: c.columnName != name
    ensures Untouched(SetColumns(columns, entity, global).value, name)
    decreases |columns|
  {
    hide Included, EffectiveStrategy, Skipped;
    if |columns| > 0 { SetsNothingElse(columns[1..], entity, global, name); }
  }

  /** Whether an update sets a column. */
  predicate Sets(c: ColumnMeta, entity: Entity, global: Strategy) {
    !Skipped(c) && c.fieldName in entity && Included(entity[c.fieldName], EffectiveStrategy(c.updateStrategy, global))
  }

  lemma SetsFirst(columns: seq<ColumnMeta>, entity: Entity, global: Strategy, row: Row, before: Row)
    requires columns != [] && SetColumns(columns, entity, global).Some?
    ensures SetColumns(columns[1..], entity, global).Some?
    ensures var c, rest := columns[0], SetColumns(columns[1..], entity, global).value;
            Assign(SetColumns(columns, entity, global).value, row, before)
            == if !Sets(c, entity, global) then Assign(rest, row, before)
               else
                 var expression := AssignmentOf(c, entity[c.fieldName]).expression;
                 Assign(rest, row[c.columnName := Eval(expression, c.columnName, before)], before)
  {
    hide Included, EffectiveStrategy, Skipped, Eval;
    var c, rest := columns[0], SetColumns(columns[1..], entity, global).value;
    if Sets(c, entity, global) {
      var a := AssignmentOf(c, entity[c.fieldName]);
      assert ([a] + rest)[0] == a && ([a] + rest)[1..] == rest;
    }
  }

  /** Each column gets the value of its field, or keeps its own. */
  lemma {:induction false} ColumnSet(columns: seq<ColumnMeta>, entity: Entity, global: Strategy, row: Row, before: Row,
                                     k: nat)
    requires Distinct(columns) && SetColumns(columns, entity, global).Some? && k < |columns|
    ensures var c := columns[k];
            Get(Assign(SetColumns(columns, entity, global).value, row, before), c.columnName)
            == if !Sets(c, entity, global) then Get(row, c.columnName)
               else Eval(AssignmentOf(c, entity[c.fieldName]).expression, c.columnName, before)
    decreases |columns|
  {
    hide Included, EffectiveStrategy, Skipped, SetColumns, Assign, Eval;
    var first, rest := columns[0], columns[1..];
    SetsFirst(columns, entity, global, row, before);
    var next := if Sets(first, entity, global)
                then row[first.columnName := Eval(AssignmentOf(first, entity[first.fieldName]).expression,
                                                  first.columnName, before)]
                else row;
    if k == 0 {
      SetsNothingElse(rest, entity, global, first.columnName);
      AssignKeeps(SetColumns(rest, entity, global).value, next, before, first.columnName);
    } else {
      assert rest[k - 1] == columns[k] && first.columnName != columns[k].columnName;
      ColumnSet(rest, entity, global, next, before, k - 1);
    }
  }

  /**
   A row after an update: each column as its field and strategy say, the version counted up, anything else as before.
   */
  lemma RowWritten(m: Config, entity: Entity, row: Row, increment: bool, k: nat)
    requires GoodColumns(m) && UpdateSets(m, entity, increment).Some? && k < |m.columns|
    ensures var c := m.columns[k];
            Get(Assign(UpdateSets(m, entity, increment).value, row, row), c.columnName)
            == Written(m, c, entity, row, increment)
  {
    hide Assign, SetColumns, Sets, Distinct;
    var c, sets := m.columns[k], SetColumns(m.columns, entity, m.updateStrategy).value;
    ColumnSet(m.columns, entity, m.updateStrategy, row, row, k);
    if increment && m.version.Some? {
      var last := Assignment(m.version.value.columnName, Expression.Increment);
      if c.columnName == last.column {
        VersionUnset(m, entity);
        AssignLast(sets, last, row, row);
      } else {
        AssignBefore(sets, last, row, row, c.columnName);
      }
    }
    if Sets(c, entity, m.updateStrategy) { SetsIs(c, entity, m.updateStrategy, row); }
  }

  lemma VersionUnset(m: Config, entity: Entity)
    requires GoodColumns(m) && m.version.Some? && SetColumns(m.columns, entity, m.updateStrategy).Some?
    ensures Untouched(SetColumns(m.columns, entity, m.updateStrategy).value, m.version.value.columnName)
  {
    var v := m.version.value;
    forall i | 0 <= i < |m.columns| && m.columns[i].columnName == v.columnName
      ensures Skipped(m.columns[i])
    {
      var k :| 0 <= k < |m.columns| && m.columns[k] == v;
      assert i == k;
    }
    hide SetColumns;
    SetColumnsSkip(m.columns, entity, m.updateStrategy, v.columnName);
  }

  /** A further assignment leaves the other columns alone. */
  lemma {:induction false} AssignBefore(sets: seq<Assignment>, last: Assignment, row: Row, before: Row, column: string)
    requires last.column != column
    ensures Get(Assign(sets + [last], row, before), column) == Get(Assign(sets, row, before), column)
    decreases |sets|
  {
    hide Eval;
    if |sets| == 0 {
      assert sets + [last] == [last] && [last][1..] == [];
    } else {
      assert (sets + [last])[0] == sets[0] && (sets + [last])[1..] == sets[1..] + [last];
      AssignBefore(sets[1..], last, row[sets[0].column := Eval(sets[0].expression, sets[0].column, before)], before,
                   column);
    }
  }

  lemma SetsIs(c: ColumnMeta, entity: Entity, global: Strategy, row: Row)
    requires Sets(c, entity, global)
    ensures Eval(AssignmentOf(c, entity[c.fieldName]).expression, c.columnName, row)
         == match c.updateExpression case None => entity[c.fieldName] case Some(f) => f(row, entity[c.fieldName])
  {
  }

  // ---- what is read afterwards ----

  /** The WHERE of an update by id. */
  function UpdateFilter(m: Config, entity: Entity): Where
    requires m.primary.fieldName in entity && (m.version.Some? ==> m.version.value.fieldName in entity)
  {
    var pk := [Equals(m.primary.columnName, entity[m.primary.fieldName])];
    WithLive(m, [match m.version case None => pk case Some(v) => pk + [Equals(v.columnName, entity[v.fieldName])]])
  }

  lemma FilterFinds(m: Config, entity: Entity, row: Row)
    requires m.primary.fieldName in entity && (m.version.Some? ==> m.version.value.fieldName in entity)
    requires Matches(UpdateFilter(m, entity), row)
    ensures Get(row, m.primary.columnName) == entity[m.primary.fieldName]
  {
    var parts := UpdateFilter(m, entity);
    var i :| 0 <= i < |parts| && HoldAll(parts[i], row);
    assert parts[0][0] == Equals(m.primary.columnName, entity[m.primary.fieldName]);
    assert Holds(parts[0][0], row);
  }

  /** The rows a filter finds when it asks for an id: at most the one under it. */
  lemma AtMostOne(m: Config, t: Table, filter: Where, id: Value)
    requires Keyed(m, t) && forall other <- t :: Matches(filter, t[other]) ==> Get(t[other], m.primary.columnName) == id
    ensures Matching(t, filter) == if id in t && Matches(filter, t[id]) then map[id := t[id]] else map[]
  {
    hide Matches;
  }

  /**
   A successful update by id changes the row under the id only: each column gets the value of its field as its strategy
   says, the version is counted up, and every other column is as before.
   */
  lemma UpdateWrites(m: Config, t: Table, entity: Entity)
    requires GoodColumns(m) && Keyed(m, t)
    requires var r := Call(m, t, UpdateById(entity)).1; r.Affected? && r.count > 0
    ensures var (u, r) := Call(m, t, UpdateById(entity));
            && m.primary.fieldName in entity
            && var id := entity[m.primary.fieldName];
               && r.count == 1 && id in t && u.Keys == t.Keys
               && (forall other <- t :: other != id ==> u[other] == t[other])
               && (forall k :: 0 <= k < |m.columns| ==>
                     Get(u[id], m.columns[k].columnName) == Written(m, m.columns[k], entity, t[id], true))
               && (forall name ::
                     (forall c <- m.columns :: c.columnName != name) ==> Get(u[id], name) == Get(t[id], name))
  {
    hide Matches, Assign, UpdateSets, GoodColumns, Written;
    var (u, r) := Call(m, t, UpdateById(entity));
    var id, sets, filter := entity[m.primary.fieldName], UpdateSets(m, entity, true).value, UpdateFilter(m, entity);
    assert u == Updated(t, sets, filter) && r == Affected(|Matching(t, filter)|);
    forall other | other in t && Matches(filter, t[other])
      ensures Get(t[other], m.primary.columnName) == id
    {
      FilterFinds(m, entity, t[other]);
    }
    AtMostOne(m, t, filter, id);
    forall k | 0 <= k < |m.columns|
      ensures Get(Assign(sets, t[id], t[id]), m.columns[k].columnName) == Written(m, m.columns[k], entity, t[id], true)
    {
      RowWritten(m, entity, t[id], true, k);
    }
    forall name | forall c <- m.columns :: c.columnName != name
      ensures Get(Assign(sets, t[id], t[id]), name) == Get(t[id], name)
    {
      NothingElseWritten(m, entity, t[id], name);
    }
  }

  lemma NothingElseWritten(m: Config, entity: Entity, row: Row, name: string)
    requires GoodColumns(m) && UpdateSets(m, entity, true).Some? && forall c <- m.columns :: c.columnName != name
    ensures Get(Assign(UpdateSets(m, entity, true).value, row, row), name) == Get(row, name)
  {
    hide Assign, SetColumns;
    SetsNothingElse(m.columns, entity, m.updateStrategy, name);
    AssignKeeps(UpdateSets(m, entity, true).value, row, row, name);
  }

  lemma {:induction false} FieldThere(columns: seq<ColumnMeta>, entity: Entity, global: Strategy, k: nat)
    requires SetColumns(columns, entity, global).Some? && k < |columns| && !Skipped(columns[k])
    ensures columns[k].fieldName in entity
  {
    hide Included, EffectiveStrategy, Skipped;
    if k > 0 { FieldThere(columns[1..], entity, global, k - 1); }
  }

  /** The strategy of a column, or where it has none of its own the one of the mapper, is the given one. */
  predicate Follows(m: Config, c: ColumnMeta, s: Strategy) {
    c.updateStrategy == s || (c.updateStrategy == Default && m.updateStrategy == s)
  }

  /**
   What the strategies mean, in the row after a successful update by id. A column that is not the key, the version, the
   soft-delete mark or the time of creation has a field in the entity and takes its value, or what its expression makes
   of it: never, always, or unless the value is null, null or empty, null or zero.
   */
  lemma StrategiesMean(m: Config, t: Table, entity: Entity, k: nat)
    requires GoodColumns(m) && Keyed(m, t)
    requires var r := Call(m, t, UpdateById(entity)).1; r.Affected? && r.count > 0
    requires k < |m.columns|
    requires var c := m.columns[k]; !c.primaryKey && !c.version && !c.softDelete && !c.createdAt
    ensures m.primary.fieldName in entity && entity[m.primary.fieldName] in t && m.columns[k].fieldName in entity
    ensures var u, id, c := Call(m, t, UpdateById(entity)).0, entity[m.primary.fieldName], m.columns[k];
            var v, before, after := entity[c.fieldName], Get(t[id], c.columnName), Get(u[id], c.columnName);
            var new_ := match c.updateExpression case None => v case Some(f) => f(t[id], v);
            && (Follows(m, c, Never) ==> after == before)
            && (Follows(m, c, Always) ==> after == new_)
            && (c.updateStrategy == Default && m.updateStrategy == Default ==> after == new_)
            && (Follows(m, c, NotNull) ==> after == if v == Null then before else new_)
            && (Follows(m, c, NotEmpty) ==> after == if v == Null || v == Txt("") then before else new_)
            && (Follows(m, c, NotZero) ==> after == if v == Null || v == Num(0) || v == Txt("") then before else new_)
  {
    hide Call, Assign, SetColumns;
    UpdateWrites(m, t, entity);
    UpdateHasFields(m, t, entity);
    FieldThere(m.columns, entity, m.updateStrategy, k);
    NotTheVersion(m, k);
  }

  lemma UpdateHasFields(m: Config, t: Table, entity: Entity)
    requires Call(m, t, UpdateById(entity)).1.Affected?
    ensures SetColumns(m.columns, entity, m.updateStrategy).Some?
  {
    hide SetColumns, Execute;
  }

  lemma NotTheVersion(m: Config, k: nat)
    requires GoodColumns(m) && k < |m.columns| && (m.version.Some? ==> m.columns[k] != m.version.value)
    ensures m.version.Some? ==> m.columns[k].columnName != m.version.value.columnName
  {
    if m.version.Some? {
      var i :| 0 <= i < |m.columns| && m.columns[i] == m.version.value;
      assert i != k;
    }
  }

  /** The other columns, in the same row: the version counts up, the key, the mark and the time of creation stay. */
  lemma ManagedColumns(m: Config, t: Table, entity: Entity, k: nat)
    requires GoodColumns(m) && Keyed(m, t) && k < |m.columns|
    requires var r := Call(m, t, UpdateById(entity)).1; r.Affected? && r.count > 0
    ensures m.primary.fieldName in entity && entity[m.primary.fieldName] in t
    ensures var u, id, c := Call(m, t, UpdateById(entity)).0, entity[m.primary.fieldName], m.columns[k];
            var before, after := Get(t[id], c.columnName), Get(u[id], c.columnName);
            && (m.version == Some(c) ==> after == if before.Num? then Num(before.n + 1) else before)
            && (m.version != Some(c) && (c.primaryKey || c.softDelete || c.createdAt) ==> after == before)
  {
    hide Call, Assign, SetColumns;
    UpdateWrites(m, t, entity);
    if m.version != Some(m.columns[k]) { NotTheVersion(m, k); }
  }

  predicate Visible(m: Config, t: Table, id: Value) {
    id in t && (m.softDelete.Some? ==> IsLive(m, t[id]))
  }

  /** Selecting by id gives the row under the id, or an error when there is none that is not deleted. */
  lemma SelectReads(m: Config, t: Table, id: Value)
    requires Keyed(m, t)
    ensures Call(m, t, SelectById(id)) == (t, if Visible(m, t, id) then Rows(map[id := t[id]]) else Missing)
  {
    hide Matches, Matching;
    var filter := ById(m, id);
    forall other | other in t
      ensures Matches(filter, t[other]) <==> other == id && (m.softDelete.Some? ==> IsLive(m, t[id]))
    {
      ByIdFinds(m, id, t[other]);
    }
    AtMostOne(m, t, filter, id);
  }

  lemma ByIdFinds(m: Config, id: Value, row: Row)
    ensures Matches(ById(m, id), row) <==> Is(row, m.primary.columnName, id) && (m.softDelete.Some? ==> IsLive(m, row))
  {
    var pk := Equals(m.primary.columnName, id);
    LastHolds([], pk, row);
    assert Matches([[pk]], row) <==> HoldAll([[pk]][0], row);
    if m.softDelete.Some? { AndLive(m, [[pk]], row); }
  }

  /** An inserted row is read back under its id, and no other row is read differently. */
  lemma InsertReadsBack(m: Config, t: Table, row: Row, other: Value)
    requires Keyed(m, t) && (m.softDelete.Some? ==> IsLive(m, row)) && Call(m, t, Insert(row)).1 != Failed
    ensures var u, id := Call(m, t, Insert(row)).0, Get(row, m.primary.columnName);
            && id !in t
            && Call(m, u, SelectById(id)).1 == Rows(map[id := row])
            && (other != id ==> Call(m, u, SelectById(other)).1 == Call(m, t, SelectById(other)).1)
  {
    var u, id := Call(m, t, Insert(row)).0, Get(row, m.primary.columnName);
    hide IsLive;
    SelectReads(m, u, id);
    SelectReads(m, u, other);
    SelectReads(m, t, other);
  }

  lemma DeleteFinds(m: Config, t: Table, id: Value)
    requires Keyed(m, t)
    ensures Matching(t, ById(m, id)) == if Visible(m, t, id) then map[id := t[id]] else map[]
    ensures forall row <- t :: Matches(ById(m, id), t[row]) <==> row == id && Visible(m, t, id)
  {
    hide Matches, IsLive;
    forall row | row in t
      ensures Matches(ById(m, id), t[row]) <==> row == id && (m.softDelete.Some? ==> IsLive(m, t[id]))
    {
      ByIdFinds(m, id, t[row]);
    }
    AtMostOne(m, t, ById(m, id), id);
  }

  /** What a delete must leave: the row invisible and the others alone. */
  ghost predicate Hidden(m: Config, t: Table, u: Table, id: Value) {
    && Keyed(m, u)
    && (forall k :: Visible(m, u, k) <==> Visible(m, t, k) && k != id)
    && (forall k :: Visible(m, u, k) ==> u[k] == t[k])
  }

  /** Deleting by id makes the row invisible and leaves the others alone. */
  lemma DeleteEffect(m: Config, t: Table, id: Value)
    requires Keyed(m, t) && (m.softDelete.Some? ==> SoftDeleting(m))
    ensures var (u, r) := Call(m, t, DeleteById(id));
            Hidden(m, t, u, id) && r == Affected(if Visible(m, t, id) then 1 else 0)
  {
    hide Matches, Visible, Hidden, SoftDeleting, ById, Keyed;
    DeleteFinds(m, t, id);
    if m.softDelete.Some? {
      MarkHides(m, t, id);
    } else {
      RemovalHides(m, t, id);
    }
  }

  lemma MarkHides(m: Config, t: Table, id: Value)
    requires Keyed(m, t) && m.softDelete.Some? && SoftDeleting(m)
    ensures Hidden(m, t, Updated(t, Marks(m), ById(m, id)), id)
  {
    hide Matches, Assign, SoftDeleting, Marks;
    var u := Updated(t, Marks(m), ById(m, id));
    DeleteFinds(m, t, id);
    if id in t { MarkDeleted(m, t[id]); }
    assert forall k <- t :: k != id || !IsLive(m, t[id]) ==> u[k] == t[k];
  }

  lemma RemovalHides(m: Config, t: Table, id: Value)
    requires Keyed(m, t) && m.softDelete.None?
    ensures Hidden(m, t, t - Matching(t, ById(m, id)).Keys, id)
  {
    hide Matches, Matching;
    DeleteFinds(m, t, id);
  }

  /** A deleted row is not read any more; the count says whether there was one; no other row is read differently. */
  lemma DeleteHides(m: Config, t: Table, id: Value, other: Value)
    requires Keyed(m, t) && (m.softDelete.Some? ==> SoftDeleting(m))
    ensures var (u, r) := Call(m, t, DeleteById(id));
            && r == Affected(if Visible(m, t, id) then 1 else 0)
            && Call(m, u, SelectById(id)).1 == Missing
            && (other != id ==> Call(m, u, SelectById(other)).1 == Call(m, t, SelectById(other)).1)
  {
    hide Call, Visible, SoftDeleting;
    DeleteEffect(m, t, id);
    var u := Call(m, t, DeleteById(id)).0;
    SelectReads(m, t, other);
    SelectReads(m, u, id);
    SelectReads(m, u, other);
  }

  // ---- calls that are refused, and lists ----

  /** Nothing is found under null. */
  lemma NothingUnderNull(m: Config, t: Table)
    ensures Call(m, t, SelectById(Null)) == (t, Missing)
    ensures Call(m, t, DeleteById(Null)).1 == Affected(0)
  {
    hide Matches;
    forall id | id in t
      ensures !Matches(ById(m, Null), t[id])
    {
      ByIdFinds(m, Null, t[id]);
    }
    assert Matching(t, ById(m, Null)) == map[];
  }

  /** A list is of the rows that meet the wrapper and are not deleted, and a count is how many they are. */
  lemma ListReads(m: Config, t: Table, filter: Where)
    requires |filter| <= 1
    ensures var rows := map id | id in t && Matches(filter, t[id]) && (m.softDelete.Some? ==> IsLive(m, t[id]))
                        :: t[id];
            && Call(m, t, SelectList(filter)) == (t, Rows(rows))
            && Call(m, t, Count(filter)) == (t, Counted(|rows|))
  {
    hide Matches, IsLive;
    var rows := map id | id in t && Matches(filter, t[id]) && (m.softDelete.Some? ==> IsLive(m, t[id])) :: t[id];
    if m.softDelete.Some? {
      forall id | id in t
        ensures Matches(WithLive(m, filter), t[id]) <==> Matches(filter, t[id]) && IsLive(m, t[id])
      {
        AndLive(m, filter, t[id]);
      }
    }
    assert Matching(t, WithLive(m, filter)) == rows;
  }

  /** A column whose field the entity lacks, of those an update looks at. */
  predicate FieldMissing(m: Config, entity: Entity, k: nat)
    requires k < |m.columns|
  {
    var c := m.columns[k];
    !c.primaryKey && !c.version && !c.softDelete && !c.createdAt && c.fieldName !in entity
  }

  /** A column that an update sets, by its strategy. */
  predicate Settable(m: Config, entity: Entity, k: nat)
    requires k < |m.columns|
  {
    var c := m.columns[k];
    && !c.primaryKey && !c.version && !c.softDelete && !c.createdAt && c.fieldName in entity
    && var v := entity[c.fieldName];
       && !Follows(m, c, Never)
       && !(Follows(m, c, NotNull) && v == Null)
       && !(Follows(m, c, NotEmpty) && (v == Null || v == Txt("")))
       && !(Follows(m, c, NotZero) && (v == Null || v == Num(0) || v == Txt("")))
  }

  /** What an update sets: nothing when a field is missing, and not nothing when a column is settable. */
  lemma {:induction false} SetColumnsIs(m: Config, entity: Entity, n: nat)
    requires n <= |m.columns|
    ensures var sets := SetColumns(m.columns[n..], entity, m.updateStrategy);
            && (sets.None? <==> exists k :: n <= k < |m.columns| && FieldMissing(m, entity, k))
            && (sets.Some? ==> (sets.value != [] <==> exists k :: n <= k < |m.columns| && Settable(m, entity, k)))
    decreases |m.columns| - n
  {
    hide FieldMissing, Settable, SetColumns;
    SetColumnsStep(m, entity, n);
    if n < |m.columns| {
      SetColumnsIs(m, entity, n + 1);
      assert (exists k :: n <= k < |m.columns| && FieldMissing(m, entity, k))
        <==> FieldMissing(m, entity, n) || exists k :: n + 1 <= k < |m.columns| && FieldMissing(m, entity, k);
      assert (exists k :: n <= k < |m.columns| && Settable(m, entity, k))
        <==> Settable(m, entity, n) || exists k :: n + 1 <= k < |m.columns| && Settable(m, entity, k);
    }
  }

  lemma SetColumnsStep(m: Config, entity: Entity, n: nat)
    requires n <= |m.columns|
    ensures n == |m.columns| ==> SetColumns(m.columns[n..], entity, m.updateStrategy) == Some([])
    ensures n < |m.columns| ==>
              var rest := SetColumns(m.columns[n + 1..], entity, m.updateStrategy);
              var sets := SetColumns(m.columns[n..], entity, m.updateStrategy);
              && (sets.None? <==> FieldMissing(m, entity, n) || rest.None?)
              && (sets.Some? ==> (sets.value != [] <==> Settable(m, entity, n) || rest.value != []))
  {
    if n < |m.columns| { assert m.columns[n..][1..] == m.columns[n + 1..]; }
  }

  /**
   An update is refused exactly when it has nothing to set, or the entity lacks a field, or an update by wrapper has an
   empty one; a delete by wrapper exactly when that is empty.
   */
  lemma RefusedExactly(m: Config, t: Table, entity: Entity, filter: Where)
    ensures var missing := exists k :: 0 <= k < |m.columns| && FieldMissing(m, entity, k);
            var some := exists k :: 0 <= k < |m.columns| && Settable(m, entity, k);
            && (Call(m, t, Update(entity, filter)).1 == Failed <==> filter == [] || missing || !some)
            && (Call(m, t, UpdateById(entity)).1 == Failed <==>
                  || m.primary.fieldName !in entity || missing || (!some && m.version.None?)
                  || (m.version.Some? && m.version.value.fieldName !in entity))
            && (Call(m, t, Delete(filter)).1 == Failed <==> filter == [])
  {
    hide FieldMissing, Settable, SetColumns, Matching, Assign;
    assert m.columns[0..] == m.columns;
    SetColumnsIs(m, entity, 0);
  }
}
