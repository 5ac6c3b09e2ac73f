/**
 `applyOptimisticLock` of entity_interceptor.go: the version is counted up among the SET items and compared in the WHERE
 part.
 */
module SqlLock {
  import opened Numbers
  import opened Prelude
  import opened SqlLexer
  import opened SqlScan
  import opened SqlPredicate
  import opened SqlRewrite
  import opened SqlColumns
  import opened SqlLockText
  import opened SqlMiddle
  import opened SqlNames
  import opened SqlOrder
  import opened SqlPath
  import opened SqlQuote
  import opened SqlUpdate
  import Text

  // ---- a fresh argument ----

  lemma ArgNamesDiffer(prefix: string, i: nat, j: nat)
    requires ArgName(prefix, i) == ArgName(prefix, j)
    ensures i == j
  {
    hide Digits;
    assert i > 0 ==> |ArgName(prefix, i)| > |prefix|;
    assert j > 0 ==> |ArgName(prefix, j)| > |prefix|;
    if i > 0 && j > 0 {
      var n := |prefix| + 1;
      assert ArgName(prefix, i)[n..] == Digits(i) && ArgName(prefix, j)[n..] == Digits(j);
      DigitsBack(i);
      DigitsBack(j);
    }
  }

  /** So many names in a set are at most as many as it has. */
  lemma {:induction false} NamesCount(args: set<string>, prefix: string, n: nat)
    requires forall i: nat :: i < n ==> ArgName(prefix, i) in args
    ensures n <= |args|
    decreases n
  {
    hide ArgName;
    if n > 0 {
      var last := ArgName(prefix, n - 1);
      forall i: nat | i < n - 1
        ensures ArgName(prefix, i) in args - {last}
      {
        if ArgName(prefix, i) == last { ArgNamesDiffer(prefix, i, n - 1); }
      }
      NamesCount(args - {last}, prefix, n - 1);
    }
  }

  /** The first of the names that is not taken; there always is one. */
  method NextSqlArgName<V>(args: map<string, V>, prefix: string) returns (name: string, ghost k: nat)
    ensures name == ArgName(prefix, k) && name !in args
    ensures name == if k == 0 then prefix else prefix + "_" + Itoa(k)
    ensures forall i: nat :: i < k ==> ArgName(prefix, i) in args
  {
    if prefix !in args {
      return prefix, 0;
    }
    var index := 1;
    while true
      invariant index >= 1 && forall i: nat :: i < index ==> ArgName(prefix, i) in args
      decreases |args| + 1 - index
    {
      name := prefix + "_" + Itoa(index);
      if name !in args {
        return name, index;
      }
      assert name == ArgName(prefix, index);
      NamesCount(args.Keys, prefix, index + 1);
      assert |args.Keys| == |args|;
      index := index + 1;
    }
  }

  // ---- is the column there already ----

  /** The column occurs in the SET part: from SET to the WHERE after it or the end. */
  predicate SetContains(query: string, column: string) {
    && HasSet(Lex(query, 0)) && AfterSetText(query) <= WhereText(query)
    && ContainsColumn(query[AfterSetText(query)..WhereText(query)], column)
  }

  /** The text after the first WHERE. */
  function AfterWhere(query: string): Option<string> {
    var ls := Lex(query, 0);
    var k := Seek(ls, 0, Keyword("where"));
    if k == |ls| then None
    else
      WidthNext(query, k);
      Some(query[Width(ls[..k + 1])..])
  }

  /** The column occurs in the WHERE part, up to the trailing clauses. */
  predicate WhereContains(query: string, column: string) {
    match AfterWhere(query) case None => false case Some(text) => ContainsColumn(HeadText(text), column)
  }

  lemma SetOrder(query: string)
    ensures AfterSetText(query) <= WhereText(query)
  {
    hide Cut, Lex, AfterSetText;
  }

  /** Where a keyword is, or -1. */
  lemma PlaceSign(query: string, keyword: string)
    ensures var ls := Lex(query, 0); var k := Seek(ls, 0, Keyword(keyword));
            Position(ls, k) == if k == |ls| then -1 else Width(ls[..k])
  {
    hide Cut, Lex, Seek, Width;
  }

  method SqlSetContainsColumn(query: string, column: string) returns (found: bool)
    ensures found == SetContains(query, column)
  {
    hide Cut, Lex, Seek, Width, Position, HasSet, WhereText, AfterSetText, ContainsColumn;
    var setIndex := FindSqlKeyword(query, "set");
    TrimWord("set");
    PositionSign(query);
    if setIndex < 0 {
      return false;
    }
    SetPosition(query);
    WherePosition(query);
    SetOrder(query);
    var start := setIndex + |"set"|;
    var end := |query|;
    var whereRelative := FindSqlKeyword(query[start..], "where");
    TrimWord("where");
    PlaceSign(query[start..], "where");
    if whereRelative >= 0 {
      end := start + whereRelative;
    }
    found := ContainsSqlColumn(query[start..end], column);
  }

  lemma WhereEnd(query: string)
    ensures var ls := Lex(query, 0); var k := Seek(ls, 0, Keyword("where"));
            if k == |ls| then Position(ls, k) == -1
            else Position(ls, k) >= 0 && Position(ls, k) + 5 == Width(ls[..k + 1]) <= |query|
  {
    hide Cut;
    var ls := Lex(query, 0);
    var k := Seek(ls, 0, Keyword("where"));
    if k < |ls| {
      WidthNext(query, k);
      SeekHit(ls, 0, Keyword("where"));
      SameWord(ls[k], "where");
    }
  }

  method SqlWhereContainsColumn(query: string, column: string) returns (found: bool)
    ensures found == WhereContains(query, column)
  {
    hide Cut, Lex, Seek, Width, HeadText, ContainsColumn;
    var whereIndex := FindSqlKeyword(query, "where");
    TrimWord("where");
    WhereEnd(query);
    if whereIndex < 0 {
      return false;
    }
    var where, _ := SplitSqlConditionTail(query[whereIndex + |"where"|..]);
    found := ContainsSqlColumn(where, column);
  }

  // ---- the text ----

  /** The query with the assignment and the condition, each unless the column is there already. */
  function LockedText(query: string, column: string, quoted: string, name: string): Result<string, AssignError> {
    var middle := if SetContains(query, column) then Ok(query) else AssignedText(query, Increment(quoted));
    if middle.Err? || WhereContains(query, column) then middle
    else Ok(SplicedText(middle.value, Comparison(quoted, name)))
  }

  datatype LockError = BadIdentifier | Rewrite(error: AssignError)

  class StatementRuntime<V> {
    var sql: string
    var args: map<string, V>
    const dialect: Dialect

    constructor (sql: string, args: map<string, V>, dialect: Dialect)
      ensures this.sql == sql && this.args == args && this.dialect == dialect
    {
      this.sql := sql;
      this.args := args;
      this.dialect := dialect;
    }

    /**
     The statement with the lock, and the old version under a name that no other argument has; unchanged without a
     version among the arguments and on an error.
     */
    method ApplyOptimisticLock(column: string, version: Option<V>) returns (error: Option<LockError>, ghost k: nat)
      modifies this
      ensures version.None? ==> error == None && sql == old(sql) && args == old(args)
      ensures version.Some? && NamesOf(column).None? ==>
                error == Some(BadIdentifier) && sql == old(sql) && args == old(args)
      ensures version.Some? && NamesOf(column).Some? ==>
                var quoted, name := PathText(dialect, NamesOf(column).value), ArgName(VERSION_ARG, k);
                && (!WhereContains(old(sql), column) && error.None? ==> name !in old(args))
                && match LockedText(old(sql), column, quoted, name)
                   case Err(e) => error == Some(Rewrite(e)) && sql == old(sql) && args == old(args)
                   case Ok(text) => error == None && sql == text &&
                                    args == if WhereContains(old(sql), column) then old(args)
                                            else old(args)[name := version.value]
    {
      hide AssignedText, SplicedText, SetContains, WhereContains, NamesOf, PathText;
      k := 0;
      if version.None? {
        return None, k;
      }
      var path := QuoteIdentifierPath(dialect, column);
      if path.None? {
        return Some(BadIdentifier), k;
      }
      var quoted := path.value;
      var originalSql := sql;
      var inSet := SqlSetContainsColumn(originalSql, column);
      if !inSet {
        var rewritten := AppendUpdateAssignment(sql, quoted + " = " + quoted + " + 1");
        if rewritten.Err? {
          return Some(Rewrite(rewritten.error)), k;
        }
        sql := rewritten.value;
      }
      var inWhere := SqlWhereContainsColumn(originalSql, column);
      if !inWhere {
        var versionArg;
        versionArg, k := NextSqlArgName(args, VERSION_ARG);
        args := args[versionArg := version.value];
        sql := AppendSqlCondition(sql, quoted + " = #{" + versionArg + "}");
      }
      return None, k;
    }
  }

  // ---- the statement ----

  /** A column name that can be quoted. */
  predicate Column(column: string) {
    NamesOf(column).Some?
  }

  function QuotedColumn(d: Dialect, column: string): string
    requires Column(column)
  {
    PathText(d, NamesOf(column).value)
  }

  /** What the lock needs of an UPDATE: its order, and no comment right before the WHERE or at the end of the body. */
  predicate Lockable(query: string) {
    UpdateText(query) && InOrder(Tokens(query)) && BodyEnds(query)
  }

  /** What the lock writes, as it is read. */
  lemma LockParts(d: Dialect, column: string, name: string)
    requires Column(column) && SafeName(name)
    ensures var a, c := Increment(QuotedColumn(d, column)), Comparison(QuotedColumn(d, column), name);
            && PlainEnd(a) && Assignment(Tokens(a))
            && Joinable(c) && Text.TrimSpace(c) == c && Condition(Tokens(c)) && NoTopLevelOr(Tokens(c))
  {
    hide Lex, PathText, Assignment, NoTopLevelOr, Text.TrimSpace, Sig, NamesOf, Comparison, PlainEnd;
    var names := NamesOf(column).value;
    IncrementReads(d, names);
    ComparisonReads(d, names, name);
    JoinableCondition(Comparison(PathText(d, names), name));
    PathChars(d, names);
    IncrementEnd(PathText(d, names));
  }

  lemma IncrementEnd(p: string)
    requires '\U{000B}' !in p && AllClosed(Lex(Increment(p), 0))
    ensures PlainEnd(Increment(p))
  {
    hide Lex;
  }

  lemma JoinableCondition(c: string)
    requires Joinable(c)
    ensures Condition(Tokens(Text.TrimSpace(c)))
  {
  }

  /**
   What the lock writes is found again by the search, in every dialect, exactly for a column name with a character that
   counts. A column without one is found nowhere.
   */
  lemma LockIsFound(d: Dialect, column: string, name: string)
    requires Column(column) && SafeName(name)
    ensures ContainsColumn(Increment(QuotedColumn(d, column)), column) <==> KeyOf(column) != ""
    ensures ContainsColumn(Comparison(QuotedColumn(d, column), name), column) <==> KeyOf(column) != ""
    ensures KeyOf(column) == "" ==> forall text :: !SetContains(text, column) && !WhereContains(text, column)
  {
    hide Lex, PathText, PathLexemes, Increment, Comparison, NamesOf, KeyOf, ContainsFrom, Finds, SafeName, NoDotNext,
         SetContains, WhereContains, Tidy, Skippable;
    var names := NamesOf(column).value;
    LastName(column);
    WrittenFound(d, names, name);
    forall text: string | KeyOf(column) == ""
      ensures !SetContains(text, column) && !WhereContains(text, column)
    {
      NothingToFind(text, column);
    }
  }

  lemma NothingToFind(text: string, column: string)
    requires KeyOf(column) == ""
    ensures !SetContains(text, column) && !WhereContains(text, column)
  {
    hide Lex, KeyOf, ContainsFrom, AfterWhere, HeadText, HasSet, AfterSetText, WhereText;
  }

  /**
   The locked UPDATE, read from its text: table and trailing clauses stay; the SET items get the increment and the
   predicate the comparison, each unless the column was there already; and it can be rewritten again.
   */
  lemma LockedStatement(query: string, d: Dialect, column: string, k: nat)
    requires Lockable(query) && Column(column)
    ensures LockedText(query, column, QuotedColumn(d, column), ArgName(VERSION_ARG, k)).Ok?
    ensures var quoted, name := QuotedColumn(d, column), ArgName(VERSION_ARG, k);
            var ts, us := Tokens(query), Tokens(LockedText(query, column, quoted, name).value);
            && InOrder(us)
            && ReadUpdate(us).head == ReadUpdate(ts).head
            && ReadUpdate(us).items
               == ReadUpdate(ts).items + (if SetContains(query, column) then []
                                          else [Tokens(quoted + " = " + quoted + " + 1")])
            && Parse(us).where == (if WhereContains(query, column) then Parse(ts).where
                                   else Some(Conjoin(Parse(ts).where, Tokens(quoted + " = #{" + name + "}"))))
            && Parse(us).tail == Parse(ts).tail
  {
    hide Lex, Sig, Tokens, UpdateText, InOrder, Assignment, Joinable, Parse, ReadUpdate, Conjoin, AssignedText,
         SplicedText, BodyEnds, Text.TrimSpace, Assign, Splice, SetContains, WhereContains,
         QuotedColumn, Column, PlainEnd, Condition, NoTopLevelOr, Middle, Spliceable;
    var name := ArgName(VERSION_ARG, k);
    var a, c := Increment(QuotedColumn(d, column)), Comparison(QuotedColumn(d, column), name);
    var ts := Tokens(query);
    ArgNameSafe(k);
    LockParts(d, column, name);
    PlainClosed(a);
    AssignedTokens(query, a);
    MiddleIs(query, a);
    UpdateTextSet(query);
    QuerySpliceable(query);
    MiddleSpliceable(query, a);
    var inSet, inWhere := SetContains(query, column), WhereContains(query, column);
    var middle := if inSet then query else Middle(query, a);
    if !inSet { AssignInOrder(ts, Tokens(a)); }
    InOneBlock(Tokens(middle));
    if !inWhere {
      SpliceableReadable(middle);
      SplicedTokens(middle, c);
    }
    LockedUpdate(ts, Tokens(a), Tokens(c), inSet, inWhere);
  }

  lemma SpliceableReadable(text: string)
    requires Spliceable(text) && OneBlock(Tokens(text))
    ensures Readable(text)
  {
  }

  // ---- a version column without a counting character ----

  /** A version column named `_` can be quoted, but no lock is ever found in a statement, so each one locks it again. */
  lemma UnderscoreVersion()
    ensures Column("_") && KeyOf("_") == ""
    ensures forall text :: !SetContains(text, "_") && !WhereContains(text, "_")
  {
    hide *;
    UnderscoreKeyOf();
    UnderscoreColumnName();
    forall text: string
      ensures !SetContains(text, "_") && !WhereContains(text, "_")
    {
      NothingToFind(text, "_");
    }
  }

  lemma UnderscoreKeyOf()
    ensures KeyOf("_") == ""
  {
    UnderscoreKey();
    hide NormalizeColumnKey, LastIdentifierPart;
  }

  lemma UnderscoreColumnName()
    ensures Column("_")
  {
    assert ValidIdentifierPart("_");
    hide *;
    OnePart("_");
    ColumnNamed("_");
  }

  lemma ColumnNamed(column: string)
    requires NamesOf(column).Some?
    ensures Column(column)
  {
  }
}
