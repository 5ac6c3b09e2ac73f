/**
 The tenant rewriting of INSERT statements in interceptor.go: one more column, and one more value in every row, proved
 on the columns and rows the rewritten statement reads back as.
 */
module SqlInsert {
  import opened Prelude
  import opened SqlLexer
  import opened SqlScan
  import opened SqlPredicate
  import opened SqlRewrite
  import opened SqlList
  import opened SqlNames
  import opened SqlQuote
  import Text

  // ---- INSERT statements, over lexemes ----

  type Row = seq<seq<Lexeme>>

  /** Up to the opening parenthesis of the columns, the columns, on to VALUES, the rows, and what follows them. */
  datatype Insert = Insert(head: seq<Lexeme>, columns: Row, middle: seq<Lexeme>, rows: seq<Row>, rest: seq<Lexeme>)

  function FirstOpen(ts: seq<Lexeme>): (k: nat)
    ensures k <= |ts| && (k < |ts| ==> ts[k].kind.Open?)
  {
    if ts == [] || ts[0].kind.Open? then 0 else 1 + FirstOpen(ts[1..])
  }

  /** Whether the lexemes start with a complete row in parentheses. */
  predicate StartsRow(ts: seq<Lexeme>) {
    ts != [] && ts[0].kind.Open? && CloseIndex(ts[1..], 1) < |ts| - 1
  }

  predicate StartsComma(ts: seq<Lexeme>) {
    ts != [] && IsComma(ts[0])
  }

  /** Rows in parentheses separated by commas, and what follows the last one. */
  function ReadRows(ts: seq<Lexeme>): Option<(seq<Row>, seq<Lexeme>)>
    decreases |ts|
  {
    if !StartsRow(ts) then None
    else
      var k := CloseIndex(ts[1..], 1);
      var row, after := Items(ts[1..k + 1], 0), ts[k + 2..];
      if !StartsComma(after) then Some(([row], after))
      else
        match ReadRows(after[1..])
        case None => None
        case Some(r) => Some(([row] + r.0, r.1))
  }

  /** Reading on from the closing parenthesis of the columns. */
  function ReadFrom(head: seq<Lexeme>, columns: Row, rest: seq<Lexeme>): Option<Insert>
    requires rest != []
  {
    var v := Seek(rest[1..], 0, Keyword("values"));
    if v == |rest| - 1 then None
    else
      match ReadRows(rest[v + 2..])
      case None => None
      case Some(r) => Some(Insert(head, columns, rest[..v + 2], r.0, r.1))
  }

  function ReadInsert(ts: seq<Lexeme>): Option<Insert> {
    var i := Seek(ts, 0, Keyword("into"));
    if i == |ts| then None
    else
      var o := i + 1 + FirstOpen(ts[i + 1..]);
      if o == |ts| then None
      else
        var k := CloseIndex(ts[o + 1..], 1);
        if k == |ts| - o - 1 then None
        else ReadFrom(ts[..o + 1], Items(ts[o + 1..o + 1 + k], 0), ts[o + 1 + k..])
  }

  /** The first row with one more value before its closing parenthesis. */
  function GrownRow(ts: seq<Lexeme>, x: seq<Lexeme>): seq<Lexeme>
    requires StartsRow(ts)
  {
    var k := CloseIndex(ts[1..], 1);
    ts[..k + 1] + [CommaSign] + x + [ts[k + 1]]
  }

  /** One more value before the closing parenthesis of every row. */
  function AddToRows(ts: seq<Lexeme>, x: seq<Lexeme>): Option<seq<Lexeme>>
    decreases |ts|
  {
    if !StartsRow(ts) then None
    else
      var k := CloseIndex(ts[1..], 1);
      var row, after := GrownRow(ts, x), ts[k + 2..];
      if !StartsComma(after) then Some(row + after)
      else
        match AddToRows(after[1..], x)
        case None => None
        case Some(r) => Some(row + [after[0]] + r)
  }

  /** From the closing parenthesis of the columns on, with the value in every row. */
  function AddFrom(rest: seq<Lexeme>, value: seq<Lexeme>): Option<seq<Lexeme>>
    requires rest != []
  {
    var v := Seek(rest[1..], 0, Keyword("values"));
    if v == |rest| - 1 then None
    else
      match AddToRows(rest[v + 2..], value)
      case None => None
      case Some(r) => Some(rest[..v + 2] + r)
  }

  /** One more column, and one more value in every row. */
  function AddColumn(ts: seq<Lexeme>, column: seq<Lexeme>, value: seq<Lexeme>): Option<seq<Lexeme>> {
    var i := Seek(ts, 0, Keyword("into"));
    if i == |ts| then None
    else
      var o := i + 1 + FirstOpen(ts[i + 1..]);
      if o == |ts| then None
      else
        var k := CloseIndex(ts[o + 1..], 1);
        if k == |ts| - o - 1 then None
        else
          match AddFrom(ts[o + 1 + k..], value)
          case None => None
          case Some(r) => Some(ts[..o + 1] + (ts[o + 1..o + 1 + k] + ([CommaSign] + column + r)))
  }

  /** One list item: no parentheses and no comma, as a placeholder or a quoted name is. */
  predicate Single(x: seq<Lexeme>) {
    Items(x, 0) == [x] && forall l <- x :: !l.kind.Open? && !l.kind.Close?
  }

  // ---- the matching parenthesis ----

  lemma {:induction false} CloseIndexPast(a: seq<Lexeme>, b: seq<Lexeme>, depth: nat)
    requires depth > 0 && CloseIndex(a + b, depth) >= |a|
    ensures DepthOf(a, depth) > 0
    ensures CloseIndex(a + b, depth) == |a| + CloseIndex(b, DepthOf(a, depth))
  {
    if a == [] {
      assert a + b == b;
    } else {
      assert (a + b)[1..] == a[1..] + b;
      CloseIndexPast(a[1..], b, Step(depth, a[0].kind));
    }
  }

  /** The same prefix is passed over whatever follows it. */
  lemma {:induction false} CloseIndexSame(a: seq<Lexeme>, b: seq<Lexeme>, c: seq<Lexeme>, depth: nat)
    requires depth > 0 && CloseIndex(a + b, depth) >= |a|
    ensures CloseIndex(a + c, depth) >= |a|
  {
    if a != [] {
      assert (a + b)[1..] == a[1..] + b && (a + c)[1..] == a[1..] + c;
      CloseIndexSame(a[1..], b, c, Step(depth, a[0].kind));
    }
  }

  lemma {:induction false} ClosePastSingle(x: seq<Lexeme>, b: seq<Lexeme>)
    requires forall l <- x :: !l.kind.Open? && !l.kind.Close?
    ensures CloseIndex(x + b, 1) == |x| + CloseIndex(b, 1)
    ensures DepthOf(x, 0) == 0
  {
    if x == [] {
      assert x + b == b;
    } else {
      assert (x + b)[1..] == x[1..] + b;
      ClosePastSingle(x[1..], b);
    }
  }

  /** The parenthesis that closes a list after one more item was put at its end. */
  lemma CloseAfterAdding(content: seq<Lexeme>, ending: seq<Lexeme>, x: seq<Lexeme>, close: Lexeme,
                         after: seq<Lexeme>)
    requires Single(x) && CloseIndex(content + ending, 1) == |content| && ending != [] && close.kind.Close?
    ensures CloseIndex(content + [CommaSign] + x + [close] + after, 1) == |content| + 1 + |x|
    ensures Items(content + [CommaSign] + x, 0) == Items(content, 0) + [x]
  {
    CloseIndexHit(content + ending, 1);
    assert (content + ending)[..|content|] == content;
    var more := [CommaSign] + x + [close] + after;
    CloseIndexSame(content, ending, more, 1);
    CloseIndexPast(content, more, 1);
    assert content + more == content + [CommaSign] + x + [close] + after;
    assert more[1..] == x + ([close] + after);
    ClosePastSingle(x, [close] + after);
    ItemsConcat(content, x, 0);
  }

  // ---- the rewritten rows and statement ----

  function Extend(rows: seq<Row>, x: seq<Lexeme>): (r: seq<Row>)
    ensures |r| == |rows|
    ensures forall i :: 0 <= i < |rows| ==> r[i] == rows[i] + [x]
  {
    if rows == [] then [] else [rows[0] + [x]] + Extend(rows[1..], x)
  }

  lemma FirstRow(ts: seq<Lexeme>, x: seq<Lexeme>, tail: seq<Lexeme>)
    requires Single(x) && StartsRow(ts)
    ensures var k := CloseIndex(ts[1..], 1); var out := ts[..k + 1] + [CommaSign] + x + [ts[k + 1]] + tail;
            && StartsRow(out) && CloseIndex(out[1..], 1) == k + 1 + |x|
            && out[k + 3 + |x|..] == tail
            && Items(out[1..k + 2 + |x|], 0) == Items(ts[1..k + 1], 0) + [x]
  {
    hide CloseIndex, Items;
    var k := CloseIndex(ts[1..], 1);
    var content, ending := ts[1..k + 1], ts[k + 1..];
    assert ts[1..] == content + ending;
    CloseIndexHit(content + ending, 1);
    assert ending[0] == ts[k + 1];
    CloseAfterAdding(content, ending, x, ts[k + 1], tail);
    var out := ts[..k + 1] + [CommaSign] + x + [ts[k + 1]] + tail;
    assert out[1..] == content + [CommaSign] + x + [ts[k + 1]] + tail;
    assert out[1..k + 2 + |x|] == content + [CommaSign] + x;
    assert out[0] == ts[0];
  }

  /** The rows read after a first row, which is given. */
  function Following(row: Row, after: seq<Lexeme>): Option<(seq<Row>, seq<Lexeme>)> {
    if !StartsComma(after) then Some(([row], after))
    else
      match ReadRows(after[1..])
      case None => None
      case Some(r) => Some(([row] + r.0, r.1))
  }

  lemma ReadExtended(ts: seq<Lexeme>, x: seq<Lexeme>, tail: seq<Lexeme>)
    requires Single(x) && StartsRow(ts)
    ensures ReadRows(GrownRow(ts, x) + tail) == Following(Items(ts[1..CloseIndex(ts[1..], 1) + 1], 0) + [x], tail)
  {
    hide CloseIndex, Items, StartsRow, Single;
    FirstRow(ts, x, tail);
  }

  lemma ExtendFirst(row: Row, rows: seq<Row>, x: seq<Lexeme>)
    ensures Extend([row] + rows, x) == [row + [x]] + Extend(rows, x)
    ensures Extend([row], x) == [row + [x]]
  {
    assert ([row] + rows)[1..] == rows;
    assert [row][1..] == [];
  }

  lemma FollowingComma(row: Row, comma: Lexeme, r: seq<Lexeme>, rows: seq<Row>, tail: seq<Lexeme>)
    requires IsComma(comma) && ReadRows(r) == Some((rows, tail))
    ensures Following(row, [comma] + r) == Some(([row] + rows, tail))
  {
    hide ReadRows;
    assert ([comma] + r)[1..] == r;
  }

  /** A first row that is followed by a comma, given what the rows after the comma become. */
  lemma AddedMore(ts: seq<Lexeme>, x: seq<Lexeme>, comma: Lexeme, r: seq<Lexeme>, rows: seq<Row>, tail: seq<Lexeme>)
    requires Single(x) && StartsRow(ts) && IsComma(comma)
    requires ReadRows(r) == Some((Extend(rows, x), tail))
    ensures var row := Items(ts[1..CloseIndex(ts[1..], 1) + 1], 0);
            ReadRows(GrownRow(ts, x) + [comma] + r) == Some((Extend([row] + rows, x), tail))
  {
    var row := Items(ts[1..CloseIndex(ts[1..], 1) + 1], 0);
    hide CloseIndex, Items, Single, StartsRow, ReadRows, Extend, GrownRow, IsComma, Following;
    ReadExtended(ts, x, [comma] + r);
    ExtendFirst(row, rows, x);
    FollowingComma(row + [x], comma, r, Extend(rows, x), tail);
    assert GrownRow(ts, x) + [comma] + r == GrownRow(ts, x) + ([comma] + r);
  }

  lemma ReadUnfold(ts: seq<Lexeme>)
    requires StartsRow(ts)
    ensures var k := CloseIndex(ts[1..], 1); ReadRows(ts) == Following(Items(ts[1..k + 1], 0), ts[k + 2..])
  {
    hide CloseIndex, Items, StartsComma, StartsRow;
  }

  lemma AddUnfold(ts: seq<Lexeme>, x: seq<Lexeme>)
    requires StartsRow(ts)
    ensures var k := CloseIndex(ts[1..], 1); var after := ts[k + 2..];
            AddToRows(ts, x)
            == (if !StartsComma(after) then Some(GrownRow(ts, x) + after)
                else match AddToRows(after[1..], x)
                  case None => None
                  case Some(r) => Some(GrownRow(ts, x) + [after[0]] + r))
  {
    hide CloseIndex, GrownRow, StartsComma, StartsRow;
  }

  /** Every row gets the value as its last one; what follows the rows stays. */
  lemma {:induction false} AddedRows(ts: seq<Lexeme>, x: seq<Lexeme>)
    requires Single(x)
    ensures AddToRows(ts, x).Some? <==> ReadRows(ts).Some?
    ensures ReadRows(ts).Some? ==>
              ReadRows(AddToRows(ts, x).value) == Some((Extend(ReadRows(ts).value.0, x), ReadRows(ts).value.1))
    decreases |ts|
  {
    if StartsRow(ts) {
      var k := CloseIndex(ts[1..], 1);
      var row, after := Items(ts[1..k + 1], 0), ts[k + 2..];
      hide CloseIndex, Items, Single, ReadRows, AddToRows, Extend, GrownRow;
      ReadUnfold(ts);
      AddUnfold(ts, x);
      if StartsComma(after) {
        AddedRows(after[1..], x);
        if ReadRows(after[1..]).Some? {
          var r, rows := AddToRows(after[1..], x).value, ReadRows(after[1..]).value;
          AddedMore(ts, x, after[0], r, rows.0, rows.1);
        }
      } else {
        ReadExtended(ts, x, after);
        ExtendFirst(row, [], x);
      }
    }
  }

  lemma {:induction false} FirstOpenPast(a: seq<Lexeme>, b: seq<Lexeme>)
    requires FirstOpen(a) < |a|
    ensures FirstOpen(a + b) == FirstOpen(a)
  {
    assert (a + b)[0] == a[0];
    if !a[0].kind.Open? {
      assert (a + b)[1..] == a[1..] + b;
      FirstOpenPast(a[1..], b);
    }
  }

  /** Where the columns are: the index of the opening parenthesis after INTO and of its closing one. */
  predicate ColumnsAt(ts: seq<Lexeme>, o: nat, k: nat) {
    var i := Seek(ts, 0, Keyword("into"));
    && i < |ts|
    && o == i + 1 + FirstOpen(ts[i + 1..]) < |ts|
    && k == CloseIndex(ts[o + 1..], 1) < |ts| - o - 1
  }

  /** INTO and the parenthesis after it are found in a prefix that has them, whatever follows. */
  lemma OpenKept(head: seq<Lexeme>, a: seq<Lexeme>, b: seq<Lexeme>)
    requires var i := Seek(head + a, 0, Keyword("into")); i < |head| && i + 1 + FirstOpen((head + a)[i + 1..]) < |head|
    ensures var i := Seek(head + a, 0, Keyword("into"));
            && Seek(head + b, 0, Keyword("into")) == i
            && FirstOpen((head + b)[i + 1..]) == FirstOpen((head + a)[i + 1..])
  {
    hide Hits, Seek;
    var i := Seek(head + a, 0, Keyword("into"));
    SeekKeywordIn(head, a, 0, "into");
    SeekKeywordIn(head, b, 0, "into");
    var rest := head[i + 1..];
    assert (head + a)[i + 1..] == rest + a && (head + b)[i + 1..] == rest + b;
    FirstOpenIn(rest, a);
    FirstOpenPast(rest, b);
  }

  lemma {:induction false} FirstOpenIn(a: seq<Lexeme>, b: seq<Lexeme>)
    requires FirstOpen(a + b) < |a|
    ensures FirstOpen(a) == FirstOpen(a + b)
  {
    assert (a + b)[0] == a[0];
    if !a[0].kind.Open? {
      assert (a + b)[1..] == a[1..] + b;
      FirstOpenIn(a[1..], b);
    }
  }

  /** The columns start at the same parenthesis whatever comes after it. */
  lemma ColumnsMoved(head: seq<Lexeme>, a: seq<Lexeme>, b: seq<Lexeme>, k: nat, n: nat)
    requires head != [] && ColumnsAt(head + a, |head| - 1, k) && n == CloseIndex(b, 1) < |b|
    ensures ColumnsAt(head + b, |head| - 1, n)
  {
    hide CloseIndex, Hits, Seek, FirstOpen;
    OpenKept(head, a, b);
    Cutting(head, b);
  }

  /** The same columns are found when only what follows their last lexeme differs. */
  lemma ColumnsKept(head: seq<Lexeme>, content: seq<Lexeme>, ending: seq<Lexeme>, x: seq<Lexeme>, tail: seq<Lexeme>)
    requires head != [] && ending != [] && Single(x) && ColumnsAt(head + (content + ending), |head| - 1, |content|)
    ensures ColumnsAt(head + (content + ([CommaSign] + x + [ending[0]] + tail)), |head| - 1, |content| + 1 + |x|)
    ensures Items(content + [CommaSign] + x, 0) == Items(content, 0) + [x]
  {
    hide ColumnsAt, CloseIndex, Items, Single;
    var more := [CommaSign] + x + [ending[0]] + tail;
    ColumnsClose(head, content, ending);
    assert content + more == content + [CommaSign] + x + [ending[0]] + tail;
    CloseAfterAdding(content, ending, x, ending[0], tail);
    ColumnsMoved(head, content + ending, content + more, |content|, |content| + 1 + |x|);
  }

  lemma ColumnsClose(head: seq<Lexeme>, content: seq<Lexeme>, ending: seq<Lexeme>)
    requires head != [] && ending != [] && ColumnsAt(head + (content + ending), |head| - 1, |content|)
    ensures CloseIndex(content + ending, 1) == |content| && ending[0].kind.Close?
  {
    hide CloseIndex, Hits, Seek, FirstOpen;
    Cutting(head, content + ending);
    CloseIndexHit(content + ending, 1);
  }

  lemma ReadFound(ts: seq<Lexeme>, o: nat, k: nat)
    requires ColumnsAt(ts, o, k)
    ensures o + 1 + k < |ts|
    ensures ReadInsert(ts) == ReadFrom(ts[..o + 1], Items(ts[o + 1..o + 1 + k], 0), ts[o + 1 + k..])
  {
    hide CloseIndex, Items, Seek, ReadFrom, FirstOpen;
  }

  lemma ReadAt(head: seq<Lexeme>, content: seq<Lexeme>, rest: seq<Lexeme>)
    requires head != [] && rest != [] && ColumnsAt(head + (content + rest), |head| - 1, |content|)
    ensures ReadInsert(head + (content + rest)) == ReadFrom(head, Items(content, 0), rest)
  {
    hide CloseIndex, Items, Seek, ReadFrom, FirstOpen, ColumnsAt;
    var ts, o, k := head + (content + rest), |head| - 1, |content|;
    ReadFound(ts, o, k);
    assert ts[..o + 1] == head && ts[o + 1..o + 1 + k] == content && ts[o + 1 + k..] == rest;
  }

  lemma AddAt(head: seq<Lexeme>, content: seq<Lexeme>, rest: seq<Lexeme>, column: seq<Lexeme>, value: seq<Lexeme>)
    requires head != [] && rest != [] && ColumnsAt(head + (content + rest), |head| - 1, |content|)
    ensures AddColumn(head + (content + rest), column, value)
         == match AddFrom(rest, value)
            case None => None
            case Some(r) => Some(head + (content + ([CommaSign] + column + r)))
  {
    hide CloseIndex, Items, Seek, AddFrom, FirstOpen;
    var ts, n := head + (content + rest), |head| + |content|;
    assert ts[..|head|] == head && ts[|head|..n] == content && ts[n..] == rest;
  }

  /** The rows after the columns, rewritten. */
  lemma AddedFrom(head: seq<Lexeme>, columns: Row, rest: seq<Lexeme>, value: seq<Lexeme>)
    requires rest != [] && Single(value)
    ensures AddFrom(rest, value).Some? <==> ReadFrom(head, columns, rest).Some?
    ensures ReadFrom(head, columns, rest).Some? ==>
              var before, r := ReadFrom(head, columns, rest).value, AddFrom(rest, value).value;
              && r != [] && r[0] == rest[0]
              && ReadFrom(head, columns, r) == Some(before.(rows := Extend(before.rows, value)))
  {
    hide CloseIndex, Items, Seek, ReadRows, AddToRows, Single;
    var v := Seek(rest[1..], 0, Keyword("values"));
    if v < |rest| - 1 {
      AddedRows(rest[v + 2..], value);
      if ReadRows(rest[v + 2..]).Some? {
        var rows := AddToRows(rest[v + 2..], value).value;
        var r := rest[..v + 2] + rows;
        var front := rest[1..v + 2];
        assert rest[1..] == front + rest[v + 2..] && r[1..] == front + rows;
        SeekKeywordPast(front, rest[v + 2..], rows);
        assert r[v + 2..] == rows && r[..v + 2] == rest[..v + 2];
      }
    }
  }

  /** VALUES is found at the same place whatever rows follow it. */
  lemma SeekKeywordPast(a: seq<Lexeme>, b: seq<Lexeme>, c: seq<Lexeme>)
    requires a != [] && Seek(a + b, 0, Keyword("values")) == |a| - 1
    ensures Seek(a + c, 0, Keyword("values")) == |a| - 1
  {
    SeekKeywordIn(a, b, 0, "values");
    SeekKeywordIn(a, c, 0, "values");
  }

  /** The parts of a statement around its columns. */
  lemma Around(ts: seq<Lexeme>, o: nat, k: nat)
    requires ColumnsAt(ts, o, k)
    ensures o + 1 + k < |ts| && ts == ts[..o + 1] + (ts[o + 1..o + 1 + k] + ts[o + 1 + k..])
  {
  }

  /** No columns, no rewriting. */
  lemma NoColumns(ts: seq<Lexeme>, column: seq<Lexeme>, value: seq<Lexeme>)
    ensures ReadInsert(ts).Some? || AddColumn(ts, column, value).Some? ==> exists o, k :: ColumnsAt(ts, o, k)
  {
    hide CloseIndex, Items, Seek, ReadRows, AddToRows, FirstOpen;
    var i := Seek(ts, 0, Keyword("into"));
    if i < |ts| {
      var o := i + 1 + FirstOpen(ts[i + 1..]);
      if o < |ts| {
        assert CloseIndex(ts[o + 1..], 1) < |ts| - o - 1 ==> ColumnsAt(ts, o, CloseIndex(ts[o + 1..], 1));
      }
    }
  }

  /**
   The rewritten INSERT reads back with the column as the last one and the value as the last one of every row; its
   table, its rows' other values and what follows them stay.
   */
  lemma AddedColumn(ts: seq<Lexeme>, column: seq<Lexeme>, value: seq<Lexeme>)
    requires Single(column) && Single(value)
    ensures AddColumn(ts, column, value).Some? <==> ReadInsert(ts).Some?
    ensures ReadInsert(ts).Some? ==>
              var before := ReadInsert(ts).value;
              ReadInsert(AddColumn(ts, column, value).value)
              == Some(before.(columns := before.columns + [column], rows := Extend(before.rows, value)))
  {
    hide ReadInsert, AddColumn, ColumnsAt, ReadFrom, AddFrom, Single, Items;
    NoColumns(ts, column, value);
    if o, k :| ColumnsAt(ts, o, k) {
      Around(ts, o, k);
      var head, content, rest := ts[..o + 1], ts[o + 1..o + 1 + k], ts[o + 1 + k..];
      ReadAt(head, content, rest);
      AddAt(head, content, rest, column, value);
      AddedFrom(head, Items(content, 0), rest, value);
      if AddFrom(rest, value).Some? {
        var r := AddFrom(rest, value).value;
        var tail := r[1..];
        ColumnsKept(head, content, rest, column, tail);
        assert [CommaSign] + column + [rest[0]] + tail == ([CommaSign] + column) + r;
        assert content + ([CommaSign] + column + r) == (content + [CommaSign] + column) + r;
        ReadAt(head, content + [CommaSign] + column, r);
        ReadFromColumns(head, Items(content, 0), Items(content, 0) + [column], r);
      }
    }
  }

  lemma ReadFromColumns(head: seq<Lexeme>, a: Row, b: Row, rest: seq<Lexeme>)
    requires rest != []
    ensures ReadFrom(head, a, rest).Some? <==> ReadFrom(head, b, rest).Some?
    ensures ReadFrom(head, a, rest).Some? ==>
              ReadFrom(head, b, rest).value == ReadFrom(head, a, rest).value.(columns := b)
              && ReadFrom(head, a, rest).value.columns == a
  {
    hide Seek, ReadRows;
  }

  // ---- the rewriting of the text ----

  datatype InsertError = NoInto | NoTable | NoColumnList | ColumnListOpen | NoValues | RowMissing | RowOpen

  function MoreSegments(q: string, i: nat): (n: nat)
    requires i <= |q|
    ensures i <= n <= |q|
    decreases |q| - i
  {
    if i < |q| && q[i] == '.' && SegmentEnd(q, i + 1).Some? then MoreSegments(q, SegmentEnd(q, i + 1).value) else i
  }

  /** `readSQLTableReference`: the end of a dotted name. */
  function TableEnd(q: string, i: nat): (r: Option<nat>)
    ensures r.Some? ==> i < r.value <= |q|
  {
    match SegmentEnd(q, i)
    case None => None
    case Some(n) => Some(MoreSegments(q, n))
  }

  method ReadSqlIdentifierSegment(query: string, index: nat) returns (next: nat, ok: bool)
    ensures SegmentEnd(query, index) == if ok then Some(next) else None
  {
    next, ok := index, false;
    if index >= |query| {
      return;
    }
    match query[index]
    case '"' =>
      var identifier;
      identifier, next, ok := ReadSqlQuotedIdentifier(query, index, '"');
    case '`' =>
      var identifier;
      identifier, next, ok := ReadSqlQuotedIdentifier(query, index, '`');
    case '[' =>
      var identifier;
      identifier, next, ok := ReadSqlQuotedIdentifier(query, index, ']');
    case _ =>
      if IsIdentStart(query[index]) {
        next := ReadSqlWord(query, index + 1);
        ok := true;
      }
  }

  method ReadSqlTableReference(query: string, start: nat) returns (index: nat, ok: bool)
    ensures TableEnd(query, start) == if ok then Some(index) else None
  {
    index, ok := ReadSqlIdentifierSegment(query, start);
    if !ok {
      return start, false;
    }
    while index < |query| && query[index] == '.'
      invariant index <= |query|
      invariant MoreSegments(query, index) == TableEnd(query, start).value
      decreases |query| - index
    {
      var next, more := ReadSqlIdentifierSegment(query, index + 1);
      if !more {
        break;
      }
      index := next;
    }
  }

  /** The rows from `cursor` on with one more value each; `from` is where the text not yet copied starts. */
  function RowsText(q: string, from: nat, cursor: nat, value: string): (r: Result<string, InsertError>)
    requires from <= cursor <= |q|
    decreases |q| - cursor
  {
    var open := SkipBlank(q, cursor);
    if open == |q| || q[open] != '(' then Err(RowMissing)
    else
      var close := CloseFrom(q, open + 1, 1);
      if close < 0 then Err(RowOpen)
      else
        CloseFromBounds(q, open + 1, 1);
        var next := SkipBlank(q, close + 1);
        if next < |q| && q[next] == ',' then
          match RowsText(q, close + 1, next + 1, value)
          case Err(e) => Err(e)
          case Ok(rest) => Ok(q[from..close] + ", " + value + (")" + rest))
        else Ok(q[from..close] + ", " + value + (")" + q[close + 1..]))
  }

  function Prepend(s: string, r: Result<string, InsertError>): Result<string, InsertError> {
    if r.Ok? then Ok(s + r.value) else r
  }

  lemma PrependTwice(a: string, b: string, r: Result<string, InsertError>)
    ensures Prepend(a, Prepend(b, r)) == Prepend(a + b, r)
    ensures Prepend("", r) == r
  {
    if r.Ok? {
      assert a + (b + r.value) == a + b + r.value && "" + r.value == r.value;
    }
  }

  /** What is left to write after a row. */
  function AfterRow(q: string, cursor: nat, value: string): Result<string, InsertError>
    requires cursor <= |q|
  {
    var next := SkipBlank(q, cursor);
    if next < |q| && q[next] == ',' then RowsText(q, cursor, next + 1, value) else Ok(q[cursor..])
  }

  lemma RowsTextStep(q: string, from: nat, cursor: nat, value: string)
    requires from <= cursor <= |q|
    ensures var open := SkipBlank(q, cursor);
            open < |q| && q[open] == '(' && CloseFrom(q, open + 1, 1) >= 0 ==>
              var close := CloseFrom(q, open + 1, 1);
              close < |q| && cursor <= close
              && RowsText(q, from, cursor, value)
                 == Prepend(q[from..close] + ", " + value + ")", AfterRow(q, close + 1, value))
  {
    hide CloseFrom, SkipBlank;
    var open := SkipBlank(q, cursor);
    if open < |q| && q[open] == '(' && CloseFrom(q, open + 1, 1) >= 0 {
      CloseFromBounds(q, open + 1, 1);
      var close := CloseFrom(q, open + 1, 1);
      forall tail: string
        ensures q[from..close] + ", " + value + (")" + tail) == q[from..close] + ", " + value + ")" + tail
      {
      }
    }
  }

  /** Copying earlier only moves text to the front. */
  lemma RowsTextFrom(q: string, from: nat, cursor: nat, value: string)
    requires from <= cursor <= |q|
    ensures RowsText(q, from, cursor, value) == Prepend(q[from..cursor], RowsText(q, cursor, cursor, value))
  {
    hide RowsText, CloseFrom, SkipBlank, AfterRow;
    RowsTextStep(q, from, cursor, value);
    RowsTextStep(q, cursor, cursor, value);
    RowsErrors(q, from, cursor, value);
    RowsErrors(q, cursor, cursor, value);
    var open := SkipBlank(q, cursor);
    if open < |q| && q[open] == '(' && CloseFrom(q, open + 1, 1) >= 0 {
      var close := CloseFrom(q, open + 1, 1);
      var row := q[cursor..close] + ", " + value + ")";
      assert q[from..close] == q[from..cursor] + q[cursor..close];
      assert q[from..close] + ", " + value + ")" == q[from..cursor] + row;
      PrependTwice(q[from..cursor], row, AfterRow(q, close + 1, value));
    }
  }

  /** `appendTenantInsertValues`: the rows from `start` on, each with one more value. */
  method AppendTenantInsertValues(query: string, start: nat, value: string) returns (out: Result<string, InsertError>)
    requires start <= |query|
    ensures out == RowsText(query, start, start, value)
  {
    hide CloseFrom, RowsText, AfterRow, SkipBlank;
    var builder := "";
    var cursor: nat, expectRow := start, true;
    PrependTwice("", "", RowsText(query, start, start, value));
    while cursor <= |query|
      invariant cursor <= |query|
      invariant Prepend(builder, if expectRow then RowsText(query, cursor, cursor, value)
                                 else AfterRow(query, cursor, value))
             == RowsText(query, start, start, value)
      decreases |query| - cursor, expectRow
    {
      var index := SkipSqlSpacesAndComments(query, cursor);
      if expectRow {
        RowsTextStep(query, cursor, cursor, value);
        RowsErrors(query, cursor, cursor, value);
        if index >= |query| || query[index] != '(' {
          return Err(RowMissing);
        }
        var close, ok := FindClosingSqlParen(query, index);
        if !ok {
          return Err(RowOpen);
        }
        ghost var row := query[cursor..close] + ", " + value + ")";
        PrependTwice(builder, row, AfterRow(query, close + 1, value));
        builder := builder + (query[cursor..close] + ", " + value + ")");
        cursor := close + 1;
        expectRow := false;
        continue;
      }
      RowsAfter(query, cursor, value);
      if index < |query| && query[index] == ',' {
        PrependTwice(builder, query[cursor..index + 1], RowsText(query, index + 1, index + 1, value));
        builder := builder + query[cursor..index + 1];
        cursor := index + 1;
        expectRow := true;
        continue;
      }
      return Ok(builder + query[cursor..]);
    }
  }

  lemma RowsErrors(q: string, from: nat, cursor: nat, value: string)
    requires from <= cursor <= |q|
    ensures var open := SkipBlank(q, cursor); var r := RowsText(q, from, cursor, value);
            && (open == |q| || q[open] != '(' ==> r == Err(RowMissing))
            && (open < |q| && q[open] == '(' && CloseFrom(q, open + 1, 1) < 0 ==> r == Err(RowOpen))
  {
    hide CloseFrom;
  }

  lemma RowsAfter(q: string, cursor: nat, value: string)
    requires cursor <= |q|
    ensures var next := SkipBlank(q, cursor);
            AfterRow(q, cursor, value) ==
              if next < |q| && q[next] == ',' then Prepend(q[cursor..next + 1], RowsText(q, next + 1, next + 1, value))
              else Ok(q[cursor..])
  {
    hide RowsText;
    var next := SkipBlank(q, cursor);
    if next < |q| && q[next] == ',' { RowsTextFrom(q, cursor, next + 1, value); }
  }

  // ---- the column list ----

  /** The positions of the parentheses around the columns that follow a table name. */
  function SpanAfter(query: string, start: nat): (r: Result<(nat, nat), InsertError>)
    requires start <= |query|
    ensures r.Ok? ==> r.value.0 < r.value.1 < |query| && query[r.value.0] == '(' && query[r.value.1] == ')'
  {
    match TableEnd(query, SkipBlank(query, start))
    case None => Err(NoTable)
    case Some(n) =>
      var open := SkipBlank(query, n);
      if open == |query| || query[open] != '(' then Err(NoColumnList)
      else
        CloseFromBounds(query, open + 1, 1);
        var close := CloseFrom(query, open + 1, 1);
        if close < 0 then Err(ColumnListOpen) else Ok((open, close))
  }

  /** The positions of the parentheses around the columns of an INSERT. */
  function ColumnSpan(query: string): (r: Result<(nat, nat), InsertError>)
    ensures r.Ok? ==> r.value.0 < r.value.1 < |query| && query[r.value.0] == '(' && query[r.value.1] == ')'
  {
    var ls := Lex(query, 0);
    var i := Seek(ls, 0, Keyword("into"));
    if i == |ls| then Err(NoInto)
    else
      WidthNext(query, i);
      SpanAfter(query, Width(ls[..i + 1]))
  }

  /** The position after VALUES, looked for from `start` on, or -1. */
  function ValuesEnd(query: string, start: nat): (n: int)
    requires start <= |query|
    ensures n >= 0 ==> start <= n <= |query|
  {
    var ls := Lex(query, start);
    var v := Seek(ls, 0, Keyword("values"));
    if v == |ls| then -1
    else
      LexDrop(query, start, v + 1);
      start + Width(ls[..v + 1])
  }

  /** `strings.ReplaceAll(s, cc, c)`. */
  function Undoubled(s: string, c: char): string {
    if |s| < 2 then s
    else if s[0] == c && s[1] == c then [c] + Undoubled(s[2..], c)
    else [s[0]] + Undoubled(s[1..], c)
  }

  function UnquoteSqlIdentifier(identifier: string): string {
    var s := Text.TrimSpace(identifier);
    if |s| < 2 then s
    else
      var first, last, inner := s[0], s[|s| - 1], s[1..|s| - 1];
      if first == '"' && last == '"' then Undoubled(inner, '"')
      else if first == '`' && last == '`' then Undoubled(inner, '`')
      else if first == '[' && last == ']' then inner
      else s
  }

  function ItemKey(item: string): string {
    NormalizeColumnKey(LastIdentifierPart(UnquoteSqlIdentifier(Text.TrimSpace(item))))
  }

  predicate ListContains(columns: string, column: string) {
    var target := NormalizeColumnKey(LastIdentifierPart(column));
    target != "" && exists item <- Texts(Items(Lex(columns, 0), 0)) :: ItemKey(item) == target
  }

  method InsertColumnListContains(columns: string, column: string) returns (found: bool)
    ensures found == ListContains(columns, column)
  {
    hide Lex, Items, ItemKey, NormalizeColumnKey, LastIdentifierPart, Texts;
    var target := NormalizeColumnKey(LastIdentifierPart(column));
    if target == "" {
      return false;
    }
    var items := SplitSqlTopLevelComma(columns);
    for i := 0 to |items|
      invariant forall j :: 0 <= j < i ==> ItemKey(items[j]) != target
    {
      if ItemKey(items[i]) == target {
        return true;
      }
    }
    return false;
  }

  /** The rewritten INSERT, or the query itself when it already has the column. */
  function TenantInsert(query: string, column: string, quoted: string, name: string)
    : Result<(string, bool), InsertError>
  {
    match ColumnSpan(query)
    case Err(e) => Err(e)
    case Ok(span) =>
      if ListContains(query[span.0 + 1..span.1], column) then Ok((query, false))
      else
        var values := ValuesEnd(query, span.1 + 1);
        if values < 0 then Err(NoValues)
        else
          match RowsText(query, values, values, PlaceholderText(name))
          case Err(e) => Err(e)
          case Ok(rows) => Ok((query[..span.1] + ", " + quoted + (")" + (query[span.1 + 1..values] + rows)), true))
  }

  /** `appendTenantInsertColumn`: one more column and one more value per row, unless the column is there. */
  method AppendTenantInsertColumn(query: string, column: string, quoted: string, name: string)
    returns (out: Result<(string, bool), InsertError>)
    ensures out == TenantInsert(query, column, quoted, name)
  {
    hide Cut, Lex, Seek, CloseFrom, RowsText, TableEnd, SkipBlank, ListContains, Text.TrimSpace, Width;
    var intoIndex := FindSqlKeyword(query, "into");
    TrimWord("into");
    IntoEnd(query);
    if intoIndex < 0 {
      return Err(NoInto);
    }
    var index := SkipSqlSpacesAndComments(query, intoIndex + |"into"|);
    var next, ok := ReadSqlTableReference(query, index);
    if !ok {
      return Err(NoTable);
    }
    index := SkipSqlSpacesAndComments(query, next);
    if index >= |query| || query[index] != '(' {
      return Err(NoColumnList);
    }
    var columnsEnd;
    columnsEnd, ok := FindClosingSqlParen(query, index);
    if !ok {
      return Err(ColumnListOpen);
    }
    CloseFromBounds(query, index + 1, 1);
    var present := InsertColumnListContains(query[index + 1..columnsEnd], column);
    if present {
      return Ok((query, false));
    }
    var valuesIndex := FindSqlKeyword(query[columnsEnd + 1..], "values");
    TrimWord("values");
    ValuesAt(query, columnsEnd + 1);
    if valuesIndex < 0 {
      return Err(NoValues);
    }
    var valuesEnd := columnsEnd + 1 + valuesIndex + |"values"|;
    var valuesSql := AppendTenantInsertValues(query, valuesEnd, PlaceholderText(name));
    if valuesSql.Err? {
      return Err(valuesSql.error);
    }
    return Ok((query[..columnsEnd] + ", " + quoted + (")" + (query[columnsEnd + 1..valuesEnd] + valuesSql.value)),
               true));
  }

  lemma IntoEnd(query: string)
    ensures var ls := Lex(query, 0); var i := Seek(ls, 0, Keyword("into"));
            if i == |ls| then Position(ls, i) == -1
            else Position(ls, i) >= 0 && Position(ls, i) + 4 == Width(ls[..i + 1]) <= |query|
  {
    hide Cut;
    var ls := Lex(query, 0);
    var i := Seek(ls, 0, Keyword("into"));
    if i < |ls| {
      WidthNext(query, i);
      SeekHit(ls, 0, Keyword("into"));
      SameWord(ls[i], "into");
    }
  }

  lemma ValuesAt(query: string, start: nat)
    requires start <= |query|
    ensures var ls := Lex(query[start..], 0); var v := Position(ls, Seek(ls, 0, Keyword("values")));
            ValuesEnd(query, start) == if v < 0 then -1 else start + v + 6
  {
    hide Cut;
    LexShift(query, start, 0);
    var ls := Lex(query[start..], 0);
    var v := Seek(ls, 0, Keyword("values"));
    if v < |ls| {
      WidthNext(query[start..], v);
      SeekHit(ls, 0, Keyword("values"));
      SameWord(ls[v], "values");
    }
  }

  // ---- the rewritten text and its lexemes ----

  lemma {:induction false} SkipBlankCount(q: string, i: nat) returns (m: nat)
    requires i <= |q|
    ensures m <= |Lex(q, i)| && Sig(Lex(q, i)[..m]) == []
    ensures SkipBlank(q, i) == i + Width(Lex(q, i)[..m]) && Lex(q, SkipBlank(q, i)) == Lex(q, i)[m..]
    decreases |q| - i
  {
    hide Cut;
    m := 0;
    if i < |q| {
      var x := Cut(q, i);
      if x.kind.Space? || x.kind.Comment? {
        var k := SkipBlankCount(q, x.end);
        m := k + 1;
        TakeStep(q, i, m);
        assert Lex(q, i)[m..] == Lex(q, x.end)[k..];
        assert ([Lex(q, i)[0]] + Lex(q, x.end)[..k])[1..] == Lex(q, x.end)[..k];
      }
    }
  }

  lemma {:induction false} CloseSig(ls: seq<Lexeme>, depth: nat)
    requires depth > 0
    ensures CloseIndex(Sig(ls), depth) == |Sig(ls[..CloseIndex(ls, depth)])|
    ensures CloseIndex(ls, depth) == |ls| <==> CloseIndex(Sig(ls), depth) == |Sig(ls)|
  {
    hide CloseIndex, Sig, Step;
    CloseNothing(depth);
    if ls != [] {
      var l, rest := ls[0], ls[1..];
      var inside := Step(depth, l.kind);
      StepBlank(l, depth);
      assert ls == [l] + rest;
      CloseFirst(l, rest, depth);
      CloseFirst(l, Sig(rest), depth);
      SigLed(l, rest);
      if !(l.kind.Close? && depth == 1) {
        var k := CloseIndex(rest, inside);
        assert ls[..k + 1] == [l] + rest[..k];
        CloseSig(rest, inside);
        SigLed(l, rest[..k]);
      }
    }
  }

  lemma CloseFirst(l: Lexeme, ls: seq<Lexeme>, depth: nat)
    requires depth > 0
    ensures CloseIndex([l] + ls, depth)
         == if l.kind.Close? && depth == 1 then 0 else 1 + CloseIndex(ls, Step(depth, l.kind))
  {
    assert ([l] + ls)[1..] == ls;
  }

  lemma CloseNothing(depth: nat)
    requires depth > 0
    ensures CloseIndex([], depth) == 0 && Sig([]) == []
  {
  }

  lemma StepBlank(l: Lexeme, depth: nat)
    requires depth > 0
    ensures !(l.kind.Close? && depth == 1) ==> Step(depth, l.kind) > 0
    ensures IsBlank(l) ==> Step(depth, l.kind) == depth && !l.kind.Close?
  {
  }

  lemma CloseLex()
    ensures Lex(")", 0) == [CloseSign]
  {
    var s := ")";
    assert Cut(s, 0) == Extent(Close, 1, true);
    assert Lex(s, 1) == [] && s[0..1] == ")";
    assert Lex(s, 0) == [Lexeme(Close, s[0..1], true)] + Lex(s, 1);
  }

  lemma CloseAppend(rest: string)
    ensures Lex(")" + rest, 0) == [CloseSign] + Lex(rest, 0)
  {
    hide Cut, Lex;
    CloseLex();
    LexConcat(")", rest);
  }

  const SpaceSign := Lexeme(Space, " ", true)

  /** The text before a closing parenthesis. */
  lemma BeforeClose(q: string, from: nat, j: nat)
    requires from <= |q| && j < |Lex(q, from)| && Lex(q, from)[j].kind.Close?
    ensures var p := from + Width(Lex(q, from)[..j]);
            && p < |q| && q[p] == ')' && Lex(q[from..p], 0) == Lex(q, from)[..j] && AllClosed(Lex(q, from)[..j])
  {
    hide Cut, Lex, Width, AllClosed;
    var p := from + Width(Lex(q, from)[..j]);
    LexDrop(q, from, j);
    EmptyLex(q, p);
    ParenText(q, p);
    ClosedBefore(q, from, j);
    LexTakeClosed(q, from, j);
    assert q[..p][from..] == q[from..p];
    LexShift(q[..p], from, 0);
  }

  /** The lexemes of a text with one more item before a closing parenthesis. */
  lemma InsertLex(q: string, from: nat, j: nat, x: string, rest: string)
    requires from <= |q| && j < |Lex(q, from)| && Lex(q, from)[j].kind.Close? && AllClosed(Lex(x, 0))
    ensures var p := from + Width(Lex(q, from)[..j]);
            && p < |q| && q[p] == ')'
            && Lex(q[from..p] + ", " + x + (")" + rest), 0)
               == Lex(q, from)[..j] + ([CommaSign, SpaceSign] + (Lex(x, 0) + ([CloseSign] + Lex(rest, 0))))
  {
    hide Cut, Lex, Width, AllClosed, Tokens;
    var p := from + Width(Lex(q, from)[..j]);
    BeforeClose(q, from, j);
    var front := q[from..p];
    CloseAppend(rest);
    LexAppend(x, ")" + rest);
    CommaAppend(x + (")" + rest));
    LexAppend(front, ", " + (x + (")" + rest)));
    assert front + ", " + x + (")" + rest) == front + (", " + (x + (")" + rest)));
  }

  /** The first row of a text: white space, its opening parenthesis, what is in it, its closing one, and the rest. */
  datatype RowParts = RowParts(blank: seq<Lexeme>, open: Lexeme, content: seq<Lexeme>, after: seq<Lexeme>) {
    /** Up to the closing parenthesis. */
    function Front(): seq<Lexeme> {
      blank + ([open] + content)
    }

    function All(): seq<Lexeme> {
      Front() + ([CloseSign] + after)
    }

    predicate Valid() {
      Sig(blank) == [] && open.kind.Open? && CloseIndex(content + ([CloseSign] + after), 1) == |content|
    }
  }

  lemma RowDecomposes(ls: seq<Lexeme>, m: nat, inner: seq<Lexeme>, k: nat)
    requires m < |ls| && ls[m + 1..] == inner && k < |inner| && inner[k] == CloseSign
    ensures var r := RowParts(ls[..m], ls[m], inner[..k], inner[k + 1..]);
            && ls == r.All() && r.content + ([CloseSign] + r.after) == inner
            && Width(r.Front()) == Width(ls[..m]) + Width([ls[m]]) + Width(inner[..k])
  {
    var r := RowParts(ls[..m], ls[m], inner[..k], inner[k + 1..]);
    WidthConcat(r.blank, [r.open] + r.content);
    WidthConcat([r.open], r.content);
  }

  lemma RowAt(q: string, cursor: nat) returns (r: RowParts)
    requires cursor <= |q| && NoBrackets(Lex(q, cursor))
    requires var open := SkipBlank(q, cursor); open < |q| && q[open] == '(' && CloseFrom(q, open + 1, 1) >= 0
    ensures r.Valid() && Lex(q, cursor) == r.All()
    ensures var close := CloseFrom(q, SkipBlank(q, cursor) + 1, 1);
            close == cursor + Width(r.Front()) < |q| && Lex(q, close + 1) == r.after
  {
    hide Cut, Lex, CloseFrom, CloseIndex, Width, Sig, NoBrackets, SkipBlank;
    var ls := Lex(q, cursor);
    var open := SkipBlank(q, cursor);
    var m := SkipBlankCount(q, cursor);
    ParenText(q, open);
    OpenStep(q, open);
    var inner := Lex(q, open + 1);
    assert ls[m..][1..] == ls[m + 1..] == inner;
    InnerBrackets(ls, m + 1);
    var k := CloseIndex(inner, 1);
    CloseAt(q, open + 1);
    OpenWidth(q, open);
    RowDecomposes(ls, m, inner, k);
    r := RowParts(ls[..m], ls[m], inner[..k], inner[k + 1..]);
  }

  /** The parenthesis that closes a list, in the text and among its lexemes. */
  lemma CloseAt(q: string, start: nat)
    requires start <= |q| && NoBrackets(Lex(q, start)) && CloseFrom(q, start, 1) >= 0
    ensures var inner := Lex(q, start); var k := CloseIndex(inner, 1); var close := CloseFrom(q, start, 1);
            && k < |inner| && inner[k] == CloseSign
            && close == start + Width(inner[..k]) < |q| && Lex(q, close + 1) == inner[k + 1..]
  {
    hide Cut, Lex, CloseFrom, CloseIndex, Width, Sig, NoBrackets;
    var inner := Lex(q, start);
    var k := CloseIndex(inner, 1);
    FrontBrackets(inner, k);
    CloseFromIsClose(q, start, 1);
    CloseIndexHit(inner, 1);
    var close := start + Width(inner[..k]);
    LexDrop(q, start, k);
    EmptyLex(q, close);
    ParenText(q, close);
    OpenStep(q, close);
    assert inner[k..][0] == inner[k] && inner[k..][1..] == inner[k + 1..];
  }

  lemma InnerBrackets(ls: seq<Lexeme>, n: nat)
    requires n <= |ls| && NoBrackets(ls)
    ensures NoBrackets(ls[n..])
  {
    assert forall l <- ls[n..] :: l in ls;
  }

  lemma FrontBrackets(ls: seq<Lexeme>, n: nat)
    requires n <= |ls| && NoBrackets(ls)
    ensures NoBrackets(ls[..n])
  {
  }

  lemma OpenWidth(q: string, i: nat)
    requires i < |q| && q[i] == '('
    ensures Lex(q, i) != [] && Width([Lex(q, i)[0]]) == 1
  {
    ParenText(q, i);
    assert [Lex(q, i)[0]][1..] == [];
  }

  lemma OpenStep(q: string, i: nat)
    requires i < |q| && (q[i] == '(' || q[i] == ')')
    ensures Lex(q, i) != [] && Lex(q, i)[1..] == Lex(q, i + 1)
  {
    ParenText(q, i);
  }

  /** A row among the meaningful lexemes. */
  lemma RowSig(r: RowParts)
    requires r.Valid()
    ensures Sig(r.Front()) == [r.open] + Sig(r.content)
    ensures Sig(r.All()) == [r.open] + (Sig(r.content) + ([CloseSign] + Sig(r.after)))
    ensures StartsRow(Sig(r.All())) && CloseIndex(Sig(r.All())[1..], 1) == |Sig(r.content)|
  {
    hide CloseIndex, Sig;
    var inner := r.content + ([CloseSign] + r.after);
    CloseSig(inner, 1);
    assert inner[..|r.content|] == r.content;
    SigConcat(r.content, [CloseSign] + r.after);
    SigConcat([CloseSign], r.after);
    SigOne(CloseSign);
    SigOne(r.open);
    SigConcat(r.Front(), [CloseSign] + r.after);
    SigConcat(r.blank, [r.open] + r.content);
    SigConcat([r.open], r.content);
    var all := Sig(r.All());
    assert all == [r.open] + Sig(inner);
    assert all[1..] == Sig(inner);
  }

  /** Whether a comma comes next, and what follows it. */
  lemma CommaNext(q: string, i: nat) returns (m: nat)
    requires i <= |q|
    ensures var next := SkipBlank(q, i); var ls := Lex(q, i);
            && (StartsComma(Sig(ls)) <==> next < |q| && q[next] == ',')
            && (StartsComma(Sig(ls)) ==>
                  && m < |ls| && next + 1 == i + Width(ls[..m + 1]) && Lex(q, next + 1) == ls[m + 1..]
                  && Sig(ls[..m + 1]) == [CommaSign] && Sig(ls) == [CommaSign] + Sig(ls[m + 1..]))
  {
    hide Cut, Lex, Sig;
    var ls := Lex(q, i);
    var next := SkipBlank(q, i);
    m := SkipBlankCount(q, i);
    SkipBlankSig(q, i);
    EmptyLex(q, next);
    if next < |q| {
      CutComma(q, next);
      if q[next] == ',' {
        CommaLexeme(q, next);
        assert ls[m] == CommaSign;
        assert ls[..m + 1] == ls[..m] + [ls[m]];
        SigConcat(ls[..m], [ls[m]]);
        SigOne(ls[m]);
        WidthConcat(ls[..m], [ls[m]]);
        SigSplit(ls, m + 1);
        assert ls[m..][1..] == ls[m + 1..];
      }
    }
  }

  lemma CommaLexeme(q: string, i: nat)
    requires i < |q| && q[i] == ','
    ensures Lex(q, i) != [] && Lex(q, i)[0] == CommaSign && Lex(q, i)[1..] == Lex(q, i + 1)
            && Width([Lex(q, i)[0]]) == 1
  {
    CutComma(q, i);
    assert q[i..i + 1] == ",";
    assert [Lex(q, i)[0]][1..] == [];
  }

  /** The rewritten text of a row, as meaningful lexemes. */
  lemma RowInserted(q: string, from: nat, n: nat, r: RowParts, value: string, rest: string)
    requires from <= |q| && n <= |Lex(q, from)| && AllClosed(Lex(value, 0))
    requires Lex(q, from)[n..] == r.All() && r.Valid()
    ensures var close := from + Width(Lex(q, from)[..n]) + Width(r.Front());
            && close <= |q|
            && Tokens(q[from..close] + ", " + value + (")" + rest))
               == Sig(Lex(q, from)[..n])
                  + ([r.open] + Sig(r.content) + [CommaSign] + Tokens(value) + [CloseSign] + Tokens(rest))
  {
    hide Cut, Lex, CloseIndex, Sig, Width;
    var ls := Lex(q, from);
    var j := n + |r.Front()|;
    FrontEnds(ls, n, r);
    WidthConcat(ls[..n], r.Front());
    InsertLex(q, from, j, value, rest);
    RowSig(r);
    SigConcat(ls[..n], r.Front());
    SigInserted(ls[..j], Lex(value, 0), Lex(rest, 0));
  }

  lemma FrontEnds(ls: seq<Lexeme>, n: nat, r: RowParts)
    requires n <= |ls| && ls[n..] == r.All()
    ensures var j := n + |r.Front()|; j < |ls| && ls[..j] == ls[..n] + r.Front() && ls[j] == CloseSign
  {
    assert ls == ls[..n] + ls[n..];
  }

  lemma SigInserted(front: seq<Lexeme>, x: seq<Lexeme>, rest: seq<Lexeme>)
    ensures Sig(front + ([CommaSign, SpaceSign] + (x + ([CloseSign] + rest))))
         == Sig(front) + ([CommaSign] + (Sig(x) + ([CloseSign] + Sig(rest))))
  {
    hide Sig;
    var tail := [CloseSign] + rest;
    SigConcat(front, [CommaSign, SpaceSign] + (x + tail));
    SigConcat([CommaSign, SpaceSign], x + tail);
    SigConcat(x, tail);
    SigConcat([CloseSign], rest);
    SigOne(CloseSign);
    SigPair();
  }

  lemma SigPair()
    ensures Sig([CommaSign, SpaceSign]) == [CommaSign]
  {
    assert [CommaSign, SpaceSign][1..] == [SpaceSign];
    SigOne(SpaceSign);
  }

  /** Adding a value to rows whose first one is given by its parts. */
  lemma AddParts(open: Lexeme, content: seq<Lexeme>, after: seq<Lexeme>, x: seq<Lexeme>)
    requires var ts := [open] + (content + ([CloseSign] + after));
             StartsRow(ts) && CloseIndex(ts[1..], 1) == |content|
    ensures var front := [open] + content + [CommaSign] + x + [CloseSign];
            AddToRows([open] + (content + ([CloseSign] + after)), x)
            == if !StartsComma(after) then Some(front + after)
               else match AddToRows(after[1..], x)
                    case None => None
                    case Some(r) => Some(front + ([after[0]] + r))
  {
    hide CloseIndex, StartsRow, AddToRows;
    AddUnfold([open] + (content + ([CloseSign] + after)), x);
    var ts, k := [open] + (content + ([CloseSign] + after)), |content|;
    assert ts[..k + 1] == [open] + content && ts[k + 1] == CloseSign && ts[k + 2..] == after;
    if StartsComma(after) && AddToRows(after[1..], x).Some? {
      var r := AddToRows(after[1..], x).value;
      var front := [open] + content + [CommaSign] + x + [CloseSign];
      assert front + [after[0]] + r == front + ([after[0]] + r);
    }
  }

  /** The rewritten rows have the value as the last lexemes before every closing parenthesis. */
  lemma {:induction false} RowsTokens(q: string, from: nat, cursor: nat, n: nat, value: string)
    requires from <= cursor <= |q| && AllClosed(Lex(value, 0)) && NoBrackets(Lex(q, cursor))
    requires n <= |Lex(q, from)| && cursor == from + Width(Lex(q, from)[..n])
    ensures var r := RowsText(q, from, cursor, value);
            r.Ok? ==> var rows := AddToRows(Sig(Lex(q, cursor)), Tokens(value));
                      rows.Some? && Tokens(r.value) == Sig(Lex(q, from)[..n]) + rows.value
    decreases |q| - cursor
  {
    hide Cut, Lex, CloseFrom, CloseIndex, NoBrackets, Sig, SkipBlank, AddToRows, StartsComma, StartsRow;
    var text := RowsText(q, from, cursor, value);
    if text.Ok? {
      LexDrop(q, from, n);
      var r := RowAt(q, cursor);
      RowSig(r);
      var open := SkipBlank(q, cursor);
      var close := CloseFrom(q, open + 1, 1);
      CloseFromBounds(q, open + 1, 1);
      var next := SkipBlank(q, close + 1);
      var m := CommaNext(q, close + 1);
      var x := Tokens(value);
      AddParts(r.open, Sig(r.content), Sig(r.after), x);
      if next < |q| && q[next] == ',' {
        var rest := RowsText(q, close + 1, next + 1, value);
        BracketsAfter(q, cursor, r, m);
        RowsTokens(q, close + 1, next + 1, m + 1, value);
        RowInserted(q, from, n, r, value, rest.value);
      } else {
        var rest := q[close + 1..];
        LexShift(q, close + 1, 0);
        RowInserted(q, from, n, r, value, rest);
      }
    }
  }

  lemma BracketsAfter(q: string, cursor: nat, r: RowParts, m: nat)
    requires cursor <= |q| && Lex(q, cursor) == r.All() && NoBrackets(r.All()) && m < |r.after|
    ensures NoBrackets(r.after[m + 1..])
  {
    hide Lex;
    forall l | l in r.after[m + 1..]
      ensures l in r.All()
    {
      assert l in r.after;
    }
  }

  // ---- the rewritten statement ----

  predicate NoOpen(ts: seq<Lexeme>) {
    forall l <- ts :: !l.kind.Open?
  }

  lemma {:induction false} BlankNoOpen(ls: seq<Lexeme>)
    requires Sig(ls) == []
    ensures NoOpen(ls)
  {
    if ls != [] { BlankNoOpen(ls[1..]); }
  }

  lemma SegmentLex(q: string, i: nat)
    requires SegmentEnd(q, i).Some? && NoBrackets(Lex(q, i))
    ensures var n := SegmentEnd(q, i).value;
            && Lex(q, i) != [] && !Lex(q, i)[0].kind.Open? && |Lex(q, i)[0].text| == n - i
            && Lex(q, i)[1..] == Lex(q, n)
  {
    hide Lex, Cut, SegmentEnd;
    SegmentCut(q, i);
    LexFrom(q, i);
    assert Lex(q, i)[0] in Lex(q, i);
  }

  lemma DotLex(q: string, i: nat)
    requires i < |q| && q[i] == '.'
    ensures Lex(q, i) != [] && Lex(q, i)[0].kind.Other? && |Lex(q, i)[0].text| == 1 && Lex(q, i)[1..] == Lex(q, i + 1)
  {
  }

  /** The lexemes of a dotted name. */
  lemma {:induction false} MoreLex(q: string, i: nat) returns (t: seq<Lexeme>)
    requires i <= |q| && NoBrackets(Lex(q, i))
    ensures Lex(q, i) == t + Lex(q, MoreSegments(q, i)) && NoOpen(t) && MoreSegments(q, i) == i + Width(t)
    decreases |q| - i
  {
    hide Cut, Lex;
    t := [];
    if i < |q| && q[i] == '.' && SegmentEnd(q, i + 1).Some? {
      var n := SegmentEnd(q, i + 1).value;
      DotLex(q, i);
      var dot := Lex(q, i)[0];
      InnerBrackets(Lex(q, i), 1);
      SegmentLex(q, i + 1);
      var name := Lex(q, i + 1)[0];
      InnerBrackets(Lex(q, i + 1), 1);
      var rest := MoreLex(q, n);
      t := [dot, name] + rest;
      assert Lex(q, i) == [dot] + ([name] + Lex(q, n));
      WidthConcat([dot, name], rest);
      assert [dot, name][1..] == [name] && [name][1..] == [];
    }
  }

  /** Between `i` and `n` there are lexemes, none of them an opening parenthesis. */
  predicate Stretch(q: string, i: nat, n: nat, t: seq<Lexeme>) {
    i <= |q| && n <= |q| && Lex(q, i) == t + Lex(q, n) && n == i + Width(t) && NoOpen(t)
  }

  lemma StretchJoin(q: string, i: nat, n: nat, m: nat, a: seq<Lexeme>, b: seq<Lexeme>)
    requires Stretch(q, i, n, a) && Stretch(q, n, m, b)
    ensures Stretch(q, i, m, a + b)
  {
    hide Lex;
    WidthConcat(a, b);
  }

  lemma StretchBlank(q: string, i: nat) returns (t: seq<Lexeme>)
    requires i <= |q|
    ensures Stretch(q, i, SkipBlank(q, i), t)
  {
    hide Lex;
    var m := SkipBlankCount(q, i);
    t := Lex(q, i)[..m];
    BlankNoOpen(t);
  }

  lemma StretchTable(q: string, i: nat) returns (t: seq<Lexeme>)
    requires i <= |q| && NoBrackets(Lex(q, i)) && TableEnd(q, i).Some?
    ensures Stretch(q, i, TableEnd(q, i).value, t)
  {
    hide Lex, SegmentEnd, MoreSegments;
    var n := SegmentEnd(q, i).value;
    SegmentLex(q, i);
    var name := Lex(q, i)[0];
    InnerBrackets(Lex(q, i), 1);
    var rest := MoreLex(q, n);
    t := [name] + rest;
    assert Lex(q, i) == [name] + Lex(q, n);
    WidthConcat([name], rest);
    assert [name][1..] == [];
  }

  /** From INTO to the parenthesis of the columns. */
  lemma StretchColumns(query: string) returns (i: nat, t: seq<Lexeme>)
    requires ColumnSpan(query).Ok? && NoBrackets(Lex(query, 0))
    ensures var ls := Lex(query, 0);
            && i == Seek(ls, 0, Keyword("into")) < |ls|
            && Width(ls[..i + 1]) <= |query|
            && Stretch(query, Width(ls[..i + 1]), ColumnSpan(query).value.0, t)
            && Lex(query, Width(ls[..i + 1])) == ls[i + 1..]
  {
    hide Lex, TableEnd, Seek, CloseFrom, Stretch, Width, SkipBlank;
    var ls := Lex(query, 0);
    i := Seek(ls, 0, Keyword("into"));
    WidthNext(query, i);
    var start := Width(ls[..i + 1]);
    InnerBrackets(ls, i + 1);
    var a := StretchBlank(query, start);
    var table := SkipBlank(query, start);
    StretchBrackets(query, start, table, a);
    var b := StretchTable(query, table);
    var n := TableEnd(query, table).value;
    var c := StretchBlank(query, n);
    StretchJoin(query, start, table, n, a, b);
    StretchJoin(query, start, n, SkipBlank(query, n), a + b, c);
    t := a + b + c;
  }

  lemma StretchBrackets(q: string, i: nat, n: nat, t: seq<Lexeme>)
    requires Stretch(q, i, n, t) && NoBrackets(Lex(q, i))
    ensures NoBrackets(Lex(q, n))
  {
    hide Lex;
    InnerBrackets(t + Lex(q, n), |t|);
    assert (t + Lex(q, n))[|t|..] == Lex(q, n);
  }

  lemma {:induction false} FirstOpenAfter(t: seq<Lexeme>, rest: seq<Lexeme>)
    requires NoOpen(t) && rest != [] && rest[0].kind.Open?
    ensures FirstOpen(t + rest) == |t|
  {
    if t == [] {
      assert t + rest == rest;
    } else {
      assert (t + rest)[1..] == t[1..] + rest;
      assert forall l <- t[1..] :: l in t;
      FirstOpenAfter(t[1..], rest);
    }
  }

  lemma SigNoOpen(t: seq<Lexeme>)
    requires NoOpen(t)
    ensures NoOpen(Sig(t))
  {
  }

  /** An INSERT cut at the parentheses of its columns. */
  lemma ColumnParts(query: string) returns (head: seq<Lexeme>, r: RowParts)
    requires ColumnSpan(query).Ok? && NoBrackets(Lex(query, 0))
    ensures r.Valid() && r.blank == [] && Lex(query, 0) == head + r.All()
    ensures Width(head) == ColumnSpan(query).value.0
    ensures ColumnSpan(query).value.1 == Width(head) + Width(r.Front())
    ensures Lex(query, ColumnSpan(query).value.1 + 1) == r.after
    ensures ColumnsAt(Sig(Lex(query, 0)), |Sig(head)|, |Sig(r.content)|)
  {
    hide Lex, TableEnd, Seek, CloseFrom, Width, SkipBlank, Cut, CloseIndex, Sig, FirstOpen;
    var ls := Lex(query, 0);
    var i, t := StretchColumns(query);
    var start, open := Width(ls[..i + 1]), ColumnSpan(query).value.0;
    head := ls[..i + 1] + t;
    assert ls == ls[..i + 1] + ls[i + 1..];
    assert ls == head + Lex(query, open);
    WidthConcat(ls[..i + 1], t);
    InnerBrackets(ls, |head|);
    assert ls[|head|..] == Lex(query, open);
    SkipNothing(query, open);
    r := RowAt(query, open);
    RowBlank(r, query, open);
    ColumnsSig(ls, i, t, r);
  }

  lemma SkipNothing(q: string, i: nat)
    requires i < |q| && q[i] == '('
    ensures SkipBlank(q, i) == i
  {
    ParenText(q, i);
  }

  lemma RowBlank(r: RowParts, q: string, i: nat)
    requires i < |q| && q[i] == '(' && r.Valid() && Lex(q, i) == r.All()
    ensures r.blank == []
  {
    ParenText(q, i);
  }

  lemma ColumnsSig(ls: seq<Lexeme>, i: nat, t: seq<Lexeme>, r: RowParts)
    requires i == Seek(ls, 0, Keyword("into")) < |ls| && NoOpen(t)
    requires ls == ls[..i + 1] + t + r.All() && r.Valid() && r.blank == []
    ensures ColumnsAt(Sig(ls), |Sig(ls[..i + 1] + t)|, |Sig(r.content)|)
  {
    hide Seek, CloseIndex, Sig, FirstOpen, Hits;
    SeekSig(ls, 0, Keyword("into"));
    IntoSig(ls, i);
    SigConcat(ls[..i + 1] + t, r.All());
    SigConcat(ls[..i + 1], t);
    RowSig(r);
    SigNoOpen(t);
    ColumnsFound(Sig(ls[..i + 1]), Sig(t), Sig(r.All()), |Sig(r.content)|);
  }

  /** INTO among the meaningful lexemes. */
  lemma IntoSig(ls: seq<Lexeme>, i: nat)
    requires i == Seek(ls, 0, Keyword("into")) < |ls|
    ensures |Sig(ls[..i + 1])| == |Sig(ls[..i])| + 1
  {
    hide Seek, Sig, Hits;
    SeekHit(ls, 0, Keyword("into"));
    TakeOne(ls, i);
    SigConcat(ls[..i], [ls[i]]);
    SigOne(ls[i]);
  }

  lemma DropTwice(a: seq<Lexeme>, b: seq<Lexeme>, c: seq<Lexeme>)
    requires c != []
    ensures (a + b + c)[|a|..] == b + c && (a + b + c)[|a + b| + 1..] == c[1..]
  {
  }

  lemma ColumnsFound(into: seq<Lexeme>, t: seq<Lexeme>, rest: seq<Lexeme>, k: nat)
    requires into != [] && Seek(into + t + rest, 0, Keyword("into")) == |into| - 1
    requires NoOpen(t) && rest != [] && rest[0].kind.Open? && k == CloseIndex(rest[1..], 1) < |rest| - 1
    ensures ColumnsAt(into + t + rest, |into + t|, k)
  {
    hide Seek, CloseIndex, FirstOpen, NoOpen;
    DropTwice(into, t, rest);
    FirstOpenAfter(t, rest);
  }

  /** The text with the new column, as lexemes. */
  lemma ColumnInserted(query: string, head: seq<Lexeme>, r: RowParts, quoted: string, rest: string)
    requires Lex(query, 0) == head + r.All() && AllClosed(Lex(quoted, 0))
    ensures var close := Width(head) + Width(r.Front());
            && close <= |query|
            && Lex(query[..close] + ", " + quoted + (")" + rest), 0)
               == head + r.Front() + ([CommaSign, SpaceSign] + (Lex(quoted, 0) + ([CloseSign] + Lex(rest, 0))))
  {
    hide Lex, Width, Cut, AllClosed;
    HeadEnds(head, r);
    WidthConcat(head, r.Front());
    InsertFromStart(query, head + r.Front(), quoted, rest);
  }

  lemma InsertFromStart(q: string, front: seq<Lexeme>, x: string, rest: string)
    requires |front| < |Lex(q, 0)| && Lex(q, 0)[..|front|] == front && Lex(q, 0)[|front|].kind.Close?
             && AllClosed(Lex(x, 0))
    ensures Width(front) <= |q|
    ensures Lex(q[..Width(front)] + ", " + x + (")" + rest), 0)
         == front + ([CommaSign, SpaceSign] + (Lex(x, 0) + ([CloseSign] + Lex(rest, 0))))
  {
    hide Lex, Width, Cut, AllClosed;
    InsertLex(q, 0, |front|, x, rest);
    assert q[0..Width(front)] == q[..Width(front)];
  }

  lemma HeadEnds(head: seq<Lexeme>, r: RowParts)
    ensures var ls, j := head + r.All(), |head| + |r.Front()|;
            j < |ls| && ls[..j] == head + r.Front() && ls[j] == CloseSign
  {
  }

  /** The lexemes after the columns with a value in every row. */
  lemma AddFromParts(after: seq<Lexeme>, v: nat, x: seq<Lexeme>)
    requires v == Seek(after, 0, Keyword("values")) < |after|
    ensures AddFrom([CloseSign] + Sig(after), x)
         == match AddToRows(Sig(after[v + 1..]), x)
            case None => None
            case Some(r) => Some([CloseSign] + (Sig(after[..v + 1]) + r))
  {
    hide Seek, Sig, AddToRows, Hits;
    var rest := [CloseSign] + Sig(after);
    assert rest[1..] == Sig(after);
    SeekSig(after, 0, Keyword("values"));
    SeekHit(after, 0, Keyword("values"));
    assert after[..v + 1] == after[..v] + [after[v]];
    SigConcat(after[..v], [after[v]]);
    SigOne(after[v]);
    SigSplit(after, v + 1);
    var n := |Sig(after[..v + 1])|;
    assert rest[n + 1..] == Sig(after[v + 1..]) && rest[..n + 1] == [CloseSign] + Sig(after[..v + 1]);
    if AddToRows(Sig(after[v + 1..]), x).Some? {
      var r := AddToRows(Sig(after[v + 1..]), x).value;
      assert rest[..n + 1] + r == [CloseSign] + (Sig(after[..v + 1]) + r);
    }
  }

  lemma AfterBrackets(query: string, head: seq<Lexeme>, r: RowParts, v: nat)
    requires NoBrackets(Lex(query, 0)) && Lex(query, 0) == head + r.All() && v < |r.after|
    ensures NoBrackets(r.after[v + 1..])
  {
    hide Lex;
    forall l | l in r.after[v + 1..]
      ensures l in head + r.All()
    {
      assert l in r.after;
      assert l in r.All();
    }
  }

  lemma InsertedSig(head: seq<Lexeme>, r: RowParts, quoted: string, rest: string)
    requires r.Valid() && r.blank == []
    ensures Sig(head + r.Front() + ([CommaSign, SpaceSign] + (Lex(quoted, 0) + ([CloseSign] + Lex(rest, 0)))))
         == Sig(head) + [r.open] + (Sig(r.content) + ([CommaSign] + Tokens(quoted) + ([CloseSign] + Tokens(rest))))
  {
    hide Lex, Sig, CloseIndex;
    SigInserted(head + r.Front(), Lex(quoted, 0), Lex(rest, 0));
    SigConcat(head, r.Front());
    RowSig(r);
    var tail := [CloseSign] + Tokens(rest);
    assert Sig(head) + ([r.open] + Sig(r.content)) + ([CommaSign] + (Tokens(quoted) + tail))
        == Sig(head) + [r.open] + (Sig(r.content) + ([CommaSign] + Tokens(quoted) + tail));
  }

  lemma SigParts(head: seq<Lexeme>, r: RowParts)
    requires r.Valid()
    ensures Sig(head + r.All()) == Sig(head) + [r.open] + (Sig(r.content) + ([CloseSign] + Sig(r.after)))
  {
    hide Sig, CloseIndex;
    SigConcat(head, r.All());
    RowSig(r);
  }

  /** The rewritten text has the meaningful lexemes of the statement with one more column and value. */
  lemma TenantInsertTokens(query: string, column: string, quoted: string, name: string)
    requires NoBrackets(Lex(query, 0)) && AllClosed(Lex(quoted, 0)) && '}' !in name
    ensures var out := TenantInsert(query, column, quoted, name);
            out.Ok? && out.value.1 ==>
              AddColumn(Tokens(query), Tokens(quoted), Tokens(PlaceholderText(name))) == Some(Tokens(out.value.0))
  {
    hide Cut, Lex, Seek, CloseFrom, RowsText, ListContains, ColumnSpan, Sig, ColumnsAt, AddColumn, AddToRows,
         CloseIndex, Width, NoBrackets, AddFrom, PlaceholderText;
    var out := TenantInsert(query, column, quoted, name);
    if out.Ok? && out.value.1 {
      var head, r := ColumnParts(query);
      var close := ColumnSpan(query).value.1;
      var values, ph := ValuesEnd(query, close + 1), PlaceholderText(name);
      var v := Seek(r.after, 0, Keyword("values"));
      LexDrop(query, close + 1, v + 1);
      RowsTextFrom(query, close + 1, values, ph);
      var rest := RowsText(query, close + 1, values, ph).value;
      assert out.value.0 == query[..close] + ", " + quoted + (")" + rest);
      PlaceholderLex(name);
      AfterBrackets(query, head, r, v);
      RowsTokens(query, close + 1, values, v + 1, ph);
      AddFromParts(r.after, v, Tokens(ph));
      ColumnInserted(query, head, r, quoted, rest);
      InsertedSig(head, r, quoted, rest);
      SigParts(head, r);
      AddAt(Sig(head) + [r.open], Sig(r.content), [CloseSign] + Sig(r.after), Tokens(quoted), Tokens(ph));
    }
  }

  /**
   The tenant rewriting: one column after the others, one value after the others in every row, and nothing else changed.
   */
  lemma TenantInsertReads(query: string, column: string, quoted: string, name: string)
    requires NoBrackets(Lex(query, 0)) && AllClosed(Lex(quoted, 0)) && Single(Tokens(quoted)) && '}' !in name
    ensures var out := TenantInsert(query, column, quoted, name);
            out.Ok? && out.value.1 ==>
              var before, after := ReadInsert(Tokens(query)), ReadInsert(Tokens(out.value.0));
              && before.Some?
              && after == Some(before.value.(columns := before.value.columns + [Tokens(quoted)],
                                             rows := Extend(before.value.rows, Tokens(PlaceholderText(name)))))
  {
    hide Cut, Lex, Sig, TenantInsert, NoBrackets, ReadInsert, AddColumn;
    var out := TenantInsert(query, column, quoted, name);
    if out.Ok? && out.value.1 {
      TenantInsertTokens(query, column, quoted, name);
      PlaceholderSingle(name);
      AddedColumn(Tokens(query), Tokens(quoted), Tokens(PlaceholderText(name)));
    }
  }

  lemma PlaceholderSingle(name: string)
    requires '}' !in name
    ensures Single(Tokens(PlaceholderText(name)))
  {
    hide Lex;
    PlaceholderLex(name);
    var l := Lexeme(Placeholder, PlaceholderText(name), true);
    assert [l][1..] == [];
    assert Items([l], 0) == [[l]];
  }

  // ---- a second application ----

  /** The number of lexemes of white space and comments at the front. */
  function BlankCount(ls: seq<Lexeme>): (k: nat)
    ensures k <= |ls|
  {
    if ls != [] && IsBlank(ls[0]) then 1 + BlankCount(ls[1..]) else 0
  }

  /** The index of the parenthesis that comes next after white space and comments. */
  function OpenFrom(ls: seq<Lexeme>, b: nat): (k: Option<nat>)
    requires b <= |ls|
    ensures k.Some? ==> k.value < |ls| && ls[k.value].kind.Open?
  {
    var c := b + BlankCount(ls[b..]);
    if c < |ls| && ls[c].kind.Open? then Some(c) else None
  }

  /** The number of lexemes from after INTO to the parenthesis of the columns, if that is what follows. */
  function TableCount(ls: seq<Lexeme>): (k: Option<nat>)
    ensures k.Some? ==> k.value < |ls| && ls[k.value].kind.Open?
  {
    var a := BlankCount(ls);
    if a == |ls| || !IsSegment(ls[a]) then None
    else
      OpenFrom(ls, a + 1 + MoreCount(ls[a + 1..]))
  }

  lemma {:induction false} BlankCountIs(q: string, i: nat)
    requires i <= |q|
    ensures var k := BlankCount(Lex(q, i));
            SkipBlank(q, i) == i + Width(Lex(q, i)[..k]) && Lex(q, SkipBlank(q, i)) == Lex(q, i)[k..]
    decreases |q| - i
  {
    hide Cut;
    if i < |q| {
      var x := Cut(q, i);
      assert Lex(q, i)[1..] == Lex(q, x.end);
      if x.kind.Space? || x.kind.Comment? {
        BlankCountIs(q, x.end);
        TakeStep(q, i, BlankCount(Lex(q, i)));
      }
    }
  }

  lemma {:induction false} MoreCountIs(q: string, i: nat)
    requires i <= |q|
    ensures var k := MoreCount(Lex(q, i));
            MoreSegments(q, i) == i + Width(Lex(q, i)[..k]) && Lex(q, MoreSegments(q, i)) == Lex(q, i)[k..]
    decreases |q| - i
  {
    hide Cut, Lex, IsDot, IsSegment, SegmentEnd;
    EmptyLex(q, i);
    if i < |q| {
      var ls := Lex(q, i);
      DotIs(q, i);
      if q[i] == '.' {
        SegmentIs(q, i + 1);
        EmptyLex(q, i + 1);
        assert ls[1..] != [] ==> ls[1] == ls[1..][0];
        if SegmentEnd(q, i + 1).Some? {
          var n := SegmentEnd(q, i + 1).value;
          assert ls[1..][1..] == ls[2..];
          MoreCountIs(q, n);
          var k := MoreCount(ls[2..]);
          assert ls[..2 + k] == [ls[0]] + ([ls[1]] + ls[2..][..k]);
          assert ([ls[0]] + ([ls[1]] + ls[2..][..k]))[1..] == [ls[1]] + ls[2..][..k];
          assert ([ls[1]] + ls[2..][..k])[1..] == ls[2..][..k];
        }
      }
    }
  }

  /** The table name, found in the text, is the one found among the lexemes. */
  lemma TableNameIs(q: string, i: nat)
    requires i <= |q|
    ensures var ls := Lex(q, i);
            && (TableEnd(q, i).Some? <==> ls != [] && IsSegment(ls[0]))
            && (TableEnd(q, i).Some? ==>
                  var k := 1 + MoreCount(ls[1..]);
                  TableEnd(q, i).value == i + Width(ls[..k]) && Lex(q, TableEnd(q, i).value) == ls[k..])
  {
    hide Cut, Lex, SegmentEnd, MoreSegments, MoreCount, IsSegment, Width;
    var ls := Lex(q, i);
    EmptyLex(q, i);
    SegmentIs(q, i);
    if SegmentEnd(q, i).Some? {
      var n := SegmentEnd(q, i).value;
      MoreCountIs(q, n);
      var m := MoreCount(ls[1..]);
      assert ls[1..][m..] == ls[1 + m..] && ls[..0] == [];
      WidthChain(ls, 0, m, 0);
      assert ls[..0 + 1 + m + 0] == ls[..1 + m] && ls[0 + 1..] == ls[1..] && ls[1 + m..][..0] == [];
      NoWidth();
    }
  }

  lemma NoWidth()
    ensures Width([]) == 0
  {
  }

  lemma WidthSum(ls: seq<Lexeme>, a: nat, b: nat)
    requires a + b <= |ls|
    ensures Width(ls[..a + b]) == Width(ls[..a]) + Width(ls[a..][..b])
  {
    assert ls[..a + b] == ls[..a] + ls[a..][..b];
    WidthConcat(ls[..a], ls[a..][..b]);
  }

  /** Whether a parenthesis comes next, after white space and comments. */
  lemma BlankOpen(q: string, m: nat)
    requires m <= |q|
    ensures var ls := Lex(q, m); var n := BlankCount(ls);
            && (SkipBlank(q, m) < |q| && q[SkipBlank(q, m)] == '(' <==> n < |ls| && ls[n].kind.Open?)
            && SkipBlank(q, m) == m + Width(ls[..n])
  {
    hide Cut, Lex, BlankCount, SkipBlank, Width;
    BlankCountIs(q, m);
    var open, n := SkipBlank(q, m), BlankCount(Lex(q, m));
    EmptyLex(q, open);
    if open < |q| {
      ParenText(q, open);
      assert Lex(q, open)[0] == Lex(q, m)[n];
    }
  }

  /** The parenthesis of the columns, found in the text, is the one found among the lexemes. */
  lemma TableCountIs(q: string, start: nat)
    requires start <= |q|
    ensures var ls := Lex(q, start); var table := TableEnd(q, SkipBlank(q, start)); var k := TableCount(ls);
            && (k.Some? <==> table.Some? && SkipBlank(q, table.value) < |q| && q[SkipBlank(q, table.value)] == '(')
            && (k.Some? ==> SkipBlank(q, table.value) == start + Width(ls[..k.value]))
  {
    hide Cut, Lex, TableEnd, MoreCount, BlankCount, SkipBlank, IsSegment, Width;
    var ls := Lex(q, start);
    BlankCountIs(q, start);
    var i, a := SkipBlank(q, start), BlankCount(ls);
    TableNameIs(q, i);
    if TableEnd(q, i).Some? {
      var m := TableEnd(q, i).value;
      assert ls[a..][0] == ls[a] && ls[a..][1..] == ls[a + 1..];
      var k := 1 + MoreCount(ls[a + 1..]);
      WidthSum(ls, a, k);
      var b := a + k;
      assert ls[a..][k..] == ls[b..];
      BlankOpen(q, m);
      WidthSum(ls, b, BlankCount(ls[b..]));
    }
  }

  lemma WidthChain(ls: seq<Lexeme>, a: nat, m: nat, n: nat)
    requires a + 1 + m + n <= |ls|
    ensures Width(ls[..a + 1 + m + n])
         == Width(ls[..a]) + |ls[a].text| + Width(ls[a + 1..][..m]) + Width(ls[a + 1 + m..][..n])
  {
    assert ls[..a + 1 + m + n] == ls[..a] + ([ls[a]] + (ls[a + 1..][..m] + ls[a + 1 + m..][..n]));
    WidthConcat(ls[..a], [ls[a]] + (ls[a + 1..][..m] + ls[a + 1 + m..][..n]));
    WidthConcat([ls[a]], ls[a + 1..][..m] + ls[a + 1 + m..][..n]);
    WidthConcat(ls[a + 1..][..m], ls[a + 1 + m..][..n]);
    assert [ls[a]][1..] == [];
  }

  lemma {:induction false} BlankCountStops(t: seq<Lexeme>, o: Lexeme, a: seq<Lexeme>, b: seq<Lexeme>)
    requires o.kind.Open?
    ensures BlankCount(t + ([o] + a)) == BlankCount(t + ([o] + b)) <= |t|
  {
    if t != [] {
      assert (t + ([o] + a))[1..] == t[1..] + ([o] + a) && (t + ([o] + b))[1..] == t[1..] + ([o] + b);
      BlankCountStops(t[1..], o, a, b);
    }
  }

  lemma {:induction false} MoreCountStops(t: seq<Lexeme>, o: Lexeme, a: seq<Lexeme>, b: seq<Lexeme>)
    requires o.kind.Open?
    ensures MoreCount(t + ([o] + a)) == MoreCount(t + ([o] + b)) <= |t|
  {
    if |t| >= 2 {
      assert (t + ([o] + a))[2..] == t[2..] + ([o] + a) && (t + ([o] + b))[2..] == t[2..] + ([o] + b);
      MoreCountStops(t[2..], o, a, b);
    }
  }

  lemma SliceFront(t: seq<Lexeme>, u: seq<Lexeme>, k: nat)
    requires k <= |t|
    ensures (t + u)[k..] == t[k..] + u
  {
  }

  lemma TableFrom(ls: seq<Lexeme>, j: nat)
    requires var i := BlankCount(ls); i < |ls| && IsSegment(ls[i]) && j == i + 1 + MoreCount(ls[i + 1..])
    ensures TableCount(ls) == OpenFrom(ls, j)
  {
    hide BlankCount, MoreCount, IsSegment, OpenFrom;
  }

  lemma TableNone(ls: seq<Lexeme>)
    requires var i := BlankCount(ls); i < |ls| && !IsSegment(ls[i])
    ensures TableCount(ls).None?
  {
    hide BlankCount, MoreCount, IsSegment;
  }

  /** The search for the parenthesis does not look past it. */
  lemma TableCountStops(t: seq<Lexeme>, o: Lexeme, a: seq<Lexeme>, b: seq<Lexeme>)
    requires o.kind.Open?
    ensures TableCount(t + ([o] + a)) == TableCount(t + ([o] + b))
  {
    hide BlankCount, MoreCount, TableCount;
    var p, q := t + ([o] + a), t + ([o] + b);
    BlankCountStops(t, o, a, b);
    var i := BlankCount(p);
    if i < |t| && IsSegment(t[i]) {
      SliceFront(t, [o] + a, i + 1);
      SliceFront(t, [o] + b, i + 1);
      MoreCountStops(t[i + 1..], o, a, b);
      var j := i + 1 + MoreCount(p[i + 1..]);
      SliceFront(t, [o] + a, j);
      SliceFront(t, [o] + b, j);
      BlankCountStops(t[j..], o, a, b);
      TableFrom(p, j);
      TableFrom(q, j);
    } else {
      TableNone(p);
      TableNone(q);
    }
  }

  /** A span of columns is what INTO, the table name and matching parentheses give. */
  lemma SpanIs(query: string)
    ensures var ls := Lex(query, 0); var i := Seek(ls, 0, Keyword("into"));
            ColumnSpan(query).Ok? ==>
              && i < |ls| && Width(ls[..i + 1]) <= |query| && TableCount(ls[i + 1..]).Some?
              && ColumnSpan(query).value.0 == Width(ls[..i + 1]) + Width(ls[i + 1..][..TableCount(ls[i + 1..]).value])
    ensures ColumnSpan(query).Ok? ==>
              CloseFrom(query, ColumnSpan(query).value.0 + 1, 1) == ColumnSpan(query).value.1
  {
    hide Cut, Lex, TableEnd, CloseFrom, SkipBlank, Seek, TableCount, Width;
    var ls := Lex(query, 0);
    var i := Seek(ls, 0, Keyword("into"));
    if i < |ls| {
      WidthNext(query, i);
      TableCountIs(query, Width(ls[..i + 1]));
    }
  }

  /** The position after INTO and the name of the table. */
  function TablePosition(ls: seq<Lexeme>): Option<nat> {
    var i := Seek(ls, 0, Keyword("into"));
    if i == |ls| || TableCount(ls[i + 1..]).None? then None
    else Some(Width(ls[..i + 1]) + Width(ls[i + 1..][..TableCount(ls[i + 1..]).value]))
  }

  lemma SpanBy(query: string, open: nat)
    requires TablePosition(Lex(query, 0)) == Some(open) && open < |query| && CloseFrom(query, open + 1, 1) >= 0
    ensures ColumnSpan(query) == Ok((open, CloseFrom(query, open + 1, 1)))
  {
    hide Cut, Lex, TableEnd, CloseFrom, SkipBlank, Seek, TableCount, Width, SpanAfter;
    var ls := Lex(query, 0);
    var i := Seek(ls, 0, Keyword("into"));
    WidthNext(query, i);
    SpanOpens(query, Width(ls[..i + 1]), open);
  }

  lemma SpanOpens(query: string, start: nat, open: nat)
    requires start <= |query| && TableCount(Lex(query, start)).Some?
    requires open == start + Width(Lex(query, start)[..TableCount(Lex(query, start)).value])
    requires open < |query| && CloseFrom(query, open + 1, 1) >= 0
    ensures SpanAfter(query, start) == Ok((open, CloseFrom(query, open + 1, 1)))
  {
    hide Cut, Lex, TableEnd, CloseFrom, SkipBlank, TableCount, Width;
    TableCountIs(query, start);
  }

  /** Where INTO, the table and the parenthesis are, as a search from the left finds them. */
  predicate OpensAfter(into: seq<Lexeme>, t: seq<Lexeme>, from: seq<Lexeme>) {
    && into != []
    && Seek(into + (t + from), 0, Keyword("into")) == |into| - 1
    && TableCount(t + from) == Some(|t|)
  }

  /** INTO, the table and the parenthesis are found among the lexemes whatever follows the parenthesis. */
  lemma RewrittenOpen(into: seq<Lexeme>, t: seq<Lexeme>, o: Lexeme, a: seq<Lexeme>, b: seq<Lexeme>)
    requires o.kind.Open? && OpensAfter(into, t, [o] + a)
    ensures OpensAfter(into, t, [o] + b)
  {
    hide Seek, TableCount;
    SeekKeywordIn(into, t + ([o] + a), 0, "into");
    SeekKeywordIn(into, t + ([o] + b), 0, "into");
    TableCountStops(t, o, a, b);
  }

  /** The width of what comes before the parenthesis, in the two steps the text is read in. */
  lemma OpensWidth(into: seq<Lexeme>, t: seq<Lexeme>, from: seq<Lexeme>)
    requires OpensAfter(into, t, from)
    ensures var ls := into + (t + from); var i := Seek(ls, 0, Keyword("into"));
            && i < |ls| && TableCount(ls[i + 1..]) == Some(|t|)
            && Width(into + t) == Width(ls[..i + 1]) + Width(ls[i + 1..][..|t|])
  {
    hide Seek, TableCount, Width;
    Cutting(into, t + from);
    Cutting(t, from);
    WidthConcat(into, t);
  }

  /** What is between the parentheses of the rewritten columns. */
  lemma RewrittenColumns(out: string, open: nat, r: RowParts, x: seq<Lexeme>, tail: seq<Lexeme>)
    requires open < |out| && Lex(out, open + 1) == r.content + [CommaSign] + x + [CloseSign] + tail
    requires r.Valid() && Single(x) && NoBrackets(r.content) && NoBrackets(x)
    ensures var close := CloseFrom(out, open + 1, 1);
            open < close < |out| && Lex(out[open + 1..close], 0) == r.content + [CommaSign] + x
    ensures Items(r.content + [CommaSign] + x, 0) == Items(r.content, 0) + [x]
  {
    hide Cut, Lex, CloseFrom, Width, CloseIndex, Items, Single, Sig, NoBrackets;
    var inner := r.content + [CommaSign] + x + [CloseSign] + tail;
    CloseAfterAdding(r.content, [CloseSign] + r.after, x, CloseSign, tail);
    var k := CloseIndex(inner, 1);
    assert inner[..k] == r.content + [CommaSign] + x && inner[k] == CloseSign;
    AddedBrackets(r.content, x);
    CloseFromIsClose(out, open + 1, 1);
    ClosedBefore(out, open + 1, k);
    LexTakeClosed(out, open + 1, k);
    LexDrop(out, open + 1, k);
    var close := open + 1 + Width(inner[..k]);
    EmptyLex(out, close);
    assert out[..close][open + 1..] == out[open + 1..close];
    LexShift(out[..close], open + 1, 0);
  }

  lemma OpenSpan(out: string, into: seq<Lexeme>, t: seq<Lexeme>, from: seq<Lexeme>)
    requires Lex(out, 0) == into + (t + from) && OpensAfter(into, t, from)
    requires Width(into + t) < |out| && CloseFrom(out, Width(into + t) + 1, 1) >= 0
    ensures ColumnSpan(out) == Ok((Width(into + t), CloseFrom(out, Width(into + t) + 1, 1)))
  {
    hide Cut, Lex, CloseFrom, Seek, TableCount, Width, ColumnSpan, OpensAfter;
    OpensWidth(into, t, from);
    SpanBy(out, Width(into + t));
  }

  /** The columns of a rewritten INSERT, from its lexemes. */
  lemma SpanOfRewritten(out: string, into: seq<Lexeme>, t: seq<Lexeme>, r: RowParts, x: seq<Lexeme>, tail: seq<Lexeme>)
    requires r.Valid() && OpensAfter(into, t, [r.open] + (r.content + ([CloseSign] + r.after)))
    requires Single(x) && NoBrackets(r.content) && NoBrackets(x)
    requires Lex(out, 0) == into + (t + ([r.open] + (r.content + [CommaSign] + x + [CloseSign] + tail)))
    ensures var open := Width(into + t);
            && ColumnSpan(out).Ok? && ColumnSpan(out).value.0 == open < |out|
            && Lex(out[open + 1..ColumnSpan(out).value.1], 0) == r.content + [CommaSign] + x
            && Items(r.content + [CommaSign] + x, 0) == Items(r.content, 0) + [x]
  {
    hide Cut, Lex, CloseFrom, Seek, TableCount, Width, ColumnSpan, CloseIndex, Items, Single, Sig, NoBrackets,
         OpensAfter;
    var inner := r.content + [CommaSign] + x + [CloseSign] + tail;
    RewrittenOpen(into, t, r.open, r.content + ([CloseSign] + r.after), inner);
    OpenOfRewritten(out, into, t, r.open, inner);
    RewrittenColumns(out, Width(into + t), r, x, tail);
    OpenSpan(out, into, t, [r.open] + inner);
  }

  /** What is read after the parenthesis of the columns. */
  lemma OpenOfRewritten(out: string, into: seq<Lexeme>, t: seq<Lexeme>, o: Lexeme, b: seq<Lexeme>)
    requires o.kind.Open? && Lex(out, 0) == into + (t + ([o] + b))
    ensures Width(into + t) < |out| && Lex(out, Width(into + t) + 1) == b
  {
    hide Cut, Lex, Width;
    assert into + (t + ([o] + b)) == (into + t) + ([o] + b);
    Cutting(into + t, [o] + b);
    LexDrop(out, 0, |into + t|);
    var open := Width(into + t);
    EmptyLex(out, open);
    ParenText(out, open);
    OpenStep(out, open);
    assert ([o] + b)[1..] == b;
  }

  lemma AddedBrackets(content: seq<Lexeme>, x: seq<Lexeme>)
    requires NoBrackets(content) && NoBrackets(x)
    ensures NoBrackets(content + [CommaSign] + x)
  {
  }

  /** The name of the item that was added. */
  lemma {:induction false} TextsLast(items: seq<seq<Lexeme>>, x: seq<Lexeme>)
    ensures TextOf(x) in Texts(items + [x])
  {
    if items == [] {
      assert items + [x] == [x];
    } else {
      assert (items + [x])[1..] == items[1..] + [x];
      TextsLast(items[1..], x);
      var i :| 0 <= i < |Texts(items[1..] + [x])| && Texts(items[1..] + [x])[i] == TextOf(x);
      assert Texts(items + [x])[i + 1] == TextOf(x);
    }
  }

  /** Reading back a doubled name. */
  lemma {:induction false} UndoubledDoubled(name: string, c: char)
    ensures Undoubled(Doubled(name, c), c) == name
  {
    if name != "" {
      var rest := Doubled(name[1..], c);
      UndoubledDoubled(name[1..], c);
      if name[0] == c {
        assert ([c, c] + rest)[2..] == rest;
      } else {
        assert ([name[0]] + rest)[1..] == rest;
      }
    }
  }

  lemma QuotedLex(d: Dialect, name: string)
    requires !d.SqlServer?
    ensures Lex(QuoteIdent(d, name), 0) == [Lexeme(Quoted, QuoteIdent(d, name), true)]
  {
    var q := QuoteIdent(d, name);
    assert q + "" == q;
    QuotedNameReadsBack(d, name, "");
    assert q[0..|q|] == q;
    assert Lex(q, |q|) == [];
    assert Lex(q, 0) == [Lexeme(Quoted, q[0..|q|], true)] + Lex(q, |q|);
  }

  /** The added item has the key of the name it was made from. */
  lemma QuotedKey(d: Dialect, name: string)
    requires !d.SqlServer?
    ensures ItemKey(" " + QuoteIdent(d, name)) == NormalizeColumnKey(LastIdentifierPart(name))
  {
    hide NormalizeColumnKey, LastIdentifierPart, QuoteIdent, Text.TrimSpace, UnquoteSqlIdentifier;
    QuotedUnquoted(d, name);
    assert QuoteIdent(d, name) == Text.TrimSpace(" " + QuoteIdent(d, name));
  }

  /** Quotes are undone for every name, but doubled closing brackets stay doubled. */
  lemma QuotedUnquoted(d: Dialect, name: string)
    ensures var q := QuoteIdent(d, name); Text.TrimSpace(" " + q) == q
    ensures UnquoteSqlIdentifier(QuoteIdent(d, name)) == if d.SqlServer? then Doubled(name, ']') else name
  {
    hide Doubled, Undoubled, Text.TrimSpace;
    var q, c := QuoteIdent(d, name), CloseQuote(d);
    var inner := Doubled(name, c);
    UndoubledDoubled(name, c);
    assert q == [OpenQuote(d)] + inner + [c];
    TrimLed(q);
    assert q[1..|q| - 1] == inner;
  }

  lemma TrimLed(q: string)
    requires q != "" && !Text.IsSpace(q[0]) && !Text.IsSpace(q[|q| - 1])
    ensures Text.TrimSpace(" " + q) == q && Text.TrimSpace(q) == q
  {
    assert (" " + q)[1..] == q;
    assert Text.TrimLeft(" " + q, Text.IsSpace) == Text.TrimLeft(q, Text.IsSpace);
  }

  /** The text of an INSERT around its columns, with the table counted among the lexemes. */
  lemma TableParts(query: string) returns (into: seq<Lexeme>, t: seq<Lexeme>, r: RowParts)
    requires ColumnSpan(query).Ok? && NoBrackets(Lex(query, 0))
    ensures var a := r.content + ([CloseSign] + r.after);
            && into != [] && r.Valid() && r.blank == []
            && Lex(query, 0) == into + (t + ([r.open] + a)) == (into + t) + r.All()
            && OpensAfter(into, t, [r.open] + a)
    ensures ColumnSpan(query).value.1 == Width(into + t) + Width(r.Front())
    ensures NoBrackets(r.content)
  {
    hide Cut, Lex, CloseFrom, Seek, TableCount, Width, CloseIndex, Sig, SkipBlank, ColumnSpan, NoBrackets;
    SpanIs(query);
    var ls := Lex(query, 0);
    var i := Seek(ls, 0, Keyword("into"));
    var k := TableCount(ls[i + 1..]).value;
    into, t := ls[..i + 1], ls[i + 1..][..k];
    var open := ColumnSpan(query).value.0;
    assert ls[..i + 1 + k] == into + t;
    WidthConcat(into, t);
    LexDrop(query, 0, i + 1 + k);
    InnerBrackets(ls, i + 1 + k);
    SkipNothing(query, open);
    r := RowAt(query, open);
    RowBlank(r, query, open);
    assert ls == (into + t) + ls[i + 1 + k..];
    assert r.All() == [r.open] + (r.content + ([CloseSign] + r.after));
    assert (into + t) + r.All() == into + (t + r.All());
    assert ls[i + 1..] == t + r.All();
    ContentBrackets(r);
  }

  lemma ContentBrackets(r: RowParts)
    requires NoBrackets(r.All())
    ensures NoBrackets(r.content)
  {
    forall l | l in r.content
      ensures l in r.All()
    {
    }
  }

  /**
   Rewriting a second time changes nothing, for a column name of one part, exactly when the name has a character that
   counts: the comparison of column names drops underscores, so a name made of them is not recognised and added again.
   */
  lemma TenantInsertTwice(query: string, d: Dialect, column: string, name: string, again: string)
    requires NoBrackets(Lex(query, 0)) && !d.SqlServer? && '}' !in name
    requires var out := TenantInsert(query, column, QuoteIdent(d, column), name); out.Ok? && out.value.1
    ensures var out := TenantInsert(query, column, QuoteIdent(d, column), name).value.0;
            TenantInsert(out, column, QuoteIdent(d, column), again) == Ok((out, false))
            <==> NormalizeColumnKey(LastIdentifierPart(column)) != ""
  {
    hide Cut, Lex, CloseFrom, Seek, TableCount, Width, ColumnSpan, CloseIndex, Items, Single, Sig, NoBrackets,
         RowsText, NormalizeColumnKey, LastIdentifierPart, ItemKey, Texts, PlaceholderText, QuoteIdent;
    var quoted := QuoteIdent(d, column);
    var out := TenantInsert(query, column, quoted, name).value.0;
    var into, t, r := TableParts(query);
    var close := ColumnSpan(query).value.1;
    var values := ValuesEnd(query, close + 1);
    var rest := query[close + 1..values] + RowsText(query, values, values, PlaceholderText(name)).value;
    QuotedLex(d, column);
    ColumnInserted(query, into + t, r, quoted, rest);
    var l := Lexeme(Quoted, quoted, true);
    var x := [SpaceSign, l];
    QuotedItem(l);
    assert Lex(out, 0) == into + (t + ([r.open] + (r.content + [CommaSign] + x + [CloseSign] + Lex(rest, 0))));
    SpanOfRewritten(out, into, t, r, x, Lex(rest, 0));
    TextsLast(Items(r.content, 0), x);
    QuotedKey(d, column);
  }

  lemma QuotedItem(l: Lexeme)
    requires l.kind.Quoted?
    ensures Single([SpaceSign, l]) && NoBrackets([SpaceSign, l]) && TextOf([SpaceSign, l]) == " " + l.text
  {
    var x := [SpaceSign, l];
    assert x[1..] == [l] && [l][1..] == [];
    assert Items([], 0) == [[]];
    assert Items([l], 0) == [[l] + []] + [];
    assert [l] + [] == [l];
    assert Items(x, 0) == [[SpaceSign] + [l]] + [];
    assert [SpaceSign] + [l] == x;
    assert TextOf([l]) == l.text + "" == l.text;
  }
}
