/**
 `containsSQLColumn` of entity_interceptor.go and the readers of column names it uses, proved to be a search over the
 lexemes of the text; and `quoteIdentifierPath` of wrapper.go, which writes the names it looks for.
 */
module SqlColumns {
  import opened Prelude
  import opened SqlLexer
  import opened SqlScan
  import opened SqlList
  import opened SqlNames

  // ---- reading a name ----

  /** One part of a name and where it ends. */
  function NameSegment(q: string, i: nat): (r: Option<(string, nat)>)
    ensures r.Some? <==> SegmentEnd(q, i).Some?
    ensures r.Some? ==> i < r.value.1 <= |q| && r.value.1 == SegmentEnd(q, i).value
  {
    match SegmentEnd(q, i)
    case None => None
    case Some(n) =>
      if q[i] == '"' || q[i] == '`' then Some((QuotedText(q, i + 1, q[i]), n))
      else if q[i] == '[' then Some((QuotedText(q, i + 1, ']'), n))
      else Some((q[i..n], n))
  }

  /** The last part of a dotted name of which one part has been read, and where it ends. */
  function LastSegment(q: string, last: string, i: nat): (r: (string, nat))
    requires i <= |q|
    ensures i <= r.1 <= |q|
    decreases |q| - i
  {
    if i < |q| && q[i] == '.' && NameSegment(q, i + 1).Some? then
      var s := NameSegment(q, i + 1).value;
      LastSegment(q, s.0, s.1)
    else (last, i)
  }

  /** The last part of the dotted name at an index, and where the name ends. */
  function NamePath(q: string, i: nat): (r: Option<(string, nat)>)
    ensures r.Some? ==> i < r.value.1 <= |q|
  {
    match NameSegment(q, i)
    case None => None
    case Some(s) => Some(LastSegment(q, s.0, s.1))
  }

  method ReadSqlIdentifierNameSegment(query: string, index: nat) returns (name: string, next: nat, ok: bool)
    ensures NameSegment(query, index) == if ok then Some((name, next)) else None
  {
    name, next, ok := "", index, false;
    if index >= |query| {
      return;
    }
    match query[index]
    case '"' =>
      name, next, ok := ReadSqlQuotedIdentifier(query, index, '"');
    case '`' =>
      name, next, ok := ReadSqlQuotedIdentifier(query, index, '`');
    case '[' =>
      name, next, ok := ReadSqlQuotedIdentifier(query, index, ']');
    case _ =>
      if IsIdentStart(query[index]) {
        next := ReadSqlWord(query, index + 1);
        return query[index..next], next, true;
      }
  }

  method ReadSqlIdentifierNamePath(query: string, index: nat) returns (last: string, next: nat, ok: bool)
    ensures NamePath(query, index) == if ok then Some((last, next)) else None
  {
    last, next, ok := ReadSqlIdentifierNameSegment(query, index);
    if !ok {
      return "", index, false;
    }
    while next < |query| && query[next] == '.'
      invariant next <= |query| && Some(LastSegment(query, last, next)) == NamePath(query, index)
      decreases |query| - next
    {
      var name, after, more := ReadSqlIdentifierNameSegment(query, next + 1);
      if !more {
        break;
      }
      last, next := name, after;
    }
  }

  // ---- looking for a column ----

  /** The parenthesis at an index opens a subquery. */
  predicate StartsSubquery(q: string, i: nat)
    requires i < |q|
  {
    q[i] == '(' && var next := Lex(q, SkipBlank(q, i + 1)); NextIs(next, "select") || NextIs(next, "with")
  }

  method SqlParenStartsSubquery(query: string, index: nat) returns (starts: bool)
    ensures starts == (index < |query| && StartsSubquery(query, index))
  {
    hide Lex, SkipBlank, NextIs;
    if index >= |query| || query[index] != '(' {
      return false;
    }
    var next := SkipSqlSpacesAndComments(query, index + 1);
    starts := HasSqlKeywordAt(query, next, "select");
    if !starts {
      starts := HasSqlKeywordAt(query, next, "with");
    }
  }

  /** The lexemes the search jumps over. */
  predicate Passed(k: Kind) {
    k.Comment? || k.Literal? || k.Placeholder?
  }

  /** A name with the given key occurs from an index on, outside comments, literals, placeholders and subqueries. */
  predicate ContainsFrom(q: string, i: nat, target: string)
    requires i <= |q|
    decreases |q| - i
  {
    if i == |q| then false
    else if Passed(Cut(q, i).kind) then ContainsFrom(q, Cut(q, i).end, target)
    else if StartsSubquery(q, i) then
      CloseFromBounds(q, i + 1, 1);
      var close := CloseFrom(q, i + 1, 1);
      close >= 0 && ContainsFrom(q, close + 1, target)
    else
      match NamePath(q, i)
      case Some(name) => NormalizeColumnKey(name.0) == target || ContainsFrom(q, name.1, target)
      case None => ContainsFrom(q, i + 1, target)
  }

  /** The key a column is looked for by. */
  function KeyOf(column: string): string {
    NormalizeColumnKey(LastIdentifierPart(column))
  }

  predicate ContainsColumn(q: string, column: string) {
    KeyOf(column) != "" && ContainsFrom(q, 0, KeyOf(column))
  }

  method ContainsSqlColumn(query: string, column: string) returns (found: bool)
    ensures found == ContainsColumn(query, column)
  {
    hide Cut, Lex, NormalizeColumnKey, LastIdentifierPart, StartsSubquery, NamePath, CloseFrom;
    var target := NormalizeColumnKey(LastIdentifierPart(column));
    if target == "" {
      return false;
    }
    var index: nat := 0;
    while index < |query|
      invariant index <= |query| && ContainsFrom(query, index, target) == ContainsFrom(query, 0, target)
      decreases |query| - index
    {
      PassedAt(query, index);
      var next, ok := SkipSqlComment(query, index);
      if ok {
        index := next;
        continue;
      }
      if query[index] == '\'' {
        index := SkipSqlQuoted(query, index, '\'');
        continue;
      }
      if query[index] == '#' || query[index] == '$' {
        next, ok := SkipSqlPlaceholder(query, index);
        if ok {
          index := next;
          continue;
        }
      }
      var starts := SqlParenStartsSubquery(query, index);
      if starts {
        ParenOpens(query, index);
        next, ok := FindClosingSqlParen(query, index);
        if !ok {
          return false;
        }
        CloseFromBounds(query, index + 1, 1);
        index := next + 1;
        continue;
      }
      var name, after, named := ReadSqlIdentifierNamePath(query, index);
      if named {
        if NormalizeColumnKey(name) == target {
          return true;
        }
        index := after;
        continue;
      }
      index := index + 1;
    }
    return false;
  }

  lemma ParenOpens(q: string, i: nat)
    requires i < |q| && StartsSubquery(q, i)
    ensures q[i] == '('
  {
  }

  lemma PassedAt(q: string, i: nat)
    requires i < |q|
    ensures Passed(Cut(q, i).kind) <==>
            Cut(q, i).kind.Comment? || q[i] == '\'' || ((q[i] == '#' || q[i] == '$') && Cut(q, i).kind.Placeholder?)
    ensures q[i] == '\'' ==> Cut(q, i).kind.Literal? && Cut(q, i).end == QuoteEnd(q, i + 1, '\'').0
  {
    hide QuoteEnd, LineEnd, BlockEnd, BraceEnd, WordEnd;
  }

  // ---- the same search, over lexemes ----

  /** The name a lexeme is, without its quotes. */
  function NameOf(l: Lexeme): string {
    if l.kind.Quoted? && l.text != "" then QuotedText(l.text, 1, l.text[0])
    else if l.kind.Bracketed? && l.text != "" then QuotedText(l.text, 1, ']')
    else l.text
  }

  predicate SubqueryNext(ls: seq<Lexeme>) {
    NextIs(Sig(ls), "select") || NextIs(Sig(ls), "with")
  }

  predicate OpensSubquery(ls: seq<Lexeme>) {
    ls != [] && ls[0].kind.Open? && SubqueryNext(ls[1..])
  }

  /** The number of lexemes of the dotted name at the front. */
  function PathCount(ls: seq<Lexeme>): (n: nat)
    requires ls != []
    ensures 0 < n <= |ls|
  {
    1 + MoreCount(ls[1..])
  }

  predicate Finds(ls: seq<Lexeme>, target: string)
    decreases |ls|
  {
    if ls == [] then false
    else if OpensSubquery(ls) then
      var k := CloseIndex(ls[1..], 1);
      k < |ls| - 1 && Finds(ls[k + 2..], target)
    else if IsSegment(ls[0]) then
      NormalizeColumnKey(NameOf(ls[PathCount(ls) - 1])) == target || Finds(ls[PathCount(ls)..], target)
    else Finds(ls[1..], target)
  }

  lemma SubqueryIs(q: string, i: nat)
    requires i < |q|
    ensures StartsSubquery(q, i) <==> OpensSubquery(Lex(q, i))
  {
    hide Cut, Sig, NextIs, SkipBlank;
    ParenText(q, i);
    LexFrom(q, i);
    if q[i] == '(' {
      SkipBlankSig(q, i + 1);
      EmptyLex(q, SkipBlank(q, i + 1));
      assert Lex(q, i)[1..] == Lex(q, i + 1);
      NextSig(Lex(q, SkipBlank(q, i + 1)), Lex(q, i + 1));
    }
  }

  /** When the first meaningful lexeme is the first one, or there is none. */
  lemma NextSig(at: seq<Lexeme>, all: seq<Lexeme>)
    requires if at == [] then Sig(all) == [] else Sig(all) != [] && Sig(all)[0] == at[0]
    ensures SubqueryNext(all) <==> NextIs(at, "select") || NextIs(at, "with")
  {
    hide Is, Sig;
  }

  lemma {:induction false} QuotedShift(q: string, n: nat, i: nat, quote: char)
    requires n + i <= |q|
    ensures QuotedText(q[n..], i, quote) == QuotedText(q, n + i, quote)
    decreases |q| - n - i
  {
    if n + i < |q| {
      if q[n + i] != quote {
        QuotedShift(q, n, i + 1, quote);
      } else if n + i + 1 < |q| && q[n + i + 1] == quote {
        QuotedShift(q, n, i + 2, quote);
      }
    }
  }

  /** A quoted name is read the same when nothing follows it. */
  lemma {:induction false} QuotedAlone(q: string, i: nat, quote: char)
    requires i <= |q| && QuoteEnd(q, i, quote).1
    ensures var n := QuoteEnd(q, i, quote).0; QuotedText(q[..n], i, quote) == QuotedText(q, i, quote)
    decreases |q| - i
  {
    var n := QuoteEnd(q, i, quote).0;
    if i < |q| {
      if q[i] != quote {
        QuotedAlone(q, i + 1, quote);
      } else if i + 1 < |q| && q[i + 1] == quote {
        QuotedAlone(q, i + 2, quote);
      }
    }
  }

  lemma QuotedName(q: string, i: nat, quote: char)
    requires i < |q| && QuoteEnd(q, i + 1, quote).1
    ensures var n := QuoteEnd(q, i + 1, quote).0; i < n && QuotedText(q[i..n], 1, quote) == QuotedText(q, i + 1, quote)
  {
    hide QuotedText;
    var n := QuoteEnd(q, i + 1, quote).0;
    QuotedAlone(q, i + 1, quote);
    QuotedShift(q[..n], i, 1, quote);
    assert q[..n][i..] == q[i..n];
  }

  /** The part of a name at an index is the lexeme there. */
  lemma SegmentName(q: string, i: nat)
    requires i <= |q|
    ensures NameSegment(q, i).Some? <==> i < |q| && IsSegment(Lex(q, i)[0])
    ensures NameSegment(q, i).Some? ==>
              NameSegment(q, i).value.0 == NameOf(Lex(q, i)[0]) && Lex(q, NameSegment(q, i).value.1) == Lex(q, i)[1..]
  {
    hide Lex, QuoteEnd, WordEnd, QuotedText;
    SegmentIs(q, i);
    if i < |q| && SegmentEnd(q, i).Some? {
      var n := SegmentEnd(q, i).value;
      LexFrom(q, i);
      SegmentCut(q, i);
      assert q[i..n][0] == q[i];
      if q[i] == '"' || q[i] == '`' {
        QuotedName(q, i, q[i]);
      } else if q[i] == '[' {
        QuotedName(q, i, ']');
      }
    }
  }

  /** The rest of a dotted name. */
  lemma {:induction false} LastSegmentIs(q: string, last: string, i: nat)
    requires i <= |q|
    ensures var k := MoreCount(Lex(q, i)); var s := LastSegment(q, last, i);
            && Lex(q, s.1) == Lex(q, i)[k..]
            && s.0 == if k == 0 then last else NameOf(Lex(q, i)[k - 1])
    decreases |q| - i
  {
    hide Lex, NameOf, NameSegment, IsSegment, IsDot;
    EmptyLex(q, i);
    if i < |q| {
      DotIs(q, i);
      if q[i] == '.' {
        SegmentName(q, i + 1);
        EmptyLex(q, i + 1);
        if NameSegment(q, i + 1).Some? {
          var s := NameSegment(q, i + 1).value;
          LastSegmentIs(q, s.0, s.1);
          assert Lex(q, i)[2..] == Lex(q, s.1);
        }
      }
    }
  }

  lemma NamePathIs(q: string, i: nat)
    requires i < |q|
    ensures NamePath(q, i).Some? <==> IsSegment(Lex(q, i)[0])
    ensures NamePath(q, i).Some? ==>
              var n := PathCount(Lex(q, i));
              NamePath(q, i).value.0 == NameOf(Lex(q, i)[n - 1]) && Lex(q, NamePath(q, i).value.1) == Lex(q, i)[n..]
  {
    hide Lex, NameOf, NameSegment, IsSegment, MoreCount, LastSegment;
    EmptyLex(q, i);
    SegmentName(q, i);
    if NameSegment(q, i).Some? {
      var s := NameSegment(q, i).value;
      LastSegmentIs(q, s.0, s.1);
    }
  }

  /** After a lexeme that is no name and nothing to jump over, the search goes on with the next one. */
  lemma SingleStep(q: string, i: nat)
    requires i < |q| && Lex(q, i)[0].closed && !Passed(Lex(q, i)[0].kind) && !IsSegment(Lex(q, i)[0])
    ensures Lex(q, i + 1) == Lex(q, i)[1..]
  {
    hide QuoteEnd, LineEnd, BlockEnd, BraceEnd, WordEnd;
    LexFrom(q, i);
  }

  /** No name in brackets, where a parenthesis would be counted, or no parenthesis. */
  predicate Skippable(ls: seq<Lexeme>) {
    NoBrackets(ls) || forall l <- ls :: !l.kind.Open?
  }

  /**
   The search over characters is the search over lexemes, when these are closed and there are no names in brackets
   beside parentheses.
   */
  lemma {:induction false} ContainsIsFinds(q: string, i: nat, target: string)
    requires i <= |q| && Tidy(Lex(q, i)) && Skippable(Lex(q, i))
    ensures ContainsFrom(q, i, target) <==> Finds(Lex(q, i), target)
    decreases |q| - i
  {
    hide Lex, Cut, NameOf, NamePath, IsSegment, PathCount, StartsSubquery, OpensSubquery, NormalizeColumnKey,
         CloseFrom, CloseIndex;
    EmptyLex(q, i);
    if i < |q| {
      var ls := Lex(q, i);
      LexFrom(q, i);
      SubqueryIs(q, i);
      NamePathIs(q, i);
      Sublists(ls);
      if Passed(Cut(q, i).kind) {
        PassedIsNoName(ls[0]);
        ContainsIsFinds(q, Cut(q, i).end, target);
      } else if StartsSubquery(q, i) {
        OpensIs(ls);
        assert ls[0] in ls;
        SubqueryStep(q, i);
        CloseFromBounds(q, i + 1, 1);
        if CloseFrom(q, i + 1, 1) >= 0 { ContainsIsFinds(q, CloseFrom(q, i + 1, 1) + 1, target); }
      } else if NamePath(q, i).Some? {
        ContainsIsFinds(q, NamePath(q, i).value.1, target);
      } else {
        SingleStep(q, i);
        ContainsIsFinds(q, i + 1, target);
      }
    }
  }

  lemma PassedIsNoName(l: Lexeme)
    requires Passed(l.kind)
    ensures !IsSegment(l) && forall rest :: !OpensSubquery([l] + rest)
  {
  }

  lemma Sublists(ls: seq<Lexeme>)
    requires Tidy(ls) && Skippable(ls)
    ensures forall k :: 0 <= k <= |ls| ==> Tidy(ls[k..]) && Skippable(ls[k..])
  {
  }

  /** Jumping over a subquery. */
  lemma SubqueryStep(q: string, i: nat)
    requires i < |q| && StartsSubquery(q, i) && NoBrackets(Lex(q, i))
    ensures var ls := Lex(q, i); var k := CloseIndex(ls[1..], 1); var close := CloseFrom(q, i + 1, 1);
            && OpensSubquery(ls) && (close >= 0 <==> k < |ls| - 1)
            && (close >= 0 ==> close < |q| && Lex(q, close + 1) == ls[k + 2..])
  {
    hide Cut, Lex, CloseFrom, CloseIndex, SubqueryNext, SkipBlank, Width;
    SubqueryIs(q, i);
    LexFrom(q, i);
    ParenText(q, i);
    var inner := Lex(q, i + 1);
    var k := CloseIndex(inner, 1);
    assert NoBrackets(inner[..k]);
    CloseFromIsClose(q, i + 1, 1);
    LexDrop(q, i + 1, k);
    if k < |inner| {
      var close := i + 1 + Width(inner[..k]);
      EmptyLex(q, close);
      CloseIndexHit(inner, 1);
      ParenText(q, close);
      LexFrom(q, close);
      assert Lex(q, i)[k + 2..] == inner[k + 1..] == Lex(q, close)[1..];
    }
  }

  /** A list that does not go on with a dot. */
  predicate NoDotNext(ls: seq<Lexeme>) {
    ls == [] || !IsDot(ls[0])
  }

  lemma OpensIs(ls: seq<Lexeme>)
    ensures OpensSubquery(ls) <==> ls != [] && ls[0].kind.Open? && SubqueryNext(ls[1..])
    ensures OpensSubquery(ls) ==> !IsSegment(ls[0])
  {
  }
}
