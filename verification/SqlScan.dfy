/**
 The index loops of interceptor.go and dialect.go that look for keywords outside literals, comments, quotes,
 placeholders and parentheses. Each loop is proved to be the same search over the lexemes of the query.
 */
module SqlScan {
  import opened SqlLexer
  import opened Text

  // ---- the search, over lexemes ----

  predicate Is(l: Lexeme, keyword: string) {
    l.kind.Word? && EqualFold(l.text, keyword)
  }

  predicate NextIs(ts: seq<Lexeme>, keyword: string) {
    ts != [] && Is(ts[0], keyword)
  }

  predicate FirstCharIn(ts: seq<Lexeme>, chars: string) {
    ts != [] && ts[0].text != "" && ts[0].text[0] in chars
  }

  /** What may follow LIMIT or OFFSET when it is a clause and not a name. */
  predicate ArgumentFollows(ts: seq<Lexeme>) {
    FirstCharIn(ts, "0123456789?:(#$") || NextIs(ts, "all")
  }

  /** What follows HAVING when it is the name of a column and not a clause. */
  predicate PredicateFollows(ts: seq<Lexeme>) {
    || FirstCharIn(ts, "=<>!")
    || NextIs(ts, "is") || NextIs(ts, "in") || NextIs(ts, "like")
    || NextIs(ts, "ilike") || NextIs(ts, "between") || NextIs(ts, "not")
  }

  /** What a scanner looks for at depth zero. */
  datatype Target = Keyword(keyword: string) | OrderBy | Tail(grouping: bool)

  /** The word `w` followed by the meaningful lexemes `after` starts a clause that ends the WHERE part. */
  predicate TailClause(w: Lexeme, after: seq<Lexeme>, grouping: bool) {
    if Is(w, "order") then NextIs(after, "by")
    else if Is(w, "group") then grouping && NextIs(after, "by")
    else if Is(w, "having") then grouping && !PredicateFollows(after)
    else if Is(w, "fetch") then NextIs(after, "first") || NextIs(after, "next")
    else if Is(w, "for") then
      NextIs(after, "update") || NextIs(after, "share") || NextIs(after, "no") || NextIs(after, "key")
    else (Is(w, "limit") || Is(w, "offset")) && ArgumentFollows(after)
  }

  /** The word `w` followed by the meaningful lexemes `after` is what the scanner looks for. */
  predicate Hits(t: Target, w: Lexeme, after: seq<Lexeme>) {
    match t
    case Keyword(keyword) => Is(w, keyword)
    case OrderBy => Is(w, "order") && NextIs(after, "by")
    case Tail(grouping) => TailClause(w, after, grouping)
  }

  /** The nesting depth after a lexeme; a stray closing parenthesis does not go below zero. */
  function Step(depth: nat, kind: Kind): nat {
    if kind.Open? then depth + 1
    else if kind.Close? && depth > 0 then depth - 1
    else depth
  }

  /** The index of the first hit at depth zero, or the number of lexemes. */
  function Seek(ls: seq<Lexeme>, depth: nat, t: Target): (k: nat)
    ensures k <= |ls|
  {
    if ls == [] then 0
    else if depth == 0 && ls[0].kind.Word? && Hits(t, ls[0], Sig(ls[1..])) then 0
    else 1 + Seek(ls[1..], Step(depth, ls[0].kind), t)
  }

  /** The index after the first FROM at depth zero, or the number of lexemes. */
  function AfterFromIndex(ls: seq<Lexeme>): (k: nat)
    ensures k <= |ls|
  {
    var from := Seek(ls, 0, Keyword("from"));
    if from == |ls| then |ls| else from + 1
  }

  /** Where the search for a trailing clause starts: after FROM in a SELECT, else at the beginning. */
  function ScanStart(ls: seq<Lexeme>): (k: nat)
    ensures k <= |ls|
  {
    if NextIs(Sig(ls), "select") then AfterFromIndex(ls)
    else if !NextIs(Sig(ls), "with") || Seek(ls, 0, Keyword("select")) == |ls| then 0
    else AfterFromIndex(ls)
  }

  /** The index of the first trailing clause, or the number of lexemes. */
  function TailIndex(ls: seq<Lexeme>, grouping: bool): (k: nat)
    ensures k <= |ls|
  {
    ScanStart(ls) + Seek(ls[ScanStart(ls)..], 0, Tail(grouping))
  }

  /** The character position of the k-th lexeme, or -1 past the last one. */
  function Position(ls: seq<Lexeme>, k: nat): int
    requires k <= |ls|
  {
    if k == |ls| then -1 else Width(ls[..k])
  }

  // ---- the same search, over character positions ----

  function SeekFrom(q: string, i: nat, depth: nat, t: Target): int
    requires i <= |q|
    decreases |q| - i
  {
    if i == |q| then -1
    else
      var x := Cut(q, i);
      if depth == 0 && x.kind.Word? && Hits(t, Lex(q, i)[0], Sig(Lex(q, x.end))) then i
      else SeekFrom(q, x.end, Step(depth, x.kind), t)
  }

  lemma SeekFromStep(q: string, i: nat, depth: nat, t: Target)
    requires i < |q|
    ensures var x := Cut(q, i);
            SeekFrom(q, i, depth, t)
            == if depth == 0 && x.kind.Word? && Hits(t, Lex(q, i)[0], Sig(Lex(q, x.end))) then i
               else SeekFrom(q, x.end, Step(depth, x.kind), t)
  {
    hide Cut, Hits, Sig, Step;
  }

  lemma SeekFromEnd(q: string, depth: nat, t: Target)
    ensures SeekFrom(q, |q|, depth, t) == -1
  {
  }

  lemma {:induction false} SeekFromIsSeek(q: string, i: nat, depth: nat, t: Target)
    requires i <= |q|
    ensures var ls := Lex(q, i); var k := Seek(ls, depth, t);
            SeekFrom(q, i, depth, t) == if k == |ls| then -1 else i + Width(ls[..k])
    decreases |q| - i
  {
    hide Cut, Hits;
    if i < |q| {
      var x := Cut(q, i);
      var ls := Lex(q, i);
      var rest := Lex(q, x.end);
      assert ls[1..] == rest;
      var k := Seek(ls, depth, t);
      if !(depth == 0 && x.kind.Word? && Hits(t, ls[0], Sig(rest))) {
        SeekFromIsSeek(q, x.end, Step(depth, x.kind), t);
        assert ls[..k][1..] == rest[..k - 1];
      }
    }
  }

  /** A word is cut whole; a digit that starts no word is cut alone. */
  lemma CutIdentPart(q: string, i: nat)
    requires i < |q| && IsIdentPart(q[i])
    ensures Cut(q, i) == if IsIdentStart(q[i]) then Extent(Word, WordEnd(q, i), true) else Extent(Other, i + 1, true)
  {
  }

  /** Inside parentheses it makes no difference that the loops step through a word one character at a time. */
  lemma {:induction false} SeekFromInWord(q: string, i: nat, depth: nat, t: Target)
    requires i < |q| && depth > 0 && IsIdentPart(q[i])
    ensures SeekFrom(q, i, depth, t) == SeekFrom(q, WordEnd(q, i), depth, t)
    decreases |q| - i
  {
    hide Hits, Cut;
    CutIdentPart(q, i);
    if !IsIdentStart(q[i]) && i + 1 < |q| && IsIdentPart(q[i + 1]) {
      SeekFromInWord(q, i + 1, depth, t);
    }
  }

  lemma WordStep(q: string, i: nat, depth: nat, t: Target)
    requires i < |q| && depth > 0 && IsIdentStart(q[i])
    ensures SeekFrom(q, i, depth, t) == SeekFrom(q, i + 1, depth, t)
  {
    SeekFromInWord(q, i, depth, t);
    if i + 1 < |q| && IsIdentPart(q[i + 1]) {
      SeekFromInWord(q, i + 1, depth, t);
    }
  }

  // ---- the skip and read helpers ----

  /** The text of a quoted identifier whose content starts at `i`, with doubled quotes undone. */
  function QuotedText(q: string, i: nat, quote: char): (s: string)
    requires i <= |q|
    decreases |q| - i
  {
    if i == |q| then ""
    else if q[i] != quote then [q[i]] + QuotedText(q, i + 1, quote)
    else if i + 1 < |q| && q[i + 1] == quote then [quote] + QuotedText(q, i + 2, quote)
    else ""
  }

  method SkipSqlComment(query: string, index: nat) returns (next: nat, ok: bool)
    requires index <= |query|
    ensures ok <==> index < |query| && Cut(query, index).kind.Comment?
    ensures next == if ok then Cut(query, index).end else index
  {
    if index + 1 >= |query| {
      return index, false;
    }
    next := index;
    if query[next] == '-' && query[next + 1] == '-' {
      next := next + 2;
      while next < |query| && query[next] != '\n'
        invariant index + 2 <= next <= |query|
        invariant LineEnd(query, next) == LineEnd(query, index + 2)
      {
        next := next + 1;
      }
      return next, true;
    }
    if query[next] == '/' && query[next + 1] == '*' {
      next := next + 2;
      while next + 1 < |query|
        invariant index + 2 <= next <= |query|
        invariant BlockEnd(query, next) == BlockEnd(query, index + 2)
      {
        if query[next] == '*' && query[next + 1] == '/' {
          return next + 2, true;
        }
        next := next + 1;
      }
      return |query|, true;
    }
    return index, false;
  }

  method SkipSqlPlaceholder(query: string, index: nat) returns (next: nat, ok: bool)
    requires index <= |query|
    ensures ok <==> index < |query| && Cut(query, index).kind.Placeholder?
    ensures next == if ok then Cut(query, index).end else index
  {
    if index + 1 >= |query| || (query[index] != '#' && query[index] != '$') || query[index + 1] != '{' {
      return index, false;
    }
    next := index + 2;
    while next < |query|
      invariant index + 2 <= next <= |query|
      invariant BraceEnd(query, next) == BraceEnd(query, index + 2)
    {
      if query[next] == '}' {
        return next + 1, true;
      }
      next := next + 1;
    }
    return |query|, true;
  }

  /** `skipSQLSingleQuoted` and `skipSQLBracketQuotedIdentifier`: the same loop for the two closing characters. */
  method SkipSqlQuoted(query: string, index: nat, quote: char) returns (next: nat)
    requires index < |query|
    ensures next == QuoteEnd(query, index + 1, quote).0
  {
    next := index + 1;
    while next < |query|
      invariant index + 1 <= next <= |query|
      invariant QuoteEnd(query, next, quote) == QuoteEnd(query, index + 1, quote)
    {
      if query[next] != quote {
        next := next + 1;
        continue;
      }
      if next + 1 < |query| && query[next + 1] == quote {
        next := next + 2;
        continue;
      }
      return next + 1;
    }
    return |query|;
  }

  /** `readSQLQuotedIdentifier` and `readSQLBracketQuotedIdentifier`: the identifier with doubled quotes undone. */
  method ReadSqlQuotedIdentifier(query: string, index: nat, quote: char)
    returns (identifier: string, next: nat, ok: bool)
    requires index < |query|
    ensures (next, ok) == QuoteEnd(query, index + 1, quote)
    ensures identifier == if ok then QuotedText(query, index + 1, quote) else ""
  {
    identifier := "";
    next := index + 1;
    while next < |query|
      invariant index + 1 <= next <= |query|
      invariant QuoteEnd(query, next, quote) == QuoteEnd(query, index + 1, quote)
      invariant identifier + QuotedText(query, next, quote) == QuotedText(query, index + 1, quote)
    {
      if query[next] != quote {
        identifier := identifier + [query[next]];
        next := next + 1;
        continue;
      }
      if next + 1 < |query| && query[next + 1] == quote {
        identifier := identifier + [quote];
        next := next + 2;
        continue;
      }
      return identifier, next + 1, true;
    }
    return "", |query|, false;
  }

  /** The lexemes every scanner jumps over as a whole; one of them does not know brackets. */
  predicate Inert(k: Kind, brackets: bool) {
    k.Comment? || k.Literal? || k.Placeholder? || k.Quoted? || (brackets && k.Bracketed?)
  }

  /** The part of the loop body that the scanners share: jump over a comment, literal, placeholder or quoted name. */
  method SkipInert(query: string, index: nat, brackets: bool) returns (next: nat, ok: bool)
    requires index < |query|
    ensures ok <==> Inert(Cut(query, index).kind, brackets)
    ensures next == if ok then Cut(query, index).end else index
  {
    next, ok := SkipSqlComment(query, index);
    if ok {
      return;
    }
    match query[index]
    case '\'' =>
      next := SkipSqlQuoted(query, index, '\'');
      ok := true;
    case '#' =>
      next, ok := SkipSqlPlaceholder(query, index);
    case '$' =>
      next, ok := SkipSqlPlaceholder(query, index);
    case '"' =>
      next := SkipSqlQuoted(query, index, '"');
      ok := true;
    case '`' =>
      next := SkipSqlQuoted(query, index, '`');
      ok := true;
    case '[' =>
      if brackets {
        next := SkipSqlQuoted(query, index, ']');
        ok := true;
      }
    case _ =>
  }

  /** The index of the first meaningful lexeme at or after `i`. */
  function SkipBlank(q: string, i: nat): (n: nat)
    requires i <= |q|
    ensures i <= n <= |q|
    decreases |q| - i
  {
    if i == |q| then i
    else
      var x := Cut(q, i);
      if x.kind.Space? || x.kind.Comment? then SkipBlank(q, x.end) else i
  }

  /** Skipping white space and comments reaches the first meaningful lexeme. */
  lemma {:induction false} SkipBlankSig(q: string, i: nat)
    requires i <= |q|
    ensures var n := SkipBlank(q, i);
            && Sig(Lex(q, i)) == Sig(Lex(q, n))
            && if n == |q| then Sig(Lex(q, n)) == []
               else Sig(Lex(q, n)) == [Lex(q, n)[0]] + Sig(Lex(q, Cut(q, n).end))
    decreases |q| - i
  {
    hide Cut;
    if i < |q| {
      var x := Cut(q, i);
      assert Lex(q, i)[1..] == Lex(q, x.end);
      if x.kind.Space? || x.kind.Comment? {
        SkipBlankSig(q, x.end);
      }
    }
  }

  method SkipSqlSpacesAndComments(query: string, index: nat) returns (next: nat)
    requires index <= |query|
    ensures next == SkipBlank(query, index)
  {
    next := index;
    while next < |query|
      invariant index <= next <= |query|
      invariant SkipBlank(query, next) == SkipBlank(query, index)
      decreases |query| - next
    {
      if IsSqlSpace(query[next]) {
        next := next + 1;
        continue;
      }
      var after, ok := SkipSqlComment(query, next);
      if ok {
        next := after;
        continue;
      }
      return;
    }
  }

  /** The end of the word that starts at `index`. */
  method ReadSqlWord(query: string, index: nat) returns (end: nat)
    requires index <= |query|
    ensures end == WordEnd(query, index)
  {
    end := index;
    while end < |query| && IsIdentPart(query[end])
      invariant index <= end <= |query|
      invariant WordEnd(query, end) == WordEnd(query, index)
    {
      end := end + 1;
    }
  }

  method HasSqlKeywordAt(query: string, index: nat, keyword: string) returns (found: bool)
    requires index <= |query|
    ensures found == NextIs(Lex(query, index), keyword)
  {
    if index >= |query| || !IsIdentStart(query[index]) {
      return false;
    }
    CutIdentPart(query, index);
    var end := ReadSqlWord(query, index);
    return EqualFold(query[index..end], keyword);
  }

  /** `index` is where the first meaningful lexeme after some point starts. */
  predicate AtSig(q: string, index: nat, after: seq<Lexeme>)
    requires index <= |q|
  {
    && after == Sig(Lex(q, index))
    && (index < |q| ==> after == [Lex(q, index)[0]] + Sig(Lex(q, Cut(q, index).end)))
    && (index == |q| ==> after == [])
  }

  method SqlTailArgumentStartsAt(query: string, index: nat, ghost after: seq<Lexeme>) returns (starts: bool)
    requires index <= |query| && AtSig(query, index, after)
    ensures starts == ArgumentFollows(after)
  {
    if index >= |query| {
      return false;
    }
    var c := query[index];
    ghost var l := Lex(query, index)[0];
    assert after[0] == l && l.text[0] == c;
    if c in "0123456789?:(#$" {
      return true;
    }
    starts := HasSqlKeywordAt(query, index, "all");
  }

  method SqlTokenFollowedByPredicateOperator(query: string, index: nat, ghost after: seq<Lexeme>)
    returns (follows: bool)
    requires index <= |query| && AtSig(query, index, after)
    ensures follows == PredicateFollows(after)
  {
    if index >= |query| {
      return false;
    }
    ghost var l := Lex(query, index)[0];
    assert after[0] == l && l.text[0] == query[index];
    if query[index] in "=<>!" {
      return true;
    }
    var a := HasSqlKeywordAt(query, index, "is");
    var b := HasSqlKeywordAt(query, index, "in");
    var c := HasSqlKeywordAt(query, index, "like");
    var d := HasSqlKeywordAt(query, index, "ilike");
    var e := HasSqlKeywordAt(query, index, "between");
    var f := HasSqlKeywordAt(query, index, "not");
    return a || b || c || d || e || f;
  }

  /** The word from `start` to `end` begins a clause that ends the WHERE part. */
  method IsSqlTailClause(query: string, start: nat, end: nat, grouping: bool) returns (tail: bool)
    requires start < |query| && IsIdentStart(query[start]) && end == WordEnd(query, start)
    ensures tail == TailClause(Lex(query, start)[0], Sig(Lex(query, end)), grouping)
  {
    hide Cut, AtSig;
    CutIdentPart(query, start);
    var next := SkipSqlSpacesAndComments(query, end);
    SkipBlankSig(query, end);
    ghost var after := Sig(Lex(query, end));
    assert AtSig(query, next, after) by { AtSigIntro(query, end); }
    var word := query[start..end];
    AtSigNext(query, next, after);
    if EqualFold(word, "order") {
      tail := HasSqlKeywordAt(query, next, "by");
    } else if EqualFold(word, "group") {
      tail := HasSqlKeywordAt(query, next, "by");
      tail := grouping && tail;
    } else if EqualFold(word, "having") {
      var operator := SqlTokenFollowedByPredicateOperator(query, next, after);
      tail := grouping && !operator;
    } else if EqualFold(word, "fetch") {
      var a := HasSqlKeywordAt(query, next, "first");
      var b := HasSqlKeywordAt(query, next, "next");
      tail := a || b;
    } else if EqualFold(word, "for") {
      var a := HasSqlKeywordAt(query, next, "update");
      var b := HasSqlKeywordAt(query, next, "share");
      var c := HasSqlKeywordAt(query, next, "no");
      var d := HasSqlKeywordAt(query, next, "key");
      tail := a || b || c || d;
    } else if EqualFold(word, "limit") || EqualFold(word, "offset") {
      tail := SqlTailArgumentStartsAt(query, next, after);
    } else {
      tail := false;
    }
  }

  lemma AtSigIntro(q: string, i: nat)
    requires i <= |q|
    ensures AtSig(q, SkipBlank(q, i), Sig(Lex(q, i)))
  {
    SkipBlankSig(q, i);
  }

  lemma AtSigNext(q: string, index: nat, after: seq<Lexeme>)
    requires index <= |q| && AtSig(q, index, after)
    ensures forall keyword :: NextIs(Lex(q, index), keyword) == NextIs(after, keyword)
  {
  }

  // ---- the scanners ----

  /** The position of the first `keyword` at depth zero. */
  method FindSqlKeyword(query: string, keyword: string) returns (position: int)
    ensures var ls := Lex(query, 0); position == Position(ls, Seek(ls, 0, Keyword(TrimSpace(keyword))))
  {
    hide Hits, Cut, Inert, SeekFrom, Sig;
    var wanted := Lower(TrimSpace(keyword));
    ghost var t := Keyword(TrimSpace(keyword));
    SeekFromIsSeek(query, 0, 0, t);
    if wanted == "" {
      SeekNoWord(query, 0, 0, t);
      return -1;
    }
    var depth: nat, index: nat := 0, 0;
    while index < |query|
      invariant index <= |query|
      invariant SeekFrom(query, index, depth, t) == SeekFrom(query, 0, 0, t)
      decreases |query| - index
    {
      var next, ok := SkipInert(query, index, true);
      CutOuter(query, index);
      SeekFromStep(query, index, depth, t);
      if ok {
        index := next;
      } else if query[index] == '(' {
        depth, index := depth + 1, index + 1;
      } else if query[index] == ')' {
        depth, index := if depth > 0 then depth - 1 else depth, index + 1;
      } else if depth == 0 && IsIdentStart(query[index]) {
        var start := index;
        index := ReadSqlWord(query, index);
        if EqualFold(query[start..index], wanted) {
          KeywordHit(query, start, wanted, t);
          return start;
        }
        KeywordHit(query, start, wanted, t);
      } else {
        if depth > 0 && IsIdentStart(query[index]) { WordStep(query, index, depth, t); }
        index := index + 1;
      }
    }
    SeekFromEnd(query, depth, t);
    return -1;
  }

  /** What the loops see at an index where they did not jump. */
  lemma CutOuter(q: string, i: nat)
    requires i < |q|
    ensures Inert(Cut(q, i).kind, true) ==>
              && Step(0, Cut(q, i).kind) == 0
              && !Cut(q, i).kind.Word?
              && !Cut(q, i).kind.Open?
              && !Cut(q, i).kind.Close?
    ensures !Inert(Cut(q, i).kind, true) ==>
              if q[i] == '(' then Cut(q, i) == Extent(Open, i + 1, true)
              else if q[i] == ')' then Cut(q, i) == Extent(Close, i + 1, true)
              else if IsIdentStart(q[i]) then Cut(q, i) == Extent(Word, WordEnd(q, i), true)
              else Cut(q, i).end == i + 1 && (Cut(q, i).kind.Space? || Cut(q, i).kind.Other?)
  {
  }

  lemma KeywordHit(q: string, i: nat, wanted: string, t: Target)
    requires i < |q| && IsIdentStart(q[i]) && t.Keyword? && wanted == Lower(t.keyword)
    ensures Hits(t, Lex(q, i)[0], Sig(Lex(q, Cut(q, i).end))) == EqualFold(q[i..WordEnd(q, i)], wanted)
  {
    CutIdentPart(q, i);
    assert Lower(Lower(t.keyword)) == Lower(t.keyword);
  }

  /** No word is empty, so no word is the empty keyword. */
  lemma {:induction false} SeekNoWord(q: string, i: nat, depth: nat, t: Target)
    requires i <= |q| && t.Keyword? && t.keyword == ""
    ensures SeekFrom(q, i, depth, t) == -1
    decreases |q| - i
  {
    if i < |q| {
      assert |Lower(Lex(q, i)[0].text)| > 0;
      SeekNoWord(q, Cut(q, i).end, Step(depth, Cut(q, i).kind), t);
    }
  }

  /** One step of the search. */
  lemma SeekFirst(l: Lexeme, ls: seq<Lexeme>, depth: nat, t: Target)
    ensures Seek([l] + ls, depth, t)
         == if depth == 0 && l.kind.Word? && Hits(t, l, Sig(ls)) then 0 else 1 + Seek(ls, Step(depth, l.kind), t)
  {
    hide Hits, Step;
    assert ([l] + ls)[1..] == ls;
  }

  lemma SigLed(l: Lexeme, ls: seq<Lexeme>)
    ensures Sig([l] + ls) == if SqlLexer.IsBlank(l) then Sig(ls) else [l] + Sig(ls)
  {
    assert ([l] + ls)[1..] == ls;
  }

  /** What the search found. */
  lemma {:induction false} SeekHit(ls: seq<Lexeme>, depth: nat, t: Target)
    ensures var k := Seek(ls, depth, t); k < |ls| ==> ls[k].kind.Word? && Hits(t, ls[k], Sig(ls[k + 1..]))
  {
    hide Hits, Seek, Step, Sig;
    if ls != [] {
      var l, rest := ls[0], ls[1..];
      assert ls == [l] + rest;
      SeekFirst(l, rest, depth, t);
      SeekHit(rest, Step(depth, l.kind), t);
      var k := Seek(ls, depth, t);
      if 0 < k < |ls| { assert rest[k - 1] == ls[k] && rest[k..] == ls[k + 1..]; }
    }
  }

  lemma {:induction false} WidthConcat(a: seq<Lexeme>, b: seq<Lexeme>)
    ensures Width(a + b) == Width(a) + Width(b)
  {
    if a == [] {
      assert a + b == b;
    } else {
      assert (a + b)[1..] == a[1..] + b;
      WidthConcat(a[1..], b);
    }
  }

  /** The lexemes of a text cover it. */
  lemma {:induction false} LexWidth(q: string, i: nat)
    requires i <= |q|
    ensures Width(Lex(q, i)) == |q| - i
    decreases |q| - i
  {
    hide Cut;
    if i < |q| {
      assert Lex(q, i)[1..] == Lex(q, Cut(q, i).end);
      LexWidth(q, Cut(q, i).end);
    }
  }

  /** The k-th lexeme starts where the ones before it end. */
  lemma WidthNext(q: string, k: nat)
    requires k < |Lex(q, 0)|
    ensures Width(Lex(q, 0)[..k]) + |Lex(q, 0)[k].text| == Width(Lex(q, 0)[..k + 1]) <= |q|
    ensures Lex(q, Width(Lex(q, 0)[..k + 1])) == Lex(q, 0)[k + 1..]
  {
    hide Cut;
    var ls := Lex(q, 0);
    assert ls[..k + 1] == ls[..k] + [ls[k]];
    assert Width([ls[k]]) == |ls[k].text|;
    WidthConcat(ls[..k], [ls[k]]);
    LexDrop(q, 0, k + 1);
  }

  /** Trimming leaves a word alone. */
  lemma TrimWord(s: string)
    requires s != "" && !IsSpace(s[0]) && !IsSpace(s[|s| - 1])
    ensures TrimSpace(s) == s
  {
  }

  /** The index of FROM, and the character position after it. */
  method AfterFrom(query: string) returns (start: nat)
    ensures start <= |query|
    ensures var ls := Lex(query, 0); var k := AfterFromIndex(ls);
            start == Width(ls[..k]) && Lex(query, start) == ls[k..]
  {
    hide Cut, Lex, Seek, Width, TrimSpace;
    var from := FindSqlKeyword(query, "from");
    TrimWord("from");
    ghost var ls := Lex(query, 0);
    FromHit(ls);
    LexDrop(query, 0, |ls|);
    LexWidth(query, 0);
    assert ls[..|ls|] == ls;
    if from < 0 {
      return |query|;
    }
    WidthNext(query, Seek(ls, 0, Keyword("from")));
    return from + |"from"|;
  }

  lemma FromHit(ls: seq<Lexeme>)
    ensures var k := Seek(ls, 0, Keyword("from")); k < |ls| ==> |ls[k].text| == 4
  {
    hide Seek;
    var k := Seek(ls, 0, Keyword("from"));
    SeekHit(ls, 0, Keyword("from"));
    if k < |ls| { assert |Lower(ls[k].text)| == |Lower("from")|; }
  }

  /** The position where the search for a trailing clause starts. */
  method SqlTailScanStart(query: string) returns (start: nat)
    ensures start <= |query|
    ensures var ls := Lex(query, 0); start == Width(ls[..ScanStart(ls)]) && Lex(query, start) == ls[ScanStart(ls)..]
  {
    hide Cut, AtSig, Is, Seek, Sig, Lex, AfterFromIndex, TrimSpace;
    var index := SkipSqlSpacesAndComments(query, 0);
    ghost var ls := Lex(query, 0);
    assert ls[..0] == [] && ls[0..] == ls;
    AtSigIntro(query, 0);
    AtSigNext(query, index, Sig(ls));
    var select := HasSqlKeywordAt(query, index, "select");
    if select {
      start := AfterFrom(query);
      return;
    }
    var with := HasSqlKeywordAt(query, index, "with");
    var inner := FindSqlKeyword(query, "select");
    TrimWord("select");
    if !with || inner < 0 {
      return 0;
    }
    start := AfterFrom(query);
  }

  /** The position of the first trailing clause of a statement. */
  method FindSqlTailStart(query: string, grouping: bool) returns (position: int)
    ensures var ls := Lex(query, 0); position == Position(ls, TailIndex(ls, grouping))
  {
    hide Hits, Cut, Inert, TailClause, SeekFrom, Sig;
    var start := SqlTailScanStart(query);
    ghost var t := Tail(grouping);
    TailPosition(query, start, grouping);
    var depth: nat, index: nat := 0, start;
    while index < |query|
      invariant index <= |query|
      invariant SeekFrom(query, index, depth, t) == SeekFrom(query, start, 0, t)
      decreases |query| - index
    {
      var next, ok := SkipInert(query, index, true);
      CutOuter(query, index);
      SeekFromStep(query, index, depth, t);
      if ok {
        index := next;
      } else if query[index] == '(' {
        depth, index := depth + 1, index + 1;
      } else if query[index] == ')' {
        depth, index := if depth > 0 then depth - 1 else depth, index + 1;
      } else if depth == 0 && IsIdentStart(query[index]) {
        var word := index;
        index := ReadSqlWord(query, index);
        var tail := IsSqlTailClause(query, word, index, grouping);
        TailHit(query, word, grouping);
        if tail {
          return word;
        }
      } else {
        if depth > 0 && IsIdentStart(query[index]) { WordStep(query, index, depth, t); }
        index := index + 1;
      }
    }
    SeekFromEnd(query, depth, t);
    return -1;
  }

  lemma TailHit(q: string, i: nat, grouping: bool)
    requires i < |q|
    ensures Hits(Tail(grouping), Lex(q, i)[0], Sig(Lex(q, Cut(q, i).end)))
         == TailClause(Lex(q, i)[0], Sig(Lex(q, Cut(q, i).end)), grouping)
  {
  }

  lemma TailPosition(q: string, start: nat, grouping: bool)
    requires start <= |q|
    requires var ls := Lex(q, 0); start == Width(ls[..ScanStart(ls)]) && Lex(q, start) == ls[ScanStart(ls)..]
    ensures var ls := Lex(q, 0); SeekFrom(q, start, 0, Tail(grouping)) == Position(ls, TailIndex(ls, grouping))
  {
    hide Hits, Cut, ScanStart, Lex, Width, Seek, SeekFrom;
    var ls := Lex(q, 0);
    var s := ScanStart(ls);
    SeekFromIsSeek(q, start, 0, Tail(grouping));
    var k := Seek(ls[s..], 0, Tail(grouping));
    WidthConcat(ls[..s], ls[s..][..k]);
    assert ls[..s] + ls[s..][..k] == ls[..s + k];
  }

  /** Whether the query has an ORDER BY at depth zero. */
  method ContainsOrderBy(query: string) returns (found: bool)
    ensures found <==> Seek(Lex(query, 0), 0, OrderBy) < |Lex(query, 0)|
  {
    hide Hits, Cut, Inert;
    SeekFromIsSeek(query, 0, 0, OrderBy);
    var depth: nat, index: nat := 0, 0;
    while index < |query|
      invariant index <= |query|
      invariant SeekFrom(query, index, depth, OrderBy) == SeekFrom(query, 0, 0, OrderBy)
      decreases |query| - index
    {
      var next, ok := SkipInert(query, index, true);
      CutOuter(query, index);
      if ok {
        index := next;
      } else if query[index] == '(' {
        depth, index := depth + 1, index + 1;
      } else if query[index] == ')' {
        depth, index := if depth > 0 then depth - 1 else depth, index + 1;
      } else if depth == 0 && IsIdentStart(query[index]) {
        var word := index;
        index := ReadSqlWord(query, index);
        OrderByHit(query, word);
        if EqualFold(query[word..index], "order") {
          var after := SkipSqlSpacesAndComments(query, index);
          AtSigIntro(query, index);
          AtSigNext(query, after, Sig(Lex(query, index)));
          var followed := HasSqlKeywordAt(query, after, "by");
          if followed {
            return true;
          }
        }
      } else {
        if depth > 0 && IsIdentStart(query[index]) { WordStep(query, index, depth, OrderBy); }
        index := index + 1;
      }
    }
    return false;
  }

  lemma OrderByHit(q: string, i: nat)
    requires i < |q| && IsIdentStart(q[i])
    ensures Hits(OrderBy, Lex(q, i)[0], Sig(Lex(q, Cut(q, i).end)))
         == (EqualFold(q[i..WordEnd(q, i)], "order") && NextIs(Sig(Lex(q, WordEnd(q, i))), "by"))
  {
    CutIdentPart(q, i);
  }
}
