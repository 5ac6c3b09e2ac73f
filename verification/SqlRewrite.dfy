/**
 The rewriters of interceptor.go and entity_interceptor.go that splice a condition into the WHERE part or an assignment
 into the SET part, proved on the statement that the rewritten text reads back as.
 */
module SqlRewrite {
  import opened Prelude
  import opened SqlLexer
  import opened SqlScan
  import opened SqlPredicate
  import Text

  // ---- statements ----

  /** What comes before WHERE, the predicate, and the trailing clauses from the first one on. */
  datatype Statement = Statement(head: seq<Lexeme>, where: Option<seq<Lexeme>>, tail: seq<Lexeme>)

  /** A statement read from its meaningful lexemes. */
  function Parse(ts: seq<Lexeme>): Statement {
    var n := TailIndex(ts, true);
    var body := ts[..n];
    var w := Seek(body, 0, Keyword("where"));
    Statement(body[..w], if w == |body| then None else Some(body[w + 1..]), ts[n..])
  }

  function Conjoin(where: Option<seq<Lexeme>>, condition: seq<Lexeme>): seq<Lexeme> {
    if where.None? then condition else where.value + [AndWord] + condition
  }

  /** A text without white space and comments: its own meaningful lexemes. */
  predicate AllSig(ts: seq<Lexeme>) {
    forall t <- ts :: !IsBlank(t)
  }

  lemma {:induction false} SigOfSig(ts: seq<Lexeme>)
    requires AllSig(ts)
    ensures Sig(ts) == ts
  {
    if ts != [] { SigOfSig(ts[1..]); }
  }

  lemma {:induction false} SigConcat(a: seq<Lexeme>, b: seq<Lexeme>)
    ensures Sig(a + b) == Sig(a) + Sig(b)
  {
    if a == [] {
      assert a + b == b;
    } else {
      assert (a + b)[1..] == a[1..] + b;
      SigConcat(a[1..], b);
    }
  }

  // ---- searching a concatenation ----

  /** A search that passes over `a` goes on in `b`. */
  lemma {:induction false} SeekPast(a: seq<Lexeme>, b: seq<Lexeme>, depth: nat, t: Target)
    requires Seek(a + b, depth, t) >= |a|
    ensures Seek(a + b, depth, t) == |a| + Seek(b, DepthOf(a, depth), t)
  {
    hide Hits;
    if a == [] {
      assert a + b == b;
    } else {
      assert (a + b)[1..] == a[1..] + b;
      SeekPast(a[1..], b, Step(depth, a[0].kind), t);
    }
  }

  /** Whether a keyword is found in `a` does not depend on what follows. */
  lemma {:induction false} SeekKeywordIn(a: seq<Lexeme>, b: seq<Lexeme>, depth: nat, keyword: string)
    ensures var k := Seek(a, depth, Keyword(keyword));
            if k < |a| then Seek(a + b, depth, Keyword(keyword)) == k
            else Seek(a + b, depth, Keyword(keyword)) == |a| + Seek(b, DepthOf(a, depth), Keyword(keyword))
  {
    if a == [] {
      assert a + b == b;
    } else {
      assert (a + b)[1..] == a[1..] + b;
      SeekKeywordIn(a[1..], b, Step(depth, a[0].kind), keyword);
    }
  }

  /** At the hit the depth is zero. */
  lemma {:induction false} SeekDepth(ls: seq<Lexeme>, depth: nat, t: Target)
    ensures var k := Seek(ls, depth, t); k < |ls| ==> DepthOf(ls[..k], depth) == 0
  {
    hide Hits;
    if ls != [] && !(depth == 0 && ls[0].kind.Word? && Hits(t, ls[0], Sig(ls[1..]))) {
      SeekDepth(ls[1..], Step(depth, ls[0].kind), t);
      var k := Seek(ls, depth, t);
      if k < |ls| {
        assert ls[..k][1..] == ls[1..][..k - 1];
      }
    }
  }

  /** The words that begin a trailing clause in some context. */
  predicate TailWord(l: Lexeme) {
    || Is(l, "order") || Is(l, "group") || Is(l, "having") || Is(l, "fetch")
    || Is(l, "for") || Is(l, "limit") || Is(l, "offset")
  }

  /** No word at depth zero can begin a trailing clause. */
  predicate NoTailWord(ts: seq<Lexeme>, depth: nat) {
    ts == [] || ((depth == 0 ==> !TailWord(ts[0])) && NoTailWord(ts[1..], Step(depth, ts[0].kind)))
  }

  lemma TailNeedsWord(w: Lexeme, after: seq<Lexeme>, grouping: bool)
    requires TailClause(w, after, grouping)
    ensures TailWord(w)
  {
  }

  /** Lexemes without a tail word are passed over whatever follows. */
  lemma {:induction false} SeekTailPast(c: seq<Lexeme>, b: seq<Lexeme>, depth: nat)
    requires NoTailWord(c, depth)
    ensures Seek(c + b, depth, Tail(true)) == |c| + Seek(b, DepthOf(c, depth), Tail(true))
  {
    hide TailWord, TailClause;
    if c == [] {
      assert c + b == b;
    } else {
      assert (c + b)[1..] == c[1..] + b;
      var after := Sig((c + b)[1..]);
      if depth == 0 && c[0].kind.Word? && TailClause(c[0], after, true) {
        TailNeedsWord(c[0], after, true);
      }
      SeekTailPast(c[1..], b, Step(depth, c[0].kind));
    }
  }

  predicate IsJoiner(op: Lexeme) {
    op == AndWord || op == WhereWord
  }

  lemma JoinerIs(op: Lexeme, keyword: string)
    requires IsJoiner(op) && keyword in {"by", "first", "next", "update", "share", "no", "key", "all", "select", "with",
                                         "order", "group", "having", "fetch", "for", "limit", "offset", "from"}
    ensures !Is(op, keyword)
  {
    assert Text.Lower("AND") == "and" && Text.Lower("WHERE") == "where";
    assert Text.Lower(keyword) == keyword;
  }

  lemma NothingFollowsJoiner(op: Lexeme, rest: seq<Lexeme>)
    requires IsJoiner(op)
    ensures var next := [op] + rest;
            && !ArgumentFollows(next)
            && !NextIs(next, "by") && !NextIs(next, "first") && !NextIs(next, "next") && !NextIs(next, "update")
            && !NextIs(next, "share") && !NextIs(next, "no") && !NextIs(next, "key")
  {
    hide Is;
    JoinerIs(op, "by");
    JoinerIs(op, "first");
    JoinerIs(op, "next");
    JoinerIs(op, "update");
    JoinerIs(op, "share");
    JoinerIs(op, "no");
    JoinerIs(op, "key");
    JoinerIs(op, "all");
  }

  /** The last word of the body, which was not a trailing clause, is not one either when AND or WHERE follows it. */
  lemma StillNoTail(w: Lexeme, after: seq<Lexeme>, op: Lexeme, rest: seq<Lexeme>)
    requires IsJoiner(op) && !TailClause(w, after, true)
    requires after != [] ==> TailWord(after[0])
    ensures !TailClause(w, [op] + rest, true)
  {
    hide Is, NextIs, ArgumentFollows, PredicateFollows, TailWord, IsJoiner;
    NothingFollowsJoiner(op, rest);
    if Is(w, "having") && !Is(w, "order") && !Is(w, "group") {
      TailWordIsNoPredicate(after);
    }
  }

  lemma SameWord(l: Lexeme, keyword: string)
    requires keyword != "" && Is(l, keyword)
    ensures |l.text| == |keyword| && Text.LowerChar(l.text[0]) == Text.LowerChar(keyword[0])
  {
    assert |Text.Lower(l.text)| == |Text.Lower(keyword)|;
    assert Text.Lower(l.text)[0] == Text.Lower(keyword)[0];
  }

  lemma DifferentWord(l: Lexeme, a: string, b: string)
    requires a != "" && b != "" && (|a| != |b| || Text.LowerChar(a[0]) != Text.LowerChar(b[0]))
    requires Is(l, a)
    ensures !Is(l, b)
  {
    SameWord(l, a);
    if Is(l, b) { SameWord(l, b); }
  }

  lemma TailWordDiffers(l: Lexeme, a: string)
    requires a in {"order", "group", "having", "fetch", "for", "limit", "offset"} && Is(l, a)
    ensures !PredicateFollows([l])
  {
    hide Is;
    DifferentWord(l, a, "is");
    DifferentWord(l, a, "in");
    DifferentWord(l, a, "like");
    DifferentWord(l, a, "ilike");
    DifferentWord(l, a, "between");
    DifferentWord(l, a, "not");
    SameWord(l, a);
    assert 'a' <= Text.LowerChar(l.text[0]) <= 'z';
    assert !FirstCharIn([l], "=<>!");
  }

  /** A trailing clause does not look like the operator of a predicate. */
  lemma TailWordIsNoPredicate(after: seq<Lexeme>)
    requires after != [] ==> TailWord(after[0])
    ensures !PredicateFollows(after)
  {
    hide Is;
    if after != [] {
      var a :| a in {"order", "group", "having", "fetch", "for", "limit", "offset"} && Is(after[0], a);
      TailWordDiffers(after[0], a);
      assert PredicateFollows(after) == PredicateFollows([after[0]]);
    }
  }

  lemma TailClauseLooksAhead(w: Lexeme, a: seq<Lexeme>, b: seq<Lexeme>, grouping: bool)
    requires a != [] && b != [] && a[0] == b[0]
    ensures TailClause(w, a, grouping) == TailClause(w, b, grouping)
  {
  }

  /** What ends a body: nothing, or a word that begins a trailing clause. */
  predicate TailLed(tail: seq<Lexeme>) {
    tail == [] || TailWord(tail[0])
  }

  /** Splicing AND or WHERE in after a body does not make a trailing clause out of any of its words. */
  lemma {:induction false} SeekBodyPast(h: seq<Lexeme>, tail: seq<Lexeme>, depth: nat, op: Lexeme, rest: seq<Lexeme>)
    requires AllSig(h) && AllSig(tail) && AllSig(rest) && IsJoiner(op) && TailLed(tail)
    requires Seek(h + tail, depth, Tail(true)) >= |h|
    ensures Seek(h + [op] + rest, depth, Tail(true)) == |h| + Seek([op] + rest, DepthOf(h, depth), Tail(true))
  {
    hide TailClause, IsJoiner, TailWord, Seek, Sig, Step;
    if h == [] {
      assert h + [op] + rest == [op] + rest;
    } else {
      var w, h', next := h[0], h[1..], [op] + rest;
      assert h == [w] + h' && h + tail == [w] + (h' + tail) && h + [op] + rest == [w] + (h' + next);
      assert h' + [op] + rest == h' + next;
      JoinerSig(op);
      SigOfSig(h' + tail);
      SigOfSig(h' + next);
      SeekFirst(w, h' + tail, depth, Tail(true));
      SeekFirst(w, h' + next, depth, Tail(true));
      if h' == [] {
        assert h' + tail == tail && h' + next == next;
        if !TailClause(w, tail, true) { StillNoTail(w, tail, op, rest); }
      } else {
        TailClauseLooksAhead(w, h' + tail, h' + next, true);
      }
      SeekBodyPast(h', tail, Step(depth, w.kind), op, rest);
    }
  }

  lemma JoinerSig(op: Lexeme)
    requires IsJoiner(op)
    ensures !IsBlank(op) && op.kind.Word? && Step(0, op.kind) == 0 && !TailWord(op)
  {
    forall keyword | keyword in {"order", "group", "having", "fetch", "for", "limit", "offset"}
      ensures !Is(op, keyword)
    {
      JoinerIs(op, keyword);
    }
  }

  /**
   A condition that can be joined: closed parentheses, no BETWEEN without AND, no word that could end the WHERE part.
   */
  predicate Condition(c: seq<Lexeme>) {
    AllSig(c) && Complete(c) && NoTailWord(c, 0)
  }

  /** The search for the trailing clauses of a spliced text. */
  lemma SeekSpliced(h: seq<Lexeme>, tail: seq<Lexeme>, op: Lexeme, c: seq<Lexeme>)
    requires AllSig(h) && AllSig(tail) && IsJoiner(op) && TailLed(tail) && Condition(c)
    requires Seek(h + tail, 0, Tail(true)) == |h| && DepthOf(h, 0) == 0
    ensures Seek(h + [op] + (c + tail), 0, Tail(true)) == |h| + 1 + |c|
  {
    hide TailClause, IsJoiner, TailWord;
    SeekBodyPast(h, tail, 0, op, c + tail);
    SeekPast(h, tail, 0, Tail(true));
    SeekTailPast(c, tail, 0);
    assert ([op] + (c + tail))[1..] == c + tail;
    JoinerSig(op);
    if TailClause(op, Sig(c + tail), true) { TailNeedsWord(op, Sig(c + tail), true); }
  }

  /** One block with closed parentheses: not a WITH, and a SELECT has its FROM. */
  predicate OneBlock(ts: seq<Lexeme>) {
    && AllSig(ts)
    && !NextIs(ts, "with")
    && (NextIs(ts, "select") ==> Seek(ts, 0, Keyword("from")) < |ts|)
    && DepthOf(ts[..TailIndex(ts, true)], 0) == 0
  }

  function Joiner(ts: seq<Lexeme>): Lexeme {
    if Parse(ts).where.None? then WhereWord else AndWord
  }

  /** A statement with a condition spliced in before its trailing clauses. */
  function Splice(ts: seq<Lexeme>, c: seq<Lexeme>): seq<Lexeme> {
    var n := TailIndex(ts, true);
    ts[..n] + [Joiner(ts)] + (c + ts[n..])
  }

  /** The trailing clauses, if any, start with one of the tail words. */
  lemma TailIsLed(ts: seq<Lexeme>)
    ensures TailLed(ts[TailIndex(ts, true)..])
  {
    hide TailClause, TailWord, ScanStart;
    var s := ScanStart(ts);
    var k := Seek(ts[s..], 0, Tail(true));
    SeekHit(ts[s..], 0, Tail(true));
    if s + k < |ts| {
      assert ts[s..][k] == ts[s + k];
      TailNeedsWord(ts[s + k], Sig(ts[s..][k + 1..]), true);
    }
  }

  lemma SpliceScanStart(ts: seq<Lexeme>, c: seq<Lexeme>)
    requires OneBlock(ts)
    ensures ScanStart(ts) == ScanStart(Splice(ts, c)) <= TailIndex(ts, true)
    ensures !NextIs(Splice(ts, c), "with") && NextIs(Splice(ts, c), "select") == NextIs(ts, "select")
    ensures AllSig(c) ==> AllSig(Splice(ts, c))
    ensures NextIs(ts, "select") ==> Seek(ts, 0, Keyword("from")) == Seek(Splice(ts, c), 0, Keyword("from"))
  {
    hide Is, Seek, DepthOf, Hits, IsJoiner, Joiner, NextIs;
    var n := TailIndex(ts, true);
    var h, tail, op := ts[..n], ts[n..], Joiner(ts);
    JoinerOk(ts);
    JoinerSig(op);
    assert ts == h + tail;
    assert Splice(ts, c) == h + ([op] + (c + tail));
    SpliceFirst(ts, c);
    if NextIs(ts, "select") {
      SeekKeywordIn(h, tail, 0, "from");
      SeekKeywordIn(h, [op] + (c + tail), 0, "from");
    }
  }

  /** The first word stays what it was, as far as the scanners ask. */
  lemma SpliceFirst(ts: seq<Lexeme>, c: seq<Lexeme>)
    requires AllSig(ts) && !NextIs(ts, "with")
    ensures var out := Splice(ts, c);
            && Sig(ts) == ts && NextIs(Sig(out), "select") == NextIs(out, "select") == NextIs(ts, "select")
            && NextIs(Sig(out), "with") == NextIs(out, "with") == false
  {
    hide Is, TailIndex, Joiner, IsJoiner;
    var n := TailIndex(ts, true);
    var out := Splice(ts, c);
    var op := Joiner(ts);
    JoinerOk(ts);
    JoinerSig(op);
    JoinerIs(op, "with");
    JoinerIs(op, "select");
    SigOfSig(ts);
    if n == 0 {
      TailIsLed(ts);
      assert ts[0..] == ts;
      TailWordIs(ts, "select");
      assert out[0] == op;
    } else {
      assert out[0] == ts[0];
    }
    SigHead(out);
  }

  /** The first meaningful lexeme of a text that starts with one. */
  lemma SigHead(ts: seq<Lexeme>)
    requires ts != [] && !IsBlank(ts[0])
    ensures Sig(ts) != [] && Sig(ts)[0] == ts[0]
  {
  }

  lemma TailWordIs(tail: seq<Lexeme>, keyword: string)
    requires TailLed(tail) && keyword == "select"
    ensures !NextIs(tail, keyword)
  {
    hide Is;
    if tail != [] && Is(tail[0], keyword) {
      DifferentWord(tail[0], keyword, "order");
      DifferentWord(tail[0], keyword, "group");
      DifferentWord(tail[0], keyword, "having");
      DifferentWord(tail[0], keyword, "fetch");
      DifferentWord(tail[0], keyword, "for");
      DifferentWord(tail[0], keyword, "limit");
      DifferentWord(tail[0], keyword, "offset");
    }
  }

  lemma SpliceTailIndex(ts: seq<Lexeme>, c: seq<Lexeme>)
    requires OneBlock(ts) && Condition(c)
    ensures TailIndex(Splice(ts, c), true) == TailIndex(ts, true) + 1 + |c|
  {
    hide Hits, OneBlock, ScanStart, IsJoiner, Joiner;
    var s, n := ScanStart(ts), TailIndex(ts, true);
    var op := Joiner(ts);
    SpliceScanStart(ts, c);
    TailIsLed(ts);
    BodyDepth(ts);
    var h, tail := ts[s..n], ts[n..];
    assert ts[s..] == h + tail;
    assert AllSig(ts) by { OneBlockSig(ts); }
    assert IsJoiner(op) by { JoinerOk(ts); }
    SeekSpliced(h, tail, op, c);
    assert Splice(ts, c)[s..] == h + [op] + (c + tail);
  }

  lemma OneBlockSig(ts: seq<Lexeme>)
    requires OneBlock(ts)
    ensures AllSig(ts)
  {
  }

  lemma JoinerOk(ts: seq<Lexeme>)
    ensures IsJoiner(Joiner(ts))
  {
  }

  /** The part of the body the scan covers has closed parentheses too. */
  lemma BodyDepth(ts: seq<Lexeme>)
    requires OneBlock(ts)
    ensures DepthOf(ts[ScanStart(ts)..TailIndex(ts, true)], 0) == 0
  {
    hide Seek, Sig, Hits, DepthOf, ScanStart;
    var s, n := ScanStart(ts), TailIndex(ts, true);
    assert ts[..n] == ts[..s] + ts[s..n];
    DepthConcat(ts[..s], ts[s..n], 0);
    ScanStartDepth(ts);
  }

  lemma ScanStartDepth(ts: seq<Lexeme>)
    requires AllSig(ts) && !NextIs(ts, "with")
    requires NextIs(ts, "select") ==> Seek(ts, 0, Keyword("from")) < |ts|
    ensures DepthOf(ts[..ScanStart(ts)], 0) == 0
  {
    hide Seek, Sig, Hits, NextIs;
    SigOfSig(ts);
    var s, f := ScanStart(ts), Seek(ts, 0, Keyword("from"));
    if NextIs(ts, "select") {
      SeekDepth(ts, 0, Keyword("from"));
      SeekHit(ts, 0, Keyword("from"));
      TakeOne(ts, f);
      DepthConcat(ts[..f], [ts[f]], 0);
    }
  }

  /** Where the WHERE of a spliced body is. */
  lemma SpliceWhere(h: seq<Lexeme>, c: seq<Lexeme>)
    requires DepthOf(h, 0) == 0
    ensures var w := Seek(h, 0, Keyword("where"));
            && (w < |h| ==> Seek(h + [AndWord] + c, 0, Keyword("where")) == w)
            && (w == |h| ==> Seek(h + [WhereWord] + c, 0, Keyword("where")) == |h|)
  {
    hide Is;
    assert h + [AndWord] + c == h + ([AndWord] + c) && h + [WhereWord] + c == h + ([WhereWord] + c);
    SeekKeywordIn(h, [AndWord] + c, 0, "where");
    SeekKeywordIn(h, [WhereWord] + c, 0, "where");
    WhereFound(c);
  }

  /** The spliced statement reads back as the old one with the condition joined to its predicate by AND. */
  lemma SpliceParses(ts: seq<Lexeme>, c: seq<Lexeme>)
    requires OneBlock(ts) && Condition(c)
    ensures Parse(Splice(ts, c)) == Parse(ts).(where := Some(Conjoin(Parse(ts).where, c)))
  {
    hide Is, Hits, ScanStart, Condition, Seek, TailIndex;
    var n := TailIndex(ts, true);
    var h, tail, op := ts[..n], ts[n..], Joiner(ts);
    var out := Splice(ts, c);
    SpliceTailIndex(ts, c);
    var body := h + [op] + c;
    assert out == body + tail;
    assert out[..n + 1 + |c|] == body && out[n + 1 + |c|..] == tail;
    SpliceWhere(h, c);
    var w := Seek(h, 0, Keyword("where"));
    if w < |h| {
      assert body[..w] == h[..w] && body[w + 1..] == h[w + 1..] + [op] + c;
    } else {
      assert body[..w] == h == h[..w] && body[w + 1..] == c;
    }
  }

  lemma SpliceOneBlock(ts: seq<Lexeme>, c: seq<Lexeme>)
    requires OneBlock(ts) && Condition(c)
    ensures OneBlock(Splice(ts, c))
  {
    hide Is, Hits, ScanStart, Condition, Seek, TailIndex, Joiner;
    var n := TailIndex(ts, true);
    var h, op := ts[..n], Joiner(ts);
    SpliceTailIndex(ts, c);
    ConditionDepth(c);
    SpliceScanStart(ts, c);
    assert Splice(ts, c)[..n + 1 + |c|] == h + [op] + c;
    JoinerOk(ts);
    JoinerSig(op);
    DepthConcat(h + [op], c, 0);
    DepthConcat(h, [op], 0);
  }

  lemma WhereIsWhere()
    ensures Is(WhereWord, "where")
  {
    assert Text.Lower("WHERE") == "where" == Text.Lower("where");
  }

  lemma WhereFound(c: seq<Lexeme>)
    ensures Seek([WhereWord] + c, 0, Keyword("where")) == 0
  {
    WhereIsWhere();
  }

  lemma ConditionDepth(c: seq<Lexeme>)
    requires Condition(c)
    ensures DepthOf(c, 0) == 0 && AllSig(c)
  {
  }

  // ---- splitting and splicing text ----

  /** The end of the statement's body in the text. */
  function BodyEnd(query: string): (n: nat)
    ensures n <= |query|
  {
    var ls := Lex(query, 0);
    var k := TailIndex(ls, true);
    LexDrop(query, 0, k);
    if k == |ls| then |query| else Width(ls[..k])
  }

  /** `splitSQLConditionTail`: the text before the trailing clauses, and they. */
  function HeadText(query: string): string {
    if BodyEnd(query) == |query| then query else Text.TrimRight(query[..BodyEnd(query)], Text.IsBlank)
  }

  function TailText(query: string): string {
    if BodyEnd(query) == |query| then "" else Text.TrimSpace(query[BodyEnd(query)..])
  }

  predicate HasKeyword(text: string, keyword: string) {
    Seek(Lex(text, 0), 0, Keyword(keyword)) < |Lex(text, 0)|
  }

  function SplicedText(query: string, condition: string): string {
    var c := Text.TrimSpace(condition);
    if c == "" then query
    else
      var operator := if HasKeyword(HeadText(query), "where") then " AND " else " WHERE ";
      Text.TrimRight(HeadText(query), Text.IsBlank) + operator + c
      + (if TailText(query) == "" then "" else " " + TailText(query))
  }

  method SplitSqlConditionTail(query: string) returns (head: string, tail: string)
    ensures head == HeadText(query) && tail == TailText(query)
  {
    hide Cut, TailIndex;
    var index := FindSqlTailStart(query, true);
    BodyEndIs(query);
    if index < 0 {
      return query, "";
    }
    return Text.TrimRight(query[..index], Text.IsBlank), Text.TrimSpace(query[index..]);
  }

  lemma BodyEndIs(query: string)
    ensures var ls := Lex(query, 0); var k := TailIndex(ls, true);
            if k == |ls| then BodyEnd(query) == |query| else BodyEnd(query) == Width(ls[..k]) < |query|
  {
    hide Cut, TailIndex;
    var ls := Lex(query, 0);
    var k := TailIndex(ls, true);
    LexDrop(query, 0, k);
  }

  method ContainsSqlKeyword(query: string, keyword: string) returns (found: bool)
    ensures found == HasKeyword(query, Text.TrimSpace(keyword))
  {
    hide Seek, Lex, Width, Text.TrimSpace;
    var position := FindSqlKeyword(query, keyword);
    return position >= 0;
  }

  /** `appendSQLCondition`: put a condition into the WHERE part, before any trailing clause. */
  method AppendSqlCondition(query: string, condition: string) returns (out: string)
    ensures out == SplicedText(query, condition)
  {
    hide HasKeyword, HeadText, TailText, Text.TrimSpace, Text.TrimRight;
    var trimmed := Text.TrimSpace(condition);
    if trimmed == "" {
      return query;
    }
    var head, tail := SplitSqlConditionTail(query);
    var operator := " WHERE ";
    var where := ContainsSqlKeyword(head, "where");
    TrimWord("where");
    if where {
      operator := " AND ";
    }
    out := Text.TrimRight(head, Text.IsBlank) + operator + trimmed;
    if tail != "" {
      out := out + (" " + tail);
    }
  }

  // ---- the text and its meaningful lexemes ----

  lemma SigSplit(ls: seq<Lexeme>, k: nat)
    requires k <= |ls|
    ensures Sig(ls) == Sig(ls[..k]) + Sig(ls[k..])
  {
    assert ls == ls[..k] + ls[k..];
    SigConcat(ls[..k], ls[k..]);
  }

  /** Searching is not disturbed by white space and comments. */
  lemma {:induction false} SeekSig(ls: seq<Lexeme>, depth: nat, t: Target)
    ensures Seek(Sig(ls), depth, t) == |Sig(ls[..Seek(ls, depth, t)])|
    ensures Seek(ls, depth, t) == |ls| <==> Seek(Sig(ls), depth, t) == |Sig(ls)|
  {
    hide Hits, Seek, Sig;
    if ls == [] {
      SearchNothing(depth, t);
    } else {
      var l, rest := ls[0], ls[1..];
      var k := Seek(rest, Step(depth, l.kind), t);
      assert ls == [l] + rest && ls[..0] == [] && ls[..k + 1] == [l] + rest[..k];
      SeekFirst(l, rest, depth, t);
      SeekFirst(l, Sig(rest), depth, t);
      SearchNothing(depth, t);
      SigLed(l, rest);
      SigLed(l, rest[..k]);
      SeekSig(rest, Step(depth, l.kind), t);
      SigOfSig(Sig(rest));
    }
  }

  lemma SearchNothing(depth: nat, t: Target)
    ensures Seek([], depth, t) == 0 && Sig([]) == []
  {
  }

  lemma AfterFromSig(ls: seq<Lexeme>)
    ensures AfterFromIndex(Sig(ls)) == |Sig(ls[..AfterFromIndex(ls)])|
  {
    hide Hits, Seek, Sig;
    var k := Seek(ls, 0, Keyword("from"));
    SeekSig(ls, 0, Keyword("from"));
    SeekHit(ls, 0, Keyword("from"));
    if k < |ls| {
      TakeOne(ls, k);
      SigConcat(ls[..k], [ls[k]]);
      SigOne(ls[k]);
    } else {
      assert ls[..k] == ls;
    }
  }

  lemma ScanStartSig(ls: seq<Lexeme>)
    ensures ScanStart(Sig(ls)) == |Sig(ls[..ScanStart(ls)])|
  {
    hide Hits, AfterFromIndex, NextIs;
    SigOfSig(Sig(ls));
    AfterFromSig(ls);
    SeekSig(ls, 0, Keyword("select"));
    assert ls[..0] == [];
  }

  lemma TailIndexCount(ls: seq<Lexeme>)
    ensures TailIndex(Sig(ls), true) == |Sig(ls[..TailIndex(ls, true)])|
  {
    hide Hits, ScanStart, TailClause, Sig, Seek;
    var s := ScanStart(ls);
    var k := Seek(ls[s..], 0, Tail(true));
    ScanStartSig(ls);
    SigSplit(ls, s);
    assert Sig(ls)[|Sig(ls[..s])|..] == Sig(ls[s..]);
    SeekSig(ls[s..], 0, Tail(true));
    assert ls[..s + k] == ls[..s] + ls[s..][..k];
    SigConcat(ls[..s], ls[s..][..k]);
  }

  /** The trailing clauses of the text are those of its meaningful lexemes. */
  lemma TailIndexSig(ls: seq<Lexeme>)
    ensures TailIndex(Sig(ls), true) == |Sig(ls[..TailIndex(ls, true)])|
    ensures TailIndex(ls, true) == |ls| ==> TailIndex(Sig(ls), true) == |Sig(ls)|
    ensures Sig(ls[..TailIndex(ls, true)]) == Sig(ls)[..TailIndex(Sig(ls), true)]
    ensures Sig(ls[TailIndex(ls, true)..]) == Sig(ls)[TailIndex(Sig(ls), true)..]
  {
    hide TailIndex, Sig;
    var k := TailIndex(ls, true);
    TailIndexCount(ls);
    SigSplit(ls, k);
    if k == |ls| { assert ls[..k] == ls; }
  }

  /** All lexemes before the last one are closed. */
  lemma {:induction false} ClosedBefore(q: string, i: nat, k: nat)
    requires i <= |q| && k < |Lex(q, i)|
    ensures AllClosed(Lex(q, i)[..k])
    decreases k
  {
    hide Cut;
    if k > 0 {
      var x := Cut(q, i);
      UnclosedEnds(q, i);
      ClosedBefore(q, x.end, k - 1);
      TakeStep(q, i, k);
      var l := Lexeme(x.kind, q[i..x.end], x.closed);
      assert Lex(q, |q|) == [];
    }
  }

  /**
   Every lexeme but a comment is closed, and there is no vertical tab, which Go trims and the scanners do not skip.
   */
  predicate CleanText(q: string) {
    Tidy(Lex(q, 0)) && '\U{000B}' !in q
  }

  /** Trimming a clean text on the right keeps its meaningful lexemes. */
  lemma TrimTokens(q: string, p: char -> bool)
    requires Tidy(Lex(q, 0))
    requires forall c :: p(c) && c in q ==> IsSqlSpace(c)
    ensures Tokens(Text.TrimRight(q, p)) == Tokens(q)
  {
    hide Cut, Lex;
    var r := Text.TrimRight(q, p);
    LexTrimRight(q, |r|);
  }

  /** The body of a clean statement. */
  lemma HeadTokens(query: string)
    requires CleanText(query)
    ensures Tokens(HeadText(query)) == Tokens(query)[..TailIndex(Tokens(query), true)]
    ensures Tokens(Text.TrimRight(HeadText(query), Text.IsBlank)) == Tokens(HeadText(query))
  {
    hide Cut, Lex, TailIndex, Sig, Text.TrimRight, Tidy;
    var ls := Lex(query, 0);
    var k := TailIndex(ls, true);
    TailIndexSig(ls);
    BodyEndIs(query);
    if k == |ls| {
      assert ls[..k] == ls;
      TrimTokens(query, Text.IsBlank);
    } else {
      ClosedBefore(query, 0, k);
      LexTake(query, 0, k);
      var body := query[..BodyEnd(query)];
      TrimTokens(body, Text.IsBlank);
      TrimTidy(body, Text.IsBlank);
      TrimTokens(Text.TrimRight(body, Text.IsBlank), Text.IsBlank);
    }
  }

  lemma TrimTidy(q: string, p: char -> bool)
    requires Tidy(Lex(q, 0))
    requires forall c :: p(c) && c in q ==> IsSqlSpace(c)
    ensures Tidy(Lex(Text.TrimRight(q, p), 0))
  {
    hide Cut, Lex;
    LexTrimRight(q, |Text.TrimRight(q, p)|);
  }

  lemma SuffixTokens(q: string, n: nat)
    requires n <= |q|
    ensures Tokens(q[n..]) == Sig(Lex(q, n))
  {
    hide Lex, Sig;
    LexShift(q, n, 0);
  }

  lemma SuffixTidy(q: string, n: nat, k: nat)
    requires CleanText(q) && n <= |q| && k <= |Lex(q, 0)| && Lex(q, n) == Lex(q, 0)[k..]
    ensures Tidy(Lex(q[n..], 0)) && '\U{000B}' !in q[n..]
  {
    hide Cut, Lex;
    LexShift(q, n, 0);
    forall l <- Lex(q, n)
      ensures l.kind.Comment? || l.closed
    {
      assert l in Lex(q, 0);
    }
  }

  lemma TrimWordLed(s: string)
    requires s != "" && IsIdentStart(s[0])
    ensures Text.TrimSpace(s) == Text.TrimRight(s, Text.IsSpace)
  {
    assert Text.TrimLeft(s, Text.IsSpace) == s;
  }

  /** A text from one of its words on. */
  lemma WordSuffix(q: string, n: nat, k: nat)
    requires CleanText(q) && n < |q| && k <= |Lex(q, 0)| && Lex(q, n) == Lex(q, 0)[k..]
    requires Lex(q, n) != [] && Lex(q, n)[0].kind.Word?
    ensures Tokens(Text.TrimSpace(q[n..])) == Sig(Lex(q, n))
    ensures CleanText(Text.TrimSpace(q[n..]))
  {
    hide Cut, Lex, Sig, Text.TrimSpace, Tokens, Tidy;
    var rest := q[n..];
    SuffixTokens(q, n);
    SuffixTidy(q, n, k);
    LexFirst(q, n);
    TrimWordLed(rest);
    TrimTokens(rest, Text.IsSpace);
    TrimTidy(rest, Text.IsSpace);
  }

  /** The trailing clauses of a clean statement. */
  lemma TailTokens(query: string)
    requires CleanText(query)
    ensures Tokens(TailText(query)) == Tokens(query)[TailIndex(Tokens(query), true)..]
    ensures CleanText(TailText(query))
  {
    hide Cut, Lex, TailIndex, Sig, Text.TrimSpace;
    var ls := Lex(query, 0);
    var k := TailIndex(ls, true);
    TailIndexSig(ls);
    BodyEndIs(query);
    EmptyTokens();
    if k == |ls| {
      assert TailText(query) == "";
    } else {
      LexDrop(query, 0, k);
      TailWordAt(ls);
      WordSuffix(query, BodyEnd(query), k);
    }
  }

  lemma EmptyTokens()
    ensures Tokens("") == [] && Lex("", 0) == []
  {
  }

  /** The trailing clauses start with a word. */
  lemma TailStart(query: string)
    requires BodyEnd(query) < |query|
    ensures IsIdentStart(query[BodyEnd(query)])
  {
    hide Cut, Lex, TailIndex;
    var ls := Lex(query, 0);
    var k := TailIndex(ls, true);
    BodyEndIs(query);
    LexDrop(query, 0, k);
    TailWordAt(ls);
    LexFirst(query, BodyEnd(query));
  }

  lemma LexFirst(q: string, i: nat)
    requires i < |q|
    ensures Lex(q, i) != [] && (Lex(q, i)[0].kind.Word? ==> IsIdentStart(q[i]))
  {
  }

  lemma TailWordAt(ls: seq<Lexeme>)
    ensures var k := TailIndex(ls, true); k < |ls| ==> ls[k].kind.Word?
  {
    hide Hits, ScanStart;
    var s := ScanStart(ls);
    SeekHit(ls[s..], 0, Tail(true));
  }

  // ---- splicing a condition into a text ----

  /** What the splicing needs of a statement. */
  predicate Readable(query: string) {
    && CleanText(query)
    && AllClosed(Lex(Text.TrimRight(HeadText(query), Text.IsBlank), 0))
    && OneBlock(Tokens(query))
  }

  /** What the splicing needs of a condition. */
  predicate Joinable(condition: string) {
    var c := Text.TrimSpace(condition);
    c != "" && CleanText(c) && AllClosed(Lex(c, 0)) && Condition(Tokens(c))
  }

  /** The lexemes of a text that starts with white space or punctuation, put after a closed one. */
  lemma LexAppend(p: string, q: string)
    requires AllClosed(Lex(p, 0)) && (q == "" || IsBreak(q[0]))
    ensures Lex(p + q, 0) == Lex(p, 0) + Lex(q, 0)
  {
    hide Cut;
    if p != "" { LexNonEmpty(p, 0); }
    LexConcat(p, q);
  }

  lemma OperatorLex(and: bool)
    ensures var op := if and then " AND " else " WHERE ";
            Lex(op, 0) == [Lexeme(Space, " ", true), if and then AndWord else WhereWord, Lexeme(Space, " ", true)]
  {
    var op := if and then " AND " else " WHERE ";
    var n := |op| - 1;
    assert WordEnd(op, n) == n;
    assert WordEnd(op, 4) == n by { if !and { assert WordEnd(op, 5) == n; } }
    assert WordEnd(op, 2) == n by { assert WordEnd(op, 3) == n; }
    assert Cut(op, 0) == Extent(Space, 1, true) && Cut(op, 1) == Extent(Word, n, true)
           && Cut(op, n) == Extent(Space, n + 1, true);
    assert Lex(op, n + 1) == [];
    assert Lex(op, n) == [Lexeme(Space, op[n..n + 1], true)];
    assert Lex(op, 1) == [Lexeme(Word, op[1..n], true)] + Lex(op, n);
    assert op[1..n] == if and then "AND" else "WHERE";
    assert op[0..1] == " " && op[n..n + 1] == " ";
    assert Lex(op, 0) == [Lexeme(Space, op[0..1], true)] + Lex(op, 1);
  }

  /** The lexemes of the operator put before a text. */
  lemma OperatorAppend(and: bool, q: string)
    ensures var op := if and then " AND " else " WHERE ";
            Lex(op + q, 0) == Lex(op, 0) + Lex(q, 0)
  {
    hide Cut, Lex;
    var op := if and then " AND " else " WHERE ";
    OperatorLex(and);
    LexConcat(op, q);
  }

  lemma SpaceAppend(q: string)
    ensures Lex(" " + q, 0) == [Lexeme(Space, " ", true)] + Lex(q, 0)
  {
    assert Cut(" ", 0) == Extent(Space, 1, true);
    assert Lex(" ", 1) == [];
    assert Lex(" ", 0) == [Lexeme(Space, " "[0..1], true)];
    hide Cut, Lex;
    LexConcat(" ", q);
  }

  lemma SigOperator(word: Lexeme)
    requires !IsBlank(word)
    ensures Sig([Lexeme(Space, " ", true), word, Lexeme(Space, " ", true)]) == [word]
  {
    var ls := [Lexeme(Space, " ", true), word, Lexeme(Space, " ", true)];
    assert ls[1..][1..] == [Lexeme(Space, " ", true)];
    assert Sig(ls[1..][1..]) == [];
    assert Sig(ls[1..]) == [word];
  }

  function OperatorText(and: bool): string {
    if and then " AND " else " WHERE "
  }

  function Led(tail: string): string {
    if tail == "" then "" else " " + tail
  }

  lemma TokensAppend(p: string, q: string)
    requires AllClosed(Lex(p, 0)) && (q == "" || IsBreak(q[0]))
    ensures Tokens(p + q) == Tokens(p) + Tokens(q)
  {
    hide Cut, Lex, Sig;
    LexAppend(p, q);
    SigConcat(Lex(p, 0), Lex(q, 0));
  }

  lemma OperatorTokens(and: bool, q: string)
    ensures Tokens(OperatorText(and) + q) == [if and then AndWord else WhereWord] + Tokens(q)
  {
    hide Cut, Lex, Sig;
    var word := if and then AndWord else WhereWord;
    OperatorAppend(and, q);
    OperatorLex(and);
    SigOperator(word);
    SigConcat(Lex(OperatorText(and), 0), Lex(q, 0));
  }

  lemma LedLex(tail: string)
    ensures Lex(Led(tail), 0) == if tail == "" then [] else [Lexeme(Space, " ", true)] + Lex(tail, 0)
    ensures Tokens(Led(tail)) == Tokens(tail)
  {
    hide Cut, Lex;
    EmptyTokens();
    if tail != "" {
      SpaceAppend(tail);
      assert Lex(" " + tail, 0)[1..] == Lex(tail, 0);
    }
  }

  lemma SpaceTokens(q: string)
    ensures Tokens(" " + q) == Tokens(q)
  {
    hide Cut, Lex, Sig;
    SpaceAppend(q);
    SigLed(Lexeme(Space, " ", true), Lex(q, 0));
  }

  lemma SplicedSig(body: string, and: bool, c: string, tail: string)
    requires AllClosed(Lex(body, 0)) && AllClosed(Lex(c, 0))
    ensures Tokens(body + OperatorText(and) + c + Led(tail))
         == Tokens(body) + [if and then AndWord else WhereWord] + (Tokens(c) + Tokens(tail))
  {
    hide Cut, Lex, Tokens;
    var rest := Led(tail);
    var joined := OperatorText(and) + (c + rest);
    TokensAppend(c, rest);
    OperatorTokens(and, c + rest);
    LedLex(tail);
    TokensAppend(body, joined);
    assert body + OperatorText(and) + c + rest == body + joined;
  }

  lemma WhereFoundInHead(query: string)
    requires Readable(query)
    ensures HasKeyword(HeadText(query), "where") <==> Parse(Tokens(query)).where.Some?
  {
    hide Cut, Lex, TailIndex;
    HeadTokens(query);
    SeekSig(Lex(HeadText(query), 0), 0, Keyword("where"));
  }

  /** Splicing a text is splicing its meaningful lexemes. */
  lemma SplicedTokens(query: string, condition: string)
    requires Readable(query) && Joinable(condition)
    ensures Tokens(SplicedText(query, condition)) == Splice(Tokens(query), Tokens(Text.TrimSpace(condition)))
  {
    hide Cut, Lex, TailIndex, HasKeyword, HeadText, TailText, Parse, OneBlock, Condition, Tokens, Text.TrimRight,
         Text.TrimSpace;
    var c := Text.TrimSpace(condition);
    WhereFoundInHead(query);
    HeadTokens(query);
    TailTokens(query);
    var body := Text.TrimRight(HeadText(query), Text.IsBlank);
    SplicedSig(body, HasKeyword(HeadText(query), "where"), c, TailText(query));
  }

  /** `appendSQLCondition` keeps the statement and its trailing clauses and joins the condition to the predicate. */
  lemma AppendedStatement(query: string, condition: string)
    requires Readable(query) && Joinable(condition)
    ensures var s, c := Parse(Tokens(query)), Tokens(Text.TrimSpace(condition));
            Parse(Tokens(SplicedText(query, condition))) == s.(where := Some(Conjoin(s.where, c)))
  {
    hide Cut, Lex, TailIndex, SplicedText, Parse;
    SplicedTokens(query, condition);
    SpliceParses(Tokens(query), Tokens(Text.TrimSpace(condition)));
  }

  /** Two meaningful lexemes with as many meaningful ones before them are the same. */
  lemma SigCount(ls: seq<Lexeme>, i: nat, j: nat)
    requires i < |ls| && j < |ls| && !IsBlank(ls[i]) && !IsBlank(ls[j])
    requires |Sig(ls[..i])| == |Sig(ls[..j])|
    ensures i == j
  {
    if i < j { SigMore(ls, i, j); }
    if j < i { SigMore(ls, j, i); }
  }

  lemma SigMore(ls: seq<Lexeme>, i: nat, j: nat)
    requires i < j <= |ls| && !IsBlank(ls[i])
    ensures |Sig(ls[..i])| < |Sig(ls[..j])|
  {
    assert ls[..j] == ls[..i] + ([ls[i]] + ls[i + 1..j]);
    SigConcat(ls[..i], [ls[i]] + ls[i + 1..j]);
  }

  lemma TrimNothing(s: string, t: string, p: char -> bool)
    requires s != "" && !p(s[|s| - 1]) && (t == "" || (|t| == 1 && p(t[0])))
    ensures Text.TrimRight(s + t, p) == s
  {
    if t != "" { assert (s + t)[..|s + t| - 1] == s; }
    assert Text.TrimRight(s, p) == s;
    assert s + "" == s;
  }

  /** A word with as many meaningful lexemes before it as there are before the tail is the first of the tail. */
  lemma SplicedIndex(a: seq<Lexeme>, b: seq<Lexeme>, k: nat)
    requires b != [] && b[0].kind.Word?
    requires var ls := a + [Lexeme(Space, " ", true)] + b;
             k <= |ls| && (k < |ls| ==> ls[k].kind.Word?) && |Sig(ls[..k])| == |Sig(a)|
    ensures k == |a| + 1
  {
    hide Sig;
    var sp := [Lexeme(Space, " ", true)];
    var ls := a + sp + b;
    SigConcat(a, sp);
    assert |Sig(sp)| == 0 by { SigOne(sp[0]); }
    assert ls[..|a| + 1] == a + sp && ls[|a| + 1] == b[0];
    if k == |ls| {
      SigMore(ls, |a| + 1, k);
    } else {
      SigCount(ls, k, |a| + 1);
    }
  }

  lemma SigOne(l: Lexeme)
    ensures Sig([l]) == if IsBlank(l) then [] else [l]
  {
    assert [l][1..] == [];
  }

  /** Where the trailing clauses start in a spliced text. */
  lemma SplicedBody(front: string, tail: string, out: string)
    requires out == front + Led(tail) && Lex(out, 0) == Lex(front, 0) + Lex(Led(tail), 0)
    requires TailIndex(Tokens(out), true) == |Tokens(front)|
    requires tail != "" ==> Lex(tail, 0) != [] && Lex(tail, 0)[0].kind.Word?
    ensures HeadText(out) == if tail == "" then front else Text.TrimRight(front + " ", Text.IsBlank)
  {
    hide Cut, Lex, TailIndex, Text.TrimRight, Sig;
    var ls, a := Lex(out, 0), Lex(front, 0);
    var k := TailIndex(ls, true);
    TailIndexSig(ls);
    BodyEndIs(out);
    TailWordAt(ls);
    LedLex(tail);
    if tail == "" {
      assert ls == a && out == front;
      assert ls[..|ls|] == ls;
      if k < |ls| { SigMore(ls, k, |ls|); }
    } else {
      var sp := [Lexeme(Space, " ", true)];
      assert ls == a + sp + Lex(tail, 0);
      SplicedIndex(a, Lex(tail, 0), k);
      assert ls[..k] == a + sp;
      WidthConcat(a, sp);
      LexWidth(front, 0);
      assert Width(sp) == 1 by { assert sp[1..] == []; }
      assert out[..|front| + 1] == front + " ";
    }
  }

  lemma LastKept(s: string)
    requires Text.TrimSpace(s) != ""
    ensures var c := Text.TrimSpace(s); !Text.IsBlank(c[|c| - 1])
  {
  }

  /** The text before the trailing clauses after splicing. */
  function Front(query: string, condition: string): string {
    Text.TrimRight(HeadText(query), Text.IsBlank) + OperatorText(HasKeyword(HeadText(query), "where"))
    + Text.TrimSpace(condition)
  }

  lemma SplicedIsFront(query: string, condition: string)
    requires Readable(query) && Joinable(condition)
    ensures SplicedText(query, condition) == Front(query, condition) + Led(TailText(query))
    ensures Lex(SplicedText(query, condition), 0) == Lex(Front(query, condition), 0) + Lex(Led(TailText(query)), 0)
    ensures AllClosed(Lex(Front(query, condition), 0))
    ensures |Tokens(Front(query, condition))| == TailIndex(Tokens(SplicedText(query, condition)), true)
  {
    hide Cut, Lex, TailIndex, HasKeyword, HeadText, TailText, Parse, OneBlock, Condition, Text.TrimRight,
         Text.TrimSpace, Tokens;
    var c := Text.TrimSpace(condition);
    FrontLex(Text.TrimRight(HeadText(query), Text.IsBlank), HasKeyword(HeadText(query), "where"), c, TailText(query));
    FrontCount(query, condition);
  }

  lemma FrontLex(body: string, and: bool, c: string, tail: string)
    requires AllClosed(Lex(body, 0)) && AllClosed(Lex(c, 0))
    ensures var front := body + OperatorText(and) + c;
            && AllClosed(Lex(front, 0)) && Lex(front + Led(tail), 0) == Lex(front, 0) + Lex(Led(tail), 0)
            && Tokens(front) == Tokens(body) + [if and then AndWord else WhereWord] + Tokens(c)
  {
    hide Cut, Lex, Tokens;
    var op := OperatorText(and);
    OperatorLex(and);
    OperatorAppend(and, c);
    LexAppend(body, op + c);
    TokensAppend(body, op + c);
    OperatorTokens(and, c);
    assert body + op + c == body + (op + c);
    LexAppend(body + op + c, Led(tail));
  }

  lemma FrontCount(query: string, condition: string)
    requires Readable(query) && Joinable(condition)
    ensures |Tokens(Front(query, condition))| == TailIndex(Tokens(SplicedText(query, condition)), true)
  {
    hide Cut, Lex, TailIndex, HasKeyword, HeadText, TailText, Parse, OneBlock, Condition, Text.TrimRight,
         Text.TrimSpace, Tokens;
    var c := Text.TrimSpace(condition);
    FrontLex(Text.TrimRight(HeadText(query), Text.IsBlank), HasKeyword(HeadText(query), "where"), c, "");
    HeadTokens(query);
    SplicedTokens(query, condition);
    SpliceTailIndex(Tokens(query), Tokens(c));
  }

  lemma SplicedHead(query: string, condition: string)
    requires Readable(query) && Joinable(condition)
    ensures Text.TrimRight(HeadText(SplicedText(query, condition)), Text.IsBlank) == Front(query, condition)
  {
    hide Cut, Lex, TailIndex, HasKeyword, HeadText, TailText, Parse, OneBlock, Condition, Text.TrimRight,
         Text.TrimSpace, Sig;
    var front, tail, c := Front(query, condition), TailText(query), Text.TrimSpace(condition);
    SplicedIsFront(query, condition);
    if tail != "" { TailTextWord(query); }
    SplicedBody(front, tail, SplicedText(query, condition));
    LastKept(condition);
    assert front[|front| - 1] == c[|c| - 1];
    TrimNothing(front, "", Text.IsBlank);
    TrimNothing(front, " ", Text.IsBlank);
    assert front + "" == front;
  }

  lemma TailTextWord(query: string)
    requires TailText(query) != ""
    ensures Lex(TailText(query), 0) != [] && Lex(TailText(query), 0)[0].kind.Word?
  {
    TailStart(query);
    var n := BodyEnd(query);
    assert TailText(query)[0] == query[n];
    CutIdentPart(TailText(query), 0);
  }

  lemma SplicedClean(query: string, condition: string)
    requires Readable(query) && Joinable(condition)
    ensures CleanText(SplicedText(query, condition))
  {
    hide Cut, Lex, TailIndex, HasKeyword, HeadText, TailText, Parse, OneBlock, Condition, Text.TrimRight,
         Text.TrimSpace, Sig;
    SplicedIsFront(query, condition);
    TailTokens(query);
    HeadTextFrom(query);
    LedLex(TailText(query));
  }

  /** The result of splicing can be spliced into again. */
  lemma SplicedReadable(query: string, condition: string)
    requires Readable(query) && Joinable(condition)
    ensures Readable(SplicedText(query, condition))
  {
    hide Cut, Lex, TailIndex, HasKeyword, HeadText, TailText, Parse, OneBlock, Condition, Text.TrimRight,
         Text.TrimSpace, Sig;
    SplicedClean(query, condition);
    SplicedHead(query, condition);
    SplicedIsFront(query, condition);
    SplicedTokens(query, condition);
    SpliceOneBlock(Tokens(query), Tokens(Text.TrimSpace(condition)));
  }

  lemma HeadTextFrom(query: string)
    ensures forall c :: c in Text.TrimRight(HeadText(query), Text.IsBlank) ==> c in query
  {
    hide BodyEnd;
  }

  // ---- several conditions ----

  /** The text after several conditions were put in, first one first. */
  function Stacked(query: string, conditions: seq<string>): string {
    if conditions == [] then query
    else SplicedText(Stacked(query, conditions[..|conditions| - 1]), conditions[|conditions| - 1])
  }

  ghost predicate WhereHolds(where: Option<seq<Lexeme>>, truth: seq<Lexeme> -> bool) {
    where.None? || Holds(where.value, truth)
  }

  predicate PlainWhere(where: Option<seq<Lexeme>>) {
    where.None? || (Complete(where.value) && NoTopLevelOr(where.value))
  }

  /** Putting in conditions one after the other keeps the statement and restricts it to the rows that meet them all. */
  lemma {:induction false} StackedConditions(query: string, conditions: seq<string>, truth: seq<Lexeme> -> bool)
    requires Readable(query) && PlainWhere(Parse(Tokens(query)).where)
    requires forall c <- conditions :: Joinable(c) && NoTopLevelOr(Tokens(Text.TrimSpace(c)))
    ensures var before, after := Parse(Tokens(query)), Parse(Tokens(Stacked(query, conditions)));
            && Readable(Stacked(query, conditions))
            && after.head == before.head && after.tail == before.tail
            && PlainWhere(after.where)
            && (WhereHolds(after.where, truth) <==>
                 WhereHolds(before.where, truth)
                 && forall c <- conditions :: Holds(Tokens(Text.TrimSpace(c)), truth))
    decreases |conditions|
  {
    hide Cut, Lex, TailIndex, SplicedText, Parse, Readable, Holds, Complete, NoTopLevelOr, Sig, Text.TrimSpace,
         NoTailWord;
    if conditions != [] {
      var front, last := conditions[..|conditions| - 1], conditions[|conditions| - 1];
      assert forall c <- front :: c in conditions;
      StackedConditions(query, front, truth);
      var inner, c := Stacked(query, front), Tokens(Text.TrimSpace(last));
      assert Joinable(last) && NoTopLevelOr(c);
      AppendedStatement(inner, last);
      SplicedReadable(inner, last);
      var where := Parse(Tokens(inner)).where;
      if where.Some? {
        JoinMeansAnd(where.value, c, truth);
        JoinComplete(where.value, c);
      }
      assert forall d :: d in conditions <==> d in front || d == last;
    }
  }

  /** The order in which conditions are put in does not matter. */
  lemma StackedAnyOrder(query: string, a: seq<string>, b: seq<string>, truth: seq<Lexeme> -> bool)
    requires Readable(query) && PlainWhere(Parse(Tokens(query)).where)
    requires forall c <- a :: Joinable(c) && NoTopLevelOr(Tokens(Text.TrimSpace(c)))
    requires forall c :: c in a <==> c in b
    ensures var p, q := Parse(Tokens(Stacked(query, a))), Parse(Tokens(Stacked(query, b)));
            p.head == q.head && p.tail == q.tail && (WhereHolds(p.where, truth) <==> WhereHolds(q.where, truth))
  {
    hide Cut, Lex, TailIndex, Stacked, Parse, Readable, Holds, NoTopLevelOr, Sig, Text.TrimSpace, Joinable;
    StackedConditions(query, a, truth);
    StackedConditions(query, b, truth);
  }

  /**
   Putting in any further condition restricts a statement exactly when its predicate has no OR at depth zero: with one,
   the condition restricts only the last alternative.
   */
  lemma SpliceExact(ts: seq<Lexeme>)
    requires OneBlock(ts) && Parse(ts).where.Some? && Complete(Parse(ts).where.value)
    ensures NoTopLevelOr(Parse(ts).where.value) <==>
            forall c, truth :: Condition(c) && NoTopLevelOr(c) ==> Restricts(ts, c, truth)
  {
    hide TailIndex, Parse, OneBlock, Holds, Complete, NoTopLevelOr, NoTailWord, Splice;
    var w := Parse(ts).where.value;
    if NoTopLevelOr(w) {
      forall c, truth | Condition(c) && NoTopLevelOr(c)
        ensures Restricts(ts, c, truth)
      {
        SpliceParses(ts, c);
        JoinMeansAnd(w, c, truth);
      }
    } else {
      var n, truth := OrBreaksJoin(w);
      FreshCondition(n);
      SpliceParses(ts, Fresh(n));
      assert !Restricts(ts, Fresh(n), truth);
    }
  }

  /** The spliced statement selects what the old one selects and the condition allows. */
  ghost predicate Restricts(ts: seq<Lexeme>, c: seq<Lexeme>, truth: seq<Lexeme> -> bool) {
    WhereHolds(Parse(Splice(ts, c)).where, truth) <==> WhereHolds(Parse(ts).where, truth) && Holds(c, truth)
  }

  lemma FreshCondition(n: nat)
    ensures Condition(Fresh(n))
  {
    hide Fresh, Complete, Disjuncts;
    FreshAtom(n);
    FreshWords(n);
  }

  lemma {:induction false} FreshWords(n: nat)
    ensures AllSig(Fresh(n)) && NoTailWord(Fresh(n), 0)
  {
    if n > 0 {
      FreshWords(n - 1);
      assert Fresh(n)[1..] == Fresh(n - 1);
    }
  }
}
