/**
 Line comments at the place where interceptor.go and entity_interceptor.go put in a condition or an assignment: what is
 put in is read as it should be exactly when no comment is left open before it.
 */
module SqlComments {
  import opened Prelude
  import opened SqlLexer
  import opened SqlScan
  import opened SqlRewrite
  import opened SqlUpdate
  import Text

  // ---- what an open comment takes in ----

  /** A text that ends no comment: without a line break and the sign that ends a block comment. */
  predicate Quiet(s: string) {
    '\n' !in s && forall i :: 0 <= i < |s| - 1 ==> !(s[i] == '*' && s[i + 1] == '/')
  }

  lemma QuietConcat(a: string, b: string)
    requires Quiet(a) && Quiet(b) && (a == "" || b == "" || b[0] == ' ' || a[|a| - 1] == ' ')
    ensures Quiet(a + b)
  {
  }

  /** A part of a text that ends no comment. */
  lemma QuietTrimmed(s: string)
    requires Quiet(s)
    ensures Quiet(Text.TrimSpace(s))
  {
    var l := Text.TrimLeft(s, Text.IsSpace);
    QuietSlice(s, |s| - |l|, |s|);
    QuietSlice(l, 0, |Text.TrimRight(l, Text.IsSpace)|);
  }

  lemma QuietSlice(s: string, i: nat, j: nat)
    requires Quiet(s) && i <= j <= |s|
    ensures Quiet(s[i..j])
  {
  }

  lemma {:induction false} LineGoesOn(p: string, rest: string, i: nat)
    requires i <= |p| && LineEnd(p, i) == |p| && Quiet(rest)
    ensures LineEnd(p + rest, i) == |p + rest|
    decreases |p + rest| - i
  {
    if i < |p| { LineGoesOn(p, rest, i + 1); } else { NoLineEnd(p + rest, i); }
  }

  lemma {:induction false} NoLineEnd(q: string, i: nat)
    requires i <= |q| && forall k :: i <= k < |q| ==> q[k] != '\n'
    ensures LineEnd(q, i) == |q|
    decreases |q| - i
  {
    if i < |q| { NoLineEnd(q, i + 1); }
  }

  lemma {:induction false} BlockGoesOn(p: string, rest: string, i: nat)
    requires i <= |p| && !BlockEnd(p, i).1 && Quiet(rest) && (rest != "" ==> rest[0] != '/')
    ensures BlockEnd(p + rest, i) == (|p + rest|, false)
    decreases |p| - i
  {
    if i < |p| { BlockGoesOn(p, rest, i + 1); } else { NoBlockEnd(p + rest, i); }
  }

  lemma {:induction false} NoBlockEnd(q: string, i: nat)
    requires i <= |q| && forall k :: i <= k < |q| - 1 ==> !(q[k] == '*' && q[k + 1] == '/')
    ensures BlockEnd(q, i) == (|q|, false)
    decreases |q| - i
  {
    if i < |q| { NoBlockEnd(q, i + 1); }
  }

  /** The comment that is open at the end goes on to the end of what is appended. */
  lemma OpenComment(p: string, rest: string, i: nat)
    requires i < |p| && Cut(p, i).kind.Comment? && !Cut(p, i).closed && Quiet(rest) && (rest != "" ==> rest[0] != '/')
    ensures Cut(p + rest, i) == Extent(Comment, |p + rest|, false)
  {
    hide Quiet, LineEnd, BlockEnd;
    var q := p + rest;
    assert q[i] == p[i] && q[i + 1] == p[i + 1];
    if p[i] == '-' { LineGoesOn(p, rest, i + 2); } else { BlockGoesOn(p, rest, i + 2); }
  }

  /** A closed lexeme before the end of a text stays when something is appended. */
  lemma ClosedStays(p: string, rest: string, i: nat)
    requires i < |p| && Cut(p, i).closed && Cut(p, i).end < |p|
    ensures var n := Cut(p, i).end;
            && Lex(p, i) == [Lex(p, i)[0]] + Lex(p, n)
            && Lex(p + rest, i) == [Lex(p, i)[0]] + Lex(p + rest, n)
  {
    hide Cut;
    CutExtend(p, p + rest, i);
    assert (p + rest)[i..Cut(p, i).end] == p[i..Cut(p, i).end];
  }

  lemma OpenStays(p: string, rest: string, i: nat)
    requires i < |p| && Cut(p, i).kind.Comment? && !Cut(p, i).closed
    requires Quiet(rest) && (rest != "" ==> rest[0] != '/')
    ensures Sig(Lex(p, i)) == [] && Sig(Lex(p + rest, i)) == []
  {
    hide Cut, Quiet;
    UnclosedEnds(p, i);
    OpenComment(p, rest, i);
    CommentAlone(p, i);
    CommentAlone(p + rest, i);
  }

  lemma CommentAlone(q: string, i: nat)
    requires i < |q| && Cut(q, i).kind.Comment? && Cut(q, i).end == |q|
    ensures Sig(Lex(q, i)) == []
  {
    hide Cut;
    assert Lex(q, |q|) == [];
  }

  /** After a text that ends in an open comment, a text that ends no comment is not read. */
  lemma {:induction false} OpenTakesAll(p: string, rest: string, i: nat)
    requires i <= |p| && Tidy(Lex(p, i)) && !AllClosed(Lex(p, i))
    requires Quiet(rest) && (rest != "" ==> rest[0] != '/')
    ensures Sig(Lex(p + rest, i)) == Sig(Lex(p, i))
    decreases |p| - i
  {
    hide Cut, Lex, Quiet, Sig;
    OpenSomewhere(p, i);
    var n := Cut(p, i).end;
    if Cut(p, i).closed {
      ClosedStays(p, rest, i);
      OpenTakesAll(p, rest, n);
      var l := Lex(p, i)[0];
      SigConcat([l], Lex(p, n));
      SigConcat([l], Lex(p + rest, n));
    } else {
      OpenStays(p, rest, i);
    }
  }

  lemma OpenSomewhere(p: string, i: nat)
    requires i <= |p| && Tidy(Lex(p, i)) && !AllClosed(Lex(p, i))
    ensures i < |p| && (!Cut(p, i).closed ==> Cut(p, i).kind.Comment?)
    ensures Cut(p, i).closed ==>
              Cut(p, i).end < |p| && Tidy(Lex(p, Cut(p, i).end)) && !AllClosed(Lex(p, Cut(p, i).end))
  {
    hide Cut;
    EmptyLex(p, i);
    if i < |p| {
      var ls := Lex(p, i);
      assert ls[0] in ls && ls[1..] == Lex(p, Cut(p, i).end) && forall l <- ls[1..] :: l in ls;
      EmptyLex(p, Cut(p, i).end);
      assert ls == [ls[0]] + ls[1..];
    }
  }

  lemma OpenTokens(p: string, rest: string)
    requires Tidy(Lex(p, 0)) && !AllClosed(Lex(p, 0)) && Quiet(rest) && (rest != "" ==> rest[0] != '/')
    ensures Tokens(p + rest) == Tokens(p)
  {
    hide Lex, Sig, Quiet;
    OpenTakesAll(p, rest, 0);
    TokensAre(p);
    TokensAre(p + rest);
  }

  lemma TokensAre(q: string)
    ensures Tokens(q) == Sig(Lex(q, 0))
  {
  }

  // ---- an assignment ----

  /** What an assignment is put behind. */
  function Front(query: string): string {
    Text.TrimRight(query[..WhereText(query)], Text.IsBlank)
  }

  lemma FrontTidy(query: string)
    requires CleanText(query) && HasSet(Tokens(query))
    ensures Tidy(Lex(Front(query), 0))
  {
    hide Cut, Lex, HasSet, WhereIndex, Tokens, WhereText;
    SetKept(query);
    WhereSplit(query);
    var ls := Lex(query, 0);
    var k := WhereIndex(ls);
    if k < |ls| {
      ClosedBefore(query, 0, k);
      LexTake(query, 0, k);
    } else {
      assert query[..|query|] == query;
    }
    TrimTidy(query[..WhereText(query)], Text.IsBlank);
  }

  /** What is written behind the front. */
  function Behind(query: string, assignment: string): string {
    ", " + (assignment + (if WhereText(query) == |query| then "" else " " + Text.TrimSpace(query[WhereText(query)..])))
  }

  lemma AssignedBehind(query: string, assignment: string)
    requires HasSet(Lex(query, 0))
    ensures AssignedText(query, assignment) == Ok(Front(query) + Behind(query, assignment))
  {
    hide Lex, HasSet, WhereText, Text.TrimSpace, Text.TrimRight;
    var n := WhereText(query);
    var rest := if n == |query| then "" else " " + Text.TrimSpace(query[n..]);
    assert Front(query) + ", " + assignment + rest == Front(query) + (", " + (assignment + rest));
  }

  lemma BehindQuiet(query: string, assignment: string)
    requires Quiet(assignment) && Quiet(query[WhereText(query)..])
    ensures Quiet(Behind(query, assignment)) && Behind(query, assignment)[0] == ','
  {
    hide WhereText, Text.TrimSpace, Quiet;
    var n := WhereText(query);
    QuietRest(query[n..]);
    QuietJoined(assignment, if n == |query| then "" else " " + Text.TrimSpace(query[n..]));
  }

  lemma FrontTokens(query: string)
    requires CleanText(query) && HasSet(Tokens(query))
    ensures Tokens(Front(query)) == Tokens(query)[..WhereIndex(Tokens(query))]
  {
    hide Tokens, CleanText, HasSet, WhereIndex, WhereText, Lex;
    WhereTokens(query);
  }

  /** Behind an open comment neither the assignment nor what follows it is read. */
  lemma AssignmentLost(query: string, assignment: string)
    requires CleanText(query) && HasSet(Tokens(query)) && !AllClosed(Lex(Front(query), 0))
    requires Quiet(assignment) && Quiet(query[WhereText(query)..])
    ensures AssignedText(query, assignment).Ok?
    ensures Tokens(AssignedText(query, assignment).value) == Tokens(query)[..WhereIndex(Tokens(query))]
  {
    hide *;
    SetKept(query);
    FrontTidy(query);
    FrontTokens(query);
    AssignedBehind(query, assignment);
    BehindQuiet(query, assignment);
    OpenTokens(Front(query), Behind(query, assignment));
  }

  lemma QuietRest(s: string)
    requires Quiet(s)
    ensures Quiet("") && Quiet(" " + Text.TrimSpace(s))
  {
    QuietTrimmed(s);
    hide Text.TrimSpace;
    QuietConcat(" ", Text.TrimSpace(s));
  }

  lemma QuietJoined(a: string, rest: string)
    requires Quiet(a) && Quiet(rest) && (rest == "" || rest[0] == ' ')
    ensures Quiet(", " + (a + rest)) && (", " + (a + rest))[0] == ','
  {
    QuietConcat(a, rest);
    QuietConcat(", ", a + rest);
  }

  /**
   The assignment is put in as it should be, and everything else is read as before, exactly when no comment is left open
   before it; for an assignment and a WHERE on one line.
   */
  lemma AssignedTextExact(query: string, assignment: string)
    requires CleanText(query) && HasSet(Tokens(query)) && AllClosed(Lex(assignment, 0))
    requires Quiet(assignment) && Quiet(query[WhereText(query)..])
    ensures AssignedText(query, assignment).Ok?
    ensures Tokens(AssignedText(query, assignment).value) == Assign(Tokens(query), Tokens(assignment))
            <==> AllClosed(Lex(Front(query), 0))
  {
    hide Lex, HasSet, WhereIndex, Tokens, WhereText, CleanText, Quiet, Assign, AllClosed, Text.TrimRight, AssignedText;
    if AllClosed(Lex(Front(query), 0)) {
      AssignedTokens(query, assignment);
    } else {
      AssignmentLost(query, assignment);
      AssignLonger(Tokens(query), Tokens(assignment));
    }
  }

  lemma AssignLonger(ts: seq<Lexeme>, a: seq<Lexeme>)
    ensures |Assign(ts, a)| > |ts| >= |ts[..WhereIndex(ts)]|
  {
    hide AfterSet;
  }

  // ---- a condition ----

  /** Behind an open comment neither the condition nor the trailing clauses are read. */
  lemma ConditionLost(query: string, condition: string)
    requires CleanText(query) && !AllClosed(Lex(Text.TrimRight(HeadText(query), Text.IsBlank), 0))
    requires Text.TrimSpace(condition) != "" && Quiet(Text.TrimSpace(condition)) && Quiet(TailText(query))
    ensures Tokens(SplicedText(query, condition)) == Tokens(query)[..TailIndex(Tokens(query), true)]
  {
    hide Lex, Tokens, CleanText, Quiet, Text.TrimSpace, Text.TrimRight, HeadText, TailText, TailIndex, HasKeyword;
    HeadTokens(query);
    HeadTidy(query);
    var body, c, tail := Text.TrimRight(HeadText(query), Text.IsBlank), Text.TrimSpace(condition), TailText(query);
    var operator := if HasKeyword(HeadText(query), "where") then " AND " else " WHERE ";
    var rest := if tail == "" then "" else " " + tail;
    QuietLed(tail);
    QuietOperator(operator, c, rest);
    OpenTokens(body, operator + (c + rest));
    assert body + operator + c + rest == body + (operator + (c + rest));
  }

  lemma HeadTidy(query: string)
    requires CleanText(query)
    ensures Tidy(Lex(Text.TrimRight(HeadText(query), Text.IsBlank), 0))
  {
    hide Cut, Lex, TailIndex;
    var ls := Lex(query, 0);
    var k := TailIndex(ls, true);
    BodyEndIs(query);
    if k == |ls| {
      TrimTidy(query, Text.IsBlank);
    } else {
      ClosedBefore(query, 0, k);
      LexTake(query, 0, k);
      var body := query[..BodyEnd(query)];
      TrimTidy(body, Text.IsBlank);
      TrimTidy(Text.TrimRight(body, Text.IsBlank), Text.IsBlank);
    }
  }

  lemma QuietLed(tail: string)
    requires Quiet(tail)
    ensures Quiet("") && Quiet(" " + tail)
  {
    QuietConcat(" ", tail);
  }

  lemma QuietOperator(operator: string, c: string, rest: string)
    requires operator == " AND " || operator == " WHERE "
    requires Quiet(c) && Quiet(rest) && (rest == "" || rest[0] == ' ')
    ensures Quiet(operator + (c + rest)) && (operator + (c + rest))[0] == ' '
  {
    QuietConcat(c, rest);
    QuietConcat(operator, c + rest);
  }

  /**
   The condition is put in as it should be, and everything else is read as before, exactly when no comment is left open
   before it; for a condition and trailing clauses on one line.
   */
  lemma SplicedTextExact(query: string, condition: string)
    requires CleanText(query) && OneBlock(Tokens(query)) && Joinable(condition)
    requires Quiet(Text.TrimSpace(condition)) && Quiet(TailText(query))
    ensures Tokens(SplicedText(query, condition)) == Splice(Tokens(query), Tokens(Text.TrimSpace(condition)))
            <==> AllClosed(Lex(Text.TrimRight(HeadText(query), Text.IsBlank), 0))
  {
    hide Lex, Tokens, CleanText, Quiet, AllClosed, Text.TrimSpace, Text.TrimRight, HeadText, TailText, TailIndex,
         SplicedText, Splice, OneBlock, Condition;
    if AllClosed(Lex(Text.TrimRight(HeadText(query), Text.IsBlank), 0)) {
      SplicedTokens(query, condition);
    } else {
      ConditionLost(query, condition);
      SpliceLonger(Tokens(query), Tokens(Text.TrimSpace(condition)));
    }
  }

  lemma SpliceLonger(ts: seq<Lexeme>, c: seq<Lexeme>)
    ensures |Splice(ts, c)| > |ts| >= |ts[..TailIndex(ts, true)]|
  {
    hide TailIndex;
  }
}
