/** `appendUpdateAssignment` of entity_interceptor.go, proved on the SET items the rewritten statement reads back as. */
module SqlUpdate {
  import opened Prelude
  import opened SqlLexer
  import opened SqlScan
  import opened SqlPredicate
  import opened SqlRewrite
  import opened SqlList
  import Text

  /** An UPDATE: up to SET, its assignments, and from WHERE or the first trailing clause on. */
  datatype Update = Update(head: seq<Lexeme>, items: seq<seq<Lexeme>>, rest: seq<Lexeme>)

  /** The index after SET, or the number of lexemes. */
  function AfterSet(ts: seq<Lexeme>): (k: nat)
    ensures k <= |ts|
  {
    var s := Seek(ts, 0, Keyword("set"));
    if s == |ts| then s else s + 1
  }

  predicate HasSet(ts: seq<Lexeme>) {
    Seek(ts, 0, Keyword("set")) < |ts|
  }

  predicate HasWhere(ts: seq<Lexeme>) {
    Seek(ts[AfterSet(ts)..], 0, Keyword("where")) < |ts| - AfterSet(ts)
  }

  predicate HasTail(ts: seq<Lexeme>) {
    Seek(ts[AfterSet(ts)..], 0, Tail(true)) < |ts| - AfterSet(ts)
  }

  /** The length of the SET part `region`. */
  function SetLength(region: seq<Lexeme>): (k: nat)
    ensures k <= |region|
  {
    var w := Seek(region, 0, Keyword("where"));
    if w < |region| then w else Seek(region, 0, Tail(true))
  }

  function ReadUpdate(ts: seq<Lexeme>): Update {
    var region := ts[AfterSet(ts)..];
    var k := SetLength(region);
    Update(ts[..AfterSet(ts)], Items(region[..k], 0), region[k..])
  }

  /** The statement with an assignment put in before WHERE, or at the very end when there is none. */
  function Assign(ts: seq<Lexeme>, a: seq<Lexeme>): seq<Lexeme> {
    var region := ts[AfterSet(ts)..];
    var w := Seek(region, 0, Keyword("where"));
    ts[..AfterSet(ts)] + region[..w] + [CommaSign] + a + region[w..]
  }

  /** One assignment: closed parentheses, no comma, WHERE or tail word at depth zero. */
  predicate Assignment(a: seq<Lexeme>) {
    && AllSig(a)
    && DepthOf(a, 0) == 0
    && Seek(a, 0, Keyword("where")) == |a|
    && NoTailWord(a, 0)
    && Items(a, 0) == [a]
  }

  lemma CommaIs(t: Target)
    ensures !CommaSign.kind.Word? && Step(0, CommaSign.kind) == 0 && !IsBlank(CommaSign)
  {
  }

  /** Putting an assignment at the end of a text does not change what its words mean, except that nothing follows. */
  lemma CommaLooksLikeEnd(w: Lexeme)
    ensures forall rest :: TailClause(w, [CommaSign] + rest, true) == TailClause(w, [], true)
  {
    hide Is, TailClause;
    forall rest
      ensures TailClause(w, [CommaSign] + rest, true) == TailClause(w, [], true)
    {
      CommaIsNoStart(w, rest);
    }
  }

  lemma CommaIsNoStart(w: Lexeme, rest: seq<Lexeme>)
    ensures TailClause(w, [CommaSign] + rest, true) == TailClause(w, [], true)
  {
    hide Is;
    var after := [CommaSign] + rest;
    assert forall keyword :: !Is(CommaSign, keyword) by { NoKeyword(CommaSign); }
    assert !FirstCharIn(after, "0123456789?:(#$") && !FirstCharIn(after, "=<>!");
  }

  lemma NoKeyword(l: Lexeme)
    requires !l.kind.Word?
    ensures forall keyword :: !Is(l, keyword)
  {
  }

  lemma {:induction false} SeekTailWithComma(h: seq<Lexeme>, a: seq<Lexeme>, depth: nat)
    requires AllSig(h) && AllSig(a) && DepthOf(h, depth) == 0 && NoTailWord(a, 0)
    ensures var k := Seek(h, depth, Tail(true));
            Seek(h + [CommaSign] + a, depth, Tail(true)) == if k < |h| then k else |h| + 1 + |a|
  {
    hide TailClause, TailWord, Seek, Step, Sig;
    var all := h + [CommaSign] + a;
    if h == [] {
      assert all == [CommaSign] + a;
      CommaIs(Tail(true));
      SeekFirst(CommaSign, a, 0, Tail(true));
      SeekTailPast(a, [], 0);
      SearchNothing(DepthOf(a, 0), Tail(true));
      SearchNothing(depth, Tail(true));
      assert a + [] == a;
    } else {
      var w, h' := h[0], h[1..];
      var after := h' + [CommaSign] + a;
      assert h == [w] + h' && all == [w] + after;
      CommaIs(Tail(true));
      SigOfSig(h');
      SigOfSig(after);
      SeekFirst(w, h', depth, Tail(true));
      SeekFirst(w, after, depth, Tail(true));
      if h' == [] {
        CommaLooksLikeEnd(w);
        assert after == [CommaSign] + a;
      } else {
        TailClauseLooksAhead(w, h', after, true);
      }
      SeekTailWithComma(h', a, Step(depth, w.kind));
    }
  }

  /** Where SET ends after the assignment was put in. */
  lemma AssignAfterSet(ts: seq<Lexeme>, a: seq<Lexeme>)
    requires HasSet(ts)
    ensures AfterSet(Assign(ts, a)) == AfterSet(ts) && HasSet(Assign(ts, a))
    ensures var n := AfterSet(ts); var region := ts[n..]; var w := Seek(region, 0, Keyword("where"));
            && Assign(ts, a)[..n] == ts[..n]
            && Assign(ts, a)[n..] == region[..w] + ([CommaSign] + a + region[w..])
  {
    hide Hits;
    var n := AfterSet(ts);
    var region := ts[n..];
    var w := Seek(region, 0, Keyword("where"));
    var out := Assign(ts, a);
    assert ts == ts[..n] + region;
    assert out == ts[..n] + (region[..w] + ([CommaSign] + a + region[w..]));
    SeekKeywordIn(ts[..n], region, 0, "set");
    SeekKeywordIn(ts[..n], region[..w] + ([CommaSign] + a + region[w..]), 0, "set");
  }

  /** With a WHERE, the assignment becomes the last SET item and nothing else changes. */
  lemma AssignBeforeWhere(ts: seq<Lexeme>, a: seq<Lexeme>)
    requires AllSig(ts) && HasSet(ts) && HasWhere(ts) && Assignment(a)
    ensures ReadUpdate(Assign(ts, a)) == ReadUpdate(ts).(items := ReadUpdate(ts).items + [a])
  {
    hide Hits, Seek, NoTailWord, DepthOf, Assign, AfterSet, Items;
    var n := AfterSet(ts);
    var region := ts[n..];
    var w := Seek(region, 0, Keyword("where"));
    AssignAfterSet(ts, a);
    assert region == region[..w] + region[w..];
    WhereAfter(region, a);
    var front := region[..w] + [CommaSign] + a;
    assert Assign(ts, a)[n..] == front + region[w..];
    assert (front + region[w..])[..|front|] == front && (front + region[w..])[|front|..] == region[w..];
    ItemsConcat(region[..w], a, 0);
  }

  /** Where the WHERE is after the assignment was put in. */
  lemma WhereAfter(region: seq<Lexeme>, a: seq<Lexeme>)
    requires Assignment(a) && Seek(region, 0, Keyword("where")) < |region|
    ensures var w := Seek(region, 0, Keyword("where")); var front := region[..w] + [CommaSign] + a;
            Seek(front + region[w..], 0, Keyword("where")) == |front| && DepthOf(region[..w], 0) == 0
  {
    hide Hits, Seek, NoTailWord;
    var w := Seek(region, 0, Keyword("where"));
    var front := region[..w] + [CommaSign] + a;
    SeekDepth(region, 0, Keyword("where"));
    assert region == region[..w] + region[w..];
    SeekKeywordIn(region[..w], region[w..], 0, "where");
    WhereInFront(region[..w], a);
    SeekKeywordIn(front, region[w..], 0, "where");
    DepthConcat(region[..w] + [CommaSign], a, 0);
    DepthConcat(region[..w], [CommaSign], 0);
    WhereStays(region);
  }

  lemma WhereStays(region: seq<Lexeme>)
    requires Seek(region, 0, Keyword("where")) < |region|
    ensures Seek(region[Seek(region, 0, Keyword("where"))..], 0, Keyword("where")) == 0
  {
    hide Hits;
    SeekHit(region, 0, Keyword("where"));
  }

  lemma WhereInFront(h: seq<Lexeme>, a: seq<Lexeme>)
    requires DepthOf(h, 0) == 0 && Seek(h, 0, Keyword("where")) == |h| && Seek(a, 0, Keyword("where")) == |a|
    ensures Seek(h + [CommaSign] + a, 0, Keyword("where")) == |h + [CommaSign] + a|
  {
    assert h + [CommaSign] + a == h + ([CommaSign] + a);
    SeekKeywordIn(h, [CommaSign] + a, 0, "where");
    assert ([CommaSign] + a)[1..] == a;
  }

  /** The SET part of a text without WHERE after an assignment was put at the end. */
  lemma SetLengthAtEnd(region: seq<Lexeme>, a: seq<Lexeme>)
    requires AllSig(region) && Assignment(a) && DepthOf(region, 0) == 0
    requires Seek(region, 0, Keyword("where")) == |region|
    ensures var k := SetLength(region);
            SetLength(region + [CommaSign] + a) == if k < |region| then k else |region| + 1 + |a|
  {
    hide Hits, NoTailWord, Seek, Items;
    WhereInFront(region, a);
    SeekTailWithComma(region, a, 0);
  }

  /** Without a WHERE the assignment goes to the end: it becomes a SET item only when no trailing clause comes first. */
  lemma AssignAtEnd(ts: seq<Lexeme>, a: seq<Lexeme>)
    requires AllSig(ts) && HasSet(ts) && !HasWhere(ts) && Assignment(a)
    requires DepthOf(ts[AfterSet(ts)..], 0) == 0
    ensures !HasTail(ts) ==> ReadUpdate(Assign(ts, a)) == ReadUpdate(ts).(items := ReadUpdate(ts).items + [a])
    ensures HasTail(ts) ==> ReadUpdate(Assign(ts, a)) == ReadUpdate(ts).(rest := ReadUpdate(ts).rest + [CommaSign] + a)
  {
    hide AfterSet, NoTailWord, Seek, HasSet, DepthOf;
    var n := AfterSet(ts);
    var region := ts[n..];
    AssignAfterSet(ts, a);
    assert region[..|region|] == region && region[|region|..] == [];
    var after := region + [CommaSign] + a;
    assert Assign(ts, a)[n..] == after;
    SetLengthAtEnd(region, a);
    var k := SetLength(region);
    if k < |region| {
      assert after[..k] == region[..k] && after[k..] == region[k..] + [CommaSign] + a;
    } else {
      assert after[..|after|] == after && after[|after|..] == [];
      ItemsConcat(region, a, 0);
    }
  }

  /** `appendUpdateAssignment` adds exactly one SET item exactly when the UPDATE has a WHERE or no trailing clause. */
  lemma AssignExact(ts: seq<Lexeme>, a: seq<Lexeme>)
    requires AllSig(ts) && HasSet(ts) && Assignment(a) && DepthOf(ts[AfterSet(ts)..], 0) == 0
    ensures ReadUpdate(Assign(ts, a)) == ReadUpdate(ts).(items := ReadUpdate(ts).items + [a])
            <==> HasWhere(ts) || !HasTail(ts)
  {
    hide ReadUpdate, Assignment, HasWhere, HasTail, AfterSet, HasSet, Assign;
    if HasWhere(ts) {
      AssignBeforeWhere(ts, a);
    } else {
      AssignAtEnd(ts, a);
    }
  }

  // ---- the text ----

  datatype AssignError = NoSetClause

  function AfterSetText(query: string): (n: nat)
    ensures n <= |query|
  {
    var ls := Lex(query, 0);
    LexDrop(query, 0, AfterSet(ls));
    Width(ls[..AfterSet(ls)])
  }

  /** The position of the first WHERE after SET, or the end of the text. */
  function WhereText(query: string): (n: nat)
    ensures n <= |query|
  {
    var ls := Lex(query, AfterSetText(query));
    var k := Seek(ls, 0, Keyword("where"));
    LexDrop(query, AfterSetText(query), k);
    AfterSetText(query) + Width(ls[..k])
  }

  function AssignedText(query: string, assignment: string): Result<string, AssignError> {
    if !HasSet(Lex(query, 0)) then Err(NoSetClause)
    else
      var n := WhereText(query);
      Ok(Text.TrimRight(query[..n], Text.IsBlank) + ", " + assignment
         + (if n == |query| then "" else " " + Text.TrimSpace(query[n..])))
  }

  lemma SetPosition(query: string)
    requires HasSet(Lex(query, 0))
    ensures var ls := Lex(query, 0); var k := Seek(ls, 0, Keyword("set"));
            && Position(ls, k) + 3 == AfterSetText(query)
            && Lex(query, AfterSetText(query)) == ls[AfterSet(ls)..]
            && Lex(query[AfterSetText(query)..], 0) == ls[AfterSet(ls)..]
  {
    hide Cut, Lex, Width, Seek, HasSet, AfterSet;
    var ls := Lex(query, 0);
    var k := Seek(ls, 0, Keyword("set"));
    SetFound(ls);
    WidthNext(query, k);
    LexShift(query, AfterSetText(query), 0);
  }

  lemma SetFound(ls: seq<Lexeme>)
    requires HasSet(ls)
    ensures var k := Seek(ls, 0, Keyword("set")); k < |ls| && |ls[k].text| == 3 && AfterSet(ls) == k + 1
  {
    SeekHit(ls, 0, Keyword("set"));
    hide Seek;
    SameWord(ls[Seek(ls, 0, Keyword("set"))], "set");
  }

  lemma WherePosition(query: string)
    requires HasSet(Lex(query, 0))
    ensures var suffix := Lex(query[AfterSetText(query)..], 0); var k := Seek(suffix, 0, Keyword("where"));
            if k == |suffix| then WhereText(query) == |query|
            else WhereText(query) == AfterSetText(query) + Width(suffix[..k]) < |query|
  {
    hide Cut, HasSet, Seek;
    SetPosition(query);
    var n := AfterSetText(query);
    var ls := Lex(query, n);
    LexShift(query, n, 0);
    var k := Seek(ls, 0, Keyword("where"));
    LexDrop(query, n, k);
    LexWidth(query, n);
    assert ls[..|ls|] == ls;
    assert k < |ls| ==> Lex(query, n + Width(ls[..k])) != [];
  }

  method AppendUpdateAssignment(query: string, assignment: string) returns (out: Result<string, AssignError>)
    ensures out == AssignedText(query, assignment)
  {
    hide Cut, Lex, Seek, Text.TrimRight, Text.TrimSpace, HasSet, WhereText, AfterSetText;
    var setIndex := FindSqlKeyword(query, "set");
    TrimWord("set");
    assert setIndex < 0 <==> !HasSet(Lex(query, 0)) by { PositionSign(query); }
    if setIndex < 0 {
      return Err(NoSetClause);
    }
    SetPosition(query);
    WherePosition(query);
    var afterSet := setIndex + |"set"|;
    var whereRelative := FindSqlKeyword(query[afterSet..], "where");
    TrimWord("where");
    if whereRelative >= 0 {
      var whereIndex := afterSet + whereRelative;
      return Ok(Text.TrimRight(query[..whereIndex], Text.IsBlank) + ", " + assignment
                + (" " + Text.TrimSpace(query[whereIndex..])));
    }
    assert query[..|query|] == query;
    return Ok(Text.TrimRight(query, Text.IsBlank) + ", " + assignment + "");
  }

  lemma PositionSign(query: string)
    ensures var ls := Lex(query, 0);
            Position(ls, Seek(ls, 0, Keyword("set"))) < 0 <==> !HasSet(ls)
  {
    hide Cut, Lex, Seek;
  }

  /** What the rewriting needs of the text: closed lexemes, and no line comment right before the WHERE or at the end. */
  predicate UpdateText(query: string) {
    && CleanText(query)
    && HasSet(Tokens(query))
    && AllClosed(Lex(Text.TrimRight(query[..WhereText(query)], Text.IsBlank), 0))
  }

  lemma SetSig(ls: seq<Lexeme>)
    ensures AfterSet(Sig(ls)) == |Sig(ls[..AfterSet(ls)])| && (HasSet(Sig(ls)) <==> HasSet(ls))
    ensures Sig(ls[AfterSet(ls)..]) == Sig(ls)[AfterSet(Sig(ls))..]
  {
    hide Hits, Sig;
    var k := Seek(ls, 0, Keyword("set"));
    SeekSig(ls, 0, Keyword("set"));
    SeekHit(ls, 0, Keyword("set"));
    SigSplit(ls, AfterSet(ls));
    if k < |ls| {
      assert ls[..k + 1] == ls[..k] + [ls[k]];
      SigConcat(ls[..k], [ls[k]]);
      SigOne(ls[k]);
    } else {
      assert ls[..k] == ls;
    }
  }

  /** The index of the first WHERE after SET, or the number of lexemes. */
  function WhereIndex(ts: seq<Lexeme>): (k: nat)
    ensures AfterSet(ts) <= k <= |ts|
  {
    AfterSet(ts) + Seek(ts[AfterSet(ts)..], 0, Keyword("where"))
  }

  /** The lexemes before the WHERE, or all of them, and where they end in the text. */
  lemma WhereSplit(query: string)
    requires HasSet(Lex(query, 0))
    ensures var ls := Lex(query, 0); var k := WhereIndex(ls);
            && WhereText(query) == Width(ls[..k]) && Lex(query, WhereText(query)) == ls[k..]
            && (k < |ls| ==> ls[k].kind.Word?)
            && (WhereText(query) == |query| <==> k == |ls|)
  {
    hide Cut, Lex, Width, HasSet, Hits, WhereIndex, WhereText;
    var ls := Lex(query, 0);
    WhereIsWord(ls);
    WhereWidth(query);
    LexDrop(query, 0, WhereIndex(ls));
    EmptyLex(query, WhereText(query));
  }

  lemma WhereIsWord(ls: seq<Lexeme>)
    ensures var k := WhereIndex(ls); k < |ls| ==> ls[k].kind.Word?
  {
    hide Hits, AfterSet, Seek;
    SeekHit(ls[AfterSet(ls)..], 0, Keyword("where"));
  }

  lemma WhereWidth(query: string)
    requires HasSet(Lex(query, 0))
    ensures WhereText(query) == Width(Lex(query, 0)[..WhereIndex(Lex(query, 0))])
  {
    hide Cut, Lex, Width, HasSet, Hits, AfterSet, Seek, AfterSetText;
    SetPosition(query);
    AfterSetIs(query);
    var ls := Lex(query, 0);
    var n := AfterSet(ls);
    var k := Seek(ls[n..], 0, Keyword("where"));
    SliceTwice(ls, n, k);
    WidthConcat(ls[..n], ls[n..][..k]);
  }

  lemma AfterSetIs(query: string)
    ensures AfterSetText(query) == Width(Lex(query, 0)[..AfterSet(Lex(query, 0))])
  {
    hide Lex, Width, AfterSet;
  }

  /** The meaningful lexemes on both sides of the WHERE. */
  lemma WhereTokens(query: string)
    requires CleanText(query) && HasSet(Tokens(query))
    ensures var ts, w := Tokens(query), WhereIndex(Tokens(query));
            && Tokens(Text.TrimRight(query[..WhereText(query)], Text.IsBlank)) == ts[..w]
            && Sig(Lex(query, WhereText(query))) == ts[w..]
  {
    hide Cut, Lex, HasSet, WhereIndex, Sig, Tidy, WhereText, Text.TrimRight;
    SetKept(query);
    WhereSplit(query);
    var ls := Lex(query, 0);
    var k := WhereIndex(ls);
    WhereSig(ls);
    if k < |ls| {
      ClosedBefore(query, 0, k);
      LexTake(query, 0, k);
      TrimTokens(query[..WhereText(query)], Text.IsBlank);
    } else {
      assert query[..WhereText(query)] == query && ls[..|ls|] == ls;
      TrimTokens(query, Text.IsBlank);
    }
  }

  /** Where the WHERE is among the meaningful lexemes. */
  lemma WhereSig(ls: seq<Lexeme>)
    ensures var k, w := WhereIndex(ls), WhereIndex(Sig(ls));
            Sig(ls[..k]) == Sig(ls)[..w] && Sig(ls[k..]) == Sig(ls)[w..]
  {
    hide WhereIndex, Sig;
    var k := WhereIndex(ls);
    WhereCount(ls);
    SigSplit(ls, k);
    Cutting(Sig(ls[..k]), Sig(ls[k..]));
  }

  lemma WhereCount(ls: seq<Lexeme>)
    ensures WhereIndex(Sig(ls)) == |Sig(ls[..WhereIndex(ls)])|
  {
    hide HasSet, AfterSet, Seek, Sig;
    SetSig(ls);
    var m := AfterSet(ls);
    var j := Seek(ls[m..], 0, Keyword("where"));
    SeekSig(ls[m..], 0, Keyword("where"));
    SliceTwice(ls, m, j);
    SigConcat(ls[..m], ls[m..][..j]);
  }

  lemma SliceTwice(ls: seq<Lexeme>, m: nat, j: nat)
    requires m + j <= |ls|
    ensures ls[..m + j] == ls[..m] + ls[m..][..j] && ls[m..][j..] == ls[m + j..]
  {
  }

  /** Rewriting the text is putting the assignment into its meaningful lexemes. */
  lemma AssignedTokens(query: string, assignment: string)
    requires UpdateText(query) && AllClosed(Lex(assignment, 0))
    ensures AssignedText(query, assignment).Ok?
    ensures Tokens(AssignedText(query, assignment).value) == Assign(Tokens(query), Tokens(assignment))
  {
    hide Cut, Lex, HasSet, WhereIndex, Assign, Tokens, WhereText, Text.TrimRight, Text.TrimSpace, CleanText;
    SetKept(query);
    WhereTokens(query);
    var n := WhereText(query);
    var body := Text.TrimRight(query[..n], Text.IsBlank);
    var rest := if n == |query| then "" else " " + Text.TrimSpace(query[n..]);
    RestTokens(query, rest);
    var joined := ", " + (assignment + rest);
    TokensAppend(assignment, rest);
    CommaAppend(assignment + rest);
    TokensAppend(body, joined);
    assert body + ", " + assignment + rest == body + joined;
    AssignPieces(Tokens(query), Tokens(assignment));
  }

  lemma SetKept(query: string)
    ensures HasSet(Tokens(query)) <==> HasSet(Lex(query, 0))
  {
    hide Lex, HasSet, AfterSet, Sig;
    SetSig(Lex(query, 0));
  }

  lemma AssignPieces(ts: seq<Lexeme>, a: seq<Lexeme>)
    ensures var w := WhereIndex(ts); ts[..w] + ([CommaSign] + (a + ts[w..])) == Assign(ts, a)
  {
    hide AfterSet, Seek;
    SliceTwice(ts, AfterSet(ts), WhereIndex(ts) - AfterSet(ts));
  }

  /** What follows the assignment in the rewritten text. */
  lemma RestTokens(query: string, rest: string)
    requires CleanText(query) && HasSet(Tokens(query))
    requires var n := WhereText(query); rest == if n == |query| then "" else " " + Text.TrimSpace(query[n..])
    ensures Tokens(rest) == Sig(Lex(query, WhereText(query)))
  {
    hide Cut, Lex, HasSet, Sig, Tokens, WhereText, Text.TrimSpace;
    var n := WhereText(query);
    EmptyTokens();
    SuffixTokens(query, n);
    if n == |query| {
      assert query[n..] == "";
    } else {
      WhereSuffix(query);
      SpaceTokens(Text.TrimSpace(query[n..]));
    }
  }

  lemma WhereSuffix(query: string)
    requires CleanText(query) && HasSet(Tokens(query)) && WhereText(query) < |query|
    ensures Tokens(Text.TrimSpace(query[WhereText(query)..])) == Tokens(query[WhereText(query)..])
  {
    hide Cut, Lex, HasSet, WhereIndex, Sig, WhereText, Text.TrimSpace;
    SetKept(query);
    WhereSplit(query);
    SuffixTokens(query, WhereText(query));
    WordSuffix(query, WhereText(query), WhereIndex(Lex(query, 0)));
  }

  /** The rewritten text has the same SET items and the new one after them, exactly as `AssignExact` says. */
  lemma AssignedStatement(query: string, assignment: string)
    requires UpdateText(query) && AllClosed(Lex(assignment, 0)) && Assignment(Tokens(assignment))
    requires DepthOf(Tokens(query)[AfterSet(Tokens(query))..], 0) == 0
    ensures AssignedText(query, assignment).Ok?
    ensures var before := ReadUpdate(Tokens(query));
            var after := ReadUpdate(Tokens(AssignedText(query, assignment).value));
            after == before.(items := before.items + [Tokens(assignment)])
            <==> HasWhere(Tokens(query)) || !HasTail(Tokens(query))
  {
    hide Cut, Lex, HasSet, AfterSet, Seek, Sig, AssignedText, CleanText, ReadUpdate, Assignment, HasWhere, HasTail;
    AssignedTokens(query, assignment);
    AssignExact(Tokens(query), Tokens(assignment));
  }
}
