/**
 What it means that a column is there: which words bound the SET and the WHERE part, in any letter case and at depth
 zero, and which names in them are the column; and where the assignment goes.
 */
module SqlPresence {
  import opened Prelude
  import opened SqlLexer
  import opened SqlScan
  import opened SqlPredicate
  import opened SqlRewrite
  import opened SqlList
  import opened SqlUpdate
  import opened SqlNames
  import opened SqlColumns
  import opened SqlPath
  import opened SqlLock
  import opened SqlClauses
  import Text

  // ---- a word in a text ----

  /** Closed lexemes and parentheses, and a word nowhere at depth zero. */
  ghost predicate Without(text: string, word: string) {
    AllClosed(Lex(text, 0)) && DepthOf(Tokens(text), 0) == 0 && !Has(Tokens(text), word)
  }

  const GAP := Lexeme(Space, " ", true)

  lemma {:induction false} DepthSig(ls: seq<Lexeme>, depth: nat)
    ensures DepthOf(Sig(ls), depth) == DepthOf(ls, depth)
  {
    if ls != [] {
      DepthSig(ls[1..], Step(depth, ls[0].kind));
      if !IsBlank(ls[0]) { assert ([ls[0]] + Sig(ls[1..]))[1..] == Sig(ls[1..]); }
    }
  }

  /** A text without a word does not stop the search for it. */
  lemma NotFound(ls: seq<Lexeme>, word: string)
    requires !Has(Sig(ls), word) && forall c <- word :: 'a' <= c <= 'z'
    ensures Seek(ls, 0, Keyword(word)) == |ls|
  {
    hide Seek, Has, Sig;
    assert forall i :: 0 <= i < |word| ==> word[i] in word;
    HasSeek(Sig(ls), word);
    SeekSig(ls, 0, Keyword(word));
  }

  lemma SpaceFront(a: string)
    ensures Sig(Lex(a, 0) + [GAP]) == Tokens(a)
  {
    hide Lex, Cut;
    SigConcat(Lex(a, 0), [GAP]);
    assert [GAP][1..] == [];
  }

  /** The lexemes of a text, a space, a word and the rest. */
  lemma WordLex(a: string, word: string, rest: string)
    requires AllClosed(Lex(a, 0)) && IsName(word) && (rest == "" || rest[0] == ' ')
    ensures Lex(a + " " + word + rest, 0) == (Lex(a, 0) + [GAP]) + ([WordOf(word)] + Lex(rest, 0))
  {
    hide Lex, Cut, Sig;
    WordAlone(word);
    LexAppend(word, rest);
    SpaceAppend(word + rest);
    LexAppend(a, " " + (word + rest));
    assert a + " " + word + rest == a + (" " + (word + rest));
  }

  lemma WordHit(word: string, small: string)
    requires Text.Spells(word, small) && forall c <- small :: 'a' <= c <= 'z'
    ensures Is(WordOf(word), small)
  {
    assert forall i :: 0 <= i < |small| ==> small[i] in small;
    Text.SpellsFolds(word, small);
  }

  /** A word behind a text without it is where the search stops. */
  lemma WordSplits(a: string, word: string, rest: string, small: string)
    requires Without(a, small) && Text.Spells(word, small) && small != "" && (forall c <- small :: 'a' <= c <= 'z')
    requires rest == "" || rest[0] == ' '
    ensures var ls := Lex(a + " " + word + rest, 0); var k := Seek(ls, 0, Keyword(small));
            && k < |ls| && Width(ls[..k]) == |a| + 1 && Width(ls[..k + 1]) == |a| + 1 + |word|
  {
    hide Lex, Cut, Sig, Seek, Has, DepthOf, Text.Spells, Width;
    var q := a + " " + word + rest;
    var front, more := Lex(a, 0) + [GAP], Lex(rest, 0);
    SpelledName(word, small);
    WordLex(a, word, rest);
    SpaceFront(a);
    NotFound(front, small);
    DepthSig(front, 0);
    SeekKeywordIn(front, [WordOf(word)] + more, 0, small);
    WordHit(word, small);
    SeekFirst(WordOf(word), more, 0, Keyword(small));
    HeadWidth(a);
    assert Lex(q, 0)[..|front|] == front;
    WidthNext(q, |front|);
  }

  lemma SpaceWithout(b: string, word: string)
    requires Without(b, word)
    ensures Without(" " + b, word)
  {
    hide Lex, Cut, Sig, Has, DepthOf;
    SpaceTokens(b);
    SpaceAppend(b);
  }

  // ---- the SET part ----

  lemma WordLength(word: string, small: string)
    requires Text.Spells(word, small)
    ensures |word| == |small|
  {
  }

  lemma SetEnds(query: string)
    ensures var ls := Lex(query, 0); var k := Seek(ls, 0, Keyword("set"));
            && (HasSet(ls) <==> k < |ls|) && (HasSet(ls) ==> AfterSetText(query) == Width(ls[..k + 1]))
  {
    hide Lex, Seek, Width;
  }

  /** The SET part begins behind the first SET and ends before the first WHERE behind it. */
  lemma SetBounds(a: string, setWord: string, b: string, whereWord: string, c: string)
    requires Without(a, "set") && Without(b, "where")
    requires Text.Spells(setWord, "set") && Text.Spells(whereWord, "where")
    ensures var query := a + " " + setWord + " " + b + " " + whereWord + " " + c;
            && HasSet(Lex(query, 0)) && AfterSetText(query) == |a| + 4
            && WhereText(query) == |a| + |b| + 6 < |query|
  {
    hide Lex, Cut, Seek, Width, Without, Text.Spells, HasSet, AfterSetText, WhereText;
    var query := a + " " + setWord + " " + b + " " + whereWord + " " + c;
    var rest := " " + b + " " + whereWord + " " + c;
    WordLength(setWord, "set");
    WordLength(whereWord, "where");
    assert query == a + " " + setWord + rest;
    WordSplits(a, setWord, rest, "set");
    SetEnds(query);
    assert query[|a| + 4..] == rest;
    SpaceWithout(b, "where");
    assert rest == " " + b + " " + whereWord + (" " + c);
    WordSplits(" " + b, whereWord, " " + c, "where");
    WherePosition(query);
  }

  /** Without a WHERE behind it, the SET part goes to the end. */
  lemma SetBoundsAtEnd(a: string, setWord: string, b: string)
    requires Without(a, "set") && Without(b, "where") && Text.Spells(setWord, "set")
    ensures var query := a + " " + setWord + " " + b;
            HasSet(Lex(query, 0)) && AfterSetText(query) == |a| + 4 && WhereText(query) == |query|
  {
    hide Lex, Cut, Seek, Width, Text.Spells, HasSet, AfterSetText, WhereText, DepthOf, Has, Sig;
    var query := a + " " + setWord + " " + b;
    WordLength(setWord, "set");
    assert query == a + " " + setWord + (" " + b);
    WordSplits(a, setWord, " " + b, "set");
    SetEnds(query);
    assert query[|a| + 4..] == " " + b;
    SpaceTokens(b);
    NotFound(Lex(" " + b, 0), "where");
    WherePosition(query);
  }

  /** The column is looked for between SET and WHERE, and nowhere else. */
  lemma SetContainsIs(a: string, setWord: string, b: string, whereWord: string, c: string, column: string)
    requires Without(a, "set") && Without(b, "where")
    requires Text.Spells(setWord, "set") && Text.Spells(whereWord, "where")
    ensures SetContains(a + " " + setWord + " " + b + " " + whereWord + " " + c, column)
            <==> ContainsColumn(" " + b + " ", column)
    ensures SetContains(a + " " + setWord + " " + b, column) <==> ContainsColumn(" " + b, column)
  {
    hide Lex, Without, Text.Spells, HasSet, AfterSetText, WhereText, ContainsColumn;
    var query := a + " " + setWord + " " + b + " " + whereWord + " " + c;
    WordLength(setWord, "set");
    WordLength(whereWord, "where");
    SetBounds(a, setWord, b, whereWord, c);
    SetBoundsAtEnd(a, setWord, b);
    assert query[|a| + 4..|a| + |b| + 6] == " " + b + " ";
    var short := a + " " + setWord + " " + b;
    assert short[|a| + 4..|short|] == " " + b;
  }

  /** The assignment goes before WHERE, else to the end. */
  lemma AssignmentPlaced(a: string, setWord: string, b: string, whereWord: string, c: string, assignment: string)
    requires Without(a, "set") && Without(b, "where")
    requires Text.Spells(setWord, "set") && Text.Spells(whereWord, "where")
    ensures AssignedText(a + " " + setWord + " " + b + " " + whereWord + " " + c, assignment)
         == Ok(Text.TrimRight(a + " " + setWord + " " + b, Text.IsBlank) + ", " + assignment + " "
               + Text.TrimSpace(whereWord + " " + c))
    ensures AssignedText(a + " " + setWord + " " + b, assignment)
         == Ok(Text.TrimRight(a + " " + setWord + " " + b, Text.IsBlank) + ", " + assignment)
  {
    hide Lex, Without, Text.Spells, HasSet, AfterSetText, WhereText, Text.TrimRight, Text.TrimSpace;
    var query, short := a + " " + setWord + " " + b + " " + whereWord + " " + c, a + " " + setWord + " " + b;
    WordLength(setWord, "set");
    WordLength(whereWord, "where");
    SetBounds(a, setWord, b, whereWord, c);
    SetBoundsAtEnd(a, setWord, b);
    var n := |a| + |b| + 6;
    assert query[..n] == short + " " && query[n..] == whereWord + " " + c;
    SpaceTrimmed(short);
    AssignedAt(query, n, assignment);
    Associate(Text.TrimRight(short, Text.IsBlank) + ", " + assignment, Text.TrimSpace(whereWord + " " + c));
    assert short[..|short|] == short;
    AssignedAt(short, |short|, assignment);
  }

  lemma Associate(front: string, tail: string)
    ensures front + (" " + tail) == front + " " + tail && front + "" == front
  {
  }

  lemma AssignedAt(query: string, n: nat, assignment: string)
    requires HasSet(Lex(query, 0)) && n == WhereText(query)
    ensures AssignedText(query, assignment)
         == Ok(Text.TrimRight(query[..n], Text.IsBlank) + ", " + assignment
               + (if n == |query| then "" else " " + Text.TrimSpace(query[n..])))
  {
    hide Lex, HasSet, WhereText, Text.TrimRight, Text.TrimSpace;
  }

  /** Without a SET at depth zero there is no SET part, and no place for an assignment. */
  lemma NoSet(query: string, column: string, assignment: string)
    ensures AssignedText(query, assignment) == Err(NoSetClause) <==> !Has(Tokens(query), "set")
    ensures !Has(Tokens(query), "set") ==> !SetContains(query, column)
  {
    hide Lex, Has, Seek, Sig, AfterSetText, WhereText, ContainsColumn, Text.TrimRight, Text.TrimSpace;
    TokensSig(query);
    HasSeek(Tokens(query), "set");
    SeekSig(Lex(query, 0), 0, Keyword("set"));
  }

  // ---- the WHERE part ----

  lemma AfterWhereIs(query: string)
    ensures var ls := Lex(query, 0); var k := Seek(ls, 0, Keyword("where"));
            if k == |ls| then AfterWhere(query) == None
            else Width(ls[..k + 1]) <= |query| && AfterWhere(query) == Some(query[Width(ls[..k + 1])..])
  {
    hide Lex, Seek, Width;
    var k := Seek(Lex(query, 0), 0, Keyword("where"));
    if k < |Lex(query, 0)| { WidthNext(query, k); }
  }

  /** The WHERE part begins behind the first WHERE and is the head of what follows. */
  lemma WhereContainsHead(a: string, whereWord: string, b: string, column: string)
    requires Without(a, "where") && Text.Spells(whereWord, "where")
    ensures WhereContains(a + " " + whereWord + " " + b, column) <==> ContainsColumn(HeadText(" " + b), column)
  {
    hide Lex, Cut, Seek, Width, Without, Text.Spells, AfterWhere, HeadText, ContainsColumn;
    var query := a + " " + whereWord + " " + b;
    WordLength(whereWord, "where");
    assert query == a + " " + whereWord + (" " + b);
    WordSplits(a, whereWord, " " + b, "where");
    AfterWhereIs(query);
    assert query[|a| + 6..] == " " + b;
  }

  /** The column is looked for between WHERE and the first trailing clause, and nowhere else. */
  lemma WhereContainsIs(a: string, whereWord: string, b: string, clause: string, s: nat, column: string)
    requires Without(a, "where") && Text.Spells(whereWord, "where")
    requires Clause(clause) && Clauseless(" " + b, clause, s)
    ensures WhereContains(a + " " + whereWord + " " + b + " " + clause, column)
            <==> ContainsColumn(Text.TrimRight(" " + b, Text.IsBlank), column)
  {
    hide Lex, Cut, Without, Text.Spells, WhereContains, HeadText, ContainsColumn, Tokens, ClauseAt, DepthOf,
         SearchedFrom, Clause, Text.TrimRight, TailText, Text.TrimSpace;
    ClauseText(clause);
    ClauseLater(Tokens(" " + b), Tokens(clause));
    SplitAtClause(" " + b, clause, s);
    assert a + " " + whereWord + " " + b + " " + clause == a + " " + whereWord + " " + (b + " " + clause);
    assert " " + (b + " " + clause) == (" " + b) + " " + clause;
    WhereContainsHead(a, whereWord, b + " " + clause, column);
  }

  /** Without a trailing clause the WHERE part goes to the end. */
  lemma WhereContainsAtEnd(a: string, whereWord: string, b: string, s: nat, column: string)
    requires Without(a, "where") && Text.Spells(whereWord, "where")
    requires SearchedFrom(Tokens(b), s) && FirstClause(Tokens(b), s, |Tokens(b)|)
    ensures WhereContains(a + " " + whereWord + " " + b, column) <==> ContainsColumn(" " + b, column)
  {
    hide Lex, Cut, Without, Text.Spells, WhereContains, ContainsColumn, Tokens, SearchedFrom, FirstClause, TailIndex;
    SpaceTokens(b);
    TokensSig(" " + b);
    TailIs(Tokens(" " + b), s, |Tokens(b)|);
    EndsThere(" " + b);
    WhereContainsHead(a, whereWord, b, column);
  }

  /** Without a WHERE at depth zero there is no WHERE part. */
  lemma NoWhere(query: string, column: string)
    requires !Has(Tokens(query), "where")
    ensures !WhereContains(query, column)
  {
    hide Lex, Has, Seek, Sig, ContainsColumn, HeadText;
    NotFound(Lex(query, 0), "where");
    AfterWhereIs(query);
  }

  // ---- the names ----

  /** A part of a dotted name. */
  predicate PartAt(ls: seq<Lexeme>, k: nat) {
    k < |ls| && (ls[k].kind.Word? || (ls[k].closed && (ls[k].kind.Quoted? || ls[k].kind.Bracketed?)))
  }

  predicate DotAt(ls: seq<Lexeme>, k: nat) {
    k < |ls| && ls[k].kind.Other? && ls[k].text == "."
  }

  /** The last part of a dotted name. */
  predicate NameAt(ls: seq<Lexeme>, k: nat) {
    PartAt(ls, k) && !(DotAt(ls, k + 1) && PartAt(ls, k + 2))
  }

  /** The last part of a dotted name with the given key. */
  predicate KeyAt(ls: seq<Lexeme>, k: nat, key: string) {
    NameAt(ls, k) && Counted(Text.TrimSpace(NameOf(ls[k]))) == key
  }

  /** A parenthesis right before SELECT or WITH. */
  predicate SubqueryAt(ls: seq<Lexeme>, k: nat) {
    && k < |ls| && ls[k].kind.Open?
    && (WordAt(Sig(ls[k + 1..]), 0, "select") || WordAt(Sig(ls[k + 1..]), 0, "with"))
  }

  lemma SubqueryIs(ls: seq<Lexeme>, k: nat)
    requires k <= |ls|
    ensures SubqueryAt(ls, k) <==> OpensSubquery(ls[k..])
  {
    hide WordAt, NextIs, Sig;
    if k < |ls| {
      assert ls[k..][1..] == ls[k + 1..];
      FirstWordIs(Sig(ls[k + 1..]), "select");
      FirstWordIs(Sig(ls[k + 1..]), "with");
    }
  }

  lemma KeyLater(ls: seq<Lexeme>, n: nat, k: nat, key: string)
    requires n <= |ls|
    ensures KeyAt(ls[n..], k, key) <==> KeyAt(ls, n + k, key)
    ensures NameAt(ls[n..], k) <==> NameAt(ls, n + k)
  {
    hide NameOf, Counted, Text.TrimSpace;
    assert forall i :: 0 <= i && n + i < |ls| ==> ls[n..][i] == ls[n + i];
  }

  /** Of the lexemes of a dotted name only the last one is where it ends. */
  lemma {:induction false} NameEnds(ls: seq<Lexeme>)
    requires ls != [] && IsSegment(ls[0])
    ensures var p := PathCount(ls); NameAt(ls, p - 1) && forall k :: 0 <= k < p - 1 ==> !NameAt(ls, k)
  {
    if DotAt(ls, 1) && PartAt(ls, 2) {
      var more := ls[2..];
      assert ls[1..][0] == ls[1] && ls[1..][1] == ls[2] && ls[1..][2..] == more[1..];
      NameEnds(more);
      var p := PathCount(more);
      forall k | 0 <= k < p
        ensures NameAt(more, k) <==> NameAt(ls, 2 + k)
      {
        KeyLater(ls, 2, k, "");
      }
      forall k | 0 <= k < p + 1
        ensures !NameAt(ls, k)
      {
        if k >= 2 { assert !NameAt(more, k - 2); }
      }
    } else {
      assert |ls| > 1 ==> ls[1..][0] == ls[1];
      assert |ls| > 2 ==> ls[1..][1] == ls[2];
    }
  }

  /** Up to an opening parenthesis or the end, without a subquery, the search is for names. */
  lemma {:induction false} FindsUpTo(ls: seq<Lexeme>, n: nat, key: string)
    requires n <= |ls| && (n < |ls| ==> ls[n].kind.Open?)
    requires forall k :: 0 <= k < n ==> !SubqueryAt(ls, k)
    ensures Finds(ls, key) <==> (exists k :: 0 <= k < n && KeyAt(ls, k, key)) || Finds(ls[n..], key)
    decreases n
  {
    hide NameOf, Counted, Text.TrimSpace, NormalizeColumnKey, OpensSubquery, PathCount, SubqueryAt, CloseIndex, NameAt,
         KeyAt;
    if n == 0 {
      assert ls[0..] == ls;
    } else {
      SubqueryIs(ls, 0);
      assert ls[0..] == ls;
      var p := if IsSegment(ls[0]) then PathCount(ls) else 1;
      FirstStep(ls, key);
      PathBefore(ls, n);
      var rest := ls[p..];
      forall k | 0 <= k < n - p
        ensures !SubqueryAt(rest, k) && (KeyAt(rest, k, key) <==> KeyAt(ls, p + k, key))
      {
        SubqueryIs(rest, k);
        SubqueryIs(ls, p + k);
        assert rest[k..] == ls[p + k..];
        KeyLater(ls, p, k, key);
      }
      FindsUpTo(rest, n - p, key);
      assert rest[n - p..] == ls[n..];
      assert forall k :: p <= k < n ==> (KeyAt(ls, k, key) <==> KeyAt(rest, k - p, key));
    }
  }

  /** The first name or other lexeme: it is found there, or in the rest. */
  lemma FirstStep(ls: seq<Lexeme>, key: string)
    requires ls != [] && !OpensSubquery(ls)
    ensures var p := if IsSegment(ls[0]) then PathCount(ls) else 1;
            && (Finds(ls, key) <==> KeyAt(ls, p - 1, key) || Finds(ls[p..], key))
            && forall k :: 0 <= k < p - 1 ==> !KeyAt(ls, k, key)
  {
    hide NameOf, Counted, Text.TrimSpace, NormalizeColumnKey, OpensSubquery, PathCount, CloseIndex, NameAt;
    if IsSegment(ls[0]) {
      NameEnds(ls);
      ColumnKeyIs(NameOf(ls[PathCount(ls) - 1]));
    } else {
      NoPart(ls);
    }
  }

  lemma NoPart(ls: seq<Lexeme>)
    requires ls != [] && !IsSegment(ls[0])
    ensures !NameAt(ls, 0)
  {
  }

  /** A dotted name does not go over an opening parenthesis. */
  lemma {:induction false} PathBefore(ls: seq<Lexeme>, n: nat)
    requires 0 < n <= |ls| && (n < |ls| ==> ls[n].kind.Open?)
    ensures IsSegment(ls[0]) ==> PathCount(ls) <= n
  {
    if IsSegment(ls[0]) && PathCount(ls) > 1 {
      assert ls[1..][0] == ls[1] && ls[1..][1] == ls[2] && ls[1..][2..] == ls[2..][1..];
      PathBefore(ls[2..], n - 2);
    }
  }

  /**
   A column is there exactly when it is the last part of a dotted name outside comments, literals and placeholders, by
   the characters that count, in a text without subqueries.
   */
  lemma ColumnThere(query: string, column: string)
    requires Column(column) && Tidy(Lex(query, 0)) && Skippable(Lex(query, 0))
    requires forall k :: 0 <= k < |Lex(query, 0)| ==> !SubqueryAt(Lex(query, 0), k)
    ensures var names := NamesOf(column).value; var key := Counted(names[|names| - 1]);
            ContainsColumn(query, column)
            <==> key != "" && exists k :: 0 <= k < |Lex(query, 0)| && KeyAt(Lex(query, 0), k, key)
  {
    hide Lex, KeyAt, SubqueryAt, Counted, ContainsFrom, Finds, NormalizeColumnKey, Text.TrimSpace, NamesOf,
         ValidIdentifierPart;
    var ls, names := Lex(query, 0), NamesOf(column).value;
    var last := names[|names| - 1];
    LastName(column);
    ColumnKeyIs(last);
    assert last in names;
    ValidTight(last);
    ContainsIsFinds(query, 0, Counted(last));
    FindsUpTo(ls, |ls|, Counted(last));
    FindsNothing(ls[|ls|..], Counted(last));
  }

  lemma ValidTight(name: string)
    requires ValidIdentifierPart(name)
    ensures Text.TrimSpace(name) == name
  {
    assert name[0] in name && name[|name| - 1] in name;
    Text.TrimTight(name);
  }

  lemma FindsNothing(ls: seq<Lexeme>, key: string)
    requires ls == []
    ensures !Finds(ls, key)
  {
  }

  // ---- subqueries ----

  /** Every closing parenthesis closes one that is opened in the list, and all are closed at its end. */
  predicate Balanced(ls: seq<Lexeme>) {
    && DepthOf(ls, 0) == 0
    && forall i :: 0 <= i < |ls| && ls[i].kind.Close? ==> DepthOf(ls[..i], 0) > 0
  }

  lemma {:induction false} CloseIs(ls: seq<Lexeme>, rest: seq<Lexeme>, depth: nat)
    requires rest != [] && rest[0].kind.Close? && DepthOf(ls, depth) == 0
    requires forall i :: 0 <= i < |ls| && ls[i].kind.Close? ==> DepthOf(ls[..i], depth) > 0
    ensures CloseIndex(ls + rest, depth + 1) == |ls|
  {
    hide DepthOf;
    if ls == [] {
      assert ls + rest == rest;
      DepthNothing(depth);
    } else {
      var l, more := ls[0], ls[1..];
      assert (ls + rest)[1..] == more + rest && ls == [l] + more;
      assert ls[..0] == [];
      DepthNothing(depth);
      DepthLed(l, more, depth);
      forall i | 0 <= i < |more| && more[i].kind.Close?
        ensures DepthOf(more[..i], Step(depth, l.kind)) > 0
      {
        assert ls[..i + 1] == [l] + more[..i] && ls[i + 1] == more[i];
        DepthLed(l, more[..i], depth);
      }
      CloseIs(more, rest, Step(depth, l.kind));
    }
  }

  lemma DepthNothing(depth: nat)
    ensures DepthOf([], depth) == depth
  {
  }

  lemma DepthLed(l: Lexeme, ls: seq<Lexeme>, depth: nat)
    ensures DepthOf([l] + ls, depth) == DepthOf(ls, Step(depth, l.kind))
  {
    assert ([l] + ls)[1..] == ls;
  }

  /** The names of a subquery are not looked at: only those before it and behind it. */
  lemma SubqueryHides(before: seq<Lexeme>, open: Lexeme, inner: seq<Lexeme>, close: Lexeme, rest: seq<Lexeme>,
                      key: string)
    requires open.kind.Open? && close.kind.Close? && Balanced(inner)
    requires var ls := before + ([open] + inner + [close] + rest);
             SubqueryAt(ls, |before|) && forall k :: 0 <= k < |before| ==> !SubqueryAt(ls, k)
    ensures var ls := before + ([open] + inner + [close] + rest);
            Finds(ls, key) <==> (exists k :: 0 <= k < |before| && KeyAt(ls, k, key)) || Finds(rest, key)
  {
    hide KeyAt, SubqueryAt, OpensSubquery, CloseIndex, DepthOf;
    var query := [open] + inner + [close] + rest;
    var ls := before + query;
    assert ls[|before|..] == query && ls[|before|] == open;
    SubqueryIs(ls, |before|);
    FindsUpTo(ls, |before|, key);
    assert query[1..] == inner + ([close] + rest);
    CloseIs(inner, [close] + rest, 0);
    assert query[|inner| + 2..] == rest;
  }
}
