/**
 Which words end the part of a statement that a condition is put into, and that they stay behind the condition. Clauses
 are told by the words they are written with, in any letter case, at depth zero.
 */
module SqlClauses {
  import opened SqlLexer
  import opened SqlPredicate
  import opened SqlRewrite
  import opened SqlScan
  import Text

  // ---- clauses ----

  /** The k-th lexeme is a word, in any letter case. */
  predicate WordAt(ts: seq<Lexeme>, k: nat, word: string) {
    k < |ts| && ts[k].kind.Word? && Text.Spells(ts[k].text, word)
  }

  predicate SignAt(ts: seq<Lexeme>, k: nat, signs: string) {
    k < |ts| && ts[k].text != "" && ts[k].text[0] in signs
  }

  /** What makes a column of the name HAVING: an operator after it. */
  predicate OperatorAt(ts: seq<Lexeme>, k: nat) {
    || SignAt(ts, k, "=<>!")
    || WordAt(ts, k, "is") || WordAt(ts, k, "in") || WordAt(ts, k, "like") || WordAt(ts, k, "ilike")
    || WordAt(ts, k, "between") || WordAt(ts, k, "not")
  }

  /** A clause begins: by its words, and LIMIT and OFFSET by what follows them. */
  predicate ClauseAt(ts: seq<Lexeme>, k: nat) {
    || (WordAt(ts, k, "order") && WordAt(ts, k + 1, "by"))
    || (WordAt(ts, k, "group") && WordAt(ts, k + 1, "by"))
    || (WordAt(ts, k, "having") && !OperatorAt(ts, k + 1))
    || (WordAt(ts, k, "fetch") && (WordAt(ts, k + 1, "first") || WordAt(ts, k + 1, "next")))
    || (WordAt(ts, k, "for")
        && (WordAt(ts, k + 1, "update") || WordAt(ts, k + 1, "share") || WordAt(ts, k + 1, "no")
            || WordAt(ts, k + 1, "key")))
    || ((WordAt(ts, k, "limit") || WordAt(ts, k, "offset"))
        && (SignAt(ts, k + 1, "0123456789?:(#$") || WordAt(ts, k + 1, "all")))
  }

  lemma WordIs(ts: seq<Lexeme>, k: nat, word: string)
    requires k < |ts| && forall i :: 0 <= i < |word| ==> !('A' <= word[i] <= 'Z')
    ensures WordAt(ts, k, word) <==> Is(ts[k], word)
    ensures WordAt(ts, k, word) ==> Text.Lower(ts[k].text) == word
  {
    Text.SpellsFolds(ts[k].text, word);
  }

  lemma NextIsWord(ts: seq<Lexeme>, k: nat, word: string)
    requires k < |ts| && forall i :: 0 <= i < |word| ==> !('A' <= word[i] <= 'Z')
    ensures WordAt(ts, k + 1, word) <==> NextIs(ts[k + 1..], word)
  {
    hide Text.Spells;
    if k + 1 < |ts| { WordIs(ts, k + 1, word); }
  }

  lemma SignIs(ts: seq<Lexeme>, k: nat, signs: string)
    requires k < |ts|
    ensures SignAt(ts, k + 1, signs) <==> FirstCharIn(ts[k + 1..], signs)
  {
  }

  lemma OperatorIs(ts: seq<Lexeme>, k: nat)
    requires k < |ts|
    ensures OperatorAt(ts, k + 1) <==> PredicateFollows(ts[k + 1..])
  {
    hide WordAt, SignAt, NextIs, FirstCharIn;
    SignIs(ts, k, "=<>!");
    NextIsWord(ts, k, "is");
    NextIsWord(ts, k, "in");
    NextIsWord(ts, k, "like");
    NextIsWord(ts, k, "ilike");
    NextIsWord(ts, k, "between");
    NextIsWord(ts, k, "not");
  }

  lemma FollowersAre(ts: seq<Lexeme>, k: nat)
    requires k < |ts|
    ensures WordAt(ts, k + 1, "by") <==> NextIs(ts[k + 1..], "by")
    ensures WordAt(ts, k + 1, "first") <==> NextIs(ts[k + 1..], "first")
    ensures WordAt(ts, k + 1, "next") <==> NextIs(ts[k + 1..], "next")
    ensures WordAt(ts, k + 1, "update") <==> NextIs(ts[k + 1..], "update")
    ensures WordAt(ts, k + 1, "share") <==> NextIs(ts[k + 1..], "share")
    ensures WordAt(ts, k + 1, "no") <==> NextIs(ts[k + 1..], "no")
    ensures WordAt(ts, k + 1, "key") <==> NextIs(ts[k + 1..], "key")
    ensures WordAt(ts, k + 1, "all") <==> NextIs(ts[k + 1..], "all")
  {
    hide WordAt, NextIs;
    NextIsWord(ts, k, "by");
    NextIsWord(ts, k, "first");
    NextIsWord(ts, k, "next");
    NextIsWord(ts, k, "update");
    NextIsWord(ts, k, "share");
    NextIsWord(ts, k, "no");
    NextIsWord(ts, k, "key");
    NextIsWord(ts, k, "all");
  }

  lemma LeadersAre(ts: seq<Lexeme>, k: nat)
    requires k < |ts|
    ensures WordAt(ts, k, "order") <==> Is(ts[k], "order")
    ensures WordAt(ts, k, "group") <==> Is(ts[k], "group")
    ensures WordAt(ts, k, "having") <==> Is(ts[k], "having")
    ensures WordAt(ts, k, "fetch") <==> Is(ts[k], "fetch")
    ensures WordAt(ts, k, "for") <==> Is(ts[k], "for")
    ensures WordAt(ts, k, "limit") <==> Is(ts[k], "limit")
    ensures WordAt(ts, k, "offset") <==> Is(ts[k], "offset")
  {
    hide WordAt, Is;
    WordIs(ts, k, "order");
    WordIs(ts, k, "group");
    WordIs(ts, k, "having");
    WordIs(ts, k, "fetch");
    WordIs(ts, k, "for");
    WordIs(ts, k, "limit");
    WordIs(ts, k, "offset");
  }

  const LEADERS := {"order", "group", "having", "fetch", "for", "limit", "offset"}

  lemma OneLeader(l: Lexeme, a: string, b: string)
    requires a in LEADERS && b in LEADERS && Is(l, a) && Is(l, b)
    ensures a == b
  {
    if a != b { DifferentWord(l, a, b); }
  }

  lemma LeadersDiffer(l: Lexeme)
    ensures forall a, b :: a in LEADERS && b in LEADERS && Is(l, a) && Is(l, b) ==> a == b
  {
    hide Is;
    forall a, b | a in LEADERS && b in LEADERS && Is(l, a) && Is(l, b)
      ensures a == b
    {
      OneLeader(l, a, b);
    }
  }

  /** The scanner takes for a trailing clause exactly what is written as one; without grouping, but GROUP and HAVING. */
  lemma ClauseIs(ts: seq<Lexeme>, k: nat)
    requires k < |ts|
    ensures ClauseAt(ts, k) <==> TailClause(ts[k], ts[k + 1..], true)
    ensures ClauseAt(ts, k) && !WordAt(ts, k, "group") && !WordAt(ts, k, "having")
            <==> TailClause(ts[k], ts[k + 1..], false)
  {
    hide WordAt, SignAt, NextIs, FirstCharIn, Is, PredicateFollows, OperatorAt;
    LeadersAre(ts, k);
    FollowersAre(ts, k);
    SignIs(ts, k, "0123456789?:(#$");
    OperatorIs(ts, k);
    LeadersDiffer(ts[k]);
    assert "order" in LEADERS && "group" in LEADERS && "having" in LEADERS && "fetch" in LEADERS && "for" in LEADERS;
    assert "limit" in LEADERS && "offset" in LEADERS;
  }

  lemma ClauseIsWord(ts: seq<Lexeme>, k: nat)
    requires ClauseAt(ts, k)
    ensures k < |ts| && ts[k].kind.Word?
  {
  }

  // ---- where the first clause is ----

  /** From the lexeme `s` to the k-th one all parentheses are closed. */
  predicate Top(ts: seq<Lexeme>, s: nat, k: nat) {
    s <= k <= |ts| && DepthOf(ts[s..k], 0) == 0
  }

  predicate HitAt(ts: seq<Lexeme>, k: nat, t: Target)
    requires k < |ts|
  {
    ts[k].kind.Word? && Hits(t, ts[k], ts[k + 1..])
  }

  /** The search stops at the first hit at depth zero. */
  lemma {:induction false} SeekIs(ts: seq<Lexeme>, depth: nat, t: Target, k: nat)
    requires AllSig(ts) && k <= |ts|
    requires forall i :: 0 <= i < k && DepthOf(ts[..i], depth) == 0 ==> !HitAt(ts, i, t)
    requires k < |ts| ==> DepthOf(ts[..k], depth) == 0 && HitAt(ts, k, t)
    ensures Seek(ts, depth, t) == k
    decreases k
  {
    hide Hits, Seek, DepthOf, HitAt, Sig;
    if ts == [] {
      SearchNothing(depth, t);
    } else {
      var rest := ts[1..];
      SigOfSig(rest);
      assert ts == [ts[0]] + rest;
      SeekFirst(ts[0], rest, depth, t);
      NoDepth(ts, depth);
      FirstHit(ts, t);
      if k > 0 {
        forall i | 0 <= i < k - 1 && DepthOf(rest[..i], Step(depth, ts[0].kind)) == 0
          ensures !HitAt(rest, i, t)
        {
          DepthNext(ts, i + 1, depth);
          HitNext(ts, i + 1, t);
        }
        if k < |ts| {
          DepthNext(ts, k, depth);
          HitNext(ts, k, t);
        }
        SeekIs(rest, Step(depth, ts[0].kind), t, k - 1);
      }
    }
  }

  lemma NoDepth(ts: seq<Lexeme>, depth: nat)
    ensures DepthOf(ts[..0], depth) == depth
  {
  }

  lemma FirstHit(ts: seq<Lexeme>, t: Target)
    requires ts != []
    ensures HitAt(ts, 0, t) <==> ts[0].kind.Word? && Hits(t, ts[0], ts[1..])
  {
    hide Hits;
  }

  lemma DepthNext(ts: seq<Lexeme>, k: nat, depth: nat)
    requires 0 < k <= |ts|
    ensures DepthOf(ts[..k], depth) == DepthOf(ts[1..][..k - 1], Step(depth, ts[0].kind))
  {
    assert ts[..k][1..] == ts[1..][..k - 1];
  }

  lemma HitNext(ts: seq<Lexeme>, k: nat, t: Target)
    requires 0 < k < |ts|
    ensures HitAt(ts, k, t) <==> HitAt(ts[1..], k - 1, t)
  {
    hide Hits;
    assert ts[1..][k - 1 + 1..] == ts[k + 1..];
  }

  /** The search from a lexeme on. */
  lemma SeekFromIs(ts: seq<Lexeme>, s: nat, t: Target, n: nat)
    requires AllSig(ts) && s <= n <= |ts|
    requires forall k :: s <= k < n && Top(ts, s, k) ==> !HitAt(ts, k, t)
    requires n < |ts| ==> Top(ts, s, n) && HitAt(ts, n, t)
    ensures Seek(ts[s..], 0, t) == n - s
  {
    hide Hits, Seek, DepthOf, HitAt;
    var rest := ts[s..];
    forall i | 0 <= i < n - s && DepthOf(rest[..i], 0) == 0
      ensures !HitAt(rest, i, t)
    {
      assert rest[..i] == ts[s..s + i] && Top(ts, s, s + i);
      HitLater(ts, s, i, t);
    }
    if n < |ts| {
      assert rest[..n - s] == ts[s..n];
      HitLater(ts, s, n - s, t);
    }
    SeekIs(rest, 0, t, n - s);
  }

  lemma HitLater(ts: seq<Lexeme>, s: nat, i: nat, t: Target)
    requires s + i < |ts|
    ensures HitAt(ts[s..], i, t) <==> HitAt(ts, s + i, t)
  {
    hide Hits;
    assert ts[s..][i + 1..] == ts[s + i + 1..];
  }

  lemma KeywordHit(ts: seq<Lexeme>, k: nat, word: string)
    requires k < |ts| && forall i :: 0 <= i < |word| ==> !('A' <= word[i] <= 'Z')
    ensures HitAt(ts, k, Keyword(word)) <==> WordAt(ts, k, word)
  {
    WordIs(ts, k, word);
  }

  /** A word stands at depth zero. */
  ghost predicate Has(ts: seq<Lexeme>, word: string) {
    exists k :: 0 <= k < |ts| && Top(ts, 0, k) && WordAt(ts, k, word)
  }

  /** A word stands at depth zero for the first time. */
  ghost predicate FirstAt(ts: seq<Lexeme>, k: nat, word: string) {
    && Top(ts, 0, k) && WordAt(ts, k, word)
    && forall i :: 0 <= i < k && Top(ts, 0, i) ==> !WordAt(ts, i, word)
  }

  lemma FirstSeek(ts: seq<Lexeme>, k: nat, word: string)
    requires AllSig(ts) && FirstAt(ts, k, word) && forall i :: 0 <= i < |word| ==> !('A' <= word[i] <= 'Z')
    ensures Seek(ts, 0, Keyword(word)) == k
  {
    hide Seek, HitAt, WordAt, Top;
    assert k < |ts| by { hide *; WordInside(ts, k, word); }
    forall i | 0 <= i <= k
      ensures HitAt(ts, i, Keyword(word)) <==> WordAt(ts, i, word)
    {
      KeywordHit(ts, i, word);
    }
    SeekFromIs(ts, 0, Keyword(word), k);
    assert ts[0..] == ts;
  }

  lemma WordInside(ts: seq<Lexeme>, k: nat, word: string)
    requires WordAt(ts, k, word)
    ensures k < |ts|
  {
  }

  lemma HasSeek(ts: seq<Lexeme>, word: string)
    requires AllSig(ts) && forall i :: 0 <= i < |word| ==> !('A' <= word[i] <= 'Z')
    ensures Has(ts, word) <==> Seek(ts, 0, Keyword(word)) < |ts|
  {
    hide Seek, HitAt, WordAt, Hits, DepthOf;
    forall i | 0 <= i < |ts|
      ensures HitAt(ts, i, Keyword(word)) <==> WordAt(ts, i, word)
    {
      KeywordHit(ts, i, word);
    }
    if Has(ts, word) {
      var k :| 0 <= k < |ts| && Top(ts, 0, k) && WordAt(ts, k, word);
      SeekBefore(ts, word, k);
    } else {
      assert ts[0..] == ts;
      SeekFromIs(ts, 0, Keyword(word), |ts|);
    }
  }

  lemma {:induction false} SeekBefore(ts: seq<Lexeme>, word: string, k: nat)
    requires AllSig(ts) && Top(ts, 0, k) && k < |ts| && HitAt(ts, k, Keyword(word))
    ensures Seek(ts, 0, Keyword(word)) <= k
  {
    hide HitAt, Hits;
    if j :| 0 <= j < k && Top(ts, 0, j) && HitAt(ts, j, Keyword(word)) {
      SeekBefore(ts, word, j);
    } else {
      assert ts[0..] == ts;
      SeekFromIs(ts, 0, Keyword(word), k);
    }
  }

  /**
   Where the search for a trailing clause starts: behind the first FROM of a SELECT, or of a WITH that has a SELECT,
   else at the beginning.
   */
  ghost predicate SearchedFrom(ts: seq<Lexeme>, s: nat) {
    if WordAt(ts, 0, "select") || (WordAt(ts, 0, "with") && Has(ts, "select")) then s > 0 && FirstAt(ts, s - 1, "from")
    else s == 0
  }

  lemma ScanStartIs(ts: seq<Lexeme>, s: nat)
    requires AllSig(ts) && SearchedFrom(ts, s)
    ensures ScanStart(ts) == s
  {
    hide Seek, WordAt, FirstAt, Has;
    SigOfSig(ts);
    FirstWordIs(ts, "select");
    FirstWordIs(ts, "with");
    HasSeek(ts, "select");
    if s > 0 {
      FirstSeek(ts, s - 1, "from");
      assert s - 1 < |ts| by { hide *; FirstInside(ts, s - 1, "from"); }
    }
  }

  lemma FirstInside(ts: seq<Lexeme>, k: nat, word: string)
    requires FirstAt(ts, k, word)
    ensures k < |ts|
  {
  }

  lemma FirstWordIs(ts: seq<Lexeme>, word: string)
    requires forall i :: 0 <= i < |word| ==> !('A' <= word[i] <= 'Z')
    ensures WordAt(ts, 0, word) <==> NextIs(ts, word)
  {
    hide Text.Spells;
    if ts != [] { WordIs(ts, 0, word); }
  }

  /** The first clause at depth zero behind the lexeme `s` begins at the n-th lexeme, or there is none. */
  ghost predicate FirstClause(ts: seq<Lexeme>, s: nat, n: nat) {
    && s <= n <= |ts|
    && (forall k :: s <= k < n && Top(ts, s, k) ==> !ClauseAt(ts, k))
    && (n < |ts| ==> Top(ts, s, n) && ClauseAt(ts, n))
  }

  /** The trailing clauses begin with the first one that is written. */
  lemma TailIs(ts: seq<Lexeme>, s: nat, n: nat)
    requires AllSig(ts) && SearchedFrom(ts, s) && FirstClause(ts, s, n)
    ensures TailIndex(ts, true) == n
  {
    hide Seek, ClauseAt, TailClause, Top, SearchedFrom, ScanStart;
    ScanStartIs(ts, s);
    forall k | s <= k < |ts|
      ensures HitAt(ts, k, Tail(true)) <==> ClauseAt(ts, k)
    {
      ClauseIs(ts, k);
      if ClauseAt(ts, k) { ClauseIsWord(ts, k); }
    }
    SeekFromIs(ts, s, Tail(true), n);
  }

  // ---- the text ----

  /** The condition goes before the clause: what `appendSQLCondition` writes for a statement and a clause after it. */
  lemma ClauseStays(head: string, clause: string, condition: string, s: nat)
    requires AllClosed(Lex(head, 0)) && clause != "" && IsIdentStart(clause[0])
    requires var ts := Tokens(head) + Tokens(clause); SearchedFrom(ts, s) && FirstClause(ts, s, |Tokens(head)|)
    requires Text.TrimSpace(condition) != ""
    ensures SplicedText(head + " " + clause, condition)
         == Text.TrimRight(head, Text.IsBlank) + (if Has(Tokens(head), "where") then " AND " else " WHERE ")
            + Text.TrimSpace(condition) + " " + Text.TrimSpace(clause)
  {
    hide Cut, Lex, Tokens, TailIndex, Text.TrimRight, Text.TrimSpace, HasKeyword, HeadText, TailText, Has;
    var query := head + " " + clause;
    SplitAtClause(head, clause, s);
    assert HeadText(query) == Text.TrimRight(head, Text.IsBlank);
    TrimmedOnce(head);
    WhereIn(head);
  }

  /** Without a clause the condition goes to the end. */
  lemma NoClauseAtEnd(query: string, condition: string, s: nat)
    requires AllClosed(Lex(query, 0)) && Text.TrimSpace(condition) != ""
    requires SearchedFrom(Tokens(query), s) && FirstClause(Tokens(query), s, |Tokens(query)|)
    ensures SplicedText(query, condition)
         == Text.TrimRight(query, Text.IsBlank) + (if Has(Tokens(query), "where") then " AND " else " WHERE ")
            + Text.TrimSpace(condition)
  {
    hide Cut, Lex, Tokens, TailIndex, Text.TrimRight, Text.TrimSpace, HasKeyword, Has, SearchedFrom, FirstClause, Width;
    var ls := Lex(query, 0);
    TokensSig(query);
    TailIs(Tokens(query), s, |Tokens(query)|);
    TailIndexSig(ls);
    BodyEndIs(query);
    EndsThere(query);
    HasInText(query);
  }

  lemma TokensSig(query: string)
    ensures AllSig(Tokens(query))
  {
    hide Lex;
  }

  lemma EndsThere(query: string)
    requires TailIndex(Tokens(query), true) == |Tokens(query)|
    ensures BodyEnd(query) == |query|
  {
    hide Cut, Lex, TailIndex, Sig;
    var ls := Lex(query, 0);
    var k := TailIndex(ls, true);
    TailIndexSig(ls);
    BodyEndIs(query);
    assert ls[..|ls|] == ls;
    if k < |ls| {
      TailWordAt(ls);
      SigMore(ls, k, |ls|);
    }
  }

  lemma HasInText(text: string)
    ensures HasKeyword(text, "where") <==> Has(Tokens(text), "where")
  {
    hide Cut, Lex, Seek, Has, Sig;
    TokensSig(text);
    SeekSig(Lex(text, 0), 0, Keyword("where"));
    HasSeek(Tokens(text), "where");
  }

  lemma WhereIn(head: string)
    requires AllClosed(Lex(head, 0))
    ensures HasKeyword(Text.TrimRight(head, Text.IsBlank), "where") <==> Has(Tokens(head), "where")
  {
    hide Cut, Lex, Tokens, HasKeyword, Has, Text.TrimRight;
    HasInText(Text.TrimRight(head, Text.IsBlank));
    ClosedTidy(head);
    TrimTokens(head, Text.IsBlank);
  }

  lemma ClosedTidy(q: string)
    requires AllClosed(Lex(q, 0))
    ensures Tidy(Lex(q, 0))
  {
    hide Lex;
  }

  lemma TrimmedOnce(s: string)
    ensures Text.TrimRight(Text.TrimRight(s, Text.IsBlank), Text.IsBlank) == Text.TrimRight(s, Text.IsBlank)
  {
  }

  lemma SpaceTrimmed(s: string)
    ensures Text.TrimRight(s + " ", Text.IsBlank) == Text.TrimRight(s, Text.IsBlank)
  {
    Text.TrimRightOne(s + " ", Text.IsBlank);
    assert (s + " ")[..|s|] == s;
  }

  /** A statement and a clause after it are split between them. */
  lemma SplitAtClause(head: string, clause: string, s: nat)
    requires AllClosed(Lex(head, 0)) && clause != "" && IsIdentStart(clause[0])
    requires var ts := Tokens(head) + Tokens(clause); SearchedFrom(ts, s) && FirstClause(ts, s, |Tokens(head)|)
    ensures HeadText(head + " " + clause) == Text.TrimRight(head, Text.IsBlank)
    ensures TailText(head + " " + clause) == Text.TrimSpace(clause) != ""
  {
    hide Cut, Lex, Sig, TailIndex, Text.TrimRight, Text.TrimSpace, SearchedFrom, FirstClause, Width;
    var query := head + " " + clause;
    var a, b := Lex(head, 0), Lex(clause, 0);
    assert query == head + (" " + clause);
    SpaceAppend(clause);
    LexAppend(head, " " + clause);
    SpaceTokens(clause);
    TokensAppend(head, " " + clause);
    var ls := a + [Lexeme(Space, " ", true)] + b;
    assert Lex(query, 0) == a + ([Lexeme(Space, " ", true)] + b) == ls;
    TokensSig(query);
    TailIs(Tokens(query), s, |Tokens(head)|);
    TailIndexSig(ls);
    FirstIsWord(clause);
    var k := TailIndex(ls, true);
    TailWordAt(ls);
    SplicedIndex(a, b, k);
    BodyEndIs(query);
    assert ls[..k] == a + [Lexeme(Space, " ", true)];
    HeadWidth(head);
    assert query[..|head| + 1] == head + " " && query[|head| + 1..] == clause;
    SpaceTrimmed(head);
    LeadingKept(clause);
  }

  lemma FirstIsWord(clause: string)
    requires clause != "" && IsIdentStart(clause[0])
    ensures Lex(clause, 0) != [] && Lex(clause, 0)[0].kind.Word?
  {
    CutIdentPart(clause, 0);
  }

  lemma HeadWidth(head: string)
    ensures Width(Lex(head, 0) + [Lexeme(Space, " ", true)]) == |head| + 1
  {
    hide Lex, Cut;
    WidthConcat(Lex(head, 0), [Lexeme(Space, " ", true)]);
    LexWidth(head, 0);
    assert [Lexeme(Space, " ", true)][1..] == [];
  }

  lemma LeadingKept(clause: string)
    requires clause != "" && IsIdentStart(clause[0])
    ensures Text.TrimSpace(clause) != ""
  {
  }

  // ---- clauses as they are written ----

  function WordOf(s: string): Lexeme {
    Lexeme(Word, s, true)
  }

  /** A lexeme that is cut whole when it is all there is. */
  predicate Alone(l: Lexeme) {
    l.closed && !IsBlank(l) && Lex(l.text, 0) == [l]
  }

  lemma {:induction false} WordRuns(s: string, i: nat)
    requires i <= |s| && forall c <- s :: IsIdentPart(c)
    ensures WordEnd(s, i) == |s|
    decreases |s| - i
  {
    if i < |s| { WordRuns(s, i + 1); }
  }

  lemma WordAlone(s: string)
    requires s != "" && IsIdentStart(s[0]) && forall c <- s :: IsIdentPart(c)
    ensures Alone(WordOf(s))
  {
    WordRuns(s, 0);
    CutIdentPart(s, 0);
    assert s[0..|s|] == s && Lex(s, |s|) == [];
    assert Lex(s, 0) == [Lexeme(Word, s[0..|s|], true)] + Lex(s, |s|);
  }

  predicate IsName(s: string) {
    s != "" && IsIdentStart(s[0]) && forall c <- s :: IsIdentPart(c)
  }

  /** A word and a space before a text. */
  lemma WordTokens(word: string, rest: string)
    requires IsName(word)
    ensures Tokens(word + " " + rest) == [WordOf(word)] + Tokens(rest)
  {
    hide Cut, Lex, Sig;
    WordAlone(word);
    assert word + " " + rest == word + (" " + rest);
    TokensAppend(word, " " + rest);
    SpaceTokens(rest);
    SigOne(WordOf(word));
  }

  lemma SpelledName(word: string, small: string)
    requires Text.Spells(word, small) && small != "" && forall c <- small :: 'a' <= c <= 'z'
    ensures IsName(word)
  {
    assert small[0] in small;
    forall c | c in word
      ensures IsIdentPart(c)
    {
      var i :| 0 <= i < |word| && word[i] == c;
      assert small[i] in small;
    }
  }

  /** The clauses of two words. */
  predicate TwoWords(first: string, second: string) {
    || (Text.Spells(first, "order") && Text.Spells(second, "by"))
    || (Text.Spells(first, "group") && Text.Spells(second, "by"))
    || (Text.Spells(first, "fetch") && (Text.Spells(second, "first") || Text.Spells(second, "next")))
    || (Text.Spells(first, "for")
        && (Text.Spells(second, "update") || Text.Spells(second, "share") || Text.Spells(second, "no")
            || Text.Spells(second, "key")))
  }

  lemma TwoNames(first: string, second: string)
    requires TwoWords(first, second)
    ensures IsName(first) && IsName(second)
  {
    hide Text.Spells, IsName;
    if Text.Spells(first, "order") { SpelledName(first, "order"); }
    if Text.Spells(first, "group") { SpelledName(first, "group"); }
    if Text.Spells(first, "fetch") { SpelledName(first, "fetch"); }
    if Text.Spells(first, "for") { SpelledName(first, "for"); }
    if Text.Spells(second, "by") { SpelledName(second, "by"); }
    if Text.Spells(second, "first") { SpelledName(second, "first"); }
    if Text.Spells(second, "next") { SpelledName(second, "next"); }
    if Text.Spells(second, "update") { SpelledName(second, "update"); }
    if Text.Spells(second, "share") { SpelledName(second, "share"); }
    if Text.Spells(second, "no") { SpelledName(second, "no"); }
    if Text.Spells(second, "key") { SpelledName(second, "key"); }
  }

  /** ORDER BY, GROUP BY, FETCH FIRST, FOR UPDATE and their like, before any text. */
  lemma TwoWordClause(first: string, second: string, rest: string)
    requires TwoWords(first, second)
    ensures ClauseAt(Tokens(first + " " + second + " " + rest), 0)
  {
    hide Lex, Cut, Sig, Tokens, Text.Spells;
    TwoNames(first, second);
    assert first + " " + second + " " + rest == first + " " + (second + " " + rest);
    WordTokens(first, second + " " + rest);
    WordTokens(second, rest);
    var ts := Tokens(first + " " + second + " " + rest);
    assert ts[0] == WordOf(first) && ts[1] == WordOf(second);
  }

  /** LIMIT and OFFSET before a number, a placeholder, a parenthesis or ALL. */
  lemma LimitClause(first: string, rest: string)
    requires Text.Spells(first, "limit") || Text.Spells(first, "offset")
    requires (rest != "" && rest[0] in "0123456789?:(#$") || WordAt(Tokens(rest), 0, "all")
    ensures ClauseAt(Tokens(first + " " + rest), 0)
  {
    hide Lex, Cut, Sig, Tokens, Text.Spells;
    if Text.Spells(first, "limit") { SpelledName(first, "limit"); } else { SpelledName(first, "offset"); }
    WordTokens(first, rest);
    var ts := Tokens(first + " " + rest);
    assert ts[0] == WordOf(first) && ts[1..] == Tokens(rest);
    if rest != "" && rest[0] in "0123456789?:(#$" { FirstSign(rest, "0123456789?:(#$"); }
  }

  /** A text that starts with a sign which is no white space and starts no comment. */
  lemma FirstSign(rest: string, signs: string)
    requires rest != "" && rest[0] in signs && !IsSqlSpace(rest[0]) && rest[0] != '-' && rest[0] != '/'
    ensures SignAt(Tokens(rest), 0, signs)
  {
    hide SpanAt;
    var l := Lex(rest, 0)[0];
    assert l.text[0] == rest[0] && !IsBlank(l);
  }

  /** HAVING before anything but an operator. */
  lemma HavingClause(first: string, rest: string)
    requires Text.Spells(first, "having") && !OperatorAt(Tokens(rest), 0)
    ensures ClauseAt(Tokens(first + " " + rest), 0)
  {
    hide Lex, Cut, Sig, Tokens, Text.Spells;
    SpelledName(first, "having");
    WordTokens(first, rest);
    var ts := Tokens(first + " " + rest);
    assert ts[0] == WordOf(first) && ts[1..] == Tokens(rest);
  }

  /** A clause of two words and the rest of it. */
  predicate OfTwoWords(clause: string, first: string, second: string, rest: string) {
    TwoWords(first, second) && clause == first + " " + second + " " + rest
  }

  /** A clause of one word and the rest of it. */
  predicate OfOneWord(clause: string, first: string, rest: string) {
    && clause == first + " " + rest
    && if Text.Spells(first, "having") then !OperatorAt(Tokens(rest), 0)
       else
         && (Text.Spells(first, "limit") || Text.Spells(first, "offset"))
         && ((rest != "" && rest[0] in "0123456789?:(#$") || WordAt(Tokens(rest), 0, "all"))
  }

  /** The text of a trailing clause, by the words it is written with. */
  ghost predicate Clause(clause: string) {
    || (exists first, second, rest :: OfTwoWords(clause, first, second, rest))
    || (exists first, rest :: OfOneWord(clause, first, rest))
  }

  lemma ClauseText(clause: string)
    requires Clause(clause)
    ensures ClauseAt(Tokens(clause), 0) && clause != "" && IsIdentStart(clause[0])
  {
    hide Lex, Cut, Sig, Tokens, Text.Spells, ClauseAt, OperatorAt, WordAt;
    if first, second, rest :| OfTwoWords(clause, first, second, rest) {
      TwoWordClause(first, second, rest);
      TwoNames(first, second);
      assert clause[0] == first[0];
    } else {
      var first, rest :| OfOneWord(clause, first, rest);
      if Text.Spells(first, "having") {
        HavingClause(first, rest);
        SpelledName(first, "having");
      } else {
        LimitClause(first, rest);
        if Text.Spells(first, "limit") { SpelledName(first, "limit"); } else { SpelledName(first, "offset"); }
      }
      assert clause[0] == first[0];
    }
  }

  lemma ClauseLater(hs: seq<Lexeme>, cs: seq<Lexeme>)
    requires ClauseAt(cs, 0)
    ensures ClauseAt(hs + cs, |hs|)
  {
    WordLater(hs, cs, 0);
    WordLater(hs, cs, 1);
    hide WordAt, SignAt;
  }

  lemma WordLater(hs: seq<Lexeme>, cs: seq<Lexeme>, k: nat)
    ensures forall word :: WordAt(hs + cs, |hs| + k, word) <==> WordAt(cs, k, word)
    ensures forall signs :: SignAt(hs + cs, |hs| + k, signs) <==> SignAt(cs, k, signs)
  {
    assert k < |cs| ==> (hs + cs)[|hs| + k] == cs[k];
  }

  /** In a statement no clause begins before its end, and all parentheses are closed there. */
  ghost predicate Clauseless(head: string, clause: string, s: nat) {
    var hs, cs := Tokens(head), Tokens(clause);
    && AllClosed(Lex(head, 0))
    && SearchedFrom(hs + cs, s) && Top(hs + cs, s, |hs|)
    && forall k :: s <= k < |hs| && Top(hs + cs, s, k) ==> !ClauseAt(hs + cs, k)
  }

  /**
   A condition goes before the trailing clauses: ORDER BY, GROUP BY, HAVING, LIMIT, OFFSET, FETCH FIRST, FOR UPDATE and
   the like stay behind it, in every text that is a statement without a clause, a space and a clause.
   */
  lemma ClausesStay(head: string, clause: string, condition: string, s: nat)
    requires Clause(clause) && Clauseless(head, clause, s) && Text.TrimSpace(condition) != ""
    ensures SplicedText(head + " " + clause, condition)
         == Text.TrimRight(head, Text.IsBlank) + (if Has(Tokens(head), "where") then " AND " else " WHERE ")
            + Text.TrimSpace(condition) + " " + Text.TrimSpace(clause)
  {
    hide Cut, Lex, Tokens, SplicedText, Text.TrimRight, Text.TrimSpace, Has, ClauseAt, DepthOf, SearchedFrom, Clause;
    ClauseText(clause);
    ClauseLater(Tokens(head), Tokens(clause));
    ClauseStays(head, clause, condition, s);
  }
}
