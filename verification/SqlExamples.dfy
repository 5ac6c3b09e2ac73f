/** Short statements for which the conditions of the rewriting theorems fail, and what the rewriters make of them. */
module SqlExamples {
  import opened Prelude
  import opened SqlLexer
  import opened SqlScan
  import opened SqlPredicate
  import opened SqlRewrite
  import opened SqlClauses
  import opened SqlList
  import opened SqlQuote
  import M = SqlComments
  import U = SqlUpdate
  import I = SqlInsert
  import N = SqlNames
  import Text

  // ---- texts of words and signs with spaces between them ----

  function SignOf(c: char): Lexeme {
    Lexeme(Other, [c], true)
  }

  function Spaced(ls: seq<Lexeme>): string {
    if ls == [] then "" else if |ls| == 1 then ls[0].text else ls[0].text + (" " + Spaced(ls[1..]))
  }

  lemma {:induction false} SpacedTokens(ls: seq<Lexeme>)
    requires forall l <- ls :: Alone(l)
    ensures Tokens(Spaced(ls)) == ls && AllClosed(Lex(Spaced(ls), 0))
  {
    hide Cut, Lex, Sig;
    if ls == [] {
      EmptyTokens();
    } else {
      assert ls[0] in ls && ls == [ls[0]] + ls[1..];
      SigOne(ls[0]);
      if |ls| > 1 {
        var rest := Spaced(ls[1..]);
        SpacedTokens(ls[1..]);
        SpaceAppend(rest);
        SpaceTokens(rest);
        LexAppend(ls[0].text, " " + rest);
        TokensAppend(ls[0].text, " " + rest);
      }
    }
  }

  lemma {:induction false} SpacedMore(a: seq<Lexeme>, b: seq<Lexeme>)
    requires a != [] && b != []
    ensures Spaced(a + b) == Spaced(a) + " " + Spaced(b)
  {
    if |a| == 1 {
      assert (a + b)[1..] == b;
      assert a[0].text + (" " + Spaced(b)) == a[0].text + " " + Spaced(b);
    } else {
      assert (a + b)[1..] == a[1..] + b;
      SpacedMore(a[1..], b);
      var x, y, z := a[0].text, Spaced(a[1..]), Spaced(b);
      assert x + (" " + (y + " " + z)) == x + (" " + y) + " " + z;
    }
  }

  lemma SignAlone(c: char)
    requires KindOf(c, ' ') == Other
    ensures Alone(SignOf(c))
  {
    var s := [c];
    assert s[0..1] == s && Lex(s, 1) == [];
    assert Lex(s, 0) == [Lexeme(Other, s[0..1], true)] + Lex(s, 1);
  }

  // ---- lexemes without parentheses ----

  predicate Flat(ts: seq<Lexeme>) {
    forall t <- ts :: !t.kind.Open? && !t.kind.Close? && !IsBlank(t)
  }

  lemma {:induction false} FlatDepth(ts: seq<Lexeme>)
    requires Flat(ts)
    ensures DepthOf(ts, 0) == 0 && AllSig(ts)
  {
    if ts != [] { FlatDepth(ts[1..]); }
  }

  /** The first word of a kind in lexemes without parentheses. */
  lemma {:induction false} FlatSeek(ts: seq<Lexeme>, keyword: string, k: nat)
    requires Flat(ts) && k <= |ts| && (k < |ts| ==> Is(ts[k], keyword))
    requires forall i :: 0 <= i < k ==> !Is(ts[i], keyword)
    ensures Seek(ts, 0, Keyword(keyword)) == k
  {
    hide Is;
    if k > 0 {
      assert ts[0] in ts;
      FlatSeek(ts[1..], keyword, k - 1);
    } else if ts != [] {
      IsAWord(ts[0], keyword);
    }
  }

  lemma IsAWord(l: Lexeme, keyword: string)
    requires Is(l, keyword)
    ensures l.kind.Word?
  {
  }

  lemma {:induction false} FlatNoTail(ts: seq<Lexeme>)
    requires Flat(ts) && forall t <- ts :: !TailWord(t)
    ensures NoTailWord(ts, 0)
  {
    hide TailWord;
    if ts != [] { FlatNoTail(ts[1..]); }
  }

  /** Lexemes without parentheses, AND, OR and BETWEEN are one atom. */
  lemma {:induction false} FlatAtom(ts: seq<Lexeme>)
    requires Flat(ts) && forall t <- ts :: !Is(t, "and") && !Is(t, "or") && !Is(t, "between")
    ensures Disjuncts(ts, 0, false) == [[ts]] && Complete(ts)
  {
    hide Is;
    if ts != [] {
      assert ts[0] in ts;
      FlatAtom(ts[1..]);
      OneAtom(ts);
    }
  }

  lemma OneAtom(ts: seq<Lexeme>)
    requires ts != [] && Disjuncts(ts[1..], 0, false) == [[ts[1..]]] && Step(0, ts[0].kind) == 0
    requires !Is(ts[0], "and") && !Is(ts[0], "or") && !Is(ts[0], "between")
    ensures Disjuncts(ts, 0, false) == [[ts]]
  {
    hide Is;
    assert !Waits(ts[0], 0, false);
    assert [ts[0]] + ts[1..] == ts;
    assert Disjuncts(ts, 0, false) == [[ts] + []] + [];
    assert [ts] + [] == [ts];
  }

  const OrWord := Lexeme(Word, "OR", true)

  lemma OrIs()
    ensures Is(OrWord, "or") && !Is(OrWord, "and") && !Is(OrWord, "between")
  {
    assert LowerWord("OR", "or");
    if Is(OrWord, "and") { SameWord(OrWord, "and"); }
    if Is(OrWord, "between") { SameWord(OrWord, "between"); }
  }

  /** OR at depth zero puts the disjuncts of both sides one after the other. */
  lemma {:induction false} DisjunctsOr(a: seq<Lexeme>, b: seq<Lexeme>, depth: nat, between: bool)
    requires DepthOf(a, depth) == 0
    ensures Disjuncts(a + [OrWord] + b, depth, between) == Disjuncts(a, depth, between) + Disjuncts(b, 0, false)
    decreases |a|
  {
    hide Waits, Is;
    var all := a + [OrWord] + b;
    if a == [] {
      assert all[0] == OrWord && all[1..] == b;
      OrIs();
      OrEndsWait(between);
    } else {
      assert all[0] == a[0] && all[1..] == a[1..] + [OrWord] + b;
      DisjunctsOr(a[1..], b, Step(depth, a[0].kind), Waits(a[0], depth, between));
      PutFirst(Disjuncts(a[1..], Step(depth, a[0].kind), Waits(a[0], depth, between)), Disjuncts(b, 0, false), a[0]);
    }
  }

  lemma OrEndsWait(between: bool)
    ensures !Waits(OrWord, 0, between)
  {
    OrIs();
  }

  lemma PutFirst(a: Dnf, b: Dnf, t: Lexeme)
    ensures [[[]]] + (a + b) == ([[[]]] + a) + b
    ensures [[[]] + (a + b)[0]] + (a + b)[1..] == ([[[]] + a[0]] + a[1..]) + b
    ensures [[[t] + (a + b)[0][0]] + (a + b)[0][1..]] + (a + b)[1..] == ([[[t] + a[0][0]] + a[0][1..]] + a[1..]) + b
  {
    assert (a + b)[1..] == a[1..] + b;
  }

  lemma OrComplete(a: seq<Lexeme>, b: seq<Lexeme>)
    requires Complete(a) && Complete(b)
    ensures Complete(a + [OrWord] + b)
  {
    hide Waits;
    assert a + [OrWord] + b == a + ([OrWord] + b);
    DepthConcat(a, [OrWord] + b, 0);
    WaitsConcat(a, [OrWord] + b, 0, false);
    assert ([OrWord] + b)[1..] == b;
    OrEndsWait(WaitsAfter(a, 0, false));
  }

  // ---- a trailing clause ----

  function GroupHead(): seq<Lexeme> {
    [WordOf("SELECT"), WordOf("name"), WordOf("FROM"), WordOf("t")]
  }

  function GroupTail(): seq<Lexeme> {
    [WordOf("GROUP"), WordOf("BY"), WordOf("name")]
  }

  lemma GroupTokens()
    ensures Tokens("SELECT name FROM t") == GroupHead() && AllClosed(Lex("SELECT name FROM t", 0))
    ensures Tokens("GROUP BY name") == GroupTail()
  {
    hide Lex, Cut, Tokens;
    WordAlone("SELECT");
    WordAlone("name");
    WordAlone("FROM");
    WordAlone("t");
    WordAlone("GROUP");
    WordAlone("BY");
    GroupTexts();
    SpacedTokens(GroupHead());
    SpacedTokens(GroupTail());
  }

  lemma GroupTexts()
    ensures Spaced(GroupHead()) == "SELECT name FROM t" && Spaced(GroupTail()) == "GROUP BY name"
  {
    var h, t := GroupHead(), GroupTail();
    assert h[1..][1..][1..] == [h[3]] && h[1..][1..] == [h[2], h[3]] && h[1..] == [h[1], h[2], h[3]];
    assert Spaced([h[2], h[3]]) == "FROM t" && Spaced([h[1], h[2], h[3]]) == "name FROM t";
    assert t[1..] == [t[1], t[2]] && t[1..][1..] == [t[2]] && Spaced([t[1], t[2]]) == "BY name";
  }

  /** A grouped SELECT is restricted before it is grouped. */
  lemma GroupByStays()
    ensures SplicedText("SELECT name FROM t GROUP BY name", "a = 1") == "SELECT name FROM t WHERE a = 1 GROUP BY name"
  {
    hide *;
    GroupGlue();
    GroupPlaced("SELECT name FROM t", "GROUP BY name", "a = 1");
  }

  lemma GroupGlue()
    ensures "SELECT name FROM t" + " " + "GROUP BY name" == "SELECT name FROM t GROUP BY name"
    ensures "SELECT name FROM t" + " WHERE " + "a = 1" + " " + "GROUP BY name"
         == "SELECT name FROM t WHERE a = 1 GROUP BY name"
  {
  }

  lemma GroupPlaced(head: string, clause: string, condition: string)
    requires head == "SELECT name FROM t" && clause == "GROUP BY name" && condition == "a = 1"
    ensures SplicedText(head + " " + clause, condition) == head + " WHERE " + condition + " " + clause
  {
    GroupEdges();
    hide *;
    GroupTokens();
    GroupShape();
    GroupWritten();
    Text.TrimTight(condition);
    Text.TrimTight(clause);
    NothingTrimmed(head);
    ClauselessIs(head, clause);
    ClausesStay(head, clause, condition, 3);
  }

  lemma GroupEdges()
    ensures var a, b, c := "SELECT name FROM t", "GROUP BY name", "a = 1";
            && a != "" && !Text.IsBlank(a[|a| - 1])
            && b != "" && !Text.IsSpace(b[0]) && !Text.IsSpace(b[|b| - 1])
            && c != "" && !Text.IsSpace(c[0]) && !Text.IsSpace(c[|c| - 1])
  {
  }

  lemma ClauselessIs(head: string, clause: string)
    requires Tokens(head) == GroupHead() && AllClosed(Lex(head, 0)) && Tokens(clause) == GroupTail()
    ensures Clauseless(head, clause, 3)
  {
    GroupShape();
    hide Lex, Tokens, SearchedFrom, ClauseAt, DepthOf;
    assert |GroupHead()| == 4;
  }

  lemma NothingTrimmed(s: string)
    requires s != "" && !Text.IsBlank(s[|s| - 1])
    ensures Text.TrimRight(s, Text.IsBlank) == s
  {
  }

  lemma GroupWritten()
    ensures Clause("GROUP BY name")
  {
    assert "GROUP" + " " + "BY" + " " + "name" == "GROUP BY name";
    assert OfTwoWords("GROUP BY name", "GROUP", "BY", "name");
  }

  lemma FlatTop(ts: seq<Lexeme>, s: nat, k: nat)
    requires Flat(ts) && s <= k <= |ts|
    ensures Top(ts, s, k)
  {
    FlatDepth(ts[s..k]);
  }

  lemma GroupShape()
    ensures var ts := GroupHead() + GroupTail();
            SearchedFrom(ts, 3) && Top(ts, 3, 4) && !ClauseAt(ts, 3) && !Has(GroupHead(), "where")
  {
    var ts := GroupHead() + GroupTail();
    FlatTop(ts, 0, 2);
    FlatTop(ts, 3, 4);
    GroupWords();
    hide DepthOf, WordAt;
  }

  lemma GroupWords()
    ensures var ts := GroupHead() + GroupTail();
            && WordAt(ts, 0, "select") && WordAt(ts, 2, "from") && !WordAt(ts, 0, "from") && !WordAt(ts, 1, "from")
            && !ClauseAt(ts, 3)
    ensures forall k :: !WordAt(GroupHead(), k, "where")
  {
    var ts := GroupHead() + GroupTail();
    assert ts[0].text == "SELECT" && ts[1].text == "name" && ts[2].text == "FROM" && ts[3].text == "t";
    assert "name"[0] == 'n' && "from"[0] == 'f';
  }

  // ---- a top-level OR ----

  function Equal(column: char, value: char): (ts: seq<Lexeme>) {
    [WordOf([column]), SignOf('='), SignOf(value)]
  }

  function EqualText(column: char, value: char): string {
    [column] + " = " + [value]
  }

  lemma EqualSpaced(column: char, value: char)
    ensures Equal(column, value) != [] && Spaced(Equal(column, value)) == EqualText(column, value)
  {
    var ts := Equal(column, value);
    assert ts[1..] == [ts[1], ts[2]] && ts[1..][1..] == [ts[2]];
    assert Spaced([ts[2]]) == [value];
    assert Spaced([ts[1], ts[2]]) == "= " + [value];
    assert [column] + (" " + ("= " + [value])) == [column] + " = " + [value];
  }

  lemma EqualAlone(column: char, value: char)
    requires IsIdentStart(column) && '0' <= value <= '9'
    ensures Flat(Equal(column, value)) && forall t <- Equal(column, value) :: Alone(t)
  {
    hide Lex, Cut;
    WordAlone([column]);
    SignAlone('=');
    SignAlone(value);
  }

  lemma EqualAtom(column: char, value: char)
    requires IsIdentStart(column) && '0' <= value <= '9'
    ensures var ts := Equal(column, value);
            && Disjuncts(ts, 0, false) == [[ts]] && Complete(ts) && Condition(ts)
            && forall t <- ts :: Harmless(t)
  {
    hide Harmless, Alone;
    var ts := Equal(column, value);
    EqualAlone(column, value);
    HarmlessShort(ts[0]);
    HarmlessShort(ts[1]);
    HarmlessShort(ts[2]);
    forall t <- ts ensures !TailWord(t) && !Is(t, "and") && !Is(t, "or") && !Is(t, "between") { HarmlessIs(t); }
    FlatAtom(ts);
    FlatNoTail(ts);
  }

  const KEYWORDS := {"order", "group", "having", "fetch", "for", "limit", "offset", "and", "or", "between", "where",
                     "from",
                     "set", "with", "select"}

  /** No keyword. */
  predicate Harmless(l: Lexeme) {
    forall keyword <- KEYWORDS :: !Is(l, keyword)
  }

  lemma HarmlessShort(l: Lexeme)
    requires |l.text| == 1
    ensures Harmless(l)
  {
    hide Is;
    forall keyword <- KEYWORDS ensures !Is(l, keyword) {
      if Is(l, keyword) { SameWord(l, keyword); }
    }
  }

  lemma HarmlessIs(l: Lexeme)
    requires Harmless(l)
    ensures !TailWord(l) && !Is(l, "and") && !Is(l, "or") && !Is(l, "between") && !Is(l, "where") && !Is(l, "from")
    ensures !Is(l, "set") && !Is(l, "with") && !Is(l, "select")
  {
    hide Is;
  }

  function OrPredicate(): seq<Lexeme> {
    Equal('b', '1') + [OrWord] + Equal('c', '2')
  }

  function OrHead(): seq<Lexeme> {
    [WordOf("SELECT"), WordOf("a"), WordOf("FROM"), WordOf("t")]
  }

  function OrQuery(): seq<Lexeme> {
    OrHead() + [WhereWord] + OrPredicate()
  }

  lemma OrText()
    ensures Spaced(OrPredicate()) == "b = 1 OR c = 2"
    ensures Spaced(OrQuery()) == "SELECT a FROM t WHERE b = 1 OR c = 2"
  {
    EqualSpaced('b', '1');
    EqualSpaced('c', '2');
    OrHeadText();
    hide Equal, Spaced, OrHead;
    SpacedMore(Equal('b', '1'), [OrWord]);
    SpacedMore(Equal('b', '1') + [OrWord], Equal('c', '2'));
    SpacedMore(OrHead(), [WhereWord]);
    SpacedMore(OrHead() + [WhereWord], OrPredicate());
    SpacedOne(OrWord);
    SpacedOne(WhereWord);
  }

  lemma SpacedOne(l: Lexeme)
    ensures Spaced([l]) == l.text
  {
  }

  lemma OrHeadText()
    ensures OrHead() != [] && Spaced(OrHead()) == "SELECT a FROM t"
  {
    var ts := OrHead();
    assert ts[1..] == [ts[1], ts[2], ts[3]] && ts[1..][1..] == [ts[2], ts[3]] && ts[1..][1..][1..] == [ts[3]];
    assert Spaced([ts[3]]) == "t";
    assert Spaced([ts[2], ts[3]]) == "FROM t";
    assert Spaced([ts[1], ts[2], ts[3]]) == "a FROM t";
  }

  /** The words that end the WHERE part have three, five or six letters and start with one of five. */
  lemma TailWordShape(l: Lexeme)
    requires TailWord(l)
    ensures (|l.text| == 3 || |l.text| == 5 || |l.text| == 6) && Text.LowerChar(l.text[0]) in "oghfl"
  {
    hide Is;
    var keyword :| keyword in ["order", "group", "having", "fetch", "for", "limit", "offset"] && Is(l, keyword);
    SameWord(l, keyword);
  }

  lemma NotTail(l: Lexeme)
    requires l.text != "" && ((|l.text| != 3 && |l.text| != 5 && |l.text| != 6)
             || Text.LowerChar(l.text[0]) !in "oghfl")
    ensures !TailWord(l)
  {
    hide TailWord;
    if TailWord(l) { TailWordShape(l); }
  }

  lemma NotWord(l: Lexeme, keyword: string)
    requires l.text != "" && keyword != ""
    requires |l.text| != |keyword| || Text.LowerChar(l.text[0]) != Text.LowerChar(keyword[0])
    ensures !Is(l, keyword)
  {
    if Is(l, keyword) { SameWord(l, keyword); }
  }

  lemma IsKeyword(s: string, keyword: string)
    requires LowerWord(s, keyword)
    ensures Is(WordOf(s), keyword)
  {
  }

  /** The beginning of a SELECT up to its WHERE. */
  predicate SelectHead(h: seq<Lexeme>, from: nat) {
    && Flat(h) && h != [] && Is(h[0], "select") && !Is(h[0], "with")
    && from < |h| && Is(h[from], "from") && (forall i :: 0 <= i < from ==> !Is(h[i], "from"))
    && forall t <- h :: !Is(t, "where") && !TailWord(t)
  }

  /** A plain SELECT is read as its head and its predicate. */
  lemma SelectReads(h: seq<Lexeme>, from: nat, p: seq<Lexeme>)
    requires SelectHead(h, from) && Flat(p) && forall t <- p :: !TailWord(t)
    ensures var ts := h + [WhereWord] + p; OneBlock(ts) && Parse(ts) == Statement(h, Some(p), [])
  {
    hide Is, TailWord, Seek, DepthOf, TailIndex;
    var ts := h + [WhereWord] + p;
    WhereIs();
    assert Flat(ts) && forall t <- ts :: !TailWord(t);
    assert forall i :: 0 <= i <= from ==> ts[i] == h[i];
    FlatTailIndex(ts, from);
    FlatDepth(ts);
    FlatSeek(ts, "from", from);
    FlatSeek(ts, "where", |h|);
    assert ts[..|ts|] == ts && ts[|ts|..] == [] && ts[|h| + 1..] == p && ts[..|h|] == h;
  }

  /** A plain SELECT without trailing clauses. */
  lemma FlatTailIndex(ts: seq<Lexeme>, from: nat)
    requires Flat(ts) && ts != [] && Is(ts[0], "select") && forall t <- ts :: !TailWord(t)
    requires from < |ts| && Is(ts[from], "from") && forall i :: 0 <= i < from ==> !Is(ts[i], "from")
    ensures TailIndex(ts, true) == |ts|
  {
    hide Is, TailWord, Seek, DepthOf, Sig, ScanStart;
    FlatScanStart(ts, from);
    var rest := ts[from + 1..];
    assert forall t <- rest :: t in ts;
    FlatNoTail(rest);
    SeekTailPast(rest, [], 0);
    NothingLeft(DepthOf(rest, 0));
    assert rest + [] == rest;
  }

  lemma FlatScanStart(ts: seq<Lexeme>, from: nat)
    requires Flat(ts) && ts != [] && Is(ts[0], "select")
    requires from < |ts| && Is(ts[from], "from") && forall i :: 0 <= i < from ==> !Is(ts[i], "from")
    ensures ScanStart(ts) == from + 1
  {
    hide Is, Seek, Sig;
    FlatDepth(ts);
    SigOfSig(ts);
    FlatSeek(ts, "from", from);
  }

  lemma NothingLeft(depth: nat)
    ensures Seek([], depth, Tail(true)) == 0
  {
  }

  lemma WhereIs()
    ensures Is(WhereWord, "where") && !TailWord(WhereWord)
  {
    assert LowerWord("WHERE", "where");
    IsKeyword("WHERE", "where");
    NotTail(WhereWord);
  }

  lemma SelectIs()
    ensures var l := WordOf("SELECT");
            Is(l, "select") && !Is(l, "with") && !Is(l, "from") && !Is(l, "where") && !TailWord(l)
  {
    var l := WordOf("SELECT");
    assert LowerWord("SELECT", "select");
    hide Is, TailWord;
    IsKeyword("SELECT", "select");
    NotWord(l, "with");
    NotWord(l, "from");
    NotWord(l, "where");
    NotTail(l);
  }

  lemma FromIs()
    ensures var l := WordOf("FROM"); Is(l, "from") && !Is(l, "where") && !TailWord(l)
  {
    var l := WordOf("FROM");
    assert LowerWord("FROM", "from");
    hide Is, TailWord;
    IsKeyword("FROM", "from");
    NotWord(l, "where");
    NotTail(l);
  }

  lemma OrHeadIs()
    ensures SelectHead(OrHead(), 2)
  {
    hide Is, TailWord, Harmless;
    SelectIs();
    FromIs();
    HarmlessShort(OrHead()[1]);
    HarmlessShort(OrHead()[3]);
    HarmlessIs(OrHead()[1]);
    HarmlessIs(OrHead()[3]);
  }

  lemma OrPredicateIs()
    ensures var p := OrPredicate();
            && Flat(p) && (forall t <- p :: !TailWord(t))
            && Complete(p) && Disjuncts(p, 0, false) == [[Equal('b', '1')], [Equal('c', '2')]]
  {
    hide Is, TailWord, Alone, Harmless, Equal, Complete, Condition;
    EqualAlone('b', '1');
    EqualAlone('c', '2');
    EqualAtom('b', '1');
    EqualAtom('c', '2');
    AtomDepth('b', '1');
    DisjunctsOr(Equal('b', '1'), Equal('c', '2'), 0, false);
    OrComplete(Equal('b', '1'), Equal('c', '2'));
    NotTail(OrWord);
    forall t | t in Equal('b', '1') || t in Equal('c', '2')
      ensures !TailWord(t)
    {
      HarmlessIs(t);
    }
  }

  lemma AtomDepth(column: char, value: char)
    requires Complete(Equal(column, value))
    ensures DepthOf(Equal(column, value), 0) == 0
  {
  }

  /** How the statement is read: its predicate has the two alternatives. */
  lemma OrParses()
    ensures OneBlock(OrQuery()) && Parse(OrQuery()) == Statement(OrHead(), Some(OrPredicate()), [])
  {
    hide Is, TailWord, OrHead, OrPredicate, SelectHead;
    OrHeadIs();
    OrPredicateIs();
    SelectReads(OrHead(), 2, OrPredicate());
  }

  lemma OrTokens()
    ensures Tokens("SELECT a FROM t WHERE b = 1 OR c = 2") == OrQuery()
    ensures Tokens("b = 1 OR c = 2") == OrPredicate()
  {
    hide Tokens, Equal, Spaced, OrPredicate, OrQuery, Alone;
    OrAlone();
    OrText();
    SpacedTokens(OrQuery());
    SpacedTokens(OrPredicate());
  }

  lemma AtomTokens()
    ensures Tokens("b = 1") == Equal('b', '1') && Tokens("c = 2") == Equal('c', '2')
            && Tokens("d = 3") == Equal('d', '3')
  {
    assert EqualText('b', '1') == "b = 1" && EqualText('c', '2') == "c = 2" && EqualText('d', '3') == "d = 3";
    hide Tokens, Equal, EqualText;
    EqualTokens('b', '1');
    EqualTokens('c', '2');
    EqualTokens('d', '3');
  }

  lemma EqualTokens(column: char, value: char)
    requires IsIdentStart(column) && '0' <= value <= '9'
    ensures Tokens(EqualText(column, value)) == Equal(column, value)
  {
    hide Alone, Spaced, Equal, EqualText;
    EqualAlone(column, value);
    EqualSpaced(column, value);
    SpacedTokens(Equal(column, value));
  }

  lemma OrAlone()
    ensures (forall t <- OrQuery() :: Alone(t)) && forall t <- OrPredicate() :: Alone(t)
  {
    hide Alone, Equal;
    WordAlone("SELECT");
    WordAlone("a");
    WordAlone("FROM");
    WordAlone("t");
    WordAlone("WHERE");
    WordAlone("OR");
    EqualAlone('b', '1');
    EqualAlone('c', '2');
  }

  /** The truth that makes one comparison true and all others false. */
  function Only(atom: seq<Lexeme>): seq<Lexeme> -> bool {
    other => other == atom
  }

  /** `x OR y` has its sides as alternatives. */
  lemma OrAlternatives(x: seq<Lexeme>, y: seq<Lexeme>)
    requires Complete(x) && Disjuncts(x, 0, false) == [[x]] && Complete(y) && Disjuncts(y, 0, false) == [[y]]
    ensures var p := x + [OrWord] + y; Complete(p) && Disjuncts(p, 0, false) == [[x], [y]] && Holds(p, Only(x))
  {
    hide Complete;
    CompleteDepth(x);
    DisjunctsOr(x, y, 0, false);
    OrComplete(x, y);
    HoldsBy(x + [OrWord] + y, 0, Only(x));
  }

  lemma NotOnly(z: seq<Lexeme>, x: seq<Lexeme>)
    requires Disjuncts(z, 0, false) == [[z]] && x != z
    ensures !Holds(z, Only(x))
  {
    hide Disjuncts;
    assert forall c <- Disjuncts(z, 0, false) :: c == [z];
    assert z in [z];
  }

  /** With AND after it, it is true by its first side alone. */
  lemma OrThenAnd(p: seq<Lexeme>, x: seq<Lexeme>, y: seq<Lexeme>, z: seq<Lexeme>)
    requires Complete(p) && Disjuncts(p, 0, false) == [[x], [y]] && Disjuncts(z, 0, false) == [[z]] && x != z
    ensures Holds(p + [AndWord] + z, Only(x)) && !Holds(z, Only(x))
  {
    hide Disjuncts;
    CompleteDepth(p);
    DisjunctsJoin(p, z, 0, false);
    assert Disjuncts(p + [AndWord] + z, 0, false)[0] == [x];
    HoldsBy(p + [AndWord] + z, 0, Only(x));
    NotOnly(z, x);
  }

  /** With AND before it, it is true by its second side alone. */
  lemma AndThenOr(p: seq<Lexeme>, x: seq<Lexeme>, y: seq<Lexeme>, z: seq<Lexeme>)
    requires Complete(z) && Disjuncts(p, 0, false) == [[x], [y]] && Disjuncts(z, 0, false) == [[z]] && y != z
    ensures Holds(z + [AndWord] + p, Only(y)) && !Holds(z, Only(y))
  {
    hide Disjuncts;
    CompleteDepth(z);
    DisjunctsJoin(z, p, 0, false);
    assert Disjuncts(z + [AndWord] + p, 0, false)[1] == [y];
    HoldsBy(z + [AndWord] + p, 1, Only(y));
    NotOnly(z, y);
  }

  lemma CompleteDepth(ts: seq<Lexeme>)
    requires Complete(ts)
    ensures DepthOf(ts, 0) == 0 && !WaitsAfter(ts, 0, false)
  {
  }

  /**
   A statement with an OR meets every other condition of `SpliceExact`, and `d = 3` does not restrict it: a row with
   `b = 1` is still selected. Neither `b = 1 OR c = 2` can be joined with it, as the predicate that is there
   (`JoinExact`), nor as the condition that is added (`JoinedExact`).
   */
  lemma OrInWhere()
    ensures var ts, p, c := Tokens("SELECT a FROM t WHERE b = 1 OR c = 2"), Tokens("b = 1 OR c = 2"), Tokens("d = 3");
            && OneBlock(ts) && Parse(ts).where == Some(p) && Complete(p) && !NoTopLevelOr(p)
            && Condition(c) && NoTopLevelOr(c)
            && !Restricts(ts, c, Only(Tokens("b = 1")))
            && !JoinIsAnd(p, c, Only(Tokens("b = 1")))
            && !JoinIsAnd(c, p, Only(Tokens("c = 2")))
  {
    hide Tokens, OneBlock, Parse, Complete, NoTopLevelOr, Condition, Holds, OrQuery, OrHead, Splice, Harmless;
    OrTokens();
    AtomTokens();
    OrParses();
    var x, y, z := Equal('b', '1'), Equal('c', '2'), Equal('d', '3');
    EqualAtom('b', '1');
    EqualAtom('c', '2');
    EqualAtom('d', '3');
    DifferentAtoms();
    hide Equal;
    OrAlternatives(x, y);
    OrThenAnd(OrPredicate(), x, y, z);
    AndThenOr(OrPredicate(), x, y, z);
    OneAlternative(z);
    OneAlternative(OrPredicate());
    SpliceParses(OrQuery(), z);
  }

  lemma DifferentAtoms()
    ensures Equal('b', '1') != Equal('d', '3') && Equal('c', '2') != Equal('d', '3')
  {
    assert WordOf(['b']).text[0] != WordOf(['d']).text[0] && WordOf(['c']).text[0] != WordOf(['d']).text[0];
    assert Equal('b', '1')[0] == WordOf(['b']) && Equal('c', '2')[0] == WordOf(['c'])
           && Equal('d', '3')[0] == WordOf(['d']);
  }

  lemma OneAlternative(ts: seq<Lexeme>)
    ensures NoTopLevelOr(ts) <==> |Disjuncts(ts, 0, false)| == 1
  {
  }

  // ---- LIMIT without WHERE ----

  function UpdateHead(): seq<Lexeme> {
    [WordOf("UPDATE"), WordOf("t"), WordOf("SET")]
  }

  function LimitTail(): seq<Lexeme> {
    [WordOf("LIMIT"), SignOf('5')]
  }

  function LimitQuery(): seq<Lexeme> {
    UpdateHead() + (Equal('a', '1') + LimitTail())
  }

  /** A comparison is one assignment. */
  lemma EqualAssigns(column: char, value: char)
    requires IsIdentStart(column) && '0' <= value <= '9'
    ensures U.Assignment(Equal(column, value))
  {
    hide Is, Harmless, TailWord, Equal;
    var a := Equal(column, value);
    EqualAlone(column, value);
    EqualAtom(column, value);
    forall t <- a ensures !TailWord(t) && !Is(t, "where") { HarmlessIs(t); }
    FlatDepth(a);
    FlatSeek(a, "where", |a|);
    FlatNoTail(a);
    EqualItems(column, value);
  }

  lemma EqualItems(column: char, value: char)
    requires IsIdentStart(column) && '0' <= value <= '9'
    ensures Items(Equal(column, value), 0) == [Equal(column, value)]
  {
    var a := Equal(column, value);
    EqualAlone(column, value);
    assert [column] != "," && ['='] != "," && [value] != ",";
    FlatItems(a);
  }

  lemma {:induction false} FlatItems(ts: seq<Lexeme>)
    requires Flat(ts) && forall t <- ts :: !IsComma(t)
    ensures Items(ts, 0) == [ts]
  {
    if ts != [] {
      assert ts[0] in ts;
      FlatItems(ts[1..]);
      assert [ts[0]] + ts[1..] == ts;
      assert Items(ts, 0) == [ts] + [];
    }
  }

  lemma SetIs()
    ensures var l := WordOf("SET"); Is(l, "set") && !Is(l, "where") && !TailWord(l)
    ensures !Is(WordOf("UPDATE"), "set")
  {
    assert LowerWord("SET", "set");
    hide Is, TailWord;
    IsKeyword("SET", "set");
    NotWord(WordOf("SET"), "where");
    NotTail(WordOf("SET"));
    NotWord(WordOf("UPDATE"), "set");
  }

  lemma LimitIs()
    ensures TailClause(WordOf("LIMIT"), [SignOf('5')], true) && !Is(WordOf("LIMIT"), "where")
  {
    var l := WordOf("LIMIT");
    assert LowerWord("LIMIT", "limit");
    assert ArgumentFollows([SignOf('5')]);
    hide Is;
    IsKeyword("LIMIT", "limit");
    NotWord(l, "order");
    NotWord(l, "group");
    NotWord(l, "having");
    NotWord(l, "fetch");
    NotWord(l, "for");
    NotWord(l, "where");
  }

  /** Where the parts of an UPDATE without WHERE are. */
  lemma UpdateReads(h: seq<Lexeme>, items: seq<Lexeme>, tail: seq<Lexeme>)
    requires Flat(h + (items + tail)) && h != [] && Is(h[|h| - 1], "set")
    requires forall i :: 0 <= i < |h| - 1 ==> !Is(h[i], "set")
    requires (forall t <- items :: !Is(t, "where") && !TailWord(t)) && forall t <- tail :: !Is(t, "where")
    requires tail != [] && tail[0].kind.Word? && TailClause(tail[0], tail[1..], true)
    ensures var ts := h + (items + tail);
            && U.HasSet(ts) && U.AfterSet(ts) == |h| && !U.HasWhere(ts) && U.HasTail(ts) && AllSig(ts)
            && ts[|h|..] == items + tail && DepthOf(items + tail, 0) == 0
            && U.ReadUpdate(ts) == U.Update(h, Items(items, 0), tail)
  {
    hide Is, TailWord, Seek, DepthOf, TailClause, Items, Sig;
    var ts, region := h + (items + tail), items + tail;
    FlatDepth(ts);
    FlatSeek(ts, "set", |h| - 1);
    Cutting(h, region);
    assert Flat(region) && Flat(items) && Flat(tail);
    FlatDepth(region);
    FlatSeek(region, "where", |region|);
    FlatNoTail(items);
    SeekTailPast(items, tail, 0);
    FlatDepth(items);
    FlatDepth(tail);
    TailFirst(tail);
    Cutting(items, tail);
  }

  lemma TailFirst(tail: seq<Lexeme>)
    requires tail != [] && AllSig(tail) && tail[0].kind.Word? && TailClause(tail[0], tail[1..], true)
    ensures Seek(tail, 0, Tail(true)) == 0
  {
    hide TailClause;
    SigOfSig(tail[1..]);
  }

  lemma LimitReads()
    ensures var ts := LimitQuery();
            && U.HasSet(ts) && U.AfterSet(ts) == |UpdateHead()| && !U.HasWhere(ts) && U.HasTail(ts) && AllSig(ts)
            && DepthOf(ts[U.AfterSet(ts)..], 0) == 0
            && U.ReadUpdate(ts) == U.Update(UpdateHead(), [Equal('a', '1')], LimitTail())
  {
    hide Is, TailWord, Harmless, TailClause, Equal, Items, Seek, DepthOf, U.HasSet, U.HasWhere, U.HasTail, U.AfterSet,
         U.ReadUpdate;
    LimitFlat();
    EqualItems('a', '1');
    LimitHarmless();
    UpdateReads(UpdateHead(), Equal('a', '1'), LimitTail());
  }

  lemma LimitFlat()
    ensures Flat(LimitQuery())
  {
    hide Equal;
    EqualAlone('a', '1');
  }

  lemma LimitHarmless()
    ensures Is(UpdateHead()[2], "set") && forall i :: 0 <= i < 2 ==> !Is(UpdateHead()[i], "set")
    ensures (forall t <- Equal('a', '1') :: !Is(t, "where") && !TailWord(t))
            && forall t <- LimitTail() :: !Is(t, "where")
    ensures LimitTail()[0].kind.Word? && TailClause(LimitTail()[0], LimitTail()[1..], true)
  {
    hide Is, TailWord, Harmless, TailClause, Equal;
    SetIs();
    LimitIs();
    EqualAtom('a', '1');
    HarmlessShort(WordOf("t"));
    HarmlessIs(WordOf("t"));
    HarmlessShort(SignOf('5'));
    HarmlessIs(SignOf('5'));
    forall t <- Equal('a', '1') ensures !TailWord(t) && !Is(t, "where") { HarmlessIs(t); }
    assert LimitTail()[1..] == [SignOf('5')];
  }

  lemma LimitTokens()
    ensures Tokens("UPDATE t SET a = 1 LIMIT 5") == LimitQuery()
    ensures Tokens("a = 1") == Equal('a', '1') && Tokens("b = 2") == Equal('b', '2')
  {
    assert EqualText('a', '1') == "a = 1" && EqualText('b', '2') == "b = 2";
    hide Tokens, Equal, Spaced, LimitQuery, Alone, EqualText;
    EqualTokens('a', '1');
    EqualTokens('b', '2');
    LimitAlone();
    LimitText();
    SpacedTokens(LimitQuery());
  }

  lemma LimitAlone()
    ensures forall t <- LimitQuery() :: Alone(t)
  {
    hide Alone, Equal;
    WordAlone("UPDATE");
    WordAlone("t");
    WordAlone("SET");
    WordAlone("LIMIT");
    SignAlone('5');
    EqualAlone('a', '1');
  }

  lemma LimitText()
    ensures Spaced(LimitQuery()) == "UPDATE t SET a = 1 LIMIT 5"
  {
    EqualSpaced('a', '1');
    UpdateHeadText();
    hide Equal, Spaced, UpdateHead, LimitTail;
    SpacedMore(Equal('a', '1'), LimitTail());
    SpacedMore(UpdateHead(), Equal('a', '1') + LimitTail());
  }

  lemma UpdateHeadText()
    ensures UpdateHead() != [] && Spaced(UpdateHead()) == "UPDATE t SET"
    ensures LimitTail() != [] && Spaced(LimitTail()) == "LIMIT 5"
  {
    var ts := UpdateHead();
    assert ts[1..] == [ts[1], ts[2]] && ts[1..][1..] == [ts[2]];
    assert Spaced([ts[1], ts[2]]) == "t SET";
    assert LimitTail()[1..] == [SignOf('5')];
    assert Spaced([SignOf('5')]) == "5";
  }

  lemma NoWhereIndex(ts: seq<Lexeme>)
    requires !U.HasWhere(ts)
    ensures U.WhereIndex(ts) == |ts|
  {
    hide Seek, U.AfterSet;
  }

  /** Without WHERE among the meaningful lexemes there is none in the text. */
  lemma NoWhereText(query: string)
    requires U.HasSet(Tokens(query)) && !U.HasWhere(Tokens(query))
    ensures U.HasSet(Lex(query, 0)) && U.WhereText(query) == |query|
  {
    hide *;
    U.SetKept(query);
    NoWhereIndex(Tokens(query));
    TokensAre(query);
    WhereTextEnd(query);
  }

  lemma TokensAre(query: string)
    ensures Tokens(query) == Sig(Lex(query, 0))
  {
  }

  lemma WhereTextEnd(query: string)
    requires U.HasSet(Lex(query, 0)) && U.WhereIndex(Sig(Lex(query, 0))) == |Sig(Lex(query, 0))|
    ensures U.WhereText(query) == |query|
  {
    hide Lex, U.HasSet, Sig, U.WhereText, U.WhereIndex, Cut, Width;
    U.WhereSplit(query);
    var ls := Lex(query, 0);
    U.WhereCount(ls);
    AllCounted(ls, U.WhereIndex(ls));
  }

  lemma AllCounted(ls: seq<Lexeme>, k: nat)
    requires k <= |ls| && |Sig(ls[..k])| == |Sig(ls)| && (k < |ls| ==> ls[k].kind.Word?)
    ensures k == |ls|
  {
    hide Sig;
    assert ls[..|ls|] == ls;
    if k < |ls| { SigMore(ls, k, |ls|); }
  }

  /** Without WHERE the assignment goes to the end of the text. */
  lemma AssignedAtEnd(query: string, assignment: string)
    requires U.HasSet(Tokens(query)) && !U.HasWhere(Tokens(query)) && query != "" && !Text.IsBlank(query[|query| - 1])
    ensures U.AssignedText(query, assignment) == Ok(query + ", " + assignment)
  {
    hide Tokens, Lex, U.HasSet, U.HasWhere, U.WhereText, Cut;
    NoWhereText(query);
    assert query[..|query|] == query && query + "" == query;
    TrimNothing(query, "", Text.IsBlank);
    assert query + ", " + assignment + "" == query + ", " + assignment;
  }

  /**
   An UPDATE with LIMIT and no WHERE meets every condition of `AssignExact`, and the assignment goes into the LIMIT
   clause: the SET items stay as they were.
   */
  lemma LimitWithoutWhere()
    ensures var query := "UPDATE t SET a = 1 LIMIT 5"; var ts, a := Tokens(query), Tokens("b = 2");
            && AllSig(ts) && U.HasSet(ts) && U.Assignment(a) && DepthOf(ts[U.AfterSet(ts)..], 0) == 0
            && !U.HasWhere(ts) && U.HasTail(ts)
            && U.AssignedText(query, "b = 2") == Ok("UPDATE t SET a = 1 LIMIT 5, b = 2")
            && U.ReadUpdate(ts) == U.Update(UpdateHead(), [Tokens("a = 1")], LimitTail())
            && U.ReadUpdate(U.Assign(ts, a)) == U.Update(UpdateHead(), [Tokens("a = 1")], LimitTail() + [CommaSign] + a)
  {
    hide Tokens, U.HasSet, U.AfterSet, U.HasWhere, U.HasTail, U.Assignment, U.ReadUpdate, LimitQuery, DepthOf, Equal,
         Lex;
    LimitTokens();
    LimitReads();
    EqualAssigns('b', '2');
    U.AssignAtEnd(LimitQuery(), Equal('b', '2'));
    LimitAssigned();
  }

  lemma LimitAssigned()
    ensures U.AssignedText("UPDATE t SET a = 1 LIMIT 5", "b = 2") == Ok("UPDATE t SET a = 1 LIMIT 5, b = 2")
  {
    hide Tokens, U.HasSet, U.HasWhere, LimitQuery, U.AssignedText;
    LimitTokens();
    LimitReads();
    LimitGlue();
    AssignedAtEnd("UPDATE t SET a = 1 LIMIT 5", "b = 2");
  }

  lemma LimitGlue()
    ensures "UPDATE t SET a = 1 LIMIT 5" + ", " + "b = 2" == "UPDATE t SET a = 1 LIMIT 5, b = 2"
  {
  }

  // ---- a line comment before the WHERE ----

  function FirstHalf(): seq<Lexeme> {
    UpdateHead() + Equal('a', '1')
  }

  function SecondHalf(): seq<Lexeme> {
    [WhereWord] + Equal('b', '2')
  }

  lemma HalvesText()
    ensures Spaced(FirstHalf()) == "UPDATE t SET a = 1" && Spaced(SecondHalf()) == "WHERE b = 2"
  {
    EqualSpaced('a', '1');
    EqualSpaced('b', '2');
    UpdateHeadText();
    assert Spaced([WhereWord]) == "WHERE";
    HalvesGlue();
    hide Equal, EqualText, Spaced, UpdateHead;
    SpacedMore(UpdateHead(), Equal('a', '1'));
    SpacedMore([WhereWord], Equal('b', '2'));
  }

  lemma HalvesGlue()
    ensures "UPDATE t SET" + " " + EqualText('a', '1') == "UPDATE t SET a = 1"
    ensures "WHERE" + " " + EqualText('b', '2') == "WHERE b = 2"
  {
  }

  lemma FirstHalfTokens()
    ensures Tokens("UPDATE t SET a = 1") == FirstHalf() && AllClosed(Lex("UPDATE t SET a = 1", 0))
  {
    hide *;
    HalvesText();
    HalvesAlone();
    SpacedTokens(FirstHalf());
  }

  lemma SecondHalfTokens()
    ensures Tokens("WHERE b = 2") == SecondHalf() && AllClosed(Lex("WHERE b = 2", 0))
  {
    hide *;
    HalvesText();
    HalvesAlone();
    SpacedTokens(SecondHalf());
  }

  lemma HalvesAlone()
    ensures (forall t <- FirstHalf() :: Alone(t)) && forall t <- SecondHalf() :: Alone(t)
    ensures Flat(FirstHalf() + SecondHalf())
  {
    hide Alone, Equal;
    WordAlone("UPDATE");
    WordAlone("t");
    WordAlone("SET");
    WordAlone("WHERE");
    EqualAlone('a', '1');
    EqualAlone('b', '2');
  }

  lemma CommentCuts(q: string)
    requires |q| >= 4 && q[0] == ' ' && q[1] == '-' && q[2] == '-' && q[3] == '\n'
    ensures Cut(q, 0) == Extent(Space, 1, true) && Cut(q, 1) == Extent(Comment, 3, true)
            && Cut(q, 3) == Extent(Space, 4, true)
  {
    hide Lex;
    assert LineEnd(q, 3) == 3;
    CharCut(q, 0, Space);
    CharCut(q, 3, Space);
  }

  /** A comment with its newline, and what follows it. */
  lemma CommentCut(w: string)
    ensures Lex(" --\n" + w, 0)
            == [Lexeme(Space, " ", true), Lexeme(Comment, "--", true), Lexeme(Space, "\n", true)] + Lex(w, 0)
  {
    var q := " --\n" + w;
    hide Cut;
    CommentCuts(q);
    assert q[0..1] == " " && q[1..3] == "--" && q[3..4] == "\n" && q[4..] == w;
    LexShift(q, 4, 0);
    assert Lex(q, 3) == [Lexeme(Space, "\n", true)] + Lex(q, 4);
    assert Lex(q, 1) == [Lexeme(Comment, "--", true)] + Lex(q, 3);
    assert Lex(q, 0) == [Lexeme(Space, " ", true)] + Lex(q, 1);
  }

  const COMMENTED := "UPDATE t SET a = 1 --\nWHERE b = 2"

  function Gap(): seq<Lexeme> {
    [Lexeme(Space, " ", true), Lexeme(Comment, "--", true), Lexeme(Space, "\n", true)]
  }

  lemma CommentedLex()
    ensures Lex(COMMENTED, 0) == Lex("UPDATE t SET a = 1", 0) + (Gap() + Lex("WHERE b = 2", 0))
    ensures Tokens(COMMENTED) == FirstHalf() + SecondHalf()
  {
    var p, w := "UPDATE t SET a = 1", "WHERE b = 2";
    assert COMMENTED == p + (" --\n" + w);
    CommentCut(w);
    SigGap(Lex(w, 0));
    hide Lex, Sig, COMMENTED, Gap;
    FirstHalfTokens();
    SecondHalfTokens();
    LexAppend(p, " --\n" + w);
    SigConcat(Lex(p, 0), Gap() + Lex(w, 0));
  }

  lemma SigGap(ls: seq<Lexeme>)
    ensures Sig(Gap() + ls) == Sig(ls)
    ensures Gap() == [Lexeme(Space, " ", true), Lexeme(Comment, "--", true), Lexeme(Space, "\n", true)]
  {
    SigConcat(Gap(), ls);
    assert Sig(Gap()) == [];
  }

  /** Where the WHERE of an UPDATE without trailing clauses is. */
  lemma UpdateWhere(h: seq<Lexeme>, items: seq<Lexeme>, tail: seq<Lexeme>)
    requires Flat(h + (items + tail)) && h != [] && Is(h[|h| - 1], "set")
    requires forall i :: 0 <= i < |h| - 1 ==> !Is(h[i], "set")
    requires (forall t <- items :: !Is(t, "where")) && (tail != [] ==> Is(tail[0], "where"))
    ensures var ts := h + (items + tail);
            U.HasSet(ts) && U.WhereIndex(ts) == |h| + |items| && (U.HasWhere(ts) <==> tail != [])
  {
    hide Is, Seek;
    FlatSeek(h + (items + tail), "set", |h| - 1);
    Cutting(h, items + tail);
    assert Flat(items + tail);
    FlatSeek(items + tail, "where", |items|);
  }

  lemma CommentedWhere()
    ensures var ts := FirstHalf() + SecondHalf();
            U.HasSet(ts) && U.HasWhere(ts) && U.WhereIndex(ts) == |FirstHalf()|
    ensures !U.HasWhere(FirstHalf())
  {
    HeadHarmless();
    HalvesAlone();
    hide Is, Flat, Equal, UpdateHead, U.HasSet, U.HasWhere, U.WhereIndex;
    var h, items := UpdateHead(), Equal('a', '1');
    assert h + items + SecondHalf() == h + (items + SecondHalf()) && items + [] == items;
    UpdateWhere(h, items, SecondHalf());
    UpdateWhere(h, items, []);
  }

  lemma HeadHarmless()
    ensures var h := UpdateHead(); h != [] && Is(h[|h| - 1], "set") && forall i :: 0 <= i < |h| - 1 ==> !Is(h[i], "set")
    ensures (forall t <- Equal('a', '1') :: !Is(t, "where")) && Is(SecondHalf()[0], "where")
    ensures Flat(FirstHalf())
  {
    hide Is, TailWord, Harmless, Equal;
    SetIs();
    WhereIs();
    EqualAtom('a', '1');
    HarmlessShort(WordOf("t"));
    HarmlessIs(WordOf("t"));
    forall t <- Equal('a', '1') ensures !Is(t, "where") { HarmlessIs(t); }
    HalvesAlone();
  }

  lemma CommentedPosition()
    ensures U.HasSet(Lex(COMMENTED, 0)) && U.WhereText(COMMENTED) == 22
  {
    hide Lex, Sig, Seek, COMMENTED, U.HasSet, U.HasWhere, U.WhereText, U.WhereIndex, FirstHalf, SecondHalf, Width;
    CommentedLex();
    CommentedWhere();
    U.SetKept(COMMENTED);
    U.WhereSplit(COMMENTED);
    var lp, lw := Lex("UPDATE t SET a = 1", 0), Lex("WHERE b = 2", 0);
    var ls := lp + (Gap() + lw);
    U.WhereCount(ls);
    FirstHalfTokens();
    SecondHalfTokens();
    WordFirst();
    SigConcat(lp, Gap());
    NothingSig();
    assert ls[..|lp| + 3] == lp + Gap() && ls[|lp| + 3] == lw[0];
    SameCount(ls, U.WhereIndex(ls), |lp| + 3);
    WidthConcat(lp, Gap());
    LexWidth("UPDATE t SET a = 1", 0);
    GapWidth();
  }

  lemma NothingSig()
    ensures Sig(Gap()) == []
  {
  }

  lemma GapWidth()
    ensures Width(Gap()) == 4 && |"UPDATE t SET a = 1"| == 18
  {
    assert Gap()[1..][1..] == [Gap()[2]];
  }

  lemma WordFirst()
    ensures var lw := Lex("WHERE b = 2", 0); lw != [] && lw[0].kind.Word?
  {
  }

  lemma SameCount(ls: seq<Lexeme>, i: nat, j: nat)
    requires i <= |ls| && j < |ls| && |Sig(ls[..i])| == |Sig(ls[..j])|
    requires ls[j].kind.Word? && (i < |ls| ==> ls[i].kind.Word?)
    ensures i == j
  {
    hide Sig;
    if i < j { SigMore(ls, i, j); }
    if j < i { SigMore(ls, j, i); }
  }

  lemma CommentLex()
    ensures !AllClosed(Lex("UPDATE t SET a = 1 --", 0))
  {
    assert "UPDATE t SET a = 1" + " --" == "UPDATE t SET a = 1 --";
    OpenEnd();
    hide Lex;
    FirstHalfTokens();
    LexAppend("UPDATE t SET a = 1", " --");
    var ls := Lex("UPDATE t SET a = 1", 0);
    assert (ls + Lex(" --", 0))[|ls| + 1] == Lex(" --", 0)[1];
  }

  lemma OpenEnd()
    ensures |Lex(" --", 0)| == 2 && !Lex(" --", 0)[1].closed
  {
    var q := " --";
    assert LineEnd(q, 3) == 3;
    assert Cut(q, 0) == Extent(Space, 1, true) && Cut(q, 1) == Extent(Comment, 3, false);
    hide Cut;
    assert Lex(q, 1) == [Lexeme(Comment, q[1..3], false)] + Lex(q, 3);
    assert Lex(q, 0) == [Lexeme(Space, q[0..1], true)] + Lex(q, 1);
  }

  lemma CommentedClean()
    ensures CleanText(COMMENTED)
  {
    hide *;
    CommentedLex();
    FirstHalfTokens();
    SecondHalfTokens();
    CommentedChars();
    ThreeClosed(Lex("UPDATE t SET a = 1", 0), Gap(), Lex("WHERE b = 2", 0));
    ClosedClean(COMMENTED);
  }

  lemma ThreeClosed(a: seq<Lexeme>, b: seq<Lexeme>, c: seq<Lexeme>)
    requires AllClosed(a) && b == Gap() && AllClosed(c)
    ensures AllClosed(a + (b + c))
  {
  }

  lemma ClosedClean(text: string)
    requires AllClosed(Lex(text, 0)) && '\U{000B}' !in text
    ensures CleanText(text)
  {
    hide Lex;
  }

  lemma CommentedChars()
    ensures '\U{000B}' !in COMMENTED
  {
  }

  /**
   An UPDATE with a line comment right before its WHERE: what is written is read as the UPDATE without the WHERE and
   without the assignment, so that it changes every row of the table.
   */
  lemma CommentBeforeWhere()
    ensures var p, query := "UPDATE t SET a = 1", "UPDATE t SET a = 1 --\nWHERE b = 2";
            && U.HasSet(Tokens(query)) && U.HasWhere(Tokens(query)) && !U.HasWhere(Tokens(p))
            && U.AssignedText(query, "c = 3") == Ok("UPDATE t SET a = 1 --, c = 3 WHERE b = 2")
            && Tokens("UPDATE t SET a = 1 --, c = 3 WHERE b = 2") == Tokens(p)
  {
    hide *;
    CommentedLex();
    CommentedWhere();
    CommentedPosition();
    CommentedClean();
    FirstHalfTokens();
    CommentedPieces();
    CommentLex();
    CommentedAssigned();
    M.AssignmentLost(COMMENTED, "c = 3");
    FirstPart();
    IsCommented();
  }

  lemma IsCommented()
    ensures COMMENTED == "UPDATE t SET a = 1 --\nWHERE b = 2"
  {
  }

  lemma FirstPart()
    ensures (FirstHalf() + SecondHalf())[..|FirstHalf()|] == FirstHalf()
  {
    hide FirstHalf, SecondHalf;
  }

  lemma CommentedAssigned()
    ensures U.AssignedText(COMMENTED, "c = 3") == Ok("UPDATE t SET a = 1 --, c = 3 WHERE b = 2")
    ensures M.Front(COMMENTED) == "UPDATE t SET a = 1 --"
    ensures M.Quiet("c = 3") && M.Quiet(COMMENTED[U.WhereText(COMMENTED)..])
  {
    hide Lex, U.HasSet, U.WhereText, Text.TrimSpace, Text.TrimRight;
    CommentedPosition();
    CommentedPieces();
    CommentedTrimmed();
  }

  lemma CommentedTrimmed()
    ensures Text.TrimRight("UPDATE t SET a = 1" + " --" + "\n", Text.IsBlank) == "UPDATE t SET a = 1 --"
  {
    hide Text.TrimRight;
    var s := "UPDATE t SET a = 1" + " --";
    assert s == "UPDATE t SET a = 1 --" && s[|s| - 1] == '-';
    TrimNothing(s, "\n", Text.IsBlank);
  }

  lemma CommentedPieces()
    ensures |COMMENTED| == 33 && COMMENTED[..22] == "UPDATE t SET a = 1" + " --" + "\n"
    ensures COMMENTED[22..] == "WHERE b = 2" && Text.TrimSpace("WHERE b = 2") == "WHERE b = 2"
    ensures "UPDATE t SET a = 1 --" + ", " + "c = 3" + (" " + "WHERE b = 2")
         == "UPDATE t SET a = 1 --, c = 3 WHERE b = 2"
  {
    hide *;
    CommentedParts();
    CommentedOut();
    WhereTrimmed();
  }

  lemma CommentedParts()
    ensures |COMMENTED| == 33 && COMMENTED[..22] == "UPDATE t SET a = 1" + " --" + "\n"
    ensures COMMENTED[22..] == "WHERE b = 2"
  {
    var a, b := "UPDATE t SET a = 1" + " --" + "\n", "WHERE b = 2";
    assert COMMENTED == a + b;
    assert |a| == 22 && |b| == 11;
    hide COMMENTED;
    assert (a + b)[..22] == a && (a + b)[22..] == b;
  }

  lemma CommentedOut()
    ensures "UPDATE t SET a = 1 --" + ", " + "c = 3" + (" " + "WHERE b = 2")
         == "UPDATE t SET a = 1 --, c = 3 WHERE b = 2"
  {
  }

  lemma WhereTrimmed()
    ensures Text.TrimSpace("WHERE b = 2") == "WHERE b = 2"
  {
    var s := "WHERE b = 2";
    assert |s| == 11 && s[0] == 'W' && s[10] == '2';
    hide Text.TrimSpace;
    Text.TrimTight(s);
  }

  // ---- a column name without a counting character ----

  const INSERT := "INSERT INTO t (a) VALUES (1)"

  /** How the INSERT is cut. */
  predicate InsertShape(q: string) {
    InsertWords(q) && InsertSpaces(q) && InsertSigns(q)
  }

  predicate InsertWords(q: string) {
    && |q| == 28 && q[0..6] == "INSERT" && q[7..11] == "INTO" && q[18..24] == "VALUES" && IsIdentStart(q[12])
    && Cut(q, 0) == Extent(Word, 6, true) && Cut(q, 7) == Extent(Word, 11, true) && Cut(q, 12) == Extent(Word, 13, true)
    && Cut(q, 15) == Extent(Word, 16, true) && Cut(q, 18) == Extent(Word, 24, true)
  }

  predicate InsertSpaces(q: string) {
    && |q| == 28 && q[13] == ' '
    && Cut(q, 6) == Extent(Space, 7, true) && Cut(q, 11) == Extent(Space, 12, true)
       && Cut(q, 13) == Extent(Space, 14, true)
    && Cut(q, 17) == Extent(Space, 18, true) && Cut(q, 24) == Extent(Space, 25, true)
  }

  predicate InsertSigns(q: string) {
    && |q| == 28 && q[14] == '(' && q[16] == ')' && q[25] == '(' && q[27] == ')'
    && Cut(q, 14) == Extent(Open, 15, true) && Cut(q, 16) == Extent(Close, 17, true)
    && Cut(q, 25) == Extent(Open, 26, true) && Cut(q, 26) == Extent(Other, 27, true)
       && Cut(q, 27) == Extent(Close, 28, true)
  }

  lemma {:induction false} WordEndIs(q: string, i: nat, e: nat)
    requires i <= e <= |q| && (forall k :: i <= k < e ==> IsIdentPart(q[k])) && (e < |q| ==> !IsIdentPart(q[e]))
    ensures WordEnd(q, i) == e
    decreases e - i
  {
    if i < e { WordEndIs(q, i + 1, e); }
  }

  lemma WordCut(q: string, i: nat, e: nat)
    requires i < e <= |q| && IsIdentStart(q[i]) && (forall k :: i <= k < e ==> IsIdentPart(q[k]))
             && (e < |q| ==> !IsIdentPart(q[e]))
    ensures Cut(q, i) == Extent(Word, e, true)
  {
    WordEndIs(q, i, e);
    CutIdentPart(q, i);
  }

  lemma CharCut(q: string, i: nat, k: Kind)
    requires i < |q| && KindOf(q[i], if i + 1 < |q| then q[i + 1] else ' ') == k
    requires k.Space? || k.Open? || k.Close? || k.Other?
    ensures Cut(q, i) == Extent(k, i + 1, true)
  {
  }

  lemma InsertCut()
    ensures InsertShape(INSERT)
  {
    hide InsertWords, InsertSpaces, InsertSigns;
    InsertWordsCut();
    InsertSpacesCut();
    InsertSignsCut();
  }

  lemma InsertWordsCut()
    ensures InsertWords(INSERT)
  {
    hide Cut, WordEnd, INSERT;
    InsertTexts();
    FirstWordsCut();
    LastWordCut();
  }

  lemma InsertTexts()
    ensures var q := INSERT;
            |q| == 28 && q[0..6] == "INSERT" && q[7..11] == "INTO" && q[18..24] == "VALUES" && IsIdentStart(q[12])
  {
    var q := INSERT;
    assert q[0..6] == "INSERT";
    assert q[7..11] == "INTO";
    assert q[18..24] == "VALUES";
  }

  lemma FirstWordsCut()
    ensures Cut(INSERT, 0) == Extent(Word, 6, true) && Cut(INSERT, 7) == Extent(Word, 11, true)
  {
    hide Cut, WordEnd;
    WordCut(INSERT, 0, 6);
    WordCut(INSERT, 7, 11);
  }

  lemma LastWordCut()
    ensures Cut(INSERT, 12) == Extent(Word, 13, true) && Cut(INSERT, 15) == Extent(Word, 16, true)
    ensures Cut(INSERT, 18) == Extent(Word, 24, true)
  {
    hide Cut, WordEnd;
    WordCut(INSERT, 12, 13);
    WordCut(INSERT, 15, 16);
    WordCut(INSERT, 18, 24);
  }

  lemma InsertSpacesCut()
    ensures InsertSpaces(INSERT)
  {
    hide Cut;
    CharCut(INSERT, 6, Space);
    CharCut(INSERT, 11, Space);
    CharCut(INSERT, 13, Space);
    CharCut(INSERT, 17, Space);
    CharCut(INSERT, 24, Space);
  }

  lemma InsertSignsCut()
    ensures InsertSigns(INSERT)
  {
    hide Cut;
    CharCut(INSERT, 14, Open);
    CharCut(INSERT, 25, Open);
    CharCut(INSERT, 16, Close);
    CharCut(INSERT, 27, Close);
    CharCut(INSERT, 26, Other);
  }

  /** The INTO of the INSERT. */
  lemma InsertInto(q: string)
    requires InsertShape(q)
    ensures var ls := Lex(q, 0); Seek(ls, 0, Keyword("into")) == 2 < |ls| && Width(ls[..3]) == 11
  {
    hide Cut, Is, Lex;
    LexFrom(q, 0);
    LexFrom(q, 6);
    LexFrom(q, 7);
    var insert, space, into := WordOf("INSERT"), Lexeme(Space, q[6..7], true), WordOf("INTO");
    var rest := Lex(q, 11);
    assert Lex(q, 0) == [insert] + ([space] + ([into] + rest));
    NotWord(insert, "into");
    assert Is(into, "into") by { assert LowerWord("INTO", "into"); IsKeyword("INTO", "into"); }
    SeekThird(insert, space, into, rest, "into");
    assert Lex(q, 0)[..3] == [insert, space, into];
    ThreeWide(insert, space, into);
  }

  lemma SeekThird(a: Lexeme, b: Lexeme, c: Lexeme, rest: seq<Lexeme>, keyword: string)
    requires a.kind.Word? && !Is(a, keyword) && b.kind.Space? && Is(c, keyword)
    ensures Seek([a] + ([b] + ([c] + rest)), 0, Keyword(keyword)) == 2
  {
    hide Is, Seek, Sig;
    IsAWord(c, keyword);
    SeekFirst(a, [b] + ([c] + rest), 0, Keyword(keyword));
    SeekFirst(b, [c] + rest, 0, Keyword(keyword));
    SeekFirst(c, rest, 0, Keyword(keyword));
  }

  lemma ThreeWide(a: Lexeme, b: Lexeme, c: Lexeme)
    ensures Width([a, b, c]) == |a.text| + |b.text| + |c.text|
  {
    assert [a, b, c][1..] == [b, c];
    TwoWide(b, c);
  }

  /** The columns of the INSERT. */
  lemma InsertColumns(q: string)
    requires InsertShape(q)
    ensures I.ColumnSpan(q) == Ok((14, 16))
  {
    InsertInto(q);
    InsertTable(q);
    hide Cut, Lex, Seek, Width, I.SpanAfter;
  }

  lemma InsertTable(q: string)
    requires InsertShape(q)
    ensures I.SpanAfter(q, 11) == Ok((14, 16))
  {
    hide Cut, Lex, Seek, QuoteEnd, N.SegmentEnd, I.MoreSegments;
    assert SkipBlank(q, 12) == 12 && SkipBlank(q, 11) == 12;
    assert SkipBlank(q, 14) == 14 && SkipBlank(q, 13) == 14;
    N.SegmentCut(q, 12);
    assert I.MoreSegments(q, 13) == 13 by { NoMore(q, 13); }
    assert CloseFrom(q, 16, 1) == 16;
    assert CloseFrom(q, 15, 1) == 16;
  }

  lemma NoMore(q: string, i: nat)
    requires i < |q| && q[i] != '.'
    ensures I.MoreSegments(q, i) == i
  {
  }

  lemma InsertValues(q: string)
    requires InsertShape(q)
    ensures I.ValuesEnd(q, 17) == 24
  {
    hide Cut, Is, Lex;
    LexFrom(q, 17);
    LexFrom(q, 18);
    var space, values, rest := Lexeme(Space, q[17..18], true), WordOf("VALUES"), Lex(q, 24);
    assert Lex(q, 17) == [space] + ([values] + rest);
    assert Is(values, "values") by { assert LowerWord("VALUES", "values"); IsKeyword("VALUES", "values"); }
    SeekSecond(space, values, rest, "values");
    assert Lex(q, 17)[..2] == [space, values];
    TwoWide(space, values);
  }

  lemma SeekSecond(a: Lexeme, b: Lexeme, rest: seq<Lexeme>, keyword: string)
    requires a.kind.Space? && Is(b, keyword)
    ensures Seek([a] + ([b] + rest), 0, Keyword(keyword)) == 1
  {
    hide Is, Seek, Sig;
    IsAWord(b, keyword);
    SeekFirst(a, [b] + rest, 0, Keyword(keyword));
    SeekFirst(b, rest, 0, Keyword(keyword));
  }

  lemma TwoWide(a: Lexeme, b: Lexeme)
    ensures Width([a, b]) == |a.text| + |b.text|
  {
    assert [a, b][1..] == [b] && [b][1..] == [];
    assert Width([b]) == |b.text| + Width([b][1..]);
  }

  lemma InsertRows(q: string, value: string)
    requires InsertShape(q)
    ensures I.RowsText(q, 24, 24, value) == Ok(q[24..27] + ", " + value + (")" + q[28..]))
  {
    hide Cut, Lex, Seek;
    assert SkipBlank(q, 25) == 25 && SkipBlank(q, 24) == 25;
    assert CloseFrom(q, 27, 1) == 27 && CloseFrom(q, 26, 1) == 27;
    assert SkipBlank(q, 28) == 28;
  }

  lemma {:induction false} BracketFree(q: string, i: nat)
    requires i <= |q| && '[' !in q
    ensures NoBrackets(Lex(q, i))
    decreases |q| - i
  {
    hide SpanAt;
    if i < |q| {
      assert q[i] in q;
      BracketFree(q, Cut(q, i).end);
    }
  }

  /** With a column whose name has no counting character. */
  lemma InsertGrows(column: string, quoted: string, name: string)
    requires N.NormalizeColumnKey(N.LastIdentifierPart(column)) == ""
    ensures I.TenantInsert(INSERT, column, quoted, name)
         == Ok((INSERT[..16] + ", " + quoted
                + (")" + (INSERT[17..24]
                          + (INSERT[24..27] + ", " + N.PlaceholderText(name) + (")" + INSERT[28..])))), true))
  {
    InsertCut();
    hide InsertShape, I.ColumnSpan, I.ValuesEnd, I.RowsText, N.NormalizeColumnKey, N.LastIdentifierPart, Lex, Items,
         N.PlaceholderText;
    InsertColumns(INSERT);
    InsertValues(INSERT);
    InsertRows(INSERT, N.PlaceholderText(name));
  }

  /**
   A tenant column named `_` is added, and added again: the comparison of column names drops the underscore and finds no
   name left to look for.
   */
  lemma UnderscoreColumn()
    ensures var first := "INSERT INTO t (a, `_`) VALUES (1, #{n})";
            && NoBrackets(Lex(INSERT, 0))
            && I.TenantInsert(INSERT, "_", QuoteIdent(Question, "_"), "n") == Ok((first, true))
            && I.TenantInsert(first, "_", QuoteIdent(Question, "_"), "m") != Ok((first, false))
  {
    hide *;
    N.UnderscoreKey();
    UnderscoreAdded();
    UnderscorePlain();
    BracketFree(INSERT, 0);
    I.TenantInsertTwice(INSERT, Question, "_", "n", "m");
  }

  lemma UnderscoreAdded()
    ensures I.TenantInsert(INSERT, "_", QuoteIdent(Question, "_"), "n")
            == Ok(("INSERT INTO t (a, `_`) VALUES (1, #{n})", true))
  {
    hide *;
    N.UnderscoreKey();
    UnderscoreText();
    InsertGrows("_", QuoteIdent(Question, "_"), "n");
  }

  lemma UnderscorePlain()
    ensures '}' !in "n" && '[' !in INSERT
  {
  }

  lemma UnderscoreText()
    ensures QuoteIdent(Question, "_") == "`_`" && N.PlaceholderText("n") == "#{n}"
    ensures INSERT[..16] + ", " + "`_`"
            + (")" + (INSERT[17..24] + (INSERT[24..27] + ", " + "#{n}" + (")" + INSERT[28..]))))
         == "INSERT INTO t (a, `_`) VALUES (1, #{n})"
  {
    UnderscoreQuoted();
    InsertPieces();
    hide INSERT;
  }

  lemma UnderscoreQuoted()
    ensures QuoteIdent(Question, "_") == "`_`" && N.PlaceholderText("n") == "#{n}"
  {
    assert "_"[1..] == "" && Doubled("", '`') == "";
    assert Doubled("_", '`') == "_";
  }

  lemma InsertPieces()
    ensures INSERT[..16] == "INSERT INTO t (a" && INSERT[17..24] == " VALUES" && INSERT[24..27] == " (1"
            && INSERT[28..] == ""
  {
    assert INSERT[17..24] == " VALUES";
    assert INSERT[24..27] == " (1";
  }
}
