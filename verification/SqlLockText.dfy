/**
 The assignment and the condition that `applyOptimisticLock` of entity_interceptor.go writes, and how they are read.
 */
module SqlLockText {
  import opened Numbers
  import opened SqlLexer
  import opened SqlScan
  import opened SqlPredicate
  import opened SqlRewrite
  import opened SqlColumns
  import opened SqlList
  import opened SqlNames
  import opened SqlQuote
  import opened SqlPath
  import opened SqlUpdate
  import Text

  const VERSION_ARG := "__goark_orm_version_old"

  /** The name `nextSQLArgName` tries after `k` others. */
  function ArgName(prefix: string, k: nat): string {
    if k == 0 then prefix else prefix + "_" + Itoa(k)
  }

  function Increment(column: string): string {
    column + " = " + column + " + 1"
  }

  function Comparison(column: string, name: string): string {
    column + " = #{" + name + "}"
  }

  // ---- lexemes without words ----

  lemma {:induction false} WordlessSeek(ts: seq<Lexeme>, t: Target)
    requires Wordless(ts)
    ensures Seek(ts, 0, t) == |ts| && NoTailWord(ts, 0) && DepthOf(ts, 0) == 0 && AllSig(ts)
  {
    hide Hits;
    if ts != [] {
      assert ts[0] in ts;
      WordlessSeek(ts[1..], t);
    }
  }

  lemma {:induction false} WordlessItems(ts: seq<Lexeme>)
    requires Wordless(ts)
    ensures Items(ts, 0) == [ts]
  {
    if ts != [] {
      assert ts[0] in ts;
      WordlessItems(ts[1..]);
      assert [ts[0]] + ts[1..] == ts;
      assert Items(ts, 0) == [ts] + [];
    }
  }

  lemma {:induction false} WordlessAtom(ts: seq<Lexeme>)
    requires Wordless(ts)
    ensures Disjuncts(ts, 0, false) == [[ts]] && !WaitsAfter(ts, 0, false)
  {
    if ts != [] {
      assert ts[0] in ts;
      WordlessAtom(ts[1..]);
      assert [ts[0]] + ts[1..] == ts;
      assert Disjuncts(ts, 0, false) == [[ts] + []] + [];
      assert [ts] + [] == [ts];
    }
  }

  /** They can be an assignment and a condition. */
  lemma WordlessPlain(ts: seq<Lexeme>)
    requires Wordless(ts)
    ensures Assignment(ts) && Condition(ts) && NoTopLevelOr(ts)
  {
    WordlessSeek(ts, Keyword("where"));
    WordlessItems(ts);
    WordlessAtom(ts);
  }

  // ---- the two texts ----

  const Blank := Lexeme(Space, " ", true)
  const EqualSign := Lexeme(Other, "=", true)
  const PlusSign := Lexeme(Other, "+", true)
  const OneSign := Lexeme(Other, "1", true)

  lemma SignCuts(c: char, rest: string)
    requires c == '=' || c == '+'
    ensures var q := [' ', c, ' '] + rest;
            Cut(q, 0) == Extent(Space, 1, true) && Cut(q, 1) == Extent(Other, 2, true)
              && Cut(q, 2) == Extent(Space, 3, true)
  {
    hide LineEnd, BlockEnd, BraceEnd, QuoteEnd, WordEnd;
  }

  lemma SignLex(c: char, rest: string)
    requires c == '=' || c == '+'
    ensures Lex([' ', c, ' '] + rest, 0) == [Blank, Lexeme(Other, [c], true), Blank] + Lex(rest, 0)
  {
    hide Cut, Lex;
    var q := [' ', c, ' '] + rest;
    SignCuts(c, rest);
    LexFrom(q, 0);
    LexFrom(q, 1);
    LexFrom(q, 2);
    LexShift(q, 3, 0);
    assert q[3..] == rest && q[0..1] == " " && q[1..2] == [c] && q[2..3] == " ";
  }

  lemma OneLex()
    ensures Lex("1", 0) == [OneSign]
  {
    var q := "1";
    assert Cut(q, 0) == Extent(Other, 1, true);
    assert Lex(q, 1) == [] && q[0..1] == "1";
    assert Lex(q, 0) == [Lexeme(Other, q[0..1], true)] + Lex(q, 1);
  }

  function IncrementLexemes(d: Dialect, names: seq<string>): seq<Lexeme>
    requires names != []
  {
    PathLexemes(d, names) + ([Blank, EqualSign, Blank] + (PathLexemes(d, names) + [Blank, PlusSign, Blank, OneSign]))
  }

  function ComparisonLexemes(d: Dialect, names: seq<string>, name: string): seq<Lexeme>
    requires names != []
  {
    PathLexemes(d, names) + [Blank, EqualSign, Blank, Lexeme(Placeholder, PlaceholderText(name), true)]
  }

  lemma Regrouped(p: string, name: string)
    ensures Increment(p) == p + (" = " + (p + (" + " + "1")))
    ensures Comparison(p, name) == p + (" = " + PlaceholderText(name))
  {
  }

  lemma IncrementLex(d: Dialect, names: seq<string>)
    requires names != []
    ensures Lex(Increment(PathText(d, names)), 0) == IncrementLexemes(d, names)
  {
    hide Lex, Cut, PathText, PathLexemes, Increment, Comparison;
    var p := PathText(d, names);
    Regrouped(p, "");
    OneLex();
    SignLex('+', "1");
    assert [' ', '+', ' '] + "1" == " + " + "1";
    PathLex(d, names, " + " + "1");
    SignLex('=', p + (" + " + "1"));
    assert [' ', '=', ' '] + (p + (" + " + "1")) == " = " + (p + (" + " + "1"));
    PathLex(d, names, " = " + (p + (" + " + "1")));
  }

  lemma ComparisonLex(d: Dialect, names: seq<string>, name: string)
    requires names != [] && '}' !in name
    ensures Lex(Comparison(PathText(d, names), name), 0) == ComparisonLexemes(d, names, name)
  {
    hide Lex, Cut, PathText, PathLexemes, Increment, Comparison, PlaceholderText;
    var p := PathText(d, names);
    Regrouped(p, name);
    PlaceholderLex(name);
    SignLex('=', PlaceholderText(name));
    assert [' ', '=', ' '] + PlaceholderText(name) == " = " + PlaceholderText(name);
    PathLex(d, names, " = " + PlaceholderText(name));
  }

  lemma {:induction false} SigKeeps(ls: seq<Lexeme>)
    requires forall l <- ls :: IsBlank(l) || Wordless([l])
    ensures Wordless(Sig(ls))
  {
    if ls != [] {
      assert ls[0] in ls;
      SigKeeps(ls[1..]);
    }
  }

  lemma MembersWordless(ts: seq<Lexeme>)
    requires Wordless(ts)
    ensures forall t <- ts :: Wordless([t])
  {
  }

  /** The assignment is one closed SET item of its own. */
  lemma IncrementReads(d: Dialect, names: seq<string>)
    requires names != []
    ensures AllClosed(Lex(Increment(PathText(d, names)), 0)) && Assignment(Tokens(Increment(PathText(d, names))))
  {
    hide Lex, PathText, PathLexemes, Increment, Assignment, Condition, NoTopLevelOr;
    IncrementLex(d, names);
    PathWordless(d, names);
    MembersWordless(PathLexemes(d, names));
    SigKeeps(IncrementLexemes(d, names));
    WordlessPlain(Sig(IncrementLexemes(d, names)));
  }

  // ---- the condition can be joined ----

  predicate SafeName(name: string) {
    '}' !in name && '\U{000B}' !in name
  }

  lemma ArgNameSafe(k: nat)
    ensures SafeName(ArgName(VERSION_ARG, k))
  {
    hide Digits;
  }

  lemma {:induction false} QuotedChars(d: Dialect, name: string)
    requires '\U{000B}' !in name
    ensures var q := QuoteIdent(d, name); q != "" && !Text.IsSpace(q[0]) && '\U{000B}' !in q
  {
    DoubledChars(name, CloseQuote(d));
  }

  lemma {:induction false} DoubledChars(s: string, c: char)
    ensures forall x <- Doubled(s, c) :: x in s
  {
    if s != "" { DoubledChars(s[1..], c); }
  }

  lemma {:induction false} PathChars(d: Dialect, names: seq<string>)
    requires names != [] && forall n <- names :: ValidIdentifierPart(n)
    ensures var p := PathText(d, names); p != "" && !Text.IsSpace(p[0]) && '\U{000B}' !in p
    decreases |names|
  {
    hide QuoteIdent, PathText;
    assert names[0] in names;
    ValidChars(names[0]);
    QuotedChars(d, names[0]);
    SplitJoin(d, names, "");
    assert PathText(d, names) + "" == PathText(d, names);
    if |names| > 1 { PathChars(d, names[1..]); }
  }

  lemma ValidChars(s: string)
    requires ValidIdentifierPart(s)
    ensures '\U{000B}' !in s
  {
  }

  lemma TrimmedAlready(s: string)
    requires s != "" && !Text.IsSpace(s[0]) && !Text.IsSpace(s[|s| - 1])
    ensures Text.TrimSpace(s) == s
  {
  }

  lemma ComparisonTrimmed(d: Dialect, names: seq<string>, name: string)
    requires names != [] && (forall n <- names :: ValidIdentifierPart(n)) && SafeName(name)
    ensures var c := Comparison(PathText(d, names), name);
            c != "" && Text.TrimSpace(c) == c && '\U{000B}' !in c && c[|c| - 1] == '}'
  {
    hide PathText, Text.TrimSpace;
    PathChars(d, names);
    var c := Comparison(PathText(d, names), name);
    TrimmedAlready(c);
  }

  /** The condition is closed, has no OR, and can be joined to any predicate. */
  lemma ComparisonReads(d: Dialect, names: seq<string>, name: string)
    requires names != [] && (forall n <- names :: ValidIdentifierPart(n)) && SafeName(name)
    ensures var c := Comparison(PathText(d, names), name);
            Joinable(c) && Text.TrimSpace(c) == c && NoTopLevelOr(Tokens(c)) && AllClosed(Lex(c, 0))
  {
    hide Lex, PathText, PathLexemes, Comparison, Assignment, Condition, NoTopLevelOr, Text.TrimSpace;
    ComparisonTrimmed(d, names, name);
    ComparisonLex(d, names, name);
    PathWordless(d, names);
    MembersWordless(PathLexemes(d, names));
    SigKeeps(ComparisonLexemes(d, names, name));
    WordlessPlain(Sig(ComparisonLexemes(d, names, name)));
  }

  // ---- what the search finds ----

  lemma WrittenFound(d: Dialect, names: seq<string>, name: string)
    requires names != [] && SafeName(name)
    ensures var key := NormalizeColumnKey(names[|names| - 1]); var p := PathText(d, names);
            ContainsFrom(Increment(p), 0, key) && ContainsFrom(Comparison(p, name), 0, key)
  {
    hide Lex, PathText, PathLexemes, Increment, Comparison, NormalizeColumnKey, ContainsFrom, Finds, Tidy, Skippable;
    var key, p, ls := NormalizeColumnKey(names[|names| - 1]), PathText(d, names), PathLexemes(d, names);
    IncrementLex(d, names);
    ComparisonLex(d, names, name);
    WrittenPlain(d, names, name);
    PathFound(d, names, [Blank, EqualSign, Blank] + (ls + [Blank, PlusSign, Blank, OneSign]));
    PathFound(d, names, [Blank, EqualSign, Blank, Lexeme(Placeholder, PlaceholderText(name), true)]);
    ContainsIsFinds(Increment(p), 0, key);
    ContainsIsFinds(Comparison(p, name), 0, key);
  }

  lemma WrittenPlain(d: Dialect, names: seq<string>, name: string)
    requires names != []
    ensures Tidy(IncrementLexemes(d, names)) && Skippable(IncrementLexemes(d, names))
    ensures Tidy(ComparisonLexemes(d, names, name)) && Skippable(ComparisonLexemes(d, names, name))
  {
    hide PathLexemes, NoBrackets;
    PathPlain(d, names);
  }

  lemma {:induction false} PathPlain(d: Dialect, names: seq<string>)
    requires names != []
    ensures forall l <- PathLexemes(d, names) :: l.closed && !l.kind.Open?
  {
    if |names| > 1 { PathPlain(d, names[1..]); }
  }
}
