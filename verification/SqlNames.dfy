/** Names of columns and tables as interceptor.go reads them, over characters and lexemes, and placeholders. */
module SqlNames {
  import opened Prelude
  import opened SqlLexer
  import opened SqlScan
  import opened SqlPredicate
  import opened SqlRewrite
  import opened SqlList
  import Text

  const CloseSign := Lexeme(Close, ")", true)

  /** What lies between matching parentheses is balanced, and the match is a closing one. */
  lemma {:induction false} CloseIndexHit(ls: seq<Lexeme>, depth: nat)
    requires depth > 0
    ensures var k := CloseIndex(ls, depth);
            k < |ls| ==> ls[k].kind.Close? && DepthOf(ls[..k], depth - 1) == 0 && DepthOf(ls[..k], depth) == 1
  {
    if ls != [] && !(ls[0].kind.Close? && depth == 1) {
      CloseIndexHit(ls[1..], Step(depth, ls[0].kind));
      var k := CloseIndex(ls, depth);
      if k < |ls| {
        assert ls[..k][1..] == ls[1..][..k - 1] && ls[1..][k - 1] == ls[k];
      }
    }
  }

  /** The end of one part of a table name. */
  function SegmentEnd(q: string, i: nat): (r: Option<nat>)
    ensures r.Some? ==> i < r.value <= |q|
  {
    if i >= |q| then None
    else if q[i] == '"' || q[i] == '`' then
      var r := QuoteEnd(q, i + 1, q[i]);
      if r.1 then Some(r.0) else None
    else if q[i] == '[' then
      var r := QuoteEnd(q, i + 1, ']');
      if r.1 then Some(r.0) else None
    else if IsIdentStart(q[i]) then Some(WordEnd(q, i + 1))
    else None
  }

  lemma {:induction false} CloseFromBounds(q: string, i: nat, depth: nat)
    requires i <= |q| && depth > 0
    ensures CloseFrom(q, i, depth) >= 0 ==> i <= CloseFrom(q, i, depth) < |q| && q[CloseFrom(q, i, depth)] == ')'
    decreases |q| - i
  {
    if i < |q| {
      var x := CutFlat(q, i);
      CutFlatOuter(q, i);
      if !(x.kind.Close? && depth == 1) {
        CloseFromBounds(q, x.end, Step(depth, x.kind));
      }
    }
  }

  /** `strings.LastIndex(s, ".") + 1`. */
  function AfterLastDot(s: string): (n: nat)
    ensures n <= |s|
  {
    if s == "" then 0 else if s[|s| - 1] == '.' then |s| else AfterLastDot(s[..|s| - 1])
  }

  function LastIdentifierPart(identifier: string): string {
    var s := Text.TrimSpace(identifier);
    Text.TrimSpace(s[AfterLastDot(s)..])
  }

  predicate IsSeparator(c: char) {
    c == '_' || c == '-' || c == '.' || c == ' '
  }

  function WithoutSeparators(s: string): string {
    if s == "" then "" else (if IsSeparator(s[0]) then [] else [s[0]]) + WithoutSeparators(s[1..])
  }

  function NormalizeColumnKey(value: string): string {
    var s := Text.TrimSpace(value);
    if s == "" || forall i :: 0 <= i < |s| ==> !IsSeparator(s[i]) && !('A' <= s[i] <= 'Z') && s[i] < '\U{0080}' then s
    else Text.Lower(WithoutSeparators(s))
  }

  /** The characters that count: none of `_`, `-`, `.` and space, and capitals as small letters. */
  function Counted(s: string): string {
    if s == "" then ""
    else
      var c := s[0];
      (if c in "_-. " then [] else if 'A' <= c <= 'Z' then [(c as int + 32) as char] else [c]) + Counted(s[1..])
  }

  lemma {:induction false} CountedIs(s: string)
    ensures Text.Lower(WithoutSeparators(s)) == Counted(s)
    ensures (forall i :: 0 <= i < |s| ==> !IsSeparator(s[i]) && !('A' <= s[i] <= 'Z')) ==> Counted(s) == s
  {
    if s != "" {
      CountedIs(s[1..]);
      var rest := WithoutSeparators(s[1..]);
      assert Text.Lower([s[0]] + rest) == [Text.LowerChar(s[0])] + Text.Lower(rest);
      assert [] + rest == rest;
      assert s == [s[0]] + s[1..];
      assert forall i :: 0 <= i < |s[1..]| ==> s[1..][i] == s[i + 1];
    }
  }

  /** The key of a column, with its short cut for names that need no change, is what counts of the trimmed name. */
  lemma ColumnKeyIs(value: string)
    ensures NormalizeColumnKey(value) == Counted(Text.TrimSpace(value))
  {
    hide Text.TrimSpace;
    CountedIs(Text.TrimSpace(value));
  }

  function PlaceholderText(name: string): string {
    "#{" + name + "}"
  }

  /** A parenthesis is one character. */
  lemma ParenText(q: string, i: nat)
    requires i < |q|
    ensures var l := Lex(q, i)[0];
            && (q[i] == ')' <==> l.kind.Close?) && (q[i] == ')' ==> l == CloseSign && Cut(q, i).end == i + 1)
            && (q[i] == '(' <==> l.kind.Open?) && (q[i] == '(' ==> Cut(q, i).end == i + 1)
  {
    if q[i] == ')' { assert q[i..i + 1] == ")"; }
  }

  lemma PlaceholderLex(name: string)
    requires '}' !in name
    ensures Lex(PlaceholderText(name), 0) == [Lexeme(Placeholder, PlaceholderText(name), true)]
    ensures Tokens(PlaceholderText(name)) == Lex(PlaceholderText(name), 0)
  {
    var q := PlaceholderText(name);
    BraceFound(q, 2);
    assert Cut(q, 0) == Extent(Placeholder, |q|, true);
    assert Lex(q, |q|) == [];
    assert q[0..|q|] == q;
    assert Lex(q, 0) == [Lexeme(Placeholder, q[0..|q|], true)] + Lex(q, |q|);
    SigOne(Lex(q, 0)[0]);
  }

  lemma {:induction false} BraceFound(q: string, i: nat)
    requires i < |q| && q[|q| - 1] == '}' && '}' !in q[i..|q| - 1]
    ensures BraceEnd(q, i) == (|q|, true)
    decreases |q| - i
  {
    if i < |q| - 1 {
      assert q[i..|q| - 1][0] == q[i];
      assert q[i + 1..|q| - 1] == q[i..|q| - 1][1..];
      BraceFound(q, i + 1);
    }
  }

  predicate IsSegment(l: Lexeme) {
    l.kind.Word? || ((l.kind.Quoted? || l.kind.Bracketed?) && l.closed)
  }

  predicate IsDot(l: Lexeme) {
    l.kind.Other? && l.text == "."
  }

  function MoreCount(ls: seq<Lexeme>): (k: nat)
    ensures k <= |ls|
  {
    if |ls| >= 2 && IsDot(ls[0]) && IsSegment(ls[1]) then 2 + MoreCount(ls[2..]) else 0
  }

  lemma SegmentIs(q: string, i: nat)
    requires i <= |q|
    ensures SegmentEnd(q, i).Some? <==> i < |q| && IsSegment(Lex(q, i)[0])
    ensures SegmentEnd(q, i).Some? ==>
              var n := SegmentEnd(q, i).value; n == i + |Lex(q, i)[0].text| && Lex(q, n) == Lex(q, i)[1..]
  {
    hide Lex, Cut, SegmentEnd;
    SegmentCut(q, i);
    if i < |q| { LexFrom(q, i); }
  }

  lemma SegmentCut(q: string, i: nat)
    ensures SegmentEnd(q, i)
         == if i < |q| && (Cut(q, i).kind.Word?
                           || ((Cut(q, i).kind.Quoted? || Cut(q, i).kind.Bracketed?) && Cut(q, i).closed))
            then Some(Cut(q, i).end)
            else None
  {
    hide QuoteEnd, WordEnd;
  }

  lemma DotIs(q: string, i: nat)
    requires i < |q|
    ensures q[i] == '.' <==> IsDot(Lex(q, i)[0])
    ensures q[i] == '.' ==> Lex(q, i + 1) == Lex(q, i)[1..] && |Lex(q, i)[0].text| == 1
  {
    var x := Cut(q, i);
    assert q[i..x.end][0] == q[i];
    if q[i] == '.' { assert q[i..i + 1] == "."; }
  }

  /** A name of separators has no character that counts. */
  lemma UnderscoreKey()
    ensures NormalizeColumnKey(LastIdentifierPart("_")) == ""
  {
    hide *;
    TrimmedSign();
    NoDots("_");
    UnderscorePart();
    UnderscoreCounted();
    ColumnKeyIs("_");
  }

  lemma {:induction false} NoDots(s: string)
    requires '.' !in s
    ensures AfterLastDot(s) == 0
  {
    if s != "" { NoDots(s[..|s| - 1]); }
  }

  lemma UnderscorePart()
    requires Text.TrimSpace("_") == "_" && AfterLastDot("_") == 0
    ensures LastIdentifierPart("_") == "_"
  {
    hide Text.TrimSpace, AfterLastDot;
    assert "_"[0..] == "_";
  }

  lemma UnderscoreCounted()
    ensures Counted("_") == ""
  {
    assert "_"[1..] == "" && Counted("") == "";
  }

  lemma TrimmedSign()
    ensures Text.TrimSpace("_") == "_"
  {
  }
}
