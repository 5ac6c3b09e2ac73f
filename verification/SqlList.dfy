/** Lists in parentheses and between commas: the two scanners of interceptor.go that take them apart. */
module SqlList {
  import opened SqlLexer
  import opened SqlScan
  import opened SqlPredicate

  const CommaSign := Lexeme(Other, ",", true)

  predicate IsComma(l: Lexeme) {
    l.kind.Other? && l.text == ","
  }

  /** The items of a list, separated by commas at depth zero. */
  function Items(ts: seq<Lexeme>, depth: nat): (items: seq<seq<Lexeme>>)
    ensures items != []
  {
    if ts == [] then [[]]
    else
      var rest := Items(ts[1..], Step(depth, ts[0].kind));
      if depth == 0 && IsComma(ts[0]) then [[]] + rest else [[ts[0]] + rest[0]] + rest[1..]
  }

  lemma ItemsFirst(t: Lexeme, ts: seq<Lexeme>, depth: nat)
    ensures var rest := Items(ts, Step(depth, t.kind));
            Items([t] + ts, depth) == if depth == 0 && IsComma(t) then [[]] + rest else [[t] + rest[0]] + rest[1..]
  {
    assert ([t] + ts)[1..] == ts;
  }

  /** Appending a comma and more items at depth zero. */
  lemma {:induction false} ItemsConcat(a: seq<Lexeme>, b: seq<Lexeme>, depth: nat)
    requires DepthOf(a, depth) == 0
    ensures Items(a + [CommaSign] + b, depth) == Items(a, depth) + Items(b, 0)
  {
    hide Items, Step, IsComma;
    var all := a + [CommaSign] + b;
    if a == [] {
      assert all == [CommaSign] + b;
      CommaItem(b);
    } else {
      var t, a' := a[0], a[1..];
      assert all == [t] + (a' + [CommaSign] + b) && a == [t] + a';
      ItemsConcat(a', b, Step(depth, t.kind));
      ItemsFirst(t, a', depth);
      ItemsFirst(t, a' + [CommaSign] + b, depth);
      var rest, more := Items(a', Step(depth, t.kind)), Items(b, 0);
      assert (rest + more)[1..] == rest[1..] + more;
    }
  }

  lemma CommaItem(b: seq<Lexeme>)
    ensures Items([CommaSign] + b, 0) == Items([], 0) + Items(b, 0)
  {
    ItemsFirst(CommaSign, b, 0);
  }

  lemma CommaLex()
    ensures Lex(", ", 0) == [CommaSign, Lexeme(Space, " ", true)]
  {
    var s := ", ";
    assert Cut(s, 0) == Extent(Other, 1, true) && Cut(s, 1) == Extent(Space, 2, true);
    assert Lex(s, 2) == [];
    assert s[1..2] == " " && s[0..1] == ",";
    assert Lex(s, 1) == [Lexeme(Space, s[1..2], true)] + Lex(s, 2);
    assert Lex(s, 0) == [Lexeme(Other, s[0..1], true)] + Lex(s, 1);
  }

  lemma CommaAppend(q: string)
    ensures Lex(", " + q, 0) == [CommaSign, Lexeme(Space, " ", true)] + Lex(q, 0)
    ensures Tokens(", " + q) == [CommaSign] + Tokens(q)
  {
    hide Cut, Lex, Sig;
    var space := Lexeme(Space, " ", true);
    CommaLex();
    LexConcat(", ", q);
    assert [CommaSign, space] + Lex(q, 0) == [CommaSign] + ([space] + Lex(q, 0));
    SigLed(space, Lex(q, 0));
    SigLed(CommaSign, [space] + Lex(q, 0));
  }

  // ---- splitting at commas ----

  function TextOf(ls: seq<Lexeme>): string {
    if ls == [] then "" else ls[0].text + TextOf(ls[1..])
  }

  function Texts(items: seq<seq<Lexeme>>): (texts: seq<string>)
    ensures |texts| == |items|
  {
    if items == [] then [] else [TextOf(items[0])] + Texts(items[1..])
  }

  /** The pieces of `q` from `start` on, when the scan has got to `i`. */
  function Pieces(q: string, start: nat, i: nat, depth: nat): (pieces: seq<string>)
    requires start <= i <= |q|
    ensures pieces != []
    decreases |q| - i
  {
    if i == |q| then [q[start..]]
    else
      var x := Cut(q, i);
      if depth == 0 && q[i] == ',' then [q[start..i]] + Pieces(q, i + 1, i + 1, 0)
      else Pieces(q, start, x.end, Step(depth, x.kind))
  }

  lemma CutComma(q: string, i: nat)
    requires i < |q|
    ensures q[i] == ',' <==> IsComma(Lex(q, i)[0])
    ensures q[i] == ',' ==> Cut(q, i) == Extent(Other, i + 1, true) && !Inert(Cut(q, i).kind, true)
  {
    var x := Cut(q, i);
    assert q[i..x.end][0] == q[i];
    if q[i] == ',' { assert q[i..i + 1] == ","; }
  }

  lemma TextsStep(ls: seq<Lexeme>, depth: nat)
    requires ls != []
    ensures var l := ls[0]; var inner := Texts(Items(ls[1..], Step(depth, l.kind)));
            Texts(Items(ls, depth)) == if depth == 0
              && IsComma(l) then [""] + inner else [l.text + inner[0]] + inner[1..]
  {
    hide IsComma;
    var l, inner := ls[0], Items(ls[1..], Step(depth, ls[0].kind));
    if depth == 0 && IsComma(l) {
      assert ([[]] + inner)[1..] == inner;
    } else {
      assert ([l] + inner[0])[1..] == inner[0];
      assert ([[l] + inner[0]] + inner[1..])[1..] == inner[1..];
    }
  }

  /** The pieces are the texts of the items. */
  lemma {:induction false} PiecesAreItems(q: string, start: nat, i: nat, depth: nat)
    requires start <= i <= |q|
    ensures var texts := Texts(Items(Lex(q, i), depth));
            Pieces(q, start, i, depth) == [q[start..i] + texts[0]] + texts[1..]
    decreases |q| - i
  {
    hide Cut, IsComma, Items, Texts;
    if i == |q| {
      assert Texts(Items([], depth)) == [""] by { NoTexts(depth); }
      assert q[start..i] + "" == q[start..];
    } else {
      var x := Cut(q, i);
      CutComma(q, i);
      TextsStep(Lex(q, i), depth);
      assert Lex(q, i)[1..] == Lex(q, x.end);
      var inner := Texts(Items(Lex(q, x.end), Step(depth, x.kind)));
      if depth == 0 && q[i] == ',' {
        PiecesAreItems(q, i + 1, i + 1, 0);
        assert q[i + 1..i + 1] + inner[0] == inner[0];
        assert q[start..i] + "" == q[start..i];
      } else {
        PiecesAreItems(q, start, x.end, Step(depth, x.kind));
        assert q[start..x.end] + inner[0] == q[start..i] + (q[i..x.end] + inner[0]);
      }
    }
  }

  lemma NoTexts(depth: nat)
    ensures Texts(Items([], depth)) == [""]
  {
  }

  lemma {:induction false} PiecesInWord(q: string, start: nat, i: nat, depth: nat)
    requires start <= i < |q| && IsIdentPart(q[i])
    ensures Pieces(q, start, i, depth) == Pieces(q, start, WordEnd(q, i), depth)
    decreases |q| - i
  {
    hide Cut;
    CutIdentPart(q, i);
    if !IsIdentStart(q[i]) && i + 1 < |q| && IsIdentPart(q[i + 1]) {
      PiecesInWord(q, start, i + 1, depth);
    }
  }

  lemma PiecesWordStep(q: string, start: nat, i: nat, depth: nat)
    requires start <= i < |q| && IsIdentStart(q[i])
    ensures Pieces(q, start, i, depth) == Pieces(q, start, i + 1, depth)
  {
    PiecesInWord(q, start, i, depth);
    if i + 1 < |q| && IsIdentPart(q[i + 1]) {
      PiecesInWord(q, start, i + 1, depth);
    }
  }

  /** `splitSQLTopLevelComma`: the texts of the items of a list. */
  method SplitSqlTopLevelComma(value: string) returns (items: seq<string>)
    ensures items == Texts(Items(Lex(value, 0), 0))
  {
    hide Cut, Inert, Lex;
    PiecesAreItems(value, 0, 0, 0);
    var texts := Texts(Items(Lex(value, 0), 0));
    assert value[0..0] + texts[0] == texts[0];
    assert [value[0..0] + texts[0]] + texts[1..] == texts;
    items := [];
    var start: nat, depth: nat, index: nat := 0, 0, 0;
    while index < |value|
      invariant start <= index <= |value|
      invariant items + Pieces(value, start, index, depth) == Pieces(value, 0, 0, 0)
      decreases |value| - index
    {
      var next, ok := SkipInert(value, index, true);
      CutOuter(value, index);
      CutComma(value, index);
      if ok {
        assert value[index] != ',';
        index := next;
        continue;
      }
      match value[index]
      case '(' => depth, index := depth + 1, index + 1;
      case ')' => depth, index := if depth > 0 then depth - 1 else depth, index + 1;
      case ',' =>
        if depth == 0 {
          items := items + [value[start..index]];
          start := index + 1;
        }
        index := index + 1;
      case _ =>
        if IsIdentStart(value[index]) { PiecesWordStep(value, start, index, depth); }
        index := index + 1;
    }
    items := items + [value[start..]];
  }

  // ---- the closing parenthesis ----

  /** The index of the parenthesis that closes the one before `ls`, or the number of lexemes. */
  function CloseIndex(ls: seq<Lexeme>, depth: nat): (k: nat)
    requires depth > 0
    ensures k <= |ls|
  {
    if ls == [] then 0
    else if ls[0].kind.Close? && depth == 1 then 0
    else 1 + CloseIndex(ls[1..], Step(depth, ls[0].kind))
  }

  /** What the parenthesis scanner sees: it does not know bracketed names. */
  function CutFlat(q: string, i: nat): (x: Extent)
    requires i < |q|
    ensures i < x.end <= |q|
  {
    var x := Cut(q, i);
    if x.kind.Bracketed? then Extent(Other, i + 1, true) else x
  }

  function CloseFrom(q: string, i: nat, depth: nat): int
    requires i <= |q| && depth > 0
    decreases |q| - i
  {
    if i == |q| then -1
    else
      var x := CutFlat(q, i);
      if x.kind.Close? && depth == 1 then i else CloseFrom(q, x.end, Step(depth, x.kind))
  }

  predicate NoBrackets(ls: seq<Lexeme>) {
    forall l <- ls :: !l.kind.Bracketed?
  }

  /** Without bracketed names before it the scanner finds the matching parenthesis. */
  lemma {:induction false} CloseFromIsClose(q: string, i: nat, depth: nat)
    requires i <= |q| && depth > 0 && NoBrackets(Lex(q, i)[..CloseIndex(Lex(q, i), depth)])
    ensures var ls := Lex(q, i); var k := CloseIndex(ls, depth);
            CloseFrom(q, i, depth) == if k == |ls| then -1 else i + Width(ls[..k])
    decreases |q| - i
  {
    hide Cut;
    if i < |q| {
      var x := Cut(q, i);
      var ls := Lex(q, i);
      assert ls[1..] == Lex(q, x.end);
      if !(x.kind.Close? && depth == 1) {
        var k := CloseIndex(ls, depth);
        assert ls[..k] == [ls[0]] + ls[1..][..k - 1];
        assert ls[0] in ls[..k] && forall l <- ls[1..][..k - 1] :: l in ls[..k];
        CloseFromIsClose(q, x.end, Step(depth, x.kind));
      }
    }
  }

  lemma {:induction false} CloseInWord(q: string, i: nat, depth: nat)
    requires i < |q| && depth > 0 && IsIdentPart(q[i])
    ensures CloseFrom(q, i, depth) == CloseFrom(q, WordEnd(q, i), depth)
    decreases |q| - i
  {
    hide Cut;
    CutIdentPart(q, i);
    if !IsIdentStart(q[i]) && i + 1 < |q| && IsIdentPart(q[i + 1]) {
      CloseInWord(q, i + 1, depth);
    }
  }

  lemma CloseWordStep(q: string, i: nat, depth: nat)
    requires i < |q| && depth > 0 && IsIdentStart(q[i])
    ensures CloseFrom(q, i, depth) == CloseFrom(q, i + 1, depth)
  {
    CloseInWord(q, i, depth);
    if i + 1 < |q| && IsIdentPart(q[i + 1]) {
      CloseInWord(q, i + 1, depth);
    }
  }

  /** `findClosingSQLParen`: the position of the parenthesis that closes the one at `open`. */
  method FindClosingSqlParen(query: string, open: nat) returns (index: nat, ok: bool)
    ensures ok <==> open < |query| && query[open] == '(' && CloseFrom(query, open + 1, 1) >= 0
    ensures ok ==> index == CloseFrom(query, open + 1, 1)
  {
    hide Cut, Inert;
    if open >= |query| || query[open] != '(' {
      return open, false;
    }
    index := open + 1;
    var depth: nat := 1;
    while index < |query|
      invariant open < index <= |query| && depth > 0
      invariant CloseFrom(query, index, depth) == CloseFrom(query, open + 1, 1)
      decreases |query| - index
    {
      var next, skipped := SkipInert(query, index, false);
      CutFlatOuter(query, index);
      if skipped {
        index := next;
        continue;
      }
      match query[index]
      case '(' => depth, index := depth + 1, index + 1;
      case ')' =>
        depth := depth - 1;
        if depth == 0 {
          return index, true;
        }
        index := index + 1;
      case _ =>
        if IsIdentStart(query[index]) { CloseWordStep(query, index, depth); }
        index := index + 1;
    }
    return |query|, false;
  }

  lemma CutFlatOuter(q: string, i: nat)
    requires i < |q|
    ensures Inert(Cut(q, i).kind, false) ==>
              CutFlat(q, i) == Cut(q, i) && !Cut(q, i).kind.Open? && !Cut(q, i).kind.Close?
    ensures !Inert(Cut(q, i).kind, false) ==>
              if q[i] == '(' then CutFlat(q, i) == Extent(Open, i + 1, true)
              else if q[i] == ')' then CutFlat(q, i) == Extent(Close, i + 1, true)
              else if IsIdentStart(q[i]) then CutFlat(q, i) == Extent(Word, WordEnd(q, i), true)
              else CutFlat(q, i).end == i + 1 && !CutFlat(q, i).kind.Open? && !CutFlat(q, i).kind.Close?
  {
  }
}
