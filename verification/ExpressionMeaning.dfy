/**
 What short texts with one or two operators mean, for all operands: which operation of the values is called, with which
 sign, and how operators bind. Everything is said of the text that is evaluated.
 */
module ExpressionMeaning {
  import opened Expression
  import opened ExpressionScanner
  import opened ExpressionTree
  import opened Prelude
  import Text

  /** A name, a quoted text or a number, as it is written. */
  ghost predicate Operand(t: Token) {
    Legible(t) && (PlainName(t) || t.kind == String || t.kind == Number)
  }

  /** Operands that have a value. */
  ghost predicate Valued<V, E>(s: Semantics<V, E>, t: Token, v: V) {
    Operand(t) && s.atom(t) == Ok(v)
  }

  /** The result of an operation on values, as the result of an evaluation. */
  function Outcome<V, E>(r: Result<V, E>): Result<V, Failure<E>> {
    match r case Ok(v) => Ok(v) case Err(e) => Err(Evaluation(e))
  }

  predicate IsLetters(s: string) {
    s != "" && forall c <- s :: 'a' <= c <= 'z' || 'A' <= c <= 'Z'
  }

  lemma LettersLegible(word: string)
    requires IsLetters(word)
    ensures Legible(Token(Word, word))
  {
    assert word[0] in word;
    forall c | c in word
      ensures c !in MARKS && !Text.IsSpace(c)
    {
      LetterIsNoMark(c);
    }
    if |word| > 1 {
      assert word[..2][0] == word[0] && "&&"[0] == '&' && "||"[0] == '|';
    }
  }

  lemma LetterIsNoMark(c: char)
    requires 'a' <= c <= 'z' || 'A' <= c <= 'Z'
    ensures c !in MARKS && !Text.IsSpace(c)
  {
  }

  lemma SpelledLetters(word: string, small: string)
    requires Text.Spells(word, small) && small != "" && forall c <- small :: 'a' <= c <= 'z'
    ensures IsLetters(word)
  {
    forall c | c in word
      ensures 'a' <= c <= 'z' || 'A' <= c <= 'Z'
    {
      var i :| 0 <= i < |word| && word[i] == c;
      assert small[i] in small;
    }
  }

  /** The text of a tree is what it is evaluated from. */
  lemma TextMeans<V, E>(s: Semantics<V, E>, e: Expr, ts: seq<Token>)
    requires WellFormed(e) && Print(e, 0) == ts && forall t <- ts :: Legible(t)
    ensures EvalText(s, Spaced(ts)) == Eval(s, e)
  {
    hide Eval, EvalText, Legible, WellFormed, Print;
    WrittenTreeEvaluates(s, e);
  }

  lemma TwoSpaced(a: Token, b: Token)
    ensures Spaced([a, b]) == a.text + " " + b.text
  {
    SpacedFirst([a, b]);
    assert [a, b][1..] == [b];
    SpacedFirst([b]);
  }

  lemma ThreeSpaced(a: Token, b: Token, c: Token)
    ensures Spaced([a, b, c]) == a.text + " " + b.text + " " + c.text
  {
    hide Spaced;
    SpacedFirst([a, b, c]);
    assert [a, b, c][1..] == [b, c];
    TwoSpaced(b, c);
    assert a.text + " " + (b.text + " " + c.text) == a.text + " " + b.text + " " + c.text;
  }

  lemma TokensInLine(a: Token, x: Token, b: Token, y: Token, c: Token)
    ensures [a] + ([x] + [b]) == [a, x, b] && [b] + ([y] + [c]) == [b, y, c]
    ensures [a] + ([x] + [b, y, c]) == [a, x, b, y, c] && [a, x, b] + ([y] + [c]) == [a, x, b, y, c]
    ensures [a] + ([x] + [b] + ([y] + [c])) == [a, x, b, y, c]
  {
  }

  lemma AtomPrinted(a: Token, level: nat)
    requires level <= PRIMARY
    ensures Print(Atom(a), level) == [a]
  {
  }

  /** A binary operator whose operands need no parentheses, where it needs none itself. */
  lemma BinaryPrinted(op: BinaryOp, signs: seq<Token>, left: Expr, l: seq<Token>, right: Expr, r: seq<Token>,
                      level: nat)
    requires level <= LevelOf(op) && Print(left, LevelOf(op)) == l && Print(right, LevelOf(op) + 1) == r
    ensures Print(Binary(op, signs, left, right), level) == l + (signs + r)
  {
  }

  // ---- one operator ----

  /** An operator of one token between two operands. */
  lemma BinaryMeans<V, E>(s: Semantics<V, E>, op: BinaryOp, sign: Token, a: Token, v: V, b: Token, w: V)
    requires Valued(s, a, v) && Valued(s, b, w) && Spelled(op, [sign]) && Legible(sign)
    ensures EvalText(s, a.text + " " + sign.text + " " + b.text) == Apply(s, op, v, w)
  {
    hide EvalText, Legible, Spelled, Apply, PlainName;
    var e := Binary(op, [sign], Atom(a), Atom(b));
    assert LevelOf(op) < PRIMARY;
    AtomPrinted(a, LevelOf(op));
    AtomPrinted(b, LevelOf(op) + 1);
    BinaryPrinted(op, [sign], Atom(a), [a], Atom(b), [b], 0);
    TokensInLine(a, sign, b, sign, b);
    TextMeans(s, e, [a, sign, b]);
    ThreeSpaced(a, sign, b);
  }

  /** The words that stand for the sign of a comparison. */
  predicate StandsFor(word: string, sign: string) {
    || (sign == "==" && Text.Spells(word, "eq"))
    || (sign == "!=" && (Text.Spells(word, "ne") || Text.Spells(word, "neq")))
    || (sign == ">" && Text.Spells(word, "gt"))
    || (sign == ">=" && (Text.Spells(word, "gte") || Text.Spells(word, "ge")))
    || (sign == "<" && Text.Spells(word, "lt"))
    || (sign == "<=" && (Text.Spells(word, "lte") || Text.Spells(word, "le")))
  }

  lemma StandsForLetters(word: string, sign: string)
    requires StandsFor(word, sign)
    ensures IsLetters(word)
  {
    hide Text.Spells, IsLetters;
    if Text.Spells(word, "eq") { SpelledLetters(word, "eq"); }
    if Text.Spells(word, "ne") { SpelledLetters(word, "ne"); }
    if Text.Spells(word, "neq") { SpelledLetters(word, "neq"); }
    if Text.Spells(word, "gt") { SpelledLetters(word, "gt"); }
    if Text.Spells(word, "gte") { SpelledLetters(word, "gte"); }
    if Text.Spells(word, "ge") { SpelledLetters(word, "ge"); }
    if Text.Spells(word, "lt") { SpelledLetters(word, "lt"); }
    if Text.Spells(word, "lte") { SpelledLetters(word, "lte"); }
    if Text.Spells(word, "le") { SpelledLetters(word, "le"); }
  }

  /** A comparison compares its operands, in their order, with the sign written or the sign its word stands for. */
  lemma ComparisonMeans<V, E>(s: Semantics<V, E>, sign: string, word: string, a: Token, v: V, b: Token, w: V)
    requires Valued(s, a, v) && Valued(s, b, w) && StandsFor(word, sign)
    ensures EvalText(s, a.text + " " + sign + " " + b.text) == Outcome(s.compare(v, sign, w))
    ensures EvalText(s, a.text + " " + word + " " + b.text) == Outcome(s.compare(v, sign, w))
  {
    hide EvalText, Valued;
    assert Legible(Token(Operator, sign));
    BinaryMeans(s, Compare(sign), Token(Operator, sign), a, v, b, w);
    StandsForLetters(word, sign);
    LettersLegible(word);
    assert Compares(Token(Word, word), sign);
    BinaryMeans(s, Compare(sign), Token(Word, word), a, v, b, w);
  }

  /** Sums are added, and the other arithmetic is done with the sign written. */
  lemma ArithmeticMeans<V, E>(s: Semantics<V, E>, a: Token, v: V, b: Token, w: V)
    requires Valued(s, a, v) && Valued(s, b, w)
    ensures EvalText(s, a.text + " + " + b.text) == Outcome(s.add(v, w))
    ensures EvalText(s, a.text + " - " + b.text) == Outcome(s.numeric(v, w, "-"))
    ensures EvalText(s, a.text + " * " + b.text) == Outcome(s.numeric(v, w, "*"))
    ensures EvalText(s, a.text + " / " + b.text) == Outcome(s.numeric(v, w, "/"))
    ensures EvalText(s, a.text + " % " + b.text) == Outcome(s.numeric(v, w, "%"))
  {
    hide EvalText, Valued;
    SignBetween(a, "+", " + ", b);
    SignBetween(a, "-", " - ", b);
    SignBetween(a, "*", " * ", b);
    SignBetween(a, "/", " / ", b);
    SignBetween(a, "%", " % ", b);
    BinaryMeans(s, Add, Token(Operator, "+"), a, v, b, w);
    BinaryMeans(s, Subtract, Token(Operator, "-"), a, v, b, w);
    BinaryMeans(s, Multiply, Token(Operator, "*"), a, v, b, w);
    BinaryMeans(s, Divide, Token(Operator, "/"), a, v, b, w);
    BinaryMeans(s, Modulo, Token(Operator, "%"), a, v, b, w);
  }

  lemma SignBetween(a: Token, sign: string, spaced: string, b: Token)
    requires |sign| == 1 && spaced == [' ', sign[0], ' ']
    ensures a.text + " " + sign + " " + b.text == a.text + spaced + b.text
  {
  }

  /** The truth of a result. */
  ghost predicate Says<V, E>(s: Semantics<V, E>, r: Result<V, Failure<E>>, truth: bool) {
    r.Ok? && s.truthy(r.value) == truth
  }

  /** Truth values made of bools have the truth of the bool. */
  ghost predicate Honest<V, E>(s: Semantics<V, E>) {
    forall b :: s.truthy(s.ofBool(b)) == b
  }

  /** OR and AND, IN and NOT IN. */
  lemma LogicMeans<V, E>(s: Semantics<V, E>, word: string, other: string, a: Token, v: V, b: Token, w: V)
    requires Valued(s, a, v) && Valued(s, b, w) && Honest(s)
    ensures word == "||" || Text.Spells(word, "or") ==>
              Says(s, EvalText(s, a.text + " " + word + " " + b.text), s.truthy(v) || s.truthy(w))
    ensures word == "&&" || Text.Spells(word, "and") ==>
              Says(s, EvalText(s, a.text + " " + word + " " + b.text), s.truthy(v) && s.truthy(w))
    ensures Text.Spells(word, "in") ==>
              Says(s, EvalText(s, a.text + " " + word + " " + b.text), s.contains(w, v))
    ensures Text.Spells(other, "not") && Text.Spells(word, "in") ==>
              Says(s, EvalText(s, a.text + " " + other + " " + word + " " + b.text), !s.contains(w, v))
  {
    hide EvalText, Valued, Text.Spells;
    if word == "||" { BinaryMeans(s, Or, Token(Operator, word), a, v, b, w); }
    if Text.Spells(word, "or") {
      WordLegible(word, "or");
      BinaryMeans(s, Or, Token(Word, word), a, v, b, w);
    }
    if word == "&&" { BinaryMeans(s, And, Token(Operator, word), a, v, b, w); }
    if Text.Spells(word, "and") {
      WordLegible(word, "and");
      BinaryMeans(s, And, Token(Word, word), a, v, b, w);
    }
    if Text.Spells(word, "in") {
      WordLegible(word, "in");
      BinaryMeans(s, In, Token(Word, word), a, v, b, w);
      if Text.Spells(other, "not") {
        NotInMeans(s, other, word, a, v, b, w);
      }
    }
  }

  lemma WordLegible(word: string, small: string)
    requires Text.Spells(word, small) && small != "" && forall c <- small :: 'a' <= c <= 'z'
    ensures Legible(Token(Word, word)) && IsWord(Token(Word, word), small)
  {
    hide Legible, Text.Spells;
    SpelledLetters(word, small);
    LettersLegible(word);
  }

  lemma NotInMeans<V, E>(s: Semantics<V, E>, not_: string, in_: string, a: Token, v: V, b: Token, w: V)
    requires Valued(s, a, v) && Valued(s, b, w) && Text.Spells(not_, "not") && Text.Spells(in_, "in")
    ensures EvalText(s, a.text + " " + not_ + " " + in_ + " " + b.text) == Ok(s.ofBool(!s.contains(w, v)))
  {
    hide EvalText, Legible, PlainName, Text.Spells, Print, Spaced;
    WordLegible(not_, "not");
    WordLegible(in_, "in");
    var signs := [Token(Word, not_), Token(Word, in_)];
    var e := Binary(NotIn, signs, Atom(a), Atom(b));
    assert Spelled(NotIn, signs);
    AtomPrinted(a, COMPARISON);
    AtomPrinted(b, COMPARISON + 1);
    BinaryPrinted(NotIn, signs, Atom(a), [a], Atom(b), [b], 0);
    var ts := [a, signs[0], signs[1], b];
    assert [a] + (signs + [b]) == ts;
    TextMeans(s, e, ts);
    SpacedFirst(ts);
    assert ts[1..] == [signs[0], signs[1], b];
    ThreeSpaced(signs[0], signs[1], b);
    assert a.text + " " + (not_ + " " + in_ + " " + b.text) == a.text + " " + not_ + " " + in_ + " " + b.text;
  }

  /** NOT, EMPTY and the signs of a number, before one operand. */
  lemma UnaryMeans<V, E>(s: Semantics<V, E>, word: string, a: Token, v: V)
    requires Valued(s, a, v) && Honest(s)
    ensures word == "!" || Text.Spells(word, "not") ==> Says(s, EvalText(s, word + " " + a.text), !s.truthy(v))
    ensures Text.Spells(word, "empty") ==> Says(s, EvalText(s, word + " " + a.text), s.isEmpty(v))
    ensures EvalText(s, "- " + a.text) == Outcome(s.negate(v))
    ensures EvalText(s, "+ " + a.text) == Outcome(s.number(v))
  {
    hide EvalText, Valued, Text.Spells;
    if word == "!" { PrefixMeans(s, Not, Token(Operator, word), a, v); }
    if Text.Spells(word, "not") {
      WordLegible(word, "not");
      PrefixMeans(s, Not, Token(Word, word), a, v);
    }
    if Text.Spells(word, "empty") {
      WordLegible(word, "empty");
      PrefixMeans(s, Empty, Token(Word, word), a, v);
    }
    assert "-" + " " == "- " && "+" + " " == "+ ";
    PrefixMeans(s, Negative, Token(Operator, "-"), a, v);
    PrefixMeans(s, Positive, Token(Operator, "+"), a, v);
  }

  lemma PrefixMeans<V, E>(s: Semantics<V, E>, op: UnaryOp, sign: Token, a: Token, v: V)
    requires Valued(s, a, v) && SignOf(op, sign) && Legible(sign)
    ensures EvalText(s, sign.text + " " + a.text) == ApplyUnary(s, op, v)
  {
    hide EvalText, Legible, PlainName, SignOf, ApplyUnary;
    var e := Prefix(op, sign, Atom(a));
    assert Print(Atom(a), UNARY) == [a];
    assert Print(e, 0) == [sign] + [a] == [sign, a];
    TextMeans(s, e, [sign, a]);
    TwoSpaced(sign, a);
  }

  /** A question with two answers: the first when it holds. */
  lemma ConditionalMeans<V, E>(s: Semantics<V, E>, a: Token, v: V, b: Token, w: V, c: Token, x: V)
    requires Valued(s, a, v) && Valued(s, b, w) && Valued(s, c, x)
    ensures EvalText(s, a.text + " ? " + b.text + " : " + c.text) == Ok(if s.truthy(v) then w else x)
  {
    hide EvalText, Legible, PlainName;
    var ask, else_ := Token(Question, "?"), Token(Colon, ":");
    MarksLegible();
    var e := Conditional(Atom(a), Atom(b), Atom(c));
    var ts := [a, ask, b, else_, c];
    AtomPrinted(a, OR);
    AtomPrinted(b, 0);
    AtomPrinted(c, 0);
    TokensInLine(a, ask, b, else_, c);
    assert Print(e, 0) == [a] + ([ask] + [b] + ([else_] + [c]));
    TextMeans(s, e, ts);
    FiveSpaced(a, ask, b, else_, c);
  }

  lemma MarksLegible()
    ensures Legible(Token(Question, "?")) && Legible(Token(Colon, ":"))
    ensures " " + "?" + " " == " ? " && " " + ":" + " " == " : "
  {
  }

  lemma FiveSpaced(a: Token, x: Token, b: Token, y: Token, c: Token)
    ensures Spaced([a, x, b, y, c])
         == a.text + (" " + x.text + " ") + b.text + (" " + y.text + " ") + c.text
  {
    hide Spaced;
    var ts := [a, x, b, y, c];
    SpacedFirst(ts);
    SpacedFirst([x, b, y, c]);
    assert ts[1..] == [x, b, y, c] && [x, b, y, c][1..] == [b, y, c];
    ThreeSpaced(b, y, c);
  }

  // ---- two operators ----

  /** Two operators of one token between three operands. */
  lemma TwoMeans<V, E>(s: Semantics<V, E>, p: BinaryOp, x: Token, q: BinaryOp, y: Token, a: Token, b: Token, c: Token)
    requires Operand(a) && Operand(b) && Operand(c)
    requires Spelled(p, [x]) && Legible(x) && Spelled(q, [y]) && Legible(y)
    ensures EvalText(s, a.text + (" " + x.text + " ") + b.text + (" " + y.text + " ") + c.text)
         == Eval(s, if LevelOf(p) < LevelOf(q) then Binary(p, [x], Atom(a), Binary(q, [y], Atom(b), Atom(c)))
                    else Binary(q, [y], Binary(p, [x], Atom(a), Atom(b)), Atom(c)))
  {
    hide EvalText, Legible, Spelled, Eval, PlainName, Print, LevelOf, WellFormed;
    var l, r := Binary(p, [x], Atom(a), Atom(b)), Binary(q, [y], Atom(b), Atom(c));
    var ts := [a, x, b, y, c];
    TokensInLine(a, x, b, y, c);
    Levels(p);
    Levels(q);
    if LevelOf(p) < LevelOf(q) {
      RightPrinted(p, x, q, y, a, b, c);
      TextMeans(s, Binary(p, [x], Atom(a), r), ts);
    } else {
      LeftPrinted(p, x, q, y, a, b, c);
      TextMeans(s, Binary(q, [y], l, Atom(c)), ts);
    }
    FiveSpaced(a, x, b, y, c);
  }

  lemma OperandFormed(t: Token)
    requires Operand(t)
    ensures WellFormed(Atom(t))
  {
  }

  lemma BinaryFormed(op: BinaryOp, signs: seq<Token>, left: Expr, right: Expr)
    requires Spelled(op, signs) && WellFormed(left) && WellFormed(right)
    ensures WellFormed(Binary(op, signs, left, right))
  {
  }

  lemma RightPrinted(p: BinaryOp, x: Token, q: BinaryOp, y: Token, a: Token, b: Token, c: Token)
    requires Operand(a) && Operand(b) && Operand(c) && Spelled(p, [x]) && Spelled(q, [y]) && LevelOf(p) < LevelOf(q)
    ensures var e := Binary(p, [x], Atom(a), Binary(q, [y], Atom(b), Atom(c)));
            WellFormed(e) && Print(e, 0) == [a, x, b, y, c]
  {
    hide Legible, Spelled, PlainName, Print, LevelOf, WellFormed, Operand;
    var r := Binary(q, [y], Atom(b), Atom(c));
    OperandFormed(a);
    OperandFormed(b);
    OperandFormed(c);
    BinaryFormed(q, [y], Atom(b), Atom(c));
    BinaryFormed(p, [x], Atom(a), r);
    Levels(p);
    Levels(q);
    AtomPrinted(a, LevelOf(p));
    AtomPrinted(b, LevelOf(q));
    AtomPrinted(c, LevelOf(q) + 1);
    BinaryPrinted(q, [y], Atom(b), [b], Atom(c), [c], LevelOf(p) + 1);
    assert Print(r, LevelOf(p) + 1) == [b, y, c];
    BinaryPrinted(p, [x], Atom(a), [a], r, [b, y, c], 0);
  }

  lemma LeftPrinted(p: BinaryOp, x: Token, q: BinaryOp, y: Token, a: Token, b: Token, c: Token)
    requires Operand(a) && Operand(b) && Operand(c) && Spelled(p, [x]) && Spelled(q, [y]) && LevelOf(q) <= LevelOf(p)
    ensures var e := Binary(q, [y], Binary(p, [x], Atom(a), Atom(b)), Atom(c));
            WellFormed(e) && Print(e, 0) == [a, x, b, y, c]
  {
    hide Legible, Spelled, PlainName, Print, LevelOf, WellFormed, Operand;
    var l := Binary(p, [x], Atom(a), Atom(b));
    OperandFormed(a);
    OperandFormed(b);
    OperandFormed(c);
    BinaryFormed(p, [x], Atom(a), Atom(b));
    BinaryFormed(q, [y], l, Atom(c));
    Levels(p);
    Levels(q);
    AtomPrinted(a, LevelOf(p));
    AtomPrinted(b, LevelOf(p) + 1);
    AtomPrinted(c, LevelOf(q) + 1);
    BinaryPrinted(p, [x], Atom(a), [a], Atom(b), [b], LevelOf(q));
    assert Print(l, LevelOf(q)) == [a, x, b];
    BinaryPrinted(q, [y], l, [a, x, b], Atom(c), [c], 0);
  }

  lemma Levels(op: BinaryOp)
    ensures OR <= LevelOf(op) < UNARY
  {
  }

  /** What binds more tightly: arithmetic than sums, sums than comparisons, these than AND, and AND than OR. */
  lemma BindingMeans<V, E>(s: Semantics<V, E>, a: Token, u: V, b: Token, v: V, c: Token, w: V, x: V)
    requires Valued(s, a, u) && Valued(s, b, v) && Valued(s, c, w)
    ensures s.numeric(v, w, "*") == Ok(x) ==> EvalText(s, a.text + " + " + b.text + " * " + c.text)
                                              == Outcome(s.add(u, x))
    ensures s.numeric(u, v, "*") == Ok(x) ==> EvalText(s, a.text + " * " + b.text + " + " + c.text)
                                              == Outcome(s.add(x, w))
    ensures s.add(v, w) == Ok(x) ==> EvalText(s, a.text + " == " + b.text + " + " + c.text)
                                     == Outcome(s.compare(u, "==", x))
    ensures s.numeric(u, v, "-") == Ok(x) ==> EvalText(s, a.text + " - " + b.text + " - " + c.text)
                                              == Outcome(s.numeric(x, w, "-"))
  {
    hide EvalText, LevelOf;
    SignsSpelled();
    SignTexts();
    BindsRight(s, Add, "+", Multiply, "*", a, b, c);
    BindsLeft(s, Multiply, "*", Add, "+", a, b, c);
    BindsRight(s, Compare("=="), "==", Add, "+", a, b, c);
    BindsLeft(s, Subtract, "-", Subtract, "-", a, b, c);
  }

  /** AND binds more tightly than OR, and a comparison more tightly than either. */
  lemma LogicBinding<V, E>(s: Semantics<V, E>, a: Token, u: V, b: Token, v: V, c: Token, w: V, x: V)
    requires Valued(s, a, u) && Valued(s, b, v) && Valued(s, c, w) && Honest(s)
    ensures Says(s, EvalText(s, a.text + " || " + b.text + " && " + c.text),
                 s.truthy(u) || (s.truthy(v) && s.truthy(w)))
    ensures Says(s, EvalText(s, a.text + " && " + b.text + " || " + c.text),
                 (s.truthy(u) && s.truthy(v)) || s.truthy(w))
    ensures s.compare(v, "==", w) == Ok(x) ==>
              Says(s, EvalText(s, a.text + " && " + b.text + " == " + c.text), s.truthy(u) && s.truthy(x))
  {
    hide EvalText, LevelOf;
    SignsSpelled();
    SignTexts();
    BindsRight(s, Or, "||", And, "&&", a, b, c);
    BindsLeft(s, And, "&&", Or, "||", a, b, c);
    BindsRight(s, And, "&&", Compare("=="), "==", a, b, c);
  }

  /** An operation on a value and a result. */
  function WithRight<V, E>(s: Semantics<V, E>, op: BinaryOp, v: V, r: Result<V, Failure<E>>): Result<V, Failure<E>> {
    match r case Err(e) => Err(e) case Ok(w) => Apply(s, op, v, w)
  }

  function WithLeft<V, E>(s: Semantics<V, E>, op: BinaryOp, r: Result<V, Failure<E>>, w: V): Result<V, Failure<E>> {
    match r case Err(e) => Err(e) case Ok(v) => Apply(s, op, v, w)
  }

  lemma BindsRight<V, E>(s: Semantics<V, E>, p: BinaryOp, x: string, q: BinaryOp, y: string, a: Token, b: Token,
                         c: Token)
    requires Operand(a) && Operand(b) && Operand(c) && SignWritten(p, x) && SignWritten(q, y)
    requires LevelOf(p) < LevelOf(q)
    requires s.atom(a).Ok? && s.atom(b).Ok? && s.atom(c).Ok?
    ensures EvalText(s, a.text + (" " + x + " ") + b.text + (" " + y + " ") + c.text)
         == WithRight(s, p, s.atom(a).value, Apply(s, q, s.atom(b).value, s.atom(c).value))
  {
    hide EvalText, Legible, Apply, LevelOf;
    TwoMeans(s, p, Token(Operator, x), q, Token(Operator, y), a, b, c);
    EvalRight(s, p, [Token(Operator, x)], q, [Token(Operator, y)], a, b, c);
  }

  lemma EvalRight<V, E>(s: Semantics<V, E>, p: BinaryOp, x: seq<Token>, q: BinaryOp, y: seq<Token>, a: Token, b: Token,
                        c: Token)
    requires s.atom(a).Ok? && s.atom(b).Ok? && s.atom(c).Ok?
    ensures Eval(s, Binary(p, x, Atom(a), Binary(q, y, Atom(b), Atom(c))))
         == WithRight(s, p, s.atom(a).value, Apply(s, q, s.atom(b).value, s.atom(c).value))
  {
    hide Apply;
    EvalBinary(s, Binary(p, x, Atom(a), Binary(q, y, Atom(b), Atom(c))));
    EvalBinary(s, Binary(q, y, Atom(b), Atom(c)));
  }

  lemma EvalLeft<V, E>(s: Semantics<V, E>, p: BinaryOp, x: seq<Token>, q: BinaryOp, y: seq<Token>, a: Token, b: Token,
                       c: Token)
    requires s.atom(a).Ok? && s.atom(b).Ok? && s.atom(c).Ok?
    ensures Eval(s, Binary(q, y, Binary(p, x, Atom(a), Atom(b)), Atom(c)))
         == WithLeft(s, q, Apply(s, p, s.atom(a).value, s.atom(b).value), s.atom(c).value)
  {
    hide Apply;
    EvalBinary(s, Binary(q, y, Binary(p, x, Atom(a), Atom(b)), Atom(c)));
    EvalBinary(s, Binary(p, x, Atom(a), Atom(b)));
  }

  lemma BindsLeft<V, E>(s: Semantics<V, E>, p: BinaryOp, x: string, q: BinaryOp, y: string, a: Token, b: Token,
                        c: Token)
    requires Operand(a) && Operand(b) && Operand(c) && SignWritten(p, x) && SignWritten(q, y)
    requires LevelOf(p) >= LevelOf(q)
    requires s.atom(a).Ok? && s.atom(b).Ok? && s.atom(c).Ok?
    ensures EvalText(s, a.text + (" " + x + " ") + b.text + (" " + y + " ") + c.text)
         == WithLeft(s, q, Apply(s, p, s.atom(a).value, s.atom(b).value), s.atom(c).value)
  {
    hide EvalText, Legible, Apply, LevelOf;
    TwoMeans(s, p, Token(Operator, x), q, Token(Operator, y), a, b, c);
    EvalLeft(s, p, [Token(Operator, x)], q, [Token(Operator, y)], a, b, c);
  }

  ghost predicate SignWritten(op: BinaryOp, sign: string) {
    Spelled(op, [Token(Operator, sign)]) && Legible(Token(Operator, sign))
  }

  lemma SignsSpelled()
    ensures SignWritten(Add, "+") && SignWritten(Subtract, "-") && SignWritten(Multiply, "*")
    ensures SignWritten(Compare("=="), "==") && SignWritten(And, "&&") && SignWritten(Or, "||")
    ensures LevelOf(Or) < LevelOf(And) < LevelOf(Compare("==")) < LevelOf(Add) < LevelOf(Multiply)
    ensures LevelOf(Subtract) == LevelOf(Add)
  {
  }

  lemma SignTexts()
    ensures " " + "+" + " " == " + " && " " + "-" + " " == " - " && " " + "*" + " " == " * "
    ensures " " + "==" + " " == " == " && " " + "&&" + " " == " && " && " " + "||" + " " == " || "
  {
  }

  // ---- texts that are refused ----

  /** What is read at the beginning of a text when it cannot be a value. */
  lemma {:induction false} FailsFrom<V, E>(s: Semantics<V, E>, level: nat, ts: seq<Token>, x: Failure<E>)
    requires OR <= level <= UNARY && UnaryAt(ts, 0).None? && Primary(s, ts, 0) == Err(x)
    ensures Level(s, level, ts, 0) == Err(x)
    decreases UNARY - level
  {
    hide Primary, UnaryAt, Rest;
    if level < UNARY { FailsFrom(s, level + 1, ts, x); }
  }

  lemma FailsWhole<V, E>(s: Semantics<V, E>, ts: seq<Token>, x: Failure<E>)
    requires UnaryAt(ts, 0).None? && Primary(s, ts, 0) == Err(x)
    ensures Evaluate(s, ts) == Err(x)
  {
    hide Primary, UnaryAt, Level;
    FailsFrom(s, OR, ts, x);
  }

  /** An operand at a position, with a token after it that ends it. */
  lemma OperandRead<V, E>(s: Semantics<V, E>, ts: seq<Token>, p: nat, a: Token, v: V)
    requires Valued(s, a, v) && p + 1 < |ts| && ts[p] == a && Stops(0, ts, p + 1)
    ensures Ternary(s, ts, p) == Ok((v, p + 1))
  {
    hide Ternary, Legible, PlainName, Stops;
    AtomPrinted(a, 0);
    assert ts[p..p + 1] == [a];
    ReadTernary(s, Atom(a), ts, p);
  }

  lemma EndStops(ts: seq<Token>, p: nat)
    requires p < |ts| && ts[p] == END
    ensures Stops(0, ts, p)
  {
    hide OperatorAt;
    PunctuationStops(0, ts, p);
  }

  lemma ListUnclosed<V, E>(s: Semantics<V, E>, ts: seq<Token>, p: nat, a: Token, v: V, close: TokenKind)
    requires Valued(s, a, v) && p + 2 == |ts| && ts[p] == a && ts[p + 1] == END && (close == RParen || close == RBrace)
    ensures Items(s, close, ts, p) == Err(MissingComma)
  {
    hide Ternary, Stops, Legible;
    EndStops(ts, p + 1);
    OperandRead(s, ts, p, a, v);
    OperandOpens(a);
    assert More(s, close, [], ts, p) == Err(MissingComma);
  }

  /** A parenthesis, a list or a call without its end. */
  lemma Unclosed<V, E>(s: Semantics<V, E>, a: Token, v: V, name: Token)
    requires Valued(s, a, v) && PlainName(name)
    ensures Evaluate(s, [Token(LParen, "("), a, END]) == Err(MissingParenthesis)
    ensures Evaluate(s, [Token(LBrace, "{"), a, END]) == Err(MissingComma)
    ensures Evaluate(s, [name, Token(LParen, "("), a, END]) == Err(MissingComma)
  {
    hide Ternary, Stops, Legible, Evaluate, Items, Postfix, UnaryAt, PlainName, Level;
    var p, l, c := [OPEN, a, END], [LEFT, a, END], [name, OPEN, a, END];
    EndStops(p, 2);
    OperandRead(s, p, 1, a, v);
    ListUnclosed(s, l, 1, a, v, RBrace);
    ListUnclosed(s, c, 2, a, v, RParen);
    PlainNoSign(p, 0);
    PlainNoSign(l, 0);
    PlainNoSign(c, 0);
    NameIsWord(name);
    FailsWhole<V, E>(s, p, MissingParenthesis);
    FailsWhole<V, E>(s, l, MissingComma);
    FailsWhole<V, E>(s, c, MissingComma);
  }

  lemma NameIsWord(name: Token)
    requires PlainName(name)
    ensures name.kind == Word && !IsPostfix(name)
  {
  }

  lemma OperandOpens(a: Token)
    requires Operand(a)
    ensures a.kind != RBrace && a.kind != RParen
  {
  }

  /** A question without its second answer, a second value without an operator, and a value that is missing. */
  lemma Misplaced<V, E>(s: Semantics<V, E>, a: Token, v: V, b: Token, w: V)
    requires Valued(s, a, v) && Valued(s, b, w)
    ensures Evaluate(s, [a, Token(Question, "?"), b, END]) == Err(MissingColon)
    ensures b.kind == Number || b.kind == String ==> Evaluate(s, [a, b, END]) == Err(Unexpected)
    ensures Evaluate<V, E>(s, [Token(RParen, ")"), END]) == Err(ExpectedValue)
  {
    hide Ternary, Stops, Legible, Level;
    var q, t := [a, ASK, b, END], [a, b, END];
    EndStops(q, 3);
    OperandRead(s, q, 2, b, w);
    QuestionRead(s, q, a, v);
    TernaryUnfold(s, q, 0);
    if b.kind == Number || b.kind == String {
      PunctuationStops(0, t, 1);
      OperandRead(s, t, 0, a, v);
    }
    FailsWhole<V, E>(s, [CLOSE, END], ExpectedValue);
  }

  lemma QuestionRead<V, E>(s: Semantics<V, E>, ts: seq<Token>, a: Token, v: V)
    requires Valued(s, a, v) && |ts| > 1 && ts[0] == a && ts[1] == ASK
    ensures Level(s, OR, ts, 0) == Ok((v, 1))
  {
    hide Level, Legible, PlainName, Stops;
    AtomPrinted(a, OR);
    assert ts[0..1] == [a];
    PunctuationStops(OR, ts, 1);
    ReadLevel(s, Atom(a), OR, ts, 0);
  }

  /** A value that no operator follows goes up through the levels. */
  lemma {:induction false} ReadsUp<V, E>(s: Semantics<V, E>, level: nat, ts: seq<Token>, v: V, q: nat)
    requires OR <= level <= UNARY && Unary(s, ts, 0) == Ok((v, q)) && q <= |ts| && Stops(OR, ts, q)
    ensures Level(s, level, ts, 0) == Ok((v, q))
    decreases UNARY - level
  {
    hide Unary, Ends, OperatorAt;
    if level < UNARY { ReadsUp(s, level + 1, ts, v, q); }
  }

  /** EMPTY with no value after it is a name. */
  lemma EmptyAsName<V, E>(s: Semantics<V, E>, name: Token, v: V)
    requires IsWord(name, "empty") && s.atom(name) == Ok(v)
    ensures Evaluate(s, [name, END]) == Ok(v)
  {
    hide Level, Stops, Primary;
    var ts := [name, END];
    EndStops(ts, 1);
    StopsHigher(0, OR, ts, 1);
    EmptyAlone(s, ts, v);
    ReadsUp(s, OR, ts, v, 1);
  }

  lemma EmptyAlone<V, E>(s: Semantics<V, E>, ts: seq<Token>, v: V)
    requires |ts| == 2 && ts[1] == END && IsWord(ts[0], "empty") && s.atom(ts[0]) == Ok(v)
    ensures Unary(s, ts, 0) == Ok((v, 1))
  {
    KeywordsAre(ts[0]);
    WordIs(ts[0], "empty");
    hide Text.Lower, Text.Spells, Ternary, Items;
    assert ts[0].text != "" && Text.LowerChar(ts[0].text[0]) == 'e';
    assert UnaryAt(ts, 0).None?;
    assert Postfix(s, v, ts, 1) == Ok((v, 1));
  }
}
