/**
 Expression trees, their strict values and their tokens with no more parentheses than precedence asks for; the parser is
 proved to read the tokens of a tree as that tree.
 */
module ExpressionTree {
  import opened Prelude
  import opened Expression
  import Text

  datatype Expr =
    | Atom(token: Token)
    | List(items: seq<Expr>)
    | Function(name: string, args: seq<Expr>)
    | Method(receiver: Expr, name: string, args: seq<Expr>)
    | Property(receiver: Expr, name: string)
    | Prefix(op: UnaryOp, sign: Token, operand: Expr)
    | Binary(binary: BinaryOp, signs: seq<Token>, left: Expr, right: Expr)
    | Conditional(test: Expr, yes: Expr, no: Expr)

  function LevelOf(op: BinaryOp): nat {
    match op
    case Or => OR
    case And => AND
    case Compare(_) | In | NotIn => COMPARISON
    case Add | Subtract => ADDITIVE
    case Multiply | Divide | Modulo => MULTIPLICATIVE
  }

  function Precedence(e: Expr): nat {
    match e
    case Conditional(_, _, _) => 0
    case Binary(op, _, _, _) => LevelOf(op)
    case Prefix(_, _, _) => UNARY
    case _ => PRIMARY
  }

  // ---- the value of a tree ----

  /**
   Both branches of a conditional and both sides of every operator are evaluated, from the left; errors come first.
   */
  function Eval<V, E>(s: Semantics<V, E>, e: Expr): Result<V, Failure<E>>
    decreases e
  {
    match e
    case Atom(t) => Lift(s.atom(t))
    case List(items) => (match EvalAll(s, [], items) case Err(x) => Err(x) case Ok(vs) => Ok(s.list(vs)))
    case Function(name, args) =>
      (match EvalAll(s, [], args)
       case Err(x) => Err(x)
       case Ok(vs) => Lift(s.call(name, vs)))
    case Method(receiver, name, args) =>
      (match Eval(s, receiver)
       case Err(x) => Err(x)
       case Ok(v) => match EvalAll(s, [], args) case Err(x) => Err(x) case Ok(vs) => Lift(s.method_(v, name, vs)))
    case Property(receiver, name) =>
      (match Eval(s, receiver) case Err(x) => Err(x) case Ok(v) => Lift(s.property(v, name)))
    case Prefix(op, _, operand) => (match Eval(s, operand) case Err(x) => Err(x) case Ok(v) => ApplyUnary(s, op, v))
    case Binary(op, _, left, right) =>
      (match Eval(s, left)
       case Err(x) => Err(x)
       case Ok(v) => match Eval(s, right) case Err(x) => Err(x) case Ok(w) => Apply(s, op, v, w))
    case Conditional(test, yes, no) =>
      (match Eval(s, test)
       case Err(x) => Err(x)
       case Ok(c) =>
         match Eval(s, yes)
         case Err(x) => Err(x)
         case Ok(a) => match Eval(s, no) case Err(x) => Err(x) case Ok(b) => Ok(if s.truthy(c) then a else b))
  }

  function EvalAll<V, E>(s: Semantics<V, E>, vs: seq<V>, es: seq<Expr>): Result<seq<V>, Failure<E>>
    decreases es
  {
    if es == [] then Ok(vs)
    else match Eval(s, es[0]) case Err(x) => Err(x) case Ok(v) => EvalAll(s, vs + [v], es[1..])
  }

  // ---- the tokens of a tree ----

  function Dotted(name: string): Token {
    Token(Word, "." + name)
  }

  function Raw(e: Expr): (ts: seq<Token>)
    decreases e, 0
  {
    match e
    case Atom(t) => [t]
    case List(items) => [LEFT] + PrintAll(items) + [RIGHT]
    case Function(name, args) => [Token(Word, name), OPEN] + PrintAll(args) + [CLOSE]
    case Method(receiver, name, args) => Print(receiver, PRIMARY) + ([Dotted(name), OPEN] + PrintAll(args) + [CLOSE])
    case Property(receiver, name) => Print(receiver, PRIMARY) + [Dotted(name)]
    case Prefix(_, sign, operand) => [sign] + Print(operand, UNARY)
    case Binary(op, signs, left, right) => Print(left, LevelOf(op)) + (signs + Print(right, LevelOf(op) + 1))
    case Conditional(test, yes, no) => Print(test, OR) + ([ASK] + Print(yes, 0) + ([ELSE] + Print(no, 0)))
  }

  /** Parentheses only around what binds less tightly than the place it is in. */
  function Print(e: Expr, level: nat): seq<Token>
    decreases e, 1
  {
    if Precedence(e) < level then [OPEN] + Raw(e) + [CLOSE] else Raw(e)
  }

  function PrintAll(es: seq<Expr>): seq<Token> {
    if es == [] then [] else if |es| == 1 then Print(es[0], 0) else Print(es[0], 0) + [COMMA] + PrintAll(es[1..])
  }

  /** A word in any letter case. */
  predicate IsWord(t: Token, word: string) {
    t.kind == Word && Text.Spells(t.text, word)
  }

  /** A variable or function name: no method, and neither of the words that are operators where a value is expected. */
  predicate PlainName(t: Token) {
    t.kind == Word && !IsPostfix(t) && !IsWord(t, "not") && !IsWord(t, "empty")
  }

  predicate SignOf(op: UnaryOp, t: Token) {
    match op
    case Not => IsWord(t, "not") || t == Token(Operator, "!")
    case Empty => IsWord(t, "empty")
    case Negative => t == Token(Operator, "-")
    case Positive => t == Token(Operator, "+")
  }

  /** How a comparison is written. */
  predicate Compares(t: Token, operator: string) {
    || (operator == "==" && (t == Token(Operator, "==") || IsWord(t, "eq")))
    || (operator == "!=" && (t == Token(Operator, "!=") || IsWord(t, "ne") || IsWord(t, "neq")))
    || (operator == ">" && (t == Token(Operator, ">") || IsWord(t, "gt")))
    || (operator == ">=" && (t == Token(Operator, ">=") || IsWord(t, "gte") || IsWord(t, "ge")))
    || (operator == "<" && (t == Token(Operator, "<") || IsWord(t, "lt")))
    || (operator == "<=" && (t == Token(Operator, "<=") || IsWord(t, "lte") || IsWord(t, "le")))
  }

  /** How a binary operator is written. */
  predicate Spelled(op: BinaryOp, signs: seq<Token>) {
    && |signs| == (if op.NotIn? then 2 else 1)
    && match op
       case Or => signs[0] == Token(Operator, "||") || IsWord(signs[0], "or")
       case And => signs[0] == Token(Operator, "&&") || IsWord(signs[0], "and")
       case Compare(operator) => Compares(signs[0], operator)
       case In => IsWord(signs[0], "in")
       case NotIn => IsWord(signs[0], "not") && IsWord(signs[1], "in")
       case Add => signs[0] == Token(Operator, "+")
       case Subtract => signs[0] == Token(Operator, "-")
       case Multiply => signs[0] == Token(Operator, "*")
       case Divide => signs[0] == Token(Operator, "/")
       case Modulo => signs[0] == Token(Operator, "%")
  }

  /** Names are no reserved words, and operators are spelled as operators. */
  predicate WellFormed(e: Expr) {
    match e
    case Atom(t) => PlainName(t) || t.kind == String || t.kind == Number
    case List(items) => forall i <- items :: WellFormed(i)
    case Function(name, args) => PlainName(Token(Word, name)) && forall a <- args :: WellFormed(a)
    case Method(receiver, name, args) => WellFormed(receiver) && forall a <- args :: WellFormed(a)
    case Property(receiver, name) => WellFormed(receiver)
    case Prefix(op, sign, operand) => SignOf(op, sign) && WellFormed(operand)
    case Binary(op, signs, left, right) =>
      Spelled(op, signs) && WellFormed(left) && WellFormed(right)
    case Conditional(test, yes, no) => WellFormed(test) && WellFormed(yes) && WellFormed(no)
  }

  // ---- what the parser takes for an operator ----

  lemma WordIs(t: Token, word: string)
    requires forall i :: 0 <= i < |word| ==> !('A' <= word[i] <= 'Z')
    ensures IsWord(t, word) <==> IsKeyword(t, word)
    ensures IsWord(t, word) <==> t.kind == Word && Text.Lower(t.text) == word
  {
    Text.SpellsFolds(t.text, word);
  }

  lemma KeywordsAre(t: Token)
    ensures (IsWord(t, "or") <==> IsKeyword(t, "or")) && (IsWord(t, "and") <==> IsKeyword(t, "and"))
    ensures (IsWord(t, "in") <==> IsKeyword(t, "in")) && (IsWord(t, "not") <==> IsKeyword(t, "not"))
    ensures IsWord(t, "empty") <==> IsKeyword(t, "empty")
  {
    hide IsWord, IsKeyword;
    WordIs(t, "or");
    WordIs(t, "and");
    WordIs(t, "in");
    WordIs(t, "not");
    WordIs(t, "empty");
  }

  lemma ComparisonsAre(t: Token, operator: string)
    ensures ComparisonOf(t) == Some(operator) <==> Compares(t, operator)
  {
    hide IsWord, Text.Lower;
    WordIs(t, "eq");
    WordIs(t, "ne");
    WordIs(t, "neq");
    WordIs(t, "gt");
    WordIs(t, "gte");
    WordIs(t, "ge");
    WordIs(t, "lt");
    WordIs(t, "lte");
    WordIs(t, "le");
  }

  /** The words of the operators of one level differ. */
  lemma ComparisonIsNoWord(t: Token)
    ensures IsWord(t, "in") || IsWord(t, "not") ==> ComparisonOf(t).None?
    ensures !(IsWord(t, "in") && IsWord(t, "not"))
  {
    if IsWord(t, "in") { assert Text.Lower(t.text) == "in" by { WordIs(t, "in"); } }
    if IsWord(t, "not") { assert Text.Lower(t.text) == "not" by { WordIs(t, "not"); } }
  }

  lemma SlicedSigns(ts: seq<Token>, p: nat, n: nat)
    requires p + n <= |ts|
    ensures n > 0 ==> ts[p..p + n][0] == ts[p]
    ensures n > 1 ==> ts[p..p + n][1] == ts[p + 1]
  {
  }

  /** An operator is found at its own level, exactly where it is written. */
  lemma OperatorsAre(op: BinaryOp, level: nat, ts: seq<Token>, p: nat, n: nat)
    requires p + n <= |ts|
    ensures OperatorAt(level, ts, p) == Some((op, n)) <==> level == LevelOf(op) && Spelled(op, ts[p..p + n])
  {
    hide IsWord, IsKeyword, Compares, ComparisonOf;
    SlicedSigns(ts, p, n);
    if p < |ts| {
      KeywordsAre(ts[p]);
      ComparisonIsNoWord(ts[p]);
      if op.Compare? { ComparisonsAre(ts[p], op.operator); }
    }
    if p + 1 < |ts| { KeywordsAre(ts[p + 1]); }
  }

  lemma SpelledFound(op: BinaryOp, signs: seq<Token>)
    requires Spelled(op, signs)
    ensures OperatorAt(LevelOf(op), signs, 0) == Some((op, |signs|))
  {
    hide Spelled, OperatorAt;
    assert signs[0..0 + |signs|] == signs;
    OperatorsAre(op, LevelOf(op), signs, 0, |signs|);
  }

  // ---- tokens at a position ----

  predicate At(ts: seq<Token>, p: nat, xs: seq<Token>) {
    p + |xs| <= |ts| && ts[p..p + |xs|] == xs
  }

  lemma AtConcat(ts: seq<Token>, p: nat, a: seq<Token>, b: seq<Token>)
    ensures At(ts, p, a + b) <==> At(ts, p, a) && At(ts, p + |a|, b)
  {
    if At(ts, p, a + b) {
      var w := ts[p..p + |a + b|];
      assert ts[p..p + |a|] == w[..|a|] == a && ts[p + |a|..p + |a| + |b|] == w[|a|..] == b;
    }
    if At(ts, p, a) && At(ts, p + |a|, b) {
      assert ts[p..p + |a + b|] == ts[p..p + |a|] + ts[p + |a|..p + |a| + |b|];
    }
  }

  lemma AtFirst(ts: seq<Token>, p: nat, xs: seq<Token>)
    requires At(ts, p, xs) && xs != []
    ensures p < |ts| && ts[p] == xs[0] == Peek(ts, p)
  {
    assert ts[p..p + |xs|][0] == ts[p];
  }

  /** No value goes on with the token at a position. */
  predicate Ends(ts: seq<Token>, p: nat) {
    !IsPostfix(Peek(ts, p)) && Peek(ts, p).kind != LParen
  }

  /** Neither does an operator of a level follow, or of one that binds more tightly. */
  predicate Stops(level: nat, ts: seq<Token>, p: nat) {
    && Ends(ts, p)
    && (forall j | level <= j < UNARY :: OperatorAt(j, ts, p).None?)
    && (level == 0 ==> Peek(ts, p).kind != Question)
  }

  lemma Lowered()
    ensures Text.Lower("or") == "or" && Text.Lower("and") == "and" && Text.Lower("in") == "in"
    ensures Text.Lower("not") == "not" && Text.Lower("empty") == "empty"
  {
  }

  /** The level of an operator sign. */
  function SignLevel(text: string): nat {
    if |text| == 1 then
      if text[0] == '+' || text[0] == '-' then ADDITIVE
      else if text[0] == '*' || text[0] == '/' || text[0] == '%' then MULTIPLICATIVE
      else COMPARISON
    else if |text| == 2 then if text[0] == '|' then OR else if text[0] == '&' then AND else COMPARISON
    else 0
  }

  /** The level of a word in lower case, from its length and first letter. */
  function WordLevel(w: string): nat {
    if w == "" then 0 else if w[0] == 'o' then OR else if w[0] == 'a' then AND else COMPARISON
  }

  lemma SignsHaveLevels(i: nat, ts: seq<Token>, p: nat)
    requires OperatorAt(i, ts, p).Some? && ts[p].kind == Operator
    ensures SignLevel(ts[p].text) == i
  {
  }

  lemma WordsHaveLevels(i: nat, ts: seq<Token>, p: nat)
    requires OperatorAt(i, ts, p).Some? && ts[p].kind == Word
    ensures WordLevel(Text.Lower(ts[p].text)) == i
  {
    Lowered();
    hide Text.Lower;
  }

  lemma OperatorKinds(i: nat, ts: seq<Token>, p: nat)
    requires OperatorAt(i, ts, p).Some?
    ensures ts[p].kind == Operator || ts[p].kind == Word
  {
  }

  /** An operator is of one level only, and ends what is before it. */
  lemma OneLevel(i: nat, j: nat, ts: seq<Token>, p: nat)
    requires OperatorAt(i, ts, p).Some? && OperatorAt(j, ts, p).Some?
    ensures i == j
  {
    hide OperatorAt, SignLevel, WordLevel;
    OperatorKinds(i, ts, p);
    if ts[p].kind == Operator {
      SignsHaveLevels(i, ts, p);
      SignsHaveLevels(j, ts, p);
    } else {
      WordsHaveLevels(i, ts, p);
      WordsHaveLevels(j, ts, p);
    }
  }

  lemma OperatorEnds(i: nat, ts: seq<Token>, p: nat)
    requires OperatorAt(i, ts, p).Some?
    ensures Ends(ts, p) && Peek(ts, p).kind != Question
  {
    Lowered();
    var t := Peek(ts, p);
    assert t.text != "" ==> (t.text[0] == '.' <==> Text.Lower(t.text)[0] == '.');
    hide Text.Lower;
  }

  /** An operator stops every level that binds more tightly. */
  lemma OperatorStops(i: nat, ts: seq<Token>, p: nat)
    requires OperatorAt(i, ts, p).Some?
    ensures Stops(i + 1, ts, p)
  {
    hide OperatorAt, Ends;
    OperatorEnds(i, ts, p);
    forall j | i + 1 <= j < UNARY
      ensures OperatorAt(j, ts, p).None?
    {
      if OperatorAt(j, ts, p).Some? { OneLevel(i, j, ts, p); assert false; }
    }
  }

  predicate IsPunctuation(t: Token) {
    t.kind != Word && t.kind != Operator && t.kind != LParen
  }

  /** Closing tokens, commas and colons stop everything; a question mark stops all but a conditional. */
  lemma PunctuationStops(level: nat, ts: seq<Token>, p: nat)
    requires IsPunctuation(Peek(ts, p)) && (level == 0 ==> Peek(ts, p).kind != Question)
    ensures Stops(level, ts, p)
  {
  }

  lemma StopsHigher(i: nat, j: nat, ts: seq<Token>, p: nat)
    requires Stops(i, ts, p) && i <= j
    ensures Stops(j, ts, p)
  {
    hide OperatorAt, Ends;
  }

  /** A spelled operator is found where its tokens stand. */
  lemma OperatorFound(level: nat, signs: seq<Token>, ts: seq<Token>, p: nat)
    requires OperatorAt(level, signs, 0).Some? && OperatorAt(level, signs, 0).value.1 == |signs| && At(ts, p, signs)
    ensures OperatorAt(level, ts, p) == OperatorAt(level, signs, 0)
  {
    AtFirst(ts, p, signs);
    Lowered();
    if |signs| == 2 {
      assert ts[p..p + |signs|][1] == ts[p + 1];
    }
    hide Text.Lower;
  }

  // ---- how the tokens of a tree begin ----

  /** The first token of what is printed where a value is expected. */
  predicate PlainStart(t: Token) {
    t.kind == String || t.kind == Number || t.kind == LParen || t.kind == LBrace || PlainName(t)
  }

  lemma {:induction false} PrimaryStarts(e: Expr)
    requires WellFormed(e)
    ensures Print(e, PRIMARY) != [] && PlainStart(Print(e, PRIMARY)[0])
  {
    hide PlainName;
    match e
    case Method(receiver, _, _) => PrimaryStarts(receiver);
    case Property(receiver, _) => PrimaryStarts(receiver);
    case _ =>
  }

  lemma {:induction false} PrintStarts(e: Expr, level: nat)
    requires WellFormed(e)
    ensures Print(e, level) != [] && StartsValue(Print(e, level)[0])
    decreases e
  {
    hide PlainStart;
    if Precedence(e) == PRIMARY {
      PrimaryStarts(e);
      PlainStarts(Print(e, PRIMARY)[0]);
    } else if Precedence(e) >= level {
      match e
      case Prefix(op, sign, operand) =>
      case Binary(op, signs, left, right) => PrintStarts(left, LevelOf(op));
      case Conditional(test, yes, no) => PrintStarts(test, OR);
    }
  }

  lemma PlainStarts(t: Token)
    requires PlainStart(t)
    ensures StartsValue(t)
  {
  }

  lemma PlainNoSign(ts: seq<Token>, p: nat)
    requires p < |ts| && PlainStart(ts[p])
    ensures UnaryAt(ts, p).None?
  {
  }

  /** A sign is found before an operand. */
  lemma SignFound(op: UnaryOp, ts: seq<Token>, p: nat)
    requires p + 1 < |ts| && SignOf(op, ts[p]) && StartsValue(ts[p + 1])
    ensures UnaryAt(ts, p) == Some(op)
  {
    Lowered();
    hide Text.Lower;
  }

  // ---- reading a printed tree ----

  /** The value of a tree, read up to a position. */
  function Reads<V, E>(s: Semantics<V, E>, e: Expr, q: nat): Parsed<V, E> {
    match Eval(s, e) case Err(x) => Err(x) case Ok(v) => Ok((v, q))
  }

  /** The value of a tree, and the further operators of a level after it. */
  function ReadsThenRest<V, E>(s: Semantics<V, E>, e: Expr, level: nat, ts: seq<Token>, q: nat): Parsed<V, E>
    requires OR <= level < UNARY && q <= |ts|
  {
    match Eval(s, e) case Err(x) => Err(x) case Ok(v) => Rest(s, level, v, ts, q)
  }

  function ReadsThenPostfix<V, E>(s: Semantics<V, E>, e: Expr, ts: seq<Token>, q: nat): Parsed<V, E>
    requires q <= |ts|
  {
    match Eval(s, e) case Err(x) => Err(x) case Ok(v) => Postfix(s, v, ts, q)
  }

  function Wrapped(e: Expr, level: nat): nat {
    if Precedence(e) < level then 1 else 0
  }

  lemma {:induction false} ReadTernary<V, E>(s: Semantics<V, E>, e: Expr, ts: seq<Token>, p: nat)
    requires WellFormed(e) && At(ts, p, Print(e, 0)) && Stops(0, ts, p + |Print(e, 0)|)
    ensures Ternary(s, ts, p) == Reads(s, e, p + |Print(e, 0)|)
    decreases e, 0, 9, 0
  {
    hide At, Stops, Ternary, Print, Reads, WellFormed;
    if e.Conditional? {
      ReadConditional(s, e, ts, p);
    } else {
      var q := p + |Print(e, 0)|;
      PrintSame(e, 0, OR);
      StopsHigher(0, OR, ts, q);
      ReadLevel(s, e, OR, ts, p);
      AtInside(ts, p, Print(e, 0));
      NotConditional(s, e, ts, p, q);
    }
  }

  lemma NotConditional<V, E>(s: Semantics<V, E>, e: Expr, ts: seq<Token>, p: nat, q: nat)
    requires p <= |ts| && Level(s, OR, ts, p) == Reads(s, e, q) && Stops(0, ts, q)
    ensures Ternary(s, ts, p) == Reads(s, e, q)
  {
    hide Level, Eval, Ternary, OperatorAt, Ends;
    TernaryUnfold(s, ts, p);
  }

  lemma {:induction false} ReadConditional<V, E>(s: Semantics<V, E>, e: Expr, ts: seq<Token>, p: nat)
    requires WellFormed(e) && e.Conditional? && At(ts, p, Print(e, 0)) && Stops(0, ts, p + |Print(e, 0)|)
    ensures Ternary(s, ts, p) == Reads(s, e, p + |Print(e, 0)|)
    decreases e, 0, 8, 5
  {
    hide Level, At, Stops, Ternary, Print, Reads;
    var i := p + |Print(e.test, OR)|;
    var j := i + 1 + |Print(e.yes, 0)|;
    ConditionalTokens(e, ts, p);
    ReadLevel(s, e.test, OR, ts, p);
    ReadTernary(s, e.yes, ts, i + 1);
    ReadTernary(s, e.no, ts, j + 1);
    AtInside(ts, p, Print(e.test, OR));
    ConditionalStep(s, e, ts, p, i, j, p + |Print(e, 0)|);
  }

  /** A tree is printed the same way at two levels when it is bracketed at both or at neither. */
  lemma PrintSame(e: Expr, i: nat, j: nat)
    requires Precedence(e) < i <==> Precedence(e) < j
    ensures Print(e, i) == Print(e, j)
  {
    hide Raw;
  }

  lemma EvalConditional<V, E>(s: Semantics<V, E>, e: Expr)
    requires e.Conditional?
    ensures Eval(s, e) ==
      match Eval(s, e.test)
      case Err(x) => Err(x)
      case Ok(c) =>
        match Eval(s, e.yes)
        case Err(x) => Err(x)
        case Ok(a) => match Eval(s, e.no) case Err(x) => Err(x) case Ok(b) => Ok(if s.truthy(c) then a else b)
  {
  }

  /** The three parts of a conditional, read one after another. */
  lemma ConditionalStep<V, E>(s: Semantics<V, E>, e: Expr, ts: seq<Token>, p: nat, i: nat, j: nat, q: nat)
    requires e.Conditional? && p <= |ts| && i < |ts| && j < |ts|
    requires Peek(ts, i) == ASK && Peek(ts, j) == ELSE
    requires Level(s, OR, ts, p) == Reads(s, e.test, i)
    requires Ternary(s, ts, i + 1) == Reads(s, e.yes, j) && Ternary(s, ts, j + 1) == Reads(s, e.no, q)
    ensures Ternary(s, ts, p) == Reads(s, e, q)
  {
    hide Level, Ternary, Eval;
    TernaryUnfold(s, ts, p);
    EvalConditional(s, e);
  }

  lemma TernaryUnfold<V, E>(s: Semantics<V, E>, ts: seq<Token>, p: nat)
    requires p <= |ts|
    ensures Ternary(s, ts, p) ==
      match Level(s, OR, ts, p)
      case Err(e) => Err(e)
      case Ok((c, q)) =>
        if Peek(ts, q).kind != Question then Ok((c, q))
        else
          match Ternary(s, ts, q + 1)
          case Err(e) => Err(e)
          case Ok((a, u)) =>
            if Peek(ts, u).kind != Colon then Err(MissingColon)
            else
              match Ternary(s, ts, u + 1)
              case Err(e) => Err(e)
              case Ok((b, w)) => Ok((if s.truthy(c) then a else b, w))
  {
    hide Level;
  }

  lemma ConditionalTokens(e: Expr, ts: seq<Token>, p: nat)
    requires e.Conditional? && At(ts, p, Print(e, 0))
    ensures var a, b, c := Print(e.test, OR), Print(e.yes, 0), Print(e.no, 0); var i := p + |a|; var j := i + 1 + |b|;
            && At(ts, p, a) && Peek(ts, i) == ASK && Stops(OR, ts, i) && i < |ts| && j < |ts|
            && At(ts, i + 1, b) && Peek(ts, j) == ELSE && Stops(0, ts, j)
            && At(ts, j + 1, c) && |Print(e, 0)| == |a| + 1 + |b| + 1 + |c|
  {
    hide At, Stops, OperatorAt;
    var a, b, c := Print(e.test, OR), Print(e.yes, 0), Print(e.no, 0);
    var i := p + |a|;
    var j := i + 1 + |b|;
    AtConcat(ts, p, a, [ASK] + b + ([ELSE] + c));
    AtConcat(ts, i, [ASK] + b, [ELSE] + c);
    AtConcat(ts, i, [ASK], b);
    AtConcat(ts, j, [ELSE], c);
    AtFirst(ts, i, [ASK]);
    AtFirst(ts, j, [ELSE]);
    PunctuationStops(OR, ts, i);
    PunctuationStops(0, ts, j);
  }

  lemma {:induction false} ReadLevel<V, E>(s: Semantics<V, E>, e: Expr, level: nat, ts: seq<Token>, p: nat)
    requires WellFormed(e) && OR <= level <= UNARY && At(ts, p, Print(e, level))
             && Stops(level, ts, p + |Print(e, level)|)
    ensures Level(s, level, ts, p) == Reads(s, e, p + |Print(e, level)|)
    decreases e, Wrapped(e, level), 9 - level, 2
  {
    hide OperatorAt, At, Primary, Postfix, PlainStart, Spelled, IsWord;
    var q := p + |Print(e, level)|;
    if level < UNARY {
      hide Level, Stops, Print, WellFormed, Eval;
      AtInside(ts, p, Print(e, level));
      StopsHigher(level, level + 1, ts, q);
      ReadRest(s, e, level, ts, p);
      NoRest(s, e, level, ts, q);
    } else if e.Prefix? {
      ReadPrefix(s, e, ts, p);
    } else {
      AtInside(ts, p, Print(e, level));
      PrimaryStarts(e);
      AtFirst(ts, p, Print(e, PRIMARY));
      PlainNoSign(ts, p);
      ReadPrimary(s, e, ts, p);
      NoPostfix(s, e, ts, q);
    }
  }

  lemma {:induction false} ReadPrefix<V, E>(s: Semantics<V, E>, e: Expr, ts: seq<Token>, p: nat)
    requires WellFormed(e) && e.Prefix? && At(ts, p, Print(e, UNARY)) && Stops(UNARY, ts, p + |Print(e, UNARY)|)
    ensures Level(s, UNARY, ts, p) == Reads(s, e, p + |Print(e, UNARY)|)
    decreases e, Wrapped(e, UNARY), 9 - UNARY, 1
  {
    hide OperatorAt, At, Primary, Postfix, PlainStart, Spelled, IsWord;
    var sign, xs := e.sign, Print(e.operand, UNARY);
    AtConcat(ts, p, [sign], xs);
    AtFirst(ts, p, [sign]);
    PrintStarts(e.operand, UNARY);
    AtFirst(ts, p + 1, xs);
    SignFound(e.op, ts, p);
    ReadLevel(s, e.operand, UNARY, ts, p + 1);
  }

  lemma NoPostfix<V, E>(s: Semantics<V, E>, e: Expr, ts: seq<Token>, q: nat)
    requires q <= |ts| && Ends(ts, q)
    ensures ReadsThenPostfix(s, e, ts, q) == Reads(s, e, q)
  {
    hide Eval;
  }

  lemma NoRest<V, E>(s: Semantics<V, E>, e: Expr, level: nat, ts: seq<Token>, q: nat)
    requires q <= |ts| && OR <= level < UNARY && Stops(level, ts, q)
    ensures ReadsThenRest(s, e, level, ts, q) == Reads(s, e, q)
  {
    hide Eval, OperatorAt;
  }

  lemma {:induction false} ReadRest<V, E>(s: Semantics<V, E>, e: Expr, level: nat, ts: seq<Token>, p: nat)
    requires WellFormed(e) && OR <= level < UNARY && At(ts, p, Print(e, level))
             && Stops(level + 1, ts, p + |Print(e, level)|)
    ensures Level(s, level, ts, p) == ReadsThenRest(s, e, level, ts, p + |Print(e, level)|)
    decreases e, Wrapped(e, level), 9 - level, 1
  {
    hide At, Stops, Level, Print, ReadsThenRest, WellFormed;
    AtInside(ts, p, Print(e, level));
    if e.Binary? && LevelOf(e.binary) == level {
      ReadBinary(s, e, level, ts, p);
    } else {
      PrintSame(e, level, level + 1);
      ReadLevel(s, e, level + 1, ts, p);
      LevelUnfold(s, e, level, ts, p, p + |Print(e, level)|);
    }
  }

  lemma LevelUnfold<V, E>(s: Semantics<V, E>, e: Expr, level: nat, ts: seq<Token>, p: nat, q: nat)
    requires OR <= level < UNARY && p <= |ts| && q <= |ts| && Level(s, level + 1, ts, p) == Reads(s, e, q)
    ensures Level(s, level, ts, p) == ReadsThenRest(s, e, level, ts, q)
  {
    hide Eval, Rest;
  }

  lemma {:induction false} ReadBinary<V, E>(s: Semantics<V, E>, e: Expr, level: nat, ts: seq<Token>, p: nat)
    requires WellFormed(e) && e.Binary? && level == LevelOf(e.binary) && At(ts, p, Print(e, level))
    requires Stops(level + 1, ts, p + |Print(e, level)|) && p + |Print(e, level)| <= |ts|
    ensures OR <= level < UNARY && Level(s, level, ts, p) == ReadsThenRest(s, e, level, ts, p + |Print(e, level)|)
    decreases e, 0, 9 - level, 0
  {
    hide OperatorAt, At, Stops, Level, Print, WellFormed, ReadsThenRest, Reads, LevelOf, Wrapped;
    BinaryTokens(e, level, ts, p);
    var i := p + |Print(e.left, level)|;
    AtInside(ts, p, Print(e.left, level));
    ReadRest(s, e.left, level, ts, p);
    ReadLevel(s, e.right, level + 1, ts, i + |e.signs|);
    RestStep(s, e, level, ts, i, p + |Print(e, level)|);
  }

  lemma PrintRaw(e: Expr)
    ensures Print(e, Precedence(e)) == Raw(e)
  {
    hide Raw;
  }

  lemma BinaryTokens(e: Expr, k: nat, ts: seq<Token>, p: nat)
    requires e.Binary? && WellFormed(e) && k == LevelOf(e.binary) && At(ts, p, Print(e, k))
    ensures var i := p + |Print(e.left, k)|;
            && OR <= k < UNARY && WellFormed(e.left) && WellFormed(e.right)
            && At(ts, p, Print(e.left, k)) && Stops(k + 1, ts, i)
            && OperatorAt(k, ts, i) == Some((e.binary, |e.signs|))
            && At(ts, i + |e.signs|, Print(e.right, k + 1))
            && |Print(e, k)| == |Print(e.left, k)| + |e.signs| + |Print(e.right, k + 1)|
  {
    hide At, Stops, OperatorAt, Spelled;
    var a, c := Print(e.left, k), Print(e.right, k + 1);
    var i := p + |a|;
    PrintRaw(e);
    AtConcat(ts, p, a, e.signs + c);
    AtConcat(ts, i, e.signs, c);
    SpelledFound(e.binary, e.signs);
    OperatorFound(k, e.signs, ts, i);
    OperatorStops(k, ts, i);
  }

  /** One turn of the loop over the operators of a level. */
  lemma RestStep<V, E>(s: Semantics<V, E>, e: Expr, k: nat, ts: seq<Token>, i: nat, q: nat)
    requires e.Binary? && OR <= k < UNARY && i <= |ts| && q <= |ts|
    requires OperatorAt(k, ts, i) == Some((e.binary, |e.signs|))
    requires Level(s, k + 1, ts, i + |e.signs|) == Reads(s, e.right, q)
    ensures ReadsThenRest(s, e.left, k, ts, i) == ReadsThenRest(s, e, k, ts, q)
  {
    EvalBinary(s, e);
    hide Level, OperatorAt, Apply, Eval, Print;
  }

  lemma EvalBinary<V, E>(s: Semantics<V, E>, e: Expr)
    requires e.Binary?
    ensures var l, r := Eval(s, e.left), Eval(s, e.right);
            Eval(s, e) == if l.Err? then l else if r.Err? then r else Apply(s, e.binary, l.value, r.value)
  {
    hide Apply;
  }

  lemma {:induction false} ReadPrimary<V, E>(s: Semantics<V, E>, e: Expr, ts: seq<Token>, p: nat)
    requires WellFormed(e) && At(ts, p, Print(e, PRIMARY)) && Peek(ts, p + |Print(e, PRIMARY)|).kind != LParen
    ensures Primary(s, ts, p) == ReadsThenPostfix(s, e, ts, p + |Print(e, PRIMARY)|)
    decreases e, Wrapped(e, PRIMARY), 2, 0
  {
    hide At, Primary, ReadsThenPostfix;
    if Precedence(e) < PRIMARY {
      ReadParenthesis(s, e, ts, p);
    } else if e.Atom? {
      ReadAtom(s, e, ts, p);
    } else if e.List? || e.Function? {
      ReadListing(s, e, ts, p);
    } else if e.Method? {
      ReadMethod(s, e, ts, p);
    } else {
      ReadProperty(s, e, ts, p);
    }
  }

  lemma {:induction false} ReadParenthesis<V, E>(s: Semantics<V, E>, e: Expr, ts: seq<Token>, p: nat)
    requires WellFormed(e) && At(ts, p, Print(e, PRIMARY)) && Precedence(e) < PRIMARY
    ensures Primary(s, ts, p) == ReadsThenPostfix(s, e, ts, p + |Print(e, PRIMARY)|)
    decreases e, Wrapped(e, PRIMARY), 1, 0
  {
    hide At, Stops, Ternary, Eval, Postfix, Print, Primary, WellFormed;
    ParenthesisTokens(e, ts, p);
    ReadTernary(s, e, ts, p + 1);
    PrimaryParenthesis(s, ts, p);
  }

  lemma PrimaryParenthesis<V, E>(s: Semantics<V, E>, ts: seq<Token>, p: nat)
    requires Peek(ts, p).kind == LParen
    ensures Primary(s, ts, p) ==
      match Ternary(s, ts, p + 1)
      case Err(e) => Err(e)
      case Ok((v, q)) => if Peek(ts, q).kind != RParen then Err(MissingParenthesis) else Postfix(s, v, ts, q + 1)
  {
    hide Ternary, Postfix;
  }

  lemma {:induction false} ReadListing<V, E>(s: Semantics<V, E>, e: Expr, ts: seq<Token>, p: nat)
    requires WellFormed(e) && At(ts, p, Print(e, PRIMARY)) && (e.List? || e.Function?)
    ensures Primary(s, ts, p) == ReadsThenPostfix(s, e, ts, p + |Print(e, PRIMARY)|)
    decreases e, Wrapped(e, PRIMARY), 1, 0
  {
    hide At, Items, EvalAll, Postfix;
    match e
    case List(items) => {
      ListTokens([LEFT], items, RIGHT, ts, p);
      ReadItems(s, items, RIGHT, ts, p + 1);
    }
    case Function(name, args) => {
      ListTokens([Token(Word, name), OPEN], args, CLOSE, ts, p);
      ReadItems(s, args, CLOSE, ts, p + 2);
    }
  }

  lemma {:induction false} ReadMethod<V, E>(s: Semantics<V, E>, e: Expr, ts: seq<Token>, p: nat)
    requires WellFormed(e) && At(ts, p, Print(e, PRIMARY)) && e.Method?
    ensures Primary(s, ts, p) == ReadsThenPostfix(s, e, ts, p + |Print(e, PRIMARY)|)
    decreases e, Wrapped(e, PRIMARY), 1, 0
  {
    hide At, Items, Primary, ReadsThenPostfix, Print;
    MethodTokens(e, ts, p);
    var i := p + |Print(e.receiver, PRIMARY)|;
    ReadPrimary(s, e.receiver, ts, p);
    ReadItems(s, e.args, CLOSE, ts, i + 2);
    MethodStep(s, e, ts, i, p + |Print(e, PRIMARY)|);
  }

  lemma MethodTokens(e: Expr, ts: seq<Token>, p: nat)
    requires e.Method? && At(ts, p, Print(e, PRIMARY))
    ensures var a := Print(e.receiver, PRIMARY); var i := p + |a|;
            && At(ts, p, a) && Peek(ts, i) == Dotted(e.name) && Peek(ts, i + 1) == OPEN && i + 2 <= |ts|
            && At(ts, i + 2, PrintAll(e.args) + [CLOSE])
            && p + |Print(e, PRIMARY)| == i + 2 + |PrintAll(e.args)| + 1 <= |ts|
  {
    hide At;
    var a := Print(e.receiver, PRIMARY);
    AtInside(ts, p, Print(e, PRIMARY));
    AtConcat(ts, p, a, [Dotted(e.name), OPEN] + PrintAll(e.args) + [CLOSE]);
    ListTokens([Dotted(e.name), OPEN], e.args, CLOSE, ts, p + |a|);
  }

  lemma {:induction false} ReadProperty<V, E>(s: Semantics<V, E>, e: Expr, ts: seq<Token>, p: nat)
    requires WellFormed(e) && At(ts, p, Print(e, PRIMARY)) && Peek(ts, p + |Print(e, PRIMARY)|).kind != LParen
    requires e.Property?
    ensures Primary(s, ts, p) == ReadsThenPostfix(s, e, ts, p + |Print(e, PRIMARY)|)
    decreases e, Wrapped(e, PRIMARY), 1, 0
  {
    hide At, Items, Primary, ReadsThenPostfix;
    var a := Print(e.receiver, PRIMARY);
    var i := p + |a|;
    AtConcat(ts, p, a, [Dotted(e.name)]);
    AtFirst(ts, i, [Dotted(e.name)]);
    ReadPrimary(s, e.receiver, ts, p);
    PropertyStep(s, e, ts, i);
  }

  lemma ReadAtom<V, E>(s: Semantics<V, E>, e: Expr, ts: seq<Token>, p: nat)
    requires e.Atom? && WellFormed(e) && At(ts, p, [e.token]) && Peek(ts, p + 1).kind != LParen
    ensures Primary(s, ts, p) == ReadsThenPostfix(s, e, ts, p + 1)
  {
    hide At, Postfix;
    AtFirst(ts, p, [e.token]);
  }

  lemma ParenthesisTokens(e: Expr, ts: seq<Token>, p: nat)
    requires Precedence(e) < PRIMARY && At(ts, p, Print(e, PRIMARY))
    ensures var q := p + 1 + |Print(e, 0)|;
            && Peek(ts, p) == OPEN && At(ts, p + 1, Print(e, 0)) && Peek(ts, q) == CLOSE && Stops(0, ts, q)
            && |Print(e, PRIMARY)| == |Print(e, 0)| + 2
  {
    hide At, Stops;
    var xs := Raw(e);
    AtConcat(ts, p, [OPEN] + xs, [CLOSE]);
    AtConcat(ts, p, [OPEN], xs);
    AtFirst(ts, p, [OPEN]);
    AtFirst(ts, p + 1 + |xs|, [CLOSE]);
    PunctuationStops(0, ts, p + 1 + |xs|);
  }

  /** Opening tokens, items and a closing token. */
  lemma ListTokens(open: seq<Token>, es: seq<Expr>, close: Token, ts: seq<Token>, p: nat)
    requires open != [] && |open| <= 2 && At(ts, p, open + PrintAll(es) + [close])
    ensures Peek(ts, p) == open[0] && (|open| == 2 ==> Peek(ts, p + 1) == open[1])
    ensures p + |open| <= |ts| && At(ts, p + |open|, PrintAll(es) + [close])
  {
    hide At, PrintAll;
    var xs := PrintAll(es) + [close];
    assert open + PrintAll(es) + [close] == open + xs;
    AtConcat(ts, p, open, xs);
    AtFirst(ts, p, open);
    if |open| == 2 {
      assert open == [open[0]] + [open[1]];
      AtConcat(ts, p, [open[0]], [open[1]]);
      AtFirst(ts, p + 1, [open[1]]);
    }
    AtInside(ts, p, open);
  }

  lemma AtInside(ts: seq<Token>, p: nat, xs: seq<Token>)
    requires At(ts, p, xs)
    ensures p + |xs| <= |ts|
  {
  }

  function ReadsAll<V, E>(s: Semantics<V, E>, vs: seq<V>, es: seq<Expr>, q: nat): Result<(seq<V>, nat), Failure<E>> {
    match EvalAll(s, vs, es) case Err(x) => Err(x) case Ok(all) => Ok((all, q))
  }

  lemma MethodStep<V, E>(s: Semantics<V, E>, e: Expr, ts: seq<Token>, i: nat, q: nat)
    requires e.Method? && i <= |ts| && q <= |ts| && i + 2 <= |ts|
    requires Peek(ts, i) == Dotted(e.name) && Peek(ts, i + 1) == OPEN
    requires Items(s, RParen, ts, i + 2) == ReadsAll(s, [], e.args, q)
    ensures ReadsThenPostfix(s, e.receiver, ts, i) == ReadsThenPostfix(s, e, ts, q)
  {
    hide Items, EvalAll;
    assert Dotted(e.name).text[1..] == e.name;
  }

  lemma PropertyStep<V, E>(s: Semantics<V, E>, e: Expr, ts: seq<Token>, i: nat)
    requires e.Property? && i < |ts| && Peek(ts, i) == Dotted(e.name) && Peek(ts, i + 1).kind != LParen
    ensures ReadsThenPostfix(s, e.receiver, ts, i) == ReadsThenPostfix(s, e, ts, i + 1)
  {
    assert Dotted(e.name).text[1..] == e.name;
  }

  lemma {:induction false} ReadItems<V, E>(s: Semantics<V, E>, es: seq<Expr>, close: Token, ts: seq<Token>, p: nat)
    requires (close == CLOSE || close == RIGHT) && p <= |ts| && At(ts, p, PrintAll(es) + [close])
    requires forall e <- es :: WellFormed(e)
    ensures Items(s, close.kind, ts, p) == ReadsAll(s, [], es, p + |PrintAll(es)| + 1)
    decreases es, 0, 1, 0
  {
    hide At, Stops, Ternary, More;
    if es == [] {
      assert PrintAll(es) + [close] == [close];
      AtFirst(ts, p, [close]);
    } else {
      AtFirst(ts, p, PrintAll(es) + [close]);
      PrintStarts(es[0], 0);
      ReadMore(s, es, close, [], ts, p);
    }
  }

  lemma {:induction false} ReadMore<V, E>(s: Semantics<V, E>, es: seq<Expr>, close: Token, vs: seq<V>, ts: seq<Token>,
                                          p: nat)
    requires (close == CLOSE || close == RIGHT) && p <= |ts| && es != [] && At(ts, p, PrintAll(es) + [close])
    requires forall e <- es :: WellFormed(e)
    ensures More(s, close.kind, vs, ts, p) == ReadsAll(s, vs, es, p + |PrintAll(es)| + 1)
    decreases es, 0, 0, 0
  {
    hide At, Stops, Ternary, Eval, EvalAll, More, Print, PrintAll;
    var i := p + |Print(es[0], 0)|;
    FirstItemTokens(es, close, ts, p);
    ReadTernary(s, es[0], ts, p);
    if |es| > 1 {
      var first := Eval(s, es[0]);
      if first.Ok? { ReadMore(s, es[1..], close, vs + [first.value], ts, i + 1); }
      MoreStep(s, es, close, vs, ts, p, i, i + 1 + |PrintAll(es[1..])| + 1);
    } else {
      LastStep(s, es, close, vs, ts, p, i);
    }
  }

  /** The last value of a list. */
  lemma LastStep<V, E>(s: Semantics<V, E>, es: seq<Expr>, close: Token, vs: seq<V>, ts: seq<Token>, p: nat, i: nat)
    requires (close == CLOSE || close == RIGHT) && |es| == 1 && p <= |ts| && Peek(ts, i) == close
    requires Ternary(s, ts, p) == Reads(s, es[0], i)
    ensures More(s, close.kind, vs, ts, p) == ReadsAll(s, vs, es, i + 1)
  {
    hide Ternary, Eval;
    assert es[1..] == [];
    if Eval(s, es[0]).Ok? {
      var all := vs + [Eval(s, es[0]).value];
      assert EvalAll(s, all, es[1..]) == Ok(all);
    }
  }

  /** A value and a comma. */
  lemma MoreStep<V, E>(s: Semantics<V, E>, es: seq<Expr>, close: Token, vs: seq<V>, ts: seq<Token>, p: nat, i: nat,
                       q: nat)
    requires (close == CLOSE || close == RIGHT) && |es| > 1 && p <= |ts| && i < |ts| && Peek(ts, i) == COMMA
    requires Ternary(s, ts, p) == Reads(s, es[0], i)
    requires Eval(s, es[0]).Ok? ==>
               More(s, close.kind, vs + [Eval(s, es[0]).value], ts, i + 1)
                 == ReadsAll(s, vs + [Eval(s, es[0]).value], es[1..], q)
    ensures More(s, close.kind, vs, ts, p) == ReadsAll(s, vs, es, q)
  {
    hide Ternary, Eval;
  }

  lemma FirstItemTokens(es: seq<Expr>, close: Token, ts: seq<Token>, p: nat)
    requires (close == CLOSE || close == RIGHT) && es != [] && At(ts, p, PrintAll(es) + [close])
    ensures var xs := Print(es[0], 0); var i := p + |xs|;
            && At(ts, p, xs) && Stops(0, ts, i) && i < |ts|
            && if |es| == 1 then Peek(ts, i) == close && PrintAll(es) == xs
               else
                 && Peek(ts, i) == COMMA
                 && At(ts, i + 1, PrintAll(es[1..]) + [close])
                 && |PrintAll(es)| == |xs| + 1 + |PrintAll(es[1..])|
  {
    hide At, Stops, Print, PrintAll;
    var xs := Print(es[0], 0);
    var i := p + |xs|;
    PrintAllUnfold(es);
    if |es| == 1 {
      AtConcat(ts, p, xs, [close]);
      AtFirst(ts, i, [close]);
    } else {
      var more := PrintAll(es[1..]);
      assert PrintAll(es) + [close] == xs + ([COMMA] + (more + [close]));
      AtConcat(ts, p, xs, [COMMA] + (more + [close]));
      AtConcat(ts, i, [COMMA], more + [close]);
      AtFirst(ts, i, [COMMA]);
    }
    PunctuationStops(0, ts, i);
  }

  lemma PrintAllUnfold(es: seq<Expr>)
    requires es != []
    ensures PrintAll(es) == if |es| == 1 then Print(es[0], 0) else Print(es[0], 0) + [COMMA] + PrintAll(es[1..])
  {
    hide Print;
  }

  /**
   The tokens of a tree, and the end: the parser consumes them all and gives the strict value or error of the tree.
   */
  lemma PrintedTreeEvaluates<V, E>(s: Semantics<V, E>, e: Expr)
    requires WellFormed(e)
    ensures Evaluate(s, Print(e, 0) + [END]) == Eval(s, e)
  {
    hide Ternary, At, Stops, Print, Eval;
    var ts := Print(e, 0) + [END];
    AtConcat(ts, 0, Print(e, 0), [END]);
    AtAll(ts);
    AtFirst(ts, |Print(e, 0)|, [END]);
    PunctuationStops(0, ts, |Print(e, 0)|);
    ReadTernary(s, e, ts, 0);
  }

  lemma AtAll(ts: seq<Token>)
    ensures At(ts, 0, ts)
  {
    assert ts[0..|ts|] == ts;
  }
}
