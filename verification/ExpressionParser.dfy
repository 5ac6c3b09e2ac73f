/**
 The parser and the scanner of expression.go as they move their position, proved against the functions of the tokens.
 */
module ExpressionParser {
  import opened Prelude
  import opened Expression

  /** What a parsing method returns and where it stops, as a function of the tokens says. */
  ghost predicate Outcome<V, E>(parsed: Parsed<V, E>, r: Result<V, Failure<E>>, pos: nat) {
    match parsed case Err(e) => r == Err(e) case Ok((v, q)) => r == Ok(v) && pos == q
  }

  ghost predicate ListOutcome<V, E>(parsed: Result<(seq<V>, nat), Failure<E>>, r: Result<seq<V>, Failure<E>>, pos: nat)
    {
    match parsed case Err(e) => r == Err(e) case Ok((vs, q)) => r == Ok(vs) && pos == q
  }

  lemma LevelIs<V, E>(s: Semantics<V, E>, level: nat, ts: seq<Token>, p: nat)
    requires OR <= level < UNARY && p <= |ts|
    ensures match Level(s, level + 1, ts, p)
            case Err(e) => Level(s, level, ts, p) == Err(e)
            case Ok((v, q)) => Level(s, level, ts, p) == Rest(s, level, v, ts, q)
  {
    hide Rest;
  }

  lemma RestIs<V, E>(s: Semantics<V, E>, level: nat, v: V, ts: seq<Token>, p: nat)
    requires OR <= level < UNARY && p <= |ts|
    ensures var op := OperatorAt(level, ts, p);
            if op.None? then Rest(s, level, v, ts, p) == Ok((v, p))
            else
              var right := Level(s, level + 1, ts, p + op.value.1);
              if right.Err? then Rest(s, level, v, ts, p) == right
              else
                var x := Apply(s, op.value.0, v, right.value.0);
                if x.Err? then Rest(s, level, v, ts, p) == Err(x.error)
                else Rest(s, level, v, ts, p) == Rest(s, level, x.value, ts, right.value.1)
  {
    hide Level, Apply, OperatorAt;
  }

  lemma UnaryIs<V, E>(s: Semantics<V, E>, ts: seq<Token>, p: nat)
    requires p <= |ts|
    ensures Level(s, UNARY, ts, p) == Unary(s, ts, p)
  {
    hide Unary;
  }

  lemma TernaryIs<V, E>(s: Semantics<V, E>, ts: seq<Token>, p: nat)
    requires p <= |ts|
    ensures Ternary(s, ts, p)
            == match Level(s, OR, ts, p)
               case Err(e) => Err(e)
               case Ok((c, q)) =>
                 if Peek(ts, q).kind != Question then Ok((c, q))
                 else
                   match Ternary(s, ts, q + 1)
                   case Err(e) => Err(e)
                   case Ok((a, u)) =>
                     if Peek(ts, u).kind != Colon then Err(MissingColon)
                     else
                       match Ternary(s, ts, u + 1)
                       case Err(e) => Err(e)
                       case Ok((b, w)) => Ok((if s.truthy(c) then a else b, w))
  {
    hide Level;
  }

  lemma PostfixIs<V, E>(s: Semantics<V, E>, v: V, ts: seq<Token>, p: nat)
    requires p <= |ts|
    ensures var t := Peek(ts, p);
            if !IsPostfix(t) then Postfix(s, v, ts, p) == Ok((v, p))
            else if Peek(ts, p + 1).kind == LParen then
              var args := Items(s, RParen, ts, p + 2);
              if args.Err? then Postfix(s, v, ts, p) == Err(args.error)
              else
                var w := Lift(s.method_(v, t.text[1..], args.value.0));
                if w.Err? then Postfix(s, v, ts, p) == Err(w.error)
                else Postfix(s, v, ts, p) == Postfix(s, w.value, ts, args.value.1)
            else
              var w := Lift(s.property(v, t.text[1..]));
              if w.Err? then Postfix(s, v, ts, p) == Err(w.error)
              else Postfix(s, v, ts, p) == Postfix(s, w.value, ts, p + 1)
  {
    hide Items, Lift;
  }

  class ExpressionParser<V, E> {
    const s: Semantics<V, E>
    const tokens: seq<Token>
    var pos: nat

    constructor (s: Semantics<V, E>, tokens: seq<Token>)
      ensures this.s == s && this.tokens == tokens && pos == 0
    {
      this.s := s;
      this.tokens := tokens;
      pos := 0;
    }

    function Next(): Token
      reads this
    {
      Peek(tokens, pos)
    }

    method MatchKind(kind: TokenKind) returns (ok: bool)
      requires pos <= |tokens| && kind != EOF
      modifies this
      ensures ok == (Peek(tokens, old(pos)).kind == kind)
      ensures pos == old(pos) + (if ok then 1 else 0) <= |tokens|
    {
      ok := Next().kind == kind;
      if ok { pos := pos + 1; }
    }

    method MatchOperator(operator: string) returns (ok: bool)
      requires pos <= |tokens|
      modifies this
      ensures ok == IsOperator(Peek(tokens, old(pos)), operator)
      ensures pos == old(pos) + (if ok then 1 else 0) <= |tokens|
    {
      ok := IsOperator(Next(), operator);
      if ok { pos := pos + 1; }
    }

    method MatchKeyword(keyword: string) returns (ok: bool)
      requires pos <= |tokens|
      modifies this
      ensures ok == IsKeyword(Peek(tokens, old(pos)), keyword)
      ensures pos == old(pos) + (if ok then 1 else 0) <= |tokens|
    {
      ok := IsKeyword(Next(), keyword);
      if ok { pos := pos + 1; }
    }

    method MatchComparisonOperator() returns (operator: Option<string>)
      requires pos <= |tokens|
      modifies this
      ensures operator == ComparisonOf(Peek(tokens, old(pos)))
      ensures pos == old(pos) + (if operator.Some? then 1 else 0) <= |tokens|
    {
      operator := ComparisonOf(Next());
      if operator.Some? { pos := pos + 1; }
    }

    method MatchNotIn() returns (ok: bool)
      requires pos <= |tokens|
      modifies this
      ensures ok == (old(pos) + 1 < |tokens| && IsKeyword(tokens[old(pos)], "not")
              && IsKeyword(tokens[old(pos) + 1], "in"))
      ensures pos == old(pos) + (if ok then 2 else 0) <= |tokens|
    {
      if pos + 1 >= |tokens| {
        return false;
      }
      ok := IsKeyword(tokens[pos], "not") && IsKeyword(tokens[pos + 1], "in");
      if ok { pos := pos + 2; }
    }

    method MatchEmptyOperator() returns (ok: bool)
      requires pos <= |tokens|
      modifies this
      ensures ok == (old(pos) + 1 < |tokens| && StartsValue(tokens[old(pos) + 1])
              && IsKeyword(Peek(tokens, old(pos)), "empty"))
      ensures pos == old(pos) + (if ok then 1 else 0) <= |tokens|
    {
      if pos + 1 >= |tokens| || !StartsValue(tokens[pos + 1]) {
        return false;
      }
      ok := MatchKeyword("empty");
    }

    /** The operator of a level that comes next, if one does. */
    ghost predicate Matched(level: nat, from: nat, op: Option<BinaryOp>)
      requires from <= |tokens|
      reads this
    {
      match OperatorAt(level, tokens, from)
      case None => op == None && pos == from
      case Some((o, n)) => op == Some(o) && pos == from + n
    }

    method MatchOr() returns (op: Option<BinaryOp>)
      requires pos <= |tokens|
      modifies this
      ensures pos <= |tokens| && Matched(OR, old(pos), op)
    {
      hide IsKeyword, IsOperator;
      var matched := MatchKeyword("or");
      if !matched { matched := MatchOperator("||"); }
      return if matched then Some(Or) else None;
    }

    method MatchAnd() returns (op: Option<BinaryOp>)
      requires pos <= |tokens|
      modifies this
      ensures pos <= |tokens| && Matched(AND, old(pos), op)
    {
      hide IsKeyword, IsOperator;
      var matched := MatchKeyword("and");
      if !matched { matched := MatchOperator("&&"); }
      return if matched then Some(And) else None;
    }

    method MatchComparison() returns (op: Option<BinaryOp>)
      requires pos <= |tokens|
      modifies this
      ensures pos <= |tokens| && Matched(COMPARISON, old(pos), op)
    {
      hide IsKeyword, ComparisonOf;
      var operator := MatchComparisonOperator();
      if operator.Some? {
        return Some(Compare(operator.value));
      }
      var matched := MatchKeyword("in");
      if matched {
        return Some(In);
      }
      matched := MatchNotIn();
      return if matched then Some(NotIn) else None;
    }

    method MatchAdditive() returns (op: Option<BinaryOp>)
      requires pos <= |tokens|
      modifies this
      ensures pos <= |tokens| && Matched(ADDITIVE, old(pos), op)
    {
      hide IsOperator;
      var matched := MatchOperator("+");
      if matched {
        return Some(Add);
      }
      matched := MatchOperator("-");
      return if matched then Some(Subtract) else None;
    }

    method MatchMultiplicative() returns (op: Option<BinaryOp>)
      requires pos <= |tokens|
      modifies this
      ensures pos <= |tokens| && Matched(MULTIPLICATIVE, old(pos), op)
    {
      hide IsOperator;
      var matched := MatchOperator("*");
      if matched {
        return Some(Multiply);
      }
      matched := MatchOperator("/");
      if matched {
        return Some(Divide);
      }
      matched := MatchOperator("%");
      return if matched then Some(Modulo) else None;
    }

    method ParseTernary() returns (r: Result<V, Failure<E>>)
      requires pos <= |tokens|
      modifies this
      ensures pos <= |tokens| && Outcome(Ternary(s, tokens, old(pos)), r, pos)
      ensures r.Ok? ==> old(pos) < pos
      decreases |tokens| - pos, 20
    {
      hide Ternary, OperatorAt, UnaryAt, Level;
      TernaryIs(s, tokens, pos);
      var condition := ParseOr();
      if condition.Err? {
        return condition;
      }
      var question := MatchKind(Question);
      if !question {
        return condition;
      }
      var trueValue := ParseTernary();
      if trueValue.Err? {
        return trueValue;
      }
      var colon := MatchKind(Colon);
      if !colon {
        return Err(MissingColon);
      }
      var falseValue := ParseTernary();
      if falseValue.Err? {
        return falseValue;
      }
      if s.truthy(condition.value) {
        return trueValue;
      }
      return falseValue;
    }

    method ParseOr() returns (r: Result<V, Failure<E>>)
      requires pos <= |tokens|
      modifies this
      ensures pos <= |tokens| && Outcome(Level(s, OR, tokens, old(pos)), r, pos)
      ensures r.Ok? ==> old(pos) < pos
      decreases |tokens| - pos, 18
    {
      hide Level, Rest, Apply, OperatorAt, Unary;
      ghost var all := Level(s, OR, tokens, pos);
      LevelIs(s, OR, tokens, pos);
      r := ParseAnd();
      if r.Err? {
        return;
      }
      var left := r.value;
      while true
        invariant old(pos) < pos <= |tokens|
        invariant Rest(s, OR, left, tokens, pos) == all
        decreases |tokens| - pos
      {
        RestIs(s, OR, left, tokens, pos);
        var op := MatchOr();
        if op.None? {
          return Ok(left);
        }
        var right := ParseAnd();
        if right.Err? {
          return right;
        }
        var value := Apply(s, op.value, left, right.value);
        if value.Err? {
          return value;
        }
        left := value.value;
      }
    }

    method ParseAnd() returns (r: Result<V, Failure<E>>)
      requires pos <= |tokens|
      modifies this
      ensures pos <= |tokens| && Outcome(Level(s, AND, tokens, old(pos)), r, pos)
      ensures r.Ok? ==> old(pos) < pos
      decreases |tokens| - pos, 17
    {
      hide Level, Rest, Apply, OperatorAt, Unary;
      ghost var all := Level(s, AND, tokens, pos);
      LevelIs(s, AND, tokens, pos);
      r := ParseComparison();
      if r.Err? {
        return;
      }
      var left := r.value;
      while true
        invariant old(pos) < pos <= |tokens|
        invariant Rest(s, AND, left, tokens, pos) == all
        decreases |tokens| - pos
      {
        RestIs(s, AND, left, tokens, pos);
        var op := MatchAnd();
        if op.None? {
          return Ok(left);
        }
        var right := ParseComparison();
        if right.Err? {
          return right;
        }
        var value := Apply(s, op.value, left, right.value);
        if value.Err? {
          return value;
        }
        left := value.value;
      }
    }

    method ParseComparison() returns (r: Result<V, Failure<E>>)
      requires pos <= |tokens|
      modifies this
      ensures pos <= |tokens| && Outcome(Level(s, COMPARISON, tokens, old(pos)), r, pos)
      ensures r.Ok? ==> old(pos) < pos
      decreases |tokens| - pos, 16
    {
      hide Level, Rest, Apply, OperatorAt, Unary;
      ghost var all := Level(s, COMPARISON, tokens, pos);
      LevelIs(s, COMPARISON, tokens, pos);
      r := ParseAdditive();
      if r.Err? {
        return;
      }
      var left := r.value;
      while true
        invariant old(pos) < pos <= |tokens|
        invariant Rest(s, COMPARISON, left, tokens, pos) == all
        decreases |tokens| - pos
      {
        RestIs(s, COMPARISON, left, tokens, pos);
        var op := MatchComparison();
        if op.None? {
          return Ok(left);
        }
        var right := ParseAdditive();
        if right.Err? {
          return right;
        }
        var value := Apply(s, op.value, left, right.value);
        if value.Err? {
          return value;
        }
        left := value.value;
      }
    }

    method ParseAdditive() returns (r: Result<V, Failure<E>>)
      requires pos <= |tokens|
      modifies this
      ensures pos <= |tokens| && Outcome(Level(s, ADDITIVE, tokens, old(pos)), r, pos)
      ensures r.Ok? ==> old(pos) < pos
      decreases |tokens| - pos, 15
    {
      hide Level, Rest, Apply, OperatorAt, Unary;
      ghost var all := Level(s, ADDITIVE, tokens, pos);
      LevelIs(s, ADDITIVE, tokens, pos);
      r := ParseMultiplicative();
      if r.Err? {
        return;
      }
      var left := r.value;
      while true
        invariant old(pos) < pos <= |tokens|
        invariant Rest(s, ADDITIVE, left, tokens, pos) == all
        decreases |tokens| - pos
      {
        RestIs(s, ADDITIVE, left, tokens, pos);
        var op := MatchAdditive();
        if op.None? {
          return Ok(left);
        }
        var right := ParseMultiplicative();
        if right.Err? {
          return right;
        }
        var value := Apply(s, op.value, left, right.value);
        if value.Err? {
          return value;
        }
        left := value.value;
      }
    }

    method ParseMultiplicative() returns (r: Result<V, Failure<E>>)
      requires pos <= |tokens|
      modifies this
      ensures pos <= |tokens| && Outcome(Level(s, MULTIPLICATIVE, tokens, old(pos)), r, pos)
      ensures r.Ok? ==> old(pos) < pos
      decreases |tokens| - pos, 14
    {
      hide Level, Rest, Apply, OperatorAt, Unary;
      ghost var all := Level(s, MULTIPLICATIVE, tokens, pos);
      LevelIs(s, MULTIPLICATIVE, tokens, pos);
      UnaryIs(s, tokens, pos);
      r := ParseUnary();
      if r.Err? {
        return;
      }
      var left := r.value;
      while true
        invariant old(pos) < pos <= |tokens|
        invariant Rest(s, MULTIPLICATIVE, left, tokens, pos) == all
        decreases |tokens| - pos
      {
        RestIs(s, MULTIPLICATIVE, left, tokens, pos);
        var op := MatchMultiplicative();
        if op.None? {
          return Ok(left);
        }
        UnaryIs(s, tokens, pos);
        var right := ParseUnary();
        if right.Err? {
          return right;
        }
        var value := Apply(s, op.value, left, right.value);
        if value.Err? {
          return value;
        }
        left := value.value;
      }
    }

    method ParseUnary() returns (r: Result<V, Failure<E>>)
      requires pos <= |tokens|
      modifies this
      ensures pos <= |tokens| && Outcome(Unary(s, tokens, old(pos)), r, pos)
      ensures r.Ok? ==> old(pos) < pos
      decreases |tokens| - pos, 12
    {
      hide IsKeyword, IsOperator, StartsValue, Primary, ApplyUnary;
      ghost var p := pos;
      var op := Not;
      var matched := MatchKeyword("not");
      if !matched { matched := MatchOperator("!"); }
      if !matched {
        matched := MatchEmptyOperator();
        op := Empty;
      }
      if !matched {
        matched := MatchOperator("-");
        op := Negative;
      }
      if !matched {
        matched := MatchOperator("+");
        op := Positive;
      }
      assert UnaryAt(tokens, p) == if matched then Some(op) else None;
      if !matched {
        r := ParsePrimary();
        return;
      }
      var value := ParseUnary();
      if value.Err? {
        return value;
      }
      return ApplyUnary(s, op, value.value);
    }

    method ParsePrimary() returns (r: Result<V, Failure<E>>)
      requires pos <= |tokens|
      modifies this
      ensures pos <= |tokens| && Outcome(Primary(s, tokens, old(pos)), r, pos)
      ensures r.Ok? ==> old(pos) < pos
      decreases |tokens| - pos, 11
    {
      hide Ternary, Items, Postfix, Lift;
      var matched := MatchKind(LParen);
      if matched {
        var value := ParseTernary();
        if value.Err? {
          return value;
        }
        var close := MatchKind(RParen);
        if !close {
          return Err(MissingParenthesis);
        }
        r := ParsePostfix(value.value);
        return;
      }
      matched := MatchKind(LBrace);
      if matched {
        var values := ParseItems(RBrace);
        if values.Err? {
          return Err(values.error);
        }
        r := ParsePostfix(s.list(values.value));
        return;
      }
      r := ParseName();
    }

    /** A word, a call, a text or a number. */
    method ParseName() returns (r: Result<V, Failure<E>>)
      requires pos <= |tokens| && Peek(tokens, pos).kind != LParen && Peek(tokens, pos).kind != LBrace
      modifies this
      ensures pos <= |tokens| && Outcome(Primary(s, tokens, old(pos)), r, pos)
      ensures r.Ok? ==> old(pos) < pos
      decreases |tokens| - pos, 10
    {
      hide Ternary, Items, Postfix, Lift, IsPostfix;
      var token := Next();
      if token.kind != Word && token.kind != String && token.kind != Number {
        return Err(ExpectedValue);
      }
      pos := pos + 1;
      if token.kind == Word {
        if IsPostfix(token) {
          return Err(UnexpectedMethod);
        }
        var call := MatchKind(LParen);
        if call {
          var args := ParseItems(RParen);
          if args.Err? {
            return Err(args.error);
          }
          var result := Lift(s.call(token.text, args.value));
          if result.Err? {
            return result;
          }
          r := ParsePostfix(result.value);
          return;
        }
      }
      var value := Lift(s.atom(token));
      if value.Err? {
        return value;
      }
      r := ParsePostfix(value.value);
    }

    method ParsePostfix(v: V) returns (r: Result<V, Failure<E>>)
      requires pos <= |tokens|
      modifies this
      ensures pos <= |tokens| && Outcome(Postfix(s, v, tokens, old(pos)), r, pos)
      ensures r.Ok? ==> old(pos) <= pos
      decreases |tokens| - pos, 9
    {
      hide Items, Lift, Postfix;
      ghost var all := Postfix(s, v, tokens, pos);
      var value := v;
      while true
        invariant old(pos) <= pos <= |tokens|
        invariant Postfix(s, value, tokens, pos) == all
        decreases |tokens| - pos
      {
        PostfixIs(s, value, tokens, pos);
        var token := Next();
        if !IsPostfix(token) {
          return Ok(value);
        }
        pos := pos + 1;
        var next: Result<V, Failure<E>>;
        var call := MatchKind(LParen);
        if call {
          var args := ParseItems(RParen);
          if args.Err? {
            return Err(args.error);
          }
          next := Lift(s.method_(value, token.text[1..], args.value));
        } else {
          next := Lift(s.property(value, token.text[1..]));
        }
        if next.Err? {
          return next;
        }
        value := next.value;
      }
    }

    /** The values of a list or of a call, up to the closing token. */
    method ParseItems(close: TokenKind) returns (r: Result<seq<V>, Failure<E>>)
      requires pos <= |tokens| && close != EOF
      modifies this
      ensures pos <= |tokens| && ListOutcome(Items(s, close, tokens, old(pos)), r, pos)
      ensures r.Ok? ==> old(pos) < pos
      decreases |tokens| - pos, 22
    {
      hide Ternary;
      var values := [];
      var empty := MatchKind(close);
      if empty {
        return Ok(values);
      }
      while true
        invariant old(pos) <= pos <= |tokens|
        invariant Items(s, close, tokens, old(pos)) == More(s, close, values, tokens, pos)
        decreases |tokens| - pos
      {
        var value := ParseTernary();
        if value.Err? {
          return Err(value.error);
        }
        values := values + [value.value];
        var done := MatchKind(close);
        if done {
          return Ok(values);
        }
        var comma := MatchKind(Comma);
        if !comma {
          return Err(MissingComma);
        }
      }
    }
  }

  method EvalTokens<V, E>(s: Semantics<V, E>, tokens: seq<Token>) returns (r: Result<V, Failure<E>>)
    ensures r == Evaluate(s, tokens)
  {
    hide Ternary;
    var parser := new ExpressionParser(s, tokens);
    var value := parser.ParseTernary();
    if value.Err? {
      return value;
    }
    if Peek(tokens, parser.pos).kind != EOF {
      return Err(Unexpected);
    }
    return value;
  }
}
