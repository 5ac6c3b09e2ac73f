/**
 The parser of dynamic SQL tests in expression.go, which evaluates while it reads. Values, their operators and the
 errors of evaluation are parameters. The methods of the parser are proved against functions of the tokens.
 */
module Expression {
  import opened Prelude
  import Text

  datatype TokenKind =
    | EOF | Word | String | Number | Operator | LParen | RParen | LBrace | RBrace | Comma | Question | Colon

  datatype Token = Token(kind: TokenKind, text: string)

  const END := Token(EOF, "")
  const OPEN := Token(LParen, "(")
  const CLOSE := Token(RParen, ")")
  const LEFT := Token(LBrace, "{")
  const RIGHT := Token(RBrace, "}")
  const COMMA := Token(Comma, ",")
  const ASK := Token(Question, "?")
  const ELSE := Token(Colon, ":")

  datatype Failure<+E> =
    | Evaluation(e: E)
    | EmptyExpression | Unterminated | InvalidNear | Unexpected | MissingColon | MissingParenthesis | MissingComma
    | ExpectedValue | UnexpectedMethod

  datatype BinaryOp = Or | And | Compare(operator: string) | In | NotIn | Add | Subtract | Multiply | Divide | Modulo

  datatype UnaryOp = Not | Empty | Negative | Positive

  /** Values and what the operators do with them. */
  datatype Semantics<!V, E> = Semantics(
    truthy: V -> bool,
    ofBool: bool -> V,
    atom: Token -> Result<V, E>,
    list: seq<V> -> V,
    compare: (V, string, V) -> Result<V, E>,
    contains: (V, V) -> bool,
    isEmpty: V -> bool,
    add: (V, V) -> Result<V, E>,
    numeric: (V, V, string) -> Result<V, E>,
    negate: V -> Result<V, E>,
    number: V -> Result<V, E>,
    call: (string, seq<V>) -> Result<V, E>,
    method_: (V, string, seq<V>) -> Result<V, E>,
    property: (V, string) -> Result<V, E>)

  function Lift<V, E>(r: Result<V, E>): Result<V, Failure<E>> {
    match r case Ok(v) => Ok(v) case Err(e) => Err(Evaluation(e))
  }

  function Apply<V, E>(s: Semantics<V, E>, op: BinaryOp, l: V, r: V): Result<V, Failure<E>> {
    match op
    case Or => Ok(s.ofBool(s.truthy(l) || s.truthy(r)))
    case And => Ok(s.ofBool(s.truthy(l) && s.truthy(r)))
    case Compare(operator) => Lift(s.compare(l, operator, r))
    case In => Ok(s.ofBool(s.contains(r, l)))
    case NotIn => Ok(s.ofBool(!s.contains(r, l)))
    case Add => Lift(s.add(l, r))
    case Subtract => Lift(s.numeric(l, r, "-"))
    case Multiply => Lift(s.numeric(l, r, "*"))
    case Divide => Lift(s.numeric(l, r, "/"))
    case Modulo => Lift(s.numeric(l, r, "%"))
  }

  function ApplyUnary<V, E>(s: Semantics<V, E>, op: UnaryOp, v: V): Result<V, Failure<E>> {
    match op
    case Not => Ok(s.ofBool(!s.truthy(v)))
    case Empty => Ok(s.ofBool(s.isEmpty(v)))
    case Negative => Lift(s.negate(v))
    case Positive => Lift(s.number(v))
  }

  // ---- looking at the next tokens ----

  function Peek(ts: seq<Token>, p: nat): Token {
    if p < |ts| then ts[p] else END
  }

  predicate IsKeyword(t: Token, keyword: string) {
    t.kind == Word && Text.EqualFold(t.text, keyword)
  }

  predicate IsOperator(t: Token, operator: string) {
    t.kind == Operator && t.text == operator
  }

  function ComparisonOf(t: Token): Option<string> {
    if t.kind == Operator then
      if t.text == "==" || t.text == "!=" || t.text == ">" || t.text == ">=" || t.text == "<"
        || t.text == "<=" then Some(t.text)
      else None
    else if t.kind == Word then
      var w := Text.Lower(t.text);
      if w == "eq" then Some("==")
      else if w == "ne" || w == "neq" then Some("!=")
      else if w == "gt" then Some(">")
      else if w == "gte" || w == "ge" then Some(">=")
      else if w == "lt" then Some("<")
      else if w == "lte" || w == "le" then Some("<=")
      else None
    else None
  }

  /** Whether a value can start with a token. */
  predicate StartsValue(t: Token) {
    || t.kind == Word || t.kind == String || t.kind == Number || t.kind == LParen || t.kind == LBrace
    || (t.kind == Operator && (t.text == "!" || t.text == "-" || t.text == "+"))
  }

  const OR := 1
  const AND := 2
  const COMPARISON := 3
  const ADDITIVE := 4
  const MULTIPLICATIVE := 5
  const UNARY := 6
  const PRIMARY := 7

  /** The binary operator of a level at a position, and how many tokens it has. */
  function OperatorAt(level: nat, ts: seq<Token>, p: nat): (r: Option<(BinaryOp, nat)>)
    ensures r.Some? ==> p < |ts| && 0 < r.value.1 && p + r.value.1 <= |ts|
  {
    var t := Peek(ts, p);
    if level == OR then
      if IsKeyword(t, "or") || IsOperator(t, "||") then Some((Or, 1)) else None
    else if level == AND then
      if IsKeyword(t, "and") || IsOperator(t, "&&") then Some((And, 1)) else None
    else if level == COMPARISON then
      if ComparisonOf(t).Some? then Some((Compare(ComparisonOf(t).value), 1))
      else if IsKeyword(t, "in") then Some((In, 1))
      else if p + 1 < |ts| && IsKeyword(ts[p], "not") && IsKeyword(ts[p + 1], "in") then Some((NotIn, 2))
      else None
    else if level == ADDITIVE then
      if IsOperator(t, "+") then Some((Add, 1)) else if IsOperator(t, "-") then Some((Subtract, 1)) else None
    else if level == MULTIPLICATIVE then
      if IsOperator(t, "*") then Some((Multiply, 1))
      else if IsOperator(t, "/") then Some((Divide, 1))
      else if IsOperator(t, "%") then Some((Modulo, 1))
      else None
    else None
  }

  function UnaryAt(ts: seq<Token>, p: nat): (r: Option<UnaryOp>)
    ensures r.Some? ==> p < |ts|
  {
    var t := Peek(ts, p);
    if IsKeyword(t, "not") || IsOperator(t, "!") then Some(Not)
    else if p + 1 < |ts| && StartsValue(ts[p + 1]) && IsKeyword(t, "empty") then Some(Empty)
    else if IsOperator(t, "-") then Some(Negative)
    else if IsOperator(t, "+") then Some(Positive)
    else None
  }

  /** A word that continues a value: a method or a property. */
  predicate IsPostfix(t: Token) {
    t.kind == Word && t.text != "" && t.text[0] == '.'
  }

  // ---- what the parser computes ----

  /** A value and the position after it. */
  type Parsed<V, E> = Result<(V, nat), Failure<E>>

  function Ternary<V, E>(s: Semantics<V, E>, ts: seq<Token>, p: nat): (r: Parsed<V, E>)
    requires p <= |ts|
    ensures r.Ok? ==> p < r.value.1 <= |ts|
    decreases |ts| - p, 20
  {
    match Level(s, OR, ts, p)
    case Err(e) => Err(e)
    case Ok((c, q)) =>
      if Peek(ts, q).kind != Question then Ok((c, q))
      else
        match Ternary(s, ts, q + 1)
        case Err(e) => Err(e)
        case Ok((a, u)) =>
          if Peek(ts, u).kind != Colon then Err(MissingColon)
          else
            match Ternary(s, ts, u + 1)
            case Err(e) => Err(e)
            case Ok((b, w)) => Ok((if s.truthy(c) then a else b, w))
  }

  /** One of the levels from or to multiplication: an operand of the next level, and the rest. */
  function Level<V, E>(s: Semantics<V, E>, level: nat, ts: seq<Token>, p: nat): (r: Parsed<V, E>)
    requires OR <= level <= UNARY && p <= |ts|
    ensures r.Ok? ==> p < r.value.1 <= |ts|
    decreases |ts| - p, 19 - level
  {
    if level == UNARY then Unary(s, ts, p)
    else
      match Level(s, level + 1, ts, p)
      case Err(e) => Err(e)
      case Ok((v, q)) => Rest(s, level, v, ts, q)
  }

  /** Further operators of a level and their right operands, from the left. */
  function Rest<V, E>(s: Semantics<V, E>, level: nat, v: V, ts: seq<Token>, p: nat): (r: Parsed<V, E>)
    requires OR <= level < UNARY && p <= |ts|
    ensures r.Ok? ==> p <= r.value.1 <= |ts|
    decreases |ts| - p, 10
  {
    match OperatorAt(level, ts, p)
    case None => Ok((v, p))
    case Some((op, n)) =>
      match Level(s, level + 1, ts, p + n)
      case Err(e) => Err(e)
      case Ok((w, q)) =>
        match Apply(s, op, v, w)
        case Err(e) => Err(e)
        case Ok(x) => Rest(s, level, x, ts, q)
  }

  function Unary<V, E>(s: Semantics<V, E>, ts: seq<Token>, p: nat): (r: Parsed<V, E>)
    requires p <= |ts|
    ensures r.Ok? ==> p < r.value.1 <= |ts|
    decreases |ts| - p, 12
  {
    match UnaryAt(ts, p)
    case None => Primary(s, ts, p)
    case Some(op) =>
      match Unary(s, ts, p + 1)
      case Err(e) => Err(e)
      case Ok((v, q)) => (match ApplyUnary(s, op, v) case Err(e) => Err(e) case Ok(w) => Ok((w, q)))
  }

  function Primary<V, E>(s: Semantics<V, E>, ts: seq<Token>, p: nat): (r: Parsed<V, E>)
    requires p <= |ts|
    ensures r.Ok? ==> p < r.value.1 <= |ts|
    decreases |ts| - p, 11
  {
    var t := Peek(ts, p);
    if t.kind == LParen then
      match Ternary(s, ts, p + 1)
      case Err(e) => Err(e)
      case Ok((v, q)) => if Peek(ts, q).kind != RParen then Err(MissingParenthesis) else Postfix(s, v, ts, q + 1)
    else if t.kind == LBrace then
      match Items(s, RBrace, ts, p + 1)
      case Err(e) => Err(e)
      case Ok((vs, q)) => Postfix(s, s.list(vs), ts, q)
    else if t.kind == Word then
      if IsPostfix(t) then Err(UnexpectedMethod)
      else if Peek(ts, p + 1).kind == LParen then
        match Items(s, RParen, ts, p + 2)
        case Err(e) => Err(e)
        case Ok((vs, q)) =>
          (match Lift(s.call(t.text, vs)) case Err(e) => Err(e) case Ok(v) => Postfix(s, v, ts, q))
      else
        (match Lift(s.atom(t)) case Err(e) => Err(e) case Ok(v) => Postfix(s, v, ts, p + 1))
    else if t.kind == String || t.kind == Number then
      (match Lift(s.atom(t)) case Err(e) => Err(e) case Ok(v) => Postfix(s, v, ts, p + 1))
    else Err(ExpectedValue)
  }

  /** Methods and properties of a value. */
  function Postfix<V, E>(s: Semantics<V, E>, v: V, ts: seq<Token>, p: nat): (r: Parsed<V, E>)
    requires p <= |ts|
    ensures r.Ok? ==> p <= r.value.1 <= |ts|
    decreases |ts| - p, 10
  {
    var t := Peek(ts, p);
    if !IsPostfix(t) then Ok((v, p))
    else if Peek(ts, p + 1).kind == LParen then
      match Items(s, RParen, ts, p + 2)
      case Err(e) => Err(e)
      case Ok((vs, q)) =>
        (match Lift(s.method_(v, t.text[1..], vs)) case Err(e) => Err(e) case Ok(w) => Postfix(s, w, ts, q))
    else
      (match Lift(s.property(v, t.text[1..])) case Err(e) => Err(e) case Ok(w) => Postfix(s, w, ts, p + 1))
  }

  /** The values up to a closing token, which may follow at once. */
  function Items<V, E>(s: Semantics<V, E>, close: TokenKind, ts: seq<Token>, p: nat)
    : (r: Result<(seq<V>, nat), Failure<E>>)
    requires p <= |ts| && close != EOF
    ensures r.Ok? ==> p < r.value.1 <= |ts|
    decreases |ts| - p, 22
  {
    if Peek(ts, p).kind == close then Ok(([], p + 1)) else More(s, close, [], ts, p)
  }

  function More<V, E>(s: Semantics<V, E>, close: TokenKind, vs: seq<V>, ts: seq<Token>, p: nat)
    : (r: Result<(seq<V>, nat), Failure<E>>)
    requires p <= |ts| && close != EOF
    ensures r.Ok? ==> p < r.value.1 <= |ts|
    decreases |ts| - p, 21
  {
    match Ternary(s, ts, p)
    case Err(e) => Err(e)
    case Ok((v, q)) =>
      if Peek(ts, q).kind == close then Ok((vs + [v], q + 1))
      else if Peek(ts, q).kind != Comma then Err(MissingComma)
      else More(s, close, vs + [v], ts, q + 1)
  }

  /** A whole list of tokens. */
  function Evaluate<V, E>(s: Semantics<V, E>, ts: seq<Token>): Result<V, Failure<E>> {
    match Ternary(s, ts, 0)
    case Err(e) => Err(e)
    case Ok((v, p)) => if Peek(ts, p).kind == EOF then Ok(v) else Err(Unexpected)
  }
}
